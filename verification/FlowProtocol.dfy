/**
 Two grpc-c endpoints joined by one FIFO byte stream in each direction: every interleaving of
 opening streams, sending DATA (check and consume as one step) and delivering frames.
 */
module FlowProtocol {
  import opened Machine
  import opened Http2
  import opened FlowControl
  import opened Runs

  datatype Windows = Windows(local: Int32, remote: Int32)
  datatype Endpoint = Endpoint(conn: Windows, streams: map<U32, Windows>)

  /** `Credit` is a WINDOW_UPDATE; id 0 means the connection. */
  datatype Message = Data(id: U32, len: nat) | Credit(id: U32, increment: U32)

  /** `ab` carries what `a` sent and `b` has not yet received; `failures` counts -1 results of the receiver. */
  datatype Net = Net(a: Endpoint, b: Endpoint, ab: seq<Message>, ba: seq<Message>, failures: nat)

  /** The same system seen from the other end. */
  function Swap(n: Net): Net {
    Net(n.b, n.a, n.ba, n.ab, n.failures)
  }

  const FRESH := Windows(DEFAULT_WINDOW, DEFAULT_WINDOW)

  function Init(): Net {
    Net(Endpoint(FRESH, map[]), Endpoint(FRESH, map[]), [], [], 0)
  }

  // ----- steps, as seen by endpoint a -----

  function OpenStream(n: Net, id: U32): Net {
    if id == 0 || id in n.a.streams || id in n.b.streams then n
    else n.(a := n.a.(streams := n.a.streams[id := FRESH]), b := n.b.(streams := n.b.streams[id := FRESH]))
  }

  function SendData(n: Net, id: U32, len: nat): Net {
    if id !in n.a.streams || !MaySend(n.a.conn.remote, n.a.streams[id].remote, len) then n
    else
      var s := n.a.streams[id];
      n.(a := Endpoint(n.a.conn.(remote := Spend(n.a.conn.remote, len)),
                       n.a.streams[id := s.(remote := Spend(s.remote, len))]),
         ab := n.ab + [Data(id, len)])
  }

  function CreditFor(id: U32, credit: nat): seq<Message> {
    if 0 < credit <= INT_MAX then [Credit(id, credit)] else []
  }

  function ReceiveData(n: Net, id: U32, len: nat): Net {
    if id !in n.b.streams then n.(failures := n.failures + 1)
    else
      var s := n.b.streams[id];
      match Receive(n.b.conn.local, s.local, len)
      case Refused => n.(failures := n.failures + 1)
      case StreamShort(c) =>
        n.(b := n.b.(conn := n.b.conn.(local := c.window)), ba := n.ba + CreditFor(0, c.credit),
           failures := n.failures + 1)
      case Accepted(c, sc) =>
        n.(b := Endpoint(n.b.conn.(local := c.window), n.b.streams[id := s.(local := sc.window)]),
           ba := n.ba + CreditFor(0, c.credit) + CreditFor(id, sc.credit))
  }

  function ReceiveCredit(n: Net, id: U32, increment: U32): Net {
    if increment == 0 || increment > INT_MAX then n.(failures := n.failures + 1)
    else if id == 0 then n.(b := n.b.(conn := n.b.conn.(remote := AddCredit(n.b.conn.remote, increment))))
    else if id !in n.b.streams then n
    else
      var s := n.b.streams[id];
      n.(b := n.b.(streams := n.b.streams[id := s.(remote := AddCredit(s.remote, increment))]))
  }

  /** `b` takes the oldest message off `ab`. */
  function Deliver(n: Net): Net {
    if n.ab == [] then n
    else
      var rest := n.(ab := n.ab[1..]);
      match n.ab[0]
      case Data(id, len) => ReceiveData(rest, id, len)
      case Credit(id, increment) => ReceiveCredit(rest, id, increment)
  }

  /** `fromA` tells which endpoint sends, or whose messages are delivered. */
  datatype Action = Open(id: U32) | Send(fromA: bool, to: U32, len: nat) | Receipt(fromA: bool)

  function Step(n: Net, x: Action): Net {
    match x
    case Open(id) => OpenStream(n, id)
    case Send(fromA, id, len) => if fromA then SendData(n, id, len) else Swap(SendData(Swap(n), id, len))
    case Receipt(fromA) => if fromA then Deliver(n) else Swap(Deliver(Swap(n)))
  }

  function Run(n: Net, xs: seq<Action>): Net {
    Fold(Step, n, xs)
  }

  /** The same action seen from the other end. */
  function Turned(x: Action): Action {
    match x
    case Open(id) => x
    case Send(fromA, id, len) => Send(!fromA, id, len)
    case Receipt(fromA) => Receipt(!fromA)
  }

  /** Both ends run the same code. */
  lemma StepTurned(n: Net, x: Action)
    ensures Step(Swap(n), Turned(x)) == Swap(Step(n, x))
  {
    hide SendData, Deliver;
  }

  // ----- what is in flight -----

  datatype Quantity = AllData | DataOn(id: U32) | CreditOn(id: U32)

  function Weight(m: Message, q: Quantity): nat {
    match m
    case Data(id, len) => if q == AllData || q == DataOn(id) then len else 0
    case Credit(id, increment) => if q == CreditOn(id) then increment else 0
  }

  function InFlight(ms: seq<Message>, q: Quantity): nat {
    if ms == [] then 0 else Weight(ms[0], q) + InFlight(ms[1..], q)
  }

  lemma {:induction false} InFlightAppend(ms: seq<Message>, more: seq<Message>, q: Quantity)
    ensures InFlight(ms + more, q) == InFlight(ms, q) + InFlight(more, q)
  {
    if ms == [] {
      assert ms + more == more;
    } else {
      InFlightAppend(ms[1..], more, q);
      assert (ms + more)[1..] == ms[1..] + more;
    }
  }

  lemma InFlightOne(m: Message, q: Quantity)
    ensures InFlight([m], q) == Weight(m, q)
  {
    assert [m][1..] == [];
  }

  lemma {:induction false} InFlightAtLeast(ms: seq<Message>, m: Message, q: Quantity)
    requires m in ms
    ensures InFlight(ms, q) >= Weight(m, q)
  {
    if ms[0] != m { InFlightAtLeast(ms[1..], m, q); }
  }

  // ----- the invariant -----

  /**
   One account: what the sender may still send, plus what is under way, is what the receiver will
   accept. `adjust` is for bytes that some other system has to count besides; 0 in this one.
   */
  predicate Balanced(remote: int, adjust: int, local: int, inFlight: nat, credit: nat) {
    Healthy(local) && remote + adjust + inFlight + credit == local
  }

  ghost predicate StreamBalanced(n: Net, id: U32, adjust: int)
    requires id in n.a.streams && id in n.b.streams
  {
    Balanced(n.a.streams[id].remote, adjust, n.b.streams[id].local, InFlight(n.ab, DataOn(id)), InFlight(n.ba, CreditOn(id)))
  }

  ghost predicate WellAddressed(ms: seq<Message>, ids: set<U32>) {
    forall m :: m in ms ==>
      match m
      case Data(id, len) => id in ids
      case Credit(id, increment) => (id == 0 || id in ids) && 0 < increment <= DEFAULT_WINDOW
  }

  /** The accounts of the direction from `a` to `b`: DATA in `ab`, credit for it in `ba`. */
  ghost predicate Accounted(n: Net, adjust: U32 -> int) {
    && n.a.streams.Keys == n.b.streams.Keys && 0 !in n.a.streams
    && WellAddressed(n.ab, n.a.streams.Keys)
    && Balanced(n.a.conn.remote, adjust(0), n.b.conn.local, InFlight(n.ab, AllData), InFlight(n.ba, CreditOn(0)))
    && forall id :: id in n.a.streams ==> StreamBalanced(n, id, adjust(id))
  }

  function NoAdjust(id: U32): int {
    0
  }

  /** No send window is overdrawn. */
  ghost predicate Solvent(e: Endpoint) {
    e.conn.remote >= 0 && forall id :: id in e.streams ==> e.streams[id].remote >= 0
  }

  /** The direction from `a` to `b` when `lost` bytes of credit have been granted and never sent. */
  ghost predicate ConservedBut(n: Net, lost: U32 -> int) {
    && Accounted(n, lost) && Solvent(n.a)
    && forall id :: lost(id) >= 0 && (id != 0 && id !in n.a.streams ==> lost(id) == 0)
  }

  ghost predicate Ledger(n: Net, lost: U32 -> int, lostBack: U32 -> int) {
    ConservedBut(n, lost) && ConservedBut(Swap(n), lostBack) && n.failures == 0
  }

  ghost predicate Conserved(n: Net) {
    ConservedBut(n, NoAdjust)
  }

  ghost predicate Inv(n: Net) {
    Ledger(n, NoAdjust, NoAdjust)
  }

  /** Callers pass lengths below 2^31; see `OversizedSendFails`. */
  predicate Sane(x: Action) {
    x.Send? ==> x.len <= INT_MAX
  }

  // ----- every step keeps the invariant -----

  lemma {:induction false} NoneInFlight(ms: seq<Message>, ids: set<U32>, id: U32)
    requires WellAddressed(ms, ids) && id !in ids && id != 0
    ensures InFlight(ms, DataOn(id)) == 0 && InFlight(ms, CreditOn(id)) == 0
  {
    if ms != [] {
      assert ms[0] in ms && forall m :: m in ms[1..] ==> m in ms;
      NoneInFlight(ms[1..], ids, id);
    }
  }

  lemma OpenAccounted(n: Net, id: U32, lost: U32 -> int)
    requires Accounted(n, lost) && WellAddressed(n.ba, n.a.streams.Keys) && id != 0 && id !in n.a.streams && lost(id) == 0
    ensures Accounted(OpenStream(n, id), lost)
  {
    NoneInFlight(n.ab, n.a.streams.Keys, id);
    NoneInFlight(n.ba, n.a.streams.Keys, id);
    hide InFlight;
    var m := OpenStream(n, id);
    forall k | k in m.a.streams ensures StreamBalanced(m, k, lost(k)) {
      if k != id { assert StreamBalanced(n, k, lost(k)); }
    }
  }

  lemma OpenKeeps(n: Net, id: U32, lost: U32 -> int, lostBack: U32 -> int)
    requires Ledger(n, lost, lostBack)
    ensures Ledger(OpenStream(n, id), lost, lostBack)
  {
    hide Balanced, StreamBalanced;
    if id != 0 && id !in n.a.streams {
      OpenAccounted(n, id, lost);
      OpenAccounted(Swap(n), id, lostBack);
      hide Accounted;
    }
  }

  lemma AppendMessage(ms: seq<Message>, m: Message)
    ensures forall q :: InFlight(ms + [m], q) == InFlight(ms, q) + Weight(m, q)
  {
    forall q ensures InFlight(ms + [m], q) == InFlight(ms, q) + Weight(m, q) {
      InFlightAppend(ms, [m], q);
      InFlightOne(m, q);
    }
  }

  /** A step of the sender alone keeps the accounts if window, adjustment and DATA in flight trade evenly. */
  lemma Rebalanced(n: Net, m: Net, adjust: U32 -> int, adjust': U32 -> int)
    requires Accounted(n, adjust) && m.b == n.b && m.ba == n.ba
    requires m.a.streams.Keys == n.a.streams.Keys && WellAddressed(m.ab, m.a.streams.Keys)
    requires m.a.conn.remote + adjust'(0) + InFlight(m.ab, AllData)
          == n.a.conn.remote + adjust(0) + InFlight(n.ab, AllData)
    requires forall id :: id in n.a.streams ==>
      m.a.streams[id].remote + adjust'(id) + InFlight(m.ab, DataOn(id))
      == n.a.streams[id].remote + adjust(id) + InFlight(n.ab, DataOn(id))
    ensures Accounted(m, adjust')
  {
    hide InFlight, WellAddressed;
    forall k | k in m.a.streams ensures StreamBalanced(m, k, adjust'(k)) {
      assert StreamBalanced(n, k, adjust(k));
    }
  }

  /** A step that moves nothing counted in one direction keeps its accounts. */
  lemma SameAccounts(n: Net, m: Net, adjust: U32 -> int)
    requires Accounted(n, adjust) && WellAddressed(m.ab, n.a.streams.Keys)
    requires m.a.conn.remote == n.a.conn.remote && m.b.conn.local == n.b.conn.local
    requires m.a.streams.Keys == n.a.streams.Keys && m.b.streams.Keys == n.b.streams.Keys
    requires forall id :: id in m.a.streams ==> m.a.streams[id].remote == n.a.streams[id].remote
    requires forall id :: id in m.b.streams ==> m.b.streams[id].local == n.b.streams[id].local
    requires InFlight(m.ab, AllData) == InFlight(n.ab, AllData)
    requires forall id :: InFlight(m.ab, DataOn(id)) == InFlight(n.ab, DataOn(id))
    requires forall id :: InFlight(m.ba, CreditOn(id)) == InFlight(n.ba, CreditOn(id))
    ensures Accounted(m, adjust)
  {
    hide InFlight, WellAddressed;
    forall k | k in m.a.streams ensures StreamBalanced(m, k, adjust(k)) {
      assert StreamBalanced(n, k, adjust(k));
    }
  }

  /** DATA added to `ab`, and whatever the sender did to its send windows, leave the opposite direction alone. */
  lemma SenderOpposite(n: Net, m: Net, more: seq<Message>, adjust: U32 -> int)
    requires Accounted(Swap(n), adjust) && m.b == n.b && m.ba == n.ba && m.ab == n.ab + more
    requires forall x :: x in more ==> x.Data?
    requires m.a.conn.local == n.a.conn.local && m.a.streams.Keys == n.a.streams.Keys
    requires forall k :: k in m.a.streams ==> m.a.streams[k].local == n.a.streams[k].local
    ensures Accounted(Swap(m), adjust)
  {
    hide InFlight, WellAddressed, StreamBalanced, Balanced;
    forall id ensures InFlight(m.ab, CreditOn(id)) == InFlight(n.ab, CreditOn(id)) {
      InFlightAppend(n.ab, more, CreditOn(id));
      NoCredit(more, CreditOn(id));
    }
    SameAccounts(Swap(n), Swap(m), adjust);
  }

  lemma {:induction false} NoCredit(ms: seq<Message>, q: Quantity)
    requires q.CreditOn? && forall x :: x in ms ==> x.Data?
    ensures InFlight(ms, q) == 0
  {
    if ms != [] { NoCredit(ms[1..], q); }
  }

  lemma SendAccounted(n: Net, m: Net, id: U32, len: nat, lost: U32 -> int)
    requires Accounted(n, lost) && id in n.a.streams && m.b == n.b && m.ba == n.ba && m.ab == n.ab + [Data(id, len)]
    requires len <= n.a.conn.remote && len <= n.a.streams[id].remote
    requires m.a == Endpoint(n.a.conn.(remote := n.a.conn.remote - len),
                             n.a.streams[id := n.a.streams[id].(remote := n.a.streams[id].remote - len)])
    ensures Accounted(m, lost)
  {
    AppendMessage(n.ab, Data(id, len));
    hide InFlight, StreamBalanced;
    Rebalanced(n, m, lost, lost);
  }

  lemma SendKeeps(n: Net, id: U32, len: nat, lost: U32 -> int, lostBack: U32 -> int)
    requires Ledger(n, lost, lostBack) && len <= INT_MAX
    ensures Ledger(SendData(n, id, len), lost, lostBack)
  {
    hide Accounted;
    var m := SendData(n, id, len);
    if m != n {
      SendAccounted(n, m, id, len, lost);
      SenderOpposite(n, m, [Data(id, len)], lostBack);
    }
  }

  /**
   Exactly which sends keep the invariant: those below 2^31 bytes and those the test turns away.
   A longer one that passes the test puts more into flight than the receiver can account for.
   */
  lemma SendKeepsIff(n: Net, id: U32, len: nat)
    requires Inv(n)
    ensures Inv(SendData(n, id, len)) <==> len <= INT_MAX || SendData(n, id, len) == n
  {
    var m := SendData(n, id, len);
    if len <= INT_MAX {
      SendKeeps(n, id, len, NoAdjust, NoAdjust);
    } else if m != n {
      var d := Data(id, len);
      assert m.ab[|n.ab|] == d && d in m.ab;
      InFlightAtLeast(m.ab, d, AllData);
      hide InFlight, SendData;
      if Conserved(m) { assert m.a.conn.remote + InFlight(m.ab, AllData) <= DEFAULT_WINDOW; }
    }
  }

  /** In a conserved state the receiver accepts the oldest DATA frame. */
  lemma DataAccepted(n: Net, lost: U32 -> int)
    requires ConservedBut(n, lost) && n.ab != [] && n.ab[0].Data?
    ensures var d := n.ab[0];
      && d.id in n.b.streams && ToInt32(d.len) == d.len
      && Receive(n.b.conn.local, n.b.streams[d.id].local, d.len).Accepted?
  {
    var d := n.ab[0];
    assert d in n.ab;
    assert StreamBalanced(n, d.id, lost(d.id));
    InFlightAtLeast(n.ab, d, AllData);
    InFlightAtLeast(n.ab, d, DataOn(d.id));
  }

  lemma AppendCredits(ms: seq<Message>, id: U32, c: nat, sc: nat)
    requires c <= DEFAULT_WINDOW && sc <= DEFAULT_WINDOW && id != 0
    ensures SameButCredit(ms + CreditFor(0, c) + CreditFor(id, sc), ms, id, c, sc)
  {
    hide InFlight;
    var more := ms + CreditFor(0, c) + CreditFor(id, sc);
    forall q ensures InFlight(more, q) == InFlight(ms, q) + InFlight(CreditFor(0, c), q) + InFlight(CreditFor(id, sc), q) {
      InFlightAppend(ms + CreditFor(0, c), CreditFor(id, sc), q);
      InFlightAppend(ms, CreditFor(0, c), q);
    }
    forall q ensures InFlight(CreditFor(0, c), q) == if q == CreditOn(0) then c else 0 { CreditWeight(0, c, q); }
    forall q ensures InFlight(CreditFor(id, sc), q) == if q == CreditOn(id) then sc else 0 { CreditWeight(id, sc, q); }
  }

  lemma CreditWeight(k: U32, x: nat, q: Quantity)
    requires x <= DEFAULT_WINDOW
    ensures InFlight(CreditFor(k, x), q) == if q == CreditOn(k) then x else 0
  {
    if x > 0 { InFlightOne(Credit(k, x), q); }
  }

  /** `ms` with the head taken off, in every quantity. */
  lemma TakeHead(ms: seq<Message>)
    requires ms != []
    ensures forall q :: InFlight(ms[1..], q) == InFlight(ms, q) - Weight(ms[0], q)
    ensures forall x :: x in ms[1..] ==> x in ms
  {
  }

  ghost predicate SameButCredit(after: seq<Message>, before: seq<Message>, id: U32, c: nat, sc: nat) {
    && (forall k :: InFlight(after, DataOn(k)) == InFlight(before, DataOn(k)))
    && InFlight(after, AllData) == InFlight(before, AllData)
    && (forall k :: InFlight(after, CreditOn(k)) == InFlight(before, CreditOn(k))
                     + (if k == 0 then c else if k == id then sc else 0))
  }

  /** Delivering DATA: the account of the direction that carried it. */
  lemma DataDirection(n: Net, m: Net, c: Charge, sc: Charge, adjust: U32 -> int)
    requires Accounted(n, adjust) && n.ab != [] && n.ab[0].Data? && n.ab[0].id in n.b.streams
    requires var d := n.ab[0];
      && m.a == n.a && m.ab == n.ab[1..]
      && m.b == Endpoint(n.b.conn.(local := c.window),
                         n.b.streams[d.id := n.b.streams[d.id].(local := sc.window)])
      && SameButCredit(m.ba, n.ba, d.id, c.credit, sc.credit)
      && Restored(n.b.conn.local, d.len, c) && Restored(n.b.streams[d.id].local, d.len, sc)
    ensures Accounted(m, adjust)
  {
    hide InFlight, WellAddressed;
    TakeHead(n.ab);
    TailAddressed(n.ab, n.a.streams.Keys);
    forall k | k in m.a.streams ensures StreamBalanced(m, k, adjust(k)) {
      assert StreamBalanced(n, k, adjust(k));
    }
  }

  lemma TailAddressed(ms: seq<Message>, ids: set<U32>)
    requires WellAddressed(ms, ids) && ms != []
    ensures WellAddressed(ms[1..], ids)
  {
    assert forall m :: m in ms[1..] ==> m in ms;
  }

  lemma AppendAddressed(ms: seq<Message>, ids: set<U32>, id: U32, c: nat, sc: nat)
    requires WellAddressed(ms, ids) && id in ids && c <= DEFAULT_WINDOW && sc <= DEFAULT_WINDOW
    ensures WellAddressed(ms + CreditFor(0, c) + CreditFor(id, sc), ids)
  {
  }

  /** Delivering DATA: the opposite direction, whose messages now include the new credit. */
  lemma DataOpposite(n: Net, m: Net, c: Charge, sc: Charge, adjust: U32 -> int)
    requires Accounted(Swap(n), adjust) && n.ab != [] && n.ab[0].Data? && n.ab[0].id in n.b.streams
    requires var d := n.ab[0];
      && m.a == n.a && m.ab == n.ab[1..]
      && m.b == Endpoint(n.b.conn.(local := c.window),
                         n.b.streams[d.id := n.b.streams[d.id].(local := sc.window)])
      && SameButCredit(m.ba, n.ba, d.id, c.credit, sc.credit)
      && m.ba == n.ba + CreditFor(0, c.credit) + CreditFor(d.id, sc.credit)
      && c.credit <= DEFAULT_WINDOW && sc.credit <= DEFAULT_WINDOW
    ensures Accounted(Swap(m), adjust)
  {
    hide InFlight, WellAddressed, CreditFor, StreamBalanced, Balanced;
    TakeHead(n.ab);
    AppendAddressed(n.ba, n.b.streams.Keys, n.ab[0].id, c.credit, sc.credit);
    SameAccounts(Swap(n), Swap(m), adjust);
  }

  /** What accepting the DATA frame at the head of `ab` makes of the system. */
  lemma AcceptedShape(n: Net, adjust: U32 -> int)
    requires Accounted(n, adjust) && n.ab != [] && n.ab[0].Data?
    requires var d := n.ab[0];
      && d.id in n.b.streams && ToInt32(d.len) == d.len
      && Receive(n.b.conn.local, n.b.streams[d.id].local, d.len).Accepted?
    ensures var d, m := n.ab[0], Deliver(n); var r := Receive(n.b.conn.local, n.b.streams[d.id].local, d.len);
      && m.a == n.a && m.ab == n.ab[1..] && m.failures == n.failures
      && m.b == Endpoint(n.b.conn.(local := r.conn.window),
                         n.b.streams[d.id := n.b.streams[d.id].(local := r.stream.window)])
      && m.ba == n.ba + CreditFor(0, r.conn.credit) + CreditFor(d.id, r.stream.credit)
      && Restored(n.b.conn.local, d.len, r.conn) && Restored(n.b.streams[d.id].local, d.len, r.stream) && d.id != 0
  {
    hide InFlight, Receive, CreditFor, WellAddressed;
    var d := n.ab[0];
    assert StreamBalanced(n, d.id, adjust(d.id));
    ReceiveKeepsHealthy(n.b.conn.local, n.b.streams[d.id].local, d.len);
  }

  /** Delivering DATA that the receiver accepts keeps the accounts of both directions. */
  lemma AcceptedDelivery(n: Net, adjust: U32 -> int, adjustBack: U32 -> int)
    requires Accounted(n, adjust) && Accounted(Swap(n), adjustBack) && n.ab != [] && n.ab[0].Data?
    requires var d := n.ab[0];
      && d.id in n.b.streams && ToInt32(d.len) == d.len
      && Receive(n.b.conn.local, n.b.streams[d.id].local, d.len).Accepted?
    ensures var m := Deliver(n);
      && Accounted(m, adjust) && Accounted(Swap(m), adjustBack) && m.failures == n.failures && m.ab == n.ab[1..]
      && m.a == n.a && m.b.conn.remote == n.b.conn.remote && m.b.streams.Keys == n.b.streams.Keys
      && (forall id :: id in n.b.streams ==> m.b.streams[id].remote == n.b.streams[id].remote)
      && (forall x :: x in m.ba ==> x in n.ba || x.Credit?)
  {
    hide InFlight, Receive, Accounted, Deliver, SameButCredit;
    var d, m := n.ab[0], Deliver(n);
    var r := Receive(n.b.conn.local, n.b.streams[d.id].local, d.len);
    AcceptedShape(n, adjust);
    AppendCredits(n.ba, d.id, r.conn.credit, r.stream.credit);
    DataDirection(n, m, r.conn, r.stream, adjust);
    DataOpposite(n, m, r.conn, r.stream, adjustBack);
  }

  lemma ReceiveDataKeeps(n: Net, lost: U32 -> int, lostBack: U32 -> int)
    requires Ledger(n, lost, lostBack) && n.ab != [] && n.ab[0].Data?
    ensures Ledger(Deliver(n), lost, lostBack)
  {
    hide Accounted, Deliver, Receive;
    DataAccepted(n, lost);
    AcceptedDelivery(n, lost, lostBack);
  }

  /** The oldest credit under way is positive, names an open window, and brings it to at most `max`. */
  ghost predicate CreditWithin(n: Net, max: int) {
    n.ab != [] && n.ab[0].Credit? ==>
      var c := n.ab[0];
      && 0 < c.increment <= DEFAULT_WINDOW
      && (c.id == 0 ==> n.b.conn.remote + c.increment <= max)
      && (c.id != 0 ==> c.id in n.b.streams && n.b.streams[c.id].remote + c.increment <= max)
  }

  /** It can be added without exceeding the default window, let alone wrapping. */
  ghost predicate CreditFits(n: Net) {
    CreditWithin(n, DEFAULT_WINDOW)
  }

  lemma CreditWithinWhenAccounted(n: Net, adjust: U32 -> int, adjustBack: U32 -> int, slack: nat)
    requires Accounted(n, adjust) && Accounted(Swap(n), adjustBack)
    requires adjustBack(0) + slack >= 0 && forall id :: id in n.b.streams ==> adjustBack(id) + slack >= 0
    ensures CreditWithin(n, DEFAULT_WINDOW + slack)
  {
    if n.ab != [] && n.ab[0].Credit? {
      var c := n.ab[0];
      assert c in n.ab;
      InFlightAtLeast(n.ab, c, CreditOn(c.id));
      assert c.id != 0 ==> StreamBalanced(Swap(n), c.id, adjustBack(c.id));
    }
  }

  /** Delivering credit that does not wrap keeps the accounts of both directions, and only raises a window. */
  lemma CreditDelivery(n: Net, adjust: U32 -> int, adjustBack: U32 -> int)
    requires Accounted(n, adjust) && Accounted(Swap(n), adjustBack)
    requires n.ab != [] && n.ab[0].Credit? && CreditWithin(n, INT_MAX)
    ensures var m := Deliver(n);
      && Accounted(m, adjust) && Accounted(Swap(m), adjustBack) && m.failures == n.failures && m.ab == n.ab[1..]
      && m.a == n.a && m.ba == n.ba && m.b.conn.remote >= n.b.conn.remote && m.b.streams.Keys == n.b.streams.Keys
      && (forall id :: id in n.b.streams ==> m.b.streams[id].remote >= n.b.streams[id].remote)
  {
    hide InFlight, Accounted, StreamBalanced;
    CreditDirection(n, Deliver(n), adjustBack);
    CreditOpposite(n, Deliver(n), adjust);
  }

  lemma ReceiveCreditKeeps(n: Net, lost: U32 -> int, lostBack: U32 -> int)
    requires Ledger(n, lost, lostBack) && n.ab != [] && n.ab[0].Credit?
    ensures Ledger(Deliver(n), lost, lostBack)
  {
    CreditWithinWhenAccounted(n, lost, lostBack, 0);
    hide Accounted, Deliver;
    CreditDelivery(n, lost, lostBack);
  }

  lemma CreditDirection(n: Net, m: Net, adjust: U32 -> int)
    requires Accounted(Swap(n), adjust) && n.ab != [] && n.ab[0].Credit? && CreditWithin(n, INT_MAX)
    requires var c := n.ab[0];
      && m.a == n.a && m.ba == n.ba && m.ab == n.ab[1..]
      && m.b == if c.id == 0 then n.b.(conn := n.b.conn.(remote := n.b.conn.remote + c.increment))
        else n.b.(streams := n.b.streams[c.id := n.b.streams[c.id].(remote := n.b.streams[c.id].remote + c.increment)])
    ensures Accounted(Swap(m), adjust)
  {
    hide InFlight, WellAddressed;
    TakeHead(n.ab);
    forall k | k in m.a.streams ensures StreamBalanced(Swap(m), k, adjust(k)) {
      assert StreamBalanced(Swap(n), k, adjust(k));
    }
  }

  lemma CreditOpposite(n: Net, m: Net, adjust: U32 -> int)
    requires Accounted(n, adjust) && n.ab != [] && n.ab[0].Credit?
    requires m.a == n.a && m.ba == n.ba && m.ab == n.ab[1..]
    requires m.b.conn.local == n.b.conn.local && m.b.streams.Keys == n.b.streams.Keys
    requires forall k :: k in m.b.streams ==> m.b.streams[k].local == n.b.streams[k].local
    ensures Accounted(m, adjust)
  {
    hide InFlight, StreamBalanced, Balanced;
    TakeHead(n.ab);
    SameAccounts(n, m, adjust);
  }

  lemma StepKeeps(n: Net, x: Action, lost: U32 -> int, lostBack: U32 -> int)
    requires Ledger(n, lost, lostBack) && Sane(x)
    ensures Ledger(Step(n, x), lost, lostBack)
  {
    hide ConservedBut, OpenStream, SendData, Deliver;
    match x
    case Open(id) => OpenKeeps(n, id, lost, lostBack);
    case Send(fromA, id, len) =>
      if fromA { SendKeeps(n, id, len, lost, lostBack); } else { SendKeeps(Swap(n), id, len, lostBack, lost); }
    case Receipt(fromA) =>
      if fromA { DeliverKeeps(n, lost, lostBack); } else { DeliverKeeps(Swap(n), lostBack, lost); }
  }

  lemma DeliverKeeps(n: Net, lost: U32 -> int, lostBack: U32 -> int)
    requires Ledger(n, lost, lostBack)
    ensures Ledger(Deliver(n), lost, lostBack)
  {
    hide ConservedBut;
    if n.ab != [] {
      if n.ab[0].Data? { ReceiveDataKeeps(n, lost, lostBack); } else { ReceiveCreditKeeps(n, lost, lostBack); }
    }
  }

  // ----- whole runs -----

  lemma {:induction false} RunKeeps(n: Net, xs: seq<Action>)
    requires Inv(n) && forall x :: x in xs ==> Sane(x)
    ensures Inv(Run(n, xs))
    decreases |xs|
  {
    hide Ledger, Step;
    if xs != [] {
      assert Ledger(Step(n, xs[0]), NoAdjust, NoAdjust) by { StepKeeps(n, xs[0], NoAdjust, NoAdjust); }
      RunKeeps(Step(n, xs[0]), xs[1..]);
    }
  }

  ghost predicate WindowsBounded(e: Endpoint) {
    && 0 <= e.conn.remote <= DEFAULT_WINDOW && Healthy(e.conn.local)
    && forall id :: id in e.streams ==> 0 <= e.streams[id].remote <= DEFAULT_WINDOW && Healthy(e.streams[id].local)
  }

  /**
   In every reachable state and in both directions, on the connection and on every stream,
   sender window + DATA in flight + credit in flight = receiver window. Hence no window leaves
   [0, 65535], no pending credit can wrap a window, and the receiver has never returned -1.
   */
  lemma CreditConservation(xs: seq<Action>)
    requires forall x :: x in xs ==> Sane(x)
    ensures var n := Run(Init(), xs);
      && Conserved(n) && Conserved(Swap(n))
      && WindowsBounded(n.a) && WindowsBounded(n.b)
      && CreditFits(n) && CreditFits(Swap(n))
      && n.failures == 0
  {
    assert Inv(Init());
    hide Fold, Accounted, Solvent, WindowsBounded, CreditWithin;
    var n := Run(Init(), xs);
    RunKeeps(Init(), xs);
    CreditWithinWhenAccounted(n, NoAdjust, NoAdjust, 0);
    CreditWithinWhenAccounted(Swap(n), NoAdjust, NoAdjust, 0);
    BoundedWhenConserved(n);
    BoundedWhenConserved(Swap(n));
  }

  lemma BoundedWhenConserved(n: Net)
    requires Conserved(n) && Conserved(Swap(n))
    ensures WindowsBounded(n.a)
  {
    hide InFlight, WellAddressed;
    assert forall id :: id in n.a.streams ==> StreamBalanced(n, id, NoAdjust(id));
    assert forall id :: id in n.b.streams ==> StreamBalanced(Swap(n), id, NoAdjust(id));
  }

  // ----- a send goes through -----

  /**
   With nothing under way, either end can send whatever its windows cover, and the next delivery has
   the other end accept it; both send windows and both receive windows are charged for it.
   */
  lemma SendArrives(n: Net, fromA: bool, id: U32, len: nat)
    requires Inv(n) && n.ab == n.ba == [] && id in n.a.streams
    requires var e := if fromA then n.a else n.b; len <= e.conn.remote && len <= e.streams[id].remote
    ensures var m := Run(n, [Send(fromA, id, len), Receipt(fromA)]);
      var (u, v) := if fromA then (n, m) else (Swap(n), Swap(m));
      && v.failures == 0 && v.ab == [] && id in v.a.streams && id in v.b.streams
      && v.a.conn.remote == u.a.conn.remote - len && v.a.streams[id].remote == u.a.streams[id].remote - len
      && v.b.conn.local == LeftOf(u.b.conn.local, len) && v.b.streams[id].local == LeftOf(u.b.streams[id].local, len)
  {
    var u := if fromA then n else Swap(n);
    var n1 := Step(n, Send(fromA, id, len));
    var n2 := Step(n1, Receipt(fromA));
    SendTaken(u, id, len);
    hide Step, Inv;
    FoldTrace(Step, [n, n1, n2], [Send(fromA, id, len), Receipt(fromA)]);
  }

  lemma SendTaken(n: Net, id: U32, len: nat)
    requires Inv(n) && n.ab == n.ba == [] && id in n.a.streams
    requires len <= n.a.conn.remote && len <= n.a.streams[id].remote
    ensures var m := Deliver(SendData(n, id, len));
      && m.failures == 0 && m.ab == [] && id in m.a.streams && id in m.b.streams
      && m.a.conn.remote == n.a.conn.remote - len && m.a.streams[id].remote == n.a.streams[id].remote - len
      && m.b.conn.local == LeftOf(n.b.conn.local, len) && m.b.streams[id].local == LeftOf(n.b.streams[id].local, len)
  {
    assert StreamBalanced(n, id, NoAdjust(id));
    var m := SendData(n, id, len);
    assert m.ab == [Data(id, len)];
    hide Inv;
  }

  /** In any state a send goes on the wire, and off both windows, exactly if the stream is open and both windows cover the cast length. */
  lemma SendOutcome(n: Net, id: U32, len: nat)
    ensures var m := SendData(n, id, len);
      if id in n.a.streams && ToInt32(len) <= n.a.conn.remote && ToInt32(len) <= n.a.streams[id].remote then
        && m == n.(a := m.a, ab := n.ab + [Data(id, len)]) && m.a.streams.Keys == n.a.streams.Keys
        && m.a.conn == n.a.conn.(remote := Spend(n.a.conn.remote, len))
        && (forall k :: k in n.a.streams ==>
              m.a.streams[k] == if k == id then n.a.streams[k].(remote := Spend(n.a.streams[k].remote, len)) else n.a.streams[k])
      else m == n
  {
    hide Spend;
  }

  /**
   Every delivery of credit: an increment of 0 or above 2^31 - 1 is a failure; any other raises the
   connection window, or that of the stream if it is open. No other window changes and nothing is sent.
   */
  lemma CreditOutcome(n: Net)
    requires n.ab != [] && n.ab[0].Credit?
    ensures var c, m := n.ab[0], Deliver(n); var lawful := 0 < c.increment <= 0x7FFF_FFFF;
      && m == n.(ab := n.ab[1..], b := m.b, failures := n.failures + if lawful then 0 else 1)
      && m.b.streams.Keys == n.b.streams.Keys
      && m.b.conn == n.b.conn.(remote := if lawful && c.id == 0 then AddCredit(n.b.conn.remote, c.increment) else n.b.conn.remote)
      && (forall k :: k in n.b.streams ==>
            m.b.streams[k] == if lawful && c.id != 0 && k == c.id
                              then n.b.streams[k].(remote := AddCredit(n.b.streams[k].remote, c.increment)) else n.b.streams[k])
  {
    hide AddCredit;
  }

  /** The WINDOW_UPDATE for a window charged with `n` bytes, if one is due. */
  function Announcement(id: U32, window: Int32, n: nat): seq<Message>
    requires n <= window
  {
    if window - n < 32767 then [Credit(id, 65535 - (window - n))] else []
  }

  /**
   Every delivery of DATA: it fails unless the stream is open and both windows cover it; a failure
   on the stream window alone has charged the connection's; what is charged below 32767 is announced; nothing else changes.
   */
  lemma DataOutcome(n: Net)
    requires n.ab != [] && n.ab[0].Data?
    ensures var d, m := n.ab[0], Deliver(n); var len := ToInt32(d.len);
      var onConn := d.id in n.b.streams && 0 <= len <= 65535 && len <= n.b.conn.local;
      var onStream := onConn && len <= n.b.streams[d.id].local;
      && m == n.(ab := n.ab[1..], b := m.b, ba := m.ba, failures := n.failures + if onStream then 0 else 1)
      && m.b.conn == n.b.conn.(local := if onConn then LeftOf(n.b.conn.local, len) else n.b.conn.local)
      && m.b.streams.Keys == n.b.streams.Keys
      && (forall k :: k in n.b.streams ==>
            m.b.streams[k] == if onStream && k == d.id
                              then n.b.streams[k].(local := LeftOf(n.b.streams[k].local, len)) else n.b.streams[k])
      && m.ba == n.ba + (if onConn then Announcement(0, n.b.conn.local, len) else [])
                      + (if onStream then Announcement(d.id, n.b.streams[d.id].local, len) else [])
  {
    var d := n.ab[0];
    if d.id in n.b.streams {
      ReceiveOutcome(n.b.conn.local, n.b.streams[d.id].local, d.len, ToInt32(d.len));
      hide Receive;
    }
  }

  // ----- no stall -----

  function Cost(ms: seq<Message>): nat {
    if ms == [] then 0 else (if ms[0].Data? then 3 else 1) + Cost(ms[1..])
  }

  lemma {:induction false} CostAppend(ms: seq<Message>, more: seq<Message>)
    ensures Cost(ms + more) == Cost(ms) + Cost(more)
  {
    if ms == [] {
      assert ms + more == more;
    } else {
      CostAppend(ms[1..], more);
      assert (ms + more)[1..] == ms[1..] + more;
    }
  }

  lemma DeliverCosts(n: Net)
    requires n.ab != []
    requires n.ab[0].Data? ==>
      && n.ab[0].id in n.b.streams
      && Receive(n.b.conn.local, n.b.streams[n.ab[0].id].local, n.ab[0].len).Accepted?
    ensures Cost(Deliver(n).ab) + Cost(Deliver(n).ba) < Cost(n.ab) + Cost(n.ba)
  {
    if n.ab[0].Data? {
      var d := n.ab[0];
      var r := Receive(n.b.conn.local, n.b.streams[d.id].local, d.len);
      CostAppend(n.ba, CreditFor(0, r.conn.credit));
      CostAppend(n.ba + CreditFor(0, r.conn.credit), CreditFor(d.id, r.stream.credit));
      CreditCost(0, r.conn.credit);
      CreditCost(d.id, r.stream.credit);
    }
  }

  lemma CreditCost(id: U32, c: nat)
    ensures Cost(CreditFor(id, c)) <= 1
  {
    if 0 < c <= INT_MAX { assert [Credit(id, c)][1..] == []; }
  }

  ghost predicate MayAllSend(e: Endpoint, len: nat) {
    forall id :: id in e.streams ==> MaySend(e.conn.remote, e.streams[id].remote, len)
  }

  /** Finitely many deliveries empty both directions, whatever credit has been lost before. */
  lemma {:induction false} Drain(n: Net, lost: U32 -> int, lostBack: U32 -> int) returns (xs: seq<Action>)
    requires Ledger(n, lost, lostBack)
    ensures |xs| <= Cost(n.ab) + Cost(n.ba) && forall x :: x in xs ==> x.Receipt?
    ensures var m := Run(n, xs);
      Ledger(m, lost, lostBack) && m.ab == m.ba == [] && m.a.streams.Keys == n.a.streams.Keys
    decreases Cost(n.ab) + Cost(n.ba)
  {
    if n.ab == [] && n.ba == [] {
      xs := [];
    } else {
      hide Ledger, Cost, Step;
      var fromA := n.ab != [];
      ReceiptProgress(n, fromA, lost, lostBack);
      var rest := Drain(Step(n, Receipt(fromA)), lost, lostBack);
      xs := [Receipt(fromA)] + rest;
      assert xs[1..] == rest;
    }
  }

  /** A delivery keeps the accounts and the streams, and leaves less to deliver. */
  lemma ReceiptProgress(n: Net, fromA: bool, lost: U32 -> int, lostBack: U32 -> int)
    requires Ledger(n, lost, lostBack) && (if fromA then n.ab != [] else n.ba != [])
    ensures var m := Step(n, Receipt(fromA));
      && Ledger(m, lost, lostBack) && m.a.streams.Keys == n.a.streams.Keys
      && Cost(m.ab) + Cost(m.ba) < Cost(n.ab) + Cost(n.ba)
  {
    hide Cost, Accounted, Deliver, Receive, Solvent;
    StepKeeps(n, Receipt(fromA), lost, lostBack);
    var v := if fromA then n else Swap(n);
    if v.ab[0].Data? { DataAccepted(v, if fromA then lost else lostBack); }
    DeliverCosts(v);
    DeliverShape(v);
  }

  lemma DeliverShape(n: Net)
    requires n.ab != []
    ensures var m := Deliver(n);
      && m.a == n.a && m.ab == n.ab[1..] && m.b.streams.Keys == n.b.streams.Keys
      && forall x :: x in m.ba ==> x in n.ba || x.Credit?
  {
    hide Receive, AddCredit;
  }

  /**
   No stall: from every state with the invariant, so from every reachable state, finitely many
   deliveries alone lead to one where either endpoint may send any 32767 bytes, more than a
   16384-byte frame, on every stream.
   */
  lemma NoStall(n: Net) returns (xs: seq<Action>)
    requires Inv(n)
    ensures |xs| <= Cost(n.ab) + Cost(n.ba) && forall x :: x in xs ==> x.Receipt?
    ensures var m := Run(n, xs);
      && Inv(m) && m.ab == m.ba == [] && m.a.streams.Keys == n.a.streams.Keys
      && forall len :: 0 <= len <= THRESHOLD ==> MayAllSend(m.a, len) && MayAllSend(m.b, len)
  {
    xs := Drain(n, NoAdjust, NoAdjust);
    hide Run;
    QuietMaySend(Run(n, xs));
    QuietMaySend(Swap(Run(n, xs)));
  }

  lemma QuietMaySend(n: Net)
    requires Conserved(n) && n.ab == n.ba == []
    ensures forall len :: 0 <= len <= THRESHOLD ==> MayAllSend(n.a, len)
  {
    forall id | id in n.a.streams ensures n.a.streams[id].remote >= THRESHOLD {
      assert StreamBalanced(n, id, NoAdjust(id));
    }
  }

  // ----- against any peer -----

  ghost predicate LocalsHealthy(n: Net) {
    && Healthy(n.b.conn.local) && (forall id :: id in n.b.streams ==> Healthy(n.b.streams[id].local))
    && forall m :: m in n.ba && m.Credit? ==> 32769 <= m.increment <= 65535
  }

  /** What can happen at `b` facing an arbitrary peer: any message arrives in `ab`; `b` opens, sends or takes. */
  datatype PeerAction = Inject(m: Message) | OpenHere(id: U32) | SendHere(to: U32, len: nat) | Take

  function PeerStep(n: Net, x: PeerAction): Net {
    match x
    case Inject(m) => n.(ab := n.ab + [m])
    case OpenHere(id) => if id in n.b.streams then n else n.(b := n.b.(streams := n.b.streams[id := FRESH]))
    case SendHere(id, len) => Swap(SendData(Swap(n), id, len))
    case Take => Deliver(n)
  }

  function PeerRun(n: Net, xs: seq<PeerAction>): Net {
    Fold(PeerStep, n, xs)
  }

  /** Whatever the peer sends and whenever, `b` keeps its local windows healthy and grants no other increments. */
  lemma {:induction false} AnyPeer(n: Net, xs: seq<PeerAction>)
    requires LocalsHealthy(n)
    ensures LocalsHealthy(PeerRun(n, xs))
    decreases |xs|
  {
    if xs != [] {
      PeerHealthy(n, xs[0]);
      hide LocalsHealthy, PeerStep;
      AnyPeer(PeerStep(n, xs[0]), xs[1..]);
    }
  }

  lemma PeerHealthy(n: Net, x: PeerAction)
    requires LocalsHealthy(n)
    ensures LocalsHealthy(PeerStep(n, x))
  {
    if x.Take? { DeliverHealthy(n); }
  }

  lemma DeliverHealthy(n: Net)
    requires LocalsHealthy(n)
    ensures LocalsHealthy(Deliver(n))
  {
    if n.ab != [] && n.ab[0].Data? && n.ab[0].id in n.b.streams {
      ReceiveKeepsHealthy(n.b.conn.local, n.b.streams[n.ab[0].id].local, n.ab[0].len);
    }
  }

  /** The same as far as `b` can tell. */
  ghost predicate SameHere(n: Net, m: Net) {
    n.b == m.b && n.ab == m.ab
  }

  function Injects(ms: seq<Message>): seq<PeerAction> {
    if ms == [] then [] else [Inject(ms[0])] + Injects(ms[1..])
  }

  lemma {:induction false} InjectAll(n: Net, ms: seq<Message>)
    ensures PeerRun(n, Injects(ms)) == n.(ab := n.ab + ms)
    decreases |ms|
  {
    if ms == [] {
      assert n.ab + ms == n.ab;
    } else {
      FoldPrepend(PeerStep, n, Inject(ms[0]), Injects(ms[1..]));
      InjectAll(PeerStep(n, Inject(ms[0])), ms[1..]);
      assert n.ab + ms == n.ab + [ms[0]] + ms[1..];
    }
  }

  /** What `b` takes off the wire reaches `a`, for all `b` can tell, as at most two WINDOW_UPDATEs. */
  lemma OtherReceipt(n: Net) returns (ms: seq<Message>)
    ensures var m := Swap(Deliver(Swap(n))); m.b == n.b && m.ab == n.ab + ms
  {
    hide Receive, AddCredit;
    var m := Swap(Deliver(Swap(n)));
    ms := if |m.ab| >= |n.ab| then m.ab[|n.ab|..] else [];
    assert m.ab == n.ab + ms;
  }

  /** One step of the honest protocol, as an arbitrary peer could have made it look. */
  lemma HonestStep(n: Net, m: Net, x: Action) returns (ys: seq<PeerAction>)
    requires SameHere(n, m)
    ensures SameHere(Step(n, x), PeerRun(m, ys))
  {
    var v := Step(n, x);
    match x
    case Open(id) =>
      ys := if v == n then [] else [OpenHere(id)];
      FoldTrace(PeerStep, [m, PeerStep(m, OpenHere(id))], [OpenHere(id)]);
    case Send(fromA, id, len) =>
      hide MaySend, Spend;
      var y := if fromA then Inject(Data(id, len)) else SendHere(id, len);
      ys := if v == n then [] else [y];
      FoldTrace(PeerStep, [m, PeerStep(m, y)], [y]);
    case Receipt(fromA) =>
      hide Receive, AddCredit;
      if fromA {
        ys := [Take];
        FoldTrace(PeerStep, [m, PeerStep(m, Take)], [Take]);
      } else {
        var ms := OtherReceipt(n);
        ys := Injects(ms);
        InjectAll(m, ms);
      }
  }

  /** Every run of the protocol is, for all that `b` can tell, a run against an arbitrary peer. */
  lemma {:induction false} HonestRun(n: Net, m: Net, xs: seq<Action>) returns (ys: seq<PeerAction>)
    requires SameHere(n, m)
    ensures SameHere(Run(n, xs), PeerRun(m, ys))
    decreases |xs|
  {
    hide Step, PeerStep, SameHere;
    if xs == [] {
      ys := [];
    } else {
      var first := HonestStep(n, m, xs[0]);
      var rest := HonestRun(Step(n, xs[0]), PeerRun(m, first), xs[1..]);
      FoldConcat(PeerStep, m, first, rest);
      ys := first + rest;
    }
  }

  /** DATA of at most `bound` bytes on a stream open at `b`, or lawful credit. */
  predicate Within(n: Net, m: Message, bound: nat) {
    match m
    case Data(id, len) => id in n.b.streams && len <= bound
    case Credit(id, increment) => 0 < increment <= INT_MAX
  }

  ghost predicate FramesWithin(n: Net, bound: nat) {
    forall m :: m in n.ab ==> Within(n, m, bound)
  }

  /** The peer injects only such messages, each on a stream open by then. */
  ghost predicate PeerWithin(n: Net, xs: seq<PeerAction>, bound: nat)
    decreases |xs|
  {
    xs != [] ==>
      && (xs[0].Inject? ==> Within(n, xs[0].m, bound))
      && PeerWithin(PeerStep(n, xs[0]), xs[1..], bound)
  }

  /** A healthy receiver, and a peer all of whose frames carry at most `bound` bytes. */
  ghost predicate Moderate(n: Net, xs: seq<PeerAction>, bound: nat) {
    LocalsHealthy(n) && FramesWithin(n, bound) && PeerWithin(n, xs, bound)
  }

  /**
   A peer that keeps its frames to 32767 bytes is never refused, even one that overdraws the
   connection window it was granted: the receiver has restored its own window in time.
   */
  lemma {:induction false} SmallFramesAccepted(n: Net, xs: seq<PeerAction>)
    requires Moderate(n, xs, THRESHOLD)
    ensures PeerRun(n, xs).failures == n.failures
    decreases |xs|
  {
    if xs != [] {
      PeerHealthy(n, xs[0]);
      SmallFrameStep(n, xs[0]);
      hide LocalsHealthy, FramesWithin, PeerStep;
      SmallFramesAccepted(PeerStep(n, xs[0]), xs[1..]);
    }
  }

  lemma SmallFrameStep(n: Net, x: PeerAction)
    requires LocalsHealthy(n) && FramesWithin(n, THRESHOLD) && (x.Inject? ==> Within(n, x.m, THRESHOLD))
    ensures FramesWithin(PeerStep(n, x), THRESHOLD) && PeerStep(n, x).failures == n.failures
  {
    if x.Take? && n.ab != [] {
      var m := n.ab[0];
      assert m in n.ab && forall y :: y in n.ab[1..] ==> y in n.ab;
      if m.Data? { assert Receive(n.b.conn.local, n.b.streams[m.id].local, m.len).Accepted?; }
    }
  }

  /** A fresh receiver with streams 1 and 3, and two frames for it. */
  function TwoFrames(len1: nat, len3: nat): Net {
    var e := Endpoint(FRESH, map[1 := FRESH, 3 := FRESH]);
    Net(e, e, [Data(1, len1), Data(3, len3)], [], 0)
  }

  /** Two frames of 32768 bytes: the first leaves the connection window at 32767, unrestored, and the second is refused. */
  lemma SecondFrameRefused()
    ensures PeerRun(TwoFrames(32768, 32768), [Take, Take]).failures == 1
  {
    var n := TwoFrames(32768, 32768);
    var n1 := PeerStep(n, Take);
    assert n1.ab == [Data(3, 32768)] && n1.b.conn.local == 32767;
    var n2 := PeerStep(n1, Take);
    hide PeerStep;
    FoldTrace(PeerStep, [n, n1, n2], [Take, Take]);
  }

  /** The frame sizes that no healthy receiver ever refuses, in any run and from any peer, are exactly those up to 32767. */
  lemma NeverRefusedIff(bound: nat)
    ensures (forall n, xs :: Moderate(n, xs, bound) ==> PeerRun(n, xs).failures == n.failures)
      <==> bound <= THRESHOLD
  {
    if bound <= THRESHOLD {
      forall n, xs | Moderate(n, xs, bound) ensures PeerRun(n, xs).failures == n.failures {
        ModerateMonotone(n, xs, bound);
        SmallFramesAccepted(n, xs);
      }
    } else {
      var n, xs := TwoFrames(32768, 32768), [Take, Take];
      SecondFrameRefused();
      assert xs[1..] == [Take] && xs[1..][1..] == [];
      assert PeerWithin(PeerStep(n, Take), [Take], bound);
      assert Moderate(n, xs, bound);
    }
  }

  lemma {:induction false} ModerateMonotone(n: Net, xs: seq<PeerAction>, bound: nat)
    requires PeerWithin(n, xs, bound) && bound <= THRESHOLD
    ensures PeerWithin(n, xs, THRESHOLD)
    decreases |xs|
  {
    hide PeerStep;
    if xs != [] { ModerateMonotone(PeerStep(n, xs[0]), xs[1..], bound); }
  }

  /** A length of 2^31 passes the send test as a negative `int32_t`; the receiver then refuses the frame. */
  lemma OversizedSendFails()
    ensures var n := Run(Init(), [Open(1), Send(true, 1, 0x8000_0000), Receipt(true)]);
      n.failures == 1
  {
    var xs := [Open(1), Send(true, 1, 0x8000_0000), Receipt(true)];
    var n0 := Step(Init(), Open(1));
    var n1 := Step(n0, Send(true, 1, 0x8000_0000));
    assert n1.ab == [Data(1, 0x8000_0000)];
    var n2 := Step(n1, Receipt(true));
    hide Step;
    FoldTrace(Step, [Init(), n0, n1, n2], xs);
  }
}
