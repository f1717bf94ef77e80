/**
 The two-endpoint protocol when sending a WINDOW_UPDATE can fail. The source ignores the result and
 restores the local window all the same, so that the credit is lost: the receiver counts it as
 granted, the sender never hears of it.
 */
module LossyProtocol {
  import opened Machine
  import opened Http2
  import opened FlowControl
  import opened FlowProtocol
  import opened Sums
  import opened Runs

  /**
   All by window, id 0 being the connection: `lostA` is the credit granted to `a` and never sent,
   `accepted` counts the bytes `b` has taken.
   */
  datatype Lossy = Lossy(net: Net, lostA: map<U32, nat>, lostB: map<U32, nat>, accepted: map<U32, nat>)

  /** A step of the protocol with every send succeeding, or a delivery with the stated sends succeeding. */
  datatype Event = Normal(x: Action) | Unsent(fromA: bool, connSent: bool, streamSent: bool)

  function Tally(counts: map<U32, nat>): U32 -> int {
    (id: U32) => if id in counts then counts[id] else 0
  }

  function Plus(counts: map<U32, nat>, id: U32, bytes: nat): map<U32, nat> {
    counts[id := (if id in counts then counts[id] else 0) + bytes]
  }

  /** `b` is about to accept the DATA frame at the head of `ab`. */
  predicate Accepts(n: Net) {
    && n.ab != [] && n.ab[0].Data? && n.ab[0].id in n.b.streams
    && Receive(n.b.conn.local, n.b.streams[n.ab[0].id].local, n.ab[0].len).Accepted?
  }

  /** The bytes at the head of `ab` counted, on the connection and on their stream, if `b` accepts them. */
  function Counted(l: Lossy): map<U32, nat> {
    if Accepts(l.net) then Plus(Plus(l.accepted, 0, l.net.ab[0].len), l.net.ab[0].id, l.net.ab[0].len) else l.accepted
  }

  /** The credit that accepting the head of `ab` grants, on the connection and on its stream. */
  function Granted(n: Net): Receipt
    requires Accepts(n)
  {
    Receive(n.b.conn.local, n.b.streams[n.ab[0].id].local, n.ab[0].len)
  }

  /** A delivery from `a` to `b` in which an announcement is sent only where the flag says so. */
  function TakeUnsent(l: Lossy, connSent: bool, streamSent: bool): Lossy {
    if !Accepts(l.net) then l.(net := Deliver(l.net))
    else
      var id, r := l.net.ab[0].id, Granted(l.net);
      var sent := CreditFor(0, if connSent then r.conn.credit else 0)
                  + CreditFor(id, if streamSent then r.stream.credit else 0);
      l.(net := Deliver(l.net).(ba := l.net.ba + sent),
         lostA := Plus(Plus(l.lostA, 0, if connSent then 0 else r.conn.credit),
                       id, if streamSent then 0 else r.stream.credit),
         accepted := Counted(l))
  }

  /** The same from the other end; only bytes taken by `b` are counted. */
  function Flip(l: Lossy): Lossy {
    Lossy(Swap(l.net), l.lostB, l.lostA, l.accepted)
  }

  function Step(l: Lossy, e: Event): Lossy {
    match e
    case Normal(x) =>
      l.(net := FlowProtocol.Step(l.net, x), accepted := if x == Receipt(true) then Counted(l) else l.accepted)
    case Unsent(fromA, connSent, streamSent) =>
      if fromA then TakeUnsent(l, connSent, streamSent)
      else Flip(TakeUnsent(Flip(l), connSent, streamSent)).(accepted := l.accepted)
  }

  /** Both ends run the same code; the bytes are counted at `b` only. */
  lemma StepTurned(l: Lossy, e: Event)
    ensures var u := match e
        case Normal(x) => Normal(Turned(x))
        case Unsent(fromA, c, s) => Unsent(!fromA, c, s);
      var v, w := Step(l, e), Step(Flip(l), u);
      w.net == Swap(v.net) && w.lostA == v.lostB && w.lostB == v.lostA
  {
    hide TakeUnsent, FlowProtocol.Step;
    if e.Normal? { FlowProtocol.StepTurned(l.net, e.x); }
    assert Swap(Swap(l.net)) == l.net;
    if e.Unsent? { UncountedUnsent(l, Flip(Flip(l)), e); }
  }

  /** What is counted has no influence. */
  lemma UncountedUnsent(l: Lossy, m: Lossy, e: Event)
    requires l.net == m.net && l.lostA == m.lostA && l.lostB == m.lostB && e.Unsent?
    ensures var v, w := TakeUnsent(l, e.connSent, e.streamSent), TakeUnsent(m, e.connSent, e.streamSent);
      v.net == w.net && v.lostA == w.lostA && v.lostB == w.lostB
  {
    hide Deliver, Receive, CreditFor;
  }

  /** A delivery whose announcements are all sent is a delivery of the protocol without losses, and loses nothing. */
  lemma SentIsNormal(l: Lossy)
    ensures var v, w := Step(l, Unsent(true, true, true)), Step(l, Normal(Receipt(true)));
      v.net == w.net && v.accepted == w.accepted && v.lostB == w.lostB && forall id :: Tally(v.lostA)(id) == Tally(l.lostA)(id)
  {
    hide Receive, AddCredit, CreditFor;
    if Accepts(l.net) {
      var n, r := l.net, Granted(l.net);
      assert Deliver(n).ba == n.ba + CreditFor(0, r.conn.credit) + CreditFor(n.ab[0].id, r.stream.credit);
      assert n.ba + (CreditFor(0, r.conn.credit) + CreditFor(n.ab[0].id, r.stream.credit)) == Deliver(n).ba;
    }
  }

  function Run(l: Lossy, es: seq<Event>): Lossy {
    Fold(Step, l, es)
  }

  function Init(): Lossy {
    Lossy(FlowProtocol.Init(), map[], map[], map[])
  }

  predicate Sane(e: Event) {
    e.Normal? ==> FlowProtocol.Sane(e.x)
  }

  // ----- the accounts, with what is lost -----

  /** A lost increment was at least 32769. */
  ghost predicate LostWhole(lost: map<U32, nat>) {
    forall id :: id in lost ==> lost[id] == 0 || lost[id] >= 32769
  }

  ghost predicate Inv(l: Lossy) {
    Ledger(l.net, Tally(l.lostA), Tally(l.lostB)) && LostWhole(l.lostA) && LostWhole(l.lostB)
  }

  /** Leaving messages out of `ba` and counting their credit as lost changes neither direction's accounts. */
  lemma DropCredit(n: Net, m: Net, id: U32, c: nat, sc: nat, lost: U32 -> int, lost': U32 -> int, lostBack: U32 -> int)
    requires Ledger(n, lost, lostBack) && m == n.(ba := m.ba) && WellAddressed(m.ba, n.a.streams.Keys)
    requires id in n.a.streams && SameButCredit(n.ba, m.ba, id, c, sc) && More(lost, lost', id, c, sc)
    ensures Ledger(m, lost', lostBack)
  {
    hide InFlight, WellAddressed;
    forall id | id in m.a.streams ensures StreamBalanced(m, id, lost'(id)) && StreamBalanced(Swap(m), id, lostBack(id)) {
      assert StreamBalanced(n, id, lost(id)) && StreamBalanced(Swap(n), id, lostBack(id));
    }
  }

  /** `c` more on the connection, `sc` more on stream `id`. */
  ghost predicate More(lost: U32 -> int, lost': U32 -> int, id: U32, c: nat, sc: nat) {
    forall k :: lost'(k) == lost(k) + (if k == 0 then c else if k == id then sc else 0)
  }

  lemma PlusLost(lost: map<U32, nat>, id: U32, c: nat, sc: nat)
    requires id != 0
    ensures More(Tally(lost), Tally(Plus(Plus(lost, 0, c), id, sc)), id, c, sc)
  {
  }

  /** What accepting the head of `ab` does when both announcements are sent. */
  lemma AcceptShape(l: Lossy)
    requires Ledger(l.net, Tally(l.lostA), Tally(l.lostB)) && Accepts(l.net)
    ensures var n, m := l.net, Deliver(l.net); var id, r := n.ab[0].id, Granted(n);
      && id in n.a.streams && id != 0 && WellAddressed(n.ba, n.a.streams.Keys)
      && m.a.streams.Keys == n.a.streams.Keys
      && m.ba == n.ba + CreditFor(0, r.conn.credit) + CreditFor(id, r.stream.credit)
  {
    hide InFlight, CreditFor, Receive;
  }

  /** Two ways of announcing: they differ by what one of them leaves out. */
  lemma LeftOut(ba: seq<Message>, id: U32, c: nat, sc: nat, c': nat, sc': nat)
    requires id != 0 && c' <= c <= DEFAULT_WINDOW && sc' <= sc <= DEFAULT_WINDOW
    ensures SameButCredit(ba + CreditFor(0, c) + CreditFor(id, sc), ba + CreditFor(0, c') + CreditFor(id, sc'),
                          id, c - c', sc - sc')
  {
    AppendCredits(ba, id, c, sc);
    AppendCredits(ba, id, c', sc');
    hide InFlight, CreditFor;
  }

  lemma UnsentKeeps(l: Lossy, connSent: bool, streamSent: bool)
    requires Ledger(l.net, Tally(l.lostA), Tally(l.lostB))
    ensures var v := TakeUnsent(l, connSent, streamSent); Ledger(v.net, Tally(v.lostA), Tally(v.lostB))
  {
    hide InFlight, Deliver, Receive, Tally, Plus, ConservedBut, CreditFor, WellAddressed, SameButCredit, More;
    DeliverKeeps(l.net, Tally(l.lostA), Tally(l.lostB));
    if Accepts(l.net) {
      var n, full, v := l.net, Deliver(l.net), TakeUnsent(l, connSent, streamSent);
      var id, r := n.ab[0].id, Granted(n);
      AcceptShape(l);
      GrantedBounded(l);
      var c, sc := if connSent then r.conn.credit else 0, if streamSent then r.stream.credit else 0;
      AppendAddressed(n.ba, n.a.streams.Keys, id, c, sc);
      LeftOut(n.ba, id, r.conn.credit, r.stream.credit, c, sc);
      PlusLost(l.lostA, id, r.conn.credit - c, r.stream.credit - sc);
      assert v.net.ba == n.ba + CreditFor(0, c) + CreditFor(id, sc);
      DropCredit(full, v.net, id, r.conn.credit - c, r.stream.credit - sc, Tally(l.lostA), Tally(v.lostA), Tally(l.lostB));
    }
  }

  /** Any increment granted is 0 or in [32769, 65535]. */
  lemma GrantedBounded(l: Lossy)
    requires Ledger(l.net, Tally(l.lostA), Tally(l.lostB)) && Accepts(l.net)
    ensures var n, r := l.net, Granted(l.net);
      && Restored(n.b.conn.local, n.ab[0].len, r.conn) && Restored(n.b.streams[n.ab[0].id].local, n.ab[0].len, r.stream)
      && n.ab[0].len <= DEFAULT_WINDOW
  {
    var n := l.net;
    DataAccepted(n, Tally(l.lostA));
    assert StreamBalanced(n, n.ab[0].id, Tally(l.lostA)(n.ab[0].id));
    ReceiveKeepsHealthy(n.b.conn.local, n.b.streams[n.ab[0].id].local, n.ab[0].len);
  }

  lemma UnsentWhole(l: Lossy, connSent: bool, streamSent: bool)
    requires Inv(l)
    ensures var v := TakeUnsent(l, connSent, streamSent); LostWhole(v.lostA) && v.lostB == l.lostB
  {
    hide Ledger, Receive, Deliver;
    if Accepts(l.net) { GrantedBounded(l); }
  }

  lemma StepKeeps(l: Lossy, e: Event)
    requires Inv(l) && Sane(e)
    ensures Inv(Step(l, e))
  {
    if e.Normal? {
      hide Ledger, LostWhole, Tally, FlowProtocol.Step;
      FlowProtocol.StepKeeps(l.net, e.x, Tally(l.lostA), Tally(l.lostB));
    } else {
      var u := if e.fromA then l else Flip(l);
      LedgerFlips(l.net, Tally(l.lostA), Tally(l.lostB));
      hide Ledger, LostWhole, Tally, TakeUnsent;
      UnsentKeeps(u, e.connSent, e.streamSent);
      UnsentWhole(u, e.connSent, e.streamSent);
      var v := TakeUnsent(u, e.connSent, e.streamSent);
      LedgerFlips(v.net, Tally(v.lostA), Tally(v.lostB));
    }
  }

  lemma LedgerFlips(n: Net, lost: U32 -> int, lostBack: U32 -> int)
    requires Ledger(n, lost, lostBack)
    ensures Ledger(Swap(n), lostBack, lost)
  {
    hide ConservedBut;
  }

  lemma {:induction false} RunKeeps(l: Lossy, es: seq<Event>)
    requires Inv(l) && forall e :: e in es ==> Sane(e)
    ensures Inv(Run(l, es))
    decreases |es|
  {
    hide Inv, Step;
    if es != [] {
      StepKeeps(l, es[0]);
      RunKeeps(Step(l, es[0]), es[1..]);
    }
  }

  /**
   Whatever announcements fail to be sent, in both directions, on the connection and on every
   stream: sender window + DATA in flight + credit in flight + credit lost = receiver window; no
   window is overdrawn, no receiver returns -1, and a window that has lost credit has lost 32769
   or more.
   */
  lemma LossyConservation(es: seq<Event>)
    requires forall e :: e in es ==> Sane(e)
    ensures Inv(Run(Init(), es))
  {
    RunKeeps(Init(), es);
  }

  // ----- one lost update ends its window -----

  ghost function LostOn(l: Lossy, id: U32): int {
    Tally(l.lostA)(id)
  }

  ghost function AcceptedOn(l: Lossy, id: U32): int {
    Tally(l.accepted)(id)
  }

  /** The window, the connection's or a stream's, that `b` keeps for what `a` sends. */
  ghost function LocalOf(n: Net, id: U32): int {
    if id == 0 then n.b.conn.local else if id in n.b.streams then n.b.streams[id].local else 0
  }

  /** Does the frame at the head of `ab` count against window `id`? */
  predicate Concerns(n: Net, id: U32) {
    n.ab != [] && n.ab[0].Data? && (id == 0 || id == n.ab[0].id)
  }

  /** Only what has not been lost can still be sent or is under way. */
  lemma WindowAccount(l: Lossy, id: U32)
    requires Inv(l) && (id == 0 || id in l.net.b.streams)
    ensures LostOn(l, id) <= LocalOf(l.net, id) <= DEFAULT_WINDOW
    ensures Concerns(l.net, id) ==> LocalOf(l.net, id) - l.net.ab[0].len >= LostOn(l, id)
    ensures LostOn(l, id) == 0 || LostOn(l, id) >= 32769
  {
    var n := l.net;
    if id != 0 { assert StreamBalanced(n, id, Tally(l.lostA)(id)); }
    if Concerns(n, id) { InFlightAtLeast(n.ab, n.ab[0], if id == 0 then AllData else DataOn(id)); }
    hide InFlight;
  }

  lemma LostIsOpen(l: Lossy, id: U32)
    requires Inv(l) && LostOn(l, id) > 0
    ensures id == 0 || id in l.net.b.streams
  {
    hide Balanced, StreamBalanced, WellAddressed;
  }

  lemma Counting(l: Lossy, id: U32)
    requires Accepts(l.net) && l.net.ab[0].id != 0
    ensures Tally(Counted(l))(id) == AcceptedOn(l, id) + if Concerns(l.net, id) then l.net.ab[0].len else 0
  {
    hide Receive;
  }

  /** Accepting the head of `ab`: a window with credit lost is charged for good, whichever announcements are sent. */
  lemma DeadAccept(l: Lossy, id: U32)
    requires Inv(l) && Accepts(l.net) && LostOn(l, id) > 0
    ensures LocalOf(Deliver(l.net), id) + Tally(Counted(l))(id) == LocalOf(l.net, id) + AcceptedOn(l, id)
    ensures id == 0 ==> Granted(l.net).conn.credit == 0
    ensures id == l.net.ab[0].id ==> Granted(l.net).stream.credit == 0
  {
    hide Inv;
    var d := l.net.ab[0];
    LostIsOpen(l, id);
    WindowAccount(l, id);
    HeadLawful(l);
    Counting(l, id);
  }

  /** In a balanced state the oldest DATA frame is accepted, and is on an open stream. */
  lemma HeadLawful(l: Lossy)
    requires Inv(l) && l.net.ab != [] && l.net.ab[0].Data?
    ensures Accepts(l.net) && ToInt32(l.net.ab[0].len) == l.net.ab[0].len && l.net.ab[0].id != 0
  {
    DataAccepted(l.net, Tally(l.lostA));
    hide InFlight, Balanced, StreamBalanced, Receive;
  }

  lemma TakeUnsentEffect(l: Lossy, connSent: bool, streamSent: bool, id: U32)
    requires Inv(l) && Accepts(l.net)
    ensures var v := TakeUnsent(l, connSent, streamSent); var g := Granted(l.net);
      && v.net.b == Deliver(l.net).b && v.accepted == Counted(l)
      && (!(id == 0 && g.conn.credit > 0) && !(id == l.net.ab[0].id && g.stream.credit > 0) ==> LostOn(v, id) == LostOn(l, id))
  {
    hide Inv, Receive, Deliver, CreditFor;
    HeadLawful(l);
  }

  /** Not DATA that is accepted: no local window and no count changes. */
  lemma NothingAccepted(l: Lossy, id: U32)
    requires Inv(l) && !Accepts(l.net)
    ensures LocalOf(Deliver(l.net), id) == LocalOf(l.net, id) && Counted(l) == l.accepted
  {
    hide Inv, AddCredit, Receive;
    if l.net.ab != [] && l.net.ab[0].Data? { HeadLawful(l); }
  }

  /** With credit lost on a window, no step grants any more of it: what `b` accepts comes off the window for good. */
  lemma DeadStep(l: Lossy, e: Event, id: U32)
    requires Inv(l) && Sane(e) && LostOn(l, id) > 0
    ensures var v := Step(l, e);
      LostOn(v, id) == LostOn(l, id) && AcceptedOn(v, id) + LocalOf(v.net, id) == AcceptedOn(l, id) + LocalOf(l.net, id)
  {
    hide Inv, LocalOf, Deliver, Receive;
    if Takes(e) {
      if Accepts(l.net) {
        DeadAccept(l, id);
        if e.Unsent? {
          TakeUnsentEffect(l, e.connSent, e.streamSent, id);
          SameLocal(Step(l, e).net, Deliver(l.net), id);
        }
      } else {
        NothingAccepted(l, id);
      }
    } else {
      LostIsOpen(l, id);
      LocalUntouched(l, e, id);
    }
  }

  /** Does `b` take a message in this step? */
  predicate Takes(e: Event) {
    e == Normal(Receipt(true)) || (e.Unsent? && e.fromA)
  }

  lemma SameLocal(n: Net, m: Net, id: U32)
    requires n.b == m.b
    ensures LocalOf(n, id) == LocalOf(m, id)
  {
  }

  lemma LocalUntouched(l: Lossy, e: Event, id: U32)
    requires !Takes(e) && (id == 0 || id in l.net.b.streams)
    ensures var v := Step(l, e);
      LocalOf(v.net, id) == LocalOf(l.net, id) && v.lostA == l.lostA && v.accepted == l.accepted
  {
    hide Receive, Spend, AddCredit, MaySend;
  }

  lemma {:induction false} DeadRun(l: Lossy, es: seq<Event>, id: U32)
    requires Inv(l) && LostOn(l, id) > 0 && AllSane(es)
    ensures var v := Run(l, es);
      && Inv(v) && LostOn(v, id) == LostOn(l, id)
      && AcceptedOn(v, id) + LocalOf(v.net, id) == AcceptedOn(l, id) + LocalOf(l.net, id)
    decreases |es|
  {
    hide Inv, Step, LostOn, AcceptedOn, LocalOf, Sane;
    if es != [] {
      StepKeeps(l, es[0]);
      DeadStep(l, es[0], id);
      DeadRun(Step(l, es[0]), es[1..], id);
    }
  }

  /**
   A single WINDOW_UPDATE that failed to be sent ends its window: whatever happens afterwards, at
   most 32766 more bytes are ever accepted from that sender on that stream, or, when it was the
   connection's (id 0), on all streams together.
   */
  lemma LossIsFinal(l: Lossy, id: U32, es: seq<Event>)
    requires Inv(l) && LostOn(l, id) > 0 && AllSane(es)
    ensures AcceptedOn(Run(l, es), id) <= AcceptedOn(l, id) + 32766
  {
    hide Inv, Fold, LostOn, AcceptedOn, LocalOf;
    DeadRun(l, es, id);
    LostIsOpen(l, id);
    LostIsOpen(Run(l, es), id);
    WindowAccount(l, id);
    WindowAccount(Run(l, es), id);
  }

  // ----- and nothing else does -----

  ghost predicate AllSane(es: seq<Event>) {
    forall e :: e in es ==> Sane(e)
  }

  function Normals(xs: seq<Action>): (es: seq<Event>)
    ensures |es| == |xs| && forall i :: 0 <= i < |es| ==> es[i] == Normal(xs[i])
  {
    seq(|xs|, i requires 0 <= i < |xs| => Normal(xs[i]))
  }

  /** What a run never takes back. */
  ghost predicate Counts(l: Lossy, v: Lossy) {
    forall id :: AcceptedOn(v, id) >= AcceptedOn(l, id)
  }

  lemma {:induction false} NormalRun(l: Lossy, xs: seq<Action>)
    ensures var v := Run(l, Normals(xs));
      v.net == FlowProtocol.Run(l.net, xs) && v.lostA == l.lostA && v.lostB == l.lostB && Counts(l, v)
    decreases |xs|
  {
    hide FlowProtocol.Step, Receive;
    if xs != [] {
      assert Normals(xs)[1..] == Normals(xs[1..]);
      NormalRun(Step(l, Normal(xs[0])), xs[1..]);
    }
  }

  /** A stream of `a` on which, and on the connection, no credit has been lost. */
  ghost predicate Unharmed(l: Lossy, id: U32) {
    id in l.net.a.streams && LostOn(l, id) == 0 && LostOn(l, 0) == 0
  }

  /** From a quiet state a byte goes through. */
  lemma OneByte(l: Lossy, id: U32)
    requires Inv(l) && Unharmed(l, id) && l.net.ab == l.net.ba == []
    ensures var v := Run(l, Normals([Send(true, id, 1), Receipt(true)]));
      v.lostA == l.lostA && id in v.net.a.streams && OneMore(l, v, id)
  {
    hide Step, Inv, Unharmed, OneMore;
    var es := [Normal(Send(true, id, 1)), Normal(Receipt(true))];
    var l1 := Step(l, es[0]);
    var l2 := Step(l1, es[1]);
    ByteSent(l, id);
    ByteTaken(l1, id);
    assert Normals([Send(true, id, 1), Receipt(true)]) == es;
    FoldTrace(Step, [l, l1, l2], es);
  }

  ghost predicate OneMore(l: Lossy, v: Lossy, id: U32) {
    && AcceptedOn(v, id) == AcceptedOn(l, id) + 1 && AcceptedOn(v, 0) == AcceptedOn(l, 0) + 1
  }

  lemma ByteSent(l: Lossy, id: U32)
    requires Inv(l) && Unharmed(l, id) && l.net.ab == l.net.ba == []
    ensures var v := Step(l, Normal(Send(true, id, 1)));
      && v == l.(net := v.net) && v.net.ab == [Data(id, 1)] && v.net.b == l.net.b && id in v.net.a.streams && id != 0
      && id in l.net.b.streams && Healthy(l.net.b.conn.local) && Healthy(l.net.b.streams[id].local)
  {
    assert StreamBalanced(l.net, id, Tally(l.lostA)(id));
  }

  lemma ByteTaken(l: Lossy, id: U32)
    requires l.net.ab == [Data(id, 1)] && id in l.net.a.streams && id in l.net.b.streams && id != 0
    requires Healthy(l.net.b.conn.local) && Healthy(l.net.b.streams[id].local)
    ensures var v := Step(l, Normal(Receipt(true)));
      v.lostA == l.lostA && id in v.net.a.streams && forall l0: Lossy :: l0.accepted == l.accepted ==> OneMore(l0, v, id)
  {
  }

  lemma SaneReceipts(xs: seq<Action>)
    requires forall x :: x in xs ==> x.Receipt?
    ensures AllSane(Normals(xs))
  {
    hide Normals;
    forall e | e in Normals(xs) ensures Sane(e) {
      var i :| 0 <= i < |xs| && Normals(xs)[i] == e;
      assert xs[i] in xs;
    }
  }

  lemma Quieted(l: Lossy, id: U32) returns (es: seq<Event>)
    requires Inv(l) && Unharmed(l, id)
    ensures AllSane(es)
    ensures var v := Run(l, es); Inv(v) && Unharmed(v, id) && v.net.ab == v.net.ba == [] && Counts(l, v)
  {
    hide Ledger, Fold, FlowProtocol.Run, Normals, Tally, Cost, LostWhole, Counts;
    var xs := Drain(l.net, Tally(l.lostA), Tally(l.lostB));
    es := Normals(xs);
    SaneReceipts(xs);
    NormalRun(l, xs);
    assert Inv(Run(l, es)) by { RunKeeps(l, es); }
  }

  lemma AnotherByte(l: Lossy, id: U32) returns (es: seq<Event>)
    requires Inv(l) && Unharmed(l, id)
    ensures AllSane(es)
    ensures var v := Run(l, es);
      Inv(v) && Unharmed(v, id) && AcceptedOn(v, id) >= AcceptedOn(l, id) + 1 && AcceptedOn(v, 0) >= AcceptedOn(l, 0) + 1
  {
    hide Inv, Fold, Tally;
    var quiet := Quieted(l, id);
    var send := Normals([Send(true, id, 1), Receipt(true)]);
    OneByte(Run(l, quiet), id);
    RunKeeps(Run(l, quiet), send);
    FoldConcat(Step, l, quiet, send);
    es := quiet + send;
  }

  lemma {:induction false} ManyBytes(l: Lossy, id: U32, bytes: nat) returns (es: seq<Event>)
    requires Inv(l) && Unharmed(l, id)
    ensures AllSane(es)
    ensures var v := Run(l, es); AcceptedOn(v, id) >= AcceptedOn(l, id) + bytes && AcceptedOn(v, 0) >= AcceptedOn(l, 0) + bytes
    decreases bytes
  {
    if bytes == 0 {
      es := [];
    } else {
      hide Inv, Fold, Unharmed, AcceptedOn, Sane;
      var first := AnotherByte(l, id);
      var rest := ManyBytes(Run(l, first), id, bytes - 1);
      FoldConcat(Step, l, first, rest);
      es := first + rest;
    }
  }

  // ----- exactly when traffic can go on -----

  /** Some run from here has `b` accept `bytes` more on a stream, or for id 0 on all streams together. */
  ghost predicate Reaches(l: Lossy, id: U32, bytes: nat) {
    exists es :: AllSane(es) && AcceptedOn(Run(l, es), id) >= AcceptedOn(l, id) + bytes
  }

  ghost predicate Unlimited(l: Lossy, id: U32) {
    forall bytes: nat :: Reaches(l, id, bytes)
  }

  lemma Limited(l: Lossy, id: U32, most: nat)
    requires forall es :: AllSane(es) ==> AcceptedOn(Run(l, es), id) <= AcceptedOn(l, id) + most
    ensures !Unlimited(l, id)
  {
    hide Run, AcceptedOn, AllSane;
    assert !Reaches(l, id, most + 1);
  }

  /** The bytes accepted on one stream never outgrow those accepted on the connection. */
  lemma {:induction false} PartOfAll(l: Lossy, es: seq<Event>, id: U32)
    requires Inv(l) && AllSane(es) && id != 0
    ensures var v := Run(l, es); AcceptedOn(v, id) - AcceptedOn(l, id) <= AcceptedOn(v, 0) - AcceptedOn(l, 0)
    decreases |es|
  {
    if es != [] {
      PartOfAllStep(l, es[0], id);
      hide Inv, Step, AcceptedOn, Sane;
      StepKeeps(l, es[0]);
      PartOfAll(Step(l, es[0]), es[1..], id);
    }
  }

  lemma PartOfAllStep(l: Lossy, e: Event, id: U32)
    requires Inv(l) && id != 0
    ensures var v := Step(l, e); AcceptedOn(v, id) - AcceptedOn(l, id) <= AcceptedOn(v, 0) - AcceptedOn(l, 0)
  {
    hide Inv, Step;
    CountedNow(l, e);
  }

  /** How a step counts. */
  lemma CountedNow(l: Lossy, e: Event)
    requires Inv(l)
    ensures var v := Step(l, e);
      v.accepted == l.accepted
      || exists id: U32, len: nat :: id != 0 && v.accepted == Plus(Plus(l.accepted, 0, len), id, len)
  {
    hide Inv, Receive, Deliver, FlowProtocol.Step, CreditFor;
    if Accepts(l.net) { HeadLawful(l); }
  }

  /** Traffic on a stream can go on without limit if and only if no update has failed to be sent on it or on the connection. */
  lemma UnlimitedIff(l: Lossy, id: U32)
    requires Inv(l) && id in l.net.a.streams
    ensures Unlimited(l, id) <==> LostOn(l, id) == 0 && LostOn(l, 0) == 0
  {
    StreamsOnly(l);
    NeverNegative(l, id);
    hide Inv, Fold, AcceptedOn, LostOn, AllSane;
    if LostOn(l, id) > 0 {
      forall es | AllSane(es) ensures AcceptedOn(Run(l, es), id) <= AcceptedOn(l, id) + 32766 { LossIsFinal(l, id, es); }
      Limited(l, id, 32766);
    } else if LostOn(l, 0) > 0 {
      forall es | AllSane(es) ensures AcceptedOn(Run(l, es), id) <= AcceptedOn(l, id) + 32766 {
        LossIsFinal(l, 0, es);
        PartOfAll(l, es, id);
      }
      Limited(l, id, 32766);
    } else {
      forall bytes: nat ensures Reaches(l, id, bytes) {
        var es := ManyBytes(l, id, bytes);
      }
    }
  }

  lemma StreamsOnly(l: Lossy)
    requires Inv(l)
    ensures 0 !in l.net.a.streams
  {
    hide Balanced, StreamBalanced, WellAddressed;
  }

  lemma NeverNegative(l: Lossy, id: U32)
    ensures LostOn(l, id) >= 0 && LostOn(l, 0) >= 0
  {
  }

  // ----- and on the connection as a whole -----

  /** What is counted on the streams 1 to n together. */
  ghost function Together(counts: map<U32, nat>, n: nat): int
    requires n < TWO32
  {
    if n == 0 then 0 else Tally(counts)(n) + Together(counts, n - 1)
  }

  lemma {:induction false} PlusTogether(counts: map<U32, nat>, id: U32, bytes: nat, n: nat)
    requires n < TWO32
    ensures Together(Plus(counts, id, bytes), n) == Together(counts, n) + if 1 <= id <= n then bytes else 0
  {
    if n > 0 { PlusTogether(counts, id, bytes, n - 1); }
  }

  /** Every accepted byte is counted once on the connection and once on a stream. */
  lemma {:induction false} CountedTwice(l: Lossy, es: seq<Event>)
    requires Inv(l) && AllSane(es)
    ensures var v := Run(l, es);
      AcceptedOn(v, 0) - AcceptedOn(l, 0) == Together(v.accepted, TWO32 - 1) - Together(l.accepted, TWO32 - 1)
    decreases |es|
  {
    if es != [] {
      CountedTwiceStep(l, es[0]);
      hide Inv, Step, AcceptedOn, Sane, Together;
      StepKeeps(l, es[0]);
      CountedTwice(Step(l, es[0]), es[1..]);
    }
  }

  lemma CountedTwiceStep(l: Lossy, e: Event)
    requires Inv(l)
    ensures var v := Step(l, e);
      AcceptedOn(v, 0) - AcceptedOn(l, 0) == Together(v.accepted, TWO32 - 1) - Together(l.accepted, TWO32 - 1)
  {
    hide Inv, Step, Together;
    CountedNow(l, e);
    var v := Step(l, e);
    if v.accepted != l.accepted {
      var id: U32, len: nat :| id != 0 && v.accepted == Plus(Plus(l.accepted, 0, len), id, len);
      PlusTogether(l.accepted, 0, len, TWO32 - 1);
      PlusTogether(Plus(l.accepted, 0, len), id, len, TWO32 - 1);
    }
  }

  lemma {:induction false} TogetherAtMost(before: map<U32, nat>, after: map<U32, nat>, n: nat, most: nat)
    requires n < TWO32 && forall id: U32 :: id != 0 ==> Tally(after)(id) <= Tally(before)(id) + most
    ensures Together(after, n) <= Together(before, n) + Times(n, most)
  {
    if n > 0 {
      hide Tally;
      TogetherAtMost(before, after, n - 1, most);
    }
  }

  /** When every stream there can be has lost credit, so little goes through on each that the whole is bounded. */
  lemma AllStreamsDead(l: Lossy, es: seq<Event>)
    requires Inv(l) && AllSane(es) && forall id: U32 :: id != 0 ==> LostOn(l, id) > 0
    ensures AcceptedOn(Run(l, es), 0) <= AcceptedOn(l, 0) + Times(TWO32 - 1, 32766)
  {
    hide Inv, Fold, LostOn, Together, Times, Tally, AllSane;
    var v := Run(l, es);
    forall id: U32 | id != 0 ensures Tally(v.accepted)(id) <= Tally(l.accepted)(id) + 32766 { LossIsFinal(l, id, es); }
    TogetherAtMost(l.accepted, v.accepted, TWO32 - 1, 32766);
    CountedTwice(l, es);
  }

  /** A stream without loss can be opened if it is not open yet. */
  lemma Opened(l: Lossy, id: U32) returns (es: seq<Event>)
    requires Inv(l) && id != 0 && LostOn(l, id) == 0 && LostOn(l, 0) == 0
    ensures AllSane(es)
    ensures var v := Run(l, es); Inv(v) && Unharmed(v, id) && v.accepted == l.accepted
  {
    if id in l.net.a.streams {
      es := [];
    } else {
      hide Step, Inv, Unharmed;
      var e := Normal(Open(id));
      es := [e];
      var v := Step(l, e);
      OpenUnharmed(l, id);
      StepKeeps(l, e);
      FoldTrace(Step, [l, v], es);
    }
  }

  lemma OpenUnharmed(l: Lossy, id: U32)
    requires Inv(l) && id != 0 && LostOn(l, id) == 0 && LostOn(l, 0) == 0 && id !in l.net.a.streams
    ensures var v := Step(l, Normal(Open(id))); Unharmed(v, id) && v.accepted == l.accepted
  {
    hide Inv;
    SameStreams(l);
  }

  lemma SameStreams(l: Lossy)
    requires Inv(l)
    ensures l.net.a.streams.Keys == l.net.b.streams.Keys
  {
    hide Balanced, StreamBalanced, WellAddressed;
  }

  /**
   Traffic from `a` as a whole can go on without limit if and only if no connection update has
   failed to be sent and some stream, open or still to be opened, has lost no credit.
   */
  lemma ConnectionUnlimitedIff(l: Lossy)
    requires Inv(l)
    ensures Unlimited(l, 0) <==> LostOn(l, 0) == 0 && exists id: U32 :: id != 0 && LostOn(l, id) == 0
  {
    forall id: U32 ensures LostOn(l, id) >= 0 { NeverNegative(l, id); }
    hide Inv, Fold, AcceptedOn, LostOn, AllSane, Times;
    if LostOn(l, 0) > 0 {
      forall es | AllSane(es) ensures AcceptedOn(Run(l, es), 0) <= AcceptedOn(l, 0) + 32766 { LossIsFinal(l, 0, es); }
      Limited(l, 0, 32766);
    } else if id: U32 :| id != 0 && LostOn(l, id) == 0 {
      forall bytes: nat ensures Reaches(l, 0, bytes) { BytesThrough(l, id, bytes); }
    } else {
      var most := Times(TWO32 - 1, 32766);
      forall es | AllSane(es) ensures AcceptedOn(Run(l, es), 0) <= AcceptedOn(l, 0) + most { AllStreamsDead(l, es); }
      Limited(l, 0, most);
    }
  }

  lemma BytesThrough(l: Lossy, id: U32, bytes: nat)
    requires Inv(l) && id != 0 && LostOn(l, id) == 0 && LostOn(l, 0) == 0
    ensures Reaches(l, 0, bytes)
  {
    hide Inv, Fold, LostOn, Unharmed, Sane;
    var open := Opened(l, id);
    var send := ManyBytes(Run(l, open), id, bytes);
    FoldConcat(Step, l, open, send);
    assert AllSane(open + send);
  }

  // ----- both losses happen -----

  function LosingRun(connSent: bool): seq<Event> {
    [Normal(Open(1)), Normal(Send(true, 1, 32769)), Unsent(true, connSent, !connSent)]
  }

  /** Reachable: one 32769-byte frame of whose two announcements one fails. */
  lemma LossReachable(connSent: bool)
    ensures var l := Run(Init(), LosingRun(connSent));
      Inv(l) && LostOn(l, 0) == (if connSent then 0 else 32769) && LostOn(l, 1) == (if connSent then 32769 else 0)
  {
    hide Inv, Fold;
    var es := LosingRun(connSent);
    var l1 := Step(Init(), es[0]);
    var l2 := Step(l1, es[1]);
    assert l2.net.ab == [Data(1, 32769)];
    var l3 := Step(l2, es[2]);
    assert LostOn(l3, 0) == (if connSent then 0 else 32769) && LostOn(l3, 1) == (if connSent then 32769 else 0);
    hide Step, LostOn, Init;
    FoldTrace(Step, [Init(), l1, l2, l3], es);
    LossyConservation(es);
  }
}
