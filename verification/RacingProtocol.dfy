/**
 The two-endpoint credit protocol with racing senders: at both ends every stream has its own
 sender, and reading the connection window, reading the stream window, handing the frame to the
 wire, paying the connection window and paying the stream window are separate steps, interleaved
 with all others. A sender may hand over its frame before, between or after the two payments.
 Stream i has id i + 1.
 */
module RacingProtocol {
  import opened Machine
  import opened Http2
  import opened FlowControl
  import opened FlowProtocol
  import opened Sending
  import opened Sums
  import opened Runs

  /** `pa` and `pb` are the senders of `a` and of `b`. */
  datatype Joint = Joint(net: Net, pa: seq<Phase>, pb: seq<Phase>)

  function Other(j: Joint): Joint {
    Joint(Swap(j.net), j.pb, j.pa)
  }

  datatype Op = ReadConn(i: nat, len: nat) | ReadStream(i: nat) | Emit(i: nat) | PayConn(i: nat) | PayStream(i: nat) | Hand

  datatype Move = Move(byA: bool, op: Op)

  predicate HasSender(j: Joint, i: nat) {
    i < |j.pa| && i + 1 < TWO32 && i + 1 in j.net.a.streams
  }

  /** One step of `a`; `Hand` delivers the oldest message of `a` to `b`. */
  function Act(j: Joint, op: Op): Joint {
    match op
    case ReadConn(i, len) =>
      if HasSender(j, i) && j.pa[i].Idle?
      then j.(pa := j.pa[i := Reading(len, j.net.a.conn.remote)]) else j
    case ReadStream(i) =>
      if HasSender(j, i) && j.pa[i].Reading?
      then j.(pa := j.pa[i := Verdict(j.pa[i], j.net.a.streams[i + 1].remote)]) else j
    case Emit(i) =>
      if HasSender(j, i) && j.pa[i].Pending? && !j.pa[i].sent
      then j.(net := j.net.(ab := j.net.ab + [Data(i + 1, j.pa[i].len)]),
              pa := j.pa[i := Settled(j.pa[i].(sent := true))]) else j
    case PayConn(i) =>
      if HasSender(j, i) && j.pa[i].Pending? && !j.pa[i].connPaid
      then j.(net := j.net.(a := PaidConn(j.net.a, j.pa[i].len)),
              pa := j.pa[i := Settled(j.pa[i].(connPaid := true))]) else j
    case PayStream(i) =>
      if HasSender(j, i) && j.pa[i].Pending? && j.pa[i].connPaid && !j.pa[i].streamPaid
      then j.(net := j.net.(a := PaidStream(j.net.a, i + 1, j.pa[i].len)),
              pa := j.pa[i := Settled(j.pa[i].(streamPaid := true))]) else j
    case Hand => j.(net := Deliver(j.net))
  }

  function PaidConn(e: Endpoint, len: nat): Endpoint {
    e.(conn := e.conn.(remote := Spend(e.conn.remote, len)))
  }

  function PaidStream(e: Endpoint, id: U32, len: nat): Endpoint
    requires id in e.streams
  {
    e.(streams := e.streams[id := e.streams[id].(remote := Spend(e.streams[id].remote, len))])
  }

  function Step(j: Joint, x: Move): Joint {
    if x.byA then Act(j, x.op) else Other(Act(Other(j), x.op))
  }

  function Run(j: Joint, xs: seq<Move>): Joint {
    Fold(Step, j, xs)
  }

  /** Both ends run the same code. */
  lemma StepTurned(j: Joint, x: Move)
    ensures Step(Other(j), Move(!x.byA, x.op)) == Other(Step(j, x))
  {
    hide Act;
    assert Other(Other(j)) == j;
  }

  function FreshStreams(k: nat): (r: map<U32, Windows>)
    requires k < TWO32
    ensures forall id :: id in r <==> 1 <= id <= k
    ensures forall id :: id in r ==> r[id] == FRESH
  {
    if k == 0 then map[] else FreshStreams(k - 1)[k := FRESH]
  }

  function Init(k: nat): Joint
    requires k + 1 < TWO32
  {
    var e := Endpoint(FRESH, FreshStreams(k));
    Joint(Net(e, e, [], [], 0), seq(k, _ => Idle), seq(k, _ => Idle))
  }

  // ----- a send without a race -----

  function Undisturbed(i: nat, len: nat): seq<Move> {
    [Move(true, ReadConn(i, len)), Move(true, ReadStream(i)), Move(true, Emit(i)), Move(true, PayConn(i)), Move(true, PayStream(i))]
  }

  /** In any state, an idle sender that takes its five steps without interruption makes one send of the protocol with single-step sends. */
  lemma UndisturbedIsSend(j: Joint, i: nat, len: nat)
    requires HasSender(j, i) && j.pa[i].Idle?
    ensures Run(j, Undisturbed(i, len)) == j.(net := SendData(j.net, i + 1, len))
  {
    hide Fold;
    var xs := Undisturbed(i, len);
    var j2 := Act(Act(j, ReadConn(i, len)), ReadStream(i));
    var j5 := Act(Act(Act(j2, Emit(i)), PayConn(i)), PayStream(i));
    UndisturbedActs(j, i, len);
    hide Act;
    FoldTrace(Step, [j, Act(j, ReadConn(i, len)), j2, Act(j2, Emit(i)), Act(Act(j2, Emit(i)), PayConn(i)), j5], xs);
  }

  lemma UndisturbedActs(j: Joint, i: nat, len: nat)
    requires HasSender(j, i) && j.pa[i].Idle?
    ensures var j2 := Act(Act(j, ReadConn(i, len)), ReadStream(i));
      Act(Act(Act(j2, Emit(i)), PayConn(i)), PayStream(i)) == j.(net := SendData(j.net, i + 1, len))
  {
    hide MaySend, Spend;
    var a := j.net.a;
    var j2 := Act(Act(j, ReadConn(i, len)), ReadStream(i));
    if MaySend(a.conn.remote, a.streams[i + 1].remote, len) {
      assert j2 == j.(pa := j.pa[i := Checked(len)]);
      PaidActs(j2, i, len);
      assert j2.pa[i := Idle] == j.pa;
    } else {
      assert j2.pa == j.pa;
    }
  }

  lemma PaidActs(j: Joint, i: nat, len: nat)
    requires HasSender(j, i) && j.pa[i] == Checked(len)
    ensures var a := PaidStream(PaidConn(j.net.a, len), i + 1, len);
      Act(Act(Act(j, Emit(i)), PayConn(i)), PayStream(i))
      == j.(net := j.net.(a := a, ab := j.net.ab + [Data(i + 1, len)]), pa := j.pa[i := Idle])
  {
    hide Spend;
    var j1 := Act(j, Emit(i));
    assert j1.pa == j.pa[i := Pending(len, true, false, false)];
    var j2 := Act(j1, PayConn(i));
    assert j2.pa == j.pa[i := Pending(len, true, true, false)];
    assert Act(j2, PayStream(i)).pa == j.pa[i := Idle];
  }

  // ----- bytes between two steps of a sender -----

  /** What a sender adds to the connection account: paid and not sent counts for it, sent and not paid against. */
  function ConnGap(p: Phase): int {
    if !p.Pending? then 0 else (if p.connPaid then p.len else 0) - (if p.sent then p.len else 0)
  }

  function StreamGap(p: Phase): int {
    if !p.Pending? then 0 else (if p.streamPaid then p.len else 0) - (if p.sent then p.len else 0)
  }

  /** The adjustment of every account: id 0 is the connection. */
  function Gaps(ps: seq<Phase>): U32 -> int {
    (id: U32) => if id == 0 then Sum(ps, ConnGap) else if id <= |ps| then StreamGap(ps[id - 1]) else 0
  }

  lemma UpdateTotals(ps: seq<Phase>, i: nat, p: Phase)
    requires i < |ps|
    ensures Sum(ps[i := p], ConnGap) == Sum(ps, ConnGap) - ConnGap(ps[i]) + ConnGap(p)
    ensures Sum(ps[i := p], Owed) == Sum(ps, Owed) - Owed(ps[i]) + Owed(p)
  {
    hide Sum, ConnGap, Owed;
    SumUpdate(ps, i, p, ConnGap);
    SumUpdate(ps, i, p, Owed);
  }

  lemma IdleTotals(ps: seq<Phase>)
    requires forall i :: 0 <= i < |ps| ==> ps[i].Idle?
    ensures Sum(ps, ConnGap) == 0 && Sum(ps, Owed) == 0
  {
    SumZero(ps, ConnGap);
    SumZero(ps, Owed);
  }

  // ----- the invariant -----

  ghost predicate SendersSound(j: Joint, bound: nat) {
    forall i :: 0 <= i < |j.pa| ==> HasSender(j, i) && Sound(j.pa[i], j.net.a.streams[i + 1].remote, bound)
  }

  ghost predicate ShortFrames(ms: seq<Message>, bound: nat) {
    forall m :: m in ms && m.Data? ==> m.len <= bound
  }

  /** The direction from `a` to `b`. */
  ghost predicate OneWay(j: Joint, bound: nat) {
    && (forall id :: id in j.net.a.streams ==> 1 <= id <= |j.pa|)
    && Accounted(j.net, Gaps(j.pa))
    && SendersSound(j, bound)
    && ShortFrames(j.net.ab, bound)
    && (j.pa != [] ==> j.net.a.conn.remote + Times(|j.pa| - 1, bound) >= Sum(j.pa, Owed))
  }

  /** Frames no receiver refuses, or no race, and window sums that an `int32_t` holds. */
  ghost predicate Moderated(k: nat, bound: nat) {
    k > 0 && k + 1 < TWO32 && (bound <= THRESHOLD || k == 1) && DEFAULT_WINDOW + Times(k, bound) <= INT_MAX
  }

  ghost predicate Inv(j: Joint, bound: nat) {
    && |j.pa| == |j.pb| && Moderated(|j.pa|, bound)
    && OneWay(j, bound) && OneWay(Other(j), bound) && j.net.failures == 0
  }

  predicate Within(x: Move, bound: nat) {
    x.op.ReadConn? ==> x.op.len <= bound
  }

  ghost predicate AllWithin(xs: seq<Move>, bound: nat) {
    forall x :: x in xs ==> Within(x, bound)
  }

  /** A length within `bound`; or, without a race, one that no window of at most `bound` admits. */
  predicate Lawful(op: Op, k: nat, bound: nat) {
    op.ReadConn? ==> op.len <= bound || (k == 1 && DEFAULT_WINDOW <= bound && op.len <= INT_MAX)
  }

  // ----- every step keeps it -----

  /** `m` and `p` are what a step of sender `i` makes of the network and of its own phase; `more` is what it sent. */
  ghost predicate SenderStep(j: Joint, i: nat, m: Net, p: Phase, more: seq<Message>)
    requires HasSender(j, i)
  {
    var n := j.net;
    && m.b == n.b && m.ba == n.ba && m.ab == n.ab + more && m.failures == n.failures
    && m.a.conn.local == n.a.conn.local && m.a.streams.Keys == n.a.streams.Keys
    && (forall id :: id in n.a.streams ==> m.a.streams[id].local == n.a.streams[id].local)
    && (forall id :: id in n.a.streams && id != i + 1 ==> m.a.streams[id] == n.a.streams[id])
    && (more == [] || (p.Pending? && more == [Data(i + 1, p.len)]) || (p.Idle? && j.pa[i].Pending? && more == [Data(i + 1, j.pa[i].len)]))
  }

  /** Bytes handed over by the step. */
  function Volume(more: seq<Message>): nat {
    InFlight(more, AllData)
  }

  lemma StepAccounted(j: Joint, i: nat, m: Net, p: Phase, more: seq<Message>)
    requires HasSender(j, i) && SenderStep(j, i, m, p, more) && Accounted(j.net, Gaps(j.pa))
    requires m.a.conn.remote + ConnGap(p) + Volume(more) == j.net.a.conn.remote + ConnGap(j.pa[i])
    requires m.a.streams[i + 1].remote + StreamGap(p) + Volume(more) == j.net.a.streams[i + 1].remote + StreamGap(j.pa[i])
    requires forall id :: id in j.net.a.streams ==> 1 <= id <= |j.pa|
    ensures Accounted(m, Gaps(j.pa[i := p]))
  {
    hide InFlight, StreamBalanced, ConnGap, StreamGap, Volume, Sum, Times;
    UpdateTotals(j.pa, i, p);
    StepInFlight(j, i, m, p, more);
    Rebalanced(j.net, m, Gaps(j.pa), Gaps(j.pa[i := p]));
  }

  lemma StepInFlight(j: Joint, i: nat, m: Net, p: Phase, more: seq<Message>)
    requires HasSender(j, i) && SenderStep(j, i, m, p, more) && WellAddressed(j.net.ab, j.net.a.streams.Keys)
    ensures InFlight(m.ab, AllData) == InFlight(j.net.ab, AllData) + Volume(more)
    ensures forall id: U32 :: InFlight(m.ab, DataOn(id)) == InFlight(j.net.ab, DataOn(id)) + if id == i + 1 then Volume(more) else 0
    ensures WellAddressed(m.ab, j.net.a.streams.Keys)
  {
    hide InFlight;
    forall id: U32
      ensures InFlight(m.ab, DataOn(id)) == InFlight(j.net.ab, DataOn(id)) + if id == i + 1 then Volume(more) else 0
    {
      InFlightAppend(j.net.ab, more, DataOn(id));
      VolumeOn(more, i + 1, id);
    }
    InFlightAppend(j.net.ab, more, AllData);
  }

  lemma VolumeOn(more: seq<Message>, to: U32, id: U32)
    requires more == [] || (|more| == 1 && more[0].Data? && more[0].id == to)
    ensures InFlight(more, DataOn(id)) == if id == to then InFlight(more, AllData) else 0
  {
    if more != [] {
      InFlightOne(more[0], DataOn(id));
      InFlightOne(more[0], AllData);
      assert more == [more[0]];
    }
  }

  lemma OwnWay(j: Joint, i: nat, m: Net, p: Phase, more: seq<Message>, bound: nat)
    requires OneWay(j, bound) && HasSender(j, i) && SenderStep(j, i, m, p, more)
    requires Accounted(m, Gaps(j.pa[i := p]))
    requires Sound(p, m.a.streams[i + 1].remote, bound)
    requires m.a.conn.remote + Times(|j.pa| - 1, bound) >= Sum(j.pa, Owed) - Owed(j.pa[i]) + Owed(p)
    ensures OneWay(Joint(m, j.pa[i := p], j.pb), bound)
  {
    hide Accounted, Gaps, Sum, Times;
    UpdateTotals(j.pa, i, p);
    var v := Joint(m, j.pa[i := p], j.pb);
    assert SendersSound(v, bound) by { OwnSenders(j, i, m, p, more, bound); }
    assert Sound(j.pa[i], j.net.a.streams[i + 1].remote, bound);
    hide SendersSound;
  }

  lemma OwnSenders(j: Joint, i: nat, m: Net, p: Phase, more: seq<Message>, bound: nat)
    requires SendersSound(j, bound) && HasSender(j, i) && SenderStep(j, i, m, p, more)
    requires Sound(p, m.a.streams[i + 1].remote, bound)
    ensures SendersSound(Joint(m, j.pa[i := p], j.pb), bound)
  {
    hide Sound;
    var v := Joint(m, j.pa[i := p], j.pb);
    forall k | 0 <= k < |v.pa| ensures HasSender(v, k) && Sound(v.pa[k], m.a.streams[k + 1].remote, bound) {
      assert HasSender(j, k) && Sound(j.pa[k], j.net.a.streams[k + 1].remote, bound);
    }
  }

  lemma OtherWay(j: Joint, i: nat, m: Net, p: Phase, more: seq<Message>, bound: nat)
    requires OneWay(Other(j), bound) && HasSender(j, i) && SenderStep(j, i, m, p, more)
    ensures OneWay(Other(Joint(m, j.pa[i := p], j.pb)), bound)
  {
    hide Accounted, Gaps, Sum, Times, Sound;
    var v := Joint(m, j.pa[i := p], j.pb);
    SenderOpposite(j.net, m, more, Gaps(j.pb));
    forall k | 0 <= k < |v.pb| ensures HasSender(Other(v), k) && Sound(v.pb[k], m.b.streams[k + 1].remote, bound) {
      assert HasSender(Other(j), k) && Sound(j.pb[k], j.net.b.streams[k + 1].remote, bound);
    }
  }

  lemma SenderStepKeeps(j: Joint, i: nat, m: Net, p: Phase, more: seq<Message>, bound: nat)
    requires Inv(j, bound) && HasSender(j, i) && SenderStep(j, i, m, p, more)
    requires m.a.conn.remote + ConnGap(p) + Volume(more) == j.net.a.conn.remote + ConnGap(j.pa[i])
    requires m.a.streams[i + 1].remote + StreamGap(p) + Volume(more) == j.net.a.streams[i + 1].remote + StreamGap(j.pa[i])
    requires Sound(p, m.a.streams[i + 1].remote, bound)
    requires m.a.conn.remote + Times(|j.pa| - 1, bound) >= Sum(j.pa, Owed) - Owed(j.pa[i]) + Owed(p)
    ensures Inv(Joint(m, j.pa[i := p], j.pb), bound)
  {
    hide ConnGap, StreamGap, Volume, Sound, SenderStep, Accounted, SendersSound, ShortFrames, Sum, Times;
    StepAccounted(j, i, m, p, more);
    SameFailures(j, i, m, p, more);
    hide OneWay;
    OwnWay(j, i, m, p, more, bound);
    OtherWay(j, i, m, p, more, bound);
  }

  lemma SameFailures(j: Joint, i: nat, m: Net, p: Phase, more: seq<Message>)
    requires HasSender(j, i) && SenderStep(j, i, m, p, more)
    ensures m.failures == j.net.failures
  {
  }

  /** What the invariant says of one sender. */
  lemma SenderNow(j: Joint, i: nat, bound: nat)
    requires Inv(j, bound) && i < |j.pa|
    ensures HasSender(j, i) && Sound(j.pa[i], j.net.a.streams[i + 1].remote, bound)
    ensures |j.pa| == |j.pb| && Moderated(|j.pa|, bound) && bound <= INT_MAX
  {
    hide Accounted, Sum;
  }

  lemma OthersOwe(j: Joint, i: nat, p: Phase, bound: nat)
    requires Inv(j, bound) && i < |j.pa|
    ensures Sum(j.pa[i := p], Owed) <= Owed(p) + Times(|j.pa| - 1, bound)
  {
    hide Accounted, Sum, Times;
    var ps := j.pa[i := p];
    forall k | 0 <= k < |ps| && k != i ensures Owed(ps[k]) <= bound {
      assert Sound(j.pa[k], j.net.a.streams[k + 1].remote, bound);
    }
    SumOfOthers(ps, i, bound, Owed);
  }

  /** With a single sender, idle, the connection window is no larger than the receiver's. */
  lemma AloneAndIdle(j: Joint, bound: nat)
    requires Inv(j, bound) && |j.pa| == 1 && j.pa[0].Idle?
    ensures j.net.a.conn.remote <= DEFAULT_WINDOW
  {
    IdleTotals(j.pa);
    hide Sum, InFlight, StreamBalanced, WellAddressed;
  }

  lemma BoundNow(j: Joint, bound: nat)
    requires Inv(j, bound)
    ensures j.net.a.conn.remote + Times(|j.pa| - 1, bound) >= Sum(j.pa, Owed)
    ensures j.net.a.conn.remote - Sum(j.pa, Owed) >= -0x8000_0000
  {
    hide Accounted, SendersSound, Sum;
    assert Times(|j.pa|, bound) == Times(|j.pa| - 1, bound) + bound;
  }

  lemma ReadConnKeeps(j: Joint, i: nat, len: nat, bound: nat)
    requires Inv(j, bound) && Lawful(ReadConn(i, len), |j.pa|, bound)
    ensures Inv(Act(j, ReadConn(i, len)), bound)
  {
    hide Inv, Sum, Times;
    if Act(j, ReadConn(i, len)) != j {
      var p := Reading(len, j.net.a.conn.remote);
      SenderNow(j, i, bound);
      if len > bound { AloneAndIdle(j, bound); }
      BoundNow(j, bound);
      UpdateTotals(j.pa, i, p);
      OthersOwe(j, i, p, bound);
      QuietStepKeeps(j, i, p, bound);
    }
  }

  lemma ReadStreamKeeps(j: Joint, i: nat, bound: nat)
    requires Inv(j, bound)
    ensures Inv(Act(j, ReadStream(i)), bound)
  {
    hide Inv, Sum, Times;
    if Act(j, ReadStream(i)) != j {
      var window := j.net.a.streams[i + 1].remote;
      SenderNow(j, i, bound);
      BoundNow(j, bound);
      VerdictSound(j.pa[i], window, bound);
      QuietStepKeeps(j, i, Verdict(j.pa[i], window), bound);
    }
  }

  /** A step of a sender that touches no window and sends nothing. */
  lemma QuietStepKeeps(j: Joint, i: nat, p: Phase, bound: nat)
    requires Inv(j, bound) && HasSender(j, i) && ConnGap(p) == ConnGap(j.pa[i]) && StreamGap(p) == StreamGap(j.pa[i])
    requires Sound(p, j.net.a.streams[i + 1].remote, bound)
    requires j.net.a.conn.remote + Times(|j.pa| - 1, bound) >= Sum(j.pa, Owed) - Owed(j.pa[i]) + Owed(p)
    ensures Inv(j.(pa := j.pa[i := p]), bound)
  {
    hide Inv, Sum, Times, Sound, ConnGap, StreamGap, Owed;
    assert j.net.ab + [] == j.net.ab;
    SenderStepKeeps(j, i, j.net, p, [], bound);
  }

  lemma EmitKeeps(j: Joint, i: nat, bound: nat)
    requires Inv(j, bound)
    ensures Inv(Act(j, Emit(i)), bound)
  {
    hide Inv, Sum, Times;
    if Act(j, Emit(i)) != j {
      var v := Act(j, Emit(i));
      var more := [Data(i + 1, j.pa[i].len)];
      InFlightOne(more[0], AllData);
      SenderNow(j, i, bound);
      BoundNow(j, bound);
      hide InFlight;
      SenderStepKeeps(j, i, v.net, v.pa[i], more, bound);
    }
  }

  lemma PayConnKeeps(j: Joint, i: nat, bound: nat)
    requires Inv(j, bound)
    ensures Inv(Act(j, PayConn(i)), bound)
  {
    hide Inv, Sum, Times;
    if Act(j, PayConn(i)) != j {
      var v := Act(j, PayConn(i));
      SenderNow(j, i, bound);
      BoundNow(j, bound);
      SumCovers(j.pa, i, Owed);
      assert v.net.a.conn.remote == j.net.a.conn.remote - j.pa[i].len;
      assert j.net.ab + [] == j.net.ab;
      hide InFlight;
      SenderStepKeeps(j, i, v.net, v.pa[i], [], bound);
    }
  }

  lemma PayStreamKeeps(j: Joint, i: nat, bound: nat)
    requires Inv(j, bound)
    ensures Inv(Act(j, PayStream(i)), bound)
  {
    hide Inv, Sum, Times;
    if Act(j, PayStream(i)) != j {
      var v := Act(j, PayStream(i));
      SenderNow(j, i, bound);
      BoundNow(j, bound);
      assert j.net.ab + [] == j.net.ab;
      assert v.net.a.streams[i + 1].remote == j.net.a.streams[i + 1].remote - j.pa[i].len;
      hide InFlight, Spend, MaySend;
      SenderStepKeeps(j, i, v.net, v.pa[i], [], bound);
    }
  }

  /** The oldest frame is short enough for any healthy receiver, or the only sender has kept within both windows. */
  lemma HeadAccepted(j: Joint, bound: nat)
    requires Inv(j, bound) && j.net.ab != [] && j.net.ab[0].Data?
    ensures var d, b := j.net.ab[0], j.net.b;
      && d.id in b.streams && ToInt32(d.len) == d.len
      && Receive(b.conn.local, b.streams[d.id].local, d.len).Accepted?
  {
    hide InFlight, Gaps, Sum, Times, SendersSound;
    var d := j.net.ab[0];
    assert d in j.net.ab;
    assert StreamBalanced(j.net, d.id, Gaps(j.pa)(d.id));
    if bound > THRESHOLD {
      InFlightAtLeast(j.net.ab, d, AllData);
      InFlightAtLeast(j.net.ab, d, DataOn(d.id));
      AloneSolvent(j, bound);
    }
    hide OneWay, Accounted;
  }

  /** A single sender never has more under way than both windows of the receiver allow. */
  lemma AloneSolvent(j: Joint, bound: nat)
    requires Inv(j, bound) && |j.pa| == 1
    ensures j.net.a.conn.remote + Gaps(j.pa)(0) >= 0
    ensures 1 in j.net.a.streams && j.net.a.streams[1].remote + Gaps(j.pa)(1) >= 0
  {
    SenderNow(j, 0, bound);
    BoundNow(j, bound);
    hide Inv;
    assert j.pa[1..] == [];
    assert Sum(j.pa, Owed) == Owed(j.pa[0]) && Sum(j.pa, ConnGap) == ConnGap(j.pa[0]);
  }

  lemma GapBound(ps: seq<Phase>, i: nat, bound: nat)
    requires i < |ps| && forall j :: 0 <= j < |ps| && ps[j].Pending? ==> ps[j].len <= bound
    ensures Sum(ps, ConnGap) + Times(|ps|, bound) >= 0 && StreamGap(ps[i]) + Times(|ps|, bound) >= 0
  {
    SumAtLeast(ps, bound, ConnGap);
    hide Sum;
  }

  lemma LengthsBounded(j: Joint, bound: nat)
    requires Inv(j, bound)
    ensures forall k :: 0 <= k < |j.pb| && j.pb[k].Pending? ==> j.pb[k].len <= bound
    ensures forall id :: id in j.net.b.streams ==> 1 <= id <= |j.pb|
  {
    hide Accounted, Sum, Times, ShortFrames;
    forall k | 0 <= k < |j.pb| && j.pb[k].Pending? ensures j.pb[k].len <= bound {
      assert Sound(j.pb[k], j.net.b.streams[k + 1].remote, bound);
    }
  }

  lemma GapsBounded(j: Joint, bound: nat, slack: nat)
    requires Inv(j, bound) && slack == Times(|j.pb|, bound)
    ensures Gaps(j.pb)(0) + slack >= 0 && forall id :: id in j.net.b.streams ==> Gaps(j.pb)(id) + slack >= 0
  {
    LengthsBounded(j, bound);
    assert |j.pb| > 0;
    hide Inv, Sum, StreamGap, Times;
    GapBound(j.pb, 0, bound);
    forall id | id in j.net.b.streams ensures Gaps(j.pb)(id) + slack >= 0 {
      GapBound(j.pb, id - 1, bound);
    }
  }

  /** What a delivery to `b` may do to the state, besides keeping the accounts. */
  lemma DeliveryKeeps(j: Joint, m: Net, bound: nat)
    requires Inv(j, bound) && j.net.ab != []
    requires Accounted(m, Gaps(j.pa)) && Accounted(Swap(m), Gaps(j.pb)) && m.failures == 0
    requires m.ab == j.net.ab[1..] && m.a == j.net.a && forall x :: x in m.ba ==> x in j.net.ba || x.Credit?
    requires m.b.conn.remote >= j.net.b.conn.remote && m.b.streams.Keys == j.net.b.streams.Keys
    requires forall id :: id in m.b.streams ==> m.b.streams[id].remote >= j.net.b.streams[id].remote
    ensures Inv(Joint(m, j.pa, j.pb), bound)
  {
    hide Accounted, Gaps, Sum, Times;
    var v := Joint(m, j.pa, j.pb);
    assert forall x :: x in m.ab ==> x in j.net.ab;
    assert SendersSound(v, bound) by {
      forall k | 0 <= k < |v.pa| ensures HasSender(v, k) && Sound(v.pa[k], m.a.streams[k + 1].remote, bound) {
        assert HasSender(j, k) && Sound(j.pa[k], j.net.a.streams[k + 1].remote, bound);
      }
    }
    assert SendersSound(Other(v), bound) by {
      forall k | 0 <= k < |v.pb| ensures HasSender(Other(v), k) && Sound(v.pb[k], m.b.streams[k + 1].remote, bound) {
        assert HasSender(Other(j), k) && Sound(j.pb[k], j.net.b.streams[k + 1].remote, bound);
      }
    }
  }

  lemma AccountsNow(j: Joint, bound: nat)
    requires Inv(j, bound)
    ensures Accounted(j.net, Gaps(j.pa)) && Accounted(Swap(j.net), Gaps(j.pb)) && j.net.failures == 0
    ensures |j.pa| == |j.pb| && Moderated(|j.pb|, bound)
  {
    hide Accounted, SendersSound, ShortFrames, Sum, Times, Gaps;
  }

  lemma CreditRoom(j: Joint, bound: nat)
    requires Inv(j, bound)
    ensures CreditWithin(j.net, INT_MAX)
  {
    AccountsNow(j, bound);
    var slack := Times(|j.pb|, bound);
    GapsBounded(j, bound, slack);
    hide Inv, Accounted, Gaps;
    CreditWithinWhenAccounted(j.net, Gaps(j.pa), Gaps(j.pb), slack);
  }

  lemma HandData(j: Joint, bound: nat)
    requires Inv(j, bound) && j.net.ab != [] && j.net.ab[0].Data?
    ensures Inv(Act(j, Hand), bound)
  {
    hide Inv, Deliver, Receive, Accounted, Gaps;
    HeadAccepted(j, bound);
    AccountsNow(j, bound);
    AcceptedDelivery(j.net, Gaps(j.pa), Gaps(j.pb));
    DeliveryKeeps(j, Deliver(j.net), bound);
  }

  lemma HandCredit(j: Joint, bound: nat)
    requires Inv(j, bound) && j.net.ab != [] && j.net.ab[0].Credit?
    ensures Inv(Act(j, Hand), bound)
  {
    hide Inv, Deliver, Accounted, Gaps, CreditWithin;
    CreditRoom(j, bound);
    AccountsNow(j, bound);
    CreditDelivery(j.net, Gaps(j.pa), Gaps(j.pb));
    DeliveryKeeps(j, Deliver(j.net), bound);
  }

  lemma HandKeeps(j: Joint, bound: nat)
    requires Inv(j, bound)
    ensures Inv(Act(j, Hand), bound)
  {
    hide Inv;
    if j.net.ab != [] {
      if j.net.ab[0].Data? { HandData(j, bound); } else { HandCredit(j, bound); }
    }
  }

  lemma ActKeeps(j: Joint, op: Op, bound: nat)
    requires Inv(j, bound) && Lawful(op, |j.pa|, bound)
    ensures Inv(Act(j, op), bound)
  {
    hide Inv, Act;
    match op
    case ReadConn(i, len) => ReadConnKeeps(j, i, len, bound);
    case ReadStream(i) => ReadStreamKeeps(j, i, bound);
    case Emit(i) => EmitKeeps(j, i, bound);
    case PayConn(i) => PayConnKeeps(j, i, bound);
    case PayStream(i) => PayStreamKeeps(j, i, bound);
    case Hand => HandKeeps(j, bound);
  }

  lemma StepKeeps(j: Joint, x: Move, bound: nat)
    requires Inv(j, bound) && Lawful(x.op, |j.pa|, bound)
    ensures Inv(Step(j, x), bound) && |Step(j, x).pa| == |j.pa|
  {
    SameSendersStep(j, x);
    hide OneWay, Act, Times, Lawful;
    ActKeeps(if x.byA then j else Other(j), x.op, bound);
  }

  // ----- main results -----

  lemma {:induction false} RunKeeps(j: Joint, xs: seq<Move>, bound: nat)
    requires Inv(j, bound) && forall x :: x in xs ==> Lawful(x.op, |j.pa|, bound)
    ensures Inv(Run(j, xs), bound) && |Run(j, xs).pa| == |j.pa|
    decreases |xs|
  {
    hide Inv, Step, Lawful;
    if xs != [] {
      StepKeeps(j, xs[0], bound);
      RunKeeps(Step(j, xs[0]), xs[1..], bound);
    }
  }

  lemma InitAccounted(k: nat)
    requires k + 1 < TWO32
    ensures Accounted(Init(k).net, Gaps(Init(k).pa)) && Sum(Init(k).pa, Owed) == 0
  {
    var j := Init(k);
    IdleTotals(j.pa);
    hide Sum, FreshStreams;
    assert forall id :: id in j.net.a.streams ==> StreamBalanced(j.net, id, Gaps(j.pa)(id));
  }

  lemma InitInv(k: nat, bound: nat)
    requires Moderated(k, bound)
    ensures Inv(Init(k), bound)
  {
    InitAccounted(k);
    var j := Init(k);
    hide Accounted, Gaps, Sum, Times, FreshStreams;
    assert SendersSound(j, bound);
    assert Other(j) == j;
  }

  /** k senders at each end, and lengths of at most `bound` bytes that no receiver refuses or that do not race. */
  ghost predicate Admissible(k: nat, bound: nat) {
    0 < k < TWO32 - 1 && (bound <= THRESHOLD || k == 1) && DEFAULT_WINDOW + k * bound <= INT_MAX
  }

  /**
   With k racing senders at both ends and frames of at most L bytes, L <= 32767 or k = 1, in every
   interleaving and in both directions: the accounts balance once the bytes between two steps of a
   sender are counted, no receiver ever returns -1, no connection window falls below -(k - 1) * L,
   and no stream window below 0.
   */
  lemma RacingConservation(k: nat, bound: nat, xs: seq<Move>)
    requires Admissible(k, bound) && AllWithin(xs, bound)
    ensures var j := Run(Init(k), xs);
      && Accounted(j.net, Gaps(j.pa)) && Accounted(Swap(j.net), Gaps(j.pb))
      && j.net.failures == 0
      && j.net.a.conn.remote >= -((k - 1) * bound) && j.net.b.conn.remote >= -((k - 1) * bound)
      && forall id :: id in j.net.a.streams ==> j.net.a.streams[id].remote >= 0 && j.net.b.streams[id].remote >= 0
  {
    var j := Run(Init(k), xs);
    hide Inv, Fold, Accounted, Gaps, Times;
    StartInv(k, bound, xs);
    InvOther(j, bound);
    TimesIsProduct(k - 1, bound);
    AccountsNow(j, bound);
    WindowsNow(j, bound);
    WindowsNow(Other(j), bound);
  }

  lemma StartInv(k: nat, bound: nat, xs: seq<Move>)
    requires Admissible(k, bound) && AllWithin(xs, bound)
    ensures Inv(Run(Init(k), xs), bound) && |Run(Init(k), xs).pa| == k
  {
    hide Inv, Run, Times;
    TimesIsProduct(k, bound);
    InitInv(k, bound);
    RunKeeps(Init(k), xs, bound);
  }

  lemma WindowsNow(j: Joint, bound: nat)
    requires Inv(j, bound)
    ensures j.net.a.conn.remote + Times(|j.pa| - 1, bound) >= 0
    ensures forall id :: id in j.net.a.streams ==> j.net.a.streams[id].remote >= 0
  {
    BoundNow(j, bound);
    SumCovers(j.pa, 0, Owed);
    assert forall id :: id in j.net.a.streams ==> 1 <= id <= |j.pa|;
    hide Inv, Times, Sum;
    forall id | id in j.net.a.streams ensures j.net.a.streams[id].remote >= 0 { SenderNow(j, id - 1, bound); }
  }

  lemma SameSendersStep(j: Joint, x: Move)
    ensures |Step(j, x).pa| == |j.pa| && |Step(j, x).pb| == |j.pb|
  {
  }

  // ----- no stall -----

  lemma InvOther(j: Joint, bound: nat)
    requires Inv(j, bound)
    ensures Inv(Other(j), bound)
  {
    hide OneWay;
  }

  function Load(j: Joint): nat {
    Cost(j.net.ab) + Cost(j.net.ba)
  }

  function Finish(byA: bool, i: nat): seq<Move> {
    [Move(byA, ReadStream(i)), Move(byA, Emit(i)), Move(byA, PayConn(i)), Move(byA, PayStream(i))]
  }

  /** Four steps take sender `i` of `a` to `Idle`, whatever phase it is in, and put at most one frame on the wire. */
  function Finished(j: Joint, i: nat): Joint {
    Act(Act(Act(Act(j, ReadStream(i)), Emit(i)), PayConn(i)), PayStream(i))
  }

  lemma ActFinish(j: Joint, i: nat, bound: nat)
    requires HasSender(j, i) && Sound(j.pa[i], j.net.a.streams[i + 1].remote, bound) && bound <= INT_MAX
    ensures var v := Finished(j, i); v.pa == j.pa[i := Idle] && v.pb == j.pb && Load(v) <= Load(j) + 3
  {
    var j0 := Act(j, ReadStream(i));
    if j.pa[i].Reading? { VerdictSound(j.pa[i], j.net.a.streams[i + 1].remote, bound); }
    hide Load;
    PayFinish(j0, i, bound);
  }

  lemma PayFinish(j: Joint, i: nat, bound: nat)
    requires HasSender(j, i) && Sound(j.pa[i], j.net.a.streams[i + 1].remote, bound) && !j.pa[i].Reading?
    ensures var v := Act(Act(Act(j, Emit(i)), PayConn(i)), PayStream(i));
      v.pa == j.pa[i := Idle] && v.pb == j.pb && Load(v) <= Load(j) + 3
  {
    if j.pa[i].Pending? {
      var j1 := Act(j, Emit(i));
      if !j.pa[i].sent {
        var d := Data(i + 1, j.pa[i].len);
        CostAppend(j.net.ab, [d]);
        assert [d][1..] == [];
      }
      assert Load(j1) <= Load(j) + 3;
      hide Cost, Spend;
      var j2 := Act(j1, PayConn(i));
      var j3 := Act(j2, PayStream(i));
      assert j3.pa[i].Idle?;
    } else {
      assert j.pa[i := Idle] == j.pa;
    }
  }

  lemma RunFinish(j: Joint, byA: bool, i: nat)
    ensures Run(j, Finish(byA, i)) == if byA then Finished(j, i) else Other(Finished(Other(j), i))
  {
    hide Act, Fold;
    var x, y, z, w := Move(byA, ReadStream(i)), Move(byA, Emit(i)), Move(byA, PayConn(i)), Move(byA, PayStream(i));
    assert Finish(byA, i) == [x] + ([y] + ([z] + ([w] + [])));
    FoldPrepend(Step, j, x, [y] + ([z] + ([w] + [])));
    FoldPrepend(Step, Step(j, x), y, [z] + ([w] + []));
    FoldPrepend(Step, Step(Step(j, x), y), z, [w] + []);
    FoldPrepend(Step, Step(Step(Step(j, x), y), z), w, []);
    FoldEmpty(Step, Step(Step(Step(Step(j, x), y), z), w));
  }

  lemma FinishA(j: Joint, i: nat, bound: nat)
    requires Inv(j, bound) && i < |j.pa|
    ensures var v := Run(j, Finish(true, i));
      Inv(v, bound) && v.pa == j.pa[i := Idle] && v.pb == j.pb && Load(v) <= Load(j) + 3
  {
    hide Inv, Finished, Load, Run;
    RunKeeps(j, Finish(true, i), bound);
    RunFinish(j, true, i);
    SenderNow(j, i, bound);
    ActFinish(j, i, bound);
  }

  lemma FinishB(j: Joint, i: nat, bound: nat)
    requires Inv(j, bound) && i < |j.pb|
    ensures var v := Run(j, Finish(false, i));
      Inv(v, bound) && v.pa == j.pa && v.pb == j.pb[i := Idle] && Load(v) <= Load(j) + 3
  {
    hide Inv, Finished, Load, Run;
    RunKeeps(j, Finish(false, i), bound);
    RunFinish(j, false, i);
    var u := Other(j);
    InvOther(j, bound);
    SenderNow(u, i, bound);
    ActFinish(u, i, bound);
    LoadOther(j);
    LoadOther(Finished(u, i));
  }

  lemma LoadOther(j: Joint)
    ensures Load(Other(j)) == Load(j)
  {
  }

  ghost predicate IdleBelow(ps: seq<Phase>, i: nat) {
    forall k :: 0 <= k < i && k < |ps| ==> ps[k].Idle?
  }

  lemma FinishBoth(j: Joint, i: nat, bound: nat)
    requires Inv(j, bound) && i < |j.pa| == |j.pb|
    ensures var v := Run(j, Finish(true, i) + Finish(false, i));
      Inv(v, bound) && v.pa == j.pa[i := Idle] && v.pb == j.pb[i := Idle] && Load(v) <= Load(j) + 6
  {
    hide Inv, Load, Fold, Finish;
    FinishA(j, i, bound);
    FinishB(Run(j, Finish(true, i)), i, bound);
    FoldConcat(Step, j, Finish(true, i), Finish(false, i));
  }

  lemma RoundMoves(i: nat)
    ensures var round := Finish(true, i) + Finish(false, i); |round| == 8 && forall x :: x in round ==> !x.op.ReadConn?
  {
  }

  /** Every sender from `i` on, at both ends, completes its send. */
  lemma {:induction false} FinishAll(j: Joint, i: nat, bound: nat) returns (xs: seq<Move>)
    requires Inv(j, bound) && |j.pa| == |j.pb| && i <= |j.pa| && IdleBelow(j.pa, i) && IdleBelow(j.pb, i)
    ensures |xs| == 8 * (|j.pa| - i) && forall x :: x in xs ==> !x.op.ReadConn?
    ensures var v := Run(j, xs);
      && Inv(v, bound) && |v.pa| == |v.pb| == |j.pa| && IdleBelow(v.pa, |v.pa|) && IdleBelow(v.pb, |v.pb|)
      && Load(v) <= Load(j) + 6 * (|j.pa| - i)
    decreases |j.pa| - i
  {
    hide Inv, Load, Finish;
    if i == |j.pa| {
      xs := [];
    } else {
      hide Fold;
      var round := Finish(true, i) + Finish(false, i);
      RoundMoves(i);
      FinishBoth(j, i, bound);
      var rest := FinishAll(Run(j, round), i + 1, bound);
      FoldConcat(Step, j, round, rest);
      xs := round + rest;
    }
  }

  lemma ActHand(j: Joint, bound: nat)
    requires Inv(j, bound) && j.net.ab != []
    ensures var v := Act(j, Hand); v.pa == j.pa && v.pb == j.pb && Load(v) < Load(j)
  {
    hide Inv, Cost, Deliver, Receive;
    if j.net.ab[0].Data? { HeadAccepted(j, bound); }
    DeliverCosts(j.net);
  }

  lemma HandProgress(j: Joint, byA: bool, bound: nat)
    requires Inv(j, bound) && (if byA then j.net.ab != [] else j.net.ba != [])
    ensures var v := Step(j, Move(byA, Hand));
      Inv(v, bound) && v.pa == j.pa && v.pb == j.pb && Load(v) < Load(j)
  {
    hide Inv, Act, Cost;
    StepKeeps(j, Move(byA, Hand), bound);
    InvOther(j, bound);
    ActHand(if byA then j else Other(j), bound);
  }

  lemma {:induction false} Drain(j: Joint, bound: nat) returns (xs: seq<Move>)
    requires Inv(j, bound)
    ensures |xs| <= Load(j) && forall x :: x in xs ==> x.op.Hand?
    ensures var v := Run(j, xs); Inv(v, bound) && v.pa == j.pa && v.pb == j.pb && v.net.ab == v.net.ba == []
    decreases Load(j)
  {
    if j.net.ab == [] && j.net.ba == [] {
      xs := [];
    } else {
      hide Inv, Load, Step;
      var byA := j.net.ab != [];
      HandProgress(j, byA, bound);
      var rest := Drain(Step(j, Move(byA, Hand)), bound);
      xs := [Move(byA, Hand)] + rest;
      assert xs[1..] == rest;
    }
  }

  /** With nothing under way and every sender idle, `a` may send up to 32767 bytes on every stream. */
  lemma QuietMaySend(j: Joint, bound: nat)
    requires Inv(j, bound) && j.net.ab == j.net.ba == [] && IdleBelow(j.pa, |j.pa|)
    ensures forall len :: 0 <= len <= THRESHOLD ==> MayAllSend(j.net.a, len)
  {
    AccountsNow(j, bound);
    IdleTotals(j.pa);
    assert forall id :: id in j.net.a.streams ==> 1 <= id <= |j.pa|;
    hide Inv, Sum;
    forall id | id in j.net.a.streams ensures j.net.a.streams[id].remote >= THRESHOLD {
      assert StreamBalanced(j.net, id, Gaps(j.pa)(id));
    }
  }

  /**
   No stall, races and overdrafts included: from every reachable state the senders completing what
   they have begun, and deliveries, in a number bounded by k and the messages under way, lead to a
   state where both endpoints may send any 32767 bytes on every stream.
   */
  lemma RacingNoStall(j: Joint, bound: nat) returns (xs: seq<Move>)
    requires Inv(j, bound)
    ensures |xs| <= 14 * |j.pa| + Load(j) && forall x :: x in xs ==> !x.op.ReadConn?
    ensures var v := Run(j, xs);
      && Inv(v, bound) && v.net.ab == v.net.ba == [] && IdleBelow(v.pa, |j.pa|) && IdleBelow(v.pb, |j.pa|)
      && forall len :: 0 <= len <= THRESHOLD ==> MayAllSend(v.net.a, len) && MayAllSend(v.net.b, len)
  {
    AccountsNow(j, bound);
    hide Load;
    var finish := FinishAll(j, 0, bound);
    var j1 := Run(j, finish);
    var drain := Drain(j1, bound);
    var v := Run(j1, drain);
    FoldConcat(Step, j, finish, drain);
    xs := finish + drain;
    InvOther(v, bound);
    hide Inv, Run;
    QuietMaySend(v, bound);
    QuietMaySend(Other(v), bound);
  }

  /** The same, of every run from the start. */
  lemma RacingRunsGoOn(k: nat, bound: nat, xs: seq<Move>) returns (ys: seq<Move>)
    requires Admissible(k, bound) && AllWithin(xs, bound)
    ensures forall y :: y in ys ==> !y.op.ReadConn?
    ensures var v := Run(Init(k), xs + ys);
      && v.net.ab == v.net.ba == [] && v.net.failures == 0
      && forall len :: 0 <= len <= THRESHOLD ==> MayAllSend(v.net.a, len) && MayAllSend(v.net.b, len)
  {
    hide OneWay, Fold, Init;
    StartInv(k, bound, xs);
    ys := RacingNoStall(Run(Init(k), xs), bound);
    FoldConcat(Step, Init(k), xs, ys);
  }
}
