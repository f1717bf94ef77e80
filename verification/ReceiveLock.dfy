/**
 Threads receiving DATA on one connection, step by step around `write_mutex`. When the connection
 window falls below the threshold, `consume_recv_window` sends a WINDOW_UPDATE while it holds the
 mutex, and with an open socket `send_frame` locks that mutex again: a default pthread mutex, so
 the thread waits for itself. The announcement of a stream window is sent without the mutex held.
 */
module ReceiveLock {
  import opened Machine
  import opened Http2
  import opened FlowControl
  import opened Sums
  import opened Runs

  /** What a thread wants the mutex for: to charge DATA, to send a stream's WINDOW_UPDATE, or for any other short section. */
  datatype Section = Charging(stream: nat, n: nat) | Updating(stream: nat) | Other

  /** `Relocking`: the thread holds the mutex and waits for it. `Settling`: it has released it and turns to the stream window. */
  datatype Spot = Outside | Waiting(s: Section) | Inside(s: Section) | Relocking | Settling(stream: nat, n: nat)

  /** `owner` is the thread that holds the mutex, -1 for none; `taken` counts the bytes charged to the connection window. */
  datatype State = State(open: bool, owner: int, local: Int32, streams: seq<Int32>, threads: seq<Spot>, taken: nat)

  datatype Event = EnterReceive(t: nat, stream: nat, len: nat) | EnterOther(t: nat) | Go(t: nat)

  function Step(l: State, e: Event): State {
    if e.t >= |l.threads| then l
    else
      match e
      case EnterReceive(t, stream, len) =>
        if l.threads[t].Outside? && stream < |l.streams| && 0 <= ToInt32(len) <= DEFAULT_WINDOW
        then At(l, t, Waiting(Charging(stream, ToInt32(len)))) else l
      case EnterOther(t) =>
        if l.threads[t].Outside? then At(l, t, Waiting(Other)) else l
      case Go(t) =>
        match l.threads[t]
        case Outside => l
        case Waiting(s) => if l.owner < 0 then At(l.(owner := t), t, Inside(s)) else l
        case Inside(s) => Critical(l, t, s)
        case Relocking => l
        case Settling(stream, n) => Settle(l, t, stream, n)
  }

  function At(l: State, t: nat, spot: Spot): State
    requires t < |l.threads|
  {
    l.(threads := l.threads[t := spot])
  }

  /** The critical section, up to the release of the mutex or to the second attempt to lock it. */
  function Critical(l: State, t: nat, s: Section): State
    requires t < |l.threads|
  {
    var free := l.(owner := -1);
    match s
    case Charging(stream, n) =>
      if l.local < n then At(free, t, Outside)
      else
        var c := Accept(l.local, n);
        if c.credit > 0 && l.open then At(l.(local := l.local - n, taken := l.taken + n), t, Relocking)
        else At(free.(local := c.window, taken := l.taken + n), t, Settling(stream, n))
    case Updating(stream) =>
      At(if stream < |l.streams| then free.(streams := l.streams[stream := DEFAULT_WINDOW]) else free, t, Outside)
    case Other => At(free, t, Outside)
  }

  function Settle(l: State, t: nat, stream: nat, n: nat): State
    requires t < |l.threads|
  {
    if stream >= |l.streams| || l.streams[stream] < n then At(l, t, Outside)
    else
      var c := Accept(l.streams[stream], n);
      if c.credit > 0 && l.open
      then At(l.(streams := l.streams[stream := l.streams[stream] - n]), t, Waiting(Updating(stream)))
      else At(l.(streams := l.streams[stream := c.window]), t, Outside)
  }

  function Run(l: State, es: seq<Event>): State {
    Fold(Step, l, es)
  }

  /** A new connection, with `k` threads and `m` streams. */
  function Init(open: bool, k: nat, m: nat): State {
    State(open, -1, DEFAULT_WINDOW, seq(m, _ => DEFAULT_WINDOW), seq(k, _ => Outside), 0)
  }

  // ----- one call is one receipt -----

  /** A receive call of thread `t`, run to its end: the announcement of a stream window takes two steps more. */
  function WholeCall(t: nat, stream: nat, len: nat): seq<Event> {
    [EnterReceive(t, stream, len), Go(t), Go(t), Go(t), Go(t), Go(t)]
  }

  /** The state after a call that returns, with both windows as `Receive` has them. */
  function Received(l: State, stream: nat, len: nat): State
    requires stream < |l.streams|
  {
    match Receive(l.local, l.streams[stream], len)
    case Refused => l
    case StreamShort(c) => l.(local := c.window, taken := l.taken + ToInt32(len))
    case Accepted(c, s) =>
      l.(local := c.window, streams := l.streams[stream := s.window], taken := l.taken + ToInt32(len))
  }

  /** Does the call announce connection credit, and so lock the mutex again? */
  predicate Relocks(l: State, stream: nat, len: nat)
    requires stream < |l.streams|
  {
    var r := Receive(l.local, l.streams[stream], len);
    l.open && !r.Refused? && r.conn.credit > 0
  }

  /**
   An undisturbed call does what `Receive` says and returns, to the very state of the threads before
   it, unless the socket is open and the connection has credit to announce: then it is stuck.
   */
  lemma CallIsReceive(l: State, t: nat, stream: nat, len: nat)
    requires l.owner == -1 && t < |l.threads| && l.threads[t].Outside? && stream < |l.streams|
    ensures var v := Run(l, WholeCall(t, stream, len));
      if Relocks(l, stream, len) then v.threads == l.threads[t := Relocking] && v.owner == t
      else v == Received(l, stream, len)
  {
    hide Fold;
    var es := WholeCall(t, stream, len);
    var l1 := Step(l, es[0]);
    var l2 := Step(l1, es[1]);
    var l3 := Step(l2, es[2]);
    var l4 := Step(l3, es[3]);
    var l5 := Step(l4, es[4]);
    var l6 := Step(l5, es[5]);
    CallSteps(l, t, stream, len);
    hide Step;
    FoldTrace(Step, [l, l1, l2, l3, l4, l5, l6], es);
  }

  lemma CallSteps(l: State, t: nat, stream: nat, len: nat)
    requires l.owner == -1 && t < |l.threads| && l.threads[t].Outside? && stream < |l.streams|
    ensures var l3 := Step(Step(Step(l, EnterReceive(t, stream, len)), Go(t)), Go(t));
      var v := Step(Step(Step(l3, Go(t)), Go(t)), Go(t));
      if Relocks(l, stream, len) then v.threads == l.threads[t := Relocking] && v.owner == t
      else v == Received(l, stream, len)
  {
    var n := ToInt32(len);
    var l1 := Step(l, EnterReceive(t, stream, len));
    if 0 <= n <= DEFAULT_WINDOW {
      var l2 := Step(l1, Go(t));
      assert l2 == At(l.(owner := t), t, Inside(Charging(stream, n)));
      var l3 := Step(l2, Go(t));
      if l.local < n {
        assert l3 == At(l, t, Outside) == l;
      } else if !Relocks(l, stream, len) {
        var m := l.(local := Accept(l.local, n).window, taken := l.taken + n);
        assert l3 == At(m, t, Settling(stream, n));
        SettleSteps(m, t, stream, n);
      }
    }
  }

  /** The second half of the call, on the stream window. */
  lemma SettleSteps(l: State, t: nat, stream: nat, n: nat)
    requires l.owner == -1 && t < |l.threads| && l.threads[t].Outside? && stream < |l.streams| && n <= DEFAULT_WINDOW
    ensures var v := Step(Step(Step(At(l, t, Settling(stream, n)), Go(t)), Go(t)), Go(t));
      v == if l.streams[stream] < n then l else l.(streams := l.streams[stream := Accept(l.streams[stream], n).window])
  {
    var l1 := At(l, t, Settling(stream, n));
    var l2 := Step(l1, Go(t));
    assert At(l1, t, Outside) == l;
    if l.streams[stream] >= n && l.open && Accept(l.streams[stream], n).credit > 0 {
      var m := l.(streams := l.streams[stream := l.streams[stream] - n]);
      assert l2 == At(m, t, Waiting(Updating(stream)));
      var l3 := Step(l2, Go(t));
      assert l3 == At(m.(owner := t), t, Inside(Updating(stream)));
      assert Step(l3, Go(t)) == l.(streams := l.streams[stream := DEFAULT_WINDOW]);
    }
  }

  /** Any other call with a section of its own leaves everything as it was. */
  lemma OtherIsBrief(l: State, t: nat)
    requires l.owner == -1 && t < |l.threads| && l.threads[t].Outside?
    ensures Run(l, [EnterOther(t), Go(t), Go(t)]) == l
    ensures Step(l, EnterOther(t)).threads[t] == Waiting(Other)
  {
    hide Fold;
    var es := [EnterOther(t), Go(t), Go(t)];
    var l1 := Step(l, es[0]);
    var l2 := Step(l1, es[1]);
    var l3 := Step(l2, es[2]);
    assert l3 == l;
    hide Step;
    FoldTrace(Step, [l, l1, l2, l3], es);
  }

  // ----- the invariant -----

  predicate Holds(p: Spot) {
    p.Inside? || p.Relocking?
  }

  ghost predicate MutualExclusion(l: State) {
    && -1 <= l.owner < |l.threads|
    && forall t :: 0 <= t < |l.threads| ==> (Holds(l.threads[t]) <==> t == l.owner)
  }

  /** Some thread waits for a mutex that it holds itself. */
  ghost predicate Stuck(l: State) {
    exists t :: 0 <= t < |l.threads| && l.threads[t].Relocking?
  }

  predicate OwnerRelocks(l: State) {
    0 <= l.owner < |l.threads| && l.threads[l.owner].Relocking?
  }

  /** With an open socket nothing charged is ever restored, and the thread that crosses the threshold is stuck. */
  ghost predicate Inv(l: State) {
    && MutualExclusion(l)
    && (l.open ==> l.local + l.taken == DEFAULT_WINDOW && (OwnerRelocks(l) <==> l.local < THRESHOLD))
    && (!l.open ==> Healthy(l.local) && !OwnerRelocks(l))
  }

  lemma StuckOwner(l: State)
    requires MutualExclusion(l)
    ensures Stuck(l) <==> OwnerRelocks(l)
  {
    if t :| 0 <= t < |l.threads| && l.threads[t].Relocking? { assert Holds(l.threads[t]); }
  }

  lemma StepKeeps(l: State, e: Event)
    requires Inv(l)
    ensures Inv(Step(l, e))
  {
    if e.t < |l.threads| {
      assert Holds(l.threads[e.t]) <==> e.t == l.owner;
      if e.Go? && l.threads[e.t].Inside? {
        hide Inv, Critical;
        CriticalKeeps(l, e.t);
      } else {
        hide Accept;
      }
    }
  }

  lemma CriticalKeeps(l: State, t: nat)
    requires Inv(l) && t < |l.threads| && l.threads[t].Inside?
    ensures Inv(Critical(l, t, l.threads[t].s))
  {
    assert Holds(l.threads[t]);
  }

  lemma {:induction false} RunKeeps(l: State, es: seq<Event>)
    requires Inv(l)
    ensures Inv(Run(l, es)) && Run(l, es).open == l.open
    decreases |es|
  {
    if es != [] {
      SameSocket(l, es[0]);
      hide Inv, Step;
      StepKeeps(l, es[0]);
      RunKeeps(Step(l, es[0]), es[1..]);
    }
  }

  lemma SameSocket(l: State, e: Event)
    ensures Step(l, e).open == l.open && |Step(l, e).threads| == |l.threads|
  {
  }

  // ----- stuck exactly beyond 32768 bytes, and for good -----

  /**
   In every interleaving, with any number of threads and streams: a thread waits for its own mutex
   if and only if the socket is open and more than 32768 bytes have been accepted on the connection.
   */
  lemma StuckIff(open: bool, k: nat, m: nat, es: seq<Event>)
    ensures var l := Run(Init(open, k, m), es); Stuck(l) <==> open && l.taken > 32768
  {
    hide Fold;
    RunKeeps(Init(open, k, m), es);
    StuckOwner(Run(Init(open, k, m), es));
  }

  /** Nothing that needs the mutex happens any more: no byte is accepted, and no waiting thread gets on. */
  ghost predicate Frozen(l: State, v: State) {
    && v.owner == l.owner && v.local == l.local && v.taken == l.taken && |v.threads| == |l.threads|
    && forall t :: 0 <= t < |l.threads| && (l.threads[t].Relocking? || l.threads[t].Waiting?) ==> v.threads[t] == l.threads[t]
  }

  lemma FrozenStep(l: State, e: Event)
    requires Inv(l) && OwnerRelocks(l)
    ensures Frozen(l, Step(l, e)) && OwnerRelocks(Step(l, e))
  {
    if e.t < |l.threads| { assert Holds(l.threads[e.t]) <==> e.t == l.owner; }
  }

  lemma {:induction false} FrozenRun(l: State, es: seq<Event>)
    requires Inv(l) && OwnerRelocks(l)
    ensures Frozen(l, Run(l, es)) && OwnerRelocks(Run(l, es))
    decreases |es|
  {
    if es != [] {
      hide Inv, Step, OwnerRelocks;
      StepKeeps(l, es[0]);
      FrozenStep(l, es[0]);
      FrozenRun(Step(l, es[0]), es[1..]);
    }
  }

  /** Once stuck, stuck for good, and with it every thread that waits for the mutex or will. */
  lemma StuckForever(l: State, es: seq<Event>)
    requires Inv(l) && Stuck(l)
    ensures Stuck(Run(l, es)) && Frozen(l, Run(l, es))
  {
    hide Fold, Frozen;
    StuckOwner(l);
    FrozenRun(l, es);
  }

  // ----- and otherwise every call returns -----

  ghost predicate AllOutside(l: State) {
    forall t :: 0 <= t < |l.threads| ==> l.threads[t].Outside?
  }

  /** No thread inside a call can move. */
  ghost predicate AtRest(l: State) {
    forall t: nat :: Step(l, Go(t)) == l
  }

  /** An upper bound on the steps a thread has before it. */
  function Rank(p: Spot): int {
    match p
    case Outside => 0
    case Waiting(s) => if s.Charging? then 5 else 2
    case Inside(s) => if s.Charging? then 4 else 1
    case Relocking => 0
    case Settling(_, _) => 3
  }

  function Work(l: State): int {
    Sum(l.threads, Rank)
  }

  /** Unless someone is stuck, some thread inside a call can move: the one that holds the mutex, or any. */
  lemma SomeoneMoves(l: State) returns (t: nat)
    requires Inv(l) && !OwnerRelocks(l) && !AllOutside(l)
    ensures Step(l, Go(t)) != l
  {
    if l.owner >= 0 {
      t := l.owner;
      assert Holds(l.threads[t]);
      assert !Holds(Step(l, Go(t)).threads[t]) || Step(l, Go(t)).threads[t].Relocking?;
    } else {
      t :| 0 <= t < |l.threads| && !l.threads[t].Outside?;
      assert !Holds(l.threads[t]);
      assert Step(l, Go(t)).threads[t] != l.threads[t];
    }
  }

  /** A thread that moves has less before it. */
  lemma MoveLowersWork(l: State, t: nat)
    requires Step(l, Go(t)) != l
    ensures 0 <= Work(Step(l, Go(t))) < Work(l)
  {
    hide Sum, Accept;
    var v := Step(l, Go(t));
    assert v.threads == l.threads[t := v.threads[t]] && Rank(v.threads[t]) < Rank(l.threads[t]);
    hide Step;
    SumUpdate(l.threads, t, v.threads[t], Rank);
    SumCovers(v.threads, 0, Rank);
  }

  /**
   A schedule has come to rest, every call begun having been run as far as it goes: then every call
   has returned if and only if the socket is closed or at most 32768 bytes have been accepted on
   the connection.
   */
  lemma ReturnsIff(open: bool, k: nat, m: nat, es: seq<Event>)
    ensures var l := Run(Init(open, k, m), es); AtRest(l) ==> (AllOutside(l) <==> !open || l.taken <= 32768)
  {
    hide Fold, Step;
    var l := Run(Init(open, k, m), es);
    RunKeeps(Init(open, k, m), es);
    StuckIff(open, k, m, es);
    StuckOwner(l);
    if AtRest(l) && !AllOutside(l) && !OwnerRelocks(l) {
      var t := SomeoneMoves(l);
    }
  }

  /** And every schedule comes to rest: from any state boundedly many moves of the threads lead there. */
  lemma {:induction false} ComesToRest(l: State) returns (es: seq<Event>)
    requires Inv(l)
    ensures |es| <= Work(l) && forall e :: e in es ==> e.Go?
    ensures AtRest(Run(l, es))
    decreases Work(l)
  {
    SumCovers(l.threads, 0, Rank);
    if AtRest(l) {
      es := [];
    } else {
      hide Step, Inv, Sum;
      var t: nat :| Step(l, Go(t)) != l;
      MoveLowersWork(l, t);
      StepKeeps(l, Go(t));
      var rest := ComesToRest(Step(l, Go(t)));
      FoldPrepend(Step, l, Go(t), rest);
      es := [Go(t)] + rest;
    }
  }

  function CrossingRun(): seq<Event> {
    [EnterReceive(0, 0, 32769), Go(0), Go(0)]
  }

  /** The least that is too much: a call for 32769 bytes never returns. */
  lemma CrossingReachable()
    ensures var l := Run(Init(true, 1, 1), CrossingRun()); Stuck(l) && l.taken == 32769
  {
    hide Fold;
    var es := CrossingRun();
    var l0 := Init(true, 1, 1);
    var l1 := Step(l0, es[0]);
    var l2 := Step(l1, es[1]);
    assert l2.threads == [Inside(Charging(0, 32769))];
    var l3 := Step(l2, es[2]);
    assert l3.taken == 32769 && l3.threads[0] == Relocking;
    hide Step, Init;
    FoldTrace(Step, [l0, l1, l2, l3], es);
  }
}
