/**
 Concurrent senders, one per stream, on one connection, whose steps are interleaved freely with
 those of the other senders and with arriving credit.
 */
module SenderRace {
  import opened Machine
  import opened Http2
  import opened FlowControl
  import opened Sending
  import opened Sums
  import opened Runs

  datatype Sender = Sender(window: Int32, phase: Phase)

  datatype Race = Race(conn: Int32, senders: seq<Sender>)

  datatype Action =
    | ReadConn(i: nat, len: nat)
    | ReadStream(i: nat)
    | Emit(i: nat)
    | ChargeConn(i: nat)
    | ChargeStream(i: nat)
    | ConnCredit(increment: nat)
    | StreamCredit(i: nat, increment: nat)

  function Step(r: Race, x: Action): Race {
    if x.ConnCredit? then
      if 0 < x.increment <= INT_MAX - r.conn && x.increment <= INT_MAX
      then r.(conn := AddCredit(r.conn, x.increment)) else r
    else if x.i >= |r.senders| then r
    else
      var (conn, s) := SenderAfter(r.conn, r.senders[x.i], x);
      Race(conn, r.senders[x.i := s])
  }

  /** What a step of one sender makes of the connection window and of the sender. */
  function SenderAfter(conn: Int32, s: Sender, x: Action): (Int32, Sender)
    requires !x.ConnCredit?
  {
    var p := s.phase;
    match x
    case ReadConn(_, len) => (conn, if p.Idle? then s.(phase := Reading(len, conn)) else s)
    case ReadStream(_) => (conn, if p.Reading? then s.(phase := Verdict(p, s.window)) else s)
    case Emit(_) => (conn, if p.Pending? then s.(phase := Settled(p.(sent := true))) else s)
    case ChargeConn(_) =>
      if p.Pending? && !p.connPaid then (Spend(conn, p.len), s.(phase := Settled(p.(connPaid := true)))) else (conn, s)
    case ChargeStream(_) =>
      (conn, if p.Pending? && p.connPaid && !p.streamPaid
             then Sender(Spend(s.window, p.len), Settled(p.(streamPaid := true))) else s)
    case StreamCredit(_, increment) =>
      (conn, if 0 < increment <= INT_MAX - s.window && increment <= INT_MAX
             then s.(window := AddCredit(s.window, increment)) else s)
  }

  function Run(r: Race, xs: seq<Action>): Race {
    Fold(Step, r, xs)
  }

  function Init(k: nat): Race {
    Race(DEFAULT_WINDOW, seq(k, _ => Sender(DEFAULT_WINDOW, Idle)))
  }

  function OwedBy(s: Sender): int {
    Owed(s.phase)
  }

  // ----- the bound holds in every interleaving -----

  ghost predicate Covered(s: Sender, bound: nat) {
    Sound(s.phase, s.window, bound)
  }

  ghost predicate StreamsCovered(r: Race, bound: nat) {
    forall i :: 0 <= i < |r.senders| ==> Covered(r.senders[i], bound)
  }

  /** How far the connection window can be overdrawn, when an `int32_t` can hold it. */
  ghost predicate Representable(k: nat, bound: nat) {
    (k - 1) * bound <= 0x8000_0000
  }

  /** `debt` is the most that the connection window can be overdrawn by. */
  ghost predicate Inv(r: Race, bound: nat, debt: nat) {
    && StreamsCovered(r, bound)
    && (debt <= 0x8000_0000 ==> r.conn + debt >= Sum(r.senders, OwedBy))
  }

  predicate Within(x: Action, bound: nat) {
    x.ReadConn? ==> x.len <= bound
  }

  /** What the invariant says of one sender. */
  lemma SenderNow(r: Race, i: nat, bound: nat, debt: nat)
    requires Inv(r, bound, debt) && i < |r.senders|
    ensures Covered(r.senders[i], bound)
    ensures debt <= 0x8000_0000 ==> r.conn + debt >= OwedBy(r.senders[i])
  {
    SumCovers(r.senders, i, OwedBy);
    hide Sum, Sound;
  }

  /** Sender `i` goes over to `s`, with the connection window at `conn`. */
  lemma SenderStep(r: Race, i: nat, s: Sender, conn: Int32, bound: nat, debt: nat)
    requires Inv(r, bound, debt) && i < |r.senders| && Covered(s, bound)
    requires debt <= 0x8000_0000 ==> conn - r.conn >= OwedBy(s) - OwedBy(r.senders[i])
    ensures Inv(Race(conn, r.senders[i := s]), bound, debt)
  {
    hide Covered, OwedBy, Sum, Times;
    SumUpdate(r.senders, i, s, OwedBy);
  }

  /** A sender that has just read the connection window: whatever the others owe comes to at most `debt`. */
  lemma ReadStep(r: Race, i: nat, s: Sender, bound: nat, debt: nat)
    requires Inv(r, bound, debt) && i < |r.senders| && Covered(s, bound) && OwedBy(r.senders[i]) == 0
    requires OwedBy(s) == 0 || OwedBy(s) <= r.conn
    requires debt == Times(|r.senders| - 1, bound)
    ensures Inv(Race(r.conn, r.senders[i := s]), bound, debt)
  {
    if OwedBy(s) == 0 {
      SenderStep(r, i, s, r.conn, bound, debt);
    } else {
      var ss := r.senders[i := s];
      forall j | 0 <= j < |ss| && j != i ensures OwedBy(ss[j]) <= bound { assert Covered(ss[j], bound); }
      hide Covered, OwedBy, Sum, Times;
      SumOfOthers(ss, i, bound, OwedBy);
    }
  }

  lemma CreditStep(r: Race, conn: Int32, bound: nat, debt: nat)
    requires Inv(r, bound, debt) && conn >= r.conn
    ensures Inv(r.(conn := conn), bound, debt)
  {
    hide Covered, Sum;
  }

  /** A step of one sender: it stays covered, and pays no more than it owes less. */
  lemma SenderAfterSound(conn: Int32, s: Sender, x: Action, bound: nat)
    requires Covered(s, bound) && Within(x, bound) && bound <= INT_MAX && !x.ConnCredit?
    ensures var (conn', s') := SenderAfter(conn, s, x);
      && Covered(s', bound)
      && (x.ReadConn? ==> conn' == conn && (s' == s || (OwedBy(s) == 0 && (OwedBy(s') == 0 || OwedBy(s') <= conn))))
      && (!x.ReadConn? && conn - OwedBy(s) >= -0x8000_0000 ==> conn' - conn >= OwedBy(s') - OwedBy(s))
  {
    if x.ReadStream? && s.phase.Reading? { VerdictSound(s.phase, s.window, bound); }
  }

  lemma StepKeeps(r: Race, x: Action, bound: nat, debt: nat)
    requires Inv(r, bound, debt) && Within(x, bound) && bound <= INT_MAX
    requires r.senders != [] && debt == Times(|r.senders| - 1, bound)
    ensures Inv(Step(r, x), bound, debt) && |Step(r, x).senders| == |r.senders|
  {
    hide Inv, Covered, OwedBy, SenderAfter, Within, Times;
    var v := Step(r, x);
    if x.ConnCredit? {
      CreditStep(r, v.conn, bound, debt);
    } else if x.i < |r.senders| {
      var s := r.senders[x.i];
      SenderNow(r, x.i, bound, debt);
      SenderAfterSound(r.conn, s, x, bound);
      if v.senders[x.i] == s && v.conn == r.conn {
        assert v == r;
      } else if x.ReadConn? {
        ReadStep(r, x.i, v.senders[x.i], bound, debt);
      } else {
        SenderStep(r, x.i, v.senders[x.i], v.conn, bound, debt);
      }
    }
  }

  lemma {:induction false} RunKeeps(r: Race, xs: seq<Action>, bound: nat, debt: nat)
    requires Inv(r, bound, debt) && bound <= INT_MAX && AllWithin(xs, bound)
    requires r.senders != [] && debt == Times(|r.senders| - 1, bound)
    ensures Inv(Run(r, xs), bound, debt) && |Run(r, xs).senders| == |r.senders|
    decreases |xs|
  {
    hide Inv, Step, Times;
    if xs != [] {
      StepKeeps(r, xs[0], bound, debt);
      RunKeeps(Step(r, xs[0]), xs[1..], bound, debt);
    }
  }

  ghost predicate AllWithin(xs: seq<Action>, bound: nat) {
    forall x :: x in xs ==> Within(x, bound)
  }

  lemma InitInv(k: nat, bound: nat, debt: nat)
    ensures Inv(Init(k), bound, debt)
  {
    SumZero(Init(k).senders, OwedBy);
    hide Sum;
  }

  /**
   With k senders of at most L < 2^31 bytes each, no interleaving takes the connection window below
   -(k - 1) * L, and no stream window below 0.
   */
  lemma OverdraftBound(k: nat, bound: nat, xs: seq<Action>)
    requires k > 0 && bound <= INT_MAX && AllWithin(xs, bound)
    ensures var r := Run(Init(k), xs); r.conn >= -((k - 1) * bound) && NoStreamOverdrawn(r)
  {
    hide Inv, Fold, Times;
    var debt := Times(k - 1, bound);
    TimesIsProduct(k - 1, bound);
    InitInv(k, bound, debt);
    RunKeeps(Init(k), xs, bound, debt);
    SafeNow(Run(Init(k), xs), bound, debt);
  }

  lemma SafeNow(r: Race, bound: nat, debt: nat)
    requires Inv(r, bound, debt) && r.senders != []
    ensures r.conn + debt >= 0 && NoStreamOverdrawn(r)
  {
    hide Inv;
    forall i | 0 <= i < |r.senders| ensures r.senders[i].window >= 0 { SenderNow(r, i, bound, debt); }
    SenderNow(r, 0, bound, debt);
  }

  ghost predicate NoStreamOverdrawn(r: Race) {
    forall i :: 0 <= i < |r.senders| ==> r.senders[i].window >= 0
  }

  /** Senders keep every stream window non-negative, whatever the interleaving, exactly if their lengths stay below 2^31. */
  lemma StreamsNeverOverdrawnIff(k: nat, bound: nat)
    requires k > 0
    ensures (forall xs :: AllWithin(xs, bound) ==> NoStreamOverdrawn(Run(Init(k), xs))) <==> bound <= INT_MAX
  {
    if bound <= INT_MAX {
      forall xs | AllWithin(xs, bound) ensures NoStreamOverdrawn(Run(Init(k), xs)) {
        OverdraftBound(k, bound, xs);
      }
    } else {
      var xs := Send(0, 0x8000_0000);
      SendWhole(Init(k), 0, 0x8000_0000);
      assert Run(Init(k), xs).senders[0].window < 0;
      assert AllWithin(xs, bound);
    }
  }

  // ----- and is attained -----

  /** The five steps of one send, undisturbed. */
  function Send(i: nat, len: nat): seq<Action> {
    [ReadConn(i, len), ReadStream(i)] + ([Emit(i)] + [ChargeConn(i), ChargeStream(i)])
  }

  lemma RunTwo(r: Race, x: Action, y: Action)
    ensures Run(r, [x, y]) == Step(Step(r, x), y)
  {
    hide Step, Fold;
    assert [x, y] == [x] + ([y] + []);
    FoldPrepend(Step, r, x, [y] + []);
    FoldPrepend(Step, Step(r, x), y, []);
    FoldEmpty(Step, Step(Step(r, x), y));
  }

  lemma SendWhole(r: Race, i: nat, len: nat)
    requires i < |r.senders| && r.senders[i].phase.Idle? && MaySend(r.conn, r.senders[i].window, len)
    ensures Run(r, Send(i, len)) == Race(Spend(r.conn, len), r.senders[i := Sender(Spend(r.senders[i].window, len), Idle)])
  {
    hide Fold;
    CheckOne(r, i, len);
    var pay := [ChargeConn(i), ChargeStream(i)];
    var r1 := Run(r, [ReadConn(i, len), ReadStream(i)]);
    FoldConcat(Step, r, [ReadConn(i, len), ReadStream(i)], [Emit(i)] + pay);
    FoldPrepend(Step, r1, Emit(i), pay);
    RunTwo(Step(r1, Emit(i)), ChargeConn(i), ChargeStream(i));
    hide MaySend, Spend;
  }

  /** Sender 0 alone brings the connection window down to exactly `bound`, in pieces of at most `bound`. */
  lemma {:induction false} SendDown(r: Race, bound: nat) returns (xs: seq<Action>)
    requires r.senders != [] && r.senders[0] == Sender(r.conn, Idle) && 0 < bound <= r.conn <= DEFAULT_WINDOW
    ensures AllWithin(xs, bound) && Run(r, xs) == Race(bound, r.senders[0 := Sender(bound, Idle)])
    decreases r.conn
  {
    if r.conn == bound {
      xs := [];
      assert r.senders[0 := Sender(bound, Idle)] == r.senders;
    } else {
      hide Fold;
      var len := if r.conn - bound < bound then r.conn - bound else bound;
      var left := r.conn - len;
      SendWhole(r, 0, len);
      var r1 := Race(left, r.senders[0 := Sender(left, Idle)]);
      var rest := SendDown(r1, bound);
      assert r1.senders[0 := Sender(bound, Idle)] == r.senders[0 := Sender(bound, Idle)];
      xs := Send(0, len) + rest;
      FoldConcat(Step, r, Send(0, len), rest);
    }
  }

  /** Sender `i` completes its check. */
  lemma CheckOne(r: Race, i: nat, len: nat)
    requires i < |r.senders| && r.senders[i].phase.Idle? && MaySend(r.conn, r.senders[i].window, len)
    ensures Run(r, [ReadConn(i, len), ReadStream(i)]) == r.(senders := r.senders[i := r.senders[i].(phase := Checked(len))])
  {
    RunTwo(r, ReadConn(i, len), ReadStream(i));
    hide Run;
  }

  /** Every sender from `i` on checks before anyone pays. */
  lemma {:induction false} CheckAll(r: Race, i: nat, bound: nat) returns (xs: seq<Action>)
    requires i <= |r.senders| && r.conn == bound
    requires forall j :: 0 <= j < i ==> r.senders[j].phase == Checked(bound)
    requires forall j :: i <= j < |r.senders| ==> r.senders[j].phase.Idle? && r.senders[j].window >= bound
    ensures AllWithin(xs, bound)
    ensures Run(r, xs).conn == bound && |Run(r, xs).senders| == |r.senders|
    ensures forall j :: 0 <= j < |r.senders| ==> Run(r, xs).senders[j].phase == Checked(bound)
    decreases |r.senders| - i
  {
    if i == |r.senders| {
      xs := [];
    } else {
      hide Fold, Step;
      var check := [ReadConn(i, bound), ReadStream(i)];
      CheckOne(r, i, bound);
      var rest := CheckAll(Run(r, check), i + 1, bound);
      FoldConcat(Step, r, check, rest);
      xs := check + rest;
    }
  }

  lemma ChargeOne(r: Race, i: nat, bound: nat)
    requires i < |r.senders| && r.senders[i].phase == Checked(bound) && r.conn - bound >= -0x8000_0000
    ensures Step(r, ChargeConn(i)) == Race(r.conn - bound, r.senders[i := r.senders[i].(phase := Settled(Checked(bound).(connPaid := true)))])
  {
  }

  /** Then every sender from `i` on pays. */
  lemma {:induction false} ChargeAll(r: Race, i: nat, bound: nat, debt: nat) returns (xs: seq<Action>)
    requires i <= |r.senders| && debt == Times(|r.senders| - i, bound) && r.conn - debt >= -0x8000_0000
    requires forall j :: i <= j < |r.senders| ==> r.senders[j].phase == Checked(bound)
    ensures AllWithin(xs, bound) && Run(r, xs).conn == r.conn - debt
    decreases |r.senders| - i
  {
    if i == |r.senders| {
      xs := [];
    } else {
      hide Fold, Step;
      var left := Times(|r.senders| - i - 1, bound);
      ChargeOne(r, i, bound);
      var rest := ChargeAll(Step(r, ChargeConn(i)), i + 1, bound, left);
      FoldPrepend(Step, r, ChargeConn(i), rest);
      xs := [ChargeConn(i)] + rest;
    }
  }

  /** Arriving credit brings every stream window from `i` on up to `bound`. */
  lemma {:induction false} RaiseAll(r: Race, i: nat, bound: nat) returns (xs: seq<Action>)
    requires i <= |r.senders| && DEFAULT_WINDOW < bound <= INT_MAX
    requires forall j :: 0 <= j < i ==> r.senders[j] == Sender(bound, Idle)
    requires forall j :: i <= j < |r.senders| ==> r.senders[j] == Sender(DEFAULT_WINDOW, Idle)
    ensures AllWithin(xs, bound) && Run(r, xs).conn == r.conn && |Run(r, xs).senders| == |r.senders|
    ensures forall j :: 0 <= j < |r.senders| ==> Run(r, xs).senders[j] == Sender(bound, Idle)
    decreases |r.senders| - i
  {
    if i == |r.senders| {
      xs := [];
    } else {
      var x := StreamCredit(i, bound - DEFAULT_WINDOW);
      assert Step(r, x) == r.(senders := r.senders[i := Sender(bound, Idle)]);
      hide Fold, Step;
      var rest := RaiseAll(Step(r, x), i + 1, bound);
      FoldPrepend(Step, r, x, rest);
      xs := [x] + rest;
    }
  }

  /** The connection window brought to exactly `bound`, every sender idle with at least as much of its own. */
  lemma BringTo(k: nat, bound: nat) returns (xs: seq<Action>)
    requires k > 0 && 0 < bound <= INT_MAX
    ensures AllWithin(xs, bound)
    ensures var r := Run(Init(k), xs);
      r.conn == bound && |r.senders| == k && forall j :: 0 <= j < k ==> r.senders[j].phase.Idle? && r.senders[j].window >= bound
  {
    hide Fold;
    if bound <= DEFAULT_WINDOW {
      xs := SendDown(Init(k), bound);
    } else {
      var x := ConnCredit(bound - DEFAULT_WINDOW);
      var rest := RaiseAll(Step(Init(k), x), 0, bound);
      FoldPrepend(Step, Init(k), x, rest);
      xs := [x] + rest;
    }
  }

  /** Some interleaving takes the connection window to exactly -(k - 1) * L. */
  lemma OverdraftAttained(k: nat, bound: nat) returns (xs: seq<Action>)
    requires k > 0 && 0 < bound <= INT_MAX && Representable(k, bound)
    ensures AllWithin(xs, bound) && Run(Init(k), xs).conn == -((k - 1) * bound)
  {
    hide Fold, Init;
    var down := BringTo(k, bound);
    var r1 := Run(Init(k), down);
    var checks := CheckAll(r1, 0, bound);
    var r2 := Run(r1, checks);
    assert Times(k, bound) == Times(k - 1, bound) + bound;
    TimesIsProduct(k - 1, bound);
    hide Times;
    var charges := ChargeAll(r2, 0, bound, Times(k, bound));
    FoldConcat(Step, Init(k), down, checks);
    FoldConcat(Step, Init(k), down + checks, charges);
    xs := down + checks + charges;
  }

  /** The bound is attained for exactly those k and L for which an `int32_t` can hold it. */
  lemma OverdraftAttainedIff(k: nat, bound: nat)
    requires k > 0 && 0 < bound <= INT_MAX
    ensures (exists xs :: AllWithin(xs, bound) && Run(Init(k), xs).conn == -((k - 1) * bound)) <==> Representable(k, bound)
  {
    hide Run;
    if Representable(k, bound) {
      var xs := OverdraftAttained(k, bound);
    }
  }
}
