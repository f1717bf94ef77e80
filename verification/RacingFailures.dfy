/** Exactly when racing senders can make a receiver return -1: for any number of senders and any lengths. */
module RacingFailures {
  import opened Machine
  import opened Http2
  import opened FlowControl
  import opened Sending
  import opened Runs
  import opened RacingProtocol
  import FlowProtocol

  // ----- frames of at most 32767 bytes, however far the windows are overdrawn or wrap -----

  /** The direction from `a` to `b`: a healthy receiver, and only short frames under way or yet to be sent. */
  ghost predicate CalmWay(j: Joint) {
    && FlowProtocol.LocalsHealthy(j.net) && FlowProtocol.FramesWithin(j.net, THRESHOLD)
    && j.net.a.streams.Keys == j.net.b.streams.Keys
    && forall p :: p in j.pa && !p.Idle? ==> p.len <= THRESHOLD
  }

  ghost predicate Calm(j: Joint) {
    CalmWay(j) && CalmWay(Other(j)) && j.net.failures == 0
  }

  lemma CalmHand(j: Joint)
    requires Calm(j)
    ensures Calm(Act(j, Hand))
  {
    var n, v := j.net, Act(j, Hand);
    if n.ab != [] {
      hide Receive;
      FlowProtocol.DeliverShape(n);
      FlowProtocol.DeliverHealthy(n);
      FlowProtocol.SmallFrameStep(n, FlowProtocol.Take);
      hide FlowProtocol.Deliver;
      forall x | x in v.net.ba ensures FlowProtocol.Within(FlowProtocol.Swap(v.net), x, THRESHOLD) {
        if x in n.ba { assert FlowProtocol.Within(FlowProtocol.Swap(n), x, THRESHOLD); }
      }
    }
  }

  lemma CalmSender(j: Joint, op: Op)
    requires Calm(j) && !op.Hand? && (op.ReadConn? ==> op.len <= THRESHOLD)
    ensures Calm(Act(j, op))
  {
    hide Spend, MaySend;
    var v := Act(j, op);
    if v != j {
      assert forall p :: p in v.pa ==> p in j.pa || p == v.pa[op.i];
      assert j.pa[op.i] in j.pa;
    }
  }

  lemma CalmStep(j: Joint, x: Move)
    requires Calm(j) && Within(x, THRESHOLD)
    ensures Calm(Step(j, x))
  {
    hide CalmWay, Act;
    var u := if x.byA then j else Other(j);
    if x.op.Hand? { CalmHand(u); } else { CalmSender(u, x.op); }
  }

  lemma {:induction false} CalmRun(j: Joint, xs: seq<Move>)
    requires Calm(j) && AllWithin(xs, THRESHOLD)
    ensures Calm(Run(j, xs))
    decreases |xs|
  {
    hide Calm, Step;
    if xs != [] {
      CalmStep(j, xs[0]);
      CalmRun(Step(j, xs[0]), xs[1..]);
    }
  }

  // ----- a single sender -----

  /** Without a race any lengths below 2^31 will do: the send test turns away what is not covered. */
  lemma AloneNeverFails(xs: seq<Move>)
    requires AllWithin(xs, INT_MAX)
    ensures Run(Init(1), xs).net.failures == 0
  {
    hide Inv, Fold;
    InitInv(1, DEFAULT_WINDOW);
    RunKeeps(Init(1), xs, DEFAULT_WINDOW);
    AccountsNow(Run(Init(1), xs), DEFAULT_WINDOW);
  }

  // ----- the failing runs -----

  function ByA(op: Op): Move {
    Move(true, op)
  }

  /** One sender of 2^31 bytes: the cast passes the test, and the frame is refused. */
  function WrappingRun(): seq<Move> {
    [ByA(ReadConn(0, 0x8000_0000)), ByA(ReadStream(0)), ByA(Emit(0)), ByA(Hand)]
  }

  lemma WrappingFails(k: nat)
    requires 0 < k < TWO32 - 1
    ensures Run(Init(k), WrappingRun()).net.failures == 1
  {
    var j := Init(k);
    var xs := WrappingRun();
    var j1 := Step(j, xs[0]);
    var j2 := Step(j1, xs[1]);
    assert j2.pa[0] == Checked(0x8000_0000);
    var j3 := Step(j2, xs[2]);
    assert j3.net.ab == [FlowProtocol.Data(1, 0x8000_0000)];
    var j4 := Step(j3, xs[3]);
    assert j4.net.failures == 1;
    hide Step, Init;
    FoldTrace(Step, [j, j1, j2, j3, j4], xs);
  }

  /** Two senders of 32768 bytes: both read the windows before either pays. */
  function RacingRun(): seq<Move> {
    [ByA(ReadConn(0, 32768)), ByA(ReadStream(0)), ByA(ReadConn(1, 32768)), ByA(ReadStream(1)),
     ByA(Emit(0)), ByA(Emit(1)), ByA(Hand), ByA(Hand)]
  }

  /** The first frame leaves the connection window at 32767, unrestored; the second is refused. */
  lemma SecondRefused(j: Joint)
    requires var n := j.net;
      n.ab == [FlowProtocol.Data(1, 32768), FlowProtocol.Data(2, 32768)] && n.failures == 0
    requires var n := j.net;
      && 1 in n.b.streams && 2 in n.b.streams
      && n.b.conn.local == n.b.streams[1].local == n.b.streams[2].local == DEFAULT_WINDOW
    ensures Step(Step(j, ByA(Hand)), ByA(Hand)).net.failures == 1
  {
    var m := Step(j, ByA(Hand)).net;
    assert m.ab == [FlowProtocol.Data(2, 32768)] && m.b.conn.local == 32767;
  }

  /** A sender completes its check. */
  lemma ChecksOut(j: Joint, i: nat, len: nat)
    requires HasSender(j, i) && j.pa[i].Idle? && MaySend(j.net.a.conn.remote, j.net.a.streams[i + 1].remote, len)
    ensures Step(Step(j, ByA(ReadConn(i, len))), ByA(ReadStream(i))) == j.(pa := j.pa[i := Checked(len)])
  {
    hide MaySend;
  }

  lemma EmitsOut(j: Joint, i: nat, len: nat)
    requires HasSender(j, i) && j.pa[i] == Checked(len)
    ensures var v := Step(j, ByA(Emit(i)));
      v.net == j.net.(ab := j.net.ab + [FlowProtocol.Data(i + 1, len)]) && |v.pa| == |j.pa|
      && forall k :: 0 <= k < |j.pa| && k != i ==> v.pa[k] == j.pa[k]
  {
  }

  lemma RacingFails(k: nat)
    requires 2 <= k < TWO32 - 1
    ensures Run(Init(k), RacingRun()).net.failures == 1
  {
    hide Act, Fold;
    var j := Init(k);
    var xs := RacingRun();
    var j1 := Step(j, xs[0]);
    var j2 := Step(j1, xs[1]);
    ChecksOut(j, 0, 32768);
    var j3 := Step(j2, xs[2]);
    var j4 := Step(j3, xs[3]);
    ChecksOut(j2, 1, 32768);
    var j5 := Step(j4, xs[4]);
    EmitsOut(j4, 0, 32768);
    var j6 := Step(j5, xs[5]);
    EmitsOut(j5, 1, 32768);
    assert j6.net.ab == [FlowProtocol.Data(1, 32768), FlowProtocol.Data(2, 32768)];
    SecondRefused(j6);
    var j7 := Step(j6, xs[6]);
    var j8 := Step(j7, xs[7]);
    hide Step, Init;
    FoldTrace(Step, [j, j1, j2, j3, j4, j5, j6, j7, j8], xs);
  }

  // ----- the exact condition -----

  ghost predicate NeverFails(k: nat, bound: nat)
    requires k < TWO32 - 1
  {
    forall xs :: AllWithin(xs, bound) ==> Run(Init(k), xs).net.failures == 0
  }

  lemma InitCalm(k: nat)
    requires k < TWO32 - 1
    ensures Calm(Init(k))
  {
  }

  /**
   With k senders at each end and lengths of at most L, no interleaving ever makes a receiver return
   -1 if and only if L <= 32767, or there is no race (k = 1) and L is below 2^31.
   */
  lemma RacingNeverFailsIff(k: nat, bound: nat)
    requires 0 < k < TWO32 - 1
    ensures NeverFails(k, bound) <==> bound <= THRESHOLD || (k == 1 && bound <= INT_MAX)
  {
    hide Fold;
    if bound <= THRESHOLD {
      forall xs | AllWithin(xs, bound) ensures Run(Init(k), xs).net.failures == 0 {
        InitCalm(k);
        CalmRun(Init(k), xs);
      }
    } else if k == 1 && bound <= INT_MAX {
      forall xs | AllWithin(xs, bound) ensures Run(Init(k), xs).net.failures == 0 {
        AloneNeverFails(xs);
      }
    } else if k == 1 {
      WrappingFails(k);
      assert AllWithin(WrappingRun(), bound);
    } else {
      RacingFails(k);
      assert AllWithin(RacingRun(), bound);
    }
  }
}
