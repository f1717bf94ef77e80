/**
 Producers, consumers, timeouts, spurious wake-ups and shutdown on one completion queue, as
 atomic steps under its mutex. A consumer between calls is `Outside`; inside
 `grpc_completion_queue_next` it is `Blocked` on the condition variable, or has left the wait
 (`Woken` with result 0, `Expired` with an error) and still has to get the mutex.
 */
module WaitProtocol {
  import opened CompletionQueue
  import opened Runs

  datatype Thread = Outside | Blocked | Woken | Expired

  /** What a call of `next` returned; `Down` also notes how many events had been pushed by then. */
  datatype Return = Got(event: Event) | TimedOut | Down(pushed: nat)

  datatype World = World(queue: seq<Event>, shutdown: bool, threads: seq<Thread>, pushed: seq<Event>, log: seq<Return>)

  /** `Push` carries the scheduler's choice of which waiter the signal releases. */
  datatype Action =
    | Push(event: Event, choice: nat)
    | Call(t: nat)
    | Resume(t: nat)
    | Expire(t: nat)
    | GiveUp(t: nat)
    | Spurious(t: nat)
    | Shutdown
    | LateTimeout(t: nat)

  function FirstBlocked(ts: seq<Thread>): (i: nat)
    ensures i <= |ts| && (i < |ts| ==> ts[i].Blocked?)
    ensures i == |ts| ==> forall j :: 0 <= j < |ts| ==> !ts[j].Blocked?
  {
    if ts == [] || ts[0].Blocked? then 0 else 1 + FirstBlocked(ts[1..])
  }

  /** `pthread_cond_signal`: if anyone is blocked, someone is released. */
  function Signal(ts: seq<Thread>, choice: nat): seq<Thread> {
    if choice < |ts| && ts[choice].Blocked? then ts[choice := Woken]
    else if FirstBlocked(ts) < |ts| then ts[FirstBlocked(ts) := Woken]
    else ts
  }

  /** `pthread_cond_broadcast`. */
  function Broadcast(ts: seq<Thread>): (r: seq<Thread>)
    ensures |r| == |ts| && forall i :: 0 <= i < |ts| ==> r[i] == if ts[i].Blocked? then Woken else ts[i]
  {
    seq(|ts|, i requires 0 <= i < |ts| => if ts[i].Blocked? then Woken else ts[i])
  }

  /** The loop test and what follows it, run by thread `t` with the mutex held. */
  function Turn(w: World, t: nat): World
    requires t < |w.threads|
  {
    match NextOutcome(w.queue, w.shutdown)
    case Deliver(e) => w.(queue := w.queue[1..], threads := w.threads[t := Outside], log := w.log + [Got(e)])
    case ReportShutdown => w.(threads := w.threads[t := Outside], log := w.log + [Down(|w.pushed|)])
    case Wait => w.(threads := w.threads[t := Blocked])
  }

  function Step(w: World, x: Action): World {
    match x
    case Push(e, choice) =>
      w.(queue := w.queue + [e], pushed := w.pushed + [e], threads := Signal(w.threads, choice))
    case Call(t) => if t < |w.threads| && w.threads[t].Outside? then Turn(w, t) else w
    case Resume(t) => if t < |w.threads| && w.threads[t].Woken? then Turn(w, t) else w
    case Expire(t) => if t < |w.threads| && w.threads[t].Blocked? then w.(threads := w.threads[t := Expired]) else w
    case GiveUp(t) =>
      if t < |w.threads| && w.threads[t].Expired?
      then w.(threads := w.threads[t := Outside], log := w.log + [TimedOut]) else w
    case Spurious(t) => if t < |w.threads| && w.threads[t].Blocked? then w.(threads := w.threads[t := Woken]) else w
    case Shutdown => w.(shutdown := true, threads := Broadcast(w.threads))
    case LateTimeout(t) =>
      // POSIX lets a timed wait report a timeout although it consumed a signal
      if t < |w.threads| && w.threads[t].Woken?
      then w.(threads := w.threads[t := Outside], log := w.log + [TimedOut]) else w
  }

  function Run(w: World, xs: seq<Action>): World {
    Fold(Step, w, xs)
  }

  function Init(k: nat): World {
    World([], false, seq(k, _ => Outside), [], [])
  }

  // ----- counting threads -----

  function Count(ts: seq<Thread>, s: Thread): nat {
    if ts == [] then 0 else (if ts[0] == s then 1 else 0) + Count(ts[1..], s)
  }

  lemma {:induction false} CountUpdate(ts: seq<Thread>, i: nat, to: Thread, s: Thread)
    requires i < |ts|
    ensures Count(ts[i := to], s) == Count(ts, s) - (if ts[i] == s then 1 else 0) + (if to == s then 1 else 0)
  {
    if i == 0 {
      assert ts[0 := to][1..] == ts[1..];
    } else {
      CountUpdate(ts[1..], i - 1, to, s);
      assert ts[i := to][1..] == ts[1..][i - 1 := to];
    }
  }

  lemma {:induction false} CountPositive(ts: seq<Thread>, s: Thread)
    ensures Count(ts, s) > 0 <==> exists i :: 0 <= i < |ts| && ts[i] == s
  {
    if ts != [] {
      CountPositive(ts[1..], s);
      if Count(ts[1..], s) > 0 {
        var i :| 0 <= i < |ts[1..]| && ts[1..][i] == s;
        assert ts[i + 1] == s;
      }
      if j :| 0 <= j < |ts| && ts[j] == s {
        assert j == 0 || ts[1..][j - 1] == s;
      }
    }
  }

  // ----- no lost wake-up -----

  /**
   Whoever still waits, waits for something that has not happened, or that a woken thread will
   take, save for `late` events whose wake-up went to a wait that then reported a timeout.
   */
  ghost predicate WakeupsLostAtMost(w: World, late: nat) {
    Count(w.threads, Blocked) > 0 ==> !w.shutdown && |w.queue| <= Count(w.threads, Woken) + late
  }

  function Late(xs: seq<Action>): nat {
    if xs == [] then 0 else (if xs[0].LateTimeout? then 1 else 0) + Late(xs[1..])
  }

  predicate Moved(ts: seq<Thread>, t: nat, to: Thread, s: Thread)
    requires t < |ts|
  {
    Count(ts[t := to], s) == Count(ts, s) - (if ts[t] == s then 1 else 0) + (if to == s then 1 else 0)
  }

  lemma MoveThread(ts: seq<Thread>, t: nat, to: Thread)
    requires t < |ts|
    ensures Moved(ts, t, to, Blocked) && Moved(ts, t, to, Woken)
  {
    CountUpdate(ts, t, to, Blocked);
    CountUpdate(ts, t, to, Woken);
  }

  lemma PushKeeps(w: World, e: Event, choice: nat, late: nat)
    requires WakeupsLostAtMost(w, late)
    ensures WakeupsLostAtMost(Step(w, Push(e, choice)), late)
  {
    var t := if choice < |w.threads| && w.threads[choice].Blocked? then choice else FirstBlocked(w.threads);
    if t < |w.threads| {
      MoveThread(w.threads, t, Woken);
    } else {
      CountPositive(w.threads, Blocked);
    }
  }

  lemma StepKeeps(w: World, x: Action, late: nat)
    requires WakeupsLostAtMost(w, late)
    ensures WakeupsLostAtMost(Step(w, x), if x.LateTimeout? then late + 1 else late)
  {
    if x.Push? {
      PushKeeps(w, x.event, x.choice, late);
    } else if x.Shutdown? {
      CountPositive(Broadcast(w.threads), Blocked);
    } else if x.t < |w.threads| {
      hide Count;
      MoveThread(w.threads, x.t, Outside);
      MoveThread(w.threads, x.t, Blocked);
      MoveThread(w.threads, x.t, Woken);
      MoveThread(w.threads, x.t, Expired);
    }
  }

  lemma {:induction false} RunKeeps(w: World, xs: seq<Action>, late: nat)
    requires WakeupsLostAtMost(w, late)
    ensures WakeupsLostAtMost(Run(w, xs), late + Late(xs))
    decreases |xs|
  {
    hide WakeupsLostAtMost, Step;
    if xs != [] {
      StepKeeps(w, xs[0], late);
      RunKeeps(Step(w, xs[0]), xs[1..], if xs[0].LateTimeout? then late + 1 else late);
    }
  }

  /**
   In every interleaving, if some thread is blocked then the queue is not shut down, and the
   queued events number at most the woken threads plus the late timeouts so far. Without late
   timeouts a queued event therefore always has a woken taker while anyone is blocked.
   */
  lemma NoLostWakeup(k: nat, xs: seq<Action>)
    ensures var w := Run(Init(k), xs);
      && WakeupsLostAtMost(w, Late(xs))
      && (w.queue != [] && Blocked in w.threads && Late(xs) == 0 ==> Woken in w.threads)
      && (w.shutdown ==> Blocked !in w.threads)
  {
    var w := Run(Init(k), xs);
    CountPositive(Init(k).threads, Blocked);
    RunKeeps(Init(k), xs, 0);
    CountPositive(w.threads, Blocked);
    CountPositive(w.threads, Woken);
  }

  /** The allowance is needed: a wait that times out after being signalled can leave an event beside a blocked thread. */
  lemma LateTimeoutLosesWakeup(e: Event)
    ensures var w := Run(Init(2), [Call(0), Call(1), Push(e, 0), LateTimeout(0)]);
      w.queue == [e] && w.threads == [Outside, Blocked] && !WakeupsLostAtMost(w, 0)
  {
    var w0 := Init(2);
    assert w0.threads == [Outside, Outside];
    var w1 := Step(w0, Call(0));
    assert w1.threads == [Blocked, Outside];
    var w2 := Step(w1, Call(1));
    assert w2.threads == [Blocked, Blocked];
    var w3 := Step(w2, Push(e, 0));
    assert w3.threads == [Woken, Blocked] && w3.queue == [e];
    var w4 := Step(w3, LateTimeout(0));
    assert w4.threads == [Outside, Blocked];
    RunFour(w0, Call(0), Call(1), Push(e, 0), LateTimeout(0));
    CountPositive(w4.threads, Woken);
    assert w4.threads[1] == Blocked;
    CountPositive(w4.threads, Blocked);
  }

  lemma RunFour(w: World, a: Action, b: Action, c: Action, d: Action)
    ensures Run(w, [a, b, c, d]) == Step(Step(Step(Step(w, a), b), c), d)
  {
    hide Step;
    var w1 := Step(w, a);
    var w2 := Step(w1, b);
    var w3 := Step(w2, c);
    FoldTrace(Step, [w, w1, w2, w3, Step(w3, d)], [a, b, c, d]);
  }

  // ----- how many wake-ups can be lost -----

  lemma {:induction false} CountAtMost(ts: seq<Thread>, s: Thread)
    ensures Count(ts, s) <= |ts|
  {
    if ts != [] { CountAtMost(ts[1..], s); }
  }

  /**
   A thread blocks only on an empty queue, and every push releases one while any is blocked; so
   queued events and blocked threads together are at most all threads, late timeouts or not.
   */
  ghost predicate RoomLeft(w: World) {
    Count(w.threads, Blocked) > 0 ==> |w.queue| + Count(w.threads, Blocked) <= |w.threads|
  }

  lemma RoomStep(w: World, x: Action)
    requires RoomLeft(w)
    ensures RoomLeft(Step(w, x)) && |Step(w, x).threads| == |w.threads|
  {
    CountAtMost(Step(w, x).threads, Blocked);
    if x.Push? {
      var t := if x.choice < |w.threads| && w.threads[x.choice].Blocked? then x.choice else FirstBlocked(w.threads);
      if t < |w.threads| { MoveThread(w.threads, t, Woken); } else { CountPositive(w.threads, Blocked); }
    } else if x.Shutdown? {
      CountPositive(Broadcast(w.threads), Blocked);
    } else if x.t < |w.threads| {
      hide Count;
      MoveThread(w.threads, x.t, Outside);
      MoveThread(w.threads, x.t, Blocked);
      MoveThread(w.threads, x.t, Woken);
      MoveThread(w.threads, x.t, Expired);
    }
  }

  lemma {:induction false} RoomRun(w: World, xs: seq<Action>)
    requires RoomLeft(w)
    ensures RoomLeft(Run(w, xs)) && |Run(w, xs).threads| == |w.threads|
    decreases |xs|
  {
    hide RoomLeft, Step;
    if xs != [] {
      RoomStep(w, xs[0]);
      RoomRun(Step(w, xs[0]), xs[1..]);
    }
  }

  /** A blocked thread beside `m` queued events that no woken thread will take. */
  ghost predicate Loses(w: World, m: nat) {
    Count(w.threads, Blocked) > 0 && |w.queue| == Count(w.threads, Woken) + m
  }

  /** In every run, late timeouts included, fewer events than threads are left beside a blocked one. */
  lemma LossBelowThreads(k: nat, xs: seq<Action>)
    ensures var w := Run(Init(k), xs);
      && WakeupsLostAtMost(w, Late(xs))
      && (Count(w.threads, Blocked) > 0 ==> |w.queue| < k)
  {
    NoLostWakeup(k, xs);
    CountPositive(Init(k).threads, Blocked);
    RoomRun(Init(k), xs);
  }

  lemma {:induction false} LateConcat(xs: seq<Action>, ys: seq<Action>)
    ensures Late(xs + ys) == Late(xs) + Late(ys)
  {
    if xs == [] {
      assert xs + ys == ys;
    } else {
      LateConcat(xs[1..], ys);
      assert (xs + ys)[1..] == xs[1..] + ys;
    }
  }

  lemma RunConcat(w: World, xs: seq<Action>, ys: seq<Action>)
    ensures Run(w, xs + ys) == Run(Run(w, xs), ys) && Late(xs + ys) == Late(xs) + Late(ys)
  {
    hide Step, Late;
    FoldConcat(Step, w, xs, ys);
    LateConcat(xs, ys);
  }

  lemma RunOne(w: World, x: Action)
    ensures Run(w, [x]) == Step(w, x) && Late([x]) == if x.LateTimeout? then 1 else 0
  {
    hide Step;
    assert [x][1..] == [];
    FoldTrace(Step, [w, Step(w, x)], [x]);
  }

  /** Threads `i` to `m` call next on the empty queue and block, like those before them. */
  lemma {:induction false} BlockUpTo(w: World, i: nat, m: nat) returns (xs: seq<Action>)
    requires i <= m < |w.threads| && w.queue == [] && !w.shutdown
    requires forall t :: 0 <= t < |w.threads| ==> w.threads[t] == if t < i then Blocked else Outside
    ensures Late(xs) == 0
    ensures var v := Run(w, xs);
      && v.queue == [] && |v.threads| == |w.threads|
      && forall t :: 0 <= t < |v.threads| ==> v.threads[t] == if t <= m then Blocked else Outside
    decreases m - i
  {
    RunOne(w, Call(i));
    var w1 := Step(w, Call(i));
    if i == m {
      xs := [Call(i)];
    } else {
      var rest := BlockUpTo(w1, i + 1, m);
      RunConcat(w, [Call(i)], rest);
      xs := [Call(i)] + rest;
    }
  }

  /** Each of threads `i` to `m - 1` is signalled for one event and then reports a timeout. */
  lemma {:induction false} LoseUpTo(w: World, i: nat, m: nat, e: Event) returns (xs: seq<Action>)
    requires i <= m < |w.threads| && |w.queue| == i
    requires forall t :: 0 <= t < |w.threads| ==> w.threads[t] == if i <= t <= m then Blocked else Outside
    ensures Late(xs) == m - i
    ensures var v := Run(w, xs);
      && |v.queue| == m && |v.threads| == |w.threads|
      && forall t :: 0 <= t < |v.threads| ==> v.threads[t] == if t == m then Blocked else Outside
    decreases m - i
  {
    if i == m {
      xs := [];
    } else {
      var w1 := Step(w, Push(e, i));
      var w2 := Step(w1, LateTimeout(i));
      RunOne(w, Push(e, i));
      RunOne(w1, LateTimeout(i));
      RunConcat(w, [Push(e, i)], [LateTimeout(i)]);
      var rest := LoseUpTo(w2, i + 1, m, e);
      RunConcat(w, [Push(e, i)] + [LateTimeout(i)], rest);
      xs := [Push(e, i)] + [LateTimeout(i)] + rest;
    }
  }

  /** With more than `m` threads, `m` late timeouts can lose `m` wake-ups: the bound of `NoLostWakeup` is attained. */
  lemma LossAttained(k: nat, m: nat, e: Event) returns (xs: seq<Action>)
    requires m < k
    ensures Late(xs) == m && Loses(Run(Init(k), xs), m)
  {
    var calls := BlockUpTo(Init(k), 0, m);
    var w1 := Run(Init(k), calls);
    var losses := LoseUpTo(w1, 0, m, e);
    RunConcat(Init(k), calls, losses);
    xs := calls + losses;
    var v := Run(w1, losses);
    assert v.threads[m] == Blocked;
    CountPositive(v.threads, Blocked);
    CountPositive(v.threads, Woken);
  }

  /** k threads can lose `m` wake-ups to `m` late timeouts exactly if m < k. */
  lemma LossAttainedIff(k: nat, m: nat)
    ensures (exists xs :: Late(xs) == m && Loses(Run(Init(k), xs), m)) <==> m < k
  {
    if m < k {
      var xs := LossAttained(k, m, Event(0, true, 0));
    } else {
      forall xs ensures !Loses(Run(Init(k), xs), m) {
        LossBelowThreads(k, xs);
      }
    }
  }

  /**
   Exactly when no wake-up can ever be lost, late timeouts included: with at most one consumer
   thread. With two or more, `LossAttained` loses one.
   */
  lemma NoLostWakeupIff(k: nat)
    ensures (forall xs :: WakeupsLostAtMost(Run(Init(k), xs), 0)) <==> k <= 1
  {
    if k <= 1 {
      forall xs ensures WakeupsLostAtMost(Run(Init(k), xs), 0) {
        LossBelowThreads(k, xs);
      }
    } else {
      var xs := LossAttained(k, 1, Event(0, true, 0));
      assert !WakeupsLostAtMost(Run(Init(k), xs), 0);
    }
  }

  // ----- every call returns once -----

  function CallsMade(w: World, xs: seq<Action>): nat
    decreases |xs|
  {
    if xs == [] then 0
    else
      var x := xs[0];
      (if x.Call? && x.t < |w.threads| && w.threads[x.t].Outside? then 1 else 0) + CallsMade(Step(w, x), xs[1..])
  }

  /** Calls that left the wait with an error and got the mutex. */
  function TimeoutsMet(w: World, xs: seq<Action>): nat
    decreases |xs|
  {
    if xs == [] then 0
    else
      var x := xs[0];
      (if GivesUp(w, x) then 1 else 0) + TimeoutsMet(Step(w, x), xs[1..])
  }

  predicate GivesUp(w: World, x: Action) {
    || (x.GiveUp? && x.t < |w.threads| && w.threads[x.t].Expired?)
    || (x.LateTimeout? && x.t < |w.threads| && w.threads[x.t].Woken?)
  }

  function TimedOuts(log: seq<Return>): nat {
    if log == [] then 0 else TimedOuts(log[..|log| - 1]) + if log[|log| - 1].TimedOut? then 1 else 0
  }

  /** Returns logged and threads inside `next` together. */
  function CallsKnown(w: World): int {
    |w.log| + |w.threads| - Count(w.threads, Outside)
  }

  lemma {:induction false} SameOutsideCount(ts: seq<Thread>, us: seq<Thread>)
    requires |ts| == |us| && forall i :: 0 <= i < |ts| ==> (ts[i].Outside? <==> us[i].Outside?)
    ensures Count(ts, Outside) == Count(us, Outside)
  {
    if ts != [] { SameOutsideCount(ts[1..], us[1..]); }
  }

  lemma StepCounts(w: World, x: Action)
    ensures var v := Step(w, x);
      && CallsKnown(v) == CallsKnown(w) + (if x.Call? && x.t < |w.threads| && w.threads[x.t].Outside? then 1 else 0)
      && TimedOuts(v.log) == TimedOuts(w.log) + (if GivesUp(w, x) then 1 else 0)
  {
    hide TimedOuts, Count;
    var v := Step(w, x);
    if x.Push? || x.Shutdown? {
      SameOutsideCount(w.threads, v.threads);
    } else if v != w {
      LoggedAtMost(w, x);
      if v.log != w.log { TimedOutsSnoc(w.log, v.log[|w.log|]); }
      assert v.threads == w.threads[x.t := v.threads[x.t]];
      CountUpdate(w.threads, x.t, v.threads[x.t], Outside);
    }
  }

  lemma TimedOutsSnoc(log: seq<Return>, r: Return)
    ensures TimedOuts(log + [r]) == TimedOuts(log) + if r.TimedOut? then 1 else 0
  {
    assert (log + [r])[..|log|] == log;
  }

  lemma LoggedAtMost(w: World, x: Action)
    ensures var v := Step(w, x); v.log == w.log || (|v.log| == |w.log| + 1 && v.log == w.log + [v.log[|w.log|]])
  {
    hide Signal, Broadcast;
  }

  /**
   In every interleaving each call of `next` begun is still inside or has returned once, and exactly
   those return a timeout whose wait ended in an error; by `QueueIsFifo` these take no event.
   */
  lemma {:induction false} OneReturnPerCall(w: World, xs: seq<Action>)
    ensures CallsKnown(Run(w, xs)) == CallsKnown(w) + CallsMade(w, xs)
    ensures TimedOuts(Run(w, xs).log) == TimedOuts(w.log) + TimeoutsMet(w, xs)
    decreases |xs|
  {
    hide Step, CallsKnown, TimedOuts;
    if xs != [] {
      StepCounts(w, xs[0]);
      OneReturnPerCall(Step(w, xs[0]), xs[1..]);
    }
  }

  lemma RunTwo(w: World, x: Action, y: Action)
    ensures Run(w, [x, y]) == Step(Step(w, x), y)
  {
    hide Step;
    FoldTrace(Step, [w, Step(w, x), Step(Step(w, x), y)], [x, y]);
  }

  /** A wait that times out ends the call with a timeout and leaves queue, flag and other threads alone. */
  lemma TimeoutTakesNothing(w: World, t: nat)
    requires t < |w.threads| && w.threads[t].Blocked?
    ensures Run(w, [Expire(t), GiveUp(t)]) == w.(threads := w.threads[t := Outside], log := w.log + [TimedOut])
  {
    RunTwo(w, Expire(t), GiveUp(t));
    hide Run;
    assert w.threads[t := Expired][t := Outside] == w.threads[t := Outside];
  }

  /** A thread woken for nothing tests the queue again, and with nothing there goes back to the wait. */
  lemma SpuriousIsInvisible(w: World, t: nat)
    requires t < |w.threads| && w.threads[t].Blocked? && w.queue == [] && !w.shutdown
    ensures Step(w, Spurious(t)).threads[t].Woken? && Run(w, [Spurious(t), Resume(t)]) == w
  {
    RunTwo(w, Spurious(t), Resume(t));
    hide Run;
    assert w.threads[t := Woken][t := Blocked] == w.threads;
  }

  // ----- shutdown -----

  /** The step with which a thread in this state leaves `next` after shutdown. */
  function WayOut(s: Thread, t: nat): Action {
    if s.Woken? then Resume(t) else GiveUp(t)
  }

  /** After shutdown nothing blocks again, no thread outside comes to be inside, and a thread's way out takes it out. */
  lemma ShutdownStep(w: World, x: Action)
    requires w.shutdown && Blocked !in w.threads
    ensures var v := Step(w, x);
      && v.shutdown && Blocked !in v.threads && |v.threads| == |w.threads|
      && forall t :: 0 <= t < |w.threads| ==>
           v.threads[t] == w.threads[t] || (v.threads[t].Outside? && !w.threads[t].Outside?)
    ensures forall t :: 0 <= t < |w.threads| && !w.threads[t].Outside? && x == WayOut(w.threads[t], t)
              ==> Step(w, x).threads[t].Outside?
  {
    assert forall t :: 0 <= t < |w.threads| ==> w.threads[t] in w.threads;
  }

  /**
   Once shut down, in every schedule, whatever else runs in between: if each thread inside `next`
   gets to take its way out once, then at the end all threads are outside.
   */
  lemma {:induction false} ShutdownReleases(w: World, xs: seq<Action>)
    requires w.shutdown && Blocked !in w.threads
    requires forall t :: 0 <= t < |w.threads| && !w.threads[t].Outside? ==> WayOut(w.threads[t], t) in xs
    ensures forall t :: t in Run(w, xs).threads ==> t.Outside?
    decreases |xs|
  {
    if xs != [] {
      ShutdownStep(w, xs[0]);
      hide Step;
      var v := Step(w, xs[0]);
      forall t | 0 <= t < |v.threads| && !v.threads[t].Outside? ensures WayOut(v.threads[t], t) in xs[1..] {
        assert v.threads[t] == w.threads[t] && WayOut(w.threads[t], t) in xs;
      }
      ShutdownReleases(v, xs[1..]);
    }
  }

  // ----- FIFO -----

  function Delivered(log: seq<Return>): seq<Event> {
    if log == [] then []
    else Delivered(log[..|log| - 1]) + (if log[|log| - 1].Got? then [log[|log| - 1].event] else [])
  }

  lemma DeliveredSnoc(log: seq<Return>, r: Return)
    ensures Delivered(log + [r]) == Delivered(log) + if r.Got? then [r.event] else []
  {
    assert (log + [r])[..|log|] == log;
  }

  /** Delivered then queued is what was pushed, and each shutdown report came with nothing undelivered. */
  ghost predicate Fifo(w: World) {
    && w.pushed == Delivered(w.log) + w.queue
    && forall i :: 0 <= i < |w.log| && w.log[i].Down? ==> |Delivered(w.log[..i])| == w.log[i].pushed
  }

  lemma LogKeeps(w: World, v: World, r: Return)
    requires Fifo(w) && v.log == w.log + [r] && v.pushed == w.pushed
    requires v.queue == if r.Got? then (if w.queue == [] then [] else w.queue[1..]) else w.queue
    requires r.Got? ==> w.queue != [] && r.event == w.queue[0]
    requires r.Down? ==> w.queue == [] && r.pushed == |w.pushed|
    ensures Fifo(v)
  {
    DeliveredSnoc(w.log, r);
    hide Delivered;
    forall i | 0 <= i < |v.log| && v.log[i].Down? ensures |Delivered(v.log[..i])| == v.log[i].pushed {
      assert v.log[..i] == w.log[..i];
      if i == |w.log| { assert w.log[..i] == w.log; }
    }
  }

  lemma FifoStep(w: World, x: Action)
    requires Fifo(w)
    ensures Fifo(Step(w, x))
  {
    hide Delivered;
    var v := Step(w, x);
    if x.Push? {
      assert Delivered(w.log) + (w.queue + [x.event]) == w.pushed + [x.event];
    } else if v.log != w.log {
      LogKeeps(w, v, v.log[|w.log|]);
    }
  }

  /**
   Linearisation to a FIFO, for all interleavings, late timeouts included: the events returned, in
   order, followed by the events queued, are the events pushed, in order; and whenever shutdown
   was reported, every event pushed before had been returned before.
   */
  lemma {:induction false} QueueIsFifo(w: World, xs: seq<Action>)
    requires Fifo(w)
    ensures Fifo(Run(w, xs))
    decreases |xs|
  {
    hide Fifo, Step;
    if xs != [] {
      FifoStep(w, xs[0]);
      QueueIsFifo(Step(w, xs[0]), xs[1..]);
    }
  }

  lemma FifoFromStart(k: nat, xs: seq<Action>)
    ensures Fifo(Run(Init(k), xs))
  {
    QueueIsFifo(Init(k), xs);
  }

  // ----- pushing after shutdown -----

  /**
   The documentation says that no event can be added after shutdown. An event pushed after a
   shutdown that has already been reported is still returned.
   */
  lemma PushAfterShutdown(e: Event)
    ensures Run(Init(1), [Shutdown, Call(0), Push(e, 0), Call(0)]).log == [Down(0), Got(e)]
  {
    var w1 := Step(Init(1), Shutdown);
    assert w1.threads == [Outside] && w1.shutdown;
    var w2 := Step(w1, Call(0));
    assert w2.threads == [Outside] && w2.log == [Down(0)];
    var w3 := Step(w2, Push(e, 0));
    assert w3.threads == [Outside] && w3.queue == [e];
    var w4 := Step(w3, Call(0));
    assert w4.log == [Down(0)] + [Got(e)];
    RunFour(Init(1), Shutdown, Call(0), Push(e, 0), Call(0));
  }

  function Pushes(xs: seq<Action>): nat {
    if xs == [] then 0 else (if xs[0].Push? then 1 else 0) + Pushes(xs[1..])
  }

  lemma {:induction false} PushesNone(xs: seq<Action>)
    ensures Pushes(xs) == 0 <==> forall x :: x in xs ==> !x.Push?
  {
    if xs != [] {
      PushesNone(xs[1..]);
      assert forall x :: x in xs <==> x == xs[0] || x in xs[1..];
    }
  }

  lemma {:induction false} PushesCounted(w: World, xs: seq<Action>)
    ensures |Run(w, xs).pushed| == |w.pushed| + Pushes(xs)
    ensures |Delivered(Run(w, xs).log)| >= |Delivered(w.log)|
    decreases |xs|
  {
    hide Step, Delivered;
    if xs != [] {
      PushCounted(w, xs[0]);
      PushesCounted(Step(w, xs[0]), xs[1..]);
    }
  }

  lemma PushCounted(w: World, x: Action)
    ensures |Step(w, x).pushed| == |w.pushed| + if x.Push? then 1 else 0
    ensures |Delivered(Step(w, x).log)| >= |Delivered(w.log)|
  {
    hide Delivered;
    var v := Step(w, x);
    if v.log != w.log { DeliveredSnoc(w.log, v.log[|w.log|]); }
  }

  /**
   When the promise does hold: a run, shut down or not, adds no event exactly if it contains no
   push; and from an empty queue such a run returns no event.
   */
  lemma NoEventAddedIff(w: World, xs: seq<Action>)
    ensures |Run(w, xs).pushed| == |w.pushed| <==> forall x :: x in xs ==> !x.Push?
    ensures Fifo(w) && w.queue == [] && (forall x :: x in xs ==> !x.Push?) ==> Delivered(Run(w, xs).log) == Delivered(w.log)
  {
    PushesCounted(w, xs);
    PushesNone(xs);
    if Fifo(w) && w.queue == [] && forall x :: x in xs ==> !x.Push? {
      QueueIsFifo(w, xs);
      PushedPrefix(w, xs);
      hide Run, Delivered;
      var v := Run(w, xs);
      assert v.pushed == w.pushed == Delivered(w.log);
    }
  }

  lemma {:induction false} PushedPrefix(w: World, xs: seq<Action>)
    ensures w.pushed <= Run(w, xs).pushed
    decreases |xs|
  {
    if xs != [] {
      assert w.pushed <= Step(w, xs[0]).pushed;
      hide Step;
      PushedPrefix(Step(w, xs[0]), xs[1..]);
    }
  }
}
