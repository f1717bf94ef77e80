/** Safety of the connection pool over all runs of get, return, keep-alive tick and clean-up. */
module PoolRuns {
  import opened Machine
  import opened ConnectionPool

  /** A connection handed to a caller who has not returned it yet. */
  datatype Lease = Lease(target: string, handle: nat)

  datatype World = World(pool: Pool, held: multiset<Lease>)

  datatype Action =
    | Get(target: string, now: int, created: Option<nat>)
    | Return(lease: Lease, now: int)
    | Tick(now: int)
    | Cleanup

  ghost predicate InPool(cs: seq<Pooled>, handle: nat) {
    exists i :: 0 <= i < |cs| && cs[i].handle == handle
  }

  /**
   The steps the theorem covers: a new connection has an address not in the pool, callers return
   only what they hold, and no get takes the eviction branch (see `EvictionBreaksCount`).
   */
  ghost predicate Allowed(w: World, x: Action) {
    match x
    case Get(target, now, created) =>
      !Evicts(w.pool, target) && (created.Some? ==> !InPool(w.pool.conns, created.value))
    case Return(lease, now) => lease in w.held
    case Tick(now) => true
    case Cleanup => true
  }

  function Step(w: World, x: Action): World {
    match x
    case Get(target, now, created) =>
      var h := GetHandle(w.pool, target, created);
      World(GetPool(w.pool, target, now, created),
            if h.Some? then w.held + multiset{Lease(target, h.value)} else w.held)
    case Return(lease, now) =>
      World(ReturnPool(w.pool, lease.target, lease.handle, now), w.held - multiset{lease})
    case Tick(now) => w.(pool := TickPool(w.pool, now))
    case Cleanup => w.(pool := CleanPool(w.pool))
  }

  ghost predicate Reachable(w: World, xs: seq<Action>, v: World)
    decreases |xs|
  {
    if xs == [] then v == w else Allowed(w, xs[0]) && Reachable(Step(w, xs[0]), xs[1..], v)
  }

  // ----- the invariant -----

  function LeaseOf(c: Pooled): Lease {
    Lease(c.target, c.handle)
  }

  ghost predicate UniqueHandles(cs: seq<Pooled>) {
    forall i, j :: 0 <= i < j < |cs| ==> cs[i].handle != cs[j].handle
  }

  ghost predicate OneHealthyPerTarget(cs: seq<Pooled>) {
    forall i, j :: 0 <= i < j < |cs| && cs[i].healthy && cs[j].healthy ==> cs[i].target != cs[j].target
  }

  /** An unhealthy connection is unused, none is freed, and the call count is the number of leases out. */
  ghost predicate Sound(c: Pooled, held: multiset<Lease>) {
    (!c.healthy ==> c.active == 0) && !c.freed && c.active == held[LeaseOf(c)]
  }

  ghost predicate AllSound(cs: seq<Pooled>, held: multiset<Lease>) {
    forall i :: 0 <= i < |cs| ==> Sound(cs[i], held)
  }

  /** Every lease is on a connection in the list. */
  ghost predicate AllPresent(cs: seq<Pooled>, held: multiset<Lease>) {
    forall l :: l in held ==> exists i :: 0 <= i < |cs| && LeaseOf(cs[i]) == l
  }

  ghost predicate Inv(w: World) {
    var cs := w.pool.conns;
    && |cs| == w.pool.current <= w.pool.max
    && UniqueHandles(cs) && OneHealthyPerTarget(cs) && AllSound(cs, w.held) && AllPresent(cs, w.held)
  }

  // ----- every step keeps it -----

  lemma GetKeeps(w: World, target: string, now: int, created: Option<nat>)
    requires Inv(w) && Allowed(w, Get(target, now, created))
    ensures Inv(Step(w, Get(target, now, created)))
  {
    var cs := w.pool.conns;
    var i := FindHealthy(cs, target);
    if i < |cs| {
      ReuseKeeps(w, i, target, now);
    } else if w.pool.current < w.pool.max && created.Some? {
      AddKeeps(w, target, now, created.value);
    }
  }

  /** The same connections in the same order, none of them healthier. */
  ghost predicate SameConnections(cs: seq<Pooled>, ds: seq<Pooled>) {
    |ds| == |cs| && forall i :: 0 <= i < |cs| ==> LeaseOf(ds[i]) == LeaseOf(cs[i]) && (ds[i].healthy ==> cs[i].healthy)
  }

  lemma SameConnectionsKeep(cs: seq<Pooled>, ds: seq<Pooled>, held: multiset<Lease>)
    requires SameConnections(cs, ds) && UniqueHandles(cs) && OneHealthyPerTarget(cs) && AllPresent(cs, held)
    ensures UniqueHandles(ds) && OneHealthyPerTarget(ds) && AllPresent(ds, held)
  {
    assert UniqueHandles(ds) by {
      forall i, j | 0 <= i < j < |ds| ensures ds[i].handle != ds[j].handle {
        assert LeaseOf(ds[i]) == LeaseOf(cs[i]) && LeaseOf(ds[j]) == LeaseOf(cs[j]);
      }
    }
    assert OneHealthyPerTarget(ds) by {
      forall i, j | 0 <= i < j < |ds| && ds[i].healthy && ds[j].healthy ensures ds[i].target != ds[j].target {
        assert LeaseOf(ds[i]) == LeaseOf(cs[i]) && LeaseOf(ds[j]) == LeaseOf(cs[j]);
      }
    }
    forall l | l in held ensures exists j :: 0 <= j < |ds| && LeaseOf(ds[j]) == l {
      var j :| 0 <= j < |cs| && LeaseOf(cs[j]) == l;
      assert LeaseOf(ds[j]) == l;
    }
  }

  /** Changing one connection's count together with the leases on it leaves the others right. */
  lemma OneCountChanges(cs: seq<Pooled>, i: nat, c: Pooled, held: multiset<Lease>, held': multiset<Lease>)
    requires i < |cs| && UniqueHandles(cs) && AllSound(cs, held) && LeaseOf(c) == LeaseOf(cs[i])
    requires Sound(c, held') && forall l :: l != LeaseOf(c) ==> held'[l] == held[l]
    ensures AllSound(cs[i := c], held')
  {
    var ds := cs[i := c];
    forall j | 0 <= j < |ds| ensures Sound(ds[j], held') {
      assert Sound(cs[j], held);
      if j != i { assert LeaseOf(cs[j]) != LeaseOf(c); }
    }
  }

  lemma ReuseKeeps(w: World, i: nat, target: string, now: int)
    requires Inv(w) && i < |w.pool.conns| && Serves(w.pool.conns[i], target)
    ensures Inv(World(w.pool.(conns := w.pool.conns[i := Lend(w.pool.conns[i], now)]),
                      w.held + multiset{Lease(target, w.pool.conns[i].handle)}))
  {
    var cs, c := w.pool.conns, Lend(w.pool.conns[i], now);
    var held := w.held + multiset{LeaseOf(cs[i])};
    assert Sound(cs[i], w.held);
    assert LeaseOf(c) == LeaseOf(cs[i]);
    OneCountChanges(cs, i, c, w.held, held);
    assert AllPresent(cs, held);
    SameConnectionsKeep(cs, cs[i := c], held);
  }

  lemma ReturnKeeps(w: World, lease: Lease, now: int)
    requires Inv(w) && lease in w.held
    ensures Inv(Step(w, Return(lease, now)))
  {
    hide FindLease, UniqueHandles, OneHealthyPerTarget;
    var cs := w.pool.conns;
    var i := FindLease(cs, lease.target, lease.handle);
    assert i < |cs| by {
      var j :| 0 <= j < |cs| && LeaseOf(cs[j]) == lease;
    }
    var c, held := GiveBack(cs[i], now), w.held - multiset{lease};
    assert Sound(cs[i], w.held) && LeaseOf(cs[i]) == lease && LeaseOf(c) == lease;
    OneCountChanges(cs, i, c, w.held, held);
    assert AllPresent(cs, held);
    assert SameConnections(cs, cs[i := c]);
    hide AllPresent, SameConnections, AllSound;
    SameConnectionsKeep(cs, cs[i := c], held);
  }

  lemma AddPairs(cs: seq<Pooled>, c: Pooled)
    requires UniqueHandles(cs) && OneHealthyPerTarget(cs) && !InPool(cs, c.handle)
    requires forall j :: 0 <= j < |cs| ==> !Serves(cs[j], c.target)
    ensures UniqueHandles([c] + cs) && OneHealthyPerTarget([c] + cs)
  {
  }

  lemma AddKeeps(w: World, target: string, now: int, handle: nat)
    requires Inv(w) && FindHealthy(w.pool.conns, target) == |w.pool.conns|
    requires w.pool.current < w.pool.max && !InPool(w.pool.conns, handle)
    ensures Inv(World(Added(w.pool, target, handle, now), w.held + multiset{Lease(target, handle)}))
  {
    var cs, lease := w.pool.conns, Lease(target, handle);
    var c := Pooled(target, handle, now, now, 1, true, false);
    var ds, held := [c] + cs, w.held + multiset{lease};
    assert lease !in w.held;
    AddPairs(cs, c);
    forall l | l in held ensures exists j :: 0 <= j < |ds| && LeaseOf(ds[j]) == l {
      if l == lease {
        assert LeaseOf(ds[0]) == l;
      } else {
        var j :| 0 <= j < |cs| && LeaseOf(cs[j]) == l;
        assert LeaseOf(ds[j + 1]) == l;
      }
    }
    forall j | 0 <= j < |ds| ensures Sound(ds[j], held) {
      if j > 0 { assert Sound(cs[j - 1], w.held); }
    }
  }

  lemma TickKeeps(w: World, now: int)
    requires Inv(w)
    ensures Inv(Step(w, Tick(now)))
  {
    var cs, ds := w.pool.conns, TickPool(w.pool, now).conns;
    forall i | 0 <= i < |cs| ensures LeaseOf(ds[i]) == LeaseOf(cs[i]) && Sound(ds[i], w.held) {
      assert Sound(cs[i], w.held);
    }
    SameConnectionsKeep(cs, ds, w.held);
  }

  /** Clean-up drops exactly the discardable connections and keeps all pairwise properties. */
  lemma {:induction false} KeptKeeps(cs: seq<Pooled>)
    requires UniqueHandles(cs) && OneHealthyPerTarget(cs)
    ensures UniqueHandles(Kept(cs)) && OneHealthyPerTarget(Kept(cs)) && |Kept(cs)| <= |cs|
    ensures forall c :: c in Kept(cs) <==> c in cs && (c.active > 0 || c.healthy)
  {
    if cs != [] {
      var tail, kept := cs[1..], Kept(cs[1..]);
      KeptKeeps(tail);
      assert cs == [cs[0]] + tail;
      if !Discardable(cs[0]) {
        assert Kept(cs) == [cs[0]] + kept;
        hide Kept, UniqueHandles, OneHealthyPerTarget;
        ApartFromRest(cs);
        PrependKeeps(cs[0], kept);
      }
    }
  }

  /** Another handle, and not both healthy for one target. */
  predicate Apart(c: Pooled, d: Pooled) {
    c.handle != d.handle && (c.healthy && d.healthy ==> c.target != d.target)
  }

  lemma ApartFromRest(cs: seq<Pooled>)
    requires cs != [] && UniqueHandles(cs) && OneHealthyPerTarget(cs)
    ensures forall d :: d in cs[1..] ==> Apart(cs[0], d)
  {
    forall d | d in cs[1..] ensures Apart(cs[0], d) {
      var k :| 0 <= k < |cs[1..]| && cs[1..][k] == d;
      assert cs[k + 1] == d;
    }
  }

  lemma PrependKeeps(c: Pooled, cs: seq<Pooled>)
    requires UniqueHandles(cs) && OneHealthyPerTarget(cs) && forall d :: d in cs ==> Apart(c, d)
    ensures UniqueHandles([c] + cs) && OneHealthyPerTarget([c] + cs)
  {
    var ds := [c] + cs;
    forall i, j | 0 <= i < j < |ds| ensures Apart(ds[i], ds[j]) {
      assert ds[j] == cs[j - 1];
    }
  }

  lemma CleanupKeeps(w: World)
    requires Inv(w)
    ensures Inv(Step(w, Cleanup))
  {
    hide Kept;
    var cs, ds := w.pool.conns, Kept(w.pool.conns);
    KeptKeeps(cs);
    forall j | 0 <= j < |ds| ensures Sound(ds[j], w.held) {
      assert ds[j] in ds;
      var i :| 0 <= i < |cs| && cs[i] == ds[j];
      assert Sound(cs[i], w.held);
    }
    forall l | l in w.held ensures exists j :: 0 <= j < |ds| && LeaseOf(ds[j]) == l {
      var i :| 0 <= i < |cs| && LeaseOf(cs[i]) == l;
      assert Sound(cs[i], w.held);
      assert cs[i] in ds;
    }
  }

  lemma StepKeeps(w: World, x: Action)
    requires Inv(w) && Allowed(w, x)
    ensures Inv(Step(w, x))
  {
    hide Inv, Step, Allowed;
    match x
    case Get(target, now, created) => GetKeeps(w, target, now, created);
    case Return(lease, now) =>
      HeldLease(w, lease, now);
      ReturnKeeps(w, lease, now);
    case Tick(now) => TickKeeps(w, now);
    case Cleanup => CleanupKeeps(w);
  }

  lemma HeldLease(w: World, lease: Lease, now: int)
    requires Allowed(w, Return(lease, now))
    ensures lease in w.held
  {
  }

  // ----- main results -----

  lemma {:induction false} RunKeeps(w: World, xs: seq<Action>, v: World)
    requires Inv(w) && Reachable(w, xs, v)
    ensures Inv(v)
    decreases |xs|
  {
    hide Inv, Step, Allowed;
    if xs != [] {
      StepKeeps(w, xs[0]);
      RunKeeps(Step(w, xs[0]), xs[1..], v);
    }
  }

  /**
   In every reachable state: the list is as long as the counter says and within the limit; an
   unhealthy connection has no active calls; a target has at most one healthy connection; the
   active calls of a connection are the leases out on it; and every lease is on a connection that
   is in the list, healthy and alive. So clean-up, here or later, never destroys one in use.
   */
  lemma PoolSafety(max: nat, idleTimeoutMs: int, xs: seq<Action>, w: World)
    requires Reachable(World(NewPool(max, idleTimeoutMs), multiset{}), xs, w)
    ensures Inv(w)
    ensures forall l :: l in w.held ==>
      exists c :: c in w.pool.conns && c in CleanPool(w.pool).conns && LeaseOf(c) == l && c.healthy && !c.freed
                  && c.active == w.held[l]
  {
    RunKeeps(World(NewPool(max, idleTimeoutMs), multiset{}), xs, w);
    KeptKeeps(w.pool.conns);
    forall l | l in w.held
      ensures exists c :: c in w.pool.conns && c in CleanPool(w.pool).conns && LeaseOf(c) == l && c.healthy
                          && !c.freed && c.active == w.held[l]
    {
      var i :| 0 <= i < |w.pool.conns| && LeaseOf(w.pool.conns[i]) == l;
      assert Sound(w.pool.conns[i], w.held);
      assert w.pool.conns[i] in w.pool.conns;
    }
  }

  /** Pinged now, or within the keep-alive interval. */
  predicate FreshlyPinged(p: Pool, d: Pooled, now: int) {
    (now - d.lastKeepalive) * 1000 < p.intervalMs || d.lastKeepalive == now
  }

  /** What a tick makes of one sound connection. */
  lemma TickOfSound(p: Pool, c: Pooled, held: multiset<Lease>, now: int)
    requires Sound(c, held) && p.idleTimeoutMs > 0
    ensures var d := TickOne(p, c, now);
      && d.handle == c.handle && (d.active > 0 || d.healthy <==> c.active > 0 || (c.healthy && Recent(p, c, now)))
      && (d.active > 0 ==> FreshlyPinged(p, d, now))
  {
    TickOutcome(p, c, now);
  }

  lemma OnlyOneWithHandle(cs: seq<Pooled>, i: nat, d: Pooled)
    requires UniqueHandles(cs) && i < |cs| && d in cs && d.handle == cs[i].handle
    ensures d == cs[i]
  {
    var j :| 0 <= j < |cs| && cs[j] == d;
  }

  /**
   A tick followed by a clean-up keeps exactly the connections that are in use
   or healthy and recently used, and afterwards every kept connection in use was pinged within
   the keep-alive interval.
   */
  lemma SweepKeeps(w: World, now: int, i: nat)
    requires Inv(w) && i < |w.pool.conns| && w.pool.idleTimeoutMs > 0
    ensures var p := w.pool; var c := p.conns[i]; var swept := CleanPool(TickPool(p, now)).conns;
      && ((exists d :: d in swept && d.handle == c.handle) <==> c.active > 0 || (c.healthy && Recent(p, c, now)))
      && forall d :: d in swept && d.active > 0 ==> FreshlyPinged(p, d, now)
  {
    hide Kept, TickOne, Sound, FreshlyPinged, Recent, OneHealthyPerTarget, AllPresent;
    var p, ticked := w.pool, TickPool(w.pool, now).conns;
    TickKeeps(w, now);
    KeptKeeps(ticked);
    forall d | d in ticked ensures d.active > 0 ==> FreshlyPinged(p, d, now) {
      var j :| 0 <= j < |ticked| && ticked[j] == d;
      TickOfSound(p, p.conns[j], w.held, now);
    }
    TickOfSound(p, p.conns[i], w.held, now);
    hide UniqueHandles, TickPool;
    forall d | d in ticked && d.handle == ticked[i].handle ensures d == ticked[i] { OnlyOneWithHandle(ticked, i, d); }
    assert ticked[i] in ticked;
  }

  // ----- eviction -----

  /** The pool after a get of either kind; `j` is the node an eviction picks. */
  function AnyGet(p: Pool, j: nat, target: string, now: int, created: Option<nat>): Pool
    requires Evicts(p, target) ==> j < |p.conns|
  {
    if Evicts(p, target) then EvictingGet(p, j, target, now, created) else GetPool(p, target, now, created)
  }

  /**
   Why evicting gets are set apart: whether or not the connection can then be made, an eviction
   leaves the freed node linked and the list one longer than the counter; the new connection then
   comes first. Any other get keeps them equal.
   */
  lemma EvictionBreaksCount(p: Pool, j: nat, target: string, now: int, created: Option<nat>)
    requires |p.conns| == p.current && (Evicts(p, target) ==> j < |p.conns|)
    ensures var q := AnyGet(p, j, target, now, created);
      && (|q.conns| == q.current <==> !Evicts(p, target))
      && (Evicts(p, target) ==> |q.conns| == q.current + 1 && exists c :: c in q.conns && c.freed)
      && (Evicts(p, target) ==>
            var at := if created.None? then 0 else 1;
            && q.conns[at..] == p.conns[j := p.conns[j].(freed := true)]
            && (at == 1 ==> q.conns[0] == Pooled(target, created.value, now, now, 1, true, false)))
  {
    if Evicts(p, target) {
      var q := AnyGet(p, j, target, now, created);
      var at := if created.None? then j else j + 1;
      assert q.conns[at] == Evicted(p, j).conns[j] && q.conns[at] in q.conns;
    }
  }

  /** From a state with the invariant, exactly the gets that do not evict keep it. */
  lemma GetKeepsIff(w: World, j: nat, target: string, now: int, created: Option<nat>)
    requires Inv(w) && (Evicts(w.pool, target) ==> j < |w.pool.conns|)
    requires created.Some? ==> !InPool(w.pool.conns, created.value)
    ensures var h := if Evicts(w.pool, target) then created else GetHandle(w.pool, target, created);
      Inv(World(AnyGet(w.pool, j, target, now, created),
                if h.Some? then w.held + multiset{Lease(target, h.value)} else w.held))
      <==> !Evicts(w.pool, target)
  {
    EvictionBreaksCount(w.pool, j, target, now, created);
    if !Evicts(w.pool, target) {
      GetKeeps(w, target, now, created);
    }
  }

  /** Three calls reach it: with room for one connection, get one target, return it, and get another. */
  lemma EvictionReachable(idleTimeoutMs: int) returns (xs: seq<Action>, w: World)
    ensures Reachable(World(NewPool(1, idleTimeoutMs), multiset{}), xs, w) && Inv(w)
    ensures Evicts(w.pool, "b")
  {
    var w0 := World(NewPool(1, idleTimeoutMs), multiset{});
    var get, ret := Get("a", 0, Some(7)), Return(Lease("a", 7), 0);
    xs := [get, ret];
    var w1 := Step(w0, get);
    assert w1.pool.conns == [Pooled("a", 7, 0, 0, 1, true, false)] && w1.held == multiset{Lease("a", 7)};
    w := Step(w1, ret);
    assert FindLease(w1.pool.conns, "a", 7) == 0;
    assert w.pool.conns == [Pooled("a", 7, 0, 0, 0, true, false)];
    assert xs[1..] == [ret] && xs[1..][1..] == [];
    assert Reachable(w, [], w) && Reachable(w1, [ret], w);
    RunKeeps(w0, xs, w);
    assert "a"[0] != "b"[0];
    assert !Serves(w.pool.conns[0], "b") && w.pool.conns[0].active == 0;
  }
}
