/** The connection pool: leases, keep-alive ticks and idle clean-up on one list of connections. */
module ConnectionPool {
  import opened Machine

  /** `handle` is the connection's address; `freed` marks a node destroyed while still linked. */
  datatype Pooled = Pooled(target: string, handle: nat, lastUsed: int, lastKeepalive: int,
                           active: nat, healthy: bool, freed: bool)

  datatype Pool = Pool(conns: seq<Pooled>, max: nat, current: int,
                       idleTimeoutMs: int, intervalMs: int, permitWithoutCalls: bool)

  // ----- one operation, on values -----

  predicate Serves(c: Pooled, target: string) {
    c.healthy && c.target == target
  }

  /** The first healthy connection to `target`; the list's length if there is none. */
  function FindHealthy(cs: seq<Pooled>, target: string): (i: nat)
    ensures i <= |cs| && (i < |cs| ==> Serves(cs[i], target))
    ensures forall j :: 0 <= j < i ==> !Serves(cs[j], target)
  {
    if cs == [] || Serves(cs[0], target) then 0 else 1 + FindHealthy(cs[1..], target)
  }

  /** How long the node at `i` has been unused by the clock reading taken for it. */
  function IdleTime(cs: seq<Pooled>, clock: nat -> int, i: nat): int
    requires i < |cs|
  {
    clock(i) - cs[i].lastUsed
  }

  /** `j` is the unused connection with the longest idle time, the first of those in list order. */
  predicate IsOldestIdle(cs: seq<Pooled>, clock: nat -> int, j: nat) {
    && j < |cs| && cs[j].active == 0
    && forall k :: 0 <= k < |cs| && cs[k].active == 0 ==>
         && IdleTime(cs, clock, k) <= IdleTime(cs, clock, j)
         && (k < j ==> IdleTime(cs, clock, k) < IdleTime(cs, clock, j))
  }

  /** Each by its own clock reading, no unused one has waited longer; when the clock stands still, none was used less recently. */
  lemma OldestIsLeastRecent(cs: seq<Pooled>, clock: nat -> int, j: nat)
    requires IsOldestIdle(cs, clock, j)
    ensures forall k :: 0 <= k < |cs| && cs[k].active == 0 ==> clock(k) - cs[k].lastUsed <= clock(j) - cs[j].lastUsed
    ensures (forall i :: 0 <= i < |cs| ==> clock(i) == clock(j)) ==>
      forall k :: 0 <= k < |cs| && cs[k].active == 0 ==> cs[j].lastUsed <= cs[k].lastUsed
  {
    forall k | 0 <= k < |cs| && cs[k].active == 0 ensures clock(k) - cs[k].lastUsed <= clock(j) - cs[j].lastUsed {
      assert IdleTime(cs, clock, k) <= IdleTime(cs, clock, j);
    }
  }

  /** So there is no choice: ties go to the first in list order. */
  lemma OldestIsUnique(cs: seq<Pooled>, clock: nat -> int, i: nat, j: nat)
    requires IsOldestIdle(cs, clock, i) && IsOldestIdle(cs, clock, j)
    ensures i == j
  {
    assert IdleTime(cs, clock, i) <= IdleTime(cs, clock, j) <= IdleTime(cs, clock, i);
  }

  predicate HasIdle(cs: seq<Pooled>) {
    exists j :: 0 <= j < |cs| && cs[j].active == 0
  }

  /** A get that finds the pool full and takes the eviction branch. */
  predicate Evicts(p: Pool, target: string) {
    FindHealthy(p.conns, target) == |p.conns| && p.current >= p.max && HasIdle(p.conns)
  }

  function Lend(c: Pooled, now: int): Pooled {
    c.(lastUsed := now, active := c.active + 1)
  }

  function Added(p: Pool, target: string, handle: nat, now: int): Pool {
    p.(conns := [Pooled(target, handle, now, now, 1, true, false)] + p.conns, current := p.current + 1)
  }

  /** The eviction: the node is freed and counted off, but stays in the list. */
  function Evicted(p: Pool, j: nat): Pool
    requires j < |p.conns|
  {
    p.(conns := p.conns[j := p.conns[j].(freed := true)], current := p.current - 1)
  }

  /** What get does when it does not evict; `created` is the new connection, if one can be made. */
  function GetPool(p: Pool, target: string, now: int, created: Option<nat>): Pool {
    var i := FindHealthy(p.conns, target);
    if i < |p.conns| then p.(conns := p.conns[i := Lend(p.conns[i], now)])
    else if p.current >= p.max || created.None? then p
    else Added(p, target, created.value, now)
  }

  function EvictingGet(p: Pool, j: nat, target: string, now: int, created: Option<nat>): Pool
    requires j < |p.conns|
  {
    if created.None? then Evicted(p, j) else Added(Evicted(p, j), target, created.value, now)
  }

  function GetHandle(p: Pool, target: string, created: Option<nat>): Option<nat> {
    var i := FindHealthy(p.conns, target);
    if i < |p.conns| then Some(p.conns[i].handle) else if p.current >= p.max then None else created
  }

  ghost predicate AnyServes(cs: seq<Pooled>, target: string) {
    exists i :: 0 <= i < |cs| && cs[i].healthy && cs[i].target == target
  }

  /** `q` is `p` but for the connection at `i`, where only what a use changes may differ. */
  ghost predicate OnlyUsed(p: Pool, q: Pool, i: nat, active: nat, now: int)
    requires i < |p.conns|
  {
    && q == p.(conns := q.conns) && |q.conns| == |p.conns|
    && (forall k :: 0 <= k < |p.conns| && k != i ==> q.conns[k] == p.conns[k])
    && q.conns[i] == p.conns[i].(lastUsed := now, active := active)
  }

  /**
   A get that does not evict hands out the first healthy connection to the target, used now and by
   one call more; without one, the new connection, if there is room and it can be made, put first
   in the list, healthy and in use by one call since now; and otherwise nothing, changing nothing.
   It evicts exactly when there is none, no room, and an unused connection.
   */
  lemma GetOutcome(p: Pool, target: string, now: int, created: Option<nat>)
    ensures Evicts(p, target) <==>
      !AnyServes(p.conns, target) && p.current >= p.max && exists i :: 0 <= i < |p.conns| && p.conns[i].active == 0
    ensures var q, h, i := GetPool(p, target, now, created), GetHandle(p, target, created), FindHealthy(p.conns, target);
      if AnyServes(p.conns, target) then
        i < |p.conns| && h == Some(p.conns[i].handle) && OnlyUsed(p, q, i, p.conns[i].active + 1, now)
      else if p.current < p.max && created.Some? then
        && h == created && q.current == p.current + 1 && |q.conns| == |p.conns| + 1 && q.conns[1..] == p.conns
        && var c := q.conns[0];
          c.target == target && c.handle == created.value && c.active == 1 && c.healthy && !c.freed
          && c.lastUsed == c.lastKeepalive == now
      else h == None && q == p
  {
    var i := FindHealthy(p.conns, target);
    if i < |p.conns| { assert Serves(p.conns[i], target); }
    if k :| 0 <= k < |p.conns| && p.conns[k].healthy && p.conns[k].target == target {
      assert Serves(p.conns[k], target);
    }
  }

  function FindLease(cs: seq<Pooled>, target: string, handle: nat): (i: nat)
    ensures i <= |cs| && (i < |cs| ==> cs[i].target == target && cs[i].handle == handle)
    ensures forall j :: 0 <= j < i ==> !(cs[j].target == target && cs[j].handle == handle)
  {
    if cs == [] || (cs[0].target == target && cs[0].handle == handle) then 0 else 1 + FindLease(cs[1..], target, handle)
  }

  function GiveBack(c: Pooled, now: int): Pooled {
    c.(lastUsed := now, active := if c.active > 0 then c.active - 1 else 0)
  }

  function ReturnPool(p: Pool, target: string, handle: nat, now: int): Pool {
    var i := FindLease(p.conns, target, handle);
    if i < |p.conns| then p.(conns := p.conns[i := GiveBack(p.conns[i], now)]) else p
  }

  /** A return takes one call off the first such connection, not below 0, counts as a use now, and changes nothing else. */
  lemma ReturnOutcome(p: Pool, target: string, handle: nat, now: int)
    ensures var q, i := ReturnPool(p, target, handle, now), FindLease(p.conns, target, handle);
      if i < |p.conns| then OnlyUsed(p, q, i, if p.conns[i].active == 0 then 0 else p.conns[i].active - 1, now) else q == p
  {
  }

  /** One pass of the keep-alive thread over one connection. */
  function TickOne(p: Pool, c: Pooled, now: int): Pooled {
    var pinged := (now - c.lastKeepalive) * 1000 >= p.intervalMs && c.healthy
                  && (p.permitWithoutCalls || c.active > 0);
    var expired := c.active == 0 && p.idleTimeoutMs > 0 && (now - c.lastUsed) * 1000 >= p.idleTimeoutMs;
    c.(lastKeepalive := if pinged then now else c.lastKeepalive, healthy := c.healthy && !expired)
  }

  function TickPool(p: Pool, now: int): (r: Pool)
    ensures r == p.(conns := r.conns) && |r.conns| == |p.conns|
    ensures forall i :: 0 <= i < |p.conns| ==> r.conns[i] == TickOne(p, p.conns[i], now)
  {
    p.(conns := seq(|p.conns|, i requires 0 <= i < |p.conns| => TickOne(p, p.conns[i], now)))
  }

  /** Used within the idle timeout, in whole-second clock readings scaled to milliseconds. */
  predicate Recent(p: Pool, c: Pooled, now: int) {
    (now - c.lastUsed) * 1000 < p.idleTimeoutMs
  }

  predicate PingDue(p: Pool, c: Pooled, now: int) {
    (now - c.lastKeepalive) * 1000 >= p.intervalMs
  }

  /**
   What a tick makes of a connection: healthy it stays exactly if it is in use, or recently used,
   or there is no timeout; afterwards no ping is due unless the connection is unhealthy, or unused
   where that forbids pings, or pinged just now; and it is pinged only when due.
   */
  lemma TickOutcome(p: Pool, c: Pooled, now: int)
    ensures var d := TickOne(p, c, now);
      && d == c.(healthy := d.healthy, lastKeepalive := d.lastKeepalive)
      && (d.healthy <==> c.healthy && (c.active > 0 || p.idleTimeoutMs <= 0 || Recent(p, c, now)))
      && (PingDue(p, c, now) && c.healthy && (p.permitWithoutCalls || c.active > 0) ==> d.lastKeepalive == now)
      && (d.lastKeepalive != c.lastKeepalive ==>
            PingDue(p, c, now) && c.healthy && (p.permitWithoutCalls || c.active > 0) && d.lastKeepalive == now)
  {
  }

  /** A connection returned at `t` is still healthy at every tick within the idle timeout from then. */
  lemma ReturnRefreshes(p: Pool, target: string, handle: nat, t: int, now: int)
    requires p.idleTimeoutMs > 0 && (now - t) * 1000 < p.idleTimeoutMs
    ensures var i := FindLease(p.conns, target, handle);
      i < |p.conns| && p.conns[i].healthy ==> TickPool(ReturnPool(p, target, handle, t), now).conns[i].healthy
  {
    var q, i := ReturnPool(p, target, handle, t), FindLease(p.conns, target, handle);
    ReturnOutcome(p, target, handle, t);
    if i < |p.conns| { TickOutcome(q, q.conns[i], now); }
  }

  predicate Discardable(c: Pooled) {
    c.active == 0 && !c.healthy
  }

  function Kept(cs: seq<Pooled>): seq<Pooled> {
    if cs == [] then [] else (if Discardable(cs[0]) then [] else [cs[0]]) + Kept(cs[1..])
  }

  lemma KeptCons(c: Pooled, rest: seq<Pooled>)
    ensures Kept([c] + rest) == (if Discardable(c) then [] else [c]) + Kept(rest)
  {
    assert ([c] + rest)[1..] == rest;
  }

  lemma Associative(a: seq<Pooled>, b: seq<Pooled>, c: seq<Pooled>)
    ensures a + b + c == a + (b + c)
  {
  }

  /** Clean-up treats the parts of the list separately, so it keeps the order. */
  lemma {:induction false} KeptSplit(a: seq<Pooled>, b: seq<Pooled>)
    ensures Kept(a + b) == Kept(a) + Kept(b)
  {
    if a == [] {
      assert a + b == b;
    } else {
      hide Kept, Discardable;
      var c, rest := a[0], a[1..];
      KeptSplit(rest, b);
      assert a == [c] + rest && a + b == [c] + (rest + b);
      KeptCons(c, rest);
      KeptCons(c, rest + b);
      Associative(if Discardable(c) then [] else [c], Kept(rest), Kept(b));
    }
  }

  function CleanPool(p: Pool): Pool {
    p.(conns := Kept(p.conns), current := p.current - (|p.conns| - |Kept(p.conns)|))
  }

  /** A list longer than the counter, as an eviction leaves it, stays so: clean-up repairs no miscount. */
  lemma MiscountStays(p: Pool)
    ensures var q := CleanPool(p); |q.conns| - q.current == |p.conns| - p.current
    ensures var q := CleanPool(p); q == p.(conns := q.conns, current := q.current)
  {
    hide Kept;
  }

  // ----- the pool object -----

  class ConnectionPool {
    var connections: seq<Pooled>
    var maxConnections: nat
    var currentConnections: int
    var idleTimeoutMs: int
    var intervalMs: int
    var permitWithoutCalls: bool

    function State(): Pool
      reads this
    {
      Pool(connections, maxConnections, currentConnections, idleTimeoutMs, intervalMs, permitWithoutCalls)
    }

    constructor (maxConnections: nat, idleTimeoutMs: int)
      ensures State() == NewPool(maxConnections, idleTimeoutMs)
      ensures connections == [] && currentConnections == 0 && intervalMs == 30000 && !permitWithoutCalls
      ensures this.maxConnections == if maxConnections > 0 then maxConnections else 10
      ensures this.idleTimeoutMs == if idleTimeoutMs > 0 then idleTimeoutMs else 30000
    {
      connections, currentConnections := [], 0;
      this.maxConnections := if maxConnections > 0 then maxConnections else 10;
      this.idleTimeoutMs := if idleTimeoutMs > 0 then idleTimeoutMs else 30000;
      intervalMs, permitWithoutCalls := 30000, false;
    }

    /** Without eviction: exactly `GetPool`. With it: the oldest idle node is freed and stays linked. */
    method Get(target: string, now: int, clock: nat -> int, created: Option<nat>) returns (handle: Option<nat>)
      modifies this
      ensures !Evicts(old(State()), target) ==>
        State() == GetPool(old(State()), target, now, created) && handle == GetHandle(old(State()), target, created)
      ensures Evicts(old(State()), target) ==>
        exists j: nat :: IsOldestIdle(old(connections), clock, j) &&
          State() == EvictingGet(old(State()), j, target, now, created) && handle == created
    {
      ghost var before := connections;
      var i := 0;
      while i < |connections|
        invariant 0 <= i <= |connections| && connections == before
        invariant forall j :: 0 <= j < i ==> !Serves(connections[j], target)
      {
        var c := connections[i];
        if c.healthy && c.target == target {
          connections := connections[i := Lend(c, now)];
          return Some(c.handle);
        }
        i := i + 1;
      }
      if currentConnections >= maxConnections {
        var oldest := FindOldest(clock);
        if oldest < 0 {
          return None;
        }
        connections := connections[oldest := connections[oldest].(freed := true)];
        currentConnections := currentConnections - 1;
      }
      if created.None? {
        return None;
      }
      connections := [Pooled(target, created.value, now, now, 1, true, false)] + connections;
      currentConnections := currentConnections + 1;
      return created;
    }

    /** The clock is read anew for every unused node. */
    method FindOldest(clock: nat -> int) returns (oldest: int)
      ensures oldest == -1 <==> !HasIdle(connections)
      ensures oldest != -1 ==> oldest >= 0 && IsOldestIdle(connections, clock, oldest)
    {
      oldest := -1;
      var oldestTime := 0;
      for i := 0 to |connections|
        invariant oldest == -1 ==> forall k :: 0 <= k < i ==> connections[k].active > 0
        invariant oldest != -1 ==>
          && 0 <= oldest < i && connections[oldest].active == 0 && oldestTime == IdleTime(connections, clock, oldest)
          && forall k :: 0 <= k < i && connections[k].active == 0 ==>
               && IdleTime(connections, clock, k) <= IdleTime(connections, clock, oldest)
               && (k < oldest ==> IdleTime(connections, clock, k) < IdleTime(connections, clock, oldest))
      {
        if connections[i].active == 0 {
          var idle := clock(i) - connections[i].lastUsed;
          if oldest == -1 || idle > oldestTime {
            oldest, oldestTime := i, idle;
          }
        }
      }
    }

    method Return(target: string, handle: nat, now: int) returns (r: int)
      modifies this`connections
      ensures State() == ReturnPool(old(State()), target, handle, now)
      ensures r == 0 <==> exists i :: 0 <= i < |old(connections)| && old(connections)[i].target == target
                                      && old(connections)[i].handle == handle
      ensures r == 0 || r == -1
    {
      var i := 0;
      while i < |connections|
        invariant 0 <= i <= |connections| && connections == old(connections)
        invariant forall j :: 0 <= j < i ==> !(connections[j].target == target && connections[j].handle == handle)
      {
        var c := connections[i];
        if c.handle == handle && c.target == target {
          connections := connections[i := GiveBack(c, now)];
          return 0;
        }
        i := i + 1;
      }
      return -1;
    }

    method Tick(now: int)
      modifies this`connections
      ensures State() == TickPool(old(State()), now)
    {
      for i := 0 to |connections|
        invariant |connections| == |old(connections)|
        invariant forall j :: 0 <= j < i ==> connections[j] == TickOne(old(State()), old(connections)[j], now)
        invariant forall j :: i <= j < |connections| ==> connections[j] == old(connections)[j]
      {
        var c := connections[i];
        if (now - c.lastKeepalive) * 1000 >= intervalMs && c.healthy {
          if permitWithoutCalls || c.active > 0 {
            c := c.(lastKeepalive := now);
          }
        }
        if c.active == 0 && idleTimeoutMs > 0 {
          if (now - c.lastUsed) * 1000 >= idleTimeoutMs {
            c := c.(healthy := false);
          }
        }
        connections := connections[i := c];
      }
      assert connections == TickPool(old(State()), now).conns;
    }

    /** Unlinks in list order; position `i` is the node after the last one kept. */
    method CleanupIdle()
      modifies this`connections, this`currentConnections
      ensures State() == CleanPool(old(State()))
    {
      hide Kept;
      ghost var before, done, rest := connections, [], connections;
      assert [] + before == before && [] + Kept(before) == Kept(before);
      var i := 0;
      while i < |connections|
        invariant connections == done + rest && i == |done|
        invariant Kept(before) == done + Kept(rest)
        invariant currentConnections - |connections| == old(currentConnections) - |before|
        decreases |rest|
      {
        Unlink(done, rest);
        KeptStep(done, rest);
        var c := connections[i];
        if c.active == 0 && !c.healthy {
          connections := connections[..i] + connections[i + 1..];
          currentConnections := currentConnections - 1;
        } else {
          done := done + [c];
          i := i + 1;
        }
        rest := rest[1..];
      }
      KeptNothing(done);
    }
  }

  lemma Unlink(done: seq<Pooled>, rest: seq<Pooled>)
    requires rest != []
    ensures (done + rest)[|done|] == rest[0]
    ensures (done + rest)[..|done|] + (done + rest)[|done| + 1..] == done + rest[1..]
    ensures (done + [rest[0]]) + rest[1..] == done + rest
  {
  }

  lemma KeptStep(done: seq<Pooled>, rest: seq<Pooled>)
    requires rest != []
    ensures done + Kept(rest) == (if Discardable(rest[0]) then done else done + [rest[0]]) + Kept(rest[1..])
  {
    var tail := Kept(rest[1..]);
    if Discardable(rest[0]) {
      assert Kept(rest) == [] + tail == tail;
    } else {
      assert Kept(rest) == [rest[0]] + tail;
      assert done + ([rest[0]] + tail) == (done + [rest[0]]) + tail;
    }
  }

  lemma KeptNothing(done: seq<Pooled>)
    ensures done + Kept([]) == done && done + [] == done
  {
  }

  function NewPool(maxConnections: nat, idleTimeoutMs: int): Pool {
    Pool([], if maxConnections > 0 then maxConnections else 10, 0,
         if idleTimeoutMs > 0 then idleTimeoutMs else 30000, 30000, false)
  }
}
