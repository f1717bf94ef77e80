/** How often each node is picked: exact shares of the round-robin and the weighted policy. */
module PickShares {
  import opened LoadBalancer

  // ----- round robin -----

  /** The nodes returned by `k` consecutive picks that start with the position at `c`. */
  function Picks(addrs: seq<Address>, c: nat, k: nat): (r: seq<int>)
    requires c < |addrs|
    ensures |r| == k
    decreases k
  {
    if k == 0 then [] else [NextAvailable(addrs, c)] + Picks(addrs, Next(|addrs|, c), k - 1)
  }

  function Next(n: nat, c: nat): (r: nat)
    requires c < n
    ensures r < n
  {
    if c + 1 < n then c + 1 else 0
  }

  /** This is the advance `RoundRobinPick` makes. */
  lemma NextIsAdvance(n: nat, c: nat)
    requires c < n
    ensures Next(n, c) == (c + 1) % n
  {
  }

  /** With nothing available every pick is NULL, from whatever position. */
  lemma {:induction false} NullPicks(addrs: seq<Address>, c: nat, d: nat, k: nat)
    requires c < |addrs| && d < |addrs| && !SomeAvailable(addrs)
    ensures Picks(addrs, c, k) == Picks(addrs, d, k)
    decreases k
  {
    hide SomeAvailable;
    if k > 0 { NullPicks(addrs, Next(|addrs|, c), Next(|addrs|, d), k - 1); }
  }

  /** `Picks` is what a client sees that calls `RoundRobinPick` k times. */
  method PickMany(policy: Policy, k: nat) returns (picks: seq<int>)
    requires policy.Valid() && policy.addresses != []
    modifies policy`currentIndex
    ensures policy.Valid() && picks == Picks(policy.addresses, old(policy.currentIndex), k)
  {
    hide NextAvailable, SomeAvailable;
    picks := [];
    ghost var start := policy.currentIndex;
    assert forall s: seq<int> :: [] + s == s;
    for i := 0 to k
      invariant policy.Valid()
      invariant Picks(policy.addresses, start, k) == picks + Picks(policy.addresses, policy.currentIndex, k - i)
    {
      ghost var c := policy.currentIndex;
      var pick := policy.RoundRobinPick();
      NextIsAdvance(|policy.addresses|, c);
      if pick == -1 { NullPicks(policy.addresses, c, Next(|policy.addresses|, c), k - i - 1); }
      assert Picks(policy.addresses, c, k - i) == [pick] + Picks(policy.addresses, policy.currentIndex, k - i - 1);
      AppendPick(picks, pick, Picks(policy.addresses, policy.currentIndex, k - i - 1));
      picks := picks + [pick];
    }
    assert picks + [] == picks;
  }

  lemma AppendPick(xs: seq<int>, x: int, ys: seq<int>)
    ensures xs + ([x] + ys) == (xs + [x]) + ys
  {
  }

  /** How far `a` lies cyclically after `c`. */
  function Distance(n: nat, c: nat, a: nat): (d: nat)
    requires c < n && a < n
    ensures d < n && At(n, c, d) == a
  {
    if c <= a then a - c else a + n - c
  }

  function Before(n: nat, a: nat, d: nat): (r: nat)
    requires a < n && d < n
    ensures r < n && Distance(n, r, a) == d
  {
    if d <= a then a - d else a + n - d
  }

  /** The length of the run of unavailable nodes cyclically just before the available node `a`, counted from `r` on. */
  function RunBefore(addrs: seq<Address>, a: nat, r: nat): (run: nat)
    requires a < |addrs| && r < |addrs|
    requires forall d :: 1 <= d <= r ==> !addrs[Before(|addrs|, a, d)].available
    ensures r <= run < |addrs|
    ensures forall d :: 1 <= d <= run ==> !addrs[Before(|addrs|, a, d)].available
    ensures run + 1 < |addrs| ==> addrs[Before(|addrs|, a, run + 1)].available
    decreases |addrs| - r
  {
    if r + 1 == |addrs| || addrs[Before(|addrs|, a, r + 1)].available then r else RunBefore(addrs, a, r + 1)
  }

  lemma AtBefore(n: nat, c: nat, a: nat, e: nat)
    requires c < n && a < n && e <= Distance(n, c, a)
    ensures At(n, c, e) == Before(n, a, Distance(n, c, a) - e)
    ensures At(n, c, e) == a <==> e == Distance(n, c, a)
  {
  }

  /** Scanning from `c` stops at `a` if everything from `c` to `a` is in the run, and before it otherwise. */
  lemma FirstFound(addrs: seq<Address>, c: nat, a: nat)
    requires c < |addrs| && a < |addrs| && addrs[a].available
    ensures FirstFrom(addrs, c, 0) <= Distance(|addrs|, c, a)
    ensures FirstFrom(addrs, c, 0) == Distance(|addrs|, c, a)
      <==> Distance(|addrs|, c, a) <= RunBefore(addrs, a, 0)
  {
    hide RunBefore, FirstFrom, Before, At, Distance;
    var n, d, run := |addrs|, Distance(|addrs|, c, a), RunBefore(addrs, a, 0);
    var first := FirstFrom(addrs, c, 0);
    AtBefore(n, c, a, d);
    assert first <= d;
    if d <= run {
      AtBefore(n, c, a, first);
    } else {
      AtBefore(n, c, a, d - run - 1);
    }
  }

  /** A position leads to `a` exactly when it is `a` or in the unavailable run before it. */
  lemma PickedFrom(addrs: seq<Address>, c: nat, a: nat)
    requires c < |addrs| && a < |addrs| && addrs[a].available
    ensures NextAvailable(addrs, c) == a <==> Distance(|addrs|, c, a) <= RunBefore(addrs, a, 0)
  {
    hide RunBefore, FirstFrom, Distance, At, SomeAvailable;
    FirstFound(addrs, c, a);
    AtBefore(|addrs|, c, a, FirstFrom(addrs, c, 0));
  }

  /** Of `k` positions whose distances to a node count down cyclically from `d`, how many lie within `run`. */
  function Hits(n: nat, d: nat, run: nat, k: nat): nat
    requires d < n
    decreases k
  {
    if k == 0 then 0
    else (if d <= run then 1 else 0) + Hits(n, if d == 0 then n - 1 else d - 1, run, k - 1)
  }

  function Clip(x: int): nat {
    if x < 0 then 0 else x
  }

  lemma {:induction false} HitsClosed(n: nat, d: nat, run: nat, k: nat)
    requires d < n && run < n && k <= n
    ensures k <= d ==> Hits(n, d, run, k) == if d <= run then k else Clip(run - d + k)
    ensures k > d ==> Hits(n, d, run, k) == (if d <= run then d else run) + 1 + Clip(run - n + k - d)
    decreases k
  {
    if k > 0 {
      HitsClosed(n, if d == 0 then n - 1 else d - 1, run, k - 1);
    }
  }

  lemma ConsCount(p: int, s: seq<int>, a: int)
    ensures multiset([p] + s)[a] == multiset(s)[a] + if p == a then 1 else 0
  {
  }

  lemma NextDistance(n: nat, c: nat, a: nat)
    requires c < n && a < n
    ensures Distance(n, Next(n, c), a) == if Distance(n, c, a) == 0 then n - 1 else Distance(n, c, a) - 1
  {
  }

  lemma HitsNext(n: nat, d: nat, d': nat, run: nat, k: nat)
    requires d < n && k > 0 && d' == if d == 0 then n - 1 else d - 1
    ensures Hits(n, d, run, k) == (if d <= run then 1 else 0) + Hits(n, d', run, k - 1)
  {
  }

  lemma {:induction false} PicksHit(addrs: seq<Address>, c: nat, a: nat, k: nat)
    requires c < |addrs| && a < |addrs| && addrs[a].available
    ensures multiset(Picks(addrs, c, k))[a] == Hits(|addrs|, Distance(|addrs|, c, a), RunBefore(addrs, a, 0), k)
    decreases k
  {
    hide RunBefore, NextAvailable, SomeAvailable, Distance, Next;
    if k > 0 {
      assert Picks(addrs, c, k) == [NextAvailable(addrs, c)] + Picks(addrs, Next(|addrs|, c), k - 1);
      hide Picks, Hits;
      var n, c' := |addrs|, Next(|addrs|, c);
      var d, d', run := Distance(n, c, a), Distance(n, c', a), RunBefore(addrs, a, 0);
      PickedFrom(addrs, c, a);
      PicksHit(addrs, c', a, k - 1);
      ConsCount(NextAvailable(addrs, c), Picks(addrs, c', k - 1), a);
      NextDistance(n, c, a);
      HitsNext(n, d, d', run, k);
    }
  }

  /**
   Any `address_count` consecutive picks return each available node exactly once for itself and
   once for every unavailable node in the run cyclically just before it.
   */
  lemma RoundRobinShare(addrs: seq<Address>, c: nat, a: nat)
    requires c < |addrs| && a < |addrs| && addrs[a].available
    ensures multiset(Picks(addrs, c, |addrs|))[a] == 1 + RunBefore(addrs, a, 0)
  {
    PicksHit(addrs, c, a, |addrs|);
    HitsClosed(|addrs|, Distance(|addrs|, c, a), RunBefore(addrs, a, 0), |addrs|);
  }

  function After(n: nat, c: nat, k: nat): (r: nat)
    requires c < n
    ensures r < n
    decreases k
  {
    if k == 0 then c else After(n, Next(n, c), k - 1)
  }

  lemma {:induction false} AfterRound(n: nat, c: nat, k: nat)
    requires c < n && k <= n
    ensures After(n, c, k) == if c + k < n then c + k else c + k - n
    decreases k
  {
    if k > 0 { AfterRound(n, Next(n, c), k - 1); }
  }

  lemma {:induction false} PicksSplit(addrs: seq<Address>, c: nat, k: nat, l: nat)
    requires c < |addrs|
    ensures Picks(addrs, c, k + l) == Picks(addrs, c, k) + Picks(addrs, After(|addrs|, c, k), l)
    decreases k
  {
    hide NextAvailable;
    if k > 0 {
      PicksSplit(addrs, Next(|addrs|, c), k - 1, l);
    }
  }

  /** Over any whole number of rounds the shares add up: no drift. */
  lemma {:induction false} RoundRobinLongRun(addrs: seq<Address>, c: nat, a: nat, rounds: nat)
    requires c < |addrs| && a < |addrs| && addrs[a].available
    ensures multiset(Picks(addrs, c, rounds * |addrs|))[a] == rounds * (1 + RunBefore(addrs, a, 0))
    decreases rounds
  {
    hide RunBefore, Picks, NextAvailable;
    if rounds > 0 {
      var n, share := |addrs|, 1 + RunBefore(addrs, a, 0);
      RoundRobinLongRun(addrs, c, a, rounds - 1);
      RoundRobinShare(addrs, c, a);
      AfterRound(n, c, n);
      var rest := (rounds - 1) * n;
      PicksSplit(addrs, c, n, rest);
      assert rounds * n == n + rest && rounds * share == share + (rounds - 1) * share;
    }
  }

  /** A pick is NULL exactly when nothing is available, and otherwise it is an available node. */
  lemma {:induction false} PicksAvailable(addrs: seq<Address>, c: nat, k: nat, i: nat)
    requires c < |addrs| && i < k
    ensures var p := Picks(addrs, c, k)[i];
      (p == -1 <==> !SomeAvailable(addrs)) && (p != -1 ==> 0 <= p < |addrs| && addrs[p].available)
    decreases k
  {
    hide NextAvailable;
    if i > 0 { PicksAvailable(addrs, Next(|addrs|, c), k - 1, i - 1); }
  }

  // ----- weighted -----

  ghost predicate PositiveWeights(addrs: seq<Address>) {
    forall i :: 0 <= i < |addrs| ==> addrs[i].weight > 0
  }

  lemma PrefixStep(addrs: seq<Address>, i: nat)
    requires i < |addrs|
    ensures TotalWeight(addrs[..i + 1]) == TotalWeight(addrs[..i]) + ShareOf(addrs[i])
  {
    assert addrs[..i + 1][..i] == addrs[..i];
  }

  lemma {:induction false} PrefixMonotone(addrs: seq<Address>, i: nat, j: nat)
    requires i <= j <= |addrs| && PositiveWeights(addrs)
    ensures TotalWeight(addrs[..i]) <= TotalWeight(addrs[..j])
    decreases j - i
  {
    if i < j {
      PrefixStep(addrs, i);
      PrefixMonotone(addrs, i + 1, j);
    }
  }

  /** `r` selects node `a` exactly when it lies in the interval of cumulative weights that belongs to `a`. */
  lemma {:induction false} WeightedInterval(addrs: seq<Address>, r: int, i: nat, a: nat)
    requires i <= |addrs| && a < |addrs| && PositiveWeights(addrs) && TotalWeight(addrs[..i]) <= r
    ensures WeightedAt(addrs, r, i) == a <==>
      i <= a && TotalWeight(addrs[..a]) <= r < TotalWeight(addrs[..a + 1])
    decreases |addrs| - i
  {
    hide TotalWeight;
    if i < |addrs| {
      PrefixStep(addrs, i);
      if addrs[i].available && TotalWeight(addrs[..i + 1]) > r {
        if i < a { PrefixMonotone(addrs, i + 1, a); }
      } else {
        WeightedInterval(addrs, r, i + 1, a);
      }
    }
  }

  /** The integers from `lo` up to but not including `hi`. */
  function Interval(lo: int, hi: int): (s: set<int>)
    requires lo <= hi
    ensures forall r :: r in s <==> lo <= r < hi
    ensures |s| == hi - lo
    decreases hi - lo
  {
    if lo == hi then {} else Interval(lo, hi - 1) + {hi - 1}
  }

  /** The draws in [0, total) that select node `a`. */
  function DrawsFor(addrs: seq<Address>, a: nat): set<int> {
    set r | 0 <= r < TotalWeight(addrs) && WeightedAt(addrs, r, 0) == a
  }

  /** Exactly weight(a) of the draws below the total select an available node `a`; none selects an unavailable one. */
  lemma WeightedShare(addrs: seq<Address>, a: nat)
    requires a < |addrs| && PositiveWeights(addrs)
    ensures |DrawsFor(addrs, a)| == if addrs[a].available then addrs[a].weight else 0
  {
    var lo, hi := TotalWeight(addrs[..a]), TotalWeight(addrs[..a + 1]);
    assert addrs[..0] == [] && addrs[..|addrs|] == addrs;
    PrefixMonotone(addrs, 0, a);
    PrefixMonotone(addrs, a + 1, |addrs|);
    PrefixStep(addrs, a);
    forall r ensures r in DrawsFor(addrs, a) <==> r in Interval(lo, hi) {
      if r >= 0 { WeightedInterval(addrs, r, 0, a); }
    }
    assert DrawsFor(addrs, a) == Interval(lo, hi);
  }

  lemma {:induction false} WeightedNeverFallsThrough(addrs: seq<Address>, r: int, i: nat)
    requires i <= |addrs| && PositiveWeights(addrs) && TotalWeight(addrs[..i]) <= r < TotalWeight(addrs)
    ensures var k := WeightedAt(addrs, r, i); 0 <= k < |addrs| && addrs[k].available
    decreases |addrs| - i
  {
    assert addrs[..|addrs|] == addrs;
    if i < |addrs| {
      PrefixStep(addrs, i);
      if !(addrs[i].available && TotalWeight(addrs[..i + 1]) > r) {
        WeightedNeverFallsThrough(addrs, r, i + 1);
      }
    }
  }

  /** The total is 0, and the pick NULL, exactly when no node is available. */
  lemma {:induction false} TotalZeroIff(addrs: seq<Address>)
    requires PositiveWeights(addrs)
    ensures TotalWeight(addrs) >= 0 && (TotalWeight(addrs) == 0 <==> !SomeAvailable(addrs))
  {
    if addrs != [] {
      var init := addrs[..|addrs| - 1];
      TotalZeroIff(init);
      if SomeAvailable(init) {
        var i :| 0 <= i < |init| && init[i].available;
        assert addrs[i].available;
      }
    }
  }

  /** Every draw that the modulo can produce picks an available node, if there is one. */
  lemma WeightedPickIsAvailable(addrs: seq<Address>, draw: nat)
    requires PositiveWeights(addrs) && SomeAvailable(addrs)
    ensures TotalWeight(addrs) > 0
    ensures var k := WeightedAt(addrs, draw % TotalWeight(addrs), 0); 0 <= k < |addrs| && addrs[k].available
  {
    TotalZeroIff(addrs);
    assert addrs[..0] == [];
    WeightedNeverFallsThrough(addrs, draw % TotalWeight(addrs), 0);
  }
}
