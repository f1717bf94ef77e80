/** Sums over a sequence, of whatever `f` counts in an element. */
module Sums {
  function Sum<T(!new)>(xs: seq<T>, f: T -> int): int {
    if xs == [] then 0 else f(xs[0]) + Sum(xs[1..], f)
  }

  lemma {:induction false} SumUpdate<T(!new)>(xs: seq<T>, i: nat, x: T, f: T -> int)
    requires i < |xs|
    ensures Sum(xs[i := x], f) == Sum(xs, f) - f(xs[i]) + f(x)
  {
    if i == 0 {
      assert xs[0 := x][1..] == xs[1..];
    } else {
      SumUpdate(xs[1..], i - 1, x, f);
      assert xs[i := x][1..] == xs[1..][i - 1 := x];
    }
  }

  lemma {:induction false} SumZero<T(!new)>(xs: seq<T>, f: T -> int)
    requires forall x :: x in xs ==> f(x) == 0
    ensures Sum(xs, f) == 0
  {
    if xs != [] { SumZero(xs[1..], f); }
  }

  /** A sum of non-negative terms is at least each of them. */
  lemma {:induction false} SumCovers<T(!new)>(xs: seq<T>, i: nat, f: T -> int)
    requires forall x :: x in xs ==> f(x) >= 0
    ensures Sum(xs, f) >= 0 && (i < |xs| ==> Sum(xs, f) >= f(xs[i]))
  {
    if xs != [] { SumCovers(xs[1..], if i > 0 then i - 1 else 0, f); }
  }

  /** n times `b`, added up. */
  function Times(n: nat, b: nat): nat {
    if n == 0 then 0 else Times(n - 1, b) + b
  }

  lemma {:induction false} TimesIsProduct(n: nat, b: nat)
    ensures Times(n, b) == n * b
  {
    if n > 0 {
      TimesIsProduct(n - 1, b);
      assert n * b == (n - 1) * b + b;
    }
  }

  /** Where no term exceeds `bound`, all terms but the one at `i` come to at most (n - 1) * bound. */
  lemma {:induction false} SumOfOthers<T(!new)>(xs: seq<T>, i: nat, bound: nat, f: T -> int)
    requires i < |xs| && forall j :: 0 <= j < |xs| && j != i ==> f(xs[j]) <= bound
    ensures Sum(xs, f) <= f(xs[i]) + Times(|xs| - 1, bound)
  {
    if i == 0 {
      SumAtMost(xs[1..], bound, f);
    } else {
      SumOfOthers(xs[1..], i - 1, bound, f);
    }
  }

  lemma {:induction false} SumAtMost<T(!new)>(xs: seq<T>, bound: nat, f: T -> int)
    requires forall x :: x in xs ==> f(x) <= bound
    ensures Sum(xs, f) <= Times(|xs|, bound)
  {
    if xs != [] { SumAtMost(xs[1..], bound, f); }
  }

  lemma {:induction false} SumAtLeast<T(!new)>(xs: seq<T>, bound: nat, f: T -> int)
    requires forall x :: x in xs ==> f(x) + bound >= 0
    ensures Sum(xs, f) + Times(|xs|, bound) >= 0
  {
    if xs != [] { SumAtLeast(xs[1..], bound, f); }
  }
}
