/** Runs of a state machine: its step folded over a sequence of actions. */
module Runs {
  function Fold<S(!new), X(!new)>(step: (S, X) -> S, s: S, xs: seq<X>): S
    decreases |xs|
  {
    if xs == [] then s else Fold(step, step(s, xs[0]), xs[1..])
  }

  lemma {:induction false} FoldConcat<S(!new), X(!new)>(step: (S, X) -> S, s: S, xs: seq<X>, ys: seq<X>)
    ensures Fold(step, s, xs + ys) == Fold(step, Fold(step, s, xs), ys)
    decreases |xs|
  {
    if xs == [] {
      assert xs + ys == ys;
    } else {
      FoldConcat(step, step(s, xs[0]), xs[1..], ys);
      assert (xs + ys)[1..] == xs[1..] + ys;
    }
  }

  lemma FoldPrepend<S(!new), X(!new)>(step: (S, X) -> S, s: S, x: X, ys: seq<X>)
    ensures Fold(step, s, [x] + ys) == Fold(step, step(s, x), ys)
  {
    assert ([x] + ys)[1..] == ys;
  }

  lemma FoldEmpty<S(!new), X(!new)>(step: (S, X) -> S, s: S)
    ensures Fold(step, s, []) == s
  {
  }

  /** A run step by step: `ss` are the states it goes through. */
  lemma {:induction false} FoldTrace<S(!new), X(!new)>(step: (S, X) -> S, ss: seq<S>, xs: seq<X>)
    requires |ss| == |xs| + 1 && forall i :: 0 <= i < |xs| ==> ss[i + 1] == step(ss[i], xs[i])
    ensures Fold(step, ss[0], xs) == ss[|xs|]
  {
    if xs != [] { FoldTrace(step, ss[1..], xs[1..]); }
  }
}
