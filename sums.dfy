/**
 * Running totals over a sequence: the byte counter of a download and the
 * compressed-size counter of an extraction are both one of these.
 */
module Sums {

  /** The total of `f` over `xs`, added up from the front. */
  function SumOf<T>(xs: seq<T>, f: T -> nat): nat
    decreases |xs|
  {
    if |xs| == 0 then 0 else SumOf(xs[..|xs| - 1], f) + f(xs[|xs| - 1])
  }

  /** Taking one more element adds exactly that element's measure. */
  lemma SumOfStep<T>(xs: seq<T>, f: T -> nat, i: nat)
    requires i < |xs|
    ensures SumOf(xs[..i + 1], f) == SumOf(xs[..i], f) + f(xs[i])
  {
    assert xs[..i + 1][..i] == xs[..i];
  }

  /** The total of a concatenation is the sum of the totals. */
  lemma {:induction false} SumOfAppend<T>(xs: seq<T>, ys: seq<T>, f: T -> nat)
    ensures SumOf(xs + ys, f) == SumOf(xs, f) + SumOf(ys, f)
    decreases |ys|
  {
    if |ys| == 0 {
      assert xs + ys == xs;
    } else {
      var ys' := ys[..|ys| - 1];
      assert (xs + ys)[..|xs + ys| - 1] == xs + ys';
      SumOfAppend(xs, ys', f);
    }
  }

  /** Running totals never go down: a longer prefix has a total at least as large. */
  lemma {:induction false} SumOfPrefixMonotone<T>(xs: seq<T>, f: T -> nat, i: nat, j: nat)
    requires i <= j <= |xs|
    ensures SumOf(xs[..i], f) <= SumOf(xs[..j], f)
  {
    assert xs[..j] == xs[..i] + xs[i..j];
    SumOfAppend(xs[..i], xs[i..j], f);
  }
}
