/** Sums of reals over sequences, and flooring term by term. */
module Reals {
  import opened Sums

  function SumOf<T>(xs: seq<T>, f: T -> real): real {
    if xs == [] then 0.0 else SumOf(xs[..|xs| - 1], f) + f(xs[|xs| - 1])
  }

  lemma {:induction false} SumOfConcat<T>(xs: seq<T>, ys: seq<T>, f: T -> real)
    ensures SumOf(xs + ys, f) == SumOf(xs, f) + SumOf(ys, f)
  {
    if ys == [] {
      assert xs + ys == xs;
    } else {
      assert (xs + ys)[..|xs + ys| - 1] == xs + ys[..|ys| - 1];
      SumOfConcat(xs, ys[..|ys| - 1], f);
    }
  }

  lemma {:induction false} SumOfScaled<T>(xs: seq<T>, f: T -> real, g: T -> real, c: real)
    requires forall i :: 0 <= i < |xs| ==> g(xs[i]) == c * f(xs[i])
    ensures SumOf(xs, g) == c * SumOf(xs, f)
  {
    if xs != [] {
      SumOfScaled(xs[..|xs| - 1], f, g, c);
    }
  }

  lemma {:induction false} SumOfZero<T>(xs: seq<T>, f: T -> real)
    requires forall i :: 0 <= i < |xs| ==> f(xs[i]) == 0.0
    ensures SumOf(xs, f) == 0.0
  {
    if xs != [] {
      SumOfZero(xs[..|xs| - 1], f);
    }
  }

  /** Sums of nonnegative terms bound each term. */
  lemma {:induction false} SumOfAtLeast<T>(xs: seq<T>, f: T -> real)
    requires forall i :: 0 <= i < |xs| ==> f(xs[i]) >= 0.0
    ensures SumOf(xs, f) >= 0.0
    ensures forall i :: 0 <= i < |xs| ==> f(xs[i]) <= SumOf(xs, f)
  {
    if xs != [] {
      SumOfAtLeast(xs[..|xs| - 1], f);
    }
  }

  /** Flooring each of n terms loses less than n in all, so at most n - 1 whole units. */
  lemma {:induction false} FlooredTerms<T>(xs: seq<T>, f: T -> real, g: T -> nat)
    requires forall i :: 0 <= i < |xs| ==> g(xs[i]) == f(xs[i]).Floor
    ensures SumBy(xs, g) as real <= SumOf(xs, f)
    ensures xs != [] ==> SumOf(xs, f) < (SumBy(xs, g) + |xs|) as real
    ensures SumBy(xs, g) <= SumOf(xs, f).Floor
    ensures xs != [] ==> SumOf(xs, f).Floor <= SumBy(xs, g) + |xs| - 1
  {
    if xs != [] {
      FlooredTerms(xs[..|xs| - 1], f, g);
    }
  }

  lemma AddQuotients(a: nat, b: nat, divisor: real)
    requires divisor > 0.0
    ensures (a + b) as real / divisor == a as real / divisor + b as real / divisor
  {
  }

  /** Dividing each term is dividing the sum. */
  lemma {:induction false} SumOfQuotients<S, T>(xs: seq<S>, ys: seq<T>, f: S -> real, g: T -> nat, divisor: real)
    requires divisor > 0.0 && |xs| == |ys|
    requires forall i :: 0 <= i < |xs| ==> f(xs[i]) == g(ys[i]) as real / divisor
    ensures SumOf(xs, f) == SumBy(ys, g) as real / divisor
  {
    if xs == [] {
      assert 0.0 / divisor == 0.0;
    } else {
      SumOfQuotients(xs[..|xs| - 1], ys[..|ys| - 1], f, g, divisor);
      AddQuotients(SumBy(ys[..|ys| - 1], g), g(ys[|ys| - 1]), divisor);
    }
  }
}
