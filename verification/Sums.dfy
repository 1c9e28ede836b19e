/** Totals over finite maps and over sequences. */
module Sums {

  ghost function Total<K>(m: map<K, int>): (t: int)
    ensures (forall k :: k in m ==> m[k] >= 0) ==> t >= 0
  {
    if m == map[] then 0 else
      var k :| k in m;
      m[k] + Total(m - {k})
  }

  lemma {:induction false} TotalSplit<K>(m: map<K, int>, k: K)
    requires k in m
    ensures Total(m) == m[k] + Total(m - {k})
    decreases |m|
  {
    var c :| c in m && Total(m) == m[c] + Total(m - {c});
    if c != k {
      TotalSplit(m - {c}, k);
      TotalSplit(m - {k}, c);
      assert m - {c} - {k} == m - {k} - {c};
    }
  }

  lemma TotalUpdate<K>(m: map<K, int>, k: K, v: int)
    ensures Total(m[k := v]) + (if k in m then m[k] else 0) == Total(m) + v
  {
    TotalSplit(m[k := v], k);
    assert m[k := v] - {k} == m - {k};
    if k in m {
      TotalSplit(m, k);
    } else {
      assert m - {k} == m;
    }
  }

  lemma TotalAtLeast<K>(m: map<K, int>, k: K)
    requires k in m
    requires forall i :: i in m ==> m[i] >= 0
    ensures m[k] <= Total(m)
  {
    TotalSplit(m, k);
  }

  lemma TotalAtLeastTwo<K>(m: map<K, int>, j: K, k: K)
    requires j in m && k in m && j != k
    requires forall i :: i in m ==> m[i] >= 0
    ensures m[j] + m[k] <= Total(m)
  {
    TotalSplit(m, j);
    TotalSplit(m - {j}, k);
  }

  // ------------------------------------------------------------ sequences

  function SumBy<T>(xs: seq<T>, f: T -> nat): nat {
    if xs == [] then 0 else SumBy(xs[..|xs| - 1], f) + f(xs[|xs| - 1])
  }

  lemma {:induction false} SumByConcat<T>(xs: seq<T>, ys: seq<T>, f: T -> nat)
    ensures SumBy(xs + ys, f) == SumBy(xs, f) + SumBy(ys, f)
  {
    if ys == [] {
      assert xs + ys == xs;
    } else {
      assert (xs + ys)[..|xs + ys| - 1] == xs + ys[..|ys| - 1];
      SumByConcat(xs, ys[..|ys| - 1], f);
    }
  }

  lemma SumByFirst<T>(xs: seq<T>, f: T -> nat)
    requires xs != []
    ensures SumBy(xs, f) == f(xs[0]) + SumBy(xs[1..], f)
  {
    hide SumBy;
    assert xs == [xs[0]] + xs[1..];
    SumByConcat([xs[0]], xs[1..], f);
    SumByOne(xs[0], f);
  }

  /** Sums of equal terms are equal. */
  lemma {:induction false} SumByMatched<S, T>(xs: seq<S>, ys: seq<T>, f: S -> nat, g: T -> nat)
    requires |xs| == |ys| && forall i :: 0 <= i < |xs| ==> f(xs[i]) == g(ys[i])
    ensures SumBy(xs, f) == SumBy(ys, g)
  {
    if xs != [] {
      SumByMatched(xs[..|xs| - 1], ys[..|ys| - 1], f, g);
    }
  }

  lemma TakeOut<T>(ys: seq<T>, i: nat, f: T -> nat)
    requires i < |ys|
    ensures multiset(ys[..i] + ys[i + 1..]) == multiset(ys) - multiset{ys[i]}
    ensures SumBy(ys, f) == SumBy(ys[..i] + ys[i + 1..], f) + f(ys[i])
  {
    hide SumBy;
    var before, x, after := ys[..i], [ys[i]], ys[i + 1..];
    assert ys == before + (x + after);
    SumByConcat(before, after, f);
    SumByConcat(before, x + after, f);
    SumByConcat(x, after, f);
    SumByOne(ys[i], f);
  }

  lemma SumByOne<T>(x: T, f: T -> nat)
    ensures SumBy([x], f) == f(x)
  {
    assert [x][..0] == [];
  }

  /** A sum does not depend on the order of its terms. */
  lemma {:induction false} SumByPermuted<T>(xs: seq<T>, ys: seq<T>, f: T -> nat)
    requires multiset(xs) == multiset(ys)
    ensures SumBy(xs, f) == SumBy(ys, f)
  {
    if xs == [] {
      assert |ys| == |multiset(ys)| == 0;
    } else {
      hide SumBy;
      var i := Find(ys, xs[0]);
      var rest := ys[..i] + ys[i + 1..];
      TakeOut(ys, i, f);
      SumByFirst(xs, f);
      assert multiset(xs[1..]) == multiset(rest) by {
        assert xs == [xs[0]] + xs[1..];
      }
      SumByPermuted(xs[1..], rest, f);
    }
  }

  lemma Find<T>(ys: seq<T>, x: T) returns (i: nat)
    requires x in multiset(ys)
    ensures i < |ys| && ys[i] == x
  {
    i :| 0 <= i < |ys| && ys[i] == x;
  }
}
