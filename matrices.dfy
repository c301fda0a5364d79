/** Distance matrices and the index operations the tests perform on them:
    contiguous windows (numpy `m[lo:hi, lo:hi]`), reindexing both axes by one
    index vector (numpy `m[np.ix_(p, p)]`), and relabelling by a permutation. */
module Matrices {
  import opened Common

  type Matrix = seq<seq<real>>

  /** Every row has as many entries as there are rows. */
  ghost predicate IsSquare(m: Matrix)
  {
    forall i :: 0 <= i < |m| ==> |m[i]| == |m|
  }

  /** Square, symmetric, non-negative, with a zero diagonal. */
  ghost predicate IsDistanceMatrix(m: Matrix)
  {
    && IsSquare(m)
    && (forall i :: 0 <= i < |m| ==> m[i][i] == 0.0)
    && (forall i, j :: 0 <= i < |m| && 0 <= j < |m| ==> m[i][j] == m[j][i] && m[i][j] >= 0.0)
  }

  /** Rows and columns `[lo, hi)` of `m`. */
  function Window(m: Matrix, lo: nat, hi: nat): Matrix
    requires IsSquare(m) && lo <= hi <= |m|
  {
    seq(hi - lo, a requires 0 <= a < hi - lo => m[lo + a][lo..hi])
  }

  /** A window is a square block of side `hi - lo` whose entry (a, b) is the
      entry (lo + a, lo + b) of the whole matrix. */
  lemma WindowShape(m: Matrix, lo: nat, hi: nat)
    requires IsSquare(m) && lo <= hi <= |m|
    ensures IsSquare(Window(m, lo, hi)) && |Window(m, lo, hi)| == hi - lo
    ensures forall a, b :: 0 <= a < hi - lo && 0 <= b < hi - lo ==>
              Window(m, lo, hi)[a][b] == m[lo + a][lo + b]
  {
  }

  /** A window of a distance matrix is a distance matrix. */
  lemma WindowKeepsDistance(m: Matrix, lo: nat, hi: nat)
    requires IsDistanceMatrix(m) && lo <= hi <= |m|
    ensures IsDistanceMatrix(Window(m, lo, hi))
  {
    var w := Window(m, lo, hi);
    WindowShape(m, lo, hi);
    forall a, b | 0 <= a < |w| && 0 <= b < |w|
      ensures w[a][b] == w[b][a] && w[a][b] >= 0.0
    {
      assert w[a][b] == m[lo + a][lo + b];
      assert w[b][a] == m[lo + b][lo + a];
    }
  }

  /** Every index of `ks` addresses an element of a sequence of length `n`. */
  ghost predicate InRange(ks: seq<int>, n: nat)
  {
    forall a :: 0 <= a < |ks| ==> 0 <= ks[a] < n
  }

  /** `s[ks]` in numpy's fancy-indexing sense. (The ensures only unfold the
      definition, for callers that do not unfold it themselves.) */
  function Reindex<T>(s: seq<T>, ks: seq<int>): (r: seq<T>)
    requires InRange(ks, |s|)
    ensures |r| == |ks|
    ensures forall a :: 0 <= a < |ks| ==> r[a] == s[ks[a]]
  {
    seq(|ks|, a requires 0 <= a < |ks| => s[ks[a]])
  }

  /** `m[np.ix_(p, p)]`: the same index vector applied to rows and columns. */
  function Permute(m: Matrix, p: seq<int>): Matrix
    requires IsSquare(m) && InRange(p, |m|)
  {
    seq(|p|, a requires 0 <= a < |p| => Reindex(m[p[a]], p))
  }

  /** Entry (a, b) of the reindexed matrix is entry (p[a], p[b]) of the
      original, and the result is square of side |p|. */
  lemma PermuteShape(m: Matrix, p: seq<int>)
    requires IsSquare(m) && InRange(p, |m|)
    ensures IsSquare(Permute(m, p)) && |Permute(m, p)| == |p|
    ensures forall a, b :: 0 <= a < |p| && 0 <= b < |p| ==>
              Permute(m, p)[a][b] == m[p[a]][p[b]]
  {
  }

  /** Reindexing both axes by one index vector (even one with repeats, as a
      bootstrap draw has) keeps a distance matrix a distance matrix. */
  lemma PermuteKeepsDistance(m: Matrix, p: seq<int>)
    requires IsDistanceMatrix(m) && InRange(p, |m|)
    ensures IsDistanceMatrix(Permute(m, p))
  {
    var q := Permute(m, p);
    PermuteShape(m, p);
    forall a | 0 <= a < |q| ensures q[a][a] == 0.0 {
      assert q[a][a] == m[p[a]][p[a]];
    }
    forall a, b | 0 <= a < |q| && 0 <= b < |q|
      ensures q[a][b] == q[b][a] && q[a][b] >= 0.0
    {
      assert q[a][b] == m[p[a]][p[b]];
      assert q[b][a] == m[p[b]][p[a]];
    }
  }

  /** `np.arange(n)`. (The ensures only unfold the definition.) */
  function Iota(n: nat): (r: seq<int>)
    ensures |r| == n && InRange(r, n)
    ensures forall a :: 0 <= a < n ==> r[a] == a
  {
    seq(n, a => a)
  }

  /** `p` lists every index of `[0, n)` exactly once. */
  ghost predicate IsPermutation(p: seq<int>, n: nat)
  {
    multiset(p) == multiset(Iota(n))
  }

  lemma {:induction false} IotaMultiplicity(n: nat, x: int)
    ensures multiset(Iota(n))[x] == (if 0 <= x < n then 1 else 0)
  {
    if n > 0 {
      IotaMultiplicity(n - 1, x);
      assert Iota(n) == Iota(n - 1) + [n - 1];
    }
  }

  /** A permutation of `[0, n)` has length n, stays in range and has no
      repeated index. */
  lemma PermutationFacts(p: seq<int>, n: nat)
    requires IsPermutation(p, n)
    ensures |p| == n && InRange(p, n)
    ensures forall a, b :: 0 <= a < b < |p| ==> p[a] != p[b]
  {
    assert |p| == |multiset(p)| == |multiset(Iota(n))| == n;
    forall a | 0 <= a < |p| ensures 0 <= p[a] < n {
      assert p[a] in multiset(p);
      IotaMultiplicity(n, p[a]);
    }
    forall a, b | 0 <= a < b < |p| ensures p[a] != p[b] {
      if p[a] == p[b] {
        var x := p[a];
        assert p == p[..b] + [p[b]] + p[b + 1..];
        assert x in p[..b];
        assert multiset(p)[x] >= 2;
        IotaMultiplicity(n, x);
        assert false;
      }
    }
  }

  /** `Iota(n)` itself is a permutation, and indexing by it changes nothing. */
  lemma IotaReindex<T>(s: seq<T>)
    ensures Reindex(s, Iota(|s|)) == s
  {
  }

  /** An index at which `x` occurs in `s`. */
  function IndexOf(s: seq<int>, x: int): (i: nat)
    requires x in s
    ensures i < |s| && s[i] == x
  {
    if s[0] == x then 0 else 1 + IndexOf(s[1..], x)
  }

  /** Removing the element at position i removes one copy of it from the
      multiset. */
  lemma MultisetRemove(s: seq<int>, i: nat)
    requires i < |s|
    ensures multiset(s[..i] + s[i + 1..]) == multiset(s) - multiset{s[i]}
  {
    assert s == s[..i] + [s[i]] + s[i + 1..];
  }

  /** Summing the elements picked out by an index list: splitting off one
      position. */
  lemma SumReindexRemove(s: seq<real>, ks: seq<int>, i: nat)
    requires InRange(ks, |s|) && i < |ks|
    ensures InRange(ks[..i] + ks[i + 1..], |s|)
    ensures Sum(Reindex(s, ks)) == s[ks[i]] + Sum(Reindex(s, ks[..i] + ks[i + 1..]))
  {
    var front, back := ks[..i], ks[i + 1..];
    assert Reindex(s, ks) == Reindex(s, front) + [s[ks[i]]] + Reindex(s, back);
    assert Reindex(s, front + back) == Reindex(s, front) + Reindex(s, back);
    SumAppend(Reindex(s, front) + [s[ks[i]]], Reindex(s, back));
    SumAppend(Reindex(s, front), [s[ks[i]]]);
    SumAppend(Reindex(s, front), Reindex(s, back));
  }

  /** Summing the elements picked out by an index list: splitting off the
      first position. */
  lemma SumReindexCons(s: seq<real>, ks: seq<int>)
    requires InRange(ks, |s|) && ks != []
    ensures InRange(ks[1..], |s|)
    ensures Sum(Reindex(s, ks)) == s[ks[0]] + Sum(Reindex(s, ks[1..]))
  {
    assert Reindex(s, ks)[1..] == Reindex(s, ks[1..]);
  }

  /** The sum of the picked elements depends only on the multiset of indices,
      not on their order. */
  lemma {:induction false} SumReindexInvariant(s: seq<real>, ks: seq<int>, ks': seq<int>)
    requires InRange(ks, |s|) && InRange(ks', |s|)
    requires multiset(ks) == multiset(ks')
    ensures Sum(Reindex(s, ks)) == Sum(Reindex(s, ks'))
    decreases |ks|
  {
    assert |ks| == |multiset(ks)| == |multiset(ks')| == |ks'|;
    if ks != [] {
      var x := ks[0];
      assert x in multiset(ks');
      var i := IndexOf(ks', x);
      var rest, rest' := ks[1..], ks'[..i] + ks'[i + 1..];
      assert multiset(rest) == multiset(rest') by {
        assert ks == [x] + rest;
        MultisetRemove(ks', i);
      }
      SumReindexCons(s, ks);
      SumReindexRemove(s, ks', i);
      SumReindexInvariant(s, rest, rest');
    }
  }

  /** Relabelling the elements of a vector by a permutation keeps its sum. */
  lemma SumPermuted(s: seq<real>, p: seq<int>)
    requires IsPermutation(p, |s|)
    ensures InRange(p, |s|)
    ensures Sum(Reindex(s, p)) == Sum(s)
  {
    PermutationFacts(p, |s|);
    SumReindexInvariant(s, p, Iota(|s|));
    IotaReindex(s);
  }

  /** The vector of row sums of a matrix. */
  function RowSums(m: Matrix): (r: seq<real>)
    ensures |r| == |m|
  {
    seq(|m|, i requires 0 <= i < |m| => Sum(m[i]))
  }

  /** `np.sum` of a matrix: the sum of all its entries. */
  function SumAll(m: Matrix): real
  {
    Sum(RowSums(m))
  }

  /** Relabelling the points of a square matrix (the same permutation on
      rows and columns) keeps the sum of all entries. */
  lemma SumAllPermuted(m: Matrix, p: seq<int>)
    requires IsSquare(m) && IsPermutation(p, |m|)
    ensures InRange(p, |m|)
    ensures SumAll(Permute(m, p)) == SumAll(m)
  {
    PermutationFacts(p, |m|);
    var q := Permute(m, p);
    forall a | 0 <= a < |p| ensures RowSums(q)[a] == RowSums(m)[p[a]] {
      SumPermuted(m[p[a]], p);
    }
    assert RowSums(q) == Reindex(RowSums(m), p);
    SumPermuted(RowSums(m), p);
  }
}
