/** The HHG statistic of mgcpy/independence_tests/hhg.py over two distance
    matrices: for every ordered pair of distinct points (i, j), a 2 x 2
    contingency table counts the points k that are no farther from i than j
    is, in X and in Y; a chi-square-like score of each table is summed. */
module Hhg {
  import opened Common
  import opened Matrices

  /** `row <= radius`, elementwise: which points are no farther from the
      centre than the radius (numpy's `tmp1` and `tmp2`). (The ensures only
      unfold the definition; `MaskHoldsPair` states what a mask holds.) */
  function Mask(row: seq<real>, radius: real): (m: seq<bool>)
    ensures |m| == |row|
    ensures forall k :: 0 <= k < |row| ==> m[k] == (row[k] <= radius)
  {
    seq(|row|, k requires 0 <= k < |row| => row[k] <= radius)
  }

  /** The points whose membership in the two masks is (wantX, wantY):
      `tmp1 * tmp2` for (true, true), `tmp1 * (1 - tmp2)` for (true, false),
      and so on. (The ensures only unfold the definition;
      `CellsPartitionPoint` states that the cells partition the points.) */
  function Cells(mx: seq<bool>, my: seq<bool>, wantX: bool, wantY: bool): (c: seq<bool>)
    requires |mx| == |my|
    ensures |c| == |mx|
    ensures forall k :: 0 <= k < |mx| ==> c[k] == (mx[k] == wantX && my[k] == wantY)
  {
    seq(|mx|, k requires 0 <= k < |mx| => mx[k] == wantX && my[k] == wantY)
  }

  /** In a distance matrix, the mask of the points within D[i][j] of point
      i holds both i itself (at distance 0) and j (at the radius). */
  lemma MaskHoldsPair(D: Matrix, i: nat, j: nat)
    requires IsDistanceMatrix(D) && i < |D| && j < |D|
    ensures |Mask(D[i], D[i][j])| == |D|
    ensures Mask(D[i], D[i][j])[i] && Mask(D[i], D[i][j])[j]
  {
    assert D[i][i] == 0.0;
    assert D[i][j] == D[j][i] && D[i][j] >= 0.0;
  }

  /** Every point lands in exactly one of the four cells of two masks. */
  lemma CellsPartitionPoint(mx: seq<bool>, my: seq<bool>, k: nat)
    requires |mx| == |my| && k < |mx|
    ensures Cells(mx, my, mx[k], my[k])[k]
    ensures forall wantX, wantY :: Cells(mx, my, wantX, wantY)[k] ==> wantX == mx[k] && wantY == my[k]
  {
  }

  /** `np.sum` of a boolean vector: how many entries are set. */
  function Count(bs: seq<bool>): nat
  {
    if bs == [] then 0 else (if bs[0] then 1 else 0) + Count(bs[1..])
  }

  /** A 2 x 2 contingency table. `both` counts points closer in X and in Y
      (t11), `xOnly` closer in X only (t12), `yOnly` closer in Y only (t21)
      and `neither` closer in neither (t22). */
  datatype Table = Table(both: int, xOnly: int, yOnly: int, neither: int)

  /** The table with the roles of X and Y exchanged. */
  function Transpose(t: Table): Table
  {
    Table(t.both, t.yOnly, t.xOnly, t.neither)
  }

  /** The four counts of two masks, with 2 taken off `both` for the points
      i and j themselves. */
  function Tabulate(mx: seq<bool>, my: seq<bool>): Table
    requires |mx| == |my|
  {
    Table(Count(Cells(mx, my, true, true)) - 2, Count(Cells(mx, my, true, false)),
          Count(Cells(mx, my, false, true)), Count(Cells(mx, my, false, false)))
  }

  /** The table of the ordered pair (i, j): the masks of points within
      X[i][j] of point i in X and within Y[i][j] in Y. Every point lands in
      exactly one cell, so the cells add up to n - 2. */
  function ContingencyTable(X: Matrix, Y: Matrix, i: nat, j: nat): (t: Table)
    requires IsSquare(X) && IsSquare(Y) && |X| == |Y| && i < |X| && j < |X|
    ensures t.both + t.xOnly + t.yOnly + t.neither == |X| - 2
    ensures t.xOnly >= 0 && t.yOnly >= 0 && t.neither >= 0
  {
    var mx, my := Mask(X[i], X[i][j]), Mask(Y[i], Y[i][j]);
    CellsPartition(mx, my);
    Tabulate(mx, my)
  }

  /** `t12 * t21 - t11 * t22`. */
  function Discordance(t: Table): int
  {
    t.xOnly * t.yOnly - t.both * t.neither
  }

  /** The product of the four margins. */
  function Denominator(t: Table): int
  {
    (t.both + t.xOnly) * (t.yOnly + t.neither) * (t.both + t.yOnly) * (t.xOnly + t.neither)
  }

  /** The score `S[i, j]` of one table: `(n - 2) * d^2 / denom` when the
      product of the margins is positive, and 0 otherwise. For n >= 2 it is
      never negative. */
  function Score(n: nat, t: Table): (s: real)
    ensures Denominator(t) <= 0 ==> s == 0.0
    ensures n >= 2 ==> s >= 0.0
    ensures n > 2 && Denominator(t) > 0 && Discordance(t) != 0 ==> s > 0.0
  {
    if Denominator(t) > 0 then Ratio(n, Discordance(t), Denominator(t)) else 0.0
  }

  /** `(n - 2) * d^2 / denom` over a positive denominator. */
  function Ratio(n: nat, d: int, denom: int): (s: real)
    requires denom > 0
    ensures n >= 2 ==> s >= 0.0
    ensures n > 2 && d != 0 ==> s > 0.0
  {
    var m, x := (n - 2) as real, d as real;
    ProductSign(m, x);
    QuotientSign(m * x * x, denom as real);
    m * x * x / (denom as real)
  }

  lemma ProductSign(m: real, x: real)
    ensures m >= 0.0 ==> m * x * x >= 0.0
    ensures m > 0.0 && x != 0.0 ==> m * x * x > 0.0
  {
    assert x * x >= 0.0;
    assert x != 0.0 ==> x * x > 0.0;
    assert m * x * x == m * (x * x);
  }

  lemma QuotientSign(a: real, b: real)
    requires b > 0.0
    ensures a >= 0.0 ==> a / b >= 0.0
    ensures a > 0.0 ==> a / b > 0.0
  {
    var q := a / b;
    assert q * b == a;
  }

  /** The score matrix S: zero on the diagonal, which the loops never
      write, and the score of the pair's table elsewhere. */
  function ScoreMatrix(X: Matrix, Y: Matrix): (S: Matrix)
    requires IsSquare(X) && IsSquare(Y) && |X| == |Y|
    ensures IsSquare(S) && |S| == |X|
    ensures forall i :: 0 <= i < |S| ==> S[i][i] == 0.0
    ensures forall i, j :: 0 <= i < |S| && 0 <= j < |S| ==> S[i][j] >= 0.0
  {
    var n := |X|;
    seq(n, i requires 0 <= i < n =>
      seq(n, j requires 0 <= j < n =>
        if i == j then 0.0 else Score(n, ContingencyTable(X, Y, i, j))))
  }

  /** The HHG statistic: the sum of all entries of S. */
  function Statistic(X: Matrix, Y: Matrix): real
    requires IsSquare(X) && IsSquare(Y) && |X| == |Y|
  {
    SumAll(ScoreMatrix(X, Y))
  }

  // ---------------------------------------------------------------------
  // Properties of the tables

  /** The four cells partition the points: their counts add up to n. */
  lemma {:induction false} CellsPartition(mx: seq<bool>, my: seq<bool>)
    requires |mx| == |my|
    ensures Count(Cells(mx, my, true, true)) + Count(Cells(mx, my, true, false))
            + Count(Cells(mx, my, false, true)) + Count(Cells(mx, my, false, false)) == |mx|
  {
    if mx != [] {
      CellsPartition(mx[1..], my[1..]);
      CellsTail(mx, my, true, true);
      CellsTail(mx, my, true, false);
      CellsTail(mx, my, false, true);
      CellsTail(mx, my, false, false);
      // the first point adds one to exactly one of the four counts
      CellsPartitionPoint(mx, my, 0);
    }
  }

  lemma CellsTail(mx: seq<bool>, my: seq<bool>, wantX: bool, wantY: bool)
    requires |mx| == |my| && mx != []
    ensures Cells(mx, my, wantX, wantY)[1..] == Cells(mx[1..], my[1..], wantX, wantY)
  {
  }

  /** Two distinct set positions are both counted. */
  lemma {:induction false} CountAtLeastTwo(bs: seq<bool>, a: nat, b: nat)
    requires a < b < |bs| && bs[a] && bs[b]
    ensures Count(bs) >= 2
  {
    if a == 0 {
      CountAtLeastOne(bs[1..], b - 1);
    } else {
      CountAtLeastTwo(bs[1..], a - 1, b - 1);
    }
  }

  lemma {:induction false} CountAtLeastOne(bs: seq<bool>, a: nat)
    requires a < |bs| && bs[a]
    ensures Count(bs) >= 1
  {
    if a > 0 {
      CountAtLeastOne(bs[1..], a - 1);
    }
  }

  /** 1.0 for a set entry, 0.0 otherwise. (The ensures only unfold the
      definition.) */
  function Indicators(bs: seq<bool>): (r: seq<real>)
    ensures |r| == |bs|
    ensures forall k :: 0 <= k < |bs| ==> r[k] == if bs[k] then 1.0 else 0.0
  {
    seq(|bs|, k requires 0 <= k < |bs| => if bs[k] then 1.0 else 0.0)
  }

  /** Counting is summing the indicators. */
  lemma {:induction false} CountIsSum(bs: seq<bool>)
    ensures Count(bs) as real == Sum(Indicators(bs))
  {
    if bs != [] {
      CountIsSum(bs[1..]);
      assert Indicators(bs)[1..] == Indicators(bs[1..]);
    }
  }

  /** The count does not depend on the order of the entries. */
  lemma CountPermuted(bs: seq<bool>, p: seq<int>)
    requires IsPermutation(p, |bs|)
    ensures InRange(p, |bs|)
    ensures Count(Reindex(bs, p)) == Count(bs)
  {
    PermutationFacts(p, |bs|);
    var moved := Reindex(bs, p);
    var ind := Indicators(bs);
    assert Indicators(moved) == Reindex(ind, p);
    SumPermuted(ind, p);
    CountIsSum(bs);
    CountIsSum(moved);
    assert Count(moved) as real == Count(bs) as real;
  }

  /** For distance matrices and i != j, both i (at distance 0) and j (at
      the radius itself) lie within both radii, so subtracting 2 leaves
      t11 non-negative: every cell of the table is a count. */
  lemma BothCellNonNegative(X: Matrix, Y: Matrix, i: nat, j: nat)
    requires IsDistanceMatrix(X) && IsDistanceMatrix(Y) && |X| == |Y|
    requires i < |X| && j < |X| && i != j
    ensures ContingencyTable(X, Y, i, j).both >= 0
  {
    var mx, my := Mask(X[i], X[i][j]), Mask(Y[i], Y[i][j]);
    MaskHoldsPair(X, i, j);
    MaskHoldsPair(Y, i, j);
    var both := Cells(mx, my, true, true);
    assert both[i] && both[j];
    if i < j {
      CountAtLeastTwo(both, i, j);
    } else {
      CountAtLeastTwo(both, j, i);
    }
  }

  // ---------------------------------------------------------------------
  // Properties of the statistic

  /** The statistic is a sum of non-negative scores. */
  lemma StatisticNonNegative(X: Matrix, Y: Matrix)
    requires IsSquare(X) && IsSquare(Y) && |X| == |Y|
    ensures Statistic(X, Y) >= 0.0
  {
    var S := ScoreMatrix(X, Y);
    forall i | 0 <= i < |S| ensures RowSums(S)[i] >= 0.0 {
      SumNonNegative(S[i]);
    }
    SumNonNegative(RowSums(S));
  }

  /** Exchanging the roles of X and Y swaps t12 and t21, which leaves the
      score unchanged. */
  lemma ScoreTranspose(n: nat, t: Table)
    ensures Score(n, Transpose(t)) == Score(n, t)
  {
    var u := Transpose(t);
    assert Discordance(u) == Discordance(t);
    ProductRotate(t.both + t.xOnly, t.yOnly + t.neither, t.both + t.yOnly, t.xOnly + t.neither);
  }

  lemma ProductRotate(a: int, b: int, c: int, d: int)
    ensures a * b * c * d == c * d * a * b
  {
  }

  /** HHG is symmetric: `HHG(X, Y) == HHG(Y, X)`, entry by entry of S. */
  lemma StatisticSymmetric(X: Matrix, Y: Matrix)
    requires IsSquare(X) && IsSquare(Y) && |X| == |Y|
    ensures ScoreMatrix(Y, X) == ScoreMatrix(X, Y)
    ensures Statistic(Y, X) == Statistic(X, Y)
  {
    var n := |X|;
    var A, B := ScoreMatrix(X, Y), ScoreMatrix(Y, X);
    forall i | 0 <= i < n ensures B[i] == A[i] {
      forall j | 0 <= j < n ensures B[i][j] == A[i][j] {
        if i != j {
          var mx, my := Mask(X[i], X[i][j]), Mask(Y[i], Y[i][j]);
          assert Cells(my, mx, true, true) == Cells(mx, my, true, true);
          assert Cells(my, mx, true, false) == Cells(mx, my, false, true);
          assert Cells(my, mx, false, true) == Cells(mx, my, true, false);
          assert Cells(my, mx, false, false) == Cells(mx, my, false, false);
          assert ContingencyTable(Y, X, i, j) == Transpose(ContingencyTable(X, Y, i, j));
          ScoreTranspose(n, ContingencyTable(X, Y, i, j));
        }
      }
    }
  }

  /** Relabelling the points by a permutation p (the same on rows and
      columns of both matrices) gives pair (a, b) the table that the pair
      (p[a], p[b]) had. */
  lemma ContingencyTablePermuted(X: Matrix, Y: Matrix, p: seq<int>, a: nat, b: nat)
    requires IsSquare(X) && IsSquare(Y) && |X| == |Y| && IsPermutation(p, |X|)
    requires a < |X| && b < |X|
    ensures InRange(p, |X|) && IsSquare(Permute(X, p)) && IsSquare(Permute(Y, p))
    ensures |Permute(X, p)| == |Permute(Y, p)| == |X|
    ensures ContingencyTable(Permute(X, p), Permute(Y, p), a, b) == ContingencyTable(X, Y, p[a], p[b])
  {
    var n := |X|;
    PermutationFacts(p, n);
    PermuteShape(X, p);
    PermuteShape(Y, p);
    var PX, PY := Permute(X, p), Permute(Y, p);
    var i, j := p[a], p[b];
    assert PX[a] == Reindex(X[i], p) && PY[a] == Reindex(Y[i], p);
    assert PX[a][b] == X[i][j] && PY[a][b] == Y[i][j];
    var mx, my := Mask(X[i], X[i][j]), Mask(Y[i], Y[i][j]);
    assert Mask(PX[a], PX[a][b]) == Reindex(mx, p);
    assert Mask(PY[a], PY[a][b]) == Reindex(my, p);
    TabulatePermuted(mx, my, p);
  }

  /** Permuting both masks the same way leaves every cell count unchanged. */
  lemma TabulatePermuted(mx: seq<bool>, my: seq<bool>, p: seq<int>)
    requires |mx| == |my| && IsPermutation(p, |mx|)
    ensures InRange(p, |mx|) && InRange(p, |my|)
    ensures Tabulate(Reindex(mx, p), Reindex(my, p)) == Tabulate(mx, my)
  {
    PermutationFacts(p, |mx|);
    var px, py := Reindex(mx, p), Reindex(my, p);
    assert Cells(px, py, true, true) == Reindex(Cells(mx, my, true, true), p);
    assert Cells(px, py, true, false) == Reindex(Cells(mx, my, true, false), p);
    assert Cells(px, py, false, true) == Reindex(Cells(mx, my, false, true), p);
    assert Cells(px, py, false, false) == Reindex(Cells(mx, my, false, false), p);
    CountPermuted(Cells(mx, my, true, true), p);
    CountPermuted(Cells(mx, my, true, false), p);
    CountPermuted(Cells(mx, my, false, true), p);
    CountPermuted(Cells(mx, my, false, false), p);
  }

  /** Relabelling permutes S the same way. */
  lemma ScoreMatrixPermuted(X: Matrix, Y: Matrix, p: seq<int>)
    requires IsSquare(X) && IsSquare(Y) && |X| == |Y| && IsPermutation(p, |X|)
    ensures InRange(p, |X|) && IsSquare(Permute(X, p)) && IsSquare(Permute(Y, p))
    ensures |Permute(X, p)| == |Permute(Y, p)| == |X|
    ensures IsSquare(ScoreMatrix(X, Y)) && InRange(p, |ScoreMatrix(X, Y)|)
    ensures ScoreMatrix(Permute(X, p), Permute(Y, p)) == Permute(ScoreMatrix(X, Y), p)
  {
    var n := |X|;
    PermutationFacts(p, n);
    PermuteShape(X, p);
    PermuteShape(Y, p);
    var S := ScoreMatrix(X, Y);
    PermuteShape(S, p);
    var A, B := ScoreMatrix(Permute(X, p), Permute(Y, p)), Permute(S, p);
    forall a | 0 <= a < n ensures A[a] == B[a] {
      forall b | 0 <= b < n ensures A[a][b] == B[a][b] {
        assert B[a][b] == S[p[a]][p[b]];
        assert a == b <==> p[a] == p[b];
        if a != b {
          ContingencyTablePermuted(X, Y, p, a, b);
        }
      }
    }
  }

  /** HHG does not depend on how the points are labelled. */
  lemma StatisticPermutationInvariant(X: Matrix, Y: Matrix, p: seq<int>)
    requires IsSquare(X) && IsSquare(Y) && |X| == |Y| && IsPermutation(p, |X|)
    ensures InRange(p, |X|) && IsSquare(Permute(X, p)) && IsSquare(Permute(Y, p))
    ensures |Permute(X, p)| == |Permute(Y, p)| == |X|
    ensures Statistic(Permute(X, p), Permute(Y, p)) == Statistic(X, Y)
  {
    ScoreMatrixPermuted(X, Y, p);
    SumAllPermuted(ScoreMatrix(X, Y), p);
  }

  // ---------------------------------------------------------------------
  // The computation

  /** `HHG.test_statistic`: fill S row by row in place, then sum it. */
  method TestStatistic(X: Matrix, Y: Matrix) returns (corr: real)
    requires IsSquare(X) && IsSquare(Y) && |X| == |Y|
    ensures corr == Statistic(X, Y)
  {
    var n := |X|;
    ghost var M := ScoreMatrix(X, Y);
    var S := new real[n, n]((_, _) => 0.0);
    for i := 0 to n
      invariant forall a, b :: 0 <= a < i && 0 <= b < n ==> S[a, b] == M[a][b]
      invariant forall a, b :: i <= a < n && 0 <= b < n ==> S[a, b] == 0.0
    {
      FillRow(X, Y, S, i, M);
    }
    corr := SumEntries(S, M);
  }

  /** The inner loop over j: write the score of every pair (i, j), j != i,
      whose table has a positive denominator, into a zeroed row i of S. */
  method FillRow(X: Matrix, Y: Matrix, S: array2<real>, i: nat, ghost M: Matrix)
    requires IsSquare(X) && IsSquare(Y) && |X| == |Y| && M == ScoreMatrix(X, Y)
    requires S.Length0 == S.Length1 == |X| && i < |X|
    requires forall b :: 0 <= b < |X| ==> S[i, b] == 0.0
    modifies S
    ensures forall b :: 0 <= b < |X| ==> S[i, b] == M[i][b]
    ensures forall a, b :: 0 <= a < |X| && a != i && 0 <= b < |X| ==> S[a, b] == old(S[a, b])
  {
    var n := |X|;
    for j := 0 to n
      invariant forall b :: 0 <= b < j ==> S[i, b] == M[i][b]
      invariant forall b :: j <= b < n ==> S[i, b] == 0.0
      invariant forall a, b :: 0 <= a < n && a != i && 0 <= b < n ==> S[a, b] == old(S[a, b])
    {
      if i != j {
        var t := ContingencyTable(X, Y, i, j);
        var d := Discordance(t);
        var denom := Denominator(t);
        if denom > 0 {
          S[i, j] := Ratio(n, d, denom);
        }
      }
    }
  }

  /** `np.sum` of a square array, row by row; it equals the sum of all
      entries of the matrix the array holds. */
  method SumEntries(S: array2<real>, ghost M: Matrix) returns (total: real)
    requires S.Length0 == S.Length1 == |M| && IsSquare(M)
    requires forall a, b :: 0 <= a < |M| && 0 <= b < |M| ==> S[a, b] == M[a][b]
    ensures total == SumAll(M)
  {
    var n := S.Length0;
    total := 0.0;
    for i := 0 to n
      invariant total == Sum(RowSums(M)[..i])
    {
      var rowTotal := 0.0;
      for j := 0 to n
        invariant rowTotal == Sum(M[i][..j])
      {
        SumSnoc(M[i], j);
        rowTotal := rowTotal + S[i, j];
      }
      assert M[i][..n] == M[i];
      SumSnoc(RowSums(M), i);
      total := total + rowTotal;
    }
    assert RowSums(M)[..n] == RowSums(M);
  }
}
