/** The MGC time-series test of mgcpy/independence_tests/mgs_ts.py: a lag
    statistic that looks at both lag directions with a quadratic weight, and
    a block-permutation p-value counting null statistics at least the
    observed one. The base statistic is passed in; inputs are distance
    matrices; the permutations of block starts are passed in. */
module MgcTs {
  import opened Common
  import opened Matrices
  import opened Blocks

  // ---------------------------------------------------------------------
  // The statistic

  /** The largest lag M: the configured `max_lag`, or `ceil(sqrt(n))`. */
  function Lags(n: nat, maxLag: Option<nat>): (m: nat)
    ensures maxLag.Some? ==> m == maxLag.value
    ensures maxLag.None? ==> n <= m * m && (m == 0 || (m - 1) * (m - 1) < n)
  {
    match maxLag
    case Some(m) => m
    case None => CeilSqrt(n)
  }

  /** The lag as a share of `p * (M + 1)`, where p is `sqrt(n)`. */
  function Share(j: nat, p: real, m: nat): real
    requires p > 0.0
  {
    (j as real) / (p * ((m + 1) as real))
  }

  /** The lag weight `(1 - j / (p * (M + 1)))^2`. */
  function Weight(j: nat, p: real, m: nat): (w: real)
    requires p > 0.0
    ensures w >= 0.0
  {
    var u := 1.0 - Share(j, p, m);
    u * u
  }

  /** One lag term: a weight times a base statistic times the window length. */
  function Term(w: real, s: real, len: nat): real
  {
    w * s * (len as real)
  }

  /** The weighted base statistic of X leading Y by j:
      `w_j * base(X[j:n, j:n], Y[0:n-j, 0:n-j]) * (n - j)`. */
  function Forward(X: Matrix, Y: Matrix, j: nat, p: real, m: nat, base: BaseTest): real
    requires IsSquare(X) && IsSquare(Y) && |X| == |Y| && j <= |X| && p > 0.0
  {
    var n := |X|;
    Term(Weight(j, p, m), base(Window(X, j, n), Window(Y, 0, n - j)).statistic, n - j)
  }

  /** The weighted base statistic of Y leading X by j:
      `w_j * base(X[0:n-j, 0:n-j], Y[j:n, j:n]) * (n - j)`. */
  function Backward(X: Matrix, Y: Matrix, j: nat, p: real, m: nat, base: BaseTest): real
    requires IsSquare(X) && IsSquare(Y) && |X| == |Y| && j <= |X| && p > 0.0
  {
    var n := |X|;
    Term(Weight(j, p, m), base(Window(X, 0, n - j), Window(Y, j, n)).statistic, n - j)
  }

  /** The contributions of lags 1..k in both directions. */
  function LagSum(X: Matrix, Y: Matrix, k: nat, p: real, m: nat, base: BaseTest): real
    requires IsSquare(X) && IsSquare(Y) && |X| == |Y| && k <= |X| && p > 0.0
  {
    if k == 0 then 0.0
    else LagSum(X, Y, k - 1, p, m, base) + Forward(X, Y, k, p, m, base) + Backward(X, Y, k, p, m, base)
  }

  /** The lag-0 term: n times the base statistic of the whole matrices. */
  function LagZero(X: Matrix, Y: Matrix, base: BaseTest): real
  {
    (|X| as real) * base(X, Y).statistic
  }

  /** The MGC_TS statistic: n times the base statistic at lag 0, plus the
      weighted, length-scaled base statistics of lags 1..M in both
      directions. */
  function Statistic(X: Matrix, Y: Matrix, m: nat, p: real, base: BaseTest): real
    requires IsSquare(X) && IsSquare(Y) && |X| == |Y| && m <= |X| && p > 0.0
  {
    LagZero(X, Y, base) + LagSum(X, Y, m, p, m, base)
  }

  /** What `test_statistic` returns besides the statistic: the distance
      matrices it worked on. */
  datatype Metadata = Metadata(distX: Matrix, distY: Matrix)

  datatype StatisticOutput = StatisticOutput(statistic: real, metadata: Metadata)

  /** The terms added at lag j are exactly the forward and the backward
      contributions. */
  lemma LagTermsAt(X: Matrix, Y: Matrix, n: nat, j: nat, p: real, m: nat, base: BaseTest, w: real,
                   forward: real, backward: real)
    requires IsSquare(X) && IsSquare(Y) && |X| == |Y| == n && 1 <= j <= n && p > 0.0
    requires w == Weight(j, p, m)
    requires forward == Term(w, base(Window(X, j, n), Window(Y, 0, n - j)).statistic, n - j)
    requires backward == Term(w, base(Window(X, 0, n - j), Window(Y, j, n)).statistic, n - j)
    ensures LagSum(X, Y, j, p, m, base) == LagSum(X, Y, j - 1, p, m, base) + forward + backward
  {
  }

  /** `MGC_TS.test_statistic`: reject different sample counts, then
      accumulate the lag-0 term and, lag by lag, the forward and the
      backward term. `p` is `sqrt(n)`. */
  method TestStatistic(X: Matrix, Y: Matrix, maxLag: Option<nat>, p: real, base: BaseTest)
    returns (r: Result<StatisticOutput, InputError>)
    requires IsSquare(X) && IsSquare(Y)
    requires Lags(|X|, maxLag) < |X|
    requires p > 0.0 && p * p == |X| as real
    ensures |X| != |Y| <==> r == Err(ShapeMismatch)
    ensures r.Err? ==> r.error == ShapeMismatch
    ensures r.Ok? ==>
              && |X| == |Y|
              && r.value.statistic == Statistic(X, Y, Lags(|X|, maxLag), p, base)
              && r.value.metadata == Metadata(X, Y)
  {
    if |X| != |Y| {
      return Err(ShapeMismatch);
    }
    var n := |X|;
    var m := Lags(n, maxLag);
    var start := LagZero(X, Y, base);
    var statistic := start;
    for j := 1 to m + 1
      invariant statistic == start + LagSum(X, Y, j - 1, p, m, base)
    {
      var w := Weight(j, p, m);
      var forward := Term(w, base(Window(X, j, n), Window(Y, 0, n - j)).statistic, n - j);
      statistic := statistic + forward;
      var backward := Term(w, base(Window(X, 0, n - j), Window(Y, j, n)).statistic, n - j);
      statistic := statistic + backward;
      LagTermsAt(X, Y, n, j, p, m, base, w, forward, backward);
    }
    assert statistic == start + LagSum(X, Y, m, p, m, base);
    r := Ok(StatisticOutput(statistic, Metadata(X, Y)));
  }

  // ---------------------------------------------------------------------
  // Properties of the statistic

  /** With no lags the statistic is n times the base statistic. */
  lemma NoLagStatistic(X: Matrix, Y: Matrix, p: real, base: BaseTest)
    requires IsSquare(X) && IsSquare(Y) && |X| == |Y| && p > 0.0
    ensures Statistic(X, Y, 0, p, base) == (|X| as real) * base(X, Y).statistic
  {
  }

  /** Both lag directions compare square windows of the same side n - j. */
  lemma LagWindowsSquare(X: Matrix, Y: Matrix, j: nat)
    requires IsSquare(X) && IsSquare(Y) && |X| == |Y| && j <= |X|
    ensures IsSquare(Window(X, j, |X|)) && |Window(X, j, |X|)| == |X| - j
    ensures IsSquare(Window(Y, 0, |X| - j)) && |Window(Y, 0, |X| - j)| == |X| - j
    ensures IsSquare(Window(X, 0, |X| - j)) && |Window(X, 0, |X| - j)| == |X| - j
    ensures IsSquare(Window(Y, j, |X|)) && |Window(Y, j, |X|)| == |X| - j
  {
    WindowShape(X, j, |X|);
    WindowShape(Y, 0, |X| - j);
    WindowShape(X, 0, |X| - j);
    WindowShape(Y, j, |X|);
  }

  lemma QuotientPositive(a: real, b: real)
    requires a > 0.0 && b > 0.0
    ensures a / b > 0.0
  {
    var q := a / b;
    assert q * b == a;
  }

  lemma FractionIncreasing(a: real, b: real, d: real)
    requires a < b && d > 0.0
    ensures a / d < b / d
  {
    QuotientPositive(b - a, d);
    assert (b - a) / d == b / d - a / d;
  }

  lemma PositiveProduct(x: real, y: real)
    requires x > 0.0 && y > 0.0
    ensures x * y > 0.0
  {
  }

  /** Squaring keeps the order of non-negative numbers. */
  lemma SquareIncreasing(v: real, u: real)
    ensures 0.0 <= v < u ==> v * v < u * u
  {
    assert u * u - v * v == (u - v) * (u + v);
    if 0.0 <= v < u {
      PositiveProduct(u - v, u + v);
    }
  }

  /** With `p = sqrt(n)` and n >= 1, p is at least 1. */
  lemma RootAtLeastOne(p: real, n: nat)
    requires p > 0.0 && p * p == n as real && n >= 1
    ensures p >= 1.0
  {
    SquareIncreasing(p, 1.0);
  }

  /** For lags 1..M and p >= 1 the share lies strictly between 0 and 1 and
      grows with the lag. */
  lemma ShareBounds(j: nat, p: real, m: nat)
    requires p >= 1.0 && 1 <= j <= m
    ensures 0.0 < Share(j, p, m) < 1.0
  {
    var c := (m + 1) as real;
    var d := p * c;
    assert d - c == (p - 1.0) * c;
    assert (p - 1.0) * c >= 0.0;
    QuotientPositive(j as real, d);
    FractionIncreasing(j as real, d, d);
    assert d / d == 1.0;
  }

  /** For lags 1..M and p >= 1 the weight lies strictly between 0 and 1. */
  lemma WeightBounds(j: nat, p: real, m: nat)
    requires p >= 1.0 && 1 <= j <= m
    ensures 0.0 < Weight(j, p, m) < 1.0
  {
    ShareBounds(j, p, m);
    var u := 1.0 - Share(j, p, m);
    assert Weight(j, p, m) == u * u;
    SquareIncreasing(u, 1.0);
    PositiveProduct(u, u);
  }

  /** Later lags weigh less: the weight decreases strictly with j. */
  lemma WeightDecreasing(j: nat, k: nat, p: real, m: nat)
    requires p >= 1.0 && 1 <= j < k <= m
    ensures Weight(k, p, m) < Weight(j, p, m)
  {
    ShareBounds(k, p, m);
    FractionIncreasing(j as real, k as real, p * ((m + 1) as real));
    SquareIncreasing(1.0 - Share(k, p, m), 1.0 - Share(j, p, m));
  }

  /** A base statistic that ignores the order of its arguments. */
  ghost predicate SymmetricBase(base: BaseTest)
  {
    forall A: Matrix, B: Matrix :: base(A, B).statistic == base(B, A).statistic
  }

  /** Swapping X and Y exchanges the two lag directions, term by term. */
  lemma {:induction false} LagSumSwap(X: Matrix, Y: Matrix, k: nat, p: real, m: nat, base: BaseTest)
    requires IsSquare(X) && IsSquare(Y) && |X| == |Y| && k <= |X| && p > 0.0
    requires SymmetricBase(base)
    ensures LagSum(Y, X, k, p, m, base) == LagSum(X, Y, k, p, m, base)
  {
    if k > 0 {
      LagSumSwap(X, Y, k - 1, p, m, base);
      var n := |X|;
      assert base(Window(Y, k, n), Window(X, 0, n - k)).statistic
          == base(Window(X, 0, n - k), Window(Y, k, n)).statistic;
      assert base(Window(Y, 0, n - k), Window(X, k, n)).statistic
          == base(Window(X, k, n), Window(Y, 0, n - k)).statistic;
      assert Forward(Y, X, k, p, m, base) == Backward(X, Y, k, p, m, base);
      assert Backward(Y, X, k, p, m, base) == Forward(X, Y, k, p, m, base);
    }
  }

  /** For a symmetric base statistic, MGC_TS is symmetric in X and Y. */
  lemma StatisticSymmetric(X: Matrix, Y: Matrix, m: nat, p: real, base: BaseTest)
    requires IsSquare(X) && IsSquare(Y) && |X| == |Y| && m <= |X| && p > 0.0
    requires SymmetricBase(base)
    ensures Statistic(Y, X, m, p, base) == Statistic(X, Y, m, p, base)
  {
    LagSumSwap(X, Y, m, p, m, base);
    assert base(Y, X).statistic == base(X, Y).statistic;
  }

  /** A base statistic that is never negative. */
  ghost predicate NonNegativeBase(base: BaseTest)
  {
    forall A: Matrix, B: Matrix :: base(A, B).statistic >= 0.0
  }

  lemma ProductNonNegative(w: real, b: real, c: real)
    requires w >= 0.0 && b >= 0.0 && c >= 0.0
    ensures w * b * c >= 0.0
  {
    assert w * b >= 0.0;
  }

  /** Every term is a product of non-negative factors. */
  lemma {:induction false} LagSumNonNegative(X: Matrix, Y: Matrix, k: nat, p: real, m: nat, base: BaseTest)
    requires IsSquare(X) && IsSquare(Y) && |X| == |Y| && k <= |X| && p > 0.0
    requires NonNegativeBase(base)
    ensures LagSum(X, Y, k, p, m, base) >= 0.0
  {
    if k > 0 {
      LagSumNonNegative(X, Y, k - 1, p, m, base);
      var n := |X|;
      ProductNonNegative(Weight(k, p, m), base(Window(X, k, n), Window(Y, 0, n - k)).statistic,
                         (n - k) as real);
      ProductNonNegative(Weight(k, p, m), base(Window(X, 0, n - k), Window(Y, k, n)).statistic,
                         (n - k) as real);
    }
  }

  /** For a non-negative base statistic, MGC_TS is non-negative. */
  lemma StatisticNonNegative(X: Matrix, Y: Matrix, m: nat, p: real, base: BaseTest)
    requires IsSquare(X) && IsSquare(Y) && |X| == |Y| && m <= |X| && p > 0.0
    requires NonNegativeBase(base)
    ensures Statistic(X, Y, m, p, base) >= 0.0
  {
    LagSumNonNegative(X, Y, m, p, m, base);
    assert base(X, Y).statistic >= 0.0;
    assert (|X| as real) * base(X, Y).statistic >= 0.0;
  }

  // ---------------------------------------------------------------------
  // Block permutation

  /** The block-permutation index vector: for each start in `perm`, the run
      `start, ..., start + bs - 1`, concatenated and cut to n entries. There
      is no wrap-around. */
  function BlockIndices(n: nat, bs: nat, perm: seq<int>): (ix: seq<int>)
    requires bs >= 1 && |perm| == n / bs + 1
    ensures |ix| == n
  {
    RunsAt(perm, bs, 0);
    EnoughStarts(n, bs);
    Runs(perm, bs)[..n]
  }

  /** Closed form: entry k is the start of block k / bs plus k % bs. */
  lemma BlockIndicesAt(n: nat, bs: nat, perm: seq<int>, k: nat)
    requires bs >= 1 && |perm| == n / bs + 1 && k < n
    ensures k / bs < |perm|
    ensures BlockIndices(n, bs, perm)[k] == perm[k / bs] + k % bs
  {
    RunsAt(perm, bs, k);
    EnoughStarts(n, bs);
    BlockBound(k, bs, |perm|);
  }

  /** One draw of the bootstrap: a permutation of the block starts
      `0, ..., n // bs` for the block size bs = `ceil(sqrt(n))`. */
  ghost predicate ValidPermutationDraw(perm: seq<int>, n: nat)
  {
    n >= 1 && IsPermutation(perm, n / CeilSqrt(n) + 1)
  }

  /** The index vector of one draw. */
  function DrawIndices(n: nat, perm: seq<int>): (ix: seq<int>)
    requires ValidPermutationDraw(perm, n)
    ensures |ix| == n
  {
    PermutationFacts(perm, n / CeilSqrt(n) + 1);
    BlockIndices(n, CeilSqrt(n), perm)
  }

  /** Block starts are never negative, so neither is any index. */
  lemma DrawIndicesNonNegative(n: nat, perm: seq<int>)
    requires ValidPermutationDraw(perm, n)
    ensures forall k :: 0 <= k < n ==> DrawIndices(n, perm)[k] >= 0
  {
    var bs := CeilSqrt(n);
    PermutationFacts(perm, n / bs + 1);
    forall k | 0 <= k < n ensures DrawIndices(n, perm)[k] >= 0 {
      BlockIndicesAt(n, bs, perm, k);
    }
  }

  lemma SmallSquare(b: nat)
    ensures b <= 1 ==> b * b <= 1
  {
  }

  /** `(b - 1)^2 >= b - 1`, and `(b - 1)^2 >= b` once b >= 3. */
  lemma SquareGrowth(b: nat)
    ensures b >= 1 ==> (b - 1) * (b - 1) >= b - 1
    ensures b >= 3 ==> (b - 1) * (b - 1) >= b
  {
    if b >= 1 {
      MulAwayFromZero(b - 1, b - 1);
      MulAwayFromZero(b - 1, b - 2);
      assert (b - 1) * (b - 1) == (b - 1) * (b - 2) + b - 1;
    }
  }

  /** Two factors of at least 2 multiply to at least their sum. */
  lemma SumAtMostProduct(a: int, b: int)
    ensures a >= 2 && b >= 2 ==> a + b <= a * b
  {
    if a >= 2 && b >= 2 {
      MulAwayFromZero(b - 1, a - 1);
      assert a * b == (b - 1) * (a - 1) + a + b - 1;
    }
  }

  /** A quotient of at most 0 leaves `(q + 1) * b` at most b. */
  lemma NextMultiple(q: int, b: nat)
    ensures q <= 0 ==> (q + 1) * b <= b
  {
    if q <= 0 {
      MulAwayFromZero(b, -q);
      assert (q + 1) * b == b - b * (-q);
    }
  }

  /** A block size bs with `(bs - 1)^2 < n <= bs^2` leaves room for the
      largest index once n >= 3: `n // bs + bs <= n`. */
  lemma RoomForBlocksWith(n: nat, bs: nat)
    requires n >= 3 && n <= bs * bs && (bs == 0 || (bs - 1) * (bs - 1) < n)
    ensures bs >= 2
    ensures n / bs + bs <= n
  {
    SmallSquare(bs);
    SquareGrowth(bs);
    var q, r := n / bs, n % bs;
    assert n == q * bs + r && 0 <= r < bs;
    assert n < (q + 1) * bs;
    NextMultiple(q, bs);
    SumAtMostProduct(q, bs);
    assert q == 1 ==> q * bs == bs;
  }

  /** Runs of length bs from starts in `0..c - 1` hold indices between 0
      and `c - 1 + bs - 1`. */
  lemma RunsBound(starts: seq<int>, bs: nat, c: nat, k: int)
    requires bs >= 1 && InRange(starts, c) && 0 <= k < |starts| * bs
    ensures |Runs(starts, bs)| == |starts| * bs
    ensures 0 <= Runs(starts, bs)[k] <= c + bs - 2
  {
    RunsAt(starts, bs, k);
    BlockBound(k, bs, |starts|);
    var q := k / bs;
    assert 0 <= starts[q] < c;
  }

  /** Starts in `0..c - 1`, c = n // bs + 1, put every index at most
      `c - 1 + bs - 1`. */
  lemma IndexBound(n: nat, bs: nat, c: nat, perm: seq<int>, k: nat)
    requires bs >= 1 && c == n / bs + 1 && |perm| == c && InRange(perm, c) && k < n
    ensures 0 <= BlockIndices(n, bs, perm)[k] <= c + bs - 2
  {
    EnoughStarts(n, bs);
    RunsBound(perm, bs, c, k);
    assert BlockIndices(n, bs, perm)[k] == Runs(perm, bs)[k];
  }

  /** For n >= 3 every block permutation stays inside the series: the
      largest index is at most `n // bs + bs - 1 < n`. */
  lemma PermutationFits(n: nat, perm: seq<int>)
    requires n >= 3 && ValidPermutationDraw(perm, n)
    ensures InRange(DrawIndices(n, perm), n)
  {
    var bs := CeilSqrt(n);
    RoomForBlocksWith(n, bs);
    PermutationFacts(perm, n / bs + 1);
    var ix := BlockIndices(n, bs, perm);
    assert DrawIndices(n, perm) == ix;
    forall k | 0 <= k < n ensures 0 <= ix[k] < n {
      IndexBound(n, bs, n / bs + 1, perm, k);
    }
  }

  lemma CeilSqrtTwo()
    ensures CeilSqrt(2) == 2
  {
    assert CeilSqrtFrom(2, 2) == 2;
    assert CeilSqrtFrom(2, 1) == 2;
  }

  lemma RunsTwoStarts()
    ensures Runs([1, 0], 2)[..2] == [1, 2]
  {
    var rest: seq<int> := [0];
    assert [1, 0][1..] == rest;
    assert Runs([1, 0], 2) == Run(1, 2) + Runs(rest, 2);
    assert Run(1, 2) == [1, 2];
  }

  /** The smallest series can step past the end: with n = 2 (so bs = 2 and
      two starts) the permutation [1, 0] gives the indices [1, 2]. */
  lemma TwoPointSeriesOverruns()
    ensures ValidPermutationDraw([1, 0], 2)
    ensures DrawIndices(2, [1, 0]) == [1, 2]
    ensures !InRange(DrawIndices(2, [1, 0]), 2)
  {
    CeilSqrtTwo();
    assert Iota(2) == [0, 1];
    assert multiset([1, 0]) == multiset([0, 1]);
    RunsTwoStarts();
    assert DrawIndices(2, [1, 0]) == BlockIndices(2, 2, [1, 0]) == Runs([1, 0], 2)[..2];
    assert DrawIndices(2, [1, 0])[1] == 2;
  }

  /** The null statistic of one draw: the statistic of X against Y with both
      axes reindexed by the draw's index vector. */
  function NullStatistic(X: Matrix, Y: Matrix, m: nat, p: real, base: BaseTest, perm: seq<int>): real
    requires IsSquare(X) && IsSquare(Y) && |X| == |Y| && m <= |X| && p > 0.0
    requires ValidPermutationDraw(perm, |X|) && InRange(DrawIndices(|X|, perm), |X|)
  {
    var ix := DrawIndices(|X|, perm);
    PermuteShape(Y, ix);
    Statistic(X, Permute(Y, ix), m, p, base)
  }

  /** v is the null statistic of a draw whose index vector stays inside the
      series. */
  ghost predicate IsReplicate(X: Matrix, Y: Matrix, m: nat, p: real, base: BaseTest, perm: seq<int>, v: real)
    requires IsSquare(X) && IsSquare(Y) && |X| == |Y| && m <= |X| && p > 0.0 && ValidPermutationDraw(perm, |X|)
  {
    InRange(DrawIndices(|X|, perm), |X|) && v == NullStatistic(X, Y, m, p, base, perm)
  }

  lemma FractionMonotone(a: real, b: real, d: real)
    requires a <= b && d > 0.0
    ensures a / d <= b / d
    ensures b == d ==> b / d == 1.0
    ensures a == 0.0 ==> a / d == 0.0
  {
    assert b / d - a / d == (b - a) / d;
    assert (b - a) / d * d == b - a;
  }

  /** The p-value of MGC_TS: the share of null statistics at least the
      observed one. It lies in [0, 1] and is never below the share of
      strict exceedances. */
  function AtLeastPValue(nulls: seq<real>, observed: real): (pv: real)
    requires |nulls| >= 1
    ensures 0.0 <= pv <= 1.0
    ensures pv == (|Reaching(nulls, observed)| as real) / (|nulls| as real)
    ensures pv >= (CountGreater(nulls, observed) as real) / (|nulls| as real)
  {
    CountAtLeastIsCardinality(nulls, observed);
    CountGreaterAtMostCountAtLeast(nulls, observed);
    var c, g, r := CountAtLeast(nulls, observed), CountGreater(nulls, observed), |nulls| as real;
    FractionMonotone(g as real, c as real, r);
    FractionMonotone(c as real, r, r);
    FractionMonotone(0.0, c as real, r);
    (c as real) / r
  }

  /** The p-value is 0 exactly when every null statistic falls below the
      observed one. */
  lemma AtLeastPValueZero(nulls: seq<real>, observed: real)
    requires |nulls| >= 1
    ensures AtLeastPValue(nulls, observed) == 0.0 <==>
            forall k :: 0 <= k < |nulls| ==> nulls[k] < observed
  {
    CountAtLeastIsCardinality(nulls, observed);
    var c := CountAtLeast(nulls, observed);
    var q := (c as real) / (|nulls| as real);
    assert q * (|nulls| as real) == c as real;
    if forall k :: 0 <= k < |nulls| ==> nulls[k] < observed {
      assert Reaching(nulls, observed) == {};
    } else {
      var k :| 0 <= k < |nulls| && nulls[k] >= observed;
      assert k in Reaching(nulls, observed);
    }
  }

  /** One replicate of `MGC_TS.p_value`: build the index vector of the
      draw, fail like numpy's out-of-bounds indexing when it leaves the
      series, else permute both axes of Y and compute the statistic. */
  method Replicate(X: Matrix, Y: Matrix, maxLag: Option<nat>, p: real, base: BaseTest,
                   perm: seq<int>)
    returns (r: Result<real, InputError>)
    requires IsSquare(X) && IsSquare(Y) && |X| == |Y|
    requires Lags(|X|, maxLag) < |X|
    requires p > 0.0 && p * p == |X| as real
    requires ValidPermutationDraw(perm, |X|)
    ensures r.Err? <==> !InRange(DrawIndices(|X|, perm), |X|)
    ensures r.Err? ==> r.error == IndexOutOfRange
    ensures r.Ok? ==> r.value == NullStatistic(X, Y, Lags(|X|, maxLag), p, base, perm)
  {
    var n := |X|;
    var indices := DrawIndices(n, perm);
    if exists k :: 0 <= k < n && indices[k] >= n {
      return Err(IndexOutOfRange);
    }
    DrawIndicesNonNegative(n, perm);
    assert InRange(indices, n);
    PermuteShape(Y, indices);
    var permutedY := Permute(Y, indices);
    var stat := TestStatistic(X, permutedY, maxLag, p, base);
    r := Ok(stat.value.statistic);
  }

  /** The replicate loop of `MGC_TS.p_value`: one null statistic per draw,
      in order, stopping at the first draw whose index vector leaves the
      series. */
  method Replicates(X: Matrix, Y: Matrix, maxLag: Option<nat>, p: real, base: BaseTest,
                    draws: seq<seq<int>>)
    returns (r: Result<seq<real>, InputError>)
    requires IsSquare(X) && IsSquare(Y) && |X| == |Y|
    requires Lags(|X|, maxLag) < |X|
    requires p > 0.0 && p * p == |X| as real
    requires forall i :: 0 <= i < |draws| ==> ValidPermutationDraw(draws[i], |X|)
    ensures r.Err? ==> r.error == IndexOutOfRange
    ensures r.Err? <==> exists i :: 0 <= i < |draws| && !InRange(DrawIndices(|X|, draws[i]), |X|)
    ensures |X| >= 3 ==> r.Ok?
    ensures r.Ok? ==>
              && |r.value| == |draws|
              && forall i :: 0 <= i < |draws| ==>
                   && InRange(DrawIndices(|X|, draws[i]), |X|)
                   && r.value[i] == NullStatistic(X, Y, Lags(|X|, maxLag), p, base, draws[i])
  {
    var n := |X|;
    var m := Lags(n, maxLag);
    var nulls := new real[|draws|](_ => 0.0);
    for rep := 0 to |draws|
      invariant forall i :: 0 <= i < rep ==> IsReplicate(X, Y, m, p, base, draws[i], nulls[i])
    {
      assert ValidPermutationDraw(draws[rep], n);
      if n >= 3 {
        PermutationFits(n, draws[rep]);
      }
      var one := Replicate(X, Y, maxLag, p, base, draws[rep]);
      if one.Err? {
        return Err(IndexOutOfRange);
      }
      assert IsReplicate(X, Y, m, p, base, draws[rep], one.value);
      nulls[rep] := one.value;
    }
    r := Ok(nulls[..]);
    assert forall i :: 0 <= i < |draws| ==> IsReplicate(X, Y, m, p, base, draws[i], r.value[i]);
  }

  /** `MGC_TS.p_value`: reject different sample counts, compute the observed
      statistic and its distance matrices, then one null statistic per draw
      of block starts (replicate r uses `draws[r]`) on the matrices the
      statistic returned. An index vector that steps past the series fails
      like numpy's out-of-bounds indexing, which only a series of at most two
      points can do; no replicates fail like the division by zero. */
  method PValue(X: Matrix, Y: Matrix, maxLag: Option<nat>, p: real, base: BaseTest,
                draws: seq<seq<int>>)
    returns (r: Result<PValueOutput, InputError>)
    requires IsSquare(X) && IsSquare(Y)
    requires Lags(|X|, maxLag) < |X|
    requires p > 0.0 && p * p == |X| as real
    requires forall i :: 0 <= i < |draws| ==> ValidPermutationDraw(draws[i], |X|)
    ensures |X| != |Y| <==> r == Err(ShapeMismatch)
    ensures r.Err? ==> r.error == ShapeMismatch || r.error == IndexOutOfRange || r.error == NoReplicates
    ensures r.Ok? <==>
              && |X| == |Y|
              && draws != []
              && forall i :: 0 <= i < |draws| ==> InRange(DrawIndices(|X|, draws[i]), |X|)
    ensures |X| == |Y| ==>
              (r == Err(IndexOutOfRange) <==>
                 exists i :: 0 <= i < |draws| && !InRange(DrawIndices(|X|, draws[i]), |X|))
    ensures |X| >= 3 ==> r != Err(IndexOutOfRange)
    ensures |X| == |Y| ==> (r == Err(NoReplicates) <==> draws == [])
    ensures r.Ok? ==>
              && |X| == |Y|
              && |r.value.nullDistribution| == |draws|
              && (forall i :: 0 <= i < |draws| ==>
                    && InRange(DrawIndices(|X|, draws[i]), |X|)
                    && r.value.nullDistribution[i] ==
                       NullStatistic(X, Y, Lags(|X|, maxLag), p, base, draws[i]))
              && r.value.pValue ==
                 AtLeastPValue(r.value.nullDistribution, Statistic(X, Y, Lags(|X|, maxLag), p, base))
  {
    if |X| != |Y| {
      return Err(ShapeMismatch);
    }
    var observed := TestStatistic(X, Y, maxLag, p, base);
    var distX, distY := observed.value.metadata.distX, observed.value.metadata.distY;
    var nulls := Replicates(distX, distY, maxLag, p, base, draws);
    if nulls.Err? {
      return Err(nulls.error);
    }
    if |draws| == 0 {
      return Err(NoReplicates);
    }
    r := Ok(PValueOutput(AtLeastPValue(nulls.value, observed.value.statistic), nulls.value));
  }
}
