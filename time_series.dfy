/** The time-series wrapper of mgcpy/independence_tests/ts_abstract_class.py:
    input validation, the lag-aggregated statistic over any base statistic,
    the exact block-bootstrap p-value, and the subsample null distribution
    of the fast mode. Inputs are distance matrices; random block starts are
    passed in. */
module TimeSeries {
  import opened Common
  import opened Matrices
  import opened Blocks

  // ---------------------------------------------------------------------
  // Validation

  /** `_validate_input`: X and Y must have the same number of samples, and
      the largest lag must leave more than four points. On success the
      sample size is returned. */
  function ValidateInput(nX: nat, nY: nat, maxLag: nat): (r: Result<nat, InputError>)
    ensures r.Ok? <==> nX == nY && maxLag + 4 < nX
    ensures r.Ok? ==> r.value == nX && r.value >= 5
    ensures nX != nY ==> r == Err(ShapeMismatch)
    ensures nX == nY && maxLag + 4 >= nX ==> r == Err(LagTooLarge)
  {
    if nX != nY then Err(ShapeMismatch)
    else if maxLag >= nX - 4 then Err(LagTooLarge)
    else Ok(nX)
  }

  /** The block size of the bootstrap: the caller's, or `ceil(sqrt(n))`. */
  function BlockSize(n: nat, requested: Option<nat>): (bs: nat)
    ensures requested.Some? ==> bs == requested.value
    ensures requested.None? ==> n <= bs * bs && (bs == 0 || (bs - 1) * (bs - 1) < n)
  {
    match requested
    case Some(b) => b
    case None => CeilSqrt(n)
  }

  // ---------------------------------------------------------------------
  // Lag aggregation

  /** The base statistic at lag j: rows/columns `[j, n)` of X against rows/
      columns `[0, n - j)` of Y, so that X leads Y by j. Lag 0 is the base
      statistic of the whole matrices. */
  function LagOutput(X: Matrix, Y: Matrix, j: nat, base: BaseTest): BaseOutput
    requires IsSquare(X) && IsSquare(Y) && |X| == |Y| && j < |X|
  {
    if j == 0 then base(X, Y) else base(Window(X, j, |X|), Window(Y, 0, |X| - j))
  }

  /** The two windows compared at lag j are square blocks of the same side
      n - j; entry (a, b) pairs X at times (a + j, b + j) with Y at times
      (a, b); and windows of distance matrices are distance matrices. */
  lemma LagWindows(X: Matrix, Y: Matrix, j: nat)
    requires IsSquare(X) && IsSquare(Y) && |X| == |Y| && j < |X|
    ensures IsSquare(Window(X, j, |X|)) && |Window(X, j, |X|)| == |X| - j
    ensures IsSquare(Window(Y, 0, |X| - j)) && |Window(Y, 0, |X| - j)| == |X| - j
    ensures forall a, b :: 0 <= a < |X| - j && 0 <= b < |X| - j ==>
              Window(X, j, |X|)[a][b] == X[a + j][b + j] && Window(Y, 0, |X| - j)[a][b] == Y[a][b]
    ensures IsDistanceMatrix(X) && IsDistanceMatrix(Y) ==>
              IsDistanceMatrix(Window(X, j, |X|)) && IsDistanceMatrix(Window(Y, 0, |X| - j))
  {
    WindowShape(X, j, |X|);
    WindowShape(Y, 0, |X| - j);
    if IsDistanceMatrix(X) && IsDistanceMatrix(Y) {
      WindowKeepsDistance(X, j, |X|);
      WindowKeepsDistance(Y, 0, |X| - j);
    }
  }

  /** `dependence_by_lag[j]`: the non-negative part of the lag-j statistic,
      weighted by `(n - j) / n` for j >= 1. It never exceeds the unweighted
      non-negative part. */
  function LagDependence(X: Matrix, Y: Matrix, j: nat, base: BaseTest): (d: real)
    requires IsSquare(X) && IsSquare(Y) && |X| == |Y| && j < |X|
    ensures 0.0 <= d <= Max0(LagOutput(X, Y, j, base).statistic)
  {
    var n := |X|;
    var s := Max0(LagOutput(X, Y, j, base).statistic);
    if j == 0 then s
    else
      assert ((n - j) as real) * s <= (n as real) * s;
      ((n - j) as real) * s / (n as real)
  }

  /** At a positive lag the dependence is the weighted non-negative part of
      the windowed base statistic. */
  lemma LagDependenceAt(X: Matrix, Y: Matrix, n: nat, j: nat, base: BaseTest, out: BaseOutput)
    requires IsSquare(X) && IsSquare(Y) && |X| == |Y| == n && 0 < j < n
    requires out == base(Window(X, j, n), Window(Y, 0, n - j))
    ensures out == LagOutput(X, Y, j, base)
    ensures LagDependence(X, Y, j, base) == ((n - j) as real) * Max0(out.statistic) / (n as real)
  {
    assert LagOutput(X, Y, j, base) == out;
  }

  /** The whole `dependence_by_lag` vector for lags 0..M. */
  function DependenceByLag(X: Matrix, Y: Matrix, maxLag: nat, base: BaseTest): (d: seq<real>)
    requires IsSquare(X) && IsSquare(Y) && |X| == |Y| && maxLag < |X|
    ensures |d| == maxLag + 1
    ensures forall j :: 0 <= j <= maxLag ==> d[j] == LagDependence(X, Y, j, base) && d[j] >= 0.0
  {
    seq(maxLag + 1, j requires 0 <= j <= maxLag => LagDependence(X, Y, j, base))
  }

  /** The lag-aggregated statistic: the sum of `dependence_by_lag`. */
  function LagStatistic(X: Matrix, Y: Matrix, maxLag: nat, base: BaseTest): real
    requires IsSquare(X) && IsSquare(Y) && |X| == |Y| && maxLag < |X|
  {
    Sum(DependenceByLag(X, Y, maxLag, base))
  }

  /** The statistic is non-negative and at least every per-lag contribution,
      in particular the one at the optimal lag. */
  lemma LagStatisticBounds(X: Matrix, Y: Matrix, maxLag: nat, base: BaseTest)
    requires IsSquare(X) && IsSquare(Y) && |X| == |Y| && maxLag < |X|
    ensures LagStatistic(X, Y, maxLag, base) >= 0.0
    ensures forall j :: 0 <= j <= maxLag ==>
              LagDependence(X, Y, j, base) <= LagStatistic(X, Y, maxLag, base)
  {
    var d := DependenceByLag(X, Y, maxLag, base);
    SumNonNegative(d);
    forall j | 0 <= j <= maxLag
      ensures LagDependence(X, Y, j, base) <= LagStatistic(X, Y, maxLag, base)
    {
      SumBoundsTerms(d, j);
    }
  }

  /** The weights `(n - j) / n` of the lags 0..M. */
  function LagWeights(n: nat, maxLag: nat): (w: seq<real>)
    requires maxLag < n
    ensures |w| == maxLag + 1
    ensures forall j :: 0 <= j <= maxLag ==> 0.0 < w[j] <= 1.0
  {
    seq(maxLag + 1, j requires 0 <= j <= maxLag => WeightBound(n, j); ((n - j) as real) / (n as real))
  }

  lemma WeightBound(n: nat, j: nat)
    requires j < n
    ensures 0.0 < ((n - j) as real) / (n as real) <= 1.0
  {
    var q := ((n - j) as real) / (n as real);
    assert q * (n as real) == (n - j) as real;
    assert (q - 1.0) * (n as real) <= 0.0;
  }

  /** For a base statistic of at most 1 (as DCorr and MGC are), the lag-j
      term is at most its weight `(n - j) / n`. */
  lemma LagDependenceAtMostWeight(X: Matrix, Y: Matrix, j: nat, base: BaseTest)
    requires IsSquare(X) && IsSquare(Y) && |X| == |Y| && j < |X|
    requires forall A, B :: base(A, B).statistic <= 1.0
    ensures LagDependence(X, Y, j, base) <= ((|X| - j) as real) / (|X| as real)
  {
    var n := |X|;
    var s := Max0(LagOutput(X, Y, j, base).statistic);
    assert s <= 1.0;
    var w := (n - j) as real;
    assert w * s <= w;
    if j == 0 {
      SelfQuotient(n as real);
    } else {
      QuotientAtMost(w * s, w, n as real);
    }
  }

  lemma SelfQuotient(d: real)
    requires d > 0.0
    ensures d / d == 1.0
  {
  }

  lemma QuotientAtMost(a: real, b: real, d: real)
    requires a <= b && d > 0.0
    ensures a / d <= b / d
  {
    var q, r := a / d, b / d;
    assert q * d == a && r * d == b;
    assert (q - r) * d <= 0.0;
  }

  /** The bound the statistic does meet for a base statistic of at most 1:
      the sum of the lag weights, `1 + sum over j = 1..M of (n - j) / n`,
      which is at most M + 1. */
  lemma LagStatisticAtMostWeights(X: Matrix, Y: Matrix, maxLag: nat, base: BaseTest)
    requires IsSquare(X) && IsSquare(Y) && |X| == |Y| && maxLag < |X|
    requires forall A, B :: base(A, B).statistic <= 1.0
    ensures LagStatistic(X, Y, maxLag, base) <= Sum(LagWeights(|X|, maxLag))
    ensures Sum(LagWeights(|X|, maxLag)) <= (maxLag + 1) as real
  {
    var d, w := DependenceByLag(X, Y, maxLag, base), LagWeights(|X|, maxLag);
    forall j | 0 <= j <= maxLag ensures d[j] <= w[j] {
      LagDependenceAtMostWeight(X, Y, j, base);
    }
    SumMonotone(d, w);
    SumAtMostLength(w);
  }

  /** The docstring of `test_statistic` places the statistic in [0, M]; it
      can exceed M. A base statistic of 1 at every lag of a ten-point series
      with M = 1 gives 1 + 9/10. */
  lemma StatisticCanExceedMaxLag()
    ensures var X := seq(10, _ => seq(10, _ => 0.0));
            var base: BaseTest := (A, B) => BaseOutput(1.0, Scale(0, 0));
            LagStatistic(X, X, 1, base) == 1.9 > 1.0
  {
    var X := seq(10, _ => seq(10, _ => 0.0));
    var base: BaseTest := (A, B) => BaseOutput(1.0, Scale(0, 0));
    var d := DependenceByLag(X, X, 1, base);
    assert d[0] == LagDependence(X, X, 0, base) == 1.0;
    assert d[1] == LagDependence(X, X, 1, base) == 9.0 * 1.0 / 10.0;
    assert d[1..][1..] == [];
    assert Sum(d) == d[0] + (d[1] + Sum(d[1..][1..]));
  }

  /** With no lags the statistic is the non-negative part of the base
      statistic of the whole matrices. */
  lemma NoLagStatistic(X: Matrix, Y: Matrix, base: BaseTest)
    requires IsSquare(X) && IsSquare(Y) && |X| == |Y| && 0 < |X|
    ensures LagStatistic(X, Y, 0, base) == Max0(base(X, Y).statistic)
  {
    var d := DependenceByLag(X, Y, 0, base);
    assert d[0] == LagDependence(X, Y, 0, base) == Max0(base(X, Y).statistic);
    assert d[1..] == [];
    assert Sum(d) == d[0] + Sum(d[1..]);
  }

  /** k is where `s` is largest, and no earlier position reaches that value:
      the index that a left-to-right scan with a strict `>` update keeps. */
  ghost predicate IsFirstArgMax(s: seq<real>, k: int)
  {
    && 0 <= k < |s|
    && (forall i :: 0 <= i < |s| ==> s[i] <= s[k])
    && (forall i :: 0 <= i < k ==> s[i] < s[k])
  }

  /** The first maximum is unique, so `optimal_lag` is fully determined by
      `dependence_by_lag`. */
  lemma FirstArgMaxUnique(s: seq<real>, k1: int, k2: int)
    requires IsFirstArgMax(s, k1) && IsFirstArgMax(s, k2)
    ensures k1 == k2
  {
    assert s[k1] <= s[k2] && s[k2] <= s[k1];
  }

  /** One step of the scan: a new element replaces the current maximum only
      when it is strictly larger. */
  lemma FirstArgMaxStep(s: seq<real>, k: int, x: real)
    requires IsFirstArgMax(s, k)
    ensures IsFirstArgMax(s + [x], if x > s[k] then |s| else k)
  {
  }

  /** What `test_statistic` reports. */
  datatype LagSummary = LagSummary(
    statistic: real,
    optimalLag: nat,
    dependenceByLag: seq<real>,
    optimalScale: Option<Scale>)

  /** `test_statistic`: validate, fill `dependence_by_lag` lag by lag while
      tracking the first lag of maximal dependence (and, for the MGC base,
      the scale reported at that lag), then sum. */
  method TestStatistic(X: Matrix, Y: Matrix, maxLag: nat, base: BaseTest, isMgcx: bool)
    returns (r: Result<LagSummary, InputError>)
    requires IsSquare(X) && IsSquare(Y)
    ensures r.Err? <==> ValidateInput(|X|, |Y|, maxLag).Err?
    ensures r.Err? ==> r.error == ValidateInput(|X|, |Y|, maxLag).error
    ensures r.Ok? ==>
              && |X| == |Y| && maxLag < |X|
              && r.value.dependenceByLag == DependenceByLag(X, Y, maxLag, base)
              && r.value.statistic == LagStatistic(X, Y, maxLag, base)
              && IsFirstArgMax(r.value.dependenceByLag, r.value.optimalLag)
              && r.value.optimalScale ==
                 (if isMgcx then Some(LagOutput(X, Y, r.value.optimalLag, base).optimalScale) else None)
  {
    var v := ValidateInput(|X|, |Y|, maxLag);
    if v.Err? {
      return Err(v.error);
    }
    var n := |X|;
    ghost var expected := DependenceByLag(X, Y, maxLag, base);
    var dep := new real[maxLag + 1](_ => 0.0);
    var optimalLag := 0;
    var out := base(X, Y);
    var optimalScale := if isMgcx then Some(out.optimalScale) else None;
    dep[0] := Max0(out.statistic);
    assert dep[..1] == expected[..1];
    for j := 1 to maxLag + 1
      invariant dep[..j] == expected[..j]
      invariant IsFirstArgMax(dep[..j], optimalLag)
      invariant optimalScale ==
                (if isMgcx then Some(LagOutput(X, Y, optimalLag, base).optimalScale) else None)
    {
      optimalLag, optimalScale := ScanLag(X, Y, n, j, base, isMgcx, dep, optimalLag, optimalScale, expected);
    }
    var deps := dep[..];
    assert deps == dep[..maxLag + 1] == expected;
    r := Ok(LagSummary(Sum(deps), optimalLag, deps, optimalScale));
  }

  /** One pass of the lag loop: store the lag-j dependence and move the
      running first maximum (with its scale) only when it is strictly
      exceeded. */
  method ScanLag(X: Matrix, Y: Matrix, n: nat, j: nat, base: BaseTest, isMgcx: bool,
                 dep: array<real>, optimalLag: nat, optimalScale: Option<Scale>,
                 ghost expected: seq<real>)
    returns (lag: nat, scale: Option<Scale>)
    requires IsSquare(X) && IsSquare(Y) && |X| == |Y| == n && 0 < j < n
    requires j < dep.Length && dep.Length == |expected|
    requires expected[j] == LagDependence(X, Y, j, base)
    requires dep[..j] == expected[..j]
    requires IsFirstArgMax(dep[..j], optimalLag)
    requires optimalScale ==
             (if isMgcx then Some(LagOutput(X, Y, optimalLag, base).optimalScale) else None)
    modifies dep
    ensures dep[..j + 1] == expected[..j + 1]
    ensures forall k :: j < k < dep.Length ==> dep[k] == old(dep[k])
    ensures IsFirstArgMax(dep[..j + 1], lag)
    ensures scale == (if isMgcx then Some(LagOutput(X, Y, lag, base).optimalScale) else None)
  {
    var out := base(Window(X, j, n), Window(Y, 0, n - j));
    LagDependenceAt(X, Y, n, j, base, out);
    dep[j] := ((n - j) as real) * Max0(out.statistic) / (n as real);
    assert dep[..j + 1] == dep[..j] + [dep[j]];
    assert expected[..j + 1] == expected[..j] + [expected[j]];
    assert dep[..j][optimalLag] == dep[optimalLag];
    FirstArgMaxStep(dep[..j], optimalLag, dep[j]);
    lag, scale := optimalLag, optimalScale;
    if dep[j] > dep[optimalLag] {
      lag := j;
      if isMgcx {
        scale := Some(out.optimalScale);
      }
    }
  }

  // ---------------------------------------------------------------------
  // Exact p-value by block bootstrap

  /** A draw of block starts fits the bootstrap: `n // bs + 1` of them. (A
      zero block size only arises for n == 0, which validation rejects.) */
  ghost predicate ValidStartsDraw(starts: seq<int>, n: nat, bs: nat)
  {
    bs == 0 || |starts| == n / bs + 1
  }

  /** The block-bootstrap index vector: runs of `bs` consecutive indices from
      each start, truncated to n and reduced modulo n. It has exactly n
      entries, each a valid row of an n x n matrix. */
  function BootstrapIndices(n: nat, bs: nat, starts: seq<int>): (p: seq<int>)
    requires bs >= 1 && |starts| == n / bs + 1
    ensures |p| == n && InRange(p, n)
  {
    RunsAt(starts, bs, 0);
    EnoughStarts(n, bs);
    var runs := Runs(starts, bs)[..n];
    seq(n, k requires 0 <= k < n => runs[k] % n)
  }

  /** Closed form: index k comes from block k / bs, at offset k % bs from
      its start, wrapped around the end of the series. */
  lemma BootstrapIndicesAt(n: nat, bs: nat, starts: seq<int>, k: nat)
    requires bs >= 1 && |starts| == n / bs + 1 && k < n
    ensures k / bs < |starts|
    ensures BootstrapIndices(n, bs, starts)[k] == (starts[k / bs] + k % bs) % n
  {
    RunsAt(starts, bs, k);
    EnoughStarts(n, bs);
    BlockBound(k, bs, |starts|);
  }

  /** With `block_size = n` the bootstrap keeps the series in one block: the
      index vector is the series rotated to start at the first draw. */
  lemma WholeSeriesBlock(n: nat, starts: seq<int>, k: nat)
    requires n >= 1 && |starts| == n / n + 1 && k < n
    ensures BootstrapIndices(n, n, starts)[k] == (starts[0] + k) % n
  {
    BootstrapIndicesAt(n, n, starts, k);
    DivModUnique(k, n, 0, k);
  }

  /** The Y matrix of one bootstrap replicate, `Y[np.ix_(p, p)]`. */
  function BootstrapY(Y: Matrix, bs: nat, starts: seq<int>): Matrix
    requires IsSquare(Y) && bs >= 1 && |starts| == |Y| / bs + 1
  {
    Permute(Y, BootstrapIndices(|Y|, bs, starts))
  }

  /** A bootstrap replicate of a distance matrix is an n x n distance matrix:
      the same index vector on both axes keeps symmetry and the zero
      diagonal. */
  lemma BootstrapYIsDistance(Y: Matrix, bs: nat, starts: seq<int>)
    requires IsSquare(Y) && bs >= 1 && |starts| == |Y| / bs + 1
    ensures IsSquare(BootstrapY(Y, bs, starts)) && |BootstrapY(Y, bs, starts)| == |Y|
    ensures IsDistanceMatrix(Y) ==> IsDistanceMatrix(BootstrapY(Y, bs, starts))
  {
    PermuteShape(Y, BootstrapIndices(|Y|, bs, starts));
    if IsDistanceMatrix(Y) {
      PermuteKeepsDistance(Y, BootstrapIndices(|Y|, bs, starts));
    }
  }

  /** The null distribution: the lag statistic of X against each bootstrap
      replicate of Y. */
  function NullDistribution(X: Matrix, Y: Matrix, maxLag: nat, base: BaseTest, bs: nat,
                            draws: seq<seq<int>>): (d: seq<real>)
    requires IsSquare(X) && IsSquare(Y) && |X| == |Y| && maxLag < |X| && bs >= 1
    requires forall i :: 0 <= i < |draws| ==> ValidStartsDraw(draws[i], |Y|, bs)
    ensures |d| == |draws|
  {
    seq(|draws|, i requires 0 <= i < |draws| =>
      assert ValidStartsDraw(draws[i], |Y|, bs);
      BootstrapYIsDistance(Y, bs, draws[i]);
      LagStatistic(X, BootstrapY(Y, bs, draws[i]), maxLag, base))
  }

  /** The exact p-value: the share of null statistics strictly above the
      observed one, floored at one replicate. It is never zero. */
  function StrictPValue(nulls: seq<real>, observed: real): (p: real)
    requires |nulls| >= 1
    ensures 0.0 < p <= 1.0
    ensures p >= (CountGreater(nulls, observed) as real) / (|nulls| as real)
  {
    CountGreaterIsCardinality(nulls, observed);
    var c := CountGreater(nulls, observed);
    RatioInUnitInterval(1, |nulls|);
    RatioInUnitInterval(c, |nulls|);
    if c == 0 then 1.0 / (|nulls| as real) else (c as real) / (|nulls| as real)
  }

  lemma RatioInUnitInterval(c: nat, total: nat)
    requires 1 <= total && c <= total
    ensures 0.0 <= (c as real) / (total as real) <= 1.0
    ensures c >= 1 ==> (c as real) / (total as real) > 0.0
  {
    var q := (c as real) / (total as real);
    assert q * (total as real) == c as real;
    assert (q - 1.0) * (total as real) <= 0.0;
  }

  /** The p-value counts the replicates whose statistic exceeds the observed
      one, whatever their order, and reports at least one of R. */
  lemma StrictPValueCountsExceedances(nulls: seq<real>, observed: real)
    requires |nulls| >= 1
    ensures var c := |Exceeding(nulls, observed)|;
            StrictPValue(nulls, observed) == (if c == 0 then 1 else c) as real / (|nulls| as real)
  {
    CountGreaterIsCardinality(nulls, observed);
  }

  /** One null statistic per draw: the statistic of X against Y bootstrapped
      with that draw's block starts. */
  method BootstrapStatistics(X: Matrix, Y: Matrix, maxLag: nat, base: BaseTest, isMgcx: bool,
                             bs: nat, draws: seq<seq<int>>)
    returns (nulls: seq<real>)
    requires IsSquare(X) && IsSquare(Y) && |X| == |Y| && maxLag + 4 < |X| && bs >= 1
    requires forall i :: 0 <= i < |draws| ==> ValidStartsDraw(draws[i], |X|, bs)
    ensures nulls == NullDistribution(X, Y, maxLag, base, bs, draws)
  {
    ghost var expected := NullDistribution(X, Y, maxLag, base, bs, draws);
    var stats := new real[|draws|](_ => 0.0);
    for rep := 0 to |draws|
      invariant forall i :: 0 <= i < rep ==> stats[i] == expected[i]
    {
      assert ValidStartsDraw(draws[rep], |Y|, bs);
      BootstrapYIsDistance(Y, bs, draws[rep]);
      var permutedY := BootstrapY(Y, bs, draws[rep]);
      var stat := TestStatistic(X, permutedY, maxLag, base, isMgcx);
      assert stat.value.statistic == expected[rep];
      stats[rep] := stat.value.statistic;
    }
    nulls := stats[..];
    assert nulls == expected;
  }

  /** `p_value` with `is_fast = False`: validate, compute the observed
      statistic, compute one null statistic per bootstrap draw (replicate
      r uses the block starts `draws[r]`), and apply the strict-count rule.
      `replication_factor` is `|draws|`. */
  method PValue(X: Matrix, Y: Matrix, maxLag: nat, base: BaseTest, isMgcx: bool,
                blockSize: Option<nat>, draws: seq<seq<int>>)
    returns (r: Result<PValueOutput, InputError>)
    requires IsSquare(X) && IsSquare(Y)
    requires blockSize != Some(0)
    requires forall i :: 0 <= i < |draws| ==> ValidStartsDraw(draws[i], |X|, BlockSize(|X|, blockSize))
    ensures ValidateInput(|X|, |Y|, maxLag).Err? ==> r == Err(ValidateInput(|X|, |Y|, maxLag).error)
    ensures ValidateInput(|X|, |Y|, maxLag).Ok? && draws == [] ==> r == Err(NoReplicates)
    ensures ValidateInput(|X|, |Y|, maxLag).Ok? && draws != [] ==>
              && BlockSize(|X|, blockSize) >= 1
              && r.Ok?
              && r.value.nullDistribution ==
                 NullDistribution(X, Y, maxLag, base, BlockSize(|X|, blockSize), draws)
              && r.value.pValue == StrictPValue(r.value.nullDistribution, LagStatistic(X, Y, maxLag, base))
  {
    var v := ValidateInput(|X|, |Y|, maxLag);
    if v.Err? {
      return Err(v.error);
    }
    var n := |X|;
    var bs := BlockSize(n, blockSize);
    assert bs >= 1 by {
      if blockSize.None? { assert n <= bs * bs; }
    }
    var observed := TestStatistic(X, Y, maxLag, base, isMgcx);
    var nulls := BootstrapStatistics(X, Y, maxLag, base, isMgcx, bs, draws);
    if |draws| == 0 {
      return Err(NoReplicates);
    }
    r := Ok(PValueOutput(StrictPValue(nulls, observed.value.statistic), nulls));
  }

  // ---------------------------------------------------------------------
  // Fast mode: subsample null distribution

  /** `_fast_p_value`'s subsample size: the caller's if it is at least
      `max_lag + 10`, else `max(max_lag + 10, floor(sqrt(n)))`. */
  function SubsampleSize(n: nat, maxLag: nat, requested: int): (s: nat)
    ensures s >= maxLag + 10
    ensures requested >= maxLag + 10 ==> s == requested
    ensures requested < maxLag + 10 ==> s >= FloorSqrt(n) && (s == maxLag + 10 || s == FloorSqrt(n))
  {
    if requested < maxLag + 10 then
      (if maxLag + 10 >= FloorSqrt(n) then maxLag + 10 else FloorSqrt(n))
    else requested
  }

  /** First index of subsample block i. */
  function BlockStart(s: nat, i: nat): nat
  {
    s * i
  }

  /** One past the last index of subsample block i. */
  function BlockEnd(s: nat, i: nat): nat
  {
    s * (i + 1)
  }

  /** The subsample blocks `[s*i, s*(i+1))`, i < n / s, have length s, lie
      inside `[0, n)`, are pairwise disjoint, and each is long enough to
      pass the lag check of the statistic computed on it. */
  lemma SubsampleBlocks(n: nat, maxLag: nat, s: nat)
    requires s >= maxLag + 10
    ensures forall i :: 0 <= i < n / s ==>
              BlockStart(s, i) + s == BlockEnd(s, i) <= n
    ensures forall i, i' :: 0 <= i < i' < n / s ==> BlockEnd(s, i) <= BlockStart(s, i')
    ensures ValidateInput(s, s, maxLag).Ok?
  {
    forall i | 0 <= i < n / s ensures BlockStart(s, i) + s == BlockEnd(s, i) <= n {
      MulMonotone(s, i + 1, n / s);
      assert s * (n / s) <= n;
    }
    forall i, i' | 0 <= i < i' < n / s ensures BlockEnd(s, i) <= BlockStart(s, i') {
      MulMonotone(s, i + 1, i');
    }
  }

  lemma MulMonotone(a: nat, x: int, y: int)
    requires x <= y
    ensures a * x <= a * y
  {
    assert a * y - a * x == a * (y - x);
  }

  /** The null statistics of the fast mode: the lag statistic on each
      subsample block of X and of the once-permuted Y. */
  function SubsampleNull(X: Matrix, PY: Matrix, maxLag: nat, base: BaseTest, s: nat): (d: seq<real>)
    requires IsSquare(X) && IsSquare(PY) && |X| == |PY| && s >= maxLag + 10
    ensures |d| == |X| / s
  {
    SubsampleBlocks(|X|, maxLag, s);
    seq(|X| / s, i requires 0 <= i < |X| / s =>
      var lo, hi := BlockStart(s, i), BlockEnd(s, i);
      WindowShape(X, lo, hi);
      WindowShape(PY, lo, hi);
      LagStatistic(Window(X, lo, hi), Window(PY, lo, hi), maxLag, base))
  }

  /** The statistic of each subsample block, one block after another. */
  method SubsampleStatistics(X: Matrix, PY: Matrix, maxLag: nat, base: BaseTest, isMgcx: bool, s: nat)
    returns (nulls: seq<real>)
    requires IsSquare(X) && IsSquare(PY) && |X| == |PY| && s >= maxLag + 10
    ensures nulls == SubsampleNull(X, PY, maxLag, base, s)
  {
    var numSamples := |X| / s;
    SubsampleBlocks(|X|, maxLag, s);
    ghost var expected := SubsampleNull(X, PY, maxLag, base, s);
    var stats := new real[numSamples](_ => 0.0);
    for i := 0 to numSamples
      invariant forall k :: 0 <= k < i ==> stats[k] == expected[k]
    {
      var lo, hi := BlockStart(s, i), BlockEnd(s, i);
      assert lo + s == hi <= |X|;
      WindowShape(X, lo, hi);
      WindowShape(PY, lo, hi);
      var stat := TestStatistic(Window(X, lo, hi), Window(PY, lo, hi), maxLag, base, isMgcx);
      assert stat.value.statistic == expected[i];
      stats[i] := stat.value.statistic;
    }
    nulls := stats[..];
    assert nulls == expected;
  }

  /** What the fast mode hands to its normal approximation. */
  datatype FastNull = FastNull(observed: real, subsampleSize: nat, nullDistribution: seq<real>)

  /** `p_value` with `is_fast = True`, up to the normal approximation:
      validate, compute the observed statistic, size the subsamples, reject
      fewer than four of them, permute Y once with the block starts
      `starts`, and compute the statistic on each disjoint block. */
  method FastPValue(X: Matrix, Y: Matrix, maxLag: nat, base: BaseTest, isMgcx: bool,
                    blockSize: Option<nat>, requested: int, starts: seq<int>)
    returns (r: Result<FastNull, InputError>)
    requires IsSquare(X) && IsSquare(Y)
    requires blockSize != Some(0)
    requires ValidStartsDraw(starts, |X|, BlockSize(|X|, blockSize))
    ensures ValidateInput(|X|, |Y|, maxLag).Err? ==> r == Err(ValidateInput(|X|, |Y|, maxLag).error)
    ensures ValidateInput(|X|, |Y|, maxLag).Ok? ==>
              var s := SubsampleSize(|X|, maxLag, requested);
              && (|X| / s < 4 ==> r == Err(TooFewSubsamples))
              && (|X| / s >= 4 ==>
                    && BlockSize(|X|, blockSize) >= 1
                    && r.Ok?
                    && r.value.observed == LagStatistic(X, Y, maxLag, base)
                    && r.value.subsampleSize == s
                    && r.value.nullDistribution ==
                       SubsampleNull(X, BootstrapY(Y, BlockSize(|X|, blockSize), starts), maxLag, base, s))
  {
    var v := ValidateInput(|X|, |Y|, maxLag);
    if v.Err? {
      return Err(v.error);
    }
    var n := |X|;
    var bs := BlockSize(n, blockSize);
    assert bs >= 1 by {
      if blockSize.None? { assert n <= bs * bs; }
    }
    var observed := TestStatistic(X, Y, maxLag, base, isMgcx);
    var s := SubsampleSize(n, maxLag, requested);
    var numSamples := n / s;
    if numSamples < 4 {
      return Err(TooFewSubsamples);
    }
    BootstrapYIsDistance(Y, bs, starts);
    var permutedY := BootstrapY(Y, bs, starts);
    var nulls := SubsampleStatistics(X, permutedY, maxLag, base, isMgcx, s);
    r := Ok(FastNull(observed.value.statistic, s, nulls));
  }
}
