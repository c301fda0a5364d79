# Time-series independence tests and HHG, modelled in Dafny

This project models three parts of mgcpy's independence tests: the
lag-aggregating wrapper for time series, the HHG statistic, and the MGC_TS
lag statistic.

The time-series wrapper (`TimeSeriesIndependenceTest`) does four things:

- It checks its inputs.
- It evaluates a base dependence statistic at lag 0 and on shifted windows.
- It keeps the first lag of maximal dependence.
- It sums the per-lag values. It gets p-values by block bootstrap: exactly, or from a subsample null distribution in its fast mode.

The HHG statistic counts, for every ordered pair of points, a 2×2 table of which points lie within that distance in X and in Y. It scores the table and sums the scores.

The MGC_TS statistic weighs both lag directions with `(1 - j/(p(M+1)))^2` and has its own block-permutation p-value.

Inputs are distance matrices (`seq<seq<real>>`, square). The base statistic
(DCorr, MGC, …) is a function parameter of type
`(Matrix, Matrix) -> BaseOutput`, never looked into.

Random draws are passed in as sequences:

- the block starts of `np.random.choice`;
- the permutations of `np.random.permutation`.

Modules:

- `Common` (common.dfy): results and errors; the base-statistic interface; `max(0, x)`; sums; exact integer `ceil(sqrt n)` / `floor(sqrt n)`; the null-count helpers of the p-values.
- `Matrices` (matrices.dfy): windows `X[lo:hi, lo:hi]`, `X[np.ix_(p, p)]`, permutations, and sums that do not depend on order.
- `Blocks` (blocks.dfy): concatenated runs `np.arange(t, t + len)`, with a closed form for their entries.
- `TimeSeries` (time_series.dfy): mgcpy/independence_tests/ts_abstract_class.py.
- `Hhg` (hhg.dfy): mgcpy/independence_tests/hhg.py.
- `MgcTs` (mgc_ts.dfy): mgcpy/independence_tests/mgs_ts.py.

The loops of the source are methods over arrays, proved against specification functions:

- `TimeSeries.TestStatistic` (one lag per `TimeSeries.ScanLag`), `TimeSeries.PValue` (replicates in `TimeSeries.BootstrapStatistics`) and `TimeSeries.FastPValue` (blocks in `TimeSeries.SubsampleStatistics`);
- `Hhg.TestStatistic` with its `n × n` score array, one row per `Hhg.FillRow`;
- `MgcTs.TestStatistic` and `MgcTs.PValue` (replicates in `MgcTs.Replicates`, one per `MgcTs.Replicate`).

The properties are proved as lemmas about those functions.

## Model

| member | source | states |
|---|---|---|
| TimeSeries.ValidateInput | mgcpy/independence_tests/ts_abstract_class.py:86-89 | succeeds exactly when the sample counts agree and `max_lag + 4 < n`; different counts give ShapeMismatch, a too large lag gives LagTooLarge; on success n is returned and is at least 5 |
| TimeSeries.BlockSize | mgcpy/independence_tests/ts_abstract_class.py:99 | the caller's block size if given, else the least bs with `n <= bs*bs` (`ceil(sqrt n)`) |
| TimeSeries.LagOutput | mgcpy/independence_tests/ts_abstract_class.py:136-143 | definition: the base output on the whole matrices at lag 0, else on `X[j:n, j:n]` and `Y[0:n-j, 0:n-j]` |
| TimeSeries.LagWindows | mgcpy/independence_tests/ts_abstract_class.py:141-142 | both lag-j windows are square of side `n - j`, entry (a, b) pairs X at (a+j, b+j) with Y at (a, b), and windows of distance matrices are distance matrices |
| TimeSeries.LagDependence | mgcpy/independence_tests/ts_abstract_class.py:139-144 | each per-lag dependence lies between 0 and the non-negative part of that lag's base statistic |
| TimeSeries.LagDependenceAt | mgcpy/independence_tests/ts_abstract_class.py:141-144 | at a lag j ≥ 1 the base output is that of the two lag-j windows, and the dependence is `(n - j) * max(0, statistic) / n` |
| TimeSeries.DependenceByLag | mgcpy/independence_tests/ts_abstract_class.py:132-144 | `dependence_by_lag` has M + 1 entries, entry j is the lag-j dependence and is non-negative |
| TimeSeries.LagStatistic | mgcpy/independence_tests/ts_abstract_class.py:152 | definition: the sum of `dependence_by_lag` |
| TimeSeries.LagStatisticBounds | mgcpy/independence_tests/ts_abstract_class.py:152 | the summed statistic is non-negative and at least every per-lag dependence |
| TimeSeries.LagWeights | mgcpy/independence_tests/ts_abstract_class.py:144 | the M + 1 weights `(n - j) / n` each lie in `(0, 1]` |
| TimeSeries.LagDependenceAtMostWeight | mgcpy/independence_tests/ts_abstract_class.py:139-144 | for a base statistic of at most 1, the lag-j dependence is at most `(n - j) / n` |
| TimeSeries.LagStatisticAtMostWeights | mgcpy/independence_tests/ts_abstract_class.py:122-152 | for a base statistic of at most 1, the statistic is at most `1 + sum of (n - j)/n over j = 1..M`, which is at most M + 1 |
| TimeSeries.StatisticCanExceedMaxLag | mgcpy/independence_tests/ts_abstract_class.py:122-152 | the documented range `[0, M]` does not hold: a base statistic of 1 with n = 10 and M = 1 gives 1.9 |
| TimeSeries.NoLagStatistic | mgcpy/independence_tests/ts_abstract_class.py:136-152 | with M = 0 the statistic is `max(0, base(X, Y))` |
| TimeSeries.FirstArgMaxUnique | mgcpy/independence_tests/ts_abstract_class.py:145-146 | the first position of the maximum is unique, so `optimal_lag` is determined by `dependence_by_lag` |
| TimeSeries.FirstArgMaxStep | mgcpy/independence_tests/ts_abstract_class.py:145-146 | a strict `>` update keeps the first maximum of the extended vector |
| TimeSeries.ScanLag | mgcpy/independence_tests/ts_abstract_class.py:140-147 | one loop pass stores the lag-j dependence, keeps the running lag a first maximum of the filled prefix, and keeps the scale that of the base at that lag |
| TimeSeries.TestStatistic | mgcpy/independence_tests/ts_abstract_class.py:128-154 | fails exactly when validation fails, with its error; otherwise returns the `dependence_by_lag` vector, its sum, an optimal lag that is the first maximum, and the base's scale at that lag for the MGC base only |
| TimeSeries.BootstrapIndices | mgcpy/independence_tests/ts_abstract_class.py:200-201 | the index vector has exactly n entries, each in `[0, n)` |
| TimeSeries.BootstrapIndicesAt | mgcpy/independence_tests/ts_abstract_class.py:200-201 | entry k is `(start[k // bs] + k % bs) mod n` |
| TimeSeries.WholeSeriesBlock | mgcpy/independence_tests/ts_abstract_class.py:200-201 | with `block_size = n` the index vector is the series rotated to the first draw |
| TimeSeries.BootstrapY | mgcpy/independence_tests/ts_abstract_class.py:200-202 | definition: Y with rows and columns reindexed by the bootstrap index vector |
| TimeSeries.BootstrapYIsDistance | mgcpy/independence_tests/ts_abstract_class.py:202 | the permuted Y is `n × n`, and a distance matrix stays a distance matrix (symmetric, zero diagonal) |
| TimeSeries.NullDistribution | mgcpy/independence_tests/ts_abstract_class.py:199-208 | one null value per draw: the lag statistic of X against Y bootstrapped with that draw |
| TimeSeries.StrictPValue | mgcpy/independence_tests/ts_abstract_class.py:210-212 | the p-value lies in `(0, 1]` and is at least the share of null values strictly above the observed statistic |
| TimeSeries.StrictPValueCountsExceedances | mgcpy/independence_tests/ts_abstract_class.py:210-212 | the p-value is `#{null > observed} / R`, or `1 / R` when that count is 0 |
| TimeSeries.BootstrapStatistics | mgcpy/independence_tests/ts_abstract_class.py:199-207 | the replicate loop returns, for each draw, the statistic of X against Y bootstrapped with that draw |
| TimeSeries.PValue | mgcpy/independence_tests/ts_abstract_class.py:192-215 | validation errors pass through; no replicates give NoReplicates; otherwise the null distribution is the statistic of X against each bootstrapped Y, and the p-value is the strict-count rule on it |
| TimeSeries.SubsampleSize | mgcpy/independence_tests/ts_abstract_class.py:257-258 | a requested size of at least `max_lag + 10` is kept; a smaller one becomes `max(max_lag + 10, floor(sqrt n))` |
| TimeSeries.SubsampleBlocks | mgcpy/independence_tests/ts_abstract_class.py:263-277 | the blocks `[s*i, s*(i+1))`, `i < n // s`, have length s, lie inside `[0, n)`, are pairwise disjoint, and pass the lag check of the recursive call |
| TimeSeries.SubsampleNull | mgcpy/independence_tests/ts_abstract_class.py:273-279 | there is one null value per block, `n // s` in all |
| TimeSeries.SubsampleStatistics | mgcpy/independence_tests/ts_abstract_class.py:273-279 | the subsample loop returns the statistic of each block of X against the same block of the permuted Y |
| TimeSeries.FastPValue | mgcpy/independence_tests/ts_abstract_class.py:256-279 | validation errors pass through; fewer than 4 blocks give TooFewSubsamples; otherwise it returns the observed statistic, the subsample size and the statistic on each block of X and of the once-permuted Y |
| Blocks.Runs | mgcpy/independence_tests/ts_abstract_class.py:200 | definition: the runs `np.arange(t, t + len)` of all starts, concatenated |
| Blocks.RunsAt | mgcpy/independence_tests/ts_abstract_class.py:200 | the concatenated runs have `len * #starts` entries, and entry k is `starts[k // len] + k % len` |
| Blocks.EnoughStarts | mgcpy/independence_tests/ts_abstract_class.py:200 | `n // bs + 1` runs of bs entries always reach past n, so truncating to n is possible |
| Common.CountGreater | mgcpy/independence_tests/ts_abstract_class.py:210 | definition: the number of null values strictly above the observed statistic |
| Common.CountAtLeast | mgcpy/independence_tests/mgs_ts.py:199 | definition: the number of null values at or above the observed statistic |
| Common.CeilSqrt | mgcpy/independence_tests/ts_abstract_class.py:99 | the least r with `n <= r*r`, `int(np.ceil(np.sqrt(n)))` computed exactly |
| Common.FloorSqrt | mgcpy/independence_tests/ts_abstract_class.py:258 | the greatest r with `r*r <= n`, `int(np.floor(np.sqrt(n)))` computed exactly |
| Common.CountGreaterIsCardinality | mgcpy/independence_tests/ts_abstract_class.py:210 | the strict null count equals the number of replicates above the observed statistic, at most R |
| Common.CountAtLeastIsCardinality | mgcpy/independence_tests/mgs_ts.py:199 | the weak null count equals the number of replicates at or above the observed statistic, at most R |
| Matrices.Window | mgcpy/independence_tests/ts_abstract_class.py:141-142 | definition: rows and columns `[lo, hi)`, the slice `X[lo:hi, lo:hi]` |
| Matrices.Permute | mgcpy/independence_tests/ts_abstract_class.py:202 | definition: `m[np.ix_(p, p)]` |
| Matrices.PermuteShape | mgcpy/independence_tests/ts_abstract_class.py:202 | `Y[np.ix_(p, p)]` is square of side `len(p)` and entry (a, b) is `Y[p[a]][p[b]]` |
| Hhg.MaskHoldsPair | mgcpy/independence_tests/hhg.py:61-62 | for a distance matrix, the mask of the points within `D[i][j]` of i has n entries and holds both i (at distance 0) and j (at the radius) |
| Hhg.CellsPartitionPoint | mgcpy/independence_tests/hhg.py:63-66 | every point lies in the cell of its own pair of mask values and in no other cell |
| Hhg.CellsPartition | mgcpy/independence_tests/hhg.py:61-66 | the four cell counts add up to n, since the two masks partition the points |
| Hhg.Tabulate | mgcpy/independence_tests/hhg.py:63-66 | definition: the four mask-cell counts, with 2 taken off t11 |
| Hhg.Discordance | mgcpy/independence_tests/hhg.py:70 | definition: `t12*t21 - t11*t22` |
| Hhg.Denominator | mgcpy/independence_tests/hhg.py:67 | definition: `(t11+t12)*(t21+t22)*(t11+t21)*(t12+t22)` |
| Hhg.ContingencyTable | mgcpy/independence_tests/hhg.py:61-66 | `t11 + t12 + t21 + t22 = n - 2`, and t12, t21 and t22 are non-negative |
| Hhg.BothCellNonNegative | mgcpy/independence_tests/hhg.py:61-63 | for distance matrices and i ≠ j, both i and j lie in the both-closer cell, so `t11 >= 0` |
| Hhg.CountIsSum | mgcpy/independence_tests/hhg.py:63-66 | counting a boolean mask is `np.sum` of its 0/1 values |
| Hhg.Score | mgcpy/independence_tests/hhg.py:67-70 | a non-positive denominator gives 0; otherwise the score is non-negative for n ≥ 2, and positive when n > 2 and `t12*t21 != t11*t22` |
| Hhg.Ratio | mgcpy/independence_tests/hhg.py:69-70 | `(n-2)*d^2/denom` with a positive denominator is non-negative for n ≥ 2 and positive for n > 2 and d ≠ 0 |
| Hhg.ScoreMatrix | mgcpy/independence_tests/hhg.py:56-70 | S is `n × n`, its diagonal is 0 and every entry is non-negative |
| Hhg.Statistic | mgcpy/independence_tests/hhg.py:56-71 | definition: the sum of all entries of the score matrix |
| Hhg.StatisticNonNegative | mgcpy/independence_tests/hhg.py:71 | the statistic, the sum of S, is non-negative |
| Hhg.ScoreTranspose | mgcpy/independence_tests/hhg.py:67-70 | swapping t12 and t21 leaves the score unchanged |
| Hhg.StatisticSymmetric | mgcpy/independence_tests/hhg.py:63-70 | swapping X and Y leaves S, and so the statistic, unchanged |
| Hhg.CountPermuted | mgcpy/independence_tests/hhg.py:63-66 | relabelling the points does not change a count |
| Hhg.TabulatePermuted | mgcpy/independence_tests/hhg.py:61-66 | relabelling the points does not change the table of two masks |
| Hhg.ContingencyTablePermuted | mgcpy/independence_tests/hhg.py:61-66 | the table of pair (a, b) of the relabelled matrices is the table of pair (p[a], p[b]) of the originals |
| Hhg.ScoreMatrixPermuted | mgcpy/independence_tests/hhg.py:58-70 | relabelling both matrices relabels S in the same way |
| Hhg.StatisticPermutationInvariant | mgcpy/independence_tests/hhg.py:58-71 | relabelling the points by one permutation of rows and columns of both matrices leaves the statistic unchanged |
| Hhg.TestStatistic | mgcpy/independence_tests/hhg.py:55-77 | the nested loops over the zeroed `n × n` array return the specified statistic |
| Hhg.FillRow | mgcpy/independence_tests/hhg.py:59-70 | one pass of the inner loop sets row i of the array to row i of the score matrix and leaves every other row unchanged |
| Hhg.SumEntries | mgcpy/independence_tests/hhg.py:71 | the array's entry sum equals the sum of the matrix it holds |
| MgcTs.Lags | mgcpy/independence_tests/mgs_ts.py:101 | the lag bound is `max_lag` when set, else the least M with `n <= M*M` (`ceil(sqrt n)`) |
| MgcTs.Term | mgcpy/independence_tests/mgs_ts.py:110 | definition: weight times base statistic times window length |
| MgcTs.Weight | mgcpy/independence_tests/mgs_ts.py:110 | every lag weight is a square and so non-negative |
| MgcTs.ShareBounds | mgcpy/independence_tests/mgs_ts.py:110 | for `1 <= j <= M` and p ≥ 1 the share `j/(p(M+1))` lies strictly between 0 and 1 |
| MgcTs.WeightBounds | mgcpy/independence_tests/mgs_ts.py:110 | for `1 <= j <= M` and p ≥ 1 every weight lies strictly between 0 and 1 |
| MgcTs.WeightDecreasing | mgcpy/independence_tests/mgs_ts.py:110 | later lags get strictly smaller weights |
| MgcTs.RootAtLeastOne | mgcpy/independence_tests/mgs_ts.py:100 | `p = sqrt(n)` is at least 1 for n ≥ 1 |
| MgcTs.LagWindowsSquare | mgcpy/independence_tests/mgs_ts.py:106-113 | both lag directions compare square windows of side `n - j` |
| MgcTs.Forward | mgcpy/independence_tests/mgs_ts.py:107-110 | definition: the weighted, length-scaled base statistic of `X[j:n, j:n]` against `Y[0:n-j, 0:n-j]` |
| MgcTs.Backward | mgcpy/independence_tests/mgs_ts.py:112-115 | definition: the weighted, length-scaled base statistic of `X[0:n-j, 0:n-j]` against `Y[j:n, j:n]` |
| MgcTs.LagSum | mgcpy/independence_tests/mgs_ts.py:106-115 | definition: the forward and backward terms of lags 1..k, added up |
| MgcTs.LagZero | mgcpy/independence_tests/mgs_ts.py:103-104 | definition: n times the base statistic of the whole matrices |
| MgcTs.Statistic | mgcpy/independence_tests/mgs_ts.py:102-115 | definition: the lag-0 term plus the lag sum of lags 1..M |
| MgcTs.TestStatistic | mgcpy/independence_tests/mgs_ts.py:87-120 | fails with ShapeMismatch exactly when the sample counts differ; otherwise returns `n*base(X, Y)` plus the weighted, length-scaled base statistics of lags 1..M in both directions, with the distance matrices it used as metadata |
| MgcTs.NoLagStatistic | mgcpy/independence_tests/mgs_ts.py:104-105 | with M = 0 the statistic is `n*base(X, Y)` |
| MgcTs.LagSumSwap | mgcpy/independence_tests/mgs_ts.py:106-115 | for a base that is symmetric in its arguments, swapping X and Y exchanges the forward and backward terms and keeps the lag sum |
| MgcTs.StatisticSymmetric | mgcpy/independence_tests/mgs_ts.py:102-115 | for a symmetric base, `MGC_TS(X, Y) = MGC_TS(Y, X)` |
| MgcTs.LagSumNonNegative | mgcpy/independence_tests/mgs_ts.py:106-115 | for a non-negative base the lag terms add up to a non-negative sum |
| MgcTs.StatisticNonNegative | mgcpy/independence_tests/mgs_ts.py:102-115 | for a non-negative base the statistic is non-negative |
| MgcTs.BlockIndices | mgcpy/independence_tests/mgs_ts.py:193 | the block-start index vector has exactly n entries |
| MgcTs.BlockIndicesAt | mgcpy/independence_tests/mgs_ts.py:193 | entry k is `perm[k // bs] + k % bs`, without reduction mod n |
| MgcTs.DrawIndices | mgcpy/independence_tests/mgs_ts.py:185-193 | the index vector of a permutation draw with `bs = ceil(sqrt n)` has exactly n entries |
| MgcTs.DrawIndicesNonNegative | mgcpy/independence_tests/mgs_ts.py:193 | no index is negative |
| MgcTs.RoomForBlocksWith | mgcpy/independence_tests/mgs_ts.py:185-193 | for n ≥ 3 and `bs = ceil(sqrt n)`, `n // bs + bs <= n` |
| MgcTs.IndexBound | mgcpy/independence_tests/mgs_ts.py:193 | every index lies between 0 and `n // bs + bs - 1` |
| MgcTs.RunsBound | mgcpy/independence_tests/mgs_ts.py:193 | when every block start is below c, every run entry lies between 0 and `c + bs - 2` |
| MgcTs.PermutationFits | mgcpy/independence_tests/mgs_ts.py:185-194 | for n ≥ 3 every index is in `[0, n)`, so the permuted Y exists |
| MgcTs.TwoPointSeriesOverruns | mgcpy/independence_tests/mgs_ts.py:185-194 | for n = 2 the draw [1, 0] gives the indices [1, 2], one past the end |
| MgcTs.NullStatistic | mgcpy/independence_tests/mgs_ts.py:193-197 | definition: the statistic of X against Y permuted on both axes by the draw's index vector |
| MgcTs.AtLeastPValue | mgcpy/independence_tests/mgs_ts.py:199 | the p-value is `#{null >= observed} / R`, lies in `[0, 1]` and is at least the share of strict exceedances |
| MgcTs.AtLeastPValueZero | mgcpy/independence_tests/mgs_ts.py:199 | the p-value is 0 exactly when every null value is below the observed statistic |
| MgcTs.Replicate | mgcpy/independence_tests/mgs_ts.py:193-197 | a draw fails with IndexOutOfRange exactly when its index vector leaves the series; otherwise the result is the statistic of X against Y permuted by that draw |
| MgcTs.Replicates | mgcpy/independence_tests/mgs_ts.py:190-197 | fails with IndexOutOfRange exactly when some draw's index vector leaves the series (never for n ≥ 3); otherwise returns one null statistic per draw, in order |
| MgcTs.PValue | mgcpy/independence_tests/mgs_ts.py:174-204 | fails exactly with ShapeMismatch when the sample counts differ, with IndexOutOfRange when a draw's indices leave the series (never for n ≥ 3), and with NoReplicates when there are no draws, and with nothing else; succeeds exactly when the counts agree, draws exist and every index vector fits, and then null value r is the statistic of the returned X against Y permuted by draw r and the p-value is the `>=` count rule |

## Left out

- Distance computation (`compute_distance`, `EUCLIDEAN_DISTANCE`, scipy `pdist`/`squareform`) is not modelled. Every operation starts from distance matrices, and the module that computes them is not part of this model.
- Every operation takes any square matrix as already being a distance matrix. The source turns input that is not a distance matrix into one first (hhg.py:50-53 and the base tests' own checks); that conversion is not modelled, and only the lemmas that need it (such as `Hhg.BothCellNonNegative`) require `IsDistanceMatrix`.
- HHG's detection of distance-matrix input (hhg.py:50-53) is left out. It binds `dist_mtx_X`/`dist_mtx_Y` only for data input, so distance-matrix input would raise an unbound-variable error. The model starts at hhg.py:55 from given distance matrices.
- Hhg.TestStatistic: requires X and Y to have equal sides. With unequal sides the source returns 0.0 when X has at most one point (the loops of hhg.py:58-59 never run), fails on indexing `dist_mtx_Y` at hhg.py:62 when Y has at most one point and X more, and otherwise fails with a numpy broadcasting error at `tmp1 * tmp2` (hhg.py:63). None of these outcomes is modelled.
- The metadata dictionaries are modelled by their contents, not as dictionaries: `LagSummary` carries `optimal_lag`, `dependence_by_lag` and `optimal_scale`, `MgcTs.Metadata` the distance matrices, and `PValueOutput` the null distribution. HHG's metadata, which is always empty, and the cached `test_statistic_`/`p_value_` fields are not modelled.
- joblib's `Parallel` runs replicates and subsamples concurrently. The model computes them one after another, in order.
- Randomness is not modelled. `np.random.choice` and `np.random.permutation` become parameters: the block starts (`draws`, `starts`) and the permutations of block starts (`MgcTs.PValue`'s `draws`).
- Floating point is modelled as exact reals. Rounding in `(n-j)/n`, in the HHG ratio and in the weights is not modelled, and neither is int64 overflow of the HHG denominator for very large n.
- `sqrt(n)` in MGC_TS is a real parameter p with `p * p == n`. `ceil(sqrt n)` and `floor(sqrt n)` are exact integer functions.
- The fast mode's normal and chi-square approximation (mean, standard deviation, the `10e-4` threshold, `chi2.cdf`) is left out. `TimeSeries.FastPValue` returns the subsample null distribution that approximation consumes.
- The `ceil(log n)` default lag of `_validate_input` is left out, because it is floating-point log. `max_lag` is always a number in `TimeSeries`. The source compares `max_lag >= n - 4` before that default is applied.
- MGC internals and the contents of the optimal scale are left out. The base statistic is an uninterpreted function parameter, and its scale is an opaque value.
- `HHG.p_value` is left out: it delegates to a superclass that is not part of this model.
- The fast-function imports of mgs_ts.py and the benchmark driver are left out.
- TimeSeries.TestStatistic: the docstring at ts_abstract_class.py:122 places the statistic in `[0, M]`; that range is not promised, because it does not hold (`TimeSeries.StatisticCanExceedMaxLag`). `TimeSeries.LagStatisticAtMostWeights` proves the bound that does hold for a base statistic of at most 1: the sum of the weights `(n - j) / n` over lags 0..M, at most M + 1.
- TimeSeries.PValue: requires a block size other than 0. A zero block size would divide by zero in Python, and that error is not modelled.
- TimeSeries.FastPValue: requires a block size other than 0, for the same reason.
- `replication_factor = 0` is modelled as `Err(NoReplicates)`. The source gets a NaN p-value from numpy's `0/0` in ts_abstract_class.py, and a ZeroDivisionError in mgs_ts.py.
- MgcTs.TestStatistic: requires the lag bound to be below n. For larger bounds the source's slices `[j:n]` become empty or use Python's negative indexing, which is not modelled. These requires (and `p * p == n`) are stated on X alone, so they also exclude some inputs with different sample counts and a large lag, on which the source fails first with its AssertionError (mgs_ts.py:87); the model's `ShapeMismatch` is promised only for the inputs the requires admit.
- MgcTs.PValue: requires the same lag bound as MgcTs.TestStatistic, for the same reason; likewise it excludes some inputs with different sample counts and a large lag, on which the source fails first with its AssertionError (mgs_ts.py:174).
- MgcTs.Replicate: requires the same lag bound as MgcTs.TestStatistic, for the same reason.
- MgcTs.Replicates: requires the same lag bound as MgcTs.TestStatistic, for the same reason.
