/** Shared vocabulary of the independence tests: error results, the interface
    of a base dependence statistic, and small arithmetic helpers
    (non-negative part, sums, integer square roots, exceedance counts). */
module Common {

  datatype Option<+T> = None | Some(value: T)

  datatype Result<+T, +E> = Ok(value: T) | Err(error: E)

  /** The ways a call can fail before (or while) producing a result. */
  datatype InputError =
    | ShapeMismatch     // X and Y have different sample counts
    | LagTooLarge       // max_lag >= n - 4
    | TooFewSubsamples  // fast mode: fewer than 4 disjoint subsamples fit
    | IndexOutOfRange   // a bootstrap index vector points past the matrix
    | NoReplicates      // replication_factor == 0, so the p-value divides by zero

  /** The "optimal scale" a multiscale base statistic reports, a pair of
      neighbourhood sizes. */
  datatype Scale = Scale(k: nat, l: nat)

  /** What a base statistic returns: its value and, for a multiscale base,
      the scale at which that value was attained. */
  datatype BaseOutput = BaseOutput(statistic: real, optimalScale: Scale)

  /** A base dependence statistic computed from two distance matrices. It is
      an injected capability: the lag wrappers never look inside it. */
  type BaseTest = (seq<seq<real>>, seq<seq<real>>) -> BaseOutput

  /** What a `p_value` reports: the p-value and the null distribution. */
  datatype PValueOutput = PValueOutput(pValue: real, nullDistribution: seq<real>)

  /** numpy's `np.maximum(0.0, x)`. */
  function Max0(x: real): (r: real)
    ensures r >= 0.0 && r >= x
    ensures r == x || r == 0.0
  {
    if x > 0.0 then x else 0.0
  }

  /** `np.sum` of a vector. */
  function Sum(s: seq<real>): real
  {
    if s == [] then 0.0 else s[0] + Sum(s[1..])
  }

  lemma {:induction false} SumAppend(s: seq<real>, t: seq<real>)
    ensures Sum(s + t) == Sum(s) + Sum(t)
  {
    if s == [] {
      assert s + t == t;
    } else {
      assert (s + t)[1..] == s[1..] + t;
      SumAppend(s[1..], t);
    }
  }

  /** Summing left to right, as an accumulating loop does, gives `Sum`. */
  lemma SumSnoc(s: seq<real>, k: nat)
    requires k < |s|
    ensures Sum(s[..k + 1]) == Sum(s[..k]) + s[k]
  {
    assert s[..k + 1] == s[..k] + [s[k]];
    SumAppend(s[..k], [s[k]]);
  }

  /** A sum of non-negative terms is non-negative. */
  lemma {:induction false} SumNonNegative(s: seq<real>)
    requires forall k :: 0 <= k < |s| ==> s[k] >= 0.0
    ensures Sum(s) >= 0.0
  {
    if s != [] {
      SumNonNegative(s[1..]);
    }
  }

  /** Every term of a non-negative sum is bounded by the sum. */
  lemma {:induction false} SumBoundsTerms(s: seq<real>, k: nat)
    requires forall i :: 0 <= i < |s| ==> s[i] >= 0.0
    requires k < |s|
    ensures s[k] <= Sum(s)
  {
    if k == 0 {
      SumNonNegative(s[1..]);
    } else {
      SumBoundsTerms(s[1..], k - 1);
    }
  }

  /** Sums are monotone in their terms. */
  lemma {:induction false} SumMonotone(s: seq<real>, t: seq<real>)
    requires |s| == |t|
    requires forall k :: 0 <= k < |s| ==> s[k] <= t[k]
    ensures Sum(s) <= Sum(t)
  {
    if s != [] {
      SumMonotone(s[1..], t[1..]);
    }
  }

  /** A sum of terms of at most 1 is at most the number of terms. */
  lemma {:induction false} SumAtMostLength(s: seq<real>)
    requires forall k :: 0 <= k < |s| ==> s[k] <= 1.0
    ensures Sum(s) <= |s| as real
  {
    if s != [] {
      SumAtMostLength(s[1..]);
    }
  }

  /** `int(np.ceil(np.sqrt(n)))`, computed exactly on integers: the least
      r with n <= r * r. */
  function CeilSqrt(n: nat): (r: nat)
    ensures n <= r * r
    ensures r == 0 || (r - 1) * (r - 1) < n
  {
    CeilSqrtFrom(n, 0)
  }

  function CeilSqrtFrom(n: nat, k: nat): (r: nat)
    requires k == 0 || (k - 1) * (k - 1) < n
    ensures n <= r * r
    ensures r == 0 || (r - 1) * (r - 1) < n
    decreases n - k
  {
    if n <= k * k then k
    else
      assert k < n by {
        if k > 0 { assert k * k >= k; }
      }
      CeilSqrtFrom(n, k + 1)
  }

  /** `int(np.floor(np.sqrt(n)))`, computed exactly on integers: the
      largest r with r * r <= n. */
  function FloorSqrt(n: nat): (r: nat)
    ensures r * r <= n < (r + 1) * (r + 1)
  {
    FloorSqrtFrom(n, 0)
  }

  function FloorSqrtFrom(n: nat, k: nat): (r: nat)
    requires k * k <= n
    ensures r * r <= n < (r + 1) * (r + 1)
    decreases n - k
  {
    if n < (k + 1) * (k + 1) then k
    else
      assert k < n by {
        assert (k + 1) * (k + 1) >= k + 1;
      }
      FloorSqrtFrom(n, k + 1)
  }

  /** Number of null statistics strictly greater than the observed one
      (`np.sum(np.greater(nulls, observed))`). */
  function CountGreater(nulls: seq<real>, observed: real): nat
  {
    if nulls == [] then 0
    else (if nulls[0] > observed then 1 else 0) + CountGreater(nulls[1..], observed)
  }

  /** Number of null statistics at least the observed one
      (`np.where(nulls >= observed)[0].shape[0]`). */
  function CountAtLeast(nulls: seq<real>, observed: real): nat
  {
    if nulls == [] then 0
    else (if nulls[0] >= observed then 1 else 0) + CountAtLeast(nulls[1..], observed)
  }

  /** The indices of the null statistics that exceed the observed one. */
  ghost function Exceeding(nulls: seq<real>, observed: real): set<int>
  {
    set k | 0 <= k < |nulls| && nulls[k] > observed
  }

  ghost function Reaching(nulls: seq<real>, observed: real): set<int>
  {
    set k | 0 <= k < |nulls| && nulls[k] >= observed
  }

  lemma {:induction false} CountGreaterAppend(s: seq<real>, t: seq<real>, observed: real)
    ensures CountGreater(s + t, observed) == CountGreater(s, observed) + CountGreater(t, observed)
  {
    if s == [] {
      assert s + t == t;
    } else {
      assert (s + t)[1..] == s[1..] + t;
      CountGreaterAppend(s[1..], t, observed);
    }
  }

  lemma {:induction false} CountAtLeastAppend(s: seq<real>, t: seq<real>, observed: real)
    ensures CountAtLeast(s + t, observed) == CountAtLeast(s, observed) + CountAtLeast(t, observed)
  {
    if s == [] {
      assert s + t == t;
    } else {
      assert (s + t)[1..] == s[1..] + t;
      CountAtLeastAppend(s[1..], t, observed);
    }
  }

  /** The recursive counts agree with the set-of-indices definition, so they
      count each replicate once, whatever order the replicates come in. */
  lemma {:induction false} CountGreaterIsCardinality(nulls: seq<real>, observed: real)
    ensures CountGreater(nulls, observed) == |Exceeding(nulls, observed)|
    ensures CountGreater(nulls, observed) <= |nulls|
    decreases |nulls|
  {
    if nulls == [] {
      assert Exceeding(nulls, observed) == {};
    } else {
      var last := |nulls| - 1;
      var init := nulls[..last];
      CountGreaterIsCardinality(init, observed);
      assert nulls == init + [nulls[last]];
      CountGreaterAppend(init, [nulls[last]], observed);
      assert last !in Exceeding(init, observed);
      if nulls[last] > observed {
        assert Exceeding(nulls, observed) == Exceeding(init, observed) + {last};
      } else {
        assert Exceeding(nulls, observed) == Exceeding(init, observed);
      }
    }
  }

  lemma {:induction false} CountAtLeastIsCardinality(nulls: seq<real>, observed: real)
    ensures CountAtLeast(nulls, observed) == |Reaching(nulls, observed)|
    ensures CountAtLeast(nulls, observed) <= |nulls|
    decreases |nulls|
  {
    if nulls == [] {
      assert Reaching(nulls, observed) == {};
    } else {
      var last := |nulls| - 1;
      var init := nulls[..last];
      CountAtLeastIsCardinality(init, observed);
      assert nulls == init + [nulls[last]];
      CountAtLeastAppend(init, [nulls[last]], observed);
      assert last !in Reaching(init, observed);
      if nulls[last] >= observed {
        assert Reaching(nulls, observed) == Reaching(init, observed) + {last};
      } else {
        assert Reaching(nulls, observed) == Reaching(init, observed);
      }
    }
  }

  /** Every strict exceedance is also a weak one, so the `>=` count is never
      below the `>` count. */
  lemma {:induction false} CountGreaterAtMostCountAtLeast(nulls: seq<real>, observed: real)
    ensures CountGreater(nulls, observed) <= CountAtLeast(nulls, observed)
  {
    if nulls != [] {
      CountGreaterAtMostCountAtLeast(nulls[1..], observed);
    }
  }
}
