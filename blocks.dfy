/** Index runs for the block bootstraps: `np.r_[[np.arange(t, t + len) for t
    in starts]].flatten()`, the concatenation of one run of `len` consecutive
    indices per block start. */
module Blocks {

  /** `np.arange(t, t + len)`. */
  function Run(t: int, len: nat): (r: seq<int>)
    ensures |r| == len
  {
    seq(len, i => t + i)
  }

  /** The runs of all block starts, one after another. */
  function Runs(starts: seq<int>, len: nat): seq<int>
  {
    if starts == [] then [] else Run(starts[0], len) + Runs(starts[1..], len)
  }

  /** `n // bs + 1` runs of `bs` indices always reach past n. */
  lemma EnoughStarts(n: nat, bs: nat)
    requires bs >= 1
    ensures (n / bs + 1) * bs > n
  {
    var q, r := n / bs, n % bs;
    assert n == bs * q + r && r < bs;
    assert (q + 1) * bs == q * bs + bs;
  }

  /** A non-zero multiple of a positive number is at least that number in
      absolute value. */
  lemma MulAwayFromZero(a: int, d: int)
    requires a >= 0
    ensures d >= 1 ==> a * d >= a
    ensures d <= -1 ==> a * d <= -a
  {
  }

  /** Quotient and remainder are determined by the division identity. */
  lemma DivModUnique(k: int, len: nat, q: int, r: int)
    requires len > 0 && k == len * q + r && 0 <= r < len
    ensures k / len == q && k % len == r
  {
    var q0, r0 := k / len, k % len;
    var d := q - q0;
    assert len * d == r0 - r by {
      assert len * q == len * q0 + len * d;
    }
    MulAwayFromZero(len, d);
  }

  /** Stepping back one whole block lowers the quotient by one and keeps
      the remainder. */
  lemma PreviousBlock(k: int, len: nat)
    requires len > 0 && len <= k
    ensures (k - len) / len == k / len - 1 && (k - len) % len == k % len
  {
    var j := k - len;
    var q, r := j / len, j % len;
    assert k == len * (q + 1) + r by {
      assert len * (q + 1) == len * q + len;
    }
    DivModUnique(k, len, q + 1, r);
  }

  /** An index below m blocks lies in one of the first m blocks. */
  lemma BlockBound(j: int, len: nat, m: nat)
    requires len > 0 && 0 <= j < m * len
    ensures 0 <= j / len < m
  {
    var q := j / len;
    assert len * (m - q) == len * m - len * q;
    MulAwayFromZero(len, m - q);
    MulAwayFromZero(len, q);
  }

  /** Closed form of the concatenated runs: position k lies in block
      k / len, at offset k % len from that block's start. */
  lemma {:induction false} RunsAt(starts: seq<int>, len: nat, k: int)
    requires len > 0
    ensures |Runs(starts, len)| == |starts| * len
    ensures 0 <= k < |starts| * len ==> Runs(starts, len)[k] == starts[k / len] + k % len
  {
    if starts != [] {
      var rest := starts[1..];
      RunsAt(rest, len, k - len);
      var rs := Runs(starts, len);
      assert |starts| * len == |rest| * len + len;
      assert rs == Run(starts[0], len) + Runs(rest, len);
      if 0 <= k < len {
        DivModUnique(k, len, 0, k);
        assert rs[k] == Run(starts[0], len)[k] == starts[0] + k;
      } else if len <= k < |starts| * len {
        var j := k - len;
        BlockBound(j, len, |rest|);
        PreviousBlock(k, len);
        assert rs[k] == Runs(rest, len)[j] == rest[j / len] + j % len;
      }
    }
  }
}
