/** The offline CDF trainer (tools/aom_entropy_optimizer.c): counts of
    each symbol become a cumulative distribution over CDF_PROB_TOP, and
    the recursive table walkers consume a multi-dimensional count array
    through a shared cursor. What the tool prints is modelled as the
    values it would print; the text formatting is not. */
module EntropyOptimizer {
  import opened IntArith

  const CDF_MAX_SIZE: int := 16
  /** 1 << CDF_PROB_BITS with 15-bit probabilities. */
  const CDF_PROB_TOP: int := 32768
  /** aom_count_type is unsigned int. */
  const UINT_RANGE: int := 0x1_0000_0000

  predicate IsCount(c: int)
  {
    0 <= c < UINT_RANGE
  }

  predicate AllCounts(cs: seq<int>)
  {
    forall j :: 0 <= j < |cs| ==> IsCount(cs[j])
  }

  /** csum[i] of counts_to_cdf with the add-one taken in 64 bits: the
      prefix sum of counts[0..i], each count plus one. */
  function Csum(cs: seq<int>, i: int): (s: int)
    requires 0 <= i < |cs| && AllCounts(cs)
    ensures i + 1 <= s <= (i + 1) * UINT_RANGE
    decreases i
  {
    (if i == 0 then 0 else Csum(cs, i - 1)) + cs[i] + 1
  }

  /** csum[i] as the source computes it: `counts[i] + 1` is evaluated in
      unsigned int, so a count of UINT_MAX contributes 0. */
  function CsumAsWritten(cs: seq<int>, i: int): int
    requires 0 <= i < |cs|
    decreases i
  {
    (if i == 0 then 0 else CsumAsWritten(cs, i - 1)) + (cs[i] + 1) % UINT_RANGE
  }

  /** With one count of UINT_MAX the as-written total is 0, and
      `(csum[i] * CDF_PROB_TOP + round_shift) / sum` divides by zero. */
  lemma CsumAsWrittenCanBeZero()
    ensures var cs := [UINT_RANGE - 1];
      AllCounts(cs) && CsumAsWritten(cs, 0) == 0 && Csum(cs, 0) == UINT_RANGE
  {
  }

  /** Entry i of the CDF that counts_to_cdf computes for cs[..modes]: the
      rounded proportion of the prefix sum, capped, then kept at least 4
      above the previous entry (or at least 4 for the first). */
  function Cdf(cs: seq<int>, modes: int, i: int): int
    requires 1 <= modes <= |cs| && AllCounts(cs) && 0 <= i < modes
    decreases i
  {
    CdfStep(Csum(cs, i), Csum(cs, modes - 1), modes, i, if i == 0 then 0 else Cdf(cs, modes, i - 1))
  }

  /** One entry from its prefix sum, the total and the entry before it. */
  function CdfStep(csum: int, sum: int, modes: int, i: int, prev: int): int
    requires sum > 0
  {
    var raw := Scaled(csum, sum);
    var capped := Min(raw, CDF_PROB_TOP - (modes - 1 + i) * 4);
    if i == 0 then Max(capped, 4) else Max(capped, prev + 4)
  }

  /** `(csum[i] * CDF_PROB_TOP + round_shift) / sum`: the prefix sum as a
      rounded proportion of CDF_PROB_TOP. */
  function Scaled(csum: int, sum: int): int
    requires sum > 0
  {
    (csum * CDF_PROB_TOP + Shr(sum, 1)) / sum
  }

  /** A prefix sum within the total scales to at most CDF_PROB_TOP. */
  lemma ScaledFits(c: int, sum: int)
    requires 0 <= c <= sum && 0 < sum
    ensures 0 <= Scaled(c, sum) <= CDF_PROB_TOP
  {
    Pow2Values();
    MulLeq(c, sum, CDF_PROB_TOP);
    DivBelow(c * CDF_PROB_TOP + Shr(sum, 1), sum, CDF_PROB_TOP);
  }

  /** The prefix sums grow with i, so they never pass the total. */
  lemma {:induction false} CsumMonotone(cs: seq<int>, i: int, j: int)
    requires 0 <= i <= j < |cs| && AllCounts(cs)
    ensures Csum(cs, i) <= Csum(cs, j)
    decreases j - i
  {
    if i < j {
      CsumMonotone(cs, i, j - 1);
    }
  }

  /** Before the clamps an entry is at most CDF_PROB_TOP, so it fits the
      16-bit aom_cdf_prob it is first stored in. */
  lemma RawFits(cs: seq<int>, modes: int, i: int)
    requires 1 <= modes <= |cs| && AllCounts(cs) && 0 <= i < modes
    ensures 0 <= Scaled(Csum(cs, i), Csum(cs, modes - 1)) <= CDF_PROB_TOP
  {
    CsumMonotone(cs, i, modes - 1);
    ScaledFits(Csum(cs, i), Csum(cs, modes - 1));
  }

  /** A quotient below q + 1 when the dividend is below (q + 1) * d. */
  lemma DivBelow(a: int, d: int, q: int)
    requires 0 <= a < (q + 1) * d && 0 < d
    ensures 0 <= a / d <= q
  {
    var r := a / d;
    assert a == r * d + a % d;
    if r >= q + 1 {
      MulLeq(q + 1, r, d);
    }
  }

  /** The CDF is strictly increasing in steps of at least 4, starts at 4 or
      more, and leaves room for 4 per remaining symbol below
      CDF_PROB_TOP; in particular every entry fits in 16 bits. */
  lemma {:induction false} CdfBounds(cs: seq<int>, modes: int, i: int)
    requires 1 <= modes <= CDF_MAX_SIZE && modes <= |cs| && AllCounts(cs) && 0 <= i < modes
    ensures 4 * (i + 1) <= Cdf(cs, modes, i) <= CDF_PROB_TOP - 4 * (modes - 1 - i)
    ensures i == 0 ==> Cdf(cs, modes, i) >= 4
    ensures i > 0 ==> Cdf(cs, modes, i) >= Cdf(cs, modes, i - 1) + 4
    decreases i
  {
    if i > 0 {
      CdfBounds(cs, modes, i - 1);
    }
  }

  /** counts_to_cdf: fills cdf[0..modes) from counts[off..off+modes). */
  method CountsToCdf(counts: array<int>, off: int, cdf: array<int>, modes: int)
    requires 1 <= modes <= CDF_MAX_SIZE && modes <= cdf.Length
    requires 0 <= off && off + modes <= counts.Length && AllCounts(counts[off..off + modes])
    requires counts != cdf
    modifies cdf
    ensures forall i :: 0 <= i < modes ==> cdf[i] == Cdf(old(counts[off..off + modes]), modes, i)
    ensures forall i :: modes <= i < cdf.Length ==> cdf[i] == old(cdf[i])
  {
    ghost var cs := counts[off..off + modes];
    var csum := PrefixSums(counts, off, modes);
    var sum := csum[modes - 1];
    var i := 0;
    while i < modes
      invariant 0 <= i <= modes
      invariant forall j :: 0 <= j < i ==> cdf[j] == Cdf(cs, modes, j)
      invariant forall j :: modes <= j < cdf.Length ==> cdf[j] == old(cdf[j])
      invariant forall j :: 0 <= j < modes ==> csum[j] == Csum(cs, j)
    {
      var prev := if i == 0 then 0 else cdf[i - 1];
      cdf[i] := CdfStep(csum[i], sum, modes, i, prev);
      assert Cdf(cs, modes, i) == CdfStep(Csum(cs, i), Csum(cs, modes - 1), modes, i, prev);
      i := i + 1;
    }
  }

  /** The csum array of counts_to_cdf, 64-bit add-one prefix sums. */
  method PrefixSums(counts: array<int>, off: int, modes: int) returns (csum: array<int>)
    requires 1 <= modes <= CDF_MAX_SIZE
    requires 0 <= off && off + modes <= counts.Length && AllCounts(counts[off..off + modes])
    ensures fresh(csum) && csum.Length == CDF_MAX_SIZE
    ensures forall j :: 0 <= j < modes ==> csum[j] == Csum(counts[off..off + modes], j)
  {
    ghost var cs := counts[off..off + modes];
    csum := new int[CDF_MAX_SIZE];
    csum[0] := counts[off] + 1;
    var i := 1;
    while i < modes
      invariant 1 <= i <= modes
      invariant forall j :: 0 <= j < i ==> csum[j] == Csum(cs, j)
    {
      assert counts[off + i] == cs[i];
      csum[i] := counts[off + i] + 1 + csum[i - 1];
      i := i + 1;
    }
  }

  /** The product of the dimensions: how many counts an array of that shape
      holds. */
  function Product(dims: seq<int>): int
  {
    if dims == [] then 1 else dims[0] * Product(dims[1..])
  }

  predicate Dims(dims: seq<int>)
  {
    forall j :: 0 <= j < |dims| ==> dims[j] >= 0
  }

  lemma {:induction false} ProductNonNegative(dims: seq<int>)
    requires Dims(dims)
    ensures Product(dims) >= 0
  {
    if dims != [] {
      ProductNonNegative(dims[1..]);
    }
  }

  /** parse_stats' walk over the counts of a binary syntax: returns the
      status and the new cursor. A dimension below 1 fails without
      consuming anything; otherwise the walk consumes the whole array. The
      source asserts that the innermost dimension is 2. */
  method ParseStats(ct: int, dims: seq<int>, flattenLastDim: bool) returns (status: int, next: int)
    requires Dims(dims) && (|dims| >= 1 ==> dims[|dims| - 1] == 2)
    ensures |dims| < 1 ==> status == 1 && next == ct
    ensures |dims| >= 1 ==> status == 0 && next == ct + Product(dims)
    decreases |dims|
  {
    if |dims| < 1 {
      return 1, ct;
    }
    var totalModes := dims[0];
    next := ct;
    if |dims| == 1 {
      assert Product(dims) == totalModes by {
        assert dims[1..] == [];
      }
      next := next + totalModes;
    } else if |dims| == 2 && flattenLastDim {
      assert Product(dims[1..]) == 2 by {
        assert dims[1..][1..] == [];
      }
      var k := 0;
      while k < totalModes
        invariant 0 <= k <= totalModes && next == ct + 2 * k
      {
        next := next + 2;
        k := k + 1;
      }
    } else {
      ghost var p := Product(dims[1..]);
      ProductNonNegative(dims[1..]);
      var k := 0;
      while k < totalModes
        invariant 0 <= k <= totalModes && next == ct + k * p
      {
        var s;
        s, next := ParseStats(next, dims[1..], flattenLastDim);
        MulSucc(k, p);
        k := k + 1;
      }
    }
    status := 0;
  }

  /** The entries of one CDF that parse_counts_for_cdf_opt prints: all but
      the last, which is implied. */
  function Printed(cs: seq<int>, ct: int, modes: int): (row: seq<int>)
    requires 1 <= modes && 0 <= ct && ct + modes <= |cs| && AllCounts(cs[ct..ct + modes])
    ensures |row| == modes - 1
  {
    seq(modes - 1, i requires 0 <= i < modes - 1 => Cdf(cs[ct..ct + modes], modes, i))
  }

  predicate CdfShape(dims: seq<int>)
  {
    |dims| >= 1 && Dims(dims) && 1 <= dims[|dims| - 1] <= CDF_MAX_SIZE
  }

  /** The CDFs of an array of counts of shape dims starting at ct, in the
      order the walk visits them. */
  function Table(cs: seq<int>, ct: int, dims: seq<int>): seq<seq<int>>
    requires CdfShape(dims) && 0 <= ct && AllCounts(cs) && ct + Product(dims) <= |cs|
    decreases |dims|, 1
  {
    if |dims| == 1 then [Printed(cs, ct, dims[0])]
    else
      ProductNonNegative(dims[1..]);
      Blocks(cs, ct, dims, dims[0])
  }

  /** The tables of the first k sub-arrays of the outermost dimension. */
  function Blocks(cs: seq<int>, ct: int, dims: seq<int>, k: int): seq<seq<int>>
    requires CdfShape(dims) && |dims| >= 2 && 0 <= k <= dims[0] && 0 <= ct && AllCounts(cs)
    requires ct + Product(dims) <= |cs|
    decreases |dims|, 0, k
  {
    if k == 0 then []
    else
      var p := Product(dims[1..]);
      ProductNonNegative(dims[1..]);
      BlockFits(dims[0], p, k - 1);
      Blocks(cs, ct, dims, k - 1) + Table(cs, ct + (k - 1) * p, dims[1..])
  }

  /** Dropping the outermost dimension keeps the shape; the whole holds
      dims[0] sub-arrays. */
  lemma InnerShape(dims: seq<int>)
    requires CdfShape(dims) && |dims| >= 2
    ensures CdfShape(dims[1..])
    ensures Product(dims[1..]) >= 0 && Product(dims) == dims[0] * Product(dims[1..])
  {
    ProductNonNegative(dims[1..]);
  }

  /** Walking one more sub-array appends its table. */
  lemma BlocksStep(cs: seq<int>, ct: int, dims: seq<int>, k: int, p: int, sub: seq<seq<int>>)
    requires CdfShape(dims) && |dims| >= 2 && 0 <= k < dims[0] && 0 <= ct && AllCounts(cs)
    requires ct + Product(dims) <= |cs| && p == Product(dims[1..]) && 0 <= k * p
    requires ct + k * p + p <= |cs|
    requires sub == Table(cs, ct + k * p, dims[1..])
    ensures Blocks(cs, ct, dims, k + 1) == Blocks(cs, ct, dims, k) + sub
  {
  }

  /** Sub-array k of n sub-arrays of size p ends within the whole. */
  lemma BlockFits(n: int, p: int, k: int)
    requires 0 <= k < n && 0 <= p
    ensures k * p + p <= n * p && 0 <= k * p
  {
    assert (k + 1) * p <= n * p by {
      MulLeq(k + 1, n, p);
    }
  }

  lemma MulSucc(k: int, p: int)
    ensures (k + 1) * p == k * p + p
  {
  }

  lemma MulLeq(a: int, b: int, p: int)
    requires 0 <= a <= b && 0 <= p
    ensures a * p <= b * p
  {
  }

  /** parse_counts_for_cdf_opt: returns the status, the new cursor and the
      CDFs printed. A dimension below 1 fails without consuming anything;
      otherwise every count of the array is consumed and one CDF is
      produced per innermost vector. */
  method ParseCountsForCdfOpt(counts: array<int>, ct: int, dims: seq<int>)
    returns (status: int, next: int, cdfs: seq<seq<int>>)
    requires |dims| >= 1 ==> CdfShape(dims) && 0 <= ct && ct + Product(dims) <= counts.Length
    requires AllCounts(counts[..])
    ensures |dims| < 1 ==> status == 1 && next == ct && cdfs == []
    ensures |dims| >= 1 ==> status == 0 && next == ct + Product(dims)
    ensures |dims| >= 1 ==> cdfs == Table(counts[..], ct, dims)
    decreases |dims|
  {
    if |dims| < 1 {
      return 1, ct, [];
    }
    var totalModes := dims[0];
    if |dims| == 1 {
      assert Product(dims) == totalModes by {
        assert dims[1..] == [];
      }
      var row := LeafCdf(counts, ct, totalModes);
      next := ct + totalModes;
      cdfs := [row];
    } else {
      ghost var p := Product(dims[1..]);
      InnerShape(dims);
      next := ct;
      cdfs := [];
      var k := 0;
      while k < totalModes
        invariant 0 <= k <= totalModes && next == ct + k * p
        invariant cdfs == Blocks(counts[..], ct, dims, k)
      {
        BlockFits(totalModes, p, k);
        var s, n, sub := ParseCountsForCdfOpt(counts, next, dims[1..]);
        BlocksStep(counts[..], ct, dims, k, p, sub);
        MulSucc(k, p);
        cdfs := cdfs + sub;
        next := n;
        k := k + 1;
      }
      assert Table(counts[..], ct, dims) == cdfs;
    }
    status := 0;
  }

  /** The leaf of parse_counts_for_cdf_opt: the CDF of the next `modes`
      counts, into a local array, of which all but the last entry is
      printed. */
  method LeafCdf(counts: array<int>, ct: int, modes: int) returns (row: seq<int>)
    requires 1 <= modes <= CDF_MAX_SIZE && 0 <= ct && ct + modes <= counts.Length
    requires AllCounts(counts[..])
    ensures row == Printed(counts[..], ct, modes)
  {
    var cdf := new int[CDF_MAX_SIZE];
    assert counts[ct..ct + modes] == counts[..][ct..ct + modes];
    CountsToCdf(counts, ct, cdf, modes);
    row := cdf[..modes - 1];
  }
}
