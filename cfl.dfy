/** Chroma-from-luma helpers of av1/common/cfl.c: the CfL context and its
    32x32 Q3 luma buffer, padding past the frame edge, the average
    subtraction, the luma subsamplers, the alpha decoding and the
    least-squares fit of the non-signalled variant.

    cfl.h is not part of this model: CFL_BUF_LINE is libaom's 32, and the
    joint-sign and index packing follow the cfl_alpha_signs and
    cfl_alpha_u/v semantics of the AV1 specification. */
module Cfl {
  import opened IntArith

  const CFL_BUF_LINE: int := 32
  const CFL_BUF_SQUARE: int := 1024
  const CFL_PRED_PLANES: int := 2
  const CFL_SIGN_ZERO: int := 0
  const CFL_SIGN_NEG: int := 1
  const CFL_SIGN_POS: int := 2
  const CFL_SIGNS: int := 3
  const CFL_JOINT_SIGNS: int := 8

  /** Index of row j, column i of the 32-wide buffer. */
  function Cell(j: int, i: int): int
  {
    j * CFL_BUF_LINE + i
  }

  /** The CfL state of one block (CFL_CTX), limited to the fields the
      modelled functions touch. */
  class CflCtx {
    const reconBufQ3: array<int>
    const acBufQ3: array<int>
    const dcPredIsCached: array<bool>
    const alphaIsCached: array<bool>
    var subsamplingX: int
    var subsamplingY: int
    var areParametersComputed: bool
    var storeY: bool
    var useDcPredCache: bool
    var bufWidth: int
    var bufHeight: int

    predicate Valid()
      reads this
    {
      reconBufQ3.Length == CFL_BUF_SQUARE && acBufQ3.Length == CFL_BUF_SQUARE
      && dcPredIsCached.Length == CFL_PRED_PLANES && alphaIsCached.Length == CFL_PRED_PLANES
      && reconBufQ3 != acBufQ3 && dcPredIsCached != alphaIsCached
      && 0 <= bufWidth <= CFL_BUF_LINE && 0 <= bufHeight <= CFL_BUF_LINE
    }

    constructor()
      ensures Valid() && fresh(reconBufQ3) && fresh(acBufQ3) && fresh(dcPredIsCached) && fresh(alphaIsCached)
    {
      reconBufQ3 := new int[CFL_BUF_SQUARE];
      acBufQ3 := new int[CFL_BUF_SQUARE];
      dcPredIsCached := new bool[CFL_PRED_PLANES];
      alphaIsCached := new bool[CFL_PRED_PLANES];
      bufWidth, bufHeight := 0, 0;
    }

    /** cfl_init: both buffers zeroed, the subsampling taken from the
        sequence, and every computed, store and cache flag cleared. */
    method Init(subX: int, subY: int)
      requires Valid()
      modifies this, reconBufQ3, acBufQ3, dcPredIsCached, alphaIsCached
      ensures Valid()
      ensures forall k :: 0 <= k < CFL_BUF_SQUARE ==> reconBufQ3[k] == 0 && acBufQ3[k] == 0
      ensures subsamplingX == subX && subsamplingY == subY
      ensures !areParametersComputed && !storeY && !useDcPredCache
      ensures forall p :: 0 <= p < CFL_PRED_PLANES ==> !dcPredIsCached[p] && !alphaIsCached[p]
      ensures bufWidth == old(bufWidth) && bufHeight == old(bufHeight)
    {
      var k := 0;
      while k < CFL_BUF_SQUARE
        invariant 0 <= k <= CFL_BUF_SQUARE
        invariant forall k0 :: 0 <= k0 < k ==> reconBufQ3[k0] == 0 && acBufQ3[k0] == 0
        invariant bufWidth == old(bufWidth) && bufHeight == old(bufHeight)
      {
        reconBufQ3[k] := 0;
        acBufQ3[k] := 0;
        k := k + 1;
      }
      subsamplingX, subsamplingY := subX, subY;
      areParametersComputed, storeY, useDcPredCache := false, false, false;
      dcPredIsCached[0], dcPredIsCached[1] := false, false;
      alphaIsCached[0], alphaIsCached[1] := false, false;
    }

    /** cfl_pad: when the chroma block is wider or taller than the stored
        luma, the missing pixels copy the nearest stored one (last column of
        their row, then the last row), and the stored extent grows to the
        block. */
    method Pad(width: int, height: int)
      requires Valid()
      requires 0 <= width <= CFL_BUF_LINE && 0 <= height <= CFL_BUF_LINE
      requires width > bufWidth ==> 1 <= bufWidth
      requires height > bufHeight ==> 1 <= bufHeight
      modifies this, reconBufQ3
      ensures Valid()
      ensures bufWidth == Max(old(bufWidth), width) && bufHeight == Max(old(bufHeight), height)
      ensures forall j, i :: 0 <= j < CFL_BUF_LINE && 0 <= i < CFL_BUF_LINE ==>
        reconBufQ3[Cell(j, i)] == PadValue(old(reconBufQ3[..]), old(bufWidth), old(bufHeight), width, height, j, i)
      ensures subsamplingX == old(subsamplingX) && subsamplingY == old(subsamplingY)
      ensures areParametersComputed == old(areParametersComputed)
      ensures storeY == old(storeY) && useDcPredCache == old(useDcPredCache)
    {
      ghost var b0 := reconBufQ3[..];
      var bw, bh := bufWidth, bufHeight;
      if width > bw {
        PadColumns(reconBufQ3, bw, bh, width);
        bufWidth := width;
      }
      ghost var b1 := reconBufQ3[..];
      if height > bh {
        PadRows(reconBufQ3, bh, width, height);
        bufHeight := height;
      }
      forall j, i | 0 <= j < CFL_BUF_LINE && 0 <= i < CFL_BUF_LINE
        ensures reconBufQ3[Cell(j, i)] == PadValue(b0, bw, bh, width, height, j, i)
      {
        if bh <= j < height && i < width {
          assert reconBufQ3[Cell(j, i)] == b1[Cell(bh - 1, i)];
        }
      }
    }

    /** cfl_store: invalidates the parameters, records (at block (0, 0)) or
        grows the stored extent, and subsamples the luma block into the
        buffer at its place. tx_size enters as its width and height;
        use_hbd is left out since both depths run the same code. */
    method Store(input: seq<int>, inputStride: int, row: int, col: int, width: int, height: int)
      requires Valid()
      requires (subsamplingX, subsamplingY) in {(0, 0), (1, 0), (1, 1)}
      requires 0 <= row && 0 <= col && 0 <= width && 0 <= height && width % 2 == 0 && height % 2 == 0
      requires Shl(row, 2 - subsamplingY) + Shr(height, subsamplingY) <= CFL_BUF_LINE
      requires Shl(col, 2 - subsamplingX) + Shr(width, subsamplingX) <= CFL_BUF_LINE
      requires InputCovers(|input|, inputStride, subsamplingX, subsamplingY, width, height)
      modifies this, reconBufQ3
      ensures Valid() && !areParametersComputed
      ensures subsamplingX == old(subsamplingX) && subsamplingY == old(subsamplingY)
      ensures storeY == old(storeY) && useDcPredCache == old(useDcPredCache)
      ensures row == 0 && col == 0 ==>
        bufWidth == Shr(width, subsamplingX) && bufHeight == Shr(height, subsamplingY)
      ensures !(row == 0 && col == 0) ==>
        bufWidth == Max(Shl(col, 2 - subsamplingX) + Shr(width, subsamplingX), old(bufWidth))
        && bufHeight == Max(Shl(row, 2 - subsamplingY) + Shr(height, subsamplingY), old(bufHeight))
      ensures forall j, i :: 0 <= j < CFL_BUF_LINE && 0 <= i < CFL_BUF_LINE ==>
        reconBufQ3[Cell(j, i)] == Stored(old(reconBufQ3[..]), input, inputStride, subsamplingX, subsamplingY,
                                         width, height, Shl(row, 2 - subsamplingY), Shl(col, 2 - subsamplingX), j, i)
    {
      var subX, subY := subsamplingX, subsamplingY;
      var storeRow, storeCol := Shl(row, 2 - subY), Shl(col, 2 - subX);
      var storeHeight, storeWidth := Shr(height, subY), Shr(width, subX);
      StoreExtent(width, height, subX, subY);
      var w, h := storeWidth, storeHeight;
      if !(col == 0 && row == 0) {
        w, h := Max(storeCol + storeWidth, bufWidth), Max(storeRow + storeHeight, bufHeight);
      }
      areParametersComputed, bufWidth, bufHeight := false, w, h;
      Subsample(input, inputStride, reconBufQ3, subX, subY, storeRow, storeCol, width, height);
    }
  }

  /** cfl_subsampling_{lbd,hbd}: runs the subsampler for (subX, subY) on the
      block at (r0, c0). */
  method Subsample(input: seq<int>, inputStride: int, output: array<int>, subX: int, subY: int,
                   r0: int, c0: int, width: int, height: int)
    requires (subX, subY) in {(0, 0), (1, 0), (1, 1)}
    requires output.Length == CFL_BUF_SQUARE && 0 <= width && 0 <= height
    requires InputCovers(|input|, inputStride, subX, subY, width, height)
    requires OutputFits(r0, c0, OutRows(subY, height), OutCols(subX, width))
    modifies output
    ensures forall j, i :: 0 <= j < CFL_BUF_LINE && 0 <= i < CFL_BUF_LINE ==>
      output[Cell(j, i)] == Stored(old(output[..]), input, inputStride, subX, subY, width, height, r0, c0, j, i)
  {
    if subX == 1 && subY == 1 {
      Subsample420(input, inputStride, output, r0, c0, width, height);
    } else if subX == 1 {
      Subsample422(input, inputStride, output, r0, c0, width, height);
    } else {
      Subsample444(input, inputStride, output, r0, c0, width, height);
    }
  }

  /** For even block sizes the subsampler writes exactly the stored extent
      width >> sub_x by height >> sub_y. */
  lemma StoreExtent(width: int, height: int, subX: int, subY: int)
    requires 0 <= width && 0 <= height && width % 2 == 0 && height % 2 == 0 && 0 <= subX <= 1 && 0 <= subY <= 1
    ensures OutRows(subY, height) == Shr(height, subY) >= 0 && OutCols(subX, width) == Shr(width, subX) >= 0
  {
    assert Pow2(1) == 2 && Pow2(0) == 1;
  }

  lemma CellInside(j: int, i: int)
    requires 0 <= j < CFL_BUF_LINE && 0 <= i < CFL_BUF_LINE
    ensures 0 <= Cell(j, i) < CFL_BUF_SQUARE
  {
  }

  /** Distinct cells of the buffer are distinct entries. */
  lemma CellInjective(j0: int, i0: int, j1: int, i1: int)
    requires 0 <= i0 < CFL_BUF_LINE && 0 <= i1 < CFL_BUF_LINE
    requires Cell(j0, i0) == Cell(j1, i1)
    ensures j0 == j1 && i0 == i1
  {
  }

  // ---------------------------------------------------------------------
  // Padding.

  /** Whether (j, i) is one of the pixels cfl_pad fills. */
  predicate InPad(bw: int, bh: int, width: int, height: int, j: int, i: int)
  {
    (j < bh && bw <= i < width) || (bh <= j < height && 0 <= i < width)
  }

  /** The buffer entry at (j, i) after padding: a filled pixel takes the
      stored pixel nearest to it, everything else is kept. */
  function PadValue(b: seq<int>, bw: int, bh: int, width: int, height: int, j: int, i: int): int
    requires |b| == CFL_BUF_SQUARE && 0 <= j < CFL_BUF_LINE && 0 <= i < CFL_BUF_LINE
    requires InPad(bw, bh, width, height, j, i) ==> 1 <= bw && 1 <= bh
  {
    if InPad(bw, bh, width, height, j, i) then b[Cell(Min(j, bh - 1), Min(i, bw - 1))]
    else b[Cell(j, i)]
  }

  /** The column loop of cfl_pad: rows 0..bh-1 get columns bw..width-1
      set to their pixel at column bw - 1. */
  method PadColumns(buf: array<int>, bw: int, bh: int, width: int)
    requires buf.Length == CFL_BUF_SQUARE && 1 <= bw < width <= CFL_BUF_LINE && 0 <= bh <= CFL_BUF_LINE
    modifies buf
    ensures forall j, i :: 0 <= j < CFL_BUF_LINE && 0 <= i < CFL_BUF_LINE ==>
      buf[Cell(j, i)] == (if j < bh && bw <= i < width then old(buf[Cell(j, bw - 1)]) else old(buf[Cell(j, i)]))
  {
    var j := 0;
    while j < bh
      invariant 0 <= j <= bh
      invariant forall j0, i :: 0 <= j0 < CFL_BUF_LINE && 0 <= i < CFL_BUF_LINE ==>
        buf[Cell(j0, i)] == (if j0 < j && bw <= i < width then old(buf[Cell(j0, bw - 1)]) else old(buf[Cell(j0, i)]))
    {
      var lastPixel := buf[Cell(j, bw - 1)];
      var i := bw;
      while i < width
        invariant bw <= i <= width
        invariant forall j0, i0 :: 0 <= j0 < CFL_BUF_LINE && 0 <= i0 < CFL_BUF_LINE ==>
          buf[Cell(j0, i0)] == (if (j0 < j && bw <= i0 < width) || (j0 == j && bw <= i0 < i)
                                then old(buf[Cell(j0, bw - 1)]) else old(buf[Cell(j0, i0)]))
      {
        buf[Cell(j, i)] := lastPixel;
        i := i + 1;
      }
      j := j + 1;
    }
  }

  /** The row loop of cfl_pad: rows bh..height-1 copy columns 0..width-1 of
      the row above, hence of row bh - 1. */
  method PadRows(buf: array<int>, bh: int, width: int, height: int)
    requires buf.Length == CFL_BUF_SQUARE && 1 <= bh < height <= CFL_BUF_LINE && 0 <= width <= CFL_BUF_LINE
    modifies buf
    ensures forall j, i :: 0 <= j < CFL_BUF_LINE && 0 <= i < CFL_BUF_LINE ==>
      buf[Cell(j, i)] == (if bh <= j < height && i < width then old(buf[Cell(bh - 1, i)]) else old(buf[Cell(j, i)]))
  {
    var j := bh;
    while j < height
      invariant bh <= j <= height
      invariant forall j0, i :: 0 <= j0 < CFL_BUF_LINE && 0 <= i < CFL_BUF_LINE ==>
        buf[Cell(j0, i)] == (if bh <= j0 < j && i < width then old(buf[Cell(bh - 1, i)]) else old(buf[Cell(j0, i)]))
    {
      var i := 0;
      while i < width
        invariant 0 <= i <= width
        invariant forall j0, i0 :: 0 <= j0 < CFL_BUF_LINE && 0 <= i0 < CFL_BUF_LINE ==>
          buf[Cell(j0, i0)] == (if (bh <= j0 < j && i0 < width) || (j0 == j && i0 < i)
                                then old(buf[Cell(bh - 1, i0)]) else old(buf[Cell(j0, i0)]))
      {
        buf[Cell(j, i)] := buf[Cell(j - 1, i)];
        i := i + 1;
      }
      j := j + 1;
    }
  }

  /** After padding, every pixel of the block copies a stored pixel of the
      same buffer: padding invents no values. */
  lemma PadCopiesStored(b: seq<int>, bw: int, bh: int, width: int, height: int, j: int, i: int)
    requires |b| == CFL_BUF_SQUARE && 0 <= j < height <= CFL_BUF_LINE && 0 <= i < width <= CFL_BUF_LINE
    requires 1 <= bw && 1 <= bh
    ensures exists j0, i0 :: 0 <= j0 < bh && 0 <= i0 < bw && 0 <= Cell(j0, i0) < CFL_BUF_SQUARE &&
                             PadValue(b, bw, bh, width, height, j, i) == b[Cell(j0, i0)]
  {
    if InPad(bw, bh, width, height, j, i) {
      var j0, i0 := Min(j, bh - 1), Min(i, bw - 1);
      CellInside(j0, i0);
      assert PadValue(b, bw, bh, width, height, j, i) == b[Cell(j0, i0)];
    } else {
      CellInside(j, i);
      assert PadValue(b, bw, bh, width, height, j, i) == b[Cell(j, i)];
    }
  }

  // ---------------------------------------------------------------------
  // Average subtraction.

  /** Sum of columns 0..w-1 of row j. */
  function RowSum(s: seq<int>, j: int, w: int): int
    requires |s| == CFL_BUF_SQUARE && 0 <= j < CFL_BUF_LINE && 0 <= w <= CFL_BUF_LINE
  {
    if w == 0 then 0 else RowSum(s, j, w - 1) + s[Cell(j, w - 1)]
  }

  /** Sum of the h x w region at the top left. */
  function RegionSum(s: seq<int>, h: int, w: int): int
    requires |s| == CFL_BUF_SQUARE && 0 <= h <= CFL_BUF_LINE && 0 <= w <= CFL_BUF_LINE
  {
    if h == 0 then 0 else RegionSum(s, h - 1, w) + RowSum(s, h - 1, w)
  }

  /** subtract_average_c: the average of the width x height region (sum plus
      round_offset, shifted down by num_pel_log2) is taken off every pixel
      of the region; the rest of dst is kept. */
  method SubtractAverage(src: array<int>, dst: array<int>, width: int, height: int,
                         roundOffset: int, numPelLog2: nat)
    requires src.Length == CFL_BUF_SQUARE && dst.Length == CFL_BUF_SQUARE && src != dst
    requires 0 <= width <= CFL_BUF_LINE && 0 <= height <= CFL_BUF_LINE
    modifies dst
    ensures var avg := Shr(roundOffset + RegionSum(src[..], height, width), numPelLog2);
      forall j, i :: 0 <= j < CFL_BUF_LINE && 0 <= i < CFL_BUF_LINE ==>
        dst[Cell(j, i)] == (if j < height && i < width then src[Cell(j, i)] - avg else old(dst[Cell(j, i)]))
  {
    var sum := roundOffset;
    var j := 0;
    while j < height
      invariant 0 <= j <= height
      invariant sum == roundOffset + RegionSum(src[..], j, width)
    {
      var i := 0;
      while i < width
        invariant 0 <= i <= width
        invariant sum == roundOffset + RegionSum(src[..], j, width) + RowSum(src[..], j, i)
      {
        sum := sum + src[Cell(j, i)];
        i := i + 1;
      }
      j := j + 1;
    }
    var avg := Shr(sum, numPelLog2);
    j := 0;
    while j < height
      invariant 0 <= j <= height
      invariant forall j0, i :: 0 <= j0 < CFL_BUF_LINE && 0 <= i < CFL_BUF_LINE ==>
        dst[Cell(j0, i)] == (if j0 < j && i < width then src[Cell(j0, i)] - avg else old(dst[Cell(j0, i)]))
    {
      var i := 0;
      while i < width
        invariant 0 <= i <= width
        invariant forall j0, i0 :: 0 <= j0 < CFL_BUF_LINE && 0 <= i0 < CFL_BUF_LINE ==>
          dst[Cell(j0, i0)] == (if (j0 < j && i0 < width) || (j0 == j && i0 < i)
                                then src[Cell(j0, i0)] - avg else old(dst[Cell(j0, i0)]))
      {
        dst[Cell(j, i)] := src[Cell(j, i)] - avg;
        i := i + 1;
      }
      j := j + 1;
    }
  }

  lemma {:induction false} RowSumShift(s: seq<int>, d: seq<int>, j: int, w: int, a: int)
    requires |s| == CFL_BUF_SQUARE && |d| == CFL_BUF_SQUARE && 0 <= j < CFL_BUF_LINE && 0 <= w <= CFL_BUF_LINE
    requires forall i :: 0 <= i < w ==> d[Cell(j, i)] == s[Cell(j, i)] - a
    ensures RowSum(d, j, w) == RowSum(s, j, w) - w * a
  {
    if w > 0 {
      RowSumShift(s, d, j, w - 1, a);
    }
  }

  lemma {:induction false} RegionSumShift(s: seq<int>, d: seq<int>, h: int, w: int, a: int)
    requires |s| == CFL_BUF_SQUARE && |d| == CFL_BUF_SQUARE && 0 <= h <= CFL_BUF_LINE && 0 <= w <= CFL_BUF_LINE
    requires forall j, i :: 0 <= j < h && 0 <= i < w ==> d[Cell(j, i)] == s[Cell(j, i)] - a
    ensures RegionSum(d, h, w) == RegionSum(s, h, w) - h * (w * a)
  {
    if h > 0 {
      RegionSumShift(s, d, h - 1, w, a);
      RowSumShift(s, d, h - 1, w, a);
      MulStep(h, w * a);
    }
  }

  lemma MulStep(h: int, x: int)
    ensures (h - 1) * x + x == h * x
  {
  }

  /** With the round offset of the per-size wrappers (half the pixel count)
      and a region of 2^n pixels, the AC values left by subtract_average_c
      sum to within half a pixel count of zero. */
  lemma AcSumBalanced(s: seq<int>, d: seq<int>, h: int, w: int, n: nat)
    requires |s| == CFL_BUF_SQUARE && |d| == CFL_BUF_SQUARE && 0 <= h <= CFL_BUF_LINE && 0 <= w <= CFL_BUF_LINE
    requires h * w == Pow2(n)
    requires var avg := Shr(Pow2(n) / 2 + RegionSum(s, h, w), n);
      forall j, i :: 0 <= j < h && 0 <= i < w ==> d[Cell(j, i)] == s[Cell(j, i)] - avg
    ensures -(Pow2(n) / 2) <= RegionSum(d, h, w) < Pow2(n) - Pow2(n) / 2
  {
    var sum := RegionSum(s, h, w);
    var avg := RoundPowerOfTwo(sum, n);
    RegionSumShift(s, d, h, w, avg);
    Balanced(sum, h, w, avg, Pow2(n));
  }

  /** sum - N * q lies in [-N/2, N - N/2) when q * N <= sum + N/2 < (q + 1) * N,
      for N = h * w. */
  lemma Balanced(sum: int, h: int, w: int, q: int, bigN: int)
    requires h * w == bigN && q * bigN <= sum + bigN / 2 < (q + 1) * bigN
    ensures -(bigN / 2) <= sum - h * (w * q) < bigN - bigN / 2
  {
    assert h * (w * q) == (h * w) * q;
    assert (q + 1) * bigN == q * bigN + bigN;
  }

  // ---------------------------------------------------------------------
  // Luma subsampling into Q3. The lbd and hbd variants run the same code on
  // 8- and 16-bit input, so one method serves both.

  /** Top-left input index of the 2x2 (or 2x1) group of output (r, c) in
      4:2:0 (4:2:2) and of the pixel of output (r, c) in 4:4:4. */
  function In420(stride: int, r: int, c: int): int { 2 * r * stride + 2 * c }
  function In422(stride: int, r: int, c: int): int { r * stride + 2 * c }
  function In444(stride: int, r: int, c: int): int { r * stride + c }

  /** Output rows and columns of each subsampler for a width x height luma
      block (the loops step by 2 in the subsampled directions). */
  function OutRows(subY: int, height: int): int
  {
    if subY == 1 then (height + 1) / 2 else height
  }

  function OutCols(subX: int, width: int): int
  {
    if subX == 1 then (width + 1) / 2 else width
  }

  /** Every input pixel the subsampler for (subX, subY) reads exists. */
  predicate InputCovers(len: int, stride: int, subX: int, subY: int, width: int, height: int)
  {
    forall r, c :: 0 <= r < OutRows(subY, height) && 0 <= c < OutCols(subX, width) ==>
      if subX == 1 && subY == 1 then
        0 <= In420(stride, r, c) && In420(stride, r, c) + 1 < len
        && 0 <= In420(stride, r, c) + stride && In420(stride, r, c) + stride + 1 < len
      else if subX == 1 then
        0 <= In422(stride, r, c) && In422(stride, r, c) + 1 < len
      else
        0 <= In444(stride, r, c) < len
  }

  /** Output (r, c) in 4:2:0: twice the sum of the 2x2 group, that is eight
      times its mean, in Q3. */
  function Sub420(input: seq<int>, stride: int, r: int, c: int): (v: int)
    requires 0 <= In420(stride, r, c) && In420(stride, r, c) + 1 < |input|
    requires 0 <= In420(stride, r, c) + stride && In420(stride, r, c) + stride + 1 < |input|
  {
    var t := In420(stride, r, c);
    (input[t] + input[t + 1] + input[t + stride] + input[t + stride + 1]) * 2
  }

  /** Output (r, c) in 4:2:2: four times the sum of the 2x1 pair. */
  function Sub422(input: seq<int>, stride: int, r: int, c: int): (v: int)
    requires 0 <= In422(stride, r, c) && In422(stride, r, c) + 1 < |input|
  {
    var t := In422(stride, r, c);
    (input[t] + input[t + 1]) * 4
  }

  /** Output (r, c) in 4:4:4: the pixel times eight. */
  function Sub444(input: seq<int>, stride: int, r: int, c: int): (v: int)
    requires 0 <= In444(stride, r, c) < |input|
  {
    input[In444(stride, r, c)] * 8
  }

  /** The output of the subsampler cfl_store picks for (subX, subY). */
  function Subsampled(input: seq<int>, stride: int, subX: int, subY: int, r: int, c: int): int
  {
    if subX == 1 && subY == 1 then
      var t := In420(stride, r, c);
      if 0 <= t && t + stride + 1 < |input| && t + 1 < |input| && 0 <= t + stride then Sub420(input, stride, r, c) else 0
    else if subX == 1 then
      var t := In422(stride, r, c);
      if 0 <= t && t + 1 < |input| then Sub422(input, stride, r, c) else 0
    else
      var t := In444(stride, r, c);
      if 0 <= t < |input| then Sub444(input, stride, r, c) else 0
  }

  /** All three subsamplers produce Q3 values: pixels in [0, m] give outputs
      in [0, 8m], and a flat block of value v gives 8v everywhere. */
  lemma SubsampledIsQ3(input: seq<int>, stride: int, subX: int, subY: int, r: int, c: int, m: int)
    requires forall k :: 0 <= k < |input| ==> 0 <= input[k] <= m
    requires subX == 1 && subY == 1 ==>
      0 <= In420(stride, r, c) && In420(stride, r, c) + 1 < |input|
      && 0 <= In420(stride, r, c) + stride && In420(stride, r, c) + stride + 1 < |input|
    requires subX == 1 && subY != 1 ==> 0 <= In422(stride, r, c) && In422(stride, r, c) + 1 < |input|
    requires subX != 1 ==> 0 <= In444(stride, r, c) < |input|
    ensures 0 <= Subsampled(input, stride, subX, subY, r, c) <= 8 * m
    ensures (forall k :: 0 <= k < |input| ==> input[k] == m) ==> Subsampled(input, stride, subX, subY, r, c) == 8 * m
  {
    if subX == 1 && subY == 1 {
      var t := In420(stride, r, c);
      assert input[t] <= m && input[t + 1] <= m && input[t + stride] <= m && input[t + stride + 1] <= m;
    } else if subX == 1 {
      var t := In422(stride, r, c);
      assert input[t] <= m && input[t + 1] <= m;
    } else {
      assert input[In444(stride, r, c)] <= m;
    }
  }

  /** The buffer entry at (j, i) after the subsampler for (subX, subY)
      wrote its output block at row r0, column c0 of the 32-wide buffer. */
  function Stored(b: seq<int>, input: seq<int>, stride: int, subX: int, subY: int, width: int, height: int,
                  r0: int, c0: int, j: int, i: int): int
    requires |b| == CFL_BUF_SQUARE && 0 <= j < CFL_BUF_LINE && 0 <= i < CFL_BUF_LINE
  {
    if r0 <= j < r0 + OutRows(subY, height) && c0 <= i < c0 + OutCols(subX, width)
    then Subsampled(input, stride, subX, subY, j - r0, i - c0)
    else b[Cell(j, i)]
  }

  /** The output block fits the buffer. */
  predicate OutputFits(r0: int, c0: int, rows: int, cols: int)
  {
    0 <= r0 && 0 <= c0 && r0 + rows <= CFL_BUF_LINE && c0 + cols <= CFL_BUF_LINE
  }

  /** o is b with the first cols outputs of row r of the block at (r0, c0)
      written by the subsampler for (subX, subY). */
  predicate RowStored(o: seq<int>, b: seq<int>, input: seq<int>, stride: int, subX: int, subY: int,
                      r0: int, c0: int, r: int, cols: int)
    requires |o| == CFL_BUF_SQUARE && |b| == CFL_BUF_SQUARE
  {
    (forall i0 :: 0 <= i0 < cols && 0 <= c0 + i0 < CFL_BUF_LINE && 0 <= r0 + r < CFL_BUF_LINE ==>
       o[Cell(r0 + r, c0 + i0)] == Subsampled(input, stride, subX, subY, r, i0))
    && (forall j0, i0 :: 0 <= j0 < CFL_BUF_LINE && 0 <= i0 < CFL_BUF_LINE && OffRow(j0, i0, r0 + r, c0, cols) ==>
          o[Cell(j0, i0)] == b[Cell(j0, i0)])
  }

  /** (j, i) is not among the first cols cells of row r from column c0. */
  predicate OffRow(j: int, i: int, r: int, c0: int, cols: int)
  {
    j != r || i < c0 || c0 + cols <= i
  }

  /** Writing output c of row r extends the written part of the row by one. */
  lemma RowStep(o0: seq<int>, o1: seq<int>, b: seq<int>, input: seq<int>, stride: int, subX: int, subY: int,
                r0: int, c0: int, r: int, c: int)
    requires |o0| == CFL_BUF_SQUARE && |b| == CFL_BUF_SQUARE
    requires 0 <= r0 + r < CFL_BUF_LINE && 0 <= c && 0 <= c0 + c < CFL_BUF_LINE
    requires RowStored(o0, b, input, stride, subX, subY, r0, c0, r, c)
    requires o1 == o0[Cell(r0 + r, c0 + c) := Subsampled(input, stride, subX, subY, r, c)]
    ensures RowStored(o1, b, input, stride, subX, subY, r0, c0, r, c + 1)
  {
    forall j0, i0 | 0 <= j0 < CFL_BUF_LINE && 0 <= i0 < CFL_BUF_LINE && Cell(j0, i0) == Cell(r0 + r, c0 + c)
      ensures j0 == r0 + r && i0 == c0 + c
    {
      CellInjective(j0, i0, r0 + r, c0 + c);
    }
  }

  /** The rows [r0, r0 + r) of o hold the block as Stored describes it, the
      rest is still b. */
  predicate RowsStored(o: seq<int>, b: seq<int>, input: seq<int>, stride: int, subX: int, subY: int,
                       width: int, height: int, r0: int, c0: int, r: int)
    requires |o| == CFL_BUF_SQUARE && |b| == CFL_BUF_SQUARE
  {
    (forall j0, i0 :: 0 <= j0 < CFL_BUF_LINE && 0 <= i0 < CFL_BUF_LINE && r0 <= j0 < r0 + r ==>
       o[Cell(j0, i0)] == Stored(b, input, stride, subX, subY, width, height, r0, c0, j0, i0))
    && (forall j0, i0 :: 0 <= j0 < CFL_BUF_LINE && 0 <= i0 < CFL_BUF_LINE && !(r0 <= j0 < r0 + r) ==>
          o[Cell(j0, i0)] == b[Cell(j0, i0)])
  }

  /** Writing row r of the block extends the stored rows by one. */
  lemma NextRowStored(o0: seq<int>, o1: seq<int>, b: seq<int>, input: seq<int>, stride: int, subX: int, subY: int,
                      width: int, height: int, r0: int, c0: int, r: int)
    requires |o0| == CFL_BUF_SQUARE && |o1| == CFL_BUF_SQUARE && |b| == CFL_BUF_SQUARE
    requires 0 <= r < OutRows(subY, height) && OutputFits(r0, c0, OutRows(subY, height), OutCols(subX, width))
    requires RowsStored(o0, b, input, stride, subX, subY, width, height, r0, c0, r)
    requires RowStored(o1, o0, input, stride, subX, subY, r0, c0, r, OutCols(subX, width))
    ensures RowsStored(o1, b, input, stride, subX, subY, width, height, r0, c0, r + 1)
  {
    var cols := OutCols(subX, width);
    forall j0, i0 | 0 <= j0 < CFL_BUF_LINE && 0 <= i0 < CFL_BUF_LINE && r0 <= j0 < r0 + r + 1
      ensures o1[Cell(j0, i0)] == Stored(b, input, stride, subX, subY, width, height, r0, c0, j0, i0)
    {
      if j0 == r0 + r && c0 <= i0 < c0 + cols {
        assert o1[Cell(r0 + r, c0 + (i0 - c0))] == Subsampled(input, stride, subX, subY, r, i0 - c0);
      }
    }
  }

  /** All rows stored is the buffer Stored describes. */
  lemma AllRowsStored(o: seq<int>, b: seq<int>, input: seq<int>, stride: int, subX: int, subY: int,
                      width: int, height: int, r0: int, c0: int)
    requires |o| == CFL_BUF_SQUARE && |b| == CFL_BUF_SQUARE && OutRows(subY, height) >= 0
    requires RowsStored(o, b, input, stride, subX, subY, width, height, r0, c0, OutRows(subY, height))
    ensures forall j, i :: 0 <= j < CFL_BUF_LINE && 0 <= i < CFL_BUF_LINE ==>
      o[Cell(j, i)] == Stored(b, input, stride, subX, subY, width, height, r0, c0, j, i)
  {
  }

  /** cfl_luma_subsampling_420_{lbd,hbd}_c: each 2x2 luma group becomes one
      Q3 output in the block at (r0, c0); nothing else changes. */
  method Subsample420(input: seq<int>, inputStride: int, output: array<int>, r0: int, c0: int, width: int, height: int)
    requires output.Length == CFL_BUF_SQUARE && 0 <= width && 0 <= height
    requires InputCovers(|input|, inputStride, 1, 1, width, height)
    requires OutputFits(r0, c0, OutRows(1, height), OutCols(1, width))
    modifies output
    ensures forall j, i :: 0 <= j < CFL_BUF_LINE && 0 <= i < CFL_BUF_LINE ==>
      output[Cell(j, i)] == Stored(old(output[..]), input, inputStride, 1, 1, width, height, r0, c0, j, i)
  {
    ghost var b := output[..];
    var rows := OutRows(1, height);
    var j, r := 0, 0;
    while j < height
      invariant 0 <= r <= rows && j == 2 * r
      invariant RowsStored(output[..], b, input, inputStride, 1, 1, width, height, r0, c0, r)
    {
      ghost var o0 := output[..];
      Row420(input, inputStride, output, r0, c0, r, width, height);
      NextRowStored(o0, output[..], b, input, inputStride, 1, 1, width, height, r0, c0, r);
      j, r := j + 2, r + 1;
    }
    AllRowsStored(output[..], b, input, inputStride, 1, 1, width, height, r0, c0);
  }

  /** The inner loop of the 4:2:0 subsampler: output row r. */
  method Row420(input: seq<int>, inputStride: int, output: array<int>, r0: int, c0: int, r: int, width: int, height: int)
    requires output.Length == CFL_BUF_SQUARE && 0 <= width && 0 <= r < OutRows(1, height)
    requires InputCovers(|input|, inputStride, 1, 1, width, height)
    requires OutputFits(r0, c0, OutRows(1, height), OutCols(1, width))
    modifies output
    ensures RowStored(output[..], old(output[..]), input, inputStride, 1, 1, r0, c0, r, OutCols(1, width))
  {
    var cols := OutCols(1, width);
    var i, c := 0, 0;
    while i < width
      invariant 0 <= c <= cols && i == 2 * c
      invariant RowStored(output[..], old(output[..]), input, inputStride, 1, 1, r0, c0, r, c)
    {
      var t := In420(inputStride, r, c);
      ghost var o0 := output[..];
      output[Cell(r0 + r, c0 + c)] := (input[t] + input[t + 1] + input[t + inputStride] + input[t + inputStride + 1]) * 2;
      RowStep(o0, output[..], old(output[..]), input, inputStride, 1, 1, r0, c0, r, c);
      i, c := i + 2, c + 1;
    }
  }

  /** cfl_luma_subsampling_422_{lbd,hbd}_c: each horizontal pair becomes one
      Q3 output. */
  method Subsample422(input: seq<int>, inputStride: int, output: array<int>, r0: int, c0: int, width: int, height: int)
    requires output.Length == CFL_BUF_SQUARE && 0 <= width && 0 <= height
    requires InputCovers(|input|, inputStride, 1, 0, width, height)
    requires OutputFits(r0, c0, OutRows(0, height), OutCols(1, width))
    modifies output
    ensures forall j, i :: 0 <= j < CFL_BUF_LINE && 0 <= i < CFL_BUF_LINE ==>
      output[Cell(j, i)] == Stored(old(output[..]), input, inputStride, 1, 0, width, height, r0, c0, j, i)
  {
    ghost var b := output[..];
    var j := 0;
    while j < height
      invariant 0 <= j <= height
      invariant RowsStored(output[..], b, input, inputStride, 1, 0, width, height, r0, c0, j)
    {
      ghost var o0 := output[..];
      Row422(input, inputStride, output, r0, c0, j, width, height);
      NextRowStored(o0, output[..], b, input, inputStride, 1, 0, width, height, r0, c0, j);
      j := j + 1;
    }
    AllRowsStored(output[..], b, input, inputStride, 1, 0, width, height, r0, c0);
  }

  /** The inner loop of the 4:2:2 subsampler: output row j. */
  method Row422(input: seq<int>, inputStride: int, output: array<int>, r0: int, c0: int, j: int, width: int, height: int)
    requires output.Length == CFL_BUF_SQUARE && 0 <= width && 0 <= j < OutRows(0, height)
    requires InputCovers(|input|, inputStride, 1, 0, width, height)
    requires OutputFits(r0, c0, OutRows(0, height), OutCols(1, width))
    modifies output
    ensures RowStored(output[..], old(output[..]), input, inputStride, 1, 0, r0, c0, j, OutCols(1, width))
  {
    var cols := OutCols(1, width);
    var i, c := 0, 0;
    while i < width
      invariant 0 <= c <= cols && i == 2 * c
      invariant RowStored(output[..], old(output[..]), input, inputStride, 1, 0, r0, c0, j, c)
    {
      var t := In422(inputStride, j, c);
      ghost var o0 := output[..];
      output[Cell(r0 + j, c0 + c)] := (input[t] + input[t + 1]) * 4;
      RowStep(o0, output[..], old(output[..]), input, inputStride, 1, 0, r0, c0, j, c);
      i, c := i + 2, c + 1;
    }
  }

  /** cfl_luma_subsampling_444_{lbd,hbd}_c: each pixel becomes one Q3
      output. */
  method Subsample444(input: seq<int>, inputStride: int, output: array<int>, r0: int, c0: int, width: int, height: int)
    requires output.Length == CFL_BUF_SQUARE && 0 <= width && 0 <= height
    requires InputCovers(|input|, inputStride, 0, 0, width, height)
    requires OutputFits(r0, c0, OutRows(0, height), OutCols(0, width))
    modifies output
    ensures forall j, i :: 0 <= j < CFL_BUF_LINE && 0 <= i < CFL_BUF_LINE ==>
      output[Cell(j, i)] == Stored(old(output[..]), input, inputStride, 0, 0, width, height, r0, c0, j, i)
  {
    ghost var b := output[..];
    var j := 0;
    while j < height
      invariant 0 <= j <= height
      invariant RowsStored(output[..], b, input, inputStride, 0, 0, width, height, r0, c0, j)
    {
      ghost var o0 := output[..];
      Row444(input, inputStride, output, r0, c0, j, width, height);
      NextRowStored(o0, output[..], b, input, inputStride, 0, 0, width, height, r0, c0, j);
      j := j + 1;
    }
    AllRowsStored(output[..], b, input, inputStride, 0, 0, width, height, r0, c0);
  }

  /** The inner loop of the 4:4:4 subsampler: output row j. */
  method Row444(input: seq<int>, inputStride: int, output: array<int>, r0: int, c0: int, j: int, width: int, height: int)
    requires output.Length == CFL_BUF_SQUARE && 0 <= width && 0 <= j < OutRows(0, height)
    requires InputCovers(|input|, inputStride, 0, 0, width, height)
    requires OutputFits(r0, c0, OutRows(0, height), OutCols(0, width))
    modifies output
    ensures RowStored(output[..], old(output[..]), input, inputStride, 0, 0, r0, c0, j, OutCols(0, width))
  {
    var i := 0;
    while i < width
      invariant 0 <= i <= width
      invariant RowStored(output[..], old(output[..]), input, inputStride, 0, 0, r0, c0, j, i)
    {
      ghost var o0 := output[..];
      output[Cell(r0 + j, c0 + i)] := input[In444(inputStride, j, i)] * 8;
      RowStep(o0, output[..], old(output[..]), input, inputStride, 0, 0, r0, c0, j, i);
      i := i + 1;
    }
  }

  // ---------------------------------------------------------------------
  // Alpha decoding.

  /** CFL_SIGN_U / CFL_SIGN_V: the joint sign codes (sign_u, sign_v) as
      sign_u * 3 + sign_v - 1, the pair (zero, zero) excluded. */
  function SignU(jointSign: int): int { (jointSign + 1) / CFL_SIGNS }
  function SignV(jointSign: int): int { (jointSign + 1) % CFL_SIGNS }

  /** CFL_IDX_U / CFL_IDX_V: the magnitude indices packed in the high and
      low nibble of alpha_idx. */
  function IdxU(alphaIdx: int): int { alphaIdx / 16 }
  function IdxV(alphaIdx: int): int { alphaIdx % 16 }

  /** The eight joint signs are exactly the sign pairs other than (zero,
      zero), each in {zero, negative, positive}. */
  lemma JointSignsDecode(jointSign: int)
    requires 0 <= jointSign < CFL_JOINT_SIGNS
    ensures 0 <= SignU(jointSign) < CFL_SIGNS && 0 <= SignV(jointSign) < CFL_SIGNS
    ensures !(SignU(jointSign) == CFL_SIGN_ZERO && SignV(jointSign) == CFL_SIGN_ZERO)
    ensures SignU(jointSign) * CFL_SIGNS + SignV(jointSign) - 1 == jointSign
  {
  }

  /** cfl_idx_to_alpha: the Q3 alpha of plane U (predType 0) or V: zero for
      a zero sign, otherwise the magnitude index plus one with the sign. */
  function CflIdxToAlpha(alphaIdx: int, jointSign: int, predType: int): (alpha: int)
    requires 0 <= alphaIdx < 256 && 0 <= jointSign < CFL_JOINT_SIGNS
    ensures var sign := if predType == 0 then SignU(jointSign) else SignV(jointSign);
      var mag := if predType == 0 then IdxU(alphaIdx) else IdxV(alphaIdx);
      (sign == CFL_SIGN_ZERO ==> alpha == 0)
      && (sign == CFL_SIGN_POS ==> alpha == mag + 1)
      && (sign == CFL_SIGN_NEG ==> alpha == -(mag + 1))
    ensures -16 <= alpha <= 16
    ensures alpha == 0 <==> (if predType == 0 then SignU(jointSign) else SignV(jointSign)) == CFL_SIGN_ZERO
  {
    var alphaSign := if predType == 0 then SignU(jointSign) else SignV(jointSign);
    if alphaSign == CFL_SIGN_ZERO then 0
    else
      var absAlphaQ3 := if predType == 0 then IdxU(alphaIdx) else IdxV(alphaIdx);
      if alphaSign == CFL_SIGN_POS then absAlphaQ3 + 1 else -absAlphaQ3 - 1
  }

  // ---------------------------------------------------------------------
  // Least-squares fit.

  /** ClampToSigned32: v clamped to the signed num_bits-bit range. */
  function ClampToSigned32(v: int, numBits: nat): (r: int)
    requires 0 < numBits < 32
    ensures -(Pow2(numBits - 1) as int) <= r <= Pow2(numBits - 1) - 1
    ensures -(Pow2(numBits - 1) as int) <= v <= Pow2(numBits - 1) - 1 ==> r == v
  {
    var limit: int := Pow2(numBits - 1);
    Clamp(v, -limit, limit - 1)
  }

  /** DIVIDE_AND_ROUND(x, y) of aom_dsp_common.h, with C's truncating
      division. */
  function DivideAndRound(x: int, y: int): int
    requires y != 0
  {
    TruncDiv(x + Shr(y, 1), y)
  }

  const K_YUV_MAX_PREC: nat := 9
  const K_CFL_FRAC_BITS: nat := 12
  const K_CFL_A_BITS: nat := 15
  const K_CFL_B_BITS: nat := 23

  function Sum(s: seq<int>, n: int): int
    requires 0 <= n <= |s|
  {
    if n == 0 then 0 else Sum(s, n - 1) + s[n - 1]
  }

  function Dot(s: seq<int>, t: seq<int>, n: int): int
    requires 0 <= n <= |s| && n <= |t|
  {
    if n == 0 then 0 else Dot(s, t, n - 1) + s[n - 1] * t[n - 1]
  }

  /** The sums the two loops of linear_regression_high accumulate over the
      above row and the left column. */
  datatype Sums = Sums(l: int, uv: int, luv: int, ll: int)

  function BorderSums(width: int, height: int, yAbove: seq<int>, yLeft: seq<int>,
                      uvAbove: seq<int>, uvLeft: seq<int>): Sums
    requires 0 <= width <= |yAbove| && width <= |uvAbove| && 0 <= height <= |yLeft| && height <= |uvLeft|
  {
    Sums(Sum(yAbove, width) + Sum(yLeft, height), Sum(uvAbove, width) + Sum(uvLeft, height),
         Dot(yAbove, uvAbove, width) + Dot(yLeft, uvLeft, height),
         Dot(yAbove, yAbove, width) + Dot(yLeft, yLeft, height))
  }

  /** The fit from the sums: the slope A (zero when the numerator or the
      denominator vanishes, or when the offset is out of the codable range)
      and the rounded offset B, each clamped to its bit width. The int64 to
      int32 conversions wrap. */
  function FitFromSums(s: Sums, numValues: int): (ab: (int, int))
    requires numValues > 0
    ensures -(Pow2(K_CFL_A_BITS - 1) as int) <= ab.0 < Pow2(K_CFL_A_BITS - 1)
    ensures -(Pow2(K_CFL_B_BITS - 1) as int) <= ab.1 < Pow2(K_CFL_B_BITS - 1)
  {
    var num := s.luv * numValues - s.l * s.uv;
    var den := s.ll * numValues - s.l * s.l;
    var b := Wrap32(DivideAndRound(Shl(s.uv, K_CFL_FRAC_BITS), numValues)) + Shr(Pow2(K_CFL_FRAC_BITS), 1);
    var a := if num != 0 && den != 0 then Wrap32(DivideAndRound(Shl(num, K_CFL_FRAC_BITS), den)) else 0;
    var maxRange := Shl(2, K_CFL_FRAC_BITS + K_YUV_MAX_PREC);
    var a' := if Abs(b) > maxRange then 0 else a;
    (ClampToSigned32(a', K_CFL_A_BITS), ClampToSigned32(b, K_CFL_B_BITS))
  }

  /** The slope is zero whenever the border is flat in luma or uncorrelated
      (zero numerator or denominator), or the offset is out of range. */
  lemma FitZeroSlope(s: Sums, numValues: int)
    requires numValues > 0
    requires s.luv * numValues - s.l * s.uv == 0 || s.ll * numValues - s.l * s.l == 0
      || Abs(Wrap32(DivideAndRound(Shl(s.uv, K_CFL_FRAC_BITS), numValues)) + Shr(Pow2(K_CFL_FRAC_BITS), 1))
         > Shl(2, K_CFL_FRAC_BITS + K_YUV_MAX_PREC)
    ensures FitFromSums(s, numValues).0 == 0
  {
    assert Pow2(K_CFL_A_BITS - 1) == 16384 by { Pow2Values(); }
  }

  /** One accumulation loop of linear_regression_high: the n pixels of a
      luma border and its chroma border added to the running sums. */
  method AccumulateBorder(y: seq<int>, uv: seq<int>, n: int, start: Sums) returns (sums: Sums)
    requires 0 <= n <= |y| && n <= |uv|
    ensures sums == Sums(start.l + Sum(y, n), start.uv + Sum(uv, n), start.luv + Dot(y, uv, n), start.ll + Dot(y, y, n))
  {
    var lSum, uvSum, luvSum, llSum := start.l, start.uv, start.luv, start.ll;
    var i := 0;
    while i < n
      invariant 0 <= i <= n
      invariant lSum == start.l + Sum(y, i) && uvSum == start.uv + Sum(uv, i)
      invariant luvSum == start.luv + Dot(y, uv, i) && llSum == start.ll + Dot(y, y, i)
    {
      var l, c := y[i], uv[i];
      lSum, uvSum := lSum + l, uvSum + c;
      luvSum, llSum := luvSum + l * c, llSum + l * l;
      i := i + 1;
    }
    sums := Sums(lSum, uvSum, luvSum, llSum);
  }

  /** linear_regression_high: accumulates the luma and chroma sums over the
      above row and left column and returns the clamped fit. */
  method LinearRegressionHigh(width: int, height: int, yAbove: seq<int>, yLeft: seq<int>,
                              uvAbove: seq<int>, uvLeft: seq<int>) returns (a: int, b: int)
    requires 0 <= width <= |yAbove| && width <= |uvAbove| && 0 <= height <= |yLeft| && height <= |uvLeft|
    requires width + height > 0
    ensures (a, b) == FitFromSums(BorderSums(width, height, yAbove, yLeft, uvAbove, uvLeft), width + height)
  {
    var numValues := width + height;
    var above := AccumulateBorder(yAbove, uvAbove, width, Sums(0, 0, 0, 0));
    var sums := AccumulateBorder(yLeft, uvLeft, height, above);
    var fit := FitFromSums(sums, numValues);
    a, b := fit.0, fit.1;
  }
}
