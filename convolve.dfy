/** The C reference convolutions of av1/common/convolve.c: the rounding
    of a 32-bit intermediate buffer to pixels, the single-reference
    (`_sr`) sub-pixel filters and copy, the compound (two-reference)
    paths that average into a 32-bit buffer, and the horizontal
    super-resolution upscaler.

    A 2-D buffer addressed through a pointer and a row stride is an
    array2 when the routine writes it and a plane of rows (seq<seq<int>>)
    when it only reads it; the block the pointer designates starts at
    (y0, x0) of that plane, so that the filters can read the rows above
    and the columns left of it. */
module Convolve {
  import opened IntArith

  // The constants of filter.h, convolve.h and resize.h that the file
  // uses (those headers are not part of this model, except resize.h for
  // UPSCALE_NORMATIVE_TAPS).
  const FILTER_BITS: nat := 7
  const DIST_PRECISION_BITS: nat := 4
  const RS_SUBPEL_BITS: nat := 6
  const RS_SUBPEL_MASK: int := 63
  const RS_SCALE_SUBPEL_BITS: nat := 14
  const RS_SCALE_SUBPEL_MASK: int := 16383
  const RS_SCALE_EXTRA_BITS: nat := 8
  const UPSCALE_NORMATIVE_TAPS: int := 8

  /** The literals the filters below compute with are these constants:
      128 = 1 << FILTER_BITS, the compound weights sum to 16 = 1 <<
      DIST_PRECISION_BITS, and a super-resolution position splits into
      14 bits of phase, whose top 6 pick one of 64 kernels. */
  lemma ConstantsAgree()
    ensures Pow2(FILTER_BITS) == 128 && Pow2(DIST_PRECISION_BITS) == 16
    ensures Pow2(RS_SCALE_SUBPEL_BITS) == 16384 && RS_SCALE_SUBPEL_MASK == Pow2(RS_SCALE_SUBPEL_BITS) - 1
    ensures Pow2(RS_SCALE_EXTRA_BITS) == 256 && RS_SUBPEL_BITS + RS_SCALE_EXTRA_BITS == RS_SCALE_SUBPEL_BITS
    ensures RS_SUBPEL_MASK == Pow2(RS_SUBPEL_BITS) - 1
  {
    Pow2Values();
  }

  /** The h x w block of p whose top-left sample is p[y0][x0]. */
  predicate Covers(p: seq<seq<int>>, y0: int, x0: int, h: int, w: int)
  {
    0 <= y0 && 0 <= x0 && 0 <= h && 0 <= w && y0 + h <= |p|
    && forall r :: y0 <= r < y0 + h ==> x0 + w <= |p[r]|
  }

  // ---------------------------------------------------------------------
  // av1_convolve_rounding_c, av1_highbd_convolve_rounding_c
  // ---------------------------------------------------------------------

  /** One output of av1_convolve_rounding_c. */
  function RoundingPixel(v: int, bits: nat): (r: int)
    ensures 0 <= r <= 255
  {
    ClipPixel(RoundPowerOfTwo(v, bits))
  }

  /** Rounding a multiple of 2^n by n bits is exact. */
  lemma RoundOfScaled(a: int, n: nat)
    ensures RoundPowerOfTwo(a * Pow2(n), n) == a
  {
    DivUnique(a * Pow2(n) + Pow2(n) / 2, Pow2(n), a, Pow2(n) / 2);
  }

  /** A value already scaled by 2^bits and in pixel range rounds back to
      itself: av1_convolve_rounding_c undoes the compound copy's scaling. */
  lemma RoundingPixelOfScaled(p: int, bits: nat)
    requires 0 <= p <= 255
    ensures RoundingPixel(Shl(p, bits), bits) == p
  {
    RoundOfScaled(p, bits);
  }

  /** av1_convolve_rounding_c: each int32 sample of the h x w block,
      rounded by bits and clipped to an 8-bit pixel. */
  method ConvolveRounding(src: seq<seq<int>>, dst: array2<int>, w: int, h: int, bits: nat)
    requires Covers(src, 0, 0, h, w) && h <= dst.Length0 && w <= dst.Length1
    modifies dst
    ensures forall y, x :: 0 <= y < h && 0 <= x < w ==>
      dst[y, x] == RoundingPixel(src[y][x], bits) && 0 <= dst[y, x] <= 255
    ensures forall y, x :: 0 <= y < dst.Length0 && 0 <= x < dst.Length1 && !(y < h && x < w) ==>
      dst[y, x] == old(dst[y, x])
  {
    for r := 0 to h
      invariant forall y, x :: 0 <= y < r && 0 <= x < w ==> dst[y, x] == RoundingPixel(src[y][x], bits)
      invariant forall y, x :: 0 <= y < dst.Length0 && 0 <= x < dst.Length1 && !(y < r && x < w) ==>
        dst[y, x] == old(dst[y, x])
    {
      for c := 0 to w
        invariant forall y, x :: 0 <= y < r && 0 <= x < w ==> dst[y, x] == RoundingPixel(src[y][x], bits)
        invariant forall x :: 0 <= x < c ==> dst[r, x] == RoundingPixel(src[r][x], bits)
        invariant forall y, x :: 0 <= y < dst.Length0 && 0 <= x < dst.Length1 && !(y < r && x < w) && !(y == r && x < c) ==>
          dst[y, x] == old(dst[y, x])
      {
        dst[r, c] := ClipPixel(RoundPowerOfTwo(src[r][c], bits));
      }
    }
  }

  /** One output of av1_highbd_convolve_rounding_c. */
  function HighbdRoundingPixel(v: int, bits: nat, bd: int): (r: int)
    ensures 0 <= r < Pow2(if bd == 10 || bd == 12 then bd else 8)
  {
    ClipPixelHighbd(RoundPowerOfTwo(v, bits), bd)
  }

  /** At bit depth 8 the high-bitdepth rounding is the 8-bit one. */
  lemma HighbdRoundingAt8(v: int, bits: nat)
    ensures HighbdRoundingPixel(v, bits, 8) == RoundingPixel(v, bits)
  {
    Pow2Values();
  }

  /** av1_highbd_convolve_rounding_c: as ConvolveRounding, clipped to bd
      bits. */
  method HighbdConvolveRounding(src: seq<seq<int>>, dst: array2<int>, w: int, h: int, bits: nat, bd: int)
    requires Covers(src, 0, 0, h, w) && h <= dst.Length0 && w <= dst.Length1
    modifies dst
    ensures forall y, x :: 0 <= y < h && 0 <= x < w ==>
      dst[y, x] == HighbdRoundingPixel(src[y][x], bits, bd)
      && 0 <= dst[y, x] < Pow2(if bd == 10 || bd == 12 then bd else 8)
    ensures forall y, x :: 0 <= y < dst.Length0 && 0 <= x < dst.Length1 && !(y < h && x < w) ==>
      dst[y, x] == old(dst[y, x])
  {
    for r := 0 to h
      invariant forall y, x :: 0 <= y < r && 0 <= x < w ==> dst[y, x] == HighbdRoundingPixel(src[y][x], bits, bd)
      invariant forall y, x :: 0 <= y < dst.Length0 && 0 <= x < dst.Length1 && !(y < r && x < w) ==>
        dst[y, x] == old(dst[y, x])
    {
      for c := 0 to w
        invariant forall y, x :: 0 <= y < r && 0 <= x < w ==> dst[y, x] == HighbdRoundingPixel(src[y][x], bits, bd)
        invariant forall x :: 0 <= x < c ==> dst[r, x] == HighbdRoundingPixel(src[r][x], bits, bd)
        invariant forall y, x :: 0 <= y < dst.Length0 && 0 <= x < dst.Length1 && !(y < r && x < w) && !(y == r && x < c) ==>
          dst[y, x] == old(dst[y, x])
      {
        dst[r, c] := ClipPixelHighbd(RoundPowerOfTwo(src[r][c], bits), bd);
      }
    }
  }

  // ---------------------------------------------------------------------
  // av1_convolve_2d_copy_sr_c, av1_highbd_convolve_2d_copy_sr_c
  // ---------------------------------------------------------------------

  /** av1_convolve_2d_copy_sr_c: the h x w block of src into dst; the
      filters, sub-pixel phases and convolution parameters are unused. */
  method ConvolveCopySr(src: seq<seq<int>>, dst: array2<int>, w: int, h: int)
    requires Covers(src, 0, 0, h, w) && h <= dst.Length0 && w <= dst.Length1
    modifies dst
    ensures forall y, x :: 0 <= y < h && 0 <= x < w ==> dst[y, x] == src[y][x]
    ensures forall y, x :: 0 <= y < dst.Length0 && 0 <= x < dst.Length1 && !(y < h && x < w) ==>
      dst[y, x] == old(dst[y, x])
  {
    for r := 0 to h
      invariant forall y, x :: 0 <= y < r && 0 <= x < w ==> dst[y, x] == src[y][x]
      invariant forall y, x :: 0 <= y < dst.Length0 && 0 <= x < dst.Length1 && !(y < r && x < w) ==>
        dst[y, x] == old(dst[y, x])
    {
      for c := 0 to w
        invariant forall y, x :: 0 <= y < r && 0 <= x < w ==> dst[y, x] == src[y][x]
        invariant forall x :: 0 <= x < c ==> dst[r, x] == src[r][x]
        invariant forall y, x :: 0 <= y < dst.Length0 && 0 <= x < dst.Length1 && !(y < r && x < w) && !(y == r && x < c) ==>
          dst[y, x] == old(dst[y, x])
      {
        dst[r, c] := src[r][c];
      }
    }
  }

  /** av1_highbd_convolve_2d_copy_sr_c: the same copy over 16-bit
      samples; bd is unused. */
  method HighbdConvolveCopySr(src: seq<seq<int>>, dst: array2<int>, w: int, h: int, bd: int)
    requires Covers(src, 0, 0, h, w) && h <= dst.Length0 && w <= dst.Length1
    modifies dst
    ensures forall y, x :: 0 <= y < h && 0 <= x < w ==> dst[y, x] == src[y][x]
    ensures forall y, x :: 0 <= y < dst.Length0 && 0 <= x < dst.Length1 && !(y < h && x < w) ==>
      dst[y, x] == old(dst[y, x])
  {
    ConvolveCopySr(src, dst, w, h);
  }

  // ---------------------------------------------------------------------
  // The tap loop shared by every filter
  // ---------------------------------------------------------------------

  /** The sum over k < n of f[k] * s[k]. */
  function Dot(f: seq<int>, s: seq<int>, n: nat): int
    requires n <= |f| && n <= |s|
  {
    if n == 0 then 0 else Dot(f, s, n - 1) + f[n - 1] * s[n - 1]
  }

  /** The loop `sum += filter[k] * src[k]` for k < taps, from init. */
  method FilterSum(f: seq<int>, s: seq<int>, init: int) returns (sum: int)
    requires |f| <= |s|
    ensures sum == init + Dot(f, s, |f|)
  {
    sum := init;
    for k := 0 to |f|
      invariant sum == init + Dot(f, s, k)
    {
      sum := sum + f[k] * s[k];
    }
  }

  /** The offset of the first tap: `taps / 2 - 1` (fo_horiz, fo_vert). */
  function Fo(taps: int): int
  {
    taps / 2 - 1
  }

  /** Row r of p exists and holds the columns c .. c + n - 1. */
  predicate RowSpan(p: seq<seq<int>>, r: int, c: int, n: int)
  {
    0 <= r < |p| && 0 <= c && c + n <= |p[r]|
  }

  /** Every row r0 .. r0 + rows - 1 of p exists and holds the columns
      c0 .. c0 + cols - 1. */
  predicate Window(p: seq<seq<int>>, r0: int, c0: int, rows: int, cols: int)
  {
    forall r :: r0 <= r < r0 + rows ==> RowSpan(p, r, c0, cols)
  }

  /** The n samples p[r][c .. c + n - 1] exist. */
  predicate HAt(p: seq<seq<int>>, r: int, c: int, n: nat)
  {
    n == 0 || RowSpan(p, r, c, n)
  }

  /** Row i of p exists and holds column c. */
  predicate RowHas(p: seq<seq<int>>, i: int, c: int)
  {
    0 <= i < |p| && 0 <= c < |p[i]|
  }

  /** The n samples p[r .. r + n - 1][c] exist. */
  predicate VAt(p: seq<seq<int>>, r: int, c: int, n: nat)
  {
    forall i :: r <= i < r + n ==> RowHas(p, i, c)
  }

  /** The samples a horizontal filter of n taps reads. */
  function RowTaps(p: seq<seq<int>>, r: int, c: int, n: nat): (s: seq<int>)
    requires HAt(p, r, c, n)
    ensures |s| == n && forall k :: 0 <= k < n ==> s[k] == p[r][c + k]
  {
    seq(n, k requires 0 <= k < n => p[r][c + k])
  }

  /** The samples a vertical filter of n taps reads. */
  function ColTaps(p: seq<seq<int>>, r: int, c: int, n: nat): (s: seq<int>)
    requires VAt(p, r, c, n)
    ensures |s| == n && forall i :: r <= i < r + n ==> RowHas(p, i, c) && s[i - r] == p[i][c]
  {
    seq(n, k requires 0 <= k < n => var i := r + k; assert RowHas(p, i, c); p[i][c])
  }

  /** The kernel of the integer (zero) sub-pixel phase: 128 at the tap
      under the output sample, 0 elsewhere. */
  predicate FullPel(f: seq<int>)
  {
    0 <= Fo(|f|) < |f| && forall k :: 0 <= k < |f| ==> f[k] == (if k == Fo(|f|) then 128 else 0)
  }

  /** A kernel with a single non-zero tap c at j picks c * s[j]. */
  lemma {:induction false} DotOfUnit(f: seq<int>, s: seq<int>, n: nat, j: int, c: int)
    requires n <= |f| && n <= |s|
    requires forall k :: 0 <= k < |f| ==> f[k] == (if k == j then c else 0)
    ensures Dot(f, s, n) == if 0 <= j < n then c * s[j] else 0
  {
    if n > 0 {
      DotOfUnit(f, s, n - 1, j, c);
    }
  }

  /** The integer-phase kernel reproduces the centre sample, scaled by 128. */
  lemma DotOfFullPel(f: seq<int>, s: seq<int>)
    requires FullPel(f) && |f| <= |s|
    ensures Dot(f, s, |f|) == 128 * s[Fo(|f|)]
  {
    DotOfUnit(f, s, |f|, Fo(|f|), 128);
  }

  /** A row of a window holds every run of columns inside it. */
  lemma WindowRow(p: seq<seq<int>>, r0: int, c0: int, rows: int, cols: int, r: int, c: int, n: nat)
    requires Window(p, r0, c0, rows, cols)
    requires r0 <= r < r0 + rows && c0 <= c && c + n <= c0 + cols
    ensures HAt(p, r, c, n)
  {
    assert RowSpan(p, r, c0, cols);
  }

  /** A window holds every column of it over any run of its rows. */
  lemma WindowColumn(p: seq<seq<int>>, r0: int, c0: int, rows: int, cols: int, r: int, c: int, n: nat)
    requires Window(p, r0, c0, rows, cols)
    requires r0 <= r && r + n <= r0 + rows && c0 <= c < c0 + cols
    ensures VAt(p, r, c, n)
  {
    forall i | r <= i < r + n
      ensures RowHas(p, i, c)
    {
      assert RowSpan(p, i, c0, cols);
    }
  }

  /** A window holds every window inside it. */
  lemma WindowInside(p: seq<seq<int>>, r0: int, c0: int, rows: int, cols: int,
                     r1: int, c1: int, rows1: int, cols1: int)
    requires Window(p, r0, c0, rows, cols)
    requires r0 <= r1 && r1 + rows1 <= r0 + rows && c0 <= c1 && c1 + cols1 <= c0 + cols
    ensures Window(p, r1, c1, rows1, cols1)
  {
    forall r | r1 <= r < r1 + rows1
      ensures RowSpan(p, r, c1, cols1)
    {
      assert RowSpan(p, r, c0, cols);
    }
  }

  /** Rounding by a then by b a multiple of 2^(a + b) is exact. */
  lemma RoundTwiceOfScaled(v: int, a: nat, b: nat)
    ensures RoundPowerOfTwo(RoundPowerOfTwo(v * Pow2(a + b), a), b) == v
  {
    Pow2Add(b, a);
    assert v * Pow2(a + b) == (v * Pow2(b)) * Pow2(a);
    RoundOfScaled(v * Pow2(b), a);
    RoundOfScaled(v, b);
  }

  // ---------------------------------------------------------------------
  // av1_convolve_x_sr_c, av1_convolve_y_sr_c
  // ---------------------------------------------------------------------

  /** The samples a horizontal filter f reads for output (y, x) of a block
      at (y0, x0) exist: its row from fo_horiz columns to its left. */
  predicate XTapsAt(src: seq<seq<int>>, y0: int, x0: int, f: seq<int>, y: int, x: int)
  {
    HAt(src, y0 + y, x0 + x - Fo(|f|), |f|)
  }

  /** The samples a vertical filter f reads for output (y, x) exist: its
      column from fo_vert rows above it. */
  predicate YTapsAt(src: seq<seq<int>>, y0: int, x0: int, f: seq<int>, y: int, x: int)
  {
    VAt(src, y0 + y - Fo(|f|), x0 + x, |f|)
  }

  /** The horizontal tap sum for output (y, x) of a block at (y0, x0): the
      |f| samples of its row from fo_horiz columns to its left. */
  function HSum(src: seq<seq<int>>, y0: int, x0: int, f: seq<int>, y: int, x: int): int
    requires XTapsAt(src, y0, x0, f, y, x)
  {
    Dot(f, RowTaps(src, y0 + y, x0 + x - Fo(|f|), |f|), |f|)
  }

  /** The vertical tap sum for output (y, x): the |f| samples of its
      column from fo_vert rows above it. */
  function VSum(src: seq<seq<int>>, y0: int, x0: int, f: seq<int>, y: int, x: int): int
    requires YTapsAt(src, y0, x0, f, y, x)
  {
    Dot(f, ColTaps(src, y0 + y - Fo(|f|), x0 + x, |f|), |f|)
  }

  /** One output of av1_convolve_x_sr_c: the tap sum rounded by round_0,
      then by FILTER_BITS - round_0, and clipped to a pixel. */
  function XSrPixel(src: seq<seq<int>>, y0: int, x0: int, f: seq<int>, round0: nat, y: int, x: int): (r: int)
    requires round0 <= 7
    requires XTapsAt(src, y0, x0, f, y, x)
    ensures 0 <= r <= 255
  {
    ClipPixel(RoundPowerOfTwo(RoundPowerOfTwo(HSum(src, y0, x0, f, y, x), round0), 7 - round0))
  }

  /** One output of av1_convolve_y_sr_c: the tap sum rounded by
      FILTER_BITS and clipped to a pixel. */
  function YSrPixel(src: seq<seq<int>>, y0: int, x0: int, f: seq<int>, y: int, x: int): (r: int)
    requires YTapsAt(src, y0, x0, f, y, x)
    ensures 0 <= r <= 255
  {
    ClipPixel(RoundPowerOfTwo(VSum(src, y0, x0, f, y, x), 7))
  }

  /** av1_convolve_x_sr_c. The source asserts bits = FILTER_BITS -
      round_0 >= 0, which the shift needs. */
  method ConvolveXSr(src: seq<seq<int>>, y0: int, x0: int, dst: array2<int>, w: int, h: int,
                     fx: seq<int>, round0: nat)
    requires round0 <= 7
    requires 0 <= h <= dst.Length0 && 0 <= w <= dst.Length1
    requires h == 0 || w == 0 || |fx| == 0 || Window(src, y0, x0 - Fo(|fx|), h, w + |fx| - 1)
    modifies dst
    ensures forall y, x :: 0 <= y < h && 0 <= x < w ==>
      XTapsAt(src, y0, x0, fx, y, x) && dst[y, x] == XSrPixel(src, y0, x0, fx, round0, y, x)
    ensures forall y, x :: 0 <= y < dst.Length0 && 0 <= x < dst.Length1 && !(y < h && x < w) ==>
      dst[y, x] == old(dst[y, x])
  {
    forall y, x | 0 <= y < h && 0 <= x < w
      ensures XTapsAt(src, y0, x0, fx, y, x)
    {
      if |fx| > 0 {
        WindowRow(src, y0, x0 - Fo(|fx|), h, w + |fx| - 1, y0 + y, x0 + x - Fo(|fx|), |fx|);
      }
    }
    for r := 0 to h
      invariant forall y, x :: 0 <= y < r && 0 <= x < w ==>
        dst[y, x] == XSrPixel(src, y0, x0, fx, round0, y, x)
      invariant forall y, x :: 0 <= y < dst.Length0 && 0 <= x < dst.Length1 && !(y < r && x < w) ==>
        dst[y, x] == old(dst[y, x])
    {
      var row := XSrRow(src, y0, x0, fx, round0, w, r);
      StoreRow(dst, r, row);
    }
  }

  /** One output row of av1_convolve_x_sr_c. */
  method XSrRow(src: seq<seq<int>>, y0: int, x0: int, fx: seq<int>, round0: nat, w: nat, r: int)
    returns (row: seq<int>)
    requires round0 <= 7
    requires forall x :: 0 <= x < w ==> XTapsAt(src, y0, x0, fx, r, x)
    ensures |row| == w
    ensures forall x :: 0 <= x < w ==> row[x] == XSrPixel(src, y0, x0, fx, round0, r, x)
  {
    row := [];
    for c := 0 to w
      invariant |row| == c
      invariant forall x :: 0 <= x < c ==> row[x] == XSrPixel(src, y0, x0, fx, round0, r, x)
    {
      assert XTapsAt(src, y0, x0, fx, r, c);
      var sum := FilterSum(fx, RowTaps(src, y0 + r, x0 + c - Fo(|fx|), |fx|), 0);
      row := row + [ClipPixel(RoundPowerOfTwo(RoundPowerOfTwo(sum, round0), 7 - round0))];
    }
  }

  /** av1_convolve_y_sr_c. Its asserts on round_0 and round_1 bound
      parameters the computation does not use. */
  method ConvolveYSr(src: seq<seq<int>>, y0: int, x0: int, dst: array2<int>, w: int, h: int,
                     fy: seq<int>)
    requires 0 <= h <= dst.Length0 && 0 <= w <= dst.Length1
    requires h == 0 || w == 0 || |fy| == 0 || Window(src, y0 - Fo(|fy|), x0, h + |fy| - 1, w)
    modifies dst
    ensures forall y, x :: 0 <= y < h && 0 <= x < w ==>
      YTapsAt(src, y0, x0, fy, y, x) && dst[y, x] == YSrPixel(src, y0, x0, fy, y, x)
    ensures forall y, x :: 0 <= y < dst.Length0 && 0 <= x < dst.Length1 && !(y < h && x < w) ==>
      dst[y, x] == old(dst[y, x])
  {
    forall y, x | 0 <= y < h && 0 <= x < w
      ensures YTapsAt(src, y0, x0, fy, y, x)
    {
      if |fy| > 0 {
        WindowColumn(src, y0 - Fo(|fy|), x0, h + |fy| - 1, w, y0 + y - Fo(|fy|), x0 + x, |fy|);
      }
    }
    for r := 0 to h
      invariant forall y, x :: 0 <= y < r && 0 <= x < w ==>
        dst[y, x] == YSrPixel(src, y0, x0, fy, y, x)
      invariant forall y, x :: 0 <= y < dst.Length0 && 0 <= x < dst.Length1 && !(y < r && x < w) ==>
        dst[y, x] == old(dst[y, x])
    {
      for c := 0 to w
        invariant forall y, x :: 0 <= y < r && 0 <= x < w ==>
          dst[y, x] == YSrPixel(src, y0, x0, fy, y, x)
        invariant forall x :: 0 <= x < c ==>
          dst[r, x] == YSrPixel(src, y0, x0, fy, r, x)
        invariant forall y, x :: 0 <= y < dst.Length0 && 0 <= x < dst.Length1 && !(y < r && x < w) && !(y == r && x < c) ==>
          dst[y, x] == old(dst[y, x])
      {
        assert YTapsAt(src, y0, x0, fy, r, c);
        var sum := FilterSum(fy, ColTaps(src, y0 + r - Fo(|fy|), x0 + c, |fy|), 0);
        dst[r, c] := ClipPixel(RoundPowerOfTwo(sum, 7));
      }
    }
  }

  /** At the integer phase av1_convolve_x_sr_c copies its input. */
  lemma XSrAtFullPel(src: seq<seq<int>>, y0: int, x0: int, f: seq<int>, round0: nat, y: int, x: int)
    requires round0 <= 7 && FullPel(f)
    requires XTapsAt(src, y0, x0, f, y, x)
    requires 0 <= src[y0 + y][x0 + x] <= 255
    ensures XSrPixel(src, y0, x0, f, round0, y, x) == src[y0 + y][x0 + x]
  {
    var s := RowTaps(src, y0 + y, x0 + x - Fo(|f|), |f|);
    DotOfFullPel(f, s);
    FullPelRounds(src[y0 + y][x0 + x], round0);
  }

  /** 128 * p rounded by round_0 and then by FILTER_BITS - round_0 is p. */
  lemma FullPelRounds(p: int, round0: nat)
    requires round0 <= 7
    ensures RoundPowerOfTwo(RoundPowerOfTwo(128 * p, round0), 7 - round0) == p
  {
    Pow2Values();
    assert Pow2(round0 + (7 - round0)) == 128;
    RoundTwiceOfScaled(p, round0, 7 - round0);
  }

  /** At the integer phase av1_convolve_y_sr_c copies its input. */
  lemma YSrAtFullPel(src: seq<seq<int>>, y0: int, x0: int, f: seq<int>, y: int, x: int)
    requires FullPel(f)
    requires YTapsAt(src, y0, x0, f, y, x)
    requires RowHas(src, y0 + y, x0 + x) && 0 <= src[y0 + y][x0 + x] <= 255
    ensures YSrPixel(src, y0, x0, f, y, x) == src[y0 + y][x0 + x]
  {
    var s := ColTaps(src, y0 + y - Fo(|f|), x0 + x, |f|);
    DotOfFullPel(f, s);
    Pow2Values();
    RoundOfScaled(src[y0 + y][x0 + x], 7);
  }

  // ---------------------------------------------------------------------
  // The two passes of the 2-D filters (av1_convolve_2d_sr_c,
  // av1_jnt_convolve_2d_c, av1_convolve_2d_c), at bit depth 8
  // ---------------------------------------------------------------------

  /** The conversion of an int to int16_t: the value modulo 2^16, taken in
      [-2^15, 2^15). */
  function WrapInt16(v: int): (r: int)
    ensures -32768 <= r < 32768
    ensures (v - r) % 65536 == 0
    ensures -32768 <= v < 32768 ==> r == v
  {
    (v + 32768) % 65536 - 32768
  }

  /** im_h = h + taps_y - 1 rows of im_block (none when that is not
      positive). */
  function ImRows(h: int, ny: int): nat
  {
    if h + ny - 1 > 0 then h + ny - 1 else 0
  }

  /** The samples the horizontal pass reads for row yi of im_block exist;
      row 0 of im_block lies fo_vert rows above the block. */
  predicate ImAt(src: seq<seq<int>>, y0: int, x0: int, fx: seq<int>, ny: int, yi: int, x: int)
  {
    HAt(src, y0 - Fo(ny) + yi, x0 + x - Fo(|fx|), |fx|)
  }

  /** The horizontal sum for im_block[yi][x], from the offset
      1 << (bd + FILTER_BITS - 1) = 2^14. */
  function ImSum(src: seq<seq<int>>, y0: int, x0: int, fx: seq<int>, ny: int, yi: int, x: int): int
    requires ImAt(src, y0, x0, fx, ny, yi, x)
  {
    16384 + Dot(fx, RowTaps(src, y0 - Fo(ny) + yi, x0 + x - Fo(|fx|), |fx|), |fx|)
  }

  /** im_block[yi][x]: the sum rounded by round_0 and stored as int16_t. */
  function ImValue(src: seq<seq<int>>, y0: int, x0: int, fx: seq<int>, ny: int, round0: nat, yi: int, x: int): int
    requires ImAt(src, y0, x0, fx, ny, yi, x)
  {
    WrapInt16(RoundPowerOfTwo(ImSum(src, y0, x0, fx, ny, yi, x), round0))
  }

  /** im_block holds the horizontal pass: every entry of its first w
      columns is the rounded, int16-wrapped horizontal sum. */
  ghost predicate ImFilled(im: array2<int>, src: seq<seq<int>>, y0: int, x0: int, fx: seq<int>, ny: int,
                           round0: nat, w: int)
    reads im
  {
    w <= im.Length1 &&
    forall yi, x :: 0 <= yi < im.Length0 && 0 <= x < w ==>
      ImAt(src, y0, x0, fx, ny, yi, x) && im[yi, x] == ImValue(src, y0, x0, fx, ny, round0, yi, x)
  }

  /** The source samples both passes read for output (y, x) exist: the
      |fy| x |fx| window around it. */
  predicate Taps2dAt(src: seq<seq<int>>, y0: int, x0: int, fx: seq<int>, fy: seq<int>, y: int, x: int)
  {
    |fx| == 0 || Window(src, y0 - Fo(|fy|) + y, x0 + x - Fo(|fx|), |fy|, |fx|)
  }

  /** The im_block column the vertical pass reads for output (y, x): rows
      y .. y + |fy| - 1 of im_block (src_vert starts fo_vert rows down). */
  function ImColumn(src: seq<seq<int>>, y0: int, x0: int, fx: seq<int>, fy: seq<int>, round0: nat, y: int, x: int): (s: seq<int>)
    requires Taps2dAt(src, y0, x0, fx, fy, y, x)
    ensures |s| == |fy|
    ensures forall k :: 0 <= k < |fy| ==>
      ImAt(src, y0, x0, fx, |fy|, y + k, x) && s[k] == ImValue(src, y0, x0, fx, |fy|, round0, y + k, x)
  {
    TapsInWindow(src, y0, x0, fx, fy, y, x);
    seq(|fy|, k requires 0 <= k < |fy| => ImValue(src, y0, x0, fx, |fy|, round0, y + k, x))
  }

  /** Every im_block row an output's vertical taps read has its
      horizontal taps in the source. */
  lemma TapsInWindow(src: seq<seq<int>>, y0: int, x0: int, fx: seq<int>, fy: seq<int>, y: int, x: int)
    requires Taps2dAt(src, y0, x0, fx, fy, y, x)
    ensures forall yi :: y <= yi < y + |fy| ==> ImAt(src, y0, x0, fx, |fy|, yi, x)
  {
    forall yi | y <= yi < y + |fy|
      ensures ImAt(src, y0, x0, fx, |fy|, yi, x)
    {
      if |fx| > 0 {
        assert RowSpan(src, y0 - Fo(|fy|) + yi, x0 + x - Fo(|fx|), |fx|);
      }
    }
  }

  /** The compound result of the 2-D filter for output (y, x): the
      vertical sum from the offset 1 << offset_bits, rounded by round_1,
      less the offsets the two passes added. offset_bits = bd +
      2 * FILTER_BITS - round_0 = 22 - round_0. */
  function Conv2dRes(src: seq<seq<int>>, y0: int, x0: int, fx: seq<int>, fy: seq<int>,
                     round0: nat, round1: nat, y: int, x: int): int
    requires round0 + round1 <= 21
    requires Taps2dAt(src, y0, x0, fx, fy, y, x)
  {
    RoundPowerOfTwo(Pow2(22 - round0) + Dot(fy, ImColumn(src, y0, x0, fx, fy, round0, y, x), |fy|), round1)
      - (Pow2(22 - round0 - round1) + Pow2(21 - round0 - round1))
  }

  /** One output of av1_convolve_2d_sr_c: the compound result rounded by
      bits = 2 * FILTER_BITS - round_0 - round_1 and clipped to a pixel. */
  function Sr2dPixel(src: seq<seq<int>>, y0: int, x0: int, fx: seq<int>, fy: seq<int>,
                     round0: nat, round1: nat, y: int, x: int): (r: int)
    requires round0 + round1 <= 14
    requires Taps2dAt(src, y0, x0, fx, fy, y, x)
    ensures 0 <= r <= 255
  {
    ClipPixel(RoundPowerOfTwo(Conv2dRes(src, y0, x0, fx, fy, round0, round1, y, x), 14 - round0 - round1))
  }

  /** The horizontal pass: im_h rows of im_block over the rows from
      fo_vert above the block. */
  method HorizontalPass(src: seq<seq<int>>, y0: int, x0: int, fx: seq<int>, ny: nat, round0: nat,
                        h: nat, w: nat) returns (im: array2<int>)
    requires w == 0 || |fx| == 0 || Window(src, y0 - Fo(ny), x0 - Fo(|fx|), h + ny - 1, w + |fx| - 1)
    ensures fresh(im) && im.Length0 == ImRows(h, ny) && im.Length1 == w
    ensures ImFilled(im, src, y0, x0, fx, ny, round0, w)
  {
    var imH := ImRows(h, ny);
    im := new int[imH, w];
    forall yi, x | 0 <= yi < imH && 0 <= x < w
      ensures ImAt(src, y0, x0, fx, ny, yi, x)
    {
      if |fx| > 0 {
        WindowRow(src, y0 - Fo(ny), x0 - Fo(|fx|), h + ny - 1, w + |fx| - 1, y0 - Fo(ny) + yi, x0 + x - Fo(|fx|), |fx|);
      }
    }
    for r := 0 to imH
      invariant forall yi, x :: 0 <= yi < r && 0 <= x < w ==> im[yi, x] == ImValue(src, y0, x0, fx, ny, round0, yi, x)
    {
      for c := 0 to w
        invariant forall yi, x :: 0 <= yi < r && 0 <= x < w ==> im[yi, x] == ImValue(src, y0, x0, fx, ny, round0, yi, x)
        invariant forall x :: 0 <= x < c ==> im[r, x] == ImValue(src, y0, x0, fx, ny, round0, r, x)
      {
        assert ImAt(src, y0, x0, fx, ny, r, c);
        var sum := FilterSum(fx, RowTaps(src, y0 - Fo(ny) + r, x0 + c - Fo(|fx|), |fx|), 16384);
        im[r, c] := WrapInt16(RoundPowerOfTwo(sum, round0));
      }
    }
  }

  /** The vertical tap loop over im_block for output (y, x), from the
      offset 1 << offset_bits. */
  method VerticalSum(im: array2<int>, src: seq<seq<int>>, y0: int, x0: int, fx: seq<int>, fy: seq<int>,
                     round0: nat, h: nat, w: nat, y: int, x: int) returns (sum: int)
    requires round0 <= 22
    requires im.Length0 == ImRows(h, |fy|) && im.Length1 == w && 0 <= y < h && 0 <= x < w
    requires Taps2dAt(src, y0, x0, fx, fy, y, x)
    requires ImFilled(im, src, y0, x0, fx, |fy|, round0, w)
    ensures sum == Pow2(22 - round0) + Dot(fy, ImColumn(src, y0, x0, fx, fy, round0, y, x), |fy|)
  {
    ghost var col := ImColumn(src, y0, x0, fx, fy, round0, y, x);
    sum := Pow2(22 - round0);
    for k := 0 to |fy|
      invariant sum == Pow2(22 - round0) + Dot(fy, col, k)
    {
      assert im[y + k, x] == col[k];
      sum := sum + fy[k] * im[y + k, x];
    }
  }

  /** The vertical pass of av1_convolve_2d_sr_c for output (y, x). */
  method Sr2dCell(im: array2<int>, src: seq<seq<int>>, y0: int, x0: int, fx: seq<int>, fy: seq<int>,
                  round0: nat, round1: nat, h: nat, w: nat, y: int, x: int) returns (v: int)
    requires round0 + round1 <= 14
    requires im.Length0 == ImRows(h, |fy|) && im.Length1 == w && 0 <= y < h && 0 <= x < w
    requires Taps2dAt(src, y0, x0, fx, fy, y, x)
    requires ImFilled(im, src, y0, x0, fx, |fy|, round0, w)
    ensures v == Sr2dPixel(src, y0, x0, fx, fy, round0, round1, y, x)
  {
    var res := Conv2dCell(im, src, y0, x0, fx, fy, round0, round1, h, w, y, x);
    v := ClipPixel(RoundPowerOfTwo(res, 14 - round0 - round1));
  }

  /** av1_convolve_2d_sr_c at bit depth 8. */
  method ConvolveSr2d(src: seq<seq<int>>, y0: int, x0: int, dst: array2<int>, w: nat, h: nat,
                      fx: seq<int>, fy: seq<int>, round0: nat, round1: nat)
    requires round0 + round1 <= 14
    requires h <= dst.Length0 && w <= dst.Length1
    requires w == 0 || |fx| == 0 || Window(src, y0 - Fo(|fy|), x0 - Fo(|fx|), h + |fy| - 1, w + |fx| - 1)
    modifies dst
    ensures forall y, x :: 0 <= y < h && 0 <= x < w ==>
      Taps2dAt(src, y0, x0, fx, fy, y, x) && dst[y, x] == Sr2dPixel(src, y0, x0, fx, fy, round0, round1, y, x)
    ensures forall y, x :: 0 <= y < dst.Length0 && 0 <= x < dst.Length1 && !(y < h && x < w) ==>
      dst[y, x] == old(dst[y, x])
  {
    var im := HorizontalPass(src, y0, x0, fx, |fy|, round0, h, w);
    forall y, x | 0 <= y < h && 0 <= x < w
      ensures Taps2dAt(src, y0, x0, fx, fy, y, x)
    {
      if |fx| > 0 {
        WindowInside(src, y0 - Fo(|fy|), x0 - Fo(|fx|), h + |fy| - 1, w + |fx| - 1,
                     y0 - Fo(|fy|) + y, x0 + x - Fo(|fx|), |fy|, |fx|);
      }
    }
    for r := 0 to h
      modifies dst
      invariant forall y, x :: 0 <= y < r && 0 <= x < w ==>
        dst[y, x] == Sr2dPixel(src, y0, x0, fx, fy, round0, round1, y, x)
      invariant forall y, x :: 0 <= y < dst.Length0 && 0 <= x < dst.Length1 && !(y < r && x < w) ==>
        dst[y, x] == old(dst[y, x])
    {
      var row := Sr2dRow(im, src, y0, x0, fx, fy, round0, round1, h, w, r);
      StoreRow(dst, r, row);
    }
  }

  /** One output row of av1_convolve_2d_sr_c: the vertical pass over the
      intermediate buffer for row r, column by column. */
  method Sr2dRow(im: array2<int>, src: seq<seq<int>>, y0: int, x0: int,
                 fx: seq<int>, fy: seq<int>, round0: nat, round1: nat, h: nat, w: nat, r: int)
    returns (row: seq<int>)
    requires round0 + round1 <= 14
    requires im.Length0 == ImRows(h, |fy|) && im.Length1 == w && 0 <= r < h
    requires forall x :: 0 <= x < w ==> Taps2dAt(src, y0, x0, fx, fy, r, x)
    requires ImFilled(im, src, y0, x0, fx, |fy|, round0, w)
    ensures |row| == w
    ensures forall x :: 0 <= x < w ==> row[x] == Sr2dPixel(src, y0, x0, fx, fy, round0, round1, r, x)
  {
    row := [];
    for c := 0 to w
      invariant |row| == c
      invariant forall x :: 0 <= x < c ==> row[x] == Sr2dPixel(src, y0, x0, fx, fy, round0, round1, r, x)
    {
      var v := Sr2dCell(im, src, y0, x0, fx, fy, round0, round1, h, w, r, c);
      row := row + [v];
    }
  }

  /** Stores a computed row into row r of dst, leaving every other entry. */
  method StoreRow(dst: array2<int>, r: int, row: seq<int>)
    requires 0 <= r < dst.Length0 && |row| <= dst.Length1
    modifies dst
    ensures forall x :: 0 <= x < |row| ==> dst[r, x] == row[x]
    ensures forall y, x :: 0 <= y < dst.Length0 && 0 <= x < dst.Length1 && !(y == r && x < |row|) ==>
      dst[y, x] == old(dst[y, x])
  {
    for c := 0 to |row|
      invariant forall x :: 0 <= x < c ==> dst[r, x] == row[x]
      invariant forall y, x :: 0 <= y < dst.Length0 && 0 <= x < dst.Length1 && !(y == r && x < c) ==>
        dst[y, x] == old(dst[y, x])
    {
      dst[r, c] := row[c];
    }
  }

  /** At the integer phase both passes of av1_convolve_2d_sr_c copy their
      input, provided round_0 >= 1 keeps the intermediate within int16
      (libaom's round_0 is 3, or 5 at 12 bits). */
  lemma Sr2dAtFullPel(src: seq<seq<int>>, y0: int, x0: int, fx: seq<int>, fy: seq<int>,
                      round0: nat, round1: nat, y: int, x: int)
    requires FullPel(fx) && FullPel(fy) && 1 <= round0 <= 7 && round0 + round1 <= 14
    requires Taps2dAt(src, y0, x0, fx, fy, y, x)
    requires RowHas(src, y0 + y, x0 + x) && 0 <= src[y0 + y][x0 + x] <= 255
    ensures Sr2dPixel(src, y0, x0, fx, fy, round0, round1, y, x) == src[y0 + y][x0 + x]
  {
    var p := src[y0 + y][x0 + x];
    Conv2dAtFullPel(src, y0, x0, fx, fy, round0, round1, y, x);
    RoundOfScaled(p, 14 - round0 - round1);
  }

  /** At the integer phase the compound 2-D result is the pixel scaled by
      2^(2 * FILTER_BITS - round_0 - round_1). */
  lemma Conv2dAtFullPel(src: seq<seq<int>>, y0: int, x0: int, fx: seq<int>, fy: seq<int>,
                        round0: nat, round1: nat, y: int, x: int)
    requires FullPel(fx) && FullPel(fy) && 1 <= round0 <= 7 && round0 + round1 <= 14
    requires Taps2dAt(src, y0, x0, fx, fy, y, x)
    requires RowHas(src, y0 + y, x0 + x) && 0 <= src[y0 + y][x0 + x] <= 255
    ensures Conv2dRes(src, y0, x0, fx, fy, round0, round1, y, x)
      == src[y0 + y][x0 + x] * Pow2(14 - round0 - round1)
  {
    var p := src[y0 + y][x0 + x];
    var col := ImColumn(src, y0, x0, fx, fy, round0, y, x);
    DotOfFullPel(fy, col);
    ImValueAtFullPel(src, y0, x0, fx, |fy|, round0, y + Fo(|fy|), x);
    VerticalOfIntermediate(p, Dot(fy, col, |fy|), round0, round1);
  }

  /** At the integer phase the horizontal pass stores the source sample p
      as (128 + p) * 2^(7 - round_0). */
  lemma ImValueAtFullPel(src: seq<seq<int>>, y0: int, x0: int, fx: seq<int>, ny: int, round0: nat, yi: int, x: int)
    requires FullPel(fx) && 1 <= round0 <= 7
    requires ImAt(src, y0, x0, fx, ny, yi, x)
    requires RowHas(src, y0 - Fo(ny) + yi, x0 + x) && 0 <= src[y0 - Fo(ny) + yi][x0 + x] <= 255
    ensures ImValue(src, y0, x0, fx, ny, round0, yi, x) == (128 + src[y0 - Fo(ny) + yi][x0 + x]) * Pow2(7 - round0)
  {
    var p := src[y0 - Fo(ny) + yi][x0 + x];
    DotOfFullPel(fx, RowTaps(src, y0 - Fo(ny) + yi, x0 + x - Fo(|fx|), |fx|));
    assert ImSum(src, y0, x0, fx, ny, yi, x) == 16384 + 128 * p;
    var im := ImIntermediate(p, round0);
  }

  /** The integer-phase horizontal pass: 2^14 + 128 * p rounded by round_0
      is (128 + p) * 2^(7 - round_0), which int16 holds. */
  lemma ImIntermediate(p: int, round0: nat) returns (im: int)
    requires 0 <= p <= 255 && 1 <= round0 <= 7
    ensures im == (128 + p) * Pow2(7 - round0)
    ensures WrapInt16(RoundPowerOfTwo(16384 + 128 * p, round0)) == im
  {
    var t := Pow2(7 - round0);
    im := (128 + p) * t;
    Pow2Values();
    Pow2Add(7 - round0, round0);
    assert 16384 + 128 * p == im * Pow2(round0);
    RoundOfScaled(im, round0);
    Pow2Monotone(7 - round0, 6);
    assert im <= 383 * 64;
  }

  /** The integer-phase vertical pass over the intermediate im =
      (128 + p) * 2^(7 - round_0) leaves p * 2^bits. */
  lemma VerticalOfIntermediate(p: int, dot: int, round0: nat, round1: nat)
    requires 1 <= round0 <= 7 && round0 + round1 <= 14
    requires dot == 128 * ((128 + p) * Pow2(7 - round0))
    ensures RoundPowerOfTwo(Pow2(22 - round0) + dot, round1)
      - (Pow2(22 - round0 - round1) + Pow2(21 - round0 - round1)) == p * Pow2(14 - round0 - round1)
  {
    var bits := 14 - round0 - round1;
    var b := Pow2(bits);
    var sum := Pow2(22 - round0) + 128 * ((128 + p) * Pow2(7 - round0));
    var scaled := (384 + p) * b;
    SumIsScaled(p, round0, round1);
    assert sum == scaled * Pow2(round1);
    RoundOfScaled(scaled, round1);
    assert RoundPowerOfTwo(sum, round1) == scaled;
    OffsetPowers(round0, round1);
    DropOffset(p, b);
  }

  /** The sum the vertical pass sees is (384 + p) * 2^bits, scaled by
      2^round_1. */
  lemma SumIsScaled(p: int, round0: nat, round1: nat)
    requires 1 <= round0 <= 7 && round0 + round1 <= 14
    ensures Pow2(22 - round0) + 128 * ((128 + p) * Pow2(7 - round0))
      == ((384 + p) * Pow2(14 - round0 - round1)) * Pow2(round1)
  {
    SumOfPowers(p, round0);
    var bits := 14 - round0 - round1;
    Pow2Add(round1, bits);
    Regroup(384 + p, Pow2(round1), Pow2(bits));
  }

  lemma SumOfPowers(p: int, round0: nat)
    requires 1 <= round0 <= 7
    ensures Pow2(22 - round0) + 128 * ((128 + p) * Pow2(7 - round0)) == (384 + p) * Pow2(14 - round0)
  {
    var t := Pow2(7 - round0);
    assert Pow2(15) == 32768 && Pow2(7) == 128 by { Pow2Values(); }
    Pow2Add(15, 7 - round0);
    Pow2Add(7, 7 - round0);
    SumOfIntermediate(p, t, Pow2(22 - round0), Pow2(14 - round0));
  }

  /** The two offsets the vertical pass removes: 2^(22 - round_0 - round_1)
      and 2^(21 - round_0 - round_1) are 256 and 128 times 2^bits. */
  lemma OffsetPowers(round0: nat, round1: nat)
    requires round0 + round1 <= 14
    ensures Pow2(22 - round0 - round1) == 256 * Pow2(14 - round0 - round1)
    ensures Pow2(21 - round0 - round1) == 128 * Pow2(14 - round0 - round1)
  {
    Pow2Values();
    Pow2Add(8, 14 - round0 - round1);
    Pow2Add(7, 14 - round0 - round1);
  }

  lemma DropOffset(p: int, b: int)
    ensures (384 + p) * b - (256 * b + 128 * b) == p * b
  {
  }

  lemma SumOfIntermediate(p: int, t: int, a: int, c: int)
    requires a == 32768 * t && c == 128 * t
    ensures a + 128 * ((128 + p) * t) == (384 + p) * c
  {
  }

  lemma Regroup(v: int, r: int, b: int)
    ensures v * (r * b) == (v * b) * r
  {
  }

  // ---------------------------------------------------------------------
  // The compound paths: av1_jnt_convolve_{2d,x,y,2d_copy}_c and
  // av1_convolve_{2d,x,y,2d_copy}_c
  // ---------------------------------------------------------------------

  /** The fields of ConvolveParams the compound paths read. Its
      CONV_BUF_TYPE buffer and stride are the dst array of each method. */
  datatype ConvolveParams = ConvolveParams(round0: nat, round1: nat, doAverage: bool,
                                           useJntCompAvg: bool, fwdOffset: int, bckOffset: int)

  /** What a compound path stores over the buffer value prev for its
      result res: res itself on the first prediction; on the second, the
      distance-weighted average (prev * fwd_offset + res * bck_offset) >>
      DIST_PRECISION_BITS or the plain average (prev + res) >> 1. */
  function CompoundStore(prev: int, res: int, cp: ConvolveParams): int
  {
    if !cp.doAverage then res
    else if cp.useJntCompAvg then (prev * cp.fwdOffset + res * cp.bckOffset) / 16
    else (prev + res) / 2
  }

  /** The weights of the distance-weighted average: non-negative and
      summing to 1 << DIST_PRECISION_BITS. */
  predicate JntWeights(cp: ConvolveParams)
  {
    0 <= cp.fwdOffset && 0 <= cp.bckOffset && cp.fwdOffset + cp.bckOffset == 16
  }

  /** Either average lies between the two predictions it combines. */
  lemma CompoundAverageBetween(prev: int, res: int, cp: ConvolveParams)
    requires cp.doAverage && (cp.useJntCompAvg ==> JntWeights(cp))
    ensures Min(prev, res) <= CompoundStore(prev, res, cp) <= Max(prev, res)
  {
    var lo, hi := Min(prev, res), Max(prev, res);
    if cp.useJntCompAvg {
      WeightedBetween(prev, res, cp.fwdOffset, cp.bckOffset, lo, hi);
      DivMonotone(16 * lo, prev * cp.fwdOffset + res * cp.bckOffset, 16);
      DivMonotone(prev * cp.fwdOffset + res * cp.bckOffset, 16 * hi, 16);
    } else {
      DivMonotone(2 * lo, prev + res, 2);
      DivMonotone(prev + res, 2 * hi, 2);
    }
  }

  lemma WeightedBetween(a: int, b: int, f: int, g: int, lo: int, hi: int)
    requires 0 <= f && 0 <= g && f + g == 16
    requires lo <= a <= hi && lo <= b <= hi
    ensures 16 * lo <= a * f + b * g <= 16 * hi
  {
    MulNonNeg(a - lo, f);
    MulNonNeg(b - lo, g);
    MulNonNeg(hi - a, f);
    MulNonNeg(hi - b, g);
    assert (a - lo) * f + (b - lo) * g == a * f + b * g - lo * (f + g);
    assert (hi - a) * f + (hi - b) * g == hi * (f + g) - (a * f + b * g);
  }

  lemma MulNonNeg(x: int, y: int)
    requires 0 <= x && 0 <= y
    ensures 0 <= x * y
  {
  }

  /** The distance-weighted average with the equal weights (8, 8) is the
      plain average. */
  lemma EqualWeightsArePlainAverage(prev: int, res: int, cp: ConvolveParams)
    requires cp.doAverage && cp.fwdOffset == 8 && cp.bckOffset == 8
    ensures CompoundStore(prev, res, cp.(useJntCompAvg := true))
      == CompoundStore(prev, res, cp.(useJntCompAvg := false))
  {
    var q := (prev + res) / 2;
    DivUnique(prev * 8 + res * 8, 16, q, 8 * ((prev + res) % 2));
  }

  /** The compound result of the 2-D copy: the sample shifted left by
      bits = 2 * FILTER_BITS - round_0 - round_1. */
  function CopyRes(p: int, cp: ConvolveParams): int
    requires cp.round0 + cp.round1 <= 14
  {
    p * Pow2(14 - cp.round0 - cp.round1)
  }

  /** The compound result of the horizontal filter: the tap sum rounded
      by round_0, times 1 << (FILTER_BITS - round_1). */
  function JntXRes(src: seq<seq<int>>, y0: int, x0: int, f: seq<int>, cp: ConvolveParams, y: int, x: int): int
    requires cp.round1 <= 7
    requires XTapsAt(src, y0, x0, f, y, x)
  {
    Pow2(7 - cp.round1) * RoundPowerOfTwo(HSum(src, y0, x0, f, y, x), cp.round0)
  }

  /** The compound result of the vertical filter: the tap sum times
      1 << (FILTER_BITS - round_0), rounded by round_1. */
  function JntYRes(src: seq<seq<int>>, y0: int, x0: int, f: seq<int>, cp: ConvolveParams, y: int, x: int): int
    requires cp.round0 <= 7
    requires YTapsAt(src, y0, x0, f, y, x)
  {
    RoundPowerOfTwo(VSum(src, y0, x0, f, y, x) * Pow2(7 - cp.round0), cp.round1)
  }

  /** The sample under output (y, x) exists. */
  predicate PixelAt(src: seq<seq<int>>, y0: int, x0: int, y: int, x: int)
  {
    RowHas(src, y0 + y, x0 + x)
  }

  /** The compound result of the 2-D copy for output (y, x). */
  function CopyResAt(src: seq<seq<int>>, y0: int, x0: int, cp: ConvolveParams, y: int, x: int): int
    requires cp.round0 + cp.round1 <= 14
    requires PixelAt(src, y0, x0, y, x)
  {
    CopyRes(src[y0 + y][x0 + x], cp)
  }

  /** av1_jnt_convolve_2d_copy_c: each sample shifted to the compound
      precision and stored or averaged into dst. */
  method JntConvolveCopy(src: seq<seq<int>>, y0: int, x0: int, dst: array2<int>, w: nat, h: nat,
                         cp: ConvolveParams)
    requires cp.round0 + cp.round1 <= 14
    requires h <= dst.Length0 && w <= dst.Length1
    requires w == 0 || Window(src, y0, x0, h, w)
    modifies dst
    ensures forall y, x :: 0 <= y < h && 0 <= x < w ==>
      PixelAt(src, y0, x0, y, x) && dst[y, x] == CompoundStore(old(dst[y, x]), CopyResAt(src, y0, x0, cp, y, x), cp)
    ensures forall y, x :: 0 <= y < dst.Length0 && 0 <= x < dst.Length1 && !(y < h && x < w) ==>
      dst[y, x] == old(dst[y, x])
  {
    forall y, x | 0 <= y < h && 0 <= x < w
      ensures PixelAt(src, y0, x0, y, x)
    {
      assert RowSpan(src, y0 + y, x0, w);
    }
    for r := 0 to h
      invariant forall y, x :: 0 <= y < r && 0 <= x < w ==>
        dst[y, x] == CompoundStore(old(dst[y, x]), CopyResAt(src, y0, x0, cp, y, x), cp)
      invariant forall y, x :: 0 <= y < dst.Length0 && 0 <= x < dst.Length1 && !(y < r && x < w) ==>
        dst[y, x] == old(dst[y, x])
    {
      for c := 0 to w
        invariant forall y, x :: 0 <= y < r && 0 <= x < w ==>
          dst[y, x] == CompoundStore(old(dst[y, x]), CopyResAt(src, y0, x0, cp, y, x), cp)
        invariant forall x :: 0 <= x < c ==>
          dst[r, x] == CompoundStore(old(dst[r, x]), CopyResAt(src, y0, x0, cp, r, x), cp)
        invariant forall y, x :: 0 <= y < dst.Length0 && 0 <= x < dst.Length1 && !(y < r && x < w) && !(y == r && x < c) ==>
          dst[y, x] == old(dst[y, x])
      {
        assert PixelAt(src, y0, x0, r, c);
        var res := src[y0 + r][x0 + c] * Pow2(14 - cp.round0 - cp.round1);
        dst[r, c] := CompoundStore(dst[r, c], res, cp);
      }
    }
  }

  /** av1_jnt_convolve_x_c: the horizontal compound result of each output
      stored or averaged into dst. */
  method JntConvolveX(src: seq<seq<int>>, y0: int, x0: int, dst: array2<int>, w: nat, h: nat,
                      fx: seq<int>, cp: ConvolveParams)
    requires cp.round1 <= 7
    requires h <= dst.Length0 && w <= dst.Length1
    requires w == 0 || |fx| == 0 || Window(src, y0, x0 - Fo(|fx|), h, w + |fx| - 1)
    modifies dst
    ensures forall y, x :: 0 <= y < h && 0 <= x < w ==>
      XTapsAt(src, y0, x0, fx, y, x)
      && dst[y, x] == CompoundStore(old(dst[y, x]), JntXRes(src, y0, x0, fx, cp, y, x), cp)
    ensures forall y, x :: 0 <= y < dst.Length0 && 0 <= x < dst.Length1 && !(y < h && x < w) ==>
      dst[y, x] == old(dst[y, x])
  {
    forall y, x | 0 <= y < h && 0 <= x < w
      ensures XTapsAt(src, y0, x0, fx, y, x)
    {
      if |fx| > 0 {
        WindowRow(src, y0, x0 - Fo(|fx|), h, w + |fx| - 1, y0 + y, x0 + x - Fo(|fx|), |fx|);
      }
    }
    for r := 0 to h
      modifies dst
      invariant forall y, x :: 0 <= y < r && 0 <= x < w ==>
        dst[y, x] == CompoundStore(old(dst[y, x]), JntXRes(src, y0, x0, fx, cp, y, x), cp)
      invariant forall y, x :: 0 <= y < dst.Length0 && 0 <= x < dst.Length1 && !(y < r && x < w) ==>
        dst[y, x] == old(dst[y, x])
    {
      for c := 0 to w
        modifies dst
        invariant forall y, x :: 0 <= y < r && 0 <= x < w ==>
          dst[y, x] == CompoundStore(old(dst[y, x]), JntXRes(src, y0, x0, fx, cp, y, x), cp)
        invariant forall x :: 0 <= x < c ==>
          dst[r, x] == CompoundStore(old(dst[r, x]), JntXRes(src, y0, x0, fx, cp, r, x), cp)
        invariant forall y, x :: 0 <= y < dst.Length0 && 0 <= x < dst.Length1 && !(y < r && x < w) && !(y == r && x < c) ==>
          dst[y, x] == old(dst[y, x])
      {
        assert XTapsAt(src, y0, x0, fx, r, c);
        var sum := FilterSum(fx, RowTaps(src, y0 + r, x0 + c - Fo(|fx|), |fx|), 0);
        var res := Pow2(7 - cp.round1) * RoundPowerOfTwo(sum, cp.round0);
        dst[r, c] := CompoundStore(dst[r, c], res, cp);
      }
    }
  }

  /** av1_jnt_convolve_y_c: the vertical compound result of each output
      stored or averaged into dst. */
  method JntConvolveY(src: seq<seq<int>>, y0: int, x0: int, dst: array2<int>, w: nat, h: nat,
                      fy: seq<int>, cp: ConvolveParams)
    requires cp.round0 <= 7
    requires h <= dst.Length0 && w <= dst.Length1
    requires h == 0 || w == 0 || |fy| == 0 || Window(src, y0 - Fo(|fy|), x0, h + |fy| - 1, w)
    modifies dst
    ensures forall y, x :: 0 <= y < h && 0 <= x < w ==>
      YTapsAt(src, y0, x0, fy, y, x)
      && dst[y, x] == CompoundStore(old(dst[y, x]), JntYRes(src, y0, x0, fy, cp, y, x), cp)
    ensures forall y, x :: 0 <= y < dst.Length0 && 0 <= x < dst.Length1 && !(y < h && x < w) ==>
      dst[y, x] == old(dst[y, x])
  {
    forall y, x | 0 <= y < h && 0 <= x < w
      ensures YTapsAt(src, y0, x0, fy, y, x)
    {
      if |fy| > 0 {
        WindowColumn(src, y0 - Fo(|fy|), x0, h + |fy| - 1, w, y0 + y - Fo(|fy|), x0 + x, |fy|);
      }
    }
    for r := 0 to h
      modifies dst
      invariant forall y, x :: 0 <= y < r && 0 <= x < w ==>
        dst[y, x] == CompoundStore(old(dst[y, x]), JntYRes(src, y0, x0, fy, cp, y, x), cp)
      invariant forall y, x :: 0 <= y < dst.Length0 && 0 <= x < dst.Length1 && !(y < r && x < w) ==>
        dst[y, x] == old(dst[y, x])
    {
      for c := 0 to w
        modifies dst
        invariant forall y, x :: 0 <= y < r && 0 <= x < w ==>
          dst[y, x] == CompoundStore(old(dst[y, x]), JntYRes(src, y0, x0, fy, cp, y, x), cp)
        invariant forall x :: 0 <= x < c ==>
          dst[r, x] == CompoundStore(old(dst[r, x]), JntYRes(src, y0, x0, fy, cp, r, x), cp)
        invariant forall y, x :: 0 <= y < dst.Length0 && 0 <= x < dst.Length1 && !(y < r && x < w) && !(y == r && x < c) ==>
          dst[y, x] == old(dst[y, x])
      {
        assert YTapsAt(src, y0, x0, fy, r, c);
        var sum := FilterSum(fy, ColTaps(src, y0 + r - Fo(|fy|), x0 + c, |fy|), 0);
        var res := RoundPowerOfTwo(sum * Pow2(7 - cp.round0), cp.round1);
        dst[r, c] := CompoundStore(dst[r, c], res, cp);
      }
    }
  }

  /** The vertical pass of av1_jnt_convolve_2d_c for output (y, x). */
  method Conv2dCell(im: array2<int>, src: seq<seq<int>>, y0: int, x0: int, fx: seq<int>, fy: seq<int>,
                    round0: nat, round1: nat, h: nat, w: nat, y: int, x: int) returns (res: int)
    requires round0 + round1 <= 21
    requires im.Length0 == ImRows(h, |fy|) && im.Length1 == w && 0 <= y < h && 0 <= x < w
    requires Taps2dAt(src, y0, x0, fx, fy, y, x)
    requires ImFilled(im, src, y0, x0, fx, |fy|, round0, w)
    ensures res == Conv2dRes(src, y0, x0, fx, fy, round0, round1, y, x)
  {
    var sum := VerticalSum(im, src, y0, x0, fx, fy, round0, h, w, y, x);
    res := RoundPowerOfTwo(sum, round1) - (Pow2(22 - round0 - round1) + Pow2(21 - round0 - round1));
  }

  /** av1_jnt_convolve_2d_c at bit depth 8: both passes, then the compound
      result stored or averaged into dst. */
  method JntConvolve2d(src: seq<seq<int>>, y0: int, x0: int, dst: array2<int>, w: nat, h: nat,
                       fx: seq<int>, fy: seq<int>, cp: ConvolveParams)
    requires cp.round0 + cp.round1 <= 21
    requires h <= dst.Length0 && w <= dst.Length1
    requires w == 0 || |fx| == 0 || Window(src, y0 - Fo(|fy|), x0 - Fo(|fx|), h + |fy| - 1, w + |fx| - 1)
    modifies dst
    ensures forall y, x :: 0 <= y < h && 0 <= x < w ==>
      Taps2dAt(src, y0, x0, fx, fy, y, x)
      && dst[y, x] == CompoundStore(old(dst[y, x]), Conv2dRes(src, y0, x0, fx, fy, cp.round0, cp.round1, y, x), cp)
    ensures forall y, x :: 0 <= y < dst.Length0 && 0 <= x < dst.Length1 && !(y < h && x < w) ==>
      dst[y, x] == old(dst[y, x])
  {
    var im := HorizontalPass(src, y0, x0, fx, |fy|, cp.round0, h, w);
    forall y, x | 0 <= y < h && 0 <= x < w
      ensures Taps2dAt(src, y0, x0, fx, fy, y, x)
    {
      if |fx| > 0 {
        WindowInside(src, y0 - Fo(|fy|), x0 - Fo(|fx|), h + |fy| - 1, w + |fx| - 1,
                     y0 - Fo(|fy|) + y, x0 + x - Fo(|fx|), |fy|, |fx|);
      }
    }
    for r := 0 to h
      modifies dst
      invariant forall y, x :: 0 <= y < r && 0 <= x < w ==>
        dst[y, x] == CompoundStore(old(dst[y, x]), Conv2dRes(src, y0, x0, fx, fy, cp.round0, cp.round1, y, x), cp)
      invariant forall y, x :: 0 <= y < dst.Length0 && 0 <= x < dst.Length1 && !(y < r && x < w) ==>
        dst[y, x] == old(dst[y, x])
    {
      for c := 0 to w
        modifies dst
        invariant forall y, x :: 0 <= y < r && 0 <= x < w ==>
          dst[y, x] == CompoundStore(old(dst[y, x]), Conv2dRes(src, y0, x0, fx, fy, cp.round0, cp.round1, y, x), cp)
        invariant forall x :: 0 <= x < c ==>
          dst[r, x] == CompoundStore(old(dst[r, x]), Conv2dRes(src, y0, x0, fx, fy, cp.round0, cp.round1, r, x), cp)
        invariant forall y, x :: 0 <= y < dst.Length0 && 0 <= x < dst.Length1 && !(y < r && x < w) && !(y == r && x < c) ==>
          dst[y, x] == old(dst[y, x])
      {
        var res := Conv2dCell(im, src, y0, x0, fx, fy, cp.round0, cp.round1, h, w, r, c);
        dst[r, c] := CompoundStore(dst[r, c], res, cp);
      }
    }
  }

  /** av1_convolve_2d_copy_c: the compound copy with the plain average. */
  method ConvolveCopyCompound(src: seq<seq<int>>, y0: int, x0: int, dst: array2<int>, w: nat, h: nat,
                              cp: ConvolveParams)
    requires cp.round0 + cp.round1 <= 14
    requires h <= dst.Length0 && w <= dst.Length1
    requires w == 0 || Window(src, y0, x0, h, w)
    modifies dst
    ensures forall y, x :: 0 <= y < h && 0 <= x < w ==>
      PixelAt(src, y0, x0, y, x)
      && dst[y, x] == CompoundStore(old(dst[y, x]), CopyResAt(src, y0, x0, cp, y, x), cp.(useJntCompAvg := false))
    ensures forall y, x :: 0 <= y < dst.Length0 && 0 <= x < dst.Length1 && !(y < h && x < w) ==>
      dst[y, x] == old(dst[y, x])
  {
    JntConvolveCopy(src, y0, x0, dst, w, h, cp.(useJntCompAvg := false));
  }

  /** av1_convolve_x_c: the horizontal compound filter with the plain
      average. */
  method ConvolveXCompound(src: seq<seq<int>>, y0: int, x0: int, dst: array2<int>, w: nat, h: nat,
                           fx: seq<int>, cp: ConvolveParams)
    requires cp.round1 <= 7
    requires h <= dst.Length0 && w <= dst.Length1
    requires w == 0 || |fx| == 0 || Window(src, y0, x0 - Fo(|fx|), h, w + |fx| - 1)
    modifies dst
    ensures forall y, x :: 0 <= y < h && 0 <= x < w ==>
      XTapsAt(src, y0, x0, fx, y, x)
      && dst[y, x] == CompoundStore(old(dst[y, x]), JntXRes(src, y0, x0, fx, cp, y, x), cp.(useJntCompAvg := false))
    ensures forall y, x :: 0 <= y < dst.Length0 && 0 <= x < dst.Length1 && !(y < h && x < w) ==>
      dst[y, x] == old(dst[y, x])
  {
    JntConvolveX(src, y0, x0, dst, w, h, fx, cp.(useJntCompAvg := false));
  }

  /** av1_convolve_y_c: the vertical compound filter with the plain
      average. */
  method ConvolveYCompound(src: seq<seq<int>>, y0: int, x0: int, dst: array2<int>, w: nat, h: nat,
                           fy: seq<int>, cp: ConvolveParams)
    requires cp.round0 <= 7
    requires h <= dst.Length0 && w <= dst.Length1
    requires h == 0 || w == 0 || |fy| == 0 || Window(src, y0 - Fo(|fy|), x0, h + |fy| - 1, w)
    modifies dst
    ensures forall y, x :: 0 <= y < h && 0 <= x < w ==>
      YTapsAt(src, y0, x0, fy, y, x)
      && dst[y, x] == CompoundStore(old(dst[y, x]), JntYRes(src, y0, x0, fy, cp, y, x), cp.(useJntCompAvg := false))
    ensures forall y, x :: 0 <= y < dst.Length0 && 0 <= x < dst.Length1 && !(y < h && x < w) ==>
      dst[y, x] == old(dst[y, x])
  {
    JntConvolveY(src, y0, x0, dst, w, h, fy, cp.(useJntCompAvg := false));
  }

  /** av1_convolve_2d_c at bit depth 8: the 2-D compound filter with the
      plain average. */
  method Convolve2dCompound(src: seq<seq<int>>, y0: int, x0: int, dst: array2<int>, w: nat, h: nat,
                            fx: seq<int>, fy: seq<int>, cp: ConvolveParams)
    requires cp.round0 + cp.round1 <= 21
    requires h <= dst.Length0 && w <= dst.Length1
    requires w == 0 || |fx| == 0 || Window(src, y0 - Fo(|fy|), x0 - Fo(|fx|), h + |fy| - 1, w + |fx| - 1)
    modifies dst
    ensures forall y, x :: 0 <= y < h && 0 <= x < w ==>
      Taps2dAt(src, y0, x0, fx, fy, y, x)
      && dst[y, x] == CompoundStore(old(dst[y, x]), Conv2dRes(src, y0, x0, fx, fy, cp.round0, cp.round1, y, x),
                                    cp.(useJntCompAvg := false))
    ensures forall y, x :: 0 <= y < dst.Length0 && 0 <= x < dst.Length1 && !(y < h && x < w) ==>
      dst[y, x] == old(dst[y, x])
  {
    JntConvolve2d(src, y0, x0, dst, w, h, fx, fy, cp.(useJntCompAvg := false));
  }

  /** At the integer phase the horizontal compound result is the compound
      copy's. */
  lemma JntXAtFullPel(src: seq<seq<int>>, y0: int, x0: int, f: seq<int>, cp: ConvolveParams, y: int, x: int)
    requires cp.round0 <= 7 && cp.round1 <= 7 && FullPel(f)
    requires XTapsAt(src, y0, x0, f, y, x)
    ensures PixelAt(src, y0, x0, y, x)
    ensures JntXRes(src, y0, x0, f, cp, y, x) == CopyResAt(src, y0, x0, cp, y, x)
  {
    var p := src[y0 + y][x0 + x];
    DotOfFullPel(f, RowTaps(src, y0 + y, x0 + x - Fo(|f|), |f|));
    FullPelX(p, cp.round0, cp.round1);
  }

  /** 128 * p rounded by round_0, times 2^(FILTER_BITS - round_1), is the
      copy's p * 2^(2 * FILTER_BITS - round_0 - round_1). */
  lemma FullPelX(p: int, round0: nat, round1: nat)
    requires round0 <= 7 && round1 <= 7
    ensures Pow2(7 - round1) * RoundPowerOfTwo(128 * p, round0) == p * Pow2(14 - round0 - round1)
  {
    var a, b := 7 - round0, 7 - round1;
    Pow2Values();
    Pow2Add(a, round0);
    Regroup(p, Pow2(a), Pow2(round0));
    assert 128 * p == (p * Pow2(a)) * Pow2(round0);
    RoundOfScaled(p * Pow2(a), round0);
    Pow2Add(b, a);
    Commute3(p, Pow2(b), Pow2(a));
  }

  /** Reassociation for a product of three factors. */
  lemma Commute3(v: int, r: int, b: int)
    ensures r * (v * b) == v * (r * b)
  {
  }

  /** At the integer phase the vertical compound result is the compound
      copy's. */
  lemma JntYAtFullPel(src: seq<seq<int>>, y0: int, x0: int, f: seq<int>, cp: ConvolveParams, y: int, x: int)
    requires cp.round0 <= 7 && cp.round0 + cp.round1 <= 14 && FullPel(f)
    requires YTapsAt(src, y0, x0, f, y, x)
    ensures PixelAt(src, y0, x0, y, x)
    ensures JntYRes(src, y0, x0, f, cp, y, x) == CopyResAt(src, y0, x0, cp, y, x)
  {
    assert RowHas(src, y0 + y, x0 + x);
    var p := src[y0 + y][x0 + x];
    DotOfFullPel(f, ColTaps(src, y0 + y - Fo(|f|), x0 + x, |f|));
    FullPelY(p, cp.round0, cp.round1);
  }

  /** 128 * p scaled by 2^(FILTER_BITS - round_0) and rounded by round_1
      is the copy's p * 2^(2 * FILTER_BITS - round_0 - round_1). */
  lemma FullPelY(p: int, round0: nat, round1: nat)
    requires round0 <= 7 && round0 + round1 <= 14
    ensures RoundPowerOfTwo(128 * p * Pow2(7 - round0), round1) == p * Pow2(14 - round0 - round1)
  {
    var bits := 14 - round0 - round1;
    Pow2Values();
    Pow2Add(7, 7 - round0);
    Pow2Add(round1, bits);
    assert 128 * p * Pow2(7 - round0) == p * Pow2(14 - round0);
    Regroup(p, Pow2(round1), Pow2(bits));
    RoundOfScaled(p * Pow2(bits), round1);
  }

  // ---------------------------------------------------------------------
  // av1_convolve_horiz_rs_c, av1_highbd_convolve_horiz_rs_c
  // ---------------------------------------------------------------------

  /** The position of output x in 1/2^RS_SCALE_SUBPEL_BITS units: x_qn
      starts at x0_qn and advances by x_step_qn per output. */
  function RsPosition(x0qn: int, step: int, x: int): int
  {
    x0qn + x * step
  }

  /** The filter phase `(x_qn & RS_SCALE_SUBPEL_MASK) >> RS_SCALE_EXTRA_BITS`.
      The mask keeps the low 14 bits of the two's-complement value, which
      is the non-negative remainder modulo 2^14 even for a negative x_qn. */
  function RsFilterIndex(xqn: int): (r: int)
    ensures 0 <= r <= RS_SUBPEL_MASK
  {
    (xqn % 16384) / 256
  }

  /** The first column read for output position x_qn of a block at x0:
      `x_qn >> RS_SCALE_SUBPEL_BITS` columns right of x0, less
      UPSCALE_NORMATIVE_TAPS / 2 - 1. */
  function RsColumn(x0: int, xqn: int): int
  {
    x0 - 3 + xqn / 16384
  }

  /** The 8 taps of phase idx in the table of 64 kernels. */
  function RsFilter(xFilters: seq<int>, idx: int): (f: seq<int>)
    requires |xFilters| >= 512 && 0 <= idx <= 63
    ensures |f| == UPSCALE_NORMATIVE_TAPS
    ensures forall k :: 0 <= k < 8 ==> f[k] == xFilters[idx * 8 + k]
  {
    xFilters[idx * 8 .. idx * 8 + 8]
  }

  /** The 8 samples output (y, x) of the upscaler reads exist. */
  predicate RsTapsAt(src: seq<seq<int>>, y0: int, x0: int, x0qn: int, step: int, y: int, x: int)
  {
    HAt(src, y0 + y, RsColumn(x0, RsPosition(x0qn, step, x)), 8)
  }

  /** The tap sum of output (y, x) of the upscaler. */
  function RsSum(src: seq<seq<int>>, y0: int, x0: int, xFilters: seq<int>, x0qn: int, step: int,
                 y: int, x: int): int
    requires |xFilters| >= 512
    requires RsTapsAt(src, y0, x0, x0qn, step, y, x)
  {
    var xqn := RsPosition(x0qn, step, x);
    Dot(RsFilter(xFilters, RsFilterIndex(xqn)), RowTaps(src, y0 + y, RsColumn(x0, xqn), 8), 8)
  }

  /** The integer part and the phase of an output position recompose it:
      the phase selects one of 2^RS_SUBPEL_BITS kernels, and the
      RS_SCALE_EXTRA_BITS below it are dropped. */
  lemma RsPositionSplits(x0: int, xqn: int)
    ensures 0 <= xqn - 16384 * (RsColumn(x0, xqn) - x0 + 3) - 256 * RsFilterIndex(xqn) < 256
  {
  }

  /** The tap sums of one output row of the upscaler, the phase position
      advancing by x_step_qn per column. */
  method RsRowSums(src: seq<seq<int>>, y0: int, x0: int, xFilters: seq<int>, x0qn: int, step: int,
                   w: nat, r: int) returns (sums: seq<int>)
    requires |xFilters| >= 512
    requires forall x :: 0 <= x < w ==> RsTapsAt(src, y0, x0, x0qn, step, r, x)
    ensures |sums| == w
    ensures forall x :: 0 <= x < w ==> sums[x] == RsSum(src, y0, x0, xFilters, x0qn, step, r, x)
  {
    sums := [];
    var xqn := x0qn;
    for c := 0 to w
      invariant xqn == RsPosition(x0qn, step, c) && |sums| == c
      invariant forall x :: 0 <= x < c ==> sums[x] == RsSum(src, y0, x0, xFilters, x0qn, step, r, x)
    {
      assert RsTapsAt(src, y0, x0, x0qn, step, r, c);
      var f := RsFilter(xFilters, RsFilterIndex(xqn));
      var sum := FilterSum(f, RowTaps(src, y0 + r, RsColumn(x0, xqn), 8), 0);
      sums := sums + [sum];
      xqn := xqn + step;
    }
  }

  /** av1_convolve_horiz_rs_c: each output is the 8-tap kernel of its phase
      over the row from its integer position, rounded by FILTER_BITS and
      clipped to a pixel. */
  method ConvolveHorizRs(src: seq<seq<int>>, y0: int, x0: int, dst: array2<int>, w: nat, h: nat,
                         xFilters: seq<int>, x0qn: int, step: int)
    requires h <= dst.Length0 && w <= dst.Length1 && |xFilters| >= 512
    requires forall y, x :: 0 <= y < h && 0 <= x < w ==> RsTapsAt(src, y0, x0, x0qn, step, y, x)
    modifies dst
    ensures forall y, x :: 0 <= y < h && 0 <= x < w ==>
      RsTapsAt(src, y0, x0, x0qn, step, y, x)
      && dst[y, x] == ClipPixel(RoundPowerOfTwo(RsSum(src, y0, x0, xFilters, x0qn, step, y, x), 7))
    ensures forall y, x :: 0 <= y < dst.Length0 && 0 <= x < dst.Length1 && !(y < h && x < w) ==>
      dst[y, x] == old(dst[y, x])
  {
    for r := 0 to h
      invariant forall y, x :: 0 <= y < r && 0 <= x < w ==>
        dst[y, x] == ClipPixel(RoundPowerOfTwo(RsSum(src, y0, x0, xFilters, x0qn, step, y, x), 7))
      invariant forall y, x :: 0 <= y < dst.Length0 && 0 <= x < dst.Length1 && !(y < r && x < w) ==>
        dst[y, x] == old(dst[y, x])
    {
      var sums := RsRowSums(src, y0, x0, xFilters, x0qn, step, w, r);
      var row := seq(w, x requires 0 <= x < w => ClipPixel(RoundPowerOfTwo(sums[x], 7)));
      StoreRow(dst, r, row);
    }
  }

  /** av1_highbd_convolve_horiz_rs_c: the same filter, clipped to bd bits. */
  method HighbdConvolveHorizRs(src: seq<seq<int>>, y0: int, x0: int, dst: array2<int>, w: nat, h: nat,
                               xFilters: seq<int>, x0qn: int, step: int, bd: int)
    requires h <= dst.Length0 && w <= dst.Length1 && |xFilters| >= 512
    requires forall y, x :: 0 <= y < h && 0 <= x < w ==> RsTapsAt(src, y0, x0, x0qn, step, y, x)
    modifies dst
    ensures forall y, x :: 0 <= y < h && 0 <= x < w ==>
      RsTapsAt(src, y0, x0, x0qn, step, y, x)
      && dst[y, x] == ClipPixelHighbd(RoundPowerOfTwo(RsSum(src, y0, x0, xFilters, x0qn, step, y, x), 7), bd)
    ensures forall y, x :: 0 <= y < dst.Length0 && 0 <= x < dst.Length1 && !(y < h && x < w) ==>
      dst[y, x] == old(dst[y, x])
  {
    for r := 0 to h
      invariant forall y, x :: 0 <= y < r && 0 <= x < w ==>
        dst[y, x] == ClipPixelHighbd(RoundPowerOfTwo(RsSum(src, y0, x0, xFilters, x0qn, step, y, x), 7), bd)
      invariant forall y, x :: 0 <= y < dst.Length0 && 0 <= x < dst.Length1 && !(y < r && x < w) ==>
        dst[y, x] == old(dst[y, x])
    {
      var sums := RsRowSums(src, y0, x0, xFilters, x0qn, step, w, r);
      var row := seq(w, x requires 0 <= x < w => ClipPixelHighbd(RoundPowerOfTwo(sums[x], 7), bd));
      StoreRow(dst, r, row);
    }
  }

  /** At unit scale (x_step_qn = 2^RS_SCALE_SUBPEL_BITS) from an integer
      start with the integer-phase kernel in slot 0, the upscaler copies
      the row shifted by the start: output x is source column
      x0 + x0_qn / 2^14 + x. */
  lemma RsAtUnitScale(src: seq<seq<int>>, y0: int, x0: int, xFilters: seq<int>, k: int, y: int, x: int)
    requires |xFilters| >= 512 && FullPel(xFilters[..8])
    requires RsTapsAt(src, y0, x0, k * 16384, 16384, y, x)
    requires 0 <= src[y0 + y][x0 + k + x] <= 255
    ensures ClipPixel(RoundPowerOfTwo(RsSum(src, y0, x0, xFilters, k * 16384, 16384, y, x), 7))
      == src[y0 + y][x0 + k + x]
  {
    var xqn := RsPosition(k * 16384, 16384, x);
    assert xqn == (k + x) * 16384;
    DivUnique(xqn, 16384, k + x, 0);
    assert RsFilterIndex(xqn) == 0;
    var f := RsFilter(xFilters, 0);
    assert f == xFilters[..8];
    var s := RowTaps(src, y0 + y, RsColumn(x0, xqn), 8);
    DotOfFullPel(f, s);
    assert s[3] == src[y0 + y][x0 + k + x];
    RoundOfScaled(src[y0 + y][x0 + k + x], 7);
    Pow2Values();
  }

}
