/** The scaler eligibility tests of av1/common/resize.h. */
module Resize {

  /** The ratio conditions the normative optimized scaler handles in one
      dimension: dst / src in [1/4, 16], with both 16 * dst / src and
      16 * src / dst whole numbers. */
  predicate SixteenthRatio(src: int, dst: int)
    requires src > 0 && dst > 0
  {
    dst * 4 >= src && dst <= src * 16 && (16 * dst) % src == 0 && (16 * src) % dst == 0
  }

  /** av1_has_optimized_scaler; `simd3to4` stands for HAVE_SSSE3 || HAVE_NEON,
      builds that also carry a dedicated 3/4 scaler. */
  function HasOptimizedScaler(srcWidth: int, srcHeight: int, dstWidth: int, dstHeight: int,
                              simd3to4: bool): (r: bool)
    requires srcWidth > 0 && srcHeight > 0 && dstWidth > 0 && dstHeight > 0
    ensures r && !(simd3to4 && 4 * dstWidth == 3 * srcWidth && 4 * dstHeight == 3 * srcHeight) ==>
      dstWidth * 4 >= srcWidth && dstHeight * 4 >= srcHeight
      && dstWidth <= srcWidth * 16 && dstHeight <= srcHeight * 16
      && (16 * dstWidth) % srcWidth == 0 && (16 * srcWidth) % dstWidth == 0
      && (16 * dstHeight) % srcHeight == 0 && (16 * srcHeight) % dstHeight == 0
    ensures SixteenthRatio(srcWidth, dstWidth) && SixteenthRatio(srcHeight, dstHeight) ==> r
    ensures simd3to4 && 4 * dstWidth == 3 * srcWidth && 4 * dstHeight == 3 * srcHeight ==> r
  {
    var plain :=
      (dstWidth * 4 >= srcWidth && dstHeight * 4 >= srcHeight)
      && (dstWidth <= srcWidth * 16 && dstHeight <= srcHeight * 16)
      && (16 * dstWidth % srcWidth == 0) && (16 * srcWidth % dstWidth == 0)
      && (16 * dstHeight % srcHeight == 0) && (16 * srcHeight % dstHeight == 0);
    if simd3to4 then
      plain || (4 * dstWidth == 3 * srcWidth && 4 * dstHeight == 3 * srcHeight)
    else
      plain
  }

  /** k * m % k == 0, spelt out for the solver. */
  lemma ModOfMultiple(k: int, m: int)
    requires k > 0
    ensures (m * k) % k == 0
  {
    var q, r := (m * k) / k, (m * k) % k;
    assert (m - q) * k == r;
    if m - q >= 1 {
      assert false;
    } else if m - q <= -1 {
      assert false;
    }
  }

  /** Unscaled frames always qualify. */
  lemma SameSizeQualifies(w: int, h: int, simd3to4: bool)
    requires w > 0 && h > 0
    ensures HasOptimizedScaler(w, h, w, h, simd3to4)
  {
    ModOfMultiple(w, 16);
    ModOfMultiple(h, 16);
  }

  /** A 3/4 downscale qualifies only in builds with the dedicated scaler:
      16 * src is not a multiple of dst = 3/4 src. */
  lemma ThreeQuartersNeedsSimd(k: int)
    requires k > 0
    ensures !HasOptimizedScaler(4 * k, 4 * k, 3 * k, 3 * k, false)
    ensures HasOptimizedScaler(4 * k, 4 * k, 3 * k, 3 * k, true)
  {
    assert 16 * (4 * k) == 21 * (3 * k) + k;
    ModRemainder(16 * (4 * k), 3 * k, 21, k);
  }

  /** a % b is the remainder of any a = q * b + r with 0 <= r < b. */
  lemma ModRemainder(a: int, b: int, q: int, r: int)
    requires b > 0 && 0 <= r < b && a == q * b + r
    ensures a % b == r
  {
    var q', r' := a / b, a % b;
    assert (q - q') * b == r' - r;
    if q - q' >= 1 {
      assert false;
    } else if q - q' <= -1 {
      assert false;
    }
  }

  /** av1_superres_scaled: the frame is scaled exactly when its coded width
      differs from its upscaled width. */
  function SuperresScaled(width: int, superresUpscaledWidth: int): (r: bool)
    ensures r <==> width != superresUpscaledWidth
  {
    width != superresUpscaledWidth
  }
}
