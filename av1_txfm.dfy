/** The shared helpers of the AV1 1-D and 2-D transforms
    (av1/common/av1_txfm.h): the optional range clamp, the rounding shift and
    the butterfly half-step built on it, the flip configuration of each 2-D
    transform type, the aspect ratio of a rectangular transform and the
    indices of its width and height. */
module Av1Txfm {
  import opened IntArith
  import InvTxfm

  const COS_BIT_MIN: int := 10
  const COS_BIT_MAX: int := 16
  const NEW_SQRT2_BITS: int := 12
  const NEW_SQRT2: int := 5793
  const NEW_INV_SQRT2: int := 2896

  /** cospi_arr / sinpi_arr: the row of av1_cospi_arr_data (64 entries) or
      av1_sinpi_arr_data (5 entries) for cosine precision n; the tables hold
      one row for each n from cos_bit_min to cos_bit_max. */
  function TrigRow(table: seq<seq<int>>, n: int): (row: seq<int>)
    requires |table| == COS_BIT_MAX - COS_BIT_MIN + 1
    requires COS_BIT_MIN <= n <= COS_BIT_MAX
    ensures row == table[n - COS_BIT_MIN]
    ensures n == COS_BIT_MIN ==> row == table[0]
    ensures n == COS_BIT_MAX ==> row == table[|table| - 1]
  {
    table[n - COS_BIT_MIN]
  }

  /** range_check_value: the identity, unless DO_RANGE_CHECK_CLAMP is
      compiled in (`clampCompiled`), in which case the value is clamped to
      the signed range of min(bit, 31) bits. */
  function RangeCheckValue(value: int, bit: int, clampCompiled: bool): (r: int)
    requires clampCompiled ==> bit >= 1
    ensures !clampCompiled ==> r == value
    ensures clampCompiled ==>
      var b := Min(bit, 31);
      -(Pow2(b - 1) as int) <= r <= Pow2(b - 1) - 1
      && (-(Pow2(b - 1) as int) <= value <= Pow2(b - 1) - 1 ==> r == value)
  {
    if clampCompiled then
      var b := Min(bit, 31);
      Clamp(value, -(Pow2(b - 1) as int), Pow2(b - 1) - 1)
    else
      value
  }

  /** The value / 2^bit rounded to nearest, ties upward. */
  predicate RoundsTo(value: int, bit: nat, r: int)
  {
    r * Pow2(bit) <= value + Pow2(bit) / 2 < (r + 1) * Pow2(bit)
  }

  /** round_shift: (value + 2^(bit-1)) >> bit on an int64, cast to int32. */
  function RoundShift(value: int, bit: int): (r: int)
    requires 1 <= bit <= 63
    requires INT64_MIN <= value + Pow2(bit - 1) <= INT64_MAX
    ensures FitsInt32(r)
    ensures forall n :: RoundsTo(value, bit, n) && FitsInt32(n) ==> r == n
  {
    var v := Shr(value + Pow2(bit - 1), bit);
    RoundsToUnique(value, bit, v);
    Wrap32(v)
  }

  lemma RoundsToUnique(value: int, bit: nat, v: int)
    requires bit >= 1 && v == Shr(value + Pow2(bit - 1), bit)
    ensures RoundsTo(value, bit, v)
    ensures forall n :: RoundsTo(value, bit, n) ==> n == v
  {
    assert Pow2(bit) / 2 == Pow2(bit - 1);
    forall n | RoundsTo(value, bit, n)
      ensures n == v
    {
      NearestUnique(value + Pow2(bit - 1), Pow2(bit), n, v);
    }
  }

  /** Two integers whose multiples of p both bracket x are equal. */
  lemma NearestUnique(x: int, p: int, a: int, b: int)
    requires p > 0
    requires a * p <= x < (a + 1) * p && b * p <= x < (b + 1) * p
    ensures a == b
  {
    if a < b {
      assert false;
    } else if b < a {
      assert false;
    }
  }

  /** half_btf: w0*in0 + w1*in1, each product an int32, brought back by the
      rounding shift. The result is the rounded sum whenever that fits in
      an int32. */
  function HalfBtf(w0: int, in0: int, w1: int, in1: int, bit: int): (r: int)
    requires FitsInt32(w0) && FitsInt32(in0) && FitsInt32(w1) && FitsInt32(in1)
    requires FitsInt32(w0 * in0) && FitsInt32(w1 * in1)
    requires 1 <= bit <= 32
    ensures FitsInt32(r)
    ensures forall n :: RoundsTo(w0 * in0 + w1 * in1, bit, n) && FitsInt32(n) ==> r == n
  {
    Pow2Monotone(bit - 1, 31);
    Pow2Of31();
    RoundShift(w0 * in0 + w1 * in1, bit)
  }

  /** highbd_clip_pixel_add of this header: the residual is only cast to
      int (its low 32 bits, as a signed value) and the sum clipped to a
      pixel of bit depth bd. Unlike the aom_dsp variant there is no
      HIGHBD_WRAPLOW clamp first, so a residual outside int32 wraps. */
  function HighbdClipPixelAdd(dest: int, trans: int, bd: int): (r: int)
    requires 0 <= dest < 0x1_0000
    ensures 0 <= r < Pow2(if bd == 10 || bd == 12 then bd else 8)
    ensures FitsInt32(trans) && 0 <= dest + trans < Pow2(if bd == 10 || bd == 12 then bd else 8) ==>
      r == dest + trans
    ensures FitsInt32(trans) && dest + trans < 0 ==> r == 0
    ensures FitsInt32(trans) && dest + trans >= Pow2(if bd == 10 || bd == 12 then bd else 8) ==>
      r == Pow2(if bd == 10 || bd == 12 then bd else 8) - 1
    ensures trans % 0x1_0000_0000 == 0 && dest < Pow2(if bd == 10 || bd == 12 then bd else 8) ==> r == dest
  {
    ClipPixelHighbd(dest + Wrap32(trans), bd)
  }

  /** The two highbd_clip_pixel_add variants agree on every residual inside
      the signed (8 + bd)-bit range, where HIGHBD_WRAPLOW changes nothing. */
  lemma ClipAddVariantsAgree(dest: int, trans: int, bd: nat)
    requires bd == 8 || bd == 10 || bd == 12
    requires 0 <= dest < Pow2(bd) && dest < 0x1_0000  // a pixel of bit depth bd is a uint16
    requires -InvTxfm.CoeffMax(bd) - 1 <= trans <= InvTxfm.CoeffMax(bd)
    ensures HighbdClipPixelAdd(dest, trans, bd) == InvTxfm.HighbdClipPixelAdd(dest, trans, bd)
  {
    CoeffFitsInt32(trans, bd);
    ClipAddInRange(dest, trans, bd);
  }

  /** Inside the coefficient range both variants clip dest + trans. */
  lemma ClipAddInRange(dest: int, trans: int, bd: nat)
    requires bd == 8 || bd == 10 || bd == 12
    requires 0 <= dest < Pow2(bd) && dest < 0x1_0000
    requires -InvTxfm.CoeffMax(bd) - 1 <= trans <= InvTxfm.CoeffMax(bd) && FitsInt32(trans)
    ensures HighbdClipPixelAdd(dest, trans, bd) == ClipPixelHighbd(dest + trans, bd)
    ensures InvTxfm.HighbdClipPixelAdd(dest, trans, bd) == ClipPixelHighbd(dest + trans, bd)
  {
  }

  /** A coefficient of the signed (8 + bd)-bit range fits in an int32. */
  lemma CoeffFitsInt32(x: int, bd: nat)
    requires bd <= 24 && -InvTxfm.CoeffMax(bd) - 1 <= x <= InvTxfm.CoeffMax(bd)
    ensures FitsInt32(x)
  {
    Pow2Monotone(7 + bd, 31);
    Pow2Of31();
  }

  /** Outside that range they part: a residual of 2^32 reaches this
      header's variant as 0 and leaves the pixel unchanged, while the
      aom_dsp variant clamps it to the largest coefficient and saturates. */
  lemma ClipAddVariantsDiffer()
    ensures HighbdClipPixelAdd(0, 0x1_0000_0000, 8) == 0
    ensures InvTxfm.HighbdClipPixelAdd(0, 0x1_0000_0000, 8) == 255
  {
    Pow2Values();
    assert InvTxfm.HighbdWrapLow(0x1_0000_0000, 8) == InvTxfm.CoeffMax(8);
  }

  // ---------------------------------------------------------------------
  // Transform types
  // ---------------------------------------------------------------------

  const DCT_DCT: int := 0
  const ADST_DCT: int := 1
  const DCT_ADST: int := 2
  const ADST_ADST: int := 3
  const FLIPADST_DCT: int := 4
  const DCT_FLIPADST: int := 5
  const FLIPADST_FLIPADST: int := 6
  const ADST_FLIPADST: int := 7
  const FLIPADST_ADST: int := 8
  const IDTX: int := 9
  const V_DCT: int := 10
  const H_DCT: int := 11
  const V_ADST: int := 12
  const H_ADST: int := 13
  const V_FLIPADST: int := 14
  const H_FLIPADST: int := 15
  const TX_TYPES: int := 16

  /** The 1-D transforms a 2-D type is made of. */
  datatype Txfm1D = Dct | Adst | FlipAdst | Identity

  /** The 1-D transform a 2-D type applies along columns (its first name
      half; V_ types are column-only, H_ types leave the columns alone). */
  function VerticalTxfm(t: int): Txfm1D
    requires 0 <= t < TX_TYPES
  {
    if t in {DCT_DCT, DCT_ADST, DCT_FLIPADST, V_DCT} then Dct
    else if t in {ADST_DCT, ADST_ADST, ADST_FLIPADST, V_ADST} then Adst
    else if t in {FLIPADST_DCT, FLIPADST_FLIPADST, FLIPADST_ADST, V_FLIPADST} then FlipAdst
    else Identity
  }

  /** The 1-D transform a 2-D type applies along rows. */
  function HorizontalTxfm(t: int): Txfm1D
    requires 0 <= t < TX_TYPES
  {
    if t in {DCT_DCT, ADST_DCT, FLIPADST_DCT, H_DCT} then Dct
    else if t in {DCT_ADST, ADST_ADST, FLIPADST_ADST, H_ADST} then Adst
    else if t in {DCT_FLIPADST, FLIPADST_FLIPADST, ADST_FLIPADST, H_FLIPADST} then FlipAdst
    else Identity
  }

  /** The two flags get_flip_cfg sets, and whether its assert fires. */
  datatype FlipCfg = FlipCfg(udFlip: int, lrFlip: int, assertFails: bool)

  /** get_flip_cfg: flip up-down exactly when the column transform is a
      flipped ADST, left-right exactly when the row transform is; an unknown
      type gives no flip and fails the assert. */
  function GetFlipCfg(txType: int): (c: FlipCfg)
    ensures c.udFlip in {0, 1} && c.lrFlip in {0, 1}
    ensures c.assertFails <==> !(0 <= txType < TX_TYPES)
    ensures 0 <= txType < TX_TYPES ==>
      (c.udFlip == 1 <==> VerticalTxfm(txType) == FlipAdst)
      && (c.lrFlip == 1 <==> HorizontalTxfm(txType) == FlipAdst)
    ensures !(0 <= txType < TX_TYPES) ==> c.udFlip == 0 && c.lrFlip == 0
  {
    if txType in {DCT_DCT, ADST_DCT, DCT_ADST, ADST_ADST} then FlipCfg(0, 0, false)
    else if txType in {IDTX, V_DCT, H_DCT, V_ADST, H_ADST} then FlipCfg(0, 0, false)
    else if txType in {FLIPADST_DCT, FLIPADST_ADST, V_FLIPADST} then FlipCfg(1, 0, false)
    else if txType in {DCT_FLIPADST, ADST_FLIPADST, H_FLIPADST} then FlipCfg(0, 1, false)
    else if txType == FLIPADST_FLIPADST then FlipCfg(1, 1, false)
    else FlipCfg(0, 0, true)
  }

  // ---------------------------------------------------------------------
  // Rectangular sizes
  // ---------------------------------------------------------------------

  /** The aspect ratios the transforms support: square, 2:1 and 4:1 either way. */
  predicate SupportedRatio(col: int, row: int)
  {
    col == row || col == 2 * row || col == 4 * row || row == 2 * col || row == 4 * col
  }

  /** get_rect_tx_log_ratio: log2 of col / row for the supported ratios,
      0 (after a failed assert) for any other. */
  function GetRectTxLogRatio(col: int, row: int): (r: int)
    requires 0 < col && 0 < row
    ensures -2 <= r <= 2
    ensures SupportedRatio(col, row) && r >= 0 ==> col == row * Pow2(r)
    ensures SupportedRatio(col, row) && r < 0 ==> row == col * Pow2(-r)
    ensures col == row || !SupportedRatio(col, row) ==> r == 0
  {
    if col == row then 0
    else if col > row then
      if col == row * 2 then 1
      else if col == row * 4 then 2
      else 0
    else
      if row == col * 2 then -1
      else if row == col * 4 then -2
      else 0
  }

  /** Swapping width and height negates the ratio. */
  lemma RectTxLogRatioAntisymmetric(col: int, row: int)
    requires 0 < col && 0 < row
    ensures GetRectTxLogRatio(row, col) == -GetRectTxLogRatio(col, row)
  {
  }

  /** get_txw_idx / get_txh_idx: log2 of a transform dimension relative to
      that of TX_4X4 (entry 0 of the log2 table, which is not part of this
      model and is passed in). */
  function DimIdx(log2Table: seq<nat>, txSize: int): (r: int)
    requires 0 <= txSize < |log2Table|
    ensures txSize == 0 ==> r == 0
    ensures r >= 0 ==> Pow2(log2Table[txSize]) == Pow2(log2Table[0]) * Pow2(r)
  {
    var r := (log2Table[txSize] as int) - (log2Table[0] as int);
    if r >= 0 then Pow2Add(log2Table[0], r); r else r
  }
}
