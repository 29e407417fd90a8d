/** Coefficient-context arithmetic of the level-map coefficient coder
    (av1/common/txb_common.h), in the configuration with CONFIG_EXT_TX.
    The constants this header takes from av1/common/entropy.h, which is not
    part of this model, are gathered in TxbConsts and passed in. */
module TxbCommon {
  import opened IntArith
  import Av1Txfm

  /** A byte of the padded level buffer or of an entropy context. */
  type Byte = x: int | 0 <= x < 256

  /** The constants the header uses but does not define. */
  datatype TxbConsts = TxbConsts(
    padHor: nat,              // MAX_TX_PAD_HOR
    coeffContextBits: nat,    // COEFF_CONTEXT_BITS
    brTmpOffset: int,         // BR_TMP_OFFSET
    sigCoefContexts2D: int,   // SIG_COEF_CONTEXTS_2D
    sigCoefContexts1D: int)   // SIG_COEF_CONTEXTS_1D

  // ---------------------------------------------------------------------
  // Padded level buffer
  // ---------------------------------------------------------------------

  /** get_paded_idx: the position of raster index idx of a block 2^bwl wide
      in the level buffer, whose rows carry padHor extra entries. */
  function GetPadedIdx(idx: int, bwl: nat, padHor: nat): int
  {
    idx + padHor * Shr(idx, bwl)
  }

  /** The padded index is row * stride + col for the padded stride. */
  lemma PadedIdxIsStridePosition(row: nat, col: nat, bwl: nat, padHor: nat)
    requires col < Pow2(bwl)
    ensures GetPadedIdx(row * Pow2(bwl) + col, bwl, padHor) == row * (Pow2(bwl) + padHor) + col
  {
    DivUnique(row * Pow2(bwl) + col, Pow2(bwl), row, col);
  }

  /** The neighbour (row + dr, col + dc) in a buffer of the given stride. */
  function NbPos(stride: int, row: int, col: int, off: (int, int)): int
  {
    (row + off.0) * stride + col + off.1
  }

  /** Every neighbour lies inside the level buffer. */
  predicate NbInside(levels: seq<Byte>, stride: int, row: int, col: int, offs: seq<(int, int)>)
  {
    forall k :: 0 <= k < |offs| ==> 0 <= NbPos(stride, row, col, offs[k]) < |levels|
  }

  // ---------------------------------------------------------------------
  // get_level_count_mag
  // ---------------------------------------------------------------------

  /** The number of neighbours whose level exceeds `level`. */
  function CountGreater(levels: seq<Byte>, stride: int, row: int, col: int,
                        offs: seq<(int, int)>, level: int): int
    requires NbInside(levels, stride, row, col, offs)
  {
    if offs == [] then 0
    else
      var init := offs[..|offs| - 1];
      CountGreater(levels, stride, row, col, init, level)
      + (if levels[NbPos(stride, row, col, offs[|offs| - 1])] > level then 1 else 0)
  }

  /** A neighbour below and to the right (both offsets non-negative). */
  predicate Forward(off: (int, int))
  {
    off.0 >= 0 && off.1 >= 0
  }

  /** The largest level among the forward neighbours, 0 if there is none. */
  function ForwardMag(levels: seq<Byte>, stride: int, row: int, col: int,
                      offs: seq<(int, int)>): int
    requires NbInside(levels, stride, row, col, offs)
  {
    if offs == [] then 0
    else
      var init := offs[..|offs| - 1];
      var m := ForwardMag(levels, stride, row, col, init);
      if Forward(offs[|offs| - 1]) then Max(m, levels[NbPos(stride, row, col, offs[|offs| - 1])])
      else m
  }

  /** get_level_count_mag: one pass over the first nbNum neighbours,
      counting those above `level` and tracking the forward maximum. */
  method GetLevelCountMag(levels: seq<Byte>, stride: int, row: int, col: int, level: int,
                          nbOffset: seq<(int, int)>, nbNum: nat)
    returns (count: int, mag: int)
    requires nbNum <= |nbOffset| && NbInside(levels, stride, row, col, nbOffset[..nbNum])
    ensures count == CountGreater(levels, stride, row, col, nbOffset[..nbNum], level)
    ensures mag == ForwardMag(levels, stride, row, col, nbOffset[..nbNum])
    ensures 0 <= count <= nbNum
  {
    count, mag := 0, 0;
    var idx := 0;
    while idx < nbNum
      invariant 0 <= idx <= nbNum
      invariant count == CountGreater(levels, stride, row, col, nbOffset[..idx], level)
      invariant mag == ForwardMag(levels, stride, row, col, nbOffset[..idx])
    {
      assert nbOffset[..idx + 1][..idx] == nbOffset[..idx];
      var pos := NbPos(stride, row, col, nbOffset[idx]);
      assert nbOffset[idx] == nbOffset[..nbNum][idx];
      count := count + (if levels[pos] > level then 1 else 0);
      if nbOffset[idx].0 >= 0 && nbOffset[idx].1 >= 0 {
        mag := Max(mag, levels[pos]);
      }
      idx := idx + 1;
    }
    assert nbOffset[..nbNum] == nbOffset[..idx];
    CountGreaterBounds(levels, stride, row, col, nbOffset[..nbNum], level);
  }

  /** The count lies between 0 and the number of neighbours. */
  lemma {:induction false} CountGreaterBounds(levels: seq<Byte>, stride: int, row: int, col: int,
                                              offs: seq<(int, int)>, level: int)
    requires NbInside(levels, stride, row, col, offs)
    ensures 0 <= CountGreater(levels, stride, row, col, offs, level) <= |offs|
  {
    if offs != [] {
      var init := offs[..|offs| - 1];
      assert NbInside(levels, stride, row, col, init);
      CountGreaterBounds(levels, stride, row, col, init, level);
    }
  }

  /** The forward maximum bounds every forward neighbour's level and is
      either 0 or attained by one of them. */
  lemma {:induction false} ForwardMagIsMax(levels: seq<Byte>, stride: int, row: int, col: int,
                                           offs: seq<(int, int)>)
    requires NbInside(levels, stride, row, col, offs)
    ensures var m := ForwardMag(levels, stride, row, col, offs);
      (forall k :: 0 <= k < |offs| && Forward(offs[k]) ==> levels[NbPos(stride, row, col, offs[k])] <= m)
      && (m == 0 || exists k :: 0 <= k < |offs| && Forward(offs[k]) && levels[NbPos(stride, row, col, offs[k])] == m)
  {
    if offs != [] {
      var init := offs[..|offs| - 1];
      assert NbInside(levels, stride, row, col, init);
      ForwardMagIsMax(levels, stride, row, col, init);
      var m0 := ForwardMag(levels, stride, row, col, init);
      var m := ForwardMag(levels, stride, row, col, offs);
      forall k | 0 <= k < |offs| && Forward(offs[k])
        ensures levels[NbPos(stride, row, col, offs[k])] <= m
      {
        if k < |offs| - 1 {
          assert offs[k] == init[k];
        }
      }
      if m != 0 && m == m0 {
        var k :| 0 <= k < |init| && Forward(init[k]) && levels[NbPos(stride, row, col, init[k])] == m0;
        assert offs[k] == init[k];
      }
    }
  }

  // ---------------------------------------------------------------------
  // Base-level and base-range contexts
  // ---------------------------------------------------------------------

  /** The region of a coefficient: DC, top row, left column or interior. */
  function RegionBase(row: int, col: int, dc: int, top: int, left: int, other: int): int
  {
    if row == 0 && col == 0 then dc else if row == 0 then top else if col == 0 then left else other
  }

  /** get_base_ctx_from_count_mag: the neighbour count rounded up to an
      even number, plus the magnitude flag, shifted by 0, 8, 18 or 28 for
      the region. */
  function GetBaseCtxFromCountMag(row: int, col: int, count: int, sigMag: int): (r: int)
    requires count >= 0
    ensures r == RegionBase(row, col, 0, 8, 18, 28) + count + count % 2 + sigMag
  {
    var ctx := Shr(count + 1, 1);
    Pow2Values();
    if row == 0 && col == 0 then Shl(ctx, 1) + sigMag
    else if row == 0 then 8 + Shl(ctx, 1) + sigMag
    else if col == 0 then 8 + 10 + Shl(ctx, 1) + sigMag
    else 8 + 10 + 10 + Shl(ctx, 1) + sigMag
  }

  /** The four regions keep to their own slots [0, 8), [8, 18), [18, 28)
      and [28, 38) while at most six neighbours are above the level. */
  lemma BaseCtxRegionsSeparate(row: int, col: int, count: int, sigMag: int)
    requires 0 <= count <= 6 && 0 <= sigMag <= 1
    ensures var r := GetBaseCtxFromCountMag(row, col, count, sigMag);
      var lo := RegionBase(row, col, 0, 8, 18, 28);
      lo <= r < lo + (if row == 0 && col == 0 then 8 else 10)
  {
    Pow2Values();
  }

  /** With seven of the twelve base neighbours above the level, the DC
      context leaves its slots: the reason its bound stays unchecked. */
  lemma BaseCtxDcOverflow()
    ensures GetBaseCtxFromCountMag(0, 0, 7, 1) == 9
  {
    Pow2Values();
  }

  /** br_level_map: the neighbour count halved and capped at 3. */
  function BrLevelMap(count: int): (r: int)
    requires 0 <= count <= 8
    ensures r == Min(count / 2, 3)
  {
    [0, 0, 1, 1, 2, 2, 3, 3, 3][count]
  }

  /** The magnitude band of get_br_ctx_from_count_mag. */
  function BrMagBand(mag: int): (b: int)
    ensures 0 <= b <= 3
    ensures b == 0 <==> mag <= 1
    ensures b == 3 <==> mag > 5
  {
    if mag <= 1 then 0 else if mag <= 3 then 1 else if mag <= 5 then 2 else 3
  }

  /** A larger magnitude never falls in a lower band. */
  lemma BrMagBandMonotone(m1: int, m2: int)
    requires m1 <= m2
    ensures BrMagBand(m1) <= BrMagBand(m2)
  {
  }

  /** get_br_ctx_from_count_mag: the halved count plus the band times
      BR_TMP_OFFSET, shifted by 0, 2, 5 or 8 for the region. */
  function GetBrCtxFromCountMag(k: TxbConsts, row: int, col: int, count: int, mag: int): (r: int)
    requires 0 <= count <= 8
    ensures r == RegionBase(row, col, 0, 2, 5, 8) + Min(count / 2, 3) + BrMagBand(mag) * k.brTmpOffset
  {
    var ctx := BrLevelMap(count) + BrMagBand(mag) * k.brTmpOffset;
    if row == 0 && col == 0 then ctx
    else if row == 0 then 2 + ctx
    else if col == 0 then 5 + ctx
    else 8 + ctx
  }

  // ---------------------------------------------------------------------
  // Significance contexts
  // ---------------------------------------------------------------------

  /** TX_CLASS */
  datatype TxClass = Class2D | ClassHoriz | ClassVert

  /** get_tx_class: the vertical-only types form the vertical class, the
      horizontal-only types the horizontal class, all others 2-D. */
  function GetTxClass(txType: int): (c: TxClass)
    ensures c == ClassVert <==> txType in {Av1Txfm.V_DCT, Av1Txfm.V_ADST, Av1Txfm.V_FLIPADST}
    ensures c == ClassHoriz <==> txType in {Av1Txfm.H_DCT, Av1Txfm.H_ADST, Av1Txfm.H_FLIPADST}
  {
    if txType == Av1Txfm.V_DCT || txType == Av1Txfm.V_ADST || txType == Av1Txfm.V_FLIPADST then ClassVert
    else if txType == Av1Txfm.H_DCT || txType == Av1Txfm.H_ADST || txType == Av1Txfm.H_FLIPADST then ClassHoriz
    else Class2D
  }

  /** The vertical class is the one whose rows are the identity, the
      horizontal class the one whose columns are. */
  lemma TxClassFollowsIdentity(txType: int)
    requires 0 <= txType < Av1Txfm.TX_TYPES
    ensures GetTxClass(txType) == ClassVert <==>
      Av1Txfm.HorizontalTxfm(txType) == Av1Txfm.Identity && Av1Txfm.VerticalTxfm(txType) != Av1Txfm.Identity
    ensures GetTxClass(txType) == ClassHoriz <==>
      Av1Txfm.VerticalTxfm(txType) == Av1Txfm.Identity && Av1Txfm.HorizontalTxfm(txType) != Av1Txfm.Identity
  {
  }

  const SIG_REF_OFFSET_NUM: nat := 7

  const SigRefOffset: seq<(int, int)> := [(2, 1), (2, 0), (1, 2), (1, 1), (1, 0), (0, 2), (0, 1)]
  const SigRefOffsetVert: seq<(int, int)> := [(2, 1), (2, 0), (3, 0), (1, 1), (1, 0), (4, 0), (0, 1)]
  const SigRefOffsetHoriz: seq<(int, int)> := [(0, 3), (0, 4), (1, 2), (1, 1), (1, 0), (0, 2), (0, 1)]

  /** The neighbour table of a transform class. */
  function SigOffsets(c: TxClass): (offs: seq<(int, int)>)
    ensures |offs| == SIG_REF_OFFSET_NUM
    ensures forall j :: 0 <= j < |offs| ==> Forward(offs[j]) && offs[j] != (0, 0)
  {
    match c
    case Class2D => SigRefOffset
    case ClassVert => SigRefOffsetVert
    case ClassHoriz => SigRefOffsetHoriz
  }

  /** The number of neighbours with a non-zero level. */
  function CountNonZero(levels: seq<Byte>, stride: int, row: int, col: int,
                        offs: seq<(int, int)>): int
    requires NbInside(levels, stride, row, col, offs)
  {
    if offs == [] then 0
    else
      var init := offs[..|offs| - 1];
      CountNonZero(levels, stride, row, col, init)
      + (if levels[NbPos(stride, row, col, offs[|offs| - 1])] != 0 then 1 else 0)
  }

  /** get_nz_count: the non-zero neighbours among the class's seven, in
      the level buffer of stride 2^bwl + padHor. */
  method GetNzCount(k: TxbConsts, levels: seq<Byte>, bwl: nat, row: int, col: int, txClass: TxClass)
    returns (count: int)
    requires NbInside(levels, Pow2(bwl) + k.padHor, row, col, SigOffsets(txClass))
    ensures count == CountNonZero(levels, Pow2(bwl) + k.padHor, row, col, SigOffsets(txClass))
    ensures 0 <= count <= SIG_REF_OFFSET_NUM
  {
    var stride := Pow2(bwl) + k.padHor;
    var offs := SigOffsets(txClass);
    count := 0;
    var idx := 0;
    while idx < SIG_REF_OFFSET_NUM
      invariant 0 <= idx <= SIG_REF_OFFSET_NUM
      invariant NbInside(levels, stride, row, col, offs[..idx])
      invariant count == CountNonZero(levels, stride, row, col, offs[..idx])
      invariant 0 <= count <= idx
    {
      assert offs[..idx + 1][..idx] == offs[..idx];
      var nbPos := NbPos(stride, row, col, offs[idx]);
      count := count + (if levels[nbPos] != 0 then 1 else 0);
      idx := idx + 1;
    }
    assert offs[..idx] == offs;
  }

  /** With every neighbour zero there is nothing to count; with every
      neighbour non-zero all seven count. */
  lemma {:induction false} CountNonZeroExtremes(levels: seq<Byte>, stride: int, row: int, col: int,
                                                offs: seq<(int, int)>)
    requires NbInside(levels, stride, row, col, offs)
    ensures (forall j :: 0 <= j < |offs| ==> levels[NbPos(stride, row, col, offs[j])] == 0)
      ==> CountNonZero(levels, stride, row, col, offs) == 0
    ensures (forall j :: 0 <= j < |offs| ==> levels[NbPos(stride, row, col, offs[j])] != 0)
      ==> CountNonZero(levels, stride, row, col, offs) == |offs|
  {
    if offs != [] {
      var init := offs[..|offs| - 1];
      assert NbInside(levels, stride, row, col, init);
      CountNonZeroExtremes(levels, stride, row, col, init);
      assert forall j :: 0 <= j < |init| ==> init[j] == offs[j];
    }
  }

  /** The context offset of a class: the 2-D contexts first, then the
      vertical, then the horizontal ones. */
  function ClassOffset(k: TxbConsts, c: TxClass): int
  {
    match c
    case Class2D => 0
    case ClassVert => k.sigCoefContexts2D
    case ClassHoriz => k.sigCoefContexts2D + k.sigCoefContexts1D
  }

  /** get_nz_map_ctx_from_count: the significance context of raster
      coefficient coeffIdx of a block 2^bwl wide and `height` high, from
      the count of its non-zero neighbours. */
  function GetNzMapCtxFromCount(k: TxbConsts, count: int, coeffIdx: int, bwl: nat,
                                height: int, txType: int): (r: int)
    requires 0 <= count <= SIG_REF_OFFSET_NUM && 0 <= coeffIdx
    ensures var c := GetTxClass(txType);
      var row := Shr(coeffIdx, bwl);
      var col := coeffIdx - Shl(row, bwl);
      && (c == Class2D && row == 0 && col == 0 ==> r == 0)
      && (c == Class2D ==> 0 <= r < 26)
      && (c != Class2D ==> ClassOffset(k, c) <= r < ClassOffset(k, c) + 15)
  {
    var row := Shr(coeffIdx, bwl);
    var col := coeffIdx - Shl(row, bwl);
    var width := Shl(1, bwl);
    var txClass := GetTxClass(txType);
    var offset := ClassOffset(k, txClass);
    var ctx := Shr(count + 1, 1);
    Pow2Values();
    assert 0 <= ctx <= 4;
    if txClass == Class2D then
      if row == 0 && col == 0 then offset + 0
      else if width < height && row < 2 then offset + 11 + ctx
      else if width > height && col < 2 then offset + 16 + ctx
      else if row + col < 2 then offset + ctx + 1
      else if row + col < 4 then offset + 5 + ctx + 1
      else offset + 21 + Min(ctx, 4)
    else if txClass == ClassVert then
      if row == 0 then offset + ctx
      else if row < 2 then offset + 5 + ctx
      else offset + 10 + ctx
    else
      if col == 0 then offset + ctx
      else if col < 2 then offset + 5 + ctx
      else offset + 10 + ctx
  }

  // ---------------------------------------------------------------------
  // DC sign
  // ---------------------------------------------------------------------

  /** x with bit b set (x | (1 << b) for non-negative x). */
  function SetBit(x: nat, b: nat): (r: nat)
    ensures Shr(r, b) % 2 == 1
  {
    if Shr(x, b) % 2 == 1 then x
    else
      assert Shr(x + Pow2(b), b) == Shr(x, b) + 1 by { ShrAddPow2(x, b); }
      x + Pow2(b)
  }

  lemma ShrAddPow2(x: int, b: nat)
    ensures Shr(x + Pow2(b), b) == Shr(x, b) + 1
  {
    var p := Pow2(b);
    assert x + p == (x / p + 1) * p + x % p;
    DivUnique(x + p, p, x / p + 1, x % p);
  }

  /** set_dc_sign: the sign of the DC coefficient recorded above the
      COEFF_CONTEXT_BITS magnitude bits of the cumulative level: bit 0 of
      the sign field for negative, 2 added to it for positive. */
  function SetDcSign(k: TxbConsts, culLevel: nat, v: int): nat
  {
    if v < 0 then SetBit(culLevel, k.coeffContextBits)
    else if v > 0 then culLevel + 2 * Pow2(k.coeffContextBits)
    else culLevel
  }

  /** The sign code of a context byte (its bits above the magnitude). */
  function SignCode(k: TxbConsts, ctx: int): int
  {
    Shr(ctx, k.coeffContextBits)
  }

  /** The magnitude bits of a context byte (& COEFF_CONTEXT_MASK). */
  function MagBits(k: TxbConsts, ctx: int): int
  {
    ctx % Pow2(k.coeffContextBits)
  }

  /** Recording the sign of a level that fits in the magnitude bits keeps
      those bits and leaves sign code 1 for negative, 2 for positive and 0
      for zero: the code get_txb_ctx reads back. */
  lemma SetDcSignRoundTrip(k: TxbConsts, culLevel: nat, v: int)
    requires culLevel < Pow2(k.coeffContextBits)
    ensures var s := SetDcSign(k, culLevel, v);
      MagBits(k, s) == culLevel
      && SignCode(k, s) == (if v < 0 then 1 else if v > 0 then 2 else 0)
  {
    var p := Pow2(k.coeffContextBits);
    DivUnique(culLevel, p, 0, culLevel);
    if v < 0 {
      assert culLevel + p == 1 * p + culLevel;
      DivUnique(culLevel + p, p, 1, culLevel);
    } else if v > 0 {
      assert culLevel + 2 * p == 2 * p + culLevel;
      DivUnique(culLevel + 2 * p, p, 2, culLevel);
    }
  }

  /** get_dc_sign_ctx */
  function GetDcSignCtx(dcSign: int): (r: int)
    ensures dcSign < 0 ==> r == 1
    ensures dcSign > 0 ==> r == 2
    ensures dcSign == 0 ==> r == 0
  {
    if dcSign < 0 then 1 else if dcSign > 0 then 2 else 0
  }

  // ---------------------------------------------------------------------
  // get_txb_ctx
  // ---------------------------------------------------------------------

  /** The vote of one context byte: -1 for a negative DC, +1 for a
      positive one, 0 otherwise. */
  function SignVote(k: TxbConsts, ctx: Byte): int
  {
    var s := SignCode(k, ctx);
    if s == 1 then -1 else if s == 2 then 1 else 0
  }

  /** The sum of the votes of a run of context bytes. */
  function SignVotes(k: TxbConsts, ctxs: seq<Byte>): int
  {
    if ctxs == [] then 0 else SignVotes(k, ctxs[..|ctxs| - 1]) + SignVote(k, ctxs[|ctxs| - 1])
  }

  /** A context byte whose sign field is not a recorded sign. */
  predicate BadSign(k: TxbConsts, ctx: Byte)
  {
    SignCode(k, ctx) !in {0, 1, 2}
  }

  /** The largest magnitude in a run of context bytes, 0 for none. */
  function MaxMag(k: TxbConsts, ctxs: seq<Byte>): int
  {
    if ctxs == [] then 0 else Max(MaxMag(k, ctxs[..|ctxs| - 1]), MagBits(k, ctxs[|ctxs| - 1]))
  }

  /** The luma skip context from the largest above and left magnitudes. */
  function LumaSkipCtx(blockIsTx: bool, top: int, left: int): (r: int)
    ensures 0 <= r <= 6
    ensures blockIsTx ==> r == 0
    ensures !blockIsTx && top == 0 && left == 0 ==> r == 1
    ensures !blockIsTx && (top == 0) != (left == 0) ==> r == (if Max(top, left) > 3 then 3 else 2)
  {
    if blockIsTx then 0
    else if top == 0 && left == 0 then 1
    else if top == 0 || left == 0 then 2 + (if Max(top, left) > 3 then 1 else 0)
    else if Max(top, left) <= 3 then 4
    else if Min(top, left) <= 3 then 5
    else 6
  }

  /** The skip context does not care which side a magnitude came from. */
  lemma LumaSkipCtxSymmetric(blockIsTx: bool, top: int, left: int)
    ensures LumaSkipCtx(blockIsTx, top, left) == LumaSkipCtx(blockIsTx, left, top)
  {
  }

  /** TXB_CTX, with whether an assert on a sign field fires. */
  datatype TxbCtx = TxbCtx(txbSkipCtx: int, dcSignCtx: int, assertFails: bool)

  /** get_txb_ctx: the DC sign context from the votes of the txbWUnit
      above and txbHUnit left context bytes; for luma the skip context from
      their largest magnitudes, for chroma ctxBase (get_entropy_context,
      not part of this model) shifted by 7, plus 3 when the block is larger
      than the transform. tx_size_wide_unit, tx_size_high_unit and
      txsize_to_bsize are passed in as txbWUnit, txbHUnit and txBsize. */
  method GetTxbCtx(k: TxbConsts, planeBsize: int, txBsize: int, txbWUnit: nat, txbHUnit: nat,
                   plane: int, a: seq<Byte>, l: seq<Byte>, ctxBase: int)
    returns (c: TxbCtx)
    requires txbWUnit <= |a| && txbHUnit <= |l|
    ensures c.dcSignCtx == GetDcSignCtx(SignVotes(k, a[..txbWUnit]) + SignVotes(k, l[..txbHUnit]))
    ensures c.assertFails <==>
      (exists j :: 0 <= j < txbWUnit && BadSign(k, a[j])) || (exists j :: 0 <= j < txbHUnit && BadSign(k, l[j]))
    ensures plane == 0 ==> c.txbSkipCtx == LumaSkipCtx(planeBsize == txBsize,
      Min(MaxMag(k, a[..txbWUnit]), 255), Min(MaxMag(k, l[..txbHUnit]), 255))
    ensures plane != 0 ==> c.txbSkipCtx == 7 + (if planeBsize > txBsize then 3 else 0) + ctxBase
  {
    var ctxOffset := if plane == 0 then 0 else 7;
    if planeBsize > txBsize {
      ctxOffset := ctxOffset + 3;
    }
    var dcSign, bad1 := VoteRun(k, a, txbWUnit, 0);
    var dcSign2, bad2 := VoteRun(k, l, txbHUnit, dcSign);
    var dcSignCtx := GetDcSignCtx(dcSign2);
    var skipCtx;
    if plane == 0 {
      var top := MaxRun(k, a, txbWUnit);
      var left := MaxRun(k, l, txbHUnit);
      top := Min(top, 255);
      left := Min(left, 255);
      if planeBsize == txBsize {
        skipCtx := 0;
      } else if top == 0 && left == 0 {
        skipCtx := 1;
      } else if top == 0 || left == 0 {
        skipCtx := 2 + (if Max(top, left) > 3 then 1 else 0);
      } else if Max(top, left) <= 3 {
        skipCtx := 4;
      } else if Min(top, left) <= 3 {
        skipCtx := 5;
      } else {
        skipCtx := 6;
      }
    } else {
      skipCtx := ctxOffset + ctxBase;
    }
    c := TxbCtx(skipCtx, dcSignCtx, bad1 || bad2);
  }

  /** One of the two sign loops of get_txb_ctx, starting from dcSign. */
  method VoteRun(k: TxbConsts, ctxs: seq<Byte>, n: nat, dcSign: int) returns (sum: int, bad: bool)
    requires n <= |ctxs|
    ensures sum == dcSign + SignVotes(k, ctxs[..n])
    ensures bad <==> exists j :: 0 <= j < n && BadSign(k, ctxs[j])
  {
    sum, bad := dcSign, false;
    var i := 0;
    while i < n
      invariant 0 <= i <= n
      invariant sum == dcSign + SignVotes(k, ctxs[..i])
      invariant bad <==> exists j :: 0 <= j < i && BadSign(k, ctxs[j])
    {
      assert ctxs[..i + 1][..i] == ctxs[..i];
      var sign := Shr(ctxs[i], k.coeffContextBits);
      if sign == 1 {
        sum := sum - 1;
      } else if sign == 2 {
        sum := sum + 1;
      } else if sign != 0 {
        bad := true;
      }
      i := i + 1;
    }
  }

  /** One of the two magnitude loops of get_txb_ctx. */
  method MaxRun(k: TxbConsts, ctxs: seq<Byte>, n: nat) returns (m: int)
    requires n <= |ctxs|
    ensures m == MaxMag(k, ctxs[..n])
  {
    m := 0;
    var i := 0;
    while i < n
      invariant 0 <= i <= n
      invariant m == MaxMag(k, ctxs[..i])
    {
      assert ctxs[..i + 1][..i] == ctxs[..i];
      m := Max(m, ctxs[i] % Pow2(k.coeffContextBits));
      i := i + 1;
    }
  }

  /** The DC sign context is the sign of the vote total: contexts left by
      set_dc_sign on negative DCs only give 1. */
  lemma {:induction false} AllNegativeVotes(k: TxbConsts, ctxs: seq<Byte>)
    requires forall j :: 0 <= j < |ctxs| ==> SignCode(k, ctxs[j]) == 1
    ensures SignVotes(k, ctxs) == -|ctxs|
  {
    if ctxs != [] {
      AllNegativeVotes(k, ctxs[..|ctxs| - 1]);
    }
  }

  /** The largest magnitude bounds every entry's magnitude. */
  lemma {:induction false} MaxMagBounds(k: TxbConsts, ctxs: seq<Byte>)
    ensures forall j :: 0 <= j < |ctxs| ==> MagBits(k, ctxs[j]) <= MaxMag(k, ctxs)
    ensures MaxMag(k, ctxs) >= 0
  {
    if ctxs != [] {
      var init := ctxs[..|ctxs| - 1];
      MaxMagBounds(k, init);
      assert forall j :: 0 <= j < |init| ==> init[j] == ctxs[j];
    }
  }
}
