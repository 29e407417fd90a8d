/** Motion-vector reference helpers of av1/common/mvref_common.c: the
    projection of a motion vector by a ratio of frame distances, the
    candidate stack with weight accumulation and its ranking, the
    availability of the top-right neighbour, the superblock border test,
    the projected block position of the temporal motion field, sample
    selection for local warped motion, the frame sign bias and the
    skip-mode reference pair.

    Configuration: USE_CUR_GM_REFMV 1, CONFIG_OPT_REF_MV off,
    CONFIG_EXPLICIT_ORDER_HINT off. Constants of the headers, which are not
    part of this model, follow libaom: MAX_FRAME_DISTANCE 31,
    MAX_REF_MV_STACK_SIZE 8, MI_SIZE_LOG2 2, mi_size_wide[BLOCK_64X64] 16,
    LEAST_SQUARES_SAMPLES_MAX 8, SAMPLES_ARRAY_SIZE 16, INTER_REFS_PER_FRAME 7,
    INVALID_IDX -1, NONE_FRAME -1. */
module MvrefCommon {
  import opened IntArith
  import opened Wrappers
  import opened EntropyMv

  const MAX_FRAME_DISTANCE: int := 31
  const MAX_REF_MV_STACK_SIZE: int := 8
  const MI_SIZE_LOG2: nat := 2
  const MI_SIZE_64X64: int := 16
  const LEAST_SQUARES_SAMPLES_MAX: int := 8
  const SAMPLES_ARRAY_SIZE: int := 16
  const INTER_REFS_PER_FRAME: int := 7
  const INVALID_IDX: int := -1
  const INT_MAX: int := 0x7fff_ffff

  // ---------------------------------------------------------------------
  // get_mv_projection

  /** div_mult[d]: the table of 64 reciprocals, entry d being 16384 / d
      rounded down (and 0 for d = 0); it is written here by that rule
      rather than as 64 literals. */
  function DivMultEntry(d: int): (m: int)
    requires 0 <= d < 64
    ensures d == 0 ==> m == 0
    ensures d > 0 ==> 0 < m <= 16384 && m * d <= 16384 < (m + 1) * d
  {
    if d == 0 then 0 else
      var m := 16384 / d;
      DivBounds(16384, d);
      m
  }

  lemma DivBounds(x: nat, d: int)
    requires 0 < d
    ensures x / d * d <= x < (x / d + 1) * d
    ensures 1 <= d <= x ==> 0 < x / d <= x
  {
    if 1 <= d <= x {
      DivMonotone(d, x, d);
      MulDivCancel(1, d);
    }
  }

  /** div_mult[min(den, MAX_FRAME_DISTANCE)]. */
  function DivMult(den: int): (m: int)
    requires 0 <= den
    ensures den == 0 ==> m == 0
    ensures den > 0 ==> 0 < m <= 16384
  {
    DivMultEntry(Min(den, MAX_FRAME_DISTANCE))
  }

  /** ROUND_POWER_OF_TWO_SIGNED: rounds the magnitude, keeps the sign. */
  function RoundPowerOfTwoSigned(v: int, n: nat): (r: int)
    ensures v >= 0 ==> r >= 0
    ensures v <= 0 ==> r <= 0
  {
    if v < 0 then -RoundPowerOfTwo(-v, n) else RoundPowerOfTwo(v, n)
  }

  /** The conversion of an int to int16_t: the value modulo 2^16, taken in
      [-2^15, 2^15). */
  function Wrap16(x: int): (r: int)
    ensures -0x8000 <= r < 0x8000
    ensures -0x8000 <= x < 0x8000 ==> r == x
  {
    (x + 0x8000) % 0x1_0000 - 0x8000
  }

  /** The numerator clamped to +-MAX_FRAME_DISTANCE. */
  function ClampNum(num: int): (n: int)
    ensures -MAX_FRAME_DISTANCE <= n <= MAX_FRAME_DISTANCE
    ensures (n == 0 <==> num == 0) && (n > 0 <==> num > 0)
  {
    if num > 0 then Min(num, MAX_FRAME_DISTANCE) else Max(num, -MAX_FRAME_DISTANCE)
  }

  /** One component of the projection before the int16_t conversion:
      v * num / den in Q14 with num and den clamped. */
  function ProjectComponent(v: int, num: int, den: int): (r: int)
    requires 0 <= den
    ensures num == 0 || den == 0 ==> r == 0
  {
    var p := v * ClampNum(num) * DivMult(den);
    ZeroProduct(v, ClampNum(num), DivMult(den));
    RoundZero(14);
    RoundPowerOfTwoSigned(p, 14)
  }

  lemma ZeroProduct(a: int, b: int, c: int)
    ensures b == 0 || c == 0 ==> a * b * c == 0
  {
  }

  lemma RoundZero(n: nat)
    ensures RoundPowerOfTwoSigned(0, n) == 0
  {
    var p := Pow2(n);
    DivUnique(p / 2, p, 0, p / 2);
  }

  /** get_mv_projection as written: each component converted to int16_t. */
  function MvProjectionAsWritten(ref: Mv, num: int, den: int): (out: Mv)
    requires 0 <= den
    ensures num == 0 || den == 0 ==> out == Mv(0, 0)
  {
    Mv(Wrap16(ProjectComponent(ref.row, num, den)), Wrap16(ProjectComponent(ref.col, num, den)))
  }

  /** A stored motion vector (at most REFMVS_LIMIT in magnitude) scaled by
      31 over 1 does not fit int16_t: the projection of a downward vector
      comes out pointing up. */
  lemma ProjectionAsWrittenFlipsSign()
    ensures MvProjectionAsWritten(Mv(4095, 0), 31, 1).row < 0
  {
    Pow2Values();
    assert ProjectComponent(4095, 31, 1) == 126945 by {
      assert 4095 * 31 * 16384 + Pow2(14) / 2 == 2079866880 + 8192;
      DivUnique(2079866880 + 8192, Pow2(14), 126945, 8192);
    }
  }

  /** A projected component kept inside the motion-vector range
      (MV_LOW, MV_UPP] rather than wrapped. */
  function SaturateMv(x: int): (r: int)
    ensures MV_LOW < r <= MV_UPP
    ensures MV_LOW < x <= MV_UPP ==> r == x
    ensures (x >= 0 ==> r >= 0) && (x <= 0 ==> r <= 0)
  {
    Pow2Values();
    Clamp(x, MV_LOW + 1, MV_UPP)
  }

  /** get_mv_projection with each component saturated to the motion-vector
      range, which is what the conversion to a 16-bit MV needs. */
  function MvProjection(ref: Mv, num: int, den: int): (out: Mv)
    requires 0 <= den
    ensures num == 0 || den == 0 ==> out == Mv(0, 0)
    ensures MV_LOW < out.row <= MV_UPP && MV_LOW < out.col <= MV_UPP
  {
    Mv(SaturateMv(ProjectComponent(ref.row, num, den)), SaturateMv(ProjectComponent(ref.col, num, den)))
  }

  /** The rounding is symmetric around zero. */
  lemma RoundSignedOdd(v: int, n: nat)
    ensures RoundPowerOfTwoSigned(-v, n) == -RoundPowerOfTwoSigned(v, n)
  {
    if v == 0 {
      RoundZero(n);
    }
  }

  /** Negating num negates a projected component. */
  lemma ComponentMirror(v: int, num: int, den: int)
    requires 0 <= den
    ensures ProjectComponent(v, -num, den) == -ProjectComponent(v, num, den)
  {
    var d := DivMult(den);
    assert ClampNum(-num) == -ClampNum(num);
    assert v * ClampNum(-num) * d == -(v * ClampNum(num) * d);
    RoundSignedOdd(v * ClampNum(num) * d, 14);
  }

  /** A projected component points the way v * num does. */
  lemma ComponentSign(v: int, num: int, den: int)
    requires 0 <= den
    ensures v * num >= 0 ==> ProjectComponent(v, num, den) >= 0
    ensures v * num <= 0 ==> ProjectComponent(v, num, den) <= 0
  {
    SignOfProduct(v, num, ClampNum(num), DivMult(den));
  }

  lemma SaturateOdd(x: int)
    ensures SaturateMv(-x) == -SaturateMv(x)
  {
    Pow2Values();
  }

  /** Projecting to the opposite side of the current frame (num negated)
      mirrors the vector, and each projected component points the way the
      stored component times num does. */
  lemma ProjectionMirrors(ref: Mv, num: int, den: int)
    requires 0 <= den
    ensures MvProjection(ref, -num, den) == Mv(-MvProjection(ref, num, den).row, -MvProjection(ref, num, den).col)
    ensures ref.row * num >= 0 ==> MvProjection(ref, num, den).row >= 0
    ensures ref.row * num <= 0 ==> MvProjection(ref, num, den).row <= 0
    ensures ref.col * num >= 0 ==> MvProjection(ref, num, den).col >= 0
    ensures ref.col * num <= 0 ==> MvProjection(ref, num, den).col <= 0
  {
    ComponentMirror(ref.row, num, den);
    ComponentMirror(ref.col, num, den);
    SaturateOdd(ProjectComponent(ref.row, num, den));
    SaturateOdd(ProjectComponent(ref.col, num, den));
    ComponentSign(ref.row, num, den);
    ComponentSign(ref.col, num, den);
  }

  lemma SignOfProduct(v: int, num: int, c: int, d: int)
    requires (c > 0 <==> num > 0) && (c == 0 <==> num == 0) && d >= 0
    ensures v * num >= 0 ==> v * c * d >= 0
    ensures v * num <= 0 ==> v * c * d <= 0
  {
    if v * num >= 0 {
      assert v * c >= 0;
    }
    if v * num <= 0 {
      assert v * c <= 0;
    }
  }

  // ---------------------------------------------------------------------
  // check_sb_border and has_top_right

  /** check_sb_border: whether the position at the given offset stays in
      the 64x64 superblock of (miRow, miCol). */
  function CheckSbBorder(miRow: int, miCol: int, rowOffset: int, colOffset: int): (inside: bool)
    ensures inside <==> (miRow + rowOffset) / MI_SIZE_64X64 == miRow / MI_SIZE_64X64
                        && (miCol + colOffset) / MI_SIZE_64X64 == miCol / MI_SIZE_64X64
  {
    var row := miRow % MI_SIZE_64X64;
    var col := miCol % MI_SIZE_64X64;
    SameBlockIff(miRow, rowOffset);
    SameBlockIff(miCol, colOffset);
    !(row + rowOffset < 0 || row + rowOffset >= MI_SIZE_64X64
      || col + colOffset < 0 || col + colOffset >= MI_SIZE_64X64)
  }

  lemma SameBlockIff(x: int, off: int)
    ensures 0 <= x % MI_SIZE_64X64 + off < MI_SIZE_64X64 <==> (x + off) / MI_SIZE_64X64 == x / MI_SIZE_64X64
  {
    var q, r := x / MI_SIZE_64X64, x % MI_SIZE_64X64;
    var q2, r2 := (x + off) / MI_SIZE_64X64, (x + off) % MI_SIZE_64X64;
    assert x == q * MI_SIZE_64X64 + r;
    assert x + off == q2 * MI_SIZE_64X64 + r2;
    if 0 <= r + off < MI_SIZE_64X64 {
      DivUnique(x + off, MI_SIZE_64X64, q, r + off);
    }
    if q2 == q {
      assert r2 == r + off;
    }
  }

  /** `x & b` is nonzero for a power of two b. */
  predicate Bit(x: int, b: int)
    requires b > 0
  {
    (x / b) % 2 == 1
  }

  /** Zero has no bit set. */
  lemma NoBitOfZero(b: int)
    requires b > 0
    ensures !Bit(0, b)
  {
    assert 0 / b == 0;
  }

  predicate IsPow2(b: int)
  {
    exists k: nat :: k <= 8 && Pow2(k) == b
  }

  /** has_top_right: whether the block's top-right neighbour is already
      decoded. sbMiSize is mi_size_wide of the superblock size, bs the
      block width in mi units, n8w and n8h the block's width and height
      in 8x8 units. */
  method HasTopRight(sbMiSize: int, miRow: int, miCol: int, bs: int, n8w: int, n8h: int,
                     isSecRect: bool, partitionVertA: bool) returns (hasTr: bool)
    requires sbMiSize == 16 || sbMiSize == 32
    requires IsPow2(bs)
    ensures bs > MI_SIZE_64X64 ==> !hasTr
    ensures bs <= MI_SIZE_64X64 && n8w < n8h && !isSecRect ==> hasTr
    ensures bs <= MI_SIZE_64X64 && n8w > n8h && isSecRect ==> !hasTr
    ensures bs <= MI_SIZE_64X64 && miRow % sbMiSize == 0 && !(n8w > n8h && isSecRect) ==> hasTr
    ensures bs <= MI_SIZE_64X64 && n8w == n8h && Bit(miRow % sbMiSize, bs) && Bit(miCol % sbMiSize, bs) ==> !hasTr
  {
    var maskRow := miRow % sbMiSize;
    var maskCol := miCol % sbMiSize;
    if bs > MI_SIZE_64X64 {
      return false;
    }
    ghost var k: nat :| k <= 8 && Pow2(k) == bs;
    var b;
    hasTr, b := ScanTopRight(maskRow, maskCol, bs, sbMiSize);
    if n8w < n8h && !isSecRect {
      hasTr := true;
    }
    if n8w > n8h && isSecRect {
      hasTr := false;
    }
    if partitionVertA && n8w == n8h && Bit(maskRow, b) {
      hasTr := false;
    }
  }

  /** The loop of has_top_right: walks up the block sizes while the block
      sits in the right half of its parent, and finds the top-right
      neighbour missing when the parent is itself the bottom-right
      quarter of the next size. b is where the walk stops. */
  method ScanTopRight(maskRow: int, maskCol: int, bs: int, sbMiSize: int) returns (hasTr: bool, b: int)
    requires bs > 0
    ensures b >= bs
    ensures maskRow == 0 ==> hasTr && !Bit(maskRow, b)
    ensures Bit(maskRow, bs) && Bit(maskCol, bs) ==> !hasTr
  {
    hasTr := !(Bit(maskRow, bs) && Bit(maskCol, bs));
    b := bs;
    NoBitOfZero(bs);
    while b < sbMiSize
      invariant b >= bs
      invariant maskRow == 0 ==> hasTr
      invariant Bit(maskRow, bs) && Bit(maskCol, bs) ==> !hasTr
      decreases sbMiSize - b
    {
      if Bit(maskCol, b) {
        if Bit(maskCol, 2 * b) && Bit(maskRow, 2 * b) {
          NoBitOfZero(2 * b);
          hasTr := false;
          break;
        }
      } else {
        break;
      }
      b := 2 * b;
    }
    NoBitOfZero(b);
  }

  // ---------------------------------------------------------------------
  // av1_setup_frame_sign_bias and get_block_position

  /** A position in 8x8 units of the motion-field grid. */
  datatype Pos = Pos(row: int, col: int)

  const MAX_OFFSET_WIDTH: int := 64
  const MAX_OFFSET_HEIGHT: int := 0

  /** A motion-vector component (1/8 pel) converted to whole 8x8 units,
      rounding toward zero. */
  function BlockOffset(v: int): (o: int)
    ensures v >= 0 ==> 0 <= o && o * 64 <= v < (o + 1) * 64
    ensures v < 0 ==> o <= 0 && (o - 1) * 64 < v <= o * 64
  {
    var q := TruncDiv(v, 64);
    DivBounds(Abs(v), 64);
    q
  }

  /** The block a motion vector lands on, moving with the vector or against
      it as the sign bias says. */
  function ProjectedPos(blkRow: int, blkCol: int, mv: Mv, signBias: int): Pos
  {
    var ro, co := BlockOffset(mv.row), BlockOffset(mv.col);
    if signBias == 1 then Pos(blkRow - ro, blkCol - co) else Pos(blkRow + ro, blkCol + co)
  }

  predicate InFrame(p: Pos, miRows: int, miCols: int)
  {
    0 <= p.row < miRows / 2 && 0 <= p.col < miCols / 2
  }

  /** The window of rows [base, base + 8) and columns [base - 8, base + 16)
      around the 8x8-aligned group holding (blkRow, blkCol). */
  predicate InWindow(p: Pos, blkRow: int, blkCol: int)
  {
    var baseRow, baseCol := blkRow / 8 * 8, blkCol / 8 * 8;
    baseRow - MAX_OFFSET_HEIGHT / 8 <= p.row < baseRow + 8 + MAX_OFFSET_HEIGHT / 8
    && baseCol - MAX_OFFSET_WIDTH / 8 <= p.col < baseCol + 8 + MAX_OFFSET_WIDTH / 8
  }

  /** get_block_position as written: the lower bounds of the window are
      tested with `<=`, so they exclude the window's own first row and
      first column. */
  function GetBlockPositionAsWritten(miRows: int, miCols: int, blkRow: int, blkCol: int, mv: Mv, signBias: int): (r: Option<Pos>)
    ensures r.Some? ==> r.value == ProjectedPos(blkRow, blkCol, mv, signBias)
  {
    var p := ProjectedPos(blkRow, blkCol, mv, signBias);
    var baseRow, baseCol := blkRow / 8 * 8, blkCol / 8 * 8;
    if p.row < 0 || p.row >= miRows / 2 || p.col < 0 || p.col >= miCols / 2 then None
    else if p.row <= baseRow - MAX_OFFSET_HEIGHT / 8 || p.row >= baseRow + 8 + MAX_OFFSET_HEIGHT / 8
         || p.col <= baseCol - MAX_OFFSET_WIDTH / 8 || p.col >= baseCol + 8 + MAX_OFFSET_WIDTH / 8 then None
    else Some(p)
  }

  /** With the window's bounds as its two macros define it: the projected
      block is kept exactly when it is inside the frame and the window. */
  function GetBlockPosition(miRows: int, miCols: int, blkRow: int, blkCol: int, mv: Mv, signBias: int): (r: Option<Pos>)
    ensures r.Some? <==> InFrame(ProjectedPos(blkRow, blkCol, mv, signBias), miRows, miCols)
                         && InWindow(ProjectedPos(blkRow, blkCol, mv, signBias), blkRow, blkCol)
    ensures r.Some? ==> r.value == ProjectedPos(blkRow, blkCol, mv, signBias)
  {
    var p := ProjectedPos(blkRow, blkCol, mv, signBias);
    var baseRow, baseCol := blkRow / 8 * 8, blkCol / 8 * 8;
    if p.row < 0 || p.row >= miRows / 2 || p.col < 0 || p.col >= miCols / 2 then None
    else if p.row < baseRow - MAX_OFFSET_HEIGHT / 8 || p.row >= baseRow + 8 + MAX_OFFSET_HEIGHT / 8
         || p.col < baseCol - MAX_OFFSET_WIDTH / 8 || p.col >= baseCol + 8 + MAX_OFFSET_WIDTH / 8 then None
    else Some(p)
  }

  /** A block with a zero motion vector projects onto itself, and the
      corrected check keeps it whenever it lies in the frame. */
  lemma ZeroMotionKept(miRows: int, miCols: int, blkRow: int, blkCol: int, signBias: int)
    requires 0 <= blkRow < miRows / 2 && 0 <= blkCol < miCols / 2
    ensures GetBlockPosition(miRows, miCols, blkRow, blkCol, Mv(0, 0), signBias) == Some(Pos(blkRow, blkCol))
  {
    assert BlockOffset(0) == 0;
  }

  /** The check as written drops every block on the first row of its
      8-row group even when it does not move: the motion field of the
      whole first row of each group is lost. */
  lemma AsWrittenDropsFirstRow(miRows: int, miCols: int, blkRow: int, blkCol: int, signBias: int)
    requires 0 <= blkRow < miRows / 2 && 0 <= blkCol < miCols / 2 && blkRow % 8 == 0
    ensures GetBlockPositionAsWritten(miRows, miCols, blkRow, blkCol, Mv(0, 0), signBias) == None
    ensures GetBlockPosition(miRows, miCols, blkRow, blkCol, Mv(0, 0), signBias).Some?
  {
    assert BlockOffset(0) == 0;
    ZeroMotionKept(miRows, miCols, blkRow, blkCol, signBias);
  }

  /** The two checks differ only on the window's first row and first
      column. */
  lemma AsWrittenDiffersOnlyAtEdge(miRows: int, miCols: int, blkRow: int, blkCol: int, mv: Mv, signBias: int)
    ensures var p := ProjectedPos(blkRow, blkCol, mv, signBias);
            GetBlockPositionAsWritten(miRows, miCols, blkRow, blkCol, mv, signBias)
            == (if p.row == blkRow / 8 * 8 || p.col == blkCol / 8 * 8 - 8 then None
                else GetBlockPosition(miRows, miCols, blkRow, blkCol, mv, signBias))
  {
  }

  /** ref_frame_sign_bias[r] for one reference: 1 when the reference is
      present and lies after the current frame in display order. */
  function SignBias(refOffset: Option<int>, frameOffset: int): (b: int)
  {
    if refOffset.Some? && refOffset.value > frameOffset then 1 else 0
  }

  /** ref_frame_sign_bias[ref] written by av1_setup_frame_sign_bias for
      LAST_FRAME .. ALTREF_FRAME; refOffsets[i] is the display offset of
      the buffer behind reference i, None when its index is INVALID_IDX. */
  method SetupFrameSignBias(signBias: array<int>, refOffsets: seq<Option<int>>, frameOffset: int)
    requires signBias.Length == INTER_REFS_PER_FRAME + 1 && |refOffsets| == INTER_REFS_PER_FRAME
    modifies signBias
    ensures signBias[0] == old(signBias[0])
    ensures forall r :: 1 <= r <= INTER_REFS_PER_FRAME ==> signBias[r] == SignBias(refOffsets[r - 1], frameOffset)
  {
    var r := 1;
    while r <= INTER_REFS_PER_FRAME
      invariant 1 <= r <= INTER_REFS_PER_FRAME + 1
      invariant signBias[0] == old(signBias[0])
      invariant forall q :: 1 <= q < r ==> signBias[q] == SignBias(refOffsets[q - 1], frameOffset)
    {
      var off := refOffsets[r - 1];
      if off.Some? {
        signBias[r] := if off.value <= frameOffset then 0 else 1;
      } else {
        signBias[r] := 0;
      }
      r := r + 1;
    }
  }

  /** A sign bias of 1 projects along the reversed vector: the reference
      lies on the other side of the current frame. */
  lemma SignBiasReverses(blkRow: int, blkCol: int, mv: Mv)
    ensures ProjectedPos(blkRow, blkCol, mv, 1) == ProjectedPos(blkRow, blkCol, Mv(-mv.row, -mv.col), 0)
  {
    OffsetOdd(mv.row);
    OffsetOdd(mv.col);
  }

  lemma OffsetOdd(v: int)
    ensures BlockOffset(-v) == -BlockOffset(v)
  {
  }

  // ---------------------------------------------------------------------
  // av1_setup_skip_mode_allowed (with CONFIG_EXPLICIT_ORDER_HINT off)

  /** A chosen reference: its display offset and its index 0 .. 6. */
  datatype Pick = Pick(offset: int, idx: int)

  /** The skip-mode fields of the frame header state. */
  datatype SkipMode = SkipMode(allowed: bool, idx0: int, idx1: int)

  predicate IsForward(o: Option<int>, cur: int)
  {
    o.Some? && o.value < cur
  }

  predicate IsBackward(o: Option<int>, cur: int)
  {
    o.Some? && o.value > cur
  }

  /** The running nearest forward reference after scanning offs: the
      largest offset below cur, the first index to reach it winning. */
  function NearestForward(offs: seq<Option<int>>, cur: int): Pick
    decreases |offs|
  {
    if offs == [] then Pick(-1, INVALID_IDX)
    else
      var p := NearestForward(offs[..|offs| - 1], cur);
      var o := offs[|offs| - 1];
      if IsForward(o, cur) && o.value > p.offset then Pick(o.value, |offs| - 1) else p
  }

  /** The running nearest backward reference: the smallest offset above cur. */
  function NearestBackward(offs: seq<Option<int>>, cur: int): Pick
    decreases |offs|
  {
    if offs == [] then Pick(INT_MAX, INVALID_IDX)
    else
      var p := NearestBackward(offs[..|offs| - 1], cur);
      var o := offs[|offs| - 1];
      if IsBackward(o, cur) && o.value < p.offset then Pick(o.value, |offs| - 1) else p
  }

  /** The running second-nearest forward reference: the largest offset below
      bound (the nearest forward offset). */
  function SecondForward(offs: seq<Option<int>>, bound: int): Pick
    decreases |offs|
  {
    if offs == [] then Pick(-1, INVALID_IDX)
    else
      var p := SecondForward(offs[..|offs| - 1], bound);
      var o := offs[|offs| - 1];
      if o.Some? && o.value < bound && o.value > p.offset then Pick(o.value, |offs| - 1) else p
  }

  function PairOf(a: int, b: int): SkipMode
  {
    SkipMode(true, Min(a, b), Max(a, b))
  }

  /** The skip-mode decision as a function of the reference offsets. */
  function SkipModeOf(offs: seq<Option<int>>, cur: int, intraOnly: bool, singleReference: bool): SkipMode
  {
    if intraOnly || singleReference then SkipMode(false, INVALID_IDX, INVALID_IDX)
    else
      var f, b := NearestForward(offs, cur), NearestBackward(offs, cur);
      if f.idx != INVALID_IDX && b.idx != INVALID_IDX then PairOf(f.idx, b.idx)
      else if f.idx != INVALID_IDX then
        var s := SecondForward(offs, f.offset);
        if s.offset >= 0 then PairOf(f.idx, s.idx) else SkipMode(false, INVALID_IDX, INVALID_IDX)
      else SkipMode(false, INVALID_IDX, INVALID_IDX)
  }

  /** av1_setup_skip_mode_allowed: refOffsets[i] is the display offset of
      the buffer behind reference i, None when its index is INVALID_IDX. */
  method SetupSkipModeAllowed(refOffsets: seq<Option<int>>, cur: int, intraOnly: bool, singleReference: bool)
    returns (mode: SkipMode)
    requires |refOffsets| == INTER_REFS_PER_FRAME
    ensures mode == SkipModeOf(refOffsets, cur, intraOnly, singleReference)
  {
    mode := SkipMode(false, INVALID_IDX, INVALID_IDX);
    if intraOnly || singleReference {
      return;
    }
    var off0, off1 := -1, INT_MAX;
    var idx0, idx1 := INVALID_IDX, INVALID_IDX;
    var i := 0;
    while i < INTER_REFS_PER_FRAME
      invariant 0 <= i <= INTER_REFS_PER_FRAME
      invariant Pick(off0, idx0) == NearestForward(refOffsets[..i], cur)
      invariant Pick(off1, idx1) == NearestBackward(refOffsets[..i], cur)
    {
      assert refOffsets[..i + 1][..i] == refOffsets[..i];
      var o := refOffsets[i];
      if o.Some? {
        if o.value < cur {
          if o.value > off0 {
            off0, idx0 := o.value, i;
          }
        } else if o.value > cur {
          if o.value < off1 {
            off1, idx1 := o.value, i;
          }
        }
      }
      i := i + 1;
    }
    assert refOffsets[..i] == refOffsets;
    if idx0 != INVALID_IDX && idx1 != INVALID_IDX {
      mode := SkipMode(true, Min(idx0, idx1), Max(idx0, idx1));
    } else if idx0 != INVALID_IDX && idx1 == INVALID_IDX {
      off1 := -1;
      i := 0;
      while i < INTER_REFS_PER_FRAME
        invariant 0 <= i <= INTER_REFS_PER_FRAME
        invariant Pick(off1, idx1) == SecondForward(refOffsets[..i], off0)
      {
        assert refOffsets[..i + 1][..i] == refOffsets[..i];
        var o := refOffsets[i];
        if o.Some? && o.value < off0 && o.value > off1 {
          off1, idx1 := o.value, i;
        }
        i := i + 1;
      }
      assert refOffsets[..i] == refOffsets;
      if off1 >= 0 {
        mode := SkipMode(true, Min(idx0, idx1), Max(idx0, idx1));
      }
    }
  }

  /** Frame offsets are unsigned counters below INT_MAX. */
  predicate ValidOffsets(offs: seq<Option<int>>)
  {
    forall j :: 0 <= j < |offs| && offs[j].Some? ==> 0 <= offs[j].value < INT_MAX
  }

  predicate HasForward(offs: seq<Option<int>>, cur: int)
  {
    exists j :: 0 <= j < |offs| && IsForward(offs[j], cur)
  }

  predicate HasBackward(offs: seq<Option<int>>, cur: int)
  {
    exists j :: 0 <= j < |offs| && IsBackward(offs[j], cur)
  }

  /** The scan finds a forward reference exactly when there is one, and
      then one whose offset is the largest below cur. */
  lemma {:induction false} NearestForwardIsNearest(offs: seq<Option<int>>, cur: int)
    requires ValidOffsets(offs)
    ensures var p := NearestForward(offs, cur);
            (p.idx == INVALID_IDX <==> !HasForward(offs, cur))
            && (p.idx == INVALID_IDX ==> p.offset == -1)
            && (p.idx != INVALID_IDX ==> 0 <= p.idx < |offs| && offs[p.idx] == Some(p.offset) && p.offset < cur)
            && (forall j :: 0 <= j < |offs| && IsForward(offs[j], cur) ==> offs[j].value <= p.offset)
    decreases |offs|
  {
    if offs != [] {
      var init := offs[..|offs| - 1];
      assert ValidOffsets(init) by {
        forall j | 0 <= j < |init| && init[j].Some? ensures 0 <= init[j].value < INT_MAX {
          assert init[j] == offs[j];
        }
      }
      NearestForwardIsNearest(init, cur);
      if HasForward(init, cur) {
        var j :| 0 <= j < |init| && IsForward(init[j], cur);
        assert IsForward(offs[j], cur);
      }
      if HasForward(offs, cur) && !IsForward(offs[|offs| - 1], cur) {
        var j :| 0 <= j < |offs| && IsForward(offs[j], cur);
        assert IsForward(init[j], cur);
      }
      forall j | 0 <= j < |offs| - 1 && IsForward(offs[j], cur)
        ensures IsForward(init[j], cur)
      {
        assert init[j] == offs[j];
      }
    }
  }

  /** The scan finds a backward reference exactly when there is one, and
      then one whose offset is the smallest above cur. */
  lemma {:induction false} NearestBackwardIsNearest(offs: seq<Option<int>>, cur: int)
    requires ValidOffsets(offs)
    ensures var p := NearestBackward(offs, cur);
            (p.idx == INVALID_IDX <==> !HasBackward(offs, cur))
            && (p.idx == INVALID_IDX ==> p.offset == INT_MAX)
            && (p.idx != INVALID_IDX ==> 0 <= p.idx < |offs| && offs[p.idx] == Some(p.offset) && p.offset > cur)
            && (forall j :: 0 <= j < |offs| && IsBackward(offs[j], cur) ==> offs[j].value >= p.offset)
    decreases |offs|
  {
    if offs != [] {
      var init := offs[..|offs| - 1];
      assert ValidOffsets(init) by {
        forall j | 0 <= j < |init| && init[j].Some? ensures 0 <= init[j].value < INT_MAX {
          assert init[j] == offs[j];
        }
      }
      NearestBackwardIsNearest(init, cur);
      if HasBackward(init, cur) {
        var j :| 0 <= j < |init| && IsBackward(init[j], cur);
        assert IsBackward(offs[j], cur);
      }
      if HasBackward(offs, cur) && !IsBackward(offs[|offs| - 1], cur) {
        var j :| 0 <= j < |offs| && IsBackward(offs[j], cur);
        assert IsBackward(init[j], cur);
      }
      forall j | 0 <= j < |offs| - 1 && IsBackward(offs[j], cur)
        ensures IsBackward(init[j], cur)
      {
        assert init[j] == offs[j];
      }
    }
  }

  predicate Below(o: Option<int>, bound: int)
  {
    o.Some? && o.value < bound
  }

  /** The second scan finds the largest offset below bound, if any. */
  lemma {:induction false} SecondForwardIsNearest(offs: seq<Option<int>>, bound: int)
    requires ValidOffsets(offs)
    ensures var p := SecondForward(offs, bound);
            (p.offset >= 0 <==> exists j :: 0 <= j < |offs| && Below(offs[j], bound))
            && (p.offset >= 0 ==> 0 <= p.idx < |offs| && offs[p.idx] == Some(p.offset) && p.offset < bound)
            && (forall j :: 0 <= j < |offs| && Below(offs[j], bound) ==> offs[j].value <= p.offset)
    decreases |offs|
  {
    if offs != [] {
      var init := offs[..|offs| - 1];
      assert ValidOffsets(init) by {
        forall j | 0 <= j < |init| && init[j].Some? ensures 0 <= init[j].value < INT_MAX {
          assert init[j] == offs[j];
        }
      }
      SecondForwardIsNearest(init, bound);
      if exists j :: 0 <= j < |init| && Below(init[j], bound) {
        var j :| 0 <= j < |init| && Below(init[j], bound);
        assert Below(offs[j], bound);
      }
      if (exists j :: 0 <= j < |offs| && Below(offs[j], bound)) && !Below(offs[|offs| - 1], bound) {
        var j :| 0 <= j < |offs| && Below(offs[j], bound);
        assert Below(init[j], bound);
      }
      forall j | 0 <= j < |offs| - 1 && Below(offs[j], bound)
        ensures Below(init[j], bound)
      {
        assert init[j] == offs[j];
      }
    }
  }

  /** Skip mode is off for intra-only and single-reference frames. When it is
      on, the two indices are distinct valid references in increasing order;
      when it is off, both are INVALID_IDX. It is on exactly when there are
      references on both sides of the frame or two forward ones at different
      distances. */
  lemma SkipModeMeaning(offs: seq<Option<int>>, cur: int, intraOnly: bool, singleReference: bool)
    requires ValidOffsets(offs)
    ensures var m := SkipModeOf(offs, cur, intraOnly, singleReference);
            (intraOnly || singleReference ==> !m.allowed)
            && (!m.allowed ==> m.idx0 == INVALID_IDX && m.idx1 == INVALID_IDX)
            && (m.allowed ==> 0 <= m.idx0 < m.idx1 < |offs| && offs[m.idx0].Some? && offs[m.idx1].Some?)
            && (m.allowed <==> !intraOnly && !singleReference && HasForward(offs, cur)
                               && (HasBackward(offs, cur) || TwoForwardDistances(offs, cur)))
  {
    var f, b := NearestForward(offs, cur), NearestBackward(offs, cur);
    NearestForwardIsNearest(offs, cur);
    NearestBackwardIsNearest(offs, cur);
    if f.idx != INVALID_IDX && b.idx == INVALID_IDX {
      SecondForwardIsNearest(offs, f.offset);
      var s := SecondForward(offs, f.offset);
      if s.offset >= 0 {
        assert IsForward(offs[s.idx], cur) && IsForward(offs[f.idx], cur);
      }
      if TwoForwardDistances(offs, cur) {
        var j, k :| 0 <= j < |offs| && 0 <= k < |offs| && IsForward(offs[j], cur) && IsForward(offs[k], cur)
                    && offs[j].value < offs[k].value;
        assert Below(offs[j], f.offset);
      }
    }
  }

  predicate TwoForwardDistances(offs: seq<Option<int>>, cur: int)
  {
    exists j, k :: 0 <= j < |offs| && 0 <= k < |offs| && IsForward(offs[j], cur) && IsForward(offs[k], cur)
                   && offs[j].value < offs[k].value
  }

  // ---------------------------------------------------------------------
  // add_ref_mv_candidate

  const NONE_FRAME: int := -1

  /** One entry of a reference MV stack (pred_diff is not modelled). */
  datatype Candidate = Candidate(thisMv: Mv, compMv: Mv, weight: int)

  /** A stack's entries (all MAX_REF_MV_STACK_SIZE slots), its refmv_count
      and its newmv_count. */
  datatype StackState = StackState(entries: seq<Candidate>, count: int, newmv: int)

  /** The fields of the candidate block that add_ref_mv_candidate reads:
      subMv[ref] is get_sub_block_mv(candidate_mi, ref, col), globalMv[ref]
      is_global_mv_block with the global motion of rf[ref]. */
  datatype CandidateBlock = CandidateBlock(isInter: bool, refFrame0: int, refFrame1: int,
                                           isNewMv: bool, isNewNewMv: bool, subMv0: Mv, subMv1: Mv)

  /** A stack entry holds this MV (and, on a compound stack, this pair). */
  predicate Matches(c: Candidate, thisMv: Mv, compMv: Mv, compound: bool)
  {
    c.thisMv == thisMv && (!compound || c.compMv == compMv)
  }

  /** The index of the first entry holding the MV, or |s| when none does. */
  function FindMatch(s: seq<Candidate>, thisMv: Mv, compMv: Mv, compound: bool): (i: int)
    ensures 0 <= i <= |s|
    ensures i < |s| ==> Matches(s[i], thisMv, compMv, compound)
    ensures forall j :: 0 <= j < i ==> !Matches(s[j], thisMv, compMv, compound)
  {
    if s == [] then 0
    else if Matches(s[0], thisMv, compMv, compound) then 0
    else 1 + FindMatch(s[1..], thisMv, compMv, compound)
  }

  /** FindMatch is the first matching index. */
  lemma {:induction false} FindMatchIsFirst(s: seq<Candidate>, thisMv: Mv, compMv: Mv, compound: bool, i: int)
    requires 0 <= i <= |s|
    requires i < |s| ==> Matches(s[i], thisMv, compMv, compound)
    requires forall j :: 0 <= j < i ==> !Matches(s[j], thisMv, compMv, compound)
    ensures FindMatch(s, thisMv, compMv, compound) == i
  {
    if s != [] && i > 0 {
      assert !Matches(s[0], thisMv, compMv, compound);
      FindMatchIsFirst(s[1..], thisMv, compMv, compound, i - 1);
    }
  }

  /** No two of the first n entries hold the same MV (pair). */
  predicate DistinctKeys(s: seq<Candidate>, n: int, compound: bool)
    requires 0 <= n <= |s|
  {
    forall i, j :: 0 <= i < j < n ==> !Matches(s[j], s[i].thisMv, s[i].compMv, compound)
  }

  predicate StackInvariant(st: StackState, compound: bool)
  {
    |st.entries| == MAX_REF_MV_STACK_SIZE && 0 <= st.newmv <= st.count <= MAX_REF_MV_STACK_SIZE
    && DistinctKeys(st.entries, st.count, compound)
  }

  /** Adds weight w to the entry holding the MV, or appends the MV with
      weight w when there is none and the stack has room. A single stack
      only writes this_mv: comp_mv of the slot keeps what it held. */
  function Insert(st: StackState, thisMv: Mv, compMv: Mv, compound: bool, w: int, isNew: bool): (r: StackState)
    requires |st.entries| == MAX_REF_MV_STACK_SIZE && 0 <= st.count <= MAX_REF_MV_STACK_SIZE
    ensures |r.entries| == MAX_REF_MV_STACK_SIZE && st.count <= r.count <= st.count + 1
    ensures r.count <= MAX_REF_MV_STACK_SIZE && st.newmv <= r.newmv <= st.newmv + r.count - st.count
  {
    var i := FindMatch(st.entries[..st.count], thisMv, compMv, compound);
    if i < st.count then
      st.(entries := st.entries[i := st.entries[i].(weight := st.entries[i].weight + w)])
    else if st.count < MAX_REF_MV_STACK_SIZE then
      var slot := st.entries[st.count];
      var c := if compound then Candidate(thisMv, compMv, w) else slot.(thisMv := thisMv, weight := w);
      StackState(st.entries[st.count := c], st.count + 1, st.newmv + (if isNew then 1 else 0))
    else st
  }

  /** The MV this candidate contributes for reference ref. */
  function ChosenMv(cand: CandidateBlock, ref: int, isGlobal: bool, gm: Mv): Mv
  {
    if isGlobal then gm else if ref == 0 then cand.subMv0 else cand.subMv1
  }

  /** One pass of the single-reference loop body. */
  function SingleStep(st: StackState, cand: CandidateBlock, ref: int, rf0: int, isGlobal0: bool,
                      gm0: Mv, w: int): StackState
    requires |st.entries| == MAX_REF_MV_STACK_SIZE && 0 <= st.count <= MAX_REF_MV_STACK_SIZE
  {
    var candRef := if ref == 0 then cand.refFrame0 else cand.refFrame1;
    if candRef == rf0 then Insert(st, ChosenMv(cand, ref, isGlobal0, gm0), Mv(0, 0), false, w, cand.isNewMv)
    else st
  }

  /** add_ref_mv_candidate on the stack selected by rf (rf1 is NONE_FRAME
      for a single reference); isGlobal0/1 and gm0/1 are the global-motion
      test and candidate for rf[0]/rf[1]. */
  function AddRefMvCandidateSpec(st: StackState, cand: CandidateBlock, rf0: int, rf1: int,
                                 isGlobal0: bool, isGlobal1: bool, gm0: Mv, gm1: Mv, weight: int, len: int): StackState
    requires |st.entries| == MAX_REF_MV_STACK_SIZE && 0 <= st.count <= MAX_REF_MV_STACK_SIZE
  {
    if !cand.isInter then st
    else if rf1 == NONE_FRAME then
      var st1 := SingleStep(st, cand, 0, rf0, isGlobal0, gm0, weight * len);
      SingleStep(st1, cand, 1, rf0, isGlobal0, gm0, weight * len)
    else if cand.refFrame0 == rf0 && cand.refFrame1 == rf1 then
      Insert(st, ChosenMv(cand, 0, isGlobal0, gm0), ChosenMv(cand, 1, isGlobal1, gm1), true, weight * len, cand.isNewNewMv)
    else st
  }

  /** The sum of the entries' weights. */
  function TotalWeight(s: seq<Candidate>): int
  {
    if s == [] then 0 else TotalWeight(s[..|s| - 1]) + s[|s| - 1].weight
  }

  lemma {:induction false} TotalWeightUpdate(s: seq<Candidate>, i: int, c: Candidate)
    requires 0 <= i < |s|
    ensures TotalWeight(s[i := c]) == TotalWeight(s) - s[i].weight + c.weight
    decreases |s|
  {
    var t := s[i := c];
    if i < |s| - 1 {
      assert t[..|t| - 1] == s[..|s| - 1][i := c];
      TotalWeightUpdate(s[..|s| - 1], i, c);
    } else {
      assert t[..|t| - 1] == s[..|s| - 1];
    }
  }

  /** Inserting keeps the stack free of duplicates and within its bounds. */
  lemma InsertKeepsInvariant(st: StackState, thisMv: Mv, compMv: Mv, compound: bool, w: int, isNew: bool)
    requires StackInvariant(st, compound)
    ensures StackInvariant(Insert(st, thisMv, compMv, compound, w, isNew), compound)
  {
    var r := Insert(st, thisMv, compMv, compound, w, isNew);
    var n := st.count;
    var i := FindMatch(st.entries[..n], thisMv, compMv, compound);
    if i == n && n < MAX_REF_MV_STACK_SIZE {
      forall a, b | 0 <= a < b < r.count
        ensures !Matches(r.entries[b], r.entries[a].thisMv, r.entries[a].compMv, compound)
      {
        if b == n {
          assert st.entries[..n][a] == st.entries[a];
        }
      }
    }
  }

  /** What one insertion does: when the MV is already on the stack its
      entry, and only it, gains w; otherwise, if there is room, the MV goes
      in the next free slot with weight w and newmv_count grows for a NEWMV
      candidate; on a full stack nothing changes. Either way the MV is then
      on the stack unless the stack was full without it. */
  lemma InsertMeaning(st: StackState, thisMv: Mv, compMv: Mv, compound: bool, w: int, isNew: bool)
    requires StackInvariant(st, compound)
    ensures var r := Insert(st, thisMv, compMv, compound, w, isNew);
            var present := exists j :: 0 <= j < st.count && Matches(st.entries[j], thisMv, compMv, compound);
            (present ==> r.count == st.count && r.newmv == st.newmv
                         && TotalWeight(r.entries[..r.count]) == TotalWeight(st.entries[..st.count]) + w)
            && (!present && st.count < MAX_REF_MV_STACK_SIZE ==>
                  r.count == st.count + 1 && r.newmv == st.newmv + (if isNew then 1 else 0)
                  && r.entries[..st.count] == st.entries[..st.count]
                  && Matches(r.entries[st.count], thisMv, compMv, compound) && r.entries[st.count].weight == w)
            && (!present && st.count == MAX_REF_MV_STACK_SIZE ==> r == st)
            && (present || st.count < MAX_REF_MV_STACK_SIZE ==>
                  exists j :: 0 <= j < r.count && Matches(r.entries[j], thisMv, compMv, compound))
  {
    var n := st.count;
    var pre := st.entries[..n];
    var i := FindMatch(pre, thisMv, compMv, compound);
    var r := Insert(st, thisMv, compMv, compound, w, isNew);
    if i < n {
      var c := st.entries[i].(weight := st.entries[i].weight + w);
      assert r.entries[..n] == pre[i := c];
      TotalWeightUpdate(pre, i, c);
      assert Matches(r.entries[i], thisMv, compMv, compound);
    }
  }

  /** Adding a candidate keeps the stack free of duplicates, with
      refmv_count at most MAX_REF_MV_STACK_SIZE and newmv_count at most
      refmv_count. */
  lemma AddRefMvCandidateKeepsInvariant(st: StackState, cand: CandidateBlock, rf0: int, rf1: int,
                                        isGlobal0: bool, isGlobal1: bool, gm0: Mv, gm1: Mv, weight: int, len: int)
    requires StackInvariant(st, rf1 != NONE_FRAME)
    ensures StackInvariant(AddRefMvCandidateSpec(st, cand, rf0, rf1, isGlobal0, isGlobal1, gm0, gm1, weight, len), rf1 != NONE_FRAME)
  {
    var w := weight * len;
    if cand.isInter && rf1 == NONE_FRAME {
      if cand.refFrame0 == rf0 {
        InsertKeepsInvariant(st, ChosenMv(cand, 0, isGlobal0, gm0), Mv(0, 0), false, w, cand.isNewMv);
      }
      var st1 := SingleStep(st, cand, 0, rf0, isGlobal0, gm0, w);
      if cand.refFrame1 == rf0 {
        InsertKeepsInvariant(st1, ChosenMv(cand, 1, isGlobal0, gm0), Mv(0, 0), false, w, cand.isNewMv);
      }
    } else if cand.isInter && cand.refFrame0 == rf0 && cand.refFrame1 == rf1 {
      InsertKeepsInvariant(st, ChosenMv(cand, 0, isGlobal0, gm0), ChosenMv(cand, 1, isGlobal1, gm1), true, w, cand.isNewNewMv);
    }
  }

  /** ref_mv_stack[rf], refmv_count[rf] and newmv_count[rf] for one
      reference frame (or compound pair) rf. */
  class RefMvStack {
    const stack: array<Candidate>
    const compound: bool
    var count: int
    var newmvCount: int

    function State(): StackState
      reads this, stack
    {
      StackState(stack[..], count, newmvCount)
    }

    ghost predicate Valid()
      reads this, stack
    {
      stack.Length == MAX_REF_MV_STACK_SIZE && StackInvariant(State(), compound)
    }

    constructor(compound: bool)
      ensures Valid() && fresh(stack)
      ensures this.compound == compound && count == 0 && newmvCount == 0
    {
      stack := new Candidate[MAX_REF_MV_STACK_SIZE](_ => Candidate(Mv(0, 0), Mv(0, 0), 0));
      this.compound := compound;
      count, newmvCount := 0, 0;
    }

    /** The search loop of add_ref_mv_candidate: the first entry holding
        the MV (pair), or count when none does. */
    method Find(thisMv: Mv, compMv: Mv) returns (index: int)
      requires Valid()
      ensures 0 <= index <= count
      ensures index < count ==> Matches(stack[index], thisMv, compMv, compound)
      ensures forall j :: 0 <= j < index ==> !Matches(stack[j], thisMv, compMv, compound)
      ensures index == FindMatch(stack[..count], thisMv, compMv, compound)
    {
      index := 0;
      while index < count && !Matches(stack[index], thisMv, compMv, compound)
        invariant 0 <= index <= count
        invariant forall j :: 0 <= j < index ==> !Matches(stack[j], thisMv, compMv, compound)
      {
        index := index + 1;
      }
      FindMatchIsFirst(stack[..count], thisMv, compMv, compound, index);
    }

    /** The search-and-insert step of add_ref_mv_candidate for one MV
        (pair). */
    method InsertMv(thisMv: Mv, compMv: Mv, w: int, isNew: bool)
      requires Valid()
      modifies this, stack
      ensures Valid()
      ensures State() == Insert(old(State()), thisMv, compMv, compound, w, isNew)
    {
      ghost var st := State();
      InsertKeepsInvariant(st, thisMv, compMv, compound, w, isNew);
      var index := Find(thisMv, compMv);
      if index < count {
        stack[index] := stack[index].(weight := stack[index].weight + w);
      }
      if index == count && count < MAX_REF_MV_STACK_SIZE {
        if compound {
          stack[index] := Candidate(thisMv, compMv, w);
        } else {
          stack[index] := stack[index].(thisMv := thisMv, weight := w);
        }
        count := count + 1;
        if isNew {
          newmvCount := newmvCount + 1;
        }
      }
    }

    /** add_ref_mv_candidate on this stack, which rf selects. */
    method AddRefMvCandidate(cand: CandidateBlock, rf0: int, rf1: int, isGlobal0: bool, isGlobal1: bool,
                             gm0: Mv, gm1: Mv, weight: int, len: int)
      requires Valid() && compound == (rf1 != NONE_FRAME)
      modifies this, stack
      ensures Valid()
      ensures State() == AddRefMvCandidateSpec(old(State()), cand, rf0, rf1, isGlobal0, isGlobal1, gm0, gm1, weight, len)
    {
      if !cand.isInter {
        return;
      }
      if rf1 == NONE_FRAME {
        ghost var st0 := State();
        for ref := 0 to 2
          invariant Valid()
          invariant ref == 0 ==> State() == st0
          invariant ref == 1 ==> State() == SingleStep(st0, cand, 0, rf0, isGlobal0, gm0, weight * len)
          invariant ref == 2 ==> State() == SingleStep(SingleStep(st0, cand, 0, rf0, isGlobal0, gm0, weight * len),
                                                       cand, 1, rf0, isGlobal0, gm0, weight * len)
        {
          var candRef := if ref == 0 then cand.refFrame0 else cand.refFrame1;
          if candRef == rf0 {
            var thisRefMv := if isGlobal0 then gm0 else if ref == 0 then cand.subMv0 else cand.subMv1;
            InsertMv(thisRefMv, Mv(0, 0), weight * len, cand.isNewMv);
          }
        }
      } else if cand.refFrame0 == rf0 && cand.refFrame1 == rf1 {
        var thisRefMv0 := if isGlobal0 then gm0 else cand.subMv0;
        var thisRefMv1 := if isGlobal1 then gm1 else cand.subMv1;
        InsertMv(thisRefMv0, thisRefMv1, weight * len, cand.isNewNewMv);
      }
    }
  }

  // ---------------------------------------------------------------------
  // Weight ranking in setup_ref_mv_list

  /** Every entry of s weighs at least as much as every later one. */
  predicate NonIncreasingWeights(s: seq<Candidate>)
  {
    forall i, j :: 0 <= i < j < |s| ==> s[i].weight >= s[j].weight
  }

  /** Every entry in [lo, mid) weighs at least as much as every entry in
      [mid, hi). */
  predicate HeavierBefore(s: seq<Candidate>, lo: int, mid: int, hi: int)
    requires 0 <= lo <= mid <= hi <= |s|
  {
    forall x, y :: lo <= x < mid <= y < hi ==> s[x].weight >= s[y].weight
  }

  predicate SortedRange(s: seq<Candidate>, lo: int, hi: int)
    requires 0 <= lo <= hi <= |s|
  {
    forall x, y :: lo <= x < y < hi ==> s[x].weight >= s[y].weight
  }

  /** The state of a bubble pass before it looks at idx: the entry at
      idx - 1 is the lightest so far, everything before the last swap
      outweighs everything from it on, and from the last swap on the
      entries are in order. */
  predicate PassState(s: seq<Candidate>, lo: int, nrLen: int, idx: int)
    requires 0 <= lo <= nrLen < idx <= |s|
  {
    (forall k :: lo <= k < idx ==> s[k].weight >= s[idx - 1].weight)
    && HeavierBefore(s, lo, nrLen, idx) && SortedRange(s, nrLen, idx)
  }

  /** What a bubble pass over [lo, len) keeps while it runs: a
      permutation of s0 that leaves the outside of [lo, len) alone and
      keeps [lo, len) ahead of [len, hi). */
  ghost predicate PassInv(s: seq<Candidate>, s0: seq<Candidate>, lo: int, nrLen: int, idx: int, len: int, hi: int)
    requires 0 <= lo <= nrLen < idx <= len <= hi <= |s|
  {
    |s0| == |s| && multiset(s) == multiset(s0)
    && (forall k :: 0 <= k < lo || len <= k < |s| ==> s[k] == s0[k])
    && HeavierBefore(s, lo, len, hi) && PassState(s, lo, nrLen, idx)
  }

  lemma PassSwap(s: seq<Candidate>, s0: seq<Candidate>, lo: int, nrLen: int, idx: int, len: int, hi: int)
    requires 0 <= lo <= nrLen < idx < len <= hi <= |s|
    requires PassInv(s, s0, lo, nrLen, idx, len, hi)
    requires s[idx - 1].weight < s[idx].weight
    ensures PassInv(s[idx - 1 := s[idx]][idx := s[idx - 1]], s0, lo, idx, idx + 1, len, hi)
  {
    var t := s[idx - 1 := s[idx]][idx := s[idx - 1]];
    SwapHeavier(s, t, lo, idx, len, hi);
    SwapSinks(s, t, lo, idx);
    SwapPermutes(s, s0, t, lo, idx, len);
  }

  /** A swap inside [lo, len) keeps it ahead of [len, hi). */
  lemma SwapHeavier(s: seq<Candidate>, t: seq<Candidate>, lo: int, idx: int, len: int, hi: int)
    requires 0 <= lo < idx < len <= hi <= |s| && t == s[idx - 1 := s[idx]][idx := s[idx - 1]]
    requires HeavierBefore(s, lo, len, hi)
    ensures HeavierBefore(t, lo, len, hi)
  {
    forall x, y | lo <= x < len <= y < hi
      ensures t[x].weight >= t[y].weight
    {
      assert t[y] == s[y];
      if x == idx - 1 {
        assert t[x] == s[idx];
      } else if x == idx {
        assert t[x] == s[idx - 1];
      } else {
        assert t[x] == s[x];
      }
    }
  }

  /** Swapping the lightest entry so far one place on: it stays the
      lightest, now at the last swap. */
  lemma SwapSinks(s: seq<Candidate>, t: seq<Candidate>, lo: int, idx: int)
    requires 0 <= lo < idx < |s| && t == s[idx - 1 := s[idx]][idx := s[idx - 1]]
    requires forall k :: lo <= k < idx ==> s[k].weight >= s[idx - 1].weight
    requires s[idx - 1].weight < s[idx].weight
    ensures PassState(t, lo, idx, idx + 1)
  {
    assert forall k :: lo <= k < idx - 1 ==> t[k] == s[k];
  }

  /** A swap inside [lo, len) permutes and leaves the outside alone. */
  lemma SwapPermutes(s: seq<Candidate>, s0: seq<Candidate>, t: seq<Candidate>, lo: int, idx: int, len: int)
    requires 0 <= lo < idx < len <= |s| == |s0| && t == s[idx - 1 := s[idx]][idx := s[idx - 1]]
    requires multiset(s) == multiset(s0) && forall k :: 0 <= k < lo || len <= k < |s| ==> s[k] == s0[k]
    ensures multiset(t) == multiset(s0) && forall k :: 0 <= k < lo || len <= k < |t| ==> t[k] == s0[k]
  {
  }

  lemma PassKeep(s: seq<Candidate>, s0: seq<Candidate>, lo: int, nrLen: int, idx: int, len: int, hi: int)
    requires 0 <= lo <= nrLen < idx < len <= hi <= |s|
    requires PassInv(s, s0, lo, nrLen, idx, len, hi)
    requires s[idx - 1].weight >= s[idx].weight
    ensures PassInv(s, s0, lo, nrLen, idx + 1, len, hi)
  {
  }

  /** One pass of the bubble sort over [lo, len): each entry lighter than
      the next is swapped with it, and the index of the last swap is
      returned (lo when nothing moved). The lightest entry sinks to the end,
      and from the last swap on the range is in its final order. */
  method BubblePass(a: array<Candidate>, lo: int, len: int, ghost hi: int) returns (nrLen: int)
    requires 0 <= lo < len <= hi <= a.Length
    requires HeavierBefore(a[..], lo, len, hi)
    modifies a
    ensures lo <= nrLen < len
    ensures multiset(a[..]) == multiset(old(a[..]))
    ensures forall k :: 0 <= k < lo || len <= k < a.Length ==> a[k] == old(a[k])
    ensures HeavierBefore(a[..], lo, len, hi)
    ensures HeavierBefore(a[..], lo, nrLen, len) && SortedRange(a[..], nrLen, len)
  {
    ghost var s0 := a[..];
    nrLen := lo;
    var idx := lo + 1;
    while idx < len
      invariant lo + 1 <= idx <= len && lo <= nrLen <= idx - 1
      invariant PassInv(a[..], s0, lo, nrLen, idx, len, hi)
    {
      nrLen := PassStep(a, s0, lo, nrLen, idx, len, hi);
      idx := idx + 1;
    }
    PassDone(a[..], s0, lo, nrLen, len, hi);
  }

  /** At the end of a pass everything from its last swap on is sorted. */
  lemma PassDone(s: seq<Candidate>, s0: seq<Candidate>, lo: int, nrLen: int, len: int, hi: int)
    requires 0 <= lo <= nrLen < len <= hi <= |s|
    requires PassInv(s, s0, lo, nrLen, len, len, hi)
    ensures |s0| == |s| && multiset(s) == multiset(s0)
    ensures forall k :: 0 <= k < lo || len <= k < |s| ==> s[k] == s0[k]
    ensures HeavierBefore(s, lo, len, hi)
    ensures HeavierBefore(s, lo, nrLen, len) && SortedRange(s, nrLen, len)
  {
  }

  /** One comparison of the pass: swap a[idx - 1] and a[idx] when the
      later one is heavier, recording the swap position. */
  method PassStep(a: array<Candidate>, ghost s0: seq<Candidate>, lo: int, nrLen: int, idx: int, len: int, ghost hi: int)
    returns (nrLen': int)
    requires 0 <= lo <= nrLen < idx < len <= hi <= a.Length
    requires PassInv(a[..], s0, lo, nrLen, idx, len, hi)
    modifies a
    ensures nrLen <= nrLen' <= idx
    ensures PassInv(a[..], s0, lo, nrLen', idx + 1, len, hi)
  {
    if a[idx - 1].weight < a[idx].weight {
      ghost var s := a[..];
      PassSwap(s, s0, lo, nrLen, idx, len, hi);
      a[idx - 1], a[idx] := a[idx], a[idx - 1];
      assert a[..] == s[idx - 1 := s[idx]][idx := s[idx - 1]];
      nrLen' := idx;
    } else {
      PassKeep(a[..], s0, lo, nrLen, idx, len, hi);
      nrLen' := nrLen;
    }
  }

  /** After a pass, the range from its last swap to hi is sorted and
      outweighed by what precedes it. */
  lemma RankStep(s: seq<Candidate>, t: seq<Candidate>, lo: int, nrLen: int, len: int, hi: int)
    requires 0 <= lo <= nrLen < len <= hi <= |s| == |t|
    requires HeavierBefore(s, lo, len, hi) && SortedRange(s, len, hi)
    requires forall k :: len <= k < hi ==> t[k] == s[k]
    requires HeavierBefore(t, lo, len, hi) && HeavierBefore(t, lo, nrLen, len) && SortedRange(t, nrLen, len)
    ensures HeavierBefore(t, lo, nrLen, hi) && SortedRange(t, nrLen, hi)
  {
  }

  /** Two arrays' contents with the same multiset and the same entries
      outside [lo, hi) hold the same multiset inside it. */
  lemma MultisetOfRange(s: seq<Candidate>, t: seq<Candidate>, lo: int, hi: int)
    requires 0 <= lo <= hi <= |s| == |t|
    requires multiset(s) == multiset(t) && s[..lo] == t[..lo] && s[hi..] == t[hi..]
    ensures multiset(s[lo..hi]) == multiset(t[lo..hi])
  {
    assert s == s[..lo] + s[lo..hi] + s[hi..];
    assert t == t[..lo] + t[lo..hi] + t[hi..];
    assert multiset(s) == multiset(s[..lo]) + multiset(s[lo..hi]) + multiset(s[hi..]);
    assert multiset(t) == multiset(t[..lo]) + multiset(t[lo..hi]) + multiset(t[hi..]);
    assert multiset(s[lo..hi]) == multiset(s) - multiset(s[..lo]) - multiset(s[hi..]);
    assert multiset(t[lo..hi]) == multiset(t) - multiset(t[..lo]) - multiset(t[hi..]);
  }

  /** The ranking loop of setup_ref_mv_list on the entries [lo, hi): a
      bubble sort that repeats passes up to the last swap of the previous
      pass. Afterwards the range is non-increasing in weight and a
      permutation of what it held; nothing outside it moves. */
  method RankByWeight(a: array<Candidate>, lo: int, hi: int)
    requires 0 <= lo <= hi <= a.Length
    modifies a
    ensures NonIncreasingWeights(a[lo..hi])
    ensures multiset(a[lo..hi]) == multiset(old(a[lo..hi]))
    ensures a[..lo] == old(a[..lo]) && a[hi..] == old(a[hi..])
  {
    var len := hi;
    while len > lo
      invariant lo <= len <= hi
      invariant multiset(a[..]) == multiset(old(a[..]))
      invariant forall k :: 0 <= k < lo || hi <= k < a.Length ==> a[k] == old(a[k])
      invariant HeavierBefore(a[..], lo, len, hi) && SortedRange(a[..], len, hi)
    {
      ghost var before := a[..];
      var nrLen := BubblePass(a, lo, len, hi);
      RankStep(before, a[..], lo, nrLen, len, hi);
      len := nrLen;
    }
    assert a[..lo] == old(a[..lo]) && a[hi..] == old(a[hi..]);
    MultisetOfRange(a[..], old(a[..]), lo, hi);
    assert a[lo..hi] == a[..][lo..hi] && old(a[lo..hi]) == old(a[..])[lo..hi];
  }

  /** The two rankings of setup_ref_mv_list: the nearest entries
      [0, nearest) and the rest [nearest, count), each non-increasing in
      weight; the nearest ones stay in front. */
  method RankStack(a: array<Candidate>, nearest: int, count: int)
    requires 0 <= nearest <= count <= a.Length
    modifies a
    ensures NonIncreasingWeights(a[..nearest]) && NonIncreasingWeights(a[nearest..count])
    ensures multiset(a[..nearest]) == multiset(old(a[..nearest]))
    ensures multiset(a[nearest..count]) == multiset(old(a[nearest..count]))
    ensures a[count..] == old(a[count..])
  {
    RankByWeight(a, 0, nearest);
    ghost var mid := a[..];
    assert mid[nearest..count] == old(a[nearest..count]) by {
      assert mid[nearest..count] == a[nearest..][..count - nearest];
      assert old(a[nearest..count]) == old(a[nearest..])[..count - nearest];
    }
    RankByWeight(a, nearest, count);
    assert a[..nearest] == a[0..nearest];
    assert mid[..nearest] == mid[0..nearest];
  }

  // ---------------------------------------------------------------------
  // selectSamples

  /** One sample: the neighbour centre (pts[2i], pts[2i+1]) and where its
      motion vector takes it (pts_inref[2i], pts_inref[2i+1]). */
  datatype Sample = Sample(ptX: int, ptY: int, refX: int, refY: int)

  /** How far the sample's motion differs from mv. */
  function SampleMvd(s: Sample, mv: Mv): nat
  {
    Abs(s.refX - s.ptX - mv.col) + Abs(s.refY - s.ptY - mv.row)
  }

  predicate Within(s: Sample, mv: Mv, thresh: int)
  {
    SampleMvd(s, mv) <= thresh
  }

  /** pts_mvd[i]: the difference, or -1 for a discarded sample. */
  function Mark(s: Sample, mv: Mv, thresh: int): int
  {
    if SampleMvd(s, mv) > thresh then -1 else SampleMvd(s, mv)
  }

  /** The samples within the threshold, in order. */
  function Kept(ss: seq<Sample>, mv: Mv, thresh: int): (r: seq<Sample>)
    ensures |r| <= |ss|
  {
    if ss == [] then []
    else Kept(ss[..|ss| - 1], mv, thresh) + (if Within(ss[|ss| - 1], mv, thresh) then [ss[|ss| - 1]] else [])
  }

  lemma {:induction false} KeptAppend(a: seq<Sample>, b: seq<Sample>, mv: Mv, thresh: int)
    ensures Kept(a + b, mv, thresh) == Kept(a, mv, thresh) + Kept(b, mv, thresh)
    decreases |b|
  {
    if b != [] {
      assert (a + b)[..|a + b| - 1] == a + b[..|b| - 1];
      KeptAppend(a, b[..|b| - 1], mv, thresh);
    } else {
      assert a + b == a;
    }
  }

  /** Every sample Kept returns is within the threshold. */
  lemma {:induction false} KeptOnlyWithin(ss: seq<Sample>, mv: Mv, thresh: int, x: Sample)
    requires x in Kept(ss, mv, thresh)
    ensures Within(x, mv, thresh)
    decreases |ss|
  {
    if x !in Kept(ss[..|ss| - 1], mv, thresh) {
      assert x == ss[|ss| - 1];
    } else {
      KeptOnlyWithin(ss[..|ss| - 1], mv, thresh, x);
    }
  }

  /** Whether each sample is within the threshold, as its mark in
      selectSamples tells (-1 for a discarded one). */
  ghost function WithinFlags(orig: seq<Sample>, mv: Mv, thresh: int): (keep: seq<bool>)
    ensures |keep| == |orig| && forall p :: 0 <= p < |orig| ==> keep[p] == Within(orig[p], mv, thresh)
  {
    seq(|orig|, p requires 0 <= p < |orig| => Within(orig[p], mv, thresh))
  }

  /** The samples flagged to keep among orig[lo..hi), as a multiset: the
      bookkeeping of the compaction loop, which moves samples out of order. */
  ghost function KeptIn(orig: seq<Sample>, keep: seq<bool>, lo: int, hi: int): (r: multiset<Sample>)
    requires 0 <= lo <= hi <= |orig| == |keep|
    ensures |r| == KeptCount(keep, lo, hi)
    decreases hi - lo
  {
    if lo == hi then multiset{}
    else if keep[hi - 1] then KeptIn(orig, keep, lo, hi - 1) + multiset{orig[hi - 1]}
    else KeptIn(orig, keep, lo, hi - 1)
  }

  /** How many flags of [lo, hi) are set. */
  function KeptCount(keep: seq<bool>, lo: int, hi: int): (c: int)
    requires 0 <= lo <= hi <= |keep|
    ensures 0 <= c <= hi - lo
    decreases hi - lo
  {
    if lo == hi then 0
    else KeptCount(keep, lo, hi - 1) + (if keep[hi - 1] then 1 else 0)
  }

  ghost function KeptOne(x: Sample, k: bool): (r: multiset<Sample>)
    ensures |r| <= 1
  {
    if k then multiset{x} else multiset{}
  }

  /** KeptIn of a range split at its first element. */
  lemma {:induction false} KeptInFront(orig: seq<Sample>, keep: seq<bool>, lo: int, lo': int, hi: int)
    requires 0 <= lo < hi <= |orig| == |keep| && lo' == lo + 1
    ensures KeptIn(orig, keep, lo, hi) == KeptOne(orig[lo], keep[lo]) + KeptIn(orig, keep, lo', hi)
    decreases hi - lo
  {
    if lo' < hi {
      KeptInFront(orig, keep, lo, lo', hi - 1);
    }
  }

  /** KeptIn of a range split at its last element. */
  lemma KeptInBack(orig: seq<Sample>, keep: seq<bool>, lo: int, e: int, e': int)
    requires 0 <= lo <= e < |orig| == |keep| && e' == e + 1
    ensures KeptIn(orig, keep, lo, e') == KeptIn(orig, keep, lo, e) + KeptOne(orig[e], keep[e])
  {
  }

  /** With the flags of the threshold, KeptIn over a prefix is the multiset
      of Kept. */
  lemma {:induction false} KeptInPrefix(orig: seq<Sample>, mv: Mv, thresh: int, n: int)
    requires 0 <= n <= |orig|
    ensures KeptIn(orig, WithinFlags(orig, mv, thresh), 0, n) == multiset(Kept(orig[..n], mv, thresh))
    decreases n
  {
    if n > 0 {
      KeptInPrefix(orig, mv, thresh, n - 1);
      assert orig[..n][..n - 1] == orig[..n - 1];
    }
  }

  lemma KeptInWhole(orig: seq<Sample>, mv: Mv, thresh: int)
    ensures KeptIn(orig, WithinFlags(orig, mv, thresh), 0, |orig|) == multiset(Kept(orig, mv, thresh))
    ensures |KeptIn(orig, WithinFlags(orig, mv, thresh), 0, |orig|)| == |Kept(orig, mv, thresh)|
  {
    KeptInPrefix(orig, mv, thresh, |orig|);
    assert orig[..|orig|] == orig;
  }

  /** Unflagged samples at the end of a range add nothing to it. */
  lemma {:induction false} KeptInDropTail(orig: seq<Sample>, keep: seq<bool>, lo: int, e': int, e: int)
    requires 0 <= lo <= e' <= e <= |orig| == |keep|
    requires forall p :: e' <= p < e ==> !keep[p]
    ensures KeptIn(orig, keep, lo, e) == KeptIn(orig, keep, lo, e')
    decreases e - e'
  {
    if e' < e {
      KeptInDropTail(orig, keep, lo, e', e - 1);
    }
  }

  /** A range with as many kept samples as elements is flagged throughout. */
  lemma {:induction false} KeptInFull(orig: seq<Sample>, keep: seq<bool>, lo: int, hi: int)
    requires 0 <= lo <= hi <= |orig| == |keep| && |KeptIn(orig, keep, lo, hi)| == hi - lo
    ensures forall p :: lo <= p < hi ==> keep[p]
    decreases hi - lo
  {
    if lo < hi {
      KeptInFull(orig, keep, lo, hi - 1);
    }
  }

  /** Over a range flagged throughout KeptIn is the range itself. */
  lemma {:induction false} KeptInAllFlagged(orig: seq<Sample>, keep: seq<bool>, lo: int, hi: int)
    requires 0 <= lo <= hi <= |orig| == |keep| && forall p :: lo <= p < hi ==> keep[p]
    ensures KeptIn(orig, keep, lo, hi) == multiset(orig[lo..hi])
    decreases hi - lo
  {
    if lo < hi {
      KeptInAllFlagged(orig, keep, lo, hi - 1);
      assert orig[lo..hi] == orig[lo..hi - 1] + [orig[hi - 1]];
    }
  }

  /** A range with fewer kept samples than elements has an unflagged one. */
  lemma {:induction false} DiscardIn(orig: seq<Sample>, keep: seq<bool>, lo: int, hi: int) returns (p: int)
    requires 0 <= lo <= hi <= |orig| == |keep| && |KeptIn(orig, keep, lo, hi)| < hi - lo
    ensures lo <= p < hi && !keep[p]
    decreases hi - lo
  {
    if keep[hi - 1] {
      p := DiscardIn(orig, keep, lo, hi - 1);
    } else {
      p := hi - 1;
    }
  }

  /** A range with a kept sample has a flagged one. */
  lemma {:induction false} KeptInWitness(orig: seq<Sample>, keep: seq<bool>, lo: int, hi: int) returns (p: int)
    requires 0 <= lo <= hi <= |orig| == |keep| && |KeptIn(orig, keep, lo, hi)| > 0
    ensures lo <= p < hi && keep[p]
    decreases hi - lo
  {
    if keep[hi - 1] {
      p := hi - 1;
    } else {
      p := KeptInWitness(orig, keep, lo, hi - 1);
    }
  }

  /** The front [0, i) holds kept samples, marked as such. */
  ghost predicate FrontKept(m: seq<int>, i: int)
    requires 0 <= i <= |m|
  {
    forall p :: 0 <= p < i ==> m[p] != -1
  }

  /** From i on, the samples are the original ones and a mark is -1 just
      where the flag says discard. */
  ghost predicate Unmoved(s: seq<Sample>, m: seq<int>, orig: seq<Sample>, keep: seq<bool>, i: int)
    requires 0 <= i <= |orig| <= |s| && |orig| <= |m| && |keep| == |orig|
  {
    forall p :: i <= p < |orig| ==> s[p] == orig[p] && (m[p] == -1 <==> !keep[p])
  }

  /** The state of the compaction loop of selectSamples: the front [0, i)
      holds kept samples; from i on nothing has changed; the front together
      with the kept samples of [i, j] is the multiset of all kept samples,
      ret of them; and d samples from i on are discarded. */
  ghost predicate CompactInv(s: seq<Sample>, m: seq<int>, orig: seq<Sample>, keep: seq<bool>,
                             i: int, j: int, ret: int, d: int)
  {
    |orig| <= |s| && |orig| <= |m| && |keep| == |orig| && 0 <= i <= j + 1 <= |orig|
    && FrontKept(m, i) && Unmoved(s, m, orig, keep, i)
    && multiset(s[..i]) + KeptIn(orig, keep, i, j + 1) == KeptIn(orig, keep, 0, |orig|)
    && i + |KeptIn(orig, keep, i, j + 1)| == ret
    && (|orig| - i) - |KeptIn(orig, keep, i, |orig|)| == d
  }

  /** Where the compaction loop stops: the first ret entries are the kept
      samples, in some order. */
  ghost predicate Gathered(s: seq<Sample>, orig: seq<Sample>, keep: seq<bool>, ret: int)
  {
    |keep| == |orig| && 0 <= ret <= |s| && multiset(s[..ret]) == KeptIn(orig, keep, 0, |orig|)
  }

  /** The result of selectSamples: the first ret entries are the samples
      within the threshold, in some order. */
  ghost predicate Compacted(s: seq<Sample>, orig: seq<Sample>, ret: int, mv: Mv, thresh: int)
  {
    0 <= ret <= |s| && ret == |Kept(orig, mv, thresh)|
    && multiset(s[..ret]) == multiset(Kept(orig, mv, thresh))
    && forall p :: 0 <= p < ret ==> Within(s[p], mv, thresh)
  }

  /** With the flags of the threshold, gathering is the promised result. */
  lemma GatheredCompacted(s: seq<Sample>, orig: seq<Sample>, ret: int, mv: Mv, thresh: int)
    requires Gathered(s, orig, WithinFlags(orig, mv, thresh), ret)
    ensures Compacted(s, orig, ret, mv, thresh)
  {
    KeptInWhole(orig, mv, thresh);
    assert |multiset(s[..ret])| == ret;
    forall p | 0 <= p < ret
      ensures Within(s[p], mv, thresh)
    {
      assert s[..ret][p] == s[p];
      assert s[p] in multiset(Kept(orig, mv, thresh));
      KeptOnlyWithin(orig, mv, thresh, s[p]);
    }
  }

  /** Beyond the front, a mark of -1 tells a discarded sample. */
  lemma MarkAt(s: seq<Sample>, m: seq<int>, orig: seq<Sample>, keep: seq<bool>, i: int, j: int, ret: int, d: int,
               p: int)
    requires CompactInv(s, m, orig, keep, i, j, ret, d) && i <= p < |orig|
    ensures m[p] == -1 <==> !keep[p]
  {
  }

  /** The loop starts with an empty front and the whole input as region. */
  lemma CompactStart(s: seq<Sample>, m: seq<int>, orig: seq<Sample>, keep: seq<bool>, ret: int)
    requires |orig| <= |s| && |orig| <= |m| && |keep| == |orig| && s[..|orig|] == orig
    requires forall p :: 0 <= p < |orig| ==> (m[p] == -1 <==> !keep[p])
    requires ret == |KeptIn(orig, keep, 0, |orig|)|
    ensures CompactInv(s, m, orig, keep, 0, |orig| - 1, ret, |orig| - ret)
  {
    assert s[..0] == [];
    forall p | 0 <= p < |orig|
      ensures s[p] == orig[p]
    {
      assert s[..|orig|][p] == s[p];
    }
  }

  /** The front grows by one element of s: its multiset grows by it. */
  lemma PrefixGrows(s: seq<Sample>, i: int, i': int)
    requires 0 <= i < |s| && i' == i + 1
    ensures multiset(s[..i']) == multiset(s[..i]) + multiset{s[i]}
  {
    assert s[..i'] == s[..i] + [s[i]];
  }

  /** The scan for a discarded sample passes a kept one. */
  lemma PassKept(s: seq<Sample>, m: seq<int>, orig: seq<Sample>, keep: seq<bool>, i: int, j: int, ret: int, d: int)
    requires CompactInv(s, m, orig, keep, i, j, ret, d) && i <= j && keep[i]
    ensures CompactInv(s, m, orig, keep, i + 1, j, ret, d)
  {
    KeptInFront(orig, keep, i, i + 1, j + 1);
    KeptInFront(orig, keep, i, i + 1, |orig|);
    PrefixGrows(s, i, i + 1);
  }

  /** Moving the kept sample at j into the discarded slot at i gives the
      state (s', m', i', j', d'). */
  lemma MoveSample(s: seq<Sample>, m: seq<int>, orig: seq<Sample>, keep: seq<bool>, i: int, j: int, ret: int, d: int,
                   s': seq<Sample>, m': seq<int>, i': int, j': int, d': int)
    requires CompactInv(s, m, orig, keep, i, j, ret, d) && i < j && !keep[i] && keep[j]
    requires s' == s[i := s[j]] && m' == m[i := m[j]] && i' == i + 1 && j' == j - 1 && d' == d - 1
    ensures CompactInv(s', m', orig, keep, i', j', ret, d')
  {
    MoveKeepsSlots(s, m, orig, keep, i, j, s', m', i');
    MoveKeepsCounts(orig, keep, i, j, i', j');
    PrefixMoves(s, i, j, s', i');
    MultisetShift(multiset(s[..i]), multiset(s'[..i']), KeptIn(orig, keep, i, j + 1),
                  KeptIn(orig, keep, i', j' + 1), KeptIn(orig, keep, 0, |orig|), orig[j]);
  }

  /** The bookkeeping of a move: the region loses the discarded head and the
      kept tail, and one fewer discarded sample lies ahead. */
  lemma MoveKeepsCounts(orig: seq<Sample>, keep: seq<bool>, i: int, j: int, i': int, j': int)
    requires 0 <= i < j < |orig| == |keep| && i' == i + 1 && j' == j - 1 && !keep[i] && keep[j]
    ensures KeptIn(orig, keep, i, j + 1) == KeptIn(orig, keep, i', j' + 1) + multiset{orig[j]}
    ensures KeptIn(orig, keep, i, |orig|) == KeptIn(orig, keep, i', |orig|)
  {
    KeptInFront(orig, keep, i, i', j + 1);
    KeptInFront(orig, keep, i, i', |orig|);
    KeptInBack(orig, keep, i', j, j + 1);
  }

  /** The front after a move: the moved sample joins it. */
  lemma PrefixMoves(s: seq<Sample>, i: int, j: int, s': seq<Sample>, i': int)
    requires 0 <= i < j < |s| && s' == s[i := s[j]] && i' == i + 1
    ensures multiset(s'[..i']) == multiset(s[..i]) + multiset{s[j]}
  {
    assert s'[..i'] == s[..i] + [s[j]];
  }

  /** The front and the unmoved part after a move. */
  lemma MoveKeepsSlots(s: seq<Sample>, m: seq<int>, orig: seq<Sample>, keep: seq<bool>, i: int, j: int,
                       s': seq<Sample>, m': seq<int>, i': int)
    requires 0 <= i < j < |orig| <= |s| && |orig| <= |m| && |keep| == |orig|
    requires FrontKept(m, i) && Unmoved(s, m, orig, keep, i) && keep[j]
    requires s' == s[i := s[j]] && m' == m[i := m[j]] && i' == i + 1
    ensures FrontKept(m', i') && Unmoved(s', m', orig, keep, i') && s[j] == orig[j]
  {
  }

  lemma MultisetShift<T>(a: multiset<T>, a': multiset<T>, k: multiset<T>, k': multiset<T>, total: multiset<T>, x: T)
    requires a + k == total && k == k' + multiset{x} && a' == a + multiset{x}
    ensures a' + k' == total
  {
  }

  /** The scans met: the front [0, i) is everything kept. */
  lemma ScansMet(s: seq<Sample>, m: seq<int>, orig: seq<Sample>, keep: seq<bool>, i: int, j: int, ret: int, d: int)
    requires CompactInv(s, m, orig, keep, i, j, ret, d) && i == j + 1
    ensures Gathered(s, orig, keep, ret)
  {
  }

  /** No discarded sample lies ahead: the region is kept whole, compaction
      is done and the front is [0, j + 1). */
  lemma RegionKept(s: seq<Sample>, m: seq<int>, orig: seq<Sample>, keep: seq<bool>, i: int, j: int, ret: int)
    requires CompactInv(s, m, orig, keep, i, j, ret, 0)
    ensures Gathered(s, orig, keep, ret)
  {
    KeptInFull(orig, keep, i, |orig|);
    RegionGathered(s, m, orig, keep, i, j, ret);
  }

  /** A region [i, j] kept whole and unmoved completes the front. */
  lemma RegionGathered(s: seq<Sample>, m: seq<int>, orig: seq<Sample>, keep: seq<bool>, i: int, j: int, ret: int)
    requires CompactInv(s, m, orig, keep, i, j, ret, 0) && forall p :: i <= p < |orig| ==> keep[p]
    ensures Gathered(s, orig, keep, ret)
  {
    RegionFlagged(s, m, orig, keep, i, j, ret);
    RegionUnmoved(s, m, orig, keep, i, j, ret);
    GatheredAt(s, orig, keep, j + 1, ret);
  }

  lemma RegionFlagged(s: seq<Sample>, m: seq<int>, orig: seq<Sample>, keep: seq<bool>, i: int, j: int, ret: int)
    requires CompactInv(s, m, orig, keep, i, j, ret, 0) && forall p :: i <= p < |orig| ==> keep[p]
    ensures KeptIn(orig, keep, i, j + 1) == multiset(orig[i..j + 1]) && ret == j + 1
  {
    KeptInAllFlagged(orig, keep, i, j + 1);
  }

  lemma RegionUnmoved(s: seq<Sample>, m: seq<int>, orig: seq<Sample>, keep: seq<bool>, i: int, j: int, ret: int)
    requires CompactInv(s, m, orig, keep, i, j, ret, 0)
    ensures multiset(s[..j + 1]) == multiset(s[..i]) + multiset(orig[i..j + 1])
  {
    UnmovedPrefix(s, orig, i, j + 1);
  }

  /** A prefix whose part from i on is unmoved. */
  lemma UnmovedPrefix(s: seq<Sample>, orig: seq<Sample>, i: int, e: int)
    requires 0 <= i <= e <= |orig| <= |s| && forall p :: i <= p < e ==> s[p] == orig[p]
    ensures multiset(s[..e]) == multiset(s[..i]) + multiset(orig[i..e])
  {
    assert s[..e] == s[..i] + orig[i..e];
  }

  lemma GatheredAt(s: seq<Sample>, orig: seq<Sample>, keep: seq<bool>, e: int, ret: int)
    requires |keep| == |orig| && 0 <= e <= |s| && e == ret
    requires multiset(s[..e]) == KeptIn(orig, keep, 0, |orig|)
    ensures Gathered(s, orig, keep, ret)
  {
  }

  /** The scan `while (pts_mvd[i] != -1) i++`, stopping at the discarded
      sample w at the latest. */
  method ScanDiscarded(mvd: array<int>, i: int, ghost w: int) returns (i': int)
    requires 0 <= i <= w < mvd.Length && mvd[w] == -1
    ensures i <= i' <= w && mvd[i'] == -1
    ensures forall p :: i <= p < i' ==> mvd[p] != -1
  {
    i' := i;
    while mvd[i'] != -1
      invariant i <= i' <= w
      invariant forall p :: i <= p < i' ==> mvd[p] != -1
      decreases w - i'
    {
      i' := i' + 1;
    }
  }

  /** The scan `while (pts_mvd[j] == -1) j--`, stopping at the kept
      sample w at the latest. */
  method ScanKept(mvd: array<int>, j: int, ghost w: int) returns (j': int)
    requires 0 <= w <= j < mvd.Length && mvd[w] != -1
    ensures w <= j' <= j && mvd[j'] != -1
    ensures forall p :: j' < p <= j ==> mvd[p] == -1
  {
    j' := j;
    while mvd[j'] == -1
      invariant w <= j' <= j
      invariant forall p :: j' < p <= j ==> mvd[p] == -1
      decreases j' - w
    {
      j' := j' - 1;
    }
  }

  /** Ahead of the front there is a discarded sample while some remain. */
  lemma DiscardAhead(s: seq<Sample>, m: seq<int>, orig: seq<Sample>, keep: seq<bool>, i: int, j: int, ret: int, d: int)
    returns (w: int)
    requires CompactInv(s, m, orig, keep, i, j, ret, d) && d >= 1
    ensures i <= w < |orig| && m[w] == -1
  {
    w := DiscardIn(orig, keep, i, |orig|);
    MarkAt(s, m, orig, keep, i, j, ret, d, w);
  }

  /** After the front scan to i', a kept sample lies at or before j. */
  lemma KeptBehind(s: seq<Sample>, m: seq<int>, orig: seq<Sample>, keep: seq<bool>, i: int, i': int, j: int,
                   ret: int, d: int) returns (w: int)
    requires CompactInv(s, m, orig, keep, i, j, ret, d) && 0 <= j && 0 < ret && i <= i' <= |orig|
    requires forall p :: i <= p < i' ==> m[p] != -1
    requires i' <= j + 1 ==> CompactInv(s, m, orig, keep, i', j, ret, d)
    ensures 0 <= w <= j && m[w] != -1
  {
    if i' > j {
      w := j;
    } else if i' > 0 {
      w := i' - 1;
    } else {
      w := KeptInWitness(orig, keep, i', j + 1);
      MarkAt(s, m, orig, keep, i', j, ret, d, w);
    }
  }

  /** After the back scan to j': either the scans crossed and the
      compaction is complete, or i' < j' hold a discarded and a kept
      sample to swap. */
  lemma BackScanned(s: seq<Sample>, m: seq<int>, orig: seq<Sample>, keep: seq<bool>, i': int, j: int, j': int,
                    ret: int, d: int)
    requires i' <= j + 1 && CompactInv(s, m, orig, keep, i', j, ret, d)
    requires 0 <= j' <= j && m[j'] != -1 && forall p :: j' < p <= j ==> m[p] == -1
    requires i' < |m| && m[i'] == -1
    ensures i' - 1 <= j' && CompactInv(s, m, orig, keep, i', j', ret, d)
    ensures i' > j' ==> Gathered(s, orig, keep, ret)
    ensures i' <= j' ==> i' < j' && !keep[i'] && keep[j']
  {
    if i' > 0 {
      assert m[i' - 1] != -1;
    }
    RetreatBack(s, m, orig, keep, i', j, j', ret, d);
    if i' > j' {
      ScansMet(s, m, orig, keep, i', j', ret, d);
    } else {
      MarkAt(s, m, orig, keep, i', j', ret, d, i');
      MarkAt(s, m, orig, keep, i', j', ret, d, j');
    }
  }

  /** The front scan passes kept samples: either it stays inside [i, j + 1]
      with the invariant kept, or it ran over the whole region and the
      compaction is complete. */
  lemma {:induction false} AdvanceFront(s: seq<Sample>, m: seq<int>, orig: seq<Sample>, keep: seq<bool>,
                                        i: int, i': int, j: int, ret: int, d: int)
    requires CompactInv(s, m, orig, keep, i, j, ret, d) && i <= i' <= |orig|
    requires forall p :: i <= p < i' ==> m[p] != -1
    ensures i' <= j + 1 ==> CompactInv(s, m, orig, keep, i', j, ret, d)
    ensures i' > j + 1 ==> Gathered(s, orig, keep, ret)
    decreases i' - i
  {
    if i == j + 1 {
      ScansMet(s, m, orig, keep, i, j, ret, d);
    } else if i < i' {
      MarkAt(s, m, orig, keep, i, j, ret, d, i);
      PassKept(s, m, orig, keep, i, j, ret, d);
      AdvanceFront(s, m, orig, keep, i + 1, i', j, ret, d);
    }
  }

  /** The back scan passes discarded samples of the region. */
  lemma RetreatBack(s: seq<Sample>, m: seq<int>, orig: seq<Sample>, keep: seq<bool>, i: int, j: int, j': int,
                    ret: int, d: int)
    requires CompactInv(s, m, orig, keep, i, j, ret, d) && i - 1 <= j' <= j
    requires forall p :: j' < p <= j ==> m[p] == -1
    ensures CompactInv(s, m, orig, keep, i, j', ret, d)
  {
    KeptInDropTail(orig, keep, i, j' + 1, j + 1);
  }

  /** The two scans of a compaction round: i forward to a discarded
      sample, j backward to a kept one. */
  method ScanPair(mvd: array<int>, i: int, j: int, ghost s: seq<Sample>, ghost orig: seq<Sample>,
                  ghost keep: seq<bool>, ghost ret: int, ghost d: int)
    returns (i': int, j': int)
    requires 0 <= j && 0 < ret && 1 <= d && CompactInv(s, mvd[..], orig, keep, i, j, ret, d)
    ensures i' > j' ==> Gathered(s, orig, keep, ret)
    ensures i' <= j' ==> 0 <= i' < j' < |orig| && CompactInv(s, mvd[..], orig, keep, i', j', ret, d)
    ensures i' <= j' ==> !keep[i'] && keep[j']
  {
    ghost var m := mvd[..];
    ghost var w := DiscardAhead(s, m, orig, keep, i, j, ret, d);
    i' := ScanDiscarded(mvd, i, w);
    AdvanceFront(s, m, orig, keep, i, i', j, ret, d);
    ghost var wk := KeptBehind(s, m, orig, keep, i, i', j, ret, d);
    j' := ScanKept(mvd, j, wk);
    if i' <= j + 1 {
      BackScanned(s, m, orig, keep, i', j, j', ret, d);
    }
  }

  /** One round of the compaction loop: stop when the scans cross,
      otherwise move the kept sample into the discarded slot. */
  method CompactStep(samples: array<Sample>, mvd: array<int>, i: int, j: int, ghost orig: seq<Sample>,
                     ghost keep: seq<bool>, ghost ret: int, ghost d: int)
    returns (i2: int, j2: int, crossed: bool, ghost d2: int)
    requires 0 <= j && 0 < ret && 1 <= d && CompactInv(samples[..], mvd[..], orig, keep, i, j, ret, d)
    modifies samples, mvd
    ensures crossed ==> Gathered(samples[..], orig, keep, ret)
    ensures !crossed ==> 0 <= j2 && d2 == d - 1 && CompactInv(samples[..], mvd[..], orig, keep, i2, j2, ret, d2)
    ensures samples[|orig|..] == old(samples[|orig|..])
  {
    ghost var s, m := samples[..], mvd[..];
    var i', j' := ScanPair(mvd, i, j, s, orig, keep, ret, d);
    if i' > j' {
      return i', j', true, d;
    }
    samples[i'] := samples[j'];
    mvd[i'] := mvd[j'];
    i2, j2, crossed, d2 := i' + 1, j' - 1, false, d - 1;
    MoveSample(s, m, orig, keep, i', j', ret, d, samples[..], mvd[..], i2, j2, d2);
  }

  /** The compaction loop of selectSamples: the kept samples are moved to
      the front, each discarded slot from the left filled with the last
      kept sample from the right. */
  method CompactSamples(samples: array<Sample>, mvd: array<int>, len: int, ret: int,
                        ghost orig: seq<Sample>, ghost mv: Mv, ghost thresh: int)
    requires len <= samples.Length && len <= mvd.Length && |orig| == len && samples[..len] == orig
    requires forall p :: 0 <= p < len ==> mvd[p] == Mark(orig[p], mv, thresh)
    requires ret == |Kept(orig, mv, thresh)| > 0
    modifies samples, mvd
    ensures Compacted(samples[..], orig, ret, mv, thresh)
    ensures samples[len..] == old(samples[len..])
  {
    ghost var keep := WithinFlags(orig, mv, thresh);
    KeptInWhole(orig, mv, thresh);
    var i, j := 0, len - 1;
    CompactStart(samples[..], mvd[..], orig, keep, ret);
    ghost var done := false;
    ghost var d := len - ret;
    for k := 0 to len - ret
      invariant !done && 0 <= j && d == len - ret - k
      invariant CompactInv(samples[..], mvd[..], orig, keep, i, j, ret, d)
      invariant samples[len..] == old(samples[len..])
    {
      var crossed;
      i, j, crossed, d := CompactStep(samples, mvd, i, j, orig, keep, ret, d);
      if crossed {
        done := true;
        break;
      }
    }
    if !done {
      RegionKept(samples[..], mvd[..], orig, keep, i, j, ret);
    }
    GatheredCompacted(samples[..], orig, ret, mv, thresh);
  }

  /** The largest motion difference a sample may have: the larger block
      dimension, clamped to [16, 112]. */
  function SampleThreshold(bw: int, bh: int): (t: int)
    ensures 16 <= t <= 112
    ensures bw <= t || bh <= t || t == 112
  {
    Clamp(Max(bw, bh), 16, 112)
  }

  /** The first loop of selectSamples: the motion difference of each
      sample, -1 for those beyond the threshold; returns how many are
      within it. */
  method MarkSamples(mv: Mv, samples: array<Sample>, len: int, thresh: int, mvd: array<int>) returns (ret: int)
    requires 0 <= len <= samples.Length && len <= mvd.Length
    modifies mvd
    ensures forall p :: 0 <= p < len ==> mvd[p] == Mark(samples[p], mv, thresh)
    ensures ret == |Kept(samples[..len], mv, thresh)|
  {
    ret := 0;
    for i := 0 to len
      invariant forall p :: 0 <= p < i ==> mvd[p] == Mark(samples[p], mv, thresh)
      invariant ret == |Kept(samples[..i], mv, thresh)|
    {
      mvd[i] := Abs(samples[i].refX - samples[i].ptX - mv.col) + Abs(samples[i].refY - samples[i].ptY - mv.row);
      assert samples[..i + 1][..i] == samples[..i];
      if mvd[i] > thresh {
        mvd[i] := -1;
      } else {
        ret := ret + 1;
      }
    }
  }

  /** selectSamples: keep the samples whose motion is within the threshold
      of mv, moved to the front; if none is, keep the first one alone.
      Returns the number of samples kept. */
  method SelectSamples(mv: Mv, samples: array<Sample>, len: int, bw: int, bh: int) returns (ret: int)
    requires 0 <= len <= LEAST_SQUARES_SAMPLES_MAX && len <= samples.Length
    modifies samples
    ensures Kept(old(samples[..len]), mv, SampleThreshold(bw, bh)) == [] ==> ret == 1 && samples[..] == old(samples[..])
    ensures Kept(old(samples[..len]), mv, SampleThreshold(bw, bh)) != [] ==>
              Compacted(samples[..], old(samples[..len]), ret, mv, SampleThreshold(bw, bh))
    ensures samples[len..] == old(samples[len..])
  {
    var thresh := SampleThreshold(bw, bh);
    var mvd := new int[SAMPLES_ARRAY_SIZE](_ => 0);
    ghost var orig := samples[..len];
    ret := MarkSamples(mv, samples, len, thresh, mvd);
    if ret == 0 {
      return 1;
    }
    CompactSamples(samples, mvd, len, ret, orig, mv, thresh);
  }
}

