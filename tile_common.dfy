/** Tile geometry (av1/common/tile_common.c), in the configuration without
    extended partitions (64x64 superblocks of 16x16 mode-info units) and
    with CONFIG_LOOPFILTERING_ACROSS_TILES on, as in loopfilter.dfy: the
    mode-info range of a tile, the limits on log2 of the tile-column count,
    the marking of tile boundaries and the loop-filter switch. */
module TileCommon {
  import opened IntArith

  const MIN_TILE_WIDTH_MAX_SB: int := 4
  const MAX_TILE_WIDTH_MAX_SB: int := 64
  const MAX_MIB_SIZE_LOG2: nat := 4

  /** The mode-info range of one tile (TileInfo). */
  class TileInfo {
    var miRowStart: int
    var miRowEnd: int
    var miColStart: int
    var miColEnd: int

    constructor()
      ensures miRowStart == 0 && miRowEnd == 0 && miColStart == 0 && miColEnd == 0
    {
      miRowStart, miRowEnd, miColStart, miColEnd := 0, 0, 0, 0;
    }

    /** av1_tile_set_row: tile row `row` starts at row * tile_height and
        runs for tile_height rows, cut at the bottom of the frame. */
    method SetRow(tileHeight: int, miRows: int, row: int)
      modifies this
      ensures miRowStart == row * tileHeight
      ensures miRowEnd == Min(miRowStart + tileHeight, miRows)
      ensures miRowEnd <= miRows && miRowEnd - miRowStart <= tileHeight
      ensures miColStart == old(miColStart) && miColEnd == old(miColEnd)
    {
      miRowStart := row * tileHeight;
      miRowEnd := Min(miRowStart + tileHeight, miRows);
    }

    /** av1_tile_set_col: the same for tile column `col`. */
    method SetCol(tileWidth: int, miCols: int, col: int)
      modifies this
      ensures miColStart == col * tileWidth
      ensures miColEnd == Min(miColStart + tileWidth, miCols)
      ensures miColEnd <= miCols && miColEnd - miColStart <= tileWidth
      ensures miRowStart == old(miRowStart) && miRowEnd == old(miRowEnd)
    {
      miColStart := col * tileWidth;
      miColEnd := Min(miColStart + tileWidth, miCols);
    }

    /** av1_tile_init: both ranges. */
    method Init(tileHeight: int, miRows: int, tileWidth: int, miCols: int, row: int, col: int)
      modifies this
      ensures miRowStart == row * tileHeight && miRowEnd == Min(miRowStart + tileHeight, miRows)
      ensures miColStart == col * tileWidth && miColEnd == Min(miColStart + tileWidth, miCols)
    {
      SetRow(tileHeight, miRows, row);
      SetCol(tileWidth, miCols, col);
    }
  }

  /** The tiles of consecutive rows meet without gap or overlap inside the
      frame. */
  lemma TileRowsAdjacent(tileHeight: int, miRows: int, row: int)
    requires tileHeight > 0 && 0 <= row && (row + 1) * tileHeight <= miRows
    ensures Min(row * tileHeight + tileHeight, miRows) == (row + 1) * tileHeight
  {
  }

  /** Tile columns of width 64 << k cover a frame of maxSbCols superblocks. */
  predicate WideEnough(maxSbCols: int, k: nat)
  {
    Shl(MAX_TILE_WIDTH_MAX_SB, k) >= maxSbCols
  }

  /** get_min_log2_tile_cols: the least k with 64 << k >= max_sb_cols. */
  method GetMinLog2TileCols(maxSbCols: int) returns (minLog2: nat)
    ensures WideEnough(maxSbCols, minLog2)
    ensures forall k: nat :: k < minLog2 ==> !WideEnough(maxSbCols, k)
  {
    minLog2 := 0;
    while Shl(MAX_TILE_WIDTH_MAX_SB, minLog2) < maxSbCols
      invariant forall k: nat :: k < minLog2 ==> !WideEnough(maxSbCols, k)
      decreases maxSbCols - Shl(MAX_TILE_WIDTH_MAX_SB, minLog2)
    {
      assert Pow2(minLog2 + 1) == 2 * Pow2(minLog2);
      minLog2 := minLog2 + 1;
    }
  }

  /** Tile columns of max_sb_cols >> k superblocks are at least 4 wide. */
  predicate NarrowEnough(maxSbCols: int, k: nat)
  {
    Shr(maxSbCols, k) >= MIN_TILE_WIDTH_MAX_SB
  }

  lemma ShrStep(x: int, k: nat)
    ensures Shr(x, k + 1) == Shr(x, k) / 2
  {
    assert Pow2(k + 1) == 2 * Pow2(k);
    HalveDiv(x, Pow2(k));
  }

  /** Dividing by 2p is dividing by p, then by 2. */
  lemma HalveDiv(x: int, p: int)
    requires p > 0
    ensures x / (2 * p) == (x / p) / 2
  {
    var q, r := x / p, x % p;
    var h, b := q / 2, q % 2;
    assert x == q * p + r;
    assert q == 2 * h + b;
    assert x == h * (2 * p) + (b * p + r) by {
      assert q * p == (2 * h + b) * p;
      assert (2 * h + b) * p == h * (2 * p) + b * p;
    }
    DivUnique(x, 2 * p, h, b * p + r);
  }

  /** Once too narrow, narrower still at every larger k. */
  lemma {:induction false} NarrowStaysNarrow(x: int, k: nat, j: nat)
    requires k <= j && !NarrowEnough(x, k)
    ensures !NarrowEnough(x, j)
    decreases j - k
  {
    if k < j {
      ShrStep(x, k);
      NarrowStaysNarrow(x, k + 1, j);
    }
  }

  /** get_max_log2_tile_cols: the largest k that is 0 or leaves tile
      columns of at least MIN_TILE_WIDTH_MAX_SB superblocks. */
  method GetMaxLog2TileCols(maxSbCols: int) returns (maxLog2: nat)
    requires maxSbCols >= 0
    ensures maxLog2 == 0 || NarrowEnough(maxSbCols, maxLog2)
    ensures forall k: nat :: k > maxLog2 ==> !NarrowEnough(maxSbCols, k)
  {
    var m: nat := 1;
    while Shr(maxSbCols, m) >= MIN_TILE_WIDTH_MAX_SB
      invariant m >= 1 && (m == 1 || NarrowEnough(maxSbCols, m - 1))
      decreases Shr(maxSbCols, m)
    {
      ShrStep(maxSbCols, m);
      m := m + 1;
    }
    forall k: nat | k > m - 1
      ensures !NarrowEnough(maxSbCols, k)
    {
      NarrowStaysNarrow(maxSbCols, m, k);
    }
    maxLog2 := m - 1;
  }

  /** av1_get_tile_n_bits: the limits on log2 of the tile-column count for
      a frame mi_cols mode-info units wide. The minimum never exceeds the
      maximum, as the source asserts. */
  method GetTileNBits(miCols: int) returns (minLog2: nat, maxLog2: nat)
    requires miCols >= 0
    ensures var sb := Shr(miCols + 15, MAX_MIB_SIZE_LOG2);
      WideEnough(sb, minLog2) && (forall k: nat :: k < minLog2 ==> !WideEnough(sb, k))
      && (maxLog2 == 0 || NarrowEnough(sb, maxLog2))
      && (forall k: nat :: k > maxLog2 ==> !NarrowEnough(sb, k))
    ensures minLog2 <= maxLog2
  {
    // ALIGN_POWER_OF_TWO(mi_cols, 4) >> 4: the low bits the alignment
    // clears are the ones the shift drops.
    var maxSbCols := Shr(miCols + 15, MAX_MIB_SIZE_LOG2);
    minLog2 := GetMinLog2TileCols(maxSbCols);
    maxLog2 := GetMaxLog2TileCols(maxSbCols);
    MinBelowMax(maxSbCols, minLog2, maxLog2);
  }

  /** The least k that is wide enough is at most the largest that is
      narrow enough: at k = minLog2 - 1 the frame is wider than 32 << minLog2
      superblocks, so tiles of 1 << minLog2 columns are 32 wide. */
  lemma MinBelowMax(sb: int, minLog2: nat, maxLog2: nat)
    requires sb >= 0 && WideEnough(sb, minLog2)
    requires forall k: nat :: k < minLog2 ==> !WideEnough(sb, k)
    requires forall k: nat :: k > maxLog2 ==> !NarrowEnough(sb, k)
    ensures minLog2 <= maxLog2
  {
    if minLog2 > 0 {
      var k := minLog2 - 1;
      assert !WideEnough(sb, k);
      assert Pow2(minLog2) == 2 * Pow2(k);
      // sb > 64 * 2^k = 32 * 2^minLog2, hence sb / 2^minLog2 >= 32
      DivUnique(32 * Pow2(minLog2), Pow2(minLog2), 32, 0);
      DivMonotone(32 * Pow2(minLog2), sb, Pow2(minLog2));
      assert NarrowEnough(sb, minLog2);
    }
  }

  /** The positions set_one_boundary visits: start, start + step, ... up
      to end inclusive. */
  function Stride(start: int, end: int, step: int): (s: set<int>)
    requires step > 0
    ensures forall i :: i in s ==> start <= i <= end
    decreases end - start
  {
    if start > end then {} else {start} + Stride(start + step, end, step)
  }

  /** An entry after the walk: the boundary bits ORed in where visited. */
  function Marked(v: bv32, boundary: bv32, visited: bool): bv32
  {
    if visited then v | boundary else v
  }

  /** set_one_boundary: the entries from `start` to `end` (inclusive) in
      steps of `step` get the boundary bits ORed in; no other entry changes. */
  method SetOneBoundary(boundaryInfo: array<bv32>, start: int, end: int, step: int, boundary: bv32)
    requires step > 0 && 0 <= start
    requires start <= end ==> end < boundaryInfo.Length
    modifies boundaryInfo
    ensures forall i :: 0 <= i < boundaryInfo.Length ==>
      boundaryInfo[i] == Marked(old(boundaryInfo[i]), boundary, i in Stride(start, end, step))
  {
    ghost var orig := boundaryInfo[..];
    ghost var all := Stride(start, end, step);
    var p := start;
    while p <= end
      invariant start <= p && Stride(p, end, step) <= all
      invariant forall i :: 0 <= i < boundaryInfo.Length ==>
        boundaryInfo[i] == Marked(orig[i], boundary, i in all && i !in Stride(p, end, step))
      decreases end - p
    {
      assert Stride(p, end, step) == {p} + Stride(p + step, end, step);
      boundaryInfo[p] := boundaryInfo[p] | boundary;
      p := p + step;
    }
  }

  /** The visited positions are exactly those between start and end that
      lie a whole number of steps from start. */
  lemma {:induction false} StrideIsMultiples(start: int, end: int, step: int, i: int)
    requires step > 0
    ensures i in Stride(start, end, step) <==> start <= i <= end && (i - start) % step == 0
    decreases end - start
  {
    if start <= end {
      StrideIsMultiples(start + step, end, step, i);
      if start + step <= i {
        ModShift(i - start, step);
      } else if start < i {
        DivUnique(i - start, step, 0, i - start);
      }
    }
  }

  /** x and x - step leave the same remainder. */
  lemma ModShift(x: int, step: int)
    requires step > 0
    ensures (x - step) % step == x % step
  {
    var q := x / step;
    assert x == q * step + x % step;
    assert x - step == (q - 1) * step + x % step;
    DivUnique(x - step, step, q - 1, x % step);
  }

  /** av1_disable_loopfilter_on_tile_boundary: with loop filtering across
      tiles off, boundaries are protected exactly when there is more than
      one tile. */
  function DisableLoopfilterOnTileBoundary(loopFilterAcrossTilesEnabled: bool,
                                           tileCols: int, tileRows: int): (r: bool)
    requires tileCols >= 1 && tileRows >= 1
    ensures r <==> !loopFilterAcrossTilesEnabled && !(tileCols == 1 && tileRows == 1)
  {
    !loopFilterAcrossTilesEnabled && tileCols * tileRows > 1
  }
}
