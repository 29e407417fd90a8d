/** The deringing helpers of av1/common/dering.c: the per-block strength,
    the skip scan of a 64x64 superblock and the copy of filtered blocks
    back into the 8-bit frame. */
module Dering {
  import opened IntArith

  /** MAX_MIB_SIZE: 16 mode-info units per superblock side. */
  const MAX_MIB_SIZE: int := 16
  const DERING_REFINEMENT_LEVELS: int := 4
  const DeringGains: seq<int> := [0, 11, 16, 22]

  /** compute_level_from_index: the strength of refinement step gi, scaled
      from the frame level by the gain of that step and kept in
      [gi, MAX_DERING_LEVEL - 1]. MAX_DERING_LEVEL is a parameter. */
  function ComputeLevelFromIndex(globalLevel: int, gi: int, maxDeringLevel: int): (level: int)
    requires 0 <= gi < DERING_REFINEMENT_LEVELS && maxDeringLevel >= DERING_REFINEMENT_LEVELS
    ensures globalLevel == 0 ==> level == 0
    ensures globalLevel != 0 ==> gi <= level <= maxDeringLevel - 1
    ensures globalLevel != 0 && gi <= Shr(globalLevel * DeringGains[gi] + 8, 4) < maxDeringLevel
      ==> level * 16 <= globalLevel * DeringGains[gi] + 8 < (level + 1) * 16
  {
    if globalLevel == 0 then 0
    else Clamp(Shr(globalLevel * DeringGains[gi] + 8, 4), gi, maxDeringLevel - 1)
  }

  /** The first refinement step, whose gain is 0, always gets the lowest
      strength. */
  lemma FirstStepIsLowest(globalLevel: int, maxDeringLevel: int)
    requires maxDeringLevel >= DERING_REFINEMENT_LEVELS
    ensures ComputeLevelFromIndex(globalLevel, 0, maxDeringLevel) == 0
  {
    assert DeringGains[0] == 0;
    assert Pow2(4) == 16;
  }

  // ---------------------------------------------------------------------
  // Skip scan. The grid holds mbmi.skip of every visible mode-info unit,
  // row-major with stride miStride.

  /** The rows (or columns) of the superblock inside the frame: at most
      MAX_MIB_SIZE; negative when the superblock starts past the frame. */
  function Extent(total: int, start: int): (e: int)
    ensures e <= MAX_MIB_SIZE && (e == MAX_MIB_SIZE || e == total - start)
  {
    if total - start > MAX_MIB_SIZE then MAX_MIB_SIZE else total - start
  }

  /** The grid index of mode-info unit (miRow + r, miCol + c). */
  function Idx(miStride: int, miRow: int, miCol: int, r: int, c: int): int
  {
    (miRow + r) * miStride + miCol + c
  }

  /** Every unit the scan of a maxr x maxc superblock reads exists. */
  predicate GridCovers(grid: seq<bool>, miStride: int, miRow: int, miCol: int, maxr: int, maxc: int)
  {
    forall r, c :: 0 <= r < maxr && 0 <= c < maxc ==> 0 <= Idx(miStride, miRow, miCol, r, c) < |grid|
  }

  /** The skip flags of one superblock's units: flags[r][c] for unit (r, c). */
  datatype Superblock = Superblock(flags: seq<seq<bool>>)

  /** The superblock at (miRow, miCol) as the scans see it: its units inside
      the frame, read from the grid, which holds mbmi.skip of every visible
      mode-info unit row-major with stride miStride. */
  function View(grid: seq<bool>, miStride: int, miRow: int, miCol: int, maxr: int, maxc: int): Superblock
  {
    Superblock(seq(Max(maxr, 0), r => seq(Max(maxc, 0), c =>
      var k := Idx(miStride, miRow, miCol, r, c);
      if 0 <= k < |grid| then grid[k] else true)))
  }

  /** The skip flag of unit (r, c); units outside the superblock, which the
      scans never read, count as skipped. */
  function SkipAt(sb: Superblock, r: int, c: int): bool
  {
    if 0 <= r < |sb.flags| && 0 <= c < |sb.flags[r]| then sb.flags[r][c] else true
  }

  predicate AllSkip(sb: Superblock, maxr: int, maxc: int)
  {
    forall r, c :: 0 <= r < maxr && 0 <= c < maxc ==> SkipAt(sb, r, c)
  }

  /** sb_all_skip: whether every unit of the frame-clipped superblock is
      skipped. */
  method SbAllSkip(grid: seq<bool>, miRows: int, miCols: int, miStride: int, miRow: int, miCol: int)
    returns (skip: bool)
    requires GridCovers(grid, miStride, miRow, miCol, Extent(miRows, miRow), Extent(miCols, miCol))
    ensures var maxr, maxc := Extent(miRows, miRow), Extent(miCols, miCol);
      skip <==> AllSkip(View(grid, miStride, miRow, miCol, maxr, maxc), maxr, maxc)
  {
    var maxr, maxc := Extent(miRows, miRow), Extent(miCols, miCol);
    ghost var sb := View(grid, miStride, miRow, miCol, maxr, maxc);
    var rows, cols := Max(maxr, 0), Max(maxc, 0);
    skip := true;
    var r := 0;
    while r < maxr
      invariant 0 <= r <= rows
      invariant skip <==> AllSkip(sb, r, cols)
    {
      var c := 0;
      while c < maxc
        invariant 0 <= c <= cols
        invariant skip <==> AllSkip(sb, r, cols) && (forall c0 :: 0 <= c0 < c ==> SkipAt(sb, r, c0))
      {
        assert SkipAt(sb, r, c) == grid[Idx(miStride, miRow, miCol, r, c)];
        skip := skip && grid[(miRow + r) * miStride + miCol + c];
        c := c + 1;
      }
      r := r + 1;
    }
  }

  /** A listed unit: row and column inside the superblock. */
  datatype BlockPos = BlockPos(r: int, c: int)

  /** The non-skipped units (r, c') of row r with c' < c, left to right. */
  function RowNonSkip(sb: Superblock, r: int, c: int): seq<BlockPos>
    requires 0 <= c
  {
    if c == 0 then []
    else RowNonSkip(sb, r, c - 1) + (if SkipAt(sb, r, c - 1) then [] else [BlockPos(r, c - 1)])
  }

  /** The non-skipped units of the rows before r, in row-major order, for
      rows of cols units. */
  function Listed(sb: Superblock, cols: int, r: int): seq<BlockPos>
    requires 0 <= r && 0 <= cols
  {
    if r == 0 then [] else Listed(sb, cols, r - 1) + RowNonSkip(sb, r - 1, cols)
  }

  /** The list sb_all_skip_out produces. */
  function NonSkipList(sb: Superblock, maxr: int, maxc: int): seq<BlockPos>
  {
    Listed(sb, Max(maxc, 0), Max(maxr, 0))
  }

  /** sb_all_skip_out: lists the non-skipped units in row-major order in
      bskip, sets the count and reports whether there were none. */
  method SbAllSkipOut(grid: seq<bool>, miRows: int, miCols: int, miStride: int, miRow: int, miCol: int,
                      bskip: array<BlockPos>) returns (skip: bool, count: int)
    requires GridCovers(grid, miStride, miRow, miCol, Extent(miRows, miRow), Extent(miCols, miCol))
    requires bskip.Length >= MAX_MIB_SIZE * MAX_MIB_SIZE
    modifies bskip
    ensures 0 <= count <= bskip.Length
    ensures var maxr, maxc := Extent(miRows, miRow), Extent(miCols, miCol);
      bskip[..count] == NonSkipList(View(grid, miStride, miRow, miCol, maxr, maxc), maxr, maxc)
    ensures bskip[count..] == old(bskip[count..])
    ensures skip <==> count == 0
  {
    var maxr, maxc := Extent(miRows, miRow), Extent(miCols, miCol);
    ghost var sb := View(grid, miStride, miRow, miCol, maxr, maxc);
    var rows, cols := Max(maxr, 0), Max(maxc, 0);
    skip := true;
    count := 0;
    var r := 0;
    while r < maxr
      invariant 0 <= r <= rows
      invariant count == |Listed(sb, cols, r)| <= r * MAX_MIB_SIZE
      invariant bskip[..count] == Listed(sb, cols, r)
      invariant bskip[count..] == old(bskip[count..])
      invariant skip <==> count == 0
    {
      ghost var before := bskip[..count];
      ListedLength(sb, cols, r);
      RowLength(sb, r, cols);
      var next := ListRow(grid, miStride, miRow, miCol, maxr, maxc, r, bskip, count);
      assert bskip[..next] == before + RowNonSkip(sb, r, cols);
      if next != count {
        skip := false;
      }
      count := next;
      r := r + 1;
    }
  }

  /** The inner loop of sb_all_skip_out: the non-skipped units of row r are
      appended to bskip after the first `count` entries. */
  method ListRow(grid: seq<bool>, miStride: int, miRow: int, miCol: int, maxr: int, maxc: int, r: int,
                 bskip: array<BlockPos>, count: int) returns (next: int)
    requires GridCovers(grid, miStride, miRow, miCol, maxr, maxc) && 0 <= r < maxr
    requires 0 <= count && count + Max(maxc, 0) <= bskip.Length
    modifies bskip
    ensures count <= next <= count + Max(maxc, 0)
    ensures var row := RowNonSkip(View(grid, miStride, miRow, miCol, maxr, maxc), r, Max(maxc, 0));
      next == count + |row| && bskip[..next] == old(bskip[..count]) + row
    ensures bskip[next..] == old(bskip[next..])
  {
    ghost var sb := View(grid, miStride, miRow, miCol, maxr, maxc);
    next := count;
    var c := 0;
    while c < maxc
      invariant 0 <= c <= Max(maxc, 0)
      invariant next == count + |RowNonSkip(sb, r, c)| <= count + c
      invariant bskip[..next] == old(bskip[..count]) + RowNonSkip(sb, r, c)
      invariant bskip[next..] == old(bskip[next..])
    {
      assert SkipAt(sb, r, c) == grid[Idx(miStride, miRow, miCol, r, c)];
      if !grid[(miRow + r) * miStride + miCol + c] {
        bskip[next] := BlockPos(r, c);
        next := next + 1;
      }
      c := c + 1;
    }
  }

  /** A row lists at most its c units. */
  lemma {:induction false} RowLength(sb: Superblock, r: int, c: int)
    requires 0 <= c
    ensures |RowNonSkip(sb, r, c)| <= c
  {
    if c > 0 {
      RowLength(sb, r, c - 1);
    }
  }

  /** At most a superblock row of units is listed per row. */
  lemma {:induction false} ListedLength(sb: Superblock, cols: int, r: int)
    requires 0 <= r && 0 <= cols <= MAX_MIB_SIZE
    ensures |Listed(sb, cols, r)| <= r * MAX_MIB_SIZE
  {
    if r > 0 {
      ListedLength(sb, cols, r - 1);
      RowLength(sb, r - 1, cols);
    }
  }

  /** Every entry of a row's listing is a non-skipped unit of that row. */
  lemma {:induction false} RowAt(sb: Superblock, r: int, c: int, k: int)
    requires 0 <= c && 0 <= k < |RowNonSkip(sb, r, c)|
    ensures var p := RowNonSkip(sb, r, c)[k]; p.r == r && 0 <= p.c < c && !SkipAt(sb, p.r, p.c)
    decreases c
  {
    if k < |RowNonSkip(sb, r, c - 1)| {
      RowAt(sb, r, c - 1, k);
    }
  }

  /** Every entry of the listing is a non-skipped unit of the clipped
      superblock. */
  lemma {:induction false} ListedAt(sb: Superblock, cols: int, r: int, k: int)
    requires 0 <= r && 0 <= cols && 0 <= k < |Listed(sb, cols, r)|
    ensures var p := Listed(sb, cols, r)[k]; 0 <= p.r < r && 0 <= p.c < cols && !SkipAt(sb, p.r, p.c)
    decreases r
  {
    var s := Listed(sb, cols, r - 1);
    if k < |s| {
      ListedAt(sb, cols, r - 1, k);
    } else {
      RowAt(sb, r - 1, cols, k - |s|);
    }
  }

  /** Every non-skipped unit of the row is in its listing. */
  lemma {:induction false} RowComplete(sb: Superblock, r: int, c: int, p: BlockPos)
    requires 0 <= c && p.r == r && 0 <= p.c < c && !SkipAt(sb, p.r, p.c)
    ensures p in RowNonSkip(sb, r, c)
    decreases c
  {
    if p.c < c - 1 {
      RowComplete(sb, r, c - 1, p);
    }
  }

  /** Every non-skipped unit of the clipped superblock is listed. */
  lemma {:induction false} ListedComplete(sb: Superblock, cols: int, r: int, p: BlockPos)
    requires 0 <= r && 0 <= cols
    requires 0 <= p.r < r && 0 <= p.c < cols && !SkipAt(sb, p.r, p.c)
    ensures p in Listed(sb, cols, r)
    decreases r
  {
    var before, last := Listed(sb, cols, r - 1), RowNonSkip(sb, r - 1, cols);
    assert Listed(sb, cols, r) == before + last;
    if p.r < r - 1 {
      ListedComplete(sb, cols, r - 1, p);
      assert p in before;
    } else {
      RowComplete(sb, r - 1, cols, p);
      assert p in last;
    }
  }

  /** A unit is listed exactly when it lies in the clipped superblock and is
      not skipped. */
  lemma ListedMembers(sb: Superblock, cols: int, r: int, p: BlockPos)
    requires 0 <= r && 0 <= cols
    ensures p in Listed(sb, cols, r) <==> 0 <= p.r < r && 0 <= p.c < cols && !SkipAt(sb, p.r, p.c)
  {
    var l := Listed(sb, cols, r);
    if p in l {
      var k :| 0 <= k < |l| && l[k] == p;
      ListedAt(sb, cols, r, k);
    }
    if 0 <= p.r < r && 0 <= p.c < cols && !SkipAt(sb, p.r, p.c) {
      ListedComplete(sb, cols, r, p);
    }
  }

  /** Whole-superblock view: the list holds exactly the non-skipped units,
      so it is empty exactly when sb_all_skip holds. */
  lemma NonSkipListIsNonSkipped(sb: Superblock, maxr: int, maxc: int)
    ensures forall p :: p in NonSkipList(sb, maxr, maxc) <==>
      0 <= p.r < maxr && 0 <= p.c < maxc && !SkipAt(sb, p.r, p.c)
    ensures |NonSkipList(sb, maxr, maxc)| == 0 <==> AllSkip(sb, maxr, maxc)
  {
    forall p
      ensures p in NonSkipList(sb, maxr, maxc) <==> 0 <= p.r < maxr && 0 <= p.c < maxc && !SkipAt(sb, p.r, p.c)
    {
      ListedMembers(sb, Max(maxc, 0), Max(maxr, 0), p);
    }
    var l := NonSkipList(sb, maxr, maxc);
    if |l| > 0 {
      assert l[0] in l;
    }
    if !AllSkip(sb, maxr, maxc) {
      var r, c :| 0 <= r < maxr && 0 <= c < maxc && !SkipAt(sb, r, c);
      assert BlockPos(r, c) in l;
    }
  }

  /** Row-major order: p comes before q. */
  predicate Before(p: BlockPos, q: BlockPos)
  {
    p.r < q.r || (p.r == q.r && p.c < q.c)
  }

  predicate RowMajor(s: seq<BlockPos>)
  {
    forall a, b :: 0 <= a < b < |s| ==> Before(s[a], s[b])
  }

  lemma ConcatRowMajor(s: seq<BlockPos>, t: seq<BlockPos>)
    requires RowMajor(s) && RowMajor(t)
    requires forall a, b :: 0 <= a < |s| && 0 <= b < |t| ==> Before(s[a], t[b])
    ensures RowMajor(s + t)
  {
    forall a, b | 0 <= a < b < |s + t|
      ensures Before((s + t)[a], (s + t)[b])
    {
      if b < |s| {
        assert (s + t)[a] == s[a] && (s + t)[b] == s[b];
      } else if a < |s| {
        assert (s + t)[a] == s[a] && (s + t)[b] == t[b - |s|];
      } else {
        assert (s + t)[a] == t[a - |s|] && (s + t)[b] == t[b - |s|];
      }
    }
  }

  lemma {:induction false} RowNonSkipRowMajor(sb: Superblock, r: int, c: int)
    requires 0 <= c
    ensures RowMajor(RowNonSkip(sb, r, c))
  {
    if c > 0 {
      var s := RowNonSkip(sb, r, c - 1);
      var t := if SkipAt(sb, r, c - 1) then [] else [BlockPos(r, c - 1)];
      RowNonSkipRowMajor(sb, r, c - 1);
      forall a, b | 0 <= a < |s| && 0 <= b < |t|
        ensures Before(s[a], t[b])
      {
        RowAt(sb, r, c - 1, a);
      }
      ConcatRowMajor(s, t);
    }
  }

  /** The listing of sb_all_skip_out is strictly increasing in row-major
      order, so no unit is listed twice. */
  lemma {:induction false} ListedRowMajor(sb: Superblock, cols: int, r: int)
    requires 0 <= r && 0 <= cols
    ensures RowMajor(Listed(sb, cols, r))
  {
    if r > 0 {
      var s := Listed(sb, cols, r - 1);
      var t := RowNonSkip(sb, r - 1, cols);
      ListedRowMajor(sb, cols, r - 1);
      RowNonSkipRowMajor(sb, r - 1, cols);
      forall a, b | 0 <= a < |s| && 0 <= b < |t|
        ensures Before(s[a], t[b])
      {
        ListedAt(sb, cols, r - 1, a);
        RowAt(sb, r - 1, cols, b);
      }
      ConcatRowMajor(s, t);
    }
  }

  // ---------------------------------------------------------------------
  // Copying filtered 16-bit blocks back into the 8-bit frame.

  /** The store of an int16_t into a uint8_t: the value modulo 256. */
  function Byte(v: int): (b: int)
    ensures 0 <= b < 256 && (v - b) % 256 == 0
    ensures 0 <= v < 256 ==> b == v
  {
    v % 256
  }

  /** Position of entry (i, j) of a block at off with row stride stride. */
  function Pos(off: int, stride: int, i: int, j: int): int
  {
    off + i * stride + j
  }

  /** Every entry of an h x w block at off lies inside a buffer of length len. */
  predicate BlockInside(len: int, off: int, stride: int, h: int, w: int)
  {
    forall i, j :: 0 <= i < h && 0 <= j < w ==> 0 <= Pos(off, stride, i, j) < len
  }

  /** The positions of an n x n block. */
  function Square(off: int, stride: int, n: int): set<int>
  {
    set i, j | 0 <= i < n && 0 <= j < n :: Pos(off, stride, i, j)
  }

  /** Two distinct entries of rows narrower than the stride are at distinct
      positions. */
  lemma PosDistinct(off: int, stride: int, i0: int, j0: int, i1: int, j1: int)
    requires 0 <= j0 < stride && 0 <= j1 < stride && (i0 != i1 || j0 != j1)
    ensures Pos(off, stride, i0, j0) != Pos(off, stride, i1, j1)
  {
    if i0 < i1 {
      assert i1 * stride - i0 * stride == (i1 - i0) * stride;
      MulAtLeast(i1 - i0, stride);
    } else if i1 < i0 {
      assert i0 * stride - i1 * stride == (i0 - i1) * stride;
      MulAtLeast(i0 - i1, stride);
    }
  }

  /** copy_8x8_16_8bit (n = 8) and copy_4x4_16_8bit (n = 4): the n x n block
      of src goes to the n x n block of dst, each value stored as a byte;
      nothing else in dst changes. */
  method CopySquare(dst: array<int>, dOff: int, dstride: int, src: array<int>, sOff: int, sstride: int, n: int)
    requires dst != src && 0 <= n <= dstride
    requires BlockInside(dst.Length, dOff, dstride, n, n) && BlockInside(src.Length, sOff, sstride, n, n)
    modifies dst
    ensures forall i, j :: 0 <= i < n && 0 <= j < n ==>
      dst[Pos(dOff, dstride, i, j)] == Byte(src[Pos(sOff, sstride, i, j)])
    ensures forall k :: 0 <= k < dst.Length && k !in Square(dOff, dstride, n) ==> dst[k] == old(dst[k])
  {
    var i := 0;
    while i < n
      invariant 0 <= i <= n
      invariant forall i0, j0 :: 0 <= i0 < i && 0 <= j0 < n ==>
        dst[Pos(dOff, dstride, i0, j0)] == Byte(src[Pos(sOff, sstride, i0, j0)])
      invariant forall k :: 0 <= k < dst.Length && k !in Square(dOff, dstride, n) ==> dst[k] == old(dst[k])
    {
      var j := 0;
      while j < n
        invariant 0 <= j <= n
        invariant forall i0, j0 :: 0 <= i0 < i && 0 <= j0 < n ==>
          dst[Pos(dOff, dstride, i0, j0)] == Byte(src[Pos(sOff, sstride, i0, j0)])
        invariant forall j0 :: 0 <= j0 < j ==>
          dst[Pos(dOff, dstride, i, j0)] == Byte(src[Pos(sOff, sstride, i, j0)])
        invariant forall k :: 0 <= k < dst.Length && k !in Square(dOff, dstride, n) ==> dst[k] == old(dst[k])
      {
        forall i0, j0 | 0 <= i0 <= i && 0 <= j0 < n && (i0 < i || j0 < j)
          ensures Pos(dOff, dstride, i0, j0) != Pos(dOff, dstride, i, j)
        {
          PosDistinct(dOff, dstride, i0, j0, i, j);
        }
        assert Pos(dOff, dstride, i, j) in Square(dOff, dstride, n);
        dst[Pos(dOff, dstride, i, j)] := Byte(src[Pos(sOff, sstride, i, j)]);
        j := j + 1;
      }
      i := i + 1;
    }
  }

  /** Top-left position in dst of listed block b for n x n blocks. */
  function BlockOrigin(b: BlockPos, n: int, dstride: int): int
  {
    b.r * n * dstride + b.c * n
  }

  /** Every listed block lies inside its row of dst and inside dst, and its
      filtered copy (block bi, stride sstride) lies inside src. */
  predicate BlocksInside(dstLen: int, dstride: int, srcLen: int, bskip: seq<BlockPos>, count: int,
                         n: int, bsize: nat)
    requires 0 <= count <= |bskip|
  {
    forall bi :: 0 <= bi < count ==>
      0 <= bskip[bi].r && 0 <= bskip[bi].c && bskip[bi].c * n + n <= dstride
      && BlockInside(dstLen, BlockOrigin(bskip[bi], n, dstride), dstride, n, n)
      && BlockInside(srcLen, bi * Pow2(2 * bsize), Pow2(bsize), n, n)
  }

  /** Block bi is the last listing of its position among the first count. */
  predicate LastListing(bskip: seq<BlockPos>, bi: int, count: int)
    requires 0 <= bi < count <= |bskip|
  {
    forall bj :: bi < bj < count ==> bskip[bj] != bskip[bi]
  }

  /** Position k of dst is in none of the first count listed blocks. */
  predicate OutsideBlocks(k: int, bskip: seq<BlockPos>, count: int, n: int, dstride: int)
    requires 0 <= count <= |bskip|
  {
    forall bi :: 0 <= bi < count ==> k !in Square(BlockOrigin(bskip[bi], n, dstride), dstride, n)
  }

  /** Pixels of blocks at different positions never coincide. */
  lemma BlocksApart(b0: BlockPos, b1: BlockPos, n: int, dstride: int, i0: int, j0: int, i1: int, j1: int)
    requires b0 != b1 && n > 0 && 0 <= b0.c && 0 <= b1.c
    requires b0.c * n + n <= dstride && b1.c * n + n <= dstride
    requires 0 <= i0 < n && 0 <= j0 < n && 0 <= i1 < n && 0 <= j1 < n
    ensures Pos(BlockOrigin(b0, n, dstride), dstride, i0, j0) != Pos(BlockOrigin(b1, n, dstride), dstride, i1, j1)
  {
    assert Pos(BlockOrigin(b0, n, dstride), dstride, i0, j0) == Pos(0, dstride, b0.r * n + i0, b0.c * n + j0) by {
      assert (b0.r * n + i0) * dstride == b0.r * n * dstride + i0 * dstride;
    }
    assert Pos(BlockOrigin(b1, n, dstride), dstride, i1, j1) == Pos(0, dstride, b1.r * n + i1, b1.c * n + j1) by {
      assert (b1.r * n + i1) * dstride == b1.r * n * dstride + i1 * dstride;
    }
    if b0.r != b1.r {
      if b0.r * n + i0 == b1.r * n + i1 {
        DivUnique(b0.r * n + i0, n, b0.r, i0);
        DivUnique(b1.r * n + i1, n, b1.r, i1);
      }
    } else {
      if b0.c * n + j0 == b1.c * n + j1 {
        DivUnique(b0.c * n + j0, n, b0.c, j0);
        DivUnique(b1.c * n + j1, n, b1.c, j1);
      }
    }
    PosDistinct(0, dstride, b0.r * n + i0, b0.c * n + j0, b1.r * n + i1, b1.c * n + j1);
  }

  /** The pixels of a block whose last listing comes before bi lie outside
      block bi. */
  lemma EarlierBlocksApart(dstLen: int, dstride: int, srcLen: int, bskip: seq<BlockPos>, count: int,
                           n: int, bsize: nat, bi: int)
    requires 0 <= bi < count <= |bskip| && n > 0
    requires BlocksInside(dstLen, dstride, srcLen, bskip, count, n, bsize)
    ensures forall b, i, j :: 0 <= b < bi && LastListing(bskip, b, bi + 1) && 0 <= i < n && 0 <= j < n ==>
      Pos(BlockOrigin(bskip[b], n, dstride), dstride, i, j) !in Square(BlockOrigin(bskip[bi], n, dstride), dstride, n)
  {
    forall b, i, j | 0 <= b < bi && LastListing(bskip, b, bi + 1) && 0 <= i < n && 0 <= j < n
      ensures Pos(BlockOrigin(bskip[b], n, dstride), dstride, i, j) !in Square(BlockOrigin(bskip[bi], n, dstride), dstride, n)
    {
      forall i1, j1 | 0 <= i1 < n && 0 <= j1 < n
        ensures Pos(BlockOrigin(bskip[b], n, dstride), dstride, i, j) != Pos(BlockOrigin(bskip[bi], n, dstride), dstride, i1, j1)
      {
        BlocksApart(bskip[b], bskip[bi], n, dstride, i, j, i1, j1);
      }
    }
  }

  /** copy_blocks_16_8bit: for each of the first count listed blocks, the
      8x8 (bsize 3) or 4x4 (otherwise) filtered block bi, stored at
      src + (bi << 2 * bsize) with stride 1 << bsize, is written as bytes at
      its place in dst. Only listed blocks change; a block listed twice ends
      with its last copy. */
  method CopyBlocks(dst: array<int>, dstride: int, src: array<int>, bskip: seq<BlockPos>, count: int, bsize: nat)
    requires dst != src && 0 <= count <= |bskip|
    requires BlocksInside(dst.Length, dstride, src.Length, bskip, count, if bsize == 3 then 8 else 4, bsize)
    modifies dst
    ensures var n := if bsize == 3 then 8 else 4;
      forall k :: 0 <= k < dst.Length && OutsideBlocks(k, bskip, count, n, dstride) ==> dst[k] == old(dst[k])
    ensures var n := if bsize == 3 then 8 else 4;
      forall bi, i, j :: 0 <= bi < count && LastListing(bskip, bi, count) && 0 <= i < n && 0 <= j < n ==>
        dst[Pos(BlockOrigin(bskip[bi], n, dstride), dstride, i, j)] == Byte(src[Pos(bi * Pow2(2 * bsize), Pow2(bsize), i, j)])
  {
    var n := if bsize == 3 then 8 else 4;
    var bi := 0;
    while bi < count
      invariant 0 <= bi <= count
      invariant forall k :: 0 <= k < dst.Length && OutsideBlocks(k, bskip, bi, n, dstride) ==> dst[k] == old(dst[k])
      invariant forall b, i, j :: 0 <= b < bi && LastListing(bskip, b, bi) && 0 <= i < n && 0 <= j < n ==>
        dst[Pos(BlockOrigin(bskip[b], n, dstride), dstride, i, j)] == Byte(src[Pos(b * Pow2(2 * bsize), Pow2(bsize), i, j)])
    {
      ghost var d0 := dst[..];
      var origin := BlockOrigin(bskip[bi], n, dstride);
      CopySquare(dst, origin, dstride, src, bi * Pow2(2 * bsize), Pow2(bsize), n);
      EarlierBlocksApart(dst.Length, dstride, src.Length, bskip, count, n, bsize, bi);
      forall k | 0 <= k < dst.Length && OutsideBlocks(k, bskip, bi + 1, n, dstride)
        ensures dst[k] == old(dst[k])
      {
        assert k !in Square(origin, dstride, n) && OutsideBlocks(k, bskip, bi, n, dstride);
      }
      forall b, i, j | 0 <= b < bi && LastListing(bskip, b, bi + 1) && 0 <= i < n && 0 <= j < n
        ensures dst[Pos(BlockOrigin(bskip[b], n, dstride), dstride, i, j)]
             == Byte(src[Pos(b * Pow2(2 * bsize), Pow2(bsize), i, j)])
      {
        assert LastListing(bskip, b, bi);
      }
      bi := bi + 1;
    }
  }
}
