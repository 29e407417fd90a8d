/** The multi-layer golden-frame (GF) group of the AV1 encoder
    (av1/encoder/gop_structure.c): a group of `gf_interval` frames is laid
    out in coding order as a pyramid of alt-reference frames (ARFs), their
    overlays and the leaf frames between them; then each frame is given the
    GOP indices of the frames it may reference.

    The C struct GF_GROUP keeps one fixed-size array per frame attribute.
    Here the six attributes written together by the layout are one record
    (`FrameParams`) per entry of a single array; the reference maps are 2-D
    arrays with one row per frame. */
module GopStructure {

  const MIN_PYRAMID_LVL: int := 0
  const MAX_PYRAMID_LVL: int := 4

  // Reference frame names (MV_REFERENCE_FRAME) and their slot numbers
  const LAST_FRAME: int := 1
  const GOLDEN_FRAME: int := 4
  const BWDREF_FRAME: int := 5
  const ALTREF2_FRAME: int := 6
  const ALTREF_FRAME: int := 7
  const INTER_REFS_PER_FRAME: int := 7

  /** The lst_queue of set_gop_ref_frame_map holds at most this many entries. */
  const LST_QUEUE_MAX: int := 3

  /** REF_IDX(ref): the slot of a named reference in a per-frame row. */
  function RefIdx(ref: int): int
  {
    ref - LAST_FRAME
  }

  /** FRAME_UPDATE_TYPE as this file knows it (seven types). */
  datatype UpdateType =
    | KfUpdate
    | LfUpdate
    | GfUpdate
    | ArfUpdate
    | OverlayUpdate
    | IntnlOverlayUpdate
    | IntnlArfUpdate

  predicate IsArf(t: UpdateType)
  {
    t == ArfUpdate || t == IntnlArfUpdate
  }

  /** One entry of the group: update_type, arf_src_offset, arf_pos_in_gf,
      arf_update_idx, frame_disp_idx and pyramid_level at the same index. */
  datatype FrameParams = FrameParams(
    updateType: UpdateType,
    arfSrcOffset: int,
    arfPosInGf: int,
    arfUpdateIdx: int,
    frameDispIdx: int,
    pyramidLevel: int)

  // ---------------------------------------------------------------------
  // The layout, as a function of the interval being filled
  // ---------------------------------------------------------------------

  function LeafFrame(disp: int, arfInd: int): FrameParams
  {
    FrameParams(LfUpdate, 0, 0, arfInd, disp, MIN_PYRAMID_LVL)
  }

  /** The leaf frames start+1 .. end-1, in display order. */
  function Leaves(start: int, end: int, arfInd: int): (es: seq<FrameParams>)
    requires start < end
    ensures |es| == end - start - 1
  {
    seq(end - start - 1, i => LeafFrame(start + 1 + i, arfInd))
  }

  lemma LeafAt(start: int, end: int, arfInd: int, i: int)
    requires start < end && 0 <= i < end - start - 1
    ensures Leaves(start, end, arfInd)[i] == LeafFrame(start + 1 + i, arfInd)
  {
  }

  /** The internal ARF for the middle frame m of an interval from `start`. */
  function ArfEntry(start: int, m: int, level: int): FrameParams
  {
    FrameParams(IntnlArfUpdate, m - start - 1, 0, 1, m, level)
  }

  /** The overlay showing frame m, whose internal ARF sits at `arfPos`. */
  function OverlayEntry(arfPos: int, m: int): FrameParams
  {
    FrameParams(IntnlOverlayUpdate, 0, arfPos, 1, m, MIN_PYRAMID_LVL)
  }

  /** The entries set_multi_layer_params writes for the frames strictly
      between `start` and `end`, the first of them at group position `pos`.
      A level-0 interval, or one of fewer than three frames, is all leaves;
      otherwise the middle frame m becomes an internal ARF, coded first,
      followed by the left half, the ARF's overlay and the right half. */
  function Layout(start: int, end: int, pos: int, arfInd: int, level: int): seq<FrameParams>
    requires 0 <= start < end && MIN_PYRAMID_LVL <= level
    decreases end - start
  {
    var n := end - start - 1;
    if level == MIN_PYRAMID_LVL || n < 3 then Leaves(start, end, arfInd)
    else
      var m := (start + end) / 2;
      var left := Layout(start, m, pos + 1, 1, level - 1);
      [ArfEntry(start, m, level)] + left + [OverlayEntry(pos, m)]
      + Layout(m, end, pos + 2 + |left|, arfInd, level - 1)
  }

  /** The display indices of the entries that show a frame (leaves and
      internal overlays), in coding order. */
  function Displayed(es: seq<FrameParams>): seq<int>
  {
    if es == [] then []
    else if es[0].updateType == LfUpdate || es[0].updateType == IntnlOverlayUpdate
    then [es[0].frameDispIdx] + Displayed(es[1..])
    else Displayed(es[1..])
  }

  /** lo, lo+1, ..., hi-1 */
  function Range(lo: int, hi: int): (r: seq<int>)
    requires lo <= hi
    ensures |r| == hi - lo
  {
    seq(hi - lo, i => lo + i)
  }

  lemma {:induction false} DisplayedAppend(a: seq<FrameParams>, b: seq<FrameParams>)
    ensures Displayed(a + b) == Displayed(a) + Displayed(b)
  {
    if a != [] {
      assert (a + b)[0] == a[0];
      assert (a + b)[1..] == a[1..] + b;
      DisplayedAppend(a[1..], b);
    } else {
      assert a + b == b;
    }
  }

  lemma {:induction false} DisplayedLeaves(start: int, end: int, arfInd: int)
    requires start < end
    ensures Displayed(Leaves(start, end, arfInd)) == Range(start + 1, end)
    decreases end - start
  {
    var es := Leaves(start, end, arfInd);
    if end - start - 1 > 0 {
      assert es[0] == LeafFrame(start + 1, arfInd);
      assert es[1..] == Leaves(start + 1, end, arfInd);
      DisplayedLeaves(start + 1, end, arfInd);
      assert [start + 1] + Range(start + 2, end) == Range(start + 1, end);
    }
  }

  /** Every frame strictly between start and end is shown exactly once,
      and the shown frames come out in display order. */
  lemma {:induction false} LayoutShowsInOrder(start: int, end: int, pos: int, arfInd: int, level: int)
    requires 0 <= start < end && MIN_PYRAMID_LVL <= level
    ensures Displayed(Layout(start, end, pos, arfInd, level)) == Range(start + 1, end)
    decreases end - start
  {
    var n := end - start - 1;
    if n == 0 {
    } else if level == MIN_PYRAMID_LVL || n < 3 {
      DisplayedLeaves(start, end, arfInd);
    } else {
      var m := (start + end) / 2;
      var left := Layout(start, m, pos + 1, 1, level - 1);
      var right := Layout(m, end, pos + 2 + |left|, arfInd, level - 1);
      LayoutShowsInOrder(start, m, pos + 1, 1, level - 1);
      LayoutShowsInOrder(m, end, pos + 2 + |left|, arfInd, level - 1);
      ShowsSplit(start, end, pos, arfInd, level, m, left, right);
    }
  }

  /** The induction step of LayoutShowsInOrder: an internal ARF interval
      shows its frames in order when both halves do. */
  lemma ShowsSplit(start: int, end: int, pos: int, arfInd: int, level: int, m: int,
                   left: seq<FrameParams>, right: seq<FrameParams>)
    requires 0 <= start && end - start - 1 >= 3 && MIN_PYRAMID_LVL < level && m == (start + end) / 2
    requires left == Layout(start, m, pos + 1, 1, level - 1)
    requires right == Layout(m, end, pos + 2 + |left|, arfInd, level - 1)
    requires Displayed(left) == Range(start + 1, m) && Displayed(right) == Range(m + 1, end)
    ensures Displayed(Layout(start, end, pos, arfInd, level)) == Range(start + 1, end)
  {
    assert Layout(start, end, pos, arfInd, level) == [ArfEntry(start, m, level)] + left + [OverlayEntry(pos, m)] + right;
    DisplayedSplit(ArfEntry(start, m, level), left, OverlayEntry(pos, m), right, start + 1, m, end);
  }

  /** An ARF, the frames before it, its overlay and the frames after it
      show the whole interval in order. */
  lemma DisplayedSplit(arf: FrameParams, left: seq<FrameParams>, ovl: FrameParams,
                       right: seq<FrameParams>, lo: int, m: int, hi: int)
    requires lo <= m < hi
    requires arf.updateType == IntnlArfUpdate
    requires ovl.updateType == IntnlOverlayUpdate && ovl.frameDispIdx == m
    requires Displayed(left) == Range(lo, m) && Displayed(right) == Range(m + 1, hi)
    ensures Displayed([arf] + left + [ovl] + right) == Range(lo, hi)
  {
    DisplayedAppend([arf] + left + [ovl], right);
    DisplayedAppend([arf] + left, [ovl]);
    DisplayedAppend([arf], left);
    assert Displayed([arf]) == [] by {
      assert [arf][1..] == [];
    }
    assert Displayed([ovl]) == [m] by {
      assert [ovl][1..] == [];
    }
    RangeSplit(lo, m, hi);
  }

  lemma RangeSplit(lo: int, m: int, hi: int)
    requires lo <= m < hi
    ensures Range(lo, m) + [m] + Range(m + 1, hi) == Range(lo, hi)
  {
    var r := Range(lo, m) + [m] + Range(m + 1, hi);
    assert |r| == hi - lo;
    forall i | 0 <= i < hi - lo
      ensures r[i] == lo + i
    {
      if i < m - lo {
      } else if i == m - lo {
      } else {
        assert r[i] == Range(m + 1, hi)[i - (m - lo) - 1];
      }
    }
  }

  /** Each shown frame takes one entry and each internal ARF one more, and
      there are fewer ARFs than shown frames: n <= |layout| <= 2n - 1 for
      n > 0 frames. */
  lemma {:induction false} LayoutSize(start: int, end: int, pos: int, arfInd: int, level: int)
    requires 0 <= start < end && MIN_PYRAMID_LVL <= level
    ensures var n := end - start - 1;
      var es := Layout(start, end, pos, arfInd, level);
      n <= |es| && (n == 0 ==> |es| == 0) && (n > 0 ==> |es| <= 2 * n - 1)
    decreases end - start
  {
    var n := end - start - 1;
    if n > 0 && level != MIN_PYRAMID_LVL && n >= 3 {
      var m := (start + end) / 2;
      var left := Layout(start, m, pos + 1, 1, level - 1);
      LayoutSize(start, m, pos + 1, 1, level - 1);
      LayoutSize(m, end, pos + 2 + |left|, arfInd, level - 1);
    }
  }

  /** Every internal overlay records in arf_pos_in_gf the group position of
      an earlier internal ARF that shows the same frame. */
  ghost predicate OverlaysPaired(es: seq<FrameParams>, pos: int)
  {
    forall j :: 0 <= j < |es| ==> PairedAt(es, pos, j)
  }

  /** Entry j of es, placed from group position pos on, is not an internal
      overlay, or is one whose ARF comes earlier and shows the same frame. */
  ghost predicate PairedAt(es: seq<FrameParams>, pos: int, j: int)
    requires 0 <= j < |es|
  {
    es[j].updateType == IntnlOverlayUpdate ==>
      pos <= es[j].arfPosInGf < pos + j
      && es[es[j].arfPosInGf - pos].updateType == IntnlArfUpdate
      && es[es[j].arfPosInGf - pos].frameDispIdx == es[j].frameDispIdx
  }

  lemma {:induction false} LayoutOverlaysPaired(start: int, end: int, pos: int, arfInd: int, level: int)
    requires 0 <= start < end && MIN_PYRAMID_LVL <= level
    ensures OverlaysPaired(Layout(start, end, pos, arfInd, level), pos)
    decreases end - start
  {
    var n := end - start - 1;
    if n == 0 {
    } else if level == MIN_PYRAMID_LVL || n < 3 {
      var es := Leaves(start, end, arfInd);
      forall j | 0 <= j < |es|
        ensures es[j].updateType == LfUpdate
      {
        LeafAt(start, end, arfInd, j);
      }
    } else {
      var m := (start + end) / 2;
      var left := Layout(start, m, pos + 1, 1, level - 1);
      var right := Layout(m, end, pos + 2 + |left|, arfInd, level - 1);
      var arf := ArfEntry(start, m, level);
      var ovl := OverlayEntry(pos, m);
      assert Layout(start, end, pos, arfInd, level) == [arf] + left + [ovl] + right;
      LayoutOverlaysPaired(start, m, pos + 1, 1, level - 1);
      LayoutOverlaysPaired(m, end, pos + 2 + |left|, arfInd, level - 1);
      PairedSplit(arf, left, ovl, right, pos);
    }
  }

  lemma PairedSplit(arf: FrameParams, left: seq<FrameParams>, ovl: FrameParams,
                    right: seq<FrameParams>, pos: int)
    requires arf.updateType == IntnlArfUpdate
    requires ovl.updateType == IntnlOverlayUpdate && ovl.arfPosInGf == pos
    requires ovl.frameDispIdx == arf.frameDispIdx
    requires OverlaysPaired(left, pos + 1) && OverlaysPaired(right, pos + 2 + |left|)
    ensures OverlaysPaired([arf] + left + [ovl] + right, pos)
  {
    var es := [arf] + left + [ovl] + right;
    forall j | 0 <= j < |es|
      ensures PairedAt(es, pos, j)
    {
      if j == 0 {
        assert es[0] == arf;
      } else if j <= |left| {
        PairedInPart([arf], left, [ovl] + right, es, pos, j);
      } else if j == |left| + 1 {
        assert es[j] == ovl;
        assert es[0] == arf;
      } else {
        PairedInPart([arf] + left + [ovl], right, [], es, pos, j);
      }
    }
  }

  /** An entry of `part` that is paired within `part` stays paired once
      `part` is placed after `pre`. */
  lemma PairedInPart(pre: seq<FrameParams>, part: seq<FrameParams>, post: seq<FrameParams>,
                     es: seq<FrameParams>, pos: int, j: int)
    requires es == pre + part + post && OverlaysPaired(part, pos + |pre|)
    requires |pre| <= j < |pre| + |part|
    ensures PairedAt(es, pos, j)
  {
    var k := j - |pre|;
    assert es[j] == part[k];
    assert PairedAt(part, pos + |pre|, k);
    if part[k].updateType == IntnlOverlayUpdate {
      var a := part[k].arfPosInGf - (pos + |pre|);
      assert es[a + |pre|] == part[a];
    }
  }

  // ---------------------------------------------------------------------
  // Pyramid height
  // ---------------------------------------------------------------------

  /** max_pyramid_height_from_width: the number of ARF levels a group of
      the given width can hold. */
  function MaxPyramidHeightFromWidth(pyramidWidth: int): (h: int)
    ensures MIN_PYRAMID_LVL <= h <= MAX_PYRAMID_LVL
    ensures pyramidWidth <= 1 <==> h == 0
  {
    if pyramidWidth > 12 then 4
    else if pyramidWidth > 6 then 3
    else if pyramidWidth > 3 then 2
    else if pyramidWidth > 1 then 1
    else 0
  }

  /** A wider group never gets a lower pyramid. */
  lemma MaxPyramidHeightMonotone(w1: int, w2: int)
    requires w1 <= w2
    ensures MaxPyramidHeightFromWidth(w1) <= MaxPyramidHeightFromWidth(w2)
  {
  }

  // ---------------------------------------------------------------------
  // The array-backed stack and bounded queue
  // ---------------------------------------------------------------------

  /** The array after stack_pop with the given size: entries 1..size-1
      move down by one; the rest stay. */
  function Popped(s: seq<int>, size: int): (t: seq<int>)
    requires 1 <= |s| && size <= |s|
    ensures |t| == |s|
  {
    if size >= 1 then s[1..size] + s[size - 1..] else s
  }

  /** The array after stack_push with the given size: the new item at 0,
      the first `size` entries moved up by one, the rest kept. */
  function Pushed(s: seq<int>, item: int, size: int): (t: seq<int>)
    requires 1 <= |s| && size < |s|
    ensures |t| == |s|
  {
    var k := if size >= 0 then size else 0;
    [item] + s[..k] + s[k + 1..]
  }

  /** stack_pop: returns the top (index 0) and shifts the rest down. */
  method StackPop(stack: array<int>, size: int) returns (r: int, newSize: int)
    requires 1 <= stack.Length && size <= stack.Length
    modifies stack
    ensures r == old(stack[0]) && newSize == size - 1
    ensures stack[..] == Popped(old(stack[..]), size)
  {
    r := stack[0];
    var idx := 1;
    while idx < size
      invariant 1 <= idx <= (if size >= 1 then size else 1)
      invariant forall j :: 0 <= j < stack.Length ==>
        stack[j] == if j < idx - 1 then old(stack[j + 1]) else old(stack[j])
    {
      stack[idx - 1] := stack[idx];
      idx := idx + 1;
    }
    assert forall j :: 0 <= j < stack.Length ==> stack[j] == Popped(old(stack[..]), size)[j];
    newSize := size - 1;
  }

  /** stack_push: shifts the first `size` entries up and puts the item on top. */
  method StackPush(stack: array<int>, newItem: int, size: int) returns (newSize: int)
    requires 1 <= stack.Length && size < stack.Length
    modifies stack
    ensures newSize == size + 1
    ensures stack[..] == Pushed(old(stack[..]), newItem, size)
  {
    var idx := size;
    while idx > 0
      invariant (size >= 0 ==> 0 <= idx <= size) && (size < 0 ==> idx == size)
      invariant forall j :: 0 <= j < stack.Length ==>
        stack[j] == if idx < j <= size then old(stack[j - 1]) else old(stack[j])
    {
      stack[idx] := stack[idx - 1];
      idx := idx - 1;
    }
    stack[0] := newItem;
    newSize := size + 1;
  }

  /** Pushing then popping gives back the item and restores the live
      entries below it. */
  lemma PopAfterPush(s: seq<int>, item: int, size: int)
    requires 0 <= size < |s|
    ensures Pushed(s, item, size)[0] == item
    ensures Popped(Pushed(s, item, size), size + 1)[..size] == s[..size]
  {
    var p := Pushed(s, item, size);
    assert p[1..size + 1] == s[..size];
  }

  /** queue_enqueue's effect: the new array, the returned value (-1 when
      nothing falls out) and the new size. */
  datatype Enqueue = Enqueue(contents: seq<int>, dequeued: int, newSize: int)

  function Enqueued(s: seq<int>, item: int, size: int, maxSize: int): (e: Enqueue)
    requires 1 <= maxSize <= |s| && 0 <= size <= maxSize
    ensures |e.contents| == |s|
  {
    if size < maxSize then Enqueue(s[size := item], -1, size + 1)
    else Enqueue(s[1..maxSize] + [item] + s[maxSize..], s[0], size)
  }

  /** queue_enqueue: appends below capacity; at capacity drops the oldest
      entry, returns it, and appends. */
  method QueueEnqueue(queue: array<int>, newItem: int, size: int, maxSize: int)
    returns (dequeued: int, newSize: int)
    requires 1 <= maxSize <= queue.Length && 0 <= size <= maxSize
    modifies queue
    ensures queue[..] == Enqueued(old(queue[..]), newItem, size, maxSize).contents
    ensures dequeued == Enqueued(old(queue[..]), newItem, size, maxSize).dequeued
    ensures newSize == Enqueued(old(queue[..]), newItem, size, maxSize).newSize
  {
    if size < maxSize {
      queue[size] := newItem;
      return -1, size + 1;
    }
    dequeued := queue[0];
    var idx := 1;
    while idx < maxSize
      invariant 1 <= idx <= maxSize
      invariant forall j :: 0 <= j < queue.Length ==>
        queue[j] == if j < idx - 1 then old(queue[j + 1]) else old(queue[j])
    {
      queue[idx - 1] := queue[idx];
      idx := idx + 1;
    }
    queue[maxSize - 1] := newItem;
    newSize := size;
  }

  /** The queue keeps its most recent entries in arrival order: the live
      part grows by the new item, losing its oldest entry (which is
      returned) only when it was full. */
  lemma EnqueueKeepsNewest(s: seq<int>, item: int, size: int, maxSize: int)
    requires 1 <= maxSize <= |s| && 0 <= size <= maxSize
    ensures var e := Enqueued(s, item, size, maxSize);
      e.newSize == (if size < maxSize then size + 1 else maxSize)
      && e.contents[..e.newSize]
         == (if size < maxSize then s[..size] + [item] else s[1..size] + [item])
      && e.dequeued == (if size < maxSize then -1 else s[0])
  {
    var e := Enqueued(s, item, size, maxSize);
    if size < maxSize {
      assert e.contents[..size + 1] == s[..size] + [item];
    } else {
      assert e.contents[..maxSize] == s[1..size] + [item];
    }
  }

  // ---------------------------------------------------------------------
  // Pyramid node counts
  // ---------------------------------------------------------------------

  /** An entry counted in pyramid_lvl_nodes[l]: a leaf or an internal ARF
      of that level (overlays are not nodes). */
  predicate IsNode(e: FrameParams, l: int)
  {
    (e.updateType == LfUpdate || e.updateType == IntnlArfUpdate) && e.pyramidLevel == l
  }

  function CountNodes(es: seq<FrameParams>, l: int): (c: nat)
    ensures c <= |es|
  {
    if es == [] then 0 else (if IsNode(es[0], l) then 1 else 0) + CountNodes(es[1..], l)
  }

  lemma {:induction false} CountNodesAppend(a: seq<FrameParams>, b: seq<FrameParams>, l: int)
    ensures CountNodes(a + b, l) == CountNodes(a, l) + CountNodes(b, l)
  {
    if a != [] {
      assert (a + b)[0] == a[0];
      assert (a + b)[1..] == a[1..] + b;
      CountNodesAppend(a[1..], b, l);
    } else {
      assert a + b == b;
    }
  }

  /** The leaves of an interval are all level-0 nodes. */
  lemma {:induction false} CountLeaves(start: int, end: int, arfInd: int, l: int)
    requires start < end
    ensures CountNodes(Leaves(start, end, arfInd), l)
            == if l == MIN_PYRAMID_LVL then end - start - 1 else 0
    decreases end - start
  {
    var es := Leaves(start, end, arfInd);
    if end - start - 1 > 0 {
      LeafAt(start, end, arfInd, 0);
      assert es[1..] == Leaves(start + 1, end, arfInd);
      CountLeaves(start + 1, end, arfInd, l);
    }
  }

  // ---------------------------------------------------------------------
  // The whole group
  // ---------------------------------------------------------------------

  /** Entries before the recursive layout: the first frame and, with a
      pyramid, the top ARF. */
  function HeadLength(pyrHeight: int): int
  {
    if pyrHeight > 0 then 2 else 1
  }

  function NextHeight(pyrHeight: int): int
  {
    if pyrHeight > 0 then pyrHeight - 1 else pyrHeight
  }

  /** The frame after the group's first frame: the ARF showing frame
      gf_interval, at the top level. */
  function TopArf(gfInterval: int, pyrHeight: int): FrameParams
  {
    FrameParams(ArfUpdate, gfInterval - 1, 0, 0, gfInterval, pyrHeight)
  }

  function RestLayout(gfInterval: int, pyrHeight: int): seq<FrameParams>
    requires gfInterval >= 1 && pyrHeight >= MIN_PYRAMID_LVL
  {
    Layout(0, gfInterval, HeadLength(pyrHeight), 0, NextHeight(pyrHeight))
  }

  /** What construct_multi_layer_gf_structure writes, given the display
      index already stored in entry 0 (which it leaves alone). */
  function GroupLayout(gfInterval: int, pyrHeight: int, first: UpdateType, disp0: int): seq<FrameParams>
    requires gfInterval >= 1 && pyrHeight >= MIN_PYRAMID_LVL
  {
    [FrameParams(first, 0, 0, 0, disp0, MIN_PYRAMID_LVL)]
    + (if pyrHeight > 0 then [TopArf(gfInterval, pyrHeight)] else [])
    + RestLayout(gfInterval, pyrHeight)
  }

  /** The group starts with its first frame, then (with a pyramid) the ARF
      for frame gf_interval; after them, frames 1 .. gf_interval-1 are each
      shown once, in display order; the group has at most 2*gf_interval
      entries. */
  lemma GroupLayoutShape(gfInterval: int, pyrHeight: int, first: UpdateType, disp0: int)
    requires gfInterval >= 1 && pyrHeight >= MIN_PYRAMID_LVL
    ensures var es := GroupLayout(gfInterval, pyrHeight, first, disp0);
      |es| <= 2 * gfInterval
      && es[0].updateType == first
      && (pyrHeight > 0 ==>
            es[1].updateType == ArfUpdate
            && es[1].arfSrcOffset == gfInterval - 1
            && es[1].frameDispIdx == gfInterval)
      && Displayed(es[HeadLength(pyrHeight)..]) == Range(1, gfInterval)
  {
    var es := GroupLayout(gfInterval, pyrHeight, first, disp0);
    LayoutSize(0, gfInterval, HeadLength(pyrHeight), 0, NextHeight(pyrHeight));
    LayoutShowsInOrder(0, gfInterval, HeadLength(pyrHeight), 0, NextHeight(pyrHeight));
    assert es[HeadLength(pyrHeight)..] == RestLayout(gfInterval, pyrHeight);
  }

  /** The stack depth change of one frame in set_gop_ref_frame_map. */
  function Delta(t: UpdateType): int
  {
    if IsArf(t) then 1
    else if t == OverlayUpdate || t == IntnlOverlayUpdate then -1
    else 0
  }

  /** arf_stack_size when frame k of the group is visited. */
  function ArfDepth(fs: seq<FrameParams>, k: int): int
    requires 1 <= k <= |fs|
    decreases k
  {
    if k == 1 then 0 else ArfDepth(fs, k - 1) + Delta(fs[k - 1].updateType)
  }

  /** No ARF of frames 1..size is pushed onto a full arf_stack. */
  ghost predicate ArfStackFits(fs: seq<FrameParams>, size: int)
    requires size < |fs|
  {
    forall k :: 1 <= k <= size && IsArf(fs[k].updateType) ==> ArfDepth(fs, k) < MAX_PYRAMID_LVL
  }

  lemma DepthStep(fs: seq<FrameParams>, size: int, k: int)
    requires 1 <= k <= size < |fs| && ArfStackFits(fs, size)
    ensures ArfDepth(fs, k + 1) == ArfDepth(fs, k) + Delta(fs[k].updateType)
    ensures IsArf(fs[k].updateType) ==> ArfDepth(fs, k) < MAX_PYRAMID_LVL
  {
  }

  /** The bookkeeping of set_gop_ref_frame_map between two frames: the
      stack of pending ARFs, the queue of recent LAST frames, and
      ext_ref_idx, the overlay that last fell out of the queue. */
  datatype RefState = RefState(arfStack: seq<int>, arfSize: int, lstQueue: seq<int>, lstSize: int, extRefIdx: int)

  predicate StateOk(st: RefState)
  {
    |st.arfStack| == MAX_PYRAMID_LVL && st.arfSize <= MAX_PYRAMID_LVL
    && |st.lstQueue| == LST_QUEUE_MAX && 0 <= st.lstSize <= LST_QUEUE_MAX
  }

  /** The switch at the end of an iteration, on values: a shown frame is
      queued; an internal overlay pops its ARF and queues it; an overlay
      pops; an ARF is pushed (never onto a full stack, see ArfStackFits). */
  function Step(st: RefState, t: UpdateType, frameIdx: int): (n: RefState)
    requires StateOk(st)
    ensures StateOk(n)
  {
    match t
    case LfUpdate =>
      var e := Enqueued(st.lstQueue, frameIdx, st.lstSize, LST_QUEUE_MAX);
      st.(lstQueue := e.contents, lstSize := e.newSize)
    case IntnlOverlayUpdate =>
      var e := Enqueued(st.lstQueue, st.arfStack[0], st.lstSize, LST_QUEUE_MAX);
      RefState(Popped(st.arfStack, st.arfSize), st.arfSize - 1, e.contents, e.newSize, e.dequeued)
    case OverlayUpdate =>
      st.(arfStack := Popped(st.arfStack, st.arfSize), arfSize := st.arfSize - 1)
    case _ =>
      if IsArf(t) && st.arfSize < MAX_PYRAMID_LVL then
        st.(arfStack := Pushed(st.arfStack, frameIdx, st.arfSize), arfSize := st.arfSize + 1)
      else st
  }

  /** The bookkeeping when frame k of the group is visited. */
  function Replay(fs: seq<FrameParams>, k: int): (st: RefState)
    requires 1 <= k <= |fs|
    decreases k
    ensures StateOk(st)
  {
    if k == 1 then RefState([-1, -1, -1, -1], 0, [-1, -1, -1], 0, -1)
    else Step(Replay(fs, k - 1), fs[k - 1].updateType, k - 1)
  }

  lemma ReplayNext(fs: seq<FrameParams>, k: int)
    requires 1 <= k < |fs|
    ensures Replay(fs, k + 1) == Step(Replay(fs, k), fs[k].updateType, k)
  {
  }

  /** init_ref_idx: the GOP index every slot starts from. */
  function InitRefIdx(fs: seq<FrameParams>): int
    requires |fs| > 0
  {
    if fs[0].updateType == KfUpdate then 0 else -1
  }

  /** The row a frame gets from the bookkeeping: LAST..LAST3 are the
      queue, newest first; GOLDEN is entry 0; ALTREF is the top of the ARF
      stack, BWDREF its bottom, ALTREF2 the one above the bottom (or
      ext_ref_idx when a single ARF is pending); every other slot keeps
      init_ref_idx. */
  function ExpectedRow(st: RefState, initRefIdx: int): (row: seq<int>)
    requires StateOk(st)
    ensures |row| == INTER_REFS_PER_FRAME
  {
    seq(INTER_REFS_PER_FRAME, r requires 0 <= r < INTER_REFS_PER_FRAME =>
      if r < st.lstSize then st.lstQueue[st.lstSize - 1 - r]
      else if r == RefIdx(GOLDEN_FRAME) then 0
      else if r == RefIdx(ALTREF_FRAME) && st.arfSize > 0 then st.arfStack[st.arfSize - 1]
      else if r == RefIdx(BWDREF_FRAME) && st.arfSize > 1 then st.arfStack[0]
      else if r == RefIdx(ALTREF2_FRAME) && st.arfSize > 2 then st.arfStack[1]
      else if r == RefIdx(ALTREF2_FRAME) && st.arfSize == 1 && st.extRefIdx != -1 then st.extRefIdx
      else initRefIdx)
  }

  /** The LAST slots of a row come from the queue; every other slot is the
      one the same bookkeeping gives with an empty queue. */
  lemma ExpectedRowSplits(st: RefState, initRefIdx: int)
    requires StateOk(st)
    ensures forall r :: 0 <= r < st.lstSize ==>
      ExpectedRow(st, initRefIdx)[r] == st.lstQueue[st.lstSize - 1 - r]
    ensures forall r :: st.lstSize <= r < INTER_REFS_PER_FRAME ==>
      ExpectedRow(st, initRefIdx)[r] == ExpectedRow(st.(lstSize := 0), initRefIdx)[r]
  {
  }

  /** The named slots of an expected row, and its range when every entry
      of the bookkeeping is an earlier frame or -1. */
  lemma ExpectedRowSlots(st: RefState, initRefIdx: int, frameIdx: int)
    requires StateOk(st) && (initRefIdx == 0 || initRefIdx == -1) && 1 <= frameIdx
    requires forall j :: 0 <= j < MAX_PYRAMID_LVL ==> -1 <= st.arfStack[j] < frameIdx
    requires forall j :: 0 <= j < LST_QUEUE_MAX ==> -1 <= st.lstQueue[j] < frameIdx
    requires -1 <= st.extRefIdx < frameIdx
    ensures forall r :: 0 <= r < INTER_REFS_PER_FRAME ==> -1 <= ExpectedRow(st, initRefIdx)[r] < frameIdx
    ensures ExpectedRow(st, initRefIdx)[RefIdx(GOLDEN_FRAME)] == 0
    ensures st.arfSize > 0 ==> ExpectedRow(st, initRefIdx)[RefIdx(ALTREF_FRAME)] == st.arfStack[st.arfSize - 1]
    ensures st.arfSize > 1 ==> ExpectedRow(st, initRefIdx)[RefIdx(BWDREF_FRAME)] == st.arfStack[0]
    ensures st.arfSize > 2 ==> ExpectedRow(st, initRefIdx)[RefIdx(ALTREF2_FRAME)] == st.arfStack[1]
    ensures st.arfSize == 1 && st.extRefIdx != -1 ==>
      ExpectedRow(st, initRefIdx)[RefIdx(ALTREF2_FRAME)] == st.extRefIdx
  {
  }

  /** reset_ref_frame_idx on one row of a reference map. */
  method ResetRefFrameIdx(refs: array2<int>, row: int, resetValue: int)
    requires 0 <= row < refs.Length0 && refs.Length1 == INTER_REFS_PER_FRAME
    modifies refs
    ensures forall r :: 0 <= r < INTER_REFS_PER_FRAME ==> refs[row, r] == resetValue
    ensures forall i, r :: 0 <= i < refs.Length0 && i != row && 0 <= r < refs.Length1 ==>
      refs[i, r] == old(refs[i, r])
  {
    var i := 0;
    while i < INTER_REFS_PER_FRAME
      invariant 0 <= i <= INTER_REFS_PER_FRAME
      invariant forall r :: 0 <= r < i ==> refs[row, r] == resetValue
      invariant forall j, r :: 0 <= j < refs.Length0 && 0 <= r < refs.Length1 && !(j == row && r < i) ==>
        refs[j, r] == old(refs[j, r])
    {
      refs[row, i] := resetValue;
      i := i + 1;
    }
  }

  /** The loop of set_gop_ref_frame_map that gives the LAST, LAST2 and LAST3
      slots of a row the queued frames, newest (the last entry) first. */
  method SetLastRefs(refs: array2<int>, row: int, queue: array<int>, queueSize: int)
    requires 0 <= row < refs.Length0 && refs.Length1 == INTER_REFS_PER_FRAME
    requires 0 <= queueSize <= queue.Length && queueSize <= LST_QUEUE_MAX
    modifies refs
    ensures forall r :: 0 <= r < queueSize ==> refs[row, r] == queue[queueSize - 1 - r]
    ensures forall i, r :: 0 <= i < refs.Length0 && 0 <= r < refs.Length1 && !(i == row && r < queueSize) ==>
      refs[i, r] == old(refs[i, r])
  {
    var lstIdx := queueSize - 1;
    while lstIdx >= 0
      invariant -1 <= lstIdx < queueSize
      invariant forall r :: 0 <= r < queueSize - 1 - lstIdx ==> refs[row, r] == queue[queueSize - 1 - r]
      invariant forall i, r ::
        0 <= i < refs.Length0 && 0 <= r < refs.Length1 && !(i == row && r < queueSize - 1 - lstIdx) ==>
        refs[i, r] == old(refs[i, r])
    {
      var lstFrameType := LAST_FRAME + (queueSize - 1 - lstIdx);
      refs[row, RefIdx(lstFrameType)] := queue[lstIdx];
      lstIdx := lstIdx - 1;
    }
  }

  /** `before` with `block` written over it from position `from` on. */
  function Splice<T>(before: seq<T>, from: int, block: seq<T>): (r: seq<T>)
    requires 0 <= from && from + |block| <= |before|
    ensures |r| == |before|
  {
    seq(|before|, k requires 0 <= k < |before| =>
      if from <= k < from + |block| then block[k - from] else before[k])
  }

  /** Writing `a` and then `b` right after it is writing `a + b`. */
  lemma SpliceAppend<T>(s: seq<T>, p: int, a: seq<T>, b: seq<T>)
    requires 0 <= p && p + |a| + |b| <= |s|
    ensures Splice(Splice(s, p, a), p + |a|, b) == Splice(s, p, a + b)
  {
    var t := Splice(s, p, a);
    assert t[..p + |a|] == s[..p] + a;
    assert t[p + |a| + |b|..] == s[p + |a| + |b|..];
    assert s[..p] + a + b == s[..p] + (a + b);
  }

  /** pyramid_lvl_nodes after counting the nodes of `es` into `counts`. */
  function AddNodes(counts: seq<int>, es: seq<FrameParams>): (r: seq<int>)
    ensures |r| == |counts|
  {
    seq(|counts|, l requires 0 <= l < |counts| => counts[l] + CountNodes(es, l))
  }

  lemma NodesAppend(n2: seq<int>, n1: seq<int>, n0: seq<int>, a: seq<FrameParams>, b: seq<FrameParams>)
    requires n1 == AddNodes(n0, a) && n2 == AddNodes(n1, b)
    ensures n2 == AddNodes(n0, a + b)
  {
    forall l | 0 <= l < |n2|
      ensures n2[l] == n0[l] + CountNodes(a + b, l)
    {
      CountNodesAppend(a, b, l);
    }
  }

  /** An overlay entry is no node: appending it keeps the counts. */
  lemma NodesOverlay(n1: seq<int>, n0: seq<int>, a: seq<FrameParams>, ovl: FrameParams)
    requires ovl.updateType == IntnlOverlayUpdate && n1 == AddNodes(n0, a)
    ensures n1 == AddNodes(n0, a + [ovl])
  {
    forall l | 0 <= l < |n1|
      ensures n1[l] == n0[l] + CountNodes(a + [ovl], l)
    {
      CountNodesAppend(a, [ovl], l);
      assert [ovl][1..] == [];
    }
  }

  // ---------------------------------------------------------------------
  // The writers, as functions of the state they start from
  // ---------------------------------------------------------------------

  /** One entry stored into the group; a store out of range is dropped. */
  function Put(fs: seq<FrameParams>, i: int, e: FrameParams): (r: seq<FrameParams>)
    ensures |r| == |fs|
  {
    seq(|fs|, k requires 0 <= k < |fs| => if k == i then e else fs[k])
  }

  /** A store in range is a one-entry splice. */
  lemma PutSplice(fs: seq<FrameParams>, i: int, e: FrameParams)
    requires 0 <= i < |fs|
    ensures Put(fs, i, e) == Splice(fs, i, [e])
  {
  }

  /** One more node counted at level l. */
  function Bump(ns: seq<int>, l: int): (r: seq<int>)
    ensures |r| == |ns|
  {
    seq(|ns|, k requires 0 <= k < |ns| => if k == l then ns[k] + 1 else ns[k])
  }

  /** Counting one node is adding the nodes of a one-entry layout. */
  lemma BumpAdds(ns: seq<int>, e: FrameParams, l: int)
    requires 0 <= l < |ns| && IsNode(e, l)
    ensures Bump(ns, l) == AddNodes(ns, [e])
  {
    forall k | 0 <= k < |ns|
      ensures Bump(ns, l)[k] == ns[k] + CountNodes([e], k)
    {
      assert [e][1..] == [];
    }
  }

  /** The group's entries, its per-level node counts and the next free
      position, after a writer has run. */
  datatype Written = Written(frames: seq<FrameParams>, nodes: seq<int>, next: int)

  /** The leaf loop of set_multi_layer_params, from display index s on,
      writing at position ind. */
  function LeafWrites(fs: seq<FrameParams>, ns: seq<int>, s: int, end: int, ind: int, arfInd: int)
    : (w: Written)
    ensures |w.frames| == |fs| && |w.nodes| == |ns|
    ensures w.next == ind + (if s < end then end - s else 0)
    decreases end - s
  {
    if s >= end then Written(fs, ns, ind)
    else LeafWrites(Put(fs, ind, LeafFrame(s, arfInd)), Bump(ns, MIN_PYRAMID_LVL), s + 1, end, ind + 1, arfInd)
  }

  /** How many entries set_multi_layer_params writes for the frames
      strictly between `start` and `end`: each frame once, and each frame
      that becomes an internal ARF once more for its overlay. */
  function Span(start: int, end: int, level: int): (k: nat)
    requires 0 <= start < end && MIN_PYRAMID_LVL <= level
    decreases end - start
  {
    var n := end - start - 1;
    if level == MIN_PYRAMID_LVL || n < 3 then n
    else
      var m := (start + end) / 2;
      2 + Span(start, m, level - 1) + Span(m, end, level - 1)
  }

  /** set_multi_layer_params, step by step, from the entries `fs` and the
      node counts `ns` it starts with. */
  function MultiLayer(fs: seq<FrameParams>, ns: seq<int>, start: int, end: int, ind: int,
                      arfInd: int, level: int): (w: Written)
    requires 0 <= start < end && MIN_PYRAMID_LVL <= level
    ensures |w.frames| == |fs| && |w.nodes| == |ns|
    decreases end - start
  {
    var n := end - start - 1;
    if n == 0 then Written(fs, ns, ind)
    else if level == MIN_PYRAMID_LVL || n < 3 then LeafWrites(fs, ns, start + 1, end, ind, arfInd)
    else
      var m := (start + end) / 2;
      var left := MultiLayer(Put(fs, ind, ArfEntry(start, m, level)), Bump(ns, level),
                             start, m, ind + 1, 1, level - 1);
      MultiLayer(Put(left.frames, left.next, OverlayEntry(ind, m)), left.nodes,
                 m, end, left.next + 1, arfInd, level - 1)
  }

  /** The splitting case of set_multi_layer_params: the internal ARF, the
      frames before it, its overlay, the frames after it. */
  lemma MultiLayerSplit(fs: seq<FrameParams>, ns: seq<int>, start: int, end: int, ind: int,
                        arfInd: int, level: int, m: int, f1: seq<FrameParams>, n1: seq<int>,
                        left: Written, f3: seq<FrameParams>, n3: seq<int>, w: Written)
    requires 0 <= start && end - start - 1 >= 3 && MIN_PYRAMID_LVL < level && m == (start + end) / 2
    requires f1 == Put(fs, ind, ArfEntry(start, m, level)) && n1 == Bump(ns, level)
    requires left == MultiLayer(f1, n1, start, m, ind + 1, 1, level - 1)
    requires f3 == Put(left.frames, left.next, OverlayEntry(ind, m)) && n3 == left.nodes
    requires w == MultiLayer(f3, n3, m, end, left.next + 1, arfInd, level - 1)
    ensures w == MultiLayer(fs, ns, start, end, ind, arfInd, level)
  {
  }

  lemma WrittenParts(fs: seq<FrameParams>, ns: seq<int>, next: int, w: Written)
    requires Written(fs, ns, next) == w
    ensures fs == w.frames && ns == w.nodes && next == w.next
  {
  }

  lemma SpanSplit(start: int, end: int, level: int, m: int)
    requires 0 <= start && end - start - 1 >= 3 && MIN_PYRAMID_LVL < level && m == (start + end) / 2
    ensures start + 1 < m < end - 1
    ensures Span(start, end, level) == 2 + Span(start, m, level - 1) + Span(m, end, level - 1)
  {
  }

  lemma LeavesCons(start: int, end: int, arfInd: int)
    requires start + 1 < end
    ensures Leaves(start, end, arfInd) == [LeafFrame(start + 1, arfInd)] + Leaves(start + 1, end, arfInd)
  {
    var es := Leaves(start, end, arfInd);
    assert es[0] == LeafFrame(start + 1, arfInd);
    assert es[1..] == Leaves(start + 1, end, arfInd);
  }

  /** The leaf loop writes the leaves of the interval, one after the other,
      and counts each of them at level 0. */
  lemma {:induction false} LeafWritesLeaves(fs: seq<FrameParams>, ns: seq<int>, s: int, end: int,
                                            ind: int, arfInd: int)
    requires s <= end && 0 <= ind && ind + (end - s) <= |fs| && 0 < |ns|
    ensures LeafWrites(fs, ns, s, end, ind, arfInd)
            == Written(Splice(fs, ind, Leaves(s - 1, end, arfInd)),
                       AddNodes(ns, Leaves(s - 1, end, arfInd)), ind + (end - s))
    decreases end - s
  {
    var es := Leaves(s - 1, end, arfInd);
    if s < end {
      var e := LeafFrame(s, arfInd);
      var fs1, ns1 := Put(fs, ind, e), Bump(ns, MIN_PYRAMID_LVL);
      LeafWritesLeaves(fs1, ns1, s + 1, end, ind + 1, arfInd);
      LeavesCons(s - 1, end, arfInd);
      PutSplice(fs, ind, e);
      SpliceAppend(fs, ind, [e], Leaves(s, end, arfInd));
      BumpAdds(ns, e, MIN_PYRAMID_LVL);
      NodesAppend(AddNodes(ns1, Leaves(s, end, arfInd)), ns1, ns, [e], Leaves(s, end, arfInd));
    } else {
      assert es == [];
      assert Splice(fs, ind, es) == fs;
      assert AddNodes(ns, es) == ns;
    }
  }

  /** The layout of an interval has Span entries. */
  lemma {:induction false} LayoutLength(start: int, end: int, pos: int, arfInd: int, level: int)
    requires 0 <= start < end && MIN_PYRAMID_LVL <= level
    ensures |Layout(start, end, pos, arfInd, level)| == Span(start, end, level)
    decreases end - start
  {
    var n := end - start - 1;
    if level != MIN_PYRAMID_LVL && n >= 3 {
      var m := (start + end) / 2;
      var left := Layout(start, m, pos + 1, 1, level - 1);
      LayoutLength(start, m, pos + 1, 1, level - 1);
      LayoutLength(m, end, pos + 2 + |left|, arfInd, level - 1);
    }
  }

  /** set_multi_layer_params writes Layout(start, end, pos, ...) over the
      entries from position pos on, counts exactly its nodes, and stops
      right after it. */
  lemma {:induction false} MultiLayerWritesLayout(fs: seq<FrameParams>, ns: seq<int>, start: int, end: int,
                                                  pos: int, arfInd: int, level: int)
    requires 0 <= start < end && MIN_PYRAMID_LVL <= level < |ns|
    requires 0 <= pos && pos + Span(start, end, level) <= |fs|
    ensures |Layout(start, end, pos, arfInd, level)| == Span(start, end, level)
    ensures MultiLayer(fs, ns, start, end, pos, arfInd, level)
            == Written(Splice(fs, pos, Layout(start, end, pos, arfInd, level)),
                       AddNodes(ns, Layout(start, end, pos, arfInd, level)),
                       pos + |Layout(start, end, pos, arfInd, level)|)
    decreases end - start, 2
  {
    LayoutLength(start, end, pos, arfInd, level);
    var n := end - start - 1;
    if n == 0 {
      LeafWritesLeaves(fs, ns, start + 1, end, pos, arfInd);
    } else if level == MIN_PYRAMID_LVL || n < 3 {
      LeafWritesLeaves(fs, ns, start + 1, end, pos, arfInd);
    } else {
      SplitWritesLayout(fs, ns, start, end, pos, arfInd, level);
    }
  }

  /** The splitting case of Layout and Span, with the right half placed
      at `rightPos`, where the left half ends. */
  lemma LayoutSplitAt(start: int, end: int, pos: int, arfInd: int, level: int, m: int,
                      left: seq<FrameParams>, rightPos: int)
    requires 0 <= start && end - start - 1 >= 3 && MIN_PYRAMID_LVL < level && m == (start + end) / 2
    requires left == Layout(start, m, pos + 1, 1, level - 1) && rightPos == pos + 2 + |left|
    ensures Layout(start, end, pos, arfInd, level)
            == [ArfEntry(start, m, level)] + left + [OverlayEntry(pos, m)]
               + Layout(m, end, rightPos, arfInd, level - 1)
    ensures Span(start, end, level) == 2 + Span(start, m, level - 1) + Span(m, end, level - 1)
    ensures |Layout(m, end, rightPos, arfInd, level - 1)| == Span(m, end, level - 1)
  {
    LayoutLength(m, end, rightPos, arfInd, level - 1);
  }

  /** The splitting case of MultiLayerWritesLayout. */
  lemma {:induction false} SplitWritesLayout(fs: seq<FrameParams>, ns: seq<int>, start: int, end: int,
                                             pos: int, arfInd: int, level: int)
    requires 0 <= start && end - start - 1 >= 3 && MIN_PYRAMID_LVL < level < |ns|
    requires 0 <= pos && pos + Span(start, end, level) <= |fs|
    requires |Layout(start, end, pos, arfInd, level)| == Span(start, end, level)
    ensures MultiLayer(fs, ns, start, end, pos, arfInd, level)
            == Written(Splice(fs, pos, Layout(start, end, pos, arfInd, level)),
                       AddNodes(ns, Layout(start, end, pos, arfInd, level)),
                       pos + |Layout(start, end, pos, arfInd, level)|)
    decreases end - start, 1
  {
    var m := (start + end) / 2;
    SpanSplit(start, end, level, m);
    var fs1, ns1 := Put(fs, pos, ArfEntry(start, m, level)), Bump(ns, level);
    var left := Layout(start, m, pos + 1, 1, level - 1);
    var w1 := MultiLayer(fs1, ns1, start, m, pos + 1, 1, level - 1);
    HalfWritesLayout(start, m, 1, level, pos, fs1, ns1, left, w1);
    SplitRightWritesLayout(fs, ns, start, end, pos, arfInd, level, m, fs1, ns1, left, w1);
  }

  /** The splitting case of MultiLayerWritesLayout once the left half is
      written: the overlay, then the right half. */
  lemma {:induction false} SplitRightWritesLayout(fs: seq<FrameParams>, ns: seq<int>, start: int, end: int,
                                                  pos: int, arfInd: int, level: int, m: int,
                                                  fs1: seq<FrameParams>, ns1: seq<int>,
                                                  left: seq<FrameParams>, w1: Written)
    requires 0 <= start && end - start - 1 >= 3 && MIN_PYRAMID_LVL < level < |ns|
    requires m == (start + end) / 2 && start + 1 < m < end - 1
    requires Span(start, end, level) == 2 + Span(start, m, level - 1) + Span(m, end, level - 1)
    requires 0 <= pos && pos + Span(start, end, level) <= |fs|
    requires |Layout(start, end, pos, arfInd, level)| == Span(start, end, level)
    requires fs1 == Put(fs, pos, ArfEntry(start, m, level)) && ns1 == Bump(ns, level)
    requires left == Layout(start, m, pos + 1, 1, level - 1) && |left| == Span(start, m, level - 1)
    requires w1 == MultiLayer(fs1, ns1, start, m, pos + 1, 1, level - 1)
    requires w1.frames == Splice(fs1, pos + 1, left) && w1.nodes == AddNodes(ns1, left)
    requires w1.next == pos + 1 + |left|
    ensures MultiLayer(fs, ns, start, end, pos, arfInd, level)
            == Written(Splice(fs, pos, Layout(start, end, pos, arfInd, level)),
                       AddNodes(ns, Layout(start, end, pos, arfInd, level)),
                       pos + |Layout(start, end, pos, arfInd, level)|)
    decreases end - start, 0
  {
    var arf, ovl := ArfEntry(start, m, level), OverlayEntry(pos, m);
    var fs3 := Put(w1.frames, w1.next, ovl);
    var right := Layout(m, end, w1.next + 1, arfInd, level - 1);
    var w2 := MultiLayer(fs3, w1.nodes, m, end, w1.next + 1, arfInd, level - 1);
    HalfWritesLayout(m, end, arfInd, level, w1.next, fs3, w1.nodes, right, w2);
    LayoutSplitAt(start, end, pos, arfInd, level, m, left, w1.next + 1);
    MultiLayerSplit(fs, ns, start, end, pos, arfInd, level, m, fs1, ns1, w1, fs3, w1.nodes, w2);
    FinishSplit(fs, ns, pos, level, arf, left, ovl, right, fs1, ns1, w1, fs3, w2,
                MultiLayer(fs, ns, start, end, pos, arfInd, level), Layout(start, end, pos, arfInd, level));
  }

  /** One half of the splitting case: the interval (lo, hi) one level
      down, written from `next + 1` on. */
  lemma {:induction false} HalfWritesLayout(lo: int, hi: int, arfInd: int, level: int, next: int,
                                            fs: seq<FrameParams>, ns: seq<int>,
                                            half: seq<FrameParams>, w: Written)
    requires 0 <= lo < hi && MIN_PYRAMID_LVL < level && level - 1 < |ns|
    requires 0 <= next && next + 1 + Span(lo, hi, level - 1) <= |fs|
    requires half == Layout(lo, hi, next + 1, arfInd, level - 1)
    requires w == MultiLayer(fs, ns, lo, hi, next + 1, arfInd, level - 1)
    ensures |half| == Span(lo, hi, level - 1)
    ensures w.frames == Splice(fs, next + 1, half) && w.nodes == AddNodes(ns, half)
    ensures w.next == next + 1 + |half|
    decreases hi - lo + 1, 0
  {
    MultiLayerWritesLayout(fs, ns, lo, hi, next + 1, arfInd, level - 1);
  }

  /** The end of the splitting case of MultiLayerWritesLayout, with the
      recursive results passed in. */
  lemma FinishSplit(fs: seq<FrameParams>, ns: seq<int>, pos: int, level: int, arf: FrameParams,
                    left: seq<FrameParams>, ovl: FrameParams, right: seq<FrameParams>,
                    fs1: seq<FrameParams>, ns1: seq<int>, w1: Written, fs3: seq<FrameParams>, w2: Written,
                    whole: Written, layout: seq<FrameParams>)
    requires IsNode(arf, level) && 0 <= level < |ns|
    requires ovl.updateType == IntnlOverlayUpdate
    requires 0 <= pos && pos + 2 + |left| + |right| <= |fs|
    requires fs1 == Put(fs, pos, arf) && ns1 == Bump(ns, level)
    requires w1 == Written(Splice(fs1, pos + 1, left), AddNodes(ns1, left), pos + 1 + |left|)
    requires fs3 == Put(w1.frames, w1.next, ovl)
    requires w2 == Written(Splice(fs3, w1.next + 1, right), AddNodes(w1.nodes, right), w1.next + 1 + |right|)
    requires w2 == whole && layout == [arf] + left + [ovl] + right
    ensures whole == Written(Splice(fs, pos, layout), AddNodes(ns, layout), pos + |layout|)
  {
    SplitWrites(fs, ns, pos, level, arf, left, ovl, right, fs1, ns1, w1, fs3, w2);
  }

  /** The four writes of the splitting case, composed: the internal ARF,
      the frames before it, its overlay and the frames after it are
      written one after the other. */
  lemma SplitWrites(fs: seq<FrameParams>, ns: seq<int>, pos: int, level: int, arf: FrameParams,
                    left: seq<FrameParams>, ovl: FrameParams, right: seq<FrameParams>,
                    fs1: seq<FrameParams>, ns1: seq<int>, w1: Written, fs3: seq<FrameParams>, w2: Written)
    requires IsNode(arf, level) && 0 <= level < |ns|
    requires ovl.updateType == IntnlOverlayUpdate
    requires 0 <= pos && pos + 2 + |left| + |right| <= |fs|
    requires fs1 == Put(fs, pos, arf) && ns1 == Bump(ns, level)
    requires w1 == Written(Splice(fs1, pos + 1, left), AddNodes(ns1, left), pos + 1 + |left|)
    requires fs3 == Put(w1.frames, w1.next, ovl)
    requires w2 == Written(Splice(fs3, w1.next + 1, right), AddNodes(w1.nodes, right), w1.next + 1 + |right|)
    ensures w2 == Written(Splice(fs, pos, [arf] + left + [ovl] + right),
                          AddNodes(ns, [arf] + left + [ovl] + right),
                          pos + |[arf] + left + [ovl] + right|)
  {
    assert |[arf] + left + [ovl] + right| == 2 + |left| + |right|;
    SplitWritesFrames(fs, pos, arf, left, ovl, right, w1.frames, w2.frames);
    SplitWritesNodes(ns, level, arf, left, ovl, right, w1.nodes, w2.nodes);
  }

  lemma SplitWritesFrames(fs: seq<FrameParams>, pos: int, arf: FrameParams, left: seq<FrameParams>,
                          ovl: FrameParams, right: seq<FrameParams>, f1: seq<FrameParams>, f2: seq<FrameParams>)
    requires 0 <= pos && pos + 2 + |left| + |right| <= |fs|
    requires f1 == Splice(Put(fs, pos, arf), pos + 1, left)
    requires f2 == Splice(Put(f1, pos + 1 + |left|, ovl), pos + 2 + |left|, right)
    ensures f2 == Splice(fs, pos, [arf] + left + [ovl] + right)
  {
    PutThenSplice(fs, pos, arf, left);
    SpliceThenPutSplice(fs, pos, [arf] + left, ovl, right, pos + 1 + |left|, pos + 2 + |left|);
  }

  /** Writing e at p and then b right after it is writing [e] + b. */
  lemma PutThenSplice(s: seq<FrameParams>, p: int, e: FrameParams, b: seq<FrameParams>)
    requires 0 <= p && p + 1 + |b| <= |s|
    ensures Splice(Put(s, p, e), p + 1, b) == Splice(s, p, [e] + b)
  {
    PutSplice(s, p, e);
    SpliceAppend(s, p, [e], b);
  }

  /** Writing a, then e right after it (at q), then b right after that
      (at r), is writing a + [e] + b. */
  lemma SpliceThenPutSplice(s: seq<FrameParams>, p: int, a: seq<FrameParams>, e: FrameParams,
                            b: seq<FrameParams>, q: int, r: int)
    requires 0 <= p && p + |a| + 1 + |b| <= |s| && q == p + |a| && r == q + 1
    ensures Splice(Put(Splice(s, p, a), q, e), r, b) == Splice(s, p, a + [e] + b)
  {
    PutThenSplice(Splice(s, p, a), p + |a|, e, b);
    SpliceAppend(s, p, a, [e] + b);
    assert a + ([e] + b) == a + [e] + b;
  }

  lemma SplitWritesNodes(ns: seq<int>, level: int, arf: FrameParams, left: seq<FrameParams>,
                         ovl: FrameParams, right: seq<FrameParams>, n1: seq<int>, n2: seq<int>)
    requires IsNode(arf, level) && 0 <= level < |ns|
    requires ovl.updateType == IntnlOverlayUpdate
    requires n1 == AddNodes(Bump(ns, level), left) && n2 == AddNodes(n1, right)
    ensures n2 == AddNodes(ns, [arf] + left + [ovl] + right)
  {
    var ns1 := Bump(ns, level);
    BumpAdds(ns, arf, level);
    NodesAppend(n1, ns1, ns, [arf], left);
    NodesOverlay(n1, ns, [arf] + left, ovl);
    NodesAppend(n2, n1, ns, [arf] + left + [ovl], right);
  }

  function Zeros(n: nat): (r: seq<int>)
    ensures |r| == n && forall l :: 0 <= l < n ==> r[l] == 0
  {
    seq(n, _ => 0)
  }

  /** construct_multi_layer_gf_structure, step by step, from the entries
      `fs` and node counts `ns` it starts with. */
  function GroupWrites(fs: seq<FrameParams>, ns: seq<int>, gfInterval: int, pyrHeight: int,
                       first: UpdateType): (w: Written)
    requires gfInterval >= 1 && MIN_PYRAMID_LVL <= pyrHeight
    ensures |w.frames| == |fs| && |w.nodes| == |ns|
  {
    var disp0 := if |fs| > 0 then fs[0].frameDispIdx else 0;
    var fs1 := Put(fs, 0, FrameParams(first, 0, 0, 0, disp0, MIN_PYRAMID_LVL));
    var fs2 := if pyrHeight > 0 then Put(fs1, 1, TopArf(gfInterval, pyrHeight)) else fs1;
    MultiLayer(fs2, Zeros(|ns|), 0, gfInterval, HeadLength(pyrHeight), 0, NextHeight(pyrHeight))
  }

  /** construct_multi_layer_gf_structure writes GroupLayout from position 0
      (entry 0 keeping its display index), stops right after it, and leaves
      in pyramid_lvl_nodes the nodes of the recursive part of the layout. */
  lemma GroupWritesLayout(fs: seq<FrameParams>, ns: seq<int>, gfInterval: int, pyrHeight: int,
                          first: UpdateType)
    requires gfInterval >= 1 && MIN_PYRAMID_LVL <= pyrHeight && NextHeight(pyrHeight) < |ns|
    requires HeadLength(pyrHeight) + Span(0, gfInterval, NextHeight(pyrHeight)) <= |fs|
    ensures |GroupLayout(gfInterval, pyrHeight, first, fs[0].frameDispIdx)|
            == HeadLength(pyrHeight) + Span(0, gfInterval, NextHeight(pyrHeight))
    ensures GroupWrites(fs, ns, gfInterval, pyrHeight, first).frames
            == Splice(fs, 0, GroupLayout(gfInterval, pyrHeight, first, fs[0].frameDispIdx))
    ensures GroupWrites(fs, ns, gfInterval, pyrHeight, first).next
            == |GroupLayout(gfInterval, pyrHeight, first, fs[0].frameDispIdx)|
    ensures forall l :: 0 <= l < |ns| ==>
      GroupWrites(fs, ns, gfInterval, pyrHeight, first).nodes[l] == CountNodes(RestLayout(gfInterval, pyrHeight), l)
  {
    var e0 := FrameParams(first, 0, 0, 0, fs[0].frameDispIdx, MIN_PYRAMID_LVL);
    var head := [e0] + (if pyrHeight > 0 then [TopArf(gfInterval, pyrHeight)] else []);
    var rest := RestLayout(gfInterval, pyrHeight);
    var fs1 := Put(fs, 0, e0);
    var fs2 := if pyrHeight > 0 then Put(fs1, 1, TopArf(gfInterval, pyrHeight)) else fs1;
    HeadWrites(fs, e0, TopArf(gfInterval, pyrHeight), pyrHeight, fs2, head);
    assert GroupLayout(gfInterval, pyrHeight, first, fs[0].frameDispIdx) == head + rest;
    var zs := Zeros(|ns|);
    var w := GroupWrites(fs, ns, gfInterval, pyrHeight, first);
    assert w == MultiLayer(fs2, zs, 0, gfInterval, |head|, 0, NextHeight(pyrHeight));
    HalfWritesLayout(0, gfInterval, 0, NextHeight(pyrHeight) + 1, |head| - 1, fs2, zs, rest, w);
    SpliceAppend(fs, 0, head, rest);
    forall l | 0 <= l < |ns|
      ensures AddNodes(zs, rest)[l] == CountNodes(rest, l)
    {
    }
  }

  /** The first one or two entries of the group, written over `fs`. */
  lemma HeadWrites(fs: seq<FrameParams>, e0: FrameParams, top: FrameParams, pyrHeight: int,
                   fs2: seq<FrameParams>, head: seq<FrameParams>)
    requires HeadLength(pyrHeight) <= |fs|
    requires head == [e0] + (if pyrHeight > 0 then [top] else [])
    requires fs2 == if pyrHeight > 0 then Put(Put(fs, 0, e0), 1, top) else Put(fs, 0, e0)
    ensures |head| == HeadLength(pyrHeight) && fs2 == Splice(fs, 0, head)
  {
    PutSplice(fs, 0, e0);
    if pyrHeight > 0 {
      PutSplice(Put(fs, 0, e0), 1, top);
      SpliceAppend(fs, 0, [e0], [top]);
    }
  }

  /** Every entry is -1 or a GOP index below hi. */
  ghost predicate AllBelow(s: seq<int>, hi: int)
  {
    forall j :: 0 <= j < |s| ==> -1 <= s[j] < hi
  }

  /** Row i of a reference map once filled: every entry is -1 or an
      earlier frame, GOLDEN is the key frame and, with an ARF pending,
      ALTREF is an ARF. */
  ghost predicate RowOk(m: array2<int>, fs: seq<FrameParams>, i: int)
    reads m
  {
    1 <= i < m.Length0 && i < |fs| && m.Length1 == INTER_REFS_PER_FRAME
    && (forall r :: 0 <= r < INTER_REFS_PER_FRAME ==> -1 <= m[i, r] < i)
    && m[i, RefIdx(GOLDEN_FRAME)] == 0
    && (ArfDepth(fs, i) > 0 ==>
          0 <= m[i, RefIdx(ALTREF_FRAME)] && IsArf(fs[m[i, RefIdx(ALTREF_FRAME)]].updateType))
  }

  /** Rows 1..n-1 of the map are well formed and hold the rows the replay
      of the group predicts. */
  ghost predicate RowsMatch(m: array2<int>, fs: seq<FrameParams>, n: int, initRefIdx: int)
    reads m
    requires n <= |fs| && n <= m.Length0 && m.Length1 == INTER_REFS_PER_FRAME
  {
    forall i :: 1 <= i < n ==>
      RowOk(m, fs, i)
      && forall r :: 0 <= r < INTER_REFS_PER_FRAME ==> m[i, r] == ExpectedRow(Replay(fs, i), initRefIdx)[r]
  }

  lemma RowsMatchRows(m: array2<int>, fs: seq<FrameParams>, n: int, initRefIdx: int)
    requires n <= |fs| && n <= m.Length0 && m.Length1 == INTER_REFS_PER_FRAME
    requires RowsMatch(m, fs, n, initRefIdx)
    ensures forall i :: 1 <= i < n ==> RowOk(m, fs, i)
    ensures forall i, r :: 1 <= i < n && 0 <= r < INTER_REFS_PER_FRAME ==>
      m[i, r] == ExpectedRow(Replay(fs, i), initRefIdx)[r]
  {
  }

  ghost predicate LiveArfs(s: seq<int>, n: int, fs: seq<FrameParams>)
  {
    forall j :: 0 <= j < n && j < |s| ==> 0 <= s[j] < |fs| && IsArf(fs[s[j]].updateType)
  }

  lemma AllBelowGrows(s: seq<int>, hi: int)
    requires AllBelow(s, hi)
    ensures AllBelow(s, hi + 1)
  {
  }

  lemma PopKeeps(s: seq<int>, size: int, hi: int, fs: seq<FrameParams>)
    requires 1 <= |s| && size <= |s|
    requires AllBelow(s, hi) && LiveArfs(s, size, fs)
    ensures AllBelow(Popped(s, size), hi) && LiveArfs(Popped(s, size), size - 1, fs)
    ensures -1 <= s[0] < hi
  {
    var t := Popped(s, size);
    if size >= 1 {
      forall j | 0 <= j < |t|
        ensures t[j] == if j < size - 1 then s[j + 1] else s[j]
      {
      }
    }
  }

  lemma PushKeeps(s: seq<int>, item: int, size: int, hi: int, fs: seq<FrameParams>)
    requires 1 <= |s| && size < |s|
    requires AllBelow(s, hi) && LiveArfs(s, size, fs)
    requires 0 <= item < hi && item < |fs| && IsArf(fs[item].updateType)
    ensures AllBelow(Pushed(s, item, size), hi) && LiveArfs(Pushed(s, item, size), size + 1, fs)
  {
    var t := Pushed(s, item, size);
    var k := if size >= 0 then size else 0;
    forall j | 0 <= j < |t|
      ensures t[j] == if j == 0 then item else if j <= k then s[j - 1] else s[j]
    {
    }
  }

  lemma EnqueueBelow(s: seq<int>, item: int, size: int, maxSize: int, hi: int)
    requires 1 <= maxSize <= |s| && 0 <= size <= maxSize
    requires AllBelow(s, hi) && -1 <= item < hi
    ensures AllBelow(Enqueued(s, item, size, maxSize).contents, hi)
    ensures -1 <= Enqueued(s, item, size, maxSize).dequeued < hi
  {
    var e := Enqueued(s, item, size, maxSize);
    if size == maxSize {
      forall j | 0 <= j < |s|
        ensures e.contents[j] == if j < maxSize - 1 then s[j + 1] else if j == maxSize - 1 then item else s[j]
      {
      }
    }
  }

  /** The switch that ends each iteration of set_gop_ref_frame_map: a shown
      frame enters the queue; an internal overlay pops its ARF off the stack
      and queues it (the entry that falls out of the queue becomes
      ext_ref_idx); an overlay pops; an ARF pushes itself. */
  method UpdateArfStackAndQueue(t: UpdateType, frameIdx: int, arfStack: array<int>, arfStackSize: int,
                                lstQueue: array<int>, lstQueueSize: int, extRefIdx: int,
                                ghost fs: seq<FrameParams>)
    returns (newArfStackSize: int, newLstQueueSize: int, newExtRefIdx: int)
    requires arfStack.Length == MAX_PYRAMID_LVL && lstQueue.Length == LST_QUEUE_MAX
    requires 0 <= frameIdx < |fs| && fs[frameIdx].updateType == t
    requires arfStackSize <= MAX_PYRAMID_LVL && (IsArf(t) ==> arfStackSize < MAX_PYRAMID_LVL)
    requires 0 <= lstQueueSize <= LST_QUEUE_MAX && -1 <= extRefIdx < frameIdx
    requires AllBelow(arfStack[..], frameIdx) && LiveArfs(arfStack[..], arfStackSize, fs)
    requires AllBelow(lstQueue[..], frameIdx)
    modifies arfStack, lstQueue
    ensures newArfStackSize == arfStackSize + Delta(t) && newArfStackSize <= MAX_PYRAMID_LVL
    ensures 0 <= newLstQueueSize <= LST_QUEUE_MAX && -1 <= newExtRefIdx < frameIdx + 1
    ensures AllBelow(arfStack[..], frameIdx + 1) && LiveArfs(arfStack[..], newArfStackSize, fs)
    ensures AllBelow(lstQueue[..], frameIdx + 1)
    ensures RefState(arfStack[..], newArfStackSize, lstQueue[..], newLstQueueSize, newExtRefIdx)
      == Step(RefState(old(arfStack[..]), arfStackSize, old(lstQueue[..]), lstQueueSize, extRefIdx), t, frameIdx)
  {
    var hi := frameIdx + 1;
    AllBelowGrows(arfStack[..], frameIdx);
    AllBelowGrows(lstQueue[..], frameIdx);
    newArfStackSize, newLstQueueSize, newExtRefIdx := arfStackSize, lstQueueSize, extRefIdx;
    match t {
      case LfUpdate =>
        EnqueueBelow(lstQueue[..], frameIdx, lstQueueSize, LST_QUEUE_MAX, hi);
        var _, size := QueueEnqueue(lstQueue, frameIdx, lstQueueSize, LST_QUEUE_MAX);
        newLstQueueSize := size;
      case IntnlOverlayUpdate =>
        PopKeeps(arfStack[..], arfStackSize, hi, fs);
        var intArfIdx;
        intArfIdx, newArfStackSize := StackPop(arfStack, arfStackSize);
        EnqueueBelow(lstQueue[..], intArfIdx, lstQueueSize, LST_QUEUE_MAX, hi);
        newExtRefIdx, newLstQueueSize := QueueEnqueue(lstQueue, intArfIdx, lstQueueSize, LST_QUEUE_MAX);
      case OverlayUpdate =>
        PopKeeps(arfStack[..], arfStackSize, hi, fs);
        var _, size := StackPop(arfStack, arfStackSize);
        newArfStackSize := size;
      case IntnlArfUpdate | ArfUpdate =>
        PushKeeps(arfStack[..], frameIdx, arfStackSize, hi, fs);
        newArfStackSize := StackPush(arfStack, frameIdx, arfStackSize);
      case _ =>
    }
  }

  class GfGroup {
    const frames: array<FrameParams>
    const pyramidLvlNodes: array<int>
    /** ref_frame_gop_idx[i][r]: the group entry frame i uses for slot r, or -1. */
    const refFrameGopIdx: array2<int>
    /** ref_frame_disp_idx[i][r]: the display index of that entry, or -1. */
    const refFrameDispIdx: array2<int>
    var size: int
    var pyramidHeight: int

    ghost predicate Valid()
    {
      pyramidLvlNodes.Length == MAX_PYRAMID_LVL
      && refFrameGopIdx.Length0 == frames.Length
      && refFrameGopIdx.Length1 == INTER_REFS_PER_FRAME
      && refFrameDispIdx.Length0 == frames.Length
      && refFrameDispIdx.Length1 == INTER_REFS_PER_FRAME
      && refFrameGopIdx != refFrameDispIdx
    }

    constructor (capacity: nat)
      ensures Valid() && frames.Length == capacity && size == 0 && pyramidHeight == 0
      ensures fresh(frames) && fresh(pyramidLvlNodes) && fresh(refFrameGopIdx) && fresh(refFrameDispIdx)
    {
      frames := new FrameParams[capacity](_ => FrameParams(KfUpdate, 0, 0, 0, 0, MIN_PYRAMID_LVL));
      pyramidLvlNodes := new int[MAX_PYRAMID_LVL](_ => 0);
      refFrameGopIdx := new int[capacity, INTER_REFS_PER_FRAME]((_, _) => -1);
      refFrameDispIdx := new int[capacity, INTER_REFS_PER_FRAME]((_, _) => -1);
      size := 0;
      pyramidHeight := 0;
    }

    /** The leaf branch of set_multi_layer_params: every frame strictly
        between `start` and `end` becomes a level-0 LF_UPDATE entry. */
    method SetLeafParams(start: int, end: int, frameInd: int, arfInd: int) returns (next: int)
      requires Valid()
      requires start < end
      modifies frames, pyramidLvlNodes
      ensures Written(frames[..], pyramidLvlNodes[..], next)
              == LeafWrites(old(frames[..]), old(pyramidLvlNodes[..]), start + 1, end, frameInd, arfInd)
    {
      ghost var w := LeafWrites(frames[..], pyramidLvlNodes[..], start + 1, end, frameInd, arfInd);
      next := frameInd;
      var s := start + 1;
      while s < end
        invariant start + 1 <= s <= end
        invariant LeafWrites(frames[..], pyramidLvlNodes[..], s, end, next, arfInd) == w
        decreases end - s
      {
        ghost var fs, ns := frames[..], pyramidLvlNodes[..];
        if 0 <= next < frames.Length {
          frames[next] := LeafFrame(s, arfInd);
        }
        pyramidLvlNodes[MIN_PYRAMID_LVL] := pyramidLvlNodes[MIN_PYRAMID_LVL] + 1;
        assert frames[..] == Put(fs, next, LeafFrame(s, arfInd));
        assert pyramidLvlNodes[..] == Bump(ns, MIN_PYRAMID_LVL);
        next := next + 1;
        s := s + 1;
      }
    }

    /** set_multi_layer_params: fills the entries for the frames strictly
        between `start` and `end` from position frameInd on, counts the
        nodes per level, and returns the next free position. */
    method SetMultiLayerParams(start: int, end: int, frameInd: int, arfInd: int, level: int)
      returns (next: int)
      requires Valid()
      requires 0 <= start < end && MIN_PYRAMID_LVL <= level < MAX_PYRAMID_LVL
      modifies frames, pyramidLvlNodes
      ensures Written(frames[..], pyramidLvlNodes[..], next)
              == MultiLayer(old(frames[..]), old(pyramidLvlNodes[..]), start, end, frameInd, arfInd, level)
      decreases end - start, 2
    {
      var numFramesToProcess := end - start - 1;
      if numFramesToProcess == 0 {
        return frameInd;
      }
      if level == MIN_PYRAMID_LVL || numFramesToProcess < 3 {
        // Leaf nodes.
        next := SetLeafParams(start, end, frameInd, arfInd);
      } else {
        next := SetSplitParams(start, end, frameInd, arfInd, level);
      }
    }

    /** The splitting branch of set_multi_layer_params: the middle frame m
        becomes an internal ARF, then come the frames before m, the overlay
        showing m and the frames after m. */
    method SetSplitParams(start: int, end: int, frameInd: int, arfInd: int, level: int)
      returns (next: int)
      requires Valid()
      requires 0 <= start && end - start - 1 >= 3 && MIN_PYRAMID_LVL < level < MAX_PYRAMID_LVL
      modifies frames, pyramidLvlNodes
      ensures Written(frames[..], pyramidLvlNodes[..], next)
              == MultiLayer(old(frames[..]), old(pyramidLvlNodes[..]), start, end, frameInd, arfInd, level)
      decreases end - start, 1
    {
      var m := (start + end) / 2;
      var arfPosInGf := frameInd;
      SpanSplit(start, end, level, m);
      ghost var fs, ns := frames[..], pyramidLvlNodes[..];

      // Internal ARF.
      if 0 <= frameInd < frames.Length {
        frames[frameInd] := ArfEntry(start, m, level);
      }
      pyramidLvlNodes[level] := pyramidLvlNodes[level] + 1;
      ghost var f1, n1 := frames[..], pyramidLvlNodes[..];
      assert f1 == Put(fs, frameInd, ArfEntry(start, m, level));
      assert n1 == Bump(ns, level);

      // Frames displayed before this internal ARF.
      var ind := SetMultiLayerParams(start, m, frameInd + 1, 1, level - 1);
      ghost var left := MultiLayer(f1, n1, start, m, frameInd + 1, 1, level - 1);
      WrittenParts(frames[..], pyramidLvlNodes[..], ind, left);

      // Overlay for internal ARF, and the frames displayed after it.
      ghost var f3, n3 := Put(left.frames, left.next, OverlayEntry(frameInd, m)), left.nodes;
      next := SetRightParams(start, end, m, arfPosInGf, arfInd, level, ind);
      MultiLayerSplit(fs, ns, start, end, frameInd, arfInd, level, m, f1, n1, left, f3, n3,
                      Written(frames[..], pyramidLvlNodes[..], next));
    }

    /** The end of the splitting branch of set_multi_layer_params: the
        overlay showing m at position ind, then the frames after m. */
    method SetRightParams(start: int, end: int, m: int, arfPosInGf: int, arfInd: int, level: int, ind: int)
      returns (next: int)
      requires Valid()
      requires 0 <= start && end - start - 1 >= 3 && MIN_PYRAMID_LVL < level < MAX_PYRAMID_LVL
      requires m == (start + end) / 2 && start + 1 < m < end - 1
      modifies frames, pyramidLvlNodes
      ensures Written(frames[..], pyramidLvlNodes[..], next)
              == MultiLayer(Put(old(frames[..]), ind, OverlayEntry(arfPosInGf, m)), old(pyramidLvlNodes[..]),
                            m, end, ind + 1, arfInd, level - 1)
      decreases end - start, 0
    {
      ghost var fs := frames[..];
      if 0 <= ind < frames.Length {
        frames[ind] := OverlayEntry(arfPosInGf, m);
      }
      assert frames[..] == Put(fs, ind, OverlayEntry(arfPosInGf, m));
      next := SetMultiLayerParams(m, end, ind + 1, arfInd, level - 1);
    }

    /** construct_multi_layer_gf_structure: records the pyramid height,
        zeroes the node counts, then writes the first frame, the top ARF
        (with a pyramid) and the rest of the group, and returns the number
        of entries written. */
    method ConstructMultiLayerGfStructure(gfInterval: int, pyrHeight: int, firstFrameUpdateType: UpdateType)
      returns (frameIndex: int)
      requires Valid()
      requires gfInterval >= 1
      requires firstFrameUpdateType == KfUpdate || firstFrameUpdateType == OverlayUpdate
               || firstFrameUpdateType == GfUpdate
      requires MIN_PYRAMID_LVL <= pyrHeight <= MAX_PYRAMID_LVL
      requires HeadLength(pyrHeight) <= frames.Length
      modifies this, frames, pyramidLvlNodes
      ensures pyramidHeight == pyrHeight && size == old(size)
      ensures Written(frames[..], pyramidLvlNodes[..], frameIndex)
              == GroupWrites(old(frames[..]), old(pyramidLvlNodes[..]), gfInterval, pyrHeight, firstFrameUpdateType)
    {
      ghost var fs := frames[..];
      pyramidHeight := pyrHeight;
      forall l | 0 <= l < pyramidLvlNodes.Length {
        pyramidLvlNodes[l] := 0;
      }
      assert pyramidLvlNodes[..] == Zeros(MAX_PYRAMID_LVL);
      frameIndex := 0;

      // Keyframe / Overlay frame / Golden frame.
      ghost var e0 := FrameParams(firstFrameUpdateType, 0, 0, 0, fs[0].frameDispIdx, MIN_PYRAMID_LVL);
      frames[frameIndex] := FrameParams(firstFrameUpdateType, 0, 0, 0, frames[frameIndex].frameDispIdx,
                                        MIN_PYRAMID_LVL);
      frameIndex := frameIndex + 1;
      assert frames[..] == Put(fs, 0, e0);

      // ALTREF.
      var useAltref := pyramidHeight > 0;
      if useAltref {
        frames[frameIndex] := TopArf(gfInterval, pyramidHeight);
        frameIndex := frameIndex + 1;
        assert frames[..] == Put(Put(fs, 0, e0), 1, TopArf(gfInterval, pyrHeight));
      }

      // Rest of the frames.
      var nextHeight := if useAltref then pyramidHeight - 1 else pyramidHeight;
      assert GroupWrites(fs, old(pyramidLvlNodes[..]), gfInterval, pyrHeight, firstFrameUpdateType)
             == MultiLayer(frames[..], pyramidLvlNodes[..], 0, gfInterval, frameIndex, 0, nextHeight);
      frameIndex := SetMultiLayerParams(0, gfInterval, frameIndex, 0, nextHeight);
    }

    /** The display index that a GOP index stands for. */
    function DispIdxOf(gopIdx: int): int
      reads frames
      requires -1 <= gopIdx < frames.Length
    {
      if gopIdx == -1 then -1 else frames[gopIdx].frameDispIdx
    }

    /** set_ref_frame_disp_idx: converts the GOP-index map of frames
        0..size into display indices. */
    method SetRefFrameDispIdx()
      requires Valid() && 0 <= size < frames.Length
      requires forall i, r :: 0 <= i <= size && 0 <= r < INTER_REFS_PER_FRAME ==>
        -1 <= refFrameGopIdx[i, r] < frames.Length
      modifies refFrameDispIdx
      ensures forall i, r :: 0 <= i <= size && 0 <= r < INTER_REFS_PER_FRAME ==>
        refFrameDispIdx[i, r] == DispIdxOf(refFrameGopIdx[i, r])
      ensures forall i, r :: size < i < frames.Length && 0 <= r < INTER_REFS_PER_FRAME ==>
        refFrameDispIdx[i, r] == old(refFrameDispIdx[i, r])
    {
      var i := 0;
      while i <= size
        invariant 0 <= i <= size + 1
        invariant forall i', r :: 0 <= i' < i && 0 <= r < INTER_REFS_PER_FRAME ==>
          refFrameDispIdx[i', r] == DispIdxOf(refFrameGopIdx[i', r])
        invariant forall i', r :: i <= i' < frames.Length && 0 <= r < INTER_REFS_PER_FRAME ==>
          refFrameDispIdx[i', r] == old(refFrameDispIdx[i', r])
      {
        var ref := 0;
        while ref < INTER_REFS_PER_FRAME
          invariant 0 <= ref <= INTER_REFS_PER_FRAME
          invariant forall i', r :: 0 <= i' < i && 0 <= r < INTER_REFS_PER_FRAME ==>
            refFrameDispIdx[i', r] == DispIdxOf(refFrameGopIdx[i', r])
          invariant forall r :: 0 <= r < ref ==> refFrameDispIdx[i, r] == DispIdxOf(refFrameGopIdx[i, r])
          invariant forall i', r :: 0 <= r < INTER_REFS_PER_FRAME && ((i' == i && ref <= r) || i < i' < frames.Length) ==>
            refFrameDispIdx[i', r] == old(refFrameDispIdx[i', r])
        {
          var refGopIdx := refFrameGopIdx[i, ref];
          if refGopIdx == -1 {
            refFrameDispIdx[i, ref] := -1;
          } else {
            refFrameDispIdx[i, ref] := frames[refGopIdx].frameDispIdx;
          }
          ref := ref + 1;
        }
        i := i + 1;
      }
    }

    /** set_gop_ref_frame_map: fills ref_frame_gop_idx for frames 0..size by
        replaying the group with a stack of pending ARFs and a queue of the
        last three shown frames, then converts it to display indices. */
    method SetGopRefFrameMap()
      requires Valid() && 0 <= size < frames.Length
      requires ArfStackFits(frames[..], size)
      modifies refFrameGopIdx, refFrameDispIdx
      ensures forall r :: 0 <= r < INTER_REFS_PER_FRAME ==> refFrameGopIdx[0, r] == -1
      ensures forall i :: 1 <= i <= size ==> RowOk(refFrameGopIdx, frames[..], i)
      ensures forall i, r :: 1 <= i <= size && 0 <= r < INTER_REFS_PER_FRAME ==>
        refFrameGopIdx[i, r] == ExpectedRow(Replay(frames[..], i), InitRefIdx(frames[..]))[r]
      ensures forall i, r :: size < i < frames.Length && 0 <= r < INTER_REFS_PER_FRAME ==>
        refFrameGopIdx[i, r] == old(refFrameGopIdx[i, r])
      ensures forall i, r :: 0 <= i <= size && 0 <= r < INTER_REFS_PER_FRAME ==>
        -1 <= refFrameGopIdx[i, r] < frames.Length
      ensures forall i, r :: 0 <= i <= size && 0 <= r < INTER_REFS_PER_FRAME ==>
        refFrameDispIdx[i, r] == DispIdxOf(refFrameGopIdx[i, r])
      ensures forall i, r :: size < i < frames.Length && 0 <= r < INTER_REFS_PER_FRAME ==>
        refFrameDispIdx[i, r] == old(refFrameDispIdx[i, r])
    {
      var initRefIdx := if frames[0].updateType == KfUpdate then 0 else -1;
      InitRefFrameMap(initRefIdx);

      BuildRefMap(initRefIdx);
      RowsMatchRows(refFrameGopIdx, frames[..], size + 1, initRefIdx);
      assert initRefIdx == InitRefIdx(frames[..]);
      forall i, r | 0 <= i <= size && 0 <= r < INTER_REFS_PER_FRAME
        ensures -1 <= refFrameGopIdx[i, r] < frames.Length
      {
        if i > 0 {
          assert RowOk(refFrameGopIdx, frames[..], i);
        }
      }

      // Set the map in display order index by converting from gop indices in
      // the above map
      SetRefFrameDispIdx();
    }

    /** The state the main loop of set_gop_ref_frame_map keeps before
        visiting frameIdx: the ARF stack and LAST queue hold earlier frames
        and equal the replay up to frameIdx, and rows 1..frameIdx-1 match
        it. */
    ghost predicate MapLoopState(frameIdx: int, initRefIdx: int, arfStack: array<int>, arfStackSize: int,
                                 lstQueue: array<int>, lstQueueSize: int, extRefIdx: int, fs: seq<FrameParams>)
      reads this, refFrameGopIdx, arfStack, lstQueue
    {
      1 <= frameIdx <= |fs| && frameIdx <= refFrameGopIdx.Length0
      && refFrameGopIdx.Length1 == INTER_REFS_PER_FRAME
      && arfStack.Length == MAX_PYRAMID_LVL && lstQueue.Length == LST_QUEUE_MAX
      && arfStackSize == ArfDepth(fs, frameIdx) && arfStackSize <= MAX_PYRAMID_LVL
      && 0 <= lstQueueSize <= LST_QUEUE_MAX
      && AllBelow(arfStack[..], frameIdx) && LiveArfs(arfStack[..], arfStackSize, fs)
      && AllBelow(lstQueue[..], frameIdx)
      && -1 <= extRefIdx < frameIdx
      && RowsMatch(refFrameGopIdx, fs, frameIdx, initRefIdx)
      && RefState(arfStack[..], arfStackSize, lstQueue[..], lstQueueSize, extRefIdx) == Replay(fs, frameIdx)
    }

    /** The main loop of set_gop_ref_frame_map: walks the group in coding
        order, keeping the stack of pending ARFs and the queue of recent LAST
        frames, and fills row frameIdx of the map from them. */
    method BuildRefMap(initRefIdx: int)
      requires Valid() && 0 <= size < frames.Length
      requires ArfStackFits(frames[..], size)
      requires initRefIdx == 0 || initRefIdx == -1
      requires forall r :: 0 <= r < INTER_REFS_PER_FRAME ==> refFrameGopIdx[0, r] == -1
      requires forall i, r :: 1 <= i <= size && 0 <= r < INTER_REFS_PER_FRAME ==>
        refFrameGopIdx[i, r] == initRefIdx
      modifies refFrameGopIdx
      ensures forall r :: 0 <= r < INTER_REFS_PER_FRAME ==> refFrameGopIdx[0, r] == -1
      ensures RowsMatch(refFrameGopIdx, frames[..], size + 1, initRefIdx)
      ensures forall i, r :: size < i < frames.Length && 0 <= r < INTER_REFS_PER_FRAME ==>
        refFrameGopIdx[i, r] == old(refFrameGopIdx[i, r])
    {
      ghost var fs := frames[..];
      // Set the map for frames in the current gop
      var arfStack, arfStackSize, lstQueue, lstQueueSize, extRefIdx := StartRefMap(initRefIdx);
      var frameIdx := 1;
      while frameIdx <= size
        modifies refFrameGopIdx, arfStack, lstQueue
        invariant 1 <= frameIdx <= size + 1
        invariant MapLoopState(frameIdx, initRefIdx, arfStack, arfStackSize, lstQueue, lstQueueSize, extRefIdx, fs)
        invariant forall r :: 0 <= r < INTER_REFS_PER_FRAME ==> refFrameGopIdx[0, r] == -1
        invariant forall i, r :: frameIdx <= i < frames.Length && 0 <= r < INTER_REFS_PER_FRAME ==>
          refFrameGopIdx[i, r] == old(refFrameGopIdx[i, r])
      {
        arfStackSize, lstQueueSize, extRefIdx :=
          BuildRefMapStep(frameIdx, initRefIdx, arfStack, arfStackSize, lstQueue, lstQueueSize, extRefIdx, fs);
        frameIdx := frameIdx + 1;
      }
    }

    /** The bookkeeping set_gop_ref_frame_map starts from: an empty ARF
        stack and LAST queue, both filled with -1, and no ext_ref_idx. */
    method StartRefMap(initRefIdx: int)
      returns (arfStack: array<int>, arfStackSize: int, lstQueue: array<int>, lstQueueSize: int, extRefIdx: int)
      requires Valid() && 0 < frames.Length
      ensures fresh(arfStack) && fresh(lstQueue)
      ensures arfStack[..] == seq(MAX_PYRAMID_LVL, _ => -1) && lstQueue[..] == seq(LST_QUEUE_MAX, _ => -1)
      ensures arfStackSize == 0 && lstQueueSize == 0 && extRefIdx == -1
      ensures MapLoopState(1, initRefIdx, arfStack, arfStackSize, lstQueue, lstQueueSize, extRefIdx, frames[..])
    {
      arfStack := new int[MAX_PYRAMID_LVL](_ => -1);
      arfStackSize := 0;
      lstQueue := new int[LST_QUEUE_MAX](_ => -1);
      lstQueueSize := 0;
      extRefIdx := -1;
    }

    /** One iteration of the main loop of set_gop_ref_frame_map: fills row
        frameIdx from the replayed state, then pushes and pops the ARF stack
        and the LAST queue for frame frameIdx. */
    method BuildRefMapStep(frameIdx: int, initRefIdx: int, arfStack: array<int>, arfStackSize: int,
                           lstQueue: array<int>, lstQueueSize: int, extRefIdx: int, ghost fs: seq<FrameParams>)
      returns (arfStackSize': int, lstQueueSize': int, extRefIdx': int)
      requires Valid() && 1 <= frameIdx <= size < frames.Length && fs == frames[..]
      requires ArfStackFits(fs, size)
      requires initRefIdx == 0 || initRefIdx == -1
      requires MapLoopState(frameIdx, initRefIdx, arfStack, arfStackSize, lstQueue, lstQueueSize, extRefIdx, fs)
      requires forall r :: 0 <= r < INTER_REFS_PER_FRAME ==> refFrameGopIdx[frameIdx, r] == initRefIdx
      modifies refFrameGopIdx, arfStack, lstQueue
      ensures MapLoopState(frameIdx + 1, initRefIdx, arfStack, arfStackSize', lstQueue, lstQueueSize', extRefIdx', fs)
      ensures forall i, r :: 0 <= i < frames.Length && i != frameIdx && 0 <= r < INTER_REFS_PER_FRAME ==>
        refFrameGopIdx[i, r] == old(refFrameGopIdx[i, r])
    {
      ExtendRows(frameIdx, initRefIdx, arfStack, arfStackSize, lstQueue, lstQueueSize, extRefIdx, fs);
      assert fs[frameIdx] == frames[frameIdx];
      DepthStep(fs, size, frameIdx);
      ReplayNext(fs, frameIdx);
      assert RefState(arfStack[..], arfStackSize, lstQueue[..], lstQueueSize, extRefIdx) == Replay(fs, frameIdx);
      arfStackSize', lstQueueSize', extRefIdx' :=
        UpdateArfStackAndQueue(frames[frameIdx].updateType, frameIdx, arfStack, arfStackSize,
                               lstQueue, lstQueueSize, extRefIdx, fs);
    }

    /** Filling row frameIdx from the replayed state extends the rows that
        match the replay by one. */
    method ExtendRows(frameIdx: int, initRefIdx: int, arfStack: array<int>, arfStackSize: int,
                      lstQueue: array<int>, lstQueueSize: int, extRefIdx: int, ghost fs: seq<FrameParams>)
      requires Valid() && 1 <= frameIdx < frames.Length && fs == frames[..]
      requires initRefIdx == 0 || initRefIdx == -1
      requires arfStack.Length == MAX_PYRAMID_LVL && lstQueue.Length == LST_QUEUE_MAX
      requires arfStackSize == ArfDepth(fs, frameIdx) && arfStackSize <= MAX_PYRAMID_LVL
      requires 0 <= lstQueueSize <= LST_QUEUE_MAX
      requires AllBelow(arfStack[..], frameIdx) && LiveArfs(arfStack[..], arfStackSize, fs)
      requires AllBelow(lstQueue[..], frameIdx)
      requires -1 <= extRefIdx < frameIdx
      requires RowsMatch(refFrameGopIdx, fs, frameIdx, initRefIdx)
      requires RefState(arfStack[..], arfStackSize, lstQueue[..], lstQueueSize, extRefIdx) == Replay(fs, frameIdx)
      requires forall r :: 0 <= r < INTER_REFS_PER_FRAME ==> refFrameGopIdx[frameIdx, r] == initRefIdx
      modifies refFrameGopIdx
      ensures RowsMatch(refFrameGopIdx, fs, frameIdx + 1, initRefIdx)
      ensures forall i, r :: 0 <= i < frames.Length && i != frameIdx && 0 <= r < INTER_REFS_PER_FRAME ==>
        refFrameGopIdx[i, r] == old(refFrameGopIdx[i, r])
    {
      label before:
      FillRow(frameIdx, initRefIdx, arfStack, arfStackSize, lstQueue, lstQueueSize, extRefIdx, fs);
      forall i | 1 <= i < frameIdx
        ensures RowOk(refFrameGopIdx, fs, i)
      {
        assert old@before(RowOk(refFrameGopIdx, fs, i));
      }
    }

    /** One row of set_gop_ref_frame_map: every entry points at an earlier
        frame or is -1, GOLDEN at the key frame, ALTREF at a live ARF. */
    method FillRow(frameIdx: int, initRefIdx: int, arfStack: array<int>, arfStackSize: int,
                   lstQueue: array<int>, lstQueueSize: int, extRefIdx: int, ghost fs: seq<FrameParams>)
      requires Valid() && 1 <= frameIdx < frames.Length
      requires initRefIdx == 0 || initRefIdx == -1
      requires arfStack.Length == MAX_PYRAMID_LVL && arfStackSize <= MAX_PYRAMID_LVL
      requires lstQueue.Length == LST_QUEUE_MAX && 0 <= lstQueueSize <= LST_QUEUE_MAX
      requires AllBelow(arfStack[..], frameIdx) && LiveArfs(arfStack[..], arfStackSize, fs)
      requires AllBelow(lstQueue[..], frameIdx)
      requires -1 <= extRefIdx < frameIdx
      requires forall r :: 0 <= r < INTER_REFS_PER_FRAME ==> refFrameGopIdx[frameIdx, r] == initRefIdx
      modifies refFrameGopIdx
      ensures forall r :: 0 <= r < INTER_REFS_PER_FRAME ==> -1 <= refFrameGopIdx[frameIdx, r] < frameIdx
      ensures refFrameGopIdx[frameIdx, RefIdx(GOLDEN_FRAME)] == 0
      ensures arfStackSize > 0 ==>
        0 <= refFrameGopIdx[frameIdx, RefIdx(ALTREF_FRAME)] < |fs|
        && IsArf(fs[refFrameGopIdx[frameIdx, RefIdx(ALTREF_FRAME)]].updateType)
      ensures frameIdx < |fs| && arfStackSize == ArfDepth(fs, frameIdx) ==> RowOk(refFrameGopIdx, fs, frameIdx)
      ensures forall r :: 0 <= r < INTER_REFS_PER_FRAME ==>
        refFrameGopIdx[frameIdx, r]
        == ExpectedRow(RefState(arfStack[..], arfStackSize, lstQueue[..], lstQueueSize, extRefIdx), initRefIdx)[r]
      ensures forall i, r :: 0 <= i < frames.Length && i != frameIdx && 0 <= r < INTER_REFS_PER_FRAME ==>
        refFrameGopIdx[i, r] == old(refFrameGopIdx[i, r])
    {
      assert forall j :: 0 <= j < MAX_PYRAMID_LVL ==> -1 <= arfStack[..][j] < frameIdx;
      assert forall j :: 0 <= j < LST_QUEUE_MAX ==> -1 <= lstQueue[..][j] < frameIdx;
      SetRowRefs(frameIdx, initRefIdx, arfStack, arfStackSize, lstQueue, lstQueueSize, extRefIdx);
      if arfStackSize > 0 {
        assert arfStack[..][arfStackSize - 1] == arfStack[arfStackSize - 1];
      }
    }

    /** The start of set_gop_ref_frame_map: row 0 is all -1; rows 1..size
        all hold initRefIdx (entry 0 when the group starts with a key frame,
        which resets every slot, else -1). */
    method InitRefFrameMap(initRefIdx: int)
      requires Valid() && 0 <= size < frames.Length
      modifies refFrameGopIdx
      ensures forall r :: 0 <= r < INTER_REFS_PER_FRAME ==> refFrameGopIdx[0, r] == -1
      ensures forall i, r :: 1 <= i <= size && 0 <= r < INTER_REFS_PER_FRAME ==>
        refFrameGopIdx[i, r] == initRefIdx
      ensures forall i, r :: size < i < frames.Length && 0 <= r < INTER_REFS_PER_FRAME ==>
        refFrameGopIdx[i, r] == old(refFrameGopIdx[i, r])
    {
      ResetRefFrameIdx(refFrameGopIdx, 0, -1);
      var frameIdx := 1;
      while frameIdx <= size
        invariant 1 <= frameIdx <= size + 1
        invariant forall r :: 0 <= r < INTER_REFS_PER_FRAME ==> refFrameGopIdx[0, r] == -1
        invariant forall i, r :: 1 <= i < frameIdx && 0 <= r < INTER_REFS_PER_FRAME ==>
          refFrameGopIdx[i, r] == initRefIdx
        invariant forall i, r :: frameIdx <= i < frames.Length && 0 <= r < INTER_REFS_PER_FRAME ==>
          refFrameGopIdx[i, r] == old(refFrameGopIdx[i, r])
      {
        ResetRefFrameIdx(refFrameGopIdx, frameIdx, initRefIdx);
        frameIdx := frameIdx + 1;
      }
    }

    /** GOLDEN, ALTREF, BWDREF and ALTREF2 of row frameIdx: the row
        the bookkeeping gives before the LAST slots are filled. */
    method SetArfRefs(frameIdx: int, initRefIdx: int, arfStack: array<int>, arfStackSize: int,
                      lstQueue: array<int>, extRefIdx: int)
      requires Valid() && 1 <= frameIdx < frames.Length
      requires arfStack.Length == MAX_PYRAMID_LVL && arfStackSize <= MAX_PYRAMID_LVL
      requires lstQueue.Length == LST_QUEUE_MAX
      requires forall r :: 0 <= r < INTER_REFS_PER_FRAME ==> refFrameGopIdx[frameIdx, r] == initRefIdx
      modifies refFrameGopIdx
      ensures forall r :: 0 <= r < INTER_REFS_PER_FRAME ==>
        refFrameGopIdx[frameIdx, r]
        == ExpectedRow(RefState(arfStack[..], arfStackSize, lstQueue[..], 0, extRefIdx), initRefIdx)[r]
      ensures forall i, r :: 0 <= i < frames.Length && i != frameIdx && 0 <= r < INTER_REFS_PER_FRAME ==>
        refFrameGopIdx[i, r] == old(refFrameGopIdx[i, r])
    {
      refFrameGopIdx[frameIdx, RefIdx(GOLDEN_FRAME)] := 0;
      if arfStackSize > 0 {
        refFrameGopIdx[frameIdx, RefIdx(ALTREF_FRAME)] := arfStack[arfStackSize - 1];
      }
      if arfStackSize > 1 {
        refFrameGopIdx[frameIdx, RefIdx(BWDREF_FRAME)] := arfStack[0];
      }
      if arfStackSize > 2 {
        refFrameGopIdx[frameIdx, RefIdx(ALTREF2_FRAME)] := arfStack[1];
      }
      if arfStackSize == 1 && extRefIdx != -1 {
        refFrameGopIdx[frameIdx, RefIdx(ALTREF2_FRAME)] := extRefIdx;
      }
    }

    /** The first part of one iteration of set_gop_ref_frame_map: row
        `frameIdx` (holding initRefIdx everywhere) gets GOLDEN = entry 0,
        ALTREF, BWDREF and ALTREF2 from the ARF stack (ALTREF2 from the
        overlay that last left the queue when only one ARF is pending), and
        LAST..LAST3 from the queue. */
    method SetRowRefs(frameIdx: int, initRefIdx: int, arfStack: array<int>, arfStackSize: int,
                      lstQueue: array<int>, lstQueueSize: int, extRefIdx: int)
      requires Valid() && 1 <= frameIdx < frames.Length
      requires initRefIdx == 0 || initRefIdx == -1
      requires arfStack.Length == MAX_PYRAMID_LVL && arfStackSize <= MAX_PYRAMID_LVL
      requires lstQueue.Length == LST_QUEUE_MAX && 0 <= lstQueueSize <= LST_QUEUE_MAX
      requires forall j :: 0 <= j < MAX_PYRAMID_LVL ==> -1 <= arfStack[j] < frameIdx
      requires forall j :: 0 <= j < LST_QUEUE_MAX ==> -1 <= lstQueue[j] < frameIdx
      requires -1 <= extRefIdx < frameIdx
      requires forall r :: 0 <= r < INTER_REFS_PER_FRAME ==> refFrameGopIdx[frameIdx, r] == initRefIdx
      modifies refFrameGopIdx
      ensures forall r :: 0 <= r < INTER_REFS_PER_FRAME ==> -1 <= refFrameGopIdx[frameIdx, r] < frameIdx
      ensures refFrameGopIdx[frameIdx, RefIdx(GOLDEN_FRAME)] == 0
      ensures arfStackSize > 0 ==>
        refFrameGopIdx[frameIdx, RefIdx(ALTREF_FRAME)] == arfStack[arfStackSize - 1]
      ensures arfStackSize > 1 ==>
        refFrameGopIdx[frameIdx, RefIdx(BWDREF_FRAME)] == arfStack[0]
      // slots 0, 1 and 2 are LAST, LAST2 and LAST3
      ensures forall r :: 0 <= r < lstQueueSize ==>
        refFrameGopIdx[frameIdx, r] == lstQueue[lstQueueSize - 1 - r]
      ensures arfStackSize > 2 ==> refFrameGopIdx[frameIdx, RefIdx(ALTREF2_FRAME)] == arfStack[1]
      ensures arfStackSize == 1 && extRefIdx != -1 ==> refFrameGopIdx[frameIdx, RefIdx(ALTREF2_FRAME)] == extRefIdx
      ensures forall r :: 0 <= r < INTER_REFS_PER_FRAME ==>
        refFrameGopIdx[frameIdx, r]
        == ExpectedRow(RefState(arfStack[..], arfStackSize, lstQueue[..], lstQueueSize, extRefIdx), initRefIdx)[r]
      ensures forall i, r :: 0 <= i < frames.Length && i != frameIdx && 0 <= r < INTER_REFS_PER_FRAME ==>
        refFrameGopIdx[i, r] == old(refFrameGopIdx[i, r])
    {
      SetArfRefs(frameIdx, initRefIdx, arfStack, arfStackSize, lstQueue, extRefIdx);
      if lstQueueSize > 0 {
        SetLastRefs(refFrameGopIdx, frameIdx, lstQueue, lstQueueSize);
      }
      ghost var st := RefState(arfStack[..], arfStackSize, lstQueue[..], lstQueueSize, extRefIdx);
      ExpectedRowSplits(st, initRefIdx);
      ExpectedRowSlots(st, initRefIdx, frameIdx);
    }
  }
}
