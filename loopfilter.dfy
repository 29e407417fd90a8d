/** Deblocking set-up of av1/common/av1_loopfilter.c: the sharpness
    limits, the per-segment filter levels, the bit positions of the
    filter masks, the choice of filter length for one edge, and the rows
    a (partial) frame filter covers.

    Configuration: CONFIG_EXT_DELTA_Q, LOOP_FILTER_BITMASK and
    CONFIG_LOOPFILTERING_ACROSS_TILES on, as in tile_common.dfy. The enumerations come from
    headers that are not part of this model and take libaom's values:
    MAX_LOOP_FILTER 63, MAX_SEGMENTS 8, TOTAL_REFS_PER_FRAME 8,
    MAX_MODE_LF_DELTAS 2, SEG_LVL_ALT_LF_Y_V..SEG_LVL_ALT_LF_V 1..4,
    TX_4X4..TX_64X64 0..4. */
module LoopFilter {
  import opened IntArith
  import opened Wrappers

  const MAX_LOOP_FILTER: int := 63
  const MAX_SEGMENTS: int := 8
  const SEG_LVL_MAX: int := 8
  const TOTAL_REFS_PER_FRAME: int := 8
  const INTER_REFS_PER_FRAME: int := 7
  const MAX_MODE_LF_DELTAS: int := 2
  const INTRA_FRAME: int := 0
  const LAST_FRAME: int := 1

  const SEG_LVL_ALT_LF_Y_V: int := 1
  const SEG_LVL_ALT_LF_Y_H: int := 2
  const SEG_LVL_ALT_LF_U: int := 3
  const SEG_LVL_ALT_LF_V: int := 4

  const VERT_EDGE: int := 0
  const HORZ_EDGE: int := 1

  const TX_4X4: int := 0
  const TX_8X8: int := 1
  const TX_16X16: int := 2
  const TX_32X32: int := 3
  const TX_64X64: int := 4

  const MI_SIZE_64X64: int := 16

  // ---------------------------------------------------------------------
  // Sharpness limits

  /** block_inside_limit of update_sharpness: the level shifted down once
      for sharpness 1..4 and twice above 4, capped at 9 - sharpness when
      sharpness is on, and at least 1. */
  function InsideLimit(lvl: int, sharpness: int): (lim: int)
    requires 0 <= lvl
    ensures 1 <= lim <= Max(lvl, 1)
    ensures 0 < sharpness ==> lim <= Max(9 - sharpness, 1)
  {
    var shift: nat := (if sharpness > 0 then 1 else 0) + (if sharpness > 4 then 1 else 0);
    Pow2Values();
    var l := Shr(lvl, shift);
    var capped := if sharpness > 0 && l > 9 - sharpness then 9 - sharpness else l;
    if capped < 1 then 1 else capped
  }

  /** The edge limit: twice (level + 2) plus the inside limit. */
  function MbLimit(lvl: int, sharpness: int): (mblim: int)
    requires 0 <= lvl
    ensures 2 * (lvl + 2) < mblim
  {
    2 * (lvl + 2) + InsideLimit(lvl, sharpness)
  }

  /** The high-edge-variance threshold of av1_loop_filter_init, lvl >> 4. */
  function HevThr(lvl: int): (t: int)
    requires 0 <= lvl <= MAX_LOOP_FILTER
    ensures 0 <= t <= 3 && 16 * t <= lvl < 16 * (t + 1)
  {
    Pow2Values();
    Shr(lvl, 4)
  }

  /** A higher level never lowers the inside limit. */
  lemma InsideLimitMonotone(lvl1: int, lvl2: int, sharpness: int)
    requires 0 <= lvl1 <= lvl2
    ensures InsideLimit(lvl1, sharpness) <= InsideLimit(lvl2, sharpness)
  {
    Pow2Values();
  }

  /** A sharper setting never raises the inside limit. */
  lemma InsideLimitSharper(lvl: int, s1: int, s2: int)
    requires 0 <= lvl && 0 <= s1 <= s2
    ensures InsideLimit(lvl, s2) <= InsideLimit(lvl, s1)
  {
    Pow2Values();
    assert lvl / 4 <= lvl / 2 <= lvl;
  }

  /** Every threshold update_sharpness and av1_loop_filter_init store fits
      the byte memset writes, so nothing is truncated. */
  lemma ThresholdsFitByte(lvl: int, sharpness: int)
    requires 0 <= lvl <= MAX_LOOP_FILTER
    ensures 1 <= InsideLimit(lvl, sharpness) <= 63
    ensures MbLimit(lvl, sharpness) <= 255 && HevThr(lvl) <= 255
  {
  }

  /** The thresholds of one level (loop_filter_thresh), one value standing
      for the SIMD_WIDTH identical bytes memset writes. */
  datatype Thresh = Thresh(lim: int, mblim: int, hevThr: int)

  // ---------------------------------------------------------------------
  // Filter levels

  /** seg_lvl_lf_lut: the segment feature that adjusts the level of a
      plane and edge direction. */
  function SegLvlLf(plane: int, dir: int): (f: int)
    requires 0 <= plane <= 2 && 0 <= dir <= 1
    ensures SEG_LVL_ALT_LF_Y_V <= f <= SEG_LVL_ALT_LF_V
  {
    if plane == 0 then (if dir == 0 then SEG_LVL_ALT_LF_Y_V else SEG_LVL_ALT_LF_Y_H)
    else if plane == 1 then SEG_LVL_ALT_LF_U
    else SEG_LVL_ALT_LF_V
  }

  /** Luma has a feature per edge direction; each chroma plane one for
      both, and no two planes share one. */
  lemma SegFeaturePerDirection(plane: int, other: int)
    requires 0 <= plane <= 2 && 0 <= other <= 2
    ensures (SegLvlLf(plane, VERT_EDGE) == SegLvlLf(plane, HORZ_EDGE)) <==> plane != 0
    ensures plane != other ==> forall d, e :: 0 <= d <= 1 && 0 <= e <= 1 ==> SegLvlLf(plane, d) != SegLvlLf(other, e)
  {
  }

  /** The segmentation features the loop filter reads: whether feature f is
      active for segment s (segfeature_active) and its data (get_segdata). */
  datatype Segmentation = Segmentation(active: seq<seq<bool>>, data: seq<seq<int>>)
  {
    predicate Valid()
    {
      |active| == MAX_SEGMENTS && |data| == MAX_SEGMENTS
      && (forall s :: 0 <= s < MAX_SEGMENTS ==> |active[s]| == SEG_LVL_MAX && |data[s]| == SEG_LVL_MAX)
    }
  }

  /** The delta coding of levels: the mode_ref_delta_enabled and
      intra_ref_delta of struct loopfilter, and ref_delta and mode_deltas
      of each inter reference, indexed by ref - LAST_FRAME. */
  datatype Deltas = Deltas(enabled: bool, intraRefDelta: int, refDelta: seq<int>, modeDeltas: seq<seq<int>>)
  {
    predicate Valid()
    {
      |refDelta| == INTER_REFS_PER_FRAME && |modeDeltas| == INTER_REFS_PER_FRAME
      && (forall k :: 0 <= k < INTER_REFS_PER_FRAME ==> |modeDeltas[k]| == MAX_MODE_LF_DELTAS)
    }
  }

  /** lvl_seg: the frame level, replaced by its clamped sum with the
      segment's data when the segment feature is active. */
  function SegLevel(base: int, seg: Segmentation, segId: int, feature: int): (l: int)
    requires seg.Valid() && 0 <= segId < MAX_SEGMENTS && 0 <= feature < SEG_LVL_MAX
    requires 0 <= base <= MAX_LOOP_FILTER
    ensures 0 <= l <= MAX_LOOP_FILTER
    ensures !seg.active[segId][feature] ==> l == base
    ensures seg.active[segId][feature] && seg.data[segId][feature] == 0 ==> l == base
  {
    if seg.active[segId][feature] then Clamp(base + seg.data[segId][feature], 0, MAX_LOOP_FILTER)
    else base
  }

  /** 1 << (lvl_seg >> 5): deltas count once below level 32, twice from
      32 up. */
  function DeltaScale(lvlSeg: int): (scale: int)
    requires 0 <= lvlSeg <= MAX_LOOP_FILTER
    ensures scale == (if lvlSeg < 32 then 1 else 2)
  {
    Pow2Values();
    Pow2(Shr(lvlSeg, 5))
  }

  /** The level av1_loop_filter_frame_init leaves in lvl[seg][dir][ref][mode]
      given lvl_seg and the entry's previous value: lvl_seg itself without
      delta coding; otherwise lvl_seg plus the scaled deltas of the
      reference (and, for inter references, of the mode), clamped. With
      delta coding on, the intra entry of mode 1 is not written. */
  function StoredLevel(lvlSeg: int, d: Deltas, ref: int, mode: int, prev: int): (l: int)
    requires d.Valid() && 0 <= lvlSeg <= MAX_LOOP_FILTER
    requires 0 <= ref < TOTAL_REFS_PER_FRAME && 0 <= mode < MAX_MODE_LF_DELTAS
    ensures !d.enabled ==> l == lvlSeg
    ensures d.enabled && ref == INTRA_FRAME && mode == 1 ==> l == prev
    ensures !d.enabled || ref != INTRA_FRAME || mode == 0 ==> 0 <= l <= MAX_LOOP_FILTER
  {
    if !d.enabled then lvlSeg
    else
      var scale := DeltaScale(lvlSeg);
      if ref == INTRA_FRAME then
        if mode == 0 then Clamp(lvlSeg + d.intraRefDelta * scale, 0, MAX_LOOP_FILTER) else prev
      else
        Clamp(lvlSeg + d.refDelta[ref - LAST_FRAME] * scale + d.modeDeltas[ref - LAST_FRAME][mode] * scale,
              0, MAX_LOOP_FILTER)
  }

  /** Delta coding with every delta zero stores the same levels as no
      delta coding, as the comment beside the memset supposes. */
  lemma ZeroDeltasKeepLevel(lvlSeg: int, d: Deltas, ref: int, mode: int, prev: int)
    requires d.Valid() && 0 <= lvlSeg <= MAX_LOOP_FILTER
    requires 0 <= ref < TOTAL_REFS_PER_FRAME && 0 <= mode < MAX_MODE_LF_DELTAS
    requires d.intraRefDelta == 0
    requires forall k :: 0 <= k < INTER_REFS_PER_FRAME ==> d.refDelta[k] == 0
    requires forall k, m :: 0 <= k < INTER_REFS_PER_FRAME && 0 <= m < MAX_MODE_LF_DELTAS ==> d.modeDeltas[k][m] == 0
    requires ref != INTRA_FRAME || mode == 0
    ensures StoredLevel(lvlSeg, d, ref, mode, prev) == StoredLevel(lvlSeg, d.(enabled := false), ref, mode, prev)
  {
    if d.enabled && ref != INTRA_FRAME {
      assert d.refDelta[ref - LAST_FRAME] == 0;
      assert d.modeDeltas[ref - LAST_FRAME][mode] == 0;
    }
  }

  /** A larger reference delta never lowers the level of an inter
      reference. */
  lemma StoredLevelMonotone(lvlSeg: int, d: Deltas, ref: int, mode: int, delta: int)
    requires d.Valid() && d.enabled && 0 <= lvlSeg <= MAX_LOOP_FILTER
    requires LAST_FRAME <= ref < TOTAL_REFS_PER_FRAME && 0 <= mode < MAX_MODE_LF_DELTAS
    requires d.refDelta[ref - LAST_FRAME] <= delta
    ensures StoredLevel(lvlSeg, d, ref, mode, 0)
      <= StoredLevel(lvlSeg, d.(refDelta := d.refDelta[ref - LAST_FRAME := delta]), ref, mode, 0)
  {
    var scale := DeltaScale(lvlSeg);
    assert d.refDelta[ref - LAST_FRAME] * scale <= delta * scale;
  }

  // ---------------------------------------------------------------------
  // The loop-filter state

  /** The parts of AV1_COMMON the set-up writes: lf_info's thresholds and
      levels, the sharpness of struct loopfilter, and the
      last_sharpness_level kept with the primary reference frame. */
  class LoopFilterCommon {
    const lfthr: array<Thresh>
    const lvl: array4<int>
    var sharpnessLevel: int
    var lastSharpnessLevel: int

    predicate Valid()
      reads this
    {
      lfthr.Length == MAX_LOOP_FILTER + 1
      && lvl.Length0 == MAX_SEGMENTS && lvl.Length1 == 2
      && lvl.Length2 == TOTAL_REFS_PER_FRAME && lvl.Length3 == MAX_MODE_LF_DELTAS
    }

    constructor(sharpness: int)
      ensures Valid() && sharpnessLevel == sharpness && lastSharpnessLevel == 0
      ensures fresh(lfthr) && fresh(lvl)
    {
      lfthr := new Thresh[MAX_LOOP_FILTER + 1](_ => Thresh(0, 0, 0));
      lvl := new int[MAX_SEGMENTS, 2, TOTAL_REFS_PER_FRAME, MAX_MODE_LF_DELTAS];
      sharpnessLevel := sharpness;
      lastSharpnessLevel := 0;
    }

    /** update_sharpness: for every level, the inside and edge limits of
        the given sharpness; the hev thresholds are kept. */
    method UpdateSharpness(sharpnessLvl: int)
      requires Valid()
      modifies lfthr
      ensures forall l :: 0 <= l <= MAX_LOOP_FILTER ==>
        lfthr[l].lim == InsideLimit(l, sharpnessLvl) && lfthr[l].mblim == MbLimit(l, sharpnessLvl)
        && lfthr[l].hevThr == old(lfthr[l].hevThr)
    {
      var l := 0;
      while l <= MAX_LOOP_FILTER
        invariant 0 <= l <= MAX_LOOP_FILTER + 1
        invariant forall k :: 0 <= k < l ==>
          lfthr[k].lim == InsideLimit(k, sharpnessLvl) && lfthr[k].mblim == MbLimit(k, sharpnessLvl)
          && lfthr[k].hevThr == old(lfthr[k].hevThr)
        invariant forall k :: l <= k <= MAX_LOOP_FILTER ==> lfthr[k] == old(lfthr[k])
      {
        var blockInsideLimit := InsideLimit(l, sharpnessLvl);
        lfthr[l] := lfthr[l].(lim := blockInsideLimit, mblim := 2 * (l + 2) + blockInsideLimit);
        l := l + 1;
      }
    }

    /** av1_loop_filter_init: the limits of the current sharpness, which
        is recorded as the last one used, and the hev threshold of every
        level. */
    method Init()
      requires Valid()
      modifies this, lfthr
      ensures Valid() && sharpnessLevel == old(sharpnessLevel) && lastSharpnessLevel == sharpnessLevel
      ensures forall l :: 0 <= l <= MAX_LOOP_FILTER ==>
        lfthr[l] == Thresh(InsideLimit(l, sharpnessLevel), MbLimit(l, sharpnessLevel), HevThr(l))
    {
      UpdateSharpness(sharpnessLevel);
      lastSharpnessLevel := sharpnessLevel;
      var l := 0;
      while l <= MAX_LOOP_FILTER
        invariant 0 <= l <= MAX_LOOP_FILTER + 1
        invariant sharpnessLevel == old(sharpnessLevel) && lastSharpnessLevel == sharpnessLevel
        invariant forall k :: 0 <= k < l ==>
          lfthr[k] == Thresh(InsideLimit(k, sharpnessLevel), MbLimit(k, sharpnessLevel), HevThr(k))
        invariant forall k :: l <= k <= MAX_LOOP_FILTER ==>
          lfthr[k].lim == InsideLimit(k, sharpnessLevel) && lfthr[k].mblim == MbLimit(k, sharpnessLevel)
      {
        lfthr[l] := lfthr[l].(hevThr := HevThr(l));
        l := l + 1;
      }
    }

    /** av1_loop_filter_frame_init: refreshes the limits when the
        sharpness changed since they were computed, then fills the level
        table of every segment and direction for the given plane. */
    method FrameInit(defaultFiltLvl: int, defaultFiltLvlR: int, plane: int, seg: Segmentation, d: Deltas)
      requires Valid() && seg.Valid() && d.Valid() && 0 <= plane <= 2
      requires 0 <= defaultFiltLvl <= MAX_LOOP_FILTER && 0 <= defaultFiltLvlR <= MAX_LOOP_FILTER
      modifies this, lfthr, lvl
      ensures Valid() && sharpnessLevel == old(sharpnessLevel) && lastSharpnessLevel == sharpnessLevel
      ensures old(lastSharpnessLevel) == sharpnessLevel ==>
        forall l :: 0 <= l <= MAX_LOOP_FILTER ==> lfthr[l] == old(lfthr[l])
      ensures old(lastSharpnessLevel) != sharpnessLevel ==>
        forall l :: 0 <= l <= MAX_LOOP_FILTER ==>
          lfthr[l].lim == InsideLimit(l, sharpnessLevel) && lfthr[l].mblim == MbLimit(l, sharpnessLevel)
          && lfthr[l].hevThr == old(lfthr[l].hevThr)
      ensures forall s, dir, ref, mode ::
        0 <= s < MAX_SEGMENTS && 0 <= dir < 2 && 0 <= ref < TOTAL_REFS_PER_FRAME && 0 <= mode < MAX_MODE_LF_DELTAS ==>
          lvl[s, dir, ref, mode]
            == StoredLevel(SegLevel(if dir == 0 then defaultFiltLvl else defaultFiltLvlR, seg, s, SegLvlLf(plane, dir)),
                           d, ref, mode, old(lvl[s, dir, ref, mode]))
    {
      if lastSharpnessLevel != sharpnessLevel {
        UpdateSharpness(sharpnessLevel);
        lastSharpnessLevel := sharpnessLevel;
      }
      ghost var thresholds := lfthr[..];
      var segId := 0;
      while segId < MAX_SEGMENTS
        invariant 0 <= segId <= MAX_SEGMENTS
        invariant Valid() && sharpnessLevel == old(sharpnessLevel) && lastSharpnessLevel == sharpnessLevel
        invariant lfthr[..] == thresholds
        invariant forall s, dir, ref, mode ::
          0 <= s < segId && 0 <= dir < 2 && 0 <= ref < TOTAL_REFS_PER_FRAME && 0 <= mode < MAX_MODE_LF_DELTAS ==>
            lvl[s, dir, ref, mode]
              == StoredLevel(SegLevel(if dir == 0 then defaultFiltLvl else defaultFiltLvlR, seg, s, SegLvlLf(plane, dir)),
                             d, ref, mode, old(lvl[s, dir, ref, mode]))
        invariant forall s, dir, ref, mode ::
          segId <= s < MAX_SEGMENTS && 0 <= dir < 2 && 0 <= ref < TOTAL_REFS_PER_FRAME && 0 <= mode < MAX_MODE_LF_DELTAS ==>
            lvl[s, dir, ref, mode] == old(lvl[s, dir, ref, mode])
      {
        SegmentLevels(segId, defaultFiltLvl, defaultFiltLvlR, plane, seg, d);
        segId := segId + 1;
      }
    }

    /** The two directions of one segment in av1_loop_filter_frame_init. */
    method SegmentLevels(segId: int, defaultFiltLvl: int, defaultFiltLvlR: int, plane: int, seg: Segmentation, d: Deltas)
      requires Valid() && seg.Valid() && d.Valid() && 0 <= plane <= 2 && 0 <= segId < MAX_SEGMENTS
      requires 0 <= defaultFiltLvl <= MAX_LOOP_FILTER && 0 <= defaultFiltLvlR <= MAX_LOOP_FILTER
      modifies lvl
      ensures forall dir, ref, mode :: 0 <= dir < 2 && 0 <= ref < TOTAL_REFS_PER_FRAME && 0 <= mode < MAX_MODE_LF_DELTAS ==>
        lvl[segId, dir, ref, mode]
          == StoredLevel(SegLevel(if dir == 0 then defaultFiltLvl else defaultFiltLvlR, seg, segId, SegLvlLf(plane, dir)),
                         d, ref, mode, old(lvl[segId, dir, ref, mode]))
      ensures forall s, dir, ref, mode ::
        0 <= s < MAX_SEGMENTS && s != segId && 0 <= dir < 2 && 0 <= ref < TOTAL_REFS_PER_FRAME && 0 <= mode < MAX_MODE_LF_DELTAS ==>
          lvl[s, dir, ref, mode] == old(lvl[s, dir, ref, mode])
    {
      var dir := 0;
      while dir < 2
        invariant 0 <= dir <= 2
        invariant forall dr, ref, mode :: 0 <= dr < dir && 0 <= ref < TOTAL_REFS_PER_FRAME && 0 <= mode < MAX_MODE_LF_DELTAS ==>
          lvl[segId, dr, ref, mode]
            == StoredLevel(SegLevel(if dr == 0 then defaultFiltLvl else defaultFiltLvlR, seg, segId, SegLvlLf(plane, dr)),
                           d, ref, mode, old(lvl[segId, dr, ref, mode]))
        invariant forall s, dr, ref, mode ::
          0 <= s < MAX_SEGMENTS && 0 <= dr < 2 && (s != segId || dir <= dr)
          && 0 <= ref < TOTAL_REFS_PER_FRAME && 0 <= mode < MAX_MODE_LF_DELTAS ==>
            lvl[s, dr, ref, mode] == old(lvl[s, dr, ref, mode])
      {
        var lvlSeg := if dir == 0 then defaultFiltLvl else defaultFiltLvlR;
        var featureId := SegLvlLf(plane, dir);
        if seg.active[segId][featureId] {
          var data := seg.data[segId][featureId];
          lvlSeg := Clamp(lvlSeg + data, 0, MAX_LOOP_FILTER);
        }
        if !d.enabled {
          FillLevels(segId, dir, lvlSeg);
        } else {
          DeltaLevels(segId, dir, lvlSeg, d);
        }
        dir := dir + 1;
      }
    }

    /** The memset of lvl[seg][dir]: its MAX_MODE_LF_DELTAS-byte rows, one
        per reference, all set to lvl_seg. */
    method FillLevels(segId: int, dir: int, lvlSeg: int)
      requires Valid() && 0 <= segId < MAX_SEGMENTS && 0 <= dir < 2
      modifies lvl
      ensures forall ref, mode :: 0 <= ref < TOTAL_REFS_PER_FRAME && 0 <= mode < MAX_MODE_LF_DELTAS ==>
        lvl[segId, dir, ref, mode] == lvlSeg
      ensures forall s, dr, ref, mode ::
        0 <= s < MAX_SEGMENTS && 0 <= dr < 2 && (s != segId || dr != dir)
        && 0 <= ref < TOTAL_REFS_PER_FRAME && 0 <= mode < MAX_MODE_LF_DELTAS ==>
          lvl[s, dr, ref, mode] == old(lvl[s, dr, ref, mode])
    {
      var k := 0;
      while k < TOTAL_REFS_PER_FRAME * MAX_MODE_LF_DELTAS
        invariant 0 <= k <= TOTAL_REFS_PER_FRAME * MAX_MODE_LF_DELTAS
        invariant forall ref, mode ::
          0 <= ref < TOTAL_REFS_PER_FRAME && 0 <= mode < MAX_MODE_LF_DELTAS && ref * MAX_MODE_LF_DELTAS + mode < k ==>
            lvl[segId, dir, ref, mode] == lvlSeg
        invariant forall s, dr, ref, mode ::
          0 <= s < MAX_SEGMENTS && 0 <= dr < 2 && 0 <= ref < TOTAL_REFS_PER_FRAME && 0 <= mode < MAX_MODE_LF_DELTAS
          && (s != segId || dr != dir || k <= ref * MAX_MODE_LF_DELTAS + mode) ==>
            lvl[s, dr, ref, mode] == old(lvl[s, dr, ref, mode])
      {
        lvl[segId, dir, k / MAX_MODE_LF_DELTAS, k % MAX_MODE_LF_DELTAS] := lvlSeg;
        k := k + 1;
      }
    }

    /** The delta-coded branch for one segment and direction: the intra
        entry of mode 0, then every mode of every inter reference. */
    method DeltaLevels(segId: int, dir: int, lvlSeg: int, d: Deltas)
      requires Valid() && d.Valid() && d.enabled && 0 <= segId < MAX_SEGMENTS && 0 <= dir < 2
      requires 0 <= lvlSeg <= MAX_LOOP_FILTER
      modifies lvl
      ensures forall ref, mode :: 0 <= ref < TOTAL_REFS_PER_FRAME && 0 <= mode < MAX_MODE_LF_DELTAS ==>
        lvl[segId, dir, ref, mode] == StoredLevel(lvlSeg, d, ref, mode, old(lvl[segId, dir, ref, mode]))
      ensures forall s, dr, ref, mode ::
        0 <= s < MAX_SEGMENTS && 0 <= dr < 2 && (s != segId || dr != dir)
        && 0 <= ref < TOTAL_REFS_PER_FRAME && 0 <= mode < MAX_MODE_LF_DELTAS ==>
          lvl[s, dr, ref, mode] == old(lvl[s, dr, ref, mode])
    {
      var scale := DeltaScale(lvlSeg);
      var intraLvl := lvlSeg + d.intraRefDelta * scale;
      lvl[segId, dir, INTRA_FRAME, 0] := Clamp(intraLvl, 0, MAX_LOOP_FILTER);
      var ref := LAST_FRAME;
      while ref < TOTAL_REFS_PER_FRAME
        invariant LAST_FRAME <= ref <= TOTAL_REFS_PER_FRAME
        invariant forall r, mode :: 0 <= r < ref && 0 <= mode < MAX_MODE_LF_DELTAS ==>
          lvl[segId, dir, r, mode] == StoredLevel(lvlSeg, d, r, mode, old(lvl[segId, dir, r, mode]))
        invariant forall s, dr, r, mode ::
          0 <= s < MAX_SEGMENTS && 0 <= dr < 2 && 0 <= r < TOTAL_REFS_PER_FRAME && 0 <= mode < MAX_MODE_LF_DELTAS
          && (s != segId || dr != dir || (ref <= r && r != INTRA_FRAME) || (r == INTRA_FRAME && mode == 1)) ==>
            lvl[s, dr, r, mode] == old(lvl[s, dr, r, mode])
      {
        RefLevels(segId, dir, ref, lvlSeg, scale, d);
        ref := ref + 1;
      }
    }

    /** The mode loop for one inter reference. */
    method RefLevels(segId: int, dir: int, ref: int, lvlSeg: int, scale: int, d: Deltas)
      requires Valid() && d.Valid() && d.enabled && 0 <= segId < MAX_SEGMENTS && 0 <= dir < 2
      requires LAST_FRAME <= ref < TOTAL_REFS_PER_FRAME
      requires 0 <= lvlSeg <= MAX_LOOP_FILTER && scale == DeltaScale(lvlSeg)
      modifies lvl
      ensures forall mode :: 0 <= mode < MAX_MODE_LF_DELTAS ==>
        lvl[segId, dir, ref, mode] == StoredLevel(lvlSeg, d, ref, mode, 0)
      ensures forall s, dr, r, mode ::
        0 <= s < MAX_SEGMENTS && 0 <= dr < 2 && 0 <= r < TOTAL_REFS_PER_FRAME && 0 <= mode < MAX_MODE_LF_DELTAS
        && (s != segId || dr != dir || r != ref) ==>
          lvl[s, dr, r, mode] == old(lvl[s, dr, r, mode])
    {
      var mode := 0;
      while mode < MAX_MODE_LF_DELTAS
        invariant 0 <= mode <= MAX_MODE_LF_DELTAS
        invariant forall m :: 0 <= m < mode ==> lvl[segId, dir, ref, m] == StoredLevel(lvlSeg, d, ref, m, 0)
        invariant forall s, dr, r, m ::
          0 <= s < MAX_SEGMENTS && 0 <= dr < 2 && 0 <= r < TOTAL_REFS_PER_FRAME && 0 <= m < MAX_MODE_LF_DELTAS
          && (s != segId || dr != dir || r != ref || mode <= m) ==>
            lvl[s, dr, r, m] == old(lvl[s, dr, r, m])
      {
        var interLvl := lvlSeg + d.refDelta[ref - LAST_FRAME] * scale
          + d.modeDeltas[ref - LAST_FRAME][mode] * scale;
        lvl[segId, dir, ref, mode] := Clamp(interLvl, 0, MAX_LOOP_FILTER);
        mode := mode + 1;
      }
    }

    /** av1_loop_filter_frame, without the filtering itself: nothing
        happens when both levels are 0; otherwise the levels are set up
        for the plane and the rows to filter are returned. */
    method Frame(frameFilterLevel: int, frameFilterLevelR: int, plane: int, partialFrame: bool, miRows: int,
                 seg: Segmentation, d: Deltas)
      returns (rows: Option<(int, int)>)
      requires Valid() && seg.Valid() && d.Valid() && 0 <= plane <= 2 && 0 <= miRows
      requires 0 <= frameFilterLevel <= MAX_LOOP_FILTER && 0 <= frameFilterLevelR <= MAX_LOOP_FILTER
      modifies this, lfthr, lvl
      ensures rows == FilterRows(frameFilterLevel, frameFilterLevelR, miRows, partialFrame)
      ensures Valid() && sharpnessLevel == old(sharpnessLevel)
      ensures rows.None? ==> lastSharpnessLevel == old(lastSharpnessLevel) && unchanged(lfthr) && unchanged(lvl)
      ensures rows.Some? ==> lastSharpnessLevel == sharpnessLevel
      ensures rows.Some? ==>
        forall s, dir, ref, mode ::
          0 <= s < MAX_SEGMENTS && 0 <= dir < 2 && 0 <= ref < TOTAL_REFS_PER_FRAME && 0 <= mode < MAX_MODE_LF_DELTAS ==>
            lvl[s, dir, ref, mode]
              == StoredLevel(SegLevel(if dir == 0 then frameFilterLevel else frameFilterLevelR, seg, s, SegLvlLf(plane, dir)),
                             d, ref, mode, old(lvl[s, dir, ref, mode]))
    {
      if frameFilterLevel == 0 && frameFilterLevelR == 0 {
        return None;
      }
      var startMiRow := 0;
      var miRowsToFilter := miRows;
      if partialFrame && miRows > 8 {
        startMiRow := miRows / 2;
        startMiRow := ClearLow3(startMiRow);
        miRowsToFilter := Max(miRows / 8, 8);
      }
      var endMiRow := startMiRow + miRowsToFilter;
      FrameInit(frameFilterLevel, frameFilterLevelR, plane, seg, d);
      rows := Some((startMiRow, endMiRow));
    }
  }

  // ---------------------------------------------------------------------
  // Rows of a frame

  /** `v &= 0xfffffff8` on a non-negative int: the largest multiple of 8
      not above v. */
  function ClearLow3(v: int): (r: int)
    requires 0 <= v
    ensures r % 8 == 0 && r <= v < r + 8
  {
    v - v % 8
  }

  /** The row range [start, end) av1_loop_filter_frame hands to the row
      filter, or None when both levels are 0. A partial frame of more than
      8 rows starts at the middle row rounded down to a multiple of 8 and
      spans an eighth of the frame, at least 8 rows. */
  function FilterRows(level: int, levelR: int, miRows: int, partialFrame: bool): (rows: Option<(int, int)>)
    requires 0 <= miRows
    ensures rows.None? <==> level == 0 && levelR == 0
    ensures rows.Some? && (!partialFrame || miRows <= 8) ==> rows.value == (0, miRows)
    ensures rows.Some? && partialFrame && miRows > 8 ==>
      rows.value.0 % 8 == 0 && rows.value.0 <= miRows / 2
      && rows.value.1 - rows.value.0 == Max(miRows / 8, 8)
  {
    if level == 0 && levelR == 0 then None
    else if partialFrame && miRows > 8 then
      var start := ClearLow3(miRows / 2);
      Some((start, start + Max(miRows / 8, 8)))
    else Some((0, miRows))
  }

  /** The range always lies within the frame and is not empty when the
      frame is not. */
  lemma FilterRowsWithinFrame(level: int, levelR: int, miRows: int, partialFrame: bool)
    requires 0 <= miRows && (level != 0 || levelR != 0)
    ensures var rows := FilterRows(level, levelR, miRows, partialFrame);
      rows.Some? && 0 <= rows.value.0 <= rows.value.1 <= miRows
      && (miRows > 0 ==> rows.value.0 < rows.value.1)
  {
    if partialFrame && miRows > 8 {
      var start := ClearLow3(miRows / 2);
      if miRows < 64 {
        assert start + 8 <= miRows;
      } else {
        assert start + miRows / 8 <= miRows;
      }
    }
  }

  // ---------------------------------------------------------------------
  // Filter-mask bit positions

  /** get_y_index_shift for the pixel offsets (idx, idy): the word of the
      256-bit luma mask and the bit within it. */
  function YIndexShift(idx: bv32, idy: bv32): (r: (bv32, bv32))
  {
    (idy >> 4, ((idy & 12) << 2) | (idx >> 2))
  }

  /** Within a 64x64 block the pair addresses the raster index of the 4x4
      unit, 16 units to a row, 4 rows to a word. */
  lemma YIndexShiftIsRaster(idx: bv32, idy: bv32)
    requires idx < 64 && idy < 64
    ensures YIndexShift(idx, idy).0 < 4 && YIndexShift(idx, idy).1 < 64
    ensures YIndexShift(idx, idy).0 * 64 + YIndexShift(idx, idy).1 == (idy >> 2) * 16 + (idx >> 2)
  {
  }

  /** get_uv_index_shift for offsets (idx, idy) of a 4:2:0 chroma plane:
      the bit of the 64-bit mask, 8 units of 8x8 to a row. */
  function UvIndexShift(idx: bv32, idy: bv32): (shift: bv32)
  {
    (idy & !7) | (idx >> 3)
  }

  /** Within a 64x64 block the shift is the raster index of the 8x8 unit. */
  lemma UvIndexShiftIsRaster(idx: bv32, idy: bv32)
    requires idx < 64 && idy < 64
    ensures UvIndexShift(idx, idy) < 64
    ensures UvIndexShift(idx, idy) == (idy >> 3) * 8 + (idx >> 3)
  {
  }

  /** get_mask_idx_inside_sb: 0 with 64x64 superblocks; with 128x128 ones,
      which 64x64 quarter holds the position. */
  function MaskIdxInsideSb(mibSize: int, miRow: int, miCol: int): (idx: int)
    requires 0 < mibSize && 0 <= miRow && 0 <= miCol
    ensures mibSize == MI_SIZE_64X64 ==> idx == 0
    ensures mibSize == 2 * MI_SIZE_64X64 ==> 0 <= idx < 4
  {
    if mibSize == MI_SIZE_64X64 then 0
    else
      Pow2Values();
      var r := Shr(miRow % mibSize, 4);
      var c := Shr(miCol % mibSize, 4);
      Shl(r, 1) + c
  }

  /** With 128x128 superblocks two positions share a mask exactly when
      they lie in the same quarter of their superblocks. */
  lemma MaskIdxSameQuarter(r1: int, c1: int, r2: int, c2: int)
    requires 0 <= r1 && 0 <= c1 && 0 <= r2 && 0 <= c2
    ensures MaskIdxInsideSb(32, r1, c1) == MaskIdxInsideSb(32, r2, c2)
      <==> (r1 % 32) / 16 == (r2 % 32) / 16 && (c1 % 32) / 16 == (c2 % 32) / 16
  {
    Pow2Values();
  }

  /** The four TX_4X4..TX_64X64 luma masks, four 64-bit words each
      (FilterMaskY). */
  predicate MasksShapeY(lfm: seq<seq<bv64>>)
  {
    |lfm| == 5 && forall t :: 0 <= t < 5 ==> |lfm[t]| == 4
  }

  /** Word i of each of the five luma masks. */
  function WordY(lfm: seq<seq<bv64>>, i: int): (w: seq<bv64>)
    requires MasksShapeY(lfm) && 0 <= i < 4
    ensures |w| == 5 && forall t :: 0 <= t < 5 ==> w[t] == lfm[t][i]
  {
    seq(5, t requires 0 <= t < 5 => lfm[t][i])
  }

  /** `!(x & y)`: no bit set in both. */
  predicate Disjoint(x: bv64, y: bv64)
  {
    x & y == 0
  }

  /** No two of the masks share a set bit. */
  predicate PairwiseDisjoint(w: seq<bv64>)
  {
    forall a, b :: 0 <= a < b < |w| ==> Disjoint(w[a], w[b])
  }

  /** No two transform sizes mark the same position of a luma word. */
  predicate MasksDisjointY(lfm: seq<seq<bv64>>)
    requires MasksShapeY(lfm)
  {
    forall i :: 0 <= i < 4 ==> PairwiseDisjoint(WordY(lfm, i))
  }

  /** The ten assertions of one pass of check_mask_y are all the pairs of
      five sizes. */
  lemma TenPairsY(w: seq<bv64>)
    requires |w| == 5
    ensures PairwiseDisjoint(w) <==>
      (Disjoint(w[TX_4X4], w[TX_8X8]) && Disjoint(w[TX_4X4], w[TX_16X16])
       && Disjoint(w[TX_4X4], w[TX_32X32]) && Disjoint(w[TX_4X4], w[TX_64X64])
       && Disjoint(w[TX_8X8], w[TX_16X16]) && Disjoint(w[TX_8X8], w[TX_32X32])
       && Disjoint(w[TX_8X8], w[TX_64X64]) && Disjoint(w[TX_16X16], w[TX_32X32])
       && Disjoint(w[TX_16X16], w[TX_64X64]) && Disjoint(w[TX_32X32], w[TX_64X64]))
  {
  }

  /** check_mask_y in a debug build: whether every one of its assertions
      holds. */
  method CheckMaskY(lfm: seq<seq<bv64>>) returns (ok: bool)
    requires MasksShapeY(lfm)
    ensures ok <==> MasksDisjointY(lfm)
  {
    ok := true;
    var i := 0;
    while i < 4
      invariant 0 <= i <= 4
      invariant ok <==> forall j :: 0 <= j < i ==> PairwiseDisjoint(WordY(lfm, j))
    {
      var w := WordY(lfm, i);
      var pairs := Disjoint(w[TX_4X4], w[TX_8X8]) && Disjoint(w[TX_4X4], w[TX_16X16])
        && Disjoint(w[TX_4X4], w[TX_32X32]) && Disjoint(w[TX_4X4], w[TX_64X64])
        && Disjoint(w[TX_8X8], w[TX_16X16]) && Disjoint(w[TX_8X8], w[TX_32X32])
        && Disjoint(w[TX_8X8], w[TX_64X64]) && Disjoint(w[TX_16X16], w[TX_32X32])
        && Disjoint(w[TX_16X16], w[TX_64X64]) && Disjoint(w[TX_32X32], w[TX_64X64]);
      TenPairsY(w);
      ok := ok && pairs;
      i := i + 1;
    }
  }

  /** check_mask_uv in a debug build: the same six checks on each of its
      four passes, which together say that no two of the TX_4X4..TX_32X32
      chroma masks share a position. */
  method CheckMaskUv(lfm: seq<bv64>) returns (ok: bool)
    requires |lfm| == 4
    ensures ok <==> PairwiseDisjoint(lfm)
  {
    ok := true;
    var i := 0;
    while i < 4
      invariant 0 <= i <= 4
      invariant ok <==> (i == 0 || PairwiseDisjoint(lfm))
    {
      var pairs := Disjoint(lfm[TX_4X4], lfm[TX_8X8]) && Disjoint(lfm[TX_4X4], lfm[TX_16X16])
        && Disjoint(lfm[TX_4X4], lfm[TX_32X32]) && Disjoint(lfm[TX_8X8], lfm[TX_16X16])
        && Disjoint(lfm[TX_8X8], lfm[TX_32X32]) && Disjoint(lfm[TX_16X16], lfm[TX_32X32]);
      ok := ok && pairs;
      i := i + 1;
    }
  }

  /** Bit `bit` of a mask word. */
  predicate BitSet(x: bv64, bit: bv64)
    requires bit < 64
  {
    (x >> bit) & 1 == 1
  }

  /** Disjoint masks mean a position is filtered with at most one
      transform size: a bit set in one mask is clear in every other. */
  lemma DisjointMasksOneSize(lfm: seq<seq<bv64>>, i: int, a: int, b: int, bit: bv64)
    requires MasksShapeY(lfm) && MasksDisjointY(lfm)
    requires 0 <= i < 4 && 0 <= a < 5 && 0 <= b < 5 && a != b && bit < 64
    requires BitSet(lfm[a][i], bit)
    ensures !BitSet(lfm[b][i], bit)
  {
    var x, y := lfm[a][i], lfm[b][i];
    var w := WordY(lfm, i);
    assert PairwiseDisjoint(w);
    if a < b {
      assert Disjoint(x, y);
    } else {
      assert Disjoint(y, x);
    }
    DisjointBit(x, y, bit);
  }

  lemma DisjointBit(x: bv64, y: bv64, bit: bv64)
    requires (Disjoint(x, y) || Disjoint(y, x)) && bit < 64 && BitSet(x, bit)
    ensures !BitSet(y, bit)
  {
  }

  // ---------------------------------------------------------------------
  // Filter length

  /** What set_lpf_parameters reads about one edge position: the position
      and plane size, the edge direction, the direction-mapped transform
      sizes and the levels and skip flags of the current and previous
      blocks, the transform and prediction masks of the current block
      (the lookups av1_get_transform_size, get_filter_level,
      av1_transform_masks and av1_prediction_masks are not modelled), and
      whether boundary_info marks the position as a tile boundary in the
      edge's direction (TILE_LEFT_BOUNDARY for a vertical edge,
      TILE_ABOVE_BOUNDARY for a horizontal one). */
  datatype Edge = Edge(
    x: bv32, y: bv32, width: bv32, height: bv32, plane: int, edgeDir: int,
    ts: int, tuMask: bv32, tileBoundary: bool, currLevel: int, currSkipped: bool,
    pvTs: int, pvLevel: int, pvSkip: bool, puMask: bv32)
  {
    predicate Valid()
    {
      0 <= plane <= 2 && 0 <= edgeDir <= 1 && TX_4X4 <= ts <= TX_64X64 && TX_4X4 <= pvTs <= TX_64X64
      && 0 <= currLevel && 0 <= pvLevel
    }

    function Coord(): bv32
    {
      if edgeDir == VERT_EDGE then x else y
    }

    predicate InPlane()
    {
      x < width && y < height
    }

    predicate TuEdge()
    {
      Coord() & tuMask == 0
    }

    predicate PuEdge()
    {
      Coord() & puMask == 0
    }
  }

  /** The outcome for one edge: the filter length, the level whose
      thresholds are used (None when the edge is not filtered) and the
      transform size returned. */
  datatype LpfParams = LpfParams(filterLength: int, level: Option<int>, ts: int)

  /** set_lpf_parameters. A tile boundary marked in boundary_info is never
      filtered; the marks are only set when filtering across tiles is off. */
  function SetLpfParameters(e: Edge): (p: LpfParams)
    requires e.Valid()
    ensures p.filterLength in {0, 4, 6, 8, 14}
    ensures e.plane != 0 ==> p.filterLength in {0, 4, 6}
    ensures !e.InPlane() ==> p.filterLength == 0 && p.ts == TX_4X4
    ensures e.tileBoundary ==> p.filterLength == 0
    ensures p.filterLength != 0 <==>
      e.InPlane() && e.TuEdge() && !e.tileBoundary && (e.currLevel != 0 || e.pvLevel != 0)
      && (!e.pvSkip || !e.currSkipped || e.PuEdge())
    ensures p.filterLength != 0 ==> (p.filterLength == 4 <==> Min(e.ts, e.pvTs) == TX_4X4)
    ensures p.level.Some? <==> p.filterLength != 0
    ensures p.level.Some? ==>
      0 < p.level.value && p.level.value == (if e.currLevel != 0 then e.currLevel else e.pvLevel)
  {
    if !e.InPlane() then LpfParams(0, None, TX_4X4)
    else if !e.TuEdge() || e.tileBoundary then LpfParams(0, None, e.ts)
    else if (e.currLevel != 0 || e.pvLevel != 0) && (!e.pvSkip || !e.currSkipped || e.PuEdge()) then
      var minTs := Min(e.ts, e.pvTs);
      var len := if TX_4X4 >= minTs then 4
        else if TX_8X8 == minTs then (if e.plane != 0 then 6 else 8)
        else if e.plane != 0 then 6
        else 14;
      LpfParams(len, Some(if e.currLevel != 0 then e.currLevel else e.pvLevel), e.ts)
    else LpfParams(0, None, e.ts)
  }

  /** On luma, a larger smallest transform on either side never shortens
      the filter. */
  lemma FilterLengthGrowsWithTxSize(e: Edge, pvTs: int)
    requires e.Valid() && e.plane == 0 && e.pvTs <= pvTs <= TX_64X64
    requires SetLpfParameters(e).filterLength != 0
    ensures SetLpfParameters(e).filterLength <= SetLpfParameters(e.(pvTs := pvTs)).filterLength
  {
  }
}
