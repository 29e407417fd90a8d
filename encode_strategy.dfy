/** The reference-buffer bookkeeping of av1/encoder/encode_strategy.c:
    which refresh flags a frame's update type implies, which of the 8
    reference buffers a new frame overwrites, and how the 8 buffers are
    mapped onto the 7 named reference slots.

    The encoder context is not modelled as a whole: each function takes
    the fields it reads. The values of the header constants come from
    libaom's encoder.h, enums.h and aom_encoder.h, which are not part of
    this model. */
module EncodeStrategy {
  import opened IntArith

  const REF_FRAMES: int := 8
  const INVALID_IDX: int := -1
  const INT32_MAX: int := 0x7fff_ffff
  const MAX_ARF_LAYERS: int := 6
  const LOW_LEVEL_FRAMES_TR: int := 5

  // Named references (MV_REFERENCE_FRAME); slot `frame - LAST_FRAME`.
  const LAST_FRAME: int := 1
  const LAST3_FRAME: int := 3
  const GOLDEN_FRAME: int := 4
  const BWDREF_FRAME: int := 5
  const ALTREF2_FRAME: int := 6
  const ALTREF_FRAME: int := 7
  /** The legacy name the external interface refreshes as BWDREF; it is
      REF_FRAMES, the last entry of remapped_ref_idx. */
  const EXTREF_FRAME: int := 8

  // The bits of the frame_flags word reported to the caller.
  const FRAMEFLAGS_KEY: bv32 := 1
  const FRAMEFLAGS_GOLDEN: bv32 := 2
  const FRAMEFLAGS_BWDREF: bv32 := 4
  const FRAMEFLAGS_ALTREF: bv32 := 8

  /** The encode flag that forces a key frame. */
  const AOM_EFLAG_FORCE_KF: int := 1

  /** FRAME_UPDATE_TYPE, with the key-frame filtering types of this
      encoder. */
  datatype UpdateType =
    | KfUpdate
    | LfUpdate
    | GfUpdate
    | ArfUpdate
    | OverlayUpdate
    | IntnlOverlayUpdate
    | IntnlArfUpdate
    | KffltUpdate
    | KffltOverlayUpdate

  datatype FrameType = KeyFrame | InterFrame | IntraOnlyFrame | SFrame

  /** RefreshFrameFlagsInfo. */
  datatype RefreshFlags = RefreshFlags(golden: bool, bwdRef: bool, altRef: bool)

  /** ExtRefreshFrameFlagsInfo: refresh flags set through the encoder's
      external interface. */
  datatype ExtRefresh = ExtRefresh(updatePending: bool, last: bool, golden: bool,
                                   bwdRef: bool, alt2Ref: bool, altRef: bool)

  /** What av1_configure_buffer_updates writes: the refresh flags and
      cpi->rc.is_src_frame_alt_ref. */
  datatype BufferUpdates = BufferUpdates(refresh: RefreshFlags, isSrcFrameAltRef: bool)

  predicate IsOverlay(t: UpdateType)
  {
    t == OverlayUpdate || t == KffltOverlayUpdate || t == IntnlOverlayUpdate
  }

  // ---------------------------------------------------------------------
  // av1_configure_buffer_updates
  // ---------------------------------------------------------------------

  /** The refresh flags the switch on the update type selects. */
  function TypeRefresh(t: UpdateType, frameType: FrameType, noShowFwdKf: bool): RefreshFlags
  {
    match t
    case KfUpdate => RefreshFlags(true, true, true)
    case LfUpdate => RefreshFlags(false, false, false)
    case GfUpdate => RefreshFlags(true, false, false)
    case OverlayUpdate => RefreshFlags(true, false, false)
    case KffltOverlayUpdate => RefreshFlags(true, false, false)
    case ArfUpdate =>
      if frameType == KeyFrame && !noShowFwdKf then RefreshFlags(true, true, true)
      else RefreshFlags(false, false, true)
    case KffltUpdate =>
      if frameType == KeyFrame && !noShowFwdKf then RefreshFlags(true, true, true)
      else RefreshFlags(false, false, true)
    case IntnlOverlayUpdate => RefreshFlags(false, false, false)
    case IntnlArfUpdate => RefreshFlags(false, true, false)
  }

  /** av1_configure_buffer_updates. `statStage` is is_stat_generation_stage:
      external flags are ignored while gathering first-pass statistics. */
  function ConfigureBufferUpdates(t: UpdateType, frameType: FrameType, noShowFwdKf: bool,
                                  ext: ExtRefresh, statStage: bool, forceRefreshAll: bool): (r: BufferUpdates)
    ensures r.isSrcFrameAltRef <==> IsOverlay(t)
    ensures forceRefreshAll ==> r.refresh == RefreshFlags(true, true, true)
    ensures !forceRefreshAll && ext.updatePending && !statStage ==>
      r.refresh == RefreshFlags(ext.golden, ext.bwdRef, ext.altRef)
  {
    var byType := TypeRefresh(t, frameType, noShowFwdKf);
    var withExt := if ext.updatePending && !statStage then RefreshFlags(ext.golden, ext.bwdRef, ext.altRef)
                   else byType;
    BufferUpdates(if forceRefreshAll then RefreshFlags(true, true, true) else withExt, IsOverlay(t))
  }

  /** Without external flags or forcing, all three buffers are refreshed
      exactly for a key frame update and for an ARF coded as a shown key
      frame. */
  lemma RefreshAllExactlyOnKey(t: UpdateType, frameType: FrameType, noShowFwdKf: bool,
                               ext: ExtRefresh, statStage: bool)
    requires !(ext.updatePending && !statStage)
    ensures ConfigureBufferUpdates(t, frameType, noShowFwdKf, ext, statStage, false).refresh
              == RefreshFlags(true, true, true)
      <==> t == KfUpdate || ((t == ArfUpdate || t == KffltUpdate) && frameType == KeyFrame && !noShowFwdKf)
  {
  }

  /** Without external flags or forcing, an overlay never refreshes the
      BWDREF or ALTREF buffer, and an ARF never refreshes BWDREF unless
      it is a shown key frame. */
  lemma OverlayKeepsArf(t: UpdateType, frameType: FrameType, noShowFwdKf: bool,
                        ext: ExtRefresh, statStage: bool)
    requires !(ext.updatePending && !statStage)
    ensures var r := ConfigureBufferUpdates(t, frameType, noShowFwdKf, ext, statStage, false).refresh;
      (IsOverlay(t) ==> !r.bwdRef && !r.altRef)
      && ((t == ArfUpdate || t == KffltUpdate) && !(frameType == KeyFrame && !noShowFwdKf) ==>
            r == RefreshFlags(false, false, true))
  {
  }

  // ---------------------------------------------------------------------
  // update_frame_flags
  // ---------------------------------------------------------------------

  const REFRESH_BITS: bv32 := 15

  /** `flags |= bit` when on, else `flags &= ~bit`. */
  function SetFlag(flags: bv32, bit: bv32, on: bool): bv32
  {
    if on then flags | bit else flags & !bit
  }

  /** update_frame_flags. `showExisting` is encode_show_existing_frame(cm)
      and `isKey` whether the current frame is a key frame. */
  function UpdateFrameFlags(flags: bv32, showExisting: bool, refresh: RefreshFlags, isKey: bool): (r: bv32)
    ensures r & !REFRESH_BITS == flags & !REFRESH_BITS
    ensures showExisting ==> r & REFRESH_BITS == 0
    ensures !showExisting ==>
      (r & FRAMEFLAGS_GOLDEN != 0 <==> refresh.golden)
      && (r & FRAMEFLAGS_ALTREF != 0 <==> refresh.altRef)
      && (r & FRAMEFLAGS_BWDREF != 0 <==> refresh.bwdRef)
      && (r & FRAMEFLAGS_KEY != 0 <==> isKey)
  {
    if showExisting then
      flags & !FRAMEFLAGS_GOLDEN & !FRAMEFLAGS_BWDREF & !FRAMEFLAGS_ALTREF & !FRAMEFLAGS_KEY
    else
      var g := SetFlag(flags, FRAMEFLAGS_GOLDEN, refresh.golden);
      var a := SetFlag(g, FRAMEFLAGS_ALTREF, refresh.altRef);
      var b := SetFlag(a, FRAMEFLAGS_BWDREF, refresh.bwdRef);
      SetFlag(b, FRAMEFLAGS_KEY, isKey)
  }

  // ---------------------------------------------------------------------
  // get_forced_keyframe_position
  // ---------------------------------------------------------------------

  /** Entry j of the lookahead is the first one that forces a key frame. */
  predicate FirstForcedAt(lookahead: seq<int>, j: int)
  {
    0 <= j < |lookahead| && lookahead[j] == AOM_EFLAG_FORCE_KF
    && forall k :: 0 <= k < j ==> lookahead[k] != AOM_EFLAG_FORCE_KF
  }

  /** get_forced_keyframe_position over the flags of the buffered frames:
      av1_lookahead_peek yields NULL past the last one. */
  method GetForcedKeyframePosition(lookahead: seq<int>, upToIndex: int) returns (r: int)
    ensures r == -1 || (1 <= r <= upToIndex && FirstForcedAt(lookahead, r))
    ensures r == -1 ==> forall j :: 1 <= j <= upToIndex ==> !FirstForcedAt(lookahead, j)
  {
    var i := 0;
    while i <= upToIndex
      invariant 0 <= i
      invariant forall k :: 0 <= k < i ==> k < |lookahead| && lookahead[k] != AOM_EFLAG_FORCE_KF
    {
      if i >= |lookahead| {
        return -1;
      } else if lookahead[i] == AOM_EFLAG_FORCE_KF {
        return if i > 0 then i else -1;
      }
      i := i + 1;
    }
    return -1;
  }

  // ---------------------------------------------------------------------
  // av1_get_refresh_ref_frame_map
  // ---------------------------------------------------------------------

  /** `(flags >> i) & 1`. */
  predicate BitSet(flags: bv32, i: nat)
    requires i < 32
  {
    (flags >> i) & 1 == 1
  }

  /** The lowest of the REF_FRAMES low bits set in flags, or REF_FRAMES. */
  function LowestRefreshed(flags: bv32, from: nat): (r: int)
    requires from <= 8
    decreases 8 - from
    ensures from <= r <= 8
    ensures forall j :: from <= j < r ==> !BitSet(flags, j)
    ensures r < 8 ==> BitSet(flags, r)
  {
    if from == 8 then 8 else if BitSet(flags, from) then from else LowestRefreshed(flags, from + 1)
  }

  /** av1_get_refresh_ref_frame_map: the first buffer the flags refresh. */
  method GetRefreshRefFrameMap(flags: bv32) returns (r: int)
    ensures r == LowestRefreshed(flags, 0)
  {
    r := 0;
    while r < REF_FRAMES
      invariant 0 <= r <= 8
      invariant LowestRefreshed(flags, r) == LowestRefreshed(flags, 0)
    {
      if BitSet(flags, r) {
        break;
      }
      r := r + 1;
    }
  }

  /** The buffer a single-slot refresh mask names is found again. */
  lemma {:induction false} LowestRefreshedOfSlot(k: nat, from: nat)
    requires from <= k < 8
    decreases k - from
    ensures LowestRefreshed(1 << k, from) == k
  {
    var m: bv32 := 1 << k;
    if from < k {
      assert !BitSet(m, from) by {
        assert (m >> from) & 1 == 0 by {
          assert k - from > 0;
          ShiftedSlotBit(k, from);
        }
      }
      LowestRefreshedOfSlot(k, from + 1);
    } else {
      assert BitSet(m, k) by {
        ShiftedSlotBit(k, k);
      }
    }
  }

  /** Bit j of 1 << k. */
  lemma ShiftedSlotBit(k: nat, j: nat)
    requires j <= k < 8
    ensures ((1 as bv32 << k) >> j) & 1 == (if j == k then 1 else 0)
  {
    var m: bv32 := 1 << k;
    if k == 0 {
    } else if k == 1 {
    } else if k == 2 {
    } else if k == 3 {
    } else if k == 4 {
    } else if k == 5 {
    } else if k == 6 {
    } else {
    }
  }

  // ---------------------------------------------------------------------
  // get_free_ref_map_index, get_refresh_idx
  // ---------------------------------------------------------------------

  /** RefFrameMapPair: the display order and pyramid level of the frame
      in a buffer; display order -1 marks an empty buffer. */
  datatype RefFrameMapPair = RefFrameMapPair(dispOrder: int, pyrLevel: int)

  /** get_free_ref_map_index: the first empty buffer, or INVALID_IDX. */
  method GetFreeRefMapIndex(pairs: seq<RefFrameMapPair>) returns (r: int)
    requires |pairs| == REF_FRAMES
    ensures r == INVALID_IDX || (0 <= r < REF_FRAMES && pairs[r].dispOrder == -1)
    ensures forall j :: 0 <= j < REF_FRAMES && (r == INVALID_IDX || j < r) ==> pairs[j].dispOrder != -1
  {
    for idx := 0 to REF_FRAMES
      invariant forall j :: 0 <= j < idx ==> pairs[j].dispOrder != -1
    {
      if pairs[idx].dispOrder == -1 {
        return idx;
      }
    }
    return INVALID_IDX;
  }

  /** A buffer get_refresh_idx may overwrite: it holds a frame that is not
      displayed after the current one. */
  predicate Eligible(pairs: seq<RefFrameMapPair>, cur: int, i: int)
  {
    0 <= i < |pairs| && pairs[i].dispOrder != -1 && pairs[i].dispOrder <= cur
  }

  /** The three candidates get_refresh_idx tracks: the oldest frame of the
      requested refresh level, the oldest level-1 frame (ARF), and the
      oldest of the other frames. */
  datatype Track = Level(level: int) | Arf | Other

  predicate InTrack(pairs: seq<RefFrameMapPair>, cur: int, t: Track, i: int)
  {
    Eligible(pairs, cur, i)
    && match t
       case Level(level) => level > 0 && pairs[i].pyrLevel == level
       case Arf => pairs[i].pyrLevel == 1
       case Other => pairs[i].pyrLevel != 1
  }

  /** The display order a tracked index stands for; INT32_MAX for none. */
  function OrderOf(pairs: seq<RefFrameMapPair>, idx: int): int
  {
    if 0 <= idx < |pairs| then pairs[idx].dispOrder else INT32_MAX
  }

  /** The buffer the scan of get_refresh_idx keeps for track t after the
      first n buffers: a frame replaces the kept one only when strictly
      older, and the kept order starts at INT32_MAX. */
  function Oldest(pairs: seq<RefFrameMapPair>, cur: int, t: Track, n: nat): (r: int)
    requires n <= |pairs|
    ensures -1 <= r < n
  {
    if n == 0 then -1
    else
      var o := Oldest(pairs, cur, t, n - 1);
      if InTrack(pairs, cur, t, n - 1) && pairs[n - 1].dispOrder < OrderOf(pairs, o) then n - 1 else o
  }

  /** The kept buffer is the first of the oldest frames of its track, and
      it is -1 only when no frame of the track is older than INT32_MAX. */
  lemma {:induction false} OldestIsOldest(pairs: seq<RefFrameMapPair>, cur: int, t: Track, n: nat)
    requires n <= |pairs|
    ensures var r := Oldest(pairs, cur, t, n);
      (r != -1 ==> InTrack(pairs, cur, t, r) && pairs[r].dispOrder < INT32_MAX)
      && (forall i :: 0 <= i < n && InTrack(pairs, cur, t, i) && pairs[i].dispOrder < INT32_MAX ==>
            r != -1 && pairs[r].dispOrder <= pairs[i].dispOrder)
      && (r != -1 ==> forall i :: 0 <= i < r && InTrack(pairs, cur, t, i) ==> pairs[r].dispOrder < pairs[i].dispOrder)
  {
    if n > 0 {
      OldestIsOldest(pairs, cur, t, n - 1);
    }
  }

  /** The number of eligible level-1 frames among the first n buffers. */
  function ArfCount(pairs: seq<RefFrameMapPair>, cur: int, n: nat): (c: nat)
    requires n <= |pairs|
    ensures c <= n
    ensures c > 0 ==> exists i :: 0 <= i < n && InTrack(pairs, cur, Arf, i)
  {
    if n == 0 then 0 else ArfCount(pairs, cur, n - 1) + (if InTrack(pairs, cur, Arf, n - 1) then 1 else 0)
  }

  /** The choice of get_refresh_idx: the oldest frame of the requested
      refresh level; else, for an ARF update with more than two level-1
      frames, the oldest of those; else the oldest other frame; else the
      oldest level-1 frame; -1 when none qualifies. */
  function RefreshIdx(updateArf: bool, refreshLevel: int, cur: int, pairs: seq<RefFrameMapPair>): (r: int)
    requires |pairs| == REF_FRAMES
    ensures -1 <= r < REF_FRAMES
    ensures r != -1 ==> Eligible(pairs, cur, r)
    ensures (forall i :: Eligible(pairs, cur, i) ==> pairs[i].dispOrder < INT32_MAX) ==>
      ((exists i :: Eligible(pairs, cur, i)) <==> r != -1)
    ensures forall i :: refreshLevel > 0 && Eligible(pairs, cur, i) && pairs[i].pyrLevel == refreshLevel
                        && pairs[i].dispOrder < INT32_MAX ==>
      r != -1 && pairs[r].pyrLevel == refreshLevel && pairs[r].dispOrder <= pairs[i].dispOrder
  {
    OldestIsOldest(pairs, cur, Level(refreshLevel), 8);
    OldestIsOldest(pairs, cur, Arf, 8);
    OldestIsOldest(pairs, cur, Other, 8);
    var lv := Oldest(pairs, cur, Level(refreshLevel), 8);
    if lv > -1 then lv
    else if updateArf && ArfCount(pairs, cur, 8) > 2 then Oldest(pairs, cur, Arf, 8)
    else
      var o := Oldest(pairs, cur, Other, 8);
      if o >= 0 then o
      else
        assert forall i :: Eligible(pairs, cur, i) ==> InTrack(pairs, cur, Arf, i) || InTrack(pairs, cur, Other, i);
        Oldest(pairs, cur, Arf, 8)
  }

  /** get_refresh_idx. The source asserts that some index is found; the
      model returns its -1 as the source does when the assert is off. */
  method GetRefreshIdx(updateArf: bool, refreshLevel: int, cur: int, pairs: seq<RefFrameMapPair>)
    returns (r: int)
    requires |pairs| == REF_FRAMES
    ensures r == RefreshIdx(updateArf, refreshLevel, cur, pairs)
  {
    var arfCount := 0;
    var oldestArfOrder, oldestArfIdx := INT32_MAX, -1;
    var oldestFrameOrder, oldestIdx := INT32_MAX, -1;
    var oldestRefLevelOrder, oldestRefLevelIdx := INT32_MAX, -1;
    for mapIdx := 0 to REF_FRAMES
      invariant arfCount == ArfCount(pairs, cur, mapIdx)
      invariant oldestArfIdx == Oldest(pairs, cur, Arf, mapIdx) && oldestArfOrder == OrderOf(pairs, oldestArfIdx)
      invariant oldestIdx == Oldest(pairs, cur, Other, mapIdx) && oldestFrameOrder == OrderOf(pairs, oldestIdx)
      invariant oldestRefLevelIdx == Oldest(pairs, cur, Level(refreshLevel), mapIdx)
      invariant oldestRefLevelOrder == OrderOf(pairs, oldestRefLevelIdx)
    {
      var pair := pairs[mapIdx];
      if pair.dispOrder == -1 {
        continue;
      }
      var frameOrder := pair.dispOrder;
      var level := pair.pyrLevel;
      if frameOrder > cur {
        continue;
      }
      if refreshLevel > 0 && refreshLevel == level {
        if frameOrder < oldestRefLevelOrder {
          oldestRefLevelOrder := frameOrder;
          oldestRefLevelIdx := mapIdx;
        }
      }
      if level == 1 {
        if frameOrder < oldestArfOrder {
          oldestArfOrder := frameOrder;
          oldestArfIdx := mapIdx;
        }
        arfCount := arfCount + 1;
        continue;
      }
      if frameOrder < oldestFrameOrder {
        oldestFrameOrder := frameOrder;
        oldestIdx := mapIdx;
      }
    }
    if oldestRefLevelIdx > -1 {
      return oldestRefLevelIdx;
    }
    if updateArf && arfCount > 2 {
      return oldestArfIdx;
    }
    if oldestIdx >= 0 {
      return oldestIdx;
    }
    if oldestArfIdx >= 0 {
      return oldestArfIdx;
    }
    return -1;
  }

  // ---------------------------------------------------------------------
  // av1_get_refresh_frame_flags
  // ---------------------------------------------------------------------

  /** FRAME_TYPE_CODE of a sub-GOP step, as far as this file tells them
      apart. */
  datatype TypeCode = InoRepeat | InoShowExisting | OooFiltered | OtherCode

  /** SubGOPStepCfg: the fields of the current frame's sub-GOP step. */
  datatype SubGopStep = SubGopStep(pyrLevel: int, typeCode: TypeCode, refresh: int)

  /** use_subgop_cfg. */
  function UseSubgopCfg(gfIndex: int, hasSubgopCfg: bool, hasOverlayForKeyFrame: bool): (b: bool)
    ensures b ==> 0 <= gfIndex && hasSubgopCfg
    ensures b <==> 0 <= gfIndex && hasSubgopCfg && (gfIndex != 1 || !hasOverlayForKeyFrame)
  {
    if gfIndex < 0 then false
    else if !hasSubgopCfg then false
    else if gfIndex == 1 then !hasOverlayForKeyFrame
    else true
  }

  /** `1 << idx` for a refresh index; the source shifts by -1 when no
      buffer qualifies, which C leaves undefined and the model maps to 0. */
  function SlotMask(idx: int): (m: bv32)
    requires -1 <= idx < REF_FRAMES
  {
    if idx < 0 then 0 else 1 << idx
  }

  /** `(on ? 1 : 0) << idx` when idx names a buffer, else 0. */
  function MaskIf(on: bool, idx: int): bv32
    requires -1 <= idx < REF_FRAMES
  {
    if idx == INVALID_IDX || !on then 0 else 1 << idx
  }

  /** The state av1_get_refresh_frame_flags reads. `remapped` is
      cm->remapped_ref_idx (the buffer of each named reference,
      get_ref_frame_map_idx, INVALID_IDX when unmapped); `svcRefIdx` and `svcRefresh` are the
      external reference configuration of the SVC context; `droppable` is
      is_frame_droppable, whose rules are not part of this model; `step`
      is the sub-GOP step of the frame when a sub-GOP configuration
      exists. */
  datatype RefreshContext = RefreshContext(
    frameType: FrameType, noShowFwdKf: bool, showExistingFrame: bool, errorResilientMode: bool,
    droppable: bool, ext: ExtRefresh, externalRefFrameConfig: bool,
    svcRefIdx: seq<int>, svcRefresh: seq<bool>, remapped: seq<int>,
    gfIndex: int, hasSubgopCfg: bool, hasOverlayForKeyFrame: bool, step: SubGopStep)

  predicate ContextOk(c: RefreshContext)
  {
    |c.svcRefIdx| == 7 && |c.svcRefresh| == REF_FRAMES && |c.remapped| == REF_FRAMES
    && (forall i :: 0 <= i < 7 ==> 0 <= c.svcRefIdx[i] < REF_FRAMES)
    && (forall i :: 0 <= i < REF_FRAMES ==> -1 <= c.remapped[i] < REF_FRAMES)
  }

  /** The mask the SVC reference configuration asks for, over its first n
      named references. */
  function SvcMask(c: RefreshContext, n: nat): bv32
    requires ContextOk(c) && n <= 7
  {
    if n == 0 then 0
    else SvcMask(c, n - 1) | MaskIf(c.svcRefresh[c.svcRefIdx[n - 1]], c.svcRefIdx[n - 1])
  }

  /** The pending external flags, each placed at the buffer of its named
      reference; on an overlay the golden flag goes to the ALTREF buffer. */
  function ExtMask(c: RefreshContext, t: UpdateType): bv32
    requires ContextOk(c)
  {
    var base := MaskIf(c.ext.last, c.remapped[LAST_FRAME - 1])
      | MaskIf(c.ext.bwdRef, c.remapped[EXTREF_FRAME - 1])
      | MaskIf(c.ext.alt2Ref, c.remapped[ALTREF2_FRAME - 1]);
    if t == OverlayUpdate || t == KffltOverlayUpdate then
      base | MaskIf(c.ext.golden, c.remapped[ALTREF_FRAME - 1])
    else
      base | MaskIf(c.ext.golden, c.remapped[GOLDEN_FRAME - 1]) | MaskIf(c.ext.altRef, c.remapped[ALTREF_FRAME - 1])
  }

  /** get_refresh_frame_flags_subgop_cfg. `free` is the free buffer found
      by the caller. */
  function SubgopRefreshFlags(step: SubGopStep, cur: int, pairs: seq<RefFrameMapPair>, free: int): (m: bv32)
    requires |pairs| == REF_FRAMES && -1 <= free < REF_FRAMES
    ensures step.refresh == 0 || step.typeCode == InoRepeat || step.typeCode == InoShowExisting ==> m == 0
  {
    if step.refresh == 0 then 0
    else if step.typeCode == InoRepeat || step.typeCode == InoShowExisting then 0
    else if free != INVALID_IDX then 1 << free
    else
      var updateArf := step.typeCode == OooFiltered && step.pyrLevel == 1;
      SlotMask(RefreshIdx(updateArf, step.refresh, cur, pairs))
  }

  /** av1_get_refresh_frame_flags: the mask of buffers the current frame
      overwrites. */
  function RefreshFrameFlags(c: RefreshContext, t: UpdateType, cur: int, pairs: seq<RefFrameMapPair>): (m: bv32)
    requires ContextOk(c) && |pairs| == REF_FRAMES
  {
    if (c.frameType == KeyFrame && !c.noShowFwdKf) || c.frameType == SFrame then 0xFF
    else if c.showExistingFrame && (!c.errorResilientMode || c.frameType == KeyFrame) then 0
    else if c.droppable then 0
    else if c.ext.updatePending then
      if c.externalRefFrameConfig then SvcMask(c, 7) else ExtMask(c, t)
    else
      var free := FirstFree(pairs, 0);
      if UseSubgopCfg(c.gfIndex, c.hasSubgopCfg, c.hasOverlayForKeyFrame) then
        SubgopRefreshFlags(c.step, cur, pairs, free)
      else if IsOverlay(t) then 0
      else if free != INVALID_IDX then 1 << free
      else SlotMask(RefreshIdx(t == ArfUpdate, -1, cur, pairs))
  }

  /** The first empty buffer from `from` on, or INVALID_IDX: what
      get_free_ref_map_index computes. */
  function FirstFree(pairs: seq<RefFrameMapPair>, from: nat): (r: int)
    requires |pairs| == REF_FRAMES && from <= REF_FRAMES
    decreases REF_FRAMES - from
    ensures r == INVALID_IDX || (from <= r < REF_FRAMES && pairs[r].dispOrder == -1)
    ensures forall j :: from <= j < REF_FRAMES && (r == INVALID_IDX || j < r) ==> pairs[j].dispOrder != -1
  {
    if from == REF_FRAMES then INVALID_IDX
    else if pairs[from].dispOrder == -1 then from
    else FirstFree(pairs, from + 1)
  }

  /** Shown key frames and switch frames overwrite every buffer, and a
      show-existing frame that is not an error-resilient key frame
      overwrites none. */
  lemma RefreshOnKeyAndShowExisting(c: RefreshContext, t: UpdateType, cur: int, pairs: seq<RefFrameMapPair>)
    requires ContextOk(c) && |pairs| == REF_FRAMES
    ensures (c.frameType == KeyFrame && !c.noShowFwdKf) || c.frameType == SFrame ==>
      RefreshFrameFlags(c, t, cur, pairs) == 0xFF
    ensures (!((c.frameType == KeyFrame && !c.noShowFwdKf) || c.frameType == SFrame)
             && c.showExistingFrame && !c.errorResilientMode) ==>
      RefreshFrameFlags(c, t, cur, pairs) == 0
  {
  }

  /** Without external flags and sub-GOP configuration, a frame that is
      not an overlay goes into the first empty buffer when one exists, and
      otherwise into one buffer holding a frame not displayed after it.
      av1_get_refresh_ref_frame_map finds that buffer again from the mask. */
  lemma RefreshIntoOneBuffer(c: RefreshContext, t: UpdateType, cur: int, pairs: seq<RefFrameMapPair>)
    requires ContextOk(c) && |pairs| == REF_FRAMES
    requires !((c.frameType == KeyFrame && !c.noShowFwdKf) || c.frameType == SFrame)
    requires !(c.showExistingFrame && (!c.errorResilientMode || c.frameType == KeyFrame))
    requires !c.droppable && !c.ext.updatePending && !IsOverlay(t)
    requires !UseSubgopCfg(c.gfIndex, c.hasSubgopCfg, c.hasOverlayForKeyFrame)
    ensures var m := RefreshFrameFlags(c, t, cur, pairs);
      var k := LowestRefreshed(m, 0);
      (FirstFree(pairs, 0) != INVALID_IDX ==> k == FirstFree(pairs, 0) && pairs[k].dispOrder == -1)
      && (FirstFree(pairs, 0) == INVALID_IDX && (exists i :: Eligible(pairs, cur, i))
          && (forall i :: Eligible(pairs, cur, i) ==> pairs[i].dispOrder < INT32_MAX) ==>
            k < REF_FRAMES && Eligible(pairs, cur, k))
  {
    var free := FirstFree(pairs, 0);
    if free != INVALID_IDX {
      LowestRefreshedOfSlot(free, 0);
    } else {
      var idx := RefreshIdx(t == ArfUpdate, -1, cur, pairs);
      if idx >= 0 {
        LowestRefreshedOfSlot(idx, 0);
      }
    }
  }

  // ---------------------------------------------------------------------
  // av1_check_keyframe_arf, av1_check_keyframe_overlay
  // ---------------------------------------------------------------------

  /** av1_check_keyframe_arf: the frame at gf_index of a group of `size`
      frames is a filtered key frame coded as an ARF. */
  function CheckKeyframeArf(gfIndex: int, size: int, updateType: seq<UpdateType>): (b: bool)
    requires 0 <= gfIndex && size <= |updateType|
    ensures b ==> gfIndex < |updateType|
  {
    if gfIndex >= size then false else updateType[gfIndex] == KffltUpdate
  }

  /** av1_check_keyframe_overlay: the frame at gf_index is the overlay of
      a filtered key frame. */
  function CheckKeyframeOverlay(gfIndex: int, updateType: seq<UpdateType>): (b: bool)
    requires gfIndex < |updateType|
    ensures b ==> 1 <= gfIndex
  {
    if gfIndex < 1 then false else updateType[gfIndex] == KffltOverlayUpdate
  }

  /** A key-frame ARF refreshes the ALTREF buffer and is not an overlay; a
      key-frame overlay refreshes GOLDEN only and is shown from the ARF. */
  lemma KeyframeArfAndOverlayUpdates(gfIndex: int, size: int, updateType: seq<UpdateType>,
                                     frameType: FrameType, noShowFwdKf: bool, ext: ExtRefresh, statStage: bool)
    requires 0 <= gfIndex < |updateType| && size <= |updateType|
    requires !(ext.updatePending && !statStage)
    ensures CheckKeyframeArf(gfIndex, size, updateType) ==>
      var u := ConfigureBufferUpdates(updateType[gfIndex], frameType, noShowFwdKf, ext, statStage, false);
      u.refresh.altRef && !u.isSrcFrameAltRef && !CheckKeyframeOverlay(gfIndex, updateType)
    ensures CheckKeyframeOverlay(gfIndex, updateType) ==>
      ConfigureBufferUpdates(updateType[gfIndex], frameType, noShowFwdKf, ext, statStage, false)
        == BufferUpdates(RefreshFlags(true, false, false), true)
  {
  }

  // ---------------------------------------------------------------------
  // av1_get_ref_frames and its helpers
  // ---------------------------------------------------------------------

  /** RefBufMapData: a buffer holding a frame, and whether it already has
      a named slot (or is the one left out). */
  datatype RefBufMapData = RefBufMapData(mapIdx: int, dispOrder: int, pyrLevel: int, used: bool)

  /** compare_map_idx_pair_asc: a three-way comparison of display orders. */
  function CompareMapIdxPairAsc(a: RefBufMapData, b: RefBufMapData): (r: int)
    ensures -1 <= r <= 1
    ensures r == 0 <==> a.dispOrder == b.dispOrder
    ensures r < 0 <==> a.dispOrder < b.dispOrder
  {
    if a.dispOrder == b.dispOrder then 0
    else if a.dispOrder > b.dispOrder then 1
    else -1
  }

  /** The comparison is antisymmetric and transitive, as qsort needs. */
  lemma CompareIsOrder(a: RefBufMapData, b: RefBufMapData, c: RefBufMapData)
    ensures CompareMapIdxPairAsc(a, b) == -CompareMapIdxPairAsc(b, a)
    ensures CompareMapIdxPairAsc(a, b) <= 0 && CompareMapIdxPairAsc(b, c) <= 0 ==> CompareMapIdxPairAsc(a, c) <= 0
  {
  }

  /** Ascending in display order. */
  predicate Sorted(s: seq<RefBufMapData>)
  {
    forall i, j :: 0 <= i < j < |s| ==> s[i].dispOrder <= s[j].dispOrder
  }

  /** A sequence in ascending display order is ordered by
      compare_map_idx_pair_asc. */
  lemma SortedUnderCompare(s: seq<RefBufMapData>)
    requires Sorted(s)
    ensures forall i, j :: 0 <= i < j < |s| ==> CompareMapIdxPairAsc(s[i], s[j]) <= 0
  {
  }

  /** x inserted before the first entry not displayed before it. */
  function Insert(x: RefBufMapData, s: seq<RefBufMapData>): seq<RefBufMapData>
  {
    if |s| == 0 then [x]
    else if x.dispOrder <= s[0].dispOrder then [x] + s
    else [s[0]] + Insert(x, s[1..])
  }

  /** Insertion adds exactly x. */
  lemma {:induction false} InsertAdds(x: RefBufMapData, s: seq<RefBufMapData>)
    ensures multiset(Insert(x, s)) == multiset(s) + multiset{x}
  {
    if |s| > 0 && x.dispOrder > s[0].dispOrder {
      InsertAdds(x, s[1..]);
      assert s == [s[0]] + s[1..];
    }
  }

  /** Insertion keeps the order. */
  lemma {:induction false} InsertSorted(x: RefBufMapData, s: seq<RefBufMapData>)
    requires Sorted(s)
    ensures Sorted(Insert(x, s))
  {
    if |s| > 0 && x.dispOrder > s[0].dispOrder {
      var tail := s[1..];
      InsertSorted(x, tail);
      InsertAdds(x, tail);
      var t := Insert(x, tail);
      forall k | 0 <= k < |t|
        ensures s[0].dispOrder <= t[k].dispOrder
      {
        assert t[k] in multiset(t);
        if t[k] != x {
          assert t[k] in multiset(tail);
          var m :| 0 <= m < |tail| && tail[m] == t[k];
          assert s[m + 1] == t[k];
        }
      }
      assert Insert(x, s) == [s[0]] + t;
    }
  }

  /** The qsort of av1_get_ref_frames: the buffers in ascending display
      order, as insertion sort. */
  function SortByDisp(s: seq<RefBufMapData>): (r: seq<RefBufMapData>)
    ensures Sorted(r) && multiset(r) == multiset(s)
  {
    if |s| == 0 then []
    else
      var pre, last := s[..|s| - 1], s[|s| - 1];
      var init := SortByDisp(pre);
      InsertSorted(last, init);
      InsertAdds(last, init);
      assert s == pre + [last];
      assert multiset(s) == multiset(pre) + multiset{last};
      Insert(last, init)
  }

  /** is_in_ref_map: some of the first n entries shows frame disp_order. */
  method IsInRefMap(bufferMap: seq<RefBufMapData>, dispOrder: int, n: int) returns (b: bool)
    requires 0 <= n <= |bufferMap|
    ensures b <==> exists i :: 0 <= i < n && bufferMap[i].dispOrder == dispOrder
  {
    for i := 0 to n
      invariant forall k :: 0 <= k < i ==> bufferMap[k].dispOrder != dispOrder
    {
      if dispOrder == bufferMap[i].dispOrder {
        return true;
      }
    }
    return false;
  }

  /** Every entry of the buffer map names a buffer that holds a frame. */
  predicate BufValid(bufferMap: seq<RefBufMapData>, pairs: seq<RefFrameMapPair>)
    requires |pairs| == REF_FRAMES
  {
    forall j :: 0 <= j < |bufferMap| ==>
      0 <= bufferMap[j].mapIdx < REF_FRAMES && pairs[bufferMap[j].mapIdx].dispOrder != -1
  }

  /** Every named slot is INVALID_IDX or a buffer that holds a frame. */
  predicate RemapValid(remapped: seq<int>, pairs: seq<RefFrameMapPair>)
    requires |pairs| == REF_FRAMES
  {
    |remapped| == REF_FRAMES
    && forall k :: 0 <= k < REF_FRAMES ==>
      remapped[k] == INVALID_IDX || (0 <= remapped[k] < REF_FRAMES && pairs[remapped[k]].dispOrder != -1)
  }

  /** Some entry of the buffer map shows frame d. */
  predicate Shows(bufferMap: seq<RefBufMapData>, d: int)
  {
    exists j :: 0 <= j < |bufferMap| && bufferMap[j].dispOrder == d
  }

  /** The first loop of av1_get_ref_frames: the frames of the non-empty
      buffers, each display order once, with the lowest pyramid level. */
  method CollectBuffers(pairs: seq<RefFrameMapPair>) returns (bufferMap: seq<RefBufMapData>, minLevel: int)
    requires |pairs| == REF_FRAMES
    ensures BufValid(bufferMap, pairs) && |bufferMap| <= REF_FRAMES
    ensures forall j :: 0 <= j < |bufferMap| ==>
      !bufferMap[j].used && bufferMap[j].dispOrder == pairs[bufferMap[j].mapIdx].dispOrder
      && bufferMap[j].pyrLevel == pairs[bufferMap[j].mapIdx].pyrLevel && minLevel <= bufferMap[j].pyrLevel
    ensures forall i, j :: 0 <= i < j < |bufferMap| ==> bufferMap[i].dispOrder != bufferMap[j].dispOrder
    ensures forall m :: 0 <= m < REF_FRAMES && pairs[m].dispOrder != -1 ==> Shows(bufferMap, pairs[m].dispOrder)
    ensures Collection(bufferMap, minLevel) == Collected(pairs, REF_FRAMES)
  {
    bufferMap := [];
    minLevel := MAX_ARF_LAYERS;
    var maxLevel := 0;
    for mapIdx := 0 to REF_FRAMES
      invariant Collection(bufferMap, minLevel) == Collected(pairs, mapIdx)
    {
      var pair := pairs[mapIdx];
      if pair.dispOrder == -1 {
        continue;
      }
      var frameOrder := pair.dispOrder;
      var seen := IsInRefMap(bufferMap, frameOrder, |bufferMap|);
      if seen {
        continue;
      }
      var level := pair.pyrLevel;
      if level < minLevel {
        minLevel := level;
      }
      if level > maxLevel {
        maxLevel := level;
      }
      bufferMap := bufferMap + [RefBufMapData(mapIdx, frameOrder, level, false)];
    }
    CollectedValid(pairs, REF_FRAMES);
    CollectedEntries(pairs, REF_FRAMES);
    CollectedDistinct(pairs, REF_FRAMES);
    CollectedShows(pairs, REF_FRAMES);
  }

  /** The entries of the first n map slots: unused, with the display
      order and level of the slot they name, no lower than minLevel, and
      no more of them than slots. */
  predicate FromPairs(c: Collection, pairs: seq<RefFrameMapPair>, n: nat)
    requires |pairs| == REF_FRAMES
  {
    |c.bufs| <= n
    && forall j :: 0 <= j < |c.bufs| ==>
      0 <= c.bufs[j].mapIdx < REF_FRAMES && !c.bufs[j].used
      && c.bufs[j].dispOrder == pairs[c.bufs[j].mapIdx].dispOrder
      && c.bufs[j].pyrLevel == pairs[c.bufs[j].mapIdx].pyrLevel && c.minLevel <= c.bufs[j].pyrLevel
  }

  lemma {:induction false} CollectedEntries(pairs: seq<RefFrameMapPair>, n: nat)
    requires |pairs| == REF_FRAMES && n <= REF_FRAMES
    ensures FromPairs(Collected(pairs, n), pairs, n)
  {
    if n > 0 {
      CollectedEntries(pairs, n - 1);
    }
  }

  /** No two entries of bufs show the same frame. */
  predicate DistinctOrders(bufs: seq<RefBufMapData>)
  {
    forall i, j :: 0 <= i < j < |bufs| ==> bufs[i].dispOrder != bufs[j].dispOrder
  }

  lemma {:induction false} CollectedDistinct(pairs: seq<RefFrameMapPair>, n: nat)
    requires |pairs| == REF_FRAMES && n <= REF_FRAMES
    ensures DistinctOrders(Collected(pairs, n).bufs)
  {
    if n > 0 {
      CollectedDistinct(pairs, n - 1);
      var c := Collected(pairs, n - 1);
      var p := pairs[n - 1];
      if !(p.dispOrder == -1 || Shows(c.bufs, p.dispOrder)) {
        var b := c.bufs + [RefBufMapData(n - 1, p.dispOrder, p.pyrLevel, false)];
        forall i, j | 0 <= i < j < |b|
          ensures b[i].dispOrder != b[j].dispOrder
        {
          if j == |c.bufs| {
            assert b[i] == c.bufs[i];
          }
        }
      }
    }
  }

  /** Every frame held by one of the first n slots is shown by bufs. */
  predicate ShowsAll(bufs: seq<RefBufMapData>, pairs: seq<RefFrameMapPair>, n: nat)
    requires n <= |pairs|
  {
    forall m :: 0 <= m < n && pairs[m].dispOrder != -1 ==> Shows(bufs, pairs[m].dispOrder)
  }

  lemma {:induction false} CollectedShows(pairs: seq<RefFrameMapPair>, n: nat)
    requires |pairs| == REF_FRAMES && n <= REF_FRAMES
    ensures ShowsAll(Collected(pairs, n).bufs, pairs, n)
  {
    if n > 0 {
      CollectedShows(pairs, n - 1);
      var c := Collected(pairs, n - 1);
      var p := pairs[n - 1];
      if !(p.dispOrder == -1 || Shows(c.bufs, p.dispOrder)) {
        var e := RefBufMapData(n - 1, p.dispOrder, p.pyrLevel, false);
        var b := c.bufs + [e];
        forall m | 0 <= m < n && pairs[m].dispOrder != -1
          ensures Shows(b, pairs[m].dispOrder)
        {
          if m == n - 1 {
            assert b[|c.bufs|] == e;
          } else {
            var j :| 0 <= j < |c.bufs| && c.bufs[j].dispOrder == pairs[m].dispOrder;
            assert b[j] == c.bufs[j];
          }
        }
      }
    }
  }

  /** add_ref_to_slot: named reference `frame` takes buffer entry i. */
  method AddRefToSlot(bufferMap: seq<RefBufMapData>, i: int, remapped: array<int>, frame: int)
    returns (bufferMap': seq<RefBufMapData>)
    requires 0 <= i < |bufferMap| && LAST_FRAME <= frame <= REF_FRAMES && remapped.Length == REF_FRAMES
    modifies remapped
    ensures remapped[..] == old(remapped[..])[frame - LAST_FRAME := bufferMap[i].mapIdx]
    ensures bufferMap' == bufferMap[i := bufferMap[i].(used := true)]
  {
    remapped[frame - LAST_FRAME] := bufferMap[i].mapIdx;
    bufferMap' := bufferMap[i := bufferMap[i].(used := true)];
  }

  /** A buffer set_unmapped_ref may leave out: not yet mapped, and not of
      the lowest level unless there are enough lowest-level frames. */
  predicate Unmappable(bufferMap: seq<RefBufMapData>, nMinLevelRefs: int, minLevel: int, i: int)
    requires 0 <= i < |bufferMap|
  {
    !bufferMap[i].used && (bufferMap[i].pyrLevel != minLevel || nMinLevelRefs >= LOW_LEVEL_FRAMES_TR)
  }

  /** The entry the scan of set_unmapped_ref keeps after the first n: a
      candidate replaces it only when strictly farther from the current
      frame, and the kept distance starts at 0. */
  function Farthest(bufferMap: seq<RefBufMapData>, nMinLevelRefs: int, minLevel: int, cur: int, n: nat): (r: int)
    requires n <= |bufferMap|
    ensures -1 <= r < n
  {
    if n == 0 then -1
    else
      var o := Farthest(bufferMap, nMinLevelRefs, minLevel, cur, n - 1);
      var best := if o == -1 then 0 else Abs(cur - bufferMap[o].dispOrder);
      if Unmappable(bufferMap, nMinLevelRefs, minLevel, n - 1) && Abs(cur - bufferMap[n - 1].dispOrder) > best
      then n - 1 else o
  }

  /** The kept entry is the first candidate farthest from the current
      frame; it is -1 only when every candidate is the current frame. */
  lemma {:induction false} FarthestIsFarthest(bufferMap: seq<RefBufMapData>, nMinLevelRefs: int, minLevel: int,
                                              cur: int, n: nat)
    requires n <= |bufferMap|
    ensures var r := Farthest(bufferMap, nMinLevelRefs, minLevel, cur, n);
      (r != -1 ==> Unmappable(bufferMap, nMinLevelRefs, minLevel, r) && Abs(cur - bufferMap[r].dispOrder) > 0)
      && (forall i :: 0 <= i < n && Unmappable(bufferMap, nMinLevelRefs, minLevel, i)
                      && Abs(cur - bufferMap[i].dispOrder) > 0 ==>
            r != -1 && Abs(cur - bufferMap[i].dispOrder) <= Abs(cur - bufferMap[r].dispOrder))
  {
    if n > 0 {
      FarthestIsFarthest(bufferMap, nMinLevelRefs, minLevel, cur, n - 1);
    }
  }

  /** set_unmapped_ref: with more than 7 buffers, the farthest candidate
      is marked used so that no named slot takes it. The source asserts a
      candidate exists; the model leaves the map unchanged when none does,
      where the source would write before the array. */
  method SetUnmappedRef(bufferMap: seq<RefBufMapData>, nMinLevelRefs: int, minLevel: int, cur: int)
    returns (bufferMap': seq<RefBufMapData>)
    ensures var u := Farthest(bufferMap, nMinLevelRefs, minLevel, cur, |bufferMap|);
      bufferMap' == if |bufferMap| <= ALTREF_FRAME || u == -1 then bufferMap
                    else bufferMap[u := bufferMap[u].(used := true)]
  {
    var maxDist := 0;
    var unmappedIdx := -1;
    if |bufferMap| <= ALTREF_FRAME {
      return bufferMap;
    }
    for i := 0 to |bufferMap|
      invariant unmappedIdx == Farthest(bufferMap, nMinLevelRefs, minLevel, cur, i)
      invariant maxDist == if unmappedIdx == -1 then 0 else Abs(cur - bufferMap[unmappedIdx].dispOrder)
    {
      if bufferMap[i].used {
        continue;
      }
      if bufferMap[i].pyrLevel != minLevel || nMinLevelRefs >= LOW_LEVEL_FRAMES_TR {
        var dist := Abs(cur - bufferMap[i].dispOrder);
        if dist > maxDist {
          maxDist := dist;
          unmappedIdx := i;
        }
      }
    }
    if unmappedIdx == -1 {
      return bufferMap;
    }
    bufferMap' := bufferMap[unmappedIdx := bufferMap[unmappedIdx].(used := true)];
  }

  /** av1_get_ref_frames: maps the named references LAST..ALTREF (slots
      0..6 of cm->remapped_ref_idx, with slot 7 filled too) onto the
      buffers. Every slot ends up naming a buffer, and a slot other than
      the fallback 0 names one that holds a frame. */
  method GetRefFrames(cur: int, pairs: seq<RefFrameMapPair>, remapped: array<int>)
    requires |pairs| == REF_FRAMES && remapped.Length == REF_FRAMES
    modifies remapped
    ensures forall k :: 0 <= k < REF_FRAMES ==> remapped[k] != INVALID_IDX && 0 <= remapped[k] < REF_FRAMES
    ensures forall k :: 0 <= k < REF_FRAMES ==> remapped[k] == 0 || pairs[remapped[k]].dispOrder != -1
    ensures remapped[..] == RefMap(cur, pairs)
  {
    for i := 0 to REF_FRAMES
      invariant forall k :: 0 <= k < i ==> remapped[k] == INVALID_IDX
    {
      remapped[i] := INVALID_IDX;
    }
    assert remapped[..] == NoSlots();
    var bufferMap, minLevel := CollectBuffers(pairs);
    SortKeepsValid(bufferMap, pairs);
    bufferMap := SortByDisp(bufferMap);
    MapSortedBuffers(bufferMap, minLevel, cur, pairs, remapped);
  }

  /** The stages of av1_get_ref_frames after the sort, from an empty
      slot map to the final one. */
  method MapSortedBuffers(bufferMap: seq<RefBufMapData>, minLevel: int, cur: int, pairs: seq<RefFrameMapPair>,
                          remapped: array<int>)
    requires |pairs| == REF_FRAMES && remapped.Length == REF_FRAMES
    requires BufValid(bufferMap, pairs) && remapped[..] == NoSlots()
    modifies remapped
    ensures forall k :: 0 <= k < REF_FRAMES ==> remapped[k] != INVALID_IDX && 0 <= remapped[k] < REF_FRAMES
    ensures forall k :: 0 <= k < REF_FRAMES ==> remapped[k] == 0 || pairs[remapped[k]].dispOrder != -1
    ensures remapped[..] == MapSorted(bufferMap, minLevel, cur)
  {
    var bm := bufferMap;
    var nMinLevelRefs, nPastHighLevel, closestPastRef;
    bm, nMinLevelRefs, nPastHighLevel, closestPastRef := MapNearestByLevel(bm, minLevel, cur, pairs, remapped);
    ghost var scannedBufs, scannedSlots := bm, remapped[..];
    bm := SetUnmappedRef(bm, nMinLevelRefs, minLevel, cur);
    MarkKeepsValid(scannedBufs, Farthest(scannedBufs, nMinLevelRefs, minLevel, cur, |scannedBufs|), pairs);
    ghost var unmappedBufs := bm;
    bm := PlaceRemaining(bm, minLevel, nPastHighLevel, closestPastRef, pairs, remapped);
    ghost var beforeFill := remapped[..];
    FillEmptySlots(remapped);
    MapSortedStages(bufferMap, minLevel, cur, nMinLevelRefs, nPastHighLevel, closestPastRef,
                    MapState(scannedBufs, scannedSlots), MapState(unmappedBufs, scannedSlots), remapped[..]);
    FilledValid(beforeFill, pairs);
  }

  /** The stages of av1_get_ref_frames after set_unmapped_ref: LAST3,
      then the remaining past and future frames. */
  method PlaceRemaining(bufferMap: seq<RefBufMapData>, minLevel: int, nPastHighLevel: int, closestPastRef: int,
                        pairs: seq<RefFrameMapPair>, remapped: array<int>) returns (bufferMap': seq<RefBufMapData>)
    requires |pairs| == REF_FRAMES && remapped.Length == REF_FRAMES
    requires -1 <= closestPastRef < |bufferMap|
    requires BufValid(bufferMap, pairs) && RemapValid(remapped[..], pairs)
    modifies remapped
    ensures |bufferMap'| == |bufferMap| && BufValid(bufferMap', pairs) && RemapValid(remapped[..], pairs)
    ensures MapState(bufferMap', remapped[..])
            == Remaining(MapState(bufferMap, old(remapped[..])), minLevel, nPastHighLevel, closestPastRef)
  {
    bufferMap' := MapLast3(bufferMap, minLevel, nPastHighLevel, pairs, remapped);
    bufferMap' := PlacePastFrames(bufferMap', closestPastRef, pairs, remapped);
    bufferMap' := PlaceFutureFrames(bufferMap', closestPastRef, pairs, remapped);
  }

  /** Filling a valid slot map names a buffer in every slot, one that
      holds a frame unless it is the fallback 0. */
  lemma FilledValid(slots: seq<int>, pairs: seq<RefFrameMapPair>)
    requires |pairs| == REF_FRAMES && RemapValid(slots, pairs)
    ensures var f := Filled(slots);
      |f| == REF_FRAMES
      && forall k :: 0 <= k < REF_FRAMES ==>
           f[k] != INVALID_IDX && 0 <= f[k] < REF_FRAMES && (f[k] == 0 || pairs[f[k]].dispOrder != -1)
  {
  }

  /** Sorting keeps every entry naming a buffer that holds a frame. */
  lemma SortKeepsValid(bufferMap: seq<RefBufMapData>, pairs: seq<RefFrameMapPair>)
    requires |pairs| == REF_FRAMES && BufValid(bufferMap, pairs)
    ensures BufValid(SortByDisp(bufferMap), pairs)
  {
    var r := SortByDisp(bufferMap);
    forall j | 0 <= j < |r|
      ensures 0 <= r[j].mapIdx < REF_FRAMES && pairs[r[j].mapIdx].dispOrder != -1
    {
      assert r[j] in multiset(r);
      assert r[j] in bufferMap;
    }
  }

  /** Marking an entry used, or none, keeps the map valid. */
  lemma MarkKeepsValid(bufferMap: seq<RefBufMapData>, u: int, pairs: seq<RefFrameMapPair>)
    requires |pairs| == REF_FRAMES && BufValid(bufferMap, pairs) && -1 <= u < |bufferMap|
    ensures u != -1 ==> BufValid(bufferMap[u := bufferMap[u].(used := true)], pairs)
  {
  }

  /** The last loop of av1_get_ref_frames: a slot still INVALID_IDX (only
      while fewer than 7 frames have been coded) takes buffer 0. */
  method FillEmptySlots(remapped: array<int>)
    modifies remapped
    ensures remapped[..] == Filled(old(remapped[..]))
  {
    for k := 0 to remapped.Length
      invariant forall m :: 0 <= m < k ==>
        remapped[m] == if old(remapped[m]) == INVALID_IDX then 0 else old(remapped[m])
      invariant forall m :: k <= m < remapped.Length ==> remapped[m] == old(remapped[m])
    {
      if remapped[k] == INVALID_IDX {
        remapped[k] := 0;
      }
    }
  }

  /** "Place remaining past frames": each empty slot from LAST on takes
      the next unused buffer going back from the closest past frame. */
  method PlacePastFrames(bufferMap: seq<RefBufMapData>, closestPastRef: int, pairs: seq<RefFrameMapPair>,
                         remapped: array<int>) returns (bufferMap': seq<RefBufMapData>)
    requires |pairs| == REF_FRAMES && remapped.Length == REF_FRAMES
    requires -1 <= closestPastRef < |bufferMap|
    requires BufValid(bufferMap, pairs) && RemapValid(remapped[..], pairs)
    modifies remapped
    ensures |bufferMap'| == |bufferMap| && BufValid(bufferMap', pairs) && RemapValid(remapped[..], pairs)
    ensures MapState(bufferMap', remapped[..]) == PastFill(MapState(bufferMap, old(remapped[..])), closestPastRef, LAST_FRAME)
  {
    bufferMap' := bufferMap;
    var bufMapIdx := closestPastRef;
    ghost var goal := PastFill(MapState(bufferMap, remapped[..]), closestPastRef, LAST_FRAME);
    PastFillValid(MapState(bufferMap, remapped[..]), closestPastRef, LAST_FRAME, pairs);
    for frame := LAST_FRAME to REF_FRAMES
      invariant -1 <= bufMapIdx < |bufferMap'| && |bufferMap'| == |bufferMap|
      invariant PastFill(MapState(bufferMap', remapped[..]), bufMapIdx, frame) == goal
    {
      if remapped[frame - LAST_FRAME] != INVALID_IDX {
        continue;
      }
      ghost var start := bufMapIdx;
      while bufMapIdx >= 0 && bufferMap'[bufMapIdx].used
        invariant -1 <= bufMapIdx < |bufferMap'|
        invariant PrevUnused(bufferMap', bufMapIdx) == PrevUnused(bufferMap', start)
      {
        bufMapIdx := bufMapIdx - 1;
      }
      if bufMapIdx < 0 {
        break;
      }
      if bufferMap'[bufMapIdx].used {
        break;
      }
      bufferMap' := AddRefToSlot(bufferMap', bufMapIdx, remapped, frame);
    }
  }

  /** "Place remaining future frames": each empty slot from ALTREF down
      takes the next unused buffer going back from the latest frame, not
      below the closest past frame. */
  method PlaceFutureFrames(bufferMap: seq<RefBufMapData>, closestPastRef: int, pairs: seq<RefFrameMapPair>,
                           remapped: array<int>) returns (bufferMap': seq<RefBufMapData>)
    requires |pairs| == REF_FRAMES && remapped.Length == REF_FRAMES
    requires -1 <= closestPastRef < |bufferMap|
    requires BufValid(bufferMap, pairs) && RemapValid(remapped[..], pairs)
    modifies remapped
    ensures |bufferMap'| == |bufferMap| && BufValid(bufferMap', pairs) && RemapValid(remapped[..], pairs)
    ensures MapState(bufferMap', remapped[..]) == FutureFillAll(MapState(bufferMap, old(remapped[..])), closestPastRef)
  {
    ghost var st := MapState(bufferMap, remapped[..]);
    bufferMap' := FillFutureSlots(bufferMap, closestPastRef, remapped);
    ghost var r := FutureFillAll(st, closestPastRef);
    assert bufferMap' == r.bufs && remapped[..] == r.slots;
    assert BufValid(bufferMap', pairs) && RemapValid(remapped[..], pairs) by {
      FutureFillValid(st, |bufferMap| - 1, ALTREF_FRAME, closestPastRef, pairs);
    }
  }

  /** The loop of "place remaining future frames", from ALTREF down to
      LAST. */
  method FillFutureSlots(bufferMap: seq<RefBufMapData>, closestPastRef: int, remapped: array<int>)
    returns (bufferMap': seq<RefBufMapData>)
    requires remapped.Length == REF_FRAMES && -1 <= closestPastRef < |bufferMap|
    modifies remapped
    ensures MapState(bufferMap', remapped[..]) == FutureFillAll(MapState(bufferMap, old(remapped[..])), closestPastRef)
  {
    bufferMap' := bufferMap;
    var bufMapIdx := |bufferMap| - 1;
    ghost var goal := FutureFill(MapState(bufferMap, remapped[..]), bufMapIdx, ALTREF_FRAME, closestPastRef);
    for frame := ALTREF_FRAME + 1 downto LAST_FRAME
      invariant closestPastRef <= bufMapIdx < |bufferMap'| && |bufferMap'| == |bufferMap|
      invariant FutureFill(MapState(bufferMap', remapped[..]), bufMapIdx, frame - 1, closestPastRef) == goal
    {
      ghost var st, from := MapState(bufferMap', remapped[..]), bufMapIdx;
      if remapped[frame - LAST_FRAME] == INVALID_IDX {
        bufMapIdx := SearchUnusedDown(bufferMap', bufMapIdx, closestPastRef);
        FutureFillStep(st, from, frame, closestPastRef);
        if bufMapIdx < 0 || bufferMap'[bufMapIdx].used {
          break;
        }
        bufferMap' := AddRefToSlot(bufferMap', bufMapIdx, remapped, frame);
        assert MapState(bufferMap', remapped[..]) == Assign(st, bufMapIdx, frame);
      }
    }
  }

  /** The inner search of the future placement: step down from idx while
      the entry is used, stopping at closestPastRef. */
  method SearchUnusedDown(bufferMap: seq<RefBufMapData>, idx: int, closestPastRef: int) returns (j: int)
    requires -1 <= closestPastRef <= idx < |bufferMap|
    ensures j == NextUnusedDown(bufferMap, idx, closestPastRef)
  {
    j := idx;
    while j > closestPastRef && bufferMap[j].used
      invariant closestPastRef <= j <= idx
      invariant NextUnusedDown(bufferMap, j, closestPastRef) == NextUnusedDown(bufferMap, idx, closestPastRef)
    {
      j := j - 1;
    }
  }

  /** The backward scan of av1_get_ref_frames: it maps BWDREF to a
      higher-level buffer showing the current frame, counts the
      lowest-level and the past higher-level frames, finds the closest
      past frame, and then maps GOLDEN to the latest past and ALTREF to
      the latest future lowest-level frame, unless every frame is of the
      lowest level. */
  method MapNearestByLevel(bufferMap: seq<RefBufMapData>, minLevel: int, cur: int, pairs: seq<RefFrameMapPair>,
                           remapped: array<int>)
    returns (bufferMap': seq<RefBufMapData>, nMinLevelRefs: int, nPastHighLevel: int, closestPastRef: int)
    requires |pairs| == REF_FRAMES && remapped.Length == REF_FRAMES
    requires BufValid(bufferMap, pairs) && RemapValid(remapped[..], pairs)
    modifies remapped
    ensures |bufferMap'| == |bufferMap| && BufValid(bufferMap', pairs) && RemapValid(remapped[..], pairs)
    ensures -1 <= closestPastRef < |bufferMap|
    ensures closestPastRef != -1 ==> bufferMap'[closestPastRef].dispOrder < cur
    ensures MapState(bufferMap', remapped[..]) == NearestSpec(MapState(bufferMap, old(remapped[..])), minLevel, cur)
    ensures nMinLevelRefs == CountFrom(bufferMap, MinLevel, minLevel, cur, 0)
    ensures nPastHighLevel == CountFrom(bufferMap, PastHigh, minLevel, cur, 0)
    ensures closestPastRef == LastFrom(bufferMap, Past, minLevel, cur, 0)
  {
    ghost var slots0 := remapped[..];
    ScanFromValid(bufferMap, slots0, minLevel, cur, pairs);
    var goldenIdx, altrefIdx;
    bufferMap', nMinLevelRefs, nPastHighLevel, closestPastRef, goldenIdx, altrefIdx :=
      ScanByLevel(bufferMap, minLevel, cur, remapped);
    if nMinLevelRefs < |bufferMap| {
      if goldenIdx > -1 {
        bufferMap' := AddRefToSlot(bufferMap', goldenIdx, remapped, GOLDEN_FRAME);
      }
      if altrefIdx > -1 {
        bufferMap' := AddRefToSlot(bufferMap', altrefIdx, remapped, ALTREF_FRAME);
      }
    }
  }

  /** The loop of the backward scan, from the last entry to the first. */
  method ScanByLevel(bufferMap: seq<RefBufMapData>, minLevel: int, cur: int, remapped: array<int>)
    returns (bufferMap': seq<RefBufMapData>, nMinLevelRefs: int, nPastHighLevel: int, closestPastRef: int,
             goldenIdx: int, altrefIdx: int)
    requires remapped.Length == REF_FRAMES
    modifies remapped
    ensures Scan(bufferMap', remapped[..], nMinLevelRefs, nPastHighLevel, closestPastRef, goldenIdx, altrefIdx)
            == ScanFrom(bufferMap, old(remapped[..]), minLevel, cur, 0)
  {
    ghost var slots0 := remapped[..];
    bufferMap' := bufferMap;
    var nBufs := |bufferMap|;
    nMinLevelRefs, nPastHighLevel := 0, 0;
    closestPastRef := -1;
    goldenIdx, altrefIdx := -1, -1;
    var i := nBufs - 1;
    assert bufferMap' == MarkShowing(bufferMap, minLevel, cur, nBufs);
    while i >= 0
      invariant -1 <= i < nBufs
      invariant Scan(bufferMap', remapped[..], nMinLevelRefs, nPastHighLevel, closestPastRef, goldenIdx, altrefIdx)
                == ScanFrom(bufferMap, slots0, minLevel, cur, i + 1)
    {
      ScanStep(bufferMap, slots0, minLevel, cur, i);
      if bufferMap'[i].pyrLevel == minLevel {
        nMinLevelRefs := nMinLevelRefs + 1;
        if bufferMap'[i].dispOrder < cur && goldenIdx == -1
           && remapped[GOLDEN_FRAME - LAST_FRAME] == INVALID_IDX {
          goldenIdx := i;
        } else if bufferMap'[i].dispOrder > cur && altrefIdx == -1
                  && remapped[ALTREF_FRAME - LAST_FRAME] == INVALID_IDX {
          altrefIdx := i;
        }
      } else if bufferMap'[i].dispOrder == cur {
        bufferMap' := AddRefToSlot(bufferMap', i, remapped, BWDREF_FRAME);
      }
      if bufferMap'[i].dispOrder < cur && bufferMap'[i].pyrLevel != minLevel {
        nPastHighLevel := nPastHighLevel + 1;
      }
      if bufferMap'[i].dispOrder < cur && closestPastRef < 0 {
        closestPastRef := i;
      }
      i := i - 1;
    }
  }

  /** The scan keeps the map and the slots valid, and its closest past
      entry is a past frame. */
  lemma ScanFromValid(bm: seq<RefBufMapData>, slots0: seq<int>, minLevel: int, cur: int, pairs: seq<RefFrameMapPair>)
    requires |pairs| == REF_FRAMES && |slots0| == REF_FRAMES && BufValid(bm, pairs) && RemapValid(slots0, pairs)
    ensures var sc := ScanFrom(bm, slots0, minLevel, cur, 0);
      |sc.bufs| == |bm| && BufValid(sc.bufs, pairs) && RemapValid(sc.slots, pairs)
      && -1 <= sc.closestPastRef < |bm| && -1 <= sc.goldenIdx < |bm| && -1 <= sc.altrefIdx < |bm|
      && (sc.closestPastRef != -1 ==> sc.bufs[sc.closestPastRef].dispOrder < cur)
  {
    LastFromIsLast(bm, Past, minLevel, cur, 0);
  }

  /** "Map LAST3_FRAME": with at least 7 buffers, LAST3 takes the first
      unused buffer above the lowest level, or of any level when there are
      8 buffers and fewer than 4 past higher-level frames. */
  method MapLast3(bufferMap: seq<RefBufMapData>, minLevel: int, nPastHighLevel: int, pairs: seq<RefFrameMapPair>,
                  remapped: array<int>) returns (bufferMap': seq<RefBufMapData>)
    requires |pairs| == REF_FRAMES && remapped.Length == REF_FRAMES
    requires BufValid(bufferMap, pairs) && RemapValid(remapped[..], pairs)
    modifies remapped
    ensures |bufferMap'| == |bufferMap| && BufValid(bufferMap', pairs) && RemapValid(remapped[..], pairs)
    ensures MapState(bufferMap', remapped[..]) == Last3Spec(MapState(bufferMap, old(remapped[..])), minLevel, nPastHighLevel)
  {
    bufferMap' := bufferMap;
    var nBufs := |bufferMap|;
    if nBufs >= ALTREF_FRAME {
      var useLowLevelLast3 := nPastHighLevel < 4 && nBufs > ALTREF_FRAME;
      ghost var cand := Last3Cand(useLowLevelLast3);
      FirstFromIsFirst(bufferMap, cand, minLevel, 0, 0);
      for j := 0 to nBufs
        invariant bufferMap' == bufferMap && remapped[..] == old(remapped[..])
        invariant forall k :: 0 <= k < j ==> !Wanted(bufferMap[k], cand, minLevel, 0)
      {
        if bufferMap'[j].used {
          continue;
        }
        if bufferMap'[j].pyrLevel != minLevel || (useLowLevelLast3 && bufferMap'[j].pyrLevel == minLevel) {
          bufferMap' := AddRefToSlot(bufferMap', j, remapped, LAST3_FRAME);
          break;
        }
      }
    }
  }

  // The mapping av1_get_ref_frames computes, stage by stage, as functions
  // of the sorted buffer map.

  /** The buffer map and the named slots between two stages. */
  datatype MapState = MapState(bufs: seq<RefBufMapData>, slots: seq<int>)

  /** What a stage looks for in the buffer map. Last3Cand is the test of
      "Map LAST3_FRAME": level != min || (useLow && level == min), which
      is level != min || useLow. */
  datatype Want =
    | MinLevel
    | MinPast
    | MinFuture
    | Past
    | PastHigh
    | ShowsCur
    | Last3Cand(useLow: bool)

  predicate Wanted(e: RefBufMapData, w: Want, minLevel: int, cur: int)
  {
    match w
    case MinLevel => e.pyrLevel == minLevel
    case MinPast => e.pyrLevel == minLevel && e.dispOrder < cur
    case MinFuture => e.pyrLevel == minLevel && e.dispOrder > cur
    case Past => e.dispOrder < cur
    case PastHigh => e.pyrLevel != minLevel && e.dispOrder < cur
    case ShowsCur => e.pyrLevel != minLevel && e.dispOrder == cur
    case Last3Cand(useLow) => !e.used && (e.pyrLevel != minLevel || useLow)
  }

  /** The last wanted entry from lo on, or -1: what a backward scan that
      keeps its first hit finds. */
  function LastFrom(bm: seq<RefBufMapData>, w: Want, minLevel: int, cur: int, lo: nat): (r: int)
    requires lo <= |bm|
    ensures r == -1 || lo <= r < |bm|
    decreases |bm| - lo
  {
    if lo == |bm| then -1
    else
      var r := LastFrom(bm, w, minLevel, cur, lo + 1);
      if r != -1 then r else if Wanted(bm[lo], w, minLevel, cur) then lo else -1
  }

  /** The first wanted entry from lo on, or -1: what a forward scan that
      stops at its first hit, or a backward scan whose last hit wins, finds. */
  function FirstFrom(bm: seq<RefBufMapData>, w: Want, minLevel: int, cur: int, lo: nat): (r: int)
    requires lo <= |bm|
    ensures r == -1 || lo <= r < |bm|
    decreases |bm| - lo
  {
    if lo == |bm| then -1
    else if Wanted(bm[lo], w, minLevel, cur) then lo
    else FirstFrom(bm, w, minLevel, cur, lo + 1)
  }

  /** The number of wanted entries from lo on. */
  function CountFrom(bm: seq<RefBufMapData>, w: Want, minLevel: int, cur: int, lo: nat): (r: nat)
    requires lo <= |bm|
    ensures r <= |bm| - lo
    decreases |bm| - lo
  {
    if lo == |bm| then 0
    else CountFrom(bm, w, minLevel, cur, lo + 1) + (if Wanted(bm[lo], w, minLevel, cur) then 1 else 0)
  }

  /** LastFrom finds a wanted entry with none after it, and -1 exactly
      when there is none. */
  lemma {:induction false} LastFromIsLast(bm: seq<RefBufMapData>, w: Want, minLevel: int, cur: int, lo: nat)
    requires lo <= |bm|
    decreases |bm| - lo
    ensures var r := LastFrom(bm, w, minLevel, cur, lo);
      (r == -1 <==> forall j :: lo <= j < |bm| ==> !Wanted(bm[j], w, minLevel, cur))
      && (r != -1 ==> Wanted(bm[r], w, minLevel, cur)
                      && forall j :: r < j < |bm| ==> !Wanted(bm[j], w, minLevel, cur))
  {
    if lo < |bm| {
      LastFromIsLast(bm, w, minLevel, cur, lo + 1);
    }
  }

  /** FirstFrom finds a wanted entry with none between lo and it, and -1
      exactly when there is none. */
  lemma {:induction false} FirstFromIsFirst(bm: seq<RefBufMapData>, w: Want, minLevel: int, cur: int, lo: nat)
    requires lo <= |bm|
    decreases |bm| - lo
    ensures var r := FirstFrom(bm, w, minLevel, cur, lo);
      (r == -1 <==> forall j :: lo <= j < |bm| ==> !Wanted(bm[j], w, minLevel, cur))
      && (r != -1 ==> Wanted(bm[r], w, minLevel, cur)
                      && forall j :: lo <= j < r ==> !Wanted(bm[j], w, minLevel, cur))
  {
    if lo < |bm| {
      FirstFromIsFirst(bm, w, minLevel, cur, lo + 1);
    }
  }

  /** Every entry from lo on is wanted exactly when all are counted. */
  lemma {:induction false} CountFromAll(bm: seq<RefBufMapData>, w: Want, minLevel: int, cur: int, lo: nat)
    requires lo <= |bm|
    decreases |bm| - lo
    ensures CountFrom(bm, w, minLevel, cur, lo) == |bm| - lo
            <==> forall j :: lo <= j < |bm| ==> Wanted(bm[j], w, minLevel, cur)
  {
    if lo < |bm| {
      CountFromAll(bm, w, minLevel, cur, lo + 1);
    }
  }

  /** In display order, the last wanted entry is the latest displayed. */
  lemma LastIsLatest(bm: seq<RefBufMapData>, w: Want, minLevel: int, cur: int)
    requires Sorted(bm)
    ensures var r := LastFrom(bm, w, minLevel, cur, 0);
      r != -1 ==> forall j :: 0 <= j < |bm| && Wanted(bm[j], w, minLevel, cur) ==> bm[j].dispOrder <= bm[r].dispOrder
  {
    LastFromIsLast(bm, w, minLevel, cur, 0);
  }

  /** The entries from lo on that show the current frame above the
      lowest level, marked used by the backward scan. */
  function MarkShowing(bm: seq<RefBufMapData>, minLevel: int, cur: int, lo: int): seq<RefBufMapData>
  {
    seq(|bm|, j requires 0 <= j < |bm| =>
      if lo <= j && Wanted(bm[j], ShowsCur, minLevel, cur) then bm[j].(used := true) else bm[j])
  }

  /** add_ref_to_slot on values. */
  function Assign(st: MapState, i: int, frame: int): MapState
    requires 0 <= i < |st.bufs| && LAST_FRAME <= frame <= |st.slots|
  {
    MapState(st.bufs[i := st.bufs[i].(used := true)], st.slots[frame - LAST_FRAME := st.bufs[i].mapIdx])
  }

  /** The state of the backward scan once it has seen the entries from
      lo on: the map with the entries showing the current frame marked,
      the slots with BWDREF given to the first of them, the counts, the
      closest past entry and the GOLDEN and ALTREF candidates. */
  datatype Scan = Scan(bufs: seq<RefBufMapData>, slots: seq<int>, nMinLevelRefs: int, nPastHighLevel: int,
                       closestPastRef: int, goldenIdx: int, altrefIdx: int)

  function ScanFrom(bm: seq<RefBufMapData>, slots0: seq<int>, minLevel: int, cur: int, lo: nat): Scan
    requires lo <= |bm| && |slots0| == REF_FRAMES
  {
    var s := FirstFrom(bm, ShowsCur, minLevel, cur, lo);
    Scan(MarkShowing(bm, minLevel, cur, lo),
         if s == -1 then slots0 else slots0[BWDREF_FRAME - LAST_FRAME := bm[s].mapIdx],
         CountFrom(bm, MinLevel, minLevel, cur, lo),
         CountFrom(bm, PastHigh, minLevel, cur, lo),
         LastFrom(bm, Past, minLevel, cur, lo),
         if slots0[GOLDEN_FRAME - LAST_FRAME] == INVALID_IDX then LastFrom(bm, MinPast, minLevel, cur, lo) else -1,
         if slots0[ALTREF_FRAME - LAST_FRAME] == INVALID_IDX then LastFrom(bm, MinFuture, minLevel, cur, lo) else -1)
  }

  /** One step of the backward scan, as the loop body of
      av1_get_ref_frames takes it on entry i. */
  lemma ScanStep(bm: seq<RefBufMapData>, slots0: seq<int>, minLevel: int, cur: int, i: nat)
    requires i < |bm| && |slots0| == REF_FRAMES
    ensures var p := ScanFrom(bm, slots0, minLevel, cur, i + 1);
      var q := ScanFrom(bm, slots0, minLevel, cur, i);
      var e := bm[i];
      var shows := e.pyrLevel != minLevel && e.dispOrder == cur;
      |p.bufs| == |bm| && p.bufs[i] == e && |p.slots| == REF_FRAMES
      && q.bufs == (if shows then p.bufs[i := e.(used := true)] else p.bufs)
      && q.slots == (if shows then p.slots[BWDREF_FRAME - LAST_FRAME := e.mapIdx] else p.slots)
      && q.nMinLevelRefs == p.nMinLevelRefs + (if e.pyrLevel == minLevel then 1 else 0)
      && q.nPastHighLevel == p.nPastHighLevel + (if e.dispOrder < cur && e.pyrLevel != minLevel then 1 else 0)
      && q.closestPastRef == (if e.dispOrder < cur && p.closestPastRef < 0 then i else p.closestPastRef)
      && q.goldenIdx == (if e.pyrLevel == minLevel && e.dispOrder < cur && p.goldenIdx == -1
                            && p.slots[GOLDEN_FRAME - LAST_FRAME] == INVALID_IDX then i else p.goldenIdx)
      && q.altrefIdx == (if e.pyrLevel == minLevel && e.dispOrder > cur && p.altrefIdx == -1
                            && p.slots[ALTREF_FRAME - LAST_FRAME] == INVALID_IDX then i else p.altrefIdx)
  {
    var p := ScanFrom(bm, slots0, minLevel, cur, i + 1);
    var q := ScanFrom(bm, slots0, minLevel, cur, i);
    if bm[i].pyrLevel != minLevel && bm[i].dispOrder == cur {
      assert q.bufs == p.bufs[i := bm[i].(used := true)];
    } else {
      assert q.bufs == p.bufs;
    }
  }

  /** The backward scan and the GOLDEN/ALTREF step: BWDREF takes the
      first higher-level entry showing the current frame; unless every
      entry is of the lowest level, GOLDEN takes the last past and ALTREF
      the last future lowest-level entry, each only if its slot was empty. */
  function NearestSpec(st: MapState, minLevel: int, cur: int): (r: MapState)
    requires |st.slots| == REF_FRAMES
    ensures |r.bufs| == |st.bufs| && |r.slots| == REF_FRAMES
  {
    var sc := ScanFrom(st.bufs, st.slots, minLevel, cur, 0);
    var scanned := MapState(sc.bufs, sc.slots);
    if sc.nMinLevelRefs < |st.bufs| then
      var withGolden := if sc.goldenIdx > -1 then Assign(scanned, sc.goldenIdx, GOLDEN_FRAME) else scanned;
      if sc.altrefIdx > -1 then Assign(withGolden, sc.altrefIdx, ALTREF_FRAME) else withGolden
    else scanned
  }

  /** "Map LAST3_FRAME": with at least 7 entries, LAST3 takes the first
      candidate. */
  function Last3Spec(st: MapState, minLevel: int, nPastHighLevel: int): (r: MapState)
    requires |st.slots| == REF_FRAMES
    ensures |r.bufs| == |st.bufs| && |r.slots| == REF_FRAMES
  {
    if |st.bufs| < ALTREF_FRAME then st
    else
      var useLow := nPastHighLevel < 4 && |st.bufs| > ALTREF_FRAME;
      var c := FirstFrom(st.bufs, Last3Cand(useLow), minLevel, 0, 0);
      if c == -1 then st else Assign(st, c, LAST3_FRAME)
  }

  /** The inner loop of "Place remaining past frames": the last entry at
      or before idx not used yet, or -1. */
  function PrevUnused(bufs: seq<RefBufMapData>, idx: int): (r: int)
    requires -1 <= idx < |bufs|
    ensures -1 <= r <= idx && (r == -1 || !bufs[r].used)
    decreases idx + 1
  {
    if idx >= 0 && bufs[idx].used then PrevUnused(bufs, idx - 1) else idx
  }

  /** The entries PrevUnused passes over are all used. */
  lemma {:induction false} PrevUnusedSkipsUsed(bufs: seq<RefBufMapData>, idx: int)
    requires -1 <= idx < |bufs|
    ensures forall j :: PrevUnused(bufs, idx) < j <= idx ==> bufs[j].used
    decreases idx + 1
  {
    if idx >= 0 && bufs[idx].used {
      PrevUnusedSkipsUsed(bufs, idx - 1);
    }
  }

  /** "Place remaining past frames", from slot frame on, with the search
      resuming at idx. */
  function PastFill(st: MapState, idx: int, frame: int): (r: MapState)
    requires |st.slots| == REF_FRAMES && -1 <= idx < |st.bufs| && LAST_FRAME <= frame <= REF_FRAMES
    ensures |r.bufs| == |st.bufs| && |r.slots| == REF_FRAMES
    decreases REF_FRAMES - frame
  {
    if frame == REF_FRAMES then st
    else if st.slots[frame - LAST_FRAME] != INVALID_IDX then PastFill(st, idx, frame + 1)
    else
      var j := PrevUnused(st.bufs, idx);
      if j < 0 then st else PastFill(Assign(st, j, frame), j, frame + 1)
  }

  /** The inner loop of "Place remaining future frames": going back from
      idx over used entries, but not to closestPastRef or below. */
  function NextUnusedDown(bufs: seq<RefBufMapData>, idx: int, closestPastRef: int): (r: int)
    requires -1 <= closestPastRef <= idx < |bufs|
    ensures closestPastRef <= r <= idx && (r == closestPastRef || !bufs[r].used)
    decreases idx
  {
    if idx > closestPastRef && bufs[idx].used then NextUnusedDown(bufs, idx - 1, closestPastRef) else idx
  }

  /** The entries NextUnusedDown passes over are all used. */
  lemma {:induction false} NextUnusedDownSkipsUsed(bufs: seq<RefBufMapData>, idx: int, closestPastRef: int)
    requires -1 <= closestPastRef <= idx < |bufs|
    ensures forall j :: NextUnusedDown(bufs, idx, closestPastRef) < j <= idx ==> bufs[j].used
    decreases idx
  {
    if idx > closestPastRef && bufs[idx].used {
      NextUnusedDownSkipsUsed(bufs, idx - 1, closestPastRef);
    }
  }

  /** "Place remaining future frames", from slot frame down, with the
      search resuming at idx. */
  function FutureFill(st: MapState, idx: int, frame: int, closestPastRef: int): (r: MapState)
    requires |st.slots| == REF_FRAMES && -1 <= closestPastRef <= idx < |st.bufs| && 0 <= frame <= ALTREF_FRAME
    ensures |r.bufs| == |st.bufs| && |r.slots| == REF_FRAMES
    decreases frame
  {
    if frame < LAST_FRAME then st
    else if st.slots[frame - LAST_FRAME] != INVALID_IDX then FutureFill(st, idx, frame - 1, closestPastRef)
    else
      var j := NextUnusedDown(st.bufs, idx, closestPastRef);
      if j < 0 || st.bufs[j].used then st
      else FutureFill(Assign(st, j, frame), j, frame - 1, closestPastRef)
  }

  /** One step of FutureFill at an empty slot: the search from idx either
      fails and the state is final, or its entry takes the slot. */
  lemma FutureFillStep(st: MapState, idx: int, frame: int, closestPastRef: int)
    requires |st.slots| == REF_FRAMES && -1 <= closestPastRef <= idx < |st.bufs| && LAST_FRAME <= frame <= ALTREF_FRAME
    requires st.slots[frame - LAST_FRAME] == INVALID_IDX
    ensures var j := NextUnusedDown(st.bufs, idx, closestPastRef);
      if j < 0 || st.bufs[j].used then FutureFill(st, idx, frame, closestPastRef) == st
      else FutureFill(st, idx, frame, closestPastRef) == FutureFill(Assign(st, j, frame), j, frame - 1, closestPastRef)
  {
  }

  /** Filling the past slots keeps the map and the slots valid. */
  lemma {:induction false} PastFillValid(st: MapState, idx: int, frame: int, pairs: seq<RefFrameMapPair>)
    requires |st.slots| == REF_FRAMES && -1 <= idx < |st.bufs| && LAST_FRAME <= frame <= REF_FRAMES
    requires |pairs| == REF_FRAMES && BufValid(st.bufs, pairs) && RemapValid(st.slots, pairs)
    ensures BufValid(PastFill(st, idx, frame).bufs, pairs) && RemapValid(PastFill(st, idx, frame).slots, pairs)
    decreases REF_FRAMES - frame
  {
    if frame < REF_FRAMES {
      if st.slots[frame - LAST_FRAME] != INVALID_IDX {
        PastFillValid(st, idx, frame + 1, pairs);
      } else {
        var j := PrevUnused(st.bufs, idx);
        if j >= 0 {
          PastFillValid(Assign(st, j, frame), j, frame + 1, pairs);
        }
      }
    }
  }

  /** Filling the future slots keeps the map and the slots valid. */
  lemma {:induction false} FutureFillValid(st: MapState, idx: int, frame: int, closestPastRef: int,
                                           pairs: seq<RefFrameMapPair>)
    requires |st.slots| == REF_FRAMES && -1 <= closestPastRef <= idx < |st.bufs| && 0 <= frame <= ALTREF_FRAME
    requires |pairs| == REF_FRAMES && BufValid(st.bufs, pairs) && RemapValid(st.slots, pairs)
    ensures var r := FutureFill(st, idx, frame, closestPastRef);
      BufValid(r.bufs, pairs) && RemapValid(r.slots, pairs)
    decreases frame
  {
    if frame >= LAST_FRAME {
      if st.slots[frame - LAST_FRAME] != INVALID_IDX {
        FutureFillValid(st, idx, frame - 1, closestPastRef, pairs);
      } else {
        var j := NextUnusedDown(st.bufs, idx, closestPastRef);
        if j >= 0 && !st.bufs[j].used {
          FutureFillValid(Assign(st, j, frame), j, frame - 1, closestPastRef, pairs);
        }
      }
    }
  }

  /** "Place remaining future frames" from ALTREF down, the search
      starting at the last entry. */
  function FutureFillAll(st: MapState, closestPastRef: int): MapState
    requires |st.slots| == REF_FRAMES && -1 <= closestPastRef < |st.bufs|
  {
    FutureFill(st, |st.bufs| - 1, ALTREF_FRAME, closestPastRef)
  }

  /** b is a with some more entries marked used and nothing else changed. */
  predicate MarkedMore(a: seq<RefBufMapData>, b: seq<RefBufMapData>)
  {
    |a| == |b|
    && forall j :: 0 <= j < |a| ==> b[j].(used := true) == a[j].(used := true) && (a[j].used ==> b[j].used)
  }

  /** "Place remaining past frames" keeps every slot already named and
      the slots before frame and the last one, and gives each slot it
      fills an entry at or before idx that was unused and is now used. */
  lemma {:induction false} PastFillMeaning(st: MapState, idx: int, frame: int)
    requires |st.slots| == REF_FRAMES && -1 <= idx < |st.bufs| && LAST_FRAME <= frame <= REF_FRAMES
    ensures PastFilled(st, PastFill(st, idx, frame), idx, frame)
    decreases REF_FRAMES - frame
  {
    if frame == REF_FRAMES {
    } else if st.slots[frame - LAST_FRAME] != INVALID_IDX {
      PastFillMeaning(st, idx, frame + 1);
    } else {
      var j := PrevUnused(st.bufs, idx);
      if j >= 0 {
        PastFillMeaning(Assign(st, j, frame), j, frame + 1);
        PastFillTakeMeaning(st, idx, frame);
      }
    }
  }

  /** r is st with some entries marked used, every slot named in st, every
      slot before frame and the last slot unchanged, and every other slot
      given an entry at or before idx that was unused and is now used. */
  predicate PastFilled(st: MapState, r: MapState, idx: int, frame: int)
    requires |st.slots| == REF_FRAMES && |r.slots| == REF_FRAMES && idx < |st.bufs|
  {
    MarkedMore(st.bufs, r.bufs)
    && (forall k :: 0 <= k < REF_FRAMES && (st.slots[k] != INVALID_IDX || k < frame - LAST_FRAME || k == REF_FRAMES - 1)
                    ==> r.slots[k] == st.slots[k])
    && (forall k :: 0 <= k < REF_FRAMES && r.slots[k] != st.slots[k] ==>
          exists j :: 0 <= j <= idx && !st.bufs[j].used && r.bufs[j].used && r.slots[k] == st.bufs[j].mapIdx)
  }

  /** The step of PastFillMeaning where slot frame takes entry j. */
  lemma PastFillTakeMeaning(st: MapState, idx: int, frame: int)
    requires |st.slots| == REF_FRAMES && -1 <= idx < |st.bufs| && LAST_FRAME <= frame < REF_FRAMES
    requires st.slots[frame - LAST_FRAME] == INVALID_IDX
    requires var j := PrevUnused(st.bufs, idx);
      0 <= j && PastFilled(Assign(st, j, frame), PastFill(Assign(st, j, frame), j, frame + 1), j, frame + 1)
    ensures PastFilled(st, PastFill(st, idx, frame), idx, frame)
  {
    var j := PrevUnused(st.bufs, idx);
    var st' := Assign(st, j, frame);
    var r := PastFill(st', j, frame + 1);
    assert r == PastFill(st, idx, frame);
    forall k | 0 <= k < REF_FRAMES && r.slots[k] != st.slots[k]
      ensures exists j' :: 0 <= j' <= idx && !st.bufs[j'].used && r.bufs[j'].used && r.slots[k] == st.bufs[j'].mapIdx
    {
      if st'.slots[k] != st.slots[k] && st'.slots[k] != INVALID_IDX {
        assert r.slots[k] == st.bufs[j].mapIdx && r.bufs[j].used;
      } else {
        assert r.slots[k] != st'.slots[k];
        var j' :| 0 <= j' <= j && !st'.bufs[j'].used && r.bufs[j'].used && r.slots[k] == st'.bufs[j'].mapIdx;
        assert st'.bufs[j'] == st.bufs[j'];
      }
    }
  }

  /** Every entry of the map names a buffer. */
  predicate AllNamed(bufs: seq<RefBufMapData>)
  {
    forall j :: 0 <= j < |bufs| ==> bufs[j].mapIdx != INVALID_IDX
  }

  /** Every entry after lo and up to hi is used. */
  predicate UsedBetween(bufs: seq<RefBufMapData>, lo: int, hi: int)
    requires hi < |bufs|
  {
    forall j :: lo < j <= hi && 0 <= j ==> bufs[j].used
  }

  /** When "Place remaining past frames" leaves a slot from frame on
      empty, every entry at or before idx is used. */
  lemma {:induction false} PastFillComplete(st: MapState, idx: int, frame: int)
    requires |st.slots| == REF_FRAMES && -1 <= idx < |st.bufs| && LAST_FRAME <= frame <= REF_FRAMES
    requires AllNamed(st.bufs)
    ensures FullFrom(PastFill(st, idx, frame), frame, idx)
    decreases REF_FRAMES - frame
  {
    if frame == REF_FRAMES {
    } else if st.slots[frame - LAST_FRAME] != INVALID_IDX {
      var r := PastFill(st, idx, frame + 1);
      assert r == PastFill(st, idx, frame);
      PastFillComplete(st, idx, frame + 1);
      assert r.slots[frame - LAST_FRAME] == st.slots[frame - LAST_FRAME] by {
        PastFillMeaning(st, idx, frame + 1);
      }
    } else {
      var j := PrevUnused(st.bufs, idx);
      if j < 0 {
        PrevUnusedSkipsUsed(st.bufs, idx);
        assert UsedBetween(st.bufs, -1, idx);
      } else {
        PastFillComplete(Assign(st, j, frame), j, frame + 1);
        PastFillTakeFull(st, idx, frame);
      }
    }
  }

  /** Every slot from frame on, except the last, left empty in r means
      every entry up to hi is used. */
  predicate FullFrom(r: MapState, frame: int, hi: int)
    requires hi < |r.bufs|
  {
    forall k :: frame - LAST_FRAME <= k < REF_FRAMES - 1 && 0 <= k < |r.slots| && r.slots[k] == INVALID_IDX ==>
      UsedBetween(r.bufs, -1, hi)
  }

  /** The step of PastFillComplete where slot frame takes entry j. */
  lemma PastFillTakeFull(st: MapState, idx: int, frame: int)
    requires |st.slots| == REF_FRAMES && -1 <= idx < |st.bufs| && LAST_FRAME <= frame < REF_FRAMES
    requires AllNamed(st.bufs) && st.slots[frame - LAST_FRAME] == INVALID_IDX
    requires var j := PrevUnused(st.bufs, idx);
      0 <= j && FullFrom(PastFill(Assign(st, j, frame), j, frame + 1), frame + 1, j)
    ensures FullFrom(PastFill(st, idx, frame), frame, idx)
  {
    var j := PrevUnused(st.bufs, idx);
    var st' := Assign(st, j, frame);
    var r := PastFill(st', j, frame + 1);
    assert r == PastFill(st, idx, frame);
    assert r.slots[frame - LAST_FRAME] != INVALID_IDX && UsedBetween(r.bufs, j, idx) by {
      PrevUnusedSkipsUsed(st.bufs, idx);
      PastFillMeaning(st', j, frame + 1);
      assert UsedBetween(st'.bufs, j, idx);
    }
    forall k | frame - LAST_FRAME <= k < REF_FRAMES - 1 && r.slots[k] == INVALID_IDX
      ensures UsedBetween(r.bufs, -1, idx)
    {
      assert UsedBetween(r.bufs, -1, j);
    }
  }

  /** "Place remaining future frames" keeps every slot already named and
      the slots above frame, and gives each slot it fills an entry from
      the closest past frame up to idx that was unused and is now used. */
  lemma {:induction false} FutureFillMeaning(st: MapState, idx: int, frame: int, closestPastRef: int)
    requires |st.slots| == REF_FRAMES && -1 <= closestPastRef <= idx < |st.bufs| && 0 <= frame <= ALTREF_FRAME
    ensures FutureFilled(st, FutureFill(st, idx, frame, closestPastRef), idx, frame, closestPastRef)
    decreases frame
  {
    if frame < LAST_FRAME {
    } else if st.slots[frame - LAST_FRAME] != INVALID_IDX {
      FutureFillMeaning(st, idx, frame - 1, closestPastRef);
    } else {
      var j := NextUnusedDown(st.bufs, idx, closestPastRef);
      if j >= 0 && !st.bufs[j].used {
        FutureFillMeaning(Assign(st, j, frame), j, frame - 1, closestPastRef);
        FutureFillTakeMeaning(st, idx, frame, closestPastRef);
      }
    }
  }

  /** r is st with some entries marked used, every slot named in st and
      every slot from frame on unchanged, and every other slot given an
      entry from the closest past entry up to idx that was unused and is
      now used. */
  predicate FutureFilled(st: MapState, r: MapState, idx: int, frame: int, closestPastRef: int)
    requires |st.slots| == REF_FRAMES && |r.slots| == REF_FRAMES && idx < |st.bufs|
  {
    MarkedMore(st.bufs, r.bufs)
    && (forall k :: 0 <= k < REF_FRAMES && (st.slots[k] != INVALID_IDX || k >= frame) ==> r.slots[k] == st.slots[k])
    && (forall k :: 0 <= k < REF_FRAMES && r.slots[k] != st.slots[k] ==>
          exists j :: 0 <= j && closestPastRef <= j <= idx && !st.bufs[j].used && r.bufs[j].used
                      && r.slots[k] == st.bufs[j].mapIdx)
  }

  /** The step of FutureFillMeaning where slot frame takes entry j. */
  lemma FutureFillTakeMeaning(st: MapState, idx: int, frame: int, closestPastRef: int)
    requires |st.slots| == REF_FRAMES && -1 <= closestPastRef <= idx < |st.bufs| && LAST_FRAME <= frame <= ALTREF_FRAME
    requires st.slots[frame - LAST_FRAME] == INVALID_IDX
    requires var j := NextUnusedDown(st.bufs, idx, closestPastRef);
      0 <= j && !st.bufs[j].used
      && FutureFilled(Assign(st, j, frame), FutureFill(Assign(st, j, frame), j, frame - 1, closestPastRef), j, frame - 1,
                      closestPastRef)
    ensures FutureFilled(st, FutureFill(st, idx, frame, closestPastRef), idx, frame, closestPastRef)
  {
    var j := NextUnusedDown(st.bufs, idx, closestPastRef);
    var st' := Assign(st, j, frame);
    var r := FutureFill(st', j, frame - 1, closestPastRef);
    assert r == FutureFill(st, idx, frame, closestPastRef);
    forall k | 0 <= k < REF_FRAMES && r.slots[k] != st.slots[k]
      ensures exists j' :: 0 <= j' && closestPastRef <= j' <= idx && !st.bufs[j'].used && r.bufs[j'].used
                           && r.slots[k] == st.bufs[j'].mapIdx
    {
      if st'.slots[k] != st.slots[k] && st'.slots[k] != INVALID_IDX {
        assert r.slots[k] == st.bufs[j].mapIdx && r.bufs[j].used;
      } else {
        assert r.slots[k] != st'.slots[k];
        var j' :| 0 <= j' && closestPastRef <= j' <= j && !st'.bufs[j'].used && r.bufs[j'].used
                  && r.slots[k] == st'.bufs[j'].mapIdx;
        assert st'.bufs[j'] == st.bufs[j'];
      }
    }
  }

  /** When "Place remaining future frames" leaves a slot up to frame
      empty, every entry after the closest past frame up to idx is used. */
  lemma {:induction false} FutureFillComplete(st: MapState, idx: int, frame: int, closestPastRef: int)
    requires |st.slots| == REF_FRAMES && -1 <= closestPastRef <= idx < |st.bufs| && 0 <= frame <= ALTREF_FRAME
    requires AllNamed(st.bufs)
    ensures FullBelow(FutureFill(st, idx, frame, closestPastRef), frame, closestPastRef, idx)
    decreases frame
  {
    if frame < LAST_FRAME {
    } else if st.slots[frame - LAST_FRAME] != INVALID_IDX {
      var r := FutureFill(st, idx, frame - 1, closestPastRef);
      assert r == FutureFill(st, idx, frame, closestPastRef);
      FutureFillComplete(st, idx, frame - 1, closestPastRef);
      assert r.slots[frame - LAST_FRAME] == st.slots[frame - LAST_FRAME] by {
        FutureFillMeaning(st, idx, frame - 1, closestPastRef);
      }
      assert FullBelow(r, frame, closestPastRef, idx);
    } else {
      var j := NextUnusedDown(st.bufs, idx, closestPastRef);
      if j < 0 || st.bufs[j].used {
        NextUnusedDownSkipsUsed(st.bufs, idx, closestPastRef);
        assert FutureFill(st, idx, frame, closestPastRef) == st;
        assert UsedBetween(st.bufs, closestPastRef, idx);
      } else {
        FutureFillComplete(Assign(st, j, frame), j, frame - 1, closestPastRef);
        FutureFillTakeFull(st, idx, frame, closestPastRef);
      }
    }
  }

  /** The step of FutureFillComplete where slot frame takes entry j. */
  lemma FutureFillTakeFull(st: MapState, idx: int, frame: int, closestPastRef: int)
    requires |st.slots| == REF_FRAMES && -1 <= closestPastRef <= idx < |st.bufs| && LAST_FRAME <= frame <= ALTREF_FRAME
    requires AllNamed(st.bufs)
    requires st.slots[frame - LAST_FRAME] == INVALID_IDX
    requires var j := NextUnusedDown(st.bufs, idx, closestPastRef);
      0 <= j && !st.bufs[j].used
      && FullBelow(FutureFill(Assign(st, j, frame), j, frame - 1, closestPastRef), frame - 1, closestPastRef, j)
    ensures FullBelow(FutureFill(st, idx, frame, closestPastRef), frame, closestPastRef, idx)
  {
    var j := NextUnusedDown(st.bufs, idx, closestPastRef);
    var st' := Assign(st, j, frame);
    var r := FutureFill(st', j, frame - 1, closestPastRef);
    assert r == FutureFill(st, idx, frame, closestPastRef);
    assert r.slots[frame - LAST_FRAME] != INVALID_IDX && UsedBetween(r.bufs, j, idx) by {
      NextUnusedDownSkipsUsed(st.bufs, idx, closestPastRef);
      FutureFillMeaning(st', j, frame - 1, closestPastRef);
      assert UsedBetween(st'.bufs, j, idx);
    }
    forall k | 0 <= k < frame && r.slots[k] == INVALID_IDX
      ensures UsedBetween(r.bufs, closestPastRef, idx)
    {
      assert UsedBetween(r.bufs, closestPastRef, j);
    }
  }

  /** Every slot below frame left empty in r means every entry after lo
      up to hi is used. */
  predicate FullBelow(r: MapState, frame: int, lo: int, hi: int)
    requires hi < |r.bufs|
  {
    forall k :: 0 <= k < frame && 0 <= k < |r.slots| && r.slots[k] == INVALID_IDX ==> UsedBetween(r.bufs, lo, hi)
  }

  /** Some entry of the map is wanted. */
  predicate AnyWanted(bm: seq<RefBufMapData>, w: Want, minLevel: int, cur: int)
  {
    exists j :: 0 <= j < |bm| && Wanted(bm[j], w, minLevel, cur)
  }

  /** Buffer m is that of a wanted entry displayed no earlier than any
      other wanted entry. */
  predicate NamesLatest(bm: seq<RefBufMapData>, w: Want, minLevel: int, cur: int, m: int)
  {
    exists g :: 0 <= g < |bm| && Wanted(bm[g], w, minLevel, cur) && bm[g].mapIdx == m
                && forall j :: 0 <= j < |bm| && Wanted(bm[j], w, minLevel, cur) ==> bm[j].dispOrder <= bm[g].dispOrder
  }

  /** Buffer m is that of a wanted entry. */
  predicate NamesSome(bm: seq<RefBufMapData>, w: Want, minLevel: int, cur: int, m: int)
  {
    exists s :: 0 <= s < |bm| && Wanted(bm[s], w, minLevel, cur) && bm[s].mapIdx == m
  }

  /** From an empty slot map and the map in display order, the scan and
      the GOLDEN/ALTREF step name GOLDEN exactly when there is a past
      lowest-level frame and a frame above the lowest level, and then the
      latest past lowest-level frame; ALTREF likewise with the latest
      future one; BWDREF exactly when a frame above the lowest level shows
      the current frame, and then one of those; and no other slot. */
  lemma NearestMeaning(bm: seq<RefBufMapData>, minLevel: int, cur: int)
    requires Sorted(bm) && forall j :: 0 <= j < |bm| ==> bm[j].mapIdx != INVALID_IDX
    ensures var r := NearestSpec(MapState(bm, NoSlots()), minLevel, cur);
      var higher := exists h :: 0 <= h < |bm| && bm[h].pyrLevel != minLevel;
      var golden := r.slots[GOLDEN_FRAME - LAST_FRAME];
      var altref := r.slots[ALTREF_FRAME - LAST_FRAME];
      var bwdref := r.slots[BWDREF_FRAME - LAST_FRAME];
      (golden != INVALID_IDX <==> higher && AnyWanted(bm, MinPast, minLevel, cur))
      && (golden != INVALID_IDX ==> NamesLatest(bm, MinPast, minLevel, cur, golden))
      && (altref != INVALID_IDX <==> higher && AnyWanted(bm, MinFuture, minLevel, cur))
      && (altref != INVALID_IDX ==> NamesLatest(bm, MinFuture, minLevel, cur, altref))
      && (bwdref != INVALID_IDX <==> AnyWanted(bm, ShowsCur, minLevel, cur))
      && (bwdref != INVALID_IDX ==> NamesSome(bm, ShowsCur, minLevel, cur, bwdref))
      && forall k :: 0 <= k < REF_FRAMES && k != GOLDEN_FRAME - LAST_FRAME && k != ALTREF_FRAME - LAST_FRAME
                     && k != BWDREF_FRAME - LAST_FRAME ==>
           r.slots[k] == INVALID_IDX
  {
    var sc := ScanFrom(bm, NoSlots(), minLevel, cur, 0);
    NearestSlots(bm, minLevel, cur);
    LastFromIsLast(bm, MinPast, minLevel, cur, 0);
    LastFromIsLast(bm, MinFuture, minLevel, cur, 0);
    LastIsLatest(bm, MinPast, minLevel, cur);
    LastIsLatest(bm, MinFuture, minLevel, cur);
    FirstFromIsFirst(bm, ShowsCur, minLevel, cur, 0);
    CountFromAll(bm, MinLevel, minLevel, cur, 0);
    var higher := exists h :: 0 <= h < |bm| && bm[h].pyrLevel != minLevel;
    assert higher <==> sc.nMinLevelRefs < |bm| by {
      if !higher {
        assert forall j :: 0 <= j < |bm| ==> Wanted(bm[j], MinLevel, minLevel, cur);
      }
    }
    if sc.goldenIdx != -1 {
      assert Wanted(bm[sc.goldenIdx], MinPast, minLevel, cur);
    }
    if sc.altrefIdx != -1 {
      assert Wanted(bm[sc.altrefIdx], MinFuture, minLevel, cur);
    }
  }

  /** The slots the scan and the GOLDEN/ALTREF step name, from an empty
      slot map, in terms of the scan's results. */
  lemma NearestSlots(bm: seq<RefBufMapData>, minLevel: int, cur: int)
    ensures var r := NearestSpec(MapState(bm, NoSlots()), minLevel, cur);
      var sc := ScanFrom(bm, NoSlots(), minLevel, cur, 0);
      var s := FirstFrom(bm, ShowsCur, minLevel, cur, 0);
      var all := sc.nMinLevelRefs == |bm|;
      |r.slots| == REF_FRAMES
      && r.slots[GOLDEN_FRAME - LAST_FRAME] == (if !all && sc.goldenIdx != -1 then bm[sc.goldenIdx].mapIdx else INVALID_IDX)
      && r.slots[ALTREF_FRAME - LAST_FRAME] == (if !all && sc.altrefIdx != -1 then bm[sc.altrefIdx].mapIdx else INVALID_IDX)
      && r.slots[BWDREF_FRAME - LAST_FRAME] == (if s == -1 then INVALID_IDX else bm[s].mapIdx)
      && forall k :: 0 <= k < REF_FRAMES && k != GOLDEN_FRAME - LAST_FRAME && k != ALTREF_FRAME - LAST_FRAME
                     && k != BWDREF_FRAME - LAST_FRAME ==>
           r.slots[k] == INVALID_IDX
  {
    var sc := ScanFrom(bm, NoSlots(), minLevel, cur, 0);
    assert sc.nMinLevelRefs <= |bm|;
  }

  /** "Map LAST3_FRAME" changes no other slot; with fewer than 7 entries
      or no candidate it changes nothing, and otherwise LAST3 takes the
      first candidate: an unused entry above the lowest level, or of any
      level when there are 8 entries and fewer than 4 past higher-level
      frames. */
  lemma Last3Meaning(st: MapState, minLevel: int, nPastHighLevel: int)
    requires |st.slots| == REF_FRAMES
    ensures var r := Last3Spec(st, minLevel, nPastHighLevel);
      var cand := Last3Cand(nPastHighLevel < 4 && |st.bufs| > ALTREF_FRAME);
      (forall k :: 0 <= k < REF_FRAMES && k != LAST3_FRAME - LAST_FRAME ==> r.slots[k] == st.slots[k])
      && (|st.bufs| < ALTREF_FRAME || !AnyWanted(st.bufs, cand, minLevel, 0) ==> r == st)
      && (|st.bufs| >= ALTREF_FRAME && AnyWanted(st.bufs, cand, minLevel, 0) ==>
            exists c :: 0 <= c < |st.bufs| && Wanted(st.bufs[c], cand, minLevel, 0) && r == Assign(st, c, LAST3_FRAME)
                        && forall j :: 0 <= j < c ==> !Wanted(st.bufs[j], cand, minLevel, 0))
  {
    FirstFromIsFirst(st.bufs, Last3Cand(nPastHighLevel < 4 && |st.bufs| > ALTREF_FRAME), minLevel, 0, 0);
  }

  /** Every entry the first loop collects names a buffer that holds a frame. */
  lemma {:induction false} CollectedValid(pairs: seq<RefFrameMapPair>, n: nat)
    requires |pairs| == REF_FRAMES && n <= REF_FRAMES
    ensures BufValid(Collected(pairs, n).bufs, pairs)
  {
    if n > 0 {
      CollectedValid(pairs, n - 1);
    }
  }

  /** The stages after the scan never take back a slot it named. */
  lemma MapSortedKeeps(bm: seq<RefBufMapData>, minLevel: int, cur: int)
    ensures var scanned := NearestSpec(MapState(bm, NoSlots()), minLevel, cur);
      forall k :: 0 <= k < REF_FRAMES && scanned.slots[k] != INVALID_IDX ==> MapSorted(bm, minLevel, cur)[k] == scanned.slots[k]
  {
    var scanned := NearestSpec(MapState(bm, NoSlots()), minLevel, cur);
    var unmapped := Unmapped(scanned, CountFrom(bm, MinLevel, minLevel, cur, 0), minLevel, cur);
    var cp := LastFrom(bm, Past, minLevel, cur, 0);
    var r := Remaining(unmapped, minLevel, CountFrom(bm, PastHigh, minLevel, cur, 0), cp);
    assert scanned.slots[LAST3_FRAME - LAST_FRAME] == INVALID_IDX;
    RemainingKeeps(unmapped, minLevel, CountFrom(bm, PastHigh, minLevel, cur, 0), cp);
    assert MapSorted(bm, minLevel, cur) == Filled(r.slots);
  }

  /** The stages after set_unmapped_ref keep every slot already named
      except LAST3. */
  lemma RemainingKeeps(st: MapState, minLevel: int, nPastHighLevel: int, closestPastRef: int)
    requires |st.slots| == REF_FRAMES && -1 <= closestPastRef < |st.bufs|
    ensures forall k :: 0 <= k < REF_FRAMES && k != LAST3_FRAME - LAST_FRAME && st.slots[k] != INVALID_IDX ==>
              Remaining(st, minLevel, nPastHighLevel, closestPastRef).slots[k] == st.slots[k]
  {
    var last3 := Last3Spec(st, minLevel, nPastHighLevel);
    assert forall k :: 0 <= k < REF_FRAMES && k != LAST3_FRAME - LAST_FRAME ==> last3.slots[k] == st.slots[k] by {
      Last3Meaning(st, minLevel, nPastHighLevel);
    }
    PlacementsKeep(last3, closestPastRef, LAST_FRAME, ALTREF_FRAME);
  }

  /** The past and future placements keep every slot already named. */
  lemma PlacementsKeep(st: MapState, closestPastRef: int, pastFrame: int, futureFrame: int)
    requires |st.slots| == REF_FRAMES && -1 <= closestPastRef < |st.bufs|
    requires LAST_FRAME <= pastFrame <= REF_FRAMES && 0 <= futureFrame <= ALTREF_FRAME
    ensures var past := PastFill(st, closestPastRef, pastFrame);
      SlotsKept(st.slots, FutureFill(past, |past.bufs| - 1, futureFrame, closestPastRef).slots)
  {
    var past := PastFill(st, closestPastRef, pastFrame);
    var r := FutureFill(past, |past.bufs| - 1, futureFrame, closestPastRef);
    PastFillMeaning(st, closestPastRef, pastFrame);
    FutureFillMeaning(past, |past.bufs| - 1, futureFrame, closestPastRef);
    forall k | 0 <= k < REF_FRAMES && st.slots[k] != INVALID_IDX
      ensures r.slots[k] == st.slots[k]
    {
      assert past.slots[k] == st.slots[k];
    }
  }

  /** Every slot named in a is named the same in b. */
  predicate SlotsKept(a: seq<int>, b: seq<int>)
  {
    |a| == |b| && forall k :: 0 <= k < |a| && a[k] != INVALID_IDX ==> b[k] == a[k]
  }

  /** av1_get_ref_frames maps GOLDEN to the latest past lowest-level
      frame and ALTREF to the latest future one whenever there are such
      frames and a frame above the lowest level, and BWDREF to a frame
      above the lowest level showing the current frame whenever there is
      one. */
  lemma RefMapNamed(cur: int, pairs: seq<RefFrameMapPair>)
    requires |pairs| == REF_FRAMES
    ensures var c := Collected(pairs, REF_FRAMES);
      var bm := SortByDisp(c.bufs);
      var rm := RefMap(cur, pairs);
      var higher := exists h :: 0 <= h < |bm| && bm[h].pyrLevel != c.minLevel;
      (higher && AnyWanted(bm, MinPast, c.minLevel, cur) ==>
         NamesLatest(bm, MinPast, c.minLevel, cur, rm[GOLDEN_FRAME - LAST_FRAME]))
      && (higher && AnyWanted(bm, MinFuture, c.minLevel, cur) ==>
         NamesLatest(bm, MinFuture, c.minLevel, cur, rm[ALTREF_FRAME - LAST_FRAME]))
      && (AnyWanted(bm, ShowsCur, c.minLevel, cur) ==>
         NamesSome(bm, ShowsCur, c.minLevel, cur, rm[BWDREF_FRAME - LAST_FRAME]))
  {
    var c := Collected(pairs, REF_FRAMES);
    var bm := SortByDisp(c.bufs);
    CollectedValid(pairs, REF_FRAMES);
    SortKeepsValid(c.bufs, pairs);
    NearestMeaning(bm, c.minLevel, cur);
    MapSortedKeeps(bm, c.minLevel, cur);
  }

  /** The buffers of the first n map entries, each display order once,
      with the lowest pyramid level among them. */
  datatype Collection = Collection(bufs: seq<RefBufMapData>, minLevel: int)

  function Collected(pairs: seq<RefFrameMapPair>, n: nat): Collection
    requires |pairs| == REF_FRAMES && n <= REF_FRAMES
  {
    if n == 0 then Collection([], MAX_ARF_LAYERS)
    else
      var c := Collected(pairs, n - 1);
      var p := pairs[n - 1];
      if p.dispOrder == -1 || Shows(c.bufs, p.dispOrder) then c
      else Collection(c.bufs + [RefBufMapData(n - 1, p.dispOrder, p.pyrLevel, false)],
                      if p.pyrLevel < c.minLevel then p.pyrLevel else c.minLevel)
  }

  /** The eight slots with none named yet. */
  function NoSlots(): seq<int>
  {
    seq(REF_FRAMES, _ => INVALID_IDX)
  }

  /** The slots av1_get_ref_frames leaves in cm->remapped_ref_idx. */
  function RefMap(cur: int, pairs: seq<RefFrameMapPair>): seq<int>
    requires |pairs| == REF_FRAMES
  {
    var c := Collected(pairs, REF_FRAMES);
    MapSorted(SortByDisp(c.bufs), c.minLevel, cur)
  }

  /** set_unmapped_ref on the scanned state: the farthest candidate, if
      any, is marked used. */
  function Unmapped(st: MapState, nMinLevelRefs: int, minLevel: int, cur: int): (r: MapState)
    ensures |r.bufs| == |st.bufs| && r.slots == st.slots
  {
    var u := Farthest(st.bufs, nMinLevelRefs, minLevel, cur, |st.bufs|);
    if |st.bufs| <= ALTREF_FRAME || u == -1 then st
    else MapState(st.bufs[u := st.bufs[u].(used := true)], st.slots)
  }

  /** The stages after set_unmapped_ref: LAST3, then the past and the
      future placements. */
  function Remaining(st: MapState, minLevel: int, nPastHighLevel: int, closestPastRef: int): (r: MapState)
    requires |st.slots| == REF_FRAMES && -1 <= closestPastRef < |st.bufs|
    ensures |r.slots| == REF_FRAMES
  {
    FutureFillAll(PastFill(Last3Spec(st, minLevel, nPastHighLevel), closestPastRef, LAST_FRAME), closestPastRef)
  }

  /** The slots the stages after the sort leave, from the sorted map. */
  function MapSorted(bm: seq<RefBufMapData>, minLevel: int, cur: int): seq<int>
  {
    var scanned := NearestSpec(MapState(bm, NoSlots()), minLevel, cur);
    var unmapped := Unmapped(scanned, CountFrom(bm, MinLevel, minLevel, cur, 0), minLevel, cur);
    var cp := LastFrom(bm, Past, minLevel, cur, 0);
    Filled(Remaining(unmapped, minLevel, CountFrom(bm, PastHigh, minLevel, cur, 0), cp).slots)
  }

  /** MapSorted is the composition of its stages. */
  lemma MapSortedStages(bm: seq<RefBufMapData>, minLevel: int, cur: int,
                        nMinLevelRefs: int, nPastHighLevel: int, closestPastRef: int,
                        scanned: MapState, unmapped: MapState, slots: seq<int>)
    requires scanned == NearestSpec(MapState(bm, NoSlots()), minLevel, cur)
    requires nMinLevelRefs == CountFrom(bm, MinLevel, minLevel, cur, 0)
    requires nPastHighLevel == CountFrom(bm, PastHigh, minLevel, cur, 0)
    requires closestPastRef == LastFrom(bm, Past, minLevel, cur, 0)
    requires unmapped == Unmapped(scanned, nMinLevelRefs, minLevel, cur)
    requires slots == Filled(Remaining(unmapped, minLevel, nPastHighLevel, closestPastRef).slots)
    ensures slots == MapSorted(bm, minLevel, cur)
  {
  }

  /** The slots with every INVALID_IDX replaced by buffer 0. */
  function Filled(slots: seq<int>): seq<int>
  {
    seq(|slots|, k requires 0 <= k < |slots| => if slots[k] == INVALID_IDX then 0 else slots[k])
  }
}
