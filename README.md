# A verified model of the integer core of an AV1 codec

This project models, in Dafny, the integer decision and buffer code of a
fork of libaom, the AV1 reference codec, together with one FlatBuffers
table accessor that the repository vendors. Each source file of the core
is one Dafny module in one file:

- `flatbuffers_referrable.dfy` (`Referrable`): the generated Java
  accessor of the `Referrable` table, covering the `id` field, its in-place
  mutation, and the keyed binary search over a sorted vector of tables.
- `gop_structure.dfy` (`GopStructure`): the multi-layer golden-frame group
  of the encoder. It lays out the ARF pyramid, overlays and leaf frames, and
  maps each frame's reference slots. It also models the stack and bounded
  queue helpers.
- `encode_strategy.dfy` (`EncodeStrategy`): refresh flags per update type,
  the choice of the reference buffer to overwrite, and the mapping of 8
  buffers onto the 7 named references.
- `mvref_common.dfy` (`MvrefCommon`): motion-vector projection, the
  candidate stack with weight accumulation and ranking, the top-right and
  superblock-border tests, temporal block positions, sample selection for
  warped motion, the frame sign bias and the skip-mode pair.
- `pred_common.dfy` (`PredCommon`), `entropymode.dfy` (`EntropyMode`),
  `txb_common.dfy` (`TxbCommon`), `scan.dfy` (`Scan`) and `encodemb.dfy`
  (`EncodeMb`): the contexts of the entropy coder. These are the palette
  cache, the palette colour-index context, the coefficient contexts, the
  default loop-filter deltas and the trellis switch.
- `cfl.dfy` (`Cfl`), `convolve.dfy` (`Convolve`), `hybrid_fwd_txfm.dfy`
  (`HybridFwdTxfm`) and `dering.dfy` (`Dering`): pixel and coefficient
  kernels. These are the chroma-from-luma buffer, the C reference
  convolutions, the lossless Walsh-Hadamard transform, the secondary
  transform, and the deringing skip list and block copy.
- `loopfilter.dfy` (`LoopFilter`), `tile_common.dfy` (`TileCommon`),
  `resize.dfy` (`Resize`), `entropymv.dfy` (`EntropyMv`), `av1_txfm.dfy`
  (`Av1Txfm`), `inv_txfm.dfy` (`InvTxfm`) and `txfm_common.dfy`
  (`TxfmCommon`): parameter and geometry arithmetic. These are the
  loop-filter limits and levels, tile bounds, scaler eligibility, the MV
  joint, and the rounding, clamping and flip helpers of the transforms.
- `entropy_optimizer.dfy` (`EntropyOptimizer`): the offline tool that
  turns symbol counts into cumulative distributions.
- `int_arith.dfy` (`IntArith`) and `wrappers.dfy` (`Wrappers`) hold the
  shared C integer helpers and an `Option` type. The helpers are shifts as
  floor division, `clamp`, `clip_pixel`, `ROUND_POWER_OF_TWO` and the
  int32 wrap.

Code that changes state step by step is modelled that way. It becomes a
method over arrays, or a class whose fields the methods update. Each such
method is proved against a specification function of its inputs or old
state. Pure expression code becomes functions. Lemmas state what the
source promises about those functions.

Integers are unbounded. Where the C stores into a narrower type (int16_t,
int32_t, uint8_t), the model converts explicitly (`Wrap32`, `WrapInt16`,
byte stores).

Where a compile-time switch chooses the code, one configuration is
modelled, and each module's header comment names it. Switches read by
more than one module take the same value everywhere:
CONFIG_LOOPFILTERING_ACROSS_TILES is on in both the loop-filter and the
tile modules. Header constants
from files outside this model take libaom's values, which each module
lists. Lookup tables whose contents are not shown are parameters. These
include the filter kernels, the secondary-transform kernels and the scan
orders.

## Model

| member | source | states |
|---|---|---|
| Referrable.DecodeEncodeLE | third_party/tensorflow/tensorflow/lite/tools/make/downloads/flatbuffers/tests/MyGame/Example/Referrable.java:17-18 | reading back n little-endian bytes written for v gives v modulo 256^n, the byte order the buffer is set to at line 13 |
| Referrable.GetLongOfEncodeLong | third_party/tensorflow/tensorflow/lite/tools/make/downloads/flatbuffers/tests/MyGame/Example/Referrable.java:17-18 | getLong at a position holding the eight bytes putLong stored for v yields v |
| Referrable.Compare | third_party/tensorflow/tensorflow/lite/tools/make/downloads/flatbuffers/tests/MyGame/Example/Referrable.java:38 | the three-way comparison is 1, 0 or -1, positive exactly when a > b, negative exactly when a < b, zero exactly when equal |
| Referrable.KeysCompare | third_party/tensorflow/tensorflow/lite/tools/make/downloads/flatbuffers/tests/MyGame/Example/Referrable.java:35-39 | keysCompare compares the id longs read at the static offsets of the two tables |
| Referrable.KeysCompareAntisymmetric | third_party/tensorflow/tensorflow/lite/tools/make/downloads/flatbuffers/tests/MyGame/Example/Referrable.java:35-39 | swapping the arguments negates keysCompare, and a table compares equal to itself |
| Referrable.Referrable.Assign | third_party/tensorflow/tensorflow/lite/tools/make/downloads/flatbuffers/tests/MyGame/Example/Referrable.java:14-15 | binds buffer and position; vtable_start is bb_pos minus the int stored at bb_pos, vtable_size the short at vtable_start |
| Referrable.Referrable.Id | third_party/tensorflow/tensorflow/lite/tools/make/downloads/flatbuffers/tests/MyGame/Example/Referrable.java:17 | id() is 0 when the field offset is 0 (absent), else the long at offset + bb_pos |
| Referrable.Referrable.MutateId | third_party/tensorflow/tensorflow/lite/tools/make/downloads/flatbuffers/tests/MyGame/Example/Referrable.java:18 | returns true exactly when the field is present; when absent the buffer is unchanged; when present exactly the eight bytes of the field are overwritten with the new id |
| Referrable.PutLong | third_party/tensorflow/tensorflow/lite/tools/make/downloads/flatbuffers/tests/MyGame/Example/Referrable.java:18 | putLong replaces the eight bytes at pos with the encoding of v and leaves the rest of the buffer alone |
| Referrable.IdAfterMutate | third_party/tensorflow/tensorflow/lite/tools/make/downloads/flatbuffers/tests/MyGame/Example/Referrable.java:17-18 | after a successful mutateId, id() returns the value written |
| Referrable.Keys | third_party/tensorflow/tensorflow/lite/tools/make/downloads/flatbuffers/tests/MyGame/Example/Referrable.java:46-47 | the keys of the vector, one per stored element, in vector order |
| Referrable.FindByKey | third_party/tensorflow/tensorflow/lite/tools/make/downloads/flatbuffers/tests/MyGame/Example/Referrable.java:41-60 | a returned table is some element whose key equals the requested key; on a vector sorted by key that holds the key the search does not fail; a count of 0 gives null; at most floor(log2 n)+1 keys are read |
| Referrable.NarrowLeft | third_party/tensorflow/tensorflow/lite/tools/make/downloads/flatbuffers/tests/MyGame/Example/Referrable.java:49-50 | on sorted keys, a probe whose key is too large leaves the key, if present, in the left part of the window |
| Referrable.NarrowRight | third_party/tensorflow/tensorflow/lite/tools/make/downloads/flatbuffers/tests/MyGame/Example/Referrable.java:51-54 | on sorted keys, a probe whose key is too small leaves the key, if present, in the right part of the window |
| Referrable.BitsHalve | third_party/tensorflow/tensorflow/lite/tools/make/downloads/flatbuffers/tests/MyGame/Example/Referrable.java:45-54 | every probe at least halves the window, which costs one binary digit of its width |
| Referrable.Probe | third_party/tensorflow/tensorflow/lite/tools/make/downloads/flatbuffers/tests/MyGame/Example/Referrable.java:45-57 | one probe either returns a table whose key equals the requested key, or leaves a strictly smaller window with one binary digit fewer that still holds the key when the keys ascend |
| Referrable.Narrow | third_party/tensorflow/tensorflow/lite/tools/make/downloads/flatbuffers/tests/MyGame/Example/Referrable.java:49-54 | a missed probe keeps the lower half when the probed key is too large and the upper half without the probe when it is too small; the new window lies inside the old one, is strictly smaller and needs one binary digit fewer |
| Referrable.ProbeNarrows | third_party/tensorflow/tensorflow/lite/tools/make/downloads/flatbuffers/tests/MyGame/Example/Referrable.java:49-54 | on ascending keys, the half the search keeps still holds the key whenever the window did |
| Referrable.HalvesShrink | third_party/tensorflow/tensorflow/lite/tools/make/downloads/flatbuffers/tests/MyGame/Example/Referrable.java:45-54 | both halves left by a probe at span / 2 need one binary digit fewer than the window |
| Referrable.LookupByKey | third_party/tensorflow/tensorflow/lite/tools/make/downloads/flatbuffers/tests/MyGame/Example/Referrable.java:41-60 | returns null or a view bound to the found table in the same buffer (the caller's object when one is passed) whose key is the requested key; never null for a sorted vector that holds the key |
| GopStructure.Leaves | av1/encoder/gop_structure.c:38-49 | the leaf branch yields one LF_UPDATE entry per frame strictly between start and end |
| GopStructure.LayoutShowsInOrder | av1/encoder/gop_structure.c:29-79 | the recursive layout shows every frame strictly between start and end exactly once, in display order |
| GopStructure.LayoutSize | av1/encoder/gop_structure.c:29-79 | a layout over n frames has between n and 2n-1 entries, and none when n is 0 |
| GopStructure.LayoutOverlaysPaired | av1/encoder/gop_structure.c:52-74 | every internal overlay's arf_pos_in_gf names an earlier internal ARF showing the same frame |
| GopStructure.CountLeaves | av1/encoder/gop_structure.c:46-47 | each leaf is counted once, at level MIN_PYRAMID_LVL, in pyramid_lvl_nodes |
| GopStructure.MultiLayerWritesLayout | av1/encoder/gop_structure.c:29-79 | the step-by-step writes of set_multi_layer_params equal the declarative layout spliced into the group, with the node counts bumped per level |
| GopStructure.SplitRightWritesLayout | av1/encoder/gop_structure.c:67-77 | once the left half is written, the overlay and the right half complete the spliced layout |
| GopStructure.GfGroup.SetLeafParams | av1/encoder/gop_structure.c:38-49 | the leaf loop writes exactly the leaf entries and returns the next free position |
| GopStructure.GfGroup.SetMultiLayerParams | av1/encoder/gop_structure.c:29-79 | the group's entries and node counts become the specification's writes for the interval; the next free position is returned |
| GopStructure.GfGroup.SetSplitParams | av1/encoder/gop_structure.c:50-65 | the splitting branch writes the internal ARF for the midpoint and recurses on the left half |
| GopStructure.GfGroup.SetRightParams | av1/encoder/gop_structure.c:67-77 | the overlay for the midpoint is written at its position, then the right half |
| GopStructure.GroupLayoutShape | av1/encoder/gop_structure.c:81-119 | a group starts with its first frame, then the ALTREF for frame gf_interval when the pyramid is not flat, then shows frames 1..gf_interval-1 in order, in at most 2*gf_interval entries |
| GopStructure.GroupWritesLayout | av1/encoder/gop_structure.c:81-119 | the writes of the construction equal the group layout and the per-level node counts of its recursive part |
| GopStructure.GfGroup.ConstructMultiLayerGfStructure | av1/encoder/gop_structure.c:81-119 | sets pyramid_height, zeroes the node counts and writes the group layout; returns the number of entries |
| GopStructure.MaxPyramidHeightFromWidth | av1/encoder/gop_structure.c:148-154 | the height is within 0..MAX_PYRAMID_LVL and is 0 exactly when the width is at most 1 |
| GopStructure.MaxPyramidHeightMonotone | av1/encoder/gop_structure.c:148-154 | a wider group never gets a lower pyramid |
| GopStructure.StackPop | av1/encoder/gop_structure.c:173-179 | returns the top entry, shifts the live entries down and shrinks the size by one |
| GopStructure.StackPush | av1/encoder/gop_structure.c:181-185 | shifts the live entries up, puts the item on top and grows the size by one |
| GopStructure.PopAfterPush | av1/encoder/gop_structure.c:173-185 | popping after a push returns the pushed item and restores the entries below it |
| GopStructure.QueueEnqueue | av1/encoder/gop_structure.c:190-206 | the queue, the dequeued value and the size become those of the bounded-queue specification |
| GopStructure.EnqueueKeepsNewest | av1/encoder/gop_structure.c:190-206 | below capacity the item is appended and -1 returned; at capacity the oldest entry is dropped and returned, and the item appended |
| GopStructure.ResetRefFrameIdx | av1/encoder/gop_structure.c:210-212 | every slot of the row becomes the reset value; other rows are unchanged |
| GopStructure.SetLastRefs | av1/encoder/gop_structure.c:266-272 | LAST, LAST2, LAST3 get the queued frames newest first; nothing else changes |
| GopStructure.Step | av1/encoder/gop_structure.c:274-286 | the per-frame bookkeeping keeps the stack and the queue within their bounds |
| GopStructure.Replay | av1/encoder/gop_structure.c:241-287 | the bookkeeping state seen when frame k is visited is well formed |
| GopStructure.UpdateArfStackAndQueue | av1/encoder/gop_structure.c:274-286 | the new stack, queue and ext_ref_idx are one Step of the old ones; stored indices stay below the next frame and the stack holds only ARFs |
| GopStructure.GfGroup.InitRefFrameMap | av1/encoder/gop_structure.c:229-238 | row 0 is all -1 and rows 1..size are all init_ref_idx (0 after a key frame, else -1) |
| GopStructure.GfGroup.SetRowRefs | av1/encoder/gop_structure.c:249-272 | GOLDEN is 0, ALTREF the oldest pending ARF, BWDREF the newest, ALTREF2 the second newest or ext_ref_idx, LAST..LAST3 the queue newest first, every other slot init_ref_idx |
| GopStructure.GfGroup.FillRow | av1/encoder/gop_structure.c:248-272 | the row equals ExpectedRow of the current bookkeeping; other rows are unchanged |
| GopStructure.GfGroup.SetArfRefs | av1/encoder/gop_structure.c:249-265 | GOLDEN, ALTREF, BWDREF and ALTREF2 (or ext_ref_idx) are set as ExpectedRow gives them with an empty queue; every other row is unchanged |
| GopStructure.GfGroup.ExtendRows | av1/encoder/gop_structure.c:248-272 | filling row frameIdx from the replayed state extends the matched rows 1..frameIdx-1 to 1..frameIdx |
| GopStructure.GfGroup.StartRefMap | av1/encoder/gop_structure.c:241-246 | the loop starts from an empty ARF stack and LAST queue filled with -1 and no ext_ref_idx, which is the replayed state before frame 1 |
| GopStructure.GfGroup.BuildRefMap | av1/encoder/gop_structure.c:248-287 | every row 1..size equals ExpectedRow of Replay up to that frame, and every slot points to an earlier frame or -1 |
| GopStructure.GfGroup.BuildRefMapStep | av1/encoder/gop_structure.c:248-286 | one iteration fills row frameIdx with ExpectedRow of the replayed state, keeps earlier rows, and leaves the stack, queue and ext_ref_idx equal to the replay one frame further |
| GopStructure.GfGroup.SetRefFrameDispIdx | av1/encoder/gop_structure.c:214-226 | each display-index slot is -1 for an empty slot, else the display index of the referenced frame |
| GopStructure.GfGroup.SetGopRefFrameMap | av1/encoder/gop_structure.c:228-292 | row 0 is all -1; every row 1..size equals ExpectedRow of the replayed stack, queue and ext_ref_idx, refers only to earlier frames, and is converted to display indices; later rows are unchanged |
| EncodeStrategy.ConfigureBufferUpdates | av1/encoder/encode_strategy.c:64-127 | is_src_frame_alt_ref is set exactly for the three overlay types; a forced refresh-all sets all three flags; a pending external refresh overrides the flags outside the stats stage |
| EncodeStrategy.RefreshAllExactlyOnKey | av1/encoder/encode_strategy.c:73-126 | without overrides, all three flags are set exactly for a key frame update and for a shown forward key frame ARF |
| EncodeStrategy.OverlayKeepsArf | av1/encoder/encode_strategy.c:73-126 | overlays never refresh BWDREF or ALTREF, and an ARF that is not a shown key frame refreshes only ALTREF |
| EncodeStrategy.UpdateFrameFlags | av1/encoder/encode_strategy.c:583-618 | only the four refresh bits change; a shown existing frame clears them; otherwise each bit mirrors its refresh flag and KEY mirrors the key-frame test |
| EncodeStrategy.GetForcedKeyframePosition | av1/encoder/encode_strategy.c:476-497 | returns -1, or an index in 1..up_to_index where a forced key frame is first requested; -1 only when none is requested up to that index |
| EncodeStrategy.LowestRefreshed | av1/encoder/encode_strategy.c:672-679 | the result is the lowest set bit at or above the start, or REF_FRAMES when there is none |
| EncodeStrategy.GetRefreshRefFrameMap | av1/encoder/encode_strategy.c:672-679 | returns the lowest set bit of the refresh mask among the REF_FRAMES bits, or REF_FRAMES when no bit is set |
| EncodeStrategy.LowestRefreshedOfSlot | av1/encoder/encode_strategy.c:672-679 | the slot index is recovered from a one-slot mask 1 << k |
| EncodeStrategy.GetFreeRefMapIndex | av1/encoder/encode_strategy.c:688-692 | returns the first slot whose display order is -1, or INVALID_IDX when every slot is in use |
| EncodeStrategy.OldestIsOldest | av1/encoder/encode_strategy.c:707-741 | the search keeps an in-track slot whose display order is below INT32_MAX and no later than any other, with the earliest index on ties |
| EncodeStrategy.RefreshIdx | av1/encoder/encode_strategy.c:694-748 | the result is -1 or a non-empty slot with a past display order; when every such order is below INT32_MAX one is found exactly when one exists; a slot at the requested refresh level wins |
| EncodeStrategy.GetRefreshIdx | av1/encoder/encode_strategy.c:694-748 | the loop computes RefreshIdx of the slots |
| EncodeStrategy.UseSubgopCfg | av1/encoder/encode_strategy.c:681-686 | the sub-GOP configuration is used exactly for a non-negative index when one is present, except at index 1 after a key frame with an overlay |
| EncodeStrategy.SubgopRefreshFlags | av1/encoder/encode_strategy.c:750-775 | no refresh for a step that refreshes nothing, repeats or shows an existing frame |
| EncodeStrategy.FirstFree | av1/encoder/encode_strategy.c:688-692 | the first empty slot from a start index, or INVALID_IDX |
| EncodeStrategy.RefreshOnKeyAndShowExisting | av1/encoder/encode_strategy.c:786-797 | shown key frames and switch frames refresh all eight slots (0xFF); a shown existing frame without error resilience refreshes none |
| EncodeStrategy.RefreshIntoOneBuffer | av1/encoder/encode_strategy.c:863-872 | a regular frame refreshes the first free slot when there is one, else the slot get_refresh_idx chose, which holds a past frame |
| EncodeStrategy.CheckKeyframeArf | av1/encoder/encode_strategy.c:1583-1593 | a hit only for an index inside the group |
| EncodeStrategy.CheckKeyframeOverlay | av1/encoder/encode_strategy.c:1597-1607 | a hit only for an index after the first frame |
| EncodeStrategy.KeyframeArfAndOverlayUpdates | av1/encoder/encode_strategy.c:1583-1607 | a key frame ARF refreshes ALTREF and is not its own overlay; a key frame overlay refreshes only GOLDEN and is marked as showing the ARF source |
| EncodeStrategy.CompareMapIdxPairAsc | av1/encoder/encode_strategy.c:1036-1045 | the comparator is 0 exactly on equal display orders and negative exactly when the first is earlier |
| EncodeStrategy.CompareIsOrder | av1/encoder/encode_strategy.c:1036-1045 | the comparator is antisymmetric and transitive, so it is a valid qsort order |
| EncodeStrategy.SortedUnderCompare | av1/encoder/encode_strategy.c:1128-1129 | a sequence sorted by display order is ordered under compare_map_idx_pair_asc |
| EncodeStrategy.InsertAdds | av1/encoder/encode_strategy.c:1128-1129 | insertion keeps the multiset of buffers and adds the new one |
| EncodeStrategy.InsertSorted | av1/encoder/encode_strategy.c:1128-1129 | insertion into a sorted sequence keeps it sorted |
| EncodeStrategy.SortByDisp | av1/encoder/encode_strategy.c:1128-1129 | the qsort result is sorted by display order and a permutation of its input |
| EncodeStrategy.IsInRefMap | av1/encoder/encode_strategy.c:1049-1054 | true exactly when one of the first n entries has the display order |
| EncodeStrategy.CollectBuffers | av1/encoder/encode_strategy.c:1100-1126 | the loop builds exactly Collected(pairs, 8), the slot-by-slot definition of the buffer map and its lowest level; the map has one unused entry per distinct display order, each copying its slot's order and level, at least the minimum level, and every non-empty slot's order is shown |
| EncodeStrategy.CollectedValid | av1/encoder/encode_strategy.c:1107-1126 | every collected entry names a slot that holds a frame |
| EncodeStrategy.CollectedEntries | av1/encoder/encode_strategy.c:1107-1126 | the collected entries are unused, copy the display order and level of the slot they name, are no lower than the minimum level, and are no more than the slots scanned |
| EncodeStrategy.CollectedDistinct | av1/encoder/encode_strategy.c:1112-1114 | no two collected entries show the same frame |
| EncodeStrategy.CollectedShows | av1/encoder/encode_strategy.c:1107-1126 | every frame held by a scanned slot is shown by some collected entry |
| EncodeStrategy.AddRefToSlot | av1/encoder/encode_strategy.c:1057-1061 | the named slot gets the buffer's map index and the buffer is marked used; nothing else changes |
| EncodeStrategy.LastFromIsLast | av1/encoder/encode_strategy.c:1136-1168 | the backward search returns a wanted entry with no wanted entry after it, and -1 exactly when no entry is wanted |
| EncodeStrategy.FirstFromIsFirst | av1/encoder/encode_strategy.c:1189-1196 | the forward search returns a wanted entry with no wanted entry before it, and -1 exactly when no entry is wanted |
| EncodeStrategy.CountFromAll | av1/encoder/encode_strategy.c:1138-1140 | the count of wanted entries equals the number of entries exactly when every entry is wanted (the n_min_level_refs < n_bufs test) |
| EncodeStrategy.LastIsLatest | av1/encoder/encode_strategy.c:1128-1146 | in the sorted map the last wanted entry is displayed no earlier than any other wanted entry |
| EncodeStrategy.ScanStep | av1/encoder/encode_strategy.c:1136-1168 | one iteration of the backward scan: BWDREF marking, the two counts, the closest past entry and the GOLDEN and ALTREF candidates, each as the loop body updates it |
| EncodeStrategy.ScanByLevel | av1/encoder/encode_strategy.c:1136-1168 | the loop ends with the map, the slots, both counts, the closest past entry and the GOLDEN and ALTREF candidates equal to ScanFrom, the scan's definition over the whole map |
| EncodeStrategy.ScanFromValid | av1/encoder/encode_strategy.c:1136-1168 | the scan keeps the map and the slots valid, its indices are in range, and the closest past entry is before the current frame |
| EncodeStrategy.MapNearestByLevel | av1/encoder/encode_strategy.c:1131-1179 | the map and slots become NearestSpec of the old ones; the counts are those of lowest-level and of past higher-level entries; the closest past entry is the last past one; validity is kept |
| EncodeStrategy.NearestSlots | av1/encoder/encode_strategy.c:1136-1179 | from empty slots, GOLDEN and ALTREF name the scan's candidates unless every entry is of the lowest level, BWDREF names the first higher-level entry showing the current frame, and no other slot is named |
| EncodeStrategy.NearestMeaning | av1/encoder/encode_strategy.c:1136-1179 | from empty slots on a sorted map: GOLDEN is named exactly when there is a higher-level entry and a lowest-level past frame, and then names the latest such frame; ALTREF likewise with the latest lowest-level future frame; BWDREF exactly when a higher-level entry shows the current frame, and then one of them; no other slot is named |
| EncodeStrategy.FarthestIsFarthest | av1/encoder/encode_strategy.c:1072-1085 | the chosen buffer is eligible and at a positive distance no smaller than any other eligible buffer's |
| EncodeStrategy.SetUnmappedRef | av1/encoder/encode_strategy.c:1069-1088 | with more than seven buffers the farthest eligible buffer is marked used; otherwise the buffer map is unchanged |
| EncodeStrategy.MapLast3 | av1/encoder/encode_strategy.c:1185-1197 | the map and slots become Last3Spec of the old ones; validity is kept |
| EncodeStrategy.Last3Meaning | av1/encoder/encode_strategy.c:1185-1197 | only LAST3 can change; nothing changes with fewer than seven buffers or no candidate; otherwise LAST3 takes the first unused candidate (above the lowest level, or of any level when there are eight buffers and fewer than four past higher-level frames), with no candidate before it |
| EncodeStrategy.PlacePastFrames | av1/encoder/encode_strategy.c:1199-1211 | the map and slots become PastFill of the old ones from the closest past entry and LAST; validity is kept |
| EncodeStrategy.PrevUnusedSkipsUsed | av1/encoder/encode_strategy.c:1204-1206 | every entry the backward search for an unused entry passes over is used |
| EncodeStrategy.PastFillMeaning | av1/encoder/encode_strategy.c:1199-1211 | past placement only marks entries used; it keeps every named slot, every slot before the start frame and the last slot; each slot it fills takes an entry at or before the start index that was unused and is now used |
| EncodeStrategy.PastFillComplete | av1/encoder/encode_strategy.c:1199-1211 | when past placement leaves a slot from the start frame on (other than the last) empty, every entry at or before the start index is used |
| EncodeStrategy.PlaceFutureFrames | av1/encoder/encode_strategy.c:1213-1225 | the map and slots become FutureFillAll of the old ones, starting from the latest entry at ALTREF; validity is kept |
| EncodeStrategy.FillFutureSlots | av1/encoder/encode_strategy.c:1213-1225 | the loop from ALTREF down to LAST leaves the map and slots equal to FutureFillAll of the old ones |
| EncodeStrategy.SearchUnusedDown | av1/encoder/encode_strategy.c:1218-1220 | the inner search stops at NextUnusedDown: the first unused entry going down, or the closest past entry |
| EncodeStrategy.NextUnusedDownSkipsUsed | av1/encoder/encode_strategy.c:1218-1220 | every entry the inner search passes over is used |
| EncodeStrategy.FutureFillMeaning | av1/encoder/encode_strategy.c:1213-1225 | future placement only marks entries used; it keeps every named slot and every slot above the start frame; each slot it fills takes an entry from the closest past entry up to the start index that was unused and is now used |
| EncodeStrategy.FutureFillComplete | av1/encoder/encode_strategy.c:1213-1225 | when future placement leaves a slot at or below the start frame empty, every entry after the closest past entry up to the start index is used |
| EncodeStrategy.PlacementsKeep | av1/encoder/encode_strategy.c:1199-1225 | the past and future placements together keep every slot already named |
| EncodeStrategy.PlaceRemaining | av1/encoder/encode_strategy.c:1185-1225 | LAST3 and the two placements take the map and slots to Remaining of the old ones; validity is kept |
| EncodeStrategy.RemainingKeeps | av1/encoder/encode_strategy.c:1185-1225 | the stages after set_unmapped_ref keep every named slot other than LAST3 |
| EncodeStrategy.FillEmptySlots | av1/encoder/encode_strategy.c:1227-1229 | every slot still INVALID_IDX becomes 0; the others are unchanged |
| EncodeStrategy.FilledValid | av1/encoder/encode_strategy.c:1227-1229 | after filling, every slot holds a buffer index in 0..7 that is 0 or names a slot holding a frame |
| EncodeStrategy.MapSortedBuffers | av1/encoder/encode_strategy.c:1131-1229 | from empty slots, the stages after the sort leave exactly MapSorted of the sorted map, every slot valid and named |
| EncodeStrategy.MapSortedKeeps | av1/encoder/encode_strategy.c:1131-1229 | no stage after the scan and the GOLDEN/ALTREF step changes a slot they named |
| EncodeStrategy.GetRefFrames | av1/encoder/encode_strategy.c:1090-1230 | the slots become RefMap(cur, pairs), the composition of the collection, the sort and every mapping stage; afterwards no slot is INVALID_IDX: every slot holds a buffer index in 0..7 that is 0 or names a non-empty buffer |
| EncodeStrategy.RefMapNamed | av1/encoder/encode_strategy.c:1090-1230 | av1_get_ref_frames maps GOLDEN to the latest past lowest-level frame and ALTREF to the latest future lowest-level frame whenever such a frame and a higher-level frame exist, and BWDREF to a higher-level frame showing the current frame whenever there is one |
| MvrefCommon.DivMult | av1/common/mvref_common.c:21-39 | the Q14 reciprocal of the clamped denominator is 0 for a zero denominator and otherwise within 1..16384 |
| MvrefCommon.ClampNum | av1/common/mvref_common.c:31-34 | the numerator is clamped to +-MAX_FRAME_DISTANCE and keeps its sign and its zeroness |
| MvrefCommon.RoundPowerOfTwoSigned | av1/common/mvref_common.c:36-38 | the signed rounding keeps the sign of its argument |
| MvrefCommon.Wrap16 | av1/common/mvref_common.c:36-38 | the int16_t conversion lands in [-2^15, 2^15) and leaves values already in range unchanged |
| MvrefCommon.MvProjectionAsWritten | av1/common/mvref_common.c:31-39 | get_mv_projection as written projects to the zero vector when num or den is 0 |
| MvrefCommon.ProjectionAsWrittenFlipsSign | av1/common/mvref_common.c:31-39 | the int16_t conversion turns the projection of (4095, 0) with num 31, den 1 into a negative row |
| MvrefCommon.SaturateMv | av1/common/mvref_common.c:31-39 | a projected component is kept inside (MV_LOW, MV_UPP], unchanged when already there, with its sign kept |
| MvrefCommon.MvProjection | av1/common/mvref_common.c:31-39 | the corrected projection is zero when num or den is 0 and always within the motion-vector range |
| MvrefCommon.ProjectionMirrors | av1/common/mvref_common.c:31-39 | negating num negates the projection, and each component has the sign of the stored component times num |
| MvrefCommon.CheckSbBorder | av1/common/mvref_common.c:384-395 | true exactly when the offset position lies in the same 64x64 superblock as the block |
| MvrefCommon.HasTopRight | av1/common/mvref_common.c:334-382 | no top-right above 64x64; always for tall blocks that are not the second half; never for the second half of a wide block; always on a superblock row boundary otherwise; never for a square block whose position has the size bit set in both coordinates |
| MvrefCommon.ScanTopRight | av1/common/mvref_common.c:351-361 | the doubling walk stops at or above the block size; a zero row mask keeps the top-right; a square block in the lower-right quarter has none |
| MvrefCommon.GetBlockPositionAsWritten | av1/common/mvref_common.c:1349-1377 | get_block_position as written returns, when it accepts, the position the motion vector projects to |
| MvrefCommon.GetBlockPosition | av1/common/mvref_common.c:1349-1377 | the corrected check accepts exactly the projected positions inside the frame and inside the window, and returns that position |
| MvrefCommon.ZeroMotionKept | av1/common/mvref_common.c:1349-1377 | a block with zero motion projects onto itself and the corrected check keeps it whenever it lies in the frame |
| MvrefCommon.AsWrittenDropsFirstRow | av1/common/mvref_common.c:1366-1370 | with MAX_OFFSET_HEIGHT 0 the written check rejects a zero-motion block on the first row of its 8-row group, which the corrected check keeps |
| MvrefCommon.AsWrittenDiffersOnlyAtEdge | av1/common/mvref_common.c:1366-1370 | the written and the corrected check differ only on the window's first row and its leftmost column |
| MvrefCommon.SetupFrameSignBias | av1/common/mvref_common.c:1325-1344 | each reference's sign bias is 0 for an invalid buffer or a reference at or before the current frame, else 1; entry 0 is untouched |
| MvrefCommon.SignBiasReverses | av1/common/mvref_common.c:1360-1361 | a sign bias of 1 projects along the reversed vector |
| MvrefCommon.NearestForwardIsNearest | av1/common/mvref_common.c:1878-1915 | the forward scan finds a reference exactly when one precedes the current frame, and then the latest such one |
| MvrefCommon.NearestBackwardIsNearest | av1/common/mvref_common.c:1878-1915 | the backward scan finds a reference exactly when one follows the current frame, and then the earliest such one |
| MvrefCommon.SecondForwardIsNearest | av1/common/mvref_common.c:1922-1950 | the second forward scan finds the latest reference before the nearest forward one, when there is one |
| MvrefCommon.SkipModeMeaning | av1/common/mvref_common.c:1863-1951 | skip mode is never allowed for intra-only or single-reference frames; when allowed its two indices are distinct valid references in order; it is allowed exactly when a forward reference exists and a backward one or a second forward one does |
| MvrefCommon.SetupSkipModeAllowed | av1/common/mvref_common.c:1863-1951 | the method computes the skip-mode decision and reference pair of the specification |
| MvrefCommon.FindMatchIsFirst | av1/common/mvref_common.c:111-112 | the search result is the first index holding the MV |
| MvrefCommon.InsertKeepsInvariant | av1/common/mvref_common.c:111-127 | a deduplicating insert keeps the stack free of duplicate MVs and within MAX_REF_MV_STACK_SIZE |
| MvrefCommon.InsertMeaning | av1/common/mvref_common.c:111-127 | a present MV gains the weight and nothing is added; an absent one is appended with the weight when there is room, counting a NEWMV; a full stack is unchanged |
| MvrefCommon.AddRefMvCandidateKeepsInvariant | av1/common/mvref_common.c:79-183 | add_ref_mv_candidate keeps the duplicate-free stack invariant for single and compound references |
| MvrefCommon.RefMvStack.Find | av1/common/mvref_common.c:111-112 | the search loop returns the first index holding the MV (pair), or the count |
| MvrefCommon.RefMvStack.InsertMv | av1/common/mvref_common.c:111-127 | the stack's new state is the deduplicating insert of its old state |
| MvrefCommon.RefMvStack.AddRefMvCandidate | av1/common/mvref_common.c:79-183 | the stack's new state is add_ref_mv_candidate of its old state |
| MvrefCommon.BubblePass | av1/common/mvref_common.c:825-833 | one bubble pass permutes the range, moves nothing outside it, and leaves the part after the last swap sorted by non-increasing weight |
| MvrefCommon.RankByWeight | av1/common/mvref_common.c:822-850 | the range ends up in non-increasing weight order, as a permutation of itself; nothing outside moves |
| MvrefCommon.RankStack | av1/common/mvref_common.c:821-850 | the nearest candidates and the rest are each sorted by non-increasing weight and permuted only among themselves; the nearest stay in front |
| MvrefCommon.KeptOnlyWithin | av1/common/mvref_common.c:1586-1594 | every kept sample is within the threshold |
| MvrefCommon.SampleThreshold | av1/common/mvref_common.c:1579 | the threshold is the larger block dimension clamped to 16..112 |
| MvrefCommon.MarkSamples | av1/common/mvref_common.c:1585-1594 | each sample is marked -1 exactly when its motion difference exceeds the threshold, and the count is the number of kept samples |
| MvrefCommon.CompactSamples | av1/common/mvref_common.c:1599-1615 | afterwards the first ret samples are exactly the kept samples (as a multiset), each within the threshold; entries past len are untouched |
| MvrefCommon.SelectSamples | av1/common/mvref_common.c:1576-1618 | with no sample within the threshold returns 1 and changes nothing; otherwise returns the number kept with the kept samples compacted to the front |
| PredCommon.AddToCache | av1/common/pred_common.c:101-106 | the cache keeps its entries and gains the value, unless the value repeats the last entry |
| PredCommon.PaletteAddToCache | av1/common/pred_common.c:101-106 | the array's first n2 entries become AddToCache of the first n, growing by at most one; nothing else changes |
| PredCommon.MergeElements | av1/common/pred_common.c:128-141 | the merge holds exactly the elements of both lists, and no more entries than both |
| PredCommon.MergeSorted | av1/common/pred_common.c:128-141 | merging two non-decreasing lists gives a non-decreasing list |
| PredCommon.AddAllStrict | av1/common/pred_common.c:101-106 | adding non-decreasing values from the last entry on keeps a strictly increasing cache strictly increasing |
| PredCommon.PaletteCacheSortedUnion | av1/common/pred_common.c:108-152 | for sorted neighbour palettes the cache is strictly increasing and holds exactly the colours of both neighbours |
| PredCommon.PaletteSize | av1/common/pred_common.c:115-119 | a neighbour's palette size is 0 when it is absent and at most PALETTE_MAX_SIZE |
| PredCommon.GetPaletteCache | av1/common/pred_common.c:108-152 | returns n at most 2*PALETTE_MAX_SIZE with the cache holding the merged colours of the above (only inside the superblock) and left neighbours; n is 0 when both palettes are empty; sorted palettes give a strictly increasing cache |
| PredCommon.MergeIntoCache | av1/common/pred_common.c:128-141 | the merge loops write the palette cache of the two lists |
| PredCommon.AddRest | av1/common/pred_common.c:142-149 | the trailing loops append the rest of a list to the cache, dropping repeats |
| PredCommon.SwitchableInterpContext | av1/common/pred_common.c:71-98 | equal filters give that filter; a side without a filter gives the other side's; two different filters give SWITCHABLE_FILTERS |
| PredCommon.SwitchableInterpMeaning | av1/common/pred_common.c:71-98 | a context other than SWITCHABLE_FILTERS is the filter of an inter neighbour, and the context does not depend on the side |
| PredCommon.IntraInterContext | av1/common/pred_common.c:161-176 | 3 for two intra neighbours, 1 for one, 0 for none; with one neighbour 2 if it is intra else 0; 0 with no neighbour |
| PredCommon.ReferenceModeContext | av1/common/pred_common.c:185-228 | the context is in 0..4, 1 with no neighbours, 4 exactly when both neighbours are compound, and with one neighbour 3 exactly when it is compound |
| PredCommon.ReferenceModeSymmetric | av1/common/pred_common.c:161-228 | both contexts are symmetric in the two neighbours |
| PredCommon.Vote | av1/common/pred_common.c:309-462 | the vote is 1 on a tie, 0 when the first count is smaller, 2 when it is larger |
| PredCommon.VoteMirror | av1/common/pred_common.c:309-462 | swapping the sides mirrors the vote around 1 |
| PredCommon.VoteMonotone | av1/common/pred_common.c:309-462 | more votes for the first side never lower the context |
| PredCommon.UniCompRefContext | av1/common/pred_common.c:309-324 | the context is in range; 0 exactly when forward references (LAST..GOLDEN) are outnumbered by backward ones (BWDREF..ALTREF), 2 exactly when they outnumber them, 1 on a tie |
| PredCommon.UniCompRefP1Context | av1/common/pred_common.c:334-349 | the context is in range; 0 exactly when LAST2 counts fewer than LAST3 and GOLDEN together, 2 exactly when more, 1 on a tie |
| PredCommon.Last3OrGoldenContext | av1/common/pred_common.c:359-372 | the context is in range for both uni_comp_ref_p2 and comp_ref_p2; 0 exactly when LAST3 counts fewer than GOLDEN, 2 exactly when more, 1 on a tie |
| PredCommon.CompRefContext | av1/common/pred_common.c:378-393 | the context is in range; 0 exactly when LAST and LAST2 together count fewer than LAST3 and GOLDEN, 2 exactly when more, 1 on a tie |
| PredCommon.CompRefP1Context | av1/common/pred_common.c:398-411 | the context is in range; 0 exactly when LAST counts fewer than LAST2, 2 exactly when more, 1 on a tie |
| PredCommon.BwdOrAltref2VsAltrefContext | av1/common/pred_common.c:433-446 | the context is in range; 0 exactly when BWDREF and ALTREF2 together count fewer than ALTREF, 2 exactly when more, 1 on a tie |
| PredCommon.BwdVsAltref2Context | av1/common/pred_common.c:449-462 | the context is in range; 0 exactly when BWDREF counts fewer than ALTREF2, 2 exactly when more, 1 on a tie |
| PredCommon.VoteGroups | av1/common/pred_common.c:309-324 | the forward count is LAST..GOLDEN and the backward count BWDREF..ALTREF |
| PredCommon.NoNeighborsTie | av1/common/pred_common.c:309-462 | with no neighbour references every vote-based context is the tie value 1 |
| PredCommon.SingleRefP1Context | av1/common/pred_common.c:478-536 | the context is in range and 2 with no neighbours |
| PredCommon.SingleRefP1Meaning | av1/common/pred_common.c:478-536 | context 4 needs a forward single-reference neighbour; context 0 needs none and a compound or backward one; it is symmetric |
| PredCommon.SingleRefContext | av1/common/pred_common.c:550-821 | single_ref_p3..p5 contexts are in range and 2 with no neighbours |
| PredCommon.SingleRefMeaning | av1/common/pred_common.c:550-821 | context 4 needs a neighbour that uses the tested frames; context 0 needs that neither does |
| PredCommon.SingleRefSymmetric | av1/common/pred_common.c:550-821 | single_ref_p3..p5 do not depend on which side is which |
| EntropyMode.Neighbors | av1/common/entropymode.c:1531-1535 | the left, top-left and top colours, each present exactly when its row and column exist, -1 otherwise |
| EntropyMode.Scores | av1/common/entropymode.c:1540-1547 | each colour's score is the sum of the weights 2, 1, 2 of the neighbours holding it |
| EntropyMode.ScoreTotal | av1/common/entropymode.c:1540-1547 | the scores add up to 5 inside the block and to 2 on its top row or left column |
| EntropyMode.ContextRef | av1/common/entropymode.c:1584-1598 | the context is in 0..PALETTE_COLOR_INDEX_CONTEXTS-1 and is the lookup of the hash that the pattern of equal neighbours gives |
| EntropyMode.NeighborScores | av1/common/entropymode.c:1540-1547 | the score loop produces Scores of the neighbourhood |
| EntropyMode.IdentityOrders | av1/common/entropymode.c:1549-1553 | every colour starts in its own slot, in both the order and its inverse |
| EntropyMode.FindMax | av1/common/entropymode.c:1557-1564 | the first slot at or after i with the largest score among the palette's colours |
| EntropyMode.MoveToFront | av1/common/entropymode.c:1565-1578 | scores and colour order both get the slot-maxIdx-to-slot-i move, and the inverse order stays the inverse |
| EntropyMode.ShiftUp | av1/common/entropymode.c:1570-1574 | slots i+1..maxIdx take the entry below them and every moved colour's inverse follows it |
| EntropyMode.MovedIsInverse | av1/common/entropymode.c:1565-1578 | moving a slot keeps a permutation and its adjusted inverse in step |
| EntropyMode.SelectTopScores | av1/common/entropymode.c:1555-1579 | the three largest scores come first, largest first, with colours and inverse in step and slots past the palette untouched |
| EntropyMode.ScoreHash | av1/common/entropymode.c:1585-1589 | the hash is the top three scores weighted 1, 2, 2 |
| EntropyMode.TopScoresHash | av1/common/entropymode.c:1584-1591 | after selection the hash is the one the pattern of equal neighbours gives |
| EntropyMode.InverseDistinct | av1/common/entropymode.c:1549-1578 | an order that has an inverse lists every colour once |
| EntropyMode.RankColors | av1/common/entropymode.c:1540-1589 | the colour order has an inverse; slot k of scores holds the neighbour score of colour color_order[k]; the first three colours come in non-increasing score, each scoring at least every later palette colour; slots from the palette size on keep their own colour; the hash of the top scores is the reference hash of the neighbourhood |
| EntropyMode.TopRanked | av1/common/entropymode.c:1555-1579 | after selection, the colours in the first three slots are ranked by their initial scores against every later palette colour |
| EntropyMode.GetPaletteColorIndexContext | av1/common/entropymode.c:1524-1599 | color_order is a permutation of 0..7 whose first three colours come in non-increasing neighbour score, each scoring at least every later palette colour, and which keeps slots from the palette size on in place; color_idx is the slot of the pixel's colour in it; the context is ContextRef of the neighbourhood, in 0..4 |
| EntropyMode.SetDefaultRefDeltas | av1/common/entropymode.c:1730-1741 | INTRA gets 1, GOLDEN, ALTREF2 and ALTREF get -1, LAST, LAST2, LAST3 and BWDREF get 0; entries past ALTREF are unchanged |
| EntropyMode.SetDefaultModeDeltas | av1/common/entropymode.c:1743-1748 | both mode deltas become 0 and nothing else changes |
| EntropyMode.LoopFilterDeltas.SetDefaultLfDeltas | av1/common/entropymode.c:1750-1756 | delta coding is enabled and signalled, and the reference and mode deltas take their defaults |
| TxbCommon.PadedIdxIsStridePosition | av1/common/txb_common.h:49-51 | the padded index of row*2^bwl+col is its position in rows padded by TX_PAD_HOR |
| TxbCommon.GetLevelCountMag | av1/common/txb_common.h:53-70 | the loop counts the neighbours above the level and finds the largest level among the forward neighbours |
| TxbCommon.CountGreaterBounds | av1/common/txb_common.h:53-70 | the count is between 0 and the number of neighbours |
| TxbCommon.ForwardMagIsMax | av1/common/txb_common.h:53-70 | the magnitude bounds every forward neighbour's level and is 0 or attained by one |
| TxbCommon.GetBaseCtxFromCountMag | av1/common/txb_common.h:72-93 | the context is the region's base plus the count rounded up to even plus the magnitude flag |
| TxbCommon.BaseCtxRegionsSeparate | av1/common/txb_common.h:72-93 | with at most six neighbours above the level each region keeps to its own slot range |
| TxbCommon.BaseCtxDcOverflow | av1/common/txb_common.h:72-93 | with seven neighbours above the level the DC context is 9, past its eight slots |
| TxbCommon.BrLevelMap | av1/common/txb_common.h:119-121 | br_level_map is the count halved and capped at 3 |
| TxbCommon.BrMagBand | av1/common/txb_common.h:137-163 | the band is in 0..3, 0 exactly for magnitude at most 1 and 3 exactly above 5 |
| TxbCommon.BrMagBandMonotone | av1/common/txb_common.h:137-163 | a larger magnitude never falls in a lower band |
| TxbCommon.GetBrCtxFromCountMag | av1/common/txb_common.h:137-163 | the context is the region offset plus the capped half count plus the band times BR_TMP_OFFSET |
| TxbCommon.GetTxClass | av1/common/txb_common.h:217-229 | the V_* types are the vertical class, the H_* types the horizontal class, every other type 2-D |
| TxbCommon.TxClassFollowsIdentity | av1/common/txb_common.h:217-229 | the vertical class is the one with identity rows and a non-identity column transform, and the horizontal class the converse |
| TxbCommon.SigOffsets | av1/common/txb_common.h:183-193 | each class has seven forward neighbour offsets, none of them the coefficient itself |
| TxbCommon.GetNzCount | av1/common/txb_common.h:195-215 | the count of non-zero levels among the class's seven neighbours, at most seven |
| TxbCommon.CountNonZeroExtremes | av1/common/txb_common.h:195-215 | all-zero neighbours count 0, all non-zero neighbours count 7 |
| TxbCommon.GetNzMapCtxFromCount | av1/common/txb_common.h:233-284 | a 2-D class gives 0 at DC and stays in 0..25; the 1-D classes stay within their own 15 contexts |
| TxbCommon.SetDcSignRoundTrip | av1/common/txb_common.h:321-326 | set_dc_sign keeps the magnitude bits and stores a sign code that reads back as 1 for negative, 2 for positive, 0 for zero |
| TxbCommon.GetDcSignCtx | av1/common/txb_common.h:328-336 | the context is 1 for a negative vote total, 2 for a positive one, 0 for zero |
| TxbCommon.LumaSkipCtx | av1/common/txb_common.h:385-396 | 0 when the block is one transform; 1 with no magnitude on either side; 2 or 3 with one side; always in 0..6 |
| TxbCommon.LumaSkipCtxSymmetric | av1/common/txb_common.h:385-396 | the luma skip context does not depend on which side a magnitude came from |
| TxbCommon.VoteRun | av1/common/txb_common.h:348-366 | a sign loop adds the votes of its entries and flags an unknown sign code |
| TxbCommon.MaxRun | av1/common/txb_common.h:374-381 | a magnitude loop finds the largest magnitude |
| TxbCommon.MaxMagBounds | av1/common/txb_common.h:374-381 | the largest magnitude bounds every entry and is not negative |
| TxbCommon.AllNegativeVotes | av1/common/txb_common.h:348-368 | contexts left by negative DC values vote -1 each |
| TxbCommon.GetTxbCtx | av1/common/txb_common.h:338-401 | the DC sign context is the sign of the vote total, the assertion fails exactly on an unknown sign code, and the skip context is the luma rule for plane 0 and the offset chroma rule otherwise |
| Cfl.CflCtx.Init | av1/common/cfl.c:18-35 | both buffers are zero, the subsampling is the sequence's, and every computed, store and cache flag is cleared |
| Cfl.CflCtx.Pad | av1/common/cfl.c:87-117 | the stored extent grows to the block size and every cell becomes the padding of the old buffer: new columns repeat the last stored column, new rows repeat the last stored row; the subsampling, parameter, store_y and DC-cache flags are unchanged |
| Cfl.PadColumns | av1/common/cfl.c:91-103 | rows below the stored height get columns bw..width-1 set to the pixel at column bw-1; nothing else changes |
| Cfl.PadRows | av1/common/cfl.c:104-116 | rows bh..height-1 copy the first width columns of row bh-1; nothing else changes |
| Cfl.PadCopiesStored | av1/common/cfl.c:87-117 | every padded pixel copies a stored pixel of the same buffer |
| Cfl.SubtractAverage | av1/common/cfl.c:119-137 | every cell of the region becomes its value minus the rounded average of the region; the rest of dst is kept |
| Cfl.AcSumBalanced | av1/common/cfl.c:119-137 | after the subtraction the region sums to within half a pixel count of zero |
| Cfl.Subsample420 | av1/common/cfl.c:210-223 | each 2x2 luma group becomes one Q3 output (their sum times 2) at the block's place; nothing else changes |
| Cfl.Subsample422 | av1/common/cfl.c:225-237 | each horizontal pair becomes one Q3 output (their sum times 4); nothing else changes |
| Cfl.Subsample444 | av1/common/cfl.c:239-251 | each pixel becomes one Q3 output (times 8); nothing else changes |
| Cfl.SubsampledIsQ3 | av1/common/cfl.c:210-294 | pixels in [0, m] give outputs in [0, 8m], and a flat block of value v gives 8v everywhere |
| Cfl.Subsample | av1/common/cfl.c:298-318 | the dispatch runs the subsampler that matches (sub_x, sub_y) |
| Cfl.StoreExtent | av1/common/cfl.c:320-360 | for even sizes the subsampler writes exactly width >> sub_x by height >> sub_y outputs |
| Cfl.CflCtx.Store | av1/common/cfl.c:320-360 | the parameters are marked stale, the stored extent is the block's at (0, 0) and grows to cover the block elsewhere, and the buffer holds the subsampled block at its offset; the subsampling, store_y and use_dc_pred_cache fields are unchanged |
| Cfl.JointSignsDecode | av1/common/cfl.c:141-149 | the eight joint signs decode to exactly the sign pairs other than (zero, zero), and encode back |
| Cfl.CflIdxToAlpha | av1/common/cfl.c:141-149 | alpha is 0 for a zero sign, else the magnitude index plus one with the plane's sign |
| Cfl.ClampToSigned32 | av1/common/cfl.c:476-480 | the value is clamped to the signed num_bits range and unchanged when already inside it |
| Cfl.AccumulateBorder | av1/common/cfl.c:499-512 | one accumulation loop adds the border's luma and chroma sums, cross products and squares |
| Cfl.FitFromSums | av1/common/cfl.c:513-531 | alpha and beta fit kCflABits and kCflBBits signed bits |
| Cfl.FitZeroSlope | av1/common/cfl.c:515-529 | the slope is 0 when the numerator or denominator is 0 or the offset is out of range |
| Cfl.LinearRegressionHigh | av1/common/cfl.c:482-532 | the result is the clamped fit of the sums over the above row and the left column |
| TileCommon.TileInfo.SetRow | av1/common/tile_common.c:16-19 | the row range starts at row * tile_height and ends tile_height later, cut at the bottom of the frame; the column range is unchanged |
| TileCommon.TileInfo.SetCol | av1/common/tile_common.c:21-24 | the column range starts at col * tile_width and ends tile_width later, cut at the frame's right edge; the row range is unchanged |
| TileCommon.TileInfo.Init | av1/common/tile_common.c:41-47 | both ranges are set as by the row and column setters |
| TileCommon.TileRowsAdjacent | av1/common/tile_common.c:16-19 | inside the frame, consecutive tile rows meet without gap or overlap |
| TileCommon.GetMinLog2TileCols | av1/common/tile_common.c:57-61 | the least k with MAX_TILE_WIDTH_SB << k at least the superblock column count |
| TileCommon.GetMaxLog2TileCols | av1/common/tile_common.c:63-67 | the largest k that is 0 or leaves tiles of at least MIN_TILE_WIDTH_SB superblocks |
| TileCommon.GetTileNBits | av1/common/tile_common.c:69-76 | both bounds are those of the superblock column count of the frame, and the minimum does not exceed the maximum |
| TileCommon.MinBelowMax | av1/common/tile_common.c:69-76 | the minimum tile-column exponent never exceeds the maximum |
| TileCommon.SetOneBoundary | av1/common/tile_common.c:78-84 | the entries from start to end in steps of step get the boundary bits ORed in; no other entry changes |
| TileCommon.StrideIsMultiples | av1/common/tile_common.c:78-84 | the visited entries are exactly those between start and end a whole number of steps from start |
| TileCommon.DisableLoopfilterOnTileBoundary | av1/common/tile_common.c:147-150 | true exactly when filtering across tiles is off and the frame has more than one tile |
| Dering.ComputeLevelFromIndex | av1/common/dering.c:24-30 | level 0 when the global level is 0; otherwise clamped to [gi, MAX_DERING_LEVEL-1] and, when not clamped, the gain-scaled level rounded by 16 |
| Dering.FirstStepIsLowest | av1/common/dering.c:24-30 | the first refinement step, whose gain is 0, always gets strength 0 |
| Dering.Extent | av1/common/dering.c:36-39 | the rows (columns) of the superblock inside the frame are at most MAX_MIB_SIZE |
| Dering.SbAllSkip | av1/common/dering.c:32-48 | true exactly when every unit of the frame-clipped superblock is skipped |
| Dering.SbAllSkipOut | av1/common/dering.c:50-76 | bskip lists exactly the non-skipped units of the clipped superblock, in row-major order; the count is their number; the result is true exactly when the count is 0 |
| Dering.ListRow | av1/common/dering.c:62-74 | the inner loop appends the non-skipped units of one row; nothing past them changes |
| Dering.ListedMembers | av1/common/dering.c:50-76 | a unit is listed exactly when it lies in the clipped superblock and is not skipped |
| Dering.NonSkipListIsNonSkipped | av1/common/dering.c:32-76 | the list holds exactly the non-skipped units, so it is empty exactly when sb_all_skip holds |
| Dering.ListedRowMajor | av1/common/dering.c:50-76 | the listing is strictly increasing in row-major order, so no unit is listed twice |
| Dering.Byte | av1/common/dering.c:78-90 | the store into uint8_t keeps the value modulo 256 and leaves 0..255 unchanged |
| Dering.CopySquare | av1/common/dering.c:78-90 | each pixel of the n x n square (n 8 or 4) is copied, truncated to a byte; nothing else in dst changes |
| Dering.CopyBlocks | av1/common/dering.c:93-114 | every listed block's pixels hold its source block, truncated to bytes (a block listed twice holds its last copy); pixels outside the listed blocks are unchanged |
| LoopFilter.InsideLimit | av1/common/av1_loopfilter.c:592-599 | the inside limit lies between 1 and the level (or 1), and at most 9 - sharpness when sharpness is on |
| LoopFilter.MbLimit | av1/common/av1_loopfilter.c:602-603 | the edge limit exceeds twice (level + 2) |
| LoopFilter.HevThr | av1/common/av1_loopfilter.c:669-670 | the hev threshold is the level's sixteenth, 0..3 |
| LoopFilter.InsideLimitMonotone | av1/common/av1_loopfilter.c:592-599 | a higher level never lowers the inside limit |
| LoopFilter.InsideLimitSharper | av1/common/av1_loopfilter.c:592-599 | a sharper setting never raises the inside limit |
| LoopFilter.ThresholdsFitByte | av1/common/av1_loopfilter.c:601-603 | every limit memset writes fits a byte (inside limit 1..63, edge limit and hev threshold at most 255) |
| LoopFilter.SegLvlLf | av1/common/av1_loopfilter.c:24-28 | the segment feature per plane and direction is one of the four loop-filter features |
| LoopFilter.SegFeaturePerDirection | av1/common/av1_loopfilter.c:24-28 | luma has a feature per direction, chroma one for both, and no two planes share one |
| LoopFilter.SegLevel | av1/common/av1_loopfilter.c:693-699 | the level after the segment feature is in 0..MAX_LOOP_FILTER and is the base level when the feature is inactive or its data zero |
| LoopFilter.DeltaScale | av1/common/av1_loopfilter.c:707 | the delta multiplier is 1 below level 32 and 2 from 32 up |
| LoopFilter.StoredLevel | av1/common/av1_loopfilter.c:701-720 | without delta coding the stored level is the segment level; with it, the level is clamped to 0..MAX_LOOP_FILTER and the intra mode-1 entry is left as it was |
| LoopFilter.ZeroDeltasKeepLevel | av1/common/av1_loopfilter.c:701-704 | delta coding with every delta zero stores the same levels as no delta coding, as the comment beside the memset supposes |
| LoopFilter.StoredLevelMonotone | av1/common/av1_loopfilter.c:712-719 | a larger reference delta never lowers the stored level of an inter reference |
| LoopFilter.LoopFilterCommon.UpdateSharpness | av1/common/av1_loopfilter.c:586-605 | every level's inside and edge limits become those of the given sharpness; the hev thresholds are kept |
| LoopFilter.LoopFilterCommon.Init | av1/common/av1_loopfilter.c:657-671 | every level's thresholds are the limits of the current sharpness and its hev threshold, and the last sharpness is recorded |
| LoopFilter.LoopFilterCommon.FrameInit | av1/common/av1_loopfilter.c:673-723 | the limits are recomputed only when the sharpness changed, and every segment, direction, reference and mode level is StoredLevel of its segment level |
| LoopFilter.LoopFilterCommon.SegmentLevels | av1/common/av1_loopfilter.c:692-721 | both directions of one segment get their stored levels; other segments are untouched |
| LoopFilter.LoopFilterCommon.FillLevels | av1/common/av1_loopfilter.c:704 | the memset sets every entry of one segment and direction to the segment level and nothing else |
| LoopFilter.LoopFilterCommon.DeltaLevels | av1/common/av1_loopfilter.c:706-720 | the delta-coded entries of one segment and direction are StoredLevel; other entries are untouched |
| LoopFilter.LoopFilterCommon.RefLevels | av1/common/av1_loopfilter.c:713-719 | the mode loop of one inter reference stores StoredLevel for each mode and nothing else |
| LoopFilter.LoopFilterCommon.Frame | av1/common/av1_loopfilter.c:3060-3094 | no level on either direction returns without touching the state; otherwise the levels are initialised as FrameInit states and the rows to filter are FilterRows |
| LoopFilter.ClearLow3 | av1/common/av1_loopfilter.c:3074 | the masked value is the largest multiple of 8 not above the input |
| LoopFilter.FilterRows | av1/common/av1_loopfilter.c:3069-3076 | nothing is filtered exactly when both levels are zero; a full frame covers every row; a partial frame starts on a multiple of 8 at or above the middle and spans an eighth of the frame, at least 8 rows |
| LoopFilter.FilterRowsWithinFrame | av1/common/av1_loopfilter.c:3069-3076 | the rows to filter lie within the frame and are not empty when the frame is not |
| LoopFilter.YIndexShiftIsRaster | av1/common/av1_loopfilter.c:766-776 | word and shift address the raster index of the 4x4 unit in a 64x64 block, 16 units to a row and 4 rows to a word |
| LoopFilter.UvIndexShiftIsRaster | av1/common/av1_loopfilter.c:782-788 | the shift is the raster index of the 8x8 unit in a 64x64 block |
| LoopFilter.MaskIdxInsideSb | av1/common/av1_loopfilter.c:839-844 | 0 with 64x64 superblocks, one of four quarters with 128x128 ones |
| LoopFilter.MaskIdxSameQuarter | av1/common/av1_loopfilter.c:839-844 | with 128x128 superblocks two positions share a mask exactly when they lie in the same quarter |
| LoopFilter.WordY | av1/common/av1_loopfilter.c:793-804 | word i of each of the five luma masks |
| LoopFilter.TenPairsY | av1/common/av1_loopfilter.c:794-804 | the ten assertions of check_mask_y are exactly the pairwise disjointness of the five sizes |
| LoopFilter.CheckMaskY | av1/common/av1_loopfilter.c:790-808 | true exactly when no two luma masks share a bit in any word |
| LoopFilter.CheckMaskUv | av1/common/av1_loopfilter.c:810-824 | true exactly when no two chroma masks share a bit |
| LoopFilter.DisjointMasksOneSize | av1/common/av1_loopfilter.c:826-836 | a bit set in one disjoint mask is clear in every other: a position is filtered with at most one transform size |
| LoopFilter.SetLpfParameters | av1/common/av1_loopfilter.c:2646-2771 | the filter length is one of 0, 4, 6, 8, 14 (0, 4, 6 on chroma); an edge is filtered exactly when it lies in the plane, on a transform edge, not on a tile boundary marked in boundary_info, with a nonzero level and not inside a skipped block; length 4 exactly for a 4x4 transform; the level used is the current one, else the previous |
| LoopFilter.FilterLengthGrowsWithTxSize | av1/common/av1_loopfilter.c:2646-2771 | on luma a larger transform on the previous side never shortens the filter |
| Convolve.ConstantsAgree | av1/common/convolve.c:38-46 | the literals the filters compute with are the named constants: 128 = 1 << FILTER_BITS, weights summing to 1 << DIST_PRECISION_BITS, 14 bits of super-resolution phase whose top 6 pick one of 64 kernels |
| Convolve.RoundingPixel | av1/common/convolve.c:83-84 | one rounded sample is an 8-bit pixel |
| Convolve.RoundingPixelOfScaled | av1/common/convolve.c:79-87 | a pixel scaled by 2^bits rounds back to itself, so the rounding undoes the compound copy's scaling |
| Convolve.ConvolveRounding | av1/common/convolve.c:79-87 | each sample of the h x w block is rounded by bits and clipped to a pixel; nothing outside the block changes |
| Convolve.HighbdRoundingPixel | av1/common/convolve.c:732-736 | one high-bitdepth rounded sample lies in 0 .. 2^bd - 1 |
| Convolve.HighbdRoundingAt8 | av1/common/convolve.c:728-738 | at bit depth 8 the high-bitdepth rounding is the 8-bit one |
| Convolve.HighbdConvolveRounding | av1/common/convolve.c:728-738 | each sample of the block is rounded and clipped to bd bits; nothing outside the block changes |
| Convolve.ConvolveCopySr | av1/common/convolve.c:373-390 | the h x w block of the source is copied into dst and nothing else changes |
| Convolve.HighbdConvolveCopySr | av1/common/convolve.c:911-928 | the same copy over 16-bit samples |
| Convolve.FilterSum | av1/common/convolve.c:281-283 | the tap loop leaves its initial value plus the dot product of the kernel and the samples |
| Convolve.DotOfFullPel | av1/common/convolve.c:342-371 | the integer-phase kernel reproduces the centre sample, scaled by 128 |
| Convolve.XSrPixel | av1/common/convolve.c:362-368 | one horizontal output is a pixel |
| Convolve.YSrPixel | av1/common/convolve.c:332-337 | one vertical output is a pixel |
| Convolve.ConvolveXSr | av1/common/convolve.c:342-371 | every output of the block is the horizontal tap sum rounded by round_0 then FILTER_BITS - round_0 and clipped, and reads only samples inside the source; nothing outside the block changes |
| Convolve.XSrRow | av1/common/convolve.c:362-369 | one output row: entry x is XSrPixel of (r, x) |
| Convolve.ConvolveYSr | av1/common/convolve.c:312-340 | every output of the block is the vertical tap sum rounded by FILTER_BITS and clipped; nothing outside the block changes |
| Convolve.XSrAtFullPel | av1/common/convolve.c:342-371 | at the integer phase the horizontal filter copies its input |
| Convolve.FullPelRounds | av1/common/convolve.c:367-368 | 128 * p rounded by round_0 and then by FILTER_BITS - round_0 is p |
| Convolve.YSrAtFullPel | av1/common/convolve.c:312-340 | at the integer phase the vertical filter copies its input |
| Convolve.WrapInt16 | av1/common/convolve.c:287-288 | the int16_t conversion keeps the value modulo 2^16 and keeps any value already in range |
| Convolve.Sr2dPixel | av1/common/convolve.c:296-307 | one 2-D output is a pixel |
| Convolve.HorizontalPass | av1/common/convolve.c:278-290 | the intermediate block has im_h rows, each entry the horizontal sum from 1 << (bd + FILTER_BITS - 1) rounded by round_0 and narrowed to int16_t |
| Convolve.VerticalSum | av1/common/convolve.c:299-302 | the vertical tap loop over the intermediate block starts from 1 << offset_bits |
| Convolve.Sr2dCell | av1/common/convolve.c:296-307 | the vertical pass for one output gives Sr2dPixel |
| Convolve.Sr2dRow | av1/common/convolve.c:297-309 | one output row of the vertical pass: entry x is Sr2dPixel of (r, x) |
| Convolve.ConvolveSr2d | av1/common/convolve.c:261-310 | every output of the block is the two-pass result with the offsets removed, rounded by bits and clipped; nothing outside the block changes |
| Convolve.Sr2dAtFullPel | av1/common/convolve.c:261-310 | at the integer phase on both axes the 2-D filter copies its input |
| Convolve.Conv2dAtFullPel | av1/common/convolve.c:392-459 | at the integer phase the compound 2-D result is the pixel scaled by 2^(2 * FILTER_BITS - round_0 - round_1) |
| Convolve.ImValueAtFullPel | av1/common/convolve.c:278-290 | at the integer phase the horizontal pass stores p as (128 + p) * 2^(7 - round_0) |
| Convolve.ImIntermediate | av1/common/convolve.c:280-288 | at the integer phase the intermediate sample is (128 + p) * 2^(7 - round_0), which int16_t holds unchanged |
| Convolve.VerticalOfIntermediate | av1/common/convolve.c:299-306 | the integer-phase vertical pass over that intermediate leaves p * 2^bits after the offsets are removed |
| Convolve.CompoundAverageBetween | av1/common/convolve.c:440-455 | either average stored into the compound buffer lies between the two predictions it combines |
| Convolve.EqualWeightsArePlainAverage | av1/common/convolve.c:440-455 | the distance-weighted average with the weights (8, 8) is the plain average |
| Convolve.JntConvolveCopy | av1/common/convolve.c:554-594 | each sample shifted to the compound precision is stored, or averaged with the buffer as the weighting and do_average say; nothing outside the block changes |
| Convolve.JntConvolveX | av1/common/convolve.c:508-552 | each horizontal compound result is stored or averaged into the buffer; nothing outside the block changes |
| Convolve.JntConvolveY | av1/common/convolve.c:461-506 | each vertical compound result is stored or averaged into the buffer; nothing outside the block changes |
| Convolve.Conv2dCell | av1/common/convolve.c:429-439 | the vertical pass for one output gives the compound 2-D result |
| Convolve.JntConvolve2d | av1/common/convolve.c:392-459 | both passes, then each compound result stored or averaged into the buffer; nothing outside the block changes |
| Convolve.ConvolveCopyCompound | av1/common/convolve.c:229-259 | the compound copy with the plain average |
| Convolve.ConvolveXCompound | av1/common/convolve.c:191-227 | the horizontal compound filter with the plain average |
| Convolve.ConvolveYCompound | av1/common/convolve.c:152-189 | the vertical compound filter with the plain average |
| Convolve.Convolve2dCompound | av1/common/convolve.c:93-150 | the 2-D compound filter with the plain average |
| Convolve.JntXAtFullPel | av1/common/convolve.c:508-552 | at the integer phase the horizontal compound result equals the compound copy's |
| Convolve.JntYAtFullPel | av1/common/convolve.c:461-506 | at the integer phase the vertical compound result equals the compound copy's |
| Convolve.RsFilterIndex | av1/common/convolve.c:38-40 | the kernel index lies in 0..RS_SUBPEL_MASK, as the assert demands, even for a negative position |
| Convolve.RsFilter | av1/common/convolve.c:41-42 | the 8 taps of the chosen phase in the table of 64 kernels |
| Convolve.RsPositionSplits | av1/common/convolve.c:37-39 | a position splits into the column, the 6-bit kernel index and 8 dropped bits |
| Convolve.ConvolveHorizRs | av1/common/convolve.c:29-52 | every output is the 8-tap sum at its stepped position rounded by FILTER_BITS and clipped to a pixel; nothing outside the block changes |
| Convolve.HighbdConvolveHorizRs | av1/common/convolve.c:54-77 | the same filter over 16-bit samples, clipped to bd bits |
| Convolve.RsRowSums | av1/common/convolve.c:35-49 | the tap sums of one row, x_qn advancing by x_step_qn per column: entry x is RsSum of (r, x) |
| Convolve.RsAtUnitScale | av1/common/convolve.c:29-52 | at unit step and an integer start phase the upscaler copies its input shifted by the start column |
| HybridFwdTxfm.ButterflyReversible | av1/encoder/hybrid_fwd_txfm.c:37-43 | the lifting butterfly loses nothing: UnButterfly undoes it for every input |
| HybridFwdTxfm.ButterflyBound | av1/encoder/hybrid_fwd_txfm.c:37-43 | every butterfly output is at most five times the largest input in magnitude |
| HybridFwdTxfm.Block | av1/encoder/hybrid_fwd_txfm.c:31-35 | the transform reads 16 samples, row r at input[r * stride ..] |
| HybridFwdTxfm.Fwht4x4Spec | av1/encoder/hybrid_fwd_txfm.c:24-76 | the 16 outputs, each pass computed in tran_high_t and stored to tran_low_t |
| HybridFwdTxfm.Fwht4x4 | av1/encoder/hybrid_fwd_txfm.c:24-76 | the first 16 outputs are Fwht4x4Spec of the input block and nothing after them changes |
| HybridFwdTxfm.FirstPass | av1/encoder/hybrid_fwd_txfm.c:31-51 | the first loop stores the wrapped column butterflies and nothing else |
| HybridFwdTxfm.ColumnStep | av1/encoder/hybrid_fwd_txfm.c:32-47 | one column of the first pass: the butterfly of input[i + k * stride] stored at output[i + 4 * k] |
| HybridFwdTxfm.ColumnStored | av1/encoder/hybrid_fwd_txfm.c:44-47 | what one column step stores at row r is entry (r, i) of the first pass |
| HybridFwdTxfm.SecondPass | av1/encoder/hybrid_fwd_txfm.c:52-75 | the second loop rewrites the first 16 outputs in place with the wrapped row butterflies scaled by UNIT_QUANT_FACTOR |
| HybridFwdTxfm.RowStep | av1/encoder/hybrid_fwd_txfm.c:55-71 | one row of the second pass, in place, scaled by UNIT_QUANT_FACTOR |
| HybridFwdTxfm.HighbdFwht4x4 | av1/encoder/hybrid_fwd_txfm.c:78-81 | the high-bitdepth entry computes the same transform |
| HybridFwdTxfm.WrappedFits | av1/encoder/hybrid_fwd_txfm.c:44-47 | storing values that fit in int32_t changes nothing |
| HybridFwdTxfm.ColumnsBound | av1/encoder/hybrid_fwd_txfm.c:31-51 | each first-pass value over an int16_t block is at most 5 * 2^15 in magnitude |
| HybridFwdTxfm.RowsBound | av1/encoder/hybrid_fwd_txfm.c:52-75 | each second-pass value is at most 20 times the bound of its inputs |
| HybridFwdTxfm.NoWrapOnInt16 | av1/encoder/hybrid_fwd_txfm.c:24-76 | on an int16_t block no store wraps: the result is the exact transform |
| HybridFwdTxfm.FwhtQuantized | av1/encoder/hybrid_fwd_txfm.c:68-71 | every output is a multiple of UNIT_QUANT_FACTOR |
| HybridFwdTxfm.FwhtOfZero | av1/encoder/hybrid_fwd_txfm.c:24-76 | an all-zero block transforms to all zeros |
| HybridFwdTxfm.InverseFwht | av1/encoder/hybrid_fwd_txfm.c:24-76 | the inverse lossless transform, a reference for what the forward one keeps |
| HybridFwdTxfm.ColumnOfColumns | av1/encoder/hybrid_fwd_txfm.c:31-51 | column c of the first pass is the butterfly of column c |
| HybridFwdTxfm.RowOfRows | av1/encoder/hybrid_fwd_txfm.c:52-75 | row r of the second pass divided by UNIT_QUANT_FACTOR is the butterfly of row r |
| HybridFwdTxfm.UnColumnsInverts | av1/encoder/hybrid_fwd_txfm.c:31-51 | undoing each column's butterfly gives back the block |
| HybridFwdTxfm.UnRowsInverts | av1/encoder/hybrid_fwd_txfm.c:52-75 | undoing each row's scaling and butterfly gives back the first pass |
| HybridFwdTxfm.FwhtReversible | av1/encoder/hybrid_fwd_txfm.c:24-76 | the lossless transform is invertible on int16_t blocks: the inverse gives back the block |
| HybridFwdTxfm.Wide | av1/encoder/hybrid_fwd_txfm.c:340 | tx_size_wide is 2^tx_size_wide_log2, between 4 and 64 |
| HybridFwdTxfm.High | av1/encoder/hybrid_fwd_txfm.c:341 | tx_size_high is 2^tx_size_high_log2, between 4 and 64 |
| HybridFwdTxfm.HighbdFwdTxfm | av1/encoder/hybrid_fwd_txfm.c:247-311 | the switch selects nothing unless the type is in the transform set; the Walsh-Hadamard 4x4 exactly for a lossless 4x4 DCT_DCT block; otherwise the 2-D transform of the size, type and depth, DCT_DCT only on sizes with a 64-long side; none only where a wrapper's assert fails |
| HybridFwdTxfm.LowbdFwdTxfm | av1/encoder/hybrid_fwd_txfm.c:242-245 | the C low-bitdepth entry chooses what the high-bitdepth one does |
| HybridFwdTxfm.FwdTxfm | av1/encoder/hybrid_fwd_txfm.c:234-240 | 8-bit and deeper input choose the same transform |
| HybridFwdTxfm.StxOut | av1/encoder/hybrid_fwd_txfm.c:314-335 | fwd_stxfm produces n2 outputs |
| HybridFwdTxfm.StxCoefRounds | av1/encoder/hybrid_fwd_txfm.c:330-331 | each output is the kernel dot product divided by 128, rounded to nearest with ties upwards |
| HybridFwdTxfm.StxOfZero | av1/encoder/hybrid_fwd_txfm.c:314-335 | a zero input gives a zero output whatever the kernel |
| HybridFwdTxfm.FwdStxfm | av1/encoder/hybrid_fwd_txfm.c:314-335 | the first size^2 outputs are StxOut of the inputs and nothing after them changes |
| HybridFwdTxfm.StxOutPrefix | av1/encoder/hybrid_fwd_txfm.c:322-331 | fwd_stxfm reads only the first size^2 inputs |
| HybridFwdTxfm.StxWidth | av1/encoder/hybrid_fwd_txfm.c:340 | the width av1_fwd_stxfm works on is the transform width capped at 32 |
| HybridFwdTxfm.StxHeight | av1/encoder/hybrid_fwd_txfm.c:341 | the height is the transform height capped at 32 |
| HybridFwdTxfm.SbSize | av1/encoder/hybrid_fwd_txfm.c:348 | the 8x8 secondary transform when both sides are at least 8, the 4x4 one otherwise |
| HybridFwdTxfm.Gather | av1/encoder/hybrid_fwd_txfm.c:352-356 | the n2 coefficients gathered through the scan order |
| HybridFwdTxfm.GatherScan | av1/encoder/hybrid_fwd_txfm.c:352-356 | buf0[r] = coeff[scan[r]] for the first n2 entries |
| HybridFwdTxfm.ScatterScan | av1/encoder/hybrid_fwd_txfm.c:361-364 | coeff[scan[i]] = buf1[i]; every coefficient outside the scan keeps its value |
| HybridFwdTxfm.FwdStxfmBlock | av1/encoder/hybrid_fwd_txfm.c:337-366 | with no secondary transform the block is unchanged; otherwise the scanned positions receive the secondary transform of the gathered coefficients and every other coefficient keeps its value |
| Av1Txfm.TrigRow | av1/common/av1_txfm.h:48-54 | cospi_arr and sinpi_arr return the row of cosine precision n, the first for cos_bit_min and the last for cos_bit_max |
| Av1Txfm.RangeCheckValue | av1/common/av1_txfm.h:56-71 | without the clamp compiled in the value is returned unchanged; with it the result lies in the signed range of min(bit, 31) bits and a value already inside is kept |
| Av1Txfm.RoundShift | av1/common/av1_txfm.h:73-76 | the result fits int32 and is the nearest integer to value / 2^bit, ties upward, whenever that fits |
| Av1Txfm.RoundsToUnique | av1/common/av1_txfm.h:73-76 | the rounding has exactly one result |
| Av1Txfm.HalfBtf | av1/common/av1_txfm.h:78-85 | the butterfly half-step is w0 * in0 + w1 * in1 rounded by bit, whenever that fits int32 |
| Av1Txfm.HighbdClipPixelAdd | av1/common/av1_txfm.h:87-90 | the result is a pixel of bit depth bd; for an int32 residual it is dest + trans when that is a pixel, 0 below and the largest pixel above; a residual that is a multiple of 2^32 is cast to 0 and leaves the pixel unchanged |
| Av1Txfm.ClipAddVariantsAgree | av1/common/av1_txfm.h:87-90 | on residuals inside the signed (8 + bd)-bit range this header's highbd_clip_pixel_add equals the aom_dsp one, whose HIGHBD_WRAPLOW changes nothing there |
| Av1Txfm.ClipAddVariantsDiffer | av1/common/av1_txfm.h:87-90 | outside that range the two differ: for dest 0, bd 8 and residual 2^32 this header's variant gives 0 (the int cast wraps) and the aom_dsp variant 255 (the clamp saturates) |
| Av1Txfm.GetFlipCfg | av1/common/av1_txfm.h:134-192 | each flip is 0 or 1; the up-down flip is set exactly when the vertical 1-D transform is FLIPADST and the left-right flip exactly when the horizontal one is; an unknown type fails the assert and flips nothing |
| Av1Txfm.GetRectTxLogRatio | av1/common/av1_txfm.h:196-208 | for the supported ratios col = row * 2^r (or row = col * 2^-r); any other pair fails the assert and gives 0 |
| Av1Txfm.RectTxLogRatioAntisymmetric | av1/common/av1_txfm.h:196-208 | swapping width and height negates the ratio |
| Av1Txfm.DimIdx | av1/common/av1_txfm.h:223-228 | get_txw_idx / get_txh_idx: the size's side is the smallest side times 2^idx |
| InvTxfm.DctConstRoundShift | aom_dsp/inv_txfm.h:25-28 | the Q14 product divided by 2^14, rounded to nearest with ties up |
| InvTxfm.CheckRange | aom_dsp/inv_txfm.h:30-39 | the result lies in the signed (8 + bd)-bit range, keeps a value inside it and saturates one outside |
| InvTxfm.WrapLow | aom_dsp/inv_txfm.h:65 | WRAPLOW without emulation: the result lies in int16 and keeps a value already there |
| InvTxfm.HighbdWrapLow | aom_dsp/inv_txfm.h:67 | HIGHBD_WRAPLOW without emulation: the result lies in the (8 + bd)-bit range and keeps a value already there |
| InvTxfm.WrapLowConfigurationsAgree | aom_dsp/inv_txfm.h:57-67 | the emulated shift pair gives the same result as the plain cast: after check_range nothing wraps |
| InvTxfm.HighbdWrapLowConfigurationsAgree | aom_dsp/inv_txfm.h:59-68 | the same for HIGHBD_WRAPLOW at every bit depth up to 23 |
| InvTxfm.ShiftPairKeeps | aom_dsp/inv_txfm.h:57-60 | a (w + 1)-bit value shifted up by 31 - w bits and back down returns itself |
| InvTxfm.ClipPixelAdd | aom_dsp/inv_txfm.h:98-101 | the result is a pixel; a zero residual keeps the pixel; a residual within int16 whose sum is a pixel gives that sum |
| InvTxfm.HighbdClipPixelAdd | aom_dsp/inv_txfm.h:91-95 | the result is a pixel of bit depth bd |
| InvTxfm.HighbdClipPixelAddZero | aom_dsp/inv_txfm.h:91-95 | adding a zero residual keeps a high-bitdepth pixel |
| InvTxfm.ClipKeepsPixel | aom_dsp/inv_txfm.h:91-95 | a pixel already in range passes the high-bitdepth clip unchanged, and every clip lies in range |
| TxfmCommon.CosPi64 | aom_dsp/txfm_common.h:56-86 | every table cosine lies strictly between 0 and 2^14 |
| TxfmCommon.FdctRoundShift | aom_dsp/txfm_common.h:97-100 | the Q14 product brought back to the integer scale, rounded to nearest with ties up |
| TxfmCommon.RoundingConstants | aom_dsp/txfm_common.h:18-22 | DCT_CONST_ROUNDING is 2^13, half of 2^DCT_CONST_BITS, and UNIT_QUANT_FACTOR is 1 << UNIT_QUANT_SHIFT |
| TxfmCommon.CosPiDecreasing | aom_dsp/txfm_common.h:56-86 | the table cosines fall strictly as the angle grows |
| TxfmCommon.CosPi16IsHalfSqrt2 | aom_dsp/txfm_common.h:71 | cospi_16_64 doubled is the Q14 square root of two |
| TxfmCommon.SinPiSum | aom_dsp/txfm_common.h:89-92 | sinpi_1_9 + sinpi_2_9 = sinpi_4_9, as sin(pi/9) + sin(2pi/9) = sin(4pi/9) |
| EntropyMv.GetMvJoint | av1/common/entropymv.h:110-116 | the joint is zero exactly when both components are, has a vertical part exactly when the row is nonzero and a horizontal part exactly when the column is |
| EntropyMv.MvJointDeterminedByZeros | av1/common/entropymv.h:110-116 | two vectors with the same zero components have the same joint |
| EntropyMv.MvRangeConstants | av1/common/entropymv.h:71-77 | MV_MAX is 2^14 - 1, MV_VALS 2^15 - 1, and the coded range MV_LOW..MV_UPP is -2^14..2^14 - 1 |
| Resize.HasOptimizedScaler | av1/common/resize.h:101-117 | true exactly when both dimensions meet the ratio conditions, or, in SSSE3/NEON builds, the frame is scaled by 3/4 in both |
| Resize.SameSizeQualifies | av1/common/resize.h:101-117 | unscaled frames always qualify |
| Resize.ThreeQuartersNeedsSimd | av1/common/resize.h:101-117 | a 3/4 downscale qualifies only in builds with the dedicated scaler |
| Resize.SuperresScaled | av1/common/resize.h:84-89 | the frame is super-resolution scaled exactly when its coded width differs from its upscaled width |
| Scan.GetCoefContext | av1/common/scan.h:42-47 | the context is the average of the two neighbours' tokens, rounded up |
| Scan.CoefContextSymmetric | av1/common/scan.h:42-47 | the context does not depend on the order of the two neighbours |
| Scan.GetDefaultScan | av1/common/scan.h:49-52 | the scan order of the given size and type |
| Scan.GetScan | av1/common/scan.h:54-56 | get_scan is the default scan |
| EncodeMb.ToUseTrellis | av1/encoder/encodemb.h:134-138 | never without trellis; only in the output pass for the final-pass option; always for any other option |
| EncodeMb.SetTxbContext | av1/encoder/encodemb.h:119-125 | the first wide-unit entries above and high-unit entries left take the block's entropy context; every other entry keeps its value |
| EntropyOptimizer.Csum | tools/aom_entropy_optimizer.c:142-143 | the prefix sum of the first i + 1 counts, each plus one, taken without wrap-around: between i + 1 and (i + 1) * 2^32 |
| EntropyOptimizer.CsumAsWrittenCanBeZero | tools/aom_entropy_optimizer.c:142-148 | with the add-one done in unsigned int, a single count of UINT_MAX makes the total 0, and the scaling divides by it |
| EntropyOptimizer.ScaledFits | tools/aom_entropy_optimizer.c:148 | a prefix sum within the total scales to 0..CDF_PROB_TOP |
| EntropyOptimizer.CsumMonotone | tools/aom_entropy_optimizer.c:143 | the prefix sums grow with i, so none passes the total |
| EntropyOptimizer.RawFits | tools/aom_entropy_optimizer.c:145-148 | before the clamps every entry lies in 0..CDF_PROB_TOP and fits the 16-bit aom_cdf_prob it is stored in |
| EntropyOptimizer.CdfBounds | tools/aom_entropy_optimizer.c:147-151 | entry i lies between 4 * (i + 1) and CDF_PROB_TOP - 4 * (modes - 1 - i), and each entry exceeds the one before by at least 4: a strictly increasing CDF within 16 bits |
| EntropyOptimizer.CountsToCdf | tools/aom_entropy_optimizer.c:137-152 | the first modes entries of cdf are the clamped, scaled prefix sums of the counts; the rest of cdf is untouched |
| EntropyOptimizer.PrefixSums | tools/aom_entropy_optimizer.c:139-143 | the csum array holds the add-one prefix sums of the counts |
| EntropyOptimizer.ParseStats | tools/aom_entropy_optimizer.c:45-104 | a dimension count below 1 fails without consuming anything; otherwise the walk succeeds and consumes exactly the product of the dimensions |
| EntropyOptimizer.Printed | tools/aom_entropy_optimizer.c:171-176 | a CDF of modes entries is printed as its first modes - 1 entries |
| EntropyOptimizer.InnerShape | tools/aom_entropy_optimizer.c:177-190 | dropping the outermost dimension keeps a valid shape, of which the whole holds dims[0] copies |
| EntropyOptimizer.ParseCountsForCdfOpt | tools/aom_entropy_optimizer.c:154-206 | a dimension count below 1 fails without consuming anything; otherwise the walk consumes exactly the product of the dimensions and produces one CDF per innermost vector, in order |
| EntropyOptimizer.LeafCdf | tools/aom_entropy_optimizer.c:162-176 | the leaf converts the next modes counts and yields all but the last CDF entry |

## Left out

- Referrable.FindByKey: requires the stored vector count to be non-negative and every probed key to lie inside the buffer (VectorReadable). `__lookup_by_key` in third_party/tensorflow/tensorflow/lite/tools/make/downloads/flatbuffers/tests/MyGame/Example/Referrable.java:41-60 accepts any stored count; with a negative count, `span / 2` truncates toward zero and the loop reads before the vector start or throws. That path is not modelled.
- Referrable.FindByKey: the Java `int` arithmetic `vectorLocation + 4 * (start + middle)` is taken as unbounded; its 32-bit overflow on vectors near 2^31 bytes is not modelled.
- Referrable: the byte-buffer accessors `__offset` (both forms) and `__indirect` are parameters (the `Runtime` value), because they live in the flatbuffers `Table` class, which is not part of this model; `getRootAsReferrable` (Referrable.java:12-13) and the builder methods (Referrable.java:20-32) only forward to it.
- GopStructure.GfGroup.SetGopRefFrameMap: requires ArfStackFits, that no ARF is pushed onto a full stack of MAX_PYRAMID_LVL entries. av1/encoder/gop_structure.c:228-280 writes past `arf_stack` in that case; the layouts `construct_multi_layer_gf_structure` builds never reach it, but the model does not derive that for arbitrary frame lists.
- GopStructure.GfGroup: the per-frame arrays are sized by the frame list's length, and a write beyond it is a no-op rather than an overrun of MAX_STATIC_GF_GROUP_LENGTH.
- GopStructure: `check_frame_params` (gop_structure.c:123-145), `get_pyramid_height` (gop_structure.c:156-170) and `av1_gop_setup_structure` (gop_structure.c:294-320) are debugging or driver code around the modelled builders and are left out.
- MvrefCommon.DivMult: the 64-entry `div_mult` table is given by its rule, floor(16384 / d) with entry 0 equal to 0 (DivMultEntry), rather than transcribed entry by entry.
- PredCommon: `comp_reference_type_context` (av1/common/pred_common.c:231-299) is not modelled.
- Av1Txfm.HighbdClipPixelAdd: the sum `dest + (int)trans` is taken unbounded; in C it overflows int (undefined behaviour) when the cast residual is within 65535 of INT32_MAX.
- EntropyMode.GetPaletteColorIndexContext: the scores array has PALETTE_MAX_SIZE (8) entries, where the source declares PALETTE_MAX_SIZE + 10; only the first 8 are ever written or read. The NULL check on `color_idx` is not modelled: the colour index is always returned.
- Cfl.LinearRegressionHigh: only the two explicit `int32_t` conversions are modelled (Wrap32); the sums and products in `int64_t` are taken as unbounded, which agrees with the source as long as they do not overflow 64 bits.
- EntropyOptimizer.CountsToCdf: CDF_PROB_TOP is fixed at 32768 (15-bit probabilities).
- EntropyOptimizer.ParseCountsForCdfOpt: models which counts each CDF consumes and the CDF it produces; the binary probabilities of `get_binary_prob_new` are not modelled. `optimize_entropy_table`, `optimize_cdf_table`, `main` and all file I/O and `fprintf` formatting in tools/aom_entropy_optimizer.c are left out.
- Convolve: the range assertions of the rounding stages (av1/common/convolve.c:120 and :137) are not proved; the model keeps the intermediate values unbounded and clips where the source clips.
- Convolve: the `int` position `x_qn` of the scaled convolutions is taken as unbounded; its 32-bit overflow on frames wider than 2^17 pixels is not modelled.
- Convolve: the high-bitdepth 2-D, x, y and jnt variants, `av1_convolve_2d_scale`, the dispatch facade and the Wiener convolution are not modelled; the 8-bit versions carry the same arithmetic.
- EncodeStrategy: `is_frame_droppable` (av1/encoder/encode_strategy.c:149-164) and the sub-GOP step of `get_subgop_step` (encode_strategy.c:54-62) are parameters (`droppable`, `step`).
- EncodeStrategy.SlotMask: `1 << -1` (undefined in C) is taken as the empty mask.
- EncodeStrategy.SetUnmappedRef: with no candidate slot the map is left unchanged, where the source asserts that a candidate exists.
- EncodeStrategy.GetRefreshIdx: returns -1 where the source's assertion would fail (assertions compiled out).
- EncodeStrategy.SortByDisp: `qsort` is modelled by a stable insertion sort; the source does not fix the order of equal display orders, and none occur among distinct slots.
- EncodeStrategy.RefreshIdx: the existence of a refresh slot is stated under the hypothesis that every display order is below INT32_MAX, the sentinel of the search.
- EncodeStrategy: `set_refresh_frame_flags`, `set_additional_frame_flags`, `update_keyframe_counters`, `choose_primary_ref_frame`, `av1_encode_strategy` and the rest of encode_strategy.c outside the reference-map functions drive the encoder and are left out.
- LoopFilter: the raster property of the `get_*_index_shift` helpers holds for offsets below 64 only, which is the range the source uses.
- LoopFilter: the bitmask setup functions, the filter-level lookup of each block and the edge-filtering drivers of av1_loopfilter.c are left out; SetLpfParameters takes the levels, skip flags and transform sizes of the two sides of an edge, and the tile-boundary mark of its position, as inputs.
- TxbCommon: the transform-size tables are the parameters of a TxbConsts value.
- Dering: MAX_DERING_LEVEL is a parameter.
- HybridFwdTxfm: the 2-D transforms are named by the Kernel they dispatch to, not computed; the secondary-transform kernel table is a parameter.
- InvTxfm: the 1-D transforms declared in aom_dsp/inv_txfm.h:73-89 are defined in files that are not part of this model and are left out.
- IntArith: ROUND_POWER_OF_TWO, clamp and the other helpers come from aom_dsp/aom_dsp_common.h, which is not part of this model; they are defined here from their macros' meaning.
- SIMD versions, floating-point code, threading and all I/O of the codec are not modelled.

## Findings

| source | as written | input that shows it | evidently intended | confidence | as-written member | corrected member |
|---|---|---|---|---|---|---|
| av1/common/mvref_common.c:36-38 | the projected component is converted to `int16_t` before clamping, so a large projection wraps | ref component 4095, num 31, den 1 | the projection keeps its sign and is clamped to the MV range | not executed | MvrefCommon.ProjectionAsWrittenFlipsSign | MvrefCommon.ProjectionMirrors |
| av1/common/mvref_common.c:1366-1370 | with MAX_OFFSET_HEIGHT 0 (mvref_common.c:1347) the test `row <= base_blk_row - 0` rejects every projected position on the block's own first row | zero motion at the first row of an 8-row group | a zero-motion block projects onto itself | not executed | MvrefCommon.AsWrittenDropsFirstRow | MvrefCommon.ZeroMotionKept |
| tools/aom_entropy_optimizer.c:142-148 | `counts[i] + 1` in `unsigned int` wraps at UINT_MAX, so the total can be 0 and the scaling divides by zero | counts [UINT_MAX], one mode | every symbol gets a non-zero count and the CDF is well defined | not executed | EntropyOptimizer.CsumAsWrittenCanBeZero | EntropyOptimizer.CountsToCdf |
