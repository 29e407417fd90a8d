/** Context derivation of av1/common/pred_common.c: the palette colour
    cache merged from the above and left neighbours, and the contexts the
    entropy coder uses for the interpolation filter, intra/inter, single
    or compound prediction and the reference frames.

    Configuration: CONFIG_DUAL_FILTER off, CONFIG_EXT_COMP_REFS on. The
    helpers of blockd.h are not part of this model and follow libaom:
    a block is inter when ref_frame[0] > INTRA_FRAME and compound when
    ref_frame[1] > INTRA_FRAME; the reference frames are numbered
    INTRA_FRAME 0, LAST_FRAME 1 .. ALTREF_FRAME 7. */
module PredCommon {
  import opened Wrappers
  import opened IntArith

  const PALETTE_MAX_SIZE: int := 8
  const MIN_SB_SIZE_LOG2: int := 6
  const SWITCHABLE_FILTERS: int := 3

  const INTRA_FRAME: int := 0
  const LAST_FRAME: int := 1
  const LAST2_FRAME: int := 2
  const LAST3_FRAME: int := 3
  const GOLDEN_FRAME: int := 4
  const BWDREF_FRAME: int := 5
  const ALTREF2_FRAME: int := 6
  const ALTREF_FRAME: int := 7
  const TOTAL_REFS_PER_FRAME: int := 8

  const COMP_INTER_CONTEXTS: int := 5
  const REF_CONTEXTS: int := 5
  const COMP_REF_CONTEXTS: int := 3
  const UNI_COMP_REF_CONTEXTS: int := 3

  /** The fields of a neighbour's MB_MODE_INFO the contexts read. */
  datatype MbInfo = MbInfo(refFrame0: int, refFrame1: int, interpFilter: int,
                           paletteSize: seq<int>, paletteColors: seq<int>)
  {
    predicate Valid()
    {
      |paletteSize| == 2 && |paletteColors| == 3 * PALETTE_MAX_SIZE
      && (forall k :: 0 <= k < 2 ==> 0 <= paletteSize[k] <= PALETTE_MAX_SIZE)
    }

    /** is_inter_block */
    predicate IsInter()
    {
      refFrame0 > INTRA_FRAME
    }

    /** has_second_ref */
    predicate HasSecondRef()
    {
      refFrame1 > INTRA_FRAME
    }
  }

  /** A neighbour: None when the edge is not available (up_available or
      left_available clear). */
  type Neighbor = Option<MbInfo>

  // ---------------------------------------------------------------------
  // Palette cache

  predicate NonDecreasing(s: seq<int>)
  {
    forall i, j :: 0 <= i < j < |s| ==> s[i] <= s[j]
  }

  predicate StrictlyIncreasing(s: seq<int>)
  {
    forall i, j :: 0 <= i < j < |s| ==> s[i] < s[j]
  }

  /** palette_add_to_cache: appends the value unless it repeats the last
      one. */
  function AddToCache(c: seq<int>, v: int): (r: seq<int>)
    ensures |c| <= |r| <= |c| + 1
    ensures r[..|c|] == c && v in r
    ensures |c| > 0 && v == c[|c| - 1] ==> r == c
  {
    if |c| > 0 && v == c[|c| - 1] then c else c + [v]
  }

  /** Adding the values one after the other. */
  function AddAll(c: seq<int>, vs: seq<int>): seq<int>
    decreases |vs|
  {
    if vs == [] then c else AddAll(AddToCache(c, vs[0]), vs[1..])
  }

  lemma AddAllCons(c: seq<int>, v: int, vs: seq<int>)
    ensures AddAll(c, [v] + vs) == AddAll(AddToCache(c, v), vs)
  {
    assert ([v] + vs)[1..] == vs;
  }

  /** The order in which av1_get_palette_cache visits the colours: the
      smaller head first, and a value on both heads once, taken from
      above. */
  function MergeColors(a: seq<int>, l: seq<int>): seq<int>
    decreases |a| + |l|
  {
    if a == [] then l
    else if l == [] then a
    else if l[0] < a[0] then [l[0]] + MergeColors(a, l[1..])
    else if l[0] == a[0] then [a[0]] + MergeColors(a[1..], l[1..])
    else [a[0]] + MergeColors(a[1..], l)
  }

  /** The cache av1_get_palette_cache builds from the above and left
      colour lists. */
  function PaletteCache(a: seq<int>, l: seq<int>): seq<int>
  {
    AddAll([], MergeColors(a, l))
  }

  lemma {:induction false} MergeElements(a: seq<int>, l: seq<int>)
    ensures forall x :: x in MergeColors(a, l) <==> x in a || x in l
    ensures |MergeColors(a, l)| <= |a| + |l|
    decreases |a| + |l|
  {
    if a == [] || l == [] {
    } else if l[0] < a[0] {
      MergeElements(a, l[1..]);
      assert l == [l[0]] + l[1..];
    } else if l[0] == a[0] {
      MergeElements(a[1..], l[1..]);
      assert a == [a[0]] + a[1..];
      assert l == [l[0]] + l[1..];
    } else {
      MergeElements(a[1..], l);
      assert a == [a[0]] + a[1..];
    }
  }

  lemma {:induction false} MergeSorted(a: seq<int>, l: seq<int>)
    requires NonDecreasing(a) && NonDecreasing(l)
    ensures NonDecreasing(MergeColors(a, l))
    decreases |a| + |l|
  {
    if a == [] || l == [] {
    } else {
      var m := MergeColors(a, l);
      if l[0] < a[0] {
        MergeSorted(a, l[1..]);
        MergeElements(a, l[1..]);
        HeadBelowRest(l[0], MergeColors(a, l[1..]), a, l[1..]);
      } else if l[0] == a[0] {
        MergeSorted(a[1..], l[1..]);
        MergeElements(a[1..], l[1..]);
        HeadBelowRest(a[0], MergeColors(a[1..], l[1..]), a[1..], l[1..]);
      } else {
        MergeSorted(a[1..], l);
        MergeElements(a[1..], l);
        HeadBelowRest(a[0], MergeColors(a[1..], l), a[1..], l);
      }
    }
  }

  /** A value at or below every element of both lists may be put in front
      of any list made of their elements. */
  lemma HeadBelowRest(h: int, rest: seq<int>, a: seq<int>, l: seq<int>)
    requires NonDecreasing(rest)
    requires forall x :: x in rest ==> x in a || x in l
    requires forall x :: x in a ==> h <= x
    requires forall x :: x in l ==> h <= x
    ensures NonDecreasing([h] + rest)
  {
    var s := [h] + rest;
    forall i, j | 0 <= i < j < |s|
      ensures s[i] <= s[j]
    {
      if i > 0 {
        assert s[i] == rest[i - 1] && s[j] == rest[j - 1];
      } else {
        assert s[j] in rest;
      }
    }
  }

  lemma {:induction false} AddAllElements(c: seq<int>, vs: seq<int>)
    ensures forall x :: x in AddAll(c, vs) <==> x in c || x in vs
    ensures |AddAll(c, vs)| <= |c| + |vs|
    decreases |vs|
  {
    if vs != [] {
      var c2 := AddToCache(c, vs[0]);
      AddAllElements(c2, vs[1..]);
      assert vs == [vs[0]] + vs[1..];
      assert forall x :: x in c2 <==> x in c || x == vs[0];
    }
  }

  /** Adding non-decreasing values that start at or above the last entry
      keeps a strictly increasing cache strictly increasing. */
  lemma {:induction false} AddAllStrict(c: seq<int>, vs: seq<int>)
    requires StrictlyIncreasing(c) && NonDecreasing(vs)
    requires |c| > 0 && |vs| > 0 ==> c[|c| - 1] <= vs[0]
    ensures StrictlyIncreasing(AddAll(c, vs))
    decreases |vs|
  {
    if vs != [] {
      var c2 := AddToCache(c, vs[0]);
      assert StrictlyIncreasing(c2);
      assert |c2| > 0 && c2[|c2| - 1] == vs[0];
      assert NonDecreasing(vs[1..]);
      if |vs| > 1 {
        assert vs[0] <= vs[1];
      }
      AddAllStrict(c2, vs[1..]);
    }
  }

  /** From ascending neighbour palettes the cache is strictly increasing,
      holds exactly the colours of both, and has at most
      2 * PALETTE_MAX_SIZE entries. */
  lemma PaletteCacheSortedUnion(a: seq<int>, l: seq<int>)
    requires NonDecreasing(a) && NonDecreasing(l)
    ensures StrictlyIncreasing(PaletteCache(a, l))
    ensures forall x :: x in PaletteCache(a, l) <==> x in a || x in l
    ensures |PaletteCache(a, l)| <= |a| + |l|
  {
    MergeSorted(a, l);
    MergeElements(a, l);
    AddAllStrict([], MergeColors(a, l));
    AddAllElements([], MergeColors(a, l));
  }

  lemma PaletteCacheLength(a: seq<int>, l: seq<int>)
    ensures |PaletteCache(a, l)| <= |a| + |l|
  {
    MergeElements(a, l);
    AddAllElements([], MergeColors(a, l));
  }

  /** palette_size[plane != 0] of a neighbour, 0 when it is absent. */
  function PaletteSize(nb: Neighbor, plane: int): (n: int)
    requires nb.Some? ==> nb.value.Valid()
    ensures 0 <= n <= PALETTE_MAX_SIZE
  {
    if nb.Some? then nb.value.paletteSize[if plane != 0 then 1 else 0] else 0
  }

  /** palette_colors of a neighbour, empty when it is absent. */
  function PaletteColors(nb: Neighbor): seq<int>
  {
    if nb.Some? then nb.value.paletteColors else []
  }

  /** The colours of a neighbour's palette for the plane (none when the
      neighbour is absent). */
  function NeighborColors(nb: Neighbor, plane: int): (cs: seq<int>)
    requires nb.Some? ==> nb.value.Valid()
    requires 0 <= plane <= 2
    ensures |cs| <= PALETTE_MAX_SIZE
  {
    if nb.None? then []
    else
      var n := PaletteSize(nb, plane);
      nb.value.paletteColors[plane * PALETTE_MAX_SIZE .. plane * PALETTE_MAX_SIZE + n]
  }

  /** The above neighbour counts only inside the superblock row: its row
      (in pixels, -mb_to_top_edge >> 3) must not be a multiple of 64. */
  function AboveInSb(above: Neighbor, mbToTopEdge: int): Neighbor
  {
    var row := (-mbToTopEdge) / 8;
    if row % Pow2(MIN_SB_SIZE_LOG2) != 0 then above else None
  }

  /** palette_add_to_cache on the cache array and its fill count. */
  method PaletteAddToCache(cache: array<int>, n: int, val: int) returns (n2: int)
    requires 0 <= n < cache.Length
    modifies cache
    ensures n <= n2 <= n + 1
    ensures cache[..n2] == AddToCache(old(cache[..n]), val)
    ensures forall k :: 0 <= k < cache.Length && k != n ==> cache[k] == old(cache[k])
  {
    if n > 0 && val == cache[n - 1] {
      return n;
    }
    cache[n] := val;
    n2 := n + 1;
    assert cache[..n2] == old(cache[..n]) + [val];
  }

  /** The cache c, completed by merging what is left of both lists,
      gives final. */
  ghost predicate Pending(c: seq<int>, ra: seq<int>, rl: seq<int>, final: seq<int>)
  {
    AddAll(c, MergeColors(ra, rl)) == final
  }

  /** One step of the merge, as the first loop of av1_get_palette_cache
      takes it. */
  lemma MergeStep(c: seq<int>, ra: seq<int>, rl: seq<int>, final: seq<int>)
    requires ra != [] && rl != [] && Pending(c, ra, rl, final)
    ensures rl[0] < ra[0] ==> Pending(AddToCache(c, rl[0]), ra, rl[1..], final)
    ensures rl[0] == ra[0] ==> Pending(AddToCache(c, ra[0]), ra[1..], rl[1..], final)
    ensures rl[0] > ra[0] ==> Pending(AddToCache(c, ra[0]), ra[1..], rl, final)
  {
    if rl[0] < ra[0] {
      AddAllCons(c, rl[0], MergeColors(ra, rl[1..]));
    } else if rl[0] == ra[0] {
      AddAllCons(c, ra[0], MergeColors(ra[1..], rl[1..]));
    } else {
      AddAllCons(c, ra[0], MergeColors(ra[1..], rl));
    }
  }

  /** A non-empty cs is the run of colours from base on. */
  predicate Slice(cs: seq<int>, colors: seq<int>, base: int)
  {
    cs != [] ==> 0 <= base && base + |cs| <= |colors| && cs == colors[base..base + |cs|]
  }

  lemma SliceTail(cs: seq<int>, colors: seq<int>, base: int)
    requires Slice(cs, colors, base) && cs != []
    ensures colors[base] == cs[0] && Slice(cs[1..], colors, base + 1)
  {
    assert cs[1..] == colors[base + 1..base + |cs|];
  }

  lemma NeighborSlice(nb: Neighbor, plane: int)
    requires nb.Some? ==> nb.value.Valid()
    requires 0 <= plane <= 2
    ensures Slice(NeighborColors(nb, plane), PaletteColors(nb), plane * PALETTE_MAX_SIZE)
    ensures |NeighborColors(nb, plane)| == PaletteSize(nb, plane)
  {
  }

  /** av1_get_palette_cache: the number of colours written to cache, which
      then holds the palette cache of the two neighbours. */
  method GetPaletteCache(aboveMi: Neighbor, leftMi: Neighbor, mbToTopEdge: int, plane: int, cache: array<int>)
    returns (n: int)
    requires aboveMi.Some? ==> aboveMi.value.Valid()
    requires leftMi.Some? ==> leftMi.value.Valid()
    requires 0 <= plane <= 2 && 2 * PALETTE_MAX_SIZE <= cache.Length
    modifies cache
    ensures 0 <= n <= 2 * PALETTE_MAX_SIZE
    ensures cache[..n] == PaletteCache(NeighborColors(AboveInSb(aboveMi, mbToTopEdge), plane), NeighborColors(leftMi, plane))
    ensures PaletteSize(AboveInSb(aboveMi, mbToTopEdge), plane) == 0 && PaletteSize(leftMi, plane) == 0 ==> n == 0
    ensures NonDecreasing(NeighborColors(AboveInSb(aboveMi, mbToTopEdge), plane)) ==>
      NonDecreasing(NeighborColors(leftMi, plane)) ==>
      StrictlyIncreasing(cache[..n])
  {
    var above := AboveInSb(aboveMi, mbToTopEdge);
    var aboveN, leftN := PaletteSize(above, plane), PaletteSize(leftMi, plane);
    if aboveN == 0 && leftN == 0 {
      return 0;
    }
    NeighborSlice(above, plane);
    NeighborSlice(leftMi, plane);
    ghost var a, l := NeighborColors(above, plane), NeighborColors(leftMi, plane);
    n := MergeIntoCache(cache, PaletteColors(above), plane * PALETTE_MAX_SIZE, aboveN,
                        PaletteColors(leftMi), plane * PALETTE_MAX_SIZE, leftN, a, l);
    if NonDecreasing(a) && NonDecreasing(l) {
      PaletteCacheSortedUnion(a, l);
    }
  }

  /** The merge loops of av1_get_palette_cache: aboveN colours of
      aboveColors from aboveIdx on and leftN colours of leftColors from
      leftIdx on (the lists a and l) are added to an empty cache in merge
      order. */
  method MergeIntoCache(cache: array<int>, aboveColors: seq<int>, aboveIdx: int, aboveN: int,
                        leftColors: seq<int>, leftIdx: int, leftN: int, ghost a: seq<int>, ghost l: seq<int>)
    returns (n: int)
    requires Slice(a, aboveColors, aboveIdx) && aboveN == |a|
    requires Slice(l, leftColors, leftIdx) && leftN == |l|
    requires |a| + |l| <= cache.Length
    modifies cache
    ensures 0 <= n <= |a| + |l|
    ensures cache[..n] == PaletteCache(a, l)
  {
    ghost var final := PaletteCache(a, l);
    var aboveIdx, aboveN, leftIdx, leftN := aboveIdx, aboveN, leftIdx, leftN;
    n := 0;
    ghost var ra, rl := a, l;
    while aboveN > 0 && leftN > 0
      invariant Slice(ra, aboveColors, aboveIdx) && aboveN == |ra|
      invariant Slice(rl, leftColors, leftIdx) && leftN == |rl|
      invariant 0 <= n <= (|a| - |ra|) + (|l| - |rl|)
      invariant Pending(cache[..n], ra, rl, final)
      decreases aboveN + leftN
    {
      var vAbove := aboveColors[aboveIdx];
      var vLeft := leftColors[leftIdx];
      MergeStep(cache[..n], ra, rl, final);
      SliceTail(ra, aboveColors, aboveIdx);
      SliceTail(rl, leftColors, leftIdx);
      if vLeft < vAbove {
        n := PaletteAddToCache(cache, n, vLeft);
        assert Pending(cache[..n], ra, rl[1..], final);
        leftIdx, leftN, rl := leftIdx + 1, leftN - 1, rl[1..];
      } else {
        n := PaletteAddToCache(cache, n, vAbove);
        assert Pending(cache[..n], ra[1..], if vLeft == vAbove then rl[1..] else rl, final);
        aboveIdx, aboveN, ra := aboveIdx + 1, aboveN - 1, ra[1..];
        if vLeft == vAbove {
          leftIdx, leftN, rl := leftIdx + 1, leftN - 1, rl[1..];
        }
      }
    }
    if aboveN > 0 {
      n := AddRest(cache, n, aboveColors, aboveIdx, aboveN, ra, rl, final);
    } else {
      n := AddRest(cache, n, leftColors, leftIdx, leftN, rl, ra, final);
    }
  }

  /** The two trailing loops of av1_get_palette_cache: once one list is
      used up, the cnt colours left of the other (rest) are added in
      order. */
  method AddRest(cache: array<int>, n0: int, colors: seq<int>, idx: int, cnt: int,
                 ghost rest: seq<int>, ghost done: seq<int>, ghost final: seq<int>)
    returns (n: int)
    requires Slice(rest, colors, idx) && cnt == |rest| && done == []
    requires 0 <= n0 && n0 + |rest| <= cache.Length
    requires Pending(cache[..n0], rest, done, final) || Pending(cache[..n0], done, rest, final)
    modifies cache
    ensures n0 <= n <= n0 + |rest|
    ensures cache[..n] == final
  {
    ghost var r := rest;
    var idx, cnt := idx, cnt;
    n := n0;
    MergeEmpty(rest);
    while cnt > 0
      invariant Slice(r, colors, idx) && cnt == |r|
      invariant n0 <= n <= n0 + |rest| - |r|
      invariant AddAll(cache[..n], r) == final
    {
      var val := colors[idx];
      SliceTail(r, colors, idx);
      AddAllCons(cache[..n], r[0], r[1..]);
      assert r == [r[0]] + r[1..];
      idx := idx + 1;
      n := PaletteAddToCache(cache, n, val);
      cnt, r := cnt - 1, r[1..];
    }
  }

  lemma MergeEmpty(s: seq<int>)
    ensures MergeColors(s, []) == s && MergeColors([], s) == s
  {
  }

  // ---------------------------------------------------------------------
  // Neighbour contexts

  /** A C truth value used as a number. */
  function B2I(b: bool): int
  {
    if b then 1 else 0
  }

  /** CHECK_BACKWARD_REFS: BWDREF_FRAME .. ALTREF_FRAME. */
  predicate IsBackward(r: int)
  {
    BWDREF_FRAME <= r <= ALTREF_FRAME
  }

  /** The filter type a neighbour contributes: its filter when it is an
      inter block, SWITCHABLE_FILTERS otherwise. */
  function FilterType(nb: Neighbor): int
  {
    if nb.Some? && nb.value.IsInter() then nb.value.interpFilter else SWITCHABLE_FILTERS
  }

  /** av1_get_pred_context_switchable_interp without dual filter. */
  function SwitchableInterpContext(above: Neighbor, left: Neighbor): (ctx: int)
    ensures FilterType(left) == FilterType(above) ==> ctx == FilterType(left)
    ensures FilterType(left) == SWITCHABLE_FILTERS ==> ctx == FilterType(above)
    ensures FilterType(above) == SWITCHABLE_FILTERS ==> ctx == FilterType(left)
    ensures FilterType(left) != FilterType(above) ==>
      FilterType(left) != SWITCHABLE_FILTERS ==>
      FilterType(above) != SWITCHABLE_FILTERS ==>
      ctx == SWITCHABLE_FILTERS
  {
    var leftType := FilterType(left);
    var aboveType := FilterType(above);
    if leftType == aboveType then leftType
    else if leftType == SWITCHABLE_FILTERS then aboveType
    else if aboveType == SWITCHABLE_FILTERS then leftType
    else SWITCHABLE_FILTERS
  }

  /** A filter other than SWITCHABLE_FILTERS is predicted only when an
      available inter neighbour uses it, and the context does not depend
      on which side is which. */
  lemma SwitchableInterpMeaning(above: Neighbor, left: Neighbor)
    ensures var ctx := SwitchableInterpContext(above, left);
      ctx != SWITCHABLE_FILTERS ==>
        (above.Some? && above.value.IsInter() && above.value.interpFilter == ctx)
        || (left.Some? && left.value.IsInter() && left.value.interpFilter == ctx)
    ensures SwitchableInterpContext(above, left) == SwitchableInterpContext(left, above)
  {
  }

  /** av1_get_intra_inter_context, by the table of its header comment:
      0 inter/inter, inter/--, --/inter, --/--; 1 intra/inter, inter/intra;
      2 intra/--, --/intra; 3 intra/intra. */
  function IntraInterContext(above: Neighbor, left: Neighbor): (ctx: int)
    ensures above.Some? && left.Some? ==>
      (ctx == 3 <==> !above.value.IsInter() && !left.value.IsInter())
      && (ctx == 1 <==> !above.value.IsInter() != !left.value.IsInter())
      && (ctx == 0 <==> above.value.IsInter() && left.value.IsInter())
    ensures above.Some? != left.Some? ==>
      var edge := if above.Some? then above.value else left.value;
      (ctx == 2 <==> !edge.IsInter()) && (ctx == 0 <==> edge.IsInter())
    ensures above.None? && left.None? ==> ctx == 0
    ensures 0 <= ctx <= 3
  {
    match (above, left)
    case (Some(a), Some(l)) =>
      var aboveIntra := !a.IsInter();
      var leftIntra := !l.IsInter();
      if leftIntra && aboveIntra then 3 else B2I(leftIntra || aboveIntra)
    case (Some(a), None) => 2 * B2I(!a.IsInter())
    case (None, Some(l)) => 2 * B2I(!l.IsInter())
    case (None, None) => 0
  }

  /** av1_get_reference_mode_context: the context for coding single or
      compound prediction. */
  function ReferenceModeContext(above: Neighbor, left: Neighbor): (ctx: int)
    ensures 0 <= ctx < COMP_INTER_CONTEXTS
    ensures above.None? && left.None? ==> ctx == 1
    ensures ctx == 4 <==> above.Some? && left.Some? && above.value.HasSecondRef() && left.value.HasSecondRef()
    ensures above.Some? != left.Some? ==>
      var edge := if above.Some? then above.value else left.value;
      (ctx == 3 <==> edge.HasSecondRef())
  {
    match (above, left)
    case (Some(a), Some(l)) =>
      if !a.HasSecondRef() && !l.HasSecondRef() then
        B2I(IsBackward(a.refFrame0) != IsBackward(l.refFrame0))
      else if !a.HasSecondRef() then
        2 + B2I(IsBackward(a.refFrame0) || !a.IsInter())
      else if !l.HasSecondRef() then
        2 + B2I(IsBackward(l.refFrame0) || !l.IsInter())
      else 4
    case (Some(a), None) => if !a.HasSecondRef() then B2I(IsBackward(a.refFrame0)) else 3
    case (None, Some(l)) => if !l.HasSecondRef() then B2I(IsBackward(l.refFrame0)) else 3
    case (None, None) => 1
  }

  lemma ReferenceModeSymmetric(above: Neighbor, left: Neighbor)
    ensures ReferenceModeContext(above, left) == ReferenceModeContext(left, above)
    ensures IntraInterContext(above, left) == IntraInterContext(left, above)
  {
  }

  // Count voting over neighbors_ref_counts.

  /** Votes one count against another: 1 on a tie, 0 when the first is
      smaller, 2 when it is larger. */
  function Vote(first: int, second: int): (ctx: int)
    ensures ctx == 1 <==> first == second
    ensures ctx == 0 <==> first < second
    ensures ctx == 2 <==> first > second
  {
    if first == second then 1 else if first < second then 0 else 2
  }

  /** Swapping the two sides mirrors the context around 1. */
  lemma VoteMirror(first: int, second: int)
    ensures Vote(first, second) + Vote(second, first) == 2
  {
  }

  /** One more vote for the first side never lowers the context. */
  lemma VoteMonotone(first: int, first2: int, second: int)
    requires first <= first2
    ensures Vote(first, second) <= Vote(first2, second)
  {
  }

  /** The sum of the neighbour counts of reference frames lo .. hi-1. */
  function Count(refCounts: seq<int>, lo: int, hi: int): int
    requires 0 <= lo <= hi <= |refCounts|
    decreases hi - lo
  {
    if lo == hi then 0 else refCounts[lo] + Count(refCounts, lo + 1, hi)
  }

  lemma {:induction false} CountSplit(refCounts: seq<int>, lo: int, mid: int, hi: int)
    requires 0 <= lo <= mid <= hi <= |refCounts|
    ensures Count(refCounts, lo, hi) == Count(refCounts, lo, mid) + Count(refCounts, mid, hi)
    decreases mid - lo
  {
    if lo < mid {
      CountSplit(refCounts, lo + 1, mid, hi);
    }
  }

  /** neighbors_ref_counts: one count per reference frame. */
  predicate RefCountsValid(refCounts: seq<int>)
  {
    |refCounts| == TOTAL_REFS_PER_FRAME && forall i :: 0 <= i < |refCounts| ==> 0 <= refCounts[i]
  }

  /** av1_get_pred_context_uni_comp_ref_p: forward (LAST .. GOLDEN)
      against backward (BWDREF .. ALTREF) counts. */
  function UniCompRefContext(refCounts: seq<int>): (ctx: int)
    requires RefCountsValid(refCounts)
    ensures 0 <= ctx < UNI_COMP_REF_CONTEXTS
    ensures ctx == 0 <==> Count(refCounts, LAST_FRAME, BWDREF_FRAME) < Count(refCounts, BWDREF_FRAME, TOTAL_REFS_PER_FRAME)
    ensures ctx == 2 <==> Count(refCounts, LAST_FRAME, BWDREF_FRAME) > Count(refCounts, BWDREF_FRAME, TOTAL_REFS_PER_FRAME)
  {
    var frfCount := refCounts[LAST_FRAME] + refCounts[LAST2_FRAME] + refCounts[LAST3_FRAME] + refCounts[GOLDEN_FRAME];
    var brfCount := refCounts[BWDREF_FRAME] + refCounts[ALTREF2_FRAME] + refCounts[ALTREF_FRAME];
    Vote(frfCount, brfCount)
  }

  /** av1_get_pred_context_uni_comp_ref_p1: LAST2 against LAST3 + GOLDEN. */
  function UniCompRefP1Context(refCounts: seq<int>): (ctx: int)
    requires RefCountsValid(refCounts)
    ensures 0 <= ctx < UNI_COMP_REF_CONTEXTS
    ensures ctx == 0 <==> refCounts[LAST2_FRAME] < refCounts[LAST3_FRAME] + refCounts[GOLDEN_FRAME]
    ensures ctx == 2 <==> refCounts[LAST2_FRAME] > refCounts[LAST3_FRAME] + refCounts[GOLDEN_FRAME]
  {
    Vote(refCounts[LAST2_FRAME], refCounts[LAST3_FRAME] + refCounts[GOLDEN_FRAME])
  }

  /** av1_get_pred_context_uni_comp_ref_p2 and comp_ref_p2: LAST3 against
      GOLDEN. */
  function Last3OrGoldenContext(refCounts: seq<int>): (ctx: int)
    requires RefCountsValid(refCounts)
    ensures 0 <= ctx < COMP_REF_CONTEXTS && 0 <= ctx < UNI_COMP_REF_CONTEXTS
    ensures ctx == 0 <==> refCounts[LAST3_FRAME] < refCounts[GOLDEN_FRAME]
    ensures ctx == 2 <==> refCounts[LAST3_FRAME] > refCounts[GOLDEN_FRAME]
  {
    Vote(refCounts[LAST3_FRAME], refCounts[GOLDEN_FRAME])
  }

  /** av1_get_pred_context_comp_ref_p: LAST + LAST2 against LAST3 +
      GOLDEN. */
  function CompRefContext(refCounts: seq<int>): (ctx: int)
    requires RefCountsValid(refCounts)
    ensures 0 <= ctx < COMP_REF_CONTEXTS
    ensures ctx == 0 <==> refCounts[LAST_FRAME] + refCounts[LAST2_FRAME] < refCounts[LAST3_FRAME] + refCounts[GOLDEN_FRAME]
    ensures ctx == 2 <==> refCounts[LAST_FRAME] + refCounts[LAST2_FRAME] > refCounts[LAST3_FRAME] + refCounts[GOLDEN_FRAME]
  {
    Vote(refCounts[LAST_FRAME] + refCounts[LAST2_FRAME], refCounts[LAST3_FRAME] + refCounts[GOLDEN_FRAME])
  }

  /** av1_get_pred_context_comp_ref_p1: LAST against LAST2. */
  function CompRefP1Context(refCounts: seq<int>): (ctx: int)
    requires RefCountsValid(refCounts)
    ensures 0 <= ctx < COMP_REF_CONTEXTS
    ensures ctx == 0 <==> refCounts[LAST_FRAME] < refCounts[LAST2_FRAME]
    ensures ctx == 2 <==> refCounts[LAST_FRAME] > refCounts[LAST2_FRAME]
  {
    Vote(refCounts[LAST_FRAME], refCounts[LAST2_FRAME])
  }

  /** get_pred_context_brfarf2_or_arf (comp_bwdref_p, single_ref_p2):
      BWDREF + ALTREF2 against ALTREF. */
  function BwdOrAltref2VsAltrefContext(refCounts: seq<int>): (ctx: int)
    requires RefCountsValid(refCounts)
    ensures 0 <= ctx < COMP_REF_CONTEXTS
    ensures ctx == 0 <==> refCounts[BWDREF_FRAME] + refCounts[ALTREF2_FRAME] < refCounts[ALTREF_FRAME]
    ensures ctx == 2 <==> refCounts[BWDREF_FRAME] + refCounts[ALTREF2_FRAME] > refCounts[ALTREF_FRAME]
  {
    Vote(refCounts[BWDREF_FRAME] + refCounts[ALTREF2_FRAME], refCounts[ALTREF_FRAME])
  }

  /** get_pred_context_brf_or_arf2 (comp_bwdref_p1, single_ref_p6):
      BWDREF against ALTREF2. */
  function BwdVsAltref2Context(refCounts: seq<int>): (ctx: int)
    requires RefCountsValid(refCounts)
    ensures 0 <= ctx < COMP_REF_CONTEXTS
    ensures ctx == 0 <==> refCounts[BWDREF_FRAME] < refCounts[ALTREF2_FRAME]
    ensures ctx == 2 <==> refCounts[BWDREF_FRAME] > refCounts[ALTREF2_FRAME]
  {
    Vote(refCounts[BWDREF_FRAME], refCounts[ALTREF2_FRAME])
  }

  /** The votes of the forward tree agree with the uni-directional one: the
      two groups of comp_ref_p together are the forward frames of
      uni_comp_ref_p, and an empty neighbourhood ties every vote. */
  lemma VoteGroups(refCounts: seq<int>)
    requires RefCountsValid(refCounts)
    ensures Count(refCounts, LAST_FRAME, BWDREF_FRAME)
            == (refCounts[LAST_FRAME] + refCounts[LAST2_FRAME]) + (refCounts[LAST3_FRAME] + refCounts[GOLDEN_FRAME])
    ensures Count(refCounts, BWDREF_FRAME, TOTAL_REFS_PER_FRAME)
            == (refCounts[BWDREF_FRAME] + refCounts[ALTREF2_FRAME]) + refCounts[ALTREF_FRAME]
  {
    CountSplit(refCounts, LAST_FRAME, LAST3_FRAME, BWDREF_FRAME);
  }

  /** With no neighbour references every vote is a tie. */
  lemma NoNeighborsTie(refCounts: seq<int>)
    requires RefCountsValid(refCounts)
    requires forall i :: 0 <= i < |refCounts| ==> refCounts[i] == 0
    ensures UniCompRefContext(refCounts) == 1 && UniCompRefP1Context(refCounts) == 1
    ensures Last3OrGoldenContext(refCounts) == 1 && CompRefContext(refCounts) == 1
    ensures CompRefP1Context(refCounts) == 1 && BwdOrAltref2VsAltrefContext(refCounts) == 1
    ensures BwdVsAltref2Context(refCounts) == 1
  {
  }

  // Single reference contexts.

  /** av1_get_pred_context_single_ref_p1: whether the single reference is
      a forward or a backward frame. */
  function SingleRefP1Context(above: Neighbor, left: Neighbor): (ctx: int)
    ensures 0 <= ctx < REF_CONTEXTS
    ensures above.None? && left.None? ==> ctx == 2
  {
    match (above, left)
    case (Some(a), Some(l)) =>
      var aboveIntra := !a.IsInter();
      var leftIntra := !l.IsInter();
      if aboveIntra && leftIntra then 2
      else if aboveIntra || leftIntra then
        var edge := if aboveIntra then l else a;
        if !edge.HasSecondRef() then 4 * B2I(!IsBackward(edge.refFrame0)) else 2
      else if a.HasSecondRef() && l.HasSecondRef() then 2
      else if a.HasSecondRef() || l.HasSecondRef() then
        var rfs := if !a.HasSecondRef() then a.refFrame0 else l.refFrame0;
        if !IsBackward(rfs) then 4 else 1
      else 2 * B2I(!IsBackward(a.refFrame0)) + 2 * B2I(!IsBackward(l.refFrame0))
    case (Some(a), None) => OneEdgeP1(a)
    case (None, Some(l)) => OneEdgeP1(l)
    case (None, None) => 2
  }

  function OneEdgeP1(edge: MbInfo): (ctx: int)
    ensures 0 <= ctx < REF_CONTEXTS
  {
    if !edge.IsInter() then 2
    else if !edge.HasSecondRef() then 4 * B2I(!IsBackward(edge.refFrame0))
    else 2
  }

  /** An available single-reference inter neighbour whose frame is a
      forward one. */
  predicate SingleForward(nb: Neighbor)
  {
    nb.Some? && nb.value.IsInter() && !nb.value.HasSecondRef() && !IsBackward(nb.value.refFrame0)
  }

  /** An available inter neighbour that is compound or refers to a
      backward frame. */
  predicate CompOrBackward(nb: Neighbor)
  {
    nb.Some? && nb.value.IsInter() && (nb.value.HasSecondRef() || IsBackward(nb.value.refFrame0))
  }

  /** The extreme contexts of single_ref_p1 have a witness: 4 needs a
      neighbour predicting from a forward frame alone, and 0 one predicting
      from a backward frame with no forward one beside it. The context is
      the same with the sides swapped. */
  lemma SingleRefP1Meaning(above: Neighbor, left: Neighbor)
    ensures SingleRefP1Context(above, left) == 4 ==> SingleForward(above) || SingleForward(left)
    ensures SingleRefP1Context(above, left) == 0 ==>
      !SingleForward(above) && !SingleForward(left) && (CompOrBackward(above) || CompOrBackward(left))
    ensures SingleRefP1Context(above, left) == SingleRefP1Context(left, above)
  {
  }

  /** The three forward splits of the single reference tree:
      single_ref_p3 (LAST/LAST2 against LAST3/GOLDEN), single_ref_p4 (LAST
      against LAST2) and single_ref_p5 (LAST3 against GOLDEN). */
  datatype Split = P3 | P4 | P5

  /** The frame the context predicts. */
  predicate Target(split: Split, r: int)
  {
    match split
    case P3 => r == LAST_FRAME || r == LAST2_FRAME
    case P4 => r == LAST_FRAME
    case P5 => r == LAST3_FRAME
  }

  /** The alternative of the split. */
  predicate Other(split: Split, r: int)
  {
    match split
    case P3 => r == LAST3_FRAME || r == GOLDEN_FRAME
    case P4 => r == LAST2_FRAME
    case P5 => r == GOLDEN_FRAME
  }

  /** Frames outside the split: CHECK_BACKWARD_REFS for p3, not
      CHECK_LAST_OR_LAST2 for p4, not CHECK_GOLDEN_OR_LAST3 for p5. */
  predicate Outside(split: Split, r: int)
  {
    match split
    case P3 => IsBackward(r)
    case P4 => !(r == LAST_FRAME || r == LAST2_FRAME)
    case P5 => !(r == GOLDEN_FRAME || r == LAST3_FRAME)
  }

  /** Some frame of a compound neighbour is the target. */
  predicate CompTarget(split: Split, m: MbInfo)
  {
    Target(split, m.refFrame0) || Target(split, m.refFrame1)
  }

  /** av1_get_pred_context_single_ref_p3, _p4 and _p5, which share one
      shape and differ in the frames they test. */
  function SingleRefContext(split: Split, above: Neighbor, left: Neighbor): (ctx: int)
    ensures 0 <= ctx < REF_CONTEXTS
    ensures above.None? && left.None? ==> ctx == 2
  {
    match (above, left)
    case (Some(a), Some(l)) =>
      var aboveIntra := !a.IsInter();
      var leftIntra := !l.IsInter();
      if aboveIntra && leftIntra then 2
      else if aboveIntra || leftIntra then
        var edge := if aboveIntra then l else a;
        if !edge.HasSecondRef() then
          (if Outside(split, edge.refFrame0) then 3 else 4 * B2I(Target(split, edge.refFrame0)))
        else 1 + 2 * B2I(CompTarget(split, edge))
      else if a.HasSecondRef() && l.HasSecondRef() then
        if a.refFrame0 == l.refFrame0 && a.refFrame1 == l.refFrame1 then
          3 * B2I(CompTarget(split, a) || CompTarget(split, l))
        else 2
      else if a.HasSecondRef() || l.HasSecondRef() then
        var rfs := if !a.HasSecondRef() then a.refFrame0 else l.refFrame0;
        var comp := if a.HasSecondRef() then a else l;
        if Target(split, rfs) then 3 + B2I(CompTarget(split, comp))
        else if Other(split, rfs) then B2I(CompTarget(split, comp))
        else 1 + 2 * B2I(CompTarget(split, comp))
      else if Outside(split, a.refFrame0) && Outside(split, l.refFrame0) then
        2 + B2I(a.refFrame0 == l.refFrame0)
      else if Outside(split, a.refFrame0) || Outside(split, l.refFrame0) then
        var edge0 := if Outside(split, a.refFrame0) then l.refFrame0 else a.refFrame0;
        4 * B2I(Target(split, edge0))
      else 2 * B2I(Target(split, a.refFrame0)) + 2 * B2I(Target(split, l.refFrame0))
    case (Some(a), None) => OneEdge(split, a)
    case (None, Some(l)) => OneEdge(split, l)
    case (None, None) => 2
  }

  function OneEdge(split: Split, edge: MbInfo): (ctx: int)
    ensures 0 <= ctx < REF_CONTEXTS
  {
    if !edge.IsInter() || (Outside(split, edge.refFrame0) && !edge.HasSecondRef()) then 2
    else if !edge.HasSecondRef() then 4 * B2I(Target(split, edge.refFrame0))
    else 3 * B2I(CompTarget(split, edge))
  }

  /** An available inter neighbour refers to the target frame. */
  predicate MentionsTarget(split: Split, nb: Neighbor)
  {
    nb.Some? && nb.value.IsInter()
    && (Target(split, nb.value.refFrame0) || (nb.value.HasSecondRef() && Target(split, nb.value.refFrame1)))
  }

  /** The extreme contexts of single_ref_p3 .. p5 have a witness: 4 needs
      a neighbour referring to the target frame and 0 needs that no
      neighbour does. */
  lemma SingleRefMeaning(split: Split, above: Neighbor, left: Neighbor)
    ensures SingleRefContext(split, above, left) == 4 ==> MentionsTarget(split, above) || MentionsTarget(split, left)
    ensures SingleRefContext(split, above, left) == 0 ==> !MentionsTarget(split, above) && !MentionsTarget(split, left)
  {
    match (above, left)
    case (Some(a), Some(l)) => BothEdgesMeaning(split, a, l);
    case (Some(a), None) =>
    case (None, Some(l)) =>
    case (None, None) =>
  }

  lemma BothEdgesMeaning(split: Split, a: MbInfo, l: MbInfo)
    ensures SingleRefContext(split, Some(a), Some(l)) == 4 ==> MentionsTarget(split, Some(a)) || MentionsTarget(split, Some(l))
    ensures SingleRefContext(split, Some(a), Some(l)) == 0 ==> !MentionsTarget(split, Some(a)) && !MentionsTarget(split, Some(l))
  {
    if a.IsInter() && l.IsInter() && !a.HasSecondRef() && !l.HasSecondRef() {
      assert !(Outside(split, a.refFrame0) && Target(split, a.refFrame0));
      assert !(Outside(split, l.refFrame0) && Target(split, l.refFrame0));
    }
  }

  /** single_ref_p3 .. p5 do not depend on which side is which. */
  lemma SingleRefSymmetric(split: Split, above: Neighbor, left: Neighbor)
    ensures SingleRefContext(split, above, left) == SingleRefContext(split, left, above)
  {
  }
}
