/** The palette colour-index context and the default loop-filter deltas
    of av1/common/entropymode.c. */
module EntropyMode {

  /** A byte of the colour-index map. */
  type Byte = x: int | 0 <= x < 256

  const PALETTE_MAX_SIZE: int := 8
  const PALETTE_COLOR_INDEX_CONTEXTS: int := 5
  const NUM_PALETTE_NEIGHBORS: int := 3
  const MAX_COLOR_CONTEXT_HASH: int := 8

  /** palette_color_index_context_lookup: negative entries are hashes no
      neighbourhood produces. */
  const ContextLookup: seq<int> := [-1, -1, 0, -1, -1, 4, 3, 2, 1]

  // ---------------------------------------------------------------------
  // Neighbourhood
  // ---------------------------------------------------------------------

  /** The colours of the left, top-left and top neighbours of (r, c), -1
      where a neighbour lies outside the block. */
  function Neighbors(colorMap: seq<Byte>, stride: int, r: int, c: int): (nb: seq<int>)
    requires 0 <= r && 0 <= c < stride && r * stride + c < |colorMap|
    ensures |nb| == NUM_PALETTE_NEIGHBORS
    ensures nb[0] >= 0 <==> c > 0
    ensures nb[2] >= 0 <==> r > 0
    ensures nb[1] >= 0 <==> c > 0 && r > 0
    ensures forall i :: 0 <= i < 3 ==> -1 <= nb[i] < 256
  {
    assert r > 0 ==> 0 <= (r - 1) * stride + c < r * stride + c by {
      if r > 0 {
        assert (r - 1) * stride + c == r * stride + c - stride;
      }
    }
    [if c - 1 >= 0 then colorMap[r * stride + c - 1] else -1,
     if c - 1 >= 0 && r - 1 >= 0 then colorMap[(r - 1) * stride + c - 1] else -1,
     if r - 1 >= 0 then colorMap[(r - 1) * stride + c] else -1]
  }

  /** The neighbours are colours of a palette of the given size. */
  predicate ValidNeighbors(nb: seq<int>, paletteSize: int)
  {
    |nb| == 3 && (forall i :: 0 <= i < 3 ==> -1 <= nb[i] < paletteSize)
    && (nb[1] >= 0 <==> nb[0] >= 0 && nb[2] >= 0)
    && (nb[0] >= 0 || nb[2] >= 0)
  }

  /** The score of colour v: 2 for the left, 1 for the top-left and 2 for
      the top neighbour of that colour. */
  function Score(nb: seq<int>, v: int): int
    requires |nb| == 3
  {
    (if nb[0] == v then 2 else 0) + (if nb[1] == v then 1 else 0) + (if nb[2] == v then 2 else 0)
  }

  /** The scores of the first n colours. */
  function Scores(nb: seq<int>, n: nat): (s: seq<int>)
    requires |nb| == 3
    ensures |s| == n && forall v :: 0 <= v < n ==> s[v] == Score(nb, v)
  {
    seq(n, v requires 0 <= v => Score(nb, v))
  }

  function Sum(s: seq<int>): int
  {
    if s == [] then 0 else Sum(s[..|s| - 1]) + s[|s| - 1]
  }

  /** The weight each neighbour brings, 0 when it is missing. */
  function Presence(nb: seq<int>, i: int, w: int, n: nat): int
    requires |nb| == 3 && 0 <= i < 3
  {
    if 0 <= nb[i] < n then w else 0
  }

  /** The scores add up to the weights of the neighbours present: 2 for a
      block in the top row or the left column, 5 elsewhere, never more. */
  lemma ScoreTotal(nb: seq<int>, paletteSize: int)
    requires ValidNeighbors(nb, paletteSize) && paletteSize <= PALETTE_MAX_SIZE
    ensures Sum(Scores(nb, PALETTE_MAX_SIZE)) == (if nb[1] >= 0 then 5 else 2)
    ensures Sum(Scores(nb, PALETTE_MAX_SIZE)) <= 5
  {
    ScoresSum(nb, PALETTE_MAX_SIZE);
  }

  lemma {:induction false} ScoresSum(nb: seq<int>, n: nat)
    requires |nb| == 3
    ensures Sum(Scores(nb, n)) == Presence(nb, 0, 2, n) + Presence(nb, 1, 1, n) + Presence(nb, 2, 2, n)
  {
    if n > 0 {
      assert Scores(nb, n)[..n - 1] == Scores(nb, n - 1);
      ScoresSum(nb, n - 1);
    }
  }

  // ---------------------------------------------------------------------
  // The context a neighbourhood gets
  // ---------------------------------------------------------------------

  /** The hash of the three largest scores, by the pattern of equal
      neighbours: one neighbour 2, all three alike 5, left and top alike
      6, the top-left alike with one of them 7, all different 8. */
  function HashRef(nb: seq<int>): int
    requires |nb| == 3
  {
    if nb[1] < 0 then 2
    else if nb[0] == nb[1] && nb[1] == nb[2] then 5
    else if nb[0] == nb[2] then 6
    else if nb[0] == nb[1] || nb[1] == nb[2] then 7
    else 8
  }

  /** The context of a neighbourhood: 0 at the edge of the block, then 4,
      3, 2, 1 as the neighbours grow more varied. */
  function ContextRef(nb: seq<int>): (ctx: int)
    requires |nb| == 3
    ensures 0 <= ctx < PALETTE_COLOR_INDEX_CONTEXTS
    ensures ctx == ContextLookup[HashRef(nb)]
  {
    if nb[1] < 0 then 0
    else if nb[0] == nb[1] && nb[1] == nb[2] then 4
    else if nb[0] == nb[2] then 3
    else if nb[0] == nb[1] || nb[1] == nb[2] then 2
    else 1
  }

  // ---------------------------------------------------------------------
  // Ordering the colours by score
  // ---------------------------------------------------------------------

  /** order and inverse are mutually inverse permutations of the palette
      slots. */
  predicate InversePair(order: seq<int>, inverse: seq<int>)
  {
    |order| == PALETTE_MAX_SIZE && |inverse| == PALETTE_MAX_SIZE
    && (forall k :: 0 <= k < PALETTE_MAX_SIZE ==> 0 <= order[k] < PALETTE_MAX_SIZE && inverse[order[k]] == k)
    && (forall v :: 0 <= v < PALETTE_MAX_SIZE ==> 0 <= inverse[v] < PALETTE_MAX_SIZE && order[inverse[v]] == v)
  }

  /** Slot k holds the score of colour order[k]. */
  predicate Tracks(scores: seq<int>, initial: seq<int>, order: seq<int>)
    requires |order| == PALETTE_MAX_SIZE && |initial| == PALETTE_MAX_SIZE
    requires forall k :: 0 <= k < PALETTE_MAX_SIZE ==> 0 <= order[k] < PALETTE_MAX_SIZE
  {
    |scores| == PALETTE_MAX_SIZE && forall k :: 0 <= k < PALETTE_MAX_SIZE ==> scores[k] == initial[order[k]]
  }

  /** The first n slots hold, in order, scores no later palette slot beats. */
  predicate TopSorted(scores: seq<int>, n: int, paletteSize: int)
    requires |scores| == PALETTE_MAX_SIZE && paletteSize <= PALETTE_MAX_SIZE
  {
    forall a, b :: 0 <= a < n && a < b < paletteSize ==> scores[a] >= scores[b]
  }

  /** The colours in the first NUM_PALETTE_NEIGHBORS slots of order come in
      non-increasing score, each scoring at least every later palette slot's. */
  predicate RankedBy(order: seq<int>, score: seq<int>, paletteSize: int)
    requires |order| == PALETTE_MAX_SIZE && |score| == PALETTE_MAX_SIZE && paletteSize <= PALETTE_MAX_SIZE
    requires forall k :: 0 <= k < PALETTE_MAX_SIZE ==> 0 <= order[k] < PALETTE_MAX_SIZE
  {
    forall a, b :: 0 <= a < NUM_PALETTE_NEIGHBORS && a < b < paletteSize ==> score[order[a]] >= score[order[b]]
  }

  /** Slots from the palette size on keep their own colour. */
  predicate FixedBeyond(order: seq<int>, paletteSize: int)
    requires |order| == PALETTE_MAX_SIZE
  {
    forall k :: 0 <= paletteSize <= k < PALETTE_MAX_SIZE ==> order[k] == k
  }

  /** The slot-i-to-m move: slot m's entry to slot i, slots i .. m-1 one on. */
  function MovedToFront(s: seq<int>, i: int, m: int): (t: seq<int>)
    requires 0 <= i <= m < |s|
    ensures |t| == |s|
    ensures forall k :: 0 <= k < |s| ==> t[k] == (if k < i || m < k then s[k] else if k == i then s[m] else s[k - 1])
  {
    s[..i] + [s[m]] + s[i..m] + s[m + 1..]
  }

  /** The first loop of the source's max search: the slot in [i, size) with
      the first largest score, i itself when the range is empty. */
  method FindMax(scores: array<int>, i: int, paletteSize: int) returns (maxIdx: int)
    requires 0 <= i < scores.Length && paletteSize <= scores.Length
    ensures i <= maxIdx < scores.Length && (maxIdx == i || maxIdx < paletteSize)
    ensures forall j :: i <= j < paletteSize ==> scores[j] <= scores[maxIdx]
  {
    var max := scores[i];
    maxIdx := i;
    var j := i + 1;
    while j < paletteSize
      invariant i + 1 <= j && (j <= paletteSize || j == i + 1)
      invariant i <= maxIdx < j && max == scores[maxIdx]
      invariant forall j' :: i <= j' < j ==> scores[j'] <= max
    {
      if scores[j] > max {
        max := scores[j];
        maxIdx := j;
      }
      j := j + 1;
    }
  }

  /** The shifting loop of the source: slot maxIdx's score and colour move
      to slot i and the slots between move one on, keeping the inverse
      order in step. */
  method MoveToFront(scores: array<int>, order: array<int>, inverse: array<int>, i: int, maxIdx: int)
    requires scores.Length == PALETTE_MAX_SIZE && order.Length == PALETTE_MAX_SIZE
    requires inverse.Length == PALETTE_MAX_SIZE
    requires scores != order && scores != inverse && order != inverse
    requires 0 <= i < maxIdx < PALETTE_MAX_SIZE
    requires InversePair(order[..], inverse[..])
    modifies scores, order, inverse
    ensures scores[..] == MovedToFront(old(scores[..]), i, maxIdx)
    ensures order[..] == MovedToFront(old(order[..]), i, maxIdx)
    ensures InversePair(order[..], inverse[..])
  {
    ghost var s0, o0, inv0 := scores[..], order[..], inverse[..];
    var maxScore := scores[maxIdx];
    var maxColorOrder := order[maxIdx];
    ShiftUp(scores, order, inverse, i, maxIdx);
    ghost var sK, oK, invK := scores[..], order[..], inverse[..];
    ShiftedIsMoved(s0, sK, i, maxIdx);
    ShiftedIsMoved(o0, oK, i, maxIdx);
    scores[i] := maxScore;
    order[i] := maxColorOrder;
    inverse[order[i]] := i;
    assert scores[..] == sK[i := s0[maxIdx]];
    assert order[..] == oK[i := o0[maxIdx]];
    assert inverse[..] == invK[o0[maxIdx] := i];
    MovedIsInverse(o0, inv0, order[..], invK, inverse[..], i, maxIdx);
  }

  /** The loop itself: slots i+1..maxIdx take the entries one below them,
      and the inverse of every colour that moved follows it. */
  method ShiftUp(scores: array<int>, order: array<int>, inverse: array<int>, i: int, maxIdx: int)
    requires scores.Length == PALETTE_MAX_SIZE && order.Length == PALETTE_MAX_SIZE
    requires inverse.Length == PALETTE_MAX_SIZE
    requires scores != order && scores != inverse && order != inverse
    requires 0 <= i < maxIdx < PALETTE_MAX_SIZE
    requires InversePair(order[..], inverse[..])
    modifies scores, order, inverse
    ensures forall t :: 0 <= t <= i || maxIdx < t < PALETTE_MAX_SIZE ==>
      scores[t] == old(scores[t]) && order[t] == old(order[t])
    ensures forall t :: i < t <= maxIdx ==> scores[t] == old(scores[t - 1]) && order[t] == old(order[t - 1])
    ensures forall v :: 0 <= v < PALETTE_MAX_SIZE ==>
      inverse[v] == (if i <= old(inverse[v]) < maxIdx then old(inverse[v]) + 1 else old(inverse[v]))
  {
    ghost var s0, o0, inv0 := scores[..], order[..], inverse[..];
    var k := maxIdx;
    while k > i
      invariant i <= k <= maxIdx
      invariant InversePair(o0, inv0)
      invariant forall t :: 0 <= t <= k || maxIdx < t < PALETTE_MAX_SIZE ==>
        scores[t] == s0[t] && order[t] == o0[t]
      invariant forall t :: k < t <= maxIdx ==> scores[t] == s0[t - 1] && order[t] == o0[t - 1]
      invariant forall v :: 0 <= v < PALETTE_MAX_SIZE ==>
        inverse[v] == (if k <= inv0[v] < maxIdx then inv0[v] + 1 else inv0[v])
    {
      scores[k] := scores[k - 1];
      order[k] := order[k - 1];
      assert inv0[o0[k - 1]] == k - 1;
      inverse[order[k]] := k;
      k := k - 1;
    }
  }

  /** After the shifting loop, putting the saved entry into slot i completes
      the move. */
  lemma ShiftedIsMoved(s0: seq<int>, sK: seq<int>, i: int, m: int)
    requires 0 <= i < m < |s0| && |sK| == |s0|
    requires forall t :: 0 <= t <= i || m < t < |s0| ==> sK[t] == s0[t]
    requires forall t :: i < t <= m ==> sK[t] == s0[t - 1]
    ensures sK[i := s0[m]] == MovedToFront(s0, i, m)
  {
  }

  /** Moving slot m to slot i keeps a permutation and its inverse in step
      when the inverse is adjusted the same way. */
  lemma MovedIsInverse(o0: seq<int>, inv0: seq<int>, o1: seq<int>, invK: seq<int>, inv1: seq<int>, i: int, m: int)
    requires InversePair(o0, inv0) && 0 <= i < m < PALETTE_MAX_SIZE
    requires o1 == MovedToFront(o0, i, m)
    requires |invK| == PALETTE_MAX_SIZE
    requires forall v :: 0 <= v < PALETTE_MAX_SIZE ==>
      invK[v] == (if i <= inv0[v] < m then inv0[v] + 1 else inv0[v])
    requires inv1 == invK[o0[m] := i]
    ensures InversePair(o1, inv1)
  {
    forall k | 0 <= k < PALETTE_MAX_SIZE
      ensures 0 <= o1[k] < PALETTE_MAX_SIZE && inv1[o1[k]] == k
    {
      if k < i || m < k {
        assert o1[k] == o0[k] && inv0[o0[k]] == k;
      } else if k == i {
      } else {
        assert o1[k] == o0[k - 1] && inv0[o0[k - 1]] == k - 1;
      }
    }
    forall v | 0 <= v < PALETTE_MAX_SIZE
      ensures 0 <= inv1[v] < PALETTE_MAX_SIZE && o1[inv1[v]] == v
    {
      var p := inv0[v];
      assert o0[p] == v;
    }
  }

  /** The selection loop of the source: the NUM_PALETTE_NEIGHBORS largest
      scores to the front, largest first, colours and inverse in step. */
  method SelectTopScores(scores: array<int>, order: array<int>, inverse: array<int>,
                         paletteSize: int, ghost initial: seq<int>)
    requires scores.Length == PALETTE_MAX_SIZE && order.Length == PALETTE_MAX_SIZE
    requires inverse.Length == PALETTE_MAX_SIZE
    requires scores != order && scores != inverse && order != inverse
    requires 0 <= paletteSize <= PALETTE_MAX_SIZE && |initial| == PALETTE_MAX_SIZE
    requires InversePair(order[..], inverse[..]) && Tracks(scores[..], initial, order[..])
    requires FixedBeyond(order[..], paletteSize)
    modifies scores, order, inverse
    ensures InversePair(order[..], inverse[..]) && Tracks(scores[..], initial, order[..])
    ensures FixedBeyond(order[..], paletteSize)
    ensures TopSorted(scores[..], NUM_PALETTE_NEIGHBORS, paletteSize)
  {
    var i := 0;
    while i < NUM_PALETTE_NEIGHBORS
      invariant 0 <= i <= NUM_PALETTE_NEIGHBORS
      invariant InversePair(order[..], inverse[..]) && Tracks(scores[..], initial, order[..])
      invariant FixedBeyond(order[..], paletteSize)
      invariant TopSorted(scores[..], i, paletteSize)
    {
      var maxIdx := FindMax(scores, i, paletteSize);
      if maxIdx != i {
        ghost var s0, o0 := scores[..], order[..];
        MoveToFront(scores, order, inverse, i, maxIdx);
        MovedKeepsOrder(s0, o0, scores[..], order[..], initial, i, maxIdx, paletteSize);
      }
      i := i + 1;
    }
  }

  /** One move keeps the tracking, the fixed tail and the sorted front, and
      extends the sorted front by slot i. */
  lemma MovedKeepsOrder(s0: seq<int>, o0: seq<int>, s1: seq<int>, o1: seq<int>, initial: seq<int>,
                        i: int, m: int, paletteSize: int)
    requires |s0| == PALETTE_MAX_SIZE && |initial| == PALETTE_MAX_SIZE
    requires |o0| == PALETTE_MAX_SIZE
    requires forall k :: 0 <= k < PALETTE_MAX_SIZE ==> 0 <= o0[k] < PALETTE_MAX_SIZE
    requires 0 <= i < m < paletteSize <= PALETTE_MAX_SIZE
    requires Tracks(s0, initial, o0) && FixedBeyond(o0, paletteSize) && TopSorted(s0, i, paletteSize)
    requires forall j :: i <= j < paletteSize ==> s0[j] <= s0[m]
    requires s1 == MovedToFront(s0, i, m) && o1 == MovedToFront(o0, i, m)
    ensures Tracks(s1, initial, o1) && FixedBeyond(o1, paletteSize) && TopSorted(s1, i + 1, paletteSize)
  {
    forall a, b | 0 <= a < i + 1 && a < b < paletteSize
      ensures s1[a] >= s1[b]
    {
      if a < i {
        assert s1[a] == s0[a];
        assert s0[a] >= s0[if b == i then m else if b <= m then b - 1 else b];
      }
    }
  }

  // ---------------------------------------------------------------------
  // av1_get_palette_color_index_context
  // ---------------------------------------------------------------------

  /** av1_get_palette_color_index_context: the context of the colour at
      (r, c), from how its left, top-left and top neighbours agree, and the
      rank of that colour when the palette is ordered by the neighbours'
      votes. color_order receives that ordering. */
  method GetPaletteColorIndexContext(colorMap: seq<Byte>, stride: int, r: int, c: int,
                                     paletteSize: int, colorOrder: array<int>)
    returns (ctx: int, colorIdx: int)
    requires 0 <= r && 0 <= c < stride && r * stride + c < |colorMap|
    requires 0 < paletteSize <= PALETTE_MAX_SIZE && (r > 0 || c > 0)
    requires colorOrder.Length == PALETTE_MAX_SIZE
    requires colorMap[r * stride + c] < paletteSize
    requires ValidNeighbors(Neighbors(colorMap, stride, r, c), paletteSize)
    modifies colorOrder
    ensures forall k :: 0 <= k < PALETTE_MAX_SIZE ==> 0 <= colorOrder[k] < PALETTE_MAX_SIZE
    ensures forall k, k' :: 0 <= k < k' < PALETTE_MAX_SIZE ==> colorOrder[k] != colorOrder[k']
    ensures 0 <= colorIdx < PALETTE_MAX_SIZE && colorOrder[colorIdx] == colorMap[r * stride + c]
    ensures RankedBy(colorOrder[..], Scores(Neighbors(colorMap, stride, r, c), PALETTE_MAX_SIZE), paletteSize)
    ensures FixedBeyond(colorOrder[..], paletteSize)
    ensures ctx == ContextRef(Neighbors(colorMap, stride, r, c))
    ensures 0 <= ctx < PALETTE_COLOR_INDEX_CONTEXTS
  {
    var nb := Neighbors(colorMap, stride, r, c);
    var scores, inverse := RankColors(nb, paletteSize, colorOrder);
    colorIdx := inverse[colorMap[r * stride + c]];
    var hash := ScoreHash(scores);
    ctx := ContextLookup[hash];
    InverseDistinct(colorOrder[..], inverse[..]);
  }

  /** The scoring and selection part of the source: colour_order ends as a
      permutation (with its inverse) whose first three slots hold the
      colours with the top scores, so the hash of those scores is the one
      the pattern of equal neighbours gives. */
  method RankColors(nb: seq<int>, paletteSize: int, colorOrder: array<int>)
    returns (scores: array<int>, inverse: array<int>)
    requires 0 < paletteSize <= PALETTE_MAX_SIZE && ValidNeighbors(nb, paletteSize)
    requires colorOrder.Length == PALETTE_MAX_SIZE
    modifies colorOrder
    ensures fresh(scores) && fresh(inverse) && scores.Length == PALETTE_MAX_SIZE
    ensures InversePair(colorOrder[..], inverse[..])
    ensures Tracks(scores[..], Scores(nb, PALETTE_MAX_SIZE), colorOrder[..])
    ensures RankedBy(colorOrder[..], Scores(nb, PALETTE_MAX_SIZE), paletteSize)
    ensures FixedBeyond(colorOrder[..], paletteSize)
    ensures HashPrefix(scores[..], [1, 2, 2], NUM_PALETTE_NEIGHBORS) == HashRef(nb)
  {
    scores := NeighborScores(nb);
    ghost var initial := scores[..];
    inverse := new int[PALETTE_MAX_SIZE];
    IdentityOrders(colorOrder, inverse);
    assert Tracks(scores[..], initial, colorOrder[..]);
    SelectTopScores(scores, colorOrder, inverse, paletteSize, initial);
    TopScoresHash(nb, paletteSize, scores[..], colorOrder[..], inverse[..]);
    TopRanked(scores[..], initial, colorOrder[..], paletteSize);
  }

  /** Sorted tracked scores rank their colours by the initial scores. */
  lemma TopRanked(scores: seq<int>, initial: seq<int>, order: seq<int>, paletteSize: int)
    requires |order| == PALETTE_MAX_SIZE && |initial| == PALETTE_MAX_SIZE && paletteSize <= PALETTE_MAX_SIZE
    requires forall k :: 0 <= k < PALETTE_MAX_SIZE ==> 0 <= order[k] < PALETTE_MAX_SIZE
    requires Tracks(scores, initial, order) && TopSorted(scores, NUM_PALETTE_NEIGHBORS, paletteSize)
    ensures RankedBy(order, initial, paletteSize)
  {
    forall a, b | 0 <= a < NUM_PALETTE_NEIGHBORS && a < b < paletteSize
      ensures initial[order[a]] >= initial[order[b]]
    {
      assert scores[a] >= scores[b];
    }
  }

  /** The hash loop of the source: the three top scores weighted 1, 2, 2. */
  method ScoreHash(scores: array<int>) returns (hash: int)
    requires scores.Length == PALETTE_MAX_SIZE
    ensures hash == HashPrefix(scores[..], [1, 2, 2], NUM_PALETTE_NEIGHBORS)
  {
    hash := 0;
    var hashMultipliers := [1, 2, 2];
    var i := 0;
    while i < NUM_PALETTE_NEIGHBORS
      invariant 0 <= i <= NUM_PALETTE_NEIGHBORS
      invariant hash == HashPrefix(scores[..], hashMultipliers, i)
    {
      hash := hash + scores[i] * hashMultipliers[i];
      i := i + 1;
    }
  }

  /** An order with an inverse lists every colour once. */
  lemma InverseDistinct(order: seq<int>, inverse: seq<int>)
    requires InversePair(order, inverse)
    ensures forall k, k' :: 0 <= k < k' < PALETTE_MAX_SIZE ==> order[k] != order[k']
  {
    forall k, k' | 0 <= k < k' < PALETTE_MAX_SIZE
      ensures order[k] != order[k']
    {
      assert inverse[order[k]] == k && inverse[order[k']] == k';
    }
  }

  /** The score loop of the source: each present neighbour adds its weight
      to its colour. */
  method NeighborScores(nb: seq<int>) returns (scores: array<int>)
    requires |nb| == 3 && forall i :: 0 <= i < 3 ==> -1 <= nb[i] < PALETTE_MAX_SIZE
    ensures fresh(scores) && scores[..] == Scores(nb, PALETTE_MAX_SIZE)
  {
    var weights := [2, 1, 2];
    scores := new int[PALETTE_MAX_SIZE](_ => 0);
    var i := 0;
    while i < NUM_PALETTE_NEIGHBORS
      invariant 0 <= i <= NUM_PALETTE_NEIGHBORS && scores.Length == PALETTE_MAX_SIZE
      invariant forall v :: 0 <= v < PALETTE_MAX_SIZE ==> scores[v] == Score(nb[..i] + [-1, -1, -1][i..], v)
    {
      if nb[i] >= 0 {
        scores[nb[i]] := scores[nb[i]] + weights[i];
      }
      assert nb[..i + 1] + [-1, -1, -1][i + 1..] == (nb[..i] + [-1, -1, -1][i..])[i := nb[i]];
      i := i + 1;
    }
    assert nb[..3] + [-1, -1, -1][3..] == nb;
    assert scores[..] == Scores(nb, PALETTE_MAX_SIZE);
  }

  /** The identity loop of the source: every colour in its own slot. */
  method IdentityOrders(order: array<int>, inverse: array<int>)
    requires order.Length == PALETTE_MAX_SIZE && inverse.Length == PALETTE_MAX_SIZE && order != inverse
    modifies order, inverse
    ensures forall k :: 0 <= k < PALETTE_MAX_SIZE ==> order[k] == k && inverse[k] == k
    ensures InversePair(order[..], inverse[..]) && FixedBeyond(order[..], 0)
  {
    var i := 0;
    while i < PALETTE_MAX_SIZE
      invariant 0 <= i <= PALETTE_MAX_SIZE
      invariant forall k :: 0 <= k < i ==> order[k] == k && inverse[k] == k
    {
      order[i] := i;
      inverse[i] := i;
      i := i + 1;
    }
  }

  /** The hash over the first n of the top slots. */
  function HashPrefix(scores: seq<int>, mult: seq<int>, n: int): int
    requires 0 <= n <= 3 && |scores| >= 3 && |mult| == 3
  {
    if n == 0 then 0 else HashPrefix(scores, mult, n - 1) + scores[n - 1] * mult[n - 1]
  }

  /** After the selection, the hash of the three top scores is the one the
      pattern of equal neighbours gives. */
  lemma TopScoresHash(nb: seq<int>, paletteSize: int, f: seq<int>, co: seq<int>, inv: seq<int>)
    requires ValidNeighbors(nb, paletteSize) && 0 < paletteSize <= PALETTE_MAX_SIZE
    requires InversePair(co, inv) && Tracks(f, Scores(nb, PALETTE_MAX_SIZE), co)
    requires FixedBeyond(co, paletteSize) && TopSorted(f, NUM_PALETTE_NEIGHBORS, paletteSize)
    ensures HashPrefix(f, [1, 2, 2], 3) == HashRef(nb)
  {
    var s := Scores(nb, PALETTE_MAX_SIZE);
    // slot a beats every colour of the palette not placed before it
    forall a, v | 0 <= a < 3 && 0 <= v < paletteSize && inv[v] >= a
      ensures f[a] >= s[v]
    {
      assert f[inv[v]] == s[v];
    }
    assert HashPrefix(f, [1, 2, 2], 1) == f[0];
    assert HashPrefix(f, [1, 2, 2], 2) == f[0] + 2 * f[1];
    assert HashPrefix(f, [1, 2, 2], 3) == f[0] + 2 * f[1] + 2 * f[2];
    TopScoresCases(nb, paletteSize, f, co, inv, s);
  }

  lemma TopScoresCases(nb: seq<int>, paletteSize: int, f: seq<int>, co: seq<int>, inv: seq<int>, s: seq<int>)
    requires ValidNeighbors(nb, paletteSize) && 0 < paletteSize <= PALETTE_MAX_SIZE
    requires s == Scores(nb, PALETTE_MAX_SIZE)
    requires InversePair(co, inv) && Tracks(f, s, co)
    requires forall a, v :: 0 <= a < 3 && 0 <= v < paletteSize && inv[v] >= a ==> f[a] >= s[v]
    ensures f[0] + 2 * f[1] + 2 * f[2] == HashRef(nb)
  {
    var n0, n1, n2 := nb[0], nb[1], nb[2];
    assert forall v :: 0 <= v < PALETTE_MAX_SIZE && v != n0 && v != n1 && v != n2 ==> s[v] == 0;
    if n1 < 0 {
      var n := if n0 >= 0 then n0 else n2;
      assert s[n] == 2;
      assert f[0] >= 2;
      assert co[0] == n;
      assert co[1] != n && co[2] != n;
    } else if n0 == n1 && n1 == n2 {
      assert s[n0] == 5;
      assert f[0] >= 5;
      assert co[0] == n0;
      assert co[1] != n0 && co[2] != n0;
    } else if n0 == n2 {
      assert s[n0] == 4 && s[n1] == 1;
      assert co[0] == n0;
      assert inv[n1] >= 1;
      assert co[1] == n1;
      assert co[2] != n0 && co[2] != n1;
    } else if n0 == n1 {
      assert s[n0] == 3 && s[n2] == 2;
      assert co[0] == n0;
      assert inv[n2] >= 1;
      assert co[1] == n2;
      assert co[2] != n0 && co[2] != n2;
    } else if n1 == n2 {
      assert s[n2] == 3 && s[n0] == 2;
      assert co[0] == n2;
      assert inv[n0] >= 1;
      assert co[1] == n0;
      assert co[2] != n0 && co[2] != n2;
    } else {
      assert s[n0] == 2 && s[n1] == 1 && s[n2] == 2;
      assert co[0] == n0 || co[0] == n2;
      var other := if co[0] == n0 then n2 else n0;
      assert inv[other] >= 1;
      assert co[1] == other;
      assert inv[n1] >= 2;
      assert f[2] >= 1;
      assert co[2] == n1;
    }
  }

  // ---------------------------------------------------------------------
  // Default loop-filter deltas
  // ---------------------------------------------------------------------

  const INTRA_FRAME: int := 0
  const LAST_FRAME: int := 1
  const LAST2_FRAME: int := 2
  const LAST3_FRAME: int := 3
  const GOLDEN_FRAME: int := 4
  const BWDREF_FRAME: int := 5
  const ALTREF2_FRAME: int := 6
  const ALTREF_FRAME: int := 7
  const REF_FRAMES: int := 8
  const MAX_MODE_LF_DELTAS: int := 2

  /** The reference frames filtered one step weaker by default: golden and
      the two alternate references. */
  predicate FarReference(ref: int)
  {
    ref == GOLDEN_FRAME || ref == ALTREF2_FRAME || ref == ALTREF_FRAME
  }

  /** av1_set_default_ref_deltas: intra +1, golden and the alternate
      references -1, the near references 0. */
  method SetDefaultRefDeltas(refDeltas: array<int>)
    requires refDeltas.Length >= REF_FRAMES
    modifies refDeltas
    ensures refDeltas[INTRA_FRAME] == 1
    ensures forall ref :: LAST_FRAME <= ref <= ALTREF_FRAME ==>
      refDeltas[ref] == (if FarReference(ref) then -1 else 0)
    ensures forall k :: REF_FRAMES <= k < refDeltas.Length ==> refDeltas[k] == old(refDeltas[k])
  {
    refDeltas[INTRA_FRAME] := 1;
    refDeltas[LAST_FRAME] := 0;
    refDeltas[LAST2_FRAME] := refDeltas[LAST_FRAME];
    refDeltas[LAST3_FRAME] := refDeltas[LAST_FRAME];
    refDeltas[BWDREF_FRAME] := refDeltas[LAST_FRAME];
    refDeltas[GOLDEN_FRAME] := -1;
    refDeltas[ALTREF2_FRAME] := -1;
    refDeltas[ALTREF_FRAME] := -1;
  }

  /** av1_set_default_mode_deltas: both mode deltas 0. */
  method SetDefaultModeDeltas(modeDeltas: array<int>)
    requires modeDeltas.Length >= MAX_MODE_LF_DELTAS
    modifies modeDeltas
    ensures modeDeltas[0] == 0 && modeDeltas[1] == 0
    ensures forall k :: MAX_MODE_LF_DELTAS <= k < modeDeltas.Length ==> modeDeltas[k] == old(modeDeltas[k])
  {
    modeDeltas[0] := 0;
    modeDeltas[1] := 0;
  }

  /** The delta fields of struct loopfilter. */
  class LoopFilterDeltas {
    var modeRefDeltaEnabled: bool
    var modeRefDeltaUpdate: bool
    const refDeltas: array<int>
    const modeDeltas: array<int>

    predicate Valid()
      reads this
    {
      refDeltas.Length == REF_FRAMES && modeDeltas.Length == MAX_MODE_LF_DELTAS
      && refDeltas != modeDeltas
    }

    constructor()
      ensures Valid() && fresh(refDeltas) && fresh(modeDeltas)
      ensures !modeRefDeltaEnabled && !modeRefDeltaUpdate
    {
      modeRefDeltaEnabled, modeRefDeltaUpdate := false, false;
      refDeltas := new int[REF_FRAMES](_ => 0);
      modeDeltas := new int[MAX_MODE_LF_DELTAS](_ => 0);
    }

    /** set_default_lf_deltas: delta coding on and signalled, and the
      default reference and mode deltas. */
    method SetDefaultLfDeltas()
      requires Valid()
      modifies this, refDeltas, modeDeltas
      ensures Valid() && modeRefDeltaEnabled && modeRefDeltaUpdate
      ensures refDeltas[INTRA_FRAME] == 1
      ensures forall ref :: LAST_FRAME <= ref <= ALTREF_FRAME ==>
        refDeltas[ref] == (if FarReference(ref) then -1 else 0)
      ensures modeDeltas[0] == 0 && modeDeltas[1] == 0
    {
      modeRefDeltaEnabled := true;
      modeRefDeltaUpdate := true;
      SetDefaultRefDeltas(refDeltas);
      SetDefaultModeDeltas(modeDeltas);
    }
  }
}
