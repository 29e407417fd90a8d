/** The FlatBuffers-generated accessor for the table type `Referrable`
    (tests/MyGame/Example/Referrable.java): a view over a little-endian byte
    buffer whose one field `id` (a Java long, vtable slot 0 at vtable offset 4)
    is also the key of a binary search over a sorted vector of table offsets.

    The runtime base class `Table` is not part of this model: its methods
    `__offset` and `__indirect` are taken as arbitrary total functions,
    gathered in a `Runtime` value. */
module Referrable {
  import opened Wrappers
  import opened IntArith

  newtype byte = x: int | 0 <= x < 256

  const ID_VTABLE_OFFSET: int := 4

  // ---------------------------------------------------------------------
  // Little-endian integers in a byte buffer (java.nio.ByteBuffer in
  // LITTLE_ENDIAN order)
  // ---------------------------------------------------------------------

  function Pow256(n: nat): (r: nat)
    ensures r >= 1
  {
    if n == 0 then 1 else 256 * Pow256(n - 1)
  }

  /** Unsigned value of a little-endian byte run. */
  function DecodeLE(bs: seq<byte>): (v: nat)
    ensures v < Pow256(|bs|)
  {
    if bs == [] then 0 else bs[0] as nat + 256 * DecodeLE(bs[1..])
  }

  /** The n low-order bytes of v, least significant first. */
  function EncodeLE(v: nat, n: nat): (bs: seq<byte>)
    ensures |bs| == n
  {
    if n == 0 then [] else [(v % 256) as byte] + EncodeLE(v / 256, n - 1)
  }

  lemma ModUnique(v: int, m: int, a: int, r: int)
    requires m > 0 && 0 <= r < m && v == m * a + r
    ensures v % m == r
  {
    var a', r' := v / m, v % m;
    assert m * (a - a') == r' - r;
    if a > a' {
      MulAtLeast(m, a - a');
    } else if a < a' {
      MulAtLeast(m, a' - a);
    }
  }

  lemma MulAtLeast(m: int, k: int)
    requires m > 0 && k >= 1
    ensures m * k >= m
  {
  }

  lemma DivModSplit(v: nat, p: nat)
    requires p >= 1
    ensures v % (256 * p) == v % 256 + 256 * ((v / 256) % p)
  {
    var q, r := v / 256, v % 256;
    var a, b := q / p, q % p;
    assert v == 256 * q + r;
    assert q == p * a + b;
    assert 256 * q == (256 * p) * a + 256 * b;
    assert 0 <= 256 * b + r < 256 * p;
    ModUnique(v, 256 * p, a, 256 * b + r);
  }

  lemma {:induction false} DecodeEncodeLE(v: nat, n: nat)
    ensures DecodeLE(EncodeLE(v, n)) == v % Pow256(n)
  {
    if n > 0 {
      var bs := EncodeLE(v, n);
      assert bs[1..] == EncodeLE(v / 256, n - 1);
      DecodeEncodeLE(v / 256, n - 1);
      DivModSplit(v, Pow256(n - 1));
    }
  }

  /** Half the range of a `width`-byte integer: 2^(8*width-1). */
  function Half(width: nat): (h: int)
    requires width >= 1
    ensures Pow256(width) == 2 * h
  {
    128 * Pow256(width - 1)
  }

  /** Two's-complement reading of an unsigned value of `width` bytes. */
  function ToSigned(u: nat, width: nat): (s: int)
    requires 1 <= width && u < Pow256(width)
    ensures -Half(width) <= s < Half(width)
  {
    if u >= Half(width) then u - Pow256(width) else u
  }

  predicate InBuffer(bb: seq<byte>, pos: int, width: nat)
  {
    0 <= pos && pos + width <= |bb|
  }

  /** ByteBuffer.getShort / getInt / getLong: a signed little-endian read.
      Java throws IndexOutOfBoundsException outside the buffer; callers here
      must stay inside it. */
  function GetSigned(bb: seq<byte>, pos: int, width: nat): (v: int)
    requires 1 <= width && InBuffer(bb, pos, width)
    ensures -Half(width) <= v < Half(width)
  {
    ToSigned(DecodeLE(bb[pos..pos + width]), width)
  }

  function GetShort(bb: seq<byte>, pos: int): int
    requires InBuffer(bb, pos, 2)
  {
    GetSigned(bb, pos, 2)
  }

  function GetInt(bb: seq<byte>, pos: int): int
    requires InBuffer(bb, pos, 4)
  {
    GetSigned(bb, pos, 4)
  }

  function GetLong(bb: seq<byte>, pos: int): int
    requires InBuffer(bb, pos, 8)
  {
    GetSigned(bb, pos, 8)
  }

  predicate IsLong(v: int)
  {
    var h := Half(8);
    -h <= v < h
  }

  /** The eight bytes ByteBuffer.putLong stores for v. */
  function EncodeLong(v: int): (bs: seq<byte>)
    requires IsLong(v)
    ensures |bs| == 8
  {
    EncodeLE(if v < 0 then v + Pow256(8) else v, 8)
  }

  /** Reading back what putLong stored yields the stored long. */
  lemma GetLongOfEncodeLong(bb: seq<byte>, pos: int, v: int)
    requires IsLong(v) && InBuffer(bb, pos, 8)
    requires bb[pos..pos + 8] == EncodeLong(v)
    ensures GetLong(bb, pos) == v
  {
    var p, h := Pow256(8), Half(8);
    var u := if v < 0 then v + p else v;
    assert 0 <= u < p && (v < 0 <==> u >= h);
    DecodeEncodeLE(u, 8);
    ModUnique(u, p, 0, u);
    assert DecodeLE(bb[pos..pos + 8]) == u;
  }

  // ---------------------------------------------------------------------
  // The runtime base class, left abstract
  // ---------------------------------------------------------------------

  /** `Table.__offset(int vtable_offset)` (instance form: it sees the buffer,
      vtable_start and vtable_size of the view), the static
      `Table.__offset(int vtable_offset, int offset, ByteBuffer bb)` and
      `Table.__indirect(int offset, ByteBuffer bb)`. An offset of 0 from
      `__offset` means the field is absent. */
  datatype Runtime = Runtime(
    fieldOffset: (seq<byte>, int, int, int) -> int,
    staticOffset: (int, int, seq<byte>) -> int,
    indirect: (int, seq<byte>) -> int)

  /** Java's three-way comparison `a > b ? 1 : a < b ? -1 : 0`, used by both
      keysCompare and __lookup_by_key. */
  function Compare(a: int, b: int): (c: int)
    ensures c == 1 || c == 0 || c == -1
    ensures c > 0 <==> a > b
    ensures c < 0 <==> a < b
    ensures c == 0 <==> a == b
  {
    if a > b then 1 else if a < b then -1 else 0
  }

  /** keysCompare(o1, o2, bb): compares the `id` fields of the tables that
      the static __offset resolves for o1 and o2. */
  function KeysCompare(rt: Runtime, o1: int, o2: int, bb: seq<byte>): (c: int)
    requires InBuffer(bb, rt.staticOffset(ID_VTABLE_OFFSET, o1, bb), 8)
    requires InBuffer(bb, rt.staticOffset(ID_VTABLE_OFFSET, o2, bb), 8)
    ensures c == Compare(GetLong(bb, rt.staticOffset(ID_VTABLE_OFFSET, o1, bb)),
                         GetLong(bb, rt.staticOffset(ID_VTABLE_OFFSET, o2, bb)))
  {
    var val1 := GetLong(bb, rt.staticOffset(ID_VTABLE_OFFSET, o1, bb));
    var val2 := GetLong(bb, rt.staticOffset(ID_VTABLE_OFFSET, o2, bb));
    if val1 > val2 then 1 else if val1 < val2 then -1 else 0
  }

  /** keysCompare is a comparator: swapping the arguments negates it, and it
      is 0 exactly when both keys are equal. */
  lemma KeysCompareAntisymmetric(rt: Runtime, o1: int, o2: int, bb: seq<byte>)
    requires InBuffer(bb, rt.staticOffset(ID_VTABLE_OFFSET, o1, bb), 8)
    requires InBuffer(bb, rt.staticOffset(ID_VTABLE_OFFSET, o2, bb), 8)
    ensures KeysCompare(rt, o1, o2, bb) == -KeysCompare(rt, o2, o1, bb)
    ensures KeysCompare(rt, o1, o1, bb) == 0
  {
  }

  // ---------------------------------------------------------------------
  // The table view
  // ---------------------------------------------------------------------

  class Referrable {
    var bb: array?<byte>
    var bbPos: int
    var vtableStart: int
    var vtableSize: int

    /** `new Referrable()`: a view bound to no buffer yet. */
    constructor ()
      ensures bb == null && bbPos == 0 && vtableStart == 0 && vtableSize == 0
    {
      bb := null;
      bbPos, vtableStart, vtableSize := 0, 0, 0;
    }

    /** __init / __assign: bind the view to the table at byte `i`; the vtable
        starts `getInt(i)` bytes before it and begins with its 16-bit size. */
    method Assign(i: int, buf: array<byte>)
      requires InBuffer(buf[..], i, 4)
      requires InBuffer(buf[..], i - GetInt(buf[..], i), 2)
      modifies this
      ensures bb == buf && bbPos == i
      ensures vtableStart == i - GetInt(buf[..], i)
      ensures vtableSize == GetShort(buf[..], vtableStart)
    {
      bbPos := i;
      bb := buf;
      vtableStart := bbPos - GetInt(bb[..], bbPos);
      vtableSize := GetShort(bb[..], vtableStart);
    }

    /** The runtime's answer for the `id` field's offset in this table. */
    function IdOffset(rt: Runtime): int
      reads this, bb
      requires bb != null
    {
      rt.fieldOffset(bb[..], vtableStart, vtableSize, ID_VTABLE_OFFSET)
    }

    predicate IdReadable(rt: Runtime)
      reads this, bb
      requires bb != null
    {
      IdOffset(rt) != 0 ==> InBuffer(bb[..], IdOffset(rt) + bbPos, 8)
    }

    /** id(): the stored long, or the default 0 when the field is absent. */
    function Id(rt: Runtime): (v: int)
      reads this, bb
      requires bb != null && IdReadable(rt)
      ensures IsLong(v)
      ensures IdOffset(rt) == 0 ==> v == 0
      ensures IdOffset(rt) != 0 ==> v == GetLong(bb[..], IdOffset(rt) + bbPos)
    {
      var o := IdOffset(rt);
      if o != 0 then GetLong(bb[..], o + bbPos) else 0
    }

    /** mutateId(id): overwrite the field in place when it is present. */
    method MutateId(rt: Runtime, id: int) returns (ok: bool)
      requires bb != null && IdReadable(rt) && IsLong(id)
      modifies bb
      ensures ok <==> old(IdOffset(rt)) != 0
      ensures !ok ==> bb[..] == old(bb[..])
      ensures ok ==> var p := old(IdOffset(rt)) + bbPos;
                     bb[..] == old(bb[..])[..p] + EncodeLong(id) + old(bb[..])[p + 8..]
      ensures ok ==> GetLong(bb[..], old(IdOffset(rt)) + bbPos) == id
    {
      var o := IdOffset(rt);
      if o != 0 {
        PutLong(bb, o + bbPos, id);
        GetLongOfEncodeLong(bb[..], o + bbPos, id);
        ok := true;
      } else {
        ok := false;
      }
    }
  }

  /** ByteBuffer.putLong(pos, v). */
  method PutLong(bb: array<byte>, pos: int, v: int)
    requires InBuffer(bb[..], pos, 8) && IsLong(v)
    modifies bb
    ensures bb[..] == old(bb[..])[..pos] + EncodeLong(v) + old(bb[..])[pos + 8..]
  {
    var enc := EncodeLong(v);
    for k := 0 to 8
      invariant forall j :: 0 <= j < bb.Length && !(pos <= j < pos + k) ==> bb[j] == old(bb[j])
      invariant forall j :: pos <= j < pos + k ==> bb[j] == enc[j - pos]
    {
      bb[pos + k] := enc[k];
    }
    assert bb[..] == old(bb[..])[..pos] + enc + old(bb[..])[pos + 8..];
  }

  /** After a successful mutateId, id() answers the new value as long as the
      runtime still resolves the field to the same offset (the write lands
      in the table's field, not in its vtable). */
  lemma IdAfterMutate(rt: Runtime, before: seq<byte>, after: seq<byte>,
                      bbPos: int, vtableStart: int, vtableSize: int, id: int)
    requires IsLong(id)
    requires rt.fieldOffset(before, vtableStart, vtableSize, ID_VTABLE_OFFSET) != 0
    requires InBuffer(before, rt.fieldOffset(before, vtableStart, vtableSize, ID_VTABLE_OFFSET) + bbPos, 8)
    requires var p := rt.fieldOffset(before, vtableStart, vtableSize, ID_VTABLE_OFFSET) + bbPos;
             after == before[..p] + EncodeLong(id) + before[p + 8..]
    requires rt.fieldOffset(after, vtableStart, vtableSize, ID_VTABLE_OFFSET)
             == rt.fieldOffset(before, vtableStart, vtableSize, ID_VTABLE_OFFSET)
    ensures var o := rt.fieldOffset(after, vtableStart, vtableSize, ID_VTABLE_OFFSET);
            o != 0 && InBuffer(after, o + bbPos, 8) && GetLong(after, o + bbPos) == id
  {
    var p := rt.fieldOffset(before, vtableStart, vtableSize, ID_VTABLE_OFFSET) + bbPos;
    assert after[p..p + 8] == EncodeLong(id);
    GetLongOfEncodeLong(after, p, id);
  }

  // ---------------------------------------------------------------------
  // __lookup_by_key
  // ---------------------------------------------------------------------

  /** The element count stored in the 4 bytes before the vector. */
  function VectorCount(bb: seq<byte>, vectorLocation: int): int
    requires InBuffer(bb, vectorLocation - 4, 4)
  {
    GetInt(bb, vectorLocation - 4)
  }

  /** Absolute offset of the table referenced by element i. */
  function ElementTable(rt: Runtime, bb: seq<byte>, vectorLocation: int, i: int): int
  {
    rt.indirect(vectorLocation + 4 * i, bb)
  }

  /** Where element i's key is read: static __offset(4, capacity - table, bb). */
  function KeyPos(rt: Runtime, bb: seq<byte>, vectorLocation: int, i: int): int
  {
    rt.staticOffset(ID_VTABLE_OFFSET, |bb| - ElementTable(rt, bb, vectorLocation, i), bb)
  }

  /** The buffer is well formed for a lookup: the count is readable and not
      negative, and every element's key lies inside the buffer. */
  predicate VectorReadable(rt: Runtime, bb: seq<byte>, vectorLocation: int)
  {
    && InBuffer(bb, vectorLocation - 4, 4)
    && VectorCount(bb, vectorLocation) >= 0
    && forall i :: 0 <= i < VectorCount(bb, vectorLocation) ==>
         InBuffer(bb, KeyPos(rt, bb, vectorLocation, i), 8)
  }

  function KeyAt(rt: Runtime, bb: seq<byte>, vectorLocation: int, i: int): int
    requires VectorReadable(rt, bb, vectorLocation)
    requires 0 <= i < VectorCount(bb, vectorLocation)
  {
    GetLong(bb, KeyPos(rt, bb, vectorLocation, i))
  }

  /** The keys of the vector's elements, in vector order. */
  ghost function Keys(rt: Runtime, bb: seq<byte>, vectorLocation: int): (ks: seq<int>)
    requires VectorReadable(rt, bb, vectorLocation)
    ensures |ks| == VectorCount(bb, vectorLocation)
  {
    var n := VectorCount(bb, vectorLocation);
    seq(n, i requires 0 <= i < n => KeyAt(rt, bb, vectorLocation, i))
  }

  lemma KeysAt(rt: Runtime, bb: seq<byte>, vectorLocation: int, i: int)
    requires VectorReadable(rt, bb, vectorLocation)
    requires 0 <= i < VectorCount(bb, vectorLocation)
    ensures Keys(rt, bb, vectorLocation)[i] == KeyAt(rt, bb, vectorLocation, i)
  {
  }

  ghost predicate Ascending(ks: seq<int>)
  {
    forall i, j :: 0 <= i < j < |ks| ==> ks[i] <= ks[j]
  }

  /** The producer's guarantee: keys ascend along the vector. */
  ghost predicate SortedByKey(rt: Runtime, bb: seq<byte>, vectorLocation: int)
    requires VectorReadable(rt, bb, vectorLocation)
  {
    Ascending(Keys(rt, bb, vectorLocation))
  }

  ghost predicate HasKey(rt: Runtime, bb: seq<byte>, vectorLocation: int, key: int)
    requires VectorReadable(rt, bb, vectorLocation)
  {
    key in Keys(rt, bb, vectorLocation)
  }

  /** The number of binary digits of n: floor(log2 n) + 1 for n > 0. */
  function Bits(n: nat): (b: nat)
    ensures n > 0 ==> b >= 1
  {
    if n == 0 then 0 else 1 + Bits(n / 2)
  }

  /** A window at most half as wide needs one digit fewer. */
  lemma {:induction false} BitsHalve(m: nat, n: nat)
    requires n > 0 && m <= n / 2
    ensures Bits(m) + 1 <= Bits(n)
  {
    BitsMonotone(m, n / 2);
  }

  lemma {:induction false} BitsMonotone(m: nat, n: nat)
    requires m <= n
    ensures Bits(m) <= Bits(n)
    decreases n
  {
    if m > 0 {
      BitsMonotone(m / 2, n / 2);
    }
  }

  /** The binary search of __lookup_by_key over the window [start, start+span):
      returns the offset of a table whose key equals `key`, or None (Java's
      null). The ghost `probes` counts the keys read: every probe at least
      halves the window, so a vector of n elements costs at most Bits(n)
      probes, floor(log2 n) + 1. */
  method FindByKey(rt: Runtime, bb: seq<byte>, vectorLocation: int, key: int)
    returns (r: Option<int>, ghost probes: nat)
    requires VectorReadable(rt, bb, vectorLocation)
    ensures probes <= Bits(VectorCount(bb, vectorLocation))
    ensures r.Some? ==>
      exists i :: 0 <= i < VectorCount(bb, vectorLocation)
        && r.value == ElementTable(rt, bb, vectorLocation, i)
        && KeyAt(rt, bb, vectorLocation, i) == key
    ensures SortedByKey(rt, bb, vectorLocation) && HasKey(rt, bb, vectorLocation, key)
      ==> r.Some?
    ensures VectorCount(bb, vectorLocation) == 0 ==> r.None?
  {
    ghost var n := VectorCount(bb, vectorLocation);
    ghost var ks := Keys(rt, bb, vectorLocation);
    ghost var wanted := Ascending(ks) && key in ks;
    ghost var bitsN := Bits(n);
    var span := GetInt(bb, vectorLocation - 4);
    var start := 0;
    probes := 0;
    assert wanted ==> InWindow(ks, key, 0, n);
    while span != 0
      invariant 0 <= span && 0 <= start && start + span <= n
      invariant wanted ==> InWindow(ks, key, start, start + span)
      invariant probes + Bits(span) <= bitsN
      decreases span
    {
      probes := probes + 1;
      var found, start', span' := Probe(rt, bb, vectorLocation, key, ks, wanted, start, span);
      if found.Some? {
        return found, probes;
      }
      start, span := start', span';
    }
    return None, probes;
  }

  /** One iteration of __lookup_by_key: reads the key in the middle of the
      window [start, start + span) and either finds the table or narrows the
      window to the half that can still hold the key. */
  method Probe(rt: Runtime, bb: seq<byte>, vectorLocation: int, key: int, ghost ks: seq<int>,
               ghost wanted: bool, start: int, span: int)
    returns (found: Option<int>, start': int, span': int)
    requires VectorReadable(rt, bb, vectorLocation) && ks == Keys(rt, bb, vectorLocation)
    requires 0 <= start && 0 < span && start + span <= |ks|
    requires wanted ==> Ascending(ks) && InWindow(ks, key, start, start + span)
    ensures found.Some? ==>
      exists i :: 0 <= i < VectorCount(bb, vectorLocation)
        && found.value == ElementTable(rt, bb, vectorLocation, i)
        && KeyAt(rt, bb, vectorLocation, i) == key
    ensures found.None? ==>
      0 <= start' && 0 <= span' < span && start' + span' <= |ks|
      && Bits(span') + 1 <= Bits(span)
      && (wanted ==> InWindow(ks, key, start', start' + span'))
  {
    var middle := span / 2;
    var tableOffset := ElementTable(rt, bb, vectorLocation, start + middle);
    var val := KeyAt(rt, bb, vectorLocation, start + middle);
    KeysAt(rt, bb, vectorLocation, start + middle);
    var comp := Compare(val, key);
    found, start', span' := None, start, span;
    if comp == 0 {
      FoundAt(rt, bb, vectorLocation, key, start + middle, tableOffset);
      found := Some(tableOffset);
    } else {
      start', span' := Narrow(ks, key, wanted, start, span, val, comp);
    }
  }

  /** The window update of __lookup_by_key after a probe that missed: the
      lower half when the probed key is too large, else the upper half
      without the probe. */
  method Narrow(ghost ks: seq<int>, key: int, ghost wanted: bool, start: int, span: int, val: int, comp: int)
    returns (start': int, span': int)
    requires 0 <= start && 0 < span && start + span <= |ks|
    requires ks[start + span / 2] == val
    requires wanted ==> Ascending(ks) && InWindow(ks, key, start, start + span)
    requires comp != 0 && (comp > 0 <==> val > key) && (comp < 0 <==> val < key)
    ensures 0 <= start' && 0 <= span' < span && start' + span' <= |ks|
      && Bits(span') + 1 <= Bits(span)
      && (wanted ==> InWindow(ks, key, start', start' + span'))
  {
    var middle := span / 2;
    ProbeNarrows(ks, key, wanted, start, span, middle, val);
    HalvesShrink(span, middle);
    if comp > 0 {
      start', span' := start, middle;
    } else {
      middle := middle + 1;
      start', span' := start + middle, span - middle;
    }
  }

  lemma FoundAt(rt: Runtime, bb: seq<byte>, vectorLocation: int, key: int, i: int, table: int)
    requires VectorReadable(rt, bb, vectorLocation)
    requires 0 <= i < VectorCount(bb, vectorLocation)
    requires KeyAt(rt, bb, vectorLocation, i) == key
    requires table == ElementTable(rt, bb, vectorLocation, i)
    ensures exists j :: 0 <= j < VectorCount(bb, vectorLocation)
                        && table == ElementTable(rt, bb, vectorLocation, j)
                        && KeyAt(rt, bb, vectorLocation, j) == key
  {
  }

  /** One probe of the search at the middle of [start, start + span): a key
      too large leaves the lower half, a key too small the upper half, each
      at most half as wide and still holding the key when the keys ascend. */
  lemma ProbeNarrows(ks: seq<int>, key: int, wanted: bool, start: int, span: int, half: int, val: int)
    requires 0 <= start && 0 <= half < span && start + span <= |ks|
    requires ks[start + half] == val
    requires wanted ==> Ascending(ks) && InWindow(ks, key, start, start + span)
    ensures val > key && wanted ==> InWindow(ks, key, start, start + half)
    ensures val < key && wanted ==> InWindow(ks, key, start + (half + 1), start + span)
  {
    if wanted && val > key {
      NarrowLeft(ks, key, start, start + half, start + span);
    } else if wanted && val < key {
      NarrowRight(ks, key, start, start + half, start + span);
    }
  }

  /** Either half left by a probe at span / 2 needs one binary digit fewer
      than the window: the loop makes at most Bits(n) probes. */
  lemma HalvesShrink(span: int, half: int)
    requires 0 < span && half == span / 2
    ensures Bits(half) + 1 <= Bits(span)
    ensures Bits(span - (half + 1)) + 1 <= Bits(span)
  {
    BitsHalve(half, span);
    BitsHalve(span - (half + 1), span);
  }

  /** Some element of ks[lo..hi) equals key. */
  ghost predicate InWindow(ks: seq<int>, key: int, lo: int, hi: int)
    requires 0 <= lo <= hi <= |ks|
  {
    exists i :: lo <= i < hi && ks[i] == key
  }

  /** A probe whose key is too large rules out itself and everything above. */
  lemma NarrowLeft(ks: seq<int>, key: int, lo: int, mid: int, hi: int)
    requires Ascending(ks) && 0 <= lo <= mid < hi <= |ks|
    requires ks[mid] > key && InWindow(ks, key, lo, hi)
    ensures InWindow(ks, key, lo, mid)
  {
    var i :| lo <= i < hi && ks[i] == key;
    assert lo <= i < mid;
  }

  /** A probe whose key is too small rules out itself and everything below. */
  lemma NarrowRight(ks: seq<int>, key: int, lo: int, mid: int, hi: int)
    requires Ascending(ks) && 0 <= lo <= mid < hi <= |ks|
    requires ks[mid] < key && InWindow(ks, key, lo, hi)
    ensures InWindow(ks, key, mid + 1, hi)
  {
    var i :| lo <= i < hi && ks[i] == key;
    assert mid < i < hi;
  }

  /** __lookup_by_key(obj, vectorLocation, key, bb): on a match, the given
      view (or a fresh one when obj is null) is bound to the matching table;
      otherwise null. */
  method LookupByKey(obj: Referrable?, rt: Runtime, vectorLocation: int, key: int, bb: array<byte>)
    returns (r: Referrable?)
    requires VectorReadable(rt, bb[..], vectorLocation)
    requires forall i :: 0 <= i < VectorCount(bb[..], vectorLocation) ==>
      var t := ElementTable(rt, bb[..], vectorLocation, i);
      InBuffer(bb[..], t, 4) && InBuffer(bb[..], t - GetInt(bb[..], t), 2)
    modifies obj
    ensures r != null ==> r.bb == bb && (obj != null ==> r == obj)
    ensures r != null ==>
      exists i :: 0 <= i < VectorCount(bb[..], vectorLocation)
        && r.bbPos == ElementTable(rt, bb[..], vectorLocation, i)
        && KeyAt(rt, bb[..], vectorLocation, i) == key
    ensures SortedByKey(rt, bb[..], vectorLocation) && HasKey(rt, bb[..], vectorLocation, key)
      ==> r != null
  {
    var found, _ := FindByKey(rt, bb[..], vectorLocation, key);
    if found.None? {
      return null;
    }
    var view: Referrable;
    if obj == null {
      view := new Referrable();
    } else {
      view := obj;
    }
    view.Assign(found.value, bb);
    return view;
  }
}
