/** Vectors of tables sorted by a string key, and lookup in them by binary search. The key is the
  * first field, as in KeyValue. */
module SortedVectors {
  import opened Bytes
  import opened Padding
  import opened StringOrder
  import opened Sorting
  import opened Tables
  import opened Objects
  import B = Builder
  import opened TableFields
  import opened Adds
  import opened Creation
  import opened Runs
  import opened FlatBufferBuilders

  const VT_KEY := 4

  // Keys in the buffer

  /** The table at p has a key string that can be read, with its terminator. */
  predicate KeyReadable(m: bytes, p: int) {
    && FieldReadable(m, p, VT_KEY)
    && var o := GetOptionalFieldOffset(m, p, VT_KEY);
    && o != 0 && InBounds(m, p + o, 4)
    && var q := Follow(m, p + o);
    && InBounds(m, q, 4) && InBounds(m, q + 4, VectorSize(m, q) + 1)
  }

  function KeyString(m: bytes, p: int): int
    requires KeyReadable(m, p)
  {
    GetPointer(m, p, VT_KEY).value
  }

  function KeyContents(m: bytes, p: int): bytes
    requires KeyReadable(m, p)
  {
    StringContents(m, KeyString(m, p))
  }

  predicate KeyCompareLessThan(m: bytes, p: int, p': int)
    requires KeyReadable(m, p) && KeyReadable(m, p')
  {
    StringLessThan(KeyContents(m, p), KeyContents(m, p'))
  }

  function KeyCompareWithValue(m: bytes, p: int, key: bytes): int
    requires KeyReadable(m, p)
  {
    StrCmp(m, KeyString(m, p) + 4, key + [0], 0)
  }

  // Keys of objects

  predicate HasKey(x: Object, k: bytes) {
    x.Tab? && |x.fields| > 0 && x.fields[0] == Ref(Str(k))
  }

  predicate HaveKeys(objs: seq<Object>, ks: seq<bytes>) {
    |objs| == |ks| && forall i | 0 <= i < |objs| :: HasKey(objs[i], ks[i])
  }

  lemma KeyHeld(m: bytes, p: int, x: Object, k: bytes)
    requires Holds(m, p, x) && HasKey(x, k)
    ensures KeyReadable(m, p) && KeyContents(m, p) == k
    ensures NulFree(k) ==> CStringAt(m, KeyString(m, p) + 4, k)
  {
    hide Holds, HoldsField, HoldsRef, FieldReadable, CStringAt;
    FirstFieldHeld(m, p, x);
    KeyFieldHeld(m, p, k);
    var q := p + GetOptionalFieldOffset(m, p, VT_KEY);
    KeyRefHeld(m, q, k);
    KeyStringHeld(m, Follow(m, q), k);
  }

  lemma FirstFieldHeld(m: bytes, p: int, x: Object)
    requires Holds(m, p, x) && x.Tab? && |x.fields| > 0
    ensures HoldsField(m, p, 0, x.fields[0])
  {}

  lemma KeyFieldHeld(m: bytes, p: int, k: bytes)
    requires HoldsField(m, p, 0, Ref(Str(k)))
    ensures FieldReadable(m, p, VT_KEY)
    ensures var o := GetOptionalFieldOffset(m, p, VT_KEY); o != 0 && HoldsRef(m, p + o, Str(k))
  {}

  lemma KeyRefHeld(m: bytes, q: int, k: bytes)
    requires HoldsRef(m, q, Str(k))
    ensures InBounds(m, q, 4) && Holds(m, Follow(m, q), Str(k))
  {}

  lemma KeyStringHeld(m: bytes, q: int, k: bytes)
    requires Holds(m, q, Str(k))
    ensures InBounds(m, q, 4) && InBounds(m, q + 4, VectorSize(m, q) + 1) && StringContents(m, q) == k
    ensures NulFree(k) ==> CStringAt(m, q + 4, k)
  {}

  /** The order used for sorting, which compares lengths, and the order used for searching, which stops
    * at NUL, agree on NUL-free keys. */
  lemma KeyComparisonsAgree(m: bytes, p: int, x: Object, k: bytes, key: bytes)
    requires Holds(m, p, x) && HasKey(x, k) && NulFree(k) && NulFree(key)
    ensures KeyReadable(m, p)
    ensures KeyCompareWithValue(m, p, key) < 0 <==> StringLessThan(k, key)
    ensures KeyCompareWithValue(m, p, key) > 0 <==> StringLessThan(key, k)
    ensures KeyCompareWithValue(m, p, key) == 0 <==> k == key
  {
    hide Holds, KeyReadable, KeyString, KeyContents;
    KeyHeld(m, p, x, k);
    StrCmpOrder(m, KeyString(m, p) + 4, k, key + [0], 0, key);
  }

  // Lookup

  lemma VectorElement(m: bytes, vec: int, objs: seq<Object>, i: nat)
    requires Holds(m, vec, Vec(objs)) && i < |objs|
    ensures InBounds(m, vec, 4) && VectorSize(m, vec) == |objs| && InBounds(m, vec + 4 + 4 * i, 4)
    ensures Holds(m, VectorGet(m, vec, i), objs[i])
  {
    assert HoldsRef(m, vec + 4 + 4 * i, objs[i]);
  }

  lemma VectorHeader(m: bytes, vec: int, objs: seq<Object>)
    requires Holds(m, vec, Vec(objs))
    ensures InBounds(m, vec, 4) && VectorSize(m, vec) == |objs|
  {}

  /** Vector::LookupByKey: std::bsearch, comparing the key of each element met with strcmp. On a sorted
    * vector it finds an element with the key exactly when there is one. */
  method LookupByKey(m: bytes, vec: int, key: bytes, ghost objs: seq<Object>,
                     ghost ks: seq<bytes>) returns (r: Option<int>)
    requires Holds(m, vec, Vec(objs)) && HaveKeys(objs, ks) && SortedKeys(ks)
    requires NulFree(key) && forall i | 0 <= i < |ks| :: NulFree(ks[i])
    ensures r.Some? <==> key in ks
    ensures r.Some? ==> exists i | 0 <= i < |objs| :: ks[i] == key && Holds(m, r.value, objs[i])
  {
    hide Holds, StringLessThan, SortedKeys, NulFree, KeyReadable, KeyCompareWithValue;
    VectorHeader(m, vec, objs);
    var lo, hi := 0, VectorSize(m, vec);
    while lo < hi
      invariant 0 <= lo <= hi <= |ks|
      invariant forall i | 0 <= i < lo :: StringLessThan(ks[i], key)
      invariant forall i | hi <= i < |ks| :: StringLessThan(key, ks[i])
    {
      var mid := (lo + hi) / 2;
      VectorElement(m, vec, objs, mid);
      var table := VectorGet(m, vec, mid);
      KeyComparisonsAgree(m, table, objs[mid], ks[mid], key);
      var cmp := -KeyCompareWithValue(m, table, key);
      if cmp < 0 {
        AboveAll(ks, key, mid);
        hi := mid;
      } else if cmp > 0 {
        BelowAll(ks, key, mid);
        lo := mid + 1;
      } else {
        return Some(table);
      }
    }
    NotAmong(ks, key, lo);
    return None;
  }

  // Creation

  function Reordered<T>(s: seq<T>, order: seq<nat>): (r: seq<T>)
    requires IsOrder(order, |s|)
    ensures |r| == |s|
  {
    seq(|s|, j requires 0 <= j < |s| => s[order[j]])
  }

  lemma SameElements<T>(s: seq<T>, order: seq<nat>, x: T)
    requires IsOrder(order, |s|)
    ensures x in Reordered(s, order) <==> x in s
  {
    if x in s {
      var i :| 0 <= i < |s| && s[i] == x;
      assert i in order;
      var j :| 0 <= j < |order| && order[j] == i;
      assert Reordered(s, order)[j] == x;
    }
  }

  /** What the sort may make of the keys. */
  predicate SortsTables(ks: seq<bytes>, order: seq<nat>) {
    IsOrder(order, |ks|) && SortedKeys(Reordered(ks, order))
  }

  lemma ReorderedHold(m: bytes, offs: seq<nat>, objs: seq<Object>, ks: seq<bytes>, order: seq<nat>)
    requires AllHold(m, offs, objs) && HaveKeys(objs, ks) && IsOrder(order, |ks|)
    ensures AllHold(m, Reordered(offs, order), Reordered(objs, order))
    ensures HaveKeys(Reordered(objs, order), Reordered(ks, order))
  {
    hide HoldsAt, HasKey;
  }

  /** A vector of sorted tables: however the sort ordered them, what was created is a sorted vector of
    * the same tables, with the same keys, so that LookupByKey finds a key exactly when it was there. */
  lemma SortedVectorHolds(st: B.State, offs: seq<nat>, objs: seq<Object>, ks: seq<bytes>, order: seq<nat>,
                          r: B.State, off: nat)
    requires AllHold(st.msg, offs, objs) && HaveKeys(objs, ks) && SortsTables(ks, order)
    requires B.AllRefersTo(st, Reordered(offs, order))
    requires (r, off) == B.CreateVector(st, Reordered(offs, order)) && |r.msg| < TWO31
    ensures HoldsAt(r.msg, off, Vec(Reordered(objs, order)))
    ensures HaveKeys(Reordered(objs, order), Reordered(ks, order)) && SortedKeys(Reordered(ks, order))
    ensures forall key :: key in Reordered(ks, order) <==> key in ks
  {
    hide HoldsAt, B.CreateVector, Reordered, HasKey, SortedKeys;
    ReorderedHold(st.msg, offs, objs, ks, order);
    CreateVectorHolds(st, Reordered(offs, order), Reordered(objs, order), r, off);
    forall key
      ensures key in Reordered(ks, order) <==> key in ks
    {
      SameElements(ks, order, key);
    }
  }

  /** The size of a vector does not depend on the order of its elements. */
  lemma VectorSizeSame(st: B.State, offs: seq<nat>, offs': seq<nat>)
    requires B.AllRefersTo(st, offs) && B.AllRefersTo(st, offs') && |offs'| == |offs|
    ensures |B.CreateVector(st, offs').0.msg| == |B.CreateVector(st, offs).0.msg|
  {
    hide Aligned, B.PushOffsets, B.StartVector;
    var a := B.StartVector(st, |offs|, 4);
    StartVectorAligns(st, |offs|, a);
    PushOffsetsSize(a, offs);
    PushOffsetsSize(a, offs');
    PushElementFacts(B.PushOffsets(a, offs).(nested := false), 4, |offs|);
    PushElementFacts(B.PushOffsets(a, offs').(nested := false), 4, |offs|);
    AlignFacts(B.PushOffsets(a, offs).(nested := false), 4);
    AlignFacts(B.PushOffsets(a, offs').(nested := false), 4);
  }

  /** The offsets lead to tables whose keys can be compared. */
  ghost predicate Comparable(m: bytes, offs: seq<nat>, ks: seq<bytes>) {
    && |offs| == |ks|
    && forall i | 0 <= i < |offs| ::
         offs[i] <= |m| && KeyReadable(m, |m| - offs[i]) && KeyContents(m, |m| - offs[i]) == ks[i]
  }

  lemma HeldComparable(m: bytes, offs: seq<nat>, objs: seq<Object>, ks: seq<bytes>)
    requires AllHold(m, offs, objs) && HaveKeys(objs, ks)
    ensures Comparable(m, offs, ks)
  {
    hide Holds, KeyReadable, KeyContents, HasKey;
    forall i | 0 <= i < |offs|
      ensures offs[i] <= |m| && KeyReadable(m, |m| - offs[i]) && KeyContents(m, |m| - offs[i]) == ks[i]
    {
      assert HoldsAt(m, offs[i], objs[i]);
      KeyHeld(m, |m| - offs[i], objs[i], ks[i]);
    }
  }

  lemma SortedFromOrder(ks: seq<bytes>, order: seq<nat>)
    requires IsOrder(order, |ks|) && InOrder(ks, order)
    ensures SortsTables(ks, order)
  {
    hide StringLessThan;
    var r := Reordered(ks, order);
    forall j, k | 0 <= j < k < |r|
      ensures !StringLessThan(r[k], r[j])
    {
      assert r[k] == Nth(ks, order[k]) && r[j] == Nth(ks, order[j]);
    }
  }

  predicate KeyAtOffset(m: bytes, off: nat) {
    off <= |m| && KeyReadable(m, |m| - off)
  }

  /** Compares the tables at two of the offsets, as TableKeyComparator does: less or not. */
  function CompareTables(m: bytes, a: nat, b: nat): int
    requires KeyAtOffset(m, a) && KeyAtOffset(m, b)
  {
    if KeyCompareLessThan(m, |m| - a, |m| - b) then -1 else 1
  }

  /** The order that sorts the tables of a message by key. */
  method SortOffsets(m: bytes, offs: seq<nat>, ghost ks: seq<bytes>) returns (sorted: seq<nat>)
    requires Comparable(m, offs, ks)
    ensures SortsTables(ks, sorted)
  {
    ComparableLength(m, offs, ks);
    KeysCompare(m, offs, ks);
    hide StringLessThan, InOrder, IsOrder, Comparable, SortsTables, KeyAtOffset, CompareTables;
    var compare: (nat, nat) --> int :=
      (i: nat, j: nat) requires i < |offs| && j < |offs| && KeyAtOffset(m, offs[i]) && KeyAtOffset(m, offs[j]) =>
        CompareTables(m, offs[i], offs[j]);
    var equal;
    sorted, equal := InsertionSort(|offs|, compare, ks);
    SortedFromOrder(ks, sorted);
  }

  /** The same for the message being built. */
  method SortOrder(fbb: FlatBufferBuilder, offs: seq<nat>, ghost ks: seq<bytes>) returns (sorted: seq<nat>)
    requires fbb.Valid() && Comparable(fbb.State().msg, offs, ks)
    ensures SortsTables(ks, sorted)
  {
    hide Comparable, SortsTables, EncodeLocs, EncodeOffsets;
    var m := fbb.buf.MessageBytes(0, fbb.GetSize());
    assert m == fbb.State().msg;
    sorted := SortOffsets(m, offs, ks);
  }

  lemma KeysCompare(m: bytes, offs: seq<nat>, ks: seq<bytes>)
    requires Comparable(m, offs, ks)
    ensures |offs| == |ks| && forall i | 0 <= i < |ks| :: KeyAtOffset(m, offs[i])
    ensures forall i, j | 0 <= i < |ks| && 0 <= j < |ks| ::
              CompareTables(m, offs[i], offs[j]) < 0 <==> StringLessThan(ks[i], ks[j])
  {
    hide StringLessThan, KeyReadable, KeyContents;
  }

  lemma ComparableLength(m: bytes, offs: seq<nat>, ks: seq<bytes>)
    requires Comparable(m, offs, ks)
    ensures |offs| == |ks|
  {}

  /** Puts the elements into the array in the given order. */
  method Rearrange(v: array<nat>, offs: seq<nat>, order: seq<nat>)
    requires v.Length == |offs| && IsOrder(order, |offs|)
    modifies v
    ensures v[..] == Reordered(offs, order)
  {
    hide Reordered, IsOrder;
    var j := 0;
    while j < v.Length
      invariant j <= v.Length
      invariant v[..j] == Reordered(offs, order)[..j]
    {
      ReorderedAt(offs, order, j);
      v[j] := offs[order[j]];
      j := j + 1;
    }
    assert v[..] == v[..v.Length] == Reordered(offs, order);
  }

  /** Sorts the caller's array of offsets in place and writes it as a vector. */
  method CreateVectorOfSortedTables(fbb: FlatBufferBuilder, v: array<nat>, ghost objs: seq<Object>,
                                    ghost ks: seq<bytes>)
    returns (off: nat, ghost order: seq<nat>)
    requires fbb.Valid() && fbb.NotNested() && B.AllRefersTo(fbb.State(), v[..])
    requires AllHold(fbb.State().msg, v[..], objs) && HaveKeys(objs, ks)
    requires |B.CreateVector(fbb.State(), v[..]).0.msg| < MAX_BUFFER_SIZE
    modifies v, fbb, fbb.buf, fbb.buf.buf
    ensures fbb.Valid() && SortsTables(ks, order) && |ks| == v.Length
    ensures v[..] == Reordered(old(v[..]), order) && B.AllRefersTo(old(fbb.State()), v[..])
    ensures (fbb.State(), off) == B.CreateVector(old(fbb.State()), v[..])
  {
    hide HoldsAt, HasKey, SortedKeys, B.CreateVector, Reordered, IsOrder, EncodeLocs, EncodeOffsets;
    ghost var st := fbb.State();
    var offs := v[..];
    HeldComparable(st.msg, offs, objs, ks);
    var sorted := SortOrder(fbb, offs, ks);
    order := sorted;
    Rearrange(v, offs, sorted);
    ReorderedRefer(st, offs, sorted);
    VectorSizeSame(st, offs, v[..]);
    off := fbb.CreateVector(v[..]);
  }

  lemma ReorderedAt(offs: seq<nat>, order: seq<nat>, j: nat)
    requires IsOrder(order, |offs|) && j < |offs|
    ensures |order| == |offs| && order[j] < |offs| && Reordered(offs, order)[j] == offs[order[j]]
  {}

  lemma ReorderedRefer(st: B.State, offs: seq<nat>, order: seq<nat>)
    requires IsOrder(order, |offs|) && B.AllRefersTo(st, offs)
    ensures B.AllRefersTo(st, Reordered(offs, order))
  {}
}
