/** Every Create operation returns the offset of an object that reads as what it was given,
  * and keeps every object created before. */
module Creation {
  import opened Bytes
  import opened Padding
  import opened Tables
  import opened Objects
  import opened Builder
  import opened TableFields
  import opened Adds

  /** The object x is found at offset e from the end of m. */
  ghost predicate HoldsAt(m: bytes, e: nat, x: Object) {
    0 < e <= |m| && Holds(m, |m| - e, x)
  }

  predicate Suffix(s: bytes, m: bytes) {
    |s| <= |m| && m[|m| - |s|..] == s
  }

  lemma SuffixLength(s: bytes, m: bytes)
    requires Suffix(s, m)
    ensures |s| <= |m|
  {}

  lemma SuffixTransitive(a: bytes, b: bytes, c: bytes)
    requires Suffix(a, b) && Suffix(b, c)
    ensures Suffix(a, c)
  {
    SuffixTrans(a, b, c);
  }

  /** Growth at the front keeps objects at their offset. */
  lemma HoldsAtKept(m: bytes, r: bytes, e: nat, x: Object)
    requires HoldsAt(m, e, x) && Suffix(m, r)
    ensures HoldsAt(r, e, x)
  {
    SuffixSplit(r, m);
    ShiftObject(r[..|r| - |m|], m, |m| - e, x);
  }

  // Tables

  /** What the field added by add stands for, once dropped defaults and null offsets are absent. */
  ghost predicate FieldMeans(m: bytes, add: Add, force: bool, f: Field) {
    if !Kept(add, force) then f == Absent
    else
      match add
      case Element(_, w, v, _) => f == Scalar(w, v)
      case Offset(_, off) => f.Ref? && HoldsAt(m, off, f.obj)
  }

  ghost predicate FieldsMean(m: bytes, adds: seq<Add>, force: bool, fields: seq<Field>) {
    && |fields| == |adds|
    && forall k | 0 <= k < |adds| :: FieldMeans(m, adds[k], force, fields[k])
  }

  function Ids(adds: seq<Add>): (r: seq<nat>)
    ensures |r| == |adds|
  {
    seq(|adds|, k requires 0 <= k < |adds| => adds[k].id)
  }

  /** The value given for field id, Absent if none was. */
  function FieldFor(ids: seq<nat>, fields: seq<Field>, id: nat): Field
    requires |fields| == |ids|
  {
    if ids == [] then Absent
    else if ids[0] == id then fields[0]
    else FieldFor(ids[1..], fields[1..], id)
  }

  /** The largest identifier of a field that is present, 0 if all are absent. */
  function MaxPresent(ids: seq<nat>, fields: seq<Field>): nat
    requires |fields| == |ids|
  {
    if ids == [] then 0
    else Max(if fields[0] == Absent then 0 else ids[0], MaxPresent(ids[1..], fields[1..]))
  }

  function SlotCount(ids: seq<nat>, fields: seq<Field>): nat
    requires |fields| == |ids|
  {
    (Max(MaxPresent(ids, fields) + 2, 4) - 4) / 2
  }

  /** The table with these values in these fields: one slot up to the last field present. */
  function TableObject(ids: seq<nat>, fields: seq<Field>): Object
    requires |fields| == |ids|
  {
    Tab(seq(SlotCount(ids, fields), i requires 0 <= i => FieldFor(ids, fields, FieldIndexToOffset(i))))
  }

  lemma {:induction false} FieldForIs(ids: seq<nat>, fields: seq<Field>, id: nat)
    requires |fields| == |ids|
    ensures (FieldFor(ids, fields, id) == Absent && forall k | 0 <= k < |ids| :: ids[k] != id)
         || exists k :: 0 <= k < |ids| && ids[k] == id && FieldFor(ids, fields, id) == fields[k]
  {
    if ids != [] && ids[0] != id {
      FieldForIs(ids[1..], fields[1..], id);
      if k :| 0 <= k < |ids| - 1 && ids[1..][k] == id && FieldFor(ids, fields, id) == fields[1..][k] {
        assert ids[k + 1] == id && FieldFor(ids, fields, id) == fields[k + 1];
      }
    } else if ids != [] {
      assert ids[0] == id && FieldFor(ids, fields, id) == fields[0];
    }
  }

  lemma {:induction false} MaxIdAttained(adds: seq<Add>)
    ensures MaxId(adds) == 0 || exists add :: add in adds && add.id == MaxId(adds)
  {
    if adds != [] {
      MaxIdAttained(adds[..|adds| - 1]);
      assert adds[|adds| - 1] in adds;
      assert adds == adds[..|adds| - 1] + [adds[|adds| - 1]];
    }
  }

  lemma {:induction false} MaxPresentBounds(ids: seq<nat>, fields: seq<Field>, k: nat)
    requires |fields| == |ids| && k < |ids| && fields[k] != Absent
    ensures ids[k] <= MaxPresent(ids, fields)
  {
    if k > 0 {
      MaxPresentBounds(ids[1..], fields[1..], k - 1);
    }
  }

  lemma {:induction false} MaxPresentAttained(ids: seq<nat>, fields: seq<Field>)
    requires |fields| == |ids|
    ensures MaxPresent(ids, fields) == 0
         || exists k :: 0 <= k < |ids| && fields[k] != Absent && ids[k] == MaxPresent(ids, fields)
  {
    if ids != [] {
      MaxPresentAttained(ids[1..], fields[1..]);
      if k :| 0 <= k < |ids| - 1 && fields[1..][k] != Absent && ids[1..][k] == MaxPresent(ids[1..], fields[1..]) {
        assert fields[k + 1] != Absent && ids[k + 1] == MaxPresent(ids[1..], fields[1..]);
      }
      if fields[0] != Absent && ids[0] == MaxPresent(ids, fields) {
        assert ids[0] == MaxPresent(ids, fields);
      }
    }
  }

  /** The fields present are those that were kept. */
  lemma MaxPresentIsMaxId(m: bytes, adds: seq<Add>, force: bool, fields: seq<Field>)
    requires FieldsMean(m, adds, force, fields)
    ensures MaxPresent(Ids(adds), fields) == MaxId(KeptAdds(adds, force))
  {
    hide HoldsAt;
    var kept := KeptAdds(adds, force);
    MaxIdAttained(kept);
    if add :| add in kept && add.id == MaxId(kept) {
      KeptMembers(adds, force, add);
      var k :| 0 <= k < |adds| && adds[k] == add;
      assert FieldMeans(m, adds[k], force, fields[k]);
      MaxPresentBounds(Ids(adds), fields, k);
    }
    MaxPresentAttained(Ids(adds), fields);
    if k :| 0 <= k < |adds| && fields[k] != Absent && Ids(adds)[k] == MaxPresent(Ids(adds), fields) {
      assert FieldMeans(m, adds[k], force, fields[k]);
      KeptMembers(adds, force, adds[k]);
      MaxIdBounds(kept, adds[k]);
    }
  }

  lemma AddHolds(m: bytes, pos: int, add: Add, force: bool, f: Field)
    requires AddReads(m, pos, add, force) && FieldMeans(m, add, force, f)
    ensures HoldsField(m, pos, SlotOf(add.id), f)
  {
    hide HoldsOffset, HoldsScalar, FieldReadable, Slot, Holds;
    assert FieldIndexToOffset(SlotOf(add.id)) == add.id;
  }

  lemma FieldMeansKept(m: bytes, r: bytes, add: Add, force: bool, f: Field)
    requires FieldMeans(m, add, force, f) && Suffix(m, r)
    ensures FieldMeans(r, add, force, f)
  {
    if Kept(add, force) && add.Offset? {
      HoldsAtKept(m, r, add.off, f.obj);
    }
  }

  lemma FieldsMeanKept(m: bytes, r: bytes, adds: seq<Add>, force: bool, fields: seq<Field>)
    requires FieldsMean(m, adds, force, fields) && Suffix(m, r)
    ensures FieldsMean(r, adds, force, fields)
  {
    hide FieldMeans;
    forall k | 0 <= k < |adds|
      ensures FieldMeans(r, adds[k], force, fields[k])
    {
      FieldMeansKept(m, r, adds[k], force, fields[k]);
    }
  }

  lemma TableHoldsSlot(m: bytes, pos: int, adds: seq<Add>, fields: seq<Field>, force: bool, i: nat)
    requires |fields| == |adds|
    requires AddsRead(m, pos, adds, force) && FieldsMean(m, adds, force, fields)
    ensures HoldsField(m, pos, i, FieldFor(Ids(adds), fields, FieldIndexToOffset(i)))
  {
    hide FieldMeans, AddReads, NoField, HoldsField;
    var id := FieldIndexToOffset(i);
    FieldForIs(Ids(adds), fields, id);
    if k :| 0 <= k < |adds| && Ids(adds)[k] == id && FieldFor(Ids(adds), fields, id) == fields[k] {
      assert AddReads(m, pos, adds[k], force);
      AddHolds(m, pos, adds[k], force, fields[k]);
    } else {
      assert forall k | 0 <= k < |adds| :: adds[k].id == Ids(adds)[k];
      assert NoField(m, pos, i);
      AbsentHolds(m, pos, i);
    }
  }

  lemma TableHolds(m: bytes, pos: int, adds: seq<Add>, fields: seq<Field>, force: bool)
    requires |fields| == |adds|
    requires AddsRead(m, pos, adds, force) && FieldsMean(m, adds, force, fields)
    requires HoldsTable(m, pos, SlotCount(Ids(adds), fields))
    ensures Holds(m, pos, TableObject(Ids(adds), fields))
  {
    hide AddsRead, FieldsMean, HoldsTable, HoldsField;
    var x := TableObject(Ids(adds), fields);
    forall i | 0 <= i < |x.fields|
      ensures HoldsField(m, pos, i, x.fields[i])
    {
      TableHoldsSlot(m, pos, adds, fields, force, i);
    }
  }

  lemma BuiltSlots(st: State, adds: seq<Add>, fields: seq<Field>, r: State, loc: nat)
    requires |fields| == |adds| && ValidTable(st, adds) && FieldsMean(st.msg, adds, st.forceDefaults, fields)
    requires (r, loc) == BuildTable(st, adds)
    ensures 0 < loc <= |r.msg| && Suffix(st.msg, r.msg)
    ensures HoldsTable(r.msg, |r.msg| - loc, SlotCount(Ids(adds), fields))
  {
    hide BuildTable, FieldsMean, ValidTable, HoldsTable, SlotsLead, EntriesAt, KeptAdds, MaxId, MaxPresent;
    BuildTableBuilds(st, adds, r, loc);
    MaxPresentIsMaxId(st.msg, adds, st.forceDefaults, fields);
  }

  /** The table holds what its additions mean. */
  lemma BuildTableHolds(st: State, adds: seq<Add>, fields: seq<Field>, r: State, loc: nat)
    requires |fields| == |adds| && ValidTable(st, adds) && FieldsMean(st.msg, adds, st.forceDefaults, fields)
    requires (r, loc) == BuildTable(st, adds)
    ensures HoldsAt(r.msg, loc, TableObject(Ids(adds), fields)) && Suffix(st.msg, r.msg)
  {
    hide BuildTable, ValidTable, Holds, AddsRead, FieldsMean, HoldsTable, Suffix;
    BuiltSlots(st, adds, fields, r, loc);
    BuildTableReads(st, adds, r, loc);
    FieldsMeanKept(st.msg, r.msg, adds, st.forceDefaults, fields);
    TableHolds(r.msg, |r.msg| - loc, adds, fields, st.forceDefaults);
  }

  lemma AbsentHolds(m: bytes, pos: int, i: nat)
    requires NoField(m, pos, i)
    ensures HoldsField(m, pos, i, Absent)
  {}

  /** A table's scalars are as wide as those of its fields. */
  lemma TableWithin(ids: seq<nat>, fields: seq<Field>, a: nat)
    requires |fields| == |ids| && forall k | 0 <= k < |fields| :: FieldWithin(fields[k], a)
    ensures WidthsWithin(TableObject(ids, fields), a)
  {
    hide FieldWithin;
    var x := TableObject(ids, fields);
    forall i | 0 <= i < |x.fields|
      ensures FieldWithin(x.fields[i], a)
    {
      FieldForIs(ids, fields, FieldIndexToOffset(i));
      AbsentWithin(a);
    }
  }

  lemma AbsentWithin(a: nat)
    ensures FieldWithin(Absent, a)
  {}

  // Strings

  lemma CreateStringBytes(st: State, s: bytes, r: State, off: nat)
    requires (r, off) == CreateString(st, s)
    ensures var body := s + Zeros(1) + PreAlign(st, |s| + 1, 4).msg;
            && Aligned(|body|, 4)
            && r == st.(msg := Encode(|s|, 4) + body, minAlign := Max(4, st.minAlign))
  {
    hide Aligned, PaddingBytes;
    var n := |s| + 1;
    var a := PreAlign(st, n, 4);
    PaddingAligns(|st.msg| + n, 4);
    var body := s + Zeros(1) + a.msg;
    assert PushBytes(Fill(a, 1), s).msg == body by {
      ConcatAssoc(s, Zeros(1), a.msg);
    }
    assert |body| == |st.msg| + n + PaddingBytes(|st.msg| + n, 4);
    NoPadding(|body|, 4);
    assert Encode(|s|, 4) + (Zeros(0) + body) == Encode(|s|, 4) + body;
  }

  lemma StringBytesHold(s: bytes, rest: bytes)
    requires |s| < TWO31
    requires Aligned(|s + Zeros(1) + rest|, 4)
    ensures HoldsString(Encode(|s|, 4) + (s + Zeros(1) + rest), 0, s)
  {
    hide Aligned;
    var body := s + Zeros(1) + rest;
    var m := Encode(|s|, 4) + body;
    Pow256Values();
    PushReads(body, 4, |s|);
    assert m[4..4 + |s|] == s;
    assert m[4 + |s|] == Zeros(1)[0];
    AlignedSelf(4);
    AlignedSum(4, |body|, 4);
  }

  /** The string's contents, NUL bytes included, its length and its terminator are there. */
  lemma CreateStringHolds(st: State, s: bytes, r: State, off: nat)
    requires (r, off) == CreateString(st, s) && |r.msg| < TWO31
    ensures HoldsAt(r.msg, off, Str(s)) && Suffix(st.msg, r.msg)
    ensures r == st.(msg := r.msg, minAlign := Max(4, st.minAlign))
  {
    hide Aligned, CreateString, PaddingBytes, Encode, HoldsString;
    assert off == |r.msg| by {
      StringOffset(st, s);
    }
    CreateStringBytes(st, s, r, off);
    var a := PreAlign(st, |s| + 1, 4).msg;
    StringBytesHold(s, a);
    BehindString(Encode(|s|, 4), s + Zeros(1), a, st.msg);
  }

  lemma StringOffset(st: State, s: bytes)
    ensures CreateString(st, s).1 == |CreateString(st, s).0.msg|
  {
    hide PushElement, PreAlign;
  }

  lemma BehindString(length: bytes, body: bytes, a: bytes, m: bytes)
    requires Suffix(m, a)
    ensures Suffix(m, length + (body + a))
  {}

  // Vectors of offsets

  /** Slot i of the vector under construction leads to the i-th object. */
  predicate OffsetsAt(m: bytes, offs: seq<nat>) {
    && 4 * |offs| <= |m|
    && forall i | 0 <= i < |offs| :: EntryAt(m, |m| - 4 * i, OffsetEntry(offs[i]))
  }

  lemma OffsetsGrow(q: State, p: State, offs: seq<nat>)
    requires offs != [] && OffsetsAt(q.msg, offs[1..])
    requires Pushed(q, p, OffsetEntry(offs[0])) && |p.msg| == |q.msg| + 4
    ensures OffsetsAt(p.msg, offs)
  {
    hide EntryAt;
    SuffixSplit(p.msg, q.msg);
    forall i | 0 <= i < |offs|
      ensures EntryAt(p.msg, |p.msg| - 4 * i, OffsetEntry(offs[i]))
    {
      if i > 0 {
        assert EntryAt(q.msg, |q.msg| - 4 * (i - 1), OffsetEntry(offs[1..][i - 1]));
        assert |q.msg| - 4 * (i - 1) == |p.msg| - 4 * i;
        EntryShift(p.msg[..|p.msg| - |q.msg|], q.msg, |p.msg| - 4 * i, OffsetEntry(offs[i]));
      }
    }
  }

  lemma {:induction false} PushOffsetsRead(st: State, offs: seq<nat>, r: State)
    requires Aligned(|st.msg|, 4) && AllRefersTo(st, offs)
    requires r == PushOffsets(st, offs) && |r.msg| < TWO31
    ensures OffsetsAt(r.msg, offs) && Extends(st, r) && Suffix(st.msg, r.msg)
    ensures |r.msg| == |st.msg| + 4 * |offs| && Aligned(|r.msg|, 4)
    ensures r == st.(msg := r.msg, minAlign := if offs == [] then st.minAlign else Max(4, st.minAlign))
  {
    hide Aligned, PushOffset, EntryAt;
    if offs != [] {
      var q := PushOffsets(st, offs[1..]);
      PushOffsetsRead(st, offs[1..], q);
      PushOffsetEntry(q, offs[0], r);
      NoPadding(|q.msg|, 4);
      AlignFacts(q, 4);
      OffsetsGrow(q, r, offs);
      ExtendsTrans(st, q, r);
      AlignedSelf(4);
      AlignedSum(4, |q.msg|, 4);
    }
  }

  lemma PushOffsetSize(st: State, off: nat)
    requires 0 < off <= |st.msg| && Aligned(|st.msg|, 4)
    ensures |PushOffset(st, off).msg| == |st.msg| + 4 && Aligned(|PushOffset(st, off).msg|, 4)
  {
    hide Aligned, Align;
    AlignFacts(st, 4);
    NoPadding(|st.msg|, 4);
    var a := Align(st, 4);
    PushElementFacts(a, 4, Distance(a, off));
    AlignFacts(a, 4);
  }

  lemma {:induction false} PushOffsetsSize(st: State, offs: seq<nat>)
    requires AllRefersTo(st, offs) && Aligned(|st.msg|, 4)
    ensures |PushOffsets(st, offs).msg| == |st.msg| + 4 * |offs| && Aligned(|PushOffsets(st, offs).msg|, 4)
  {
    hide Aligned, PushOffset;
    if offs != [] {
      PushOffsetsSize(st, offs[1..]);
      PushOffsetSize(PushOffsets(st, offs[1..]), offs[0]);
    }
  }

  lemma StartVectorAligns(st: State, n: nat, a: State)
    requires a == StartVector(st, n, 4)
    ensures Aligned(|a.msg|, 4) && Suffix(st.msg, a.msg)
    ensures a == st.(msg := a.msg, minAlign := Max(4, st.minAlign), nested := true)
  {
    hide Aligned, PaddingBytes;
    PaddingAligns(|st.msg| + 4 * n, 4);
    var b := PreAlign(st.(nested := true), 4 * n, 4);
    NoPadding(|b.msg| + 4 * n, 4);
    assert n * 4 == 4 * n;
    assert Zeros(0) + b.msg == b.msg;
    assert a.msg == b.msg;
    AlignedTimes4(n);
    AlignedSum(|b.msg|, 4 * n, 4);
  }

  lemma AlignedTimes4(n: nat)
    ensures Aligned(4 * n, 4)
  {}

  /** Each element of the vector leads to the object it was given. */
  lemma CreateVectorHolds(st: State, offs: seq<nat>, objs: seq<Object>, r: State, off: nat)
    requires |objs| == |offs| && AllRefersTo(st, offs)
    requires forall i | 0 <= i < |offs| :: HoldsAt(st.msg, offs[i], objs[i])
    requires (r, off) == CreateVector(st, offs) && |r.msg| < TWO31
    ensures HoldsAt(r.msg, off, Vec(objs)) && Suffix(st.msg, r.msg)
    ensures r == st.(msg := r.msg, minAlign := Max(4, st.minAlign), nested := false)
  {
    hide Aligned, StartVector, PushOffset, PushOffsets, PushElement, OffsetsAt, HoldsVector, HoldsRef, Holds, Suffix;
    var n := |offs|;
    var a := StartVector(st, n, 4);
    StartVectorAligns(st, n, a);
    assert AllRefersTo(a, offs) by {
      SuffixLength(st.msg, a.msg);
    }
    var p := PushOffsets(a, offs);
    assert r == EndVector(p, n);
    PushOffsetsRead(a, offs, p);
    VectorCloses(p, n, r);
    SuffixTransitive(st.msg, a.msg, p.msg);
    SuffixTransitive(st.msg, p.msg, r.msg);
    forall i | 0 <= i < n
      ensures HoldsRef(r.msg, 4 + 4 * i, objs[i])
    {
      ElementHolds(st.msg, p.msg, r.msg, offs, i, objs[i]);
    }
    VectorHolds(r.msg, objs);
  }

  lemma VectorHolds(m: bytes, objs: seq<Object>)
    requires HoldsVector(m, 0, |objs|)
    requires forall i | 0 <= i < |objs| :: HoldsRef(m, 4 + 4 * i, objs[i])
    ensures Holds(m, 0, Vec(objs))
  {}

  lemma VectorCloses(p: State, n: nat, r: State)
    requires Aligned(|p.msg|, 4) && 4 * n <= |p.msg| && r == EndVector(p, n) && |r.msg| < TWO31
    ensures HoldsVector(r.msg, 0, n) && Suffix(p.msg, r.msg) && |r.msg| == |p.msg| + 4
    ensures r == p.(msg := r.msg, minAlign := Max(4, p.minAlign), nested := false)
  {
    hide Aligned, Align;
    Pow256Values();
    PushElementFacts(p.(nested := false), 4, n);
    AlignFacts(p.(nested := false), 4);
    NoPadding(|p.msg|, 4);
  }

  lemma ElementHolds(sm: bytes, m: bytes, r: bytes, offs: seq<nat>, i: nat, x: Object)
    requires i < |offs| && OffsetsAt(m, offs) && HoldsAt(sm, offs[i], x)
    requires Suffix(sm, r) && Suffix(m, r) && |r| == |m| + 4 && |r| < TWO31
    ensures HoldsRef(r, 4 + 4 * i, x)
  {
    hide EntryAt, Holds;
    HoldsAtKept(sm, r, offs[i], x);
    SuffixSplit(r, m);
    EntryShift(r[..4], m, |m| - 4 * i, OffsetEntry(offs[i]));
    EntryLeads(r, 4 + 4 * i, offs[i], x);
  }

  lemma EntryLeads(m: bytes, q: nat, off: nat, x: Object)
    requires q <= |m| < TWO31 && EntryAt(m, |m| - q, OffsetEntry(off)) && HoldsAt(m, off, x)
    ensures HoldsRef(m, q, x)
  {
    hide Aligned, Holds;
  }
}
