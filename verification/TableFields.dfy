/** Table field semantics: after EndTable every field reads as what was added to it. */
module TableFields {
  import opened Bytes
  import opened Padding
  import opened Tables
  import opened Objects
  import opened Builder

  /** What was stored for one field: a scalar, or a reference to an object written before. */
  datatype Entry = ScalarEntry(w: Alignment, v: nat) | OffsetEntry(off: nat)

  function EntryWidth(entry: Entry): Alignment {
    if entry.ScalarEntry? then entry.w else 4
  }

  /** The entry is found at offset e from the end of m. */
  predicate EntryAt(m: bytes, e: nat, entry: Entry) {
    && e <= |m|
    && match entry
       case ScalarEntry(w, v) => w <= e && Aligned(e, w) && ReadScalar(m, |m| - e, w) == v
       case OffsetEntry(off) => 4 <= e && Aligned(e, 4) && 0 < off < e && ReadScalar(m, |m| - e, 4) == e - off
  }

  lemma EntryShift(pre: bytes, m: bytes, e: nat, entry: Entry)
    requires EntryAt(m, e, entry)
    ensures EntryAt(pre + m, e, entry)
  {
    ReadShift(pre, m, |m| - e, if entry.ScalarEntry? then entry.w else 4);
  }

  /** entries[k] is what was stored at locs[k]. */
  predicate EntriesAt(m: bytes, locs: seq<FieldLoc>, entries: seq<Entry>) {
    && |locs| == |entries|
    && forall k | 0 <= k < |locs| :: EntryAt(m, locs[k].off, entries[k])
  }

  lemma EntriesShift(pre: bytes, m: bytes, locs: seq<FieldLoc>, entries: seq<Entry>)
    requires EntriesAt(m, locs, entries)
    ensures EntriesAt(pre + m, locs, entries)
  {
    forall k | 0 <= k < |locs|
      ensures EntryAt(pre + m, locs[k].off, entries[k])
    {
      EntryShift(pre, m, locs[k].off, entries[k]);
    }
  }

  predicate IsField(id: nat) {
    id >= 4 && id % 2 == 0
  }

  predicate DistinctFields(locs: seq<FieldLoc>) {
    && (forall k | 0 <= k < |locs| :: IsField(locs[k].id))
    && forall j, k | 0 <= j < k < |locs| :: locs[j].id != locs[k].id
  }

  /** Index of the entry for a field, if it has one. */
  function IndexOf(locs: seq<FieldLoc>, id: nat): (r: Option<nat>)
    ensures r.Some? ==> r.value < |locs| && locs[r.value].id == id
    ensures r.None? ==> forall k | 0 <= k < |locs| :: locs[k].id != id
  {
    if locs == [] then None
    else if locs[0].id == id then Some(0)
    else match IndexOf(locs[1..], id)
      case None => None
      case Some(k) => Some(k + 1)
  }

  lemma WriteEntryReads(vt: bytes, id: nat, v: nat, id': nat)
    requires id + 2 <= |vt| && id' + 2 <= |vt| && id % 2 == id' % 2
    ensures ReadScalar(WriteEntry(vt, id, v), id', 2) == if id == id' then v % 0x1_0000 else ReadScalar(vt, id', 2)
  {
    var r := WriteEntry(vt, id, v);
    if id == id' {
      Pow256Values();
      assert r[id..id + 2] == Encode(v, 2);
      assert Encode(v, 2) == [v % 256] + Encode(v / 256, 1);
      assert Encode(v / 256, 1) == [v / 256 % 256] + Encode(v / 256 / 256, 0);
      assert Decode(Encode(v, 2)) == v % 256 + 256 * (v / 256 % 256) by {
        assert Encode(v, 2)[1..] == [v / 256 % 256];
        assert Decode([v / 256 % 256]) == v / 256 % 256;
      }
    } else {
      assert r[id'..id' + 2] == vt[id'..id' + 2];
    }
  }

  /** The filled vtable: an entry for each recorded field, the rest as before. */
  lemma {:induction false} FillVTableReads(vt: bytes, locs: seq<FieldLoc>, loc: nat, id: nat)
    requires LocsFit(locs, |vt|, loc) && DistinctFields(locs)
    requires forall k | 0 <= k < |locs| :: loc - locs[k].off < 0x1_0000
    requires id + 2 <= |vt| && id % 2 == 0
    ensures ReadScalar(FillVTable(vt, locs, loc), id, 2) ==
            match IndexOf(locs, id) case None => ReadScalar(vt, id, 2) case Some(k) => loc - locs[k].off
    decreases |locs|
  {
    if locs != [] {
      var vt' := WriteEntry(vt, locs[0].id, loc - locs[0].off);
      FillVTableReads(vt', locs[1..], loc, id);
      WriteEntryReads(vt, locs[0].id, loc - locs[0].off, id);
    }
  }

  lemma HeaderReads(size: nat, tableSize: nat, id: nat)
    requires 4 <= size < 0x1_0000
    requires id + 2 <= size && id % 2 == 0
    ensures id == 0 ==> ReadScalar(VTableHeader(size, tableSize), id, 2) == size
    ensures id == 2 && tableSize < 0x1_0000 ==> ReadScalar(VTableHeader(size, tableSize), id, 2) == tableSize
    ensures id >= 4 ==> ReadScalar(VTableHeader(size, tableSize), id, 2) == 0
  {
    hide Encode;
    var vt := VTableHeader(size, tableSize);
    Pow256Values();
    if id == 0 {
      assert vt == [] + Encode(size, 2) + (Encode(tableSize, 2) + Zeros(size - 4));
      ReadWritten([], size, 2, Encode(tableSize, 2) + Zeros(size - 4));
    } else if id == 2 && tableSize < 0x1_0000 {
      ReadWritten(Encode(size, 2), tableSize, 2, Zeros(size - 4));
    } else if id >= 4 {
      assert vt[id..id + 2] == [0, 0];
      assert Decode([0, 0]) == 0 by {
        assert [0, 0][1..] == [0];
        assert Decode([0]) == 0;
      }
    }
  }

  /** What may be ended as a table: the source's assertions, and fields within 16-bit reach. */
  predicate TableReady(st: State, start: nat) {
    && CanEndTable(st, start)
    && DistinctFields(st.locs)
    && st.maxVoffset + 2 < 0x1_0000 && st.maxVoffset % 2 == 0
    && (forall k | 0 <= k < |st.locs| :: start < st.locs[k].off)
    && TableEnd(st) - start < 0x1_0000
  }

  /** Where the table's first word will be, counted from the end. */
  function TableEnd(st: State): nat {
    |PushElement(st, 4, 0).msg|
  }

  lemma AlignFacts(st: State, w: Alignment)
    ensures var r := Align(st, w);
            && FirstAligned(|r.msg|, |st.msg|, w)
            && r.msg == Zeros(PaddingBytes(|st.msg|, w)) + st.msg
            && r == st.(msg := r.msg, minAlign := r.minAlign)
            && r.minAlign == Max(w, st.minAlign)
  {
    PaddingAligns(|st.msg|, w);
  }

  /** A scalar of w bytes is put, behind as few zeros as possible, where its end is a multiple of w. */
  lemma PushElementFacts(st: State, w: Alignment, v: nat)
    ensures var r := PushElement(st, w, v);
            && |r.msg| == |Align(st, w).msg| + w
            && FirstAligned(|r.msg|, |st.msg| + w, w)
            && r.msg[|r.msg| - |st.msg|..] == st.msg
            && (forall q | w <= q < |r.msg| - |st.msg| :: r.msg[q] == 0)
            && r == st.(msg := r.msg, minAlign := r.minAlign)
            && r.minAlign == Max(w, st.minAlign)
            && (v < Pow256(w) ==> ReadScalar(r.msg, 0, w) == v)
  {
    hide Align, Aligned;
    AlignFacts(st, w);
    var a := Align(st, w);
    AlignedSelf(w);
    AlignedSum(w, |a.msg|, w);
    PushReads(a.msg, w, v);
  }

  lemma PushReads(m: bytes, w: nat, v: nat)
    ensures v < Pow256(w) ==> ReadScalar(Encode(v, w) + m, 0, w) == v
  {
    assert Encode(v, w) + m == [] + Encode(v, w) + m;
    if v < Pow256(w) {
      ReadWritten([], v, w, m);
    }
  }

  /** The vtable MakeVTable writes, entry by entry. */
  lemma MakeVTableReads(st: State, start: nat, loc: nat, id: nat)
    requires DistinctFields(st.locs) && st.maxVoffset + 2 < 0x1_0000 && st.maxVoffset % 2 == 0
    requires start <= loc && LocsFit(st.locs, VTableSize(st), loc)
    requires forall k | 0 <= k < |st.locs| :: loc - st.locs[k].off < 0x1_0000
    requires loc - start < 0x1_0000
    requires id % 2 == 0 && id + 2 <= VTableSize(st)
    ensures ReadScalar(MakeVTable(st, start, loc), id, 2) ==
            if id == 0 then VTableSize(st)
            else if id == 2 then loc - start
            else match IndexOf(st.locs, id) case None => 0 case Some(k) => loc - st.locs[k].off
  {
    var size := VTableSize(st);
    HeaderReads(size, loc - start, id);
    FillVTableReads(VTableHeader(size, loc - start), st.locs, loc, id);
  }

  // The finished table.

  /** A recorded vtable lies in the message, has at least its two fixed entries and is even. */
  predicate ValidVTable(m: bytes, v: nat) {
    && 4 <= v <= |m| && Aligned(v, 2)
    && var size := ReadScalar(m, |m| - v, 2);
    && 4 <= size <= v && size % 2 == 0
  }

  predicate ValidVTables(m: bytes, vtables: seq<nat>) {
    forall v | v in vtables :: ValidVTable(m, v)
  }

  lemma ValidVTablesShift(pre: bytes, m: bytes, vtables: seq<nat>)
    requires ValidVTables(m, vtables)
    ensures ValidVTables(pre + m, vtables)
  {
    forall v | v in vtables
      ensures ValidVTable(pre + m, v)
    {
      ReadShift(pre, m, |m| - v, 2);
    }
  }

  lemma SuffixSplit(m: bytes, s: bytes)
    requires |s| <= |m| && m[|m| - |s|..] == s
    ensures m == m[..|m| - |s|] + s
  {}

  /** Messages with a common tail of n bytes agree from every offset e <= n from the end on. */
  lemma CommonTail(a: bytes, b: bytes, n: nat, e: nat, k: nat)
    requires n <= |a| && n <= |b| && a[|a| - n..] == b[|b| - n..]
    requires k <= e <= n
    ensures a[|a| - e..|a| - e + k] == b[|b| - e..|b| - e + k]
  {
    assert a[|a| - e..] == a[|a| - n..][n - e..];
    assert b[|b| - e..] == b[|b| - n..][n - e..];
    assert a[|a| - e..|a| - e + k] == a[|a| - e..][..k];
    assert b[|b| - e..|b| - e + k] == b[|b| - e..][..k];
  }

  /** The first word of a patched message, wherever it ends up, leads to the vtable. */
  lemma PatchReads(front: bytes, m: bytes, use: nat)
    requires |m| >= 4 && |front| + |m| < TWO31 && use < TWO31
    ensures GetVTable(front + Patch(m, use), |front|) == |front| + |m| - use
  {
    Pow256Values();
    assert front + Patch(m, use) == front + Encode(FromSigned32(use - |m|), 4) + m[4..];
    ReadWritten(front, FromSigned32(use - |m|), 4, m[4..]);
    SignedRoundTrip(use - |m|);
  }

  /** In the message r the table at loc leads to the vtable at use, which has the bytes vt; sm is kept. */
  predicate Laid(r: bytes, loc: nat, use: nat, vt: bytes, sm: bytes) {
    && |sm| + 4 <= loc <= |r|
    && r[|r| - |sm|..] == sm
    && GetVTable(r, |r| - loc) == |r| - use
    && |vt| <= use <= |r| && Aligned(use, 2)
    && r[|r| - use..|r| - use + |vt|] == vt
  }

  lemma LaidShared(sm: bytes, pm: bytes, vt: bytes, use: nat)
    requires |sm| + 4 <= |pm| < TWO31 && pm[|pm| - |sm|..] == sm
    requires ValidVTable(sm, use) && SameVTable(vt + pm, use, vt)
    ensures Laid([] + Patch(pm, use), |pm|, use, vt, sm)
  {
    var r := [] + Patch(pm, use);
    var w := vt + pm;
    PatchReads([], pm, use);
    assert r[|r| - |sm|..] == sm;
    assert w[|w| - |sm|..] == sm;
    CommonTail(sm, w, |sm|, use, 2);
    assert ReadScalar(sm, |sm| - use, 2) == ReadScalar(w, |w| - use, 2);
    CommonTail(w, r, |sm|, use, |vt|);
  }

  lemma LaidKept(sm: bytes, pm: bytes, vt: bytes)
    requires |sm| + 4 <= |pm| && |vt| + |pm| < TWO31 && pm[|pm| - |sm|..] == sm
    requires Aligned(|pm|, 4) && Aligned(|vt|, 2)
    ensures Laid(vt + Patch(pm, |vt| + |pm|), |pm|, |vt| + |pm|, vt, sm)
  {
    var r := vt + Patch(pm, |vt| + |pm|);
    PatchReads(vt, pm, |vt| + |pm|);
    AlignmentDivides(2, 4, |pm|);
    AlignedSum(|vt|, |pm|, 2);
    assert r[|r| - |sm|..] == sm;
  }

  /** What SealTable needs to know of the fields recorded in p. */
  predicate FieldsFit(p: State, start: nat, loc: nat) {
    && start <= loc < start + 0x1_0000
    && DistinctFields(p.locs) && p.maxVoffset + 2 < 0x1_0000 && p.maxVoffset % 2 == 0
    && LocsFit(p.locs, VTableSize(p), loc)
    && forall k | 0 <= k < |p.locs| :: 0 < loc - p.locs[k].off < 0x1_0000
  }

  /** The table's first word has been pushed in front of sm and the vtable may be written. */
  predicate ReadyToSeal(p: State, sm: bytes, start: nat) {
    && |sm| + 4 <= |p.msg| && p.msg[|p.msg| - |sm|..] == sm && Aligned(|p.msg|, 4)
    && ValidVTables(sm, p.vtables) && FieldsFit(p, start, |p.msg|)
    && |p.msg| + VTableSize(p) < TWO31
  }

  /** The offset from the end of the vtable that SealTable makes the table point to. */
  function VTableUsed(p: State, vt: bytes): nat {
    var dup := Duplicate(p, vt);
    if dup.Some? then dup.value else |vt| + |p.msg|
  }

  lemma EvenAligned(n: nat)
    requires n % 2 == 0
    ensures Aligned(n, 2)
  {}

  /** The table's first word leads to a vtable with the bytes computed for it,
    * and the rest of the message is kept, whether the vtable was shared or not. */
  lemma SealTableLayout(p: State, sm: bytes, start: nat, m: bytes, vt: bytes)
    requires ReadyToSeal(p, sm, start)
    requires m == SealTable(p, start).msg && vt == MakeVTable(p, start, |p.msg|)
    ensures Laid(m, |p.msg|, VTableUsed(p, vt), vt, sm)
  {
    hide Aligned, MakeVTable, SameVTable, ValidVTable, Laid, Patch;
    var dup := Duplicate(p, vt);
    if dup.Some? {
      LaidShared(sm, p.msg, vt, dup.value);
    } else {
      EvenAligned(|vt|);
      LaidKept(sm, p.msg, vt);
    }
  }

  function FieldSlots(st: State): nat {
    (VTableSize(st) - 4) / 2
  }

  /** Each slot of the table at p leads to the field recorded for it, and to nothing if there is none. */
  predicate SlotsLead(m: bytes, p: int, n: nat, locs: seq<FieldLoc>) {
    forall i: nat | i < n :: SlotLeads(m, p, i, locs)
  }

  predicate SlotLeads(m: bytes, p: int, i: nat, locs: seq<FieldLoc>) {
    && FieldReadable(m, p, FieldIndexToOffset(i))
    && Slot(m, p, i) == match IndexOf(locs, FieldIndexToOffset(i))
                        case None => None
                        case Some(k) => Some(|m| - locs[k].off)
  }

  lemma SlotFromLayout(p: State, start: nat, m: bytes, loc: nat, use: nat, sm: bytes, i: nat)
    requires FieldsFit(p, start, loc) && i < FieldSlots(p)
    requires Laid(m, loc, use, MakeVTable(p, start, loc), sm)
    ensures SlotLeads(m, |m| - loc, i, p.locs)
  {
    hide Aligned, MakeVTable;
    var vt := MakeVTable(p, start, loc);
    var id := FieldIndexToOffset(i);
    VTableEntry(m, |m| - use, vt, 0);
    MakeVTableReads(p, start, loc, 0);
    VTableEntry(m, |m| - use, vt, id);
    MakeVTableReads(p, start, loc, id);
  }

  /** The vtable of the table at p says that the table, from its first word on, has n bytes. */
  predicate HasObjectSize(m: bytes, p: int, n: nat) {
    && InBounds(m, p, 4) && InBounds(m, GetVTable(m, p), 4)
    && ReadScalar(m, GetVTable(m, p) + 2, 2) == n
  }

  lemma ObjectSizeFromLayout(p: State, start: nat, m: bytes, loc: nat, use: nat, sm: bytes)
    requires FieldsFit(p, start, loc) && Laid(m, loc, use, MakeVTable(p, start, loc), sm)
    ensures HasObjectSize(m, |m| - loc, loc - start)
  {
    hide Aligned, MakeVTable;
    VTableEntry(m, |m| - use, MakeVTable(p, start, loc), 2);
    MakeVTableReads(p, start, loc, 2);
  }

  lemma SlotsFromLayout(p: State, start: nat, m: bytes, loc: nat, use: nat, sm: bytes)
    requires FieldsFit(p, start, loc) && Aligned(loc, 4)
    requires Laid(m, loc, use, MakeVTable(p, start, loc), sm)
    ensures HoldsTable(m, |m| - loc, FieldSlots(p))
    ensures SlotsLead(m, |m| - loc, FieldSlots(p), p.locs)
  {
    hide Aligned, MakeVTable, SlotLeads;
    var pos := |m| - loc;
    forall i: nat | i < FieldSlots(p)
      ensures SlotLeads(m, pos, i, p.locs)
    {
      SlotFromLayout(p, start, m, loc, use, sm, i);
    }
    VTableEntry(m, |m| - use, MakeVTable(p, start, loc), 0);
    MakeVTableReads(p, start, loc, 0);
  }

  lemma VTableEntry(m: bytes, q: nat, vt: bytes, id: nat)
    requires q + |vt| <= |m| && m[q..q + |vt|] == vt && id + 2 <= |vt|
    ensures ReadScalar(m, q + id, 2) == ReadScalar(vt, id, 2)
  {
    assert m[q + id] == vt[id] && m[q + id + 1] == vt[id + 1];
    assert m[q + id..q + id + 2] == [m[q + id], m[q + id + 1]];
    assert vt[id..id + 2] == [vt[id], vt[id + 1]];
  }

  lemma PushReadies(st: State, start: nat, p: State)
    requires TableReady(st, start) && ValidVTables(st.msg, st.vtables)
    requires TableEnd(st) + VTableSize(st) < TWO31
    requires p == PushElement(st, 4, 0)
    ensures ReadyToSeal(p, st.msg, start) && p.locs == st.locs && FieldSlots(p) == FieldSlots(st)
  {
    hide PushElement, Aligned, ValidVTables;
    PushElementFacts(st, 4, 0);
  }

  lemma SealTableReads(p: State, sm: bytes, start: nat, m: bytes, pos: nat)
    requires ReadyToSeal(p, sm, start)
    requires m == SealTable(p, start).msg && pos == |m| - |p.msg|
    ensures |sm| <= |m| && m[|m| - |sm|..] == sm
    ensures HoldsTable(m, pos, FieldSlots(p))
    ensures SlotsLead(m, pos, FieldSlots(p), p.locs)
    ensures HasObjectSize(m, pos, |p.msg| - start)
  {
    hide MakeVTable, SealTable, ValidVTables, Aligned, HoldsTable, SlotsLead, VTableUsed, LocsFit, HasObjectSize;
    assert LocsFit(p.locs, VTableSize(p), |p.msg|);
    var vt := MakeVTable(p, start, |p.msg|);
    SealTableLayout(p, sm, start, m, vt);
    SlotsFromLayout(p, start, m, |p.msg|, VTableUsed(p, vt), sm);
    ObjectSizeFromLayout(p, start, m, |p.msg|, VTableUsed(p, vt), sm);
  }

  /** The theorem about EndTable: the table it returns has a slot for every field up to the last one
    * added; each slot leads to where that field was put, and is empty when it was not added. The vtable
    * tells the table's size, from its first word to where StartTable was called. */
  lemma EndTableReads(st: State, start: nat, r: State, loc: nat)
    requires TableReady(st, start) && ValidVTables(st.msg, st.vtables)
    requires TableEnd(st) + VTableSize(st) < TWO31
    requires (r, loc) == EndTable(st, start)
    ensures |st.msg| < loc <= |r.msg| < TWO31 && r.msg[|r.msg| - |st.msg|..] == st.msg
    ensures HoldsTable(r.msg, |r.msg| - loc, FieldSlots(st))
    ensures SlotsLead(r.msg, |r.msg| - loc, FieldSlots(st), st.locs)
    ensures loc == TableEnd(st) && HasObjectSize(r.msg, |r.msg| - loc, loc - start)
  {
    hide PushElement, SealTable, HasObjectSize;
    var p := PushElement(st, 4, 0);
    PushReadies(st, start, p);
    SealTableReads(p, st.msg, start, r.msg, |r.msg| - loc);
  }

  /** What was stored for the fields is kept by any growth at the front. */
  lemma EntriesKept(m: bytes, r: bytes, locs: seq<FieldLoc>, entries: seq<Entry>)
    requires EntriesAt(m, locs, entries)
    requires |m| <= |r| && r[|r| - |m|..] == m
    ensures EntriesAt(r, locs, entries)
  {
    SuffixSplit(r, m);
    EntriesShift(r[..|r| - |m|], m, locs, entries);
  }
}
