/** Any sequence of field additions, in any order, between StartTable and EndTable. */
module Adds {
  import opened Bytes
  import opened Padding
  import opened Tables
  import opened Objects
  import opened Builder
  import opened TableFields

  /** A default is dropped unless defaults are forced; a null offset is always dropped. */
  predicate Kept(add: Add, force: bool) {
    match add
    case Element(_, _, v, def) => v != def || force
    case Offset(_, off) => off != 0
  }

  function EntryOf(add: Add): Entry {
    match add
    case Element(_, w, v, _) => ScalarEntry(w, v)
    case Offset(_, off) => OffsetEntry(off)
  }

  function KeptAdds(adds: seq<Add>, force: bool): seq<Add>
  {
    if adds == [] then []
    else (if Kept(adds[0], force) then [adds[0]] else []) + KeptAdds(adds[1..], force)
  }

  lemma KeptAddsCons(done: seq<Add>, adds: seq<Add>, force: bool)
    requires adds != []
    ensures done + KeptAdds(adds, force) == done + KeptAdds([adds[0]], force) + KeptAdds(adds[1..], force)
  {
    var head := if Kept(adds[0], force) then [adds[0]] else [];
    assert KeptAdds([adds[0]], force) == head + KeptAdds([], force) == head;
    ConcatAssoc(done, head, KeptAdds(adds[1..], force));
  }

  /** The largest field identifier, 0 if there is no field. */
  function MaxId(adds: seq<Add>): nat {
    if adds == [] then 0 else Max(MaxId(adds[..|adds| - 1]), adds[|adds| - 1].id)
  }

  function EntriesOf(adds: seq<Add>): (r: seq<Entry>)
    ensures |r| == |adds|
  {
    seq(|adds|, k requires 0 <= k < |adds| => EntryOf(adds[k]))
  }

  lemma MaxIdOfLast(done: seq<Add>, add: Add)
    ensures MaxId(done + [add]) == Max(MaxId(done), add.id)
  {
    assert (done + [add])[..|done|] == done;
  }

  predicate ValidAdd(st: State, add: Add) {
    && Refers(st, add)
    && IsField(add.id) && add.id + 2 < 0x1_0000
    && (add.Element? ==> add.v < Pow256(add.w))
  }

  predicate ValidAdds(st: State, adds: seq<Add>) {
    && AllRefer(st, adds)
    && forall k | 0 <= k < |adds| :: ValidAdd(st, adds[k])
  }

  lemma ValidAddsTail(st: State, r: State, adds: seq<Add>)
    requires adds != [] && ValidAdds(st, adds) && |st.msg| <= |r.msg|
    ensures ValidAdds(r, adds[1..])
  {
    forall k | 0 <= k < |adds[1..]|
      ensures ValidAdd(r, adds[1..][k])
    {
      assert adds[1..][k] == adds[k + 1];
      assert ValidAdd(st, adds[k + 1]);
    }
  }

  /** The fields recorded so far are those of done, found where they were put after start. */
  predicate TableOpen(st: State, start: nat, done: seq<Add>) {
    && EntriesAt(st.msg, st.locs, EntriesOf(done))
    && (forall k | 0 <= k < |st.locs| ::
          st.locs[k].id == done[k].id && done[k].id <= st.maxVoffset
          && start + EntryWidth(EntryOf(done[k])) <= st.locs[k].off)
    && start <= |st.msg|
    && st.maxVoffset == MaxId(done) && st.maxVoffset + 2 < 0x1_0000 && st.maxVoffset % 2 == 0
  }

  /** r is st with its message grown at the front and fields recorded. */
  predicate Extends(st: State, r: State) {
    && r == st.(msg := r.msg, minAlign := r.minAlign, locs := r.locs, maxVoffset := r.maxVoffset)
    && |st.msg| <= |r.msg| && r.msg[|r.msg| - |st.msg|..] == st.msg
    && st.minAlign <= r.minAlign
  }

  /** p is st with one entry pushed. */
  predicate Pushed(st: State, p: State, entry: Entry) {
    && Extends(st, p) && p.locs == st.locs && p.maxVoffset == st.maxVoffset
    && FirstAligned(|p.msg|, |st.msg| + EntryWidth(entry), EntryWidth(entry))
    && EntryAt(p.msg, |p.msg|, entry)
  }

  /** Pushing and tracking one field extends the record by it. */
  lemma TrackOne(st: State, start: nat, done: seq<Add>, add: Add, p: State, r: State)
    requires TableOpen(st, start, done) && ValidAdd(st, add) && Pushed(st, p, EntryOf(add))
    requires r == TrackField(p, add.id, |p.msg|)
    ensures TableOpen(r, start, done + [add]) && Extends(st, r)
  {
    hide EntryAt, EntryOf, Aligned, MaxId;
    MaxIdOfLast(done, add);
    EntriesKept(st.msg, p.msg, st.locs, EntriesOf(done));
    assert (done + [add])[..|done|] == done;
    var entries := EntriesOf(done + [add]);
    forall k | 0 <= k < |r.locs|
      ensures EntryAt(r.msg, r.locs[k].off, entries[k])
    {
      if k < |done| {
        assert r.locs[k] == st.locs[k] && entries[k] == EntriesOf(done)[k];
      } else {
        assert r.locs[k] == FieldLoc(|p.msg|, add.id) && entries[k] == EntryOf(add);
      }
    }
  }

  lemma PushElementEntry(st: State, w: Alignment, v: nat, p: State)
    requires v < Pow256(w) && p == PushElement(st, w, v)
    ensures Pushed(st, p, ScalarEntry(w, v))
    ensures |p.msg| == |Align(st, w).msg| + w && p.minAlign == Max(w, st.minAlign)
  {
    hide PushElement, Align, Aligned, ReadScalar;
    PushElementFacts(st, w, v);
    StoredHere(p.msg, w, v);
  }

  lemma StoredHere(m: bytes, w: Alignment, v: nat)
    requires w <= |m| && Aligned(|m|, w) && ReadScalar(m, 0, w) == v
    ensures EntryAt(m, |m|, ScalarEntry(w, v))
  {}

  /** Two alignments in a row pad once: the distance computed before the push is still right after it. */
  lemma PushOffsetEntry(st: State, off: nat, p: State)
    requires 0 < off <= |st.msg| && p == PushOffset(st, off) && |p.msg| < TWO31
    ensures Pushed(st, p, OffsetEntry(off))
    ensures |p.msg| == |Align(st, 4).msg| + 4 && p.minAlign == Max(4, st.minAlign)
  {
    hide Align, Aligned, PushElement, PaddingBytes, ReadScalar;
    var a := Align(st, 4);
    AlignFacts(st, 4);
    AlignFacts(a, 4);
    NoPadding(|a.msg|, 4);
    FirstAlignedIsLeast(|Align(a, 4).msg|, |a.msg|, 4);
    assert |Align(a, 4).msg| == |a.msg|;
    Pow256Values();
    PushElementFacts(a, 4, Distance(a, off));
    AlignedOnce(|a.msg|, |st.msg|, |p.msg|);
    SuffixTrans(st.msg, a.msg, p.msg);
  }

  lemma AlignedOnce(a: nat, n: nat, p: nat)
    requires FirstAligned(a, n, 4) && p == a + 4
    ensures FirstAligned(p, n + 4, 4)
  {
    hide Aligned;
    AlignedSelf(4);
    AlignedSum(4, a, 4);
  }

  lemma ApplyAddOpens(st: State, start: nat, done: seq<Add>, add: Add, r: State)
    requires TableOpen(st, start, done) && ValidAdd(st, add)
    requires r == ApplyAdd(st, add) && |r.msg| < TWO31
    ensures TableOpen(r, start, done + KeptAdds([add], st.forceDefaults)) && Extends(st, r)
  {
    assert KeptAdds([add], st.forceDefaults) == if Kept(add, st.forceDefaults) then [add] else [];
    if !Kept(add, st.forceDefaults) {
      assert done + [] == done;
    } else if add.Element? {
      var p := PushElement(st, add.w, add.v);
      PushElementEntry(st, add.w, add.v, p);
      TrackOne(st, start, done, add, p, r);
    } else {
      var p := PushOffset(st, add.off);
      PushOffsetEntry(st, add.off, p);
      TrackOne(st, start, done, add, p, r);
    }
  }

  lemma SuffixTrans(a: bytes, b: bytes, c: bytes)
    requires |a| <= |b| <= |c| && b[|b| - |a|..] == a && c[|c| - |b|..] == b
    ensures c[|c| - |a|..] == a
  {
    assert c[|c| - |a|..] == c[|c| - |b|..][|b| - |a|..];
  }

  lemma ExtendsTrans(a: State, b: State, c: State)
    requires Extends(a, b) && Extends(b, c)
    ensures Extends(a, c)
  {
    SuffixTrans(a.msg, b.msg, c.msg);
  }

  lemma {:induction false} ApplyAddsOpens(st: State, start: nat, done: seq<Add>, adds: seq<Add>, r: State)
    requires TableOpen(st, start, done) && ValidAdds(st, adds)
    requires r == ApplyAdds(st, adds) && |r.msg| < TWO31
    ensures TableOpen(r, start, done + KeptAdds(adds, st.forceDefaults)) && Extends(st, r)
    decreases |adds|
  {
    if adds == [] {
      assert done + [] == done;
    } else {
      var st' := ApplyAdd(st, adds[0]);
      ValidAddsTail(st, st', adds);
      ApplyAddOpens(st, start, done, adds[0], st');
      ApplyAddsOpens(st', start, done + KeptAdds([adds[0]], st.forceDefaults), adds[1..], r);
      KeptAddsCons(done, adds, st.forceDefaults);
      ExtendsTrans(st, st', r);
    }
  }

  // Alignments the builder keeps track of.

  /** The builder knows the width of every scalar that was kept. */
  predicate WidthsKnown(st: State, adds: seq<Add>, force: bool) {
    forall k | 0 <= k < |adds| :: adds[k].Element? && Kept(adds[k], force) ==> adds[k].w <= st.minAlign
  }

  lemma ApplyAddTracks(st: State, add: Add)
    requires Refers(st, add)
    ensures var r := ApplyAdd(st, add);
            && st.minAlign <= r.minAlign && r.forceDefaults == st.forceDefaults
            && (add.Element? && Kept(add, st.forceDefaults) ==> add.w <= r.minAlign)
  {
    hide PushElement, Align, Aligned, ReadScalar;
    if add.Element? {
      PushElementFacts(st, add.w, add.v);
    } else if add.off != 0 {
      AlignFacts(st, 4);
      PushElementFacts(Align(st, 4), 4, Distance(Align(st, 4), add.off));
    }
  }

  lemma {:induction false} ApplyAddsTracks(st: State, adds: seq<Add>)
    requires AllRefer(st, adds)
    ensures var r := ApplyAdds(st, adds);
            st.minAlign <= r.minAlign && WidthsKnown(r, adds, st.forceDefaults)
    decreases |adds|
  {
    hide ApplyAdd;
    if adds != [] {
      var r := ApplyAdd(st, adds[0]);
      ApplyAddTracks(st, adds[0]);
      assert forall k | 0 <= k < |adds[1..]| :: adds[1..][k] == adds[k + 1] && Refers(st, adds[k + 1]);
      ApplyAddsTracks(r, adds[1..]);
      forall k | 0 <= k < |adds| && adds[k].Element? && Kept(adds[k], st.forceDefaults)
        ensures adds[k].w <= ApplyAdds(r, adds[1..]).minAlign
      {
        if k > 0 {
          assert adds[k] == adds[1..][k - 1];
        }
      }
    }
  }

  // The fields of the finished table.

  lemma {:induction false} KeptMembers(adds: seq<Add>, force: bool, add: Add)
    ensures add in KeptAdds(adds, force) <==> add in adds && Kept(add, force)
  {
    if adds != [] {
      KeptMembers(adds[1..], force, add);
      assert adds == [adds[0]] + adds[1..];
    }
  }

  predicate DistinctIds(adds: seq<Add>) {
    forall j, k | 0 <= j < k < |adds| :: adds[j].id != adds[k].id
  }

  lemma {:induction false} KeptDistinct(adds: seq<Add>, force: bool)
    requires DistinctIds(adds)
    ensures DistinctIds(KeptAdds(adds, force))
  {
    if adds != [] {
      KeptDistinct(adds[1..], force);
      var rest := KeptAdds(adds[1..], force);
      forall k | 0 <= k < |rest|
        ensures rest[k].id != adds[0].id
      {
        KeptMembers(adds[1..], force, rest[k]);
        assert rest[k] in adds[1..];
      }
    }
  }

  /** Between tables no field is pending, and every recorded vtable can be read. */
  predicate Idle(st: State) {
    st.locs == [] && st.maxVoffset == 0 && !st.nested && ValidVTables(st.msg, st.vtables)
  }

  /** The state when all fields have been added. */
  function Added(st: State, adds: seq<Add>): State
    requires AllRefer(st, adds)
  {
    ApplyAdds(StartTable(st), adds)
  }

  /** The source's assertions: the table is small enough for 16-bit offsets, the buffer for 31 bits. */
  predicate TableFits(st: State, adds: seq<Add>)
    requires AllRefer(st, adds)
  {
    var o := Added(st, adds);
    && TableEnd(o) - |st.msg| < 0x1_0000
    && TableEnd(o) + VTableSize(o) < TWO31
  }

  predicate ValidTable(st: State, adds: seq<Add>) {
    Idle(st) && ValidAdds(st, adds) && DistinctIds(adds) && TableFits(st, adds)
  }

  lemma StartOpens(st: State)
    requires Idle(st)
    ensures TableOpen(StartTable(st), |st.msg|, [])
  {}

  lemma OpenDistinct(st: State, start: nat, adds: seq<Add>, force: bool, o: State)
    requires ValidAdds(st, adds) && DistinctIds(adds) && TableOpen(o, start, KeptAdds(adds, force))
    ensures DistinctFields(o.locs)
  {
    hide EntryAt, EntryOf;
    var kept := KeptAdds(adds, force);
    KeptDistinct(adds, force);
    forall k | 0 <= k < |o.locs|
      ensures IsField(o.locs[k].id)
    {
      KeptMembers(adds, force, kept[k]);
    }
  }

  lemma AddedIsReady(st: State, adds: seq<Add>, o: State)
    requires ValidTable(st, adds) && o == Added(st, adds)
    ensures TableOpen(o, |st.msg|, KeptAdds(adds, st.forceDefaults))
    ensures TableReady(o, |st.msg|) && ValidVTables(o.msg, o.vtables)
    ensures Extends(StartTable(st), o)
  {
    hide ApplyAdds, ValidVTable, EntryAt, KeptAdds, PushElement, MaxId;
    var s := StartTable(st);
    var kept := KeptAdds(adds, st.forceDefaults);
    StartOpens(st);
    ApplyAddsOpens(s, |st.msg|, [], adds, o);
    assert [] + kept == kept;
    OpenDistinct(st, |st.msg|, adds, st.forceDefaults, o);
    ApplyAddsRecorded(s, adds);
    SuffixSplit(o.msg, st.msg);
    ValidVTablesShift(o.msg[..|o.msg| - |st.msg|], st.msg, st.vtables);
  }

  function SlotOf(id: nat): nat
    requires IsField(id)
  {
    (id - 4) / 2
  }

  /** The table at pos reads, in the field of this addition, as what was added, or as absent if it was dropped. */
  predicate AddReads(m: bytes, pos: int, add: Add, force: bool) {
    && IsField(add.id)
    && FieldReadable(m, pos, add.id)
    && var slot := Slot(m, pos, SlotOf(add.id));
    && (slot.Some? <==> Kept(add, force))
    && (slot.Some? ==>
          match add
          case Element(_, w, v, _) => HoldsScalar(m, slot.value, w, v)
          case Offset(_, off) => HoldsOffset(m, slot.value) && Follow(m, slot.value) == |m| - off)
  }

  /** What is read where an entry is found. */
  lemma EntryReads(m: bytes, pos: int, add: Add, force: bool, e: nat)
    requires IsField(add.id) && FieldReadable(m, pos, add.id) && |m| < TWO31 && Kept(add, force)
    requires EntryAt(m, e, EntryOf(add)) && Slot(m, pos, SlotOf(add.id)) == Some(|m| - e)
    ensures AddReads(m, pos, add, force)
  {
    hide Aligned, FieldReadable, Slot;
  }

  lemma KeptAddReads(m: bytes, pos: int, n: nat, locs: seq<FieldLoc>, done: seq<Add>, add: Add, force: bool)
    requires SlotsLead(m, pos, n, locs) && DistinctFields(locs)
    requires EntriesAt(m, locs, EntriesOf(done)) && forall k | 0 <= k < |locs| :: locs[k].id == done[k].id
    requires add in done && Kept(add, force) && IsField(add.id) && SlotOf(add.id) < n
    requires |m| < TWO31
    ensures AddReads(m, pos, add, force)
  {
    hide EntryAt, FieldReadable, Slot, EntryOf, AddReads;
    var j :| 0 <= j < |done| && done[j] == add;
    assert SlotLeads(m, pos, SlotOf(add.id), locs);
    assert IndexOf(locs, add.id) == Some(j);
    EntryReads(m, pos, add, force, locs[j].off);
  }

  lemma DroppedAddReads(m: bytes, pos: int, n: nat, locs: seq<FieldLoc>, add: Add, force: bool)
    requires SlotsLead(m, pos, n, locs) && HoldsTable(m, pos, n)
    requires forall k | 0 <= k < |locs| :: locs[k].id != add.id
    requires !Kept(add, force) && IsField(add.id)
    ensures AddReads(m, pos, add, force)
  {
    hide Aligned;
    HoldsTableFieldReadable(m, pos, n, SlotOf(add.id));
    if SlotOf(add.id) < n {
      assert SlotLeads(m, pos, SlotOf(add.id), locs);
    }
  }

  lemma {:induction false} MaxIdBounds(adds: seq<Add>, add: Add)
    requires add in adds
    ensures add.id <= MaxId(adds)
  {
    var init, last := adds[..|adds| - 1], adds[|adds| - 1];
    assert adds == init + [last];
    if add != last {
      MaxIdBounds(init, add);
    }
  }

  /** The table at pos of m has n slots, which lead to what was stored for the additions done. */
  predicate TableBuilt(m: bytes, pos: int, n: nat, locs: seq<FieldLoc>, done: seq<Add>) {
    && |m| < TWO31
    && HoldsTable(m, pos, n) && SlotsLead(m, pos, n, locs)
    && EntriesAt(m, locs, EntriesOf(done)) && DistinctFields(locs)
    && (forall k | 0 <= k < |locs| :: locs[k].id == done[k].id)
    && n == (Max(MaxId(done) + 2, 4) - 4) / 2
  }

  lemma ReadyIsDistinct(st: State, start: nat)
    requires TableReady(st, start)
    ensures DistinctFields(st.locs)
  {}

  lemma BuildTableBuilds(st: State, adds: seq<Add>, r: State, loc: nat)
    requires ValidTable(st, adds) && (r, loc) == BuildTable(st, adds)
    ensures |st.msg| < loc <= |r.msg| && r.msg[|r.msg| - |st.msg|..] == st.msg
    ensures TableBuilt(r.msg, |r.msg| - loc, FieldSlots(Added(st, adds)), Added(st, adds).locs,
                       KeptAdds(adds, st.forceDefaults))
  {
    hide PushElement, SealTable, ApplyAdds, HoldsTable, SlotsLead, EntryAt, KeptAdds, MaxId, HasObjectSize, TableReady,
         ValidVTables, Aligned, TableEnd, DistinctFields;
    var o := Added(st, adds);
    AddedIsReady(st, adds, o);
    ReadyIsDistinct(o, |st.msg|);
    EndTableReads(o, |st.msg|, r, loc);
    EntriesKept(o.msg, r.msg, o.locs, EntriesOf(KeptAdds(adds, st.forceDefaults)));
    SuffixTrans(st.msg, o.msg, r.msg);
  }

  lemma BuiltAddReads(m: bytes, pos: int, n: nat, locs: seq<FieldLoc>, adds: seq<Add>, force: bool, add: Add)
    requires TableBuilt(m, pos, n, locs, KeptAdds(adds, force))
    requires DistinctIds(adds) && add in adds && IsField(add.id)
    ensures AddReads(m, pos, add, force)
  {
    hide AddReads, HoldsTable, EntryAt, SlotsLead, KeptAdds, MaxId;
    var done := KeptAdds(adds, force);
    KeptMembers(adds, force, add);
    if Kept(add, force) {
      MaxIdBounds(done, add);
      KeptAddReads(m, pos, n, locs, done, add, force);
    } else {
      forall k | 0 <= k < |locs|
        ensures locs[k].id != add.id
      {
        KeptMembers(adds, force, done[k]);
      }
      DroppedAddReads(m, pos, n, locs, add, force);
    }
  }

  /** The table reads each addition as it was made and has no other field. */
  ghost predicate AddsRead(m: bytes, pos: int, adds: seq<Add>, force: bool) {
    && (forall k | 0 <= k < |adds| :: AddReads(m, pos, adds[k], force))
    && forall i: nat | (forall k | 0 <= k < |adds| :: adds[k].id != FieldIndexToOffset(i)) :: NoField(m, pos, i)
  }

  predicate NoField(m: bytes, pos: int, i: nat) {
    FieldReadable(m, pos, FieldIndexToOffset(i)) && Slot(m, pos, i).None?
  }

  lemma BuiltOtherFields(m: bytes, pos: int, n: nat, locs: seq<FieldLoc>, adds: seq<Add>, force: bool, i: nat)
    requires TableBuilt(m, pos, n, locs, KeptAdds(adds, force))
    requires forall k | 0 <= k < |adds| :: adds[k].id != FieldIndexToOffset(i)
    ensures NoField(m, pos, i)
  {
    hide EntryAt, KeptAdds, MaxId, HoldsTable, EntriesOf;
    var done := KeptAdds(adds, force);
    forall k | 0 <= k < |locs|
      ensures locs[k].id != FieldIndexToOffset(i)
    {
      KeptMembers(adds, force, done[k]);
    }
    HoldsTableFieldReadable(m, pos, n, i);
    if i < n {
      assert SlotLeads(m, pos, i, locs);
    }
  }

  /** Table field semantics. After any additions to distinct fields, in any order, every field
    * that was added reads as the value or the object added, unless it was equal to its default (or
    * null) and therefore dropped; all other fields are absent. */
  lemma BuildTableReads(st: State, adds: seq<Add>, r: State, loc: nat)
    requires ValidTable(st, adds) && (r, loc) == BuildTable(st, adds)
    ensures AddsRead(r.msg, |r.msg| - loc, adds, st.forceDefaults)
  {
    hide TableBuilt, AddReads, NoField, BuildTable, TableFits;
    BuildTableBuilds(st, adds, r, loc);
    var o, pos, force := Added(st, adds), |r.msg| - loc, st.forceDefaults;
    forall k | 0 <= k < |adds|
      ensures AddReads(r.msg, pos, adds[k], force)
    {
      assert ValidAdd(st, adds[k]);
      BuiltAddReads(r.msg, pos, FieldSlots(o), o.locs, adds, force, adds[k]);
    }
    forall i: nat | forall k | 0 <= k < |adds| :: adds[k].id != FieldIndexToOffset(i)
      ensures NoField(r.msg, pos, i)
    {
      BuiltOtherFields(r.msg, pos, FieldSlots(o), o.locs, adds, force, i);
    }
  }

  /** What GetField or GetPointer gives for the field of an addition. */
  predicate FieldGives(m: bytes, pos: int, add: Add) {
    && FieldReadable(m, pos, add.id)
    && var o := GetOptionalFieldOffset(m, pos, add.id);
    match add
    case Element(id, w, v, def) =>
      (o != 0 ==> InBounds(m, pos + o, w)) && GetField(m, pos, id, w, def) == v
    case Offset(id, off) =>
      (o != 0 ==> InBounds(m, pos + o, 4)) && GetPointer(m, pos, id) == if off == 0 then None else Some(|m| - off)
  }

  lemma AddGives(m: bytes, pos: int, add: Add, force: bool)
    requires IsField(add.id) && AddReads(m, pos, add, force)
    ensures FieldGives(m, pos, add)
  {
    hide FieldReadable, GetOptionalFieldOffset;
    assert FieldIndexToOffset(SlotOf(add.id)) == add.id;
  }

  /** Read with the default it was written with, a scalar field gives back what was added;
    * an offset field gives back the object referred to, or nothing for a null offset. */
  lemma AddedFieldsRead(st: State, adds: seq<Add>, r: State, loc: nat, k: nat)
    requires ValidTable(st, adds) && (r, loc) == BuildTable(st, adds) && k < |adds|
    ensures FieldGives(r.msg, |r.msg| - loc, adds[k])
  {
    hide BuildTable, TableFits, FieldGives, AddReads, Idle;
    BuildTableReads(st, adds, r, loc);
    assert AddReads(r.msg, |r.msg| - loc, adds[k], st.forceDefaults);
    assert ValidAdd(st, adds[k]);
    AddGives(r.msg, |r.msg| - loc, adds[k], st.forceDefaults);
  }
}
