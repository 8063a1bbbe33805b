/** The bytes of a message: where the generated functions put the fields of its tables, and in which
  * order they write its parts. */
module MessageLayouts {
  import opened Bytes
  import opened Padding
  import opened Tables
  import opened Objects
  import opened Builder
  import opened TableFields
  import opened Adds
  import opened Creation
  import opened VTables
  import opened Runs
  import opened LoginLauncher
  import opened RealTimeRoundTrip
  import opened Layouts

  lemma NextAligned(n: nat, a: nat, k: nat)
    requires Aligned(n, 4) && FirstAligned(a, n + k, 4) && 0 < k
    ensures k <= 4 ==> a == n + 4
    ensures 4 < k <= 8 ==> a == n + 8
  {}

  /** Places of two fields that are both kept, the first of 4 bytes, and of the table's first word. */
  lemma PairPlaces(start: nat, loc: nat, locs: seq<FieldLoc>, kept: seq<Add>, m: bytes)
    requires TableLaidOut(m, start, loc, locs, kept) && |kept| == 2
    requires Width(kept[0]) == 4 && (Width(kept[1]) == 1 || Width(kept[1]) == 4)
    ensures locs[0].off == loc - 8
    ensures Width(kept[1]) == 1 ==> locs[1].off == loc - 7
    ensures Width(kept[1]) == 4 ==> locs[1].off == loc - 4
  {
    hide FieldInside, HasObjectSize, Aligned, Width;
    LastOne(start, locs);
    assert FirstAligned(locs[0].off, LastPlace(start, locs[..0]) + 4, 4);
    var a := locs[0].off;
    var b := locs[1].off;
    assert FirstAligned(b, a + Width(kept[1]), Width(kept[1]));
    if Width(kept[1]) == 1 {
      NextAligned(a, loc, 5);
    } else {
      NextAligned(a, b, 4);
      NextAligned(a, loc, 8);
    }
  }

  lemma LastOne(start: nat, locs: seq<FieldLoc>)
    requires |locs| == 2
    ensures LastPlace(start, locs[..0]) == start && LastPlace(start, locs[..1]) == locs[0].off
    ensures LastPlace(start, locs) == locs[1].off
  {}

  lemma SinglePlace(start: nat, loc: nat, locs: seq<FieldLoc>, kept: seq<Add>, m: bytes)
    requires TableLaidOut(m, start, loc, locs, kept) && |kept| == 1 && Width(kept[0]) == 4
    ensures locs[0].off == loc - 4
  {
    hide FieldInside, HasObjectSize, Aligned, Width;
    assert LastPlace(start, locs[..0]) == start;
    assert FirstAligned(locs[0].off, start + 4, 4);
    NextAligned(locs[0].off, loc, 4);
  }

  /** A user state with an id: the id is the last word of the table, the state the byte before it. */
  lemma UserStateLaidOut(st: State, state: byte, id: nat, r: State, off: nat)
    requires Inv(st) && |st.msg| + SLACK < TWO31 && 0 < id <= |st.msg|
    requires (r, off) == CreateUserState(st, state, id)
    ensures off <= |r.msg|
    ensures var p := |r.msg| - off;
            var stored := state != 0 || st.forceDefaults;
            && FieldReadable(r.msg, p, VT_ID) && Slot(r.msg, p, 1) == Some(p + if stored then 8 else 4)
            && (stored ==> FieldReadable(r.msg, p, VT_STATE) && Slot(r.msg, p, 0) == Some(p + 7))
  {
    hide BuildTable, VTablesOk, TableLaidOut, TableFits, ValidVTables, FieldInside, Slot, FieldReadable;
    var adds := [Offset(VT_ID, id), Element(VT_STATE, 1, state, 0)];
    var kept := KeptAdds(adds, st.forceDefaults);
    SmallTableFits(st, adds);
    Pow256Values();
    VTablesValid(st);
    BuildTableLaidOut(st, adds, r, off);
    var locs := Added(st, adds).locs;
    KeptPair(adds, st.forceDefaults);
    if state != 0 || st.forceDefaults {
      PairPlaces(|st.msg|, off, locs, kept, r.msg);
      SlotAt(r.msg, |st.msg|, off, locs, kept, 0);
      SlotAt(r.msg, |st.msg|, off, locs, kept, 1);
    } else {
      SinglePlace(|st.msg|, off, locs, kept, r.msg);
      SlotAt(r.msg, |st.msg|, off, locs, kept, 0);
    }
  }

  lemma KeptPair(adds: seq<Add>, force: bool)
    requires |adds| == 2
    ensures KeptAdds(adds, force) ==
            (if Kept(adds[0], force) then [adds[0]] else []) + (if Kept(adds[1], force) then [adds[1]] else [])
  {
    hide Kept;
    assert adds[1..] == [adds[1]] && adds[1..][1..] == [];
    assert KeptAdds([], force) == [];
    assert KeptAdds(adds[1..], force) == if Kept(adds[1], force) then [adds[1]] else [];
  }

  lemma SlotAt(m: bytes, start: nat, loc: nat, locs: seq<FieldLoc>, kept: seq<Add>, k: nat)
    requires TableLaidOut(m, start, loc, locs, kept) && k < |kept|
    ensures |locs| == |kept| && loc <= |m| && IsField(kept[k].id) && FieldReadable(m, |m| - loc, kept[k].id)
    ensures Slot(m, |m| - loc, SlotOf(kept[k].id)) == Some(|m| - locs[k].off)
  {
    hide HasObjectSize, Slot, FieldReadable, FirstAligned;
    assert FieldInside(m, |m| - loc, loc - start, kept[k], locs[k].off);
  }

  /** A message with both lists: the requests are the last word of the table, the friends the word before. */
  lemma RealTimeDataLaidOut(st: State, fs: nat, fr: nat, r: State, off: nat)
    requires Inv(st) && |st.msg| + SLACK < TWO31 && fs <= |st.msg| && fr <= |st.msg|
    requires (r, off) == CreateRealTimeData(st, fs, fr)
    ensures off <= |r.msg|
    ensures var p := |r.msg| - off;
            && (fr != 0 ==> FieldReadable(r.msg, p, VT_FRIENDREQUEST)
                            && Slot(r.msg, p, 1) == Some(p + if fs != 0 then 8 else 4))
            && (fs != 0 ==> FieldReadable(r.msg, p, VT_FRIENDSTATE) && Slot(r.msg, p, 0) == Some(p + 4))
  {
    hide BuildTable, VTablesOk, TableLaidOut, TableFits, ValidVTables, FieldInside, Slot, FieldReadable, KeptAdds,
         Added, Aligned;
    var adds := [Offset(VT_FRIENDREQUEST, fr), Offset(VT_FRIENDSTATE, fs)];
    var kept := KeptAdds(adds, st.forceDefaults);
    SmallTableFits(st, adds);
    VTablesValid(st);
    BuildTableLaidOut(st, adds, r, off);
    var locs := Added(st, adds).locs;
    KeptPair(adds, st.forceDefaults);
    if fs != 0 && fr != 0 {
      PairPlaces(|st.msg|, off, locs, kept, r.msg);
      SlotAt(r.msg, |st.msg|, off, locs, kept, 0);
      SlotAt(r.msg, |st.msg|, off, locs, kept, 1);
    } else if kept != [] {
      SinglePlace(|st.msg|, off, locs, kept, r.msg);
      SlotAt(r.msg, |st.msg|, off, locs, kept, 0);
    }
  }

  lemma RequestAndFriends(st: State, fs: nat, fr: nat, r: State, off: nat)
    requires Inv(st) && |st.msg| + SLACK < TWO31 && 0 < fs <= |st.msg| && 0 < fr <= |st.msg|
    requires (r, off) == CreateRealTimeData(st, fs, fr)
    ensures |st.msg| < off <= |r.msg|
    ensures var p := |r.msg| - off;
            && FieldReadable(r.msg, p, VT_FRIENDSTATE) && Slot(r.msg, p, 0) == Some(p + 4)
            && FieldReadable(r.msg, p, VT_FRIENDREQUEST) && Slot(r.msg, p, 1) == Some(p + 8)
            && InBounds(r.msg, p, 12)
            && Follow(r.msg, p + 4) == |r.msg| - fs && Follow(r.msg, p + 8) == |r.msg| - fr
  {
    hide BuildTable, VTablesOk, TableFits, ValidVTables, Slot, FieldReadable, AddReads, NoField, TableBuilt;
    var adds := [Offset(VT_FRIENDREQUEST, fr), Offset(VT_FRIENDSTATE, fs)];
    SmallTableFits(st, adds);
    VTablesValid(st);
    RealTimeDataLaidOut(st, fs, fr, r, off);
    BuildTableBuilds(st, adds, r, off);
    BuildTableReads(st, adds, r, off);
    var p := |r.msg| - off;
    OffsetReads(r.msg, p, 1, fr, st.forceDefaults, p + 8);
    OffsetReads(r.msg, p, 0, fs, st.forceDefaults, p + 4);
  }

  lemma OffsetReads(m: bytes, p: int, i: nat, off: nat, force: bool, q: int)
    requires off != 0 && AddReads(m, p, Offset(FieldIndexToOffset(i), off), force)
    requires FieldReadable(m, p, FieldIndexToOffset(i)) && Slot(m, p, i) == Some(q)
    ensures InBounds(m, q, 4) && Follow(m, q) == |m| - off
  {
    hide FieldReadable, Slot;
    assert SlotOf(FieldIndexToOffset(i)) == i;
  }

  /** The table at p, then the requests, then the friends, then what had been there, at rest. */
  predicate PartsInOrder(m: bytes, p: int, rest: int) {
    && InBounds(m, p, 12)
    && FieldReadable(m, p, VT_FRIENDREQUEST) && Slot(m, p, 1) == Some(p + 8)
    && FieldReadable(m, p, VT_FRIENDSTATE) && Slot(m, p, 0) == Some(p + 4)
    && p < Follow(m, p + 8) < Follow(m, p + 4) < rest
  }

  /** The parts of a message lie in the reverse order of their creation: the table, the requests, the friends. */
  lemma DirectLaidOut(st: State, d: RealTimeData, us: seq<nat>, ss: seq<nat>, r: State, off: nat)
    requires Inv(st) && d.friendstate.Some? && d.friendrequest.Some?
    requires AllRefersTo(st, us) && AllHold(st.msg, us, UserObjects(d.friendstate.value, st.forceDefaults))
    requires AllRefersTo(st, ss) && AllHold(st.msg, ss, StringObjects(d.friendrequest.value))
    requires (r, off) == CreateRealTimeDataDirect(st, Some(us), Some(ss)) && |r.msg| + SLACK < TWO31
    ensures off <= |r.msg| && PartsInOrder(r.msg, |r.msg| - off, |r.msg| - |st.msg|)
  {
    hide Inv, HoldsAt, CreateVector, CreateRealTimeData, Suffix, UserObjects, StringObjects, FieldReadable, Slot,
         Aligned, PaddedAfter;
    var (s1, fs) := CreateOptionalVector(st, Some(us));
    var (s2, fr) := CreateOptionalVector(s1, Some(ss));
    OptionalVectorHolds(st, Some(us), UserObjects(d.friendstate.value, st.forceDefaults), s1, fs);
    AllHoldKept(st.msg, s1.msg, ss, StringObjects(d.friendrequest.value));
    OptionalVectorHolds(s1, Some(ss), StringObjects(d.friendrequest.value), s2, fr);
    CreateVectorLaidOut(st, us, s1, fs);
    CreateVectorLaidOut(s1, ss, s2, fr);
    RequestAndFriends(s2, fs, fr, r, off);
  }
}
