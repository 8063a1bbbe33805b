/** Sharing of vtables: recorded vtables stay readable, unchanged and pairwise different. */
module VTables {
  import opened Bytes
  import opened Padding
  import opened Tables
  import opened Objects
  import opened Builder
  import opened TableFields
  import opened Adds
  import opened Creation

  /** The bytes of the vtable at offset v from the end. */
  function VTableBytes(m: bytes, v: nat): bytes
    requires ValidVTable(m, v)
  {
    m[|m| - v..|m| - v + ReadScalar(m, |m| - v, 2)]
  }

  ghost predicate DifferentVTables(m: bytes, vtables: seq<nat>)
    requires ValidVTables(m, vtables)
  {
    forall j, k | 0 <= j < k < |vtables| :: VTableBytes(m, vtables[j]) != VTableBytes(m, vtables[k])
  }

  lemma VTableBytesKept(m: bytes, r: bytes, v: nat)
    requires ValidVTable(m, v) && Suffix(m, r)
    ensures ValidVTable(r, v) && VTableBytes(r, v) == VTableBytes(m, v)
  {
    hide Aligned;
    CommonTail(m, r, |m|, v, 2);
    CommonTail(m, r, |m|, v, ReadScalar(m, |m| - v, 2));
  }

  lemma VTablesKept(m: bytes, r: bytes, vtables: seq<nat>)
    requires ValidVTables(m, vtables) && Suffix(m, r)
    ensures ValidVTables(r, vtables)
    ensures DifferentVTables(m, vtables) ==> DifferentVTables(r, vtables)
  {
    hide ValidVTable, VTableBytes;
    forall v | v in vtables
      ensures ValidVTable(r, v) && VTableBytes(r, v) == VTableBytes(m, v)
    {
      VTableBytesKept(m, r, v);
    }
  }

  /** A recorded vtable with the bytes of vt is one the search would have found. */
  lemma EqualIsSame(sm: bytes, w: bytes, v: nat, vt: bytes)
    requires ValidVTable(sm, v) && Suffix(sm, w) && VTableBytes(sm, v) == vt
    ensures SameVTable(w, v, vt)
  {
    VTableBytesKept(sm, w, v);
  }

  /** Whether SealTable finds an earlier vtable to share. */
  function Shares(p: State, start: nat): bool
    requires start <= |p.msg| && LocsFit(p.locs, VTableSize(p), |p.msg|)
  {
    Duplicate(p, MakeVTable(p, start, |p.msg|)).Some?
  }

  /** The vtable written is recorded exactly when it was kept: a shared one is never at the very front. */
  lemma SealTableRecords(p: State, sm: bytes, start: nat, r: State)
    requires ReadyToSeal(p, sm, start) && r == SealTable(p, start)
    ensures r.vtables == if Shares(p, start) then p.vtables else p.vtables + [|r.msg|]
    ensures Shares(p, start) <==> |r.msg| == |p.msg|
  {
    hide MakeVTable, Patch;
    var vt := MakeVTable(p, start, |p.msg|);
    var dup := Duplicate(p, vt);
    if dup.Some? {
      assert ValidVTable(sm, dup.value);
    }
  }

  lemma VTableFound(m: bytes, v: nat, vt: bytes)
    requires 4 <= |vt| <= v <= |m| && |vt| % 2 == 0 && Aligned(v, 2)
    requires m[|m| - v..|m| - v + |vt|] == vt && ReadScalar(vt, 0, 2) == |vt|
    ensures ValidVTable(m, v) && VTableBytes(m, v) == vt
  {
    hide Aligned;
    VTableEntry(m, |m| - v, vt, 0);
  }

  lemma NewVTable(p: State, sm: bytes, start: nat, r: State)
    requires ReadyToSeal(p, sm, start) && r == SealTable(p, start) && !Shares(p, start)
    ensures ValidVTable(r.msg, |r.msg|) && VTableBytes(r.msg, |r.msg|) == MakeVTable(p, start, |p.msg|)
  {
    hide MakeVTable, Patch, Aligned, ValidVTable, VTableBytes;
    var vt := MakeVTable(p, start, |p.msg|);
    SealTableLayout(p, sm, start, r.msg, vt);
    MakeVTableReads(p, start, |p.msg|, 0);
    VTableFound(r.msg, |r.msg|, vt);
  }

  /** A vtable that is kept while sharing is on differs from all recorded ones. */
  lemma KeptIsNew(p: State, sm: bytes, start: nat, v: nat)
    requires ReadyToSeal(p, sm, start) && p.dedup && !Shares(p, start) && v in p.vtables
    ensures VTableBytes(sm, v) != MakeVTable(p, start, |p.msg|)
  {
    hide MakeVTable, ValidVTable, VTableBytes, SameVTable;
    var vt := MakeVTable(p, start, |p.msg|);
    if VTableBytes(sm, v) == vt {
      assert Suffix(sm, vt + p.msg);
      EqualIsSame(sm, vt + p.msg, v, vt);
    }
  }

  /** A vtable is shared exactly when sharing is on and one with the same bytes has been recorded. */
  lemma SharedExactly(p: State, sm: bytes, start: nat)
    requires ReadyToSeal(p, sm, start)
    ensures Shares(p, start) <==>
            p.dedup && exists v :: v in p.vtables && VTableBytes(sm, v) == MakeVTable(p, start, |p.msg|)
  {
    hide MakeVTable, ValidVTable, VTableBytes, SameVTable;
    var vt := MakeVTable(p, start, |p.msg|);
    if Shares(p, start) {
      var v := Duplicate(p, vt).value;
      SameIsEqual(sm, p.msg, v, vt);
    } else if p.dedup {
      forall v | v in p.vtables
        ensures VTableBytes(sm, v) != vt
      {
        KeptIsNew(p, sm, start, v);
      }
    }
  }

  lemma SameIsEqual(sm: bytes, pm: bytes, v: nat, vt: bytes)
    requires ValidVTable(sm, v) && Suffix(sm, pm) && SameVTable(vt + pm, v, vt)
    ensures VTableBytes(sm, v) == vt
  {
    var w := vt + pm;
    assert Suffix(sm, w);
    VTableBytesKept(sm, w, v);
  }

  /** The table at pos leads to a vtable that can be read. */
  predicate VTableReadable(m: bytes, pos: int) {
    && InBounds(m, pos, 4) && InBounds(m, GetVTable(m, pos), 2)
    && InBounds(m, GetVTable(m, pos), ReadScalar(m, GetVTable(m, pos), 2))
  }

  function TableVTable(m: bytes, pos: int): bytes
    requires VTableReadable(m, pos)
  {
    m[GetVTable(m, pos)..GetVTable(m, pos) + ReadScalar(m, GetVTable(m, pos), 2)]
  }

  lemma AppendVTable(m: bytes, vtables: seq<nat>, v: nat)
    requires ValidVTables(m, vtables) && ValidVTable(m, v)
    ensures ValidVTables(m, vtables + [v])
    ensures DifferentVTables(m, vtables) && (forall v' | v' in vtables :: VTableBytes(m, v') != VTableBytes(m, v))
            ==> DifferentVTables(m, vtables + [v])
  {
    hide ValidVTable, VTableBytes;
  }

  lemma SealTableKeepsVTables(p: State, sm: bytes, start: nat, r: State)
    requires ReadyToSeal(p, sm, start) && r == SealTable(p, start) && Suffix(sm, r.msg)
    ensures ValidVTables(r.msg, r.vtables)
    ensures p.dedup && DifferentVTables(sm, p.vtables) ==> DifferentVTables(r.msg, r.vtables)
  {
    hide MakeVTable, SealTable, ValidVTable, VTableBytes, Suffix, Shares, Laid;
    SealTableRecords(p, sm, start, r);
    VTablesKept(sm, r.msg, p.vtables);
    if !Shares(p, start) {
      NewVTable(p, sm, start, r);
      if p.dedup {
        forall v | v in p.vtables
          ensures VTableBytes(r.msg, v) != VTableBytes(r.msg, |r.msg|)
        {
          VTableBytesKept(sm, r.msg, v);
          KeptIsNew(p, sm, start, v);
        }
      }
      AppendVTable(r.msg, p.vtables, |r.msg|);
    }
  }

  /** The vtables recorded so far can be read and, when sharing is on, all differ. */
  ghost predicate VTablesOk(st: State) {
    ValidVTables(st.msg, st.vtables) && (st.dedup ==> DifferentVTables(st.msg, st.vtables))
  }

  lemma VTablesOkKept(st: State, r: State)
    requires VTablesOk(st) && Suffix(st.msg, r.msg) && r.vtables == st.vtables && r.dedup == st.dedup
    ensures VTablesOk(r)
  {
    VTablesKept(st.msg, r.msg, st.vtables);
  }

  lemma SealTableFrame(p: State, sm: bytes, start: nat, r: State)
    requires ReadyToSeal(p, sm, start) && r == SealTable(p, start)
    ensures Suffix(sm, r.msg)
    ensures r == p.(msg := r.msg, vtables := r.vtables, locs := [], maxVoffset := 0, nested := false)
  {
    hide Patch, MakeVTable;
    SealTableLayout(p, sm, start, r.msg, MakeVTable(p, start, |p.msg|));
  }

  /** Everything is in place for SealTable once the fields are added and the first word is pushed. */
  lemma FirstWordPushed(st: State, adds: seq<Add>, o: State, p: State)
    requires ValidTable(st, adds) && o == Added(st, adds) && p == PushElement(o, 4, 0)
    ensures ReadyToSeal(p, o.msg, |st.msg|) && Suffix(st.msg, o.msg)
    ensures p == st.(msg := p.msg, minAlign := p.minAlign, locs := p.locs, maxVoffset := p.maxVoffset, nested := true)
    ensures p.minAlign >= Max(4, st.minAlign) && WidthsKnown(p, adds, st.forceDefaults)
  {
    hide ApplyAdds, PushElement, TableOpen, ReadyToSeal, ValidVTables, Kept;
    ApplyAddsTracks(StartTable(st), adds);
    AddedIsReady(st, adds, o);
    PushReadies(o, |st.msg|, p);
    PushElementFacts(o, 4, 0);
  }

  lemma SealTableKeepsOk(p: State, sm: bytes, start: nat, r: State)
    requires ReadyToSeal(p, sm, start) && r == SealTable(p, start)
    requires p.dedup ==> DifferentVTables(sm, p.vtables)
    ensures VTablesOk(r)
    ensures r.vtables == p.vtables || r.vtables == p.vtables + [|r.msg|]
  {
    hide SealTable, DifferentVTables, ValidVTables, ReadyToSeal;
    SealTableFrame(p, sm, start, r);
    SealTableRecords(p, sm, start, r);
    SealTableKeepsVTables(p, sm, start, r);
  }

  /** All recorded vtables are still there with their bytes, all different, and at most one was
    * added, at the front. */
  lemma BuildTableKeepsVTables(st: State, adds: seq<Add>, r: State, loc: nat)
    requires ValidTable(st, adds) && VTablesOk(st) && (r, loc) == BuildTable(st, adds)
    ensures VTablesOk(r)
    ensures r.vtables == st.vtables || r.vtables == st.vtables + [|r.msg|]
  {
    hide ApplyAdds, SealTable, PushElement, DifferentVTables, ValidVTables, ReadyToSeal;
    var o := Added(st, adds);
    var p := PushElement(o, 4, 0);
    FirstWordPushed(st, adds, o, p);
    VTablesKept(st.msg, o.msg, st.vtables);
    SealTableKeepsOk(p, o.msg, |st.msg|, r);
  }

  /** What BuildTable leaves alone, the alignments it has tracked, and that the builder is between tables again. */
  lemma BuildTableFrame(st: State, adds: seq<Add>, r: State, loc: nat)
    requires ValidTable(st, adds) && (r, loc) == BuildTable(st, adds)
    ensures r == st.(msg := r.msg, vtables := r.vtables, minAlign := r.minAlign)
    ensures r.minAlign >= Max(4, st.minAlign) && WidthsKnown(r, adds, st.forceDefaults)
  {
    hide ApplyAdds, SealTable, PushElement, ReadyToSeal, ValidVTables, Kept;
    var o := Added(st, adds);
    var p := PushElement(o, 4, 0);
    FirstWordPushed(st, adds, o, p);
    SealTableFrame(p, o.msg, |st.msg|, r);
  }

  lemma LaidVTable(r: bytes, loc: nat, use: nat, vt: bytes, sm: bytes)
    requires Laid(r, loc, use, vt, sm) && 2 <= |vt| && ReadScalar(vt, 0, 2) == |vt|
    ensures VTableReadable(r, |r| - loc) && TableVTable(r, |r| - loc) == vt
  {
    hide Aligned;
    VTableEntry(r, |r| - use, vt, 0);
  }

  lemma SealFits(p: State, sm: bytes, start: nat)
    requires ReadyToSeal(p, sm, start)
    ensures 4 <= |p.msg| && start <= |p.msg| < start + 0x1_0000 && LocsFit(p.locs, VTableSize(p), |p.msg|)
    ensures DistinctFields(p.locs) && p.maxVoffset + 2 < 0x1_0000 && p.maxVoffset % 2 == 0
    ensures forall k | 0 <= k < |p.locs| :: |p.msg| - p.locs[k].off < 0x1_0000
  {}

  lemma SealTableShares(p: State, sm: bytes, start: nat, r: State)
    requires ReadyToSeal(p, sm, start) && r == SealTable(p, start)
    ensures |p.msg| <= |r.msg| && VTableReadable(r.msg, |r.msg| - |p.msg|)
    ensures var vt := TableVTable(r.msg, |r.msg| - |p.msg|);
            if p.dedup && exists v :: v in p.vtables && VTableBytes(sm, v) == vt
            then r.vtables == p.vtables && |r.msg| == |p.msg|
            else r.vtables == p.vtables + [|r.msg|] && |r.msg| == |p.msg| + |vt| && r.msg[..|vt|] == vt
  {
    hide MakeVTable, ValidVTable, VTableBytes, Laid, Shares, Patch, SealTable, VTableReadable, TableVTable, ReadScalar,
         FieldsFit;
    SealFits(p, sm, start);
    var vt := MakeVTable(p, start, |p.msg|);
    SealTableLayout(p, sm, start, r.msg, vt);
    MakeVTableReads(p, start, |p.msg|, 0);
    LaidVTable(r.msg, |p.msg|, VTableUsed(p, vt), vt, sm);
    SealTableRecords(p, sm, start, r);
    SharedExactly(p, sm, start);
    KeptInFront(p, start, r);
  }

  lemma KeptInFront(p: State, start: nat, r: State)
    requires 4 <= |p.msg| && start <= |p.msg| && LocsFit(p.locs, VTableSize(p), |p.msg|) && r == SealTable(p, start)
    ensures !Shares(p, start) ==> r.msg[..VTableSize(p)] == MakeVTable(p, start, |p.msg|)
    ensures !Shares(p, start) ==> |r.msg| == |p.msg| + VTableSize(p)
  {
    hide MakeVTable, Patch;
  }

  /** A table shares a recorded vtable exactly when sharing is on and one has the same bytes. Otherwise its
    * own is kept in front of it and recorded. */
  lemma BuildTableShares(st: State, adds: seq<Add>, r: State, loc: nat)
    requires ValidTable(st, adds) && (r, loc) == BuildTable(st, adds)
    ensures loc <= |r.msg| && VTableReadable(r.msg, |r.msg| - loc)
    ensures var vt := TableVTable(r.msg, |r.msg| - loc);
            if st.dedup && exists v :: v in st.vtables && VTableBytes(st.msg, v) == vt
            then r.vtables == st.vtables && |r.msg| == loc
            else r.vtables == st.vtables + [|r.msg|] && |r.msg| == loc + |vt| && r.msg[..|vt|] == vt
  {
    hide ApplyAdds, SealTable, PushElement, ValidVTable, ReadyToSeal, TableVTable, VTableBytes;
    var o := Added(st, adds);
    var p := PushElement(o, 4, 0);
    FirstWordPushed(st, adds, o, p);
    forall v | v in st.vtables
      ensures ValidVTable(o.msg, v) && VTableBytes(o.msg, v) == VTableBytes(st.msg, v)
    {
      VTableBytesKept(st.msg, o.msg, v);
    }
    SealTableShares(p, o.msg, |st.msg|, r);
  }
}
