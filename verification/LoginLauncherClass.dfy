/** The generated Create functions as they run, on a FlatBufferBuilder. Each is proved to do what the
  * function of the same name in LoginLauncher does. */
module LoginLauncherBuilders {
  import opened Bytes
  import opened Padding
  import opened StringOrder
  import opened Tables
  import B = Builder
  import opened TableFields
  import opened Adds
  import opened Creation
  import L = LoginLauncher
  import opened RealTimeRoundTrip
  import opened FlatBufferBuilders

  /** Between creations, with room for one more small table. */
  predicate CanBuild(st: B.State) {
    Idle(st) && |st.msg| + SLACK < MAX_BUFFER_SIZE
  }

  /** One addition after the other, with the sizes on the way. */
  lemma TwoAdds(st: B.State, a: B.Add, b: B.Add)
    requires CanBuild(st) && ValidAdds(st, [a, b]) && DistinctIds([a, b])
    requires forall k | 0 <= k < 2 :: ([a, b][k].Element? ==> [a, b][k].w <= 4) && [a, b][k].id <= 6
    ensures var s := B.StartTable(st);
            && B.Refers(s, a) && B.Refers(B.ApplyAdd(s, a), b)
            && |B.ApplyAdd(s, a).msg| < MAX_BUFFER_SIZE
            && var o := B.ApplyAdd(B.ApplyAdd(s, a), b);
               && o == Added(st, [a, b]) && |o.msg| < MAX_BUFFER_SIZE
               && TableReady(o, |st.msg|) && ValidVTables(o.msg, o.vtables)
               && TableEnd(o) + B.VTableSize(o) < MAX_BUFFER_SIZE
  {
    hide B.ApplyAdd, B.PushElement, ValidVTables, TableReady;
    var s := B.StartTable(st);
    var adds := [a, b];
    SmallTableFits(st, adds);
    AddedIsReady(st, adds, Added(st, adds));
    assert B.Refers(s, adds[0]) && B.Refers(s, adds[1]);
    assert adds[1..] == [b] && [b][1..] == [];
    var s1 := B.ApplyAdd(s, a);
    assert B.ApplyAdds(s1, [b]) == B.ApplyAdd(s1, b);
    ApplyAddSize(s, a, 4);
    ApplyAddSize(s1, b, 4);
    PushElementSize(Added(st, adds), 4, 0);
  }

  lemma IdleAfterString(st: B.State, s: bytes, r: B.State)
    requires Idle(st) && r == B.CreateString(st, s).0
    ensures Idle(r)
  {
    hide ValidVTable;
    var pre := r.msg[..|r.msg| - |st.msg|];
    StringGrows(st, s);
    assert r.msg == pre + st.msg;
    ValidVTablesShift(pre, st.msg, st.vtables);
  }

  lemma IdleAfterVector(st: B.State, offs: seq<nat>, r: B.State)
    requires Idle(st) && B.AllRefersTo(st, offs) && r == B.CreateVector(st, offs).0 && |r.msg| < TWO31
    ensures Idle(r)
  {
    hide ValidVTable, B.StartVector, B.PushOffsets, B.PushElement, Suffix;
    var a := B.StartVector(st, |offs|, 4);
    var p := B.PushOffsets(a, offs);
    StartVectorAligns(st, |offs|, a);
    PushElementFacts(p.(nested := false), 4, |offs|);
    AlignFacts(p.(nested := false), 4);
    PushOffsetsRead(a, offs, p);
    VectorCloses(p, |offs|, r);
    SuffixTransitive(st.msg, a.msg, p.msg);
    SuffixTransitive(st.msg, p.msg, r.msg);
    ValidKept(st, r);
  }

  lemma ValidKept(st: B.State, r: B.State)
    requires ValidVTables(st.msg, st.vtables) && Suffix(st.msg, r.msg)
    ensures ValidVTables(r.msg, st.vtables)
  {
    hide ValidVTable;
    SuffixSplit(r.msg, st.msg);
    ValidVTablesShift(r.msg[..|r.msg| - |st.msg|], st.msg, st.vtables);
  }

  method CreateUserState(fbb: FlatBufferBuilder, state: byte, id: nat) returns (off: nat)
    requires fbb.Valid() && CanBuild(fbb.State()) && id <= fbb.GetSize()
    modifies fbb, fbb.buf, fbb.buf.buf
    ensures fbb.Valid() && (fbb.buf.buf == old(fbb.buf.buf) || fresh(fbb.buf.buf))
    ensures (fbb.State(), off) == L.CreateUserState(old(fbb.State()), state, id)
  {
    hide B.ApplyAdd, ValidVTables, TableReady, B.AddElement, B.AddOffset,
         B.EndTable, TableEnd, EncodeLocs, EncodeOffsets;
    Pow256Values();
    ghost var st := fbb.State();
    ghost var a, b := B.Offset(L.VT_ID, id), B.Element(L.VT_STATE, 1, state, 0);
    TwoAdds(st, a, b);
    AddsAre(B.StartTable(st), a, b);
    var start := fbb.StartTable();
    fbb.AddOffset(L.VT_ID, id);
    fbb.AddElement(L.VT_STATE, 1, state, 0);
    off := fbb.EndTable(start);
  }

  lemma AddsAre(s: B.State, a: B.Add, b: B.Add)
    requires B.Refers(s, a) && B.Refers(B.ApplyAdd(s, a), b)
    ensures a.Offset? ==> B.ApplyAdd(s, a) == B.AddOffset(s, a.id, a.off)
    ensures b.Offset? ==> B.ApplyAdd(B.ApplyAdd(s, a), b) == B.AddOffset(B.ApplyAdd(s, a), b.id, b.off)
    ensures b.Element? ==> B.ApplyAdd(B.ApplyAdd(s, a), b) == B.AddElement(B.ApplyAdd(s, a), b.id, b.w, b.v, b.def)
  {
    hide B.AddOffset, B.AddElement;
  }

  /** The id is taken up to its first NUL. */
  method CreateUserStateDirect(fbb: FlatBufferBuilder, u: L.UserState) returns (off: nat)
    requires fbb.Valid() && Idle(fbb.State())
    requires |L.CreateUserStateDirect(fbb.State(), u).0.msg| + SLACK < MAX_BUFFER_SIZE
    modifies fbb, fbb.buf, fbb.buf.buf
    ensures fbb.Valid() && (fbb.buf.buf == old(fbb.buf.buf) || fresh(fbb.buf.buf))
    ensures (fbb.State(), off) == L.CreateUserStateDirect(old(fbb.State()), u)
  {
    hide ValidVTables, B.CreateString, L.CreateUserState, CString;
    var id := 0;
    if u.id.Some? {
      ghost var st := fbb.State();
      id := fbb.CreateCString(u.id.value);
      IdleAfterString(st, CString(u.id.value), fbb.State());
    }
    off := CreateUserState(fbb, u.state, id);
  }

  method CreateRealTimeData(fbb: FlatBufferBuilder, friendstate: nat, friendrequest: nat) returns (off: nat)
    requires fbb.Valid() && CanBuild(fbb.State()) && friendstate <= fbb.GetSize() && friendrequest <= fbb.GetSize()
    modifies fbb, fbb.buf, fbb.buf.buf
    ensures fbb.Valid() && (fbb.buf.buf == old(fbb.buf.buf) || fresh(fbb.buf.buf))
    ensures (fbb.State(), off) == L.CreateRealTimeData(old(fbb.State()), friendstate, friendrequest)
  {
    hide B.ApplyAdd, ValidVTables, TableReady, B.AddOffset, B.EndTable, TableEnd, EncodeLocs, EncodeOffsets;
    ghost var st := fbb.State();
    ghost var a, b := B.Offset(L.VT_FRIENDREQUEST, friendrequest), B.Offset(L.VT_FRIENDSTATE, friendstate);
    TwoAdds(st, a, b);
    AddsAre(B.StartTable(st), a, b);
    var start := fbb.StartTable();
    fbb.AddOffset(L.VT_FRIENDREQUEST, friendrequest);
    fbb.AddOffset(L.VT_FRIENDSTATE, friendstate);
    off := fbb.EndTable(start);
  }

  /** A vector when there is one to write, otherwise the null offset. */
  method CreateOptionalVector(fbb: FlatBufferBuilder, offs: Option<seq<nat>>) returns (off: nat)
    requires fbb.Valid() && Idle(fbb.State()) && (offs.Some? ==> B.AllRefersTo(fbb.State(), offs.value))
    requires |L.CreateOptionalVector(fbb.State(), offs).0.msg| < MAX_BUFFER_SIZE
    modifies fbb, fbb.buf, fbb.buf.buf
    ensures fbb.Valid() && (fbb.buf.buf == old(fbb.buf.buf) || fresh(fbb.buf.buf))
    ensures (fbb.State(), off) == L.CreateOptionalVector(old(fbb.State()), offs) && Idle(fbb.State())
  {
    hide ValidVTables, B.CreateVector;
    off := 0;
    if offs.Some? {
      ghost var st := fbb.State();
      off := fbb.CreateVector(offs.value);
      IdleAfterVector(st, offs.value, fbb.State());
    }
  }

  method CreateRealTimeDataDirect(fbb: FlatBufferBuilder, friendstate: Option<seq<nat>>,
                                  friendrequest: Option<seq<nat>>) returns (off: nat)
    requires fbb.Valid() && Idle(fbb.State())
    requires friendstate.Some? ==> B.AllRefersTo(fbb.State(), friendstate.value)
    requires friendrequest.Some? ==> B.AllRefersTo(fbb.State(), friendrequest.value)
    requires |L.CreateRealTimeDataDirect(fbb.State(), friendstate, friendrequest).0.msg| + SLACK < MAX_BUFFER_SIZE
    modifies fbb, fbb.buf, fbb.buf.buf
    ensures fbb.Valid() && (fbb.buf.buf == old(fbb.buf.buf) || fresh(fbb.buf.buf))
    ensures (fbb.State(), off) == L.CreateRealTimeDataDirect(old(fbb.State()), friendstate, friendrequest)
  {
    hide ValidVTables, L.CreateOptionalVector, L.CreateRealTimeData;
    var friendstateOff := CreateOptionalVector(fbb, friendstate);
    var friendrequestOff := CreateOptionalVector(fbb, friendrequest);
    off := CreateRealTimeData(fbb, friendstateOff, friendrequestOff);
  }
}
