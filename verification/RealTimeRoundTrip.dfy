/** A RealTimeData message that was built and finished is accepted by the Verifier and reads back as
  * the message it was built from. */
module RealTimeRoundTrip {
  import opened Bytes
  import opened Padding
  import opened Tables
  import opened Objects
  import opened Builder
  import opened TableFields
  import opened Adds
  import opened Creation
  import opened VTables
  import opened SharedStrings
  import opened Runs
  import opened Finishing
  import V = Verification
  import opened VerifierSoundness
  import opened BuiltVerifies
  import opened Acceptance
  import opened LoginLauncher

  // Small tables fit 16-bit offsets.

  lemma PushElementSize(st: State, w: Alignment, v: nat)
    ensures |PushElement(st, w, v).msg| < |st.msg| + 2 * w
    ensures PushElement(st, w, v).maxVoffset == st.maxVoffset
  {}

  lemma ApplyAddSize(st: State, add: Add, w: Alignment)
    requires Refers(st, add) && 4 <= w && (add.Element? ==> add.w <= w)
    ensures |ApplyAdd(st, add).msg| <= |st.msg| + 3 * w
    ensures ApplyAdd(st, add).maxVoffset <= Max(st.maxVoffset, add.id)
  {
    hide PushElement;
    if add.Element? {
      PushElementSize(st, add.w, add.v);
    } else if add.off != 0 {
      PushElementSize(Align(st, 4), 4, Distance(Align(st, 4), add.off));
    }
  }

  lemma {:induction false} ApplyAddsSize(st: State, adds: seq<Add>, w: Alignment, id: nat)
    requires AllRefer(st, adds) && 4 <= w && st.maxVoffset <= id
    requires forall k | 0 <= k < |adds| :: (adds[k].Element? ==> adds[k].w <= w) && adds[k].id <= id
    ensures |ApplyAdds(st, adds).msg| <= |st.msg| + 3 * w * |adds| && ApplyAdds(st, adds).maxVoffset <= id
    decreases |adds|
  {
    hide ApplyAdd;
    if adds != [] {
      var r := ApplyAdd(st, adds[0]);
      ApplyAddSize(st, adds[0], w);
      assert forall k | 0 <= k < |adds[1..]| :: adds[1..][k] == adds[k + 1] && Refers(st, adds[k + 1]);
      ApplyAddsSize(r, adds[1..], w, id);
    }
  }

  /** The slack that building one of these tables needs in the buffer. */
  const SLACK: nat := 64

  lemma SmallTableFits(st: State, adds: seq<Add>)
    requires AllRefer(st, adds) && st.maxVoffset == 0 && |adds| == 2
    requires forall k | 0 <= k < |adds| :: (adds[k].Element? ==> adds[k].w <= 4) && adds[k].id <= 6
    requires |st.msg| + SLACK < TWO31
    ensures TableFits(st, adds)
  {
    hide PushElement, ApplyAdds;
    ApplyAddsSize(StartTable(st), adds, 4, 6);
    PushElementSize(Added(st, adds), 4, 0);
  }

  lemma CreateUserStateHolds(st: State, u: UserState, id: nat, r: State, off: nat)
    requires Inv(st) && |st.msg| + SLACK < TWO31 && id <= |st.msg|
    requires if u.id.Some? then HoldsAt(st.msg, id, Str(u.id.value)) else id == 0
    requires (r, off) == CreateUserState(st, u.state, id)
    ensures Inv(r) && Suffix(st.msg, r.msg) && r.forceDefaults == st.forceDefaults
    ensures HoldsAt(r.msg, off, UserObject(u, st.forceDefaults))
  {
    hide Holds, BuildTable, VTablesOk, PoolOk, ValidVTables;
    var adds := [Offset(VT_ID, id), Element(VT_STATE, 1, u.state, 0)];
    var fields := [IdField(u), StateField(u, st.forceDefaults)];
    SmallTableFits(st, adds);
    Pow256Values();
    BuildPair(st, adds, fields, r, off);
    assert Ids(adds) == [VT_ID, VT_STATE];
  }

  lemma BuildPair(st: State, adds: seq<Add>, fields: seq<Field>, r: State, off: nat)
    requires Inv(st) && |adds| == 2 && |fields| == 2 && ValidAdds(st, adds) && DistinctIds(adds) && TableFits(st, adds)
    requires FieldsMean(st.msg, adds, st.forceDefaults, fields)
    requires (r, off) == BuildTable(st, adds)
    ensures Inv(r) && Suffix(st.msg, r.msg) && r.forceDefaults == st.forceDefaults
    ensures HoldsAt(r.msg, off, TableObject(Ids(adds), fields))
  {
    hide BuildTable, HoldsAt, VTablesOk, PoolOk, TableFits, Suffix, FieldsMean, ValidAdds;
    assert ValidVTables(st.msg, st.vtables) by {
      VTablesValid(st);
    }
    BuildTableHolds(st, adds, fields, r, off);
    BuildTableFrame(st, adds, r, off);
    BuildTableKeepsVTables(st, adds, r, off);
    PoolKept(st.msg, r.msg, st.pool);
  }

  lemma VTablesValid(st: State)
    requires VTablesOk(st)
    ensures ValidVTables(st.msg, st.vtables)
  {}

  lemma CreateRealTimeDataHolds(st: State, d: RealTimeData, fs: nat, fr: nat, r: State, off: nat)
    requires Inv(st) && |st.msg| + SLACK < TWO31 && fs <= |st.msg| && fr <= |st.msg|
    requires if d.friendstate.Some? then HoldsAt(st.msg, fs, FriendField(d, st.forceDefaults).obj) else fs == 0
    requires if d.friendrequest.Some? then HoldsAt(st.msg, fr, RequestField(d).obj) else fr == 0
    requires (r, off) == CreateRealTimeData(st, fs, fr)
    ensures Inv(r) && Suffix(st.msg, r.msg) && r.forceDefaults == st.forceDefaults
    ensures HoldsAt(r.msg, off, MessageObject(d, st.forceDefaults))
  {
    hide Holds, BuildTable, VTablesOk, PoolOk;
    var adds := [Offset(VT_FRIENDREQUEST, fr), Offset(VT_FRIENDSTATE, fs)];
    var fields := [RequestField(d), FriendField(d, st.forceDefaults)];
    SmallTableFits(st, adds);
    BuildPair(st, adds, fields, r, off);
    assert Ids(adds) == [VT_FRIENDREQUEST, VT_FRIENDSTATE];
  }

  /** CreateRealTimeDataDirect, whatever order its parts were created in and whatever they share. */
  lemma DirectHolds(st: State, d: RealTimeData, us: Option<seq<nat>>, ss: Option<seq<nat>>, r: State, off: nat)
    requires Inv(st) && us.Some? == d.friendstate.Some? && ss.Some? == d.friendrequest.Some?
    requires us.Some? ==> AllRefersTo(st, us.value)
    requires us.Some? ==> AllHold(st.msg, us.value, UserObjects(d.friendstate.value, st.forceDefaults))
    requires ss.Some? ==> AllRefersTo(st, ss.value) && AllHold(st.msg, ss.value, StringObjects(d.friendrequest.value))
    requires (r, off) == CreateRealTimeDataDirect(st, us, ss) && |r.msg| + SLACK < TWO31
    ensures Inv(r) && Suffix(st.msg, r.msg) && r.forceDefaults == st.forceDefaults
    ensures HoldsAt(r.msg, off, MessageObject(d, st.forceDefaults))
  {
    hide Inv, HoldsAt, CreateVector, CreateRealTimeData, Suffix, UserObjects, StringObjects, MessageObject;
    var (s1, fs) := CreateOptionalVector(st, us);
    var (s2, fr) := CreateOptionalVector(s1, ss);
    OptionalVectorHolds(st, us, if us.Some? then UserObjects(d.friendstate.value, st.forceDefaults) else [], s1, fs);
    if ss.Some? {
      AllHoldKept(st.msg, s1.msg, ss.value, StringObjects(d.friendrequest.value));
    }
    OptionalVectorHolds(s1, ss, if ss.Some? then StringObjects(d.friendrequest.value) else [], s2, fr);
    if us.Some? {
      HoldsAtKept(s1.msg, s2.msg, fs, Vec(UserObjects(d.friendstate.value, st.forceDefaults)));
    }
    CreateRealTimeDataHolds(s2, d, fs, fr, r, off);
    SuffixTransitive(st.msg, s1.msg, s2.msg);
    SuffixTransitive(st.msg, s2.msg, r.msg);
  }

  lemma AllHoldKept(m: bytes, r: bytes, offs: seq<nat>, objs: seq<Object>)
    requires AllHold(m, offs, objs) && Suffix(m, r)
    ensures AllHold(r, offs, objs)
  {
    hide HoldsAt, Suffix;
    forall i | 0 <= i < |offs|
      ensures HoldsAt(r, offs[i], objs[i])
    {
      HoldsAtKept(m, r, offs[i], objs[i]);
    }
  }

  lemma OptionalVectorHolds(st: State, offs: Option<seq<nat>>, objs: seq<Object>, r: State, off: nat)
    requires Inv(st) && (offs.Some? ==> AllRefersTo(st, offs.value) && AllHold(st.msg, offs.value, objs))
    requires (r, off) == CreateOptionalVector(st, offs) && |r.msg| < TWO31
    ensures Inv(r) && Suffix(st.msg, r.msg) && r.forceDefaults == st.forceDefaults
    ensures if offs.Some? then HoldsAt(r.msg, off, Vec(objs)) else off == 0
  {
    hide CreateVector, HoldsAt, VTablesOk, PoolOk, Suffix;
    SuffixSelf(st.msg);
    if offs.Some? {
      CreateVectorHolds(st, offs.value, objs, r, off);
      VTablesOkKept(st, r);
      PoolKept(st.msg, r.msg, st.pool);
    }
  }

  // The application's loops.

  lemma UserStateFromHolds(st: State, u: UserState, r: State, off: nat)
    requires Inv(st) && (r, off) == CreateUserStateFrom(st, u) && |r.msg| + SLACK < TWO31
    ensures Inv(r) && Suffix(st.msg, r.msg) && r.forceDefaults == st.forceDefaults
    ensures HoldsAt(r.msg, off, UserObject(u, st.forceDefaults))
  {
    hide CreateString, CreateUserState, Inv, HoldsAt, Suffix, UserObject;
    if u.id.Some? {
      var (s1, id) := CreateString(st, u.id.value);
      ExecString(st, u.id.value, s1, id);
      CreateUserStateHolds(s1, u, id, r, off);
      SuffixTransitive(st.msg, s1.msg, r.msg);
    } else {
      CreateUserStateHolds(st, u, 0, r, off);
    }
  }

  lemma {:induction false} UserStatesHold(st: State, us: seq<UserState>, r: State, offs: seq<nat>)
    requires Inv(st) && (r, offs) == CreateUserStates(st, us) && |r.msg| + SLACK < TWO31
    ensures Inv(r) && Suffix(st.msg, r.msg) && r.forceDefaults == st.forceDefaults
    ensures AllHold(r.msg, offs, UserObjects(us, st.forceDefaults))
  {
    hide CreateUserStateFrom, Inv, HoldsAt, Suffix, UserObject;
    SuffixSelf(st.msg);
    if us != [] {
      var n := |us| - 1;
      assert st.locs == [] by {
        InvLocs(st);
      }
      var (s1, offs1) := CreateUserStates(st, us[..n]);
      UserStatesHold(st, us[..n], s1, offs1);
      var (s2, off) := CreateUserStateFrom(s1, us[n]);
      UserStateFromHolds(s1, us[n], s2, off);
      AllHoldGrow(s1.msg, offs1, UserObjects(us[..n], st.forceDefaults),
                  s2.msg, off, UserObject(us[n], st.forceDefaults));
      assert UserObjects(us[..n], st.forceDefaults) + [UserObject(us[n], st.forceDefaults)]
             == UserObjects(us, st.forceDefaults);
      SuffixTransitive(st.msg, s1.msg, s2.msg);
    }
  }

  lemma InvLocs(st: State)
    requires Inv(st)
    ensures st.locs == []
  {}

  lemma {:induction false} StringsHold(st: State, ss: seq<bytes>, r: State, offs: seq<nat>)
    requires Inv(st) && (r, offs) == CreateStrings(st, ss) && |r.msg| < TWO31
    ensures Inv(r) && Suffix(st.msg, r.msg) && r.forceDefaults == st.forceDefaults
    ensures AllHold(r.msg, offs, StringObjects(ss))
  {
    hide CreateString, Inv, HoldsAt, Suffix;
    SuffixSelf(st.msg);
    if ss != [] {
      var n := |ss| - 1;
      assert st.locs == [] by {
        InvLocs(st);
      }
      var (s1, offs1) := CreateStrings(st, ss[..n]);
      StringsHold(st, ss[..n], s1, offs1);
      var (s2, off) := CreateString(s1, ss[n]);
      ExecString(s1, ss[n], s2, off);
      AllHoldGrow(s1.msg, offs1, StringObjects(ss[..n]), s2.msg, off, Str(ss[n]));
      assert StringObjects(ss[..n]) + [Str(ss[n])] == StringObjects(ss);
      SuffixTransitive(st.msg, s1.msg, s2.msg);
    }
  }

  lemma MessageHolds(st: State, d: RealTimeData, r: State, off: nat)
    requires Inv(st) && (r, off) == CreateMessage(st, d) && |r.msg| + SLACK < TWO31
    ensures Inv(r) && Suffix(st.msg, r.msg) && r.forceDefaults == st.forceDefaults
    ensures HoldsAt(r.msg, off, MessageObject(d, st.forceDefaults))
  {
    hide Inv, HoldsAt, CreateRealTimeDataDirect, CreateUserStates, CreateStrings, Suffix, MessageObject, UserObjects,
         StringObjects;
    assert st.locs == [] by {
      InvLocs(st);
    }
    var (s1, us) := if d.friendstate.Some? then CreateUserStates(st, d.friendstate.value) else (st, []);
    var (s2, ss) := if d.friendrequest.Some? then CreateStrings(s1, d.friendrequest.value) else (s1, []);
    SuffixSelf(st.msg);
    SuffixSelf(s1.msg);
    if d.friendstate.Some? {
      UserStatesHold(st, d.friendstate.value, s1, us);
    }
    if d.friendrequest.Some? {
      StringsHold(s1, d.friendrequest.value, s2, ss);
    }
    if d.friendstate.Some? {
      AllHoldKept(s1.msg, s2.msg, us, UserObjects(d.friendstate.value, st.forceDefaults));
    }
    DirectHolds(s2, d, if d.friendstate.Some? then Some(us) else None,
                if d.friendrequest.Some? then Some(ss) else None, r, off);
    SuffixTransitive(st.msg, s1.msg, s2.msg);
    SuffixTransitive(st.msg, s2.msg, r.msg);
  }

  // The extent of a message: two levels, one table for the message and one for each friend.

  lemma NoExtent(t: nat, x: Object, i: nat)
    requires t < |LOGIN_SCHEMA| && i <= |LOGIN_SCHEMA[t]|
    requires forall j | i <= j < |LOGIN_SCHEMA[t]| && x.Tab? && j < |x.fields| ::
               !(LOGIN_SCHEMA[t][j].TableField? || LOGIN_SCHEMA[t][j].TableVector?) || !x.fields[j].Ref?
    ensures FieldsExtent(LOGIN_SCHEMA, t, x, i) == Extent(0, 0)
    decreases |LOGIN_SCHEMA[t]| - i
  {
    if i < |LOGIN_SCHEMA[t]| {
      NoExtent(t, x, i + 1);
    }
  }

  lemma UserExtent(u: UserState, force: bool)
    ensures TableExtent(LOGIN_SCHEMA, USER_STATE, UserObject(u, force)) == Extent(1, 1)
  {
    NoExtent(USER_STATE, UserObject(u, force), 0);
  }

  lemma {:induction false} UsersExtent(us: seq<UserState>, force: bool, k: nat)
    requires k <= |us|
    ensures ElementsExtent(LOGIN_SCHEMA, USER_STATE, Vec(UserObjects(us, force)), k)
            == Extent(if k < |us| then 1 else 0, |us| - k)
    decreases |us| - k
  {
    hide TableExtent, UserObject;
    if k < |us| {
      UserExtent(us[k], force);
      UsersExtent(us, force, k + 1);
    }
  }

  function Friends(d: RealTimeData): nat {
    if d.friendstate.Some? then |d.friendstate.value| else 0
  }

  lemma FriendExtent(d: RealTimeData, force: bool)
    ensures V.ClosedField(LOGIN_SCHEMA[REAL_TIME_DATA][0], |LOGIN_SCHEMA|)
    ensures FieldExtent(LOGIN_SCHEMA, LOGIN_SCHEMA[REAL_TIME_DATA][0], FriendField(d, force))
         == Extent(if Friends(d) > 0 then 1 else 0, Friends(d))
  {
    hide ElementsExtent, UserObjects;
    if d.friendstate.Some? {
      UsersExtent(d.friendstate.value, force, 0);
    }
  }

  lemma FirstField(d: RealTimeData, force: bool)
    ensures var x := MessageObject(d, force);
            x.Tab? && if x.fields == [] then Friends(d) == 0 else x.fields[0] == FriendField(d, force)
  {
    var ids, fields := [VT_FRIENDREQUEST, VT_FRIENDSTATE], [RequestField(d), FriendField(d, force)];
    TwoFields(VT_FRIENDREQUEST, VT_FRIENDSTATE, fields[0], fields[1]);
    if MessageObject(d, force).fields == [] {
      BeyondAbsent(ids, fields, 0);
    }
  }

  lemma MessageExtent(d: RealTimeData, force: bool)
    ensures var e := TableExtent(LOGIN_SCHEMA, REAL_TIME_DATA, MessageObject(d, force));
            e.height <= 2 && e.tables == 1 + Friends(d)
  {
    hide MessageObject, FriendField, FieldExtent;
    var x := MessageObject(d, force);
    FirstField(d, force);
    FriendExtent(d, force);
    NoExtent(REAL_TIME_DATA, x, 1);
  }

  // The theorems.

  /** A finished message is accepted, and the accessors give back what was put in: friends with their
    * states, also default ones, their identifiers or their absence, requests, and absent vectors. */
  lemma MessageRoundTrip(st: State, root: nat, d: RealTimeData, ident: Option<bytes>, sizePrefix: bool, m: bytes)
    requires st.minAlign >= 4 && HoldsAt(st.msg, root, MessageObject(d, st.forceDefaults))
    requires ValidIdentifier(ident) && Friends(d) < V.DEFAULT_LIMITS.maxTables
    requires m == Finish(st, root, ident, sizePrefix).msg && |m| < MAX_BUFFER_SIZE
    ensures if sizePrefix then V.VerifySizePrefixedBuffer(LOGIN_SCHEMA, V.DEFAULT_LIMITS, m, REAL_TIME_DATA, ident)
            else V.VerifyBuffer(LOGIN_SCHEMA, V.DEFAULT_LIMITS, m, REAL_TIME_DATA, ident)
    ensures InBounds(m, RootPosition(sizePrefix), 4)
    ensures var p := if sizePrefix then GetSizePrefixedRoot(m) else GetRoot(m);
            SafeTable(LOGIN_SCHEMA, m, REAL_TIME_DATA, p) && ReadRealTimeData(m, p) == d
  {
    hide Finish, Holds, Conforms, MessageObject, SafeTable, TableExtent, V.VerifyBuffer, V.VerifySizePrefixedBuffer,
         ReadRealTimeData, TidyTable, TidyOffset, Visits, V.HasIdentifier, Aligned, Suffix;
    var r := Finish(st, root, ident, sizePrefix);
    var x := MessageObject(d, st.forceDefaults);
    MessageConforms(d, st.forceDefaults);
    MessageExtent(d, st.forceDefaults);
    FinishedVerifies(LOGIN_SCHEMA, V.DEFAULT_LIMITS, REAL_TIME_DATA, st, root, x, ident, sizePrefix, r);
    if sizePrefix {
      SoundSizePrefixedBuffer(LOGIN_SCHEMA, V.DEFAULT_LIMITS, m, REAL_TIME_DATA, ident);
    } else {
      SoundBuffer(LOGIN_SCHEMA, V.DEFAULT_LIMITS, m, REAL_TIME_DATA, ident);
    }
    FinishReads(st, root, ident, sizePrefix, r);
    HoldsAtKept(st.msg, m, root, x);
    RootReads(m, |m| - root, d, st.forceDefaults);
  }

  lemma RootReads(m: bytes, p: int, d: RealTimeData, force: bool)
    requires p < |m| && HoldsAt(m, |m| - p, MessageObject(d, force)) && SafeTable(LOGIN_SCHEMA, m, REAL_TIME_DATA, p)
    ensures ReadRealTimeData(m, p) == d
  {
    MessageReads(m, p, d, force);
  }

  /** From a new builder, for every list of friends and every list of requests: build, finish, verify,
    * read, and it is the same message. */
  lemma BuildVerifyRead(d: RealTimeData, force: bool, dedup: bool, ident: Option<bytes>, sizePrefix: bool, m: bytes)
    requires ValidIdentifier(ident) && Friends(d) < V.DEFAULT_LIMITS.maxTables
    requires var (st, root) := CreateMessage(EMPTY.(forceDefaults := force, dedup := dedup), d);
             |st.msg| + SLACK < TWO31 && m == Finish(st, root, ident, sizePrefix).msg && |m| < MAX_BUFFER_SIZE
    ensures if sizePrefix then V.VerifySizePrefixedBuffer(LOGIN_SCHEMA, V.DEFAULT_LIMITS, m, REAL_TIME_DATA, ident)
            else V.VerifyBuffer(LOGIN_SCHEMA, V.DEFAULT_LIMITS, m, REAL_TIME_DATA, ident)
    ensures InBounds(m, RootPosition(sizePrefix), 4)
    ensures var p := if sizePrefix then GetSizePrefixedRoot(m) else GetRoot(m);
            SafeTable(LOGIN_SCHEMA, m, REAL_TIME_DATA, p) && ReadRealTimeData(m, p) == d
  {
    hide CreateMessage, Finish, VTablesOk, PoolOk, HoldsAt, SafeTable, ReadRealTimeData;
    var st0 := EMPTY.(forceDefaults := force, dedup := dedup);
    InvInitially(force, dedup);
    var (st, root) := CreateMessage(st0, d);
    MessageHolds(st0, d, st, root);
    MessageRoundTrip(st, root, d, ident, sizePrefix, m);
  }
}
