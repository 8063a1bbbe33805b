/** How large a message can become, from its contents alone, and the round trip for every message that
  * is small enough. */
module MessageSizes {
  import opened Bytes
  import opened Padding
  import opened StringOrder
  import opened Tables
  import opened Builder
  import opened TableFields
  import opened Adds
  import opened Creation
  import opened Runs
  import opened Finishing
  import V = Verification
  import opened VerifierSoundness
  import opened LoginLauncher
  import opened RealTimeRoundTrip

  lemma StringSize(st: State, s: bytes)
    ensures |CreateString(st, s).0.msg| <= |st.msg| + |s| + 16
    ensures CreateString(st, s).0.maxVoffset == st.maxVoffset
  {
    hide PushElement, PaddingBytes;
    PushElementSize(PushBytes(Fill(PreAlign(st, |s| + 1, 4), 1), s), 4, |s|);
  }

  lemma VectorSizeBound(st: State, offs: seq<nat>)
    requires AllRefersTo(st, offs)
    ensures |CreateVector(st, offs).0.msg| <= |st.msg| + 4 * |offs| + 16
    ensures CreateVector(st, offs).0.maxVoffset == st.maxVoffset
  {
    hide PushElement, PaddingBytes, PushOffsets, Aligned;
    var a := StartVector(st, |offs|, 4);
    StartVectorAligns(st, |offs|, a);
    PushOffsetsSize(a, offs);
    PushElementSize(PushOffsets(a, offs).(nested := false), 4, |offs|);
  }

  lemma PairSize(st: State, adds: seq<Add>)
    requires AllRefer(st, adds) && st.locs == [] && st.maxVoffset == 0 && |adds| == 2
    requires forall k | 0 <= k < |adds| :: (adds[k].Element? ==> adds[k].w <= 4) && adds[k].id <= 6
    ensures |BuildTable(st, adds).0.msg| <= |st.msg| + 64 && BuildTable(st, adds).0.maxVoffset == 0
  {
    hide PushElement, ApplyAdds, MakeVTable, Patch, FindVTable;
    var s := StartTable(st);
    ApplyAddsRecorded(s, adds);
    ApplyAddsSize(s, adds, 4, 6);
    PushElementSize(ApplyAdds(s, adds), 4, 0);
  }

  // Sizes from contents

  function UserSize(u: UserState): nat {
    64 + if u.id.Some? then |u.id.value| + 16 else 0
  }

  function UsersSize(us: seq<UserState>): nat {
    if us == [] then 0 else UsersSize(us[..|us| - 1]) + UserSize(us[|us| - 1])
  }

  function StringsSize(ss: seq<bytes>): nat {
    if ss == [] then 0 else StringsSize(ss[..|ss| - 1]) + |ss[|ss| - 1]| + 16
  }

  function MessageSize(d: RealTimeData): nat {
    (if d.friendstate.Some? then UsersSize(d.friendstate.value) + 4 * |d.friendstate.value| + 16 else 0)
    + (if d.friendrequest.Some? then StringsSize(d.friendrequest.value) + 4 * |d.friendrequest.value| + 16 else 0)
    + 64
  }

  lemma UserStateSize(st: State, u: UserState)
    requires st.locs == [] && st.maxVoffset == 0
    ensures |CreateUserStateFrom(st, u).0.msg| <= |st.msg| + UserSize(u)
    ensures CreateUserStateFrom(st, u).0.maxVoffset == 0
  {
    hide CreateString, BuildTable;
    if u.id.Some? {
      StringSize(st, u.id.value);
      var (s1, id) := CreateString(st, u.id.value);
      PairSize(s1, [Offset(VT_ID, id), Element(VT_STATE, 1, u.state, 0)]);
    } else {
      PairSize(st, [Offset(VT_ID, 0), Element(VT_STATE, 1, u.state, 0)]);
    }
  }

  lemma {:induction false} UserStatesSize(st: State, us: seq<UserState>)
    requires st.locs == [] && st.maxVoffset == 0
    ensures |CreateUserStates(st, us).0.msg| <= |st.msg| + UsersSize(us)
    ensures CreateUserStates(st, us).0.maxVoffset == 0
  {
    hide CreateUserStateFrom, UserSize;
    if us != [] {
      var init, u := us[..|us| - 1], us[|us| - 1];
      UserStatesSize(st, init);
      UserStateSize(CreateUserStates(st, init).0, u);
    }
  }

  lemma {:induction false} AllStringsSize(st: State, ss: seq<bytes>)
    requires st.locs == [] && st.maxVoffset == 0
    ensures |CreateStrings(st, ss).0.msg| <= |st.msg| + StringsSize(ss)
    ensures CreateStrings(st, ss).0.maxVoffset == 0
  {
    hide CreateString;
    if ss != [] {
      var init, s := ss[..|ss| - 1], ss[|ss| - 1];
      AllStringsSize(st, init);
      StringSize(CreateStrings(st, init).0, s);
    }
  }

  lemma OptionalVectorSize(st: State, offs: Option<seq<nat>>)
    requires offs.Some? ==> AllRefersTo(st, offs.value)
    ensures |CreateOptionalVector(st, offs).0.msg| <= |st.msg| + if offs.Some? then 4 * |offs.value| + 16 else 0
    ensures CreateOptionalVector(st, offs).0.maxVoffset == st.maxVoffset
  {
    hide CreateVector;
    if offs.Some? {
      VectorSizeBound(st, offs.value);
    }
  }

  lemma DirectSize(st: State, us: Option<seq<nat>>, ss: Option<seq<nat>>)
    requires (us.Some? ==> AllRefersTo(st, us.value)) && (ss.Some? ==> AllRefersTo(st, ss.value))
    requires st.locs == [] && st.maxVoffset == 0
    ensures |CreateRealTimeDataDirect(st, us, ss).0.msg| <= |st.msg| + 64
              + (if us.Some? then 4 * |us.value| + 16 else 0) + (if ss.Some? then 4 * |ss.value| + 16 else 0)
  {
    hide CreateOptionalVector, BuildTable;
    OptionalVectorSize(st, us);
    var (s1, fs) := CreateOptionalVector(st, us);
    OptionalVectorSize(s1, ss);
    var (s2, fr) := CreateOptionalVector(s1, ss);
    PairSize(s2, [Offset(VT_FRIENDREQUEST, fr), Offset(VT_FRIENDSTATE, fs)]);
  }

  lemma MessageSizeBound(st: State, d: RealTimeData)
    requires st.locs == [] && st.maxVoffset == 0
    ensures |CreateMessage(st, d).0.msg| <= |st.msg| + MessageSize(d)
  {
    hide CreateUserStates, CreateStrings, CreateRealTimeDataDirect, UsersSize, StringsSize;
    var (s1, us) := if d.friendstate.Some? then CreateUserStates(st, d.friendstate.value) else (st, []);
    if d.friendstate.Some? {
      UserStatesSize(st, d.friendstate.value);
    }
    var (s2, ss) := if d.friendrequest.Some? then CreateStrings(s1, d.friendrequest.value) else (s1, []);
    if d.friendrequest.Some? {
      AllStringsSize(s1, d.friendrequest.value);
    }
    DirectSize(s2, if d.friendstate.Some? then Some(us) else None, if d.friendrequest.Some? then Some(ss) else None);
  }

  lemma FinishSizeBound(st: State, root: nat, ident: Option<bytes>, sizePrefix: bool)
    requires ValidIdentifier(ident) && st.minAlign >= 4 && 0 < root <= |st.msg|
    ensures |Finish(st, root, ident, sizePrefix).msg| <= |st.msg| + 28
  {
    hide Finish, PaddingBytes, Encode;
    FinishBytes(st, root, ident, sizePrefix, Finish(st, root, ident, sizePrefix));
  }

  /** The round trip from the contents alone: every message whose contents are small enough for two
    * gigabytes, built, finished, verified and read, is the same message. */
  lemma SmallMessageRoundTrip(d: RealTimeData, force: bool, dedup: bool, ident: Option<bytes>, sizePrefix: bool)
    requires ValidIdentifier(ident) && Friends(d) < V.DEFAULT_LIMITS.maxTables
    requires MessageSize(d) + SLACK < MAX_BUFFER_SIZE
    ensures var (st, root) := CreateMessage(EMPTY.(forceDefaults := force, dedup := dedup), d);
            var m := Finish(st, root, ident, sizePrefix).msg;
            && |m| < MAX_BUFFER_SIZE
            && (if sizePrefix then V.VerifySizePrefixedBuffer(LOGIN_SCHEMA, V.DEFAULT_LIMITS, m, REAL_TIME_DATA, ident)
                else V.VerifyBuffer(LOGIN_SCHEMA, V.DEFAULT_LIMITS, m, REAL_TIME_DATA, ident))
            && InBounds(m, RootPosition(sizePrefix), 4)
            && var p := if sizePrefix then GetSizePrefixedRoot(m) else GetRoot(m);
               SafeTable(LOGIN_SCHEMA, m, REAL_TIME_DATA, p) && ReadRealTimeData(m, p) == d
  {
    hide CreateMessage, Finish, Inv, HoldsAt, SafeTable, ReadRealTimeData, MessageSize, V.VerifyBuffer,
         V.VerifySizePrefixedBuffer;
    var st0 := EMPTY.(forceDefaults := force, dedup := dedup);
    var (st, root) := CreateMessage(st0, d);
    MessageSizeBound(st0, d);
    InvInitially(force, dedup);
    MessageHolds(st0, d, st, root);
    InvAligned(st);
    FinishSizeBound(st, root, ident, sizePrefix);
    BuildVerifyRead(d, force, dedup, ident, sizePrefix, Finish(st, root, ident, sizePrefix).msg);
  }

  lemma {:induction false} CutUsersSize(us: seq<UserState>)
    ensures UsersSize(CutUsers(us)) <= UsersSize(us)
  {
    hide UserSize;
    if us != [] {
      var n := |us| - 1;
      CutUsersSize(us[..n]);
      CutUserSize(us[n]);
      assert CutUsers(us)[..n] == CutUsers(us[..n]);
    }
  }

  lemma CutUserSize(u: UserState)
    ensures UserSize(CutUser(u)) <= UserSize(u)
  {}

  /** The same for messages whose user states are created by the generated convenience function, which
    * takes ids as C strings: what is read back is the message with every id cut at its first NUL, and
    * so it is the message that was given exactly when no id has a NUL. */
  lemma DirectMessageRoundTrip(d: RealTimeData, force: bool, dedup: bool, ident: Option<bytes>, sizePrefix: bool)
    requires ValidIdentifier(ident) && Friends(d) < V.DEFAULT_LIMITS.maxTables
    requires MessageSize(d) + SLACK < MAX_BUFFER_SIZE
    ensures var (st, root) := CreateMessageDirect(EMPTY.(forceDefaults := force, dedup := dedup), d);
            var m := Finish(st, root, ident, sizePrefix).msg;
            && |m| < MAX_BUFFER_SIZE
            && (if sizePrefix then V.VerifySizePrefixedBuffer(LOGIN_SCHEMA, V.DEFAULT_LIMITS, m, REAL_TIME_DATA, ident)
                else V.VerifyBuffer(LOGIN_SCHEMA, V.DEFAULT_LIMITS, m, REAL_TIME_DATA, ident))
            && InBounds(m, RootPosition(sizePrefix), 4)
            && var p := if sizePrefix then GetSizePrefixedRoot(m) else GetRoot(m);
               && SafeTable(LOGIN_SCHEMA, m, REAL_TIME_DATA, p)
               && ReadRealTimeData(m, p) == CutMessage(d)
               && (ReadRealTimeData(m, p) == d <==> NulFreeIds(d))
  {
    hide CreateMessage, CreateMessageDirect, Finish, SafeTable, ReadRealTimeData,
         UsersSize, StringsSize, CutUsers, NulFreeIds,
         V.VerifyBuffer, V.VerifySizePrefixedBuffer;
    DirectMessageCut(EMPTY.(forceDefaults := force, dedup := dedup), d);
    CutSame(d);
    if d.friendstate.Some? {
      CutUsersSize(d.friendstate.value);
    }
    SmallMessageRoundTrip(CutMessage(d), force, dedup, ident, sizePrefix);
  }

  lemma InvAligned(st: State)
    requires Inv(st) && st.msg != []
    ensures st.minAlign >= 4
  {}
}
