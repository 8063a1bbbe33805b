/** The generated code for the launcher's UserState and RealTimeData tables: creation, accessors and
  * schema, and how the objects created read. */
module LoginLauncher {
  import opened Bytes
  import opened Padding
  import opened StringOrder
  import opened Tables
  import opened Objects
  import opened Builder
  import opened TableFields
  import opened Adds
  import opened Creation
  import opened VTables
  import opened SharedStrings
  import opened Runs
  import opened Finishing
  import V = Verification
  import opened VerifierSoundness
  import opened BuiltVerifies

  const VT_STATE := 4
  const VT_ID := 6
  const VT_FRIENDSTATE := 4
  const VT_FRIENDREQUEST := 6

  const USER_STATE := 0
  const REAL_TIME_DATA := 1

  const LOGIN_SCHEMA: V.Schema := [
    [V.ScalarField(1), V.StringField],
    [V.TableVector(USER_STATE), V.StringVector]]

  // What an application puts in.

  datatype UserState = UserState(state: byte, id: Option<bytes>)

  datatype RealTimeData = RealTimeData(friendstate: Option<seq<UserState>>, friendrequest: Option<seq<bytes>>)

  // Builders

  function CreateUserState(st: State, state: byte, id: nat): (r: (State, nat))
    requires id <= |st.msg| && st.locs == []
    ensures |r.0.msg| >= |st.msg| && r.0.locs == [] && 0 < r.1 <= |r.0.msg|
  {
    BuildTable(st, [Offset(VT_ID, id), Element(VT_STATE, 1, state, 0)])
  }

  function CreateRealTimeData(st: State, friendstate: nat, friendrequest: nat): (r: (State, nat))
    requires friendstate <= |st.msg| && friendrequest <= |st.msg| && st.locs == []
    ensures |r.0.msg| >= |st.msg| && 0 < r.1 <= |r.0.msg|
  {
    BuildTable(st, [Offset(VT_FRIENDREQUEST, friendrequest), Offset(VT_FRIENDSTATE, friendstate)])
  }

  /** A vector of offsets, or the null offset when there is none to write. */
  function CreateOptionalVector(st: State, offs: Option<seq<nat>>): (r: (State, nat))
    requires offs.Some? ==> AllRefersTo(st, offs.value)
    ensures |r.0.msg| >= |st.msg| && r.1 <= |r.0.msg| && r.0.locs == st.locs
  {
    if offs.Some? then CreateVector(st, offs.value) else (st, 0)
  }

  function CreateRealTimeDataDirect(st: State, friendstate: Option<seq<nat>>,
                                    friendrequest: Option<seq<nat>>): (r: (State, nat))
    requires friendstate.Some? ==> AllRefersTo(st, friendstate.value)
    requires friendrequest.Some? ==> AllRefersTo(st, friendrequest.value)
    requires st.locs == []
    ensures |r.0.msg| >= |st.msg| && 0 < r.1 <= |r.0.msg|
  {
    var (s1, fs) := CreateOptionalVector(st, friendstate);
    var (s2, fr) := CreateOptionalVector(s1, friendrequest);
    CreateRealTimeData(s2, fs, fr)
  }

  /** The id as a string with a length, and then the user state. */
  function CreateUserStateFrom(st: State, u: UserState): (r: (State, nat))
    requires st.locs == []
    ensures |r.0.msg| >= |st.msg| && r.0.locs == [] && 0 < r.1 <= |r.0.msg|
  {
    if u.id.Some? then
      var (s1, id) := CreateString(st, u.id.value);
      CreateUserState(s1, u.state, id)
    else CreateUserState(st, u.state, 0)
  }

  /** The generated convenience function, which takes the id as a C string. */
  function CreateUserStateDirect(st: State, u: UserState): (r: (State, nat))
    requires st.locs == []
    ensures |r.0.msg| >= |st.msg| && r.0.locs == [] && 0 < r.1 <= |r.0.msg|
  {
    if u.id.Some? then
      var (s1, id) := CreateString(st, CString(u.id.value));
      CreateUserState(s1, u.state, id)
    else CreateUserState(st, u.state, 0)
  }

  lemma RefersToMore(st: State, offs: seq<nat>, r: State, off: nat)
    requires AllRefersTo(st, offs) && |st.msg| <= |r.msg| && 0 < off <= |r.msg|
    ensures AllRefersTo(r, offs + [off])
  {}

  /** An application's loop: one user state after the other. */
  function CreateUserStates(st: State, us: seq<UserState>): (r: (State, seq<nat>))
    requires st.locs == []
    ensures |r.0.msg| >= |st.msg| && r.0.locs == [] && |r.1| == |us| && AllRefersTo(r.0, r.1)
  {
    if us == [] then (st, [])
    else
      var (s1, offs) := CreateUserStates(st, us[..|us| - 1]);
      var (s2, off) := CreateUserStateFrom(s1, us[|us| - 1]);
      RefersToMore(s1, offs, s2, off);
      (s2, offs + [off])
  }

  function CreateStrings(st: State, ss: seq<bytes>): (r: (State, seq<nat>))
    requires st.locs == []
    ensures |r.0.msg| >= |st.msg| && r.0.locs == [] && |r.1| == |ss| && AllRefersTo(r.0, r.1)
  {
    if ss == [] then (st, [])
    else
      var (s1, offs) := CreateStrings(st, ss[..|ss| - 1]);
      var (s2, off) := CreateString(s1, ss[|ss| - 1]);
      (s2, offs + [off])
  }

  /** A whole message, its parts first. */
  function CreateMessage(st: State, d: RealTimeData): (r: (State, nat))
    requires st.locs == []
    ensures |r.0.msg| >= |st.msg| && 0 < r.1 <= |r.0.msg|
  {
    var (s1, us) := if d.friendstate.Some? then CreateUserStates(st, d.friendstate.value) else (st, []);
    var (s2, ss) := if d.friendrequest.Some? then CreateStrings(s1, d.friendrequest.value) else (s1, []);
    CreateRealTimeDataDirect(s2,
      if d.friendstate.Some? then Some(us) else None,
      if d.friendrequest.Some? then Some(ss) else None)
  }

  /** The same with the convenience function for user states. */
  function CreateUserStatesDirect(st: State, us: seq<UserState>): (r: (State, seq<nat>))
    requires st.locs == []
    ensures |r.0.msg| >= |st.msg| && r.0.locs == [] && |r.1| == |us| && AllRefersTo(r.0, r.1)
  {
    if us == [] then (st, [])
    else
      var (s1, offs) := CreateUserStatesDirect(st, us[..|us| - 1]);
      var (s2, off) := CreateUserStateDirect(s1, us[|us| - 1]);
      RefersToMore(s1, offs, s2, off);
      (s2, offs + [off])
  }

  function CreateMessageDirect(st: State, d: RealTimeData): (r: (State, nat))
    requires st.locs == []
    ensures |r.0.msg| >= |st.msg| && 0 < r.1 <= |r.0.msg|
  {
    var (s1, us) := if d.friendstate.Some? then CreateUserStatesDirect(st, d.friendstate.value) else (st, []);
    var (s2, ss) := if d.friendrequest.Some? then CreateStrings(s1, d.friendrequest.value) else (s1, []);
    CreateRealTimeDataDirect(s2,
      if d.friendstate.Some? then Some(us) else None,
      if d.friendrequest.Some? then Some(ss) else None)
  }

  // What the C strings keep of a message.

  function CutUser(u: UserState): UserState {
    if u.id.Some? then u.(id := Some(CString(u.id.value))) else u
  }

  function CutUsers(us: seq<UserState>): (r: seq<UserState>)
    ensures |r| == |us|
  {
    seq(|us|, i requires 0 <= i < |us| => CutUser(us[i]))
  }

  function CutMessage(d: RealTimeData): RealTimeData {
    if d.friendstate.Some? then d.(friendstate := Some(CutUsers(d.friendstate.value))) else d
  }

  predicate NulFreeId(u: UserState) {
    u.id.Some? ==> NulFree(u.id.value)
  }

  predicate NulFreeIds(d: RealTimeData) {
    d.friendstate.Some? ==> forall i | 0 <= i < |d.friendstate.value| :: NulFreeId(d.friendstate.value[i])
  }

  /** Nothing is cut exactly when no id has a NUL. */
  lemma CutSame(d: RealTimeData)
    ensures CutMessage(d) == d <==> NulFreeIds(d)
  {
    hide NulFree, CString;
    if d.friendstate.Some? {
      var us := d.friendstate.value;
      forall i | 0 <= i < |us|
        ensures CutUsers(us)[i] == us[i] <==> NulFreeId(us[i])
      {}
      if NulFreeIds(d) {
        assert CutUsers(us) == us;
      } else {
        var i :| 0 <= i < |us| && !NulFreeId(us[i]);
        assert CutUsers(us)[i] != us[i];
      }
    }
  }

  lemma {:induction false} DirectUsersCut(st: State, us: seq<UserState>)
    requires st.locs == []
    ensures CreateUserStatesDirect(st, us) == CreateUserStates(st, CutUsers(us))
  {
    hide CreateUserState, CreateString;
    if us != [] {
      var n := |us| - 1;
      DirectUsersCut(st, us[..n]);
      assert CutUsers(us)[..n] == CutUsers(us[..n]);
    }
  }

  /** Creating user states with the convenience function is creating them from the ids cut at NUL. */
  lemma DirectMessageCut(st: State, d: RealTimeData)
    requires st.locs == []
    ensures CreateMessageDirect(st, d) == CreateMessage(st, CutMessage(d))
  {
    hide CreateUserStates, CreateUserStatesDirect, CreateStrings, CreateRealTimeDataDirect, CutUsers;
    if d.friendstate.Some? {
      DirectUsersCut(st, d.friendstate.value);
    }
  }

  // Accessors

  function GetState(m: bytes, p: int): byte
    requires SafeTable(LOGIN_SCHEMA, m, USER_STATE, p)
  {
    assert SafeField(LOGIN_SCHEMA, m, LOGIN_SCHEMA[USER_STATE][0], p, 0);
    Pow256Values();
    GetField(m, p, VT_STATE, 1, 0)
  }

  function GetId(m: bytes, p: int): Option<bytes>
    requires SafeTable(LOGIN_SCHEMA, m, USER_STATE, p)
  {
    assert SafeField(LOGIN_SCHEMA, m, LOGIN_SCHEMA[USER_STATE][1], p, 1);
    match GetPointer(m, p, VT_ID)
    case None => None
    case Some(q) => Some(StringContents(m, q))
  }

  function ReadUserState(m: bytes, p: int): UserState
    requires SafeTable(LOGIN_SCHEMA, m, USER_STATE, p)
  {
    UserState(GetState(m, p), GetId(m, p))
  }

  function GetFriendState(m: bytes, p: int): Option<seq<UserState>>
    requires SafeTable(LOGIN_SCHEMA, m, REAL_TIME_DATA, p)
  {
    assert SafeField(LOGIN_SCHEMA, m, LOGIN_SCHEMA[REAL_TIME_DATA][0], p, 0);
    match GetPointer(m, p, VT_FRIENDSTATE)
    case None => None
    case Some(q) => Some(seq(VectorSize(m, q), k requires 0 <= k < VectorSize(m, q) =>
      ReadUserState(m, VectorGet(m, q, k))))
  }

  function GetFriendRequest(m: bytes, p: int): Option<seq<bytes>>
    requires SafeTable(LOGIN_SCHEMA, m, REAL_TIME_DATA, p)
  {
    assert SafeField(LOGIN_SCHEMA, m, LOGIN_SCHEMA[REAL_TIME_DATA][1], p, 1);
    match GetPointer(m, p, VT_FRIENDREQUEST)
    case None => None
    case Some(q) => Some(seq(VectorSize(m, q), k requires 0 <= k < VectorSize(m, q) =>
      StringContents(m, VectorGet(m, q, k))))
  }

  function ReadRealTimeData(m: bytes, p: int): RealTimeData
    requires SafeTable(LOGIN_SCHEMA, m, REAL_TIME_DATA, p)
  {
    RealTimeData(GetFriendState(m, p), GetFriendRequest(m, p))
  }

  // The objects that stand for the values.

  function IdField(u: UserState): Field {
    if u.id.Some? then Ref(Str(u.id.value)) else Absent
  }

  function StateField(u: UserState, force: bool): Field {
    if u.state == 0 && !force then Absent else Scalar(1, u.state)
  }

  function UserObject(u: UserState, force: bool): Object {
    TableObject([VT_ID, VT_STATE], [IdField(u), StateField(u, force)])
  }

  function UserObjects(us: seq<UserState>, force: bool): (r: seq<Object>)
    ensures |r| == |us|
  {
    seq(|us|, i requires 0 <= i < |us| => UserObject(us[i], force))
  }

  function StringObjects(ss: seq<bytes>): (r: seq<Object>)
    ensures |r| == |ss|
  {
    seq(|ss|, i requires 0 <= i < |ss| => Str(ss[i]))
  }

  function RequestField(d: RealTimeData): Field {
    if d.friendrequest.Some? then Ref(Vec(StringObjects(d.friendrequest.value))) else Absent
  }

  function FriendField(d: RealTimeData, force: bool): Field {
    if d.friendstate.Some? then Ref(Vec(UserObjects(d.friendstate.value, force))) else Absent
  }

  function MessageObject(d: RealTimeData, force: bool): Object {
    TableObject([VT_FRIENDREQUEST, VT_FRIENDSTATE], [RequestField(d), FriendField(d, force)])
  }

  // Reading a table object of two fields.

  /** In slots past the last field present there is nothing, as FieldFor says. */
  lemma FieldHolds(m: bytes, p: int, ids: seq<nat>, fields: seq<Field>, i: nat)
    requires |fields| == |ids| && Holds(m, p, TableObject(ids, fields))
    ensures HoldsField(m, p, i, FieldFor(ids, fields, FieldIndexToOffset(i)))
  {
    hide HoldsTable;
    var n := SlotCount(ids, fields);
    var x := TableObject(ids, fields);
    if i < n {
      assert HoldsField(m, p, i, x.fields[i]);
    } else {
      HoldsTableFieldReadable(m, p, n, i);
      BeyondAbsent(ids, fields, i);
    }
  }

  lemma BeyondAbsent(ids: seq<nat>, fields: seq<Field>, i: nat)
    requires |fields| == |ids| && i >= SlotCount(ids, fields)
    ensures FieldFor(ids, fields, FieldIndexToOffset(i)) == Absent
  {
    var id := FieldIndexToOffset(i);
    FieldForIs(ids, fields, id);
    if k :| 0 <= k < |ids| && ids[k] == id && FieldFor(ids, fields, id) == fields[k] {
      if fields[k] != Absent {
        MaxPresentBounds(ids, fields, k);
      }
    }
  }

  lemma TwoFields(a: nat, b: nat, x: Field, y: Field)
    requires a != b
    ensures FieldFor([a, b], [x, y], a) == x && FieldFor([a, b], [x, y], b) == y
  {
    assert [a, b][1..] == [b] && [x, y][1..] == [y];
  }

  lemma UserReads(m: bytes, p: int, u: UserState, force: bool)
    requires Holds(m, p, UserObject(u, force)) && SafeTable(LOGIN_SCHEMA, m, USER_STATE, p)
    ensures ReadUserState(m, p) == u
  {
    hide Holds, SafeTable, FieldReadable;
    var ids, fields := [VT_ID, VT_STATE], [IdField(u), StateField(u, force)];
    TwoFields(VT_ID, VT_STATE, fields[0], fields[1]);
    FieldHolds(m, p, ids, fields, 0);
    FieldHolds(m, p, ids, fields, 1);
    if u.id.Some? {
      StringHeld(m, Follow(m, Slot(m, p, 1).value), u.id.value);
    }
  }

  lemma StringHeld(m: bytes, p: int, s: bytes)
    requires Holds(m, p, Str(s))
    ensures InBounds(m, p, 4) && InBounds(m, p + 4, VectorSize(m, p)) && StringContents(m, p) == s
  {}

  /** The k-th element of a vector that is held. */
  lemma ElementHeld(m: bytes, p: int, x: Object, k: nat)
    requires Holds(m, p, x) && x.Vec? && k < |x.elems|
    ensures 0 <= p && HoldsVector(m, p, |x.elems|) && InBounds(m, p + 4 + 4 * k, 4)
    ensures Holds(m, VectorGet(m, p, k), x.elems[k])
  {
    assert HoldsRef(m, p + 4 + 4 * k, x.elems[k]);
  }

  lemma FriendsRead(m: bytes, p: int, d: RealTimeData, force: bool)
    requires HoldsField(m, p, 0, FriendField(d, force)) && SafeTable(LOGIN_SCHEMA, m, REAL_TIME_DATA, p)
    ensures GetFriendState(m, p) == d.friendstate
  {
    hide Holds, FieldReadable;
    assert SafeField(LOGIN_SCHEMA, m, LOGIN_SCHEMA[REAL_TIME_DATA][0], p, 0);
    if d.friendstate.Some? {
      var us := d.friendstate.value;
      var q := Follow(m, Slot(m, p, 0).value);
      var x := Vec(UserObjects(us, force));
      VectorHeld(m, q, x);
      forall k | 0 <= k < |us|
        ensures ReadUserState(m, VectorGet(m, q, k)) == us[k]
      {
        ElementHeld(m, q, x, k);
        UserReads(m, VectorGet(m, q, k), us[k], force);
      }
      assert GetPointer(m, p, VT_FRIENDSTATE) == Some(q);
      assert GetFriendState(m, p).value == us;
    }
  }

  lemma VectorHeld(m: bytes, p: int, x: Object)
    requires Holds(m, p, x) && x.Vec?
    ensures InBounds(m, p, 4) && VectorSize(m, p) == |x.elems|
  {}

  lemma RequestsRead(m: bytes, p: int, d: RealTimeData)
    requires HoldsField(m, p, 1, RequestField(d)) && SafeTable(LOGIN_SCHEMA, m, REAL_TIME_DATA, p)
    ensures GetFriendRequest(m, p) == d.friendrequest
  {
    hide Holds, FieldReadable;
    assert SafeField(LOGIN_SCHEMA, m, LOGIN_SCHEMA[REAL_TIME_DATA][1], p, 1);
    if d.friendrequest.Some? {
      var ss := d.friendrequest.value;
      var q := Follow(m, Slot(m, p, 1).value);
      var x := Vec(StringObjects(ss));
      VectorHeld(m, q, x);
      forall k | 0 <= k < |ss|
        ensures StringContents(m, VectorGet(m, q, k)) == ss[k]
      {
        ElementHeld(m, q, x, k);
        StringHeld(m, VectorGet(m, q, k), ss[k]);
      }
      assert GetPointer(m, p, VT_FRIENDREQUEST) == Some(q);
      assert GetFriendRequest(m, p).value == ss;
    }
  }

  /** A message object reads back as the message. */
  lemma MessageReads(m: bytes, p: int, d: RealTimeData, force: bool)
    requires Holds(m, p, MessageObject(d, force)) && SafeTable(LOGIN_SCHEMA, m, REAL_TIME_DATA, p)
    ensures ReadRealTimeData(m, p) == d
  {
    hide Holds, SafeTable, HoldsField;
    var ids, fields := [VT_FRIENDREQUEST, VT_FRIENDSTATE], [RequestField(d), FriendField(d, force)];
    TwoFields(VT_FRIENDREQUEST, VT_FRIENDSTATE, fields[0], fields[1]);
    FieldHolds(m, p, ids, fields, 0);
    FieldHolds(m, p, ids, fields, 1);
    FriendsRead(m, p, d, force);
    RequestsRead(m, p, d);
  }

  // The objects conform to the schema.

  lemma TwoFieldsConform(t: nat, ids: seq<nat>, fields: seq<Field>)
    requires t < |LOGIN_SCHEMA| && |fields| == |ids| && |LOGIN_SCHEMA[t]| == 2
    requires forall i: nat | i < 2 ::
               ConformsField(LOGIN_SCHEMA, LOGIN_SCHEMA[t][i], FieldFor(ids, fields, FieldIndexToOffset(i)))
    ensures Conforms(LOGIN_SCHEMA, t, TableObject(ids, fields))
  {
    hide ConformsField;
    var x := TableObject(ids, fields);
    forall i | 0 <= i < 2 && i < |x.fields|
      ensures V.ClosedField(LOGIN_SCHEMA[t][i], |LOGIN_SCHEMA|)
      ensures ConformsField(LOGIN_SCHEMA, LOGIN_SCHEMA[t][i], x.fields[i])
    {
      assert x.fields[i] == FieldFor(ids, fields, FieldIndexToOffset(i));
    }
  }

  lemma UserConforms(u: UserState, force: bool)
    ensures Conforms(LOGIN_SCHEMA, USER_STATE, UserObject(u, force))
  {
    hide Conforms;
    TwoFields(VT_ID, VT_STATE, IdField(u), StateField(u, force));
    TwoFieldsConform(USER_STATE, [VT_ID, VT_STATE], [IdField(u), StateField(u, force)]);
  }

  lemma MessageConforms(d: RealTimeData, force: bool)
    ensures Conforms(LOGIN_SCHEMA, REAL_TIME_DATA, MessageObject(d, force))
  {
    hide Conforms;
    var fields := [RequestField(d), FriendField(d, force)];
    TwoFields(VT_FRIENDREQUEST, VT_FRIENDSTATE, fields[0], fields[1]);
    if d.friendstate.Some? {
      forall k | 0 <= k < |d.friendstate.value|
        ensures Conforms(LOGIN_SCHEMA, USER_STATE, UserObjects(d.friendstate.value, force)[k])
      {
        UserConforms(d.friendstate.value[k], force);
      }
    }
    TwoFieldsConform(REAL_TIME_DATA, [VT_FRIENDREQUEST, VT_FRIENDSTATE], fields);
  }
}
