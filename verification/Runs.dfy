/** Whole runs of the builder: any sequence of creations, in any order and with any sharing of
  * objects, leaves every object created so far readable as what it was created from. */
module Runs {
  import opened Bytes
  import opened Padding
  import opened Tables
  import opened Objects
  import opened Builder
  import opened TableFields
  import opened Adds
  import opened Creation
  import opened VTables
  import opened SharedStrings

  /** What the builder keeps between creations. */
  ghost predicate Inv(st: State) {
    && st.locs == [] && st.maxVoffset == 0 && !st.nested
    && VTablesOk(st)
    && PoolOk(st.msg, st.pool)
    && (st.msg != [] ==> st.minAlign >= 4)
  }

  lemma InvInitially(force: bool, dedup: bool)
    ensures Inv(EMPTY.(forceDefaults := force, dedup := dedup))
  {}

  /** One field of a table to be built; objects are named by the order of their creation. */
  datatype FieldCommand =
    | SetScalar(id: nat, w: Alignment, v: nat, def: nat)
    | SetRef(id: nat, ref: Option<nat>)

  datatype Command =
    | MakeString(s: bytes)
    | MakeSharedString(s: bytes)
    | MakeVector(refs: seq<nat>)
    | MakeTable(fields: seq<FieldCommand>)

  predicate KnownRef(f: FieldCommand, n: nat) {
    f.SetRef? && f.ref.Some? ==> f.ref.value < n
  }

  /** All objects the command refers to have been created. */
  predicate KnownRefs(c: Command, n: nat) {
    match c
    case MakeVector(refs) => forall i | 0 <= i < |refs| :: refs[i] < n
    case MakeTable(fields) => forall i | 0 <= i < |fields| :: KnownRef(fields[i], n)
    case _ => true
  }

  function OffsetsOf(offs: seq<nat>, refs: seq<nat>): (r: seq<nat>)
    requires forall i | 0 <= i < |refs| :: refs[i] < |offs|
    ensures |r| == |refs|
  {
    seq(|refs|, i requires 0 <= i < |refs| => offs[refs[i]])
  }

  function AddOf(offs: seq<nat>, f: FieldCommand): Add
    requires KnownRef(f, |offs|)
  {
    match f
    case SetScalar(id, w, v, def) => Element(id, w, v, def)
    case SetRef(id, ref) => Offset(id, if ref.Some? then offs[ref.value] else 0)
  }

  function AddsOf(offs: seq<nat>, fields: seq<FieldCommand>): (r: seq<Add>)
    requires forall i | 0 <= i < |fields| :: KnownRef(fields[i], |offs|)
    ensures |r| == |fields|
  {
    seq(|fields|, i requires 0 <= i < |fields| => AddOf(offs, fields[i]))
  }

  /** The assertions of the source for this command, and the limit on the buffer's size. */
  ghost predicate Legal(st: State, offs: seq<nat>, c: Command) {
    && KnownRefs(c, |offs|)
    && match c
       case MakeString(s) => |CreateString(st, s).0.msg| <= MAX_BUFFER_SIZE
       case MakeSharedString(s) => |CreateString(st, s).0.msg| <= MAX_BUFFER_SIZE
       case MakeVector(refs) =>
         && AllRefersTo(st, OffsetsOf(offs, refs))
         && |CreateVector(st, OffsetsOf(offs, refs)).0.msg| <= MAX_BUFFER_SIZE
       case MakeTable(fields) => ValidTable(st, AddsOf(offs, fields))
  }

  /** Runs one command; the new object's offset is appended. */
  ghost function Exec(st: State, offs: seq<nat>, c: Command): (State, seq<nat>)
    requires Legal(st, offs, c)
  {
    var (r, off) :=
      match c
      case MakeString(s) => CreateString(st, s)
      case MakeSharedString(s) => CreateSharedString(st, s)
      case MakeVector(refs) => CreateVector(st, OffsetsOf(offs, refs))
      case MakeTable(fields) => BuildTable(st, AddsOf(offs, fields));
    (r, offs + [off])
  }

  ghost predicate LegalRun(st: State, offs: seq<nat>, cs: seq<Command>)
    decreases |cs|
  {
    cs == [] || (Legal(st, offs, cs[0]) && var (r, offs') := Exec(st, offs, cs[0]); LegalRun(r, offs', cs[1..]))
  }

  ghost function Run(st: State, offs: seq<nat>, cs: seq<Command>): (State, seq<nat>)
    requires LegalRun(st, offs, cs)
    decreases |cs|
  {
    if cs == [] then (st, offs)
    else
      var (r, offs') := Exec(st, offs, cs[0]);
      Run(r, offs', cs[1..])
  }

  // The same commands on values.

  function FieldOf(objs: seq<Object>, force: bool, f: FieldCommand): Field
    requires KnownRef(f, |objs|)
  {
    match f
    case SetScalar(_, w, v, def) => if v == def && !force then Absent else Scalar(w, v)
    case SetRef(_, ref) => if ref.Some? then Ref(objs[ref.value]) else Absent
  }

  /** The object a command creates. It does not depend on whether vtables are shared. */
  function Meaning(objs: seq<Object>, force: bool, c: Command): Object
    requires KnownRefs(c, |objs|)
  {
    match c
    case MakeString(s) => Str(s)
    case MakeSharedString(s) => Str(s)
    case MakeVector(refs) => Vec(seq(|refs|, i requires 0 <= i < |refs| => objs[refs[i]]))
    case MakeTable(fields) =>
      TableObject(seq(|fields|, i requires 0 <= i < |fields| => fields[i].id),
                  seq(|fields|, i requires 0 <= i < |fields| => FieldOf(objs, force, fields[i])))
  }

  ghost function Meanings(objs: seq<Object>, force: bool, cs: seq<Command>): seq<Object>
    decreases |cs|
  {
    if cs == [] then objs
    else if !KnownRefs(cs[0], |objs|) then objs
    else Meanings(objs + [Meaning(objs, force, cs[0])], force, cs[1..])
  }

  /** Every object created so far is found at its offset and reads as what it was created from. */
  ghost predicate AllHold(m: bytes, offs: seq<nat>, objs: seq<Object>) {
    && |offs| == |objs|
    && forall i | 0 <= i < |offs| :: HoldsAt(m, offs[i], objs[i])
  }

  /** The builder has tracked the width of every scalar of every object created. */
  ghost predicate AllWithin(objs: seq<Object>, a: nat) {
    forall i | 0 <= i < |objs| :: WidthsWithin(objs[i], a)
  }

  lemma AllWithinGrow(objs: seq<Object>, a: nat, x: Object, b: nat)
    requires AllWithin(objs, a) && a <= b && WidthsWithin(x, b)
    ensures AllWithin(objs + [x], b)
  {
    hide WidthsWithin;
    forall i | 0 <= i < |objs|
      ensures WidthsWithin(objs[i], b)
    {
      WithinMore(objs[i], a, b);
    }
  }

  /** The widths of a table built from these fields have been tracked. */
  lemma TableTracked(objs: seq<Object>, offs: seq<nat>, force: bool, fields: seq<FieldCommand>, st: State, a: nat)
    requires |offs| == |objs| && KnownRefs(MakeTable(fields), |objs|) && AllWithin(objs, a) && a <= st.minAlign
    requires WidthsKnown(st, AddsOf(offs, fields), force)
    ensures WidthsWithin(Meaning(objs, force, MakeTable(fields)), st.minAlign)
  {
    hide WidthsWithin, TableObject;
    var ids := seq(|fields|, i requires 0 <= i < |fields| => fields[i].id);
    var fs := seq(|fields|, i requires 0 <= i < |fields| => FieldOf(objs, force, fields[i]));
    forall k | 0 <= k < |fs|
      ensures FieldWithin(fs[k], st.minAlign)
    {
      assert AddsOf(offs, fields)[k] == AddOf(offs, fields[k]);
      if fs[k].Ref? {
        WithinMore(fs[k].obj, a, st.minAlign);
      }
    }
    TableWithin(ids, fs, st.minAlign);
  }

  lemma VectorTracked(objs: seq<Object>, force: bool, refs: seq<nat>, a: nat, b: nat)
    requires KnownRefs(MakeVector(refs), |objs|) && AllWithin(objs, a) && a <= b
    ensures WidthsWithin(Meaning(objs, force, MakeVector(refs)), b)
  {
    forall i | 0 <= i < |refs|
      ensures WidthsWithin(objs[refs[i]], b)
    {
      WithinMore(objs[refs[i]], a, b);
    }
  }

  lemma StringTracked(s: bytes, a: nat)
    ensures WidthsWithin(Str(s), a)
  {}

  lemma AllHoldGrow(m: bytes, offs: seq<nat>, objs: seq<Object>, r: bytes, off: nat, x: Object)
    requires AllHold(m, offs, objs) && Suffix(m, r) && HoldsAt(r, off, x)
    ensures AllHold(r, offs + [off], objs + [x])
  {
    hide HoldsAt, Suffix;
    forall i | 0 <= i < |offs|
      ensures HoldsAt(r, offs[i], objs[i])
    {
      HoldsAtKept(m, r, offs[i], objs[i]);
    }
  }

  lemma FieldsOfMean(m: bytes, offs: seq<nat>, objs: seq<Object>, force: bool, fields: seq<FieldCommand>, k: nat)
    requires AllHold(m, offs, objs) && k < |fields| && KnownRef(fields[k], |offs|)
    ensures FieldMeans(m, AddOf(offs, fields[k]), force, FieldOf(objs, force, fields[k]))
  {
    hide Holds;
    if fields[k].SetRef? && fields[k].ref.Some? {
      assert HoldsAt(m, offs[fields[k].ref.value], objs[fields[k].ref.value]);
    }
  }

  lemma ExecTable(st: State, offs: seq<nat>, objs: seq<Object>, fields: seq<FieldCommand>, r: State, off: nat)
    requires Inv(st) && AllHold(st.msg, offs, objs) && Legal(st, offs, MakeTable(fields))
    requires (r, off) == BuildTable(st, AddsOf(offs, fields))
    ensures Inv(r) && Suffix(st.msg, r.msg) && r.forceDefaults == st.forceDefaults
    ensures HoldsAt(r.msg, off, Meaning(objs, st.forceDefaults, MakeTable(fields)))
    ensures st.minAlign <= r.minAlign && WidthsKnown(r, AddsOf(offs, fields), st.forceDefaults)
  {
    hide BuildTable, HoldsAt, VTablesOk, PoolOk, ValidTable, Suffix, FieldMeans, AddOf, FieldOf;
    var adds := AddsOf(offs, fields);
    var fs := seq(|fields|, i requires 0 <= i < |fields| => FieldOf(objs, st.forceDefaults, fields[i]));
    forall k | 0 <= k < |adds|
      ensures FieldMeans(st.msg, adds[k], st.forceDefaults, fs[k])
    {
      FieldsOfMean(st.msg, offs, objs, st.forceDefaults, fields, k);
    }
    BuildTableHolds(st, adds, fs, r, off);
    BuildTableFrame(st, adds, r, off);
    BuildTableKeepsVTables(st, adds, r, off);
    PoolKept(st.msg, r.msg, st.pool);
    IdsOfAdds(offs, fields);
  }

  lemma IdsOfAdds(offs: seq<nat>, fields: seq<FieldCommand>)
    requires KnownRefs(MakeTable(fields), |offs|)
    ensures Ids(AddsOf(offs, fields)) == seq(|fields|, i requires 0 <= i < |fields| => fields[i].id)
  {}

  lemma ExecString(st: State, s: bytes, r: State, off: nat)
    requires Inv(st) && (r, off) == CreateString(st, s) && |r.msg| < TWO31
    ensures Inv(r) && Suffix(st.msg, r.msg) && r.forceDefaults == st.forceDefaults
    ensures HoldsAt(r.msg, off, Str(s)) && st.minAlign <= r.minAlign
  {
    hide CreateString, Holds, VTablesOk, PoolOk, Suffix;
    CreateStringHolds(st, s, r, off);
    VTablesOkKept(st, r);
    PoolKept(st.msg, r.msg, st.pool);
  }

  lemma ExecSharedString(st: State, s: bytes, r: State, off: nat)
    requires Inv(st) && (r, off) == CreateSharedString(st, s) && |CreateString(st, s).0.msg| < TWO31
    ensures Inv(r) && Suffix(st.msg, r.msg) && r.forceDefaults == st.forceDefaults
    ensures HoldsAt(r.msg, off, Str(s)) && st.minAlign <= r.minAlign
  {
    hide CreateSharedString, CreateString, Holds, VTablesOk, PoolOk, Suffix;
    CreateSharedStringHolds(st, s, r, off);
    VTablesOkKept(st, r);
  }

  lemma ExecVector(st: State, offs: seq<nat>, objs: seq<Object>, refs: seq<nat>, r: State, off: nat)
    requires Inv(st) && AllHold(st.msg, offs, objs) && Legal(st, offs, MakeVector(refs))
    requires (r, off) == CreateVector(st, OffsetsOf(offs, refs))
    ensures Inv(r) && Suffix(st.msg, r.msg) && r.forceDefaults == st.forceDefaults
    ensures HoldsAt(r.msg, off, Meaning(objs, st.forceDefaults, MakeVector(refs))) && st.minAlign <= r.minAlign
  {
    hide CreateVector, HoldsAt, VTablesOk, PoolOk, Suffix;
    CreateVectorHolds(st, OffsetsOf(offs, refs), Meaning(objs, st.forceDefaults, MakeVector(refs)).elems, r, off);
    VTablesOkKept(st, r);
    PoolKept(st.msg, r.msg, st.pool);
  }

  lemma ExecHolds(st: State, offs: seq<nat>, objs: seq<Object>, c: Command, r: State, offs': seq<nat>)
    requires Inv(st) && AllHold(st.msg, offs, objs) && AllWithin(objs, st.minAlign)
    requires Legal(st, offs, c) && (r, offs') == Exec(st, offs, c)
    ensures Inv(r) && r.forceDefaults == st.forceDefaults && Suffix(st.msg, r.msg)
    ensures AllHold(r.msg, offs', objs + [Meaning(objs, st.forceDefaults, c)])
    ensures AllWithin(objs + [Meaning(objs, st.forceDefaults, c)], r.minAlign)
  {
    hide Inv, AllHold, AllWithin, WidthsWithin, Suffix, CreateString, CreateSharedString, CreateVector, BuildTable,
         Meaning, HoldsAt, ValidTable;
    assert |objs| == |offs| by {
      AllHoldLength(st.msg, offs, objs);
    }
    var x := Meaning(objs, st.forceDefaults, c);
    var off := offs'[|offs|];
    match c {
      case MakeString(s) =>
        ExecString(st, s, r, off);
        assert x == Str(s) by {
          StringMeaning(objs, st.forceDefaults, s);
        }
        StringTracked(s, r.minAlign);
      case MakeSharedString(s) =>
        ExecSharedString(st, s, r, off);
        assert x == Str(s) by {
          StringMeaning(objs, st.forceDefaults, s);
        }
        StringTracked(s, r.minAlign);
      case MakeVector(refs) =>
        ExecVector(st, offs, objs, refs, r, off);
        VectorTracked(objs, st.forceDefaults, refs, st.minAlign, r.minAlign);
      case MakeTable(fields) =>
        ExecTable(st, offs, objs, fields, r, off);
        TableTracked(objs, offs, st.forceDefaults, fields, r, st.minAlign);
    }
    AllWithinGrow(objs, st.minAlign, x, r.minAlign);
    AllHoldGrow(st.msg, offs, objs, r.msg, off, x);
  }

  lemma AllHoldLength(m: bytes, offs: seq<nat>, objs: seq<Object>)
    requires AllHold(m, offs, objs)
    ensures |objs| == |offs|
  {}

  lemma StringMeaning(objs: seq<Object>, force: bool, s: bytes)
    ensures Meaning(objs, force, MakeString(s)) == Str(s)
    ensures Meaning(objs, force, MakeSharedString(s)) == Str(s)
  {}

  /** The theorem about runs: whatever is created, in whatever order and however objects, strings
    * and vtables are shared, every object created on the way can be read at the end as what it
    * was created from, and what that is does not depend on the sharing. */
  lemma {:induction false} RunHolds(st: State, offs: seq<nat>, objs: seq<Object>, cs: seq<Command>, r: State,
                                    offs': seq<nat>)
    requires Inv(st) && AllHold(st.msg, offs, objs) && AllWithin(objs, st.minAlign) && LegalRun(st, offs, cs)
    requires (r, offs') == Run(st, offs, cs)
    ensures Inv(r) && Suffix(st.msg, r.msg)
    ensures AllHold(r.msg, offs', Meanings(objs, st.forceDefaults, cs))
    ensures AllWithin(Meanings(objs, st.forceDefaults, cs), r.minAlign)
    decreases |cs|
  {
    hide Inv, AllHold, AllWithin, Suffix, Exec, Legal, Meaning;
    if cs == [] {
      SuffixSelf(st.msg);
    } else {
      var (s1, offs1) := Exec(st, offs, cs[0]);
      assert KnownRefs(cs[0], |objs|) by {
        AllHoldLength(st.msg, offs, objs);
        LegalKnown(st, offs, cs[0]);
      }
      var objs1 := objs + [Meaning(objs, st.forceDefaults, cs[0])];
      ExecHolds(st, offs, objs, cs[0], s1, offs1);
      RunHolds(s1, offs1, objs1, cs[1..], r, offs');
      SuffixTransitive(st.msg, s1.msg, r.msg);
    }
  }

  lemma LegalKnown(st: State, offs: seq<nat>, c: Command)
    requires Legal(st, offs, c)
    ensures KnownRefs(c, |offs|)
  {}
}
