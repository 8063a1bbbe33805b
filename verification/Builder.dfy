/** What each FlatBufferBuilder operation does to the builder's state, as functions on values.
  * The class in FlatBufferBuilder.dfy is proved to compute these; the theorems are about them. */
module Builder {
  import opened Bytes
  import opened Padding
  import opened StringOrder
  import opened Tables

  const FILE_IDENTIFIER_LENGTH := 4

  /** Where a field of the table under construction was put, counted from the buffer's end. */
  datatype FieldLoc = FieldLoc(off: nat, id: nat)

  datatype State = State(
    msg: bytes,             // what has been written so far; the front grows
    vtables: seq<nat>,      // offsets, from the end, of the vtables in use
    locs: seq<FieldLoc>,    // fields of the table under construction
    maxVoffset: nat,
    nested: bool,
    finished: bool,
    minAlign: Alignment,
    forceDefaults: bool,
    dedup: bool,
    pool: seq<nat>)         // offsets of the shared strings

  const EMPTY := State([], [], [], 0, false, false, 1, false, true, [])

  function Fill(st: State, n: nat): State {
    st.(msg := Zeros(n) + st.msg)
  }

  function TrackMinAlign(st: State, size: Alignment): State {
    if size > st.minAlign then st.(minAlign := size) else st
  }

  function Align(st: State, size: Alignment): State {
    Fill(TrackMinAlign(st, size), PaddingBytes(|st.msg|, size))
  }

  function PreAlign(st: State, len: nat, alignment: Alignment): (r: State)
    ensures |r.msg| >= |st.msg|
  {
    Fill(TrackMinAlign(st, alignment), PaddingBytes(|st.msg| + len, alignment))
  }

  function PushBytes(st: State, s: bytes): State {
    st.(msg := s + st.msg)
  }

  function PushElement(st: State, w: Alignment, v: nat): (r: State)
    ensures |r.msg| >= |st.msg| + w
  {
    PushBytes(Align(st, w), Encode(v, w))
  }

  /** The distance from the next 4-byte slot to the object at off. */
  function Distance(st: State, off: nat): nat
    requires off <= |st.msg|
  {
    |st.msg| - off + 4
  }

  /** PushElement(Offset): align, turn the from-end offset into a distance, push it. */
  function PushOffset(st: State, off: nat): (r: State)
    requires 0 < off <= |st.msg|
    ensures |r.msg| >= |st.msg| + 4 && r == st.(msg := r.msg, minAlign := r.minAlign)
  {
    var a := Align(st, 4);
    PushElement(a, 4, Distance(a, off))
  }

  /** Every recorded field lies in the message and has an identifier up to the largest. */
  predicate FieldsRecorded(st: State) {
    forall k | 0 <= k < |st.locs| :: st.locs[k].id <= st.maxVoffset && st.locs[k].off <= |st.msg|
  }

  function TrackField(st: State, id: nat, off: nat): State {
    st.(locs := st.locs + [FieldLoc(off, id)], maxVoffset := Max(st.maxVoffset, id))
  }

  function AddElement(st: State, id: nat, w: Alignment, v: nat, def: nat): (r: State)
    ensures |r.msg| >= |st.msg|
  {
    if v == def && !st.forceDefaults then st
    else
      var p := PushElement(st, w, v);
      TrackField(p, id, |p.msg|)
  }

  function AddOffset(st: State, id: nat, off: nat): (r: State)
    requires off <= |st.msg|
    ensures |r.msg| >= |st.msg|
  {
    if off == 0 then st
    else
      var a := Align(st, 4);
      AddElement(a, id, 4, Distance(a, off), 0)
  }

  /** One call between StartTable and EndTable: a scalar field with its default, or an offset field. */
  datatype Add = Element(id: nat, w: Alignment, v: nat, def: nat) | Offset(id: nat, off: nat)

  /** The source's assertion: an offset refers to something already in the buffer. */
  predicate Refers(st: State, add: Add) {
    add.Offset? ==> add.off <= |st.msg|
  }

  function ApplyAdd(st: State, add: Add): (r: State)
    requires Refers(st, add)
    ensures |r.msg| >= |st.msg|
  {
    match add
    case Element(id, w, v, def) => AddElement(st, id, w, v, def)
    case Offset(id, off) => AddOffset(st, id, off)
  }

  predicate AllRefer(st: State, adds: seq<Add>) {
    forall k | 0 <= k < |adds| :: Refers(st, adds[k])
  }

  function ApplyAdds(st: State, adds: seq<Add>): (r: State)
    requires AllRefer(st, adds)
    ensures |r.msg| >= |st.msg|
    decreases |adds|
  {
    if adds == [] then st
    else
      var r := ApplyAdd(st, adds[0]);
      assert AllRefer(r, adds[1..]) by {
        assert forall k | 0 <= k < |adds[1..]| :: adds[1..][k] == adds[k + 1] && Refers(st, adds[k + 1]);
      }
      ApplyAdds(r, adds[1..])
  }

  lemma {:induction false} ApplyAddsRecorded(st: State, adds: seq<Add>)
    requires AllRefer(st, adds) && FieldsRecorded(st)
    ensures FieldsRecorded(ApplyAdds(st, adds))
    decreases |adds|
  {
    if adds != [] {
      ApplyAddRecorded(st, adds[0]);
      var r := ApplyAdd(st, adds[0]);
      assert forall k | 0 <= k < |adds[1..]| :: adds[1..][k] == adds[k + 1] && Refers(st, adds[k + 1]);
      ApplyAddsRecorded(r, adds[1..]);
    }
  }

  lemma ApplyAddRecorded(st: State, add: Add)
    requires Refers(st, add) && FieldsRecorded(st)
    ensures FieldsRecorded(ApplyAdd(st, add))
  {
    if add.Offset? && add.off != 0 {
      AddElementRecorded(Align(st, 4), add.id, 4, Distance(Align(st, 4), add.off), 0);
    } else if add.Element? {
      AddElementRecorded(st, add.id, add.w, add.v, add.def);
    }
  }

  lemma AddElementRecorded(st: State, id: nat, w: Alignment, v: nat, def: nat)
    requires FieldsRecorded(st)
    ensures FieldsRecorded(AddElement(st, id, w, v, def))
  {}

  function StartTable(st: State): State {
    st.(nested := true)
  }

  /** Overwrites the two bytes at id. */
  function WriteEntry(vt: bytes, id: nat, v: nat): (r: bytes)
    requires id + 2 <= |vt|
    ensures |r| == |vt|
  {
    vt[..id] + Encode(v, 2) + vt[id + 2..]
  }

  /** Vtable size, table size, and no field yet. */
  function VTableHeader(size: nat, tableSize: nat): (vt: bytes)
    requires size >= 4
    ensures |vt| == size
  {
    Encode(size, 2) + Encode(tableSize, 2) + Zeros(size - 4)
  }

  /** The recorded fields lie behind loc and have an entry in a vtable of the given size. */
  predicate LocsFit(locs: seq<FieldLoc>, size: nat, loc: nat) {
    forall k | 0 <= k < |locs| :: locs[k].id + 2 <= size && locs[k].off <= loc
  }

  function FillVTable(vt: bytes, locs: seq<FieldLoc>, loc: nat): (r: bytes)
    requires LocsFit(locs, |vt|, loc)
    ensures |r| == |vt|
    decreases |locs|
  {
    if locs == [] then vt
    else FillVTable(WriteEntry(vt, locs[0].id, loc - locs[0].off), locs[1..], loc)
  }

  /** The bytes at from-end offset v are those of vt. */
  predicate SameVTable(m: bytes, v: nat, vt: bytes) {
    && v <= |m|
    && InBounds(m, |m| - v, 2) && ReadScalar(m, |m| - v, 2) == |vt|
    && InBounds(m, |m| - v, |vt|) && m[|m| - v..|m| - v + |vt|] == vt
  }

  /** The first recorded vtable with the same bytes. */
  function FindVTable(m: bytes, vtables: seq<nat>, vt: bytes): (r: Option<nat>)
    ensures r.Some? ==> r.value in vtables && SameVTable(m, r.value, vt)
    ensures r.None? ==> forall v | v in vtables :: !SameVTable(m, v, vt)
  {
    if vtables == [] then None
    else if SameVTable(m, vtables[0], vt) then Some(vtables[0])
    else FindVTable(m, vtables[1..], vt)
  }

  function VTableSize(st: State): nat {
    Max(st.maxVoffset + 2, FieldIndexToOffset(0))
  }

  function MakeVTable(st: State, start: nat, loc: nat): (vt: bytes)
    requires start <= loc && LocsFit(st.locs, VTableSize(st), loc)
    ensures |vt| == VTableSize(st)
  {
    FillVTable(VTableHeader(VTableSize(st), loc - start), st.locs, loc)
  }

  /** The table's fields are where EndTable expects them. */
  predicate CanEndTable(st: State, start: nat) {
    start <= |st.msg| && FieldsRecorded(st)
  }

  /** An earlier vtable to share, when sharing is on and one has the same bytes. */
  function Duplicate(p: State, vt: bytes): Option<nat> {
    if p.dedup then FindVTable(vt + p.msg, p.vtables, vt) else None
  }

  /** The message with its first word, that of a table, leading to the vtable at offset use. */
  function Patch(m: bytes, use: nat): (r: bytes)
    requires 4 <= |m|
    ensures |r| == |m|
  {
    Encode(FromSigned32(use - |m|), 4) + m[4..]
  }

  /** Writes the vtable of the table whose first word has just been pushed, or shares an earlier
    * one, and makes that first word lead to it. */
  function SealTable(p: State, start: nat): (r: State)
    requires 4 <= |p.msg| && start <= |p.msg| && LocsFit(p.locs, VTableSize(p), |p.msg|)
    ensures |p.msg| <= |r.msg| <= |p.msg| + VTableSize(p)
  {
    var loc := |p.msg|;
    var vt := MakeVTable(p, start, loc);
    var dup := Duplicate(p, vt);
    var front := if dup.Some? then [] else vt;
    var use := if dup.Some? then dup.value else |vt| + loc;
    var vtables := if use == |front| + loc then p.vtables + [use] else p.vtables;
    p.(msg := front + Patch(p.msg, use), vtables := vtables, locs := [], maxVoffset := 0, nested := false)
  }

  /** Returns the new state and the table's offset. */
  function EndTable(st: State, start: nat): (State, nat)
    requires CanEndTable(st, start)
  {
    var p := PushElement(st, 4, 0);
    (SealTable(p, start), |p.msg|)
  }

  /** A whole table: start, the additions in their order, end. */
  function BuildTable(st: State, adds: seq<Add>): (r: (State, nat))
    requires AllRefer(st, adds) && FieldsRecorded(st)
    ensures |r.0.msg| >= |st.msg| && r.0.locs == [] && 0 < r.1 <= |r.0.msg|
  {
    ApplyAddsRecorded(StartTable(st), adds);
    EndTable(ApplyAdds(StartTable(st), adds), |st.msg|)
  }

  /** Returns the new state and the string's offset. */
  function CreateString(st: State, s: bytes): (r: (State, nat))
    ensures |r.0.msg| >= |st.msg| + |s| && r.0.locs == st.locs && 0 < r.1 <= |r.0.msg|
  {
    var a := Fill(PreAlign(st, |s| + 1, 4), 1);
    var r := PushElement(PushBytes(a, s), 4, |s|);
    (r, |r.msg|)
  }

  /** The pooled string that the pool's order takes for equal to this one. */
  function FindString(m: bytes, pool: seq<nat>, s: bytes): Option<nat>
  {
    if pool == [] then None
    else if HasContents(m, pool[0], s) then Some(pool[0])
    else FindString(m, pool[1..], s)
  }

  predicate HasContents(m: bytes, off: nat, s: bytes) {
    && 4 <= off <= |m|
    && InBounds(m, |m| - off + 4, VectorSize(m, |m| - off))
    && Equivalent(StringContents(m, |m| - off), s)
  }

  /** A hit gives the bytes back; only the alignment requirement remains. */
  function CreateSharedString(st: State, s: bytes): (State, nat) {
    var (c, off) := CreateString(st, s);
    var hit := FindString(c.msg, c.pool, s);
    if hit.Some? then (c.(msg := st.msg), hit.value) else (c.(pool := c.pool + [off]), off)
  }

  predicate AllRefersTo(st: State, offs: seq<nat>) {
    forall i | 0 <= i < |offs| :: 0 < offs[i] <= |st.msg|
  }

  /** Pushes the offsets last to first, so that they read first to last. */
  function PushOffsets(st: State, offs: seq<nat>): (r: State)
    requires AllRefersTo(st, offs)
    ensures |r.msg| >= |st.msg| && r == st.(msg := r.msg, minAlign := r.minAlign)
  {
    if offs == [] then st else PushOffset(PushOffsets(st, offs[1..]), offs[0])
  }

  function StartVector(st: State, len: nat, elemSize: Alignment): (r: State)
    ensures |r.msg| >= |st.msg| && r == st.(msg := r.msg, minAlign := r.minAlign, nested := true)
  {
    PreAlign(PreAlign(st.(nested := true), len * elemSize, 4), len * elemSize, elemSize)
  }

  function EndVector(st: State, len: nat): State {
    PushElement(st.(nested := false), 4, len)
  }

  /** CreateVector of offsets. */
  function CreateVector(st: State, offs: seq<nat>): (r: (State, nat))
    requires AllRefersTo(st, offs)
    ensures |r.0.msg| >= |st.msg| && r.0.locs == st.locs && 0 < r.1 <= |r.0.msg|
  {
    var r := EndVector(PushOffsets(StartVector(st, |offs|, 4), offs), |offs|);
    (r, |r.msg|)
  }

  function HeaderSize(ident: Option<bytes>, sizePrefix: bool): nat {
    (if sizePrefix then 4 else 0) + 4 + (if ident.Some? then FILE_IDENTIFIER_LENGTH else 0)
  }

  /** Padding and identifier: all but the offset of the root and the size. The scratch pad is cleared. */
  function StartFinish(st: State, ident: Option<bytes>, sizePrefix: bool): (r: State)
    ensures |r.msg| >= |st.msg|
  {
    var a := PreAlign(st.(vtables := []), HeaderSize(ident, sizePrefix), st.minAlign);
    if ident.Some? then PushBytes(a, ident.value) else a
  }

  function Finish(st: State, root: nat, ident: Option<bytes>, sizePrefix: bool): State
    requires 0 < root <= |st.msg|
  {
    var c := PushOffset(StartFinish(st, ident, sizePrefix), root);
    var d := if sizePrefix then PushElement(c, 4, |c.msg|) else c;
    d.(finished := true)
  }
}
