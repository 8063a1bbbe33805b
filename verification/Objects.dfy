/** What it means that a buffer holds an object: the object, seen through the accessors of
  * Tables, is there, inside the buffer, aligned when counted from the buffer's end. */
module Objects {
  import opened Bytes
  import opened Padding
  import opened Tables

  /** The value a position of a message stands for. The i-th entry of fields is what vtable
    * slot i leads to; a vtable has exactly as many slots as fields has entries. */
  datatype Object =
    | Str(s: bytes)
    | Vec(elems: seq<Object>)
    | Tab(fields: seq<Field>)

  datatype Field = Absent | Scalar(width: Alignment, value: nat) | Ref(obj: Object)

  /** Alignment counted from the end, which later growth at the front does not change. */
  predicate EndAligned(m: bytes, p: int, a: Alignment) {
    0 <= p <= |m| && Aligned(|m| - p, a)
  }

  predicate HoldsString(m: bytes, p: int, s: bytes) {
    && EndAligned(m, p, 4)
    && InBounds(m, p, 5 + |s|)
    && VectorSize(m, p) == |s|
    && StringContents(m, p) == s
    && m[p + 4 + |s|] == 0
  }

  predicate HoldsVector(m: bytes, p: int, n: nat) {
    && EndAligned(m, p, 4)
    && InBounds(m, p, 4 + 4 * n)
    && VectorSize(m, p) == n
  }

  /** A table whose vtable has n field slots. */
  predicate HoldsTable(m: bytes, p: int, n: nat) {
    && EndAligned(m, p, 4)
    && InBounds(m, p, 4)
    && var vt := GetVTable(m, p);
    && EndAligned(m, vt, 2)
    && InBounds(m, vt, FieldIndexToOffset(n))
    && ReadScalar(m, vt, 2) == FieldIndexToOffset(n)
  }

  lemma HoldsTableFieldReadable(m: bytes, p: int, n: nat, i: nat)
    requires HoldsTable(m, p, n)
    ensures FieldReadable(m, p, FieldIndexToOffset(i))
    ensures i >= n ==> GetOptionalFieldOffset(m, p, FieldIndexToOffset(i)) == 0
  {}

  /** The position at which slot i of the table at p keeps its value, if it keeps one. */
  function Slot(m: bytes, p: int, i: nat): Option<int>
    requires FieldReadable(m, p, FieldIndexToOffset(i))
  {
    var o := GetOptionalFieldOffset(m, p, FieldIndexToOffset(i));
    if o == 0 then None else Some(p + o)
  }

  predicate HoldsScalar(m: bytes, q: int, w: Alignment, v: nat) {
    EndAligned(m, q, w) && InBounds(m, q, w) && ReadScalar(m, q, w) == v
  }

  predicate HoldsOffset(m: bytes, q: int) {
    EndAligned(m, q, 4) && InBounds(m, q, 4) && 0 < ReadScalar(m, q, 4) < TWO31
  }

  ghost predicate Holds(m: bytes, p: int, x: Object)
    decreases x, 0
  {
    match x
    case Str(s) => HoldsString(m, p, s)
    case Vec(elems) =>
      && HoldsVector(m, p, |elems|)
      && forall i | 0 <= i < |elems| :: HoldsRef(m, p + 4 + 4 * i, elems[i])
    case Tab(fields) =>
      && HoldsTable(m, p, |fields|)
      && forall i | 0 <= i < |fields| :: HoldsField(m, p, i, fields[i])
  }

  /** A relative offset is stored at q and leads to x. */
  ghost predicate HoldsRef(m: bytes, q: int, x: Object)
    decreases x, 1
  {
    HoldsOffset(m, q) && Holds(m, Follow(m, q), x)
  }

  ghost predicate HoldsField(m: bytes, p: int, i: nat, f: Field)
    decreases f
  {
    && FieldReadable(m, p, FieldIndexToOffset(i))
    && match f
       case Absent => Slot(m, p, i).None?
       case Scalar(w, v) => Slot(m, p, i).Some? && HoldsScalar(m, Slot(m, p, i).value, w, v)
       case Ref(obj) => Slot(m, p, i).Some? && HoldsRef(m, Slot(m, p, i).value, obj)
  }

  /** All scalars of the object, and of the objects it refers to, are at most a bytes wide. */
  ghost predicate WidthsWithin(x: Object, a: nat)
    decreases x
  {
    match x
    case Str(_) => true
    case Vec(elems) => forall i | 0 <= i < |elems| :: WidthsWithin(elems[i], a)
    case Tab(fields) => forall i | 0 <= i < |fields| :: FieldWithin(fields[i], a)
  }

  ghost predicate FieldWithin(f: Field, a: nat)
    decreases f
  {
    match f
    case Absent => true
    case Scalar(w, _) => w <= a
    case Ref(obj) => WidthsWithin(obj, a)
  }

  lemma {:induction false} WithinMore(x: Object, a: nat, b: nat)
    requires WidthsWithin(x, a) && a <= b
    ensures WidthsWithin(x, b)
    decreases x
  {
    match x
    case Str(_) =>
    case Vec(elems) =>
      forall i | 0 <= i < |elems|
        ensures WidthsWithin(elems[i], b)
      {
        WithinMore(elems[i], a, b);
      }
    case Tab(fields) =>
      forall i | 0 <= i < |fields|
        ensures FieldWithin(fields[i], b)
      {
        FieldWithinMore(fields[i], a, b);
      }
  }

  lemma {:induction false} FieldWithinMore(f: Field, a: nat, b: nat)
    requires FieldWithin(f, a) && a <= b
    ensures FieldWithin(f, b)
    decreases f
  {
    if f.Ref? {
      WithinMore(f.obj, a, b);
    }
  }

  // Growth at the front moves an object and keeps what it holds.

  lemma ShiftAligned(pre: bytes, m: bytes, p: int, a: Alignment)
    requires EndAligned(m, p, a)
    ensures EndAligned(pre + m, |pre| + p, a)
  {}

  lemma ShiftString(pre: bytes, m: bytes, p: int, s: bytes)
    requires HoldsString(m, p, s)
    ensures HoldsString(pre + m, |pre| + p, s)
  {
    ReadShift(pre, m, p, 4);
    assert (pre + m)[|pre| + p + 4..|pre| + p + 4 + |s|] == m[p + 4..p + 4 + |s|];
  }

  lemma ShiftOffset(pre: bytes, m: bytes, q: int)
    requires HoldsOffset(m, q)
    ensures HoldsOffset(pre + m, |pre| + q)
    ensures Follow(pre + m, |pre| + q) == |pre| + Follow(m, q)
  {
    ReadShift(pre, m, q, 4);
  }

  lemma ShiftTable(pre: bytes, m: bytes, p: int, n: nat)
    requires HoldsTable(m, p, n)
    ensures HoldsTable(pre + m, |pre| + p, n)
    ensures GetVTable(pre + m, |pre| + p) == |pre| + GetVTable(m, p)
  {
    ReadShift(pre, m, p, 4);
    ReadShift(pre, m, GetVTable(m, p), 2);
  }

  lemma ShiftSlot(pre: bytes, m: bytes, p: int, i: nat)
    requires FieldReadable(m, p, FieldIndexToOffset(i))
    ensures FieldReadable(pre + m, |pre| + p, FieldIndexToOffset(i))
    ensures Slot(pre + m, |pre| + p, i).Some? <==> Slot(m, p, i).Some?
    ensures Slot(m, p, i).Some? ==> Slot(pre + m, |pre| + p, i).value == |pre| + Slot(m, p, i).value
  {
    var vt := GetVTable(m, p);
    ReadShift(pre, m, p, 4);
    ReadShift(pre, m, vt, 2);
    if FieldIndexToOffset(i) < ReadScalar(m, vt, 2) {
      ReadShift(pre, m, vt + FieldIndexToOffset(i), 2);
      assert |pre| + vt + FieldIndexToOffset(i) == |pre| + (vt + FieldIndexToOffset(i));
    }
  }

  lemma {:induction false} ShiftObject(pre: bytes, m: bytes, p: int, x: Object)
    requires Holds(m, p, x)
    ensures Holds(pre + m, |pre| + p, x)
    decreases x, 0
  {
    match x
    case Str(s) => ShiftString(pre, m, p, s);
    case Vec(elems) =>
      ReadShift(pre, m, p, 4);
      forall i | 0 <= i < |elems|
        ensures HoldsRef(pre + m, |pre| + p + 4 + 4 * i, elems[i])
      {
        ShiftRef(pre, m, p + 4 + 4 * i, elems[i]);
      }
    case Tab(fields) =>
      ShiftTable(pre, m, p, |fields|);
      forall i | 0 <= i < |fields|
        ensures HoldsField(pre + m, |pre| + p, i, fields[i])
      {
        ShiftField(pre, m, p, i, fields[i]);
      }
  }

  lemma {:induction false} ShiftRef(pre: bytes, m: bytes, q: int, x: Object)
    requires HoldsRef(m, q, x)
    ensures HoldsRef(pre + m, |pre| + q, x)
    decreases x, 1
  {
    ShiftOffset(pre, m, q);
    ShiftObject(pre, m, Follow(m, q), x);
  }

  lemma {:induction false} ShiftField(pre: bytes, m: bytes, p: int, i: nat, f: Field)
    requires HoldsField(m, p, i, f)
    ensures HoldsField(pre + m, |pre| + p, i, f)
    decreases f
  {
    ShiftSlot(pre, m, p, i);
    match f
    case Absent =>
    case Scalar(w, v) => ReadShift(pre, m, Slot(m, p, i).value, w);
    case Ref(obj) => ShiftRef(pre, m, Slot(m, p, i).value, obj);
  }
}
