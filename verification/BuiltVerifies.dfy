/** Completeness: a finished buffer whose root conforms to the schema is accepted by the Verifier,
  * as long as its nesting and its number of tables are within the limits. */
module BuiltVerifies {
  import opened Bytes
  import opened Padding
  import opened Tables
  import opened Objects
  import opened Builder
  import opened TableFields
  import opened Creation
  import opened Finishing
  import V = Verification
  import opened VerifierSoundness
  import opened Acceptance

  // Objects and schemas

  ghost predicate Conforms(s: V.Schema, t: nat, x: Object)
    requires t < |s|
    decreases x
  {
    && x.Tab?
    && forall i | 0 <= i < |s[t]| && i < |x.fields| ::
         V.ClosedField(s[t][i], |s|) && ConformsField(s, s[t][i], x.fields[i])
  }

  ghost predicate ConformsField(s: V.Schema, f: V.FieldType, v: Field)
    requires V.ClosedField(f, |s|)
    decreases v
  {
    v.Absent? ||
    match f
    case ScalarField(w) => v.Scalar? && v.width == w
    case StringField => v.Ref? && v.obj.Str?
    case TableField(t) => v.Ref? && Conforms(s, t, v.obj)
    case TableVector(t) => v.Ref? && v.obj.Vec? && forall k | 0 <= k < |v.obj.elems| :: Conforms(s, t, v.obj.elems[k])
    case StringVector => v.Ref? && v.obj.Vec? && forall k | 0 <= k < |v.obj.elems| :: v.obj.elems[k].Str?
  }

  ghost function TableExtent(s: V.Schema, t: nat, x: Object): Extent
    requires t < |s|
    decreases x, 2, 0
  {
    var e := FieldsExtent(s, t, x, 0);
    Extent(e.height + 1, e.tables + 1)
  }

  ghost function FieldsExtent(s: V.Schema, t: nat, x: Object, i: nat): Extent
    requires t < |s|
    decreases x, 1, |s[t]| - i
  {
    if !x.Tab? || i >= |s[t]| || i >= |x.fields| then Extent(0, 0)
    else
      assert V.ClosedField(s[t][i], |s|);
      Beside(FieldExtent(s, s[t][i], x.fields[i]), FieldsExtent(s, t, x, i + 1))
  }

  ghost function FieldExtent(s: V.Schema, f: V.FieldType, v: Field): Extent
    requires V.ClosedField(f, |s|)
    decreases v, 0, 0
  {
    if !v.Ref? then Extent(0, 0)
    else match f
      case TableField(t) => TableExtent(s, t, v.obj)
      case TableVector(t) => ElementsExtent(s, t, v.obj, 0)
      case _ => Extent(0, 0)
  }

  ghost function ElementsExtent(s: V.Schema, t: nat, x: Object, k: nat): Extent
    requires t < |s|
    decreases x, 3, if x.Vec? then |x.elems| - k else 0
  {
    if !x.Vec? || k >= |x.elems| then Extent(0, 0)
    else Beside(TableExtent(s, t, x.elems[k]), ElementsExtent(s, t, x, k + 1))
  }

  // Reads of a built object pass the checks. The buffer is pre + m: the object was held by m, and
  // what Finish put in front is at least the root offset.

  predicate Whole(pre: bytes, m: bytes, lim: V.Limits) {
    && 4 <= |pre| && |pre + m| < MAX_BUFFER_SIZE && Aligned(|pre + m|, 4)
    && lim.checkAlignment && lim.maxDepth < TWO32 && lim.maxTables < TWO32
  }

  lemma ScalarPasses(pre: bytes, m: bytes, lim: V.Limits, p: int, w: Alignment)
    requires Whole(pre, m, lim) && EndAligned(m, p, w) && InBounds(m, p, w) && w <= 4
    ensures V.VerifyScalar(lim, pre + m, |pre| + p, w)
  {
    hide Aligned;
    ShiftAligned(pre, m, p, w);
    AlignmentDivides(w, 4, |pre + m|);
    AlignedSum(|pre| + p, |m| - p, w);
  }

  lemma OffsetPasses(pre: bytes, m: bytes, lim: V.Limits, q: int)
    requires Whole(pre, m, lim) && HoldsOffset(m, q) && 0 <= Follow(m, q) < |m|
    ensures V.VerifyOffset(lim, pre + m, |pre| + q) != 0
    ensures Follow(pre + m, |pre| + q) == |pre| + Follow(m, q)
  {
    hide Aligned;
    ScalarPasses(pre, m, lim, q, 4);
    ShiftOffset(pre, m, q);
  }

  lemma StringPasses(pre: bytes, m: bytes, lim: V.Limits, p: int, str: bytes)
    requires Whole(pre, m, lim) && HoldsString(m, p, str)
    ensures V.VerifyString(lim, pre + m, |pre| + p)
  {
    hide Aligned;
    ScalarPasses(pre, m, lim, p, 4);
    ShiftString(pre, m, p, str);
  }

  lemma VectorPasses(pre: bytes, m: bytes, lim: V.Limits, p: int, n: nat)
    requires Whole(pre, m, lim) && HoldsVector(m, p, n)
    ensures V.VerifyVectorOrString(lim, pre + m, |pre| + p, 4).Some?
    ensures InBounds(pre + m, |pre| + p, 4) && VectorSize(pre + m, |pre| + p) == n
    ensures InBounds(pre + m, |pre| + p, 4 + 4 * n)
  {
    hide Aligned;
    ScalarPasses(pre, m, lim, p, 4);
    ReadShift(pre, m, p, 4);
  }

  lemma TableStartPasses(pre: bytes, m: bytes, lim: V.Limits, c: V.Counters, p: int, n: nat)
    requires Whole(pre, m, lim) && HoldsTable(m, p, n)
    requires c.depth + 1 <= lim.maxDepth && c.tables + 1 <= lim.maxTables
    ensures V.VerifyTableStart(lim, pre + m, c, |pre| + p) == V.Verdict(true, V.Counters(c.depth + 1, c.tables + 1))
  {
    hide Aligned;
    var b := pre + m;
    var vt := GetVTable(m, p);
    ScalarPasses(pre, m, lim, p, 4);
    ShiftTable(pre, m, p, n);
    ScalarPasses(pre, m, lim, vt, 2);
    ReadShift(pre, m, vt, 2);
    assert V.VTablePosition(b, |pre| + p) == |pre| + vt;
    EvenAligned(FieldIndexToOffset(n));
  }

  lemma HoldsInside(m: bytes, p: int, x: Object)
    requires Holds(m, p, x)
    ensures 0 <= p && p + 4 <= |m|
  {}

  // Acceptance, by recursion over the object.

  lemma {:induction false} TablePasses(s: V.Schema, lim: V.Limits, pre: bytes, m: bytes, c: V.Counters, t: nat,
                                       p: int, x: Object)
    requires t < |s| && Whole(pre, m, lim) && Holds(m, p, x) && Conforms(s, t, x)
    requires Room(lim, c, TableExtent(s, t, x))
    ensures V.VerifyTable(s, lim, pre + m, c, t, |pre| + p) == Passed(c, TableExtent(s, t, x))
    decreases x, 2, 0
  {
    hide Holds, Conforms, V.VerifyTableStart, V.VerifyFields, FieldsExtent;
    var b, q := pre + m, |pre| + p;
    assert HoldsTable(m, p, |x.fields|) by {
      TableHeld(s, t, m, p, x);
    }
    TableStartPasses(pre, m, lim, c, p, |x.fields|);
    var c' := V.Counters(c.depth + 1, c.tables + 1);
    FieldsPass(s, lim, pre, m, c', t, p, x, 0, c);
  }

  lemma TableHeld(s: V.Schema, t: nat, m: bytes, p: int, x: Object)
    requires t < |s| && Conforms(s, t, x) && Holds(m, p, x)
    ensures x.Tab? && HoldsTable(m, p, |x.fields|)
  {}

  lemma FieldHeld(s: V.Schema, t: nat, m: bytes, p: int, x: Object, i: nat)
    requires t < |s| && Conforms(s, t, x) && Holds(m, p, x) && i < |s[t]|
    ensures x.Tab? && V.ClosedField(s[t][i], |s|) && HoldsTable(m, p, |x.fields|)
    ensures i < |x.fields| ==> HoldsField(m, p, i, x.fields[i]) && ConformsField(s, s[t][i], x.fields[i])
  {
    hide HoldsField, HoldsTable, ConformsField;
    assert V.ClosedField(s[t][i], |s|);
  }

  lemma {:induction false} FieldsPass(s: V.Schema, lim: V.Limits, pre: bytes, m: bytes, c: V.Counters, t: nat,
                                      p: int, x: Object, i: nat, c0: V.Counters)
    requires t < |s| && i <= |s[t]| && Whole(pre, m, lim) && Holds(m, p, x) && Conforms(s, t, x) && 0 <= p
    requires V.VerifyTableStart(lim, pre + m, c0, |pre| + p).ok
    requires Room(lim, c, FieldsExtent(s, t, x, i))
    ensures V.VerifyFields(s, lim, pre + m, c, t, |pre| + p, i, c0) == Passed(c, FieldsExtent(s, t, x, i))
    decreases x, 1, |s[t]| - i
  {
    hide Holds, Conforms, V.VerifyTableStart, V.VerifyField, FieldExtent, HoldsTable, HoldsField, ConformsField,
         FieldReadable;
    if i < |s[t]| {
      var b, q := pre + m, |pre| + p;
      FieldHeld(s, t, m, p, x, i);
      V.StartedIsReadable(lim, b, c0, q, i);
      if i < |x.fields| {
        var e := FieldExtent(s, s[t][i], x.fields[i]);
        FieldPasses(s, lim, pre, m, c, s[t][i], p, i, x.fields[i]);
        FieldsPass(s, lim, pre, m, Passed(c, e).c, t, p, x, i + 1, c0);
      } else {
        AbsentPasses(s, lim, pre, m, c, s[t][i], p, i, |x.fields|);
        FieldsPass(s, lim, pre, m, c, t, p, x, i + 1, c0);
      }
    }
  }

  /** A field beyond the end of the vtable is absent. */
  lemma AbsentPasses(s: V.Schema, lim: V.Limits, pre: bytes, m: bytes, c: V.Counters, f: V.FieldType, p: int, i: nat,
                     n: nat)
    requires V.ClosedField(f, |s|) && Whole(pre, m, lim) && HoldsTable(m, p, n) && i >= n
    ensures FieldReadable(pre + m, |pre| + p, FieldIndexToOffset(i))
    ensures V.VerifyField(s, lim, pre + m, c, f, |pre| + p, i) == V.Verdict(true, c)
  {
    hide Aligned;
    ShiftTable(pre, m, p, n);
    HoldsTableFieldReadable(pre + m, |pre| + p, n, i);
  }

  lemma ScalarFieldPasses(s: V.Schema, lim: V.Limits, pre: bytes, m: bytes, c: V.Counters, f: V.FieldType, p: int,
                          i: nat, v: Field)
    requires V.ClosedField(f, |s|) && Whole(pre, m, lim) && 0 <= p
    requires HoldsField(m, p, i, v) && ConformsField(s, f, v) && !v.Ref?
    ensures FieldReadable(pre + m, |pre| + p, FieldIndexToOffset(i))
    ensures V.VerifyField(s, lim, pre + m, c, f, |pre| + p, i) == V.Verdict(true, c)
  {
    hide Aligned, FieldReadable, V.VerifyOffset, V.VerifyTable, V.VerifyTables, V.VerifyString, V.VerifyVectorOrString,
         V.VerifyStrings;
    ShiftSlot(pre, m, p, i);
    if v.Scalar? {
      ReadShift(pre, m, Slot(m, p, i).value, v.width);
    }
  }

  /** A field that refers to an object: the offset passes and leads to the object's place. */
  lemma RefFieldPasses(pre: bytes, m: bytes, lim: V.Limits, p: int, i: nat, x: Object)
    requires Whole(pre, m, lim) && 0 <= p && HoldsField(m, p, i, Ref(x))
    ensures FieldReadable(m, p, FieldIndexToOffset(i))
    ensures Slot(m, p, i).Some? && InBounds(m, Slot(m, p, i).value, 4) && 0 <= Follow(m, Slot(m, p, i).value)
    ensures Holds(m, Follow(m, Slot(m, p, i).value), x)
    ensures FieldReadable(pre + m, |pre| + p, FieldIndexToOffset(i))
    ensures var o := GetOptionalFieldOffset(pre + m, |pre| + p, FieldIndexToOffset(i));
            && o != 0 && V.VerifyOffset(lim, pre + m, |pre| + p + o) != 0
            && Follow(pre + m, |pre| + p + o) == |pre| + Follow(m, Slot(m, p, i).value)
  {
    hide Holds, Aligned, FieldReadable, V.VerifyOffset;
    ShiftSlot(pre, m, p, i);
    var q := Slot(m, p, i).value;
    HoldsInside(m, Follow(m, q), x);
    OffsetPasses(pre, m, lim, q);
  }

  lemma {:induction false} FieldPasses(s: V.Schema, lim: V.Limits, pre: bytes, m: bytes, c: V.Counters,
                                       f: V.FieldType, p: int, i: nat, v: Field)
    requires V.ClosedField(f, |s|) && Whole(pre, m, lim) && 0 <= p
    requires HoldsField(m, p, i, v) && ConformsField(s, f, v)
    requires Room(lim, c, FieldExtent(s, f, v))
    ensures FieldReadable(pre + m, |pre| + p, FieldIndexToOffset(i))
    ensures V.VerifyField(s, lim, pre + m, c, f, |pre| + p, i) == Passed(c, FieldExtent(s, f, v))
    decreases v
  {
    hide Holds, HoldsField, Conforms, Aligned, FieldReadable, GetOptionalFieldOffset, Slot, V.VerifyOffset,
         V.VerifyTable,
         V.VerifyTables, V.VerifyString, V.VerifyVectorOrString, V.VerifyStrings, TableExtent, ElementsExtent;
    if !v.Ref? {
      ScalarFieldPasses(s, lim, pre, m, c, f, p, i, v);
    } else {
      RefFieldPasses(pre, m, lim, p, i, v.obj);
      var y := Follow(m, Slot(m, p, i).value);
      match f
      case StringField => HeldStringPasses(pre, m, lim, y, v.obj);
      case TableField(t) => TablePasses(s, lim, pre, m, c, t, y, v.obj);
      case TableVector(t) =>
        HeldVectorPasses(pre, m, lim, y, v.obj);
        TablesPass(s, lim, pre, m, c, t, y, v.obj, 0);
      case StringVector =>
        HeldVectorPasses(pre, m, lim, y, v.obj);
        StringsPass(lim, pre, m, y, v.obj, 0);
    }
  }

  lemma HeldStringPasses(pre: bytes, m: bytes, lim: V.Limits, p: int, x: Object)
    requires Whole(pre, m, lim) && Holds(m, p, x) && x.Str?
    ensures V.VerifyString(lim, pre + m, |pre| + p)
  {
    StringPasses(pre, m, lim, p, x.s);
  }

  lemma HeldVectorPasses(pre: bytes, m: bytes, lim: V.Limits, p: int, x: Object)
    requires Whole(pre, m, lim) && Holds(m, p, x) && x.Vec?
    ensures V.VerifyVectorOrString(lim, pre + m, |pre| + p, 4).Some?
    ensures InBounds(pre + m, |pre| + p, 4) && VectorSize(pre + m, |pre| + p) == |x.elems|
    ensures InBounds(pre + m, |pre| + p, 4 + 4 * |x.elems|)
  {
    VectorPasses(pre, m, lim, p, |x.elems|);
  }

  /** The k-th element of the vector, before and after the shift. */
  lemma ElementShifts(pre: bytes, m: bytes, lim: V.Limits, p: int, x: Object, k: nat)
    requires Whole(pre, m, lim) && Holds(m, p, x) && x.Vec? && k < |x.elems|
    ensures 0 <= p && HoldsVector(m, p, |x.elems|)
    ensures Holds(m, Follow(m, p + 4 + 4 * k), x.elems[k]) && 0 <= Follow(m, p + 4 + 4 * k)
    ensures InBounds(pre + m, |pre| + p + 4 + 4 * k, 4)
    ensures Follow(pre + m, |pre| + p + 4 + 4 * k) == |pre| + Follow(m, p + 4 + 4 * k)
  {
    hide Aligned;
    assert HoldsRef(m, p + 4 + 4 * k, x.elems[k]);
    HoldsInside(m, Follow(m, p + 4 + 4 * k), x.elems[k]);
    ShiftOffset(pre, m, p + 4 + 4 * k);
  }

  lemma {:induction false} TablesPass(s: V.Schema, lim: V.Limits, pre: bytes, m: bytes, c: V.Counters, t: nat,
                                      p: int, x: Object, k: nat)
    requires t < |s| && Whole(pre, m, lim) && Holds(m, p, x) && x.Vec? && 0 <= p && k <= |x.elems|
    requires InBounds(pre + m, |pre| + p, 4) && VectorSize(pre + m, |pre| + p) == |x.elems|
    requires InBounds(pre + m, |pre| + p, 4 + 4 * |x.elems|)
    requires forall j | 0 <= j < |x.elems| :: Conforms(s, t, x.elems[j])
    requires Room(lim, c, ElementsExtent(s, t, x, k))
    ensures V.VerifyTables(s, lim, pre + m, c, t, |pre| + p, k) == Passed(c, ElementsExtent(s, t, x, k))
    decreases x, 3, |x.elems| - k
  {
    hide Holds, Conforms, V.VerifyTable, TableExtent, HoldsVector;
    if k < |x.elems| {
      ElementShifts(pre, m, lim, p, x, k);
      var y := Follow(m, p + 4 + 4 * k);
      var e := TableExtent(s, t, x.elems[k]);
      TablePasses(s, lim, pre, m, c, t, y, x.elems[k]);
      TablesPass(s, lim, pre, m, Passed(c, e).c, t, p, x, k + 1);
    }
  }

  lemma {:induction false} StringsPass(lim: V.Limits, pre: bytes, m: bytes, p: int, x: Object, k: nat)
    requires Whole(pre, m, lim) && Holds(m, p, x) && x.Vec? && 0 <= p && k <= |x.elems|
    requires InBounds(pre + m, |pre| + p, 4) && VectorSize(pre + m, |pre| + p) == |x.elems|
    requires InBounds(pre + m, |pre| + p, 4 + 4 * |x.elems|)
    requires forall j | 0 <= j < |x.elems| :: x.elems[j].Str?
    ensures V.VerifyStrings(lim, pre + m, |pre| + p, k)
    decreases |x.elems| - k
  {
    hide Holds, V.VerifyString, HoldsVector;
    if k < |x.elems| {
      ElementShifts(pre, m, lim, p, x, k);
      HeldStringPasses(pre, m, lim, Follow(m, p + 4 + 4 * k), x.elems[k]);
      StringsPass(lim, pre, m, p, x, k + 1);
    }
  }

  /** The root offset that Finish writes is accepted and leads to the root. */
  lemma RootPasses(lim: V.Limits, st: State, root: nat, ident: Option<bytes>, sizePrefix: bool, r: State)
    requires ValidIdentifier(ident) && st.minAlign >= 4 && lim.checkAlignment
    requires 0 < root <= |st.msg| && r == Finish(st, root, ident, sizePrefix) && |r.msg| < MAX_BUFFER_SIZE
    ensures var q := RootPosition(sizePrefix);
            V.VerifyOffset(lim, r.msg, q) != 0 && InBounds(r.msg, q, 4) && Follow(r.msg, q) == |r.msg| - root
    ensures |st.msg| + 4 <= |r.msg| && Suffix(st.msg, r.msg) && Aligned(|r.msg|, 4)
    ensures ident.Some? ==> |r.msg| >= 8 && V.HasIdentifier(r.msg, RootPosition(sizePrefix), ident.value)
    ensures sizePrefix ==> V.VerifyScalar(lim, r.msg, 0, 4) && ReadScalar(r.msg, 0, 4) == |r.msg| - 4
  {
    hide Aligned, Finish, HeaderSize;
    FinishReads(st, root, ident, sizePrefix, r);
    AlignmentDivides(4, st.minAlign, |r.msg|);
    AlignedSelf(4);
    FinishSize(st, root, ident, sizePrefix, r);
    if ident.Some? {
      SameIdentifier(r.msg, RootPosition(sizePrefix) + 4, ident.value, 0);
    }
  }

  /** The identifier's bytes are found by the comparison. */
  lemma {:induction false} SameIdentifier(m: bytes, p: nat, ident: bytes, k: nat)
    requires |ident| == 4 && p + 4 <= |m| && m[p..p + 4] == ident && k <= 4
    ensures V.CompareIdentifier(m, p, ident, k) == Some(true)
    decreases 4 - k
  {
    if k < 4 {
      assert m[p + k] == m[p..p + 4][k];
      SameIdentifier(m, p, ident, k + 1);
    }
  }

  lemma FinishSize(st: State, root: nat, ident: Option<bytes>, sizePrefix: bool, r: State)
    requires ValidIdentifier(ident) && st.minAlign >= 4
    requires 0 < root <= |st.msg| && r == Finish(st, root, ident, sizePrefix)
    ensures |r.msg| >= |st.msg| + 4 + RootPosition(sizePrefix) + (if ident.Some? then 4 else 0)
  {
    FinishBytes(st, root, ident, sizePrefix, r);
  }

  /** Whatever was built and finished, with or without identifier and size prefix, is accepted when
    * its root conforms to the schema and its extent is within the limits. */
  lemma FinishedVerifies(s: V.Schema, lim: V.Limits, t: nat, st: State, root: nat, x: Object, ident: Option<bytes>,
                         sizePrefix: bool, r: State)
    requires t < |s| && lim.checkAlignment && lim.maxDepth < TWO32 && lim.maxTables < TWO32
    requires ValidIdentifier(ident) && st.minAlign >= 4
    requires HoldsAt(st.msg, root, x) && Conforms(s, t, x) && Room(lim, V.Counters(0, 0), TableExtent(s, t, x))
    requires r == Finish(st, root, ident, sizePrefix) && |r.msg| < MAX_BUFFER_SIZE
    ensures if sizePrefix then V.VerifySizePrefixedBuffer(s, lim, r.msg, t, ident)
            else V.VerifyBuffer(s, lim, r.msg, t, ident)
  {
    hide Finish, Holds, Conforms, Aligned, V.VerifyOffset, V.VerifyTable, V.HasIdentifier, V.VerifyScalar;
    RootPasses(lim, st, root, ident, sizePrefix, r);
    var pre := r.msg[..|r.msg| - |st.msg|];
    SuffixSplit(r.msg, st.msg);
    TablePasses(s, lim, pre, st.msg, V.Counters(0, 0), t, |st.msg| - root, x);
  }

  // Rejection: without room for its extent a table is not accepted.

  lemma {:induction false} TableNeedsRoom(s: V.Schema, lim: V.Limits, pre: bytes, m: bytes, c: V.Counters, t: nat,
                                          p: int, x: Object)
    requires t < |s| && Whole(pre, m, lim) && Holds(m, p, x) && Conforms(s, t, x) && 0 <= p && Within(lim, c)
    requires V.VerifyTable(s, lim, pre + m, c, t, |pre| + p).ok
    ensures Room(lim, c, TableExtent(s, t, x))
    decreases x, 2, 0
  {
    hide Holds, Conforms, Whole, Within, V.VerifyTableStart, V.VerifyFields, FieldsExtent;
    var b, q := pre + m, |pre| + p;
    WholeSmall(pre, m, lim);
    var c' := V.Counters(c.depth + 1, c.tables + 1);
    StartNeedsRoom(lim, b, c, q);
    FieldsNeedRoom(s, lim, pre, m, c', t, p, x, 0, c);
  }

  lemma WholeSmall(pre: bytes, m: bytes, lim: V.Limits)
    requires Whole(pre, m, lim)
    ensures lim.checkAlignment && |pre + m| < TWO63
  {}

  lemma {:induction false} FieldsNeedRoom(s: V.Schema, lim: V.Limits, pre: bytes, m: bytes, c: V.Counters, t: nat,
                                          p: int, x: Object, i: nat, c0: V.Counters)
    requires t < |s| && i <= |s[t]| && Whole(pre, m, lim) && Holds(m, p, x) && Conforms(s, t, x) && 0 <= p
    requires V.VerifyTableStart(lim, pre + m, c0, |pre| + p).ok && Within(lim, c)
    requires V.VerifyFields(s, lim, pre + m, c, t, |pre| + p, i, c0).ok
    ensures Room(lim, c, FieldsExtent(s, t, x, i))
    decreases x, 1, |s[t]| - i
  {
    hide Holds, Conforms, Whole, Within, Room, V.VerifyTableStart, V.VerifyField, FieldExtent, HoldsTable, HoldsField,
         ConformsField, FieldReadable;
    NoExtentNeedsNone(lim, c);
    if i < |s[t]| {
      FieldHeld(s, t, m, p, x, i);
      if i < |x.fields| {
        WholeSmall(pre, m, lim);
        V.StartedIsReadable(lim, pre + m, c0, |pre| + p, i);
        var e := FieldExtent(s, s[t][i], x.fields[i]);
        FieldNeedsRoom(s, lim, pre, m, c, s[t][i], p, i, x.fields[i]);
        FieldPasses(s, lim, pre, m, c, s[t][i], p, i, x.fields[i]);
        PassedWithin(lim, c, e);
        FieldsNeedRoom(s, lim, pre, m, Passed(c, e).c, t, p, x, i + 1, c0);
        RoomBeside(lim, c, e, FieldsExtent(s, t, x, i + 1));
      }
    }
  }

  lemma {:induction false} FieldNeedsRoom(s: V.Schema, lim: V.Limits, pre: bytes, m: bytes, c: V.Counters,
                                          f: V.FieldType, p: int, i: nat, v: Field)
    requires V.ClosedField(f, |s|) && Whole(pre, m, lim) && 0 <= p && Within(lim, c)
    requires HoldsField(m, p, i, v) && ConformsField(s, f, v)
    requires lim.checkAlignment && |pre + m| < TWO63 && FieldReadable(pre + m, |pre| + p, FieldIndexToOffset(i))
    requires V.VerifyField(s, lim, pre + m, c, f, |pre| + p, i).ok
    ensures Room(lim, c, FieldExtent(s, f, v))
    decreases v
  {
    hide Holds, HoldsField, Conforms, Whole, Within, Room, FieldReadable, GetOptionalFieldOffset, Slot, V.VerifyOffset,
         V.VerifyTable, V.VerifyTables, V.VerifyString, V.VerifyVectorOrString, V.VerifyStrings,
         TableExtent, ElementsExtent;
    NoExtentNeedsNone(lim, c);
    if v.Ref? {
      RefFieldPasses(pre, m, lim, p, i, v.obj);
      var y := Follow(m, Slot(m, p, i).value);
      if f.TableField? {
        TableNeedsRoom(s, lim, pre, m, c, f.t, y, v.obj);
      } else if f.TableVector? {
        HeldVectorPasses(pre, m, lim, y, v.obj);
        TablesNeedRoom(s, lim, pre, m, c, f.t, y, v.obj, 0);
      }
    }
  }

  lemma {:induction false} TablesNeedRoom(s: V.Schema, lim: V.Limits, pre: bytes, m: bytes, c: V.Counters, t: nat,
                                          p: int, x: Object, k: nat)
    requires t < |s| && Whole(pre, m, lim) && Holds(m, p, x) && x.Vec? && 0 <= p && k <= |x.elems| && Within(lim, c)
    requires InBounds(pre + m, |pre| + p, 4) && VectorSize(pre + m, |pre| + p) == |x.elems|
    requires InBounds(pre + m, |pre| + p, 4 + 4 * |x.elems|)
    requires forall j | 0 <= j < |x.elems| :: Conforms(s, t, x.elems[j])
    requires V.VerifyTables(s, lim, pre + m, c, t, |pre| + p, k).ok
    ensures Room(lim, c, ElementsExtent(s, t, x, k))
    decreases x, 3, |x.elems| - k
  {
    hide Holds, Conforms, Whole, Within, Room, V.VerifyTable, TableExtent, HoldsVector;
    NoExtentNeedsNone(lim, c);
    if k < |x.elems| {
      ElementShifts(pre, m, lim, p, x, k);
      WholeSmall(pre, m, lim);
      var y := Follow(m, p + 4 + 4 * k);
      var e := TableExtent(s, t, x.elems[k]);
      TableNeedsRoom(s, lim, pre, m, c, t, y, x.elems[k]);
      TablePasses(s, lim, pre, m, c, t, y, x.elems[k]);
      PassedWithin(lim, c, e);
      TablesNeedRoom(s, lim, pre, m, Passed(c, e).c, t, p, x, k + 1);
      RoomBeside(lim, c, e, ElementsExtent(s, t, x, k + 1));
    }
  }

  /** A finished buffer whose root conforms to the schema is accepted if and only if the nesting and the
    * number of its tables are within the limits: nothing else is ever a reason to reject it. */
  lemma FinishedAcceptance(s: V.Schema, lim: V.Limits, t: nat, st: State, root: nat, x: Object, ident: Option<bytes>,
                           sizePrefix: bool, r: State)
    requires t < |s| && lim.checkAlignment && lim.maxDepth < TWO32 - 1 && lim.maxTables < TWO32 - 1
    requires ValidIdentifier(ident) && st.minAlign >= 4 && HoldsAt(st.msg, root, x) && Conforms(s, t, x)
    requires r == Finish(st, root, ident, sizePrefix) && |r.msg| < MAX_BUFFER_SIZE
    ensures (if sizePrefix then V.VerifySizePrefixedBuffer(s, lim, r.msg, t, ident)
             else V.VerifyBuffer(s, lim, r.msg, t, ident))
            <==> Room(lim, V.Counters(0, 0), TableExtent(s, t, x))
  {
    hide Finish, Holds, Conforms, Aligned, Room, V.VerifyOffset, V.VerifyTable, V.HasIdentifier, V.VerifyScalar,
         TableExtent;
    var c := V.Counters(0, 0);
    if Room(lim, c, TableExtent(s, t, x)) {
      FinishedVerifies(s, lim, t, st, root, x, ident, sizePrefix, r);
    } else {
      RootPasses(lim, st, root, ident, sizePrefix, r);
      var pre := r.msg[..|r.msg| - |st.msg|];
      SuffixSplit(r.msg, st.msg);
      HoldsInside(st.msg, |st.msg| - root, x);
      if V.VerifyTable(s, lim, pre + st.msg, c, t, |pre| + |st.msg| - root).ok {
        TableNeedsRoom(s, lim, pre, st.msg, c, t, |st.msg| - root, x);
        assert false;
      }
    }
  }
}
