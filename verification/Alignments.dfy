/** Retroactive alignment: what is aligned counted from the end of the message is, once the buffer is
  * finished, aligned counted from its start. */
module Alignments {
  import opened Bytes
  import opened Padding
  import opened Tables
  import opened Objects
  import opened Builder
  import opened Creation
  import opened Finishing

  /** Every part of the object at p lies at a position that its size divides: the length of each string
    * and vector, the first word and the vtable of each table, and each scalar and offset stored. */
  ghost predicate PartsAligned(m: bytes, p: int, x: Object)
    decreases x, 0
  {
    && 0 <= p && Aligned(p, 4)
    && match x
       case Str(_) => true
       case Vec(elems) => forall i | 0 <= i < |elems| :: OffsetAligned(m, p + 4 + 4 * i, elems[i])
       case Tab(fields) =>
         && InBounds(m, p, 4) && 0 <= GetVTable(m, p) && Aligned(GetVTable(m, p), 2)
         && forall i | 0 <= i < |fields| :: FieldAligned(m, p, i, fields[i])
  }

  /** So does the offset at q, and every part of the object it leads to. */
  ghost predicate OffsetAligned(m: bytes, q: int, x: Object)
    decreases x, 1
  {
    0 <= q && Aligned(q, 4) && InBounds(m, q, 4) && PartsAligned(m, Follow(m, q), x)
  }

  ghost predicate FieldAligned(m: bytes, p: int, i: nat, f: Field)
    decreases f
  {
    && FieldReadable(m, p, FieldIndexToOffset(i))
    && match f
       case Absent => true
       case Scalar(w, _) => Slot(m, p, i).Some? && 0 <= Slot(m, p, i).value && Aligned(Slot(m, p, i).value, w)
       case Ref(obj) => Slot(m, p, i).Some? && OffsetAligned(m, Slot(m, p, i).value, obj)
  }

  /** In a buffer whose size is a multiple of a, alignment up to a may be counted from either end. */
  lemma EitherEnd(m: bytes, p: int, w: Alignment, a: Alignment)
    requires EndAligned(m, p, w) && Aligned(|m|, a) && w <= a
    ensures 0 <= p && Aligned(p, w)
  {
    hide Aligned;
    AlignmentDivides(w, a, |m|);
    AlignedSum(p, |m| - p, w);
  }

  lemma {:induction false} PartsAlign(m: bytes, p: int, x: Object, a: Alignment)
    requires Holds(m, p, x) && Aligned(|m|, a) && 4 <= a && WidthsWithin(x, a)
    ensures PartsAligned(m, p, x)
    decreases x, 0
  {
    hide Aligned, HoldsRef, HoldsField, OffsetAligned, FieldAligned;
    EitherEnd(m, p, 4, a);
    match x
    case Str(_) =>
    case Vec(elems) =>
      forall i | 0 <= i < |elems|
        ensures OffsetAligned(m, p + 4 + 4 * i, elems[i])
      {
        OffsetAligns(m, p + 4 + 4 * i, elems[i], a);
      }
    case Tab(fields) =>
      EitherEnd(m, GetVTable(m, p), 2, a);
      forall i | 0 <= i < |fields|
        ensures FieldAligned(m, p, i, fields[i])
      {
        FieldAligns(m, p, i, fields[i], a);
      }
  }

  lemma {:induction false} OffsetAligns(m: bytes, q: int, x: Object, a: Alignment)
    requires HoldsRef(m, q, x) && Aligned(|m|, a) && 4 <= a && WidthsWithin(x, a)
    ensures OffsetAligned(m, q, x)
    decreases x, 1
  {
    hide Aligned, Holds, PartsAligned, WidthsWithin;
    EitherEnd(m, q, 4, a);
    PartsAlign(m, Follow(m, q), x, a);
  }

  lemma {:induction false} FieldAligns(m: bytes, p: int, i: nat, f: Field, a: Alignment)
    requires HoldsField(m, p, i, f) && Aligned(|m|, a) && 4 <= a && FieldWithin(f, a)
    ensures FieldAligned(m, p, i, f)
    decreases f
  {
    hide Aligned, HoldsRef, OffsetAligned, FieldReadable, Slot;
    if f.Scalar? {
      EitherEnd(m, Slot(m, p, i).value, f.width, a);
    } else if f.Ref? {
      OffsetAligns(m, Slot(m, p, i).value, f.obj, a);
    }
  }

  /** After Finish, with or without identifier and size prefix, every scalar, length and offset of an
    * object whose widths the builder has tracked is aligned, and so are the root offset and the prefix. */
  lemma FinishedIsAligned(st: State, root: nat, x: Object, ident: Option<bytes>, sizePrefix: bool, m: bytes)
    requires ValidIdentifier(ident) && st.minAlign >= 4
    requires HoldsAt(st.msg, root, x) && WidthsWithin(x, st.minAlign)
    requires m == Finish(st, root, ident, sizePrefix).msg && |m| < TWO31
    ensures Aligned(RootPosition(sizePrefix), 4) && root <= |m| && PartsAligned(m, |m| - root, x)
  {
    hide Finish, Holds, PartsAligned, WidthsWithin, Aligned;
    FinishReads(st, root, ident, sizePrefix, Finish(st, root, ident, sizePrefix));
    HoldsAtKept(st.msg, m, root, x);
    PartsAlign(m, |m| - root, x, st.minAlign);
    AlignedSelf(4);
  }
}
