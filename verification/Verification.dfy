/** The Verifier as a function: which buffers it accepts and what it counts. The class in
  * VerifierClass.dfy is proved to compute it. Tables are described by a schema, so that one
  * definition stands for the Verify functions the compiler generates. */
module Verification {
  import opened Bytes
  import opened Padding
  import opened Tables
  import opened Builder

  datatype FieldType =
    | ScalarField(w: Alignment)
    | StringField
    | TableField(t: nat)
    | TableVector(t: nat)
    | StringVector

  /** The t-th entry lists the fields of table type t, in vtable order. */
  type Schema = s: seq<seq<FieldType>> | ClosedSchema(s) witness []

  predicate ClosedSchema(s: seq<seq<FieldType>>) {
    forall t, i | 0 <= t < |s| && 0 <= i < |s[t]| :: ClosedField(s[t][i], |s|)
  }

  predicate ClosedField(f: FieldType, n: nat) {
    (f.TableField? || f.TableVector?) ==> f.t < n
  }

  datatype Limits = Limits(maxDepth: nat, maxTables: nat, checkAlignment: bool)

  datatype Counters = Counters(depth: nat, tables: nat)

  /** What a check answers, and the counters it leaves. */
  datatype Verdict = Verdict(ok: bool, c: Counters)

  // Range checks; positions are 64-bit unsigned.

  predicate VerifyRange(m: bytes, elem: nat, len: nat) {
    len < |m| && elem <= |m| - len
  }

  predicate VerifyAlignment(lim: Limits, elem: nat, w: Alignment) {
    Aligned(elem, w) || !lim.checkAlignment
  }

  predicate VerifyScalar(lim: Limits, m: bytes, elem: nat, w: Alignment)
    ensures VerifyScalar(lim, m, elem, w) ==> InBounds(m, elem, w)
  {
    VerifyAlignment(lim, elem, w) && VerifyRange(m, elem, w)
  }

  /** The offset stored at start, 0 if it must not be followed. */
  function VerifyOffset(lim: Limits, m: bytes, start: nat): (o: nat)
    ensures o != 0 ==> InBounds(m, start, 4) && o == ReadScalar(m, start, 4) && start + o < |m|
  {
    if !VerifyScalar(lim, m, start, 4) then 0
    else
      var o := ReadScalar(m, start, 4);
      if o == 0 || o >= TWO31 || !VerifyRange(m, start + o, 1) then 0 else o
  }

  /** The end of the vector's elements, if size field and elements are inside. */
  function VerifyVectorOrString(lim: Limits, m: bytes, vec: nat, elemSize: nat): (end: Option<nat>)
    requires elemSize > 0
    ensures end.Some? ==> InBounds(m, vec, 4) && end.value == vec + 4 + elemSize * VectorSize(m, vec) <= |m|
  {
    if !VerifyScalar(lim, m, vec, 4) then None
    else
      var size := VectorSize(m, vec);
      var byteSize := 4 + elemSize * size;
      if size < MAX_BUFFER_SIZE / elemSize && VerifyRange(m, vec, byteSize) then Some(vec + byteSize) else None
  }

  predicate VerifyString(lim: Limits, m: bytes, str: nat) {
    var end := VerifyVectorOrString(lim, m, str, 1);
    end.Some? && VerifyRange(m, end.value, 1) && m[end.value] == 0
  }

  // Tables

  function VerifyComplexity(lim: Limits, c: Counters): Verdict {
    var c' := Counters((c.depth + 1) % TWO32, (c.tables + 1) % TWO32);
    Verdict(c'.depth <= lim.maxDepth && c'.tables <= lim.maxTables, c')
  }

  function EndTable(c: Counters): Counters {
    c.(depth := (c.depth - 1) % TWO32)
  }

  /** The vtable's position, computed in unsigned 64-bit arithmetic. */
  function VTablePosition(m: bytes, table: nat): nat
    requires InBounds(m, table, 4)
  {
    (table - ToSigned(ReadScalar(m, table, 4), 4)) % TWO64
  }

  predicate VerifyVTable(lim: Limits, m: bytes, vt: nat) {
    && VerifyScalar(lim, m, vt, 2)
    && VerifyAlignment(lim, ReadScalar(m, vt, 2), 2)
    && VerifyRange(m, vt, ReadScalar(m, vt, 2))
  }

  function VerifyTableStart(lim: Limits, m: bytes, c: Counters, table: nat): Verdict {
    if !VerifyScalar(lim, m, table, 4) then Verdict(false, c)
    else
      var v := VerifyComplexity(lim, c);
      Verdict(v.ok && VerifyVTable(lim, m, VTablePosition(m, table)), v.c)
  }

  /** Once a table has been started with alignment checking on, its fields can be looked up. */
  lemma StartedIsReadable(lim: Limits, m: bytes, c: Counters, table: nat, i: nat)
    requires lim.checkAlignment && VerifyTableStart(lim, m, c, table).ok && |m| < TWO63
    ensures FieldReadable(m, table, FieldIndexToOffset(i))
  {
    hide ReadScalar, GetVTable;
    VTableNoWrap(lim, m, table);
    EvenEntry(m, GetVTable(m, table), ReadScalar(m, GetVTable(m, table), 2), FieldIndexToOffset(i));
  }

  /** In a table of 2-byte entries, what starts at an entry has room for it. */
  lemma EvenEntry(m: bytes, vt: int, n: nat, field: nat)
    requires InBounds(m, vt, n) && Aligned(n, 2) && field % 2 == 0
    ensures field < n ==> InBounds(m, vt + field, 2)
  {}

  lemma VTableNoWrap(lim: Limits, m: bytes, table: nat)
    requires InBounds(m, table, 4) && |m| < TWO63 && VerifyVTable(lim, m, VTablePosition(m, table))
    ensures GetVTable(m, table) == VTablePosition(m, table)
  {
    Pow256Values();
    var d := GetVTable(m, table);
    assert -TWO32 < d < TWO63 + TWO32;
  }

  /** The distance to the buffer's end: what grows smaller from an object to those it refers to. */
  function Left(m: bytes, p: int): nat {
    if 0 <= p <= |m| then |m| - p else 0
  }

  function VerifyTable(s: Schema, lim: Limits, m: bytes, c: Counters, t: nat, table: nat): Verdict
    requires t < |s| && lim.checkAlignment && |m| < TWO63
    decreases Left(m, table), 3, 0
  {
    var v := VerifyTableStart(lim, m, c, table);
    if !v.ok then v
    else
      var w := VerifyFields(s, lim, m, v.c, t, table, 0, c);
      if w.ok then Verdict(true, EndTable(w.c)) else w
  }

  /** The checks of the fields from the i-th on, in order. */
  function VerifyFields(s: Schema, lim: Limits, m: bytes, c: Counters, t: nat, table: nat, i: nat,
                        ghost c0: Counters): Verdict
    requires t < |s| && i <= |s[t]| && lim.checkAlignment && |m| < TWO63
    requires VerifyTableStart(lim, m, c0, table).ok
    decreases Left(m, table), 2, |s[t]| - i
  {
    if i == |s[t]| then Verdict(true, c)
    else
      StartedIsReadable(lim, m, c0, table, i);
      assert ClosedField(s[t][i], |s|);
      var v := VerifyField(s, lim, m, c, s[t][i], table, i);
      if v.ok then VerifyFields(s, lim, m, v.c, t, table, i + 1, c0) else v
  }

  function VerifyField(s: Schema, lim: Limits, m: bytes, c: Counters, f: FieldType, table: nat, i: nat): Verdict
    requires ClosedField(f, |s|) && lim.checkAlignment && |m| < TWO63
    requires FieldReadable(m, table, FieldIndexToOffset(i))
    decreases Left(m, table), 1, 0
  {
    var o := GetOptionalFieldOffset(m, table, FieldIndexToOffset(i));
    if o == 0 then Verdict(true, c)
    else if f.ScalarField? then Verdict(VerifyRange(m, table + o, f.w), c)
    else if VerifyOffset(lim, m, table + o) == 0 then Verdict(false, c)
    else
      var p := Follow(m, table + o);
      match f
      case StringField => Verdict(VerifyString(lim, m, p), c)
      case TableField(t) => VerifyTable(s, lim, m, c, t, p)
      case TableVector(t) =>
        if VerifyVectorOrString(lim, m, p, 4).None? then Verdict(false, c)
        else VerifyTables(s, lim, m, c, t, p, 0)
      case StringVector =>
        Verdict(VerifyVectorOrString(lim, m, p, 4).Some? && VerifyStrings(lim, m, p, 0), c)
  }

  /** VerifyVectorOfTables from the k-th element on. */
  function VerifyTables(s: Schema, lim: Limits, m: bytes, c: Counters, t: nat, vec: nat, k: nat): Verdict
    requires t < |s| && lim.checkAlignment && |m| < TWO63
    requires InBounds(m, vec, 4) && InBounds(m, vec, 4 + 4 * VectorSize(m, vec)) && k <= VectorSize(m, vec)
    decreases Left(m, vec), 1, VectorSize(m, vec) - k
  {
    if k == VectorSize(m, vec) then Verdict(true, c)
    else
      var v := VerifyTable(s, lim, m, c, t, VectorGet(m, vec, k));
      if v.ok then VerifyTables(s, lim, m, v.c, t, vec, k + 1) else v
  }

  /** VerifyVectorOfStrings from the k-th element on. */
  predicate VerifyStrings(lim: Limits, m: bytes, vec: nat, k: nat)
    requires InBounds(m, vec, 4) && InBounds(m, vec, 4 + 4 * VectorSize(m, vec)) && k <= VectorSize(m, vec)
    decreases VectorSize(m, vec) - k
  {
    k == VectorSize(m, vec) || (VerifyString(lim, m, VectorGet(m, vec, k)) && VerifyStrings(lim, m, vec, k + 1))
  }

  // Buffers

  /** The k-th character of a C string, which ends in NUL. */
  function CharAt(s: bytes, k: nat): byte {
    if k < |s| then s[k] else 0
  }

  /** strncmp of the bytes at p with an identifier, from the k-th of four characters on: it looks at one
    * after the other until they differ or both end. None when it would look behind the buffer. */
  function CompareIdentifier(m: bytes, p: nat, ident: bytes, k: nat): Option<bool>
    requires k <= 4
    decreases 4 - k
  {
    if k == 4 then Some(true)
    else if p + k >= |m| then None
    else if m[p + k] != CharAt(ident, k) then Some(false)
    else if m[p + k] == 0 then Some(true)
    else CompareIdentifier(m, p, ident, k + 1)
  }

  /** BufferHasIdentifier. What it answers after looking behind the buffer is undefined, and no here. */
  predicate HasIdentifier(m: bytes, start: nat, ident: bytes) {
    CompareIdentifier(m, start + 4, ident, 0) == Some(true)
  }

  /** The comparison VerifyBufferFromStart makes, if it makes one, looks at bytes of the buffer only. */
  predicate ComparesInside(m: bytes, start: nat, ident: Option<bytes>) {
    ident.Some? && |m| >= 8 ==> CompareIdentifier(m, start + 4, ident.value, 0).Some?
  }

  function VerifyBufferFromStart(s: Schema, lim: Limits, m: bytes, c: Counters, t: nat, ident: Option<bytes>,
                                 start: nat): Verdict
    requires t < |s| && lim.checkAlignment && |m| < TWO63
  {
    if ident.Some? && !(|m| >= 8 && HasIdentifier(m, start, ident.value)) then Verdict(false, c)
    else
      var o := VerifyOffset(lim, m, start);
      if o == 0 then Verdict(false, c) else VerifyTable(s, lim, m, c, t, start + o)
  }

  const DEFAULT_LIMITS := Limits(64, 1000000, true)

  /** VerifyBuffer of a new Verifier. */
  predicate VerifyBuffer(s: Schema, lim: Limits, m: bytes, t: nat, ident: Option<bytes>)
    requires t < |s| && lim.checkAlignment && |m| < TWO63
  {
    VerifyBufferFromStart(s, lim, m, Counters(0, 0), t, ident, 0).ok
  }

  predicate PrefixPasses(lim: Limits, m: bytes) {
    VerifyScalar(lim, m, 0, 4) && ReadScalar(m, 0, 4) == |m| - 4
  }

  predicate VerifySizePrefixedBuffer(s: Schema, lim: Limits, m: bytes, t: nat, ident: Option<bytes>)
    requires t < |s| && lim.checkAlignment && |m| < TWO63
  {
    && PrefixPasses(lim, m)
    && VerifyBufferFromStart(s, lim, m, Counters(0, 0), t, ident, 4).ok
  }
}
