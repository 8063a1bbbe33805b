/** What acceptance by the Verifier means for an arbitrary byte string: every read of the accessors,
  * over all objects reachable through the schema, stays inside the buffer; objects lie strictly
  * after the tables that refer to them; the counters balance. */
module VerifierSoundness {
  import opened Bytes
  import opened Padding
  import opened Tables
  import opened Verification

  /** Size, contents and terminator of the string at p can be read. */
  predicate SafeString(m: bytes, p: int) {
    && InBounds(m, p, 4)
    && InBounds(m, p + 4, VectorSize(m, p) + 1)
    && m[p + 4 + VectorSize(m, p)] == 0
  }

  /** Size and elements of the vector of offsets at p can be read. */
  predicate SafeVector(m: bytes, p: int) {
    InBounds(m, p, 4) && InBounds(m, p, 4 + 4 * VectorSize(m, p))
  }

  /** Every access to the table at p and to what it leads to is inside the buffer. */
  ghost predicate SafeTable(s: Schema, m: bytes, t: nat, p: int)
    requires t < |s|
    decreases Left(m, p), 1
  {
    && InBounds(m, p, 4)
    && forall i | 0 <= i < |s[t]| :: ClosedField(s[t][i], |s|) && SafeField(s, m, s[t][i], p, i)
  }

  ghost predicate SafeField(s: Schema, m: bytes, f: FieldType, p: int, i: nat)
    requires ClosedField(f, |s|) && InBounds(m, p, 4)
    decreases Left(m, p), 0
  {
    && FieldReadable(m, p, FieldIndexToOffset(i))
    && var o := GetOptionalFieldOffset(m, p, FieldIndexToOffset(i));
    o == 0 ||
    match f
    case ScalarField(w) => InBounds(m, p + o, w)
    case StringField => SafePointer(m, p, o) && SafeString(m, Follow(m, p + o))
    case TableField(t) => SafePointer(m, p, o) && SafeTable(s, m, t, Follow(m, p + o))
    case TableVector(t) =>
      && SafePointer(m, p, o)
      && var q := Follow(m, p + o);
      && SafeVector(m, q)
      && forall k: nat | k < VectorSize(m, q) :: SafeTable(s, m, t, VectorGet(m, q, k))
    case StringVector =>
      && SafePointer(m, p, o)
      && var q := Follow(m, p + o);
      && SafeVector(m, q)
      && forall k: nat | k < VectorSize(m, q) :: SafeString(m, VectorGet(m, q, k))
  }

  /** The offset o bytes into the object at p can be read and leads to a place strictly after p. */
  predicate SafePointer(m: bytes, p: int, o: nat) {
    InBounds(m, p + o, 4) && p < Follow(m, p + o)
  }

  // What is checked besides that reads are safe.

  /** An offset that is followed lies at a multiple of 4, is not null, and positive as a signed number. */
  predicate TidyOffset(m: bytes, q: int)
    requires InBounds(m, q, 4)
  {
    Aligned(q, 4) && 0 < ReadScalar(m, q, 4) < TWO31
  }

  predicate TidyVector(m: bytes, p: int, elemSize: nat)
    requires InBounds(m, p, 4) && 0 < elemSize
  {
    Aligned(p, 4) && VectorSize(m, p) < MAX_BUFFER_SIZE / elemSize
  }

  /** The first word is at a multiple of 4. The vtable is at an even place, has an even size, and is
    * inside the buffer but not all of it. */
  predicate TidyStart(m: bytes, p: int)
    requires InBounds(m, p, 4)
  {
    && Aligned(p, 4)
    && var vt := GetVTable(m, p);
    && InBounds(m, vt, 2) && Aligned(vt, 2)
    && var size := ReadScalar(m, vt, 2);
    && Aligned(size, 2) && InBounds(m, vt, size) && size < |m|
  }

  ghost predicate TidyTable(s: Schema, m: bytes, t: nat, p: int)
    requires t < |s| && SafeTable(s, m, t, p)
    decreases Left(m, p), 1
  {
    TidyStart(m, p) && forall i | 0 <= i < |s[t]| :: TidyField(s, m, s[t][i], p, i)
  }

  ghost predicate TidyField(s: Schema, m: bytes, f: FieldType, p: int, i: nat)
    requires ClosedField(f, |s|) && InBounds(m, p, 4) && SafeField(s, m, f, p, i)
    decreases Left(m, p), 0
  {
    var o := GetOptionalFieldOffset(m, p, FieldIndexToOffset(i));
    o == 0 || f.ScalarField? || (
      && TidyOffset(m, p + o)
      && var q := Follow(m, p + o);
      match f
      case ScalarField(w) => true
      case StringField => TidyVector(m, q, 1)
      case TableField(t) => TidyTable(s, m, t, q)
      case TableVector(t) =>
        TidyVector(m, q, 4) && forall k: nat | k < VectorSize(m, q) :: TidyTable(s, m, t, VectorGet(m, q, k))
      case StringVector =>
        TidyVector(m, q, 4) && forall k: nat | k < VectorSize(m, q) :: TidyVector(m, VectorGet(m, q, k), 1))
  }

  /** How many tables are visited, counting a shared one once for every way it is reached. */
  ghost function Visits(s: Schema, m: bytes, t: nat, p: int): nat
    requires t < |s| && SafeTable(s, m, t, p)
    decreases Left(m, p), 3, 0
  {
    1 + FieldVisits(s, m, t, p, 0)
  }

  ghost function FieldVisits(s: Schema, m: bytes, t: nat, p: int, i: nat): nat
    requires t < |s| && i <= |s[t]| && SafeTable(s, m, t, p)
    decreases Left(m, p), 2, |s[t]| - i
  {
    if i == |s[t]| then 0 else OneFieldVisits(s, m, s[t][i], p, i) + FieldVisits(s, m, t, p, i + 1)
  }

  ghost function OneFieldVisits(s: Schema, m: bytes, f: FieldType, p: int, i: nat): nat
    requires ClosedField(f, |s|) && InBounds(m, p, 4) && SafeField(s, m, f, p, i)
    decreases Left(m, p), 1, 0
  {
    var o := GetOptionalFieldOffset(m, p, FieldIndexToOffset(i));
    if o == 0 then 0
    else match f
      case TableField(t) => Visits(s, m, t, Follow(m, p + o))
      case TableVector(t) => ElementVisits(s, m, t, Follow(m, p + o), 0)
      case _ => 0
  }

  ghost function ElementVisits(s: Schema, m: bytes, t: nat, vec: int, k: nat): nat
    requires t < |s| && SafeVector(m, vec) && k <= VectorSize(m, vec)
    requires forall k: nat | k < VectorSize(m, vec) :: SafeTable(s, m, t, VectorGet(m, vec, k))
    decreases Left(m, vec), 1, VectorSize(m, vec) - k
  {
    if k == VectorSize(m, vec) then 0
    else Visits(s, m, t, VectorGet(m, vec, k)) + ElementVisits(s, m, t, vec, k + 1)
  }

  // Soundness, by the recursion of the Verifier.

  lemma SoundString(lim: Limits, m: bytes, str: nat)
    requires VerifyString(lim, m, str)
    ensures SafeString(m, str) && (lim.checkAlignment ==> TidyVector(m, str, 1))
  {}

  lemma {:induction false} SoundStrings(lim: Limits, m: bytes, vec: nat, k: nat)
    requires SafeVector(m, vec) && k <= VectorSize(m, vec) && VerifyStrings(lim, m, vec, k)
    ensures forall j: nat | k <= j < VectorSize(m, vec) ::
              SafeString(m, VectorGet(m, vec, j)) && (lim.checkAlignment ==> TidyVector(m, VectorGet(m, vec, j), 1))
    decreases VectorSize(m, vec) - k
  {
    hide VerifyString, SafeString, TidyVector;
    if k < VectorSize(m, vec) {
      SoundString(lim, m, VectorGet(m, vec, k));
      SoundStrings(lim, m, vec, k + 1);
    }
  }

  lemma VectorTidy(lim: Limits, m: bytes, p: nat)
    requires VerifyVectorOrString(lim, m, p, 4).Some? && lim.checkAlignment
    ensures SafeVector(m, p) && TidyVector(m, p, 4)
  {}

  lemma OffsetTidy(lim: Limits, m: bytes, q: nat)
    requires VerifyOffset(lim, m, q) != 0 && lim.checkAlignment
    ensures InBounds(m, q, 4) && TidyOffset(m, q)
  {}

  lemma StartTidy(lim: Limits, m: bytes, c: Counters, table: nat)
    requires VerifyTableStart(lim, m, c, table).ok && lim.checkAlignment && |m| < TWO63
    ensures InBounds(m, table, 4) && TidyStart(m, table)
  {
    hide ReadScalar, GetVTable;
    VTableNoWrap(lim, m, table);
  }

  /** Addition of counts modulo 2^32, as the 32-bit counter makes it. */
  function Count(c: Counters, n: nat): Counters {
    c.(tables := (c.tables + n) % TWO32)
  }

  predicate InRange(c: Counters) {
    c.depth < TWO32 && c.tables < TWO32
  }

  /** A table that is started has been counted and is one level deeper. */
  predicate Entered(c: Counters, c': Counters) {
    c' == Counters((c.depth + 1) % TWO32, (c.tables + 1) % TWO32)
  }

  lemma StartCounts(lim: Limits, m: bytes, c: Counters, table: nat)
    requires VerifyTableStart(lim, m, c, table).ok
    ensures Entered(c, VerifyTableStart(lim, m, c, table).c)
  {}

  lemma CountsBalance(c: Counters, c': Counters, n: nat)
    requires InRange(c) && Entered(c, c')
    ensures InRange(c') && EndTable(Count(c', n)) == Count(c, 1 + n)
  {}

  lemma CountAdd(c: Counters, a: nat, b: nat)
    requires InRange(c)
    ensures InRange(Count(c, a)) && Count(Count(c, a), b) == Count(c, a + b) && Count(c, 0) == c
  {
    Wrapped(c.tables + a, b);
  }

  lemma Wrapped(x: nat, b: nat)
    ensures (x % TWO32 + b) % TWO32 == (x + b) % TWO32
  {
    var q := x / TWO32;
    assert x == x % TWO32 + TWO32 * q;
    WholeTurns(x % TWO32 + b, q);
  }

  lemma {:induction false} WholeTurns(x: nat, q: nat)
    ensures (x + TWO32 * q) % TWO32 == x % TWO32
  {
    if q > 0 {
      WholeTurns(x, q - 1);
    }
  }

  /** Counting n more tables does not go over the limit, and so does not wrap around either. */
  predicate Below(lim: Limits, c: Counters, n: nat) {
    lim.maxTables < TWO32 - 1 && c.tables <= lim.maxTables ==> c.tables + n <= lim.maxTables
  }

  lemma BelowAdd(lim: Limits, c: Counters, a: nat, b: nat)
    requires InRange(c) && Below(lim, c, a) && Below(lim, Count(c, a), b)
    ensures Below(lim, c, a + b)
  {}

  lemma BelowNone(lim: Limits, c: Counters)
    ensures Below(lim, c, 0)
  {}

  lemma BelowEntered(lim: Limits, m: bytes, c: Counters, table: nat, n: nat)
    requires InRange(c) && VerifyTableStart(lim, m, c, table).ok && Below(lim, VerifyTableStart(lim, m, c, table).c, n)
    ensures Below(lim, c, 1 + n)
  {}

  lemma {:induction false} SoundTable(s: Schema, lim: Limits, m: bytes, c: Counters, t: nat, table: nat)
    requires t < |s| && lim.checkAlignment && |m| < TWO63 && InRange(c)
    requires VerifyTable(s, lim, m, c, t, table).ok
    ensures SafeTable(s, m, t, table) && TidyTable(s, m, t, table)
    ensures VerifyTable(s, lim, m, c, t, table).c == Count(c, Visits(s, m, t, table))
    ensures Below(lim, c, Visits(s, m, t, table))
    decreases Left(m, table), 3, 0
  {
    hide Below, SafeField, TidyField, TidyStart, VerifyTableStart, VerifyFields, FieldVisits, EndTable, Count;
    var v := VerifyTableStart(lim, m, c, table);
    StartCounts(lim, m, c, table);
    StartTidy(lim, m, c, table);
    SoundFields(s, lim, m, v.c, t, table, 0, c);
    CountsBalance(c, v.c, FieldVisits(s, m, t, table, 0));
    BelowEntered(lim, m, c, table, FieldVisits(s, m, t, table, 0));
  }

  lemma {:induction false} SoundFields(s: Schema, lim: Limits, m: bytes, c: Counters, t: nat, table: nat, i: nat,
                                       c0: Counters)
    requires t < |s| && i <= |s[t]| && lim.checkAlignment && |m| < TWO63 && InRange(c)
    requires VerifyTableStart(lim, m, c0, table).ok
    requires VerifyFields(s, lim, m, c, t, table, i, c0).ok
    ensures InBounds(m, table, 4)
    ensures forall j | i <= j < |s[t]| ::
              ClosedField(s[t][j], |s|) && SafeField(s, m, s[t][j], table, j) && TidyField(s, m, s[t][j], table, j)
    ensures SafeTable(s, m, t, table) ==>
            VerifyFields(s, lim, m, c, t, table, i, c0).c == Count(c, FieldVisits(s, m, t, table, i))
    ensures SafeTable(s, m, t, table) ==> Below(lim, c, FieldVisits(s, m, t, table, i))
    decreases Left(m, table), 2, |s[t]| - i
  {
    hide Below, VerifyTableStart, VerifyField, SafeField, TidyField, OneFieldVisits, Count;
    CountAdd(c, 0, 0);
    BelowNone(lim, c);
    assert InBounds(m, table, 4) by {
      StartedIsReadable(lim, m, c0, table, 0);
    }
    if i < |s[t]| {
      StartedIsReadable(lim, m, c0, table, i);
      assert ClosedField(s[t][i], |s|);
      var v := VerifyField(s, lim, m, c, s[t][i], table, i);
      SoundField(s, lim, m, c, s[t][i], table, i);
      var n := OneFieldVisits(s, m, s[t][i], table, i);
      CountAdd(c, n, 0);
      SoundFields(s, lim, m, v.c, t, table, i + 1, c0);
      if SafeTable(s, m, t, table) {
        CountAdd(c, n, FieldVisits(s, m, t, table, i + 1));
        BelowAdd(lim, c, n, FieldVisits(s, m, t, table, i + 1));
      }
    }
  }

  lemma {:induction false} SoundField(s: Schema, lim: Limits, m: bytes, c: Counters, f: FieldType, table: nat, i: nat)
    requires ClosedField(f, |s|) && lim.checkAlignment && |m| < TWO63 && InRange(c) && InBounds(m, table, 4)
    requires FieldReadable(m, table, FieldIndexToOffset(i))
    requires VerifyField(s, lim, m, c, f, table, i).ok
    ensures SafeField(s, m, f, table, i) && TidyField(s, m, f, table, i)
    ensures VerifyField(s, lim, m, c, f, table, i).c == Count(c, OneFieldVisits(s, m, f, table, i))
    ensures Below(lim, c, OneFieldVisits(s, m, f, table, i))
    decreases Left(m, table), 1, 0
  {
    hide Below, FieldReadable, VerifyString, SafeString, VerifyStrings, VerifyOffset,
         VerifyTable, VerifyTables, Visits, ElementVisits, SafeTable, TidyTable, TidyVector, TidyOffset,
         VerifyVectorOrString;
    BelowNone(lim, c);
    var o := GetOptionalFieldOffset(m, table, FieldIndexToOffset(i));
    if o != 0 && !f.ScalarField? {
      OffsetTidy(lim, m, table + o);
      var p := Follow(m, table + o);
      match f
      case StringField => SoundString(lim, m, p);
      case TableField(t) => SoundTable(s, lim, m, c, t, p);
      case TableVector(t) =>
        VectorTidy(lim, m, p);
        SoundTables(s, lim, m, c, t, p, 0);
      case StringVector =>
        VectorTidy(lim, m, p);
        SoundStrings(lim, m, p, 0);
    }
  }

  lemma {:induction false} SoundTables(s: Schema, lim: Limits, m: bytes, c: Counters, t: nat, vec: nat, k: nat)
    requires t < |s| && lim.checkAlignment && |m| < TWO63 && InRange(c)
    requires SafeVector(m, vec) && k <= VectorSize(m, vec)
    requires VerifyTables(s, lim, m, c, t, vec, k).ok
    ensures forall j: nat | k <= j < VectorSize(m, vec) ::
              SafeTable(s, m, t, VectorGet(m, vec, j)) && TidyTable(s, m, t, VectorGet(m, vec, j))
    ensures (forall j: nat | j < VectorSize(m, vec) :: SafeTable(s, m, t, VectorGet(m, vec, j))) ==>
              VerifyTables(s, lim, m, c, t, vec, k).c == Count(c, ElementVisits(s, m, t, vec, k)) &&
              Below(lim, c, ElementVisits(s, m, t, vec, k))
    decreases Left(m, vec), 1, VectorSize(m, vec) - k
  {
    hide Below, VerifyTable, SafeTable, TidyTable, Visits, Count;
    CountAdd(c, 0, 0);
    BelowNone(lim, c);
    if k < VectorSize(m, vec) {
      var p := VectorGet(m, vec, k);
      var v := VerifyTable(s, lim, m, c, t, p);
      SoundTable(s, lim, m, c, t, p);
      CountAdd(c, Visits(s, m, t, p), 0);
      SoundTables(s, lim, m, v.c, t, vec, k + 1);
      if forall j: nat | j < VectorSize(m, vec) :: SafeTable(s, m, t, VectorGet(m, vec, j)) {
        CountAdd(c, Visits(s, m, t, p), ElementVisits(s, m, t, vec, k + 1));
        BelowAdd(lim, c, Visits(s, m, t, p), ElementVisits(s, m, t, vec, k + 1));
      }
    }
  }

  /** An accepted buffer can be read from its root on, wherever the accessors lead. */
  lemma SoundBuffer(s: Schema, lim: Limits, m: bytes, t: nat, ident: Option<bytes>)
    requires t < |s| && lim.checkAlignment && |m| < TWO63
    requires VerifyBuffer(s, lim, m, t, ident)
    ensures InBounds(m, 0, 4) && 0 < GetRoot(m) < |m| && SafeTable(s, m, t, GetRoot(m))
    ensures TidyOffset(m, 0) && TidyTable(s, m, t, GetRoot(m))
    ensures lim.maxTables < TWO32 - 1 ==> Visits(s, m, t, GetRoot(m)) <= lim.maxTables
    ensures ident.Some? ==> HasIdentifier(m, 0, ident.value)
  {
    OffsetTidy(lim, m, 0);
    SoundTable(s, lim, m, Counters(0, 0), t, VerifyOffset(lim, m, 0));
  }

  lemma SoundSizePrefixedBuffer(s: Schema, lim: Limits, m: bytes, t: nat, ident: Option<bytes>)
    requires t < |s| && lim.checkAlignment && |m| < TWO63
    requires VerifySizePrefixedBuffer(s, lim, m, t, ident)
    ensures InBounds(m, 4, 4) && 4 < GetSizePrefixedRoot(m) < |m| && SafeTable(s, m, t, GetSizePrefixedRoot(m))
    ensures TidyOffset(m, 4) && TidyTable(s, m, t, GetSizePrefixedRoot(m))
    ensures lim.maxTables < TWO32 - 1 ==> Visits(s, m, t, GetSizePrefixedRoot(m)) <= lim.maxTables
    ensures ReadScalar(m, 0, 4) == |m| - 4
    ensures ident.Some? ==> HasIdentifier(m, 4, ident.value)
  {
    OffsetTidy(lim, m, 4);
    SoundTable(s, lim, m, Counters(0, 0), t, 4 + VerifyOffset(lim, m, 4));
  }

  // The Verifier's own reads. All reads of a verification are made behind a range check, except those
  // of the comparison with an identifier.

  /** The j-th character, in the buffer, differs or ends both strings. */
  predicate EndsAt(m: bytes, p: nat, ident: bytes, j: nat) {
    p + j < |m| && (m[p + j] != CharAt(ident, j) || m[p + j] == 0)
  }

  lemma {:induction false} ComparisonStops(m: bytes, p: nat, ident: bytes, k: nat)
    requires k <= 4 && p + k <= |m|
    ensures CompareIdentifier(m, p, ident, k).Some? <==>
            p + 4 <= |m| || exists j | k <= j < 4 :: EndsAt(m, p, ident, j)
    decreases 4 - k
  {
    if k < 4 && !EndsAt(m, p, ident, k) && p + k < |m| {
      ComparisonStops(m, p, ident, k + 1);
    }
  }

  /** VerifyBuffer never looks outside the buffer. */
  lemma BufferComparesInside(m: bytes, ident: Option<bytes>)
    ensures ComparesInside(m, 0, ident)
  {
    if ident.Some? && |m| >= 8 {
      ComparisonStops(m, 4, ident.value, 0);
    }
  }

  /** VerifySizePrefixedBuffer asks for eight bytes before it compares bytes 8 to 11. It stays inside
    * exactly when there is no identifier, or it gets no further than the prefix or the size, or the
    * buffer has twelve bytes, or the comparison comes to an end before the buffer does. */
  lemma SizePrefixedComparesInside(lim: Limits, m: bytes, ident: Option<bytes>)
    ensures (PrefixPasses(lim, m) ==> ComparesInside(m, 4, ident)) <==>
            || ident.None? || !PrefixPasses(lim, m) || |m| < 8 || |m| >= 12
            || exists j | 0 <= j < 4 :: EndsAt(m, 8, ident.value, j)
  {
    if ident.Some? && |m| >= 8 {
      ComparisonStops(m, 8, ident.value, 0);
    }
  }

  /** Eight bytes with the right prefix make it look behind the buffer, whatever the identifier. */
  lemma EightByteBuffer(lim: Limits, rest: bytes, ident: bytes)
    requires |rest| == 4
    ensures PrefixPasses(lim, [4, 0, 0, 0] + rest) && !ComparesInside([4, 0, 0, 0] + rest, 4, Some(ident))
  {
    var m := [4, 0, 0, 0] + rest;
    assert m[0..4] == [4, 0, 0, 0];
    FourBytes(4, 0, 0, 0);
    AlignedSelf(4);
  }

  /** An identifier of four characters is found exactly where its bytes are. */
  lemma IdentifierFound(m: bytes, start: nat, ident: bytes)
    requires |ident| == 4 && start + 8 <= |m| && 0 !in ident
    ensures HasIdentifier(m, start, ident) <==> m[start + 4..start + 8] == ident
  {
    var p := start + 4;
    var s := m[p..p + 4];
    assert forall k | 0 <= k < 4 :: s[k] == m[p + k] && ident[k] in ident;
    IdentifierSuffix(m, p, ident, 0);
  }

  lemma {:induction false} IdentifierSuffix(m: bytes, p: nat, ident: bytes, k: nat)
    requires |ident| == 4 && p + 4 <= |m| && k <= 4
    requires forall j | 0 <= j < 4 :: ident[j] != 0
    ensures CompareIdentifier(m, p, ident, k) == Some(true) <==> m[p + k..p + 4] == ident[k..]
    decreases 4 - k
  {
    if k < 4 {
      var s, t := m[p + k..p + 4], ident[k..];
      assert s == [m[p + k]] + m[p + k + 1..p + 4] && t == [ident[k]] + ident[k + 1..];
      IdentifierSuffix(m, p, ident, k + 1);
      assert s[0] == m[p + k] && t[0] == ident[k] && s[1..] == m[p + k + 1..p + 4] && t[1..] == ident[k + 1..];
    }
  }

  /** Without alignment checks a vtable may have an odd size. All fields can then be looked up exactly
    * when the size is even or the buffer goes on for one more byte. */
  lemma OddVTable(lim: Limits, m: bytes, c: Counters, table: nat)
    requires !lim.checkAlignment && |m| < TWO63 && VerifyTableStart(lim, m, c, table).ok
    ensures var vt := GetVTable(m, table);
            && InBounds(m, vt, 2)
            && var size := ReadScalar(m, vt, 2);
            (forall i: nat :: FieldReadable(m, table, FieldIndexToOffset(i)))
              <==> size % 2 == 0 || size < 4 || vt + size < |m|
  {
    VTableNoWrap(lim, m, table);
    var vt := GetVTable(m, table);
    var size := ReadScalar(m, vt, 2);
    if size % 2 == 1 && size >= 4 && vt + size == |m| {
      assert FieldIndexToOffset((size - 5) / 2) == size - 1;
      assert !FieldReadable(m, table, FieldIndexToOffset((size - 5) / 2));
    }
  }

  /** The smallest such buffer: the table's vtable, of size 5, is the end of the buffer. It is started
    * without alignment checks, and its first field cannot be looked up inside. */
  lemma OddVTableBuffer(lim: Limits, c: Counters)
    requires !lim.checkAlignment && c.depth + 1 <= lim.maxDepth < TWO32 && c.tables + 1 <= lim.maxTables < TWO32
    ensures var m := [0xFC, 0xFF, 0xFF, 0xFF, 5, 0, 0, 0, 0];
            && VerifyTableStart(lim, m, c, 0).ok
            && !FieldReadable(m, 0, FieldIndexToOffset(0))
  {
    hide ReadScalar;
    var m: bytes := [0xFC, 0xFF, 0xFF, 0xFF, 5, 0, 0, 0, 0];
    OddWords(m);
    Pow256Values();
  }

  lemma OddWords(m: bytes)
    requires m == [0xFC, 0xFF, 0xFF, 0xFF, 5, 0, 0, 0, 0]
    ensures ReadScalar(m, 0, 4) == TWO32 - 4 && ReadScalar(m, 4, 2) == 5
  {
    hide Decode;
    FourBytes(0xFC, 0xFF, 0xFF, 0xFF);
    TwoBytes(5, 0);
    assert m[0..4] == [0xFC, 0xFF, 0xFF, 0xFF] && m[4..6] == [5, 0];
  }

  lemma TwoBytes(a: byte, b: byte)
    ensures Decode([a, b]) == a + 0x100 * b
  {
    assert [a, b][1..] == [b] && [b][1..] == [];
  }

  lemma FourBytes(a: byte, b: byte, c: byte, d: byte)
    ensures Decode([a, b, c, d]) == a + 0x100 * b + 0x1_0000 * c + 0x100_0000 * d
  {
    assert [a, b, c, d][1..] == [b, c, d] && [b, c, d][1..] == [c, d];
    TwoBytes(c, d);
  }
}
