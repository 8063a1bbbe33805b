/** Exactly which byte strings the Verifier accepts, with alignment checking on: those whose reads are
  * safe from the root on, whose parts are aligned and of the sizes allowed, and whose nesting and number
  * of tables are within the limits. In which order the checks are made does not matter. */
module Acceptance {
  import opened Bytes
  import opened Padding
  import opened Tables
  import opened Verification
  import opened VerifierSoundness

  /** How deep tables are nested and how many there are, along a schema. */
  datatype Extent = Extent(height: nat, tables: nat)

  function Beside(a: Extent, b: Extent): Extent {
    Extent(Max(a.height, b.height), a.tables + b.tables)
  }

  ghost function TableSpan(s: Schema, m: bytes, t: nat, p: int): Extent
    requires t < |s| && SafeTable(s, m, t, p)
    decreases Left(m, p), 3, 0
  {
    var e := FieldsSpan(s, m, t, p, 0);
    Extent(e.height + 1, e.tables + 1)
  }

  ghost function FieldsSpan(s: Schema, m: bytes, t: nat, p: int, i: nat): Extent
    requires t < |s| && i <= |s[t]| && InBounds(m, p, 4)
    requires forall j | i <= j < |s[t]| :: ClosedField(s[t][j], |s|) && SafeField(s, m, s[t][j], p, j)
    decreases Left(m, p), 2, |s[t]| - i
  {
    if i == |s[t]| then Extent(0, 0)
    else Beside(FieldSpan(s, m, s[t][i], p, i), FieldsSpan(s, m, t, p, i + 1))
  }

  ghost function FieldSpan(s: Schema, m: bytes, f: FieldType, p: int, i: nat): Extent
    requires ClosedField(f, |s|) && InBounds(m, p, 4) && SafeField(s, m, f, p, i)
    decreases Left(m, p), 1, 0
  {
    var o := GetOptionalFieldOffset(m, p, FieldIndexToOffset(i));
    if o == 0 then Extent(0, 0)
    else match f
      case TableField(t) => TableSpan(s, m, t, Follow(m, p + o))
      case TableVector(t) => ElementsSpan(s, m, t, Follow(m, p + o), 0)
      case _ => Extent(0, 0)
  }

  ghost function ElementsSpan(s: Schema, m: bytes, t: nat, vec: int, k: nat): Extent
    requires t < |s| && SafeVector(m, vec) && k <= VectorSize(m, vec)
    requires forall j: nat | k <= j < VectorSize(m, vec) :: SafeTable(s, m, t, VectorGet(m, vec, j))
    decreases Left(m, vec), 1, VectorSize(m, vec) - k
  {
    if k == VectorSize(m, vec) then Extent(0, 0)
    else Beside(TableSpan(s, m, t, VectorGet(m, vec, k)), ElementsSpan(s, m, t, vec, k + 1))
  }

  // Counters

  /** The counters leave room for the extent. */
  predicate Room(lim: Limits, c: Counters, e: Extent) {
    c.depth + e.height <= lim.maxDepth && c.tables + e.tables <= lim.maxTables
  }

  function Passed(c: Counters, e: Extent): Verdict {
    Verdict(true, c.(tables := c.tables + e.tables))
  }

  /** The counters are within the limits, which are far from wrapping around. */
  predicate Within(lim: Limits, c: Counters) {
    && c.depth <= lim.maxDepth < TWO32 - 1 && c.tables <= lim.maxTables < TWO32 - 1
  }

  lemma StartNeedsRoom(lim: Limits, m: bytes, c: Counters, table: nat)
    requires Within(lim, c) && VerifyTableStart(lim, m, c, table).ok
    ensures VerifyTableStart(lim, m, c, table).c == Counters(c.depth + 1, c.tables + 1)
    ensures Within(lim, Counters(c.depth + 1, c.tables + 1))
  {}

  lemma NoExtentNeedsNone(lim: Limits, c: Counters)
    requires Within(lim, c)
    ensures Room(lim, c, Extent(0, 0))
  {}

  /** Room for one part, and then for the rest, is room for both. */
  lemma RoomBeside(lim: Limits, c: Counters, a: Extent, b: Extent)
    requires Room(lim, c, a) && Room(lim, Passed(c, a).c, b)
    ensures Room(lim, c, Beside(a, b))
  {}

  lemma PassedWithin(lim: Limits, c: Counters, e: Extent)
    requires Within(lim, c) && Room(lim, c, e)
    ensures Within(lim, Passed(c, e).c)
  {}

  lemma RoomOfBeside(lim: Limits, c: Counters, a: Extent, b: Extent)
    ensures Room(lim, c, Beside(a, b)) <==> Room(lim, c, a) && Room(lim, Passed(c, a).c, b)
    ensures Passed(Passed(c, a).c, b) == Passed(c, Beside(a, b))
  {}

  // The checks one by one.

  lemma OffsetAccepted(lim: Limits, m: bytes, q: nat)
    requires lim.checkAlignment
    ensures VerifyOffset(lim, m, q) != 0 <==> 4 < |m| && InBounds(m, q, 4) && TidyOffset(m, q) && Follow(m, q) < |m|
  {}

  lemma VectorAccepted(lim: Limits, m: bytes, p: nat, elemSize: nat)
    requires lim.checkAlignment && 0 < p && 0 < elemSize
    ensures VerifyVectorOrString(lim, m, p, elemSize).Some? <==>
            InBounds(m, p, 4) && InBounds(m, p, 4 + elemSize * VectorSize(m, p)) && TidyVector(m, p, elemSize)
  {}

  lemma StringAccepted(lim: Limits, m: bytes, p: nat)
    requires lim.checkAlignment && 0 < p
    ensures VerifyString(lim, m, p) <==> SafeString(m, p) && TidyVector(m, p, 1)
  {
    VectorAccepted(lim, m, p, 1);
  }

  lemma {:induction false} StringsAccepted(lim: Limits, m: bytes, vec: nat, k: nat)
    requires lim.checkAlignment && SafeVector(m, vec) && k <= VectorSize(m, vec)
    ensures VerifyStrings(lim, m, vec, k) <==>
            forall j: nat | k <= j < VectorSize(m, vec) ::
              SafeString(m, VectorGet(m, vec, j)) && TidyVector(m, VectorGet(m, vec, j), 1)
    decreases VectorSize(m, vec) - k
  {
    hide VerifyString, SafeString, TidyVector;
    if k < VectorSize(m, vec) {
      StringAccepted(lim, m, VectorGet(m, vec, k));
      StringsAccepted(lim, m, vec, k + 1);
    }
  }

  lemma StartAccepted(lim: Limits, m: bytes, c: Counters, p: nat)
    requires lim.checkAlignment && 0 < p && |m| < TWO63 && Within(lim, c)
    ensures VerifyTableStart(lim, m, c, p).ok <==>
            && InBounds(m, p, 4) && TidyStart(m, p)
            && c.depth + 1 <= lim.maxDepth && c.tables + 1 <= lim.maxTables
  {
    hide ReadScalar;
    Pow256Values();
    if InBounds(m, p, 4) && VerifyVTable(lim, m, VTablePosition(m, p)) {
      VTableNoWrap(lim, m, p);
    }
  }

  lemma StringInside(m: bytes, p: int)
    ensures SafeString(m, p) ==> InBounds(m, p, 4)
  {}

  lemma TableInside(s: Schema, m: bytes, t: nat, p: int)
    requires t < |s|
    ensures SafeTable(s, m, t, p) ==> InBounds(m, p, 4)
  {}

  lemma OffsetForward(m: bytes, q: nat)
    requires InBounds(m, q, 4) && TidyOffset(m, q)
    ensures q < Follow(m, q)
  {}

  // The recursion of the Verifier.

  ghost predicate TableAcceptable(s: Schema, lim: Limits, m: bytes, c: Counters, t: nat, p: int)
    requires t < |s|
  {
    SafeTable(s, m, t, p) && TidyTable(s, m, t, p) && Room(lim, c, TableSpan(s, m, t, p))
  }

  lemma {:induction false} TableAccepted(s: Schema, lim: Limits, m: bytes, c: Counters, t: nat, p: nat)
    requires t < |s| && lim.checkAlignment && |m| < TWO63 && Within(lim, c) && 0 < p
    ensures VerifyTable(s, lim, m, c, t, p).ok <==> TableAcceptable(s, lim, m, c, t, p)
    ensures VerifyTable(s, lim, m, c, t, p).ok ==> VerifyTable(s, lim, m, c, t, p) == Passed(c, TableSpan(s, m, t, p))
    decreases Left(m, p), 3, 0
  {
    hide VerifyTableStart, VerifyFields, SafeField, TidyField, TidyStart, FieldsSpan;
    StartAccepted(lim, m, c, p);
    if VerifyTableStart(lim, m, c, p).ok {
      StartNeedsRoom(lim, m, c, p);
      FieldsAccepted(s, lim, m, Counters(c.depth + 1, c.tables + 1), t, p, 0, c);
    }
  }

  ghost predicate FieldsAcceptable(s: Schema, lim: Limits, m: bytes, c: Counters, t: nat, p: int, i: nat)
    requires t < |s| && i <= |s[t]| && InBounds(m, p, 4)
  {
    && (forall j | i <= j < |s[t]| ::
          ClosedField(s[t][j], |s|) && SafeField(s, m, s[t][j], p, j) && TidyField(s, m, s[t][j], p, j))
    && Room(lim, c, FieldsSpan(s, m, t, p, i))
  }

  lemma {:induction false} FieldsAccepted(s: Schema, lim: Limits, m: bytes, c: Counters, t: nat, p: nat, i: nat,
                                          c0: Counters)
    requires t < |s| && i <= |s[t]| && lim.checkAlignment && |m| < TWO63 && Within(lim, c) && 0 < p
    requires VerifyTableStart(lim, m, c0, p).ok && InBounds(m, p, 4)
    ensures VerifyFields(s, lim, m, c, t, p, i, c0).ok <==> FieldsAcceptable(s, lim, m, c, t, p, i)
    ensures VerifyFields(s, lim, m, c, t, p, i, c0).ok ==>
              VerifyFields(s, lim, m, c, t, p, i, c0) == Passed(c, FieldsSpan(s, m, t, p, i))
    decreases Left(m, p), 2, |s[t]| - i
  {
    hide VerifyTableStart, VerifyField, SafeField, TidyField, FieldSpan, Room, Within;
    if i == |s[t]| {
      NoExtentNeedsNone(lim, c);
    } else {
      StartedIsReadable(lim, m, c0, p, i);
      assert ClosedField(s[t][i], |s|);
      FieldAccepted(s, lim, m, c, s[t][i], p, i);
      if VerifyField(s, lim, m, c, s[t][i], p, i).ok {
        var e := FieldSpan(s, m, s[t][i], p, i);
        PassedWithin(lim, c, e);
        FieldsAccepted(s, lim, m, Passed(c, e).c, t, p, i + 1, c0);
        if forall j | i < j < |s[t]| :: ClosedField(s[t][j], |s|) && SafeField(s, m, s[t][j], p, j) {
          RoomOfBeside(lim, c, e, FieldsSpan(s, m, t, p, i + 1));
        }
      } else if SafeField(s, m, s[t][i], p, i) &&
                forall j | i < j < |s[t]| :: ClosedField(s[t][j], |s|) && SafeField(s, m, s[t][j], p, j) {
        RoomOfBeside(lim, c, FieldSpan(s, m, s[t][i], p, i), FieldsSpan(s, m, t, p, i + 1));
      }
    }
  }

  ghost predicate FieldAcceptable(s: Schema, lim: Limits, m: bytes, c: Counters, f: FieldType, p: int, i: nat)
    requires ClosedField(f, |s|) && InBounds(m, p, 4)
  {
    SafeField(s, m, f, p, i) && TidyField(s, m, f, p, i) && Room(lim, c, FieldSpan(s, m, f, p, i))
  }

  lemma {:induction false} FieldAccepted(s: Schema, lim: Limits, m: bytes, c: Counters, f: FieldType, p: nat, i: nat)
    requires ClosedField(f, |s|) && lim.checkAlignment && |m| < TWO63 && Within(lim, c) && 0 < p && InBounds(m, p, 4)
    requires FieldReadable(m, p, FieldIndexToOffset(i))
    ensures VerifyField(s, lim, m, c, f, p, i).ok <==> FieldAcceptable(s, lim, m, c, f, p, i)
    ensures VerifyField(s, lim, m, c, f, p, i).ok ==>
              VerifyField(s, lim, m, c, f, p, i) == Passed(c, FieldSpan(s, m, f, p, i))
    decreases Left(m, p), 1, 0
  {
    hide FieldReadable, GetOptionalFieldOffset, VerifyString, SafeString, VerifyStrings, VerifyOffset, TidyOffset,
         TidyVector, VerifyVectorOrString, VerifyTable, VerifyTables, SafeTable, TidyTable, TableSpan, ElementsSpan,
         Within, Room;
    NoExtentNeedsNone(lim, c);
    var o := GetOptionalFieldOffset(m, p, FieldIndexToOffset(i));
    if o != 0 && !f.ScalarField? {
      OffsetAccepted(lim, m, p + o);
      if VerifyOffset(lim, m, p + o) != 0 {
        var q := Follow(m, p + o);
        match f
        case StringField => StringAccepted(lim, m, q);
        case TableField(t) => TableAccepted(s, lim, m, c, t, q);
        case TableVector(t) =>
          VectorAccepted(lim, m, q, 4);
          if VerifyVectorOrString(lim, m, q, 4).Some? {
            TablesAccepted(s, lim, m, c, t, q, 0);
          }
        case StringVector =>
          VectorAccepted(lim, m, q, 4);
          if VerifyVectorOrString(lim, m, q, 4).Some? {
            StringsAccepted(lim, m, q, 0);
          }
      } else if InBounds(m, p + o, 4) {
        StringInside(m, Follow(m, p + o));
        if f.TableField? {
          TableInside(s, m, f.t, Follow(m, p + o));
        }
      }
    }
  }

  ghost predicate TablesAcceptable(s: Schema, lim: Limits, m: bytes, c: Counters, t: nat, vec: int, k: nat)
    requires t < |s| && SafeVector(m, vec) && k <= VectorSize(m, vec)
  {
    && (forall j: nat | k <= j < VectorSize(m, vec) ::
          SafeTable(s, m, t, VectorGet(m, vec, j)) && TidyTable(s, m, t, VectorGet(m, vec, j)))
    && Room(lim, c, ElementsSpan(s, m, t, vec, k))
  }

  lemma {:induction false} TablesAccepted(s: Schema, lim: Limits, m: bytes, c: Counters, t: nat, vec: nat, k: nat)
    requires t < |s| && lim.checkAlignment && |m| < TWO63 && Within(lim, c)
    requires SafeVector(m, vec) && k <= VectorSize(m, vec)
    ensures VerifyTables(s, lim, m, c, t, vec, k).ok <==> TablesAcceptable(s, lim, m, c, t, vec, k)
    ensures VerifyTables(s, lim, m, c, t, vec, k).ok ==>
              VerifyTables(s, lim, m, c, t, vec, k) == Passed(c, ElementsSpan(s, m, t, vec, k))
    decreases Left(m, vec), 1, VectorSize(m, vec) - k
  {
    hide VerifyTable, SafeTable, TidyTable, TableSpan, Room, Within;
    if k == VectorSize(m, vec) {
      NoExtentNeedsNone(lim, c);
    } else {
      var p := VectorGet(m, vec, k);
      TableAccepted(s, lim, m, c, t, p);
      if VerifyTable(s, lim, m, c, t, p).ok {
        var e := TableSpan(s, m, t, p);
        PassedWithin(lim, c, e);
        TablesAccepted(s, lim, m, Passed(c, e).c, t, vec, k + 1);
        if forall j: nat | k < j < VectorSize(m, vec) :: SafeTable(s, m, t, VectorGet(m, vec, j)) {
          RoomOfBeside(lim, c, e, ElementsSpan(s, m, t, vec, k + 1));
        }
      } else if SafeTable(s, m, t, p) &&
                forall j: nat | k < j < VectorSize(m, vec) :: SafeTable(s, m, t, VectorGet(m, vec, j)) {
        RoomOfBeside(lim, c, TableSpan(s, m, t, p), ElementsSpan(s, m, t, vec, k + 1));
      }
    }
  }

  /** The root offset at start, 0 or behind a size prefix, leads to an acceptable table. */
  ghost predicate RootAcceptable(s: Schema, lim: Limits, m: bytes, t: nat, start: nat)
    requires t < |s|
  {
    InBounds(m, start, 4) && TidyOffset(m, start) && TableAcceptable(s, lim, m, Counters(0, 0), t, Follow(m, start))
  }

  predicate IdentifierAcceptable(m: bytes, ident: Option<bytes>, start: nat) {
    ident.Some? ==> |m| >= 8 && HasIdentifier(m, start, ident.value)
  }

  lemma FromStartAccepted(s: Schema, lim: Limits, m: bytes, t: nat, ident: Option<bytes>, start: nat)
    requires t < |s| && lim.checkAlignment && |m| < TWO63 && lim.maxDepth < TWO32 - 1 && lim.maxTables < TWO32 - 1
    ensures VerifyBufferFromStart(s, lim, m, Counters(0, 0), t, ident, start).ok <==>
            IdentifierAcceptable(m, ident, start) && RootAcceptable(s, lim, m, t, start)
  {
    hide VerifyTable, SafeTable, TidyTable, TableSpan, HasIdentifier, VerifyOffset, TidyOffset;
    OffsetAccepted(lim, m, start);
    if VerifyOffset(lim, m, start) != 0 {
      TableAccepted(s, lim, m, Counters(0, 0), t, Follow(m, start));
    } else if InBounds(m, start, 4) && TidyOffset(m, start) {
      TableInside(s, m, t, Follow(m, start));
      OffsetForward(m, start);
    }
  }

  /** Exactly which buffers VerifyBuffer accepts. */
  lemma BufferAccepted(s: Schema, lim: Limits, m: bytes, t: nat, ident: Option<bytes>)
    requires t < |s| && lim.checkAlignment && |m| < TWO63 && lim.maxDepth < TWO32 - 1 && lim.maxTables < TWO32 - 1
    ensures VerifyBuffer(s, lim, m, t, ident) <==>
            IdentifierAcceptable(m, ident, 0) && RootAcceptable(s, lim, m, t, 0)
  {
    hide VerifyBufferFromStart, IdentifierAcceptable, RootAcceptable;
    FromStartAccepted(s, lim, m, t, ident, 0);
  }

  /** And VerifySizePrefixedBuffer. */
  lemma SizePrefixedAccepted(s: Schema, lim: Limits, m: bytes, t: nat, ident: Option<bytes>)
    requires t < |s| && lim.checkAlignment && |m| < TWO63 && lim.maxDepth < TWO32 - 1 && lim.maxTables < TWO32 - 1
    ensures VerifySizePrefixedBuffer(s, lim, m, t, ident) <==>
            && 4 < |m| && ReadScalar(m, 0, 4) == |m| - 4
            && IdentifierAcceptable(m, ident, 4) && RootAcceptable(s, lim, m, t, 4)
  {
    hide VerifyBufferFromStart, IdentifierAcceptable, RootAcceptable;
    AlignedSelf(4);
    FromStartAccepted(s, lim, m, t, ident, 4);
  }
}
