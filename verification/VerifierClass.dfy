/** The Verifier class: counters updated in place, loops over vectors. Each method is proved to
  * compute the function of the same name in Verification. */
module Verifiers {
  import opened Bytes
  import opened Tables
  import V = Verification

  class Verifier {
    const buf: bytes
    const lim: V.Limits
    var depth: nat
    var numTables: nat

    ghost function Counters(): V.Counters
      reads this
    {
      V.Counters(depth, numTables)
    }

    constructor (buf: bytes, lim: V.Limits)
      requires |buf| < MAX_BUFFER_SIZE
      ensures this.buf == buf && this.lim == lim && Counters() == V.Counters(0, 0)
    {
      this.buf, this.lim := buf, lim;
      depth, numTables := 0, 0;
    }

    method VerifyComplexity() returns (ok: bool)
      modifies this
      ensures V.Verdict(ok, Counters()) == V.VerifyComplexity(lim, old(Counters()))
    {
      depth := (depth + 1) % TWO32;
      numTables := (numTables + 1) % TWO32;
      ok := depth <= lim.maxDepth && numTables <= lim.maxTables;
    }

    method EndTable() returns (ok: bool)
      modifies this
      ensures ok && Counters() == V.EndTable(old(Counters()))
    {
      depth := (depth - 1) % TWO32;
      ok := true;
    }

    method VerifyTableStart(table: nat) returns (ok: bool)
      modifies this
      ensures V.Verdict(ok, Counters()) == V.VerifyTableStart(lim, buf, old(Counters()), table)
    {
      if !V.VerifyScalar(lim, buf, table, 4) {
        return false;
      }
      var vtable := V.VTablePosition(buf, table);
      ok := VerifyComplexity();
      ok := ok && V.VerifyVTable(lim, buf, vtable);
    }

    method VerifyVectorOfStrings(vec: nat) returns (ok: bool)
      requires InBounds(buf, vec, 4) && InBounds(buf, vec, 4 + 4 * VectorSize(buf, vec))
      ensures ok == V.VerifyStrings(lim, buf, vec, 0)
    {
      for i := 0 to VectorSize(buf, vec)
        invariant V.VerifyStrings(lim, buf, vec, 0) == V.VerifyStrings(lim, buf, vec, i)
      {
        if !V.VerifyString(lim, buf, VectorGet(buf, vec, i)) {
          return false;
        }
      }
      return true;
    }

    method VerifyVectorOfTables(s: V.Schema, t: nat, vec: nat) returns (ok: bool)
      requires t < |s| && lim.checkAlignment && |buf| < TWO63
      requires InBounds(buf, vec, 4) && InBounds(buf, vec, 4 + 4 * VectorSize(buf, vec))
      modifies this
      ensures V.Verdict(ok, Counters()) == V.VerifyTables(s, lim, buf, old(Counters()), t, vec, 0)
      decreases V.Left(buf, vec), 1, 0
    {
      for i := 0 to VectorSize(buf, vec)
        invariant V.VerifyTables(s, lim, buf, old(Counters()), t, vec, 0)
                  == V.VerifyTables(s, lim, buf, Counters(), t, vec, i)
      {
        ok := VerifyTable(s, t, VectorGet(buf, vec, i));
        if !ok {
          return;
        }
      }
      return true;
    }

    /** The checks of one field, as the generated code makes them for its type. */
    method VerifyField(s: V.Schema, f: V.FieldType, table: nat, i: nat) returns (ok: bool)
      requires V.ClosedField(f, |s|) && lim.checkAlignment && |buf| < TWO63
      requires FieldReadable(buf, table, FieldIndexToOffset(i))
      modifies this
      ensures V.Verdict(ok, Counters()) == V.VerifyField(s, lim, buf, old(Counters()), f, table, i)
      decreases V.Left(buf, table), 1, 1
    {
      var o := GetOptionalFieldOffset(buf, table, FieldIndexToOffset(i));
      if o == 0 {
        return true;
      }
      if f.ScalarField? {
        return V.VerifyRange(buf, table + o, f.w);
      }
      if V.VerifyOffset(lim, buf, table + o) == 0 {
        return false;
      }
      var p := Follow(buf, table + o);
      match f
      case StringField => ok := V.VerifyString(lim, buf, p);
      case TableField(t) => ok := VerifyTable(s, t, p);
      case TableVector(t) =>
        if V.VerifyVectorOrString(lim, buf, p, 4).None? {
          return false;
        }
        ok := VerifyVectorOfTables(s, t, p);
      case StringVector =>
        if V.VerifyVectorOrString(lim, buf, p, 4).None? {
          return false;
        }
        ok := VerifyVectorOfStrings(p);
    }

    method VerifyTable(s: V.Schema, t: nat, table: nat) returns (ok: bool)
      requires t < |s| && lim.checkAlignment && |buf| < TWO63
      modifies this
      ensures V.Verdict(ok, Counters()) == V.VerifyTable(s, lim, buf, old(Counters()), t, table)
      decreases V.Left(buf, table), 3, 0
    {
      ok := VerifyTableStart(table);
      if !ok {
        return;
      }
      ghost var c := Counters();
      for i := 0 to |s[t]|
        invariant V.VerifyFields(s, lim, buf, c, t, table, 0, old(Counters()))
               == V.VerifyFields(s, lim, buf, Counters(), t, table, i, old(Counters()))
      {
        V.StartedIsReadable(lim, buf, old(Counters()), table, i);
        assert V.ClosedField(s[t][i], |s|);
        ok := VerifyField(s, s[t][i], table, i);
        if !ok {
          return;
        }
      }
      ok := EndTable();
    }

    method VerifyBufferFromStart(s: V.Schema, t: nat, ident: Option<bytes>, start: nat) returns (ok: bool)
      requires t < |s| && lim.checkAlignment && |buf| < TWO63
      modifies this
      ensures V.Verdict(ok, Counters()) == V.VerifyBufferFromStart(s, lim, buf, old(Counters()), t, ident, start)
    {
      if ident.Some? && !(|buf| >= 8 && V.HasIdentifier(buf, start, ident.value)) {
        return false;
      }
      var o := V.VerifyOffset(lim, buf, start);
      if o == 0 {
        return false;
      }
      ok := VerifyTable(s, t, start + o);
    }
  }
}
