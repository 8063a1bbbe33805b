/** Runs of the builder from their start to a finished buffer. */
module FinishedRuns {
  import opened Bytes
  import opened Padding
  import opened Tables
  import opened Objects
  import opened Builder
  import opened Creation
  import opened VTables
  import opened SharedStrings
  import opened Runs
  import opened Finishing
  import V = Verification
  import opened VerifierSoundness
  import opened BuiltVerifies
  import opened Acceptance
  import opened Alignments

  /** Sharing vtables or not, the same run creates the same objects. */
  lemma DedupKeepsMeaning(force: bool, cs: seq<Command>, on: (State, seq<nat>), off: (State, seq<nat>))
    requires var st := EMPTY.(forceDefaults := force, dedup := true); LegalRun(st, [], cs) && on == Run(st, [], cs)
    requires var st := EMPTY.(forceDefaults := force, dedup := false); LegalRun(st, [], cs) && off == Run(st, [], cs)
    ensures AllHold(on.0.msg, on.1, Meanings([], force, cs)) && AllHold(off.0.msg, off.1, Meanings([], force, cs))
  {
    hide Inv, HoldsAt, LegalRun, Run, Meanings;
    InvInitially(force, true);
    InvInitially(force, false);
    RunHolds(EMPTY.(forceDefaults := force, dedup := true), [], [], cs, on.0, on.1);
    RunHolds(EMPTY.(forceDefaults := force, dedup := false), [], [], cs, off.0, off.1);
  }

  /** Any run, in any order and with any sharing, finished with any object that conforms to a schema as
    * its root: the buffer is accepted, every access from its root on stays inside, the root reads as the
    * object that was created, and every scalar, length and offset of it lies at a position that its
    * size divides. */
  lemma FinishedRun(s: V.Schema, t: nat, force: bool, dedup: bool, cs: seq<Command>, i: nat, ident: Option<bytes>,
                    sizePrefix: bool,
                    st: State, offs: seq<nat>, m: bytes)
    requires LegalRun(EMPTY.(forceDefaults := force, dedup := dedup), [], cs)
    requires (st, offs) == Run(EMPTY.(forceDefaults := force, dedup := dedup), [], cs)
    requires var objs := Meanings([], force, cs);
             && i < |objs| && i < |offs| && t < |s| && Conforms(s, t, objs[i])
             && Room(V.DEFAULT_LIMITS, V.Counters(0, 0), TableExtent(s, t, objs[i]))
    requires ValidIdentifier(ident) && 0 < offs[i] <= |st.msg|
    requires m == Finish(st, offs[i], ident, sizePrefix).msg && |m| < MAX_BUFFER_SIZE
    ensures if sizePrefix then V.VerifySizePrefixedBuffer(s, V.DEFAULT_LIMITS, m, t, ident)
            else V.VerifyBuffer(s, V.DEFAULT_LIMITS, m, t, ident)
    ensures InBounds(m, RootPosition(sizePrefix), 4)
    ensures var p := if sizePrefix then GetSizePrefixedRoot(m) else GetRoot(m);
            && SafeTable(s, m, t, p) && Holds(m, p, Meanings([], force, cs)[i])
            && PartsAligned(m, p, Meanings([], force, cs)[i])
  {
    hide VTablesOk, PoolOk, HoldsAt, LegalRun, Run, Meanings, Conforms, TableExtent, Finish, V.VerifyBuffer,
         V.VerifySizePrefixedBuffer, SafeTable, Holds, PartsAligned, WidthsWithin, TidyTable, TidyOffset, Visits,
         V.HasIdentifier, Aligned, Suffix;
    var objs := Meanings([], force, cs);
    InvInitially(force, dedup);
    RunHolds(EMPTY.(forceDefaults := force, dedup := dedup), [], [], cs, st, offs);
    assert HoldsAt(st.msg, offs[i], objs[i]) && WidthsWithin(objs[i], st.minAlign);
    var r := Finish(st, offs[i], ident, sizePrefix);
    FinishedVerifies(s, V.DEFAULT_LIMITS, t, st, offs[i], objs[i], ident, sizePrefix, r);
    if sizePrefix {
      SoundSizePrefixedBuffer(s, V.DEFAULT_LIMITS, m, t, ident);
    } else {
      SoundBuffer(s, V.DEFAULT_LIMITS, m, t, ident);
    }
    FinishReads(st, offs[i], ident, sizePrefix, r);
    HoldsAtKept(st.msg, m, offs[i], objs[i]);
    HoldsThere(m, offs[i], objs[i]);
    FinishedIsAligned(st, offs[i], objs[i], ident, sizePrefix, m);
  }

  lemma HoldsThere(m: bytes, e: nat, x: Object)
    requires HoldsAt(m, e, x)
    ensures 0 < e <= |m| && Holds(m, |m| - e, x)
  {
    hide Holds;
  }
}
