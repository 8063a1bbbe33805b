/** The FlatBufferBuilder class: a vector_downward whose scratch pad holds the offsets of the vtables
  * in use, followed by the fields of the table under construction. Every method is proved to
  * compute the function of the same name in Builder. */
module FlatBufferBuilders {
  import opened Bytes
  import opened Padding
  import opened StringOrder
  import opened Tables
  import B = Builder
  import opened VectorDownwards
  import opened TableFields

  const FIELD_LOC_SIZE := 8

  /** FieldLoc as it lies in the scratch pad: a 32-bit offset, a 16-bit identifier, two unused bytes. */
  function EncodeLoc(l: B.FieldLoc): (s: bytes)
    ensures |s| == FIELD_LOC_SIZE
  {
    Encode(l.off, 4) + Encode(l.id, 2) + Zeros(2)
  }

  function EncodeLocs(locs: seq<B.FieldLoc>): (s: bytes)
    ensures |s| == FIELD_LOC_SIZE * |locs|
  {
    if locs == [] then [] else EncodeLocs(locs[..|locs| - 1]) + EncodeLoc(locs[|locs| - 1])
  }

  function EncodeOffsets(offs: seq<nat>): (s: bytes)
    ensures |s| == 4 * |offs|
  {
    if offs == [] then [] else EncodeOffsets(offs[..|offs| - 1]) + Encode(offs[|offs| - 1], 4)
  }

  lemma EncodeAppend(offs: seq<nat>, off: nat)
    ensures EncodeOffsets(offs + [off]) == EncodeOffsets(offs) + Encode(off, 4)
  {
    assert (offs + [off])[..|offs|] == offs;
  }

  lemma NoRecords(locs: seq<B.FieldLoc>)
    requires locs == []
    ensures EncodeLocs(locs) == []
  {}

  lemma {:induction false} LocAt(locs: seq<B.FieldLoc>, k: nat)
    requires k < |locs|
    ensures EncodeLocs(locs)[FIELD_LOC_SIZE * k..FIELD_LOC_SIZE * k + FIELD_LOC_SIZE] == EncodeLoc(locs[k])
  {
    var init := EncodeLocs(locs[..|locs| - 1]);
    if k < |locs| - 1 {
      LocAt(locs[..|locs| - 1], k);
      var at := FIELD_LOC_SIZE * k;
      assert EncodeLocs(locs)[at..at + FIELD_LOC_SIZE] == init[at..at + FIELD_LOC_SIZE];
    }
  }

  lemma {:induction false} OffsetAt(offs: seq<nat>, k: nat)
    requires k < |offs| && offs[k] < TWO32
    ensures ReadScalar(EncodeOffsets(offs), 4 * k, 4) == offs[k]
  {
    var init := EncodeOffsets(offs[..|offs| - 1]);
    if k < |offs| - 1 {
      OffsetAt(offs[..|offs| - 1], k);
      ReadPrefix(init, Encode(offs[|offs| - 1], 4), 4 * k, 4);
    } else {
      Pow256Values();
      assert init + Encode(offs[k], 4) == init + Encode(offs[k], 4) + [];
      ReadWritten(init, offs[k], 4, []);
    }
  }

  lemma LocReads(s: bytes, p: nat, l: B.FieldLoc)
    requires InBounds(s, p, FIELD_LOC_SIZE) && s[p..p + FIELD_LOC_SIZE] == EncodeLoc(l)
    requires l.off < TWO32 && l.id < 0x1_0000
    ensures ReadScalar(s, p, 4) == l.off && ReadScalar(s, p + 4, 2) == l.id
  {
    Pow256Values();
    var e := EncodeLoc(l);
    assert s[p..p + 4] == s[p..p + 8][..4] == e[..4] == Encode(l.off, 4);
    DecodeEncode(l.off, 4);
    VTableEntry(s, p, e, 4);
    ReadWritten(Encode(l.off, 4), l.id, 2, Zeros(2));
  }

  /** A store inside the front part of a message changes only that part. */
  lemma WriteFront(cur: bytes, m: bytes, pos: nat, s: bytes)
    requires pos + |s| <= |cur|
    ensures (cur + m)[..pos] + s + (cur + m)[pos + |s|..] == (cur[..pos] + s + cur[pos + |s|..]) + m
  {}

  /** The two stores over zeros make the header. */
  lemma HeaderStores(size: nat, tableSize: nat, m: bytes)
    requires size >= 4
    ensures var a := Zeros(size) + m;
            var b := a[..2] + Encode(tableSize, 2) + a[2 + |Encode(tableSize, 2)|..];
            b[..0] + Encode(size, 2) + b[0 + |Encode(size, 2)|..] == B.VTableHeader(size, tableSize) + m
  {
    hide Encode;
    WriteFront(Zeros(size), m, 2, Encode(tableSize, 2));
    var z := Zeros(size)[..2] + Encode(tableSize, 2) + Zeros(size)[4..];
    WriteFront(z, m, 0, Encode(size, 2));
    assert z[..0] + Encode(size, 2) + z[2..] == B.VTableHeader(size, tableSize);
  }

  lemma MadeVTable(p: B.State, start: nat, loc: nat)
    requires FieldsFit(p, start, loc)
    ensures start <= loc && B.LocsFit(p.locs, B.VTableSize(p), loc) && B.VTableSize(p) >= 4
    ensures B.MakeVTable(p, start, loc) == B.FillVTable(B.VTableHeader(B.VTableSize(p), loc - start), p.locs, loc)
  {
    hide B.FillVTable, B.VTableHeader;
  }

  lemma FillNone(cur: bytes, loc: nat)
    ensures B.FillVTable(cur, [], loc) == cur
  {}

  lemma FillStep(cur: bytes, locs: seq<B.FieldLoc>, k: nat, loc: nat)
    requires k < |locs| && B.LocsFit(locs[k..], |cur|, loc)
    ensures locs[k].id + 2 <= |cur| && locs[k].off <= loc && B.LocsFit(locs[k + 1..], |cur|, loc)
    ensures B.FillVTable(cur, locs[k..], loc)
         == B.FillVTable(B.WriteEntry(cur, locs[k].id, loc - locs[k].off), locs[k + 1..], loc)
  {
    assert locs[k..][0] == locs[k] && locs[k..][1..] == locs[k + 1..];
    var rest := locs[k + 1..];
    assert forall j | 0 <= j < |rest| :: rest[j] == locs[k..][j + 1];
  }

  lemma FindSkip(m: bytes, vtables: seq<nat>, j: nat, vt: bytes)
    requires j < |vtables| && !B.SameVTable(m, vtables[j], vt)
    ensures B.FindVTable(m, vtables[j..], vt) == B.FindVTable(m, vtables[j + 1..], vt)
  {
    assert vtables[j..][1..] == vtables[j + 1..];
  }

  lemma FindHere(m: bytes, vtables: seq<nat>, j: nat, vt: bytes)
    requires j < |vtables| && B.SameVTable(m, vtables[j], vt)
    ensures B.FindVTable(m, vtables[j..], vt) == Some(vtables[j])
  {}

  lemma FindEnds(m: bytes, vtables: seq<nat>, vt: bytes)
    ensures vtables[0..] == vtables && B.FindVTable(m, vtables[|vtables|..], vt) == None
  {}

  /** What sealing a table relies on. */
  lemma SealNeeds(p: B.State, start: nat)
    requires 4 <= |p.msg| && ReadyToSeal(p, p.msg[4..], start)
    ensures start <= |p.msg| && B.LocsFit(p.locs, B.VTableSize(p), |p.msg|) && FieldsFit(p, start, |p.msg|)
    ensures ValidVTables(p.msg, p.vtables) && forall v | v in p.vtables :: v < |p.msg|
  {
    hide Aligned;
    ValidVTablesShift(p.msg[..4], p.msg[4..], p.vtables);
    assert p.msg == p.msg[..4] + p.msg[4..];
  }

  lemma FitsLocs(p: B.State, start: nat, loc: nat)
    requires FieldsFit(p, start, loc)
    ensures start <= loc && B.LocsFit(p.locs, B.VTableSize(p), loc)
  {}

  /** The fields of the state that sealing a table leaves. */
  lemma SealTableIs(p: B.State, start: nat, r: B.State)
    requires 4 <= |p.msg| && start <= |p.msg| && B.LocsFit(p.locs, B.VTableSize(p), |p.msg|)
    requires var vt := B.MakeVTable(p, start, |p.msg|);
             var front := if B.Duplicate(p, vt).Some? then [] else vt;
             var use := VTableUsed(p, vt);
             && r.msg == front + B.Patch(p.msg, use)
             && r.vtables == if use == |front| + |p.msg| then p.vtables + [use] else p.vtables
    requires r == p.(msg := r.msg, vtables := r.vtables, locs := [], maxVoffset := 0, nested := false)
    ensures r == B.SealTable(p, start)
  {
    hide B.MakeVTable, B.Duplicate, B.Patch;
  }

  lemma PatchWrites(front: bytes, m: bytes, use: nat)
    requires 4 <= |m|
    ensures (front + m)[..|front|] + Encode(FromSigned32(use - |m|), 4) + (front + m)[|front| + 4..]
         == front + B.Patch(m, use)
  {}

  lemma TablePushed(st: B.State, start: nat, p: B.State)
    requires TableReady(st, start) && ValidVTables(st.msg, st.vtables)
    requires TableEnd(st) + B.VTableSize(st) < TWO31
    requires p == B.PushElement(st, 4, 0)
    ensures 4 <= |p.msg| && ReadyToSeal(p, p.msg[4..], start) && B.VTableSize(p) == B.VTableSize(st)
  {
    hide B.PushElement, Aligned, FieldsFit;
    PushReadies(st, start, p);
    PushElementFacts(st, 4, 0);
    var pre := p.msg[4..|p.msg| - |st.msg|];
    assert p.msg[4..] == pre + st.msg;
    ValidVTablesShift(pre, st.msg, st.vtables);
  }

  lemma {:induction false} PushOffsetsGrow(st: B.State, offs: seq<nat>, i: nat)
    requires i <= |offs| && B.AllRefersTo(st, offs)
    ensures B.AllRefersTo(st, offs[i..]) && |B.PushOffsets(st, offs[i..]).msg| <= |B.PushOffsets(st, offs).msg|
  {
    hide B.PushOffset;
    if i == 0 {
      assert offs[0..] == offs;
    } else {
      assert offs[1..][i - 1..] == offs[i..];
      PushOffsetsGrow(st, offs[1..], i - 1);
    }
  }

  lemma StringGrows(st: B.State, s: bytes)
    ensures var r := B.CreateString(st, s).0.msg;
            |st.msg| <= |r| && r[|r| - |st.msg|..] == st.msg
  {}

  lemma SharedStringIs(st: B.State, s: bytes, c: B.State, off: nat)
    requires (c, off) == B.CreateString(st, s)
    ensures B.CreateSharedString(st, s) ==
            match B.FindString(c.msg, c.pool, s)
            case Some(p) => (c.(msg := st.msg), p)
            case None => (c.(pool := c.pool + [off]), off)
  {
    hide B.CreateString, B.FindString;
  }

  /** The scratch pad has the offsets of the vtables, and behind them the records of the open table. */
  ghost predicate Recorded(scratch: bytes, vtables: seq<nat>, locs: seq<B.FieldLoc>) {
    && scratch == EncodeOffsets(vtables) + EncodeLocs(locs)
    && (forall k | 0 <= k < |vtables| :: vtables[k] < TWO32)
    && (forall k | 0 <= k < |locs| :: locs[k].off < TWO32 && locs[k].id < 0x1_0000)
  }

  lemma NothingRecorded(scratch: bytes)
    requires scratch == []
    ensures Recorded(scratch, [], [])
  {}

  class FlatBufferBuilder {
    const buf: VectorDownward
    var numFieldLoc: nat
    var maxVoffset: nat
    var nested: bool
    var finished: bool
    var minAlign: Alignment
    var forceDefaults: bool
    var dedupVtables: bool
    var stringPool: seq<nat>

    ghost var vtables: seq<nat>
    ghost var locs: seq<B.FieldLoc>

    ghost predicate Valid()
      reads this, buf, buf.buf
    {
      buf.Valid() && Recorded(buf.Scratch(), vtables, locs) && numFieldLoc == |locs|
    }

    ghost function State(): B.State
      requires Valid()
      reads this, buf, buf.buf
    {
      B.State(buf.Message(), vtables, locs, maxVoffset, nested, finished, minAlign,
              forceDefaults, dedupVtables, stringPool)
    }

    constructor (initialSize: nat, bufferMinAlign: Alignment)
      ensures Valid() && fresh(buf) && fresh(buf.buf)
      ensures State() == B.EMPTY
    {
      buf := new VectorDownward(initialSize, bufferMinAlign);
      numFieldLoc, maxVoffset := 0, 0;
      nested, finished := false, false;
      minAlign := 1;
      forceDefaults, dedupVtables := false, true;
      stringPool := [];
      vtables, locs := [], [];
    }

    method ForceDefaults(fd: bool)
      requires Valid()
      modifies this`forceDefaults
      ensures Valid() && State() == old(State()).(forceDefaults := fd)
    {
      forceDefaults := fd;
    }

    method DedupVtables(dedup: bool)
      requires Valid()
      modifies this`dedupVtables
      ensures Valid() && State() == old(State()).(dedup := dedup)
    {
      dedupVtables := dedup;
    }

    function GetSize(): (n: nat)
      requires Valid()
      reads this, buf, buf.buf
      ensures n == |State().msg|
    {
      buf.Size()
    }

    method Fill(n: nat)
      requires Valid() && GetSize() < MAX_BUFFER_SIZE
      modifies buf, buf.buf
      ensures Valid() && (buf.buf == old(buf.buf) || fresh(buf.buf))
      ensures State() == B.Fill(old(State()), n)
    {
      hide Recorded;
      buf.Fill(n);
    }

    method TrackMinAlign(elemSize: Alignment)
      requires Valid()
      modifies this`minAlign
      ensures Valid() && State() == B.TrackMinAlign(old(State()), elemSize)
    {
      if elemSize > minAlign {
        minAlign := elemSize;
      }
    }

    method Align(elemSize: Alignment)
      requires Valid() && GetSize() < MAX_BUFFER_SIZE
      modifies this`minAlign, buf, buf.buf
      ensures Valid() && (buf.buf == old(buf.buf) || fresh(buf.buf))
      ensures State() == B.Align(old(State()), elemSize)
    {
      TrackMinAlign(elemSize);
      Fill(PaddingBytes(buf.Size(), elemSize));
    }

    method PreAlign(len: nat, alignment: Alignment)
      requires Valid() && GetSize() < MAX_BUFFER_SIZE
      modifies this`minAlign, buf, buf.buf
      ensures Valid() && (buf.buf == old(buf.buf) || fresh(buf.buf))
      ensures State() == B.PreAlign(old(State()), len, alignment)
    {
      hide Recorded;
      TrackMinAlign(alignment);
      Fill(PaddingBytes(GetSize() + len, alignment));
    }

    method PushBytes(s: bytes)
      requires Valid() && GetSize() < MAX_BUFFER_SIZE
      modifies buf, buf.buf
      ensures Valid() && (buf.buf == old(buf.buf) || fresh(buf.buf))
      ensures State() == B.PushBytes(old(State()), s)
    {
      hide Recorded;
      buf.Push(s);
    }

    method PopBytes(amount: nat)
      requires Valid() && amount <= GetSize()
      modifies buf
      ensures Valid() && buf.buf == old(buf.buf)
      ensures State() == old(State()).(msg := old(State()).msg[amount..])
    {
      buf.Pop(amount);
    }

    method PushElement(w: Alignment, v: nat) returns (off: nat)
      requires Valid() && |B.PushElement(State(), w, v).msg| < MAX_BUFFER_SIZE
      modifies this`minAlign, buf, buf.buf
      ensures Valid() && (buf.buf == old(buf.buf) || fresh(buf.buf))
      ensures State() == B.PushElement(old(State()), w, v) && off == |State().msg|
    {
      hide Recorded;
      Align(w);
      PushBytes(Encode(v, w));
      off := GetSize();
    }

    /** Makes an offset from the end relative to the place where it is about to be stored. */
    method ReferTo(off: nat) returns (distance: nat)
      requires Valid() && 0 < off <= GetSize() < MAX_BUFFER_SIZE
      modifies this`minAlign, buf, buf.buf
      ensures Valid() && (buf.buf == old(buf.buf) || fresh(buf.buf))
      ensures State() == B.Align(old(State()), 4) && distance == B.Distance(State(), off)
    {
      hide Recorded;
      Align(4);
      distance := GetSize() - off + 4;
    }

    method PushOffset(off: nat) returns (r: nat)
      requires Valid() && 0 < off <= GetSize() && |B.PushOffset(State(), off).msg| < MAX_BUFFER_SIZE
      modifies this`minAlign, buf, buf.buf
      ensures Valid() && (buf.buf == old(buf.buf) || fresh(buf.buf))
      ensures State() == B.PushOffset(old(State()), off) && r == |State().msg|
    {
      hide Recorded;
      var distance := ReferTo(off);
      r := PushElement(4, distance);
    }

    method TrackField(field: nat, off: nat)
      requires Valid() && GetSize() < MAX_BUFFER_SIZE && field < 0x1_0000 && off < TWO32
      modifies this`numFieldLoc, this`maxVoffset, this`locs, buf, buf.buf
      ensures Valid() && (buf.buf == old(buf.buf) || fresh(buf.buf))
      ensures State() == B.TrackField(old(State()), field, off)
    {
      ghost var p := buf.Scratch();
      buf.ScratchPush(EncodeLoc(B.FieldLoc(off, field)));
      numFieldLoc := numFieldLoc + 1;
      maxVoffset := Max(maxVoffset, field);
      locs := locs + [B.FieldLoc(off, field)];
      assert locs[..|locs| - 1] == old(locs);
      ConcatAssoc(EncodeOffsets(vtables), EncodeLocs(old(locs)), EncodeLoc(B.FieldLoc(off, field)));
    }

    method AddElement(field: nat, w: Alignment, v: nat, def: nat)
      requires Valid() && field < 0x1_0000 && |B.AddElement(State(), field, w, v, def).msg| < MAX_BUFFER_SIZE
      modifies this`minAlign, this`numFieldLoc, this`maxVoffset, this`locs, buf, buf.buf
      ensures Valid() && (buf.buf == old(buf.buf) || fresh(buf.buf))
      ensures State() == B.AddElement(old(State()), field, w, v, def)
    {
      hide Recorded;
      if v == def && !forceDefaults {
        return;
      }
      var off := PushElement(w, v);
      TrackField(field, off);
    }

    method AddOffset(field: nat, off: nat)
      requires Valid() && field < 0x1_0000 && off <= GetSize()
      requires |B.AddOffset(State(), field, off).msg| < MAX_BUFFER_SIZE
      modifies this`minAlign, this`numFieldLoc, this`maxVoffset, this`locs, buf, buf.buf
      ensures Valid() && (buf.buf == old(buf.buf) || fresh(buf.buf))
      ensures State() == B.AddOffset(old(State()), field, off)
    {
      hide Recorded;
      if off == 0 {
        return;
      }
      var distance := ReferTo(off);
      AddElement(field, 4, distance, 0);
    }

    predicate NotNested()
      reads this
    {
      !nested && numFieldLoc == 0
    }

    method StartTable() returns (start: nat)
      requires Valid() && NotNested()
      modifies this`nested
      ensures Valid() && State() == B.StartTable(old(State())) && start == |State().msg|
    {
      hide Recorded;
      nested := true;
      start := GetSize();
    }

    method ClearOffsets()
      requires Valid()
      modifies this`numFieldLoc, this`maxVoffset, this`locs, buf
      ensures Valid() && buf.buf == old(buf.buf)
      ensures State() == old(State()).(locs := [], maxVoffset := 0)
    {
      hide EncodeOffsets, EncodeLocs;
      buf.ScratchPop(numFieldLoc * FIELD_LOC_SIZE);
      numFieldLoc := 0;
      maxVoffset := 0;
      locs := [];
      NoRecords(locs);
      assert buf.Scratch() == EncodeOffsets(vtables);
    }

    method CreateString(s: bytes) returns (off: nat)
      requires Valid() && NotNested() && |B.CreateString(State(), s).0.msg| < MAX_BUFFER_SIZE
      modifies this`minAlign, buf, buf.buf
      ensures Valid() && (buf.buf == old(buf.buf) || fresh(buf.buf))
      ensures (State(), off) == B.CreateString(old(State()), s)
    {
      hide Recorded;
      PreAlign(|s| + 1, 4);
      Fill(1);
      PushBytes(s);
      off := PushElement(4, |s|);
    }

    /** The overload for C strings. */
    method CreateCString(s: bytes) returns (off: nat)
      requires Valid() && NotNested() && |B.CreateString(State(), CString(s)).0.msg| < MAX_BUFFER_SIZE
      modifies this`minAlign, buf, buf.buf
      ensures Valid() && (buf.buf == old(buf.buf) || fresh(buf.buf))
      ensures (State(), off) == B.CreateString(old(State()), CString(s))
    {
      hide Recorded, B.CreateString, CString;
      var n := StrLen(s);
      off := CreateString(s[..n]);
    }

    /** Zeros for the vtable, then its size and the table's size. */
    method WriteHeader(size: nat, tableSize: nat)
      requires Valid() && 4 <= size && GetSize() + size < MAX_BUFFER_SIZE
      modifies buf, buf.buf
      ensures Valid() && (buf.buf == old(buf.buf) || fresh(buf.buf))
      ensures buf.Message() == B.VTableHeader(size, tableSize) + old(buf.Message())
    {
      hide Recorded, Encode, Zeros, B.VTableHeader;
      ghost var m := buf.Message();
      buf.Fill(size);
      buf.Write(2, Encode(tableSize, 2));
      buf.Write(0, Encode(size, 2));
      HeaderStores(size, tableSize, m);
    }

    /** Writes the vtable entry of the k-th field. */
    method WriteField(k: nat, loc: nat, ghost cur: bytes, ghost m: bytes)
      requires Valid() && k < numFieldLoc && locs[k].off <= loc && locs[k].id + 2 <= |cur|
      requires buf.Message() == cur + m
      modifies buf.buf
      ensures Valid() && buf.Message() == B.WriteEntry(cur, locs[k].id, loc - locs[k].off) + m
    {
      hide Recorded;
      ScratchLoc(k);
      var at := buf.ScratchSize() - (numFieldLoc - k) * FIELD_LOC_SIZE;
      var off := buf.ReadScratch(at, 4);
      var id := buf.ReadScratch(at + 4, 2);
      buf.Write(id, Encode(loc - off, 2));
      WriteFront(cur, m, id, Encode(loc - off, 2));
    }

    /** Writes the entries of all fields, in the order in which they were added. */
    method WriteFields(loc: nat, ghost header: bytes, ghost m: bytes)
      requires Valid() && buf.Message() == header + m && B.LocsFit(locs, |header|, loc)
      modifies buf.buf
      ensures Valid() && buf.Message() == B.FillVTable(header, locs, loc) + m
    {
      hide Recorded, B.FillVTable, B.WriteEntry;
      ghost var cur := header;
      assert locs[0..] == locs;
      for k := 0 to numFieldLoc
        invariant Valid() && |cur| == |header| && buf.Message() == cur + m
        invariant B.LocsFit(locs[k..], |cur|, loc)
        invariant B.FillVTable(cur, locs[k..], loc) == B.FillVTable(header, locs, loc)
      {
        FillStep(cur, locs, k, loc);
        WriteField(k, loc, cur, m);
        cur := B.WriteEntry(cur, locs[k].id, loc - locs[k].off);
      }
      FillNone(cur, loc);
      assert locs[numFieldLoc..] == [];
    }

    /** Writes the vtable in front of the table whose first word is at loc, entry by entry from the
      * records in the scratch pad, and clears the records. */
    method WriteVTable(start: nat, loc: nat)
      requires Valid() && loc == |State().msg| && FieldsFit(State(), start, loc)
      requires loc + B.VTableSize(State()) < MAX_BUFFER_SIZE
      modifies this`numFieldLoc, this`maxVoffset, this`locs, buf, buf.buf
      ensures Valid() && (buf.buf == old(buf.buf) || fresh(buf.buf))
      ensures State() == old(State()).(msg := B.MakeVTable(old(State()), start, loc) + old(State()).msg,
                              locs := [], maxVoffset := 0)
    {
      hide Recorded, B.MakeVTable, B.FillVTable, B.VTableHeader, FieldsFit, B.LocsFit;
      ghost var p := State();
      MadeVTable(p, start, loc);
      maxVoffset := Max(maxVoffset + 2, FieldIndexToOffset(0));
      WriteHeader(maxVoffset, loc - start);
      WriteFields(loc, B.VTableHeader(maxVoffset, loc - start), p.msg);
      ClearOffsets();
    }

    /** The k-th record as it lies behind the vtable offsets in the scratch pad. */
    lemma ScratchLoc(k: nat)
      requires Valid() && k < |locs|
      ensures var from := |buf.Scratch()| - (numFieldLoc - k) * FIELD_LOC_SIZE;
              && 0 <= from && from + FIELD_LOC_SIZE <= |buf.Scratch()|
              && ReadScalar(buf.Scratch(), from, 4) == locs[k].off
              && ReadScalar(buf.Scratch(), from + 4, 2) == locs[k].id
    {
      var s, v := buf.Scratch(), EncodeOffsets(vtables);
      var from := |s| - (numFieldLoc - k) * FIELD_LOC_SIZE;
      LocAt(locs, k);
      assert s[from..from + FIELD_LOC_SIZE]
             == EncodeLocs(locs)[FIELD_LOC_SIZE * k..FIELD_LOC_SIZE * k + FIELD_LOC_SIZE];
      LocReads(s, from, locs[k]);
    }

    lemma ScratchVTable(k: nat)
      requires Valid() && k < |vtables|
      ensures 4 * k + 4 <= |buf.Scratch()| && ReadScalar(buf.Scratch(), 4 * k, 4) == vtables[k]
    {
      OffsetAt(vtables, k);
      ReadPrefix(EncodeOffsets(vtables), EncodeLocs(locs), 4 * k, 4);
    }

    /** Whether the vtable at offset v from the end has the same bytes as the one at the front. */
    method SameAsFront(v: nat, size: nat) returns (same: bool)
      requires Valid() && 2 <= size <= |State().msg|
      requires ValidVTable(State().msg, v)
      ensures same == B.SameVTable(State().msg, v, State().msg[..size])
    {
      hide Recorded;
      var at := buf.Size() - v;
      var size2 := buf.ReadMessage(at, 2);
      same := size2 == size && buf.MessageBytes(at, size2) == buf.MessageBytes(0, size);
    }

    lemma ScratchCount()
      requires Valid() && locs == []
      ensures |buf.Scratch()| == 4 * |vtables|
    {}

    /** Compares the new vtable at the front with every recorded one. */
    method FindDuplicate(size: nat) returns (dup: Option<nat>)
      requires Valid() && locs == [] && 2 <= size <= |State().msg|
      requires ValidVTables(State().msg, vtables)
      ensures dup == B.FindVTable(State().msg, vtables, State().msg[..size])
    {
      hide Recorded, ValidVTable, B.SameVTable, B.FindVTable, ReadScalar;
      ghost var m, vt := State().msg, State().msg[..size];
      var n := buf.ScratchSize() / 4;
      ScratchCount();
      FindEnds(m, vtables, vt);
      for j := 0 to n
        invariant B.FindVTable(m, vtables, vt) == B.FindVTable(m, vtables[j..], vt)
      {
        ScratchVTable(j);
        var v := buf.ReadScratch(4 * j, 4);
        var same := SameAsFront(v, size);
        if same {
          FindHere(m, vtables, j, vt);
          return Some(v);
        }
        FindSkip(m, vtables, j, vt);
      }
      return None;
    }

    /** Remembers a vtable; the records of fields have been cleared. */
    method RecordVTable(vt: nat)
      requires Valid() && locs == [] && vt < TWO32 && GetSize() < MAX_BUFFER_SIZE
      modifies this`vtables, buf, buf.buf
      ensures Valid() && (buf.buf == old(buf.buf) || fresh(buf.buf))
      ensures State() == old(State()).(vtables := old(vtables) + [vt])
    {
      hide Encode, EncodeLocs, EncodeOffsets;
      NoRecords(locs);
      assert buf.Scratch() == EncodeOffsets(vtables);
      buf.ScratchPush(Encode(vt, 4));
      EncodeAppend(vtables, vt);
      vtables := vtables + [vt];
      assert buf.Scratch() == EncodeOffsets(vtables) == EncodeOffsets(vtables) + EncodeLocs(locs);
    }

    /** When an earlier vtable has the bytes of the new one at the front, gives the new one back and
      * returns the offset of the earlier one. */
    method UseDuplicate(loc: nat, ghost p: B.State, ghost vt: bytes) returns (vtUse: nat)
      requires Valid() && loc == |p.msg| && State() == p.(msg := vt + p.msg, locs := [], maxVoffset := 0)
      requires 2 <= |vt| && GetSize() < MAX_BUFFER_SIZE && ValidVTables(vt + p.msg, vtables)
      modifies buf
      ensures Valid() && buf.buf == old(buf.buf)
      ensures vtUse < TWO32 && vtUse == VTableUsed(p, vt)
      ensures State() == p.(msg := (if B.Duplicate(p, vt).Some? then [] else vt) + p.msg, locs := [], maxVoffset := 0)
    {
      hide Recorded, B.FindVTable, ValidVTable;
      vtUse := GetSize();
      assert State().msg[..|vt|] == vt && State().msg[|vt|..] == p.msg == [] + p.msg;
      if dedupVtables {
        var dup := FindDuplicate(GetSize() - loc);
        if dup.Some? {
          vtUse := dup.value;
          PopBytes(GetSize() - loc);
        }
      }
    }

    /** Writes the vtable of the table whose first word is at loc, or finds an earlier one to share. */
    method ShareVTable(start: nat, loc: nat) returns (vtUse: nat)
      requires Valid() && loc == |State().msg| && FieldsFit(State(), start, loc) && ValidVTables(State().msg, vtables)
      requires loc + B.VTableSize(State()) < MAX_BUFFER_SIZE
      modifies this`numFieldLoc, this`maxVoffset, this`locs, buf, buf.buf
      ensures Valid() && (buf.buf == old(buf.buf) || fresh(buf.buf))
      ensures vtUse < TWO32 && GetSize() < MAX_BUFFER_SIZE
      ensures var p := old(State());
              var vt := B.MakeVTable(p, start, loc);
              && vtUse == VTableUsed(p, vt)
              && State() == p.(msg := (if B.Duplicate(p, vt).Some? then [] else vt) + p.msg,
                             locs := [], maxVoffset := 0)
    {
      hide Recorded, FieldsFit, B.MakeVTable, B.Duplicate, VTableUsed, ValidVTable;
      ghost var p := State();
      FitsLocs(p, start, loc);
      WriteVTable(start, loc);
      ghost var vt := B.MakeVTable(p, start, loc);
      ValidVTablesShift(vt, p.msg, vtables);
      vtUse := UseDuplicate(loc, p, vt);
    }

    /** Fills in the first word of the table at loc, which was left open. */
    method PatchTable(loc: nat, vtUse: nat, ghost front: bytes, ghost m: bytes)
      requires Valid() && 4 <= loc == |m| && buf.Message() == front + m
      modifies buf.buf
      ensures Valid() && buf.Message() == front + B.Patch(m, vtUse)
    {
      hide Recorded, Encode;
      buf.Write(GetSize() - loc, Encode(FromSigned32(vtUse - loc), 4));
      PatchWrites(front, m, vtUse);
    }

    /** Remembers the vtable used when it is the one at the front. */
    method RecordIfNew(vtUse: nat)
      requires Valid() && locs == [] && vtUse < TWO32 && GetSize() < MAX_BUFFER_SIZE
      modifies this`vtables, buf, buf.buf
      ensures Valid() && (buf.buf == old(buf.buf) || fresh(buf.buf))
      ensures State()
              == old(State()).(vtables := if vtUse == old(GetSize()) then old(vtables) + [vtUse] else old(vtables))
    {
      if vtUse == GetSize() {
        RecordVTable(vtUse);
      }
    }

    /** Writes or shares the vtable, and records it when it is new. */
    method ChooseVTable(start: nat, loc: nat) returns (vtUse: nat)
      requires Valid() && loc == |State().msg| && FieldsFit(State(), start, loc) && ValidVTables(State().msg, vtables)
      requires loc + B.VTableSize(State()) < MAX_BUFFER_SIZE
      modifies this`numFieldLoc, this`maxVoffset, this`locs, this`vtables, buf, buf.buf
      ensures Valid() && (buf.buf == old(buf.buf) || fresh(buf.buf))
      ensures GetSize() < MAX_BUFFER_SIZE
      ensures var p := old(State());
              var vt := B.MakeVTable(p, start, loc);
              var front := if B.Duplicate(p, vt).Some? then [] else vt;
              && vtUse == VTableUsed(p, vt)
              && State() == p.(msg := front + p.msg, locs := [], maxVoffset := 0,
                               vtables := if vtUse == |front| + |p.msg| then p.vtables + [vtUse] else p.vtables)
    {
      hide Recorded, FieldsFit, ValidVTables, B.MakeVTable, B.FindVTable, B.Duplicate;
      vtUse := ShareVTable(start, loc);
      RecordIfNew(vtUse);
    }

    /** Finishes the vtable of the table whose first word is at loc, records it when it is new, and makes
      * the first word lead to it. */
    method SealTable(start: nat, loc: nat)
      requires Valid() && loc == |State().msg| && 4 <= loc && ReadyToSeal(State(), State().msg[4..], start)
      requires loc + B.VTableSize(State()) < MAX_BUFFER_SIZE
      modifies this`numFieldLoc, this`maxVoffset, this`locs, this`vtables, this`nested, buf, buf.buf
      ensures Valid() && (buf.buf == old(buf.buf) || fresh(buf.buf))
      ensures State() == B.SealTable(old(State()), start)
    {
      hide Recorded, ReadyToSeal, FieldsFit, ValidVTables, VTableUsed, B.MakeVTable, B.FindVTable, B.Duplicate,
           B.Patch, B.SealTable;
      ghost var p := State();
      SealNeeds(p, start);
      var vtUse := ChooseVTable(start, loc);
      nested := false;
      ghost var vt := B.MakeVTable(p, start, loc);
      ghost var front := if B.Duplicate(p, vt).Some? then [] else vt;
      PatchTable(loc, vtUse, front, p.msg);
      SealTableIs(p, start, State());
    }

    method EndTable(start: nat) returns (loc: nat)
      requires Valid() && nested && TableReady(State(), start) && ValidVTables(State().msg, vtables)
      requires TableEnd(State()) + B.VTableSize(State()) < MAX_BUFFER_SIZE
      modifies this`minAlign, this`numFieldLoc, this`maxVoffset, this`locs, this`vtables, this`nested, buf, buf.buf
      ensures Valid() && (buf.buf == old(buf.buf) || fresh(buf.buf))
      ensures (State(), loc) == B.EndTable(old(State()), start)
    {
      hide Recorded, B.PushElement, B.SealTable, TableReady, ValidVTables;
      loc := PushElement(4, 0);
      TablePushed(old(State()), start, State());
      SealTable(start, loc);
    }

    /** Looks the string at the front up in the pool: a hit takes it back, a miss records it. */
    method PoolOrPop(s: bytes, off: nat, sizeBefore: nat) returns (r: nat)
      requires Valid() && sizeBefore <= GetSize()
      modifies this`stringPool, buf
      ensures Valid() && buf.buf == old(buf.buf)
      ensures match B.FindString(old(State()).msg, old(stringPool), s)
              case Some(p) => r == p && State() == old(State()).(msg := old(State()).msg[old(GetSize()) - sizeBefore..])
              case None => r == off && State() == old(State()).(pool := old(stringPool) + [off])
    {
      hide Recorded, B.FindString;
      var m := buf.MessageBytes(0, GetSize());
      assert m == buf.Message();
      var hit := B.FindString(m, stringPool, s);
      if hit.Some? {
        PopBytes(GetSize() - sizeBefore);
        r := hit.value;
      } else {
        stringPool := stringPool + [off];
        r := off;
      }
    }

    method CreateSharedString(s: bytes) returns (off: nat)
      requires Valid() && NotNested() && |B.CreateString(State(), s).0.msg| < MAX_BUFFER_SIZE
      modifies this`minAlign, this`stringPool, buf, buf.buf
      ensures Valid() && (buf.buf == old(buf.buf) || fresh(buf.buf))
      ensures (State(), off) == B.CreateSharedString(old(State()), s)
    {
      hide Recorded, B.CreateString, B.FindString, B.CreateSharedString;
      ghost var st := State();
      var sizeBeforeString := GetSize();
      off := CreateString(s);
      StringGrows(st, s);
      SharedStringIs(st, s, State(), off);
      off := PoolOrPop(s, off, sizeBeforeString);
    }

    method StartVector(len: nat, elemSize: Alignment)
      requires Valid() && NotNested() && |B.StartVector(State(), len, elemSize).msg| < MAX_BUFFER_SIZE
      modifies this`minAlign, this`nested, buf, buf.buf
      ensures Valid() && (buf.buf == old(buf.buf) || fresh(buf.buf))
      ensures State() == B.StartVector(old(State()), len, elemSize)
    {
      hide Recorded, B.PreAlign;
      nested := true;
      PreAlign(len * elemSize, 4);
      PreAlign(len * elemSize, elemSize);
    }

    method EndVector(len: nat) returns (off: nat)
      requires Valid() && nested && |B.EndVector(State(), len).msg| < MAX_BUFFER_SIZE
      modifies this`minAlign, this`nested, buf, buf.buf
      ensures Valid() && (buf.buf == old(buf.buf) || fresh(buf.buf))
      ensures State() == B.EndVector(old(State()), len) && off == |State().msg|
    {
      hide Recorded;
      nested := false;
      off := PushElement(4, len);
    }

    method CreateVector(offs: seq<nat>) returns (off: nat)
      requires Valid() && NotNested() && B.AllRefersTo(State(), offs)
      requires |B.CreateVector(State(), offs).0.msg| < MAX_BUFFER_SIZE
      modifies this`minAlign, this`nested, buf, buf.buf
      ensures Valid() && (buf.buf == old(buf.buf) || fresh(buf.buf))
      ensures (State(), off) == B.CreateVector(old(State()), offs)
    {
      hide Recorded, B.StartVector, B.PushOffset;
      ghost var st := B.StartVector(State(), |offs|, 4);
      StartVector(|offs|, 4);
      assert offs[|offs|..] == [];
      var i := |offs|;
      while i > 0
        invariant 0 <= i <= |offs| && Valid() && (buf.buf == old(buf.buf) || fresh(buf.buf))
        invariant B.AllRefersTo(st, offs) && B.AllRefersTo(st, offs[i..]) && State() == B.PushOffsets(st, offs[i..])
      {
        i := i - 1;
        assert offs[i..][1..] == offs[i + 1..];
        PushOffsetsGrow(st, offs, i);
        var r := PushOffset(offs[i]);
      }
      assert offs[i..] == offs;
      off := EndVector(|offs|);
    }

    /** Padding and identifier. */
    method StartFinish(ident: Option<bytes>, sizePrefix: bool)
      requires Valid() && locs == [] && |B.StartFinish(State(), ident, sizePrefix).msg| < MAX_BUFFER_SIZE
      modifies this`minAlign, this`vtables, buf, buf.buf
      ensures Valid() && (buf.buf == old(buf.buf) || fresh(buf.buf))
      ensures State() == B.StartFinish(old(State()), ident, sizePrefix)
    {
      hide Recorded, B.PreAlign;
      buf.ClearScratch();
      vtables := [];
      NothingRecorded(buf.Scratch());
      PreAlign(B.HeaderSize(ident, sizePrefix), minAlign);
      if ident.Some? {
        PushBytes(ident.value);
      }
    }

    method Finish(root: nat, ident: Option<bytes>, sizePrefix: bool)
      requires Valid() && NotNested() && 0 < root <= GetSize()
      requires ident.Some? ==> |ident.value| == B.FILE_IDENTIFIER_LENGTH
      requires |B.Finish(State(), root, ident, sizePrefix).msg| < MAX_BUFFER_SIZE
      modifies this`minAlign, this`finished, this`vtables, buf, buf.buf
      ensures Valid() && (buf.buf == old(buf.buf) || fresh(buf.buf))
      ensures State() == B.Finish(old(State()), root, ident, sizePrefix)
    {
      hide Recorded, B.StartFinish, B.PushOffset, B.PushElement;
      StartFinish(ident, sizePrefix);
      var size := PushOffset(root);
      if sizePrefix {
        size := PushElement(4, size);
      }
      finished := true;
    }
  }
}
