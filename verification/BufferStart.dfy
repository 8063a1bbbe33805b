/** GetBufferStartFromRootPointer: the way back from a root to the start of its buffer. */
module BufferStart {
  import opened Bytes
  import opened Padding
  import opened StringOrder
  import opened Tables
  import opened Objects
  import opened Builder
  import opened TableFields
  import opened Adds
  import opened Creation
  import opened VTables
  import opened Finishing

  const MAX_ALIGNMENT := 16

  /** Where the backward scan begins: the first of vtable and root, aligned down. The buffer is taken
    * to lie at an address that is a multiple of 4. */
  function ScanStart(m: bytes, root: int): int
    requires InBounds(m, root, 4) && 0 <= GetVTable(m, root)
  {
    Min(GetVTable(m, root), root) / 4 * 4
  }

  /** The word at q leads to the root. */
  predicate LeadsTo(m: bytes, q: int, root: int) {
    InBounds(m, q, 4) && Follow(m, q) == root
  }

  /** Of the words before the place where the scan begins, start is the nearest that leads to the root,
    * and it is within the scan's bound. */
  predicate Findable(m: bytes, root: int, start: int) {
    && InBounds(m, root, 4) && 0 <= GetVTable(m, root)
    && start % 4 == 0 && start < ScanStart(m, root) <= start + 4 * (MAX_ALIGNMENT / 4 + 1)
    && LeadsTo(m, start, root)
    && forall q | start < q < ScanStart(m, root) && q % 4 == 0 :: !LeadsTo(m, q, root)
  }

  /** Looks at one word after the other, backwards. The final assertion is never reached, and nothing
    * outside the buffer is read. */
  method GetBufferStartFromRootPointer(m: bytes, root: int, ghost trueStart: int) returns (start: int)
    requires Findable(m, root, trueStart)
    ensures start == trueStart
  {
    start := Min(GetVTable(m, root), root) / 4 * 4;
    var possibleRoots := MAX_ALIGNMENT / 4 + 1;
    while possibleRoots > 0
      invariant start % 4 == 0 && trueStart < start <= ScanStart(m, root)
      invariant start <= trueStart + 4 * possibleRoots
    {
      start := start - 4;
      if Follow(m, start) == root {
        assert LeadsTo(m, start, root);
        return;
      }
      possibleRoots := possibleRoots - 1;
    }
    assert false;
  }

  /** The root, or its vtable just before it, is at the very front of the message. */
  predicate RootLast(m: bytes, root: nat) {
    && 4 <= root <= |m|
    && var p, vt := |m| - root, GetVTable(m, |m| - root);
       0 <= vt && p < 0x1_0000 && Min(vt, p) == 0
  }

  /** Four characters, none of them NUL, as a number. */
  lemma IdentifierIsLarge(s: bytes)
    requires |s| == 4 && NulFree(s)
    ensures Decode(s) >= 0x101_0101
  {
    assert s[0] in s && s[1] in s && s[2] in s && s[3] in s;
    var t := s[1..];
    var u := t[1..];
    var v := u[1..];
    assert t[0] == s[1] && u[0] == s[2] && v[0] == s[3];
    assert Decode(v) >= 1;
    assert Decode(u) >= 0x101;
    assert Decode(t) >= 0x1_0101;
  }

  lemma {:induction false} ZeroDecodes(n: nat)
    ensures Decode(Zeros(n)) == 0
  {
    if n > 0 {
      assert Zeros(n)[1..] == Zeros(n - 1);
      ZeroDecodes(n - 1);
    }
  }

  /** A word of zero padding leads to itself. */
  lemma PaddingLeads(m: bytes, from: nat, pad: nat, q: nat)
    requires from <= q && q + 4 <= from + pad <= |m| && m[from..from + pad] == Zeros(pad)
    ensures Follow(m, q) == q
  {
    var zeros := m[from..from + pad];
    var w := m[q..q + 4];
    forall k | 0 <= k < 4
      ensures w[k] == 0
    {
      assert m[q + k] == zeros[q + k - from];
    }
    assert w == Zeros(4);
    ZeroDecodes(4);
  }

  /** The layout of a finished buffer in front of the message. */
  lemma FinishedLayout(st: State, root: nat, ident: Option<bytes>, sizePrefix: bool, m: bytes)
    requires ValidIdentifier(ident) && st.minAlign >= 4
    requires 0 < root <= |st.msg| && m == Finish(st, root, ident, sizePrefix).msg
    ensures var pad := PaddingBytes(|st.msg| + HeaderSize(ident, sizePrefix), st.minAlign);
            var q := RootPosition(sizePrefix) + 4;
            var f := q + (if ident.Some? then 4 else 0);
            && |m| == f + pad + |st.msg| && m[f + pad..] == st.msg && m[f..f + pad] == Zeros(pad)
            && (ident.Some? ==> m[q..q + 4] == ident.value)
  {
    hide Finish, PaddingBytes, Encode;
    FinishBytes(st, root, ident, sizePrefix, Finish(st, root, ident, sizePrefix));
    var pad := PaddingBytes(|st.msg| + HeaderSize(ident, sizePrefix), st.minAlign);
    var b := Padded(st, ident, sizePrefix);
    assert b == (if ident.Some? then ident.value else []) + (Zeros(pad) + st.msg);
    var q := RootPosition(sizePrefix) + 4;
    assert m[q..] == b;
    LayoutParts(m, q, if ident.Some? then ident.value else [], Zeros(pad), st.msg);
  }

  lemma LayoutParts(m: bytes, q: nat, x: bytes, y: bytes, z: bytes)
    requires q <= |m| && m[q..] == x + (y + z)
    ensures |m| == q + |x| + |y| + |z|
    ensures m[q..q + |x|] == x && m[q + |x|..q + |x| + |y|] == y && m[q + |x| + |y|..] == z
  {
    var b := m[q..];
    assert m[q..q + |x|] == b[..|x|];
    assert m[q + |x|..q + |x| + |y|] == b[|x|..|x| + |y|];
    assert m[q + |x| + |y|..] == b[|x| + |y|..];
  }

  lemma RootShifted(m: bytes, s: bytes, root: nat)
    requires Suffix(s, m) && RootLast(s, root)
    ensures InBounds(m, |m| - root, 4) && GetVTable(m, |m| - root) == |m| - |s| + GetVTable(s, |s| - root)
  {
    SuffixSplit(m, s);
    ReadShift(m[..|m| - |s|], s, |s| - root, 4);
  }

  /** The words between the root offset and the message: identifier and padding. */
  predicate HeaderWords(m: bytes, start: nat, ident: Option<bytes>, pad: nat, root: nat) {
    var f := start + 4 + (if ident.Some? then 4 else 0);
    && f + pad <= root < |m| && root - f - pad < 0x1_0000 && pad < 16
    && m[f..f + pad] == Zeros(pad)
    && (ident.Some? ==> |ident.value| == 4 && NulFree(ident.value) && m[start + 4..start + 8] == ident.value)
  }

  /** None of them leads to the root: padding leads to itself, an identifier far beyond. */
  lemma HeaderWordLeads(m: bytes, start: nat, ident: Option<bytes>, pad: nat, root: nat, q: nat)
    requires HeaderWords(m, start, ident, pad, root) && start % 4 == 0 && q % 4 == 0
    requires var f := start + 4 + (if ident.Some? then 4 else 0); start < q < (f + pad) / 4 * 4
    ensures !LeadsTo(m, q, root)
  {
    var f := start + 4 + (if ident.Some? then 4 else 0);
    if q >= f {
      PaddingLeads(m, f, pad, q);
    } else {
      assert q == start + 4;
      IdentifierIsLarge(ident.value);
    }
  }

  lemma HeaderIsFindable(m: bytes, start: nat, ident: Option<bytes>, pad: nat, root: nat)
    requires HeaderWords(m, start, ident, pad, root) && start % 4 == 0 && LeadsTo(m, start, root)
    requires InBounds(m, root, 4) && 0 <= GetVTable(m, root)
    requires Min(GetVTable(m, root), root) == start + 4 + (if ident.Some? then 4 else 0) + pad
    ensures Findable(m, root, start)
  {
    hide HeaderWords, LeadsTo, GetVTable;
    assert pad < 16 by {
      HeaderPad(m, start, ident, pad, root);
    }
    forall q | start < q < ScanStart(m, root) && q % 4 == 0
      ensures !LeadsTo(m, q, root)
    {
      HeaderWordLeads(m, start, ident, pad, root, q);
    }
  }

  lemma HeaderPad(m: bytes, start: nat, ident: Option<bytes>, pad: nat, root: nat)
    requires HeaderWords(m, start, ident, pad, root)
    ensures pad < 16
  {}

  /** GetBufferStartFromRootPointer inverts GetRoot: in every finished buffer whose root was the last
    * object written, and whose identifier has no NUL, the scan stops at the root offset. Neither
    * padding nor the identifier is mistaken for it. */
  lemma FinishedIsFindable(st: State, root: nat, ident: Option<bytes>, sizePrefix: bool, m: bytes)
    requires ValidIdentifier(ident) && (ident.Some? ==> NulFree(ident.value)) && st.minAlign >= 4
    requires RootLast(st.msg, root) && m == Finish(st, root, ident, sizePrefix).msg && |m| < TWO31
    ensures Findable(m, |m| - root, RootPosition(sizePrefix))
  {
    hide Finish, PaddingBytes, Aligned, GetVTable, Findable, NulFree;
    FinishReads(st, root, ident, sizePrefix, Finish(st, root, ident, sizePrefix));
    FinishedLayout(st, root, ident, sizePrefix, m);
    RootShifted(m, st.msg, root);
    var pad := PaddingBytes(|st.msg| + HeaderSize(ident, sizePrefix), st.minAlign);
    HeaderIsFindable(m, RootPosition(sizePrefix), ident, pad, |m| - root);
  }

  /** A table just built is the last object written, whether its vtable is new or shared. */
  lemma BuiltIsLast(st: State, adds: seq<Add>, r: State, loc: nat)
    requires ValidTable(st, adds) && (r, loc) == BuildTable(st, adds)
    ensures RootLast(r.msg, loc)
  {
    hide ApplyAdds, PushElement, SealTable, ReadyToSeal, ValidVTables;
    var o := Added(st, adds);
    var p := PushElement(o, 4, 0);
    FirstWordPushed(st, adds, o, p);
    SealedIsLast(p, o.msg, |st.msg|, r);
  }

  lemma SealedSize(p: State, start: nat, r: State)
    requires 4 <= |p.msg| && start <= |p.msg| && LocsFit(p.locs, VTableSize(p), |p.msg|) && r == SealTable(p, start)
    ensures var vt := MakeVTable(p, start, |p.msg|);
            && |r.msg| == (if Shares(p, start) then 0 else |vt|) + |p.msg|
            && (!Shares(p, start) ==> VTableUsed(p, vt) == |r.msg|)
            && |vt| == VTableSize(p)
  {
    hide MakeVTable, Patch, FindVTable;
  }

  lemma SealedIsLast(p: State, sm: bytes, start: nat, r: State)
    requires ReadyToSeal(p, sm, start) && r == SealTable(p, start)
    ensures RootLast(r.msg, |p.msg|)
  {
    hide MakeVTable, SealTable, Aligned, ValidVTable, Shares, VTableUsed, GetVTable;
    var vt := MakeVTable(p, start, |p.msg|);
    SealTableLayout(p, sm, start, r.msg, vt);
    SealedSize(p, start, r);
    if Shares(p, start) {
      SharedIsLater(p, sm, start, VTableUsed(p, vt));
    }
  }

  lemma SharedIsLater(p: State, sm: bytes, start: nat, v: nat)
    requires ReadyToSeal(p, sm, start) && Shares(p, start) && v == VTableUsed(p, MakeVTable(p, start, |p.msg|))
    ensures v <= |sm|
  {
    hide MakeVTable, Aligned;
    assert ValidVTable(sm, v);
  }
}
