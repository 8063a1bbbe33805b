/** Finish: the root offset, the identifier and the size prefix, and the alignment they give. */
module Finishing {
  import opened Bytes
  import opened Padding
  import opened Tables
  import opened Objects
  import opened Builder
  import opened TableFields
  import opened Adds
  import opened Creation

  predicate ValidIdentifier(ident: Option<bytes>) {
    ident.Some? ==> |ident.value| == FILE_IDENTIFIER_LENGTH
  }

  function RootPosition(sizePrefix: bool): nat {
    if sizePrefix then 4 else 0
  }

  /** Padding, then the identifier: the message in front of which the root offset goes. */
  function Padded(st: State, ident: Option<bytes>, sizePrefix: bool): bytes {
    (if ident.Some? then ident.value else []) + PreAlign(st, HeaderSize(ident, sizePrefix), st.minAlign).msg
  }

  lemma PaddedAligned(st: State, ident: Option<bytes>, sizePrefix: bool)
    requires ValidIdentifier(ident) && st.minAlign >= 4
    ensures var b := Padded(st, ident, sizePrefix);
            && Suffix(st.msg, b)
            && Aligned(|b|, 4)
            && Aligned(|b| + RootPosition(sizePrefix) + 4, st.minAlign)
  {
    hide Aligned, PaddingBytes;
    var h := HeaderSize(ident, sizePrefix);
    var b := Padded(st, ident, sizePrefix);
    var a := PreAlign(st, h, st.minAlign);
    PaddingAligns(|st.msg| + h, st.minAlign);
    assert |b| + RootPosition(sizePrefix) + 4 == |a.msg| + h;
    AlignmentDivides(4, st.minAlign, |a.msg| + h);
    AlignedTimes4(if sizePrefix then 2 else 1);
    AlignedSum(|b|, RootPosition(sizePrefix) + 4, 4);
  }

  /** Finish writes exactly one offset, and one size if asked to, in front of the padded message. */
  lemma FinishBytes(st: State, root: nat, ident: Option<bytes>, sizePrefix: bool, r: State)
    requires ValidIdentifier(ident) && st.minAlign >= 4
    requires 0 < root <= |st.msg| && r == Finish(st, root, ident, sizePrefix)
    ensures var b := Padded(st, ident, sizePrefix);
            && Suffix(st.msg, b)
            && r.msg == (if sizePrefix then Encode(|b| + 4, 4) else []) + (Encode(|b| - root + 4, 4) + b)
            && r == st.(msg := r.msg, vtables := [], finished := true)
  {
    hide Aligned, PreAlign, PushOffset, PushElement, Align, Suffix;
    var b := Padded(st, ident, sizePrefix);
    PaddedAligned(st, ident, sizePrefix);
    var a := PreAlign(st.(vtables := []), HeaderSize(ident, sizePrefix), st.minAlign);
    PreAlignFrame(st, HeaderSize(ident, sizePrefix));
    var s := StartFinish(st, ident, sizePrefix);
    assert s.msg == b;
    assert root <= |b| by {
      SuffixLength(st.msg, b);
    }
    var c := PushOffset(s, root);
    RootPushed(s, root);
    if sizePrefix {
      AlignedSelf(4);
      AlignedSum(4, |b|, 4);
      ElementPushed(c, |c.msg|);
    }
  }

  lemma RootPushed(s: State, root: nat)
    requires Aligned(|s.msg|, 4) && s.minAlign >= 4 && 0 < root <= |s.msg|
    ensures PushOffset(s, root) == s.(msg := Encode(|s.msg| - root + 4, 4) + s.msg)
  {
    hide Align, PushElement, Aligned;
    AlignedNoPad(s);
    ElementPushed(s, |s.msg| - root + 4);
  }

  lemma ElementPushed(s: State, v: nat)
    requires Aligned(|s.msg|, 4) && s.minAlign >= 4
    ensures PushElement(s, 4, v) == s.(msg := Encode(v, 4) + s.msg)
  {
    hide Align, Aligned;
    AlignedNoPad(s);
  }

  lemma PreAlignFrame(st: State, len: nat)
    ensures PreAlign(st.(vtables := []), len, st.minAlign)
            == st.(vtables := [], msg := PreAlign(st, len, st.minAlign).msg)
  {}

  /** An aligned message is not padded. */
  lemma AlignedNoPad(st: State)
    requires Aligned(|st.msg|, 4) && st.minAlign >= 4
    ensures Align(st, 4) == st
  {
    NoPadding(|st.msg|, 4);
    assert Zeros(0) + st.msg == st.msg;
  }

  /** The finished buffer: the root offset leads to the root, the size and the identifier are in
    * their places, and the whole is aligned to the largest alignment asked for. */
  lemma FinishReads(st: State, root: nat, ident: Option<bytes>, sizePrefix: bool, r: State)
    requires ValidIdentifier(ident) && st.minAlign >= 4
    requires 0 < root <= |st.msg| && r == Finish(st, root, ident, sizePrefix) && |r.msg| < TWO31
    ensures Suffix(st.msg, r.msg) && Aligned(|r.msg|, st.minAlign) && r.finished
    ensures HoldsOffset(r.msg, RootPosition(sizePrefix))
    ensures Follow(r.msg, RootPosition(sizePrefix)) == |r.msg| - root
    ensures sizePrefix ==> ReadScalar(r.msg, 0, 4) == |r.msg| - 4
    ensures ident.Some? ==> r.msg[RootPosition(sizePrefix) + 4..RootPosition(sizePrefix) + 8] == ident.value
  {
    hide Aligned, Finish, Padded, Suffix;
    var b := Padded(st, ident, sizePrefix);
    var q := RootPosition(sizePrefix);
    PaddedAligned(st, ident, sizePrefix);
    FinishBytes(st, root, ident, sizePrefix, r);
    var pre := if sizePrefix then Encode(|b| + 4, 4) else [];
    Pow256Values();
    SuffixLength(st.msg, b);
    HeaderHolds(pre, b, root);
    if sizePrefix {
      PushReads(Encode(|b| - root + 4, 4) + b, 4, |b| + 4);
    }
    if ident.Some? {
      IdentifierFound(st, ident, sizePrefix, r.msg);
    }
    SuffixTransitive(st.msg, b, r.msg);
  }

  lemma HeaderHolds(pre: bytes, b: bytes, root: nat)
    requires 0 < root <= |b| && |pre| + 4 + |b| < TWO31 && Aligned(|b|, 4)
    ensures var m := pre + (Encode(|b| - root + 4, 4) + b);
            HoldsOffset(m, |pre|) && Follow(m, |pre|) == |m| - root && Suffix(b, m)
  {
    hide Aligned;
    var m := pre + (Encode(|b| - root + 4, 4) + b);
    assert m == pre + Encode(|b| - root + 4, 4) + b;
    Pow256Values();
    ReadWritten(pre, |b| - root + 4, 4, b);
    AlignedSelf(4);
    AlignedSum(4, |b|, 4);
  }

  lemma IdentifierFound(st: State, ident: Option<bytes>, sizePrefix: bool, m: bytes)
    requires ident.Some? && ValidIdentifier(ident)
    requires var b := Padded(st, ident, sizePrefix);
             |m| == RootPosition(sizePrefix) + 4 + |b| && Suffix(b, m)
    ensures m[RootPosition(sizePrefix) + 4..RootPosition(sizePrefix) + 8] == ident.value
  {
    var b := Padded(st, ident, sizePrefix);
    var q := RootPosition(sizePrefix) + 4;
    assert m[q..] == b;
    assert m[q..q + 4] == m[q..][..4] == b[..4];
  }

  /** Retroactive alignment: what was written at a from-end offset that is a multiple of an alignment
    * the builder knows of is, in the finished buffer, at a position that is a multiple of it. */
  lemma RetroactiveAlignment(st: State, root: nat, ident: Option<bytes>, sizePrefix: bool, r: State, e: nat,
                             a: Alignment)
    requires ValidIdentifier(ident) && st.minAlign >= 4
    requires 0 < root <= |st.msg| && r == Finish(st, root, ident, sizePrefix) && |r.msg| < TWO31
    requires e <= |r.msg| && a <= st.minAlign && Aligned(e, a)
    ensures Aligned(|r.msg| - e, a)
  {
    hide Aligned, Finish;
    FinishReads(st, root, ident, sizePrefix, r);
    AlignmentDivides(a, st.minAlign, |r.msg|);
    AlignedSum(|r.msg| - e, e, a);
  }
}
