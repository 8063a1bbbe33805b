/** Where the builder puts things: each part of an object at the first place that is aligned for it, with
  * zeros between, and nothing else. Together with the values read back this leaves no freedom in what
  * is written. */
module Layouts {
  import opened Bytes
  import opened Padding
  import opened Tables
  import opened Objects
  import opened Builder
  import opened TableFields
  import opened Adds
  import opened Creation
  import opened VTables
  import opened Finishing

  /** m is s with new bytes in front, the last of them being zeros; the first n of them are of interest. */
  predicate PaddedAfter(m: bytes, n: nat, s: bytes) {
    Suffix(s, m) && n + |s| <= |m| && forall q | n <= q < |m| - |s| :: m[q] == 0
  }

  // Tables

  function Width(add: Add): Alignment {
    EntryWidth(EntryOf(add))
  }

  /** Where the last of the fields was put, or the table was started. */
  function LastPlace(start: nat, locs: seq<FieldLoc>): nat {
    if locs == [] then start else locs[|locs| - 1].off
  }

  /** One field after the other, each at the first place where it is aligned. */
  predicate Packed(start: nat, locs: seq<FieldLoc>, adds: seq<Add>) {
    && |locs| == |adds|
    && forall k | 0 <= k < |locs| ::
         FirstAligned(locs[k].off, LastPlace(start, locs[..k]) + Width(adds[k]), Width(adds[k]))
  }

  /** The larger of a and the widths of the fields. */
  function Widest(a: Alignment, adds: seq<Add>): Alignment
    decreases |adds|
  {
    if adds == [] then a else Widest(Max(a, Width(adds[0])), adds[1..])
  }

  lemma LastIs(start: nat, locs: seq<FieldLoc>, loc: FieldLoc)
    ensures LastPlace(start, locs + [loc]) == loc.off
  {}

  lemma PackedMore(start: nat, locs: seq<FieldLoc>, adds: seq<Add>, loc: FieldLoc, add: Add)
    requires Packed(start, locs, adds)
    requires FirstAligned(loc.off, LastPlace(start, locs) + Width(add), Width(add))
    ensures Packed(start, locs + [loc], adds + [add]) && LastPlace(start, locs + [loc]) == loc.off
  {
    hide FirstAligned, LastPlace, Width;
    LastIs(start, locs, loc);
    var r := locs + [loc];
    forall k | 0 <= k < |r|
      ensures FirstAligned(r[k].off, LastPlace(start, r[..k]) + Width((adds + [add])[k]), Width((adds + [add])[k]))
    {
      if k < |locs| {
        assert r[..k] == locs[..k];
      } else {
        assert r[..k] == locs;
      }
    }
  }

  lemma ApplyAddPacks(st: State, start: nat, done: seq<Add>, add: Add, r: State)
    requires Packed(start, st.locs, done) && LastPlace(start, st.locs) == |st.msg|
    requires ValidAdd(st, add) && r == ApplyAdd(st, add) && |r.msg| < TWO31
    ensures Packed(start, r.locs, done + KeptAdds([add], st.forceDefaults)) && LastPlace(start, r.locs) == |r.msg|
    ensures r.minAlign == Widest(st.minAlign, KeptAdds([add], st.forceDefaults))
  {
    hide Packed, FirstAligned, EntryAt, PushElement, PushOffset, ApplyAdd;
    assert KeptAdds([add], st.forceDefaults) == if Kept(add, st.forceDefaults) then [add] else [];
    ApplyAddIs(st, add);
    if !Kept(add, st.forceDefaults) {
      assert done + [] == done;
    } else {
      var p := PushAdd(st, add);
      if add.Element? {
        PushElementEntry(st, add.w, add.v, p);
      } else {
        PushOffsetEntry(st, add.off, p);
      }
      PackedMore(start, st.locs, done, FieldLoc(|p.msg|, add.id), add);
    }
  }

  function PushAdd(st: State, add: Add): State
    requires Refers(st, add) && (add.Offset? ==> add.off != 0)
  {
    if add.Element? then PushElement(st, add.w, add.v) else PushOffset(st, add.off)
  }

  lemma ApplyAddIs(st: State, add: Add)
    requires Refers(st, add)
    ensures ApplyAdd(st, add) ==
            if Kept(add, st.forceDefaults) then
              var p := PushAdd(st, add);
              TrackField(p, add.id, |p.msg|)
            else st
  {
    hide PushElement;
  }

  lemma {:induction false} WidestConcat(a: Alignment, x: seq<Add>, y: seq<Add>)
    ensures Widest(a, x + y) == Widest(Widest(a, x), y)
    decreases |x|
  {
    if x == [] {
      assert x + y == y;
    } else {
      assert (x + y)[1..] == x[1..] + y;
      WidestConcat(Max(a, Width(x[0])), x[1..], y);
    }
  }

  lemma {:induction false} ApplyAddsPack(st: State, start: nat, done: seq<Add>, adds: seq<Add>, r: State)
    requires Packed(start, st.locs, done) && LastPlace(start, st.locs) == |st.msg|
    requires ValidAdds(st, adds) && r == ApplyAdds(st, adds) && |r.msg| < TWO31
    ensures Packed(start, r.locs, done + KeptAdds(adds, st.forceDefaults)) && LastPlace(start, r.locs) == |r.msg|
    ensures r.minAlign == Widest(st.minAlign, KeptAdds(adds, st.forceDefaults))
    decreases |adds|
  {
    hide Packed, ApplyAdd;
    if adds == [] {
      assert done + [] == done;
    } else {
      var st' := ApplyAdd(st, adds[0]);
      ApplyAddTracks(st, adds[0]);
      ValidAddsTail(st, st', adds);
      ApplyAddPacks(st, start, done, adds[0], st');
      ApplyAddsPack(st', start, done + KeptAdds([adds[0]], st.forceDefaults), adds[1..], r);
      KeptAddsCons(done, adds, st.forceDefaults);
      KeptAddsCons([], adds, st.forceDefaults);
      WidestConcat(st.minAlign, KeptAdds([adds[0]], st.forceDefaults), KeptAdds(adds[1..], st.forceDefaults));
      assert [] + KeptAdds(adds, st.forceDefaults) == KeptAdds(adds, st.forceDefaults);
    }
  }

  /** The slot of a field leads to offset off from the end, inside the table of the given size at pos:
    * behind its first word, in front of its end. */
  predicate FieldInside(m: bytes, pos: int, size: nat, add: Add, off: nat) {
    && IsField(add.id) && FieldReadable(m, pos, add.id)
    && Slot(m, pos, SlotOf(add.id)) == Some(|m| - off)
    && pos + 4 <= |m| - off && |m| - off + Width(add) <= pos + size
  }

  /** A finished table fills the space from its first word to what had been written before it was started:
    * the fields kept, in the order of their additions, the first nearest to the end, each at the first
    * place where it is aligned, and then the first word. Its vtable tells its size. */
  predicate TableLaidOut(m: bytes, start: nat, loc: nat, locs: seq<FieldLoc>, kept: seq<Add>) {
    && start + 4 <= loc <= |m|
    && Packed(start, locs, kept)
    && FirstAligned(loc, LastPlace(start, locs) + 4, 4)
    && HasObjectSize(m, |m| - loc, loc - start)
    && forall k | 0 <= k < |kept| :: FieldInside(m, |m| - loc, loc - start, kept[k], locs[k].off)
  }

  lemma KeptInside(m: bytes, start: nat, loc: nat, n: nat, locs: seq<FieldLoc>, kept: seq<Add>, k: nat)
    requires TableBuilt(m, |m| - loc, n, locs, kept) && loc <= |m| && k < |kept|
    requires start + Width(kept[k]) <= locs[k].off && locs[k].off + 4 <= loc
    ensures FieldInside(m, |m| - loc, loc - start, kept[k], locs[k].off)
  {
    hide EntryAt, HoldsTable, FieldReadable, Slot;
    MaxIdBounds(kept, kept[k]);
    assert locs[k].id == kept[k].id;
    assert IndexOf(locs, kept[k].id) == Some(k);
    assert SlotLeads(m, |m| - loc, SlotOf(kept[k].id), locs);
  }

  lemma FieldsEnd(st: State, start: nat, done: seq<Add>)
    requires TableOpen(st, start, done)
    ensures |st.locs| == |done|
    ensures forall k | 0 <= k < |done| :: start + Width(done[k]) <= st.locs[k].off <= |st.msg|
  {
    forall k | 0 <= k < |done|
      ensures start + Width(done[k]) <= st.locs[k].off <= |st.msg|
    {
      assert EntryAt(st.msg, st.locs[k].off, EntriesOf(done)[k]);
    }
  }

  lemma AddedPacks(st: State, adds: seq<Add>, o: State)
    requires ValidTable(st, adds) && o == Added(st, adds)
    ensures var kept := KeptAdds(adds, st.forceDefaults);
            && Packed(|st.msg|, o.locs, kept) && LastPlace(|st.msg|, o.locs) == |o.msg|
            && o.minAlign == Widest(st.minAlign, kept)
  {
    hide ApplyAdds, PushElement, TableOpen, TableReady, KeptAdds, ValidVTables, Packed, Widest;
    var kept := KeptAdds(adds, st.forceDefaults);
    AddedIsReady(st, adds, o);
    assert [] + kept == kept;
    NothingPacked(|st.msg|);
    ApplyAddsPack(StartTable(st), |st.msg|, [], adds, o);
  }

  /** The builder tracks exactly the widths stored, and that of the table's first word. */
  lemma BuildTableTracks(st: State, adds: seq<Add>, r: State, loc: nat)
    requires ValidTable(st, adds) && (r, loc) == BuildTable(st, adds)
    ensures r.minAlign == Max(4, Widest(st.minAlign, KeptAdds(adds, st.forceDefaults)))
  {
    hide ApplyAdds, PushElement, SealTable, ReadyToSeal, KeptAdds, ValidVTables, FirstAligned, Packed, Widest;
    var o := Added(st, adds);
    var p := PushElement(o, 4, 0);
    AddedPacks(st, adds, o);
    PushElementFacts(o, 4, 0);
    FirstWordPushed(st, adds, o, p);
    SealTableFrame(p, o.msg, |st.msg|, r);
  }

  lemma TableEndFirst(o: State)
    ensures FirstAligned(TableEnd(o), |o.msg| + 4, 4) && |o.msg| + 4 <= TableEnd(o)
  {
    hide PushElement, Aligned;
    PushElementFacts(o, 4, 0);
  }

  lemma BuildTableLaidOut(st: State, adds: seq<Add>, r: State, loc: nat)
    requires ValidTable(st, adds) && (r, loc) == BuildTable(st, adds)
    ensures TableLaidOut(r.msg, |st.msg|, loc, Added(st, adds).locs, KeptAdds(adds, st.forceDefaults))
  {
    hide ApplyAdds, PushElement, SealTable, EndTable, TableOpen, TableReady, TableBuilt, HasObjectSize, KeptAdds,
         FieldInside, ValidVTables, FirstAligned, Packed, TableEnd, LastPlace, HoldsTable, SlotsLead, Extends, Width;
    var o, kept := Added(st, adds), KeptAdds(adds, st.forceDefaults);
    AddedIsReady(st, adds, o);
    assert [] + kept == kept;
    AddedPacks(st, adds, o);
    TableEndFirst(o);
    EndTableReads(o, |st.msg|, r, loc);
    BuildTableBuilds(st, adds, r, loc);
    FieldsEnd(o, |st.msg|, kept);
    forall k | 0 <= k < |kept|
      ensures FieldInside(r.msg, |r.msg| - loc, loc - |st.msg|, kept[k], o.locs[k].off)
    {
      KeptInside(r.msg, |st.msg|, loc, FieldSlots(o), o.locs, kept, k);
    }
  }

  lemma NothingPacked(start: nat)
    ensures Packed(start, [], [])
  {}

  // Strings and vectors

  predicate StringFront(m: bytes, s: bytes) {
    4 + |s| <= |m| && m[..4 + |s|] == Encode(|s|, 4) + s
  }

  /** What CreateString assembles: a is the message after PreAlign, k bytes of it padding. */
  predicate StringParts(r: bytes, s: bytes, a: bytes, k: nat, m: bytes) {
    && r == Encode(|s|, 4) + (s + Zeros(1) + a)
    && a == Zeros(k) + m
    && FirstAligned(|a| + |s| + 1, |m| + |s| + 1, 4)
  }

  /** A string takes its length, its bytes, a NUL, and behind it as few zeros as put the length at a
    * multiple of 4. */
  lemma CreateStringLaidOut(st: State, s: bytes, r: State, off: nat)
    requires (r, off) == CreateString(st, s)
    ensures off == |r.msg| && FirstAligned(|r.msg|, |st.msg| + 4 + |s| + 1, 4)
    ensures StringFront(r.msg, s) && PaddedAfter(r.msg, 4 + |s|, st.msg)
    ensures r == st.(msg := r.msg, minAlign := Max(4, st.minAlign))
  {
    hide CreateString, StringParts, StringFront, PaddedAfter, FirstAligned, PreAlign, Encode, Aligned;
    StringOffset(st, s);
    CreateStringBytes(st, s, r, off);
    var a := PreAlign(st, |s| + 1, 4).msg;
    PartsAre(st, s, r, off, a);
    StringPlaced(r.msg, s, a, |a| - |st.msg|, st.msg);
  }

  lemma PartsAre(st: State, s: bytes, r: State, off: nat, a: bytes)
    requires (r, off) == CreateString(st, s) && a == PreAlign(st, |s| + 1, 4).msg
    ensures StringParts(r.msg, s, a, |a| - |st.msg|, st.msg)
  {
    hide Aligned, Encode, CreateString, PreAlign;
    CreateStringBytes(st, s, r, off);
    PreAlignIs(st, |s| + 1, 4);
  }

  lemma StringPlaced(r: bytes, s: bytes, a: bytes, k: nat, m: bytes)
    requires StringParts(r, s, a, k, m)
    ensures FirstAligned(|r|, |m| + 4 + |s| + 1, 4) && StringFront(r, s) && PaddedAfter(r, 4 + |s|, m)
  {
    hide StringParts, StringFront, PaddedAfter, FirstAligned;
    StringSize(r, s, a, k, m);
    StringShape(r, s, a, k, m);
  }

  lemma StringSize(r: bytes, s: bytes, a: bytes, k: nat, m: bytes)
    requires StringParts(r, s, a, k, m)
    ensures FirstAligned(|r|, |m| + 4 + |s| + 1, 4)
  {
    hide Encode, Aligned;
    FirstAlignedMore(|a| + |s| + 1, |m| + |s| + 1);
  }

  lemma FirstAlignedMore(n: nat, from: nat)
    requires FirstAligned(n, from, 4)
    ensures FirstAligned(n + 4, from + 4, 4)
  {
    hide Aligned;
    AlignedSelf(4);
    AlignedSum(4, n, 4);
  }

  lemma StringShape(r: bytes, s: bytes, a: bytes, k: nat, m: bytes)
    requires StringParts(r, s, a, k, m)
    ensures StringFront(r, s) && PaddedAfter(r, 4 + |s|, m)
  {
    hide FirstAligned, Encode, PaddedAfter;
    var z := Zeros(k + 1);
    assert Zeros(1) + Zeros(k) == z;
    assert s + Zeros(1) + a == s + (z + m);
    ConcatAssoc(Encode(|s|, 4), s, z + m);
    PaddedBy(Encode(|s|, 4) + s, k + 1, m);
  }

  lemma PaddedBy(front: bytes, k: nat, m: bytes)
    ensures (front + (Zeros(k) + m))[..|front|] == front && PaddedAfter(front + (Zeros(k) + m), |front|, m)
  {
    SuffixOfSum(front, Zeros(k), m);
  }

  lemma PreAlignIs(st: State, len: nat, a: Alignment)
    ensures var r := PreAlign(st, len, a);
            && FirstAligned(|r.msg| + len, |st.msg| + len, a)
            && r.msg == Zeros(|r.msg| - |st.msg|) + st.msg
            && r == st.(msg := r.msg, minAlign := Max(a, st.minAlign))
  {
    PaddingAligns(|st.msg| + len, a);
  }

  /** A vector of offsets takes its length and its elements, and behind them as few zeros as put them at
    * multiples of 4. */
  lemma CreateVectorLaidOut(st: State, offs: seq<nat>, r: State, off: nat)
    requires AllRefersTo(st, offs) && (r, off) == CreateVector(st, offs) && |r.msg| < TWO31
    ensures off == |r.msg| && FirstAligned(off, |st.msg| + 4 + 4 * |offs|, 4)
    ensures PaddedAfter(r.msg, 4 + 4 * |offs|, st.msg)
    ensures r == st.(msg := r.msg, minAlign := Max(4, st.minAlign), nested := false)
  {
    hide Aligned, FirstAligned, StartVector, PushOffset, PushOffsets, PushElement, OffsetsAt, HoldsVector, Suffix,
         PaddedAfter;
    var n := |offs|;
    var a := StartVector(st, n, 4);
    StartVectorAligns(st, n, a);
    StartVectorPads(st, n, a);
    var p := PushOffsets(a, offs);
    PushOffsetsRead(a, offs, p);
    assert r == EndVector(p, n);
    VectorCloses(p, n, r);
    SuffixTransitive(a.msg, p.msg, r.msg);
    VectorPlaced(a.msg, st.msg, n, r.msg);
  }

  lemma VectorPlaced(a: bytes, m: bytes, n: nat, r: bytes)
    requires |m| <= |a| && a == Zeros(|a| - |m|) + m && FirstAligned(|a| + 4 * n, |m| + 4 * n, 4)
    requires Suffix(a, r) && |r| == |a| + 4 * n + 4
    ensures FirstAligned(|r|, |m| + 4 + 4 * n, 4) && PaddedAfter(r, 4 + 4 * n, m)
  {
    hide FirstAligned, PaddedAfter;
    FirstAlignedMore(|a| + 4 * n, |m| + 4 * n);
    PaddedBehind(r, a, |a| - |m|, m);
  }

  lemma StartVectorPads(st: State, n: nat, a: State)
    requires a == StartVector(st, n, 4)
    ensures FirstAligned(|a.msg| + 4 * n, |st.msg| + 4 * n, 4)
    ensures |st.msg| <= |a.msg| && a.msg == Zeros(|a.msg| - |st.msg|) + st.msg
  {
    hide Aligned, PreAlign;
    var b := PreAlign(st.(nested := true), 4 * n, 4);
    assert n * 4 == 4 * n;
    PreAlignIs(st.(nested := true), 4 * n, 4);
    PreAlignIs(b, 4 * n, 4);
    FirstAlignedIsLeast(|a.msg| + 4 * n, |b.msg| + 4 * n, 4);
    NoPadding(|b.msg| + 4 * n, 4);
  }

  lemma PaddedBehind(m: bytes, a: bytes, k: nat, s: bytes)
    requires Suffix(a, m) && a == Zeros(k) + s
    ensures PaddedAfter(m, |m| - |a|, s)
  {
    SuffixSplit(m, a);
    SuffixOfSum(m[..|m| - |a|], Zeros(k), s);
    forall q | |m| - |a| <= q < |m| - |s|
      ensures m[q] == 0
    {
      assert m[q] == a[q - (|m| - |a|)];
    }
  }

  lemma SuffixOfSum(x: bytes, z: bytes, s: bytes)
    ensures Suffix(s, x + (z + s))
  {}

  // Finish

  /** Finish puts the root offset, and size and identifier if asked to, in front of the message, and
    * behind them as few zeros as make the whole a multiple of the largest alignment. */
  lemma FinishLaidOut(st: State, root: nat, ident: Option<bytes>, sizePrefix: bool, r: State)
    requires ValidIdentifier(ident) && st.minAlign >= 4
    requires 0 < root <= |st.msg| && r == Finish(st, root, ident, sizePrefix)
    ensures FirstAligned(|r.msg|, |st.msg| + HeaderSize(ident, sizePrefix), st.minAlign)
    ensures PaddedAfter(r.msg, HeaderSize(ident, sizePrefix), st.msg)
    ensures r == st.(msg := r.msg, vtables := [], finished := true)
  {
    hide Aligned, FirstAligned, Finish, PreAlign, PaddedAfter, Suffix;
    var h := HeaderSize(ident, sizePrefix);
    var a := PreAlign(st, h, st.minAlign).msg;
    PreAlignIs(st, h, st.minAlign);
    FinishBehind(st, root, ident, sizePrefix, r, a);
    FinishBytes(st, root, ident, sizePrefix, r);
    PaddedBehind(r.msg, a, |a| - |st.msg|, st.msg);
  }

  lemma FinishBehind(st: State, root: nat, ident: Option<bytes>, sizePrefix: bool, r: State, a: bytes)
    requires ValidIdentifier(ident) && st.minAlign >= 4
    requires 0 < root <= |st.msg| && r == Finish(st, root, ident, sizePrefix)
    requires a == PreAlign(st, HeaderSize(ident, sizePrefix), st.minAlign).msg
    ensures Suffix(a, r.msg) && |r.msg| == |a| + HeaderSize(ident, sizePrefix)
  {
    hide Aligned, Finish, PreAlign, Encode, Suffix;
    FinishBytes(st, root, ident, sizePrefix, r);
    var b := Padded(st, ident, sizePrefix);
    HeaderInFront(if sizePrefix then Encode(|b| + 4, 4) else [], Encode(|b| - root + 4, 4),
                  if ident.Some? then ident.value else [], a);
  }

  lemma HeaderInFront(size: bytes, root: bytes, ident: bytes, a: bytes)
    ensures Suffix(a, size + (root + (ident + a)))
  {}
}
