/** FlexBuffers: the Builder as it runs, over its buffer and stack. Every method is proved to do to its
  * state what the functions of FlexBuilder do to theirs, and never to fail an assertion. */
module FlexBuilders {
  import opened Bytes
  import opened Padding
  import opened StringOrder
  import opened Sorting
  import opened FlexReading
  import opened FlexWidths
  import opened FlexWriting
  import opened FlexVectors
  import opened FlexRuns
  import opened FlexRoundTrip
  import Spec = FlexBuilder
  import opened FlexBuilder

  /** A stack entry that may be stored: an offset points into the buffer, a key's to its string. */
  ghost predicate Storable(m: bytes, v: Value) {
    IsInline(v.t) || (v.u <= |m| && (v.t == FBT_KEY ==> IsCString(m, v.u)))
  }

  ghost predicate AllStorable(m: bytes, vals: seq<Value>) {
    forall k | 0 <= k < |vals| :: Storable(m, vals[k])
  }

  lemma StorableKept(m: bytes, post: bytes, vals: seq<Value>)
    requires AllStorable(m, vals)
    ensures AllStorable(m + post, vals)
  {
    hide CStringAt;
    forall k | 0 <= k < |vals|
      ensures Storable(m + post, vals[k])
    {
      assert Storable(m, vals[k]);
      if !IsInline(vals[k].t) && vals[k].t == FBT_KEY {
        var s :| CStringAt(m, vals[k].u, s);
        CStringKept(m, post, vals[k].u, s);
      }
    }
  }

  class Builder {
    var buf: bytes
    var stack: seq<Value>
    var keyPool: seq<nat>
    var forceMinWidth: BitWidth
    var hasDuplicateKeys: bool
    const shareKeys: bool

    constructor (shareKeys: bool)
      ensures State() == Spec.EMPTY.(shareKeys := shareKeys) && Valid()
    {
      this.buf, this.stack, this.keyPool := [], [], [];
      this.shareKeys := shareKeys;
      this.forceMinWidth := 0;
      this.hasDuplicateKeys := false;
    }

    ghost function State(): Spec.State
      reads this
    {
      Spec.State(buf, stack, keyPool, shareKeys, forceMinWidth, hasDuplicateKeys)
    }

    ghost predicate Valid()
      reads this
    {
      Small(buf, |stack|) && AllStorable(buf, stack) && PoolOk(buf, keyPool)
    }

    /** Valid except that the buffer may have outgrown the address space. */
    ghost predicate Sound()
      reads this
    {
      AllStorable(buf, stack) && PoolOk(buf, keyPool)
    }

    // Widths

    /** Value::ElemWidth: tries each byte width in turn; its final assertion is never reached. */
    method ElemWidth(v: Value, bufSize: nat, index: nat) returns (w: BitWidth)
      requires IsInline(v.t) || SmallSizes(v.u, bufSize, index)
      ensures w == Spec.ElemWidth(v, bufSize, index)
    {
      hide OffsetLoc, WidthU, TryWidths;
      if IsInline(v.t) {
        return v.minWidth;
      }
      ghost var found := TryWidths(v.u, bufSize, index, 0);
      OffsetNoWrap(v.u, bufSize, index, 0);
      TryWidthsFinds(v.u, bufSize, index, 0);
      var i := 0;
      while i < 4
        invariant i <= found
        invariant i < 4 ==> TryWidths(v.u, bufSize, index, i) == found
      {
        OffsetNoWrap(v.u, bufSize, index, i);
        var width := WidthU((OffsetLoc(bufSize, index, i) - v.u) % TWO64);
        TryStep(v.u, bufSize, index, i);
        if width == i {
          return i;
        }
        i := i + 1;
      }
      assert false;
    }

    // Bytes

    method Align(w: BitWidth) returns (b: nat)
      modifies `buf
      ensures buf == Spec.Align(old(buf), w) && b == ByteWidth(w)
    {
      b := ByteWidth(w);
      buf := buf + Zeros(PaddingBytes(|buf|, b));
    }

    method WriteBytes(s: bytes)
      modifies `buf
      ensures buf == old(buf) + s
    {
      buf := buf + s;
    }

    method Write(n: nat, b: nat)
      modifies `buf
      ensures buf == old(buf) + Encode(n, b)
    {
      WriteBytes(Encode(n, b));
    }

    /** The range assertion of the source is this precondition. */
    method WriteOffset(o: nat, w: BitWidth)
      requires o <= |buf| && |buf| - o < Pow256(ByteWidth(w))
      modifies `buf
      ensures buf == old(buf) + Encode(|old(buf)| - o, ByteWidth(w))
    {
      var reloff := |buf| - o;
      Write(reloff, ByteWidth(w));
    }

    method WriteAny(v: Value, w: BitWidth)
      requires Fits(|buf|, v, w)
      modifies `buf
      ensures buf == old(buf) + AnyBytes(|old(buf)|, v, ByteWidth(w))
    {
      hide Encode;
      if IsInline(v.t) {
        Write(v.u, ByteWidth(w));
      } else {
        WriteOffset(v.u, w);
      }
    }

    // Values

    method Null()
      modifies `stack
      ensures State() == Spec.PushNull(old(State()))
      ensures old(Sound()) ==> Sound()
    {
      stack := stack + [Value(0, FBT_NULL, 0)];
    }

    method Bool(b: bool)
      modifies `stack
      ensures State() == Spec.PushBool(old(State()), b)
      ensures old(Sound()) ==> Sound()
    {
      stack := stack + [Value(if b then 1 else 0, FBT_BOOL, 0)];
    }

    method Int(i: int)
      requires -TWO63 <= i < TWO63
      modifies `stack
      ensures State() == Spec.PushInt(old(State()), i)
      ensures old(Sound()) ==> Sound()
    {
      stack := stack + [Value(Pattern64(i), FBT_INT, WidthI(i))];
    }

    method UInt(u: nat)
      requires u < TWO64
      modifies `stack
      ensures State() == Spec.PushUInt(old(State()), u)
      ensures old(Sound()) ==> Sound()
    {
      stack := stack + [Value(u, FBT_UINT, WidthU(u))];
    }

    /** A key written at the end is dropped again when the pool has it. */
    method Key(k: bytes)
      requires Sound() && NulFree(k)
      modifies this
      ensures State() == Spec.PushKey(old(State()), k)
      ensures Sound()
    {
      hide FindKey, CStringAt, IsCString, PoolOk, Small, StrCmp;
      var sloc := |buf|;
      ghost var st := State();
      FindKeyFinds(buf, keyPool, k, FindKey(buf + k + [0], keyPool, |buf|));
      NewKey(buf, k);
      PushKeyHolds(st, k, Spec.PushKey(st, k));
      StorableKept(buf, k + [0], stack);
      ConcatAssoc(buf, k, [0]);
      WriteBytes(k + [0]);
      assert buf == st.buf + k + [0];
      if shareKeys {
        var found := PoolFind(sloc);
        match found
        case Some(p) =>
          buf := buf[..sloc];
          assert buf == st.buf;
          sloc := p;
        case None =>
          keyPool := keyPool + [sloc];
      }
      CStringHere(buf, sloc, k);
      stack := stack + [Value(sloc, FBT_KEY, 0)];
    }

    /** key_pool.find: strcmp against the string at p. */
    method PoolFind(p: nat) returns (r: Option<nat>)
      ensures r == FindKey(buf, keyPool, p)
    {
      var i := 0;
      while i < |keyPool|
        invariant i <= |keyPool|
        invariant FindKey(buf, keyPool, p) == FindKey(buf, keyPool[i..], p)
      {
        assert keyPool[i..][1..] == keyPool[i + 1..];
        if StrCmp(buf, keyPool[i], buf, p) == 0 {
          return Some(keyPool[i]);
        }
        i := i + 1;
      }
      return None;
    }

    method String(s: bytes)
      requires Sound()
      modifies `buf, `stack
      ensures State() == Spec.PushString(old(State()), s)
      ensures Sound()
    {
      hide Encode, PaddingBytes, PoolOk, WidthU, IsCString;
      ghost var m := buf;
      var w := WidthU(|s|);
      var b := Align(w);
      Write(|s|, b);
      var sloc := |buf|;
      WriteBytes(s + [0]);
      stack := stack + [Value(sloc, FBT_STRING, w)];
      assert buf == m + buf[|m|..];
      StorableKept(m, buf[|m|..], old(stack));
      PoolKept(m, buf[|m|..], keyPool);
    }

    // Vectors and maps

    /** The width of a vector: the largest that its length, the offset of its keys and its elements need. */
    method VectorBitWidth(start: nat, vecLen: nat, step: nat, keys: Option<Value>) returns (w: BitWidth)
      requires Valid() && ElementsStorable(buf, stack, start, vecLen, step, keys)
      ensures w == VectorWidth(State(), Strided(stack, start, step), step, keys)
    {
      hide MaxElemWidth, Spec.ElemWidth, WidthU, Storable, PoolOk;
      w := Max(forceMinWidth, WidthU(vecLen));
      var prefixElems := 1;
      if keys.Some? {
        var keysWidth := ElemWidth(keys.value, |buf|, 0);
        w := Max(w, keysWidth);
        prefixElems := prefixElems + 2;
      }
      ghost var w0 := w;
      ghost var total := MaxElemWidth(Strided(stack, start, step), |buf|, step, prefixElems);
      var i := start;
      while i < |stack|
        invariant start <= i
        invariant Max(w0, total) == Max(w, MaxElemWidth(Strided(stack, i, step), |buf|, step, i - start + prefixElems))
      {
        StorableInside(buf, stack, i);
        var elemWidth := ElemWidth(stack[i], |buf|, i - start + prefixElems);
        MaxElemWidthStep(Strided(stack, i, step), |buf|, step, i - start + prefixElems);
        w := Max(w, elemWidth);
        i := i + step;
      }
      MaxElemWidthNone(Strided(stack, i, step), |buf|, step, i - start + prefixElems);
    }

    method WriteElements(start: nat, step: nat, w: BitWidth)
      requires 1 <= step
      requires forall k | 0 <= k < |Strided(stack, start, step)| :: FitsAt(|buf|, k, Strided(stack, start, step)[k], w)
      modifies `buf
      ensures buf == old(buf) + ElemBytes(|old(buf)|, Strided(stack, start, step), ByteWidth(w))
    {
      hide AnyBytes, ElemBytes, Fits;
      var b := ByteWidth(w);
      ghost var all := Strided(stack, start, step);
      ghost var c := buf;
      ghost var k := 0;
      var i := start;
      ConcatAssoc(c, [], []);
      while i < |stack|
        invariant k <= |all| && Strided(stack, i, step) == all[k..]
        invariant |buf| == |c| + k * b
        invariant buf + ElemBytes(|buf|, all[k..], b) == c + ElemBytes(|c|, all, b)
        decreases |stack| - i
      {
        assert all[k..][0] == stack[i] && all[k..][1..] == all[k + 1..];
        ElemBytesStep(|buf|, all[k..], b);
        ConcatAssoc(buf, AnyBytes(|buf|, stack[i], b), ElemBytes(|buf| + b, all[k + 1..], b));
        assert (k + 1) * b == k * b + b;
        WriteAny(stack[i], w);
        k := k + 1;
        i := i + step;
      }
      assert all[k..] == [];
      ElemBytesNone(|buf|, all[k..], b);
    }

    method WriteTypes(start: nat, step: nat, w: BitWidth)
      requires 1 <= step
      modifies `buf
      ensures buf == old(buf) + TypeBytes(Strided(stack, start, step), w)
    {
      hide TypeByte;
      ghost var c := buf;
      ghost var all := Strided(stack, start, step);
      ghost var k := 0;
      var i := start;
      while i < |stack|
        invariant k <= |all| && Strided(stack, i, step) == all[k..]
        invariant buf == c + TypeBytes(all, w)[..k]
        decreases |stack| - i
      {
        assert all[k..][0] == stack[i] && all[k..][1..] == all[k + 1..];
        assert TypeBytes(all, w)[..k + 1] == TypeBytes(all, w)[..k] + [TypeByte(stack[i], w)];
        WriteBytes([TypeByte(stack[i], w)]);
        k := k + 1;
        i := i + step;
      }
      assert all[k..] == [];
    }

    method WriteVectorHeader(vecLen: nat, keys: Option<Value>, w: BitWidth)
      requires keys.Some? ==> !IsInline(keys.value.t) && Fits(|buf|, keys.value, w)
      modifies `buf
      ensures buf == old(buf) + VectorHeader(|old(buf)|, vecLen, keys, ByteWidth(w))
    {
      hide Encode;
      var b := ByteWidth(w);
      if keys.Some? {
        WriteOffset(keys.value.u, w);
        Write(ByteWidth(keys.value.minWidth), b);
      }
      Write(vecLen, b);
    }

    /** Writes the vecLen stack entries that are step apart from start on. All are keys when typed. */
    method CreateVector(start: nat, vecLen: nat, step: nat, typed: bool, keys: Option<Value>) returns (v: Value)
      requires Valid() && ElementsStorable(buf, stack, start, vecLen, step, keys)
      modifies `buf
      ensures (buf, v) == Spec.CreateVector(old(State()), Strided(stack, start, step), step, typed, keys)
    {
      hide VectorWidth, PaddingBytes, ElemBytes, TypeBytes, Storable, PoolOk, Fits, VectorHeader;
      ghost var st := State();
      ghost var vals := Strided(stack, start, step);
      var w := VectorBitWidth(start, vecLen, step, keys);
      ghost var data := OffsetLoc(|buf|, PrefixElems(keys), w);
      StridedFits(st, start, vecLen, step, keys, w, data);
      var b := Align(w);
      HeaderSize(|buf|, vecLen, keys, b);
      WriteVectorHeader(vecLen, keys, w);
      var vloc := |buf|;
      WriteElements(start, step, w);
      ghost var body := buf;
      if !typed {
        WriteTypes(start, step, w);
      }
      assert buf == body + (if typed then [] else TypeBytes(vals, w));
      return Value(vloc, if keys.Some? then FBT_MAP else if typed then FBT_VECTOR_KEY else FBT_VECTOR, w);
    }

    method EndVector(start: nat)
      requires Valid() && start <= |stack|
      modifies `buf, `stack
      ensures State() == Spec.EndVector(old(State()), start)
      ensures Sound()
    {
      hide Spec.CreateVector, PoolOk, Storable;
      StridedOne(stack, start);
      EachStorable(buf, stack, start, 1);
      ghost var st := State();
      var vec := CreateVector(start, |stack| - start, 1, false, None);
      stack := stack[..start] + [vec];
      ClosedSound(st, stack, start, st.stack[start..], 1, false, None, buf, vec);
    }

    /** Sorts interleaved keys and values by key, two stack entries at a time; order tells where each went.
      * Two equal keys are noted. */
    method SortPairs(start: nat) returns (ghost order: seq<nat>)
      requires Valid() && start <= |stack| && KeyPairs(stack[start..])
      modifies `stack, `hasDuplicateKeys
      ensures Sorts(buf, old(stack[start..]), order)
      ensures stack == old(stack[..start]) + Arranged(old(stack[start..]), order)
      ensures hasDuplicateKeys == (old(hasDuplicateKeys) || EqualKeys(buf, Picked(old(stack[start..]), order, 0)))
    {
      hide StrCmp, CStringAt, Storable, PoolOk, Spec.Sorts, IsOrder, InOrder, StringLessThan, Small, Distinct;
      var pairs, m := stack[start..], buf;
      ghost var ks := KeyStrings(m, pairs, stack, start);
      var compare: (nat, nat) --> int := (i: nat, j: nat) requires 2 * i < |pairs| && 2 * j < |pairs| =>
        StrCmp(m, pairs[2 * i].u, m, pairs[2 * j].u);
      KeysCompare(m, pairs, ks, compare);
      var sorted, equal := InsertionSort(|pairs| / 2, compare, ks);
      SortedPairs(m, pairs, ks, sorted);
      EqualPairs(m, pairs, ks, sorted);
      order := sorted;
      hasDuplicateKeys := hasDuplicateKeys || equal;
      stack := stack[..start] + Arranged(pairs, sorted);
    }

    /** Sorts the pairs, writes the keys as a typed vector and then the values as the map. */
    method EndMap(start: nat) returns (ghost order: seq<nat>)
      requires Valid() && start <= |stack| && KeyPairs(stack[start..])
      requires |buf| + 8 * |stack| + 16 < TWO63
      modifies `buf, `stack, `hasDuplicateKeys
      ensures Sorts(old(buf), old(stack[start..]), order)
      ensures State() == Spec.EndMap(old(State()), start, order)
      ensures Sound()
    {
      hide Spec.CreateVector, Spec.EndMap, AllStorable, PoolOk, Sorts, Arranged, Picked, IsOrder, EqualKeys, Strided;
      ghost var st := State();
      ghost var pairs := stack[start..];
      var len := (|stack| - start) / 2;
      order := SortPairs(start);
      SortsOrder(st.buf, pairs, order);
      ArrangedStorable(st, start, order, stack);
      ghost var st1 := State();
      var keys := CreateVector(start, len, 2, true, None);
      KeysWritten(st1, Picked(pairs, order, 0), buf, keys, stack);
      ghost var st2 := State();
      var vec := CreateVector(start + 1, len, 2, false, Some(keys));
      stack := stack[..start] + [vec];
      assert stack == st.stack[..start] + [vec];
      ClosedSound(st2, stack, start, Picked(pairs, order, 1), 2, false, Some(keys), buf, vec);
      MapClosed(st, start, order, st1, st2, keys, buf, vec);
    }

    method ForceMinimumBitWidth(w: BitWidth)
      modifies `forceMinWidth
      ensures State() == old(State()).(forceMinWidth := w)
      ensures old(Sound()) ==> Sound()
    {
      forceMinWidth := w;
    }

    /** Writes the root value, its type and its width. */
    method Finish()
      requires Valid() && |stack| == 1
      modifies `buf
      ensures buf == Spec.Finish(old(State()))
    {
      hide PaddingBytes, Spec.ElemWidth, AnyBytes, TypeByte, Fits, PoolOk;
      StorableInside(buf, stack, 0);
      var w := ElemWidth(stack[0], |buf|, 0);
      ElementFits(stack[0], |buf|, 0, 0, w);
      var b := Align(w);
      WriteAny(stack[0], w);
      WriteBytes([TypeByte(stack[0], 0)]);
      WriteBytes([b]);
    }
  }

  /** Keys and values in turn. */
  predicate KeyPairs(pairs: seq<Value>) {
    |pairs| % 2 == 0 && forall i | 0 <= i < |pairs| / 2 :: pairs[2 * i].t == FBT_KEY
  }

  /** The pairs in the given order. */
  function Arranged(pairs: seq<Value>, order: seq<nat>): (s: seq<Value>)
    requires |pairs| % 2 == 0 && IsOrder(order, |pairs| / 2)
    ensures |s| == |pairs|
  {
    seq(|pairs|, i requires 0 <= i < |pairs| => Picked(pairs, order, i % 2)[i / 2])
  }

  ghost predicate KeyStringsAt(m: bytes, pairs: seq<Value>, ks: seq<bytes>) {
    && |pairs| == 2 * |ks|
    && forall i | 0 <= i < |ks| :: pairs[2 * i].t == FBT_KEY && CStringAt(m, pairs[2 * i].u, ks[i])
  }

  /** The strings the keys point to. */
  ghost function KeyStrings(m: bytes, pairs: seq<Value>, stack: seq<Value>, start: nat): (ks: seq<bytes>)
    requires AllStorable(m, stack) && start <= |stack| && pairs == stack[start..] && KeyPairs(pairs)
    ensures KeyStringsAt(m, pairs, ks)
  {
    seq(|pairs| / 2, i requires 0 <= i < |pairs| / 2 =>
      assert Storable(m, stack[start + 2 * i]);
      var k :| CStringAt(m, pairs[2 * i].u, k);
      k)
  }

  lemma KeysCompare(m: bytes, pairs: seq<Value>, ks: seq<bytes>, compare: (nat, nat) --> int)
    requires KeyStringsAt(m, pairs, ks)
    requires forall i: nat, j: nat | i < |ks| && j < |ks| ::
               compare.requires(i, j) && compare(i, j) == StrCmp(m, pairs[2 * i].u, m, pairs[2 * j].u)
    ensures ComparesEqual(compare, ks)
  {
    hide StrCmp, CStringAt, StringLessThan;
    forall i: nat, j: nat | i < |ks| && j < |ks|
      ensures compare(i, j) < 0 <==> StringLessThan(ks[i], ks[j])
      ensures compare(i, j) == 0 <==> ks[i] == ks[j]
    {
      StrCmpOrder(m, pairs[2 * i].u, ks[i], m, pairs[2 * j].u, ks[j]);
    }
  }

  lemma SortedPairs(m: bytes, pairs: seq<Value>, ks: seq<bytes>, order: seq<nat>)
    requires KeyStringsAt(m, pairs, ks) && IsOrder(order, |ks|) && InOrder(ks, order)
    ensures Sorts(m, pairs, order)
  {
    hide StrCmp, StringLessThan, CStringAt;
    var keys := Picked(pairs, order, 0);
    forall j, k | 0 <= j < k < |keys|
      ensures StrCmp(m, keys[j].u, m, keys[k].u) <= 0
    {
      StrCmpOrder(m, keys[j].u, ks[order[j]], m, keys[k].u, ks[order[k]]);
    }
  }

  lemma EqualPairs(m: bytes, pairs: seq<Value>, ks: seq<bytes>, order: seq<nat>)
    requires KeyStringsAt(m, pairs, ks) && IsOrder(order, |ks|)
    ensures EqualKeys(m, Picked(pairs, order, 0)) <==> !Distinct(ks)
  {
    hide CStringAt, EqualKeys, Distinct;
    var sorted := seq(|order|, j requires 0 <= j < |order| => assert order[j] < |ks|; ks[order[j]]);
    EqualStrings(m, Picked(pairs, order, 0), sorted);
    StillDistinct(ks, sorted, order);
  }

  /** On the arranged stack, the entries two apart are the keys, and one further on the values. */
  lemma ArrangedStrided(prefix: seq<Value>, pairs: seq<Value>, order: seq<nat>, second: nat)
    requires |pairs| % 2 == 0 && IsOrder(order, |pairs| / 2) && second < 2
    ensures Strided(prefix + Arranged(pairs, order), |prefix| + second, 2) == Picked(pairs, order, second)
  {
    hide Picked, IsOrder, Strided;
    OrderLength(order, |pairs| / 2);
    var s := prefix + Arranged(pairs, order);
    StridedLength(s, |prefix| + second);
    var r := Strided(s, |prefix| + second, 2);
    forall k | 0 <= k < |r|
      ensures r[k] == Picked(pairs, order, second)[k]
    {
      StridedAt(s, |prefix| + second, 2, k);
      assert (2 * k + second) / 2 == k && (2 * k + second) % 2 == second;
    }
  }

  lemma {:induction false} StridedLength(s: seq<Value>, start: nat)
    requires start <= |s| + 1
    ensures |Strided(s, start, 2)| == (|s| + 1 - start) / 2
    decreases |s| + 1 - start
  {
    if start < |s| {
      StridedLength(s, start + 2);
    }
  }

  /** The entries from start on that are step apart. */
  function Strided(stack: seq<Value>, start: nat, step: nat): (s: seq<Value>)
    requires 1 <= step
    decreases |stack| - start
  {
    if start >= |stack| then [] else [stack[start]] + Strided(stack, start + step, step)
  }

  /** What CreateVector may be called with: as many entries as it is told, and keys written before. */
  ghost predicate ElementsStorable(m: bytes, stack: seq<Value>, start: nat, vecLen: nat, step: nat,
                                   keys: Option<Value>) {
    && 1 <= step <= 2 && vecLen == |Strided(stack, start, step)| && vecLen <= |stack|
    && (keys.Some? ==> !IsInline(keys.value.t) && keys.value.u <= |m|)
  }

  lemma {:induction false} StridedAt(s: seq<Value>, start: nat, step: nat, k: nat)
    requires 1 <= step && k < |Strided(s, start, step)|
    ensures start + k * step < |s| && Strided(s, start, step)[k] == s[start + k * step]
    decreases k
  {
    if k > 0 {
      StridedAt(s, start + step, step, k - 1);
      assert start + step + (k - 1) * step == start + k * step;
    }
  }

  lemma {:induction false} StridedOne(s: seq<Value>, start: nat)
    requires start <= |s|
    ensures Strided(s, start, 1) == s[start..]
    decreases |s| - start
  {
    if start < |s| {
      StridedOne(s, start + 1);
      assert s[start..] == [s[start]] + s[start + 1..];
    }
  }

  lemma EachStorable(m: bytes, stack: seq<Value>, start: nat, step: nat)
    requires AllStorable(m, stack) && 1 <= step
    ensures AllStorable(m, Strided(stack, start, step))
  {
    hide Storable;
    forall k | 0 <= k < |Strided(stack, start, step)|
      ensures Storable(m, Strided(stack, start, step)[k])
    {
      StridedAt(stack, start, step, k);
    }
  }

  lemma StorableInside(m: bytes, stack: seq<Value>, i: nat)
    requires AllStorable(m, stack) && i < |stack|
    ensures IsInline(stack[i].t) || stack[i].u <= |m|
  {
    assert Storable(m, stack[i]);
  }

  lemma StridedFits(st: State, start: nat, vecLen: nat, step: nat, keys: Option<Value>, w: BitWidth, data: nat)
    requires AllStorable(st.buf, st.stack) && Small(st.buf, |st.stack|)
    requires ElementsStorable(st.buf, st.stack, start, vecLen, step, keys)
    requires w == VectorWidth(st, Strided(st.stack, start, step), step, keys)
    requires data == OffsetLoc(|st.buf|, PrefixElems(keys), w)
    ensures forall k | 0 <= k < vecLen :: FitsAt(data, k, Strided(st.stack, start, step)[k], w)
    ensures keys.Some? ==> Fits(OffsetLoc(|st.buf|, 0, w), keys.value, w)
  {
    hide OffsetLoc, VectorWidth, Fits;
    var vals := Strided(st.stack, start, step);
    forall k | 0 <= k < vecLen
      ensures FitsAt(data, k, vals[k], w)
    {
      StridedAt(st.stack, start, step, k);
      StorableInside(st.buf, st.stack, start + k * step);
      VectorFits(st, vals, step, keys, w, data, k);
    }
    if keys.Some? {
      KeysWidth(st, vals, step, keys.value, w);
      ElementFits(keys.value, |st.buf|, 0, 0, w);
    }
  }

  lemma KeysWidth(st: State, vals: seq<Value>, step: nat, keys: Value, w: BitWidth)
    requires w == VectorWidth(st, vals, step, Some(keys))
    ensures ElemWidth(keys, |st.buf|, 0) <= w
  {
    hide ElemWidth, MaxElemWidth;
  }

  lemma HeaderSize(pos: nat, n: nat, keys: Option<Value>, b: nat)
    ensures |VectorHeader(pos, n, keys, b)| == PrefixElems(keys) * b
  {
    hide Encode, AnyBytes;
  }

  lemma MaxElemWidthStep(vals: seq<Value>, n: nat, step: nat, first: nat)
    requires vals != []
    ensures MaxElemWidth(vals, n, step, first)
            == Max(ElemWidth(vals[0], n, first), MaxElemWidth(vals[1..], n, step, first + step))
  {}

  lemma MaxElemWidthNone(vals: seq<Value>, n: nat, step: nat, first: nat)
    requires vals == []
    ensures MaxElemWidth(vals, n, step, first) == 0
  {}

  lemma ElemBytesStep(pos: nat, vals: seq<Value>, b: nat)
    requires vals != []
    ensures ElemBytes(pos, vals, b) == AnyBytes(pos, vals[0], b) + ElemBytes(pos + b, vals[1..], b)
  {}

  lemma ElemBytesNone(pos: nat, vals: seq<Value>, b: nat)
    requires vals == []
    ensures ElemBytes(pos, vals, b) == []
  {}

  /** After a vector or map is closed the stack is storable again. */
  lemma ClosedSound(st: State, stack: seq<Value>, start: nat, vals: seq<Value>, step: nat, typed: bool,
                    keys: Option<Value>, m: bytes, v: Value)
    requires AllStorable(st.buf, st.stack) && PoolOk(st.buf, st.keyPool)
    requires start <= |st.stack| && stack == st.stack[..start] + [v]
    requires (m, v) == Spec.CreateVector(st, vals, step, typed, keys)
    ensures AllStorable(m, stack) && PoolOk(m, st.keyPool)
  {
    hide Storable, PoolOk, VectorWidth, PaddingBytes, ElemBytes, TypeBytes, VectorHeader;
    var post := m[|st.buf|..];
    CreateVectorGrows(st, vals, step, typed, keys, m);
    assert m == st.buf + post;
    StorableKept(st.buf, post, st.stack);
    PoolKept(st.buf, post, st.keyPool);
    VectorStorable(m, v);
  }

  lemma VectorStorable(m: bytes, v: Value)
    requires v.u <= |m| && v.t != FBT_KEY
    ensures Storable(m, v)
  {}

  lemma CStringHere(m: bytes, p: nat, k: bytes)
    requires CStringAt(m, p, k)
    ensures IsCString(m, p) && p <= |m|
  {}

  lemma PickedStorable(m: bytes, stack: seq<Value>, start: nat, order: seq<nat>, second: nat)
    requires AllStorable(m, stack) && start <= |stack| && second < 2
    requires |stack[start..]| % 2 == 0 && IsOrder(order, |stack[start..]| / 2)
    ensures AllStorable(m, Picked(stack[start..], order, second))
  {
    hide Storable;
    var pairs := stack[start..];
    forall j | 0 <= j < |order|
      ensures Storable(m, Picked(pairs, order, second)[j])
    {
      assert order[j] < |pairs| / 2;
      assert Storable(m, stack[start + 2 * order[j] + second]);
    }
  }

  lemma SortsOrder(m: bytes, pairs: seq<Value>, order: seq<nat>)
    requires Sorts(m, pairs, order)
    ensures |pairs| % 2 == 0 && IsOrder(order, |pairs| / 2)
  {}

  /** After the sort the stack still holds storable entries, the keys and the values two apart. */
  lemma ArrangedStorable(st: State, start: nat, order: seq<nat>, stack: seq<Value>)
    requires AllStorable(st.buf, st.stack) && start <= |st.stack| && Sorts(st.buf, st.stack[start..], order)
    requires |st.stack[start..]| % 2 == 0 && IsOrder(order, |st.stack[start..]| / 2)
    requires stack == st.stack[..start] + Arranged(st.stack[start..], order)
    ensures AllStorable(st.buf, stack)
    ensures var pairs := st.stack[start..];
            && Strided(stack, start, 2) == Picked(pairs, order, 0)
            && Strided(stack, start + 1, 2) == Picked(pairs, order, 1)
  {
    hide Storable, Picked, Strided, IsOrder, Sorts;
    var pairs := st.stack[start..];
    OrderLength(order, |pairs| / 2);
    PickedStorable(st.buf, st.stack, start, order, 0);
    PickedStorable(st.buf, st.stack, start, order, 1);
    ArrangedStrided(st.stack[..start], pairs, order, 0);
    ArrangedStrided(st.stack[..start], pairs, order, 1);
    forall k | 0 <= k < |stack|
      ensures Storable(st.buf, stack[k])
    {
      if k < start {
        assert stack[k] == st.stack[k];
      } else {
        var i := k - start;
        assert stack[k] == Picked(pairs, order, i % 2)[i / 2];
      }
    }
  }

  /** What CreateVector writes depends on the stack through the elements alone. */
  lemma SameVector(st: State, st': State, vals: seq<Value>, typed: bool, keys: Option<Value>)
    requires st.buf == st'.buf && st.forceMinWidth == st'.forceMinWidth
    ensures Spec.CreateVector(st, vals, 2, typed, keys) == Spec.CreateVector(st', vals, 2, typed, keys)
  {
    hide ElemBytes, TypeBytes, VectorHeader, PaddingBytes, MaxElemWidth, ElemWidth;
  }

  /** The two vectors of a map, written from the sorted stack, are those of Spec.EndMap. */
  lemma MapClosed(st: State, start: nat, order: seq<nat>, st1: State, st2: State, keys: Value, m: bytes, v: Value)
    requires start <= |st.stack| && Sorts(st.buf, st.stack[start..], order)
    requires st1.buf == st.buf && st1.forceMinWidth == st2.forceMinWidth == st.forceMinWidth
    requires (st2.buf, keys) == Spec.CreateVector(st1, Picked(st.stack[start..], order, 0), 2, true, None)
    requires (m, v) == Spec.CreateVector(st2, Picked(st.stack[start..], order, 1), 2, false, Some(keys))
    ensures Spec.EndMap(st, start, order) ==
            st.(buf := m, stack := st.stack[..start] + [v],
                hasDuplicateKeys := st.hasDuplicateKeys || EqualKeys(st.buf, Picked(st.stack[start..], order, 0)))
  {
    hide Spec.CreateVector, Picked, EqualKeys, StrCmp, IsOrder;
    SameVector(st1, st, Picked(st.stack[start..], order, 0), true, None);
    SameVector(st2, st.(buf := st2.buf), Picked(st.stack[start..], order, 1), false, Some(keys));
  }

  /** The keys of a map take at most eight bytes each, besides padding and size. */
  lemma KeysWritten(st: State, vals: seq<Value>, m: bytes, keys: Value, stack: seq<Value>)
    requires (m, keys) == Spec.CreateVector(st, vals, 2, true, None)
    requires AllStorable(st.buf, stack) && PoolOk(st.buf, st.keyPool)
    ensures |m| <= |st.buf| + 8 * |vals| + 15
    ensures keys.t == FBT_VECTOR_KEY && keys.u <= |m|
    ensures AllStorable(m, stack) && PoolOk(m, st.keyPool)
  {
    hide Storable, PoolOk, VectorWidth, PaddingBytes, ElemBytes;
    assert VectorHeader(0, 0, None, 8) == Encode(0, 8);
    var w := VectorWidth(st, vals, 2, None);
    var b := ByteWidth(w);
    var a := Spec.Align(st.buf, w);
    HeaderSize(|a|, |vals|, None, b);
    assert b * |vals| <= 8 * |vals|;
    CreateVectorGrows(st, vals, 2, true, None, m);
    var post := m[|st.buf|..];
    assert m == st.buf + post;
    StorableKept(st.buf, post, stack);
    PoolKept(st.buf, post, st.keyPool);
  }

  lemma TryStep(u: nat, bufSize: nat, index: nat, w: BitWidth)
    ensures TryWidths(u, bufSize, index, w) ==
            if WidthU((OffsetLoc(bufSize, index, w) - u) % TWO64) == w then w
            else if w < 3 then TryWidths(u, bufSize, index, w + 1)
            else 3
  {}
}
