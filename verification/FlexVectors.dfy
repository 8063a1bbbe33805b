/** FlexBuffers: vectors and maps as CreateVector writes them. */
module FlexVectors {
  import opened Bytes
  import opened Padding
  import opened StringOrder
  import opened FlexReading
  import opened FlexBuilder
  import opened FlexWidths
  import opened FlexWriting

  /** The stack entries vals stand for xs. */
  ghost predicate AllHold(m: bytes, vals: seq<Value>, xs: seq<Tree>) {
    |vals| == |xs| && forall k | 0 <= k < |xs| :: Holds(m, vals[k], xs[k])
  }

  lemma AllHoldKept(m: bytes, post: bytes, vals: seq<Value>, xs: seq<Tree>)
    requires AllHold(m, vals, xs)
    ensures AllHold(m + post, vals, xs)
  {
    hide Holds;
    forall k | 0 <= k < |xs|
      ensures Holds(m + post, vals[k], xs[k])
    {
      HoldsKept(m, post, vals[k], xs[k]);
    }
  }

  /** Sizes as they can be in a 64-bit address space. */
  predicate Small(buf: bytes, n: nat) {
    |buf| < TWO63 && n < 0x100_0000_0000_0000
  }

  /** An element measured at an index at least as large as its place fits the place it is written at. */
  lemma ElementFits(v: Value, n: nat, index: nat, actual: nat, w: BitWidth)
    requires IsInline(v.t) || v.u <= n
    requires n + 8 * index + 8 < TWO64 && actual <= index
    requires ElemWidth(v, n, index) <= w
    ensures Fits(OffsetLoc(n, actual, w), v, w)
  {
    hide OffsetLoc;
    if !IsInline(v.t) {
      WidthSuffices(v, n, index, actual, w);
      OffsetNoWrap(v.u, n, actual, w);
    }
  }

  lemma OffsetLocSum(n: nat, prefix: nat, k: nat, w: BitWidth)
    ensures OffsetLoc(n, prefix + k, w) == OffsetLoc(n, prefix, w) + k * ByteWidth(w)
  {
    hide PaddingBytes;
    assert (prefix + k) * ByteWidth(w) == prefix * ByteWidth(w) + k * ByteWidth(w);
  }

  /** What CreateVector has chosen when it starts to write: the width, and where the elements go. */
  predicate Chosen(st: State, vals: seq<Value>, step: nat, keys: Option<Value>, w: BitWidth, data: nat) {
    && 1 <= step <= 2 && Small(st.buf, |vals|)
    && w == VectorWidth(st, vals, step, keys)
    && data == OffsetLoc(|st.buf|, PrefixElems(keys), w)
  }

  /** Every element fits its place. */
  lemma VectorFits(st: State, vals: seq<Value>, step: nat, keys: Option<Value>, w: BitWidth, data: nat, k: nat)
    requires Chosen(st, vals, step, keys, w, data)
    requires k < |vals| && (IsInline(vals[k].t) || vals[k].u <= |st.buf|)
    ensures FitsAt(data, k, vals[k], w)
  {
    hide Fits, OffsetLoc, ElemWidth;
    var first := PrefixElems(keys);
    assert k <= k * step <= 2 * k;
    ElementFits(vals[k], |st.buf|, first + k * step, first + k, w);
    OffsetLocSum(|st.buf|, first, k, w);
  }

  /** CreateVector appends: header, elements and types, in this order. */
  lemma VectorLayout(st: State, vals: seq<Value>, step: nat, typed: bool, keys: Option<Value>, w: BitWidth,
                     data: nat, m: bytes)
    requires Chosen(st, vals, step, keys, w, data)
    requires m == CreateVector(st, vals, step, typed, keys).0
    ensures CreateVector(st, vals, step, typed, keys).1 ==
            Value(data, if keys.Some? then FBT_MAP else if typed then FBT_VECTOR_KEY else FBT_VECTOR, w)
    ensures ElementsAt(m, data, vals, w)
    ensures !typed ==> TypesAt(m, data, vals, w)
    ensures |st.buf| <= data <= |m|
    ensures st.buf <= m
  {
    hide ElemBytes, TypeBytes, AnyBytes, PaddingBytes, VectorWidth, Encode;
    var b := ByteWidth(w);
    var a := Align(st.buf, w);
    var h := VectorHeader(|a|, |vals|, keys, b);
    var c := a + h;
    assert |h| == PrefixElems(keys) * b;
    var es := ElemBytes(|c|, vals, b);
    var ts := if typed then [] else TypeBytes(vals, w);
    assert m == c + es + ts;
    assert m[data..data + b * |vals|] == es;
  }

  lemma HeaderEnd(a: bytes, x: bytes, e: bytes, m: bytes)
    requires a + (x + e) <= m
    ensures |a| + |x| + |e| <= |m| && m[|a| + |x|..|a| + |x| + |e|] == e
  {
    var c := a + (x + e);
    assert m[|a| + |x|..|a| + |x| + |e|] == c[|a| + |x|..|a| + |x| + |e|];
  }

  /** Padding and header take the place up to the elements. */
  lemma HeaderLength(st: State, vals: seq<Value>, step: nat, keys: Option<Value>, w: BitWidth, data: nat, a: bytes)
    requires Chosen(st, vals, step, keys, w, data) && a == Align(st.buf, w)
    ensures |a| + |VectorHeader(|a|, |vals|, keys, ByteWidth(w))| == data
    ensures |a| == OffsetLoc(|st.buf|, 0, w)
  {
    hide AnyBytes, PaddingBytes, Encode, VectorWidth, ByteWidth;
    var b := ByteWidth(w);
    assert 1 * b == b && 3 * b == b + b + b && 0 * b == 0;
  }

  /** The last word of the header is the size. */
  lemma SizeWritten(st: State, vals: seq<Value>, step: nat, typed: bool, keys: Option<Value>, w: BitWidth, data: nat,
                    m: bytes)
    requires Chosen(st, vals, step, keys, w, data)
    requires m == CreateVector(st, vals, step, typed, keys).0
    ensures ByteWidth(w) <= data <= |m| && m[data - ByteWidth(w)..data] == Encode(|vals|, ByteWidth(w))
  {
    hide ElemBytes, TypeBytes, AnyBytes, Align, Encode, VectorWidth, ByteWidth, Small;
    var b := ByteWidth(w);
    var a := Align(st.buf, w);
    HeaderLength(st, vals, step, keys, w, data, a);
    var x := if keys.Some? then AnyBytes(|a|, keys.value, b) + Encode(ByteWidth(keys.value.minWidth), b) else [];
    HeaderEnd(a, x, Encode(|vals|, b), m);
  }

  lemma LengthFits(st: State, vals: seq<Value>, step: nat, keys: Option<Value>, w: BitWidth)
    requires w == VectorWidth(st, vals, step, keys) && |vals| < TWO64
    ensures |vals| < Pow256(ByteWidth(w))
  {
    hide MaxElemWidth, ElemWidth, WidthU;
    WidthUBound(|vals|, w);
  }

  lemma HeaderRead(st: State, vals: seq<Value>, step: nat, typed: bool, keys: Option<Value>, w: BitWidth, data: nat,
                   m: bytes)
    requires Chosen(st, vals, step, keys, w, data)
    requires m == CreateVector(st, vals, step, typed, keys).0
    ensures SizeIs(m, data, ByteWidth(w), |vals|)
  {
    hide CreateVector, Encode, VectorWidth, OffsetLoc, ByteWidth;
    SizeWritten(st, vals, step, typed, keys, w, data, m);
    LengthFits(st, vals, step, keys, w);
    DecodeEncode(|vals|, ByteWidth(w));
  }

  /** A vector of values that hold xs holds the vector of xs. */
  lemma CreateVectorHolds(st: State, vals: seq<Value>, xs: seq<Tree>, m: bytes, v: Value)
    requires AllHold(st.buf, vals, xs) && Small(st.buf, |vals|)
    requires (m, v) == CreateVector(st, vals, 1, false, None)
    ensures Holds(m, v, Vec(xs)) && st.buf <= m
  {
    hide AllHold, CreateVector, OffsetLoc, VectorWidth, ElementReads, ElementsAt, TypesAt, SizeIs;
    var w := VectorWidth(st, vals, 1, None);
    var data := OffsetLoc(|st.buf|, 1, w);
    VectorLayout(st, vals, 1, false, None, w, data, m);
    HeaderRead(st, vals, 1, false, None, w, data, m);
    ElementsRead(st, vals, xs, 1, None, w, data, m);
  }

  lemma ElementsRead(st: State, vals: seq<Value>, xs: seq<Tree>, step: nat, keys: Option<Value>, w: BitWidth,
                     data: nat, m: bytes)
    requires Chosen(st, vals, step, keys, w, data)
    requires AllHold(st.buf, vals, xs) && st.buf <= m
    requires ElementsAt(m, data, vals, w) && TypesAt(m, data, vals, w)
    ensures |vals| == |xs|
    ensures forall i | 0 <= i < |xs| :: ElementReads(m, data, ByteWidth(w), |vals|, i, xs[i])
  {
    hide Holds, Chosen, Fits, ElementReads, ElementsAt, TypesAt;
    assert m == st.buf + m[|st.buf|..];
    forall i | 0 <= i < |xs|
      ensures ElementReads(m, data, ByteWidth(w), |vals|, i, xs[i])
    {
      HoldsInline(st.buf, vals[i], xs[i]);
      VectorFits(st, vals, step, keys, w, data, i);
      HoldsKept(st.buf, m[|st.buf|..], vals[i], xs[i]);
      ElementReadsBack(m, data, vals, w, i, xs[i]);
    }
  }

  function KeyTrees(keys: seq<bytes>): (xs: seq<Tree>)
    ensures |xs| == |keys|
  {
    seq(|keys|, i requires 0 <= i < |keys| => Key(keys[i]))
  }

  /** The vector of keys written before a map's values. */
  ghost predicate KeysHold(m: bytes, v: Value, keys: seq<bytes>) {
    v.t == FBT_VECTOR_KEY && v.u <= |m| && KeysAt(m, v.u, ByteWidth(v.minWidth), keys)
  }

  lemma CreateKeysHolds(st: State, vals: seq<Value>, keys: seq<bytes>, m: bytes, v: Value)
    requires AllHold(st.buf, vals, KeyTrees(keys)) && Small(st.buf, |vals|)
    requires (m, v) == CreateVector(st, vals, 2, true, None)
    ensures KeysHold(m, v, keys) && st.buf <= m
  {
    hide Holds, Fits, CreateVector, OffsetLoc, VectorWidth, ElementsAt, TypesAt, SizeIs, KeyAt;
    var w := VectorWidth(st, vals, 2, None);
    var data := OffsetLoc(|st.buf|, 1, w);
    VectorLayout(st, vals, 2, true, None, w, data, m);
    HeaderRead(st, vals, 2, true, None, w, data, m);
    assert m == st.buf + m[|st.buf|..];
    forall i | 0 <= i < |keys|
      ensures KeyAt(m, data + i * ByteWidth(w), ByteWidth(w), keys[i])
    {
      var x := KeyTrees(keys)[i];
      HoldsInline(st.buf, vals[i], x);
      VectorFits(st, vals, 2, None, w, data, i);
      HoldsKept(st.buf, m[|st.buf|..], vals[i], x);
      KeyReadsBack(m, data, vals, w, i, keys[i]);
    }
  }

  /** The keys' offset is measured at index 0 and stored there. */
  lemma KeysOffsetFits(st: State, vals: seq<Value>, kv: Value, w: BitWidth)
    requires Small(st.buf, |vals|) && !IsInline(kv.t) && kv.u <= |st.buf|
    requires w == VectorWidth(st, vals, 2, Some(kv))
    ensures Fits(OffsetLoc(|st.buf|, 0, w), kv, w)
  {
    hide MaxElemWidth, OffsetLoc, ElemWidth;
    WidthSuffices(kv, |st.buf|, 0, 0, w);
    OffsetNoWrap(kv.u, |st.buf|, 0, w);
  }

  lemma HeaderParts(a: bytes, x: bytes, y: bytes, z: bytes, m: bytes)
    requires a + (x + y + z) <= m
    ensures m[|a|..|a| + |x|] == x
    ensures m[|a| + |x|..|a| + |x| + |y|] == y
  {
    var c := a + (x + y + z);
    assert m[|a|..|a| + |x|] == c[|a|..|a| + |x|];
    assert m[|a| + |x|..|a| + |x| + |y|] == c[|a| + |x|..|a| + |x| + |y|];
  }

  /** At p the offset of a map's keys is stored with b bytes, and then their width. */
  predicate KeysWordsAt(m: bytes, p: int, b: nat, kv: Value) {
    && InBounds(m, p, 2 * b)
    && m[p..p + b] == AnyBytes(p, kv, b)
    && m[p + b..p + 2 * b] == Encode(ByteWidth(kv.minWidth), b)
  }

  lemma KeysWordsWritten(st: State, vals: seq<Value>, kv: Value, w: BitWidth, data: nat, m: bytes, a: bytes)
    requires Chosen(st, vals, 2, Some(kv), w, data) && a == Align(st.buf, w)
    requires m == CreateVector(st, vals, 2, false, Some(kv)).0
    ensures data == |a| + 3 * ByteWidth(w) && KeysWordsAt(m, |a|, ByteWidth(w), kv)
  {
    hide ElemBytes, TypeBytes, Align, Encode, VectorWidth, AnyBytes, ByteWidth, Small;
    var b := ByteWidth(w);
    HeaderLength(st, vals, 2, Some(kv), w, data, a);
    var x, y, z := AnyBytes(|a|, kv, b), Encode(ByteWidth(kv.minWidth), b), Encode(|vals|, b);
    HeaderParts(a, x, y, z, m);
  }

  lemma KeysWordsRead(m: bytes, p: nat, w: BitWidth, kv: Value)
    requires KeysWordsAt(m, p, ByteWidth(w), kv) && !IsInline(kv.t) && Fits(p, kv, w)
    ensures var b := ByteWidth(w);
            && InBounds(m, p, b) && InBounds(m, p + b, b)
            && Indirect(m, p, b) == kv.u && ReadUInt64(m, p + b, b) == ByteWidth(kv.minWidth)
  {
    hide Encode, Decode, ByteWidth, WidthU;
    var b := ByteWidth(w);
    DecodeEncode(p - kv.u, b);
    AnyWidthFits(kv.minWidth, w);
    DecodeEncode(ByteWidth(kv.minWidth), b);
  }

  lemma AnyWidthFits(k: BitWidth, w: BitWidth)
    ensures ByteWidth(k) < Pow256(ByteWidth(w))
  {
    Pow256Values();
  }

  /** The header of a map leads to its keys. */
  lemma MapHeaderRead(st: State, vals: seq<Value>, kv: Value, w: BitWidth, data: nat, m: bytes, keys: seq<bytes>)
    requires Chosen(st, vals, 2, Some(kv), w, data)
    requires !IsInline(kv.t) && kv.u <= |st.buf|
    requires m == CreateVector(st, vals, 2, false, Some(kv)).0
    requires KeysAt(m, kv.u, ByteWidth(kv.minWidth), keys)
    ensures MapKeysAt(m, data, ByteWidth(w), keys)
  {
    hide CreateVector, Align, VectorWidth, OffsetLoc, ByteWidth, Fits, Small, KeysAt;
    var a := Align(st.buf, w);
    HeaderLength(st, vals, 2, Some(kv), w, data, a);
    KeysWordsWritten(st, vals, kv, w, data, m, a);
    KeysOffsetFits(st, vals, kv, w);
    KeysWordsRead(m, |a|, w, kv);
    AllByteWidths(w);
  }

  /** Keys and values written as EndMap does hold the map. */
  lemma CreateMapHolds(st: State, vals: seq<Value>, kv: Value, keys: seq<bytes>, xs: seq<Tree>, m: bytes, v: Value)
    requires AllHold(st.buf, vals, xs) && Small(st.buf, |vals|)
    requires KeysHold(st.buf, kv, keys) && |keys| == |xs|
    requires (m, v) == CreateVector(st, vals, 2, false, Some(kv))
    ensures Holds(m, v, Map(keys, xs)) && st.buf <= m
  {
    hide AllHold, CreateVector, OffsetLoc, VectorWidth, ElementReads, ElementsAt, TypesAt, SizeIs, KeysAt;
    var w := VectorWidth(st, vals, 2, Some(kv));
    var data := OffsetLoc(|st.buf|, 3, w);
    VectorLayout(st, vals, 2, false, Some(kv), w, data, m);
    HeaderRead(st, vals, 2, false, Some(kv), w, data, m);
    assert m == st.buf + m[|st.buf|..];
    KeysKept(st.buf, m[|st.buf|..], kv.u, ByteWidth(kv.minWidth), keys);
    MapHeaderRead(st, vals, kv, w, data, m, keys);
    ElementsRead(st, vals, xs, 2, Some(kv), w, data, m);
  }
}
