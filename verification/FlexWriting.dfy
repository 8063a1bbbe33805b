/** What the FlexBuffers Builder writes is what a Reference reads. */
module FlexWriting {
  import opened Bytes
  import opened Padding
  import opened StringOrder
  import opened FlexReading
  import opened FlexBuilder
  import opened FlexWidths

  /** The stack entry v stands for x. */
  ghost predicate Holds(m: bytes, v: Value, x: Tree) {
    match x
    case Null => v == Value(0, FBT_NULL, 0)
    case Bool(b) => v == Value(if b then 1 else 0, FBT_BOOL, 0)
    case Int(i) => -TWO63 <= i < TWO63 && v == Value(Pattern64(i), FBT_INT, WidthI(i))
    case UInt(u) => u < TWO64 && v == Value(u, FBT_UINT, WidthU(u))
    case _ => Located(m, v.u, ByteWidth(v.minWidth), v.t, x)
  }

  predicate IsScalar(x: Tree) {
    x.Null? || x.Bool? || x.Int? || x.UInt?
  }

  /** An object lies inside the buffer and is of a type that is stored by offset. */
  lemma LocatedInside(m: bytes, data: int, w: nat, t: nat, x: Tree)
    requires Located(m, data, w, t, x)
    ensures 0 <= data <= |m| && !IsInline(t) && t < 64 && !IsScalar(x)
  {
    hide ElementReads, MapKeysAt;
  }

  lemma HoldsInline(m: bytes, v: Value, x: Tree)
    requires Holds(m, v, x)
    ensures IsInline(v.t) <==> IsScalar(x)
    ensures v.t < 64 && (!IsScalar(x) ==> 0 <= v.u <= |m|)
  {
    hide Located;
    if !IsScalar(x) {
      LocatedInside(m, v.u, ByteWidth(v.minWidth), v.t, x);
    }
  }

  lemma HoldsKept(m: bytes, post: bytes, v: Value, x: Tree)
    requires Holds(m, v, x)
    ensures Holds(m + post, v, x)
  {
    hide Located;
    if !IsScalar(x) {
      LocatedKept(m, post, v.u, ByteWidth(v.minWidth), v.t, x);
    }
  }

  // Writing one value.

  /** A scalar store of w bytes drops multiples of 256^w. */
  lemma {:induction false} EncodeCongruent(n: nat, w: nat, k: nat)
    ensures Encode(n + Pow256(w) * k, w) == Encode(n, w)
  {
    if w > 0 {
      var z := Pow256(w - 1) * k;
      assert Pow256(w) * k == 256 * z;
      EncodeCongruent(n / 256, w - 1, k);
      assert (n + 256 * z) % 256 == n % 256 && (n + 256 * z) / 256 == n / 256 + z;
    }
  }

  /** A signed number written with enough bytes is read back with its sign. */
  lemma SignedTruncated(i: int, w: BitWidth)
    requires -TWO63 <= i < TWO63 && WidthI(i) <= w
    ensures ToSigned(Decode(Encode(Pattern64(i), ByteWidth(w))), ByteWidth(w)) == i
  {
    hide WidthI, Encode, Decode;
    WidthIBound(i, w);
    var b := ByteWidth(w);
    Pow256Values();
    if i >= 0 {
      assert Pattern64(i) == i;
      DecodeEncode(i, b);
    } else {
      var k := if w == 0 then 0x100_0000_0000_0000 else if w == 1 then 0x1_0000_0000_0000
               else if w == 2 then TWO32 else 1;
      assert Pattern64(i) == (i + Pow256(b)) + Pow256(b) * (k - 1);
      EncodeCongruent(i + Pow256(b), b, k - 1);
      DecodeEncode(i + Pow256(b), b);
    }
  }

  /** A value may be written at p with width w: a number is no wider, an offset reaches its object. */
  predicate Fits(p: nat, v: Value, w: BitWidth) {
    if IsInline(v.t) then v.minWidth <= w else v.u <= p && p - v.u < Pow256(ByteWidth(w)) && p < TWO64
  }

  /** The k-th element fits its place. */
  predicate FitsAt(data: nat, k: nat, v: Value, w: BitWidth) {
    Fits(data + k * ByteWidth(w), v, w)
  }

  /** The bytes of v are at p. */
  predicate BytesAt(m: bytes, p: nat, v: Value, w: BitWidth) {
    InBounds(m, p, ByteWidth(w)) && m[p..p + ByteWidth(w)] == AnyBytes(p, v, ByteWidth(w))
  }

  lemma BytesRead(m: bytes, p: nat, v: Value, w: BitWidth)
    requires BytesAt(m, p, v, w)
    ensures InBounds(m, p, ByteWidth(w)) && IsByteWidth(ByteWidth(w))
    ensures ReadUInt64(m, p, ByteWidth(w)) == Decode(AnyBytes(p, v, ByteWidth(w)))
  {
    hide AnyBytes;
  }

  /** A number that fits is read back. */
  lemma NumberReads(m: bytes, p: nat, v: Value, w: BitWidth, x: Tree)
    requires IsScalar(x) && Holds(m, v, x) && v.minWidth <= w && BytesAt(m, p, v, w)
    ensures Reads(m, Reference(p, ByteWidth(w), ByteWidth(StoredWidth(v, w)), v.t), x)
  {
    hide BytesAt, Encode, WidthI, WidthU, ByteWidth;
    BytesRead(m, p, v, w);
    AllByteWidths(StoredWidth(v, w));
    if x.Int? {
      SignedTruncated(x.i, w);
    } else if x.UInt? {
      WidthUBound(x.u, w);
      DecodeEncode(x.u, ByteWidth(w));
    } else if x.Bool? {
      BoolFits(w);
      DecodeEncode(v.u, ByteWidth(w));
    }
  }

  lemma BoolFits(w: BitWidth)
    ensures 1 < Pow256(ByteWidth(w))
  {
    Pow256Values();
  }

  lemma AllByteWidths(w: BitWidth)
    ensures IsByteWidth(ByteWidth(w))
  {}

  /** Where a value that fits has been written, it is read back. */
  lemma ValueReads(m: bytes, p: nat, v: Value, w: BitWidth, x: Tree)
    requires Holds(m, v, x) && Fits(p, v, w) && BytesAt(m, p, v, w)
    ensures Reads(m, Reference(p, ByteWidth(w), ByteWidth(StoredWidth(v, w)), v.t), x)
  {
    hide Located, Encode, WidthI, WidthU, BytesAt, ByteWidth;
    HoldsInline(m, v, x);
    BytesRead(m, p, v, w);
    if IsScalar(x) {
      NumberReads(m, p, v, w, x);
    } else {
      AllByteWidths(v.minWidth);
      DecodeEncode(p - v.u, ByteWidth(w));
    }
  }

  /** A type byte gives back the stored width and the type. */
  lemma UnpackType(p: int, b: nat, v: Value, w: BitWidth)
    requires v.t < 64
    ensures Unpack(p, b, TypeByte(v, w)) == Reference(p, b, ByteWidth(StoredWidth(v, w)), v.t)
  {}

  // Writing the elements of a vector.

  lemma {:induction false} MulLess(k: nat, n: nat, b: nat)
    requires k < n
    ensures k * b + b <= n * b == b * n
    decreases n - k
  {
    OneMore(k, b);
    if k + 1 < n {
      MulLess(k + 1, n, b);
    }
  }

  lemma OneMore(k: nat, b: nat)
    ensures (k + 1) * b == k * b + b
  {}

  lemma {:induction false} ElemBytesAt(pos: nat, vals: seq<Value>, b: nat, k: nat, j: nat)
    requires k < |vals| && j == k * b
    ensures j + b <= |ElemBytes(pos, vals, b)|
    ensures ElemBytes(pos, vals, b)[j..j + b] == AnyBytes(pos + j, vals[k], b)
    decreases k
  {
    hide AnyBytes;
    MulLess(k, |vals|, b);
    var head, rest := AnyBytes(pos, vals[0], b), ElemBytes(pos + b, vals[1..], b);
    if k == 0 {
      assert j == 0;
      assert (head + rest)[0..b] == head;
    } else {
      assert j - b == (k - 1) * b;
      ElemBytesAt(pos + b, vals[1..], b, k - 1, j - b);
      assert (head + rest)[j..j + b] == rest[j - b..j];
    }
  }

  /** The elements vals are at data, with width w. */
  predicate ElementsAt(m: bytes, data: nat, vals: seq<Value>, w: BitWidth) {
    var b := ByteWidth(w);
    InBounds(m, data, b * |vals|) && m[data..data + b * |vals|] == ElemBytes(data, vals, b)
  }

  /** Their type bytes follow. */
  predicate TypesAt(m: bytes, data: nat, vals: seq<Value>, w: BitWidth) {
    var p := data + ByteWidth(w) * |vals|;
    InBounds(m, p, |vals|) && m[p..p + |vals|] == TypeBytes(vals, w)
  }

  lemma ElementBytes(m: bytes, data: nat, vals: seq<Value>, w: BitWidth, k: nat)
    requires ElementsAt(m, data, vals, w) && k < |vals|
    ensures BytesAt(m, data + k * ByteWidth(w), vals[k], w)
  {
    hide ElemBytes, AnyBytes, TypeByte;
    var b, n := ByteWidth(w), |vals|;
    var j := k * b;
    ElemBytesAt(data, vals, b, k, j);
    MulLess(k, n, b);
    Within(m, data, b * n, j, b);
  }

  lemma Within(m: bytes, from: nat, n: nat, j: nat, b: nat)
    requires from + n <= |m| && j + b <= n
    ensures m[from..from + n][j..j + b] == m[from + j..from + j + b]
  {
    var s, r := m[from..from + n], m[from + j..from + j + b];
    assert forall k | 0 <= k < b :: s[j..j + b][k] == s[j + k] == m[from + j + k] == r[k];
  }

  lemma ElementType(m: bytes, data: nat, vals: seq<Value>, w: BitWidth, k: nat)
    requires TypesAt(m, data, vals, w) && k < |vals|
    ensures data + |vals| * ByteWidth(w) + k < |m|
    ensures m[data + |vals| * ByteWidth(w) + k] == TypeByte(vals[k], w)
  {
    hide TypeByte;
    var b, n := ByteWidth(w), |vals|;
    MulLess(k, n, b);
    assert m[data + b * n + k] == m[data + b * n..data + b * n + n][k];
  }

  lemma ElementReadsBack(m: bytes, data: nat, vals: seq<Value>, w: BitWidth, k: nat, x: Tree)
    requires ElementsAt(m, data, vals, w) && TypesAt(m, data, vals, w) && k < |vals|
    requires Holds(m, vals[k], x) && FitsAt(data, k, vals[k], w)
    ensures ElementReads(m, data, ByteWidth(w), |vals|, k, x)
  {
    hide Holds, Fits, Reads, ElementsAt, TypesAt, TypeByte, BytesAt;
    var p := data + k * ByteWidth(w);
    ElementBytes(m, data, vals, w, k);
    ElementType(m, data, vals, w, k);
    ValueReads(m, p, vals[k], w, x);
    HoldsInline(m, vals[k], x);
    UnpackType(p, ByteWidth(w), vals[k], w);
  }

  /** In a vector of keys there is no type byte: the offset leads to the key. */
  lemma KeyReadsBack(m: bytes, data: nat, vals: seq<Value>, w: BitWidth, i: nat, k: bytes)
    requires ElementsAt(m, data, vals, w) && i < |vals|
    requires Holds(m, vals[i], Key(k)) && FitsAt(data, i, vals[i], w)
    ensures KeyAt(m, data + i * ByteWidth(w), ByteWidth(w), k)
  {
    hide ElementsAt, CStringAt, Encode;
    var p := data + i * ByteWidth(w);
    ElementBytes(m, data, vals, w, i);
    DecodeEncode(p - vals[i].u, ByteWidth(w));
  }
}
