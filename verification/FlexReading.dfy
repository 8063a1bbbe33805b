/** FlexBuffers: types, widths, and what a Reference reads. */
module FlexReading {
  import opened Bytes
  import opened StringOrder

  /** BitWidth: 0, 1, 2, 3 for 8, 16, 32, 64 bits. */
  type BitWidth = w: nat | w <= 3

  function ByteWidth(w: BitWidth): (b: nat)
    ensures b == 1 || b == 2 || b == 4 || b == 8
  {
    if w == 0 then 1 else if w == 1 then 2 else if w == 2 then 4 else 8
  }

  predicate IsByteWidth(b: nat) {
    b == 1 || b == 2 || b == 4 || b == 8
  }

  const FBT_NULL := 0
  const FBT_INT := 1
  const FBT_UINT := 2
  const FBT_FLOAT := 3
  const FBT_KEY := 4
  const FBT_STRING := 5
  const FBT_MAP := 9
  const FBT_VECTOR := 10
  const FBT_VECTOR_KEY := 14
  const FBT_BOOL := 26

  /** Types stored in place; all others store an offset. */
  predicate IsInline(t: nat) {
    t <= FBT_FLOAT || t == FBT_BOOL
  }

  function WidthU(u: nat): BitWidth {
    if u < 0x100 then 0 else if u < 0x1_0000 then 1 else if u < TWO32 then 2 else 3
  }

  /** The 64-bit pattern of a signed number. */
  function Pattern64(i: int): (u: nat)
    ensures u < TWO64
  {
    i % TWO64
  }

  /** Shift left by one, complement when negative, and measure. */
  function WidthI(i: int): BitWidth {
    var u := (2 * Pattern64(i)) % TWO64;
    WidthU(if i >= 0 then u else TWO64 - 1 - u)
  }

  function PackedType(w: BitWidth, t: nat): nat {
    w + 4 * t
  }

  datatype Reference = Reference(pos: int, parentWidth: nat, byteWidth: nat, t: nat)

  function NullReference(): Reference {
    Reference(0, 1, 1, FBT_NULL)
  }

  /** A reference whose width and type come from a packed type byte. */
  function Unpack(pos: int, parentWidth: nat, packed: nat): Reference {
    Reference(pos, parentWidth, ByteWidth(packed % 4), packed / 4)
  }

  function ReadUInt64(m: bytes, p: int, w: nat): nat
    requires InBounds(m, p, w)
  {
    ReadScalar(m, p, w)
  }

  function ReadInt64(m: bytes, p: int, w: nat): int
    requires InBounds(m, p, w)
  {
    ToSigned(ReadScalar(m, p, w), w)
  }

  function Indirect(m: bytes, p: int, w: nat): int
    requires InBounds(m, p, w)
  {
    p - ReadUInt64(m, p, w)
  }

  /** The size of a sized object, stored in front of its data. */
  predicate SizeIs(m: bytes, data: int, w: nat, n: nat) {
    InBounds(m, data - w, w) && ReadUInt64(m, data - w, w) == n
  }

  function Size(m: bytes, data: int, w: nat): nat
    requires InBounds(m, data - w, w)
  {
    ReadUInt64(m, data - w, w)
  }

  /** Vector::operator[]: null past the end. */
  function VectorGet(m: bytes, data: int, w: nat, i: nat): Reference
    requires InBounds(m, data - w, w)
    requires var n := Size(m, data, w); i < n ==> InBounds(m, data + n * w + i, 1)
  {
    var n := Size(m, data, w);
    if i >= n then NullReference()
    else Unpack(data + i * w, w, m[data + n * w + i])
  }

  function GetRoot(m: bytes): Reference
    requires |m| >= 2
  {
    var byteWidth := m[|m| - 1];
    Unpack(|m| - 2 - byteWidth, byteWidth, m[|m| - 2])
  }

  // What is read.

  /** The values a FlexBuffer can hold here. In a map the k-th key goes with the k-th value. */
  datatype Tree =
    | Null
    | Bool(b: bool)
    | Int(i: int)
    | UInt(u: nat)
    | Key(k: bytes)
    | Str(s: bytes)
    | Vec(elems: seq<Tree>)
    | Map(keys: seq<bytes>, vals: seq<Tree>)

  predicate StringAt(m: bytes, data: int, w: nat, s: bytes) {
    SizeIs(m, data, w, |s|) && InBounds(m, data, |s| + 1) && m[data..data + |s|] == s && m[data + |s|] == 0
  }

  /** A typed vector of keys: the i-th offset leads to the i-th key. */
  predicate KeysAt(m: bytes, data: int, w: nat, keys: seq<bytes>) {
    && IsByteWidth(w) && SizeIs(m, data, w, |keys|)
    && forall i | 0 <= i < |keys| :: KeyAt(m, data + i * w, w, keys[i])
  }

  predicate KeyAt(m: bytes, p: int, w: nat, k: bytes) {
    InBounds(m, p, w) && CStringAt(m, Indirect(m, p, w), k)
  }

  /** What comes before a map's values: the offset of its keys, and their width. */
  predicate MapKeysAt(m: bytes, data: int, w: nat, keys: seq<bytes>) {
    && IsByteWidth(w) && InBounds(m, data - 3 * w, w) && InBounds(m, data - 2 * w, w)
    && KeysAt(m, Indirect(m, data - 3 * w, w), ReadUInt64(m, data - 2 * w, w), keys)
  }

  /** The reference r reads as x. */
  ghost predicate Reads(m: bytes, r: Reference, x: Tree)
    decreases x, 1
  {
    && IsByteWidth(r.parentWidth) && IsByteWidth(r.byteWidth) && InBounds(m, r.pos, r.parentWidth)
    && match x
       case Null => r.t == FBT_NULL
       case Bool(b) => r.t == FBT_BOOL && (ReadUInt64(m, r.pos, r.parentWidth) != 0) == b
       case Int(i) => r.t == FBT_INT && ReadInt64(m, r.pos, r.parentWidth) == i
       case UInt(u) => r.t == FBT_UINT && ReadUInt64(m, r.pos, r.parentWidth) == u
       case _ => Located(m, Indirect(m, r.pos, r.parentWidth), r.byteWidth, r.t, x)
  }

  /** An object of type t whose data is at data, with elements of w bytes, reads as x. */
  ghost predicate Located(m: bytes, data: int, w: nat, t: nat, x: Tree)
    decreases x, 0
  {
    && IsByteWidth(w)
    && match x
       case Key(k) => t == FBT_KEY && CStringAt(m, data, k)
       case Str(s) => t == FBT_STRING && StringAt(m, data, w, s)
       case Vec(elems) => t == FBT_VECTOR && SizeIs(m, data, w, |elems|) &&
         forall i | 0 <= i < |elems| :: ElementReads(m, data, w, |elems|, i, elems[i])
       case Map(keys, vals) => t == FBT_MAP && |keys| == |vals| &&
         MapKeysAt(m, data, w, keys) && SizeIs(m, data, w, |vals|) &&
         forall i | 0 <= i < |vals| :: ElementReads(m, data, w, |vals|, i, vals[i])
       case _ => false
  }

  /** The i-th of n elements, whose type bytes follow the elements. */
  ghost predicate ElementReads(m: bytes, data: int, w: nat, n: nat, i: nat, x: Tree)
    decreases x, 2
  {
    InBounds(m, data + n * w + i, 1) && Reads(m, Unpack(data + i * w, w, m[data + n * w + i]), x)
  }

  // What is read stays the same when bytes are put behind.

  lemma CStringKept(m: bytes, post: bytes, p: int, k: bytes)
    requires CStringAt(m, p, k)
    ensures CStringAt(m + post, p, k)
  {
    assert (m + post)[p..p + |k|] == m[p..p + |k|];
  }

  lemma SizeKept(m: bytes, post: bytes, data: int, w: nat, n: nat)
    requires SizeIs(m, data, w, n)
    ensures SizeIs(m + post, data, w, n)
  {
    ReadPrefix(m, post, data - w, w);
  }

  lemma StringKept(m: bytes, post: bytes, data: int, w: nat, s: bytes)
    requires StringAt(m, data, w, s)
    ensures StringAt(m + post, data, w, s)
  {
    SizeKept(m, post, data, w, |s|);
    assert (m + post)[data..data + |s|] == m[data..data + |s|];
  }

  lemma KeysKept(m: bytes, post: bytes, data: int, w: nat, keys: seq<bytes>)
    requires KeysAt(m, data, w, keys)
    ensures KeysAt(m + post, data, w, keys)
  {
    hide CStringAt;
    SizeKept(m, post, data, w, |keys|);
    forall i | 0 <= i < |keys|
      ensures KeyAt(m + post, data + i * w, w, keys[i])
    {
      assert KeyAt(m, data + i * w, w, keys[i]);
      ReadPrefix(m, post, data + i * w, w);
      CStringKept(m, post, Indirect(m, data + i * w, w), keys[i]);
    }
  }

  lemma MapKeysKept(m: bytes, post: bytes, data: int, w: nat, keys: seq<bytes>)
    requires MapKeysAt(m, data, w, keys)
    ensures MapKeysAt(m + post, data, w, keys)
  {
    hide KeysAt;
    ReadPrefix(m, post, data - 3 * w, w);
    ReadPrefix(m, post, data - 2 * w, w);
    KeysKept(m, post, Indirect(m, data - 3 * w, w), ReadUInt64(m, data - 2 * w, w), keys);
  }

  lemma {:induction false} ReadsKept(m: bytes, post: bytes, r: Reference, x: Tree)
    requires Reads(m, r, x)
    ensures Reads(m + post, r, x)
    decreases x, 1
  {
    hide Located;
    ReadPrefix(m, post, r.pos, r.parentWidth);
    if x.Key? || x.Str? || x.Vec? || x.Map? {
      LocatedKept(m, post, Indirect(m, r.pos, r.parentWidth), r.byteWidth, r.t, x);
    }
  }

  lemma {:induction false} LocatedKept(m: bytes, post: bytes, data: int, w: nat, t: nat, x: Tree)
    requires Located(m, data, w, t, x)
    ensures Located(m + post, data, w, t, x)
    decreases x, 0
  {
    hide ElementReads, MapKeysAt, CStringAt, StringAt, SizeIs;
    match x
    case Key(k) => CStringKept(m, post, data, k);
    case Str(s) => StringKept(m, post, data, w, s);
    case Vec(elems) =>
      SizeKept(m, post, data, w, |elems|);
      forall i | 0 <= i < |elems|
        ensures ElementReads(m + post, data, w, |elems|, i, elems[i])
      {
        ElementKept(m, post, data, w, |elems|, i, elems[i]);
      }
    case Map(keys, vals) =>
      MapKeysKept(m, post, data, w, keys);
      SizeKept(m, post, data, w, |vals|);
      forall i | 0 <= i < |vals|
        ensures ElementReads(m + post, data, w, |vals|, i, vals[i])
      {
        ElementKept(m, post, data, w, |vals|, i, vals[i]);
      }
  }

  lemma {:induction false} ElementKept(m: bytes, post: bytes, data: int, w: nat, n: nat, i: nat, x: Tree)
    requires ElementReads(m, data, w, n, i, x)
    ensures ElementReads(m + post, data, w, n, i, x)
    decreases x, 2
  {
    assert (m + post)[data + n * w + i] == m[data + n * w + i];
    ReadsKept(m, post, Unpack(data + i * w, w, m[data + n * w + i]), x);
  }
}
