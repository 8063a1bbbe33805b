/** FlexBuffers: what the Builder writes, as functions on values. */
module FlexBuilder {
  import opened Bytes
  import opened Padding
  import opened StringOrder
  import opened Sorting
  import opened FlexReading

  /** A stack entry: the 64-bit pattern of a number, or the position of an object in the buffer.
    * minWidth is that of the number, of a vector's elements, or of a string's length. */
  datatype Value = Value(u: nat, t: nat, minWidth: BitWidth)

  datatype State = State(
    buf: bytes,
    stack: seq<Value>,
    keyPool: seq<nat>,
    shareKeys: bool,
    forceMinWidth: BitWidth,
    hasDuplicateKeys: bool
  )

  const EMPTY := State([], [], [], true, 0, false)

  // Widths

  /** Where element index would be stored with elements of width w after a buffer of the given size. */
  function OffsetLoc(bufSize: nat, index: nat, w: BitWidth): nat {
    bufSize + PaddingBytes(bufSize, ByteWidth(w)) + index * ByteWidth(w)
  }

  /** Tries w and every larger width: the offset must need exactly the width it is stored with. */
  function TryWidths(u: nat, bufSize: nat, index: nat, w: BitWidth): BitWidth
    decreases 3 - w
  {
    if WidthU((OffsetLoc(bufSize, index, w) - u) % TWO64) == w then w
    else if w < 3 then TryWidths(u, bufSize, index, w + 1)
    else 3 // the source asserts that this is not reached
  }

  function ElemWidth(v: Value, bufSize: nat, index: nat): BitWidth {
    if IsInline(v.t) then v.minWidth else TryWidths(v.u, bufSize, index, 0)
  }

  function StoredWidth(v: Value, parent: BitWidth): BitWidth {
    if IsInline(v.t) then Max(v.minWidth, parent) else v.minWidth
  }

  // Bytes

  function Align(buf: bytes, w: BitWidth): bytes {
    buf + Zeros(PaddingBytes(|buf|, ByteWidth(w)))
  }

  /** WriteAny at a position: a number's low bytes, or the distance back to an object. */
  function AnyBytes(pos: nat, v: Value, b: nat): (s: bytes)
    ensures |s| == b
  {
    if IsInline(v.t) then Encode(v.u, b) else Encode((pos - v.u) % TWO64, b)
  }

  function ElemBytes(pos: nat, vals: seq<Value>, b: nat): (s: bytes)
    ensures |s| == b * |vals|
    decreases |vals|
  {
    if vals == [] then [] else AnyBytes(pos, vals[0], b) + ElemBytes(pos + b, vals[1..], b)
  }

  function TypeByte(v: Value, w: BitWidth): byte {
    PackedType(StoredWidth(v, w), v.t) % 256
  }

  function TypeBytes(vals: seq<Value>, w: BitWidth): (s: bytes)
    ensures |s| == |vals|
  {
    seq(|vals|, i requires 0 <= i < |vals| => TypeByte(vals[i], w))
  }

  // Scalars, keys and strings

  function Push(st: State, v: Value): State {
    st.(stack := st.stack + [v])
  }

  function PushNull(st: State): State {
    Push(st, Value(0, FBT_NULL, 0))
  }

  function PushBool(st: State, b: bool): State {
    Push(st, Value(if b then 1 else 0, FBT_BOOL, 0))
  }

  function PushInt(st: State, i: int): State {
    Push(st, Value(Pattern64(i), FBT_INT, WidthI(i)))
  }

  function PushUInt(st: State, u: nat): State {
    Push(st, Value(u, FBT_UINT, WidthU(u)))
  }

  /** The pooled key that strcmp takes for equal to the one at p. */
  function FindKey(m: bytes, pool: seq<nat>, p: nat): Option<nat> {
    if pool == [] then None
    else if StrCmp(m, pool[0], m, p) == 0 then Some(pool[0])
    else FindKey(m, pool[1..], p)
  }

  function PushKey(st: State, k: bytes): State {
    var sloc := |st.buf|;
    var buf := st.buf + k + [0];
    if st.shareKeys then
      match FindKey(buf, st.keyPool, sloc)
      case Some(p) => Push(st, Value(p, FBT_KEY, 0))
      case None => Push(st.(buf := buf, keyPool := st.keyPool + [sloc]), Value(sloc, FBT_KEY, 0))
    else Push(st.(buf := buf), Value(sloc, FBT_KEY, 0))
  }

  function PushString(st: State, s: bytes): State {
    var w := WidthU(|s|);
    var a := Align(st.buf, w) + Encode(|s|, ByteWidth(w));
    Push(st.(buf := a + s + [0]), Value(|a|, FBT_STRING, w))
  }

  // Vectors and maps

  /** The largest width an element needs; elements are step apart on the stack, after prefix elements. */
  function MaxElemWidth(vals: seq<Value>, bufSize: nat, step: nat, first: nat): (w: BitWidth)
    ensures forall k | 0 <= k < |vals| :: ElemWidth(vals[k], bufSize, first + k * step) <= w
    decreases |vals|
  {
    if vals == [] then 0
    else
      var rest := MaxElemWidth(vals[1..], bufSize, step, first + step);
      RestBounded(vals, bufSize, step, first, rest);
      Max(ElemWidth(vals[0], bufSize, first), rest)
  }

  lemma RestBounded(vals: seq<Value>, bufSize: nat, step: nat, first: nat, w: BitWidth)
    requires vals != []
    requires forall k | 0 <= k < |vals| - 1 :: ElemWidth(vals[1..][k], bufSize, first + step + k * step) <= w
    ensures forall k | 0 < k < |vals| :: ElemWidth(vals[k], bufSize, first + k * step) <= w
  {
    hide ElemWidth;
    forall k | 0 < k < |vals|
      ensures ElemWidth(vals[k], bufSize, first + k * step) <= w
    {
      assert first + step + (k - 1) * step == first + k * step;
      assert vals[1..][k - 1] == vals[k];
    }
  }

  function PrefixElems(keys: Option<Value>): nat {
    if keys.Some? then 3 else 1
  }

  function VectorWidth(st: State, vals: seq<Value>, step: nat, keys: Option<Value>): BitWidth {
    var w := Max(st.forceMinWidth, WidthU(|vals|));
    var w' := if keys.Some? then Max(w, ElemWidth(keys.value, |st.buf|, 0)) else w;
    Max(w', MaxElemWidth(vals, |st.buf|, step, PrefixElems(keys)))
  }

  /** What comes before the elements: for a map the offset and width of its keys, then the size. */
  function VectorHeader(pos: nat, n: nat, keys: Option<Value>, b: nat): bytes {
    (if keys.Some? then AnyBytes(pos, keys.value, b) + Encode(ByteWidth(keys.value.minWidth), b) else []) + Encode(n, b)
  }

  /** Returns the new buffer and the vector's stack entry. */
  function CreateVector(st: State, vals: seq<Value>, step: nat, typed: bool, keys: Option<Value>): (bytes, Value) {
    var w := VectorWidth(st, vals, step, keys);
    var b := ByteWidth(w);
    var a := Align(st.buf, w);
    var c := a + VectorHeader(|a|, |vals|, keys, b);
    var t := if keys.Some? then FBT_MAP else if typed then FBT_VECTOR_KEY else FBT_VECTOR;
    (c + ElemBytes(|c|, vals, b) + (if typed then [] else TypeBytes(vals, w)), Value(|c|, t, w))
  }

  function EndVector(st: State, start: nat): State
    requires start <= |st.stack|
  {
    var (buf, v) := CreateVector(st, st.stack[start..], 1, false, None);
    st.(buf := buf, stack := st.stack[..start] + [v])
  }

  /** The j-th of the pairs, once they are in order, is pair order[j]; second picks its value. */
  function Picked(pairs: seq<Value>, order: seq<nat>, second: nat): (s: seq<Value>)
    requires |pairs| % 2 == 0 && IsOrder(order, |pairs| / 2) && second < 2
    ensures |s| == |order|
  {
    seq(|order|, j requires 0 <= j < |order| => assert order[j] < |pairs| / 2; pairs[2 * order[j] + second])
  }

  /** A result the sort of interleaved keys and values may have: no key compares less than one before it.
    * Which of two equal keys comes first is left open. */
  predicate Sorts(buf: bytes, pairs: seq<Value>, order: seq<nat>) {
    && |pairs| % 2 == 0 && IsOrder(order, |pairs| / 2)
    && var keys := Picked(pairs, order, 0);
       && (forall j | 0 <= j < |keys| :: keys[j].t == FBT_KEY)
       && (forall j, k | 0 <= j < k < |keys| :: StrCmp(buf, keys[j].u, buf, keys[k].u) <= 0)
  }

  /** Two keys that strcmp takes for equal. */
  predicate EqualKeys(buf: bytes, keys: seq<Value>) {
    exists j, k | 0 <= j < k < |keys| :: StrCmp(buf, keys[j].u, buf, keys[k].u) == 0
  }

  function EndMap(st: State, start: nat, order: seq<nat>): State
    requires start <= |st.stack| && Sorts(st.buf, st.stack[start..], order)
  {
    var pairs := st.stack[start..];
    var (keysBuf, keys) := CreateVector(st, Picked(pairs, order, 0), 2, true, None);
    var (buf, v) := CreateVector(st.(buf := keysBuf), Picked(pairs, order, 1), 2, false, Some(keys));
    st.(buf := buf, stack := st.stack[..start] + [v],
        hasDuplicateKeys := st.hasDuplicateKeys || EqualKeys(st.buf, Picked(pairs, order, 0)))
  }

  function Finish(st: State): bytes
    requires |st.stack| == 1
  {
    var v := st.stack[0];
    var w := ElemWidth(v, |st.buf|, 0);
    var a := Align(st.buf, w);
    a + AnyBytes(|a|, v, ByteWidth(w)) + [TypeByte(v, 0)] + [ByteWidth(w)]
  }
}
