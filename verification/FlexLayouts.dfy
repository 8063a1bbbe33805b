/** FlexBuffers: how small the builder writes. Widths are the least that will do, objects begin at the first
  * place that is aligned for them, and nothing is written besides. */
module FlexLayouts {
  import opened Bytes
  import opened Padding
  import opened StringOrder
  import opened Sorting
  import opened FlexReading
  import opened FlexBuilder
  import opened FlexWidths
  import opened FlexWriting
  import opened FlexVectors
  import opened FlexRuns

  // Widths

  /** For an element measured at its place, ElemWidth is the least width with which it fits there. */
  lemma ElemWidthIsLeast(v: Value, n: nat, index: nat, w: BitWidth)
    requires IsInline(v.t) || v.u <= n
    requires n + 8 * index + 8 < TWO64
    ensures ElemWidth(v, n, index) <= w <==> Fits(OffsetLoc(n, index, w), v, w)
  {
    hide OffsetLoc, TryWidths, WidthU;
    if !IsInline(v.t) {
      ElemWidthExact(v, n, index);
      OffsetNoWrap(v.u, n, index, w);
      if ElemWidth(v, n, index) <= w {
        WidthSuffices(v, n, index, index, w);
      } else {
        WidthUBound(OffsetLoc(n, index, w) - v.u, w);
      }
    }
  }

  /** The number x can be stored in w. */
  predicate Representable(x: Tree, w: BitWidth) {
    match x
    case Int(i) => 0 - Pow256(ByteWidth(w)) <= 2 * i < Pow256(ByteWidth(w))
    case UInt(u) => u < Pow256(ByteWidth(w))
    case _ => true
  }

  /** A number is pushed with the least width that has it; nothing is written yet. */
  lemma ScalarWidthIsLeast(st: State, x: Tree, w: BitWidth)
    requires Able(st, Scalar(x))
    ensures var r := Execute(st, Scalar(x));
            && |r.stack| == |st.stack| + 1 && r == st.(stack := st.stack + [r.stack[|st.stack|]])
            && IsInline(r.stack[|st.stack|].t)
            && (r.stack[|st.stack|].minWidth <= w <==> Representable(x, w))
  {
    hide WidthI, WidthU;
    match x
    case Int(i) => WidthIBound(i, w);
    case UInt(u) => WidthUBound(u, w);
    case _ =>
  }

  /** With width w a vector may be written: it is not below the one asked for, the length fits, and every
    * element, and the offset of a map's keys, fits where it is measured. */
  predicate WidthServes(st: State, vals: seq<Value>, step: nat, keys: Option<Value>, w: BitWidth) {
    && st.forceMinWidth <= w
    && |vals| < Pow256(ByteWidth(w))
    && (forall k | 0 <= k < |vals| :: Fits(OffsetLoc(|st.buf|, PrefixElems(keys) + k * step, w), vals[k], w))
    && (keys.Some? ==> Fits(OffsetLoc(|st.buf|, 0, w), keys.value, w))
  }

  lemma {:induction false} MaxElemWidthIsLeast(vals: seq<Value>, n: nat, step: nat, first: nat, w: BitWidth)
    requires forall k | 0 <= k < |vals| :: ElemWidth(vals[k], n, first + k * step) <= w
    ensures MaxElemWidth(vals, n, step, first) <= w
    decreases |vals|
  {
    hide ElemWidth;
    if vals != [] {
      assert ElemWidth(vals[0], n, first + 0 * step) <= w;
      forall k | 0 <= k < |vals| - 1
        ensures ElemWidth(vals[1..][k], n, first + step + k * step) <= w
      {
        assert first + step + k * step == first + (k + 1) * step;
        assert vals[1..][k] == vals[k + 1];
      }
      MaxElemWidthIsLeast(vals[1..], n, step, first + step, w);
    }
  }

  /** What may be written: entries that point into the buffer, and a buffer far from the end of memory. */
  predicate Writable(st: State, vals: seq<Value>, keys: Option<Value>) {
    && Small(st.buf, |vals|)
    && (forall k | 0 <= k < |vals| :: IsInline(vals[k].t) || vals[k].u <= |st.buf|)
    && (keys.Some? ==> !IsInline(keys.value.t) && keys.value.u <= |st.buf|)
  }

  lemma ElementsMeasured(st: State, vals: seq<Value>, step: nat, keys: Option<Value>, w: BitWidth)
    requires Writable(st, vals, keys) && 1 <= step <= 2
    ensures MaxElemWidth(vals, |st.buf|, step, PrefixElems(keys)) <= w <==>
            forall k | 0 <= k < |vals| :: Fits(OffsetLoc(|st.buf|, PrefixElems(keys) + k * step, w), vals[k], w)
  {
    hide ElemWidth, OffsetLoc, Fits, MaxElemWidth;
    var n, first := |st.buf|, PrefixElems(keys);
    forall k | 0 <= k < |vals|
      ensures ElemWidth(vals[k], n, first + k * step) <= w <==> Fits(OffsetLoc(n, first + k * step, w), vals[k], w)
    {
      assert k * step <= 2 * k;
      ElemWidthIsLeast(vals[k], n, first + k * step, w);
    }
    if forall k | 0 <= k < |vals| :: Fits(OffsetLoc(n, first + k * step, w), vals[k], w) {
      MaxElemWidthIsLeast(vals, n, step, first, w);
    }
  }

  /** The width CreateVector takes is the least that serves: the smallest bit width the vector can be
    * stored with. */
  lemma VectorWidthIsLeast(st: State, vals: seq<Value>, step: nat, keys: Option<Value>, w: BitWidth)
    requires Writable(st, vals, keys) && 1 <= step <= 2
    ensures VectorWidth(st, vals, step, keys) <= w <==> WidthServes(st, vals, step, keys, w)
  {
    hide ElemWidth, OffsetLoc, Fits, MaxElemWidth, WidthU;
    ElementsMeasured(st, vals, step, keys, w);
    WidthUBound(|vals|, w);
    if keys.Some? {
      ElemWidthIsLeast(keys.value, |st.buf|, 0, w);
    }
  }

  /** For a vector that is not a map, every element is measured where it will be. */
  lemma PlainWidthIsLeast(st: State, vals: seq<Value>, w: BitWidth)
    requires Writable(st, vals, None)
    ensures VectorWidth(st, vals, 1, None) <= w <==>
            && st.forceMinWidth <= w && |vals| < Pow256(ByteWidth(w))
            && forall k | 0 <= k < |vals| :: FitsAt(OffsetLoc(|st.buf|, 1, w), k, vals[k], w)
  {
    hide VectorWidth, OffsetLoc, Fits;
    VectorWidthIsLeast(st, vals, 1, None, w);
    forall k | 0 <= k < |vals|
      ensures Fits(OffsetLoc(|st.buf|, 1 + k * 1, w), vals[k], w) <==> FitsAt(OffsetLoc(|st.buf|, 1, w), k, vals[k], w)
    {
      OffsetLocSum(|st.buf|, 1, k, w);
      assert k * 1 == k;
    }
  }

  // Places

  /** An object with words of b bytes begins at p: behind buf, at the first multiple of b, with zeros between. */
  predicate Begins(buf: bytes, m: bytes, p: nat, b: nat) {
    && IsByteWidth(b) && FirstAligned(p, |buf|, b)
    && buf <= m && p <= |m| && forall q | |buf| <= q < p :: m[q] == 0
  }

  lemma AlignBegins(buf: bytes, w: BitWidth, rest: bytes)
    ensures var a := Align(buf, w); Begins(buf, a + rest, |a|, ByteWidth(w))
  {
    PaddingAligns(|buf|, ByteWidth(w));
  }

  /** A type byte tells the width a number is stored with, or that of the object an offset leads to. */
  function TypeOf(v: Value, w: BitWidth): nat {
    PackedType(if IsInline(v.t) then w else v.minWidth, v.t) % 256
  }

  lemma TypesAre(st: State, vals: seq<Value>, step: nat, keys: Option<Value>, w: BitWidth, k: nat)
    requires w == VectorWidth(st, vals, step, keys) && k < |vals|
    ensures TypeByte(vals[k], w) == TypeOf(vals[k], w)
  {
    hide TryWidths, WidthU, OffsetLoc;
    assert ElemWidth(vals[k], |st.buf|, PrefixElems(keys) + k * step) <= w;
  }

  /** v is a vector or map of vals, written behind st.buf with the least width that serves: padding,
    * header, data, and then a type for every element when they are not all keys. */
  ghost predicate VectorLaidOut(st: State, vals: seq<Value>, step: nat, typed: bool, keys: Option<Value>,
                                m: bytes, v: Value)
  {
    var b := ByteWidth(v.minWidth);
    && v.t == (if keys.Some? then FBT_MAP else if typed then FBT_VECTOR_KEY else FBT_VECTOR)
    && (forall w: BitWidth :: v.minWidth <= w <==> WidthServes(st, vals, step, keys, w))
    && PrefixElems(keys) * b <= v.u && Begins(st.buf, m, v.u - PrefixElems(keys) * b, b)
    && |m| == v.u + b * |vals| + (if typed then 0 else |vals|)
    && (!typed ==> forall k | 0 <= k < |vals| :: m[v.u + b * |vals| + k] == TypeOf(vals[k], v.minWidth))
  }

  lemma CreateVectorLaidOut(st: State, vals: seq<Value>, step: nat, typed: bool, keys: Option<Value>,
                            m: bytes, v: Value)
    requires (m, v) == CreateVector(st, vals, step, typed, keys)
    requires Writable(st, vals, keys) && 1 <= step <= 2
    ensures VectorLaidOut(st, vals, step, typed, keys, m, v) && v.u <= |m|
  {
    hide ElemBytes, TypeByte, TypeOf, VectorWidth, VectorHeader, Align, Begins, WidthServes, Writable;
    var w := VectorWidth(st, vals, step, keys);
    var b := ByteWidth(w);
    var a := Align(st.buf, w);
    var h := VectorHeader(|a|, |vals|, keys, b);
    HeaderTakes(|a|, |vals|, keys, b);
    var es := ElemBytes(|a + h|, vals, b);
    var ts := if typed then [] else TypeBytes(vals, w);
    assert m == a + (h + es + ts);
    AlignBegins(st.buf, w, h + es + ts);
    forall w': BitWidth
      ensures w <= w' <==> WidthServes(st, vals, step, keys, w')
    {
      VectorWidthIsLeast(st, vals, step, keys, w');
    }
    if !typed {
      forall k | 0 <= k < |vals|
        ensures m[v.u + b * |vals| + k] == TypeOf(vals[k], w)
      {
        TypesAre(st, vals, step, keys, w, k);
      }
    }
  }

  /** EndVector writes one vector and nothing else. */
  lemma EndVectorLaidOut(st: State, start: nat, r: State)
    requires start <= |st.stack| && r == EndVector(st, start) && Writable(st, st.stack[start..], None)
    ensures |r.stack| == start + 1 && r == st.(buf := r.buf, stack := st.stack[..start] + [r.stack[start]])
    ensures VectorLaidOut(st, st.stack[start..], 1, false, None, r.buf, r.stack[start])
  {
    hide CreateVector, VectorLaidOut, Writable;
    CreateVectorLaidOut(st, st.stack[start..], 1, false, None, r.buf, r.stack[start]);
  }

  /** EndMap writes the vector of the keys, and behind it the map, and nothing else. */
  lemma EndMapLaidOut(st: State, start: nat, order: seq<nat>, r: State)
    requires start <= |st.stack| && Sorts(st.buf, st.stack[start..], order) && r == EndMap(st, start, order)
    requires Writable(st, st.stack[start..], None) && |r.buf| < TWO63
    ensures |r.stack| == start + 1
    ensures r == st.(buf := r.buf, stack := st.stack[..start] + [r.stack[start]],
                     hasDuplicateKeys := r.hasDuplicateKeys)
    ensures exists m: bytes, keys: Value ::
              && VectorLaidOut(st, Picked(st.stack[start..], order, 0), 2, true, None, m, keys)
              && VectorLaidOut(st.(buf := m), Picked(st.stack[start..], order, 1), 2, false, Some(keys),
                               r.buf, r.stack[start])
  {
    hide CreateVector, VectorLaidOut, Writable, Sorts, EqualKeys, Picked, IsOrder;
    var pairs := st.stack[start..];
    SortsPairs(st.buf, pairs, order);
    var (m, keys) := CreateVector(st, Picked(pairs, order, 0), 2, true, None);
    var (m', v) := CreateVector(st.(buf := m), Picked(pairs, order, 1), 2, false, Some(keys));
    CreateVectorGrows(st, Picked(pairs, order, 0), 2, true, None, m);
    CreateVectorGrows(st.(buf := m), Picked(pairs, order, 1), 2, false, Some(keys), m');
    PickedWritable(st, pairs, order, 0, st, None);
    CreateVectorLaidOut(st, Picked(pairs, order, 0), 2, true, None, m, keys);
    LaidOutType(st, Picked(pairs, order, 0), m, keys);
    PickedWritable(st, pairs, order, 1, st.(buf := m), Some(keys));
    CreateVectorLaidOut(st.(buf := m), Picked(pairs, order, 1), 2, false, Some(keys), m', v);
  }

  lemma LaidOutType(st: State, vals: seq<Value>, m: bytes, v: Value)
    requires VectorLaidOut(st, vals, 2, true, None, m, v)
    ensures !IsInline(v.t)
  {}

  lemma PickedWritable(st: State, pairs: seq<Value>, order: seq<nat>, second: nat, st': State, keys: Option<Value>)
    requires Writable(st, pairs, None) && |pairs| % 2 == 0 && IsOrder(order, |pairs| / 2) && second < 2
    requires st.buf <= st'.buf && |st'.buf| < TWO63
    requires keys.Some? ==> !IsInline(keys.value.t) && keys.value.u <= |st'.buf|
    ensures Writable(st', Picked(pairs, order, second), keys)
  {
    OrderLength(order, |pairs| / 2);
    forall j | 0 <= j < |order|
      ensures var v := Picked(pairs, order, second)[j]; IsInline(v.t) || v.u <= |st'.buf|
    {
      assert order[j] < |pairs| / 2;
    }
  }

  lemma HeaderTakes(pos: nat, n: nat, keys: Option<Value>, b: nat)
    ensures |VectorHeader(pos, n, keys, b)| == PrefixElems(keys) * b
  {
    hide Encode, AnyBytes;
  }

  /** A string begins with its length, of the least width that has it, and ends with a NUL. */
  lemma PushStringLaidOut(st: State, s: bytes, r: State)
    requires r == PushString(st, s) && |s| < TWO64
    ensures |r.stack| == |st.stack| + 1
    ensures var v := r.stack[|st.stack|];
            var b := ByteWidth(v.minWidth);
            && r == st.(buf := r.buf, stack := st.stack + [v]) && v.t == FBT_STRING
            && (forall w: BitWidth :: v.minWidth <= w <==> |s| < Pow256(ByteWidth(w)))
            && b <= v.u && Begins(st.buf, r.buf, v.u - b, b)
            && |r.buf| == v.u + |s| + 1
  {
    hide WidthU, Encode, Align, Begins;
    var w := WidthU(|s|);
    var a := Align(st.buf, w);
    forall w': BitWidth
      ensures w <= w' <==> |s| < Pow256(ByteWidth(w'))
    {
      WidthUBound(|s|, w');
    }
    assert r.buf == a + (Encode(|s|, ByteWidth(w)) + s + [0]);
    AlignBegins(st.buf, w, Encode(|s|, ByteWidth(w)) + s + [0]);
  }

  /** The root value begins where it is aligned, with the least width with which it fits there, and then
    * come its type and its width. */
  lemma FinishLaidOut(st: State, m: bytes)
    requires |st.stack| == 1 && m == Finish(st) && Writable(st, st.stack, None)
    ensures |m| >= 2
    ensures var v, b := st.stack[0], m[|m| - 1];
            && IsByteWidth(b) && b + 2 <= |m| && Begins(st.buf, m, |m| - 2 - b, b)
            && m[|m| - 2] == PackedType(v.minWidth, v.t) % 256
            && forall w: BitWidth :: b <= ByteWidth(w) <==> Fits(OffsetLoc(|st.buf|, 0, w), v, w)
  {
    hide ElemWidth, AnyBytes, Align, Begins, Fits, OffsetLoc;
    var v := st.stack[0];
    var w := ElemWidth(v, |st.buf|, 0);
    var a := Align(st.buf, w);
    forall w': BitWidth
      ensures ByteWidth(w) <= ByteWidth(w') <==> Fits(OffsetLoc(|st.buf|, 0, w'), v, w')
    {
      ElemWidthIsLeast(v, |st.buf|, 0, w');
    }
    var rest := AnyBytes(|a|, v, ByteWidth(w)) + [TypeByte(v, 0)] + [ByteWidth(w)];
    assert m == a + rest;
    AlignBegins(st.buf, w, rest);
  }
}
