/** Width selection: an offset's width is always found, and the largest width over a vector's
  * elements is enough for every offset the vector then stores. */
module FlexWidths {
  import opened Bytes
  import opened Padding
  import opened FlexReading
  import opened FlexBuilder

  /** Rounding up to a larger power of two gives no less. */
  lemma RoundUpGrows(n: nat, w: BitWidth, w': BitWidth)
    requires w <= w'
    ensures n + PaddingBytes(n, ByteWidth(w)) <= n + PaddingBytes(n, ByteWidth(w'))
  {
    hide Aligned, PaddingBytes;
    var a, a' := ByteWidth(w), ByteWidth(w');
    PaddingIsLeast(n, a);
    PaddingIsLeast(n, a');
    AlignmentDivides(a, a', n + PaddingBytes(n, a'));
  }

  /** The place of an element moves back when the width grows. */
  lemma OffsetLocGrows(n: nat, index: nat, w: BitWidth, w': BitWidth)
    requires w <= w'
    ensures OffsetLoc(n, index, w) <= OffsetLoc(n, index, w')
  {
    hide PaddingBytes;
    RoundUpGrows(n, w, w');
    assert ByteWidth(w) <= ByteWidth(w');
    assert index * ByteWidth(w) <= index * ByteWidth(w');
  }

  lemma WidthUGrows(a: nat, b: nat)
    requires a <= b
    ensures WidthU(a) <= WidthU(b)
  {}

  /** All sizes involved are far from wrapping around. */
  predicate SmallSizes(u: nat, n: nat, index: nat) {
    u <= n && n + 8 * index + 8 < TWO64
  }

  lemma OffsetNoWrap(u: nat, n: nat, index: nat, w: BitWidth)
    requires SmallSizes(u, n, index)
    ensures u <= OffsetLoc(n, index, w) < TWO64
    ensures (OffsetLoc(n, index, w) - u) % TWO64 == OffsetLoc(n, index, w) - u
  {
    hide PaddingBytes;
    var b := ByteWidth(w);
    assert PaddingBytes(n, b) < b;
    assert index * b <= index * 8;
  }

  /** w is exactly the width that the offset from there to u needs. */
  predicate ExactWidth(u: nat, n: nat, index: nat, w: BitWidth) {
    u <= OffsetLoc(n, index, w) && WidthU(OffsetLoc(n, index, w) - u) == w
  }

  /** The search always succeeds: the width returned is exactly the width its offset needs, no smaller
    * one is enough, and the last resort is never taken with an offset that does not match. */
  lemma {:induction false} TryWidthsFinds(u: nat, n: nat, index: nat, w: BitWidth)
    requires SmallSizes(u, n, index)
    requires WidthU(OffsetLoc(n, index, w) - u) >= w
    ensures TryWidths(u, n, index, w) >= w && ExactWidth(u, n, index, TryWidths(u, n, index, w))
    ensures forall w': BitWidth | w <= w' < TryWidths(u, n, index, w) :: WidthU(OffsetLoc(n, index, w') - u) > w'
    decreases 3 - w
  {
    hide OffsetLoc, WidthU;
    OffsetNoWrap(u, n, index, w);
    if WidthU(OffsetLoc(n, index, w) - u) != w {
      assert w < 3;
      OffsetLocGrows(n, index, w, w + 1);
      WidthUGrows(OffsetLoc(n, index, w) - u, OffsetLoc(n, index, w + 1) - u);
      TryWidthsFinds(u, n, index, w + 1);
      forall w': BitWidth | w <= w' < TryWidths(u, n, index, w)
        ensures u <= OffsetLoc(n, index, w') && WidthU(OffsetLoc(n, index, w') - u) > w'
      {
        OffsetNoWrap(u, n, index, w');
        if w' > w {
          assert w + 1 <= w' < TryWidths(u, n, index, w + 1);
        }
      }
    }
  }

  /** ElemWidth never reaches its final assertion. */
  lemma ElemWidthExact(v: Value, n: nat, index: nat)
    requires !IsInline(v.t) && SmallSizes(v.u, n, index)
    ensures ExactWidth(v.u, n, index, ElemWidth(v, n, index))
    ensures forall w': BitWidth | w' < ElemWidth(v, n, index) :: WidthU(OffsetLoc(n, index, w') - v.u) > w'
  {
    hide OffsetLoc, WidthU, TryWidths;
    OffsetNoWrap(v.u, n, index, 0);
    TryWidthsFinds(v.u, n, index, 0);
  }

  lemma WidthUBound(u: nat, w: BitWidth)
    requires u < TWO64
    ensures WidthU(u) <= w <==> u < Pow256(ByteWidth(w))
  {
    Pow256Values();
  }

  /** An offset that fits its width still fits when the whole vector is stored with a larger width,
    * although padding and the elements before it grow: twice the bytes hold its square. */
  lemma OffsetStillFits(u: nat, n: nat, index: nat, w: BitWidth, w': BitWidth)
    requires SmallSizes(u, n, index) && w <= w'
    requires OffsetLoc(n, index, w) - u < Pow256(ByteWidth(w))
    ensures OffsetLoc(n, index, w') - u < Pow256(ByteWidth(w'))
  {
    hide PaddingBytes;
    Pow256Values();
    OffsetNoWrap(u, n, index, w);
    OffsetNoWrap(u, n, index, w');
    if w < w' < 3 {
      var b, b' := ByteWidth(w), ByteWidth(w');
      assert PaddingBytes(n, b') < b';
      if w == 0 {
        assert index < 0x100;
      } else {
        assert w == 1 && w' == 2 && 2 * index < 0x1_0000;
      }
    }
  }

  /** The maximum width W taken for a vector is enough for every offset in it, also where the index
    * used to measure it was an over-estimate of the place it is stored at. */
  lemma WidthSuffices(v: Value, n: nat, index: nat, actual: nat, W: BitWidth)
    requires !IsInline(v.t) && SmallSizes(v.u, n, index) && actual <= index
    requires ElemWidth(v, n, index) <= W
    ensures 0 <= OffsetLoc(n, actual, W) - v.u < Pow256(ByteWidth(W))
  {
    hide PaddingBytes, TryWidths;
    var w := ElemWidth(v, n, index);
    ElemWidthExact(v, n, index);
    OffsetNoWrap(v.u, n, index, w);
    WidthUBound(OffsetLoc(n, index, w) - v.u, w);
    OffsetStillFits(v.u, n, index, w, W);
    assert actual * ByteWidth(W) <= index * ByteWidth(W);
  }

  /** A signed number fits the width measured for it, sign bit included. */
  lemma WidthIBound(i: int, w: BitWidth)
    requires -TWO63 <= i < TWO63
    ensures WidthI(i) <= w <==> 0 - Pow256(ByteWidth(w)) <= 2 * i < Pow256(ByteWidth(w))
  {
    Pow256Values();
    if i >= 0 {
      assert Pattern64(i) == i && (2 * Pattern64(i)) % TWO64 == 2 * i;
    } else {
      assert Pattern64(i) == i + TWO64;
      assert (2 * Pattern64(i)) % TWO64 == 2 * i + TWO64;
    }
  }
}
