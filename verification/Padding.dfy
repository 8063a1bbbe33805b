/** The alignment arithmetic of base.h. */
module Padding {
  import opened Bytes

  /** The sizes the builder aligns to: powers of two up to FLATBUFFERS_MAX_ALIGNMENT. */
  type Alignment = a: nat | a == 1 || a == 2 || a == 4 || a == 8 || a == 16 witness 1

  /** n & (a - 1) for a power of two. */
  function LowBits(n: nat, a: Alignment): (r: nat)
    ensures r < a
  {
    match a
    case 1 => 0
    case 2 => n % 2
    case 4 => n % 4
    case 8 => n % 8
    case _ => n % 16
  }

  predicate Aligned(n: nat, a: Alignment) {
    LowBits(n, a) == 0
  }

  /** Two's complement negation in 64 bits: complement plus one. */
  function Negate64(n: nat): (r: nat) {
    ((TWO64 - 1 - n % TWO64) + 1) % TWO64
  }

  /** The negated size, masked with the alignment less one. */
  function PaddingBytes(bufSize: nat, scalarSize: Alignment): (p: nat)
    ensures p < scalarSize
  {
    LowBits(Negate64(bufSize), scalarSize)
  }

  /** PaddingBytes is the least number of bytes that brings the size to a multiple. */
  lemma PaddingIsLeast(n: nat, a: Alignment)
    ensures Aligned(n + PaddingBytes(n, a), a)
    ensures forall n': nat | n <= n' < n + PaddingBytes(n, a) :: !Aligned(n', a)
  {
    PaddingAligns(n, a);
    forall n': nat | n <= n' < n + PaddingBytes(n, a)
      ensures !Aligned(n', a)
    {
      if Aligned(n', a) {
        AlignedSum(n + PaddingBytes(n, a) - n', n', a);
      }
    }
  }

  /** n is the first multiple of a from the given number on. */
  predicate FirstAligned(n: nat, from: nat, a: Alignment) {
    from <= n < from + a && Aligned(n, a)
  }

  /** There is one such multiple, and none before it. */
  lemma FirstAlignedIsLeast(n: nat, from: nat, a: Alignment)
    requires FirstAligned(n, from, a)
    ensures n == from + PaddingBytes(from, a)
    ensures forall n': nat | from <= n' < n :: !Aligned(n', a)
  {
    hide Aligned, PaddingBytes;
    PaddingIsLeast(from, a);
    PaddingInside(from, a);
    if n > from + PaddingBytes(from, a) {
      AlignedSum(n - (from + PaddingBytes(from, a)), from + PaddingBytes(from, a), a);
      NoneBelow(n - (from + PaddingBytes(from, a)), a);
    }
  }

  lemma PaddingInside(n: nat, a: Alignment)
    ensures PaddingBytes(n, a) < a
  {}

  lemma NoneBelow(n: nat, a: Alignment)
    requires 0 < n < a
    ensures !Aligned(n, a)
  {}

  lemma PaddingAligns(n: nat, a: Alignment)
    ensures Aligned(n + PaddingBytes(n, a), a)
  {
    assert Negate64(n) == if n % TWO64 == 0 then 0 else TWO64 - n % TWO64;
    if a == 2 {
      Aligns2(n);
    } else if a == 4 {
      Aligns4(n);
    } else if a == 8 {
      Aligns8(n);
    } else if a == 16 {
      Aligns16(n);
    }
  }

  lemma Aligns2(n: nat)
    ensures Aligned(n + PaddingBytes(n, 2), 2)
  {}

  lemma Aligns4(n: nat)
    ensures Aligned(n + PaddingBytes(n, 4), 4)
  {}

  lemma Aligns8(n: nat)
    ensures Aligned(n + PaddingBytes(n, 8), 8)
  {}

  lemma Aligns16(n: nat)
    ensures Aligned(n + PaddingBytes(n, 16), 16)
  {}

  /** An aligned size needs no padding. */
  lemma NoPadding(n: nat, a: Alignment)
    requires Aligned(n, a)
    ensures PaddingBytes(n, a) == 0
  {
    PaddingIsLeast(n, a);
  }

  /** Alignments form a chain: a multiple of the larger is a multiple of the smaller. */
  lemma AlignmentDivides(small: Alignment, large: Alignment, n: nat)
    requires small <= large && Aligned(n, large)
    ensures Aligned(n, small)
  {}

  lemma AlignedSelf(a: Alignment)
    ensures Aligned(a, a) && Aligned(0, a)
  {}

  lemma AlignedSum(m: nat, n: nat, a: Alignment)
    requires Aligned(n, a)
    ensures Aligned(m + n, a) <==> Aligned(m, a)
  {
    if a == 2 {
      Sum2(m, n);
    } else if a == 4 {
      Sum4(m, n);
    } else if a == 8 {
      Sum8(m, n);
    } else if a == 16 {
      Sum16(m, n);
    }
  }

  lemma Sum2(m: nat, n: nat)
    requires Aligned(n, 2)
    ensures LowBits(m + n, 2) == LowBits(m, 2)
  {}

  lemma Sum4(m: nat, n: nat)
    requires Aligned(n, 4)
    ensures LowBits(m + n, 4) == LowBits(m, 4)
  {}

  lemma Sum8(m: nat, n: nat)
    requires Aligned(n, 8)
    ensures LowBits(m + n, 8) == LowBits(m, 8)
  {}

  lemma Sum16(m: nat, n: nat)
    requires Aligned(n, 16)
    ensures LowBits(m + n, 16) == LowBits(m, 16)
  {}
}
