/** Bytes, little-endian scalars and reads at a position of a buffer. */
module Bytes {
  type byte = b: int | 0 <= b < 256

  type bytes = seq<byte>

  const TWO31: int := 0x8000_0000
  const TWO32: int := 0x1_0000_0000
  const TWO63: int := 0x8000_0000_0000_0000
  const TWO64: int := 0x1_0000_0000_0000_0000

  /** Two gigabytes less one: signed 32-bit offsets must reach across the buffer. */
  const MAX_BUFFER_SIZE: int := TWO31 - 1

  datatype Option<+T> = None | Some(value: T)

  function Max(a: int, b: int): int {
    if a < b then b else a
  }

  function Min(a: int, b: int): int {
    if a < b then a else b
  }

  lemma ConcatAssoc<T>(a: seq<T>, b: seq<T>, c: seq<T>)
    ensures a + (b + c) == a + b + c
  {}

  function Zeros(n: nat): (s: bytes)
    ensures |s| == n
  {
    seq(n, _ => 0)
  }

  /** How many values a scalar of w bytes can hold. */
  function Pow256(w: nat): (p: nat)
    ensures p >= 1
  {
    if w == 0 then 1 else 256 * Pow256(w - 1)
  }

  /** The w low bytes of n, least significant first: what a scalar store writes. */
  function Encode(n: nat, w: nat): (s: bytes)
    ensures |s| == w
  {
    if w == 0 then [] else [n % 256] + Encode(n / 256, w - 1)
  }

  /** The number a little-endian byte string stands for. */
  function Decode(s: bytes): (n: nat)
    ensures n < Pow256(|s|)
  {
    if s == [] then 0 else s[0] + 256 * Decode(s[1..])
  }

  lemma {:induction false} DecodeEncode(n: nat, w: nat)
    requires n < Pow256(w)
    ensures Decode(Encode(n, w)) == n
  {
    if w > 0 {
      DecodeEncode(n / 256, w - 1);
      assert Encode(n, w)[1..] == Encode(n / 256, w - 1);
    }
  }

  lemma {:induction false} EncodeDecode(s: bytes)
    ensures Encode(Decode(s), |s|) == s
  {
    if s != [] {
      var n := Decode(s);
      assert n % 256 == s[0] && n / 256 == Decode(s[1..]);
      EncodeDecode(s[1..]);
      assert s == [s[0]] + s[1..];
    }
  }

  lemma Pow256Values()
    ensures Pow256(1) == 0x100
    ensures Pow256(2) == 0x1_0000
    ensures Pow256(4) == TWO32
    ensures Pow256(8) == TWO64
  {
    assert Pow256(3) == 0x100_0000;
    assert Pow256(5) == 0x100 * TWO32;
    assert Pow256(6) == 0x1_0000 * TWO32;
    assert Pow256(7) == 0x100_0000 * TWO32;
  }

  predicate InBounds(m: bytes, p: int, n: int) {
    0 <= p && 0 <= n && p + n <= |m|
  }

  /** ReadScalar<T> with sizeof(T) == w, as an unsigned number. */
  function ReadScalar(m: bytes, p: int, w: nat): (v: nat)
    requires InBounds(m, p, w)
    ensures v < Pow256(w)
  {
    Decode(m[p..p + w])
  }

  /** The signed reading of a w-byte two's complement number. */
  function ToSigned(u: nat, w: nat): int {
    if 2 * u < Pow256(w) then u else u - Pow256(w)
  }

  /** The 32-bit two's complement code of a signed number: conversion to unsigned is modulo 2^32. */
  function FromSigned32(i: int): (u: nat)
    ensures u < TWO32
  {
    i % TWO32
  }

  lemma SignedRoundTrip(i: int)
    requires -TWO31 <= i < TWO31
    ensures ToSigned(FromSigned32(i), 4) == i
  {
    Pow256Values();
  }

  /** A read moves with its buffer when bytes are put in front. */
  lemma ReadShift(pre: bytes, m: bytes, p: int, w: nat)
    requires InBounds(m, p, w)
    ensures InBounds(pre + m, |pre| + p, w)
    ensures ReadScalar(pre + m, |pre| + p, w) == ReadScalar(m, p, w)
  {
    assert (pre + m)[|pre| + p..|pre| + p + w] == m[p..p + w];
  }

  /** A read is unchanged when bytes are put behind. */
  lemma ReadPrefix(m: bytes, post: bytes, p: int, w: nat)
    requires InBounds(m, p, w)
    ensures InBounds(m + post, p, w)
    ensures ReadScalar(m + post, p, w) == ReadScalar(m, p, w)
  {
    assert (m + post)[p..p + w] == m[p..p + w];
  }

  /** What has just been written between pre and post is what is read there. */
  lemma ReadWritten(pre: bytes, n: nat, w: nat, post: bytes)
    requires n < Pow256(w)
    ensures ReadScalar(pre + Encode(n, w) + post, |pre|, w) == n
  {
    var m := pre + Encode(n, w) + post;
    assert m[|pre|..|pre| + w] == Encode(n, w);
    DecodeEncode(n, w);
  }
}
