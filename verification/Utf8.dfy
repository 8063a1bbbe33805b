/** UTF-8: the encoder and the strict decoder of util.h, against the grammar of RFC 3629. Shifts and
  * masks are written as divisions and remainders; the ors join bits that do not overlap. */
module Utf8 {
  import opened Bytes

  // RFC 3629

  /** The byte at p of a NUL-terminated string. */
  function At(s: bytes, p: nat): byte {
    if p < |s| then s[p] else 0
  }

  /** UTF8-tail of section 4. */
  predicate IsTail(b: byte) {
    0x80 <= b <= 0xBF
  }

  predicate TwoBytes(a: byte, b: byte) {
    0xC2 <= a <= 0xDF && IsTail(b)
  }

  predicate ThreeBytes(a: byte, b: byte, c: byte) {
    && (|| (a == 0xE0 && 0xA0 <= b <= 0xBF)
        || (0xE1 <= a <= 0xEC && IsTail(b))
        || (a == 0xED && 0x80 <= b <= 0x9F)
        || (0xEE <= a <= 0xEF && IsTail(b)))
    && IsTail(c)
  }

  predicate FourBytes(a: byte, b: byte, c: byte, d: byte) {
    && (|| (a == 0xF0 && 0x90 <= b <= 0xBF)
        || (0xF1 <= a <= 0xF3 && IsTail(b))
        || (a == 0xF4 && 0x80 <= b <= 0x8F))
    && IsTail(c) && IsTail(d)
  }

  /** The length of the UTF8-char that section 4 allows at p, or 0 when there is none. */
  function CharLength(s: bytes, p: nat): (n: nat)
    ensures n <= 4 && (p < |s| ==> p + n <= |s|)
  {
    var a, b, c, d := At(s, p), At(s, p + 1), At(s, p + 2), At(s, p + 3);
    if a <= 0x7F then 1
    else if TwoBytes(a, b) then 2
    else if ThreeBytes(a, b, c) then 3
    else if FourBytes(a, b, c, d) then 4
    else 0
  }

  /** The bits of the character: those of the table in section 3, for 1 to 4 bytes. */
  function CodePoint(s: bytes, p: nat): nat {
    var a, b, c, d := At(s, p), At(s, p + 1), At(s, p + 2), At(s, p + 3);
    match CharLength(s, p)
    case 2 => a % 0x20 * 0x40 + b % 0x40
    case 3 => a % 0x10 * 0x1000 + b % 0x40 * 0x40 + c % 0x40
    case 4 => a % 0x08 * 0x4_0000 + b % 0x40 * 0x1000 + c % 0x40 * 0x40 + d % 0x40
    case _ => a
  }

  /** The code points that UTF-8 may encode: no surrogates, nothing above U+10FFFF. */
  predicate IsScalarValue(c: nat) {
    c < 0xD800 || 0xE000 <= c < 0x11_0000
  }

  /** A string of whole characters. */
  predicate ValidUtf8(s: bytes)
    decreases |s|
  {
    s == [] || (CharLength(s, 0) > 0 && ValidUtf8(s[CharLength(s, 0)..]))
  }

  // ToUTF8

  function Pow64(n: nat): (p: nat)
    ensures p >= 1
  {
    if n == 0 then 1 else 0x40 * Pow64(n - 1)
  }

  /** How many values the i-th of the six encodings, of i + 1 bytes, can hold. */
  function Capacity(i: nat): (n: nat)
    requires i < 6
  {
    match i
    case 0 => 0x80
    case 1 => 0x800
    case 2 => 0x1_0000
    case 3 => 0x20_0000
    case 4 => 0x400_0000
    case 5 => TWO31
  }

  /** The first encoding that fits. */
  function Encoding(c: nat): (i: nat)
    requires c < TWO31
    ensures i < 6 && c < Capacity(i) && forall j | 0 <= j < i :: Capacity(j) <= c
  {
    if c < 0x80 then 0
    else if c < 0x800 then 1
    else if c < 0x1_0000 then 2
    else if c < 0x20_0000 then 3
    else if c < 0x400_0000 then 4
    else 5
  }

  function TwoToThe(n: nat): (p: nat)
    ensures p >= 1
  {
    if n == 0 then 1 else 2 * TwoToThe(n - 1)
  }

  /** 0xFE shifted to leave room for the bits above the tail, and those bits. */
  function FirstByte(c: nat, i: nat): byte
    requires i < 6
  {
    var maxBits := 6 + i * 5 + if i == 0 then 1 else 0;
    (0xFE * TwoToThe(maxBits - i * 6) + c / Pow64(i)) % 0x100
  }

  function TailByte(c: nat, j: nat): byte {
    0x80 + c / Pow64(j) % 0x40
  }

  function TailBytes(c: nat, i: nat): (s: bytes)
    ensures |s| == i
  {
    if i == 0 then [] else [TailByte(c, i - 1)] + TailBytes(c, i - 1)
  }

  function ToUtf8(c: nat): (s: bytes)
    requires c < TWO31
    ensures 1 <= |s| <= 6
  {
    var i := Encoding(c);
    [FirstByte(c, i)] + TailBytes(c, i)
  }

  /** Appends to out and returns the number of bytes; the final assertion is never reached. */
  method ToUTF8(ucc: nat, text: bytes) returns (n: nat, out: bytes)
    requires ucc < TWO31
    ensures out == text + ToUtf8(ucc) && n == |ToUtf8(ucc)|
  {
    hide FirstByte, TailByte;
    out := text;
    var i := 0;
    while i < 6
      invariant i <= Encoding(ucc) && out == text
    {
      CapacityBits(i);
      var maxBits := 6 + i * 5 + if i == 0 then 1 else 0;
      if ucc < TwoToThe(maxBits) {
        out := out + [FirstByte(ucc, i)];
        var j := i - 1;
        while j >= 0
          invariant -1 <= j < i
          invariant out + TailBytes(ucc, j + 1) == text + ToUtf8(ucc)
        {
          assert TailBytes(ucc, j + 1) == [TailByte(ucc, j)] + TailBytes(ucc, j);
          out := out + [TailByte(ucc, j)];
          j := j - 1;
        }
        assert TailBytes(ucc, 0) == [];
        return i + 1, out;
      }
      i := i + 1;
    }
    assert false;
  }

  lemma CapacityBits(i: nat)
    requires i < 6
    ensures TwoToThe(6 + i * 5 + if i == 0 then 1 else 0) == Capacity(i)
  {
    Powers();
  }

  lemma Powers()
    ensures TwoToThe(1) == 2 && TwoToThe(2) == 4 && TwoToThe(3) == 8 && TwoToThe(4) == 16 && TwoToThe(5) == 32
    ensures TwoToThe(7) == 0x80 && TwoToThe(11) == 0x800 && TwoToThe(16) == 0x1_0000
    ensures TwoToThe(21) == 0x20_0000 && TwoToThe(26) == 0x400_0000 && TwoToThe(31) == TWO31
  {
    assert TwoToThe(9) == 0x200 && TwoToThe(13) == 0x2000 && TwoToThe(15) == 0x8000 && TwoToThe(18) == 0x4_0000;
    assert TwoToThe(20) == 0x10_0000 && TwoToThe(23) == 0x80_0000 && TwoToThe(25) == 0x200_0000;
    assert TwoToThe(28) == 0x1000_0000 && TwoToThe(30) == 0x4000_0000;
  }

  // FromUTF8

  /** The bits of the first byte below its len leading ones, then six of each of k tail bytes. */
  function Gathered(s: bytes, p: nat, len: nat, k: nat): nat
    requires len < 8
  {
    if k == 0 then At(s, p) % TwoToThe(7 - len)
    else Gathered(s, p, len, k - 1) * 0x40 + At(s, p + k) % 0x40
  }

  /** The k bytes after the first are tails. */
  predicate Tails(s: bytes, p: nat, k: nat) {
    k == 0 || (Tails(s, p, k - 1) && IsTail(At(s, p + k)))
  }

  /** The checks made once len bytes have been gathered: no surrogate, and no shorter form. */
  predicate InRange(ucc: nat, len: nat) {
    && !(0xD800 <= ucc <= 0xDFFF)
    && match len
       case 2 => 0x80 <= ucc <= 0x7FF
       case 3 => 0x800 <= ucc <= 0xFFFF
       case 4 => 0x1_0000 <= ucc <= 0x10_FFFF
       case _ => true
  }

  predicate LeadingOnesOf(b: byte, len: nat) {
    && len <= 6 && 0x100 - TwoToThe(8 - len) <= b
    && (len < 6 ==> b < 0x100 - TwoToThe(7 - len))
  }

  lemma FirstByteRange(b: byte, len: nat)
    requires LeadingOnesOf(b, len)
    ensures len == 0 <==> b < 0x80
    ensures len == 1 <==> 0x80 <= b < 0xC0
    ensures len == 2 <==> 0xC0 <= b < 0xE0
    ensures len == 3 <==> 0xE0 <= b < 0xF0
    ensures len == 4 <==> 0xF0 <= b < 0xF8
    ensures b / TwoToThe(7 - len) % 2 == 1 ==> b >= 0xFE
  {
    Powers();
    assert TwoToThe(0) == 1 && TwoToThe(6) == 0x40 && TwoToThe(8) == 0x100;
  }

  /** Gathering and checking two bytes accepts what the grammar does. */
  lemma Two(s: bytes, p: nat)
    requires 0xC0 <= At(s, p) < 0xE0
    ensures CharLength(s, p) == if Tails(s, p, 1) && InRange(Gathered(s, p, 2, 1), 2) then 2 else 0
    ensures CharLength(s, p) == 2 ==> CodePoint(s, p) == Gathered(s, p, 2, 1)
  {
    Powers();
    assert Gathered(s, p, 2, 0) == At(s, p) % 0x20;
  }

  lemma Three(s: bytes, p: nat)
    requires 0xE0 <= At(s, p) < 0xF0
    ensures CharLength(s, p) == if Tails(s, p, 2) && InRange(Gathered(s, p, 3, 2), 3) then 3 else 0
    ensures CharLength(s, p) == 3 ==> CodePoint(s, p) == Gathered(s, p, 3, 2)
  {
    Powers();
    assert Gathered(s, p, 3, 0) == At(s, p) % 0x10;
    assert Gathered(s, p, 3, 1) == At(s, p) % 0x10 * 0x40 + At(s, p + 1) % 0x40;
    assert Tails(s, p, 1) == IsTail(At(s, p + 1));
  }

  /** With three tails, the range of the number decides. */
  lemma FourRange(a: byte, b: byte, c: byte, d: byte)
    requires 0xF0 <= a < 0xF8 && IsTail(b) && IsTail(c) && IsTail(d)
    ensures FourBytes(a, b, c, d) <==>
            0x1_0000 <= ((a % 8 * 0x40 + b % 0x40) * 0x40 + c % 0x40) * 0x40 + d % 0x40 <= 0x10_FFFF
  {
    assert a % 8 == a - 0xF0 && b % 0x40 == b - 0x80 && c % 0x40 == c - 0x80 && d % 0x40 == d - 0x80;
  }

  lemma Four(s: bytes, p: nat)
    requires 0xF0 <= At(s, p) < 0xF8
    ensures CharLength(s, p) == if Tails(s, p, 3) && InRange(Gathered(s, p, 4, 3), 4) then 4 else 0
    ensures CharLength(s, p) == 4 ==> CodePoint(s, p) == Gathered(s, p, 4, 3)
  {
    var a, b, c, d := At(s, p), At(s, p + 1), At(s, p + 2), At(s, p + 3);
    assert Tails(s, p, 1) == IsTail(b);
    assert Tails(s, p, 2) == (IsTail(b) && IsTail(c));
    if IsTail(b) && IsTail(c) && IsTail(d) {
      FourRange(a, b, c, d);
      hide At, IsTail, FourBytes;
      Powers();
      var g0 := Gathered(s, p, 4, 0);
      var g1 := Gathered(s, p, 4, 1);
      assert g0 == a % 8 && g1 == g0 * 0x40 + b % 0x40;
      assert Gathered(s, p, 4, 2) == g1 * 0x40 + c % 0x40;
    }
  }

  lemma Gathering(s: bytes, p: nat, len: nat)
    requires LeadingOnesOf(At(s, p), len) && 2 <= len <= 4
    ensures CharLength(s, p) == if Tails(s, p, len - 1) && InRange(Gathered(s, p, len, len - 1), len) then len else 0
    ensures CharLength(s, p) == len ==> CodePoint(s, p) == Gathered(s, p, len, len - 1)
  {
    hide CharLength, CodePoint, Tails, InRange, Gathered, LeadingOnesOf;
    FirstByteRange(At(s, p), len);
    if len == 2 {
      Two(s, p);
    } else if len == 3 {
      Three(s, p);
    } else {
      Four(s, p);
    }
  }

  lemma OtherLength(s: bytes, p: nat, len: nat)
    requires LeadingOnesOf(At(s, p), len)
    ensures At(s, p) / TwoToThe(7 - len) % 2 == 1 || len == 1 || len > 4 ==> CharLength(s, p) == 0
    ensures len == 0 ==> CharLength(s, p) == 1 && CodePoint(s, p) == At(s, p)
  {
    hide LeadingOnesOf;
    FirstByteRange(At(s, p), len);
  }

  lemma {:induction false} TailsFail(s: bytes, p: nat, k: nat, n: nat)
    requires 1 <= k <= n && !IsTail(At(s, p + k))
    ensures !Tails(s, p, n)
  {
    if k < n {
      TailsFail(s, p, k, n - 1);
    }
  }

  lemma UpperBits(b: byte)
    ensures b / 0x40 == 2 <==> IsTail(b)
  {}

  /** Gathers the bits of len bytes: -1 when one after the first does not start with the bits 10. */
  method Gather(s: bytes, p: nat, len: nat) returns (ucc: int, next: nat)
    requires 1 <= len < 8
    ensures !Tails(s, p, len - 1) ==> ucc == -1
    ensures Tails(s, p, len - 1) ==> ucc == Gathered(s, p, len, len - 1) && next == p + len
  {
    hide At, IsTail, TwoToThe;
    ucc := At(s, p) % TwoToThe(7 - len);
    next := p + 1;
    var i := 0;
    while i < len - 1
      invariant 0 <= i <= len - 1 && next == p + 1 + i
      invariant ucc == Gathered(s, p, len, i) && Tails(s, p, i)
    {
      UpperBits(At(s, next));
      if At(s, next) / 0x40 != 2 {
        TailsFail(s, p, i + 1, len - 1);
        return -1, next;
      }
      ucc := ucc * 0x40 + At(s, next) % 0x40;
      next := next + 1;
      i := i + 1;
    }
  }

  /** Reads a character at p. It accepts exactly what RFC 3629 allows there; -1 when it is not accepted. */
  method FromUTF8(s: bytes, p: nat) returns (ucc: int, next: nat)
    ensures CharLength(s, p) == 0 <==> ucc == -1
    ensures CharLength(s, p) > 0 ==> ucc == CodePoint(s, p) && next == p + CharLength(s, p)
  {
    hide At, CharLength, CodePoint, LeadingOnesOf, TwoToThe, Gathered, Tails;
    var len := LeadingOnes(At(s, p));
    OtherLength(s, p, len);
    next := p;
    if At(s, p) / TwoToThe(7 - len) % 2 == 1 {
      return -1, next;
    }
    if len == 0 {
      return At(s, p), p + 1;
    }
    if len < 2 || len > 4 {
      return -1, next;
    }
    Gathering(s, p, len);
    ucc, next := Gather(s, p, len);
    if ucc == -1 {
      return -1, next;
    }
    if 0xD800 <= ucc <= 0xDFFF {
      return -1, next;
    }
    match len
    case 2 =>
      if ucc < 0x80 || ucc > 0x7FF {
        return -1, next;
      }
    case 3 =>
      if ucc < 0x800 || ucc > 0xFFFF {
        return -1, next;
      }
    case 4 =>
      if ucc < 0x1_0000 || ucc > 0x10_FFFF {
        return -1, next;
      }
  }

  /** After len leading ones, the next mask tests the next bit. */
  lemma NextBit(b: byte, len: nat)
    requires len < 6 && 0x100 - 2 * TwoToThe(7 - len) <= b
    ensures b / TwoToThe(7 - len) % 2 == 1 <==> 0x100 - TwoToThe(7 - len) <= b
    ensures TwoToThe(7 - len) == 2 * TwoToThe(6 - len) && TwoToThe(7 - len) >= 4
  {
    Powers();
    assert TwoToThe(6) == 0x40;
  }

  /** Tries the masks from 0x80 down to 0x04 until one finds a zero. */
  method LeadingOnes(b: byte) returns (len: nat)
    ensures len <= 6 && LeadingOnesOf(b, len)
  {
    len := 0;
    var mask := 0x80;
    FirstAndLastMask();
    hide TwoToThe;
    while mask >= 0x04
      invariant len <= 6 && mask == TwoToThe(7 - len)
      invariant 0x100 - 2 * mask <= b && 2 * mask == TwoToThe(8 - len)
    {
      NextBit(b, len);
      if b / mask % 2 == 1 {
        len := len + 1;
      } else {
        break;
      }
      mask := mask / 2;
    }
  }

  lemma FirstAndLastMask()
    ensures TwoToThe(7) == 0x80 && TwoToThe(8) == 0x100 && TwoToThe(1) == 2
  {
    Powers();
    assert TwoToThe(8) == 2 * TwoToThe(7);
  }

  // The encoder and the decoder undo each other.

  lemma Powers64()
    ensures Pow64(0) == 1 && Pow64(1) == 0x40 && Pow64(2) == 0x1000 && Pow64(3) == 0x4_0000
    ensures Pow64(4) == 0x100_0000 && Pow64(5) == 0x4000_0000
  {}

  /** The low byte of 0xFE shifted, with bits below it. */
  lemma LowByte(power: nat, q: nat)
    requires power == 2 || power == 4 || power == 8 || power == 0x10 || power == 0x20 || power == 0x80
    requires q < power
    ensures (0xFE * power + q) % 0x100 == (if power == 0x80 then 0 else 0x100 - 2 * power) + q
  {}

  lemma FirstByteIs(c: nat, i: nat, power: nat)
    requires i < 6 && power == TwoToThe(6 + i * 5 + (if i == 0 then 1 else 0) - i * 6) && c / Pow64(i) < power
    requires power == 2 || power == 4 || power == 8 || power == 0x10 || power == 0x20 || power == 0x80
    ensures FirstByte(c, i) == (if power == 0x80 then 0 else 0x100 - 2 * power) + c / Pow64(i)
  {
    hide TwoToThe, Pow64;
    LowByte(power, c / Pow64(i));
  }

  lemma FirstByteValue(c: nat, i: nat)
    requires i < 6 && c < Capacity(i)
    ensures i == 0 ==> FirstByte(c, i) == c
    ensures i == 1 ==> FirstByte(c, i) == 0xC0 + c / 0x40
    ensures i == 2 ==> FirstByte(c, i) == 0xE0 + c / 0x1000
    ensures i == 3 ==> FirstByte(c, i) == 0xF0 + c / 0x4_0000
    ensures i >= 4 ==> FirstByte(c, i) >= 0xF8
  {
    Powers();
    Powers64();
    hide TwoToThe, Pow64, FirstByte;
    FirstByteIs(c, i, match i case 0 => 0x80 case 1 => 0x20 case 2 => 0x10 case 3 => 8 case 4 => 4 case 5 => 2);
  }

  lemma TailBytesValue(c: nat)
    ensures TailBytes(c, 1) == [0x80 + c % 0x40]
    ensures TailBytes(c, 2) == [0x80 + c / 0x40 % 0x40, 0x80 + c % 0x40]
    ensures TailBytes(c, 3) == [0x80 + c / 0x1000 % 0x40, 0x80 + c / 0x40 % 0x40, 0x80 + c % 0x40]
  {
    Powers64();
    assert TailBytes(c, 0) == [];
  }

  /** The encodings of RFC 3629, section 3. */
  lemma EncodedBytes(c: nat)
    requires c < 0x20_0000
    ensures ToUtf8(c) ==
            if c < 0x80 then [c]
            else if c < 0x800 then [0xC0 + c / 0x40, 0x80 + c % 0x40]
            else if c < 0x1_0000 then [0xE0 + c / 0x1000, 0x80 + c / 0x40 % 0x40, 0x80 + c % 0x40]
            else [0xF0 + c / 0x4_0000, 0x80 + c / 0x1000 % 0x40, 0x80 + c / 0x40 % 0x40, 0x80 + c % 0x40]
  {
    hide FirstByte, TailByte, TailBytes;
    FirstByteValue(c, Encoding(c));
    TailBytesValue(c);
    assert TailBytes(c, 0) == [];
  }

  /** The digits of a number in base 64. */
  lemma Digits(c: nat, d3: nat, d2: nat, d1: nat, d0: nat)
    requires d2 < 0x40 && d1 < 0x40 && d0 < 0x40
    requires c == d3 * 0x4_0000 + d2 * 0x1000 + d1 * 0x40 + d0
    ensures c % 0x40 == d0 && c / 0x40 % 0x40 == d1 && c / 0x1000 % 0x40 == d2 && c / 0x4_0000 == d3
    ensures c / 0x40 == d3 * 0x1000 + d2 * 0x40 + d1 && c / 0x1000 == d3 * 0x40 + d2
  {
    var f := d3 * 0x40 + d2;
    var e := f * 0x40 + d1;
    LastDigit(c, e, d0);
    LastDigit(e, f, d1);
    LastDigit(f, d3, d2);
    DivideTwice(c);
    DivideTwice(e);
    DivideThrice(c);
  }

  lemma LastDigit(c: nat, q: nat, d: nat)
    requires c == q * 0x40 + d && d < 0x40
    ensures c / 0x40 == q && c % 0x40 == d
  {}

  lemma DivideTwice(c: nat)
    ensures c / 0x1000 == c / 0x40 / 0x40
  {}

  lemma DivideThrice(c: nat)
    ensures c / 0x4_0000 == c / 0x1000 / 0x40
  {}

  lemma DigitsOf(c: nat) returns (d3: nat, d2: nat, d1: nat, d0: nat)
    ensures d2 < 0x40 && d1 < 0x40 && d0 < 0x40
    ensures c == d3 * 0x4_0000 + d2 * 0x1000 + d1 * 0x40 + d0
  {
    var e, f := c / 0x40, c / 0x40 / 0x40;
    d0, d1, d2, d3 := c % 0x40, e % 0x40, f % 0x40, f / 0x40;
  }

  lemma DecodeTwo(s: bytes, d1: nat, d0: nat)
    requires d1 < 0x20 && d0 < 0x40
    requires [0xC0 + d1, 0x80 + d0] <= s
    ensures var c := d1 * 0x40 + d0;
            CharLength(s, 0) == (if c >= 0x80 then 2 else 0) && (c >= 0x80 ==> CodePoint(s, 0) == c)
  {
    assert At(s, 0) == 0xC0 + d1 && At(s, 1) == 0x80 + d0;
  }

  lemma DecodeThree(s: bytes, d2: nat, d1: nat, d0: nat)
    requires d2 < 0x10 && d1 < 0x40 && d0 < 0x40
    requires [0xE0 + d2, 0x80 + d1, 0x80 + d0] <= s
    ensures var c := d2 * 0x1000 + d1 * 0x40 + d0;
            var ok := c >= 0x800 && IsScalarValue(c);
            CharLength(s, 0) == (if ok then 3 else 0) && (ok ==> CodePoint(s, 0) == c)
  {
    assert At(s, 0) == 0xE0 + d2 && At(s, 1) == 0x80 + d1 && At(s, 2) == 0x80 + d0;
  }

  lemma DecodeFour(s: bytes, d3: nat, d2: nat, d1: nat, d0: nat)
    requires d3 < 8 && d2 < 0x40 && d1 < 0x40 && d0 < 0x40
    requires [0xF0 + d3, 0x80 + d2, 0x80 + d1, 0x80 + d0] <= s
    ensures var c := d3 * 0x4_0000 + d2 * 0x1000 + d1 * 0x40 + d0;
            var ok := 0x1_0000 <= c < 0x11_0000;
            CharLength(s, 0) == (if ok then 4 else 0) && (ok ==> CodePoint(s, 0) == c)
  {
    assert At(s, 0) == 0xF0 + d3 && At(s, 1) == 0x80 + d2 && At(s, 2) == 0x80 + d1 && At(s, 3) == 0x80 + d0;
  }

  /** For every number the encoder takes, the decoder gives it back, having read the very bytes written,
    * if it is a Unicode scalar value, and rejects what was written if it is not: surrogates, numbers
    * above U+10FFFF, and so all encodings of five or six bytes. */
  lemma EncodeThenDecode(c: nat, rest: bytes)
    requires c < TWO31
    ensures var s := ToUtf8(c) + rest;
            if IsScalarValue(c) then CharLength(s, 0) == |ToUtf8(c)| && CodePoint(s, 0) == c else CharLength(s, 0) == 0
  {
    hide FirstByte, TailBytes, CodePoint, CharLength;
    var s := ToUtf8(c) + rest;
    if c >= 0x20_0000 {
      FirstByteValue(c, Encoding(c));
      NoCharAbove(s);
    } else {
      hide ToUtf8;
      EncodedBytes(c);
      var d3, d2, d1, d0 := DigitsOf(c);
      Digits(c, d3, d2, d1, d0);
      if c < 0x80 {
        Ascii(s);
      } else if c < 0x800 {
        DecodeTwo(s, d1, d0);
      } else if c < 0x1_0000 {
        DecodeThree(s, d2, d1, d0);
      } else {
        DecodeFour(s, d3, d2, d1, d0);
      }
    }
  }

  lemma NoCharAbove(s: bytes)
    requires s != [] && s[0] >= 0xF8
    ensures CharLength(s, 0) == 0
  {}

  lemma Ascii(s: bytes)
    requires s != [] && s[0] < 0x80
    ensures CharLength(s, 0) == 1 && CodePoint(s, 0) == s[0]
  {}

  /** Whatever the decoder accepts, encoding the result gives exactly the bytes consumed. */
  lemma DecodeThenEncode(s: bytes, p: nat)
    requires p < |s| && CharLength(s, p) > 0
    ensures IsScalarValue(CodePoint(s, p))
    ensures ToUtf8(CodePoint(s, p)) == s[p..p + CharLength(s, p)]
  {
    var a, b, c, d := At(s, p), At(s, p + 1), At(s, p + 2), At(s, p + 3);
    var n := CharLength(s, p);
    var u := CodePoint(s, p);
    assert n <= |s| - p;
    match n
    case 2 => EncodeTwo(a, b, u);
    case 3 => EncodeThree(a, b, c, u);
    case 4 => EncodeFour(a, b, c, d, u);
    case _ =>
      hide ToUtf8;
      EncodedBytes(u);
  }

  lemma EncodeTwo(a: byte, b: byte, u: nat)
    requires TwoBytes(a, b) && u == a % 0x20 * 0x40 + b % 0x40
    ensures IsScalarValue(u) && ToUtf8(u) == [a, b]
  {
    hide ToUtf8;
    EncodedBytes(u);
    Digits(u, 0, 0, a % 0x20, b % 0x40);
  }

  lemma EncodeThree(a: byte, b: byte, c: byte, u: nat)
    requires ThreeBytes(a, b, c) && u == a % 0x10 * 0x1000 + b % 0x40 * 0x40 + c % 0x40
    ensures IsScalarValue(u) && ToUtf8(u) == [a, b, c]
  {
    hide ToUtf8;
    EncodedBytes(u);
    Digits(u, 0, a % 0x10, b % 0x40, c % 0x40);
  }

  lemma EncodeFour(a: byte, b: byte, c: byte, d: byte, u: nat)
    requires FourBytes(a, b, c, d)
    requires u == a % 0x08 * 0x4_0000 + b % 0x40 * 0x1000 + c % 0x40 * 0x40 + d % 0x40
    ensures IsScalarValue(u) && ToUtf8(u) == [a, b, c, d]
  {
    hide ToUtf8, FourBytes;
    FourDigitsOf(a, b, c, d);
    FourRange(a, b, c, d);
    var d3, d2, d1, d0 := a % 0x08, b % 0x40, c % 0x40, d % 0x40;
    assert u == ((d3 * 0x40 + d2) * 0x40 + d1) * 0x40 + d0;
    EncodedBytes(u);
    Digits(u, d3, d2, d1, d0);
  }

  lemma FourDigitsOf(a: byte, b: byte, c: byte, d: byte)
    requires FourBytes(a, b, c, d)
    ensures 0xF0 <= a < 0xF8 && IsTail(b) && IsTail(c) && IsTail(d)
    ensures a == 0xF0 + a % 0x08 && b == 0x80 + b % 0x40 && c == 0x80 + c % 0x40 && d == 0x80 + d % 0x40
  {
  }
}
