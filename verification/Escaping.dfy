/** JSON escaping of strings, and the JSON string grammar of RFC 8259 it is read back with. */
module Escaping {
  import opened Bytes
  import opened Utf8

  const QUOTE: byte := 0x22
  const BACKSLASH: byte := 0x5C

  // IntToStringHex

  function HexDigit(d: nat): byte
    requires d < 16
  {
    if d < 10 then 0x30 + d else 0x41 + d - 10
  }

  function HexDigits(i: nat): (s: bytes)
    ensures |s| >= 1
  {
    if i < 16 then [HexDigit(i)] else HexDigits(i / 16) + [HexDigit(i % 16)]
  }

  /** Upper-case hexadecimal, filled up with zeros on the left. */
  function IntToStringHex(i: nat, xdigits: nat): (s: bytes)
    ensures |s| >= xdigits
  {
    var s := HexDigits(i);
    if |s| >= xdigits then s else seq(xdigits - |s|, _ => 0x30) + s
  }

  // EscapeString

  /** The two-character escapes it uses: the letter after the backslash. */
  function ShortEscape(c: byte): Option<byte> {
    if c == 0x0A then Some(0x6E)
    else if c == 0x09 then Some(0x74)
    else if c == 0x0D then Some(0x72)
    else if c == 0x08 then Some(0x62)
    else if c == 0x0C then Some(0x66)
    else if c == QUOTE || c == BACKSLASH then Some(c)
    else None
  }

  predicate IsPrintable(c: byte) {
    0x20 <= c <= 0x7E
  }

  function UnicodeEscape(u: nat): bytes {
    [BACKSLASH, 0x75] + IntToStringHex(u, 4)
  }

  /** A code point as one escape, or as a surrogate pair of two. */
  function EscapeCodePoint(c: nat): bytes {
    if c <= 0xFFFF then UnicodeEscape(c)
    else if c <= 0x10_FFFF then
      var rest := c - 0x1_0000;
      UnicodeEscape(rest / 0x400 + 0xD800) + UnicodeEscape(rest % 0x400 + 0xDC00)
    else []
  }

  /** What is written for the bytes at the front, and how many of them it stands for. */
  datatype Piece = Piece(text: bytes, taken: nat)

  function EscapeOne(s: bytes, allowNonUtf8: bool, naturalUtf8: bool): (r: Option<Piece>)
    requires s != []
    ensures r.Some? ==> 1 <= r.value.taken <= |s|
  {
    var c, n := s[0], CharLength(s, 0);
    if ShortEscape(c).Some? then Some(Piece([BACKSLASH, ShortEscape(c).value], 1))
    else if IsPrintable(c) then Some(Piece([c], 1))
    else if n == 0 then
      if allowNonUtf8 then Some(Piece([BACKSLASH, 0x78] + IntToStringHex(c, 2), 1)) else None
    else if naturalUtf8 then Some(Piece(s[..n], n))
    else Some(Piece(EscapeCodePoint(CodePoint(s, 0)), n))
  }

  function EscapeAll(s: bytes, allowNonUtf8: bool, naturalUtf8: bool): Option<bytes>
    decreases |s|
  {
    if s == [] then Some([])
    else
      match EscapeOne(s, allowNonUtf8, naturalUtf8)
      case None => None
      case Some(piece) =>
        match EscapeAll(s[piece.taken..], allowNonUtf8, naturalUtf8)
        case None => None
        case Some(rest) => Some(piece.text + rest)
  }

  /** None where the source returns false. */
  function Escape(s: bytes, allowNonUtf8: bool, naturalUtf8: bool): Option<bytes> {
    match EscapeAll(s, allowNonUtf8, naturalUtf8)
    case None => None
    case Some(t) => Some([QUOTE] + t + [QUOTE])
  }

  function Prepend(t: bytes, r: Option<bytes>): Option<bytes> {
    match r
    case None => None
    case Some(rest) => Some(t + rest)
  }

  lemma SuffixSame(s: bytes, p: nat)
    requires p <= |s|
    ensures CharLength(s, p) == CharLength(s[p..], 0) && CodePoint(s, p) == CodePoint(s[p..], 0)
  {
    assert At(s, p) == At(s[p..], 0) && At(s, p + 1) == At(s[p..], 1);
    assert At(s, p + 2) == At(s[p..], 2) && At(s, p + 3) == At(s[p..], 3);
  }

  lemma EscapeAllStep(s: bytes, i: nat, allowNonUtf8: bool, naturalUtf8: bool)
    requires i < |s|
    ensures EscapeAll(s[i..], allowNonUtf8, naturalUtf8) ==
            match EscapeOne(s[i..], allowNonUtf8, naturalUtf8)
            case None => None
            case Some(piece) => Prepend(piece.text, EscapeAll(s[i + piece.taken..], allowNonUtf8, naturalUtf8))
  {
    hide EscapeOne;
    match EscapeOne(s[i..], allowNonUtf8, naturalUtf8)
    case None =>
    case Some(piece) => assert s[i..][piece.taken..] == s[i + piece.taken..];
  }

  /** Appends the quoted and escaped string to text; s is followed by NUL, and shorter than the 32-bit
    * counter can tell. */
  method EscapeString(s: bytes, text: bytes, allowNonUtf8: bool, naturalUtf8: bool) returns (ok: bool, out: bytes)
    requires |s| < TWO32
    ensures ok <==> Escape(s, allowNonUtf8, naturalUtf8).Some?
    ensures ok ==> out == text + Escape(s, allowNonUtf8, naturalUtf8).value
  {
    hide EscapeAll, EscapeOne, CharLength, CodePoint;
    ghost var all := EscapeAll(s, allowNonUtf8, naturalUtf8);
    ghost var done := [];
    out := text + [QUOTE];
    var i := 0;
    assert s[0..] == s;
    PrependNone(all);
    while i < |s|
      invariant i <= |s|
      invariant out == text + [QUOTE] + done
      invariant all == Prepend(done, EscapeAll(s[i..], allowNonUtf8, naturalUtf8))
    {
      ghost var piece := EscapeOne(s[i..], allowNonUtf8, naturalUtf8);
      EscapeAllStep(s, i, allowNonUtf8, naturalUtf8);
      SuffixSame(s, i);
      var part, taken;
      ok, part, taken := EscapeNext(s, i, allowNonUtf8, naturalUtf8);
      if !ok {
        return;
      }
      PrependTwice(done, part, EscapeAll(s[i + taken..], allowNonUtf8, naturalUtf8));
      done := done + part;
      out := out + part;
      i := i + taken;
    }
    Finished(all, done, EscapeAll(s[i..], allowNonUtf8, naturalUtf8), s[i..], allowNonUtf8, naturalUtf8);
    out := out + [QUOTE];
    ok := true;
  }

  lemma PrependNone(r: Option<bytes>)
    ensures r == Prepend([], r)
  {
    if r.Some? {
      assert [] + r.value == r.value;
    }
  }

  lemma PrependTwice(a: bytes, b: bytes, r: Option<bytes>)
    ensures Prepend(a, Prepend(b, r)) == Prepend(a + b, r)
  {
    if r.Some? {
      ConcatAssoc(a, b, r.value);
    }
  }

  lemma Finished(all: Option<bytes>, done: bytes, r: Option<bytes>, s: bytes, allowNonUtf8: bool, naturalUtf8: bool)
    requires s == [] && r == EscapeAll(s, allowNonUtf8, naturalUtf8) && all == Prepend(done, r)
    ensures all == Some(done)
  {
    assert done + [] == done;
  }

  /** The body of the loop: what to append for the byte at i, and how far to go on. */
  method EscapeNext(s: bytes, i: nat, allowNonUtf8: bool, naturalUtf8: bool) returns (ok: bool, part: bytes, taken: nat)
    requires i < |s|
    ensures ok <==> EscapeOne(s[i..], allowNonUtf8, naturalUtf8).Some?
    ensures ok ==> EscapeOne(s[i..], allowNonUtf8, naturalUtf8).value == Piece(part, taken)
  {
    hide CharLength, CodePoint, IntToStringHex;
    SuffixSame(s, i);
    var c := s[i];
    part, taken := [], 1;
    match ShortEscape(c)
    case Some(letter) =>
      return true, [BACKSLASH, letter], 1;
    case None =>
      if IsPrintable(c) {
        return true, [c], 1;
      }
      var ucc, next := FromUTF8(s, i);
      if ucc < 0 {
        if allowNonUtf8 {
          return true, [BACKSLASH, 0x78] + IntToStringHex(c, 2), 1;
        }
        return false, [], 1;
      }
      if naturalUtf8 {
        assert s[i..][..next - i] == s[i..next];
        return true, s[i..next], next - i;
      }
      if ucc <= 0xFFFF {
        part := UnicodeEscape(ucc);
      } else if ucc <= 0x10_FFFF {
        var rest := ucc - 0x1_0000;
        part := UnicodeEscape(rest / 0x400 + 0xD800) + UnicodeEscape(rest % 0x400 + 0xDC00);
      }
      return true, part, next - i;
  }

  // JSON strings: section 7 of RFC 8259, over UTF-8.

  function HexValue(c: byte): Option<nat> {
    if 0x30 <= c <= 0x39 then Some(c - 0x30)
    else if 0x41 <= c <= 0x46 then Some(c - 0x41 + 10)
    else if 0x61 <= c <= 0x66 then Some(c - 0x61 + 10)
    else None
  }

  /** The number of four hexadecimal digits at p. */
  function FourHexDigits(t: bytes, p: nat): (r: Option<nat>)
    ensures r.Some? ==> p + 4 <= |t|
  {
    if p + 4 > |t| then None
    else
      var a, b, c, d := HexValue(t[p]), HexValue(t[p + 1]), HexValue(t[p + 2]), HexValue(t[p + 3]);
      if a.Some? && b.Some? && c.Some? && d.Some? then
        Some(((a.value * 16 + b.value) * 16 + c.value) * 16 + d.value)
      else None
  }

  /** The character that a letter after a backslash stands for. */
  function Unescape(letter: byte): Option<nat> {
    if letter == QUOTE || letter == BACKSLASH || letter == 0x2F then Some(letter)
    else if letter == 0x62 then Some(0x08)
    else if letter == 0x66 then Some(0x0C)
    else if letter == 0x6E then Some(0x0A)
    else if letter == 0x72 then Some(0x0D)
    else if letter == 0x74 then Some(0x09)
    else None
  }

  datatype Char = Char(code: nat, length: nat)

  /** A \\u escape at the front: one of the basic plane, or two that make a surrogate pair. */
  function UnicodeChar(t: bytes): (r: Option<Char>)
    ensures r.Some? ==> 1 <= r.value.length <= |t| && r.value.code < 0x11_0000
  {
    match FourHexDigits(t, 2)
    case None => None
    case Some(u) =>
      if u < 0xD800 || (0xDFFF < u <= 0xFFFF) then Some(Char(u, 6))
      else if 0xDBFF < u then None
      else if |t| >= 8 && t[6] == BACKSLASH && t[7] == 0x75 then
        match FourHexDigits(t, 8)
        case None => None
        case Some(low) =>
          if 0xDC00 <= low <= 0xDFFF then Some(Char(0x1_0000 + (u - 0xD800) * 0x400 + (low - 0xDC00), 12)) else None
      else None
  }

  /** A character of the string: unescaped, where control characters, quote and backslash
    * are not allowed, or escaped. */
  function JsonChar(t: bytes): (r: Option<Char>)
    requires t != []
    ensures r.Some? ==> 1 <= r.value.length <= |t| && r.value.code < TWO31
  {
    if t[0] == BACKSLASH then
      if |t| == 1 then None
      else if t[1] == 0x75 then UnicodeChar(t)
      else
        match Unescape(t[1])
        case None => None
        case Some(c) => Some(Char(c, 2))
    else if t[0] < 0x20 || t[0] == QUOTE || CharLength(t, 0) == 0 then None
    else Some(Char(CodePoint(t, 0), CharLength(t, 0)))
  }

  /** The characters up to the closing quote, which must be the end, in UTF-8. */
  function JsonChars(t: bytes): Option<bytes>
    decreases |t|
  {
    if t == [] then None
    else if t[0] == QUOTE then if |t| == 1 then Some([]) else None
    else
      match JsonChar(t)
      case None => None
      case Some(c) => Prepend(ToUtf8(c.code), JsonChars(t[c.length..]))
  }

  function JsonString(t: bytes): Option<bytes> {
    if t != [] && t[0] == QUOTE then JsonChars(t[1..]) else None
  }

  // Escaping is reversible.

  lemma HexDigitValue(d: nat)
    requires d < 16
    ensures HexValue(HexDigit(d)) == Some(d)
  {}

  lemma FourDigits(u: nat)
    requires u < 0x1_0000
    ensures IntToStringHex(u, 4)
            == [HexDigit(u / 0x1000), HexDigit(u / 0x100 % 16), HexDigit(u / 16 % 16), HexDigit(u % 16)]
  {
    assert HexDigit(0) == 0x30;
    hide HexDigit;
    assert u / 16 / 16 == u / 0x100 && u / 0x100 / 16 == u / 0x1000;
    if u < 16 {
    } else if u < 0x100 {
      assert HexDigits(u / 16) == [HexDigit(u / 16)] && u / 0x100 == 0 && u / 0x1000 == 0;
    } else if u < 0x1000 {
      assert HexDigits(u / 16) == [HexDigit(u / 0x100), HexDigit(u / 16 % 16)];
    } else {
      assert HexDigits(u / 0x100) == [HexDigit(u / 0x1000), HexDigit(u / 0x100 % 16)];
      assert HexDigits(u / 16) == [HexDigit(u / 0x1000), HexDigit(u / 0x100 % 16), HexDigit(u / 16 % 16)];
    }
  }

  lemma HexReadBack(u: nat, t: bytes, p: nat)
    requires u < 0x1_0000 && p + 4 <= |t| && t[p..p + 4] == IntToStringHex(u, 4)
    ensures FourHexDigits(t, p) == Some(u)
  {
    hide HexDigit, HexValue, IntToStringHex;
    FourDigits(u);
    var s := t[p..p + 4];
    assert t[p] == s[0] && t[p + 1] == s[1] && t[p + 2] == s[2] && t[p + 3] == s[3];
    HexDigitValue(u / 0x1000);
    HexDigitValue(u / 0x100 % 16);
    HexDigitValue(u / 16 % 16);
    HexDigitValue(u % 16);
    assert u / 0x100 == u / 0x1000 * 16 + u / 0x100 % 16 && u / 16 == u / 0x100 * 16 + u / 16 % 16;
  }

  /** Hexadecimal is written with upper-case letters. */
  lemma {:induction false} HexIsUpper(i: nat, xdigits: nat)
    ensures forall c | c in HexDigits(i) :: 0x30 <= c <= 0x39 || 0x41 <= c <= 0x46
    ensures forall c | c in IntToStringHex(i, xdigits) :: 0x30 <= c <= 0x39 || 0x41 <= c <= 0x46
    decreases i
  {
    if i >= 16 {
      HexIsUpper(i / 16, xdigits);
    }
  }

  lemma UnicodeEscapeLength(u: nat)
    requires u < 0x1_0000
    ensures |UnicodeEscape(u)| == 6
  {
    hide HexDigit;
    FourDigits(u);
  }

  /** A code point escaped is read back, surrogate pairs included. */
  lemma CodePointReadBack(c: nat, rest: bytes)
    requires IsScalarValue(c)
    ensures |EscapeCodePoint(c)| > 0 && EscapeCodePoint(c)[0] == BACKSLASH
    ensures JsonChar(EscapeCodePoint(c) + rest) == Some(Char(c, |EscapeCodePoint(c)|))
  {
    hide IntToStringHex, FourHexDigits;
    var t := EscapeCodePoint(c) + rest;
    if c <= 0xFFFF {
      UnicodeEscapeLength(c);
      assert t[2..6] == IntToStringHex(c, 4);
      HexReadBack(c, t, 2);
    } else {
      var r := c - 0x1_0000;
      var hi, lo := r / 0x400 + 0xD800, r % 0x400 + 0xDC00;
      UnicodeEscapeLength(hi);
      UnicodeEscapeLength(lo);
      assert t[2..6] == IntToStringHex(hi, 4);
      assert t[8..12] == IntToStringHex(lo, 4);
      HexReadBack(hi, t, 2);
      HexReadBack(lo, t, 8);
      assert t[6] == BACKSLASH && t[7] == 0x75;
    }
  }

  /** A control character other than backspace, tab, line feed, form feed and carriage return. */
  predicate IsRawControl(c: byte) {
    c < 0x20 && c != 0x08 && c != 0x09 && c != 0x0A && c != 0x0C && c != 0x0D
  }

  predicate NoRawControl(s: bytes) {
    forall i | 0 <= i < |s| :: !IsRawControl(s[i])
  }

  /** A character is decided by its own bytes. */
  lemma SameChar(s: bytes, t: bytes, n: nat)
    requires 1 <= n == CharLength(s, 0) && n <= |s| && s[..n] <= t
    ensures CharLength(t, 0) == n && CodePoint(t, 0) == CodePoint(s, 0)
  {
    assert forall k | 0 <= k < n :: t[k] == s[..n][k];
  }

  lemma AsciiChar(s: bytes)
    requires s != [] && s[0] < 0x80
    ensures CharLength(s, 0) == 1 && CodePoint(s, 0) == s[0] && ToUtf8(s[0]) == s[..1]
  {
    EncodedBytes(s[0]);
  }

  /** One character escaped is read back as its own bytes, unless a control character was left as it is. */
  lemma OneReadBack(s: bytes, allowNonUtf8: bool, naturalUtf8: bool, piece: Piece, rest: bytes)
    requires s != [] && CharLength(s, 0) > 0
    requires EscapeOne(s, allowNonUtf8, naturalUtf8) == Some(piece)
    ensures piece.taken == CharLength(s, 0) && piece.text != [] && piece.text[0] != QUOTE
    ensures var c := JsonChar(piece.text + rest);
            if naturalUtf8 && IsRawControl(s[0]) then c == None
            else c.Some? && c.value.length == |piece.text| && ToUtf8(c.value.code) == s[..piece.taken]
  {
    hide CharLength, CodePoint, ToUtf8, UnicodeChar, EscapeCodePoint;
    var t := piece.text + rest;
    var n := CharLength(s, 0);
    if s[0] < 0x80 {
      AsciiChar(s);
    }
    if ShortEscape(s[0]).Some? {
      assert t[1] == ShortEscape(s[0]).value;
    } else if IsPrintable(s[0]) {
      AsciiChar(t);
    } else if naturalUtf8 {
      SameChar(s, t, n);
      DecodeThenEncode(s, 0);
    } else {
      DecodeThenEncode(s, 0);
      CodePointReadBack(CodePoint(s, 0), rest);
    }
  }

  /** In a character of several bytes none is a control character. */
  lemma RawControlFirst(s: bytes)
    requires s != [] && CharLength(s, 0) > 0
    ensures var n := CharLength(s, 0);
            NoRawControl(s) <==> !IsRawControl(s[0]) && NoRawControl(s[n..])
  {
    var n := CharLength(s, 0);
    forall i | 0 <= i < n
      ensures i > 0 ==> s[i] >= 0x80
    {
      assert s[i] == At(s, i);
    }
    if !IsRawControl(s[0]) && NoRawControl(s[n..]) {
      forall i | 0 <= i < |s|
        ensures !IsRawControl(s[i])
      {
        if i >= n {
          assert s[i] == s[n..][i - n];
        }
      }
    }
  }

  lemma {:induction false} AllReadBack(s: bytes, allowNonUtf8: bool, naturalUtf8: bool)
    requires ValidUtf8(s)
    ensures EscapeAll(s, allowNonUtf8, naturalUtf8).Some?
    ensures JsonChars(EscapeAll(s, allowNonUtf8, naturalUtf8).value + [QUOTE]) ==
            if naturalUtf8 && !NoRawControl(s) then None else Some(s)
    decreases |s|
  {
    hide CharLength, EscapeOne, JsonChar, IsRawControl, ToUtf8;
    if s != [] {
      EscapesValid(s, allowNonUtf8, naturalUtf8);
      var piece := EscapeOne(s, allowNonUtf8, naturalUtf8).value;
      var n := piece.taken;
      var text := EscapeAll(s[CharLength(s, 0)..], allowNonUtf8, naturalUtf8);
      AllReadBack(s[CharLength(s, 0)..], allowNonUtf8, naturalUtf8);
      var rest := text.value + [QUOTE];
      OneReadBack(s, allowNonUtf8, naturalUtf8, piece, rest);
      RawControlFirst(s);
      ConcatAssoc(piece.text, text.value, [QUOTE]);
      assert (piece.text + rest)[|piece.text|..] == rest;
      assert s == s[..n] + s[n..];
    }
  }

  lemma EscapesValid(s: bytes, allowNonUtf8: bool, naturalUtf8: bool)
    requires s != [] && CharLength(s, 0) > 0
    ensures EscapeOne(s, allowNonUtf8, naturalUtf8).Some?
  {}

  /** For every valid UTF-8 string escaping succeeds. A JSON reader gets back the very bytes, surrogate
    * pairs included, exactly when no control character was left unescaped: always, unless natural UTF-8
    * is asked for, which copies such a character where RFC 8259 does not allow it. */
  lemma EscapeReversible(s: bytes, allowNonUtf8: bool, naturalUtf8: bool)
    requires ValidUtf8(s)
    ensures Escape(s, allowNonUtf8, naturalUtf8).Some?
    ensures JsonString(Escape(s, allowNonUtf8, naturalUtf8).value) == Some(s) <==> !naturalUtf8 || NoRawControl(s)
  {
    hide NoRawControl, EscapeAll, JsonChars, JsonString, ValidUtf8;
    AllReadBack(s, allowNonUtf8, naturalUtf8);
    Unquoted(EscapeAll(s, allowNonUtf8, naturalUtf8).value);
  }

  lemma Unquoted(t: bytes)
    ensures JsonString([QUOTE] + t + [QUOTE]) == JsonChars(t + [QUOTE])
  {
    hide JsonChars;
    assert ([QUOTE] + t + [QUOTE])[1..] == t + [QUOTE];
  }

  /** Without leave to write other bytes, escaping succeeds for valid UTF-8 only. */
  lemma {:induction false} EscapeRejects(s: bytes, naturalUtf8: bool)
    ensures Escape(s, false, naturalUtf8).Some? <==> ValidUtf8(s)
    decreases |s|
  {
    hide CharLength, IntToStringHex, EscapeCodePoint;
    if s != [] {
      if s[0] < 0x80 {
        AsciiChar(s);
      }
      if EscapeOne(s, false, naturalUtf8).Some? {
        EscapeRejects(s[CharLength(s, 0)..], naturalUtf8);
      }
    }
  }

  // Strings that are not UTF-8: section 7 of RFC 8259 extended by \\x and two hexadecimal digits, which
  // stand for one byte.

  function TwoHexDigits(t: bytes, p: nat): (r: Option<byte>)
    ensures r.Some? ==> p + 2 <= |t|
  {
    if p + 2 > |t| then None
    else
      var a, b := HexValue(t[p]), HexValue(t[p + 1]);
      if a.Some? && b.Some? then Some(a.value * 16 + b.value) else None
  }

  /** The bytes read at the front, and the length of what they are read from. */
  datatype Bite = Bite(text: bytes, length: nat)

  function ExtendedChar(t: bytes): (r: Option<Bite>)
    requires t != []
    ensures r.Some? ==> 1 <= r.value.length <= |t|
  {
    if |t| >= 2 && t[0] == BACKSLASH && t[1] == 0x78 then
      match TwoHexDigits(t, 2)
      case None => None
      case Some(c) => Some(Bite([c], 4))
    else
      match JsonChar(t)
      case None => None
      case Some(c) => Some(Bite(ToUtf8(c.code), c.length))
  }

  function ExtendedChars(t: bytes): Option<bytes>
    decreases |t|
  {
    if t == [] then None
    else if t[0] == QUOTE then if |t| == 1 then Some([]) else None
    else
      match ExtendedChar(t)
      case None => None
      case Some(c) => Prepend(c.text, ExtendedChars(t[c.length..]))
  }

  function ExtendedString(t: bytes): Option<bytes> {
    if t != [] && t[0] == QUOTE then ExtendedChars(t[1..]) else None
  }

  lemma TwoDigits(u: nat)
    requires u < 0x100
    ensures IntToStringHex(u, 2) == [HexDigit(u / 16), HexDigit(u % 16)]
  {
    assert HexDigit(0) == 0x30;
    hide HexDigit;
    if u >= 16 {
      assert HexDigits(u / 16) == [HexDigit(u / 16)];
    }
  }

  lemma ByteReadBack(u: byte, rest: bytes)
    ensures ExtendedChar([BACKSLASH, 0x78] + IntToStringHex(u, 2) + rest) == Some(Bite([u], 4))
    ensures |IntToStringHex(u, 2)| == 2
  {
    hide HexDigit, HexValue, IntToStringHex;
    TwoDigits(u);
    var t := [BACKSLASH, 0x78] + IntToStringHex(u, 2) + rest;
    assert t[2] == HexDigit(u / 16) && t[3] == HexDigit(u % 16);
    HexDigitValue(u / 16);
    HexDigitValue(u % 16);
  }

  /** Only the escape of a byte that is not UTF-8 has an x behind its backslash. */
  lemma NoByteEscape(s: bytes, allowNonUtf8: bool, naturalUtf8: bool, piece: Piece, rest: bytes)
    requires s != [] && CharLength(s, 0) > 0
    requires EscapeOne(s, allowNonUtf8, naturalUtf8) == Some(piece)
    ensures piece.text != [] && (piece.text[0] == BACKSLASH ==> |piece.text| >= 2 && piece.text[1] != 0x78)
  {
    hide CharLength, CodePoint, ToUtf8, IntToStringHex;
    if s[0] < 0x80 {
      AsciiChar(s);
    }
    if ShortEscape(s[0]).None? && !IsPrintable(s[0]) {
      DecodeThenEncode(s, 0);
      if !naturalUtf8 {
        CodePointReadBack(CodePoint(s, 0), rest);
      }
    }
  }

  /** One step, for any bytes: they are read back, unless a control character was left as it is. */
  lemma BiteReadBack(s: bytes, naturalUtf8: bool, piece: Piece, rest: bytes)
    requires s != [] && EscapeOne(s, true, naturalUtf8) == Some(piece)
    ensures piece.text != [] && piece.text[0] != QUOTE
    ensures var c := ExtendedChar(piece.text + rest);
            if naturalUtf8 && IsRawControl(s[0]) then c == None
            else c == Some(Bite(s[..piece.taken], |piece.text|))
  {
    hide CharLength, CodePoint, ToUtf8, EscapeCodePoint, JsonChar, IntToStringHex, TwoHexDigits;
    if CharLength(s, 0) > 0 {
      OneReadBack(s, true, naturalUtf8, piece, rest);
      NoByteEscape(s, true, naturalUtf8, piece, rest);
    } else {
      if s[0] < 0x80 {
        AsciiChar(s);
      }
      ByteReadBack(s[0], rest);
      assert s[..1] == [s[0]];
    }
  }

  /** Control characters are in the first byte of what is taken, if anywhere. */
  lemma RawControlHead(s: bytes, naturalUtf8: bool, piece: Piece)
    requires s != [] && EscapeOne(s, true, naturalUtf8) == Some(piece)
    ensures NoRawControl(s) <==> !IsRawControl(s[0]) && NoRawControl(s[piece.taken..])
  {
    hide CharLength, CodePoint, IsRawControl, EscapeCodePoint, IntToStringHex;
    if CharLength(s, 0) > 0 {
      if s[0] < 0x80 {
        AsciiChar(s);
      }
      RawControlFirst(s);
    } else {
      RawControlRest(s);
    }
  }

  lemma RawControlRest(s: bytes)
    requires s != []
    ensures NoRawControl(s) <==> !IsRawControl(s[0]) && NoRawControl(s[1..])
  {
    hide IsRawControl;
    var r := s[1..];
    assert forall i | 0 <= i < |r| :: r[i] == s[i + 1];
    if !IsRawControl(s[0]) && NoRawControl(r) {
      forall i | 0 <= i < |s|
        ensures !IsRawControl(s[i])
      {
        if i > 0 {
          assert s[i] == r[i - 1];
        }
      }
    }
  }

  lemma {:induction false} BitesReadBack(s: bytes, naturalUtf8: bool)
    ensures EscapeAll(s, true, naturalUtf8).Some?
    ensures ExtendedChars(EscapeAll(s, true, naturalUtf8).value + [QUOTE]) ==
            if naturalUtf8 && !NoRawControl(s) then None else Some(s)
    decreases |s|
  {
    hide EscapeOne, ExtendedChar, IsRawControl, NoRawControl;
    if s == [] {
      NoneRaw(s);
    } else {
      AllEscape(s, naturalUtf8);
      var piece := EscapeOne(s, true, naturalUtf8).value;
      var text := EscapeAll(s[piece.taken..], true, naturalUtf8);
      BitesReadBack(s[piece.taken..], naturalUtf8);
      var rest := text.value + [QUOTE];
      BiteReadBack(s, naturalUtf8, piece, rest);
      RawControlHead(s, naturalUtf8, piece);
      ConcatAssoc(piece.text, text.value, [QUOTE]);
      assert (piece.text + rest)[|piece.text|..] == rest;
      assert s == s[..piece.taken] + s[piece.taken..];
    }
  }

  lemma NoneRaw(s: bytes)
    requires s == []
    ensures NoRawControl(s)
  {}

  lemma AllEscape(s: bytes, naturalUtf8: bool)
    requires s != []
    ensures EscapeOne(s, true, naturalUtf8).Some?
  {}

  /** With leave to write other bytes, escaping succeeds for every byte string. The extended reader gets
    * back the very bytes, exactly when no control character was left unescaped. */
  lemma EscapeBytesReversible(s: bytes, naturalUtf8: bool)
    ensures Escape(s, true, naturalUtf8).Some?
    ensures ExtendedString(Escape(s, true, naturalUtf8).value) == Some(s) <==> !naturalUtf8 || NoRawControl(s)
  {
    hide NoRawControl, EscapeAll, ExtendedChars, ExtendedString;
    BitesReadBack(s, naturalUtf8);
    ExtendedUnquoted(EscapeAll(s, true, naturalUtf8).value);
  }

  lemma ExtendedUnquoted(t: bytes)
    ensures ExtendedString([QUOTE] + t + [QUOTE]) == ExtendedChars(t + [QUOTE])
  {
    hide ExtendedChars;
    assert ([QUOTE] + t + [QUOTE])[1..] == t + [QUOTE];
  }

  // Which escapes are written.

  /** RFC 8259 has a two-character escape for c, other than the one for the solidus. */
  ghost predicate HasShortEscape(c: nat) {
    exists letter: byte :: letter != 0x2F && Unescape(letter) == Some(c)
  }

  lemma ShortEscapeOf(c: byte, letter: byte)
    ensures letter != 0x2F && Unescape(letter) == Some(c) <==> ShortEscape(c) == Some(letter)
  {}

  lemma EscapedLength(c: nat)
    requires IsScalarValue(c)
    ensures |EscapeCodePoint(c)| == if c <= 0xFFFF then 6 else 12
  {
    hide IntToStringHex;
    if c <= 0xFFFF {
      UnicodeEscapeLength(c);
    } else {
      var r := c - 0x1_0000;
      UnicodeEscapeLength(r / 0x400 + 0xD800);
      UnicodeEscapeLength(r % 0x400 + 0xDC00);
    }
  }

  /** What takes a byte or a character to itself, and the sizes of everything else. */
  lemma PieceSize(s: bytes, allowNonUtf8: bool, naturalUtf8: bool, piece: Piece)
    requires s != [] && EscapeOne(s, allowNonUtf8, naturalUtf8) == Some(piece)
    ensures ShortEscape(s[0]).Some? ==> |piece.text| == 2 && piece.taken == 1
    ensures ShortEscape(s[0]).None? && (IsPrintable(s[0]) || (naturalUtf8 && CharLength(s, 0) > 0)) ==>
              piece.text == s[..piece.taken]
    ensures ShortEscape(s[0]).None? && !IsPrintable(s[0]) && !(naturalUtf8 && CharLength(s, 0) > 0) ==>
              4 <= |piece.text| && piece.taken < |piece.text|
  {
    hide CharLength, CodePoint, EscapeCodePoint, IntToStringHex;
    if CharLength(s, 0) > 0 {
      if s[0] < 0x80 {
        AsciiChar(s);
      }
      DecodeThenEncode(s, 0);
      EscapedLength(CodePoint(s, 0));
    } else {
      TwoDigits(s[0]);
    }
  }

  /** Two-character escapes are written for exactly the bytes that have one. */
  lemma ShortEscapesWritten(s: bytes, allowNonUtf8: bool, naturalUtf8: bool)
    requires s != []
    ensures HasShortEscape(s[0]) <==>
            exists letter: byte :: EscapeOne(s, allowNonUtf8, naturalUtf8) == Some(Piece([BACKSLASH, letter], 1))
  {
    hide CharLength, CodePoint, EscapeCodePoint, IntToStringHex, ShortEscape, Unescape;
    var r := EscapeOne(s, allowNonUtf8, naturalUtf8);
    forall letter: byte
      ensures letter != 0x2F && Unescape(letter) == Some(s[0]) ==> r == Some(Piece([BACKSLASH, letter], 1))
      ensures r == Some(Piece([BACKSLASH, letter], 1)) ==> letter != 0x2F && Unescape(letter) == Some(s[0])
    {
      ShortEscapeOf(s[0], letter);
      if r.Some? {
        PieceSize(s, allowNonUtf8, naturalUtf8, r.value);
      }
    }
  }

  predicate IsPrintableAscii(t: bytes) {
    forall i | 0 <= i < |t| :: 0x20 <= t[i] <= 0x7E
  }

  lemma HexIsAscii(u: nat)
    ensures u < 0x1_0000 ==> IsPrintableAscii(IntToStringHex(u, 4))
    ensures u < 0x100 ==> IsPrintableAscii(IntToStringHex(u, 2))
  {
    if u < 0x1_0000 {
      FourDigits(u);
    }
    if u < 0x100 {
      TwoDigits(u);
    }
  }

  lemma CodePointIsAscii(c: nat)
    requires IsScalarValue(c)
    ensures IsPrintableAscii(EscapeCodePoint(c))
  {
    hide IntToStringHex;
    if c <= 0xFFFF {
      HexIsAscii(c);
    } else {
      var r := c - 0x1_0000;
      HexIsAscii(r / 0x400 + 0xD800);
      HexIsAscii(r % 0x400 + 0xDC00);
    }
  }

  lemma PieceIsAscii(s: bytes, allowNonUtf8: bool, piece: Piece)
    requires s != [] && EscapeOne(s, allowNonUtf8, false) == Some(piece)
    ensures IsPrintableAscii(piece.text)
  {
    hide CharLength, CodePoint, EscapeCodePoint, IntToStringHex;
    if CharLength(s, 0) > 0 {
      DecodeThenEncode(s, 0);
      CodePointIsAscii(CodePoint(s, 0));
    } else {
      HexIsAscii(s[0]);
    }
  }

  /** Unless natural UTF-8 is asked for, what is written is printable ASCII. */
  lemma {:induction false} EscapedIsAscii(s: bytes, allowNonUtf8: bool)
    ensures var r := EscapeAll(s, allowNonUtf8, false); r.Some? ==> IsPrintableAscii(r.value)
    decreases |s|
  {
    hide EscapeOne;
    if s != [] && EscapeOne(s, allowNonUtf8, false).Some? {
      var piece := EscapeOne(s, allowNonUtf8, false).value;
      PieceIsAscii(s, allowNonUtf8, piece);
      EscapedIsAscii(s[piece.taken..], allowNonUtf8);
    }
  }

  /** A byte that needs no escape: any but those with a short one when natural UTF-8 is asked for,
    * otherwise printable ASCII without quote and backslash. */
  predicate IsPlain(c: byte, naturalUtf8: bool) {
    && c !in {0x08, 0x09, 0x0A, 0x0C, 0x0D, QUOTE, BACKSLASH}
    && (naturalUtf8 || 0x20 <= c <= 0x7E)
  }

  predicate AllPlain(s: bytes, naturalUtf8: bool) {
    forall i | 0 <= i < |s| :: IsPlain(s[i], naturalUtf8)
  }

  lemma PlainSplit(s: bytes, n: nat, naturalUtf8: bool)
    requires n <= |s|
    ensures AllPlain(s, naturalUtf8) <==> AllPlain(s[..n], naturalUtf8) && AllPlain(s[n..], naturalUtf8)
  {
    hide IsPlain;
    if AllPlain(s[..n], naturalUtf8) && AllPlain(s[n..], naturalUtf8) {
      forall i | 0 <= i < |s|
        ensures IsPlain(s[i], naturalUtf8)
      {
        assert s[i] == if i < n then s[..n][i] else s[n..][i - n];
      }
    }
  }

  /** A piece is written as it is when its bytes are plain, and longer than they are otherwise. */
  lemma PieceUnchanged(s: bytes, allowNonUtf8: bool, naturalUtf8: bool, piece: Piece)
    requires s != [] && EscapeOne(s, allowNonUtf8, naturalUtf8) == Some(piece)
    ensures piece.taken <= |piece.text|
    ensures piece.text == s[..piece.taken] <==>
            AllPlain(s[..piece.taken], naturalUtf8) && (naturalUtf8 ==> CharLength(s, 0) > 0)
    ensures piece.text != s[..piece.taken] ==> piece.taken < |piece.text|
    ensures CharLength(s, 0) > 0 ==> piece.taken == CharLength(s, 0)
  {
    hide CodePoint, EscapeCodePoint, IntToStringHex;
    PieceSize(s, allowNonUtf8, naturalUtf8, piece);
    assert forall i | 0 <= i < piece.taken :: s[..piece.taken][i] == s[i] == At(s, i);
    assert s[..piece.taken][0] == s[0];
  }

  lemma {:induction false} Unchanged(s: bytes, allowNonUtf8: bool, naturalUtf8: bool)
    ensures var r := EscapeAll(s, allowNonUtf8, naturalUtf8);
            && (r.Some? ==> |s| <= |r.value|)
            && (r == Some(s) <==> AllPlain(s, naturalUtf8) && (naturalUtf8 ==> ValidUtf8(s)))
            && (r.Some? && r != Some(s) ==> |s| < |r.value|)
    decreases |s|
  {
    hide EscapeOne, CharLength, IsPlain;
    if s != [] {
      var one := EscapeOne(s, allowNonUtf8, naturalUtf8);
      if one.Some? {
        var piece, rest := one.value, s[one.value.taken..];
        PieceUnchanged(s, allowNonUtf8, naturalUtf8, piece);
        Unchanged(rest, allowNonUtf8, naturalUtf8);
        PlainSplit(s, piece.taken, naturalUtf8);
        assert s == s[..piece.taken] + rest;
      } else {
        NeedsEscape(s, allowNonUtf8, naturalUtf8);
      }
    }
  }

  lemma NeedsEscape(s: bytes, allowNonUtf8: bool, naturalUtf8: bool)
    requires s != [] && EscapeOne(s, allowNonUtf8, naturalUtf8).None?
    ensures CharLength(s, 0) == 0 && (naturalUtf8 || !IsPlain(s[0], naturalUtf8))
  {}

  /** Exactly the strings that need no escape are written unchanged between the quotes. */
  lemma PlainUnchanged(s: bytes, allowNonUtf8: bool, naturalUtf8: bool)
    ensures Escape(s, allowNonUtf8, naturalUtf8) == Some([QUOTE] + s + [QUOTE]) <==>
            AllPlain(s, naturalUtf8) && (naturalUtf8 ==> ValidUtf8(s))
  {
    hide AllPlain, ValidUtf8;
    Unchanged(s, allowNonUtf8, naturalUtf8);
    var r := EscapeAll(s, allowNonUtf8, naturalUtf8);
    if r.Some? {
      assert ([QUOTE] + r.value + [QUOTE])[1..|r.value| + 1] == r.value;
      assert ([QUOTE] + s + [QUOTE])[1..|s| + 1] == s;
    }
  }
}
