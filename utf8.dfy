/** UTF-8 as defined in section 3 of RFC 3629: the encoder that
    `String.getBytes(UTF_8)` applies to text content, and a strict decoder
    that is its inverse. */
module Utf8 {
  import opened Base

  /** A byte of the form 10xxxxxx. */
  predicate IsContinuation(b: Byte) {
    0x80 <= b < 0xC0
  }

  /** The one- to four-byte sequence for a single scalar value (RFC 3629, section 3). */
  function EncodeChar(c: char): (r: seq<Byte>)
    ensures 1 <= |r| <= 4
    ensures |r| == 1 <==> (c as int) < 0x80
    ensures |r| == 1 ==> r[0] as int == c as int
    ensures |r| > 1 ==> 0xC2 <= r[0] <= 0xF4 && forall k :: 1 <= k < |r| ==> IsContinuation(r[k])
  {
    var n := c as int;
    if n < 0x80 then [n]
    else if n < 0x800 then [0xC0 + n / 0x40, 0x80 + n % 0x40]
    else if n < 0x1_0000 then [0xE0 + n / 0x1000, 0x80 + (n / 0x40) % 0x40, 0x80 + n % 0x40]
    else [0xF0 + n / 0x4_0000, 0x80 + (n / 0x1000) % 0x40, 0x80 + (n / 0x40) % 0x40, 0x80 + n % 0x40]
  }

  /** The UTF-8 encoding of a whole string: the encodings of its characters, in order. */
  function Encode(s: string): (r: seq<Byte>)
    ensures r == [] <==> s == []
  {
    if s == [] then [] else EncodeChar(s[0]) + Encode(s[1..])
  }

  /** Each character takes one to four bytes. */
  lemma {:induction false} EncodeLength(s: string)
    ensures |s| <= |Encode(s)| <= 4 * |s|
  {
    if s != [] {
      EncodeLength(s[1..]);
    }
  }

  /** Text made of ASCII characters only encodes to their code points, one byte each. */
  lemma {:induction false} EncodeAscii(s: string)
    requires forall k :: 0 <= k < |s| ==> (s[k] as int) < 0x80
    ensures |Encode(s)| == |s|
    ensures forall k :: 0 <= k < |s| ==> Encode(s)[k] as int == s[k] as int
  {
    if s != [] {
      EncodeAscii(s[1..]);
      assert Encode(s) == [s[0] as int] + Encode(s[1..]);
    }
  }

  /** True when n may be the value of a Unicode scalar (a code point that is not a surrogate). */
  predicate IsScalar(n: int) {
    (0 <= n < 0xD800) || (0xE000 <= n < 0x11_0000)
  }

  /** Decodes the character at the front of b, giving it and the number of
      bytes it occupies; None for a malformed, overlong, surrogate or
      truncated sequence. */
  function DecodeChar(b: seq<Byte>): (r: Option<(char, nat)>)
    ensures r.Some? ==> 1 <= r.value.1 <= 4 && r.value.1 <= |b|
    ensures r.Some? ==> (r.value.1 == 1 <==> b[0] < 0x80)
  {
    if b == [] then None
    else if b[0] < 0x80 then Some((b[0] as char, 1))
    else if b[0] < 0xC2 then None
    else if b[0] < 0xE0 then
      if |b| < 2 || !IsContinuation(b[1]) then None
      else
        var n: int := (b[0] as int - 0xC0) * 0x40 + (b[1] as int - 0x80);
        Some((n as char, 2))
    else if b[0] < 0xF0 then
      if |b| < 3 || !IsContinuation(b[1]) || !IsContinuation(b[2]) then None
      else
        var n: int := (b[0] as int - 0xE0) * 0x1000 + (b[1] as int - 0x80) * 0x40 + (b[2] as int - 0x80);
        if n < 0x800 || !IsScalar(n) then None else Some((n as char, 3))
    else if b[0] < 0xF5 then
      if |b| < 4 || !IsContinuation(b[1]) || !IsContinuation(b[2]) || !IsContinuation(b[3]) then None
      else
        var n: int := (b[0] as int - 0xF0) * 0x4_0000 + (b[1] as int - 0x80) * 0x1000 + (b[2] as int - 0x80) * 0x40 + (b[3] as int - 0x80);
        if n < 0x1_0000 || 0x11_0000 <= n then None else Some((n as char, 4))
    else None
  }

  /** Strict decoding of a whole byte sequence; None when any part is not well-formed UTF-8. */
  function Decode(b: seq<Byte>): (r: Option<string>)
    decreases |b|
  {
    if b == [] then Some([])
    else match DecodeChar(b)
      case None => None
      case Some((c, k)) =>
        match Decode(b[k..])
        case None => None
        case Some(rest) => Some([c] + rest)
  }

  lemma SplitTwo(n: int)
    requires 0 <= n
    ensures n == (n / 0x40) * 0x40 + n % 0x40
  {
  }

  lemma SplitThree(n: int)
    requires 0 <= n
    ensures n / 0x40 == (n / 0x1000) * 0x40 + (n / 0x40) % 0x40
    ensures n == (n / 0x1000) * 0x1000 + ((n / 0x40) % 0x40) * 0x40 + n % 0x40
  {
    SplitTwo(n);
    SplitTwo(n / 0x40);
    assert n / 0x40 / 0x40 == n / 0x1000;
  }

  lemma SplitFour(n: int)
    requires 0 <= n
    ensures n == (n / 0x4_0000) * 0x4_0000 + ((n / 0x1000) % 0x40) * 0x1000 + ((n / 0x40) % 0x40) * 0x40 + n % 0x40
  {
    SplitThree(n);
    SplitTwo(n / 0x1000);
    assert n / 0x1000 / 0x40 == n / 0x4_0000;
  }

  /** Decoding the encoding of c, whatever follows it, gives back c and
      consumes exactly its encoding. */
  lemma DecodeEncodeChar(c: char, rest: seq<Byte>)
    ensures DecodeChar(EncodeChar(c) + rest) == Some((c, |EncodeChar(c)|))
  {
    var n := c as int;
    var b := EncodeChar(c) + rest;
    if n < 0x80 {
    } else if n < 0x800 {
      SplitTwo(n);
    } else if n < 0x1_0000 {
      SplitThree(n);
    } else {
      SplitFour(n);
    }
  }

  /** Round trip of section 3 of RFC 3629: decoding an encoded string gives
      the string back. */
  lemma {:induction false} DecodeEncode(s: string)
    ensures Decode(Encode(s)) == Some(s)
  {
    if s != [] {
      DecodeEncodeChar(s[0], Encode(s[1..]));
      var e := EncodeChar(s[0]);
      assert (e + Encode(s[1..]))[|e|..] == Encode(s[1..]);
      DecodeEncode(s[1..]);
      assert [s[0]] + s[1..] == s;
    }
  }

  lemma Join(q: int, r: int)
    requires 0 <= q && 0 <= r < 0x40
    ensures (q * 0x40 + r) / 0x40 == q && (q * 0x40 + r) % 0x40 == r
  {
  }

  lemma EncodeTwo(b0: Byte, b1: Byte)
    requires 0xC2 <= b0 < 0xE0 && IsContinuation(b1)
    ensures var n := (b0 as int - 0xC0) * 0x40 + (b1 as int - 0x80);
      0x80 <= n < 0x800 && EncodeChar(n as char) == [b0, b1]
  {
    Join(b0 as int - 0xC0, b1 as int - 0x80);
  }

  lemma EncodeThree(b0: Byte, b1: Byte, b2: Byte)
    requires 0xE0 <= b0 < 0xF0 && IsContinuation(b1) && IsContinuation(b2)
    ensures var n := (b0 as int - 0xE0) * 0x1000 + (b1 as int - 0x80) * 0x40 + (b2 as int - 0x80);
      0x800 <= n && IsScalar(n) ==> n < 0x1_0000 && EncodeChar(n as char) == [b0, b1, b2]
  {
    var hi := (b0 as int - 0xE0) * 0x40 + (b1 as int - 0x80);
    var n := hi * 0x40 + (b2 as int - 0x80);
    Join(b0 as int - 0xE0, b1 as int - 0x80);
    Join(hi, b2 as int - 0x80);
    assert n / 0x1000 == hi / 0x40;
  }

  lemma EncodeFour(b0: Byte, b1: Byte, b2: Byte, b3: Byte)
    requires 0xF0 <= b0 < 0xF5 && IsContinuation(b1) && IsContinuation(b2) && IsContinuation(b3)
    ensures var n := (b0 as int - 0xF0) * 0x4_0000 + (b1 as int - 0x80) * 0x1000 + (b2 as int - 0x80) * 0x40 + (b3 as int - 0x80);
      0x1_0000 <= n < 0x11_0000 ==> EncodeChar(n as char) == [b0, b1, b2, b3]
  {
    var mid := (b0 as int - 0xF0) * 0x40 + (b1 as int - 0x80);
    var hi := mid * 0x40 + (b2 as int - 0x80);
    var n := hi * 0x40 + (b3 as int - 0x80);
    Join(b0 as int - 0xF0, b1 as int - 0x80);
    Join(mid, b2 as int - 0x80);
    Join(hi, b3 as int - 0x80);
    assert n / 0x1000 == hi / 0x40;
    assert n / 0x4_0000 == mid / 0x40;
  }

  /** The decoder accepts only the canonical encoding: what it consumes is
      exactly the encoding of the character it returns. */
  lemma EncodeDecodeChar(b: seq<Byte>)
    requires DecodeChar(b).Some?
    ensures EncodeChar(DecodeChar(b).value.0) == b[..DecodeChar(b).value.1]
  {
    if b[0] < 0x80 {
    } else if b[0] < 0xE0 {
      EncodeTwo(b[0], b[1]);
    } else if b[0] < 0xF0 {
      EncodeThree(b[0], b[1], b[2]);
    } else {
      EncodeFour(b[0], b[1], b[2], b[3]);
    }
  }

  /** Strict decoding succeeds only on canonical input: whatever it returns
      re-encodes to exactly the bytes it was given. */
  lemma {:induction false} EncodeDecode(b: seq<Byte>)
    requires Decode(b).Some?
    ensures Encode(Decode(b).value) == b
    decreases |b|
  {
    if b != [] {
      var k := DecodeChar(b).value.1;
      EncodeDecodeChar(b);
      EncodeDecode(b[k..]);
      assert b == b[..k] + b[k..];
    }
  }
}
