/** UTF-8 as Foundation applies it: `String.data(using: .utf8)` turns a string into
    bytes and `String(data:encoding: .utf8)` turns bytes back into a string, or into
    nothing when the bytes are not well-formed UTF-8 (section 3 of RFC 3629). */
module Utf8 {
  import opened Wrappers

  type Byte = b: int | 0 <= b < 0x100
  type Bytes = seq<Byte>

  /** A Unicode scalar value: a code point that is not a surrogate. */
  predicate IsScalar(n: int) {
    0 <= n < 0xD800 || 0xE000 <= n < 0x11_0000
  }

  /** A continuation byte 10xxxxxx. */
  predicate IsContinuation(b: Byte) {
    0x80 <= b < 0xC0
  }

  /** The one to four bytes of one scalar value. */
  function EncodeScalar(c: char): (r: Bytes)
    ensures 1 <= |r| <= 4
    ensures |r| == 1 <==> c as int < 0x80
  {
    var n := c as int;
    if n < 0x80 then [n]
    else if n < 0x800 then [0xC0 + n / 0x40, 0x80 + n % 0x40]
    else if n < 0x1_0000 then [0xE0 + n / 0x1000, 0x80 + (n / 0x40) % 0x40, 0x80 + n % 0x40]
    else [0xF0 + n / 0x4_0000, 0x80 + (n / 0x1000) % 0x40, 0x80 + (n / 0x40) % 0x40, 0x80 + n % 0x40]
  }

  /** The bytes of a whole string: the bytes of its scalars, one after another. */
  function Encode(s: string): (r: Bytes)
  {
    if s == [] then [] else EncodeScalar(s[0]) + Encode(s[1..])
  }

  /** The scalar value that a well-formed sequence starts with and how many bytes it
      takes; nothing when the first sequence is ill-formed (a stray continuation byte,
      a truncated sequence, an overlong form, a surrogate or a value beyond U+10FFFF). */
  function DecodeFirst(b: Bytes): (r: Option<(char, nat)>)
    requires |b| > 0
    ensures r.Some? ==> 1 <= r.value.1 <= 4 && r.value.1 <= |b|
  {
    var b0: int := b[0];
    if b0 < 0x80 then Some((b0 as char, 1))
    else if 0xC2 <= b0 < 0xE0 then
      if |b| >= 2 && IsContinuation(b[1]) then
        Some((((b0 - 0xC0) * 0x40 + (b[1] as int - 0x80)) as char, 2))
      else None
    else if 0xE0 <= b0 < 0xF0 then
      if |b| >= 3 && IsContinuation(b[1]) && IsContinuation(b[2]) then
        var n := (b0 - 0xE0) * 0x1000 + (b[1] as int - 0x80) * 0x40 + (b[2] as int - 0x80);
        if 0x800 <= n && IsScalar(n) then Some((n as char, 3)) else None
      else None
    else if 0xF0 <= b0 < 0xF5 then
      if |b| >= 4 && IsContinuation(b[1]) && IsContinuation(b[2]) && IsContinuation(b[3]) then
        var n := (b0 - 0xF0) * 0x4_0000 + (b[1] as int - 0x80) * 0x1000 + (b[2] as int - 0x80) * 0x40 + (b[3] as int - 0x80);
        if 0x1_0000 <= n < 0x11_0000 then Some((n as char, 4)) else None
      else None
    else None
  }

  /** The string the bytes spell, or nothing when they are not well-formed UTF-8. */
  function Decode(b: Bytes): (r: Option<string>)
    decreases |b|
  {
    if b == [] then Some([])
    else
      match DecodeFirst(b)
      case None => None
      case Some((c, k)) =>
        match Decode(b[k..])
        case None => None
        case Some(rest) => Some([c] + rest)
  }

  lemma DivMod64(n: int, q: int, r: int)
    requires 0 <= r < 0x40 && n == q * 0x40 + r
    ensures n / 0x40 == q && n % 0x40 == r
  {
  }

  lemma DivMod4096(n: int, q: int, r: int)
    requires 0 <= r < 0x1000 && n == q * 0x1000 + r
    ensures n / 0x1000 == q && n % 0x1000 == r
  {
  }

  lemma DivMod262144(n: int, q: int, r: int)
    requires 0 <= r < 0x4_0000 && n == q * 0x4_0000 + r
    ensures n / 0x4_0000 == q && n % 0x4_0000 == r
  {
  }

  /** The digits base 64 of a code point below 2^21: n == ((a * 64 + b) * 64 + c) * 64 + d. */
  lemma Digits(n: int)
    requires 0 <= n < 0x20_0000
    ensures n == (n / 0x40) * 0x40 + n % 0x40
    ensures n / 0x40 == ((n / 0x40) / 0x40) * 0x40 + (n / 0x40) % 0x40
    ensures n / 0x1000 == (n / 0x40) / 0x40
    ensures n / 0x4_0000 == (n / 0x1000) / 0x40
    ensures n / 0x1000 == (n / 0x4_0000) * 0x40 + (n / 0x1000) % 0x40
  {
    var d, q1 := n % 0x40, n / 0x40;
    var c, q2 := q1 % 0x40, q1 / 0x40;
    DivMod64(n, q1, d);
    DivMod64(q1, q2, c);
    DivMod4096(n, q2, c * 0x40 + d);
    var b, q3 := q2 % 0x40, q2 / 0x40;
    DivMod64(q2, q3, b);
    DivMod262144(n, q3, (b * 0x40 + c) * 0x40 + d);
  }

  lemma DecodeTwoBytes(n: int, rest: Bytes)
    requires 0x80 <= n < 0x800
    ensures var b := [0xC0 + n / 0x40, 0x80 + n % 0x40] + rest;
      n as char as int == n && DecodeFirst(b) == Some((n as char, 2))
  {
    Digits(n);
    var b := [0xC0 + n / 0x40, 0x80 + n % 0x40] + rest;
    assert b[0] as int - 0xC0 == n / 0x40 && b[1] as int - 0x80 == n % 0x40;
  }

  lemma DecodeThreeBytes(n: int, rest: Bytes)
    requires 0x800 <= n < 0x1_0000 && IsScalar(n)
    ensures var b := [0xE0 + n / 0x1000, 0x80 + (n / 0x40) % 0x40, 0x80 + n % 0x40] + rest;
      DecodeFirst(b) == Some((n as char, 3))
  {
    Digits(n);
    var b := [0xE0 + n / 0x1000, 0x80 + (n / 0x40) % 0x40, 0x80 + n % 0x40] + rest;
    assert b[0] as int - 0xE0 == n / 0x1000;
    assert b[1] as int - 0x80 == (n / 0x40) % 0x40 && b[2] as int - 0x80 == n % 0x40;
  }

  lemma DecodeFourBytes(n: int, rest: Bytes)
    requires 0x1_0000 <= n < 0x11_0000
    ensures var b := [0xF0 + n / 0x4_0000, 0x80 + (n / 0x1000) % 0x40, 0x80 + (n / 0x40) % 0x40, 0x80 + n % 0x40] + rest;
      DecodeFirst(b) == Some((n as char, 4))
  {
    Digits(n);
    var b := [0xF0 + n / 0x4_0000, 0x80 + (n / 0x1000) % 0x40, 0x80 + (n / 0x40) % 0x40, 0x80 + n % 0x40] + rest;
    assert b[0] as int - 0xF0 == n / 0x4_0000 && b[1] as int - 0x80 == (n / 0x1000) % 0x40;
    assert b[2] as int - 0x80 == (n / 0x40) % 0x40 && b[3] as int - 0x80 == n % 0x40;
  }

  /** Decoding the bytes of one scalar, followed by anything, gets that scalar back
      and consumes exactly its bytes. */
  lemma DecodeFirstOfEncodeScalar(c: char, rest: Bytes)
    ensures DecodeFirst(EncodeScalar(c) + rest) == Some((c, |EncodeScalar(c)|))
  {
    var n := c as int;
    if n < 0x80 {
    } else if n < 0x800 {
      DecodeTwoBytes(n, rest);
    } else if n < 0x1_0000 {
      DecodeThreeBytes(n, rest);
    } else {
      DecodeFourBytes(n, rest);
    }
  }

  lemma EncodeScalarOfTwoBytes(b: Bytes)
    requires |b| >= 2 && 0xC2 <= b[0] < 0xE0 && IsContinuation(b[1])
    ensures DecodeFirst(b).Some? && EncodeScalar(DecodeFirst(b).value.0) == b[..2]
  {
    var x0, x1 := b[0] as int - 0xC0, b[1] as int - 0x80;
    var n := x0 * 0x40 + x1;
    assert DecodeFirst(b) == Some((n as char, 2));
    DivMod64(n, x0, x1);
  }

  lemma EncodeScalarOfThreeBytes(b: Bytes)
    requires |b| >= 3 && 0xE0 <= b[0] < 0xF0 && DecodeFirst(b).Some?
    ensures EncodeScalar(DecodeFirst(b).value.0) == b[..3]
  {
    var x0, x1, x2 := b[0] as int - 0xE0, b[1] as int - 0x80, b[2] as int - 0x80;
    var n := (x0 * 0x40 + x1) * 0x40 + x2;
    assert DecodeFirst(b) == Some((n as char, 3));
    DivMod64(n, x0 * 0x40 + x1, x2);
    DivMod64(x0 * 0x40 + x1, x0, x1);
    DivMod4096(n, x0, x1 * 0x40 + x2);
  }

  lemma EncodeScalarOfFourBytes(b: Bytes)
    requires |b| >= 4 && 0xF0 <= b[0] < 0xF5 && DecodeFirst(b).Some?
    ensures EncodeScalar(DecodeFirst(b).value.0) == b[..4]
  {
    var x0, x1, x2, x3 := b[0] as int - 0xF0, b[1] as int - 0x80, b[2] as int - 0x80, b[3] as int - 0x80;
    var n := ((x0 * 0x40 + x1) * 0x40 + x2) * 0x40 + x3;
    assert DecodeFirst(b) == Some((n as char, 4));
    DivMod64(n, (x0 * 0x40 + x1) * 0x40 + x2, x3);
    DivMod64((x0 * 0x40 + x1) * 0x40 + x2, x0 * 0x40 + x1, x2);
    DivMod4096(n, x0 * 0x40 + x1, x2 * 0x40 + x3);
    DivMod64(x0 * 0x40 + x1, x0, x1);
    DivMod262144(n, x0, (x1 * 0x40 + x2) * 0x40 + x3);
  }

  /** When bytes start with a well-formed sequence, those bytes are the encoding of
      the scalar it decodes to: there is exactly one way to write each scalar. */
  lemma EncodeScalarOfDecodeFirst(b: Bytes)
    requires |b| > 0 && DecodeFirst(b).Some?
    ensures EncodeScalar(DecodeFirst(b).value.0) == b[..DecodeFirst(b).value.1]
  {
    if b[0] < 0x80 {
    } else if b[0] < 0xE0 {
      EncodeScalarOfTwoBytes(b);
    } else if b[0] < 0xF0 {
      EncodeScalarOfThreeBytes(b);
    } else {
      EncodeScalarOfFourBytes(b);
    }
  }

  /** Decoding undoes encoding: the bytes of any string read back as that string. */
  lemma {:induction false} DecodeEncode(s: string)
    ensures Decode(Encode(s)) == Some(s)
  {
    if s != [] {
      var e := EncodeScalar(s[0]);
      var b := Encode(s);
      assert b == e + Encode(s[1..]);
      DecodeFirstOfEncodeScalar(s[0], Encode(s[1..]));
      assert b[|e|..] == Encode(s[1..]);
      DecodeEncode(s[1..]);
      assert [s[0]] + s[1..] == s;
    }
  }

  /** Encoding undoes decoding: bytes that decode to a string are exactly that
      string's bytes, so well-formed UTF-8 has one reading and one writing. */
  lemma {:induction false} EncodeDecode(b: Bytes)
    requires Decode(b).Some?
    ensures Encode(Decode(b).value) == b
    decreases |b|
  {
    if b != [] {
      var c, k := DecodeStep(b);
      var rest := b[k..];
      EncodeDecode(rest);
      EncodeCons(c, Decode(rest).value);
      assert b == b[..k] + rest;
    }
  }

  /** One step of a successful decoding: the bytes of the first scalar, then the rest. */
  lemma DecodeStep(b: Bytes) returns (c: char, k: nat)
    requires b != [] && Decode(b).Some?
    ensures 1 <= k <= |b| && EncodeScalar(c) == b[..k]
    ensures Decode(b[k..]).Some? && Decode(b).value == [c] + Decode(b[k..]).value
  {
    c, k := DecodeFirst(b).value.0, DecodeFirst(b).value.1;
    EncodeScalarOfDecodeFirst(b);
  }

  lemma EncodeCons(c: char, rest: string)
    ensures Encode([c] + rest) == EncodeScalar(c) + Encode(rest)
  {
    assert ([c] + rest)[1..] == rest;
  }

  /** A string is empty exactly when its bytes are: Foundation's `isEmpty` test on
      the bytes agrees with the text. */
  lemma {:induction false} EncodeEmpty(s: string)
    ensures |Encode(s)| >= |s|
    ensures Encode(s) == [] <==> s == []
  {
    if s != [] {
      EncodeEmpty(s[1..]);
    }
  }

}
