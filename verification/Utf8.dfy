/** UTF-8: encoding characters, and decoding with the checks of a strict decoder. */
module Utf8 {
  import opened ByteStrings
  import opened Options
  import Text

  function EncodeChar(c: char): (r: Bytes)
    ensures 1 <= |r| <= 4
  {
    var n := c as int;
    if n < 0x80 then [n as Byte]
    else if n < 0x800 then [(0xC0 + n / 0x40) as Byte, (0x80 + n % 0x40) as Byte]
    else if n < 0x10000 then
      [(0xE0 + n / 0x1000) as Byte, (0x80 + n / 0x40 % 0x40) as Byte, (0x80 + n % 0x40) as Byte]
    else
      [(0xF0 + n / 0x40000) as Byte, (0x80 + n / 0x1000 % 0x40) as Byte, (0x80 + n / 0x40 % 0x40) as Byte,
       (0x80 + n % 0x40) as Byte]
  }

  function Encode(s: string): Bytes {
    if s == "" then [] else EncodeChar(s[0]) + Encode(s[1..])
  }

  predicate IsContinuation(b: Byte) {
    0x80 <= b < 0xC0
  }

  predicate IsScalar(n: int) {
    0 <= n < 0xD800 || 0xE000 <= n < 0x110000
  }

  /** The first character and its bytes; no value for a malformed, overlong or surrogate sequence. */
  function DecodeChar(s: Bytes): (r: Option<(char, nat)>)
    requires s != []
    ensures r.Some? ==> 1 <= r.value.1 <= |s|
  {
    var a := s[0] as int;
    if a < 0x80 then Some((a as char, 1))
    else if 0xC2 <= a < 0xE0 && |s| >= 2 && IsContinuation(s[1]) then
      Some((((a - 0xC0) * 0x40 + (s[1] as int - 0x80)) as char, 2))
    else if 0xE0 <= a < 0xF0 && |s| >= 3 && IsContinuation(s[1]) && IsContinuation(s[2]) then
      var n := (a - 0xE0) * 0x1000 + (s[1] as int - 0x80) * 0x40 + (s[2] as int - 0x80);
      if n >= 0x800 && IsScalar(n) then Some((n as char, 3)) else None
    else if 0xF0 <= a < 0xF5 && |s| >= 4 && IsContinuation(s[1]) && IsContinuation(s[2]) && IsContinuation(s[3]) then
      var n := (a - 0xF0) * 0x40000 + (s[1] as int - 0x80) * 0x1000 + (s[2] as int - 0x80) * 0x40 +
        (s[3] as int - 0x80);
      if n >= 0x10000 && IsScalar(n) then Some((n as char, 4)) else None
    else None
  }

  function Decode(s: Bytes): Option<string> {
    if s == [] then Some("")
    else
      match DecodeChar(s)
      case None => None
      case Some((c, n)) =>
        match Decode(s[n..])
        case None => None
        case Some(rest) => Some([c] + rest)
  }

  lemma SixBits(n: nat)
    ensures n == n / 0x40 * 0x40 + n % 0x40
    ensures n / 0x1000 == n / 0x40 / 0x40 && n / 0x40000 == n / 0x1000 / 0x40
  {
  }

  lemma TwoBytes(c: char, rest: Bytes)
    requires 0x80 <= c as int < 0x800
    ensures DecodeChar(EncodeChar(c) + rest) == Some((c, 2))
  {
    var n := c as int;
    SixBits(n);
    var s := EncodeChar(c) + rest;
    assert s[0] as int == 0xC0 + n / 0x40 && s[1] as int == 0x80 + n % 0x40;
  }

  lemma ThreeBytes(c: char, rest: Bytes)
    requires 0x800 <= c as int < 0x10000
    ensures DecodeChar(EncodeChar(c) + rest) == Some((c, 3))
  {
    var n := c as int;
    SixBits(n);
    SixBits(n / 0x40);
    var s := EncodeChar(c) + rest;
    assert s[0] as int == 0xE0 + n / 0x1000 && s[1] as int == 0x80 + n / 0x40 % 0x40 && s[2] as int == 0x80 + n % 0x40;
    assert n == n / 0x1000 * 0x1000 + n / 0x40 % 0x40 * 0x40 + n % 0x40;
  }

  lemma FourBytes(c: char, rest: Bytes)
    requires 0x10000 <= c as int
    ensures DecodeChar(EncodeChar(c) + rest) == Some((c, 4))
  {
    var n := c as int;
    SixBits(n);
    SixBits(n / 0x40);
    SixBits(n / 0x1000);
    var s := EncodeChar(c) + rest;
    assert s[0] as int == 0xF0 + n / 0x40000 && s[1] as int == 0x80 + n / 0x1000 % 0x40;
    assert s[2] as int == 0x80 + n / 0x40 % 0x40 && s[3] as int == 0x80 + n % 0x40;
    assert n == n / 0x40000 * 0x40000 + n / 0x1000 % 0x40 * 0x1000 + n / 0x40 % 0x40 * 0x40 + n % 0x40;
  }

  lemma DecodeEncodedChar(c: char, rest: Bytes)
    ensures DecodeChar(EncodeChar(c) + rest) == Some((c, |EncodeChar(c)|))
  {
    hide DecodeChar;
    if c as int < 0x80 {
      OneByte(c, rest);
    } else if c as int < 0x800 {
      TwoBytes(c, rest);
    } else if c as int < 0x10000 {
      ThreeBytes(c, rest);
    } else {
      FourBytes(c, rest);
    }
  }

  lemma OneByte(c: char, rest: Bytes)
    requires c as int < 0x80
    ensures DecodeChar(EncodeChar(c) + rest) == Some((c, 1))
  {
  }

  /** Decoding gives back what was encoded. */
  lemma {:induction false} DecodeEncoded(s: string)
    ensures Decode(Encode(s)) == Some(s)
  {
    hide DecodeChar, EncodeChar;
    if s != "" {
      DecodeEncodedChar(s[0], Encode(s[1..]));
      assert Encode(s)[|EncodeChar(s[0])|..] == Encode(s[1..]);
      DecodeEncoded(s[1..]);
      assert s == [s[0]] + s[1..];
    }
  }

  lemma {:induction false} EncodeConcat(a: string, b: string)
    ensures Encode(a + b) == Encode(a) + Encode(b)
  {
    hide EncodeChar;
    if a == "" {
      assert a + b == b;
    } else {
      assert (a + b)[1..] == a[1..] + b;
      EncodeConcat(a[1..], b);
      assert EncodeChar(a[0]) + (Encode(a[1..]) + Encode(b)) == EncodeChar(a[0]) + Encode(a[1..]) + Encode(b);
    }
  }

  lemma Digits(n: nat, high: nat, low: nat)
    requires n == high * 0x40 + low && low < 0x40
    ensures n / 0x40 == high && n % 0x40 == low
  {
  }

  lemma DecodedTwo(s: Bytes)
    requires |s| >= 2 && 0xC2 <= s[0] as int < 0xE0 && IsContinuation(s[1])
    ensures DecodeChar(s).Some? && EncodeChar(DecodeChar(s).value.0) == s[..2] && DecodeChar(s).value.1 == 2
  {
    Digits(DecodeChar(s).value.0 as int, s[0] as int - 0xC0, s[1] as int - 0x80);
  }

  lemma DecodedThree(s: Bytes)
    requires |s| >= 3 && 0xE0 <= s[0] as int < 0xF0 && DecodeChar(s).Some?
    ensures EncodeChar(DecodeChar(s).value.0) == s[..3] && DecodeChar(s).value.1 == 3
  {
    var n := DecodeChar(s).value.0 as int;
    var a, b, d := s[0] as int - 0xE0, s[1] as int - 0x80, s[2] as int - 0x80;
    Digits(n, a * 0x40 + b, d);
    Digits(a * 0x40 + b, a, b);
    SixBits(n);
  }

  lemma DecodedFour(s: Bytes)
    requires |s| >= 4 && 0xF0 <= s[0] as int < 0xF5 && DecodeChar(s).Some?
    ensures EncodeChar(DecodeChar(s).value.0) == s[..4] && DecodeChar(s).value.1 == 4
  {
    var n := DecodeChar(s).value.0 as int;
    var a, b, d, e := s[0] as int - 0xF0, s[1] as int - 0x80, s[2] as int - 0x80, s[3] as int - 0x80;
    Digits(n, (a * 0x40 + b) * 0x40 + d, e);
    Digits((a * 0x40 + b) * 0x40 + d, a * 0x40 + b, d);
    Digits(a * 0x40 + b, a, b);
    SixBits(n);
  }

  lemma DecodedKinds(s: Bytes)
    requires s != [] && DecodeChar(s).Some?
    ensures var a := s[0] as int;
            || (a < 0x80 && DecodeChar(s).value.1 == 1 && DecodeChar(s).value.0 as int == a)
            || (0xC2 <= a < 0xE0 && |s| >= 2 && IsContinuation(s[1]))
            || (0xE0 <= a < 0xF0 && |s| >= 3)
            || (0xF0 <= a < 0xF5 && |s| >= 4)
  {
  }

  lemma DecodedCharEncodes(s: Bytes)
    requires s != [] && DecodeChar(s).Some?
    ensures var (c, n) := DecodeChar(s).value; EncodeChar(c) == s[..n]
  {
    hide DecodeChar, IsContinuation;
    DecodedKinds(s);
    if 0xF0 <= s[0] as int {
      DecodedFour(s);
    } else if 0xE0 <= s[0] as int {
      DecodedThree(s);
    } else if 0xC2 <= s[0] as int {
      DecodedTwo(s);
    }
  }

  /** What decodes is the encoding of what it decodes to. */
  lemma {:induction false} DecodedEncodes(s: Bytes)
    requires Decode(s).Some?
    ensures Encode(Decode(s).value) == s
  {
    hide DecodeChar, EncodeChar;
    if s != [] {
      var (c, n) := DecodeChar(s).value;
      DecodedCharEncodes(s);
      DecodedEncodes(s[n..]);
      var rest := Decode(s[n..]).value;
      assert ([c] + rest)[1..] == rest;
      assert s[..n] + s[n..] == s;
    }
  }

  /** A text's UTF-8 length, as the other modules count it, is the length of its encoding. */
  lemma {:induction false} BytesAreEncoded(s: string)
    ensures |Encode(s)| == Text.Utf8Bytes(s)
  {
    hide EncodeChar, Text.Utf8Length;
    if s != "" {
      CharIsEncoded(s[0]);
      BytesAreEncoded(s[1..]);
    }
  }

  lemma CharIsEncoded(c: char)
    ensures |EncodeChar(c)| == Text.Utf8Length(c)
  {
  }

  /** One character of each length, as in section 3 of RFC 3629. */
  lemma KnownCharacters()
    ensures EncodeChar('$') == [0x24] && EncodeChar('\U{A3}') == [0xC2, 0xA3]
    ensures EncodeChar('\U{20AC}') == [0xE2, 0x82, 0xAC] && EncodeChar('\U{10348}') == [0xF0, 0x90, 0x8D, 0x88]
  {
    assert 0x20AC / 0x1000 == 2 && 0x20AC / 0x40 % 0x40 == 2 && 0x20AC % 0x40 == 0x2C;
    assert 0x10348 / 0x40000 == 0 && 0x10348 / 0x1000 % 0x40 == 0x10;
    assert 0x10348 / 0x40 % 0x40 == 0xD && 0x10348 % 0x40 == 8;
  }

  /** Where an encoding begins with another, the texts do. */
  lemma {:induction false} PrefixOfEncoding(s: string, v: string)
    requires Encode(s) <= Encode(v)
    ensures s <= v
  {
    hide DecodeChar, EncodeChar;
    if s != "" {
      var (rest, more) := (Encode(s[1..]), Encode(v)[|Encode(s)|..]);
      assert Encode(v) == Encode(s) + more == EncodeChar(s[0]) + (rest + more);
      DecodeEncodedChar(s[0], rest + more);
      DecodeEncodedChar(v[0], Encode(v[1..]));
      assert s[0] == v[0];
      assert Encode(v)[|EncodeChar(v[0])|..] == Encode(v[1..]) == rest + more;
      PrefixOfEncoding(s[1..], v[1..]);
      assert s == [s[0]] + s[1..] && v == [v[0]] + v[1..];
    }
  }
}
