/**
 JSON string literals as in section 7 of RFC 8259: the reader takes any literal, the writer escapes as little as it can,
 and a text costs as many bytes as its shortest literal.
 */
module JsonText {
  import opened Options
  import opened Text

  // ---------------------------------------------------------------- reading

  function HexValue(c: char): Option<nat> {
    if '0' <= c <= '9' then Some(c as int - '0' as int)
    else if 'a' <= c <= 'f' then Some(10 + c as int - 'a' as int)
    else if 'A' <= c <= 'F' then Some(10 + c as int - 'A' as int)
    else None
  }

  /** The code unit that four hexadecimal digits stand for. */
  function CodeUnit(t: string): (r: Option<nat>)
    requires |t| >= 4
    ensures r.Some? ==> r.value < 0x10000
  {
    match (HexValue(t[0]), HexValue(t[1]), HexValue(t[2]), HexValue(t[3]))
    case (Some(a), Some(b), Some(c), Some(d)) =>
      HexIsSmall(t);
      Some(0x1000 * a + 0x100 * b + 0x10 * c + d)
    case _ => None
  }

  lemma HexIsSmall(t: string)
    ensures forall k | 0 <= k < |t| && HexValue(t[k]).Some? :: HexValue(t[k]).value < 16
  {
  }

  /** An escape with a code unit, or with two that make a surrogate pair. */
  function ReadUnicode(t: string): (r: Option<(char, nat)>)
    requires |t| >= 2
    ensures r.Some? ==> r.value.1 <= |t|
  {
    if |t| < 6 then None
    else
      match CodeUnit(t[2..])
      case None => None
      case Some(unit) =>
        if unit < 0xD800 || 0xE000 <= unit then Some((unit as char, 6))
        else if unit < 0xDC00 && |t| >= 12 && t[6..8] == "\\u" then
          match CodeUnit(t[8..])
          case Some(low) =>
            if 0xDC00 <= low < 0xE000 then
              Some(((0x10000 + 0x400 * (unit - 0xD800) + (low - 0xDC00)) as char, 12))
            else None
          case None => None
        else None
  }

  /** The character at the head of a literal's inside and how many characters it takes there. */
  function ReadChar(t: string): (r: Option<(char, nat)>)
    requires t != ""
    ensures r.Some? ==> 1 <= r.value.1 <= |t|
  {
    if t[0] == '\"' || t[0] as int < 0x20 then None
    else if t[0] != '\\' then Some((t[0], 1))
    else if |t| < 2 then None
    else
      match t[1]
      case '\"' => Some(('\"', 2))
      case '\\' => Some(('\\', 2))
      case '/' => Some(('/', 2))
      case 'b' => Some((8 as char, 2))
      case 'f' => Some((12 as char, 2))
      case 'n' => Some((10 as char, 2))
      case 'r' => Some((13 as char, 2))
      case 't' => Some((9 as char, 2))
      case 'u' => ReadUnicode(t)
      case _ => None
  }

  /** The text of a literal whose opening quote was read, and what stands behind its closing quote. */
  function ReadLiteral(t: string): Option<(string, string)>
    decreases |t|
  {
    if t == "" then None
    else if t[0] == '\"' then Some(("", t[1..]))
    else
      match ReadChar(t)
      case None => None
      case Some((c, n)) =>
        match ReadLiteral(t[n..])
        case None => None
        case Some((s, rest)) => Some(([c] + s, rest))
  }

  // ---------------------------------------------------------------- writing

  function HexDigit(d: nat): char
    requires d < 16
  {
    if d < 10 then ('0' as int + d) as char else ('a' as int + d - 10) as char
  }

  function EscapeChar(c: char): string {
    var n := c as int;
    if n == 0x22 then "\\\""
    else if n == 0x5C then "\\\\"
    else if n == 8 then "\\b"
    else if n == 9 then "\\t"
    else if n == 10 then "\\n"
    else if n == 12 then "\\f"
    else if n == 13 then "\\r"
    else if n < 0x20 then "\\u00" + [HexDigit(n / 16), HexDigit(n % 16)]
    else [c]
  }

  function Escape(s: string): string {
    if s == "" then "" else EscapeChar(s[0]) + Escape(s[1..])
  }

  /** Two-character escapes for quote, backslash, \b \t \n \f \r; \u00XX for the other control characters. */
  function EscapedCharLength(c: char): nat {
    var n := c as int;
    if n == 0x22 || n == 0x5C || n == 8 || n == 9 || n == 10 || n == 12 || n == 13 then 2
    else if n < 0x20 then 6
    else Utf8Length(c)
  }

  /** A string's bytes inside its JSON quotes. */
  function EscapedBytes(s: string): nat {
    if s == [] then 0 else EscapedCharLength(s[0]) + EscapedBytes(s[1..])
  }

  lemma Utf8Single(c: char)
    ensures Utf8Bytes([c]) == Utf8Length(c)
  {
    assert [c][1..] == [];
  }

  lemma EscapedCharBytes(c: char)
    ensures Utf8Bytes(EscapeChar(c)) == EscapedCharLength(c)
  {
    var t := EscapeChar(c);
    if EscapedCharLength(c) == Utf8Length(c) && t == [c] {
      Utf8Single(c);
    } else {
      assert IsAscii(t);
      AsciiBytes(t);
    }
  }

  /** The cost of a text is the length of what is written for it. */
  lemma {:induction false} EscapedTextBytes(s: string)
    ensures Utf8Bytes(Escape(s)) == EscapedBytes(s)
  {
    hide EscapeChar, EscapedCharLength, Utf8Bytes;
    if s == "" {
      NothingIsNoBytes();
    } else {
      EscapedCharBytes(s[0]);
      EscapedTextBytes(s[1..]);
      Utf8Concat(EscapeChar(s[0]), Escape(s[1..]));
    }
  }

  lemma NothingIsNoBytes()
    ensures Utf8Bytes("") == 0
  {
  }

  // ---------------------------------------------------------------- what is written is read back

  lemma HexIsRead(d: nat)
    requires d < 16
    ensures HexValue(HexDigit(d)) == Some(d)
  {
  }

  lemma ControlIsRead(c: char, more: string)
    requires c as int < 0x20
    ensures var t := "\\u00" + [HexDigit(c as int / 16), HexDigit(c as int % 16)] + more;
            ReadChar(t) == Some((c, 6))
  {
    hide HexValue, HexDigit;
    var t := "\\u00" + [HexDigit(c as int / 16), HexDigit(c as int % 16)] + more;
    HexIsRead(0);
    HexIsRead(c as int / 16);
    HexIsRead(c as int % 16);
    assert HexDigit(0) == '0' by { ZeroDigit(); }
    var u := t[2..];
    assert u[0] == u[1] == '0' && u[2] == HexDigit(c as int / 16) && u[3] == HexDigit(c as int % 16);
    assert CodeUnit(u) == Some(c as int);
  }

  lemma ZeroDigit()
    ensures HexDigit(0) == '0'
  {
  }

  lemma CharIsRead(c: char, more: string)
    ensures var t := EscapeChar(c) + more;
            && ReadChar(t) == Some((c, |EscapeChar(c)|)) && t[0] != '\"'
            && t[|EscapeChar(c)|..] == more
  {
    hide HexDigit, ReadUnicode;
    var t := EscapeChar(c) + more;
    if |EscapeChar(c)| == 6 {
      ControlIsRead(c, more);
    }
  }

  /** What is written between quotes reads back as the text, and the reader stops at the closing quote. */
  lemma {:induction false} WrittenReadsBack(s: string, rest: string)
    ensures ReadLiteral(Escape(s) + "\"" + rest) == Some((s, rest))
  {
    hide EscapeChar, ReadChar;
    if s == "" {
      assert Escape("") + "\"" + rest == "\"" + rest;
      assert ("\"" + rest)[1..] == rest;
    } else {
      var more := Escape(s[1..]) + "\"" + rest;
      assert Escape(s) + "\"" + rest == EscapeChar(s[0]) + more;
      CharIsRead(s[0], more);
      WrittenReadsBack(s[1..], rest);
      assert [s[0]] + s[1..] == s;
    }
  }

  // ---------------------------------------------------------------- nothing shorter is

  lemma ReadTakesAtLeast(t: string)
    requires t != "" && ReadChar(t).Some?
    ensures var (c, n) := ReadChar(t).value;
            Utf8Bytes(t[..n]) >= EscapedCharLength(c)
  {
    hide Utf8Bytes, ReadUnicode;
    var (c, n) := ReadChar(t).value;
    if t[0] != '\\' {
      Utf8Single(c);
      assert t[..1] == [c];
    } else {
      CharactersAreBytes(t[..n]);
      if t[1] == 'u' {
        UnicodeIsLong(t);
      }
    }
  }

  lemma UnicodeIsLong(t: string)
    requires |t| >= 2 && ReadUnicode(t).Some?
    ensures ReadUnicode(t).value.1 >= 6
  {
  }

  lemma {:induction false} CharactersAreBytes(t: string)
    ensures Utf8Bytes(t) >= |t|
  {
    if t != "" {
      CharactersAreBytes(t[1..]);
    }
  }

  /** Every literal of a text takes at least the bytes that are counted for the text. */
  lemma {:induction false} NoLiteralIsShorter(t: string)
    ensures match ReadLiteral(t)
            case None => true
            case Some((s, rest)) => Utf8Bytes(t) >= EscapedBytes(s) + 1 + Utf8Bytes(rest)
    decreases |t|
  {
    hide ReadChar, Utf8Bytes, EscapedCharLength;
    if t != "" {
      if t[0] == '\"' {
        assert t == "\"" + t[1..];
        Utf8Concat("\"", t[1..]);
        CharactersAreBytes("\"");
      } else {
        match ReadChar(t)
        case None =>
        case Some((c, n)) =>
          NoLiteralIsShorter(t[n..]);
          ReadTakesAtLeast(t);
          assert t == t[..n] + t[n..];
          Utf8Concat(t[..n], t[n..]);
          match ReadLiteral(t[n..]) {
            case None =>
            case Some((s, rest)) => assert ([c] + s)[1..] == s;
          }
      }
    }
  }

  /**
   The bytes counted for a text, with the closing quote, are the length of its shortest literal, which is the one
   written.
   */
  lemma EscapedIsShortest(s: string)
    ensures ReadLiteral(Escape(s) + "\"") == Some((s, "")) && Utf8Bytes(Escape(s) + "\"") == EscapedBytes(s) + 1
    ensures forall t | ReadLiteral(t) == Some((s, "")) :: Utf8Bytes(t) >= EscapedBytes(s) + 1
  {
    hide ReadLiteral, Utf8Bytes, EscapedBytes, Escape;
    WrittenReadsBack(s, "");
    assert Escape(s) + "\"" + "" == Escape(s) + "\"";
    EscapedTextBytes(s);
    Utf8Concat(Escape(s), "\"");
    Utf8Single('\"');
    NothingIsNoBytes();
    forall t | ReadLiteral(t) == Some((s, "")) ensures Utf8Bytes(t) >= EscapedBytes(s) + 1 {
      NoLiteralIsShorter(t);
    }
  }
}
