/**
 The string-literal codec: `json_string_literal` of src/mask/tree.rs and
 `json_escape_str` of src/mask/engine.rs, against the decoder that section 7 of
 RFC 8259 prescribes.
 */
module Codec {
  import opened Wrappers
  import opened Seqs
  import opened Placeholders

  // -------------------------------------------------------------------- encoder

  function HexDigit(n: nat): char
    requires n < 16
  {
    if n < 10 then ('0' as int + n) as char else ('a' as int + n - 10) as char
  }

  /** `{:04x}` */
  function Hex4(n: nat): string
    requires n < 0x10000
  {
    [HexDigit(n / 4096), HexDigit(n / 256 % 16), HexDigit(n / 16 % 16), HexDigit(n % 16)]
  }

  function UnicodeEscape(n: nat): string
    requires n < 0x10000
  {
    "\\u" + Hex4(n)
  }

  /** One character of the literal; `ascii` also escapes everything above 0x7f, as a surrogate pair beyond the BMP. */
  function LiteralChar(c: char, ascii: bool): string {
    var cp := c as int;
    if c == '"' then "\\\""
    else if c == '\\' then "\\\\"
    else if c == '\n' then "\\n"
    else if c == '\r' then "\\r"
    else if c == '\t' then "\\t"
    else if cp < 0x20 then UnicodeEscape(cp)
    else if ascii && cp > 0x7f then
      if cp > 0xFFFF then
        var v := cp - 0x10000;
        UnicodeEscape(0xD800 + v / 1024) + UnicodeEscape(0xDC00 + v % 1024)
      else UnicodeEscape(cp)
    else [c]
  }

  /** What `json_string_literal` writes between the quotes. */
  function Literal(s: string, ascii: bool): string {
    if s == [] then [] else LiteralChar(s[0], ascii) + Literal(s[1..], ascii)
  }

  function JsonEscape(s: string): string { Literal(s, false) }

  lemma {:induction false} LiteralConcat(a: string, b: string, ascii: bool)
    ensures Literal(a + b, ascii) == Literal(a, ascii) + Literal(b, ascii)
  {
    if a == [] {
      assert a + b == b;
    } else {
      assert (a + b)[1..] == a[1..] + b;
      LiteralConcat(a[1..], b, ascii);
    }
  }

  /** The loop of `json_string_literal`. */
  method JsonStringLiteral(s: string, ascii: bool) returns (out: string)
    ensures Decode(out) == Some(s)
    ensures out == Literal(s, ascii)
  {
    out := "";
    for i := 0 to |s|
      invariant out == Literal(s[..i], ascii)
    {
      assert s[..i + 1] == s[..i] + [s[i]];
      LiteralConcat(s[..i], [s[i]], ascii);
      assert Literal([s[i]], ascii) == LiteralChar(s[i], ascii) + Literal([], ascii);
      out := out + LiteralChar(s[i], ascii);
    }
    assert s[..|s|] == s;
    DecodeLiteral(s, ascii);
  }

  // -------------------------------------------------------------------- decoder

  function HexValue(c: char): (v: Option<nat>)
    ensures v.Some? ==> v.value < 16
  {
    if '0' <= c <= '9' then Some(c as int - '0' as int)
    else if 'a' <= c <= 'f' then Some(c as int - 'a' as int + 10)
    else if 'A' <= c <= 'F' then Some(c as int - 'A' as int + 10)
    else None
  }

  /** The four hex digits at the head of s. */
  function Hex4Value(s: string): (v: Option<nat>)
    ensures v.Some? ==> |s| >= 4 && v.value < 0x10000
  {
    if |s| < 4 then None
    else
      match (HexValue(s[0]), HexValue(s[1]), HexValue(s[2]), HexValue(s[3]))
      case (Some(a), Some(b), Some(c), Some(d)) => Some(((a * 16 + b) * 16 + c) * 16 + d)
      case _ => None
  }

  /** `\uXXXX` at the head of s. */
  function UnicodeUnit(s: string): (v: Option<nat>)
    ensures v.Some? ==> |s| >= 6 && v.value < 0x10000
  {
    if |s| >= 6 && s[0] == '\\' && s[1] == 'u' then Hex4Value(s[2..]) else None
  }

  /** One encoded character: the character and the length of its encoding. */
  function DecodeUnit(s: string): (r: Option<(char, nat)>)
    requires s != []
    ensures r.Some? ==> 0 < r.value.1 <= |s|
  {
    if s[0] == '"' || s[0] < ' ' then None
    else if s[0] != '\\' then Some((s[0], 1))
    else if |s| < 2 then None
    else if s[1] in "\"\\/" then Some((s[1], 2))
    else if s[1] == 'n' then Some(('\n', 2))
    else if s[1] == 'r' then Some(('\r', 2))
    else if s[1] == 't' then Some(('\t', 2))
    else if s[1] == 'b' then Some(('\U{8}', 2))
    else if s[1] == 'f' then Some(('\U{C}', 2))
    else
      match UnicodeUnit(s)
      case None => None
      case Some(hi) =>
        if 0xD800 <= hi < 0xDC00 then
          match UnicodeUnit(s[6..])
          case None => None
          case Some(lo) =>
            if 0xDC00 <= lo < 0xE000
            then Some(((0x10000 + (hi - 0xD800) * 1024 + (lo - 0xDC00)) as char, 12))
            else None
        else if 0xDC00 <= hi < 0xE000 then None
        else Some((hi as char, 6))
  }

  /** The text a JSON string with this content denotes; None if it denotes none. */
  function Decode(s: string): Option<string> {
    if s == [] then Some([])
    else
      match DecodeUnit(s)
      case None => None
      case Some(u) =>
        match Decode(s[u.1..])
        case None => None
        case Some(r) => Some([u.0] + r)
  }

  lemma {:induction false} HexDigitRoundTrip(d: nat)
    requires d < 16
    ensures HexValue(HexDigit(d)) == Some(d)
  {
  }

  lemma {:induction false} Hex4Digits(n: nat)
    requires n < 0x10000
    ensures ((n / 4096 * 16 + n / 256 % 16) * 16 + n / 16 % 16) * 16 + n % 16 == n
  {
    assert n / 4096 * 16 + n / 256 % 16 == n / 256;
    assert n / 256 * 16 + n / 16 % 16 == n / 16;
    assert n / 16 * 16 + n % 16 == n;
  }

  lemma {:induction false} Hex4RoundTrip(n: nat, rest: string)
    requires n < 0x10000
    ensures UnicodeUnit(UnicodeEscape(n) + rest) == Some(n)
  {
    var a, b, c, d := n / 4096, n / 256 % 16, n / 16 % 16, n % 16;
    var t := [HexDigit(a), HexDigit(b), HexDigit(c), HexDigit(d)] + rest;
    assert (UnicodeEscape(n) + rest)[2..] == t;
    HexDigitRoundTrip(a); HexDigitRoundTrip(b); HexDigitRoundTrip(c); HexDigitRoundTrip(d);
    assert Hex4Value(t) == Some(((a * 16 + b) * 16 + c) * 16 + d);
    Hex4Digits(n);
  }

  lemma {:induction false} DecodeBmp(cp: nat, rest: string)
    requires cp < 0xD800 || 0xE000 <= cp < 0x10000
    ensures DecodeUnit(UnicodeEscape(cp) + rest) == Some((cp as char, 6))
  {
    Hex4RoundTrip(cp, rest);
  }

  lemma {:induction false} DecodePair(hi: nat, lo: nat, rest: string)
    requires 0xD800 <= hi < 0xDC00 && 0xDC00 <= lo < 0xE000
    ensures DecodeUnit(UnicodeEscape(hi) + UnicodeEscape(lo) + rest)
         == Some(((0x10000 + (hi - 0xD800) * 1024 + (lo - 0xDC00)) as char, 12))
  {
    var s := UnicodeEscape(hi) + UnicodeEscape(lo) + rest;
    assert s == UnicodeEscape(hi) + (UnicodeEscape(lo) + rest);
    Hex4RoundTrip(hi, UnicodeEscape(lo) + rest);
    assert s[6..] == UnicodeEscape(lo) + rest;
    Hex4RoundTrip(lo, rest);
  }

  lemma {:induction false} DecodeShort(c: char, ascii: bool, rest: string)
    requires c in "\"\\\n\r\t"
    ensures |LiteralChar(c, ascii)| == 2 && DecodeUnit(LiteralChar(c, ascii) + rest) == Some((c, 2))
  {
    var u := LiteralChar(c, ascii);
    var s := u + rest;
    assert |u| == 2 && s[0] == '\\' && s[1] == u[1];
  }

  lemma {:induction false} DecodePlain(c: char, rest: string)
    requires IsLiteralSafe(c)
    ensures DecodeUnit([c] + rest) == Some((c, 1))
  {
  }

  lemma {:induction false} DecodeEscaped(c: char, ascii: bool, rest: string)
    requires c as int < 0x10000 && LiteralChar(c, ascii) == UnicodeEscape(c as int)
    ensures DecodeUnit(LiteralChar(c, ascii) + rest) == Some((c, |LiteralChar(c, ascii)|))
  {
    DecodeBmp(c as int, rest);
  }

  lemma {:induction false} SplitValue(v: int)
    requires 0 <= v < 0x100000
    ensures 0 <= v / 1024 < 1024 && 0 <= v % 1024 < 1024 && v / 1024 * 1024 + v % 1024 == v
  {
  }

  lemma {:induction false} BeyondLiteral(c: char, v: int, hi: int, lo: int)
    requires c as int > 0xFFFF && v == c as int - 0x10000 && hi == 0xD800 + v / 1024 && lo == 0xDC00 + v % 1024
    ensures 0xD800 <= hi < 0xDC00 && 0xDC00 <= lo < 0xE000
    ensures LiteralChar(c, true) == UnicodeEscape(hi) + UnicodeEscape(lo) && |LiteralChar(c, true)| == 12
    ensures 0x10000 + (hi - 0xD800) * 1024 + (lo - 0xDC00) == c as int
  {
    SplitValue(v);
  }

  lemma {:induction false} DecodeBeyond(c: char, rest: string)
    requires c as int > 0xFFFF
    ensures DecodeUnit(LiteralChar(c, true) + rest) == Some((c, |LiteralChar(c, true)|))
  {
    var v := c as int - 0x10000;
    var hi, lo := 0xD800 + v / 1024, 0xDC00 + v % 1024;
    BeyondLiteral(c, v, hi, lo);
    DecodePair(hi, lo, rest);
  }

  lemma {:induction false} DecodeOne(c: char, ascii: bool, rest: string)
    ensures DecodeUnit(LiteralChar(c, ascii) + rest) == Some((c, |LiteralChar(c, ascii)|))
  {
    var cp := c as int;
    if c == '"' || c == '\\' || c == '\n' || c == '\r' || c == '\t' {
      DecodeShort(c, ascii, rest);
    } else if cp < 0x20 || (ascii && 0x7f < cp <= 0xFFFF) {
      DecodeEscaped(c, ascii, rest);
    } else if ascii && cp > 0xFFFF {
      DecodeBeyond(c, rest);
    } else {
      assert LiteralChar(c, ascii) == [c];
      DecodePlain(c, rest);
    }
  }

  /** Decoding the literal gives back every Unicode string, in both modes. */
  lemma {:induction false} DecodeLiteral(s: string, ascii: bool)
    ensures Decode(Literal(s, ascii)) == Some(s)
  {
    if s != [] {
      var u := LiteralChar(s[0], ascii);
      DecodeOne(s[0], ascii, Literal(s[1..], ascii));
      assert Literal(s, ascii)[|u|..] == Literal(s[1..], ascii);
      DecodeLiteral(s[1..], ascii);
      assert [s[0]] + s[1..] == s;
    }
  }

  /** Characters that escaping leaves alone. */
  predicate IsLiteralSafe(c: char) { c >= ' ' && c != '"' && c != '\\' }

  lemma {:induction false} EscapeFixesSafe(s: string)
    requires All(IsLiteralSafe, s)
    ensures JsonEscape(s) == s
  {
    if s != [] {
      assert IsLiteralSafe(s[0]);
      assert All(IsLiteralSafe, s[1..]);
      EscapeFixesSafe(s[1..]);
    }
  }

  /** Placeholder text passes through escaping unchanged. */
  lemma {:induction false} EscapeFixesToken(tag: string, suffix: string)
    requires IsLabel(tag) && IsSuffix(suffix)
    ensures JsonEscape(Token(tag, suffix)) == Token(tag, suffix)
  {
    assert All(IsLiteralSafe, Token(tag, suffix));
    EscapeFixesSafe(Token(tag, suffix));
  }

  /** Escaping never brings in a brace that was not there. */
  lemma {:induction false} EscapeBraceFree(s: string)
    requires '{' !in s && '}' !in s
    ensures '{' !in JsonEscape(s) && '}' !in JsonEscape(s)
  {
    if s != [] {
      EscapeBraceFree(s[1..]);
      var u := LiteralChar(s[0], false);
      assert '{' !in u && '}' !in u;
    }
  }
}
