/** `JSON.stringify` applied to a string, and a reader for the JSON string literals it produces. */
module Json {
  import opened Wrappers
  import Decimal

  function HexDigit(d: nat): (c: char)
    requires d < 16
  {
    if d < 10 then Decimal.DigitChar(d) else ('a' as int + d - 10) as char
  }

  function HexValue(c: char): (r: Option<nat>)
    ensures r.Some? ==> r.value < 16
  {
    if '0' <= c <= '9' then Some(c as int - '0' as int)
    else if 'a' <= c <= 'f' then Some(c as int - 'a' as int + 10)
    else if 'A' <= c <= 'F' then Some(c as int - 'A' as int + 10)
    else None
  }

  /** The code unit written by four hexadecimal digits. */
  function Hex4(h: string): (r: Option<nat>)
    requires |h| == 4
  {
    match (HexValue(h[0]), HexValue(h[1]), HexValue(h[2]), HexValue(h[3]))
    case (Some(a), Some(b), Some(c), Some(d)) => Some(((a * 16 + b) * 16 + c) * 16 + d)
    case _ => None
  }

  /**
   * How `JSON.stringify` writes one character inside a string literal: the quote and the
   * backslash are escaped, so are the control characters (by name where JSON has one, else
   * as `\u00xx` in lower-case hexadecimal); every other character stands for itself.
   */
  function EscapeChar(c: char): (s: string)
    ensures 1 <= |s| && s[0] != '"'
  {
    if c == '"' then "\\\""
    else if c == '\\' then "\\\\"
    else if c as int == 8 then "\\b"
    else if c == '\t' then "\\t"
    else if c == '\n' then "\\n"
    else if c as int == 12 then "\\f"
    else if c == '\r' then "\\r"
    else if c as int < 0x20 then "\\u00" + [HexDigit(c as int / 16), HexDigit(c as int % 16)]
    else [c]
  }

  function Escape(s: string): string {
    if s == [] then [] else EscapeChar(s[0]) + Escape(s[1..])
  }

  /** `JSON.stringify(s)` for a string `s`. */
  function Quote(s: string): string {
    "\"" + Escape(s) + "\""
  }

  /** Reads one character of a string literal's body (escaped or not), with the text after it. */
  function ParseChar(s: string): (r: Option<(char, string)>)
    ensures r.Some? ==> |r.value.1| < |s|
  {
    if s == [] || s[0] == '"' || s[0] as int < 0x20 then None
    else if s[0] != '\\' then Some((s[0], s[1..]))
    else if |s| < 2 then None
    else
      var e := s[1];
      if e == '"' || e == '\\' || e == '/' then Some((e, s[2..]))
      else if e == 'b' then Some((8 as char, s[2..]))
      else if e == 'f' then Some((12 as char, s[2..]))
      else if e == 'n' then Some(('\n', s[2..]))
      else if e == 'r' then Some(('\r', s[2..]))
      else if e == 't' then Some(('\t', s[2..]))
      else if e == 'u' && |s| >= 6 then
        match Hex4(s[2..6])
        case Some(v) =>
          if v < 0xD800 || 0xE000 <= v then Some((v as char, s[6..])) else None
        case None => None
      else None
  }

  /** Reads the rest of a string literal after its opening quote, up to and including the closing quote. */
  function ParseBody(s: string): (r: Option<(string, string)>)
    ensures r.Some? ==> |r.value.1| < |s|
    decreases |s|
  {
    if s != [] && s[0] == '"' then Some(([], s[1..]))
    else
      match ParseChar(s)
      case None => None
      case Some((c, t)) =>
        match ParseBody(t)
        case None => None
        case Some((body, rest)) => Some(([c] + body, rest))
  }

  /** Reads a JSON string literal at the start of `s`, returning its value and the text after it. */
  function Unquote(s: string): (r: Option<(string, string)>)
    ensures r.Some? ==> |r.value.1| < |s|
  {
    if s != [] && s[0] == '"' then ParseBody(s[1..]) else None
  }

  lemma ParseEscapedChar(c: char, more: string)
    ensures ParseChar(EscapeChar(c) + more) == Some((c, more))
  {
    var e := EscapeChar(c);
    var s := e + more;
    if c as int < 0x20 && c != '\t' && c != '\n' && c != '\r' && c as int != 8 && c as int != 12 {
      var hi, lo := c as int / 16, c as int % 16;
      assert s[2..6] == ['0', '0', HexDigit(hi), HexDigit(lo)];
      assert s[6..] == more;
      assert (c as int) as char == c;
    } else if c as int < 0x20 || c == '"' || c == '\\' {
      assert s[2..] == more;
    } else {
      assert s[1..] == more;
    }
  }

  lemma {:induction false} ParseBodyOfEscape(s: string, rest: string)
    ensures ParseBody(Escape(s) + "\"" + rest) == Some((s, rest))
  {
    if s == [] {
      assert Escape(s) + "\"" + rest == "\"" + rest;
    } else {
      var tail := Escape(s[1..]) + "\"" + rest;
      assert Escape(s) + "\"" + rest == EscapeChar(s[0]) + tail;
      ParseEscapedChar(s[0], tail);
      ParseBodyOfEscape(s[1..], rest);
      assert [s[0]] + s[1..] == s;
    }
  }

  /** Reading back `JSON.stringify(s)` gives `s`, whatever text follows it. */
  lemma UnquoteQuote(s: string, rest: string)
    ensures Unquote(Quote(s) + rest) == Some((s, rest))
  {
    assert Quote(s) + rest == "\"" + (Escape(s) + "\"" + rest);
    ParseBodyOfEscape(s, rest);
  }
}
