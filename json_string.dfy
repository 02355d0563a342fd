/** `JSON.stringify` applied to a string (the QuoteJSONString operation of ECMAScript),
    and the reading of a JSON string literal that undoes it. */
module JsonString {
  import opened Wrappers

  /** The lower-case hexadecimal digit for `d`. */
  function HexDigit(d: nat): char
    requires d < 16
  {
    "0123456789abcdef"[d]
  }

  /** The value of a hexadecimal digit of either case. */
  function HexValue(c: char): Option<nat> {
    if '0' <= c <= '9' then Some(c as nat - '0' as nat)
    else if 'a' <= c <= 'f' then Some(c as nat - 'a' as nat + 10)
    else if 'A' <= c <= 'F' then Some(c as nat - 'A' as nat + 10)
    else None
  }

  /** How one character is written inside the quotes: backspace, tab, line feed, form
      feed, carriage return, `"` and `\` get their two-character escapes, other control
      characters below U+0020 become `\u00XX`, every other character stands for itself.
      (A Dafny `char` is never a lone surrogate, so the surrogate escapes cannot arise.) */
  function EscapeChar(c: char): string {
    var n := c as int;
    if n == 0x08 then "\\b"
    else if n == 0x09 then "\\t"
    else if n == 0x0A then "\\n"
    else if n == 0x0C then "\\f"
    else if n == 0x0D then "\\r"
    else if c == '"' then "\\\""
    else if c == '\\' then "\\\\"
    else if n < 0x20 then "\\u00" + [HexDigit(n / 16), HexDigit(n % 16)]
    else [c]
  }

  function Escape(s: string): string {
    if s == [] then [] else EscapeChar(s[0]) + Escape(s[1..])
  }

  /** `JSON.stringify(s)` for a string `s`. */
  function Quote(s: string): (r: string)
    ensures |r| >= 2 && r[0] == '"' && r[|r| - 1] == '"'
  {
    "\"" + Escape(s) + "\""
  }

  // ---------------------------------------------------------------------------
  // Reading a JSON string literal back

  /** The character denoted by the escape `\` followed by `e`, for the one-letter escapes. */
  function SimpleEscape(e: char): Option<char> {
    if e == '"' then Some('"')
    else if e == '\\' then Some('\\')
    else if e == '/' then Some('/')
    else if e == 'b' then Some(8 as char)
    else if e == 'f' then Some(12 as char)
    else if e == 'n' then Some(10 as char)
    else if e == 'r' then Some(13 as char)
    else if e == 't' then Some(9 as char)
    else None
  }

  /** The code unit written by four hexadecimal digits. */
  function Hex4(h: string): Option<nat>
    requires |h| == 4
  {
    match (HexValue(h[0]), HexValue(h[1]), HexValue(h[2]), HexValue(h[3]))
    case (Some(a), Some(b), Some(c), Some(d)) => Some(((a * 16 + b) * 16 + c) * 16 + d)
    case _ => None
  }

  /** Reads the characters of a string literal up to and including its closing quote; gives
      the text and what follows the quote. A raw control character, an unknown escape and a
      `\u` escape of a surrogate are rejected. */
  function ReadBody(s: string): (r: Option<(string, string)>)
    ensures r.Some? ==> |r.value.1| < |s|
    decreases |s|
  {
    if s == [] then None
    else if s[0] == '"' then Some(("", s[1..]))
    else if s[0] == '\\' then
      if |s| < 2 then None
      else if s[1] == 'u' then
        if |s| < 6 then None
        else match Hex4(s[2..6])
          case None => None
          case Some(code) =>
            if 0xD800 <= code < 0xE000 then None
            else Prepend(code as char, ReadBody(s[6..]))
      else match SimpleEscape(s[1])
        case None => None
        case Some(c) => Prepend(c, ReadBody(s[2..]))
    else if (s[0] as int) < 0x20 then None
    else Prepend(s[0], ReadBody(s[1..]))
  }

  function Prepend(c: char, r: Option<(string, string)>): (p: Option<(string, string)>)
    ensures p.Some? <==> r.Some?
    ensures p.Some? ==> p.value.1 == r.value.1
  {
    match r
    case None => None
    case Some((text, rest)) => Some(([c] + text, rest))
  }

  /** Reads one JSON string literal at the start of `s`: its text and what follows it. */
  function ReadString(s: string): (r: Option<(string, string)>)
    ensures r.Some? ==> |r.value.1| < |s|
  {
    if s != [] && s[0] == '"' then ReadBody(s[1..]) else None
  }

  lemma ReadEscapedChar(c: char, rest: string)
    ensures ReadBody(EscapeChar(c) + rest) == Prepend(c, ReadBody(rest))
  {
    var n := c as int;
    var e := EscapeChar(c);
    var s := e + rest;
    if n == 0x08 || n == 0x09 || n == 0x0A || n == 0x0C || n == 0x0D || c == '"' || c == '\\' {
      assert s[0] == '\\' && s[2..] == rest;
      assert SimpleEscape(s[1]) == Some(c);
    } else if n < 0x20 {
      assert s[0] == '\\' && s[1] == 'u' && s[6..] == rest;
      assert s[2..6] == ['0', '0', HexDigit(n / 16), HexDigit(n % 16)];
      assert HexValue(HexDigit(n / 16)) == Some(n / 16);
      assert HexValue(HexDigit(n % 16)) == Some(n % 16);
      assert Hex4(s[2..6]) == Some(n);
    } else {
      assert s[0] == c && s[1..] == rest;
    }
  }

  lemma {:induction false} ReadEscaped(t: string, rest: string)
    ensures ReadBody(Escape(t) + "\"" + rest) == Some((t, rest))
  {
    if t == [] {
      assert Escape(t) + "\"" + rest == "\"" + rest;
    } else {
      ReadEscaped(t[1..], rest);
      assert Escape(t) + "\"" + rest == EscapeChar(t[0]) + (Escape(t[1..]) + "\"" + rest);
      ReadEscapedChar(t[0], Escape(t[1..]) + "\"" + rest);
      assert [t[0]] + t[1..] == t;
    }
  }

  /** Reading the output of `JSON.stringify(t)` gives back `t` and leaves what follows. */
  lemma ReadQuoted(t: string, rest: string)
    ensures ReadString(Quote(t) + rest) == Some((t, rest))
  {
    var s := Quote(t) + rest;
    assert s[1..] == Escape(t) + "\"" + rest;
    ReadEscaped(t, rest);
  }

  /** `JSON.stringify` of a string never produces a line feed or any other control
      character, so a quoted field always stays on one line. */
  lemma {:induction false} QuoteHasNoControl(t: string)
    ensures forall i :: 0 <= i < |Quote(t)| ==> Quote(t)[i] as int >= 0x20
  {
    EscapeHasNoControl(t);
  }

  lemma {:induction false} EscapeHasNoControl(t: string)
    ensures forall i :: 0 <= i < |Escape(t)| ==> Escape(t)[i] as int >= 0x20
  {
    if t != [] {
      EscapeHasNoControl(t[1..]);
      var e := EscapeChar(t[0]);
      assert forall i :: 0 <= i < |e| ==> e[i] as int >= 0x20;
    }
  }
}
