/** `JSON.stringify` on a string, as the store writes the `tags` column
    (QuoteJSONString, section 25.5.2.3 of ECMA-262), and the string part of
    `JSON.parse` that reads such text back. Characters are Unicode scalar
    values, so no lone surrogate needs an escape. */
module Json {
  import opened Wrappers
  import opened Text

  const HexDigits: string := "0123456789abcdef"

  /** How `JSON.stringify` writes one character inside a string literal: the
      quote and the backslash escaped, the five short control escapes, every
      other control character as `\u00xx` in lower-case hex, anything else as is. */
  function EscapeChar(c: char): string {
    if c == '"' then "\\\""
    else if c == '\\' then "\\\\"
    else if c == '\U{0008}' then "\\b"
    else if c == '\t' then "\\t"
    else if c == '\n' then "\\n"
    else if c == '\U{000C}' then "\\f"
    else if c == '\r' then "\\r"
    else if c < ' ' then "\\u00" + [HexDigits[c as int / 16], HexDigits[c as int % 16]]
    else [c]
  }

  /** The body of the string literal, character by character. */
  function Escape(s: string): string {
    if s == [] then "" else EscapeChar(s[0]) + Escape(s[1..])
  }

  /** `JSON.stringify(s)` for a string `s`. */
  function Quote(s: string): string {
    "\"" + Escape(s) + "\""
  }

  /** A character that `JSON.stringify` writes unchanged. */
  predicate Plain(c: char) {
    c != '"' && c != '\\' && c >= ' '
  }

  // ---------------------------------------------------------------------
  // Reading a string literal's body back, as `JSON.parse` does

  /** The value of a hexadecimal digit of either case. */
  function HexValue(c: char): (v: Option<nat>)
    ensures v.Some? ==> v.value < 16
  {
    if '0' <= c <= '9' then Some(c as int - '0' as int)
    else if 'a' <= c <= 'f' then Some(c as int - 'a' as int + 10)
    else if 'A' <= c <= 'F' then Some(c as int - 'A' as int + 10)
    else None
  }

  /** The character a two-character escape `\x` stands for. */
  function ShortEscape(x: char): Option<char> {
    if x == '"' then Some('"')
    else if x == '\\' then Some('\\')
    else if x == '/' then Some('/')
    else if x == 'b' then Some('\U{0008}')
    else if x == 'f' then Some('\U{000C}')
    else if x == 'n' then Some('\n')
    else if x == 'r' then Some('\r')
    else if x == 't' then Some('\t')
    else None
  }

  /** The code unit written by the four hex digits of a `\uXXXX` escape. */
  function CodeUnit(h: string): (v: Option<nat>)
    requires |h| == 4
    ensures v.Some? ==> v.value < 0x1_0000
  {
    var a, b, c, d := HexValue(h[0]), HexValue(h[1]), HexValue(h[2]), HexValue(h[3]);
    if a.Some? && b.Some? && c.Some? && d.Some?
    then Some(((a.value * 16 + b.value) * 16 + c.value) * 16 + d.value)
    else None
  }

  function Prepend(c: char, rest: Option<string>): Option<string> {
    if rest.Some? then Some([c] + rest.value) else None
  }

  /** The string a literal's body stands for, or `None` where `JSON.parse`
      would throw: a raw quote or control character, an unknown escape. A
      `\uXXXX` escape of a surrogate is refused too: it can only stand for
      half of a character here. */
  function Unescape(t: string): Option<string>
    decreases |t|
  {
    if t == [] then Some("")
    else if t[0] == '"' || t[0] < ' ' then None
    else if t[0] != '\\' then Prepend(t[0], Unescape(t[1..]))
    else if |t| >= 2 && ShortEscape(t[1]).Some? then Prepend(ShortEscape(t[1]).value, Unescape(t[2..]))
    else if |t| >= 6 && t[1] == 'u' then
      var v := CodeUnit(t[2..6]);
      if v.Some? && (v.value < 0xD800 || 0xE000 <= v.value) then Prepend(v.value as char, Unescape(t[6..]))
      else None
    else None
  }

  // ---------------------------------------------------------------------
  // Properties

  /** Text with no quote, backslash or control character is written unchanged. */
  lemma {:induction false} EscapePlain(s: string)
    requires forall i :: 0 <= i < |s| ==> Plain(s[i])
    ensures Escape(s) == s
  {
    if s != [] {
      EscapePlain(s[1..]);
      assert s == [s[0]] + s[1..];
    }
  }

  /** The written text never holds a raw control character. */
  lemma {:induction false} EscapeHasNoControl(s: string)
    ensures forall c :: c in Escape(s) ==> c >= ' '
  {
    if s != [] {
      EscapeHasNoControl(s[1..]);
      var e, rest := EscapeChar(s[0]), Escape(s[1..]);
      assert Escape(s) == e + rest;
      assert forall c :: c in e ==> c >= ' ';
    }
  }

  /** A quote inside the string is written as `\"` in the escaped text. */
  lemma {:induction false} EscapeShowsEscapedQuote(t: string, j: nat)
    requires j < |t| && t[j] == '"'
    ensures Infix("\\\"", Escape(t))
  {
    var w, rest := "\\\"", Escape(t[1..]);
    if j == 0 {
      InfixOfConcat("", w, rest);
      assert "" + w + rest == Escape(t);
    } else {
      EscapeShowsEscapedQuote(t[1..], j - 1);
      var i :| 0 <= i <= |rest| && OccursAt(rest, w, i);
      OccursShifted(EscapeChar(t[0]), rest, "", w, i);
      assert EscapeChar(t[0]) + rest + "" == Escape(t);
    }
  }

  /** A quote inside the string is written as `\"`. */
  lemma QuoteShowsEscapedQuote(t: string, j: nat)
    requires j < |t| && t[j] == '"'
    ensures Infix("\\\"", Quote(t))
  {
    EscapeShowsEscapedQuote(t, j);
    InfixOfConcat("\"", Escape(t), "\"");
    InfixTransitive("\\\"", Escape(t), Quote(t));
  }

  /** A plain character is read back as itself. */
  lemma UnescapePlain(c: char, rest: string)
    requires Plain(c)
    ensures Unescape(EscapeChar(c) + rest) == Prepend(c, Unescape(rest))
  {
    var t := EscapeChar(c) + rest;
    assert t[0] == c && t[1..] == rest;
  }

  /** A `\u00xx` escape is read back as the control character it writes. */
  lemma UnescapeHex(c: char, rest: string)
    requires c < ' ' && c != '\U{0008}' && c != '\t' && c != '\n' && c != '\U{000C}' && c != '\r'
    ensures Unescape(EscapeChar(c) + rest) == Prepend(c, Unescape(rest))
  {
    var hi, lo := c as int / 16, c as int % 16;
    var t := EscapeChar(c) + rest;
    assert hi < 2;
    assert t[0] == '\\' && t[1] == 'u';
    assert t[2..6] == "00" + [HexDigits[hi], HexDigits[lo]];
    assert HexValue(HexDigits[hi]) == Some(hi);
    assert HexValue(HexDigits[lo]) == Some(lo);
    assert CodeUnit(t[2..6]) == Some(c as int);
    assert t[6..] == rest;
  }

  /** Reading back one escaped character, followed by anything, gives that character first. */
  lemma UnescapeChar(c: char, rest: string)
    ensures Unescape(EscapeChar(c) + rest) == Prepend(c, Unescape(rest))
  {
    if Plain(c) {
      UnescapePlain(c, rest);
    } else if c < ' ' && c != '\U{0008}' && c != '\t' && c != '\n' && c != '\U{000C}' && c != '\r' {
      UnescapeHex(c, rest);
    } else {
      var t := EscapeChar(c) + rest;
      assert t[2..] == rest;
    }
  }

  /** `JSON.parse` inverts `JSON.stringify` on the body of a string literal. */
  lemma {:induction false} EscapeRoundTrip(s: string)
    ensures Unescape(Escape(s)) == Some(s)
  {
    if s != [] {
      EscapeRoundTrip(s[1..]);
      UnescapeChar(s[0], Escape(s[1..]));
      assert [s[0]] + s[1..] == s;
    }
  }
}
