/**
 * Python's `repr()` for the values that appear in validation errors: `None`, strings and numbers.
 * String repr follows CPython: single quotes unless the text holds a single quote and no double
 * quote; the chosen quote and the backslash are escaped; tab, newline and carriage return use
 * their short escapes; other control characters and DEL become `\xNN` with lower-case hex.
 */
module PyRepr {
  import opened Wrappers

  /** A value that a validation error reports back to the user. */
  datatype PyValue = PyNone | PyStr(text: string) | PyNum(number: real)

  function StringValue(o: Option<string>): (v: PyValue)
    ensures o.None? <==> v == PyNone
    ensures o.Some? ==> v == PyStr(o.value)
  {
    match o
    case None => PyNone
    case Some(s) => PyStr(s)
  }

  function NumberValue(o: Option<real>): (v: PyValue)
    ensures o.None? <==> v == PyNone
    ensures o.Some? ==> v == PyNum(o.value)
  {
    match o
    case None => PyNone
    case Some(x) => PyNum(x)
  }

  const HEX_DIGITS: string := "0123456789abcdef"

  function QuoteFor(s: string): char {
    if '\'' in s && '"' !in s then '"' else '\''
  }

  predicate IsQuote(q: char) {
    q == '\'' || q == '"'
  }

  /** Control characters and DEL, which repr writes as `\xNN`. */
  predicate NeedsHexEscape(c: char) {
    c < ' ' || c as int == 0x7F
  }

  function Hex2(n: nat): (r: string)
    requires n < 256
    ensures |r| == 2
  {
    [HEX_DIGITS[n / 16], HEX_DIGITS[n % 16]]
  }

  function EscapeChar(c: char, q: char): string {
    if c == q || c == '\\' then ['\\', c]
    else if c == '\t' then "\\t"
    else if c == '\n' then "\\n"
    else if c == '\r' then "\\r"
    else if NeedsHexEscape(c) then "\\x" + Hex2(c as int)
    else [c]
  }

  function EscapeAll(s: string, q: char): string {
    if |s| == 0 then "" else EscapeChar(s[0], q) + EscapeAll(s[1..], q)
  }

  /** `repr(s)` for a Python `str`. */
  function StrRepr(s: string): (r: string)
    ensures |r| >= 2 && IsQuote(r[0]) && r[|r| - 1] == r[0]
    ensures r[0] == '"' <==> ('\'' in s && '"' !in s)
  {
    var q := QuoteFor(s);
    [q] + EscapeAll(s, q) + [q]
  }

  /** `repr(v)`; the rendering of numbers (Python's shortest round-trip float repr) is a parameter. */
  function Repr(v: PyValue, numRepr: real -> string): (r: string)
    ensures v.PyNone? ==> r == "None"
    ensures v.PyStr? ==> ReadStrLiteral(r) == Some(v.text)
    ensures v.PyNum? ==> r == numRepr(v.number)
  {
    match v
    case PyNone => "None"
    case PyStr(s) => StrReprRoundTrip(s); StrRepr(s)
    case PyNum(x) => numRepr(x)
  }

  /** A character repr writes unchanged inside single quotes. */
  predicate Plain(c: char) {
    !NeedsHexEscape(c) && c != '\'' && c != '\\'
  }

  lemma {:induction false} EscapePlain(s: string)
    requires forall i :: 0 <= i < |s| ==> Plain(s[i])
    ensures EscapeAll(s, '\'') == s
  {
    if |s| > 0 {
      EscapePlain(s[1..]);
      assert s == [s[0]] + s[1..];
    }
  }

  /** For text of plain characters, repr is the text between single quotes. */
  lemma PlainRepr(s: string)
    requires forall i :: 0 <= i < |s| ==> Plain(s[i])
    ensures StrRepr(s) == "'" + s + "'"
  {
    assert '\'' !in s;
    EscapePlain(s);
  }

  // ---- Reading a repr back, as Python's parser reads a string literal ----

  function HexValue(c: char): (d: nat)
    ensures d < 16
  {
    if '0' <= c <= '9' then (c as int - '0' as int)
    else if 'a' <= c <= 'f' then (c as int - 'a' as int + 10)
    else 0
  }

  /** Decodes the escapes that EscapeAll produces. */
  function Unescape(t: string): string
    decreases |t|
  {
    if |t| == 0 then ""
    else if t[0] == '\\' && |t| >= 2 then
      if t[1] == 't' then "\t" + Unescape(t[2..])
      else if t[1] == 'n' then "\n" + Unescape(t[2..])
      else if t[1] == 'r' then "\r" + Unescape(t[2..])
      else if t[1] == 'x' && |t| >= 4 then [(HexValue(t[2]) * 16 + HexValue(t[3])) as char] + Unescape(t[4..])
      else [t[1]] + Unescape(t[2..])
    else [t[0]] + Unescape(t[1..])
  }

  /** The string a quoted literal denotes, or None when the text is not quoted. */
  function ReadStrLiteral(t: string): Option<string> {
    if |t| >= 2 && IsQuote(t[0]) && t[|t| - 1] == t[0] then Some(Unescape(t[1..|t| - 1])) else None
  }

  lemma HexRoundTrip(n: nat)
    requires n < 256
    ensures HexValue(Hex2(n)[0]) * 16 + HexValue(Hex2(n)[1]) == n
  {
    var hi, lo := n / 16, n % 16;
    assert HexValue(HEX_DIGITS[hi]) == hi;
    assert HexValue(HEX_DIGITS[lo]) == lo;
  }

  lemma UnescapeChar(c: char, q: char, rest: string)
    requires IsQuote(q)
    ensures Unescape(EscapeChar(c, q) + rest) == [c] + Unescape(rest)
  {
    var t := EscapeChar(c, q) + rest;
    if c == q || c == '\\' {
      assert t[0] == '\\' && t[1] == c && t[2..] == rest;
    } else if c == '\t' || c == '\n' || c == '\r' {
      assert t[2..] == rest;
    } else if NeedsHexEscape(c) {
      HexRoundTrip(c as int);
      assert t[0] == '\\' && t[1] == 'x' && t[4..] == rest;
      assert t[2] == Hex2(c as int)[0] && t[3] == Hex2(c as int)[1];
    } else {
      assert t[0] == c && t[1..] == rest;
    }
  }

  lemma {:induction false} UnescapeEscapeAll(s: string, q: char)
    requires IsQuote(q)
    ensures Unescape(EscapeAll(s, q)) == s
  {
    if |s| > 0 {
      assert EscapeAll(s, q) == EscapeChar(s[0], q) + EscapeAll(s[1..], q);
      UnescapeChar(s[0], q, EscapeAll(s[1..], q));
      UnescapeEscapeAll(s[1..], q);
      assert s == [s[0]] + s[1..];
    }
  }

  /** repr of a string reads back as that string. */
  lemma StrReprRoundTrip(s: string)
    ensures ReadStrLiteral(StrRepr(s)) == Some(s)
  {
    var q := QuoteFor(s);
    var t := StrRepr(s);
    assert t[1..|t| - 1] == EscapeAll(s, q);
    UnescapeEscapeAll(s, q);
  }
}
