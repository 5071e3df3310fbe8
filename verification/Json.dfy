/** JSON-like values and the double-quoted string form of RFC 8259 section 7. */
module Json {
  import opened Options
  import opened Hexadecimal

  /** `Float` holds the text Python prints for a float; nothing is computed with it. */
  datatype Json =
    | Null
    | Bool(b: bool)
    | Int(n: int)
    | Float(text: string)
    | Str(s: string)
    | Arr(items: seq<Json>)
    | Obj(members: seq<Member>)

  datatype Member = Member(key: string, value: Json)

  /** Whether a printed float has no fractional part. Python prints an exponent `e+`
      only for numbers too large to have one. */
  predicate IsWhole(text: string) {
    || (|text| >= 2 && text[|text| - 2] == '.' && text[|text| - 1] == '0')
    || exists i :: 0 <= i < |text| - 1 && text[i] == 'e' && text[i + 1] == '+'
  }

  // ----- json.dumps(s, ensure_ascii=False) for a string -----

  function EscapeChar(c: char): string {
    if c == '"' then "\\\""
    else if c == '\\' then "\\\\"
    else if c == '\n' then "\\n"
    else if c == '\r' then "\\r"
    else if c == '\t' then "\\t"
    else if c == 8 as char then "\\b"
    else if c == 12 as char then "\\f"
    else if c < ' ' then "\\u00" + [LowerDigit(c as int / 16), LowerDigit(c as int % 16)]
    else [c]
  }

  function EscapeAll(s: string): string {
    if s == "" then "" else EscapeChar(s[0]) + EscapeAll(s[1..])
  }

  function Quote(s: string): string {
    "\"" + EscapeAll(s) + "\""
  }

  // ----- reading a double-quoted string back -----

  /** The character written by `\uXXXX`; surrogates are not characters. */
  function ReadHex4(t: string): Option<char>
    requires |t| >= 4
  {
    var a :- HexValue(t[0]);
    var b :- HexValue(t[1]);
    var c :- HexValue(t[2]);
    var d :- HexValue(t[3]);
    var code := ((a * 16 + b) * 16 + c) * 16 + d;
    if code < 0xD800 || 0xE000 <= code < 0x1_0000 then Some(code as char) else None
  }

  function ReadEscape(c: char): Option<char> {
    match c
    case '"' => Some('"')
    case '\\' => Some('\\')
    case '/' => Some('/')
    case 'n' => Some('\n')
    case 'r' => Some('\r')
    case 't' => Some('\t')
    case 'b' => Some(8 as char)
    case 'f' => Some(12 as char)
    case _ => None
  }

  datatype Quoted = Quoted(text: string, rest: string)

  /** The string up to the closing quote, and what follows that quote. */
  function ReadChars(t: string): Option<Quoted>
    decreases |t|
  {
    if t == "" || t[0] < ' ' then None
    else if t[0] == '"' then Some(Quoted("", t[1..]))
    else if t[0] != '\\' then
      var q :- ReadChars(t[1..]);
      Some(Quoted([t[0]] + q.text, q.rest))
    else if |t| >= 6 && t[1] == 'u' then
      var c :- ReadHex4(t[2..]);
      var q :- ReadChars(t[6..]);
      Some(Quoted([c] + q.text, q.rest))
    else if |t| >= 2 then
      var c :- ReadEscape(t[1]);
      var q :- ReadChars(t[2..]);
      Some(Quoted([c] + q.text, q.rest))
    else None
  }

  function ReadQuoted(t: string): Option<Quoted> {
    if t == "" || t[0] != '"' then None else ReadChars(t[1..])
  }

  lemma ReadHexEscape(c: char, rest: string)
    requires c < ' '
    ensures ReadHex4("00" + [LowerDigit(c as int / 16), LowerDigit(c as int % 16)] + rest) == Some(c)
  {
    HexRoundTrip(c as int / 16);
    HexRoundTrip(c as int % 16);
  }

  function Resume(c: char, q: Option<Quoted>): Option<Quoted> {
    if q.None? then None else Some(Quoted([c] + q.value.text, q.value.rest))
  }

  lemma ReadEscapedPlain(c: char, rest: string)
    requires c >= ' ' && c != '"' && c != '\\'
    ensures ReadChars([c] + rest) == Resume(c, ReadChars(rest))
  {
    assert ([c] + rest)[1..] == rest;
  }

  lemma ReadEscapedPair(e: char, c: char, rest: string)
    requires e != 'u' && ReadEscape(e) == Some(c)
    ensures ReadChars(['\\', e] + rest) == Resume(c, ReadChars(rest))
  {
    assert (['\\', e] + rest)[2..] == rest;
  }

  lemma ReadEscapedControl(c: char, rest: string)
    requires c < ' '
    ensures ReadChars("\\u00" + [LowerDigit(c as int / 16), LowerDigit(c as int % 16)] + rest) ==
        Resume(c, ReadChars(rest))
  {
    var hex := [LowerDigit(c as int / 16), LowerDigit(c as int % 16)];
    var t := "\\u00" + hex + rest;
    ReadHexEscape(c, rest);
    assert t[2..] == "00" + hex + rest;
    assert t[6..] == rest;
  }

  lemma ReadEscapedChar(c: char, rest: string)
    ensures ReadChars(EscapeChar(c) + rest) == Resume(c, ReadChars(rest))
  {
    if c == '"' || c == '\\' {
      ReadEscapedPair(c, c, rest);
    } else if c == '\n' {
      ReadEscapedPair('n', c, rest);
    } else if c == '\r' {
      ReadEscapedPair('r', c, rest);
    } else if c == '\t' {
      ReadEscapedPair('t', c, rest);
    } else if c == 8 as char {
      ReadEscapedPair('b', c, rest);
    } else if c == 12 as char {
      ReadEscapedPair('f', c, rest);
    } else if c < ' ' {
      ReadEscapedControl(c, rest);
    } else {
      ReadEscapedPlain(c, rest);
    }
  }

  lemma ReadClosingQuote(rest: string)
    ensures ReadChars("\"" + rest) == Some(Quoted("", rest))
  {
    assert ("\"" + rest)[1..] == rest;
  }

  lemma EscapeAllCons(c: char, s: string, tail: string)
    ensures EscapeAll([c] + s) + tail == EscapeChar(c) + (EscapeAll(s) + tail)
  {
    assert ([c] + s)[1..] == s;
  }

  lemma {:induction false} ReadEscapedAll(s: string, rest: string)
    ensures ReadChars(EscapeAll(s) + ("\"" + rest)) == Some(Quoted(s, rest))
  {
    var tail := "\"" + rest;
    if s == "" {
      ReadClosingQuote(rest);
      assert EscapeAll(s) + tail == tail;
    } else {
      var c, s' := s[0], s[1..];
      assert s == [c] + s';
      ReadEscapedAll(s', rest);
      EscapeAllCons(c, s', tail);
      ReadEscapedChar(c, EscapeAll(s') + tail);
    }
  }

  /** Quoting is undone by reading, whatever follows the closing quote. */
  lemma ReadQuote(s: string, rest: string)
    ensures ReadQuoted(Quote(s) + rest) == Some(Quoted(s, rest))
  {
    ReadEscapedAll(s, rest);
    Enclosed(EscapeAll(s), rest);
  }

  lemma Enclosed(t: string, rest: string)
    ensures var q := ("\"" + t + "\"") + rest; q[0] == '"' && q[1..] == t + ("\"" + rest)
  {
  }

  /** A quoted string has no control characters, so it stays on one line. */
  lemma {:induction false} QuoteIsPrintable(s: string)
    ensures forall i :: 0 <= i < |Quote(s)| ==> Quote(s)[i] >= ' '
  {
    EscapeAllIsPrintable(s);
  }

  lemma {:induction false} EscapeAllIsPrintable(s: string)
    ensures forall i :: 0 <= i < |EscapeAll(s)| ==> EscapeAll(s)[i] >= ' '
  {
    if s != "" {
      EscapeAllIsPrintable(s[1..]);
      assert forall i :: 0 <= i < |EscapeChar(s[0])| ==> EscapeChar(s[0])[i] >= ' ';
    }
  }
}
