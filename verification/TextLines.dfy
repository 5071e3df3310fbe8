/** Decimal numerals and the splitting and joining of text lines. */
module TextLines {
  import opened Options

  // ----- decimal numerals: Python's str(int) -----

  function DigitChar(d: nat): char
    requires d < 10
  {
    '0' + d as char
  }

  predicate IsDigit(c: char) { '0' <= c <= '9' }

  function NatText(n: nat): (t: string)
    ensures t != [] && forall i :: 0 <= i < |t| ==> IsDigit(t[i])
  {
    if n < 10 then [DigitChar(n)] else NatText(n / 10) + [DigitChar(n % 10)]
  }

  function IntText(n: int): string {
    if n < 0 then "-" + NatText(-n) else NatText(n)
  }

  function ReadNat(t: string): Option<nat> {
    if t == "" || !IsDigit(t[|t| - 1]) then None
    else
      var low := (t[|t| - 1] as int) - ('0' as int);
      if |t| == 1 then Some(low)
      else
        var high :- ReadNat(t[..|t| - 1]);
        Some(10 * high + low)
  }

  function ReadInt(t: string): Option<int> {
    if t != "" && t[0] == '-' then
      match ReadNat(t[1..])
      case None => None
      case Some(n) => Some(-(n as int))
    else ReadNat(t)
  }

  lemma {:induction false} ReadNatText(n: nat)
    ensures ReadNat(NatText(n)) == Some(n)
  {
    if n >= 10 {
      ReadNatText(n / 10);
      var t := NatText(n);
      assert t[..|t| - 1] == NatText(n / 10);
    }
  }

  lemma ReadMinus(t: string)
    ensures ReadInt("-" + t) == match ReadNat(t) case None => None case Some(n) => Some(-(n as int))
  {
    assert ("-" + t)[1..] == t;
  }

  lemma ReadIntText(n: int)
    ensures ReadInt(IntText(n)) == Some(n)
  {
    if n < 0 {
      ReadNatText(-n);
      ReadMinus(NatText(-n));
    } else {
      ReadNatText(n);
    }
  }

  // ----- lines -----

  /** `"\n".join(lines)` */
  function JoinLines(lines: seq<string>): string {
    if lines == [] then ""
    else if |lines| == 1 then lines[0]
    else lines[0] + "\n" + JoinLines(lines[1..])
  }

  /** The line boundaries of Python's `str.splitlines` */
  const PY_BREAKS: set<char> :=
    {'\n', '\r', 11 as char, 12 as char, 28 as char, 29 as char, 30 as char, 133 as char, 0x2028 as char,
      0x2029 as char}

  predicate OneLine(t: string, breaks: set<char>) {
    forall i :: 0 <= i < |t| ==> t[i] !in breaks
  }

  function LineEnd(t: string, breaks: set<char>): (i: nat)
    ensures i <= |t| && OneLine(t[..i], breaks)
    ensures i < |t| ==> t[i] in breaks
  {
    if t == "" || t[0] in breaks then 0
    else
      var i := 1 + LineEnd(t[1..], breaks);
      assert t[..i] == [t[0]] + t[1..][..i - 1];
      i
  }

  /** `t.splitlines()` for the given line boundaries; `\r\n` is one boundary. */
  function SplitLines(t: string, breaks: set<char>): seq<string>
    decreases |t|
  {
    if t == "" then []
    else
      var i := LineEnd(t, breaks);
      if i == |t| then [t]
      else if t[i] == '\r' && i + 1 < |t| && t[i + 1] == '\n' then [t[..i]] + SplitLines(t[i + 2..], breaks)
      else [t[..i]] + SplitLines(t[i + 1..], breaks)
  }

  lemma {:induction false} LineEndOf(line: string, breaks: set<char>, rest: string)
    requires OneLine(line, breaks)
    requires rest != "" && rest[0] in breaks
    ensures LineEnd(line + rest, breaks) == |line|
  {
    if line == "" {
      assert line + rest == rest;
    } else {
      assert (line + rest)[1..] == line[1..] + rest;
      LineEndOf(line[1..], breaks, rest);
    }
  }

  lemma SplitFirst(line: string, rest: string, breaks: set<char>)
    requires OneLine(line, breaks) && '\n' in breaks
    ensures SplitLines(line + ("\n" + rest), breaks) == [line] + SplitLines(rest, breaks)
  {
    var t := line + ("\n" + rest);
    LineEndOf(line, breaks, "\n" + rest);
    assert t[..|line|] == line && t[|line| + 1..] == rest;
  }

  lemma JoinFirst(lines: seq<string>)
    requires lines != []
    ensures JoinLines(lines) + "\n" == lines[0] + ("\n" + if |lines| == 1 then "" else JoinLines(lines[1..]) + "\n")
  {
  }

  /** Splitting undoes joining: one-line texts come back as they were written. */
  lemma {:induction false} SplitJoin(lines: seq<string>, breaks: set<char>)
    requires lines != [] && '\n' in breaks
    requires forall i :: 0 <= i < |lines| ==> OneLine(lines[i], breaks)
    ensures SplitLines(JoinLines(lines) + "\n", breaks) == lines
  {
    JoinFirst(lines);
    assert lines == [lines[0]] + lines[1..];
    if |lines| == 1 {
      SplitFirst(lines[0], "", breaks);
    } else {
      SplitFirst(lines[0], JoinLines(lines[1..]) + "\n", breaks);
      SplitJoin(lines[1..], breaks);
    }
  }

  lemma {:induction false} SplitIsOneLine(t: string, breaks: set<char>)
    ensures forall i :: 0 <= i < |SplitLines(t, breaks)| ==> OneLine(SplitLines(t, breaks)[i], breaks)
    decreases |t|
  {
    if t != "" {
      var i := LineEnd(t, breaks);
      if i == |t| {
        assert t[..i] == t;
      } else if t[i] == '\r' && i + 1 < |t| && t[i + 1] == '\n' {
        SplitIsOneLine(t[i + 2..], breaks);
      } else {
        SplitIsOneLine(t[i + 1..], breaks);
      }
    }
  }

  lemma {:induction false} NoLineEnd(line: string)
    requires OneLine(line, PY_BREAKS)
    ensures LineEnd(line, PY_BREAKS) == |line|
  {
    if line != "" {
      NoLineEnd(line[1..]);
    }
  }

  /** How a text is split, whatever it is: a text without boundaries is one line, and
      none if it is empty; the first boundary ends a line, `\r\n` as a single one. */
  lemma SplitLinesCuts(line: string, c: char, rest: string)
    requires OneLine(line, PY_BREAKS)
    ensures SplitLines(line, PY_BREAKS) == if line == "" then [] else [line]
    ensures IsBoundary(c) && !(c == '\r' && rest != "" && rest[0] == '\n') ==>
              SplitLines(line + ([c] + rest), PY_BREAKS) == [line] + SplitLines(rest, PY_BREAKS)
    ensures SplitLines(line + ("\r\n" + rest), PY_BREAKS) == [line] + SplitLines(rest, PY_BREAKS)
  {
    NoLineEnd(line);
    assert line[..|line|] == line;
    BoundaryIs(c);
    if IsBoundary(c) && !(c == '\r' && rest != "" && rest[0] == '\n') {
      SplitAtOne(line, c, rest);
    }
    SplitAtPair(line, rest);
  }

  lemma SplitAtOne(line: string, c: char, rest: string)
    requires OneLine(line, PY_BREAKS) && c in PY_BREAKS && !(c == '\r' && rest != "" && rest[0] == '\n')
    ensures SplitLines(line + ([c] + rest), PY_BREAKS) == [line] + SplitLines(rest, PY_BREAKS)
  {
    var t, n := line + ([c] + rest), |line|;
    LineEndOf(line, PY_BREAKS, [c] + rest);
    assert t[..n] == line && t[n] == c && t[n + 1..] == rest;
    assert n + 1 < |t| ==> t[n + 1] == rest[0];
  }

  lemma SplitAtPair(line: string, rest: string)
    requires OneLine(line, PY_BREAKS)
    ensures SplitLines(line + ("\r\n" + rest), PY_BREAKS) == [line] + SplitLines(rest, PY_BREAKS)
  {
    var t, n := line + ("\r\n" + rest), |line|;
    LineEndOf(line, PY_BREAKS, "\r\n" + rest);
    assert t[..n] == line && t[n] == '\r' && t[n + 1] == '\n' && t[n + 2..] == rest;
  }

  /** Line feed, vertical tab, form feed, carriage return, the three information
      separators above the unit separator, next line, and the two Unicode separators */
  predicate IsBoundary(c: char) {
    var n := c as int;
    10 <= n <= 13 || 28 <= n <= 30 || n == 0x85 || n == 0x2028 || n == 0x2029
  }

  lemma BoundaryIs(c: char)
    ensures c in PY_BREAKS <==> IsBoundary(c)
  {
  }

  // ----- fields -----

  /** `text.split(separator)` for a single character */
  function Split(t: string, separator: char): (fields: seq<string>)
    ensures fields != []
  {
    if t == "" then [""]
    else
      var fields := Split(t[1..], separator);
      if t[0] == separator then [""] + fields else [[t[0]] + fields[0]] + fields[1..]
  }

  /** `separator.join(fields)` */
  function Join(fields: seq<string>, separator: char): string {
    if fields == [] then ""
    else if |fields| == 1 then fields[0] else fields[0] + [separator] + Join(fields[1..], separator)
  }

  ghost predicate AreFields(t: string, separator: char, fields: seq<string>) {
    fields != [] && Join(fields, separator) == t && forall f | f in fields :: separator !in f
  }

  lemma JoinCons(field: string, fields: seq<string>, separator: char)
    requires fields != []
    ensures Join([field] + fields, separator) == field + [separator] + Join(fields, separator)
  {
    assert ([field] + fields)[1..] == fields;
  }

  lemma JoinLonger(c: char, fields: seq<string>, separator: char)
    requires fields != []
    ensures Join([[c] + fields[0]] + fields[1..], separator) == [c] + Join(fields, separator)
  {
    var longer := [[c] + fields[0]] + fields[1..];
    assert longer[1..] == fields[1..];
  }

  lemma {:induction false} SplitGivesBack(t: string, separator: char)
    ensures AreFields(t, separator, Split(t, separator))
  {
    if t != "" {
      var rest := Split(t[1..], separator);
      SplitGivesBack(t[1..], separator);
      JoinCons("", rest, separator);
      JoinLonger(t[0], rest, separator);
    }
  }

  lemma {:induction false} SplitUndoesJoin(fields: seq<string>, separator: char)
    requires fields != [] && forall f | f in fields :: separator !in f
    ensures Split(Join(fields, separator), separator) == fields
  {
    if |fields| == 1 {
      FirstField(fields[0], separator, "");
    } else {
      var rest := fields[1..];
      SplitUndoesJoin(rest, separator);
      FirstField(fields[0], separator, Join(rest, separator));
      assert [fields[0]] + rest == fields;
    }
  }

  lemma {:induction false} FirstField(f: string, separator: char, rest: string)
    requires separator !in f
    ensures Split(f, separator) == [f]
    ensures Split(f + [separator] + rest, separator) == [f] + Split(rest, separator)
  {
    var t := f + [separator] + rest;
    if f == "" {
      assert t == [separator] + rest && t[1..] == rest;
    } else {
      FirstField(f[1..], separator, rest);
      assert t[1..] == f[1..] + [separator] + rest;
      assert [f[0]] + f[1..] == f;
    }
  }

  /** The fields of a text are the texts without separators that join to it. */
  lemma SplitIs(t: string, separator: char, fields: seq<string>)
    ensures fields == Split(t, separator) <==> AreFields(t, separator, fields)
  {
    SplitGivesBack(t, separator);
    if AreFields(t, separator, fields) {
      SplitUndoesJoin(fields, separator);
    }
  }
}
