/** The exact text that the block-YAML printer of `scripts/generate_openapi.py`
    writes: how lines are indented, and how strings and numbers are spelled. */
module YamlLayout {
  import opened Options
  import opened Sequences
  import opened Hexadecimal
  import opened Json
  import opened TextLines
  import opened YamlPrinter

  // ----- indentation -----

  /** The lines with `n` spaces before each */
  function Shifted(lines: seq<string>, n: nat): (r: seq<string>)
    ensures |r| == |lines|
    ensures forall i :: 0 <= i < |lines| ==> r[i] == Spaces(n) + lines[i]
  {
    seq(|lines|, i requires 0 <= i < |lines| => Spaces(n) + lines[i])
  }

  lemma SpacesAdd(n: nat, k: nat, t: string)
    ensures Spaces(n + k) + t == Spaces(k) + (Spaces(n) + t)
  {
    assert Spaces(n + k) == Spaces(k) + Spaces(n);
  }

  lemma ShiftedConcat(a: seq<string>, b: seq<string>, n: nat)
    ensures Shifted(a + b, n) == Shifted(a, n) + Shifted(b, n)
  {
  }

  lemma ShiftedTwice(lines: seq<string>, n: nat, k: nat)
    ensures Shifted(Shifted(lines, n), k) == Shifted(lines, n + k)
  {
    forall i | 0 <= i < |lines| ensures Shifted(Shifted(lines, n), k)[i] == Shifted(lines, n + k)[i] {
      SpacesAdd(n, k, lines[i]);
    }
  }

  /** Deeper indentation puts spaces before the same lines. */
  lemma {:induction false} LinesShift(v: Json, n: nat, k: nat)
    ensures YamlLines(v, n + k) == Shifted(YamlLines(v, n), k)
    decreases v, 0
  {
    match v
    case Obj(members) =>
      if members != [] {
        EntriesShift(members, n, k);
      } else {
        SpacesAdd(n, k, Inline(v));
      }
    case Arr(items) =>
      if items != [] {
        ItemsShift(items, n, k);
      } else {
        SpacesAdd(n, k, Inline(v));
      }
    case _ => SpacesAdd(n, k, Inline(v));
  }

  lemma {:induction false} EntriesShift(members: seq<Member>, n: nat, k: nat)
    ensures EntryLines(members, n + k) == Shifted(EntryLines(members, n), k)
    decreases members
  {
    if members != [] {
      EntryShift(members[0], n, k);
      EntriesShift(members[1..], n, k);
      ShiftedConcat(EntryBlock(members[0], n), EntryLines(members[1..], n), k);
    }
  }

  lemma EntryShift(m: Member, n: nat, k: nat)
    ensures EntryBlock(m, n + k) == Shifted(EntryBlock(m, n), k)
    decreases m
  {
    var tail := Quote(m.key) + EntryTail(m.value);
    SpacesAdd(n, k, tail);
    LinesShift(m.value, n + 2, k);
    ShiftedConcat([Spaces(n) + tail], if Nested(m.value) then YamlLines(m.value, n + 2) else [], k);
  }

  lemma {:induction false} ItemsShift(items: seq<Json>, n: nat, k: nat)
    ensures ItemLines(items, n + k) == Shifted(ItemLines(items, n), k)
    decreases items
  {
    if items != [] {
      ItemShift(items[0], n, k);
      ItemsShift(items[1..], n, k);
      ShiftedConcat(ItemBlock(items[0], n), ItemLines(items[1..], n), k);
    }
  }

  lemma ItemShift(item: Json, n: nat, k: nat)
    ensures ItemBlock(item, n + k) == Shifted(ItemBlock(item, n), k)
    decreases item, 1
  {
    var tail := "-" + ItemTail(item);
    SpacesAdd(n, k, tail);
    LinesShift(item, n + 2, k);
    ShiftedConcat([Spaces(n) + tail], if Nested(item) then YamlLines(item, n + 2) else [], k);
  }

  /** An entry is its quoted key and a colon, with the value after a space, or, where the
      value has entries or items of its own, below it and two spaces further in. */
  lemma EntryLayout(m: Member, rest: seq<Member>)
    ensures YamlLines(Obj([m] + rest), 0) ==
            (if Nested(m.value) then [Quote(m.key) + ":"] + Shifted(YamlLines(m.value, 0), 2)
             else [Quote(m.key) + ": " + Inline(m.value)])
            + if rest == [] then [] else YamlLines(Obj(rest), 0)
  {
    var all := [m] + rest;
    assert all[1..] == rest && all[0] == m;
    EntryBlockIs(m);
    assert YamlLines(Obj(all), 0) == EntryLines(all, 0) == EntryBlock(m, 0) + EntryLines(rest, 0);
  }

  lemma EntryBlockIs(m: Member)
    ensures EntryBlock(m, 0) ==
            if Nested(m.value) then [Quote(m.key) + ":"] + Shifted(YamlLines(m.value, 0), 2)
            else [Quote(m.key) + ": " + Inline(m.value)]
  {
    LinesShift(m.value, 0, 2);
    assert Spaces(0) + (Quote(m.key) + EntryTail(m.value)) == Quote(m.key) + EntryTail(m.value);
    if !Nested(m.value) {
      assert Quote(m.key) + (": " + Inline(m.value)) == Quote(m.key) + ": " + Inline(m.value);
    }
  }

  /** An item is a dash, with the value after a space or below it, two spaces further in. */
  lemma ItemLayout(item: Json, rest: seq<Json>)
    ensures YamlLines(Arr([item] + rest), 0) ==
            (if Nested(item) then ["-"] + Shifted(YamlLines(item, 0), 2) else ["- " + Inline(item)])
            + if rest == [] then [] else YamlLines(Arr(rest), 0)
  {
    var all := [item] + rest;
    assert all[1..] == rest && all[0] == item;
    ItemBlockIs(item);
    assert YamlLines(Arr(all), 0) == ItemLines(all, 0) == ItemBlock(item, 0) + ItemLines(rest, 0);
  }

  lemma ItemBlockIs(item: Json)
    ensures ItemBlock(item, 0) ==
            if Nested(item) then ["-"] + Shifted(YamlLines(item, 0), 2) else ["- " + Inline(item)]
  {
    LinesShift(item, 0, 2);
    ItemTailIs(item);
    var tail := "-" + ItemTail(item);
    assert Spaces(0) + tail == tail;
  }

  lemma ItemTailIs(item: Json)
    ensures "-" + ItemTail(item) == if Nested(item) then "-" else "- " + Inline(item)
  {
    if !Nested(item) {
      DashAndSpace(Inline(item));
    }
  }

  lemma DashAndSpace(t: string)
    ensures "-" + (" " + t) == "- " + t
  {
  }

  // ----- strings -----

  /** Between quotes the text stands for the one character. */
  ghost predicate Spells(t: string, c: char) {
    ReadChars(t + "\"") == Some(Quoted([c], ""))
  }

  lemma SpellsPlainly(t: string, c: char)
    requires Spells(t, c) && t != "" && t[0] != '\\'
    ensures c == t[0] && EscapeChar(c) == [c]
  {
    var u := t + "\"";
    assert u[0] == t[0];
    var q := ReadChars(u[1..]).value;
    assert [c] == [t[0]] + q.text;
    assert [c][0] == c;
  }

  lemma SpellsByBackslash(t: string, c: char)
    requires Spells(t, c) && t != "" && t[0] == '\\'
    ensures |t| >= 2
  {
    LoneBackslash();
    assert |t| == 1 ==> t == "\\";
  }

  lemma LoneBackslash()
    ensures ReadChars("\\" + "\"") == None
  {
    var u := "\\" + "\"";
    assert u[0] == '\\' && u[1] == '"' && u[2..] == "";
    assert ReadChars(u[2..]) == None;
  }

  lemma NoHexQuote(w: string)
    requires |w| >= 4 && w[3] == '"'
    ensures ReadHex4(w) == None
  {
  }

  lemma SpellsShortly(t: string, c: char)
    requires Spells(t, c) && 2 <= |t| <= 5 && t[0] == '\\'
    ensures |EscapeChar(c)| <= 2
  {
    var u := t + "\"";
    if |t| == 5 {
      NoHexQuote(u[2..]);
    }
    var q := ReadChars(u[2..]);
    assert ReadEscape(u[1]).Some? && q.Some? && [c] == [ReadEscape(u[1]).value] + q.value.text;
    assert [c][0] == c;
  }

  lemma SpellsSomething(t: string, c: char)
    requires Spells(t, c)
    ensures t != ""
  {
    ReadClosingQuote("");
    assert "" + "\"" == "\"" + "";
  }

  /** Of all texts that stand for a character between quotes, the printer takes the
      shortest one, with small hexadecimal digits. */
  lemma EscapeIsShortest(c: char, t: string)
    requires Spells(t, c)
    ensures |t| >= |EscapeChar(c)|
    ensures EscapeChar(c) == [c] || forall x | x in EscapeChar(c) :: !('A' <= x <= 'F')
  {
    SpellsSomething(t, c);
    if t[0] != '\\' {
      SpellsPlainly(t, c);
    } else {
      SpellsByBackslash(t, c);
      if |t| <= 5 {
        SpellsShortly(t, c);
      }
      EscapeHasAtMostSix(c);
    }
    EscapeHasSmallDigits(c);
  }

  lemma EscapeHasAtMostSix(c: char)
    ensures |EscapeChar(c)| <= 6
  {
  }

  lemma EscapeHasSmallDigits(c: char)
    ensures EscapeChar(c) == [c] || forall x | x in EscapeChar(c) :: !('A' <= x <= 'F')
  {
    assert forall d | 0 <= d < 16 :: !('A' <= LowerDigit(d) <= 'F');
  }

  /** The reader takes every four-digit escape for the character with that code, and an
      escaped slash for a slash, as RFC 8259 section 7 says. */
  lemma CodesAreRead(c: char)
    requires c as int < 0x1_0000
    ensures Spells("\\u" + FourDigits(c as int), c) && Spells("\\/", '/')
  {
    var digits := FourDigits(c as int);
    FourDigitsAreRead(c, "\"");
    ReadClosingQuote("");
    assert "\"" + "" == "\"";
    var t := "\\u" + digits + "\"";
    assert t[2..] == digits + "\"" && t[6..] == "\"";
    assert t[0] == '\\' && t[1] == 'u' && [c] + "" == [c];
    ReadEscapedPair('/', '/', "\"");
    assert ['\\', '/'] + "\"" == "\\/" + "\"" && ['/'] + "" == "/";
  }

  function FourDigits(n: nat): (digits: string)
    requires n < 0x1_0000
    ensures |digits| == 4
  {
    [LowerDigit(n / 4096), LowerDigit(n / 256 % 16), LowerDigit(n / 16 % 16), LowerDigit(n % 16)]
  }

  lemma FourDigitsAreRead(c: char, rest: string)
    requires c as int < 0x1_0000
    ensures ReadHex4(FourDigits(c as int) + rest) == Some(c)
  {
    var n := c as int;
    HexRoundTrip(n / 4096);
    HexRoundTrip(n / 256 % 16);
    HexRoundTrip(n / 16 % 16);
    HexRoundTrip(n % 16);
    DigitsOfCode(n);
  }

  lemma DigitsOfCode(n: nat)
    requires n < 0x1_0000
    ensures ((n / 4096 * 16 + n / 256 % 16) * 16 + n / 16 % 16) * 16 + n % 16 == n
  {
    var a := n / 16;
    var b := a / 16;
    assert n / 256 == b && n / 4096 == b / 16;
    assert n == 16 * a + n % 16 && a == 16 * b + a % 16 && b == 16 * (b / 16) + b % 16;
  }

  // ----- numbers -----

  /** A numeral of several digits does not begin with zero. */
  lemma {:induction false} NumeralIsPlain(n: nat)
    ensures |NatText(n)| > 1 ==> NatText(n)[0] != '0'
    ensures n > 0 ==> NatText(n)[0] != '0'
  {
    if n >= 10 {
      NumeralIsPlain(n / 10);
      assert NatText(n)[0] == NatText(n / 10)[0];
    }
  }

  // ----- floats -----

  ghost predicate AreDigits(t: string) {
    t != "" && forall i :: 0 <= i < |t| ==> '0' <= t[i] <= '9'
  }

  /** What Python prints for floats is among the texts assumed of them: decimals,
      exponents after a number with or without a point, infinities and not a number. */
  lemma FloatTextsAre(sign: string, whole: string, part: string, power: string)
    requires (sign == "" || sign == "-") && AreDigits(whole) && AreDigits(part) && AreDigits(power)
    ensures FloatText(sign + whole + "." + part)
    ensures forall n, e | n in {sign + whole, sign + whole + "." + part} && e in {"e-", "e+"} ::
              FloatText(n + e + power)
    ensures FloatText(sign + "inf") && FloatText("nan")
  {
    DigitsAreChars(whole);
    DigitsAreChars(part);
    DigitsAreChars(power);
    assert "."[0] == '.' && "e-"[0] == 'e' && "e+"[0] == 'e' && "inf"[1] == 'n' && "nan"[0] == 'n';
    MarkedText(sign + whole, ".", part);
    forall n, e | n in {sign + whole, sign + whole + "." + part} && e in {"e-", "e+"}
      ensures FloatText(n + e + power)
    {
      MarkedText(n, e, power);
    }
    assert sign + "inf" + "" == sign + "inf" && "" + "nan" + "" == "nan";
    MarkedText(sign, "inf", "");
    MarkedText("", "nan", "");
  }

  ghost predicate AllChars(t: string) {
    forall i :: 0 <= i < |t| ==> FloatChar(t[i])
  }

  lemma DigitsAreChars(t: string)
    requires AreDigits(t)
    ensures AllChars(t)
  {
  }

  lemma MarkedText(front: string, mark: string, rest: string)
    requires AllChars(front) && AllChars(mark) && AllChars(rest)
    requires exists i :: 0 <= i < |mark| && FloatMark(mark[i])
    ensures FloatText(front + mark + rest)
  {
    var i :| 0 <= i < |mark| && FloatMark(mark[i]);
    assert FloatMark((front + mark + rest)[|front| + i]);
  }

  /** The float stands somewhere in the value. */
  ghost predicate IsFloatIn(v: Json, text: string) {
    match v
    case Float(t) => t == text
    case Arr(items) => exists x :: x in items && IsFloatIn(x, text)
    case Obj(members) => exists m :: m in members && IsFloatIn(m.value, text)
    case _ => false
  }

  /** Nothing but the texts of its floats is assumed of a value. */
  lemma {:induction false} FloatsPrintedIs(v: Json)
    ensures FloatsPrinted(v) <==> forall text | IsFloatIn(v, text) :: FloatText(text)
  {
    match v
    case Arr(items) =>
      forall x | x in items ensures FloatsPrinted(x) <==> forall text | IsFloatIn(x, text) :: FloatText(text) {
        FloatsPrintedIs(x);
      }
    case Obj(members) =>
      forall m | m in members
        ensures FloatsPrinted(m.value) <==> forall text | IsFloatIn(m.value, text) :: FloatText(text)
      {
        FloatsPrintedIs(m.value);
      }
    case _ =>
  }
}
