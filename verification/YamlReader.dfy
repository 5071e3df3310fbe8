/** A reader for the block-YAML subset the printer emits (YAML 1.2.2 sections
    8.2 and 7.3.1), and the proof that reading undoes printing. A nested block's
    indentation is taken from its first line and must exceed its parent's. */
module YamlReader {
  import opened Options
  import opened Sequences
  import opened Json
  import opened TextLines
  import opened YamlPrinter

  function Indent(line: string): (n: nat)
    ensures n <= |line|
  {
    if line == "" || line[0] != ' ' then 0 else 1 + Indent(line[1..])
  }

  function ReadPlain(t: string): Option<Json> {
    if t == "null" then Some(Null)
    else if t == "true" then Some(Bool(true))
    else if t == "false" then Some(Bool(false))
    else if FloatText(t) then Some(Float(t))
    else
      match ReadInt(t)
      case None => None
      case Some(n) => Some(Int(n))
  }

  function ReadInline(t: string): Option<Json> {
    if t == "{}" then Some(Obj([]))
    else if t == "[]" then Some(Arr([]))
    else if t != "" && t[0] == '"' then
      var q :- ReadQuoted(t);
      if q.rest == "" then Some(Str(q.text)) else None
    else ReadPlain(t)
  }

  predicate IsDash(body: string) {
    body == "-" || (|body| >= 2 && body[..2] == "- ")
  }

  predicate IsKey(body: string) {
    var q := ReadQuoted(body);
    q.Some? && q.value.rest != "" && q.value.rest[0] == ':'
  }

  datatype Read<+T> = Read(value: T, rest: seq<string>)

  /** The block that starts on the first line, indented by exactly `n`. */
  function ReadBlock(lines: seq<string>, n: nat): (r: Option<Read<Json>>)
    ensures r.Some? ==> |r.value.rest| < |lines|
    decreases |lines|, 1
  {
    if lines == [] || Indent(lines[0]) != n then None
    else
      var body := lines[0][n..];
      if IsDash(body) then
        var r :- ReadItems(lines, n);
        if |r.rest| < |lines| then Some(Read(Arr(r.value), r.rest)) else None
      else if IsKey(body) then
        var r :- ReadEntries(lines, n);
        if |r.rest| < |lines| then Some(Read(Obj(r.value), r.rest)) else None
      else
        var v :- ReadInline(body);
        Some(Read(v, lines[1..]))
  }

  /** A block nested under a line indented by `n`. */
  function ReadNested(lines: seq<string>, n: nat): (r: Option<Read<Json>>)
    ensures r.Some? ==> |r.value.rest| < |lines|
    decreases |lines|, 2
  {
    if lines == [] || Indent(lines[0]) <= n then None else ReadBlock(lines, Indent(lines[0]))
  }

  function ReadItems(lines: seq<string>, n: nat): (r: Option<Read<seq<Json>>>)
    ensures r.Some? ==> |r.value.rest| <= |lines|
    decreases |lines|, 0
  {
    if lines == [] || Indent(lines[0]) < n then Some(Read([], lines))
    else
      var body := lines[0][n..];
      if Indent(lines[0]) > n || !IsDash(body) then None
      else if body == "-" then
        var v :- ReadNested(lines[1..], n);
        var r :- ReadItems(v.rest, n);
        Some(Read([v.value] + r.value, r.rest))
      else
        var v :- ReadInline(body[2..]);
        var r :- ReadItems(lines[1..], n);
        Some(Read([v] + r.value, r.rest))
  }

  function ReadEntries(lines: seq<string>, n: nat): (r: Option<Read<seq<Member>>>)
    ensures r.Some? ==> |r.value.rest| <= |lines|
    decreases |lines|, 0
  {
    if lines == [] || Indent(lines[0]) < n then Some(Read([], lines))
    else
      var body := lines[0][n..];
      if Indent(lines[0]) > n || !IsKey(body) then None
      else
        var q := ReadQuoted(body).value;
        if q.rest == ":" then
          var v :- ReadNested(lines[1..], n);
          var r :- ReadEntries(v.rest, n);
          Some(Read([Member(q.text, v.value)] + r.value, r.rest))
        else if q.rest[1] != ' ' then None
        else
          var v :- ReadInline(q.rest[2..]);
          var r :- ReadEntries(lines[1..], n);
          Some(Read([Member(q.text, v)] + r.value, r.rest))
  }

  /** The line boundaries of YAML 1.2.2 section 5.4 */
  const YAML_BREAKS: set<char> := {'\n', '\r'}

  function ReadYaml(text: string): Option<Json> {
    var r :- ReadBlock(SplitLines(text, YAML_BREAKS), 0);
    if r.rest == [] then Some(r.value) else None
  }

  // ----- the whole text -----

  /** Printing is invertible: the reader recovers every value from its text. */
  lemma DumpRoundTrip(v: Json)
    requires FloatsPrinted(v)
    ensures ReadYaml(DumpYaml(v)) == Some(v)
  {
    var lines := YamlLines(v, 0);
    LinesAreLines(v, 0);
    SplitJoin(lines, YAML_BREAKS);
    BlockRoundTrip(v, 0, []);
    assert lines + [] == lines;
  }

  /** Two values are never printed the same way. */
  lemma DumpIsInjective(v: Json, w: Json)
    requires FloatsPrinted(v) && FloatsPrinted(w)
    ensures DumpYaml(v) == DumpYaml(w) ==> v == w
  {
    DumpRoundTrip(v);
    DumpRoundTrip(w);
  }

  // ----- blocks -----

  ghost predicate Outside(rest: seq<string>, n: nat) {
    rest == [] || Indent(rest[0]) < n
  }

  ghost predicate StartsAt(lines: seq<string>, n: nat) {
    lines != [] && Indent(lines[0]) == n
  }

  /** Reading a printed block gives the value back and stops before any
      shallower line that follows. */
  lemma {:induction false} BlockRoundTrip(v: Json, n: nat, rest: seq<string>)
    requires FloatsPrinted(v) && Outside(rest, n)
    ensures ReadBlock(YamlLines(v, n) + rest, n) == Some(Read(v, rest))
    decreases v, 0
  {
    var lines := YamlLines(v, n) + rest;
    PrintedStart(v, n);
    assert lines[0] == YamlLines(v, n)[0];
    if v.Obj? && v.members != [] {
      EntriesStart(v.members, n);
      EntriesRoundTrip(v.members, n, rest);
    } else if v.Arr? && v.items != [] {
      ItemsStart(v.items, n);
      ItemsRoundTrip(v.items, n, rest);
    } else {
      ReadLeaf(v, n, rest);
    }
  }

  lemma NestedRoundTrip(v: Json, n: nat, rest: seq<string>)
    requires FloatsPrinted(v) && Outside(rest, n + 2)
    ensures ReadNested(YamlLines(v, n + 2) + rest, n) == Some(Read(v, rest))
    decreases v, 1
  {
    BlockRoundTrip(v, n + 2, rest);
    PrintedStart(v, n + 2);
    assert (YamlLines(v, n + 2) + rest)[0] == YamlLines(v, n + 2)[0];
  }

  lemma {:induction false} EntriesRoundTrip(members: seq<Member>, n: nat, rest: seq<string>)
    requires forall m | m in members :: FloatsPrinted(m.value)
    requires Outside(rest, n)
    ensures ReadEntries(EntryLines(members, n) + rest, n) == Some(Read(members, rest))
    decreases members
  {
    EntryGlue(members, n, rest);
    if members != [] {
      EntriesRoundTrip(members[1..], n, rest);
      EntriesOutside(members[1..], n, rest);
      EntryStep(members[0], n, EntryLines(members[1..], n) + rest);
    }
  }

  lemma {:induction false} ItemsRoundTrip(items: seq<Json>, n: nat, rest: seq<string>)
    requires forall x | x in items :: FloatsPrinted(x)
    requires Outside(rest, n)
    ensures ReadItems(ItemLines(items, n) + rest, n) == Some(Read(items, rest))
    decreases items
  {
    ItemGlue(items, n, rest);
    if items != [] {
      ItemsRoundTrip(items[1..], n, rest);
      ItemsOutside(items[1..], n, rest);
      ItemStep(items[0], n, ItemLines(items[1..], n) + rest);
    }
  }

  function Prepend<T>(x: T, r: Option<Read<seq<T>>>): Option<Read<seq<T>>> {
    if r.None? then None else Some(Read([x] + r.value.value, r.value.rest))
  }

  lemma EntryStep(m: Member, n: nat, after: seq<string>)
    requires FloatsPrinted(m.value) && Outside(after, n + 2)
    ensures ReadEntries(EntryBlock(m, n) + after, n) == Prepend(m, ReadEntries(after, n))
    decreases m
  {
    EntryFirst(m, n);
    if Nested(m.value) {
      NestedRoundTrip(m.value, n, after);
      ReadNestedEntry(m, n, after);
    } else {
      ReadInlineEntry(m, n, after);
    }
  }

  lemma ItemStep(item: Json, n: nat, after: seq<string>)
    requires FloatsPrinted(item) && Outside(after, n + 2)
    ensures ReadItems(ItemBlock(item, n) + after, n) == Prepend(item, ReadItems(after, n))
    decreases item, 2
  {
    ItemFirst(item, n);
    if Nested(item) {
      NestedRoundTrip(item, n, after);
      ReadNestedItem(item, n, after);
    } else {
      ReadInlineItem(item, n, after);
    }
  }

  lemma ReadLeaf(v: Json, n: nat, rest: seq<string>)
    requires !Nested(v) && FloatsPrinted(v)
    ensures ReadBlock([Spaces(n) + Inline(v)] + rest, n) == Some(Read(v, rest))
  {
    InlineIsLeaf(v);
    IndentOf(n, Inline(v));
    InlineRoundTrip(v);
    ConsSplit(Spaces(n) + Inline(v), [], rest);
  }

  lemma ReadNestedEntry(m: Member, n: nat, after: seq<string>)
    requires Nested(m.value) && ReadNested(YamlLines(m.value, n + 2) + after, n) == Some(Read(m.value, after))
    requires var line := EntryBlock(m, n)[0];
             Indent(line) == n && IsKey(line[n..]) && ReadQuoted(line[n..]) == Some(Quoted(m.key, EntryTail(m.value)))
    ensures ReadEntries(EntryBlock(m, n) + after, n) == Prepend(m, ReadEntries(after, n))
  {
    ConsSplit(EntryBlock(m, n)[0], YamlLines(m.value, n + 2), after);
  }

  lemma ReadInlineEntry(m: Member, n: nat, after: seq<string>)
    requires !Nested(m.value) && FloatsPrinted(m.value)
    requires var line := EntryBlock(m, n)[0];
             Indent(line) == n && IsKey(line[n..]) && ReadQuoted(line[n..]) == Some(Quoted(m.key, EntryTail(m.value)))
    ensures ReadEntries(EntryBlock(m, n) + after, n) == Prepend(m, ReadEntries(after, n))
  {
    InlineRoundTrip(m.value);
    assert EntryTail(m.value)[2..] == Inline(m.value);
    ConsSplit(EntryBlock(m, n)[0], [], after);
  }

  lemma ReadNestedItem(item: Json, n: nat, after: seq<string>)
    requires Nested(item) && ReadNested(YamlLines(item, n + 2) + after, n) == Some(Read(item, after))
    requires var line := ItemBlock(item, n)[0]; Indent(line) == n && line[n..] == "-" && IsDash(line[n..])
    ensures ReadItems(ItemBlock(item, n) + after, n) == Prepend(item, ReadItems(after, n))
  {
    ConsSplit(ItemBlock(item, n)[0], YamlLines(item, n + 2), after);
  }

  lemma ReadInlineItem(item: Json, n: nat, after: seq<string>)
    requires !Nested(item) && FloatsPrinted(item)
    requires var line := ItemBlock(item, n)[0];
             Indent(line) == n && line[n..] == "-" + ItemTail(item) && IsDash(line[n..])
    ensures ReadItems(ItemBlock(item, n) + after, n) == Prepend(item, ReadItems(after, n))
  {
    InlineRoundTrip(item);
    DashBody(Inline(item));
    ConsSplit(ItemBlock(item, n)[0], [], after);
  }

  lemma EntriesOutside(members: seq<Member>, n: nat, rest: seq<string>)
    requires Outside(rest, n)
    ensures Outside(EntryLines(members, n) + rest, n + 2)
  {
    if members != [] {
      EntriesStart(members, n);
      assert (EntryLines(members, n) + rest)[0] == EntryLines(members, n)[0];
    } else {
      assert EntryLines(members, n) + rest == rest;
    }
  }

  lemma ItemsOutside(items: seq<Json>, n: nat, rest: seq<string>)
    requires Outside(rest, n)
    ensures Outside(ItemLines(items, n) + rest, n + 2)
  {
    if items != [] {
      ItemsStart(items, n);
      assert (ItemLines(items, n) + rest)[0] == ItemLines(items, n)[0];
    } else {
      assert ItemLines(items, n) + rest == rest;
    }
  }

  lemma EntriesStart(members: seq<Member>, n: nat)
    requires members != []
    ensures StartsAt(EntryLines(members, n), n)
    ensures var body := EntryLines(members, n)[0][n..]; IsKey(body) && !IsDash(body)
  {
    EntryFirst(members[0], n);
    assert EntryLines(members, n)[0] == EntryBlock(members[0], n)[0];
  }

  lemma ItemsStart(items: seq<Json>, n: nat)
    requires items != []
    ensures StartsAt(ItemLines(items, n), n)
    ensures IsDash(ItemLines(items, n)[0][n..])
  {
    ItemFirst(items[0], n);
    assert ItemLines(items, n)[0] == ItemBlock(items[0], n)[0];
  }

  lemma PrintedStart(v: Json, n: nat)
    requires FloatsPrinted(v)
    ensures StartsAt(YamlLines(v, n), n)
  {
    if v.Obj? && v.members != [] {
      EntriesStart(v.members, n);
    } else if v.Arr? && v.items != [] {
      ItemsStart(v.items, n);
    } else {
      InlineIsLeaf(v);
      IndentOf(n, Inline(v));
    }
  }

  lemma EntryFirst(m: Member, n: nat)
    ensures var line := EntryBlock(m, n)[0];
            && Indent(line) == n && IsKey(line[n..]) && !IsDash(line[n..])
            && ReadQuoted(line[n..]) == Some(Quoted(m.key, EntryTail(m.value)))
  {
    EntryHead(m.key, n, EntryTail(m.value));
  }

  lemma ItemFirst(item: Json, n: nat)
    ensures var line := ItemBlock(item, n)[0];
            Indent(line) == n && line[n..] == "-" + ItemTail(item) && IsDash(line[n..])
  {
    var tail := ItemTail(item);
    assert tail == "" || tail[0] == ' ';
    ItemHead(n, tail);
  }

  lemma EntryHead(key: string, n: nat, tail: string)
    requires tail != "" && tail[0] == ':'
    ensures var line := Spaces(n) + (Quote(key) + tail);
            && Indent(line) == n && IsKey(line[n..]) && !IsDash(line[n..])
            && ReadQuoted(line[n..]) == Some(Quoted(key, tail))
  {
    IndentOf(n, Quote(key) + tail);
    ReadQuote(key, tail);
  }

  lemma ItemHead(n: nat, tail: string)
    requires tail == "" || tail[0] == ' '
    ensures var line := Spaces(n) + ("-" + tail);
            Indent(line) == n && line[n..] == "-" + tail && IsDash(line[n..])
  {
    IndentOf(n, "-" + tail);
  }

  // ----- one line -----

  lemma InlineRoundTrip(v: Json)
    requires !Nested(v) && FloatsPrinted(v)
    ensures ReadInline(Inline(v)) == Some(v)
  {
    match v
    case Int(n) =>
      IntRoundTrip(n);
      IntTextIsPlain(n);
    case Float(t) =>
      FloatRoundTrip(t);
    case Str(s) =>
      StrRoundTrip(s);
    case _ =>
  }

  /** A printed leaf is not blank and is neither a list item nor a mapping entry. */
  lemma InlineIsLeaf(v: Json)
    requires !Nested(v) && FloatsPrinted(v)
    ensures var t := Inline(v); t != "" && t[0] != ' ' && !IsDash(t) && !IsKey(t)
  {
    match v
    case Int(n) =>
      IntRoundTrip(n);
      IntTextIsPlain(n);
      NotKey(IntText(n));
    case Float(t) =>
      FloatRoundTrip(t);
      NotKey(t);
    case Str(s) =>
      StrRoundTrip(s);
      NotDash(Quote(s));
    case _ =>
      NotDash(Inline(v));
      NotKey(Inline(v));
  }

  lemma {:induction false} IndentOf(n: nat, body: string)
    requires body != "" && body[0] != ' '
    ensures Indent(Spaces(n) + body) == n
    ensures (Spaces(n) + body)[n..] == body
    decreases n
  {
    var line := Spaces(n) + body;
    if n > 0 {
      IndentOf(n - 1, body);
      assert line[1..] == Spaces(n - 1) + body;
    }
  }

  lemma IntRoundTrip(n: int)
    ensures var t := IntText(n); ReadPlain(t) == Some(Int(n)) && !IsDash(t)
  {
    IntTextIsPlain(n);
    ReadIntText(n);
    var t := IntText(n);
    assert !FloatText(t) by {
      forall i | 0 <= i < |t| ensures !FloatMark(t[i]) {
        assert t[i] == '-' || IsDigit(t[i]);
      }
    }
    if |t| > 1 {
      assert t[1] != ' ';
      assert t[..2][1] == t[1];
    }
  }

  lemma FloatRoundTrip(t: string)
    requires FloatText(t)
    ensures ReadPlain(t) == Some(Float(t))
    ensures t != "" && t[0] != ' ' && t[0] != '"' && t[0] != '{' && t[0] != '[' && !IsDash(t)
  {
    var i :| 0 <= i < |t| && FloatMark(t[i]);
    assert FloatChar(t[0]);
    if |t| >= 2 {
      assert FloatChar(t[1]);
      assert t[..2][1] == t[1];
    }
    assert t != "null" && t != "true" && t != "false" by {
      assert |t| > 2 ==> FloatChar(t[1]) && FloatChar(t[2]);
    }
  }

  lemma StrRoundTrip(s: string)
    ensures ReadInline(Quote(s)) == Some(Str(s)) && !IsKey(Quote(s))
  {
    ReadQuote(s, "");
    assert Quote(s) + "" == Quote(s);
  }

  lemma IntTextIsPlain(n: int)
    ensures var t := IntText(n);
            && t != "" && (t[0] == '-' || IsDigit(t[0])) && (forall i :: 0 < i < |t| ==> IsDigit(t[i]))
            && (t[0] == '-' ==> |t| > 1)
  {
  }

  // ----- every line is one line -----

  ghost predicate AllOneLine(lines: seq<string>) {
    forall i :: 0 <= i < |lines| ==> OneLine(lines[i], YAML_BREAKS)
  }

  lemma {:induction false} LinesAreLines(v: Json, n: nat)
    requires FloatsPrinted(v)
    ensures AllOneLine(YamlLines(v, n))
    decreases v
  {
    if v.Obj? && v.members != [] {
      EntryLinesAreLines(v.members, n);
    } else if v.Arr? && v.items != [] {
      ItemLinesAreLines(v.items, n);
    } else {
      InlineIsOneLine(v);
    }
  }

  lemma {:induction false} EntryLinesAreLines(members: seq<Member>, n: nat)
    requires forall m | m in members :: FloatsPrinted(m.value)
    ensures AllOneLine(EntryLines(members, n))
    decreases members
  {
    if members != [] {
      EntryLinesAreLines(members[1..], n);
      QuoteIsOneLine(members[0].key);
      var item := members[0].value;
      if Nested(item) {
        LinesAreLines(item, n + 2);
      } else {
        InlineIsOneLine(item);
      }
    }
  }

  lemma {:induction false} ItemLinesAreLines(items: seq<Json>, n: nat)
    requires forall x | x in items :: FloatsPrinted(x)
    ensures AllOneLine(ItemLines(items, n))
    decreases items
  {
    if items != [] {
      ItemLinesAreLines(items[1..], n);
      if Nested(items[0]) {
        LinesAreLines(items[0], n + 2);
      } else {
        InlineIsOneLine(items[0]);
      }
    }
  }

  lemma InlineIsOneLine(v: Json)
    requires !Nested(v) && FloatsPrinted(v)
    ensures OneLine(Inline(v), YAML_BREAKS)
  {
    match v
    case Int(n) => IntTextIsPlain(n);
    case Float(t) => FloatIsOneLine(t);
    case Str(s) => QuoteIsOneLine(s);
    case _ =>
  }

  lemma FloatIsOneLine(t: string)
    requires FloatText(t)
    ensures OneLine(t, YAML_BREAKS)
  {
    forall i | 0 <= i < |t| ensures t[i] !in YAML_BREAKS {
      assert FloatChar(t[i]);
    }
  }

  lemma QuoteIsOneLine(s: string)
    ensures OneLine(Quote(s), YAML_BREAKS)
  {
    QuoteIsPrintable(s);
  }

  // ----- joining and cutting -----

  lemma EntryGlue(members: seq<Member>, n: nat, rest: seq<string>)
    ensures EntryLines(members, n) + rest == if members == [] then rest else
              EntryBlock(members[0], n) + (EntryLines(members[1..], n) + rest)
    ensures members != [] ==> [members[0]] + members[1..] == members
  {
    if members != [] {
      Glue(EntryBlock(members[0], n), EntryLines(members[1..], n), rest);
    }
  }

  lemma ItemGlue(items: seq<Json>, n: nat, rest: seq<string>)
    ensures ItemLines(items, n) + rest == if items == [] then rest else
              ItemBlock(items[0], n) + (ItemLines(items[1..], n) + rest)
    ensures items != [] ==> [items[0]] + items[1..] == items
  {
    if items != [] {
      Glue(ItemBlock(items[0], n), ItemLines(items[1..], n), rest);
    }
  }

  lemma ConsSplit<T>(x: T, xs: seq<T>, after: seq<T>)
    ensures var all := ([x] + xs) + after; all != [] && all[0] == x && all[1..] == xs + after
  {
  }

  lemma DashBody(t: string)
    ensures var body := "-" + (" " + t); body != "-" && body[2..] == t
  {
    var body := "-" + (" " + t);
    assert |body| == 2 + |t|;
  }

  lemma NotDash(t: string)
    requires t != "" && t[0] != '-'
    ensures !IsDash(t)
  {
  }

  lemma NotKey(t: string)
    requires t != "" && t[0] != '"'
    ensures !IsKey(t)
  {
  }
}
