/** `row_paths` of `scripts/generate_openapi.py`: the paths a table cell mentions. */
module PathExtraction {
  import opened OpenApiDocument
  import TextLines

  predicate IsAlnum(c: char) { 'A' <= c <= 'Z' || 'a' <= c <= 'z' || '0' <= c <= '9' }

  predicate IsPathChar(c: char) {
    IsAlnum(c) || c == '_' || c == '.' || c == '/' || c == ':' || c == '{' || c == '}' || c == '-'
  }

  function PathRun(t: string): (n: nat)
    ensures n <= |t|
  {
    if t == "" || !IsPathChar(t[0]) then 0 else 1 + PathRun(t[1..])
  }

  predicate EndsInPunctuation(t: string) {
    t != "" && var c := t[|t| - 1]; c == '.' || c == ',' || c == ';' || c == ':'
  }

  /** `t.rstrip(".,;:")` */
  function StripPunctuation(t: string): string {
    if EndsInPunctuation(t) then StripPunctuation(t[..|t| - 1]) else t
  }

  const API := "/api/"

  /** Where a path stands in its line */
  datatype Run = Run(start: nat, end: nat)

  /** `/api/` stands at `k`. */
  predicate ApiAt(line: string, k: nat) {
    && k + 5 <= |line|
    && line[k] == '/' && line[k + 1] == 'a' && line[k + 2] == 'p' && line[k + 3] == 'i' && line[k + 4] == '/'
  }

  /** `re.finditer`: from left to right, `/api/` and the longest run of path
      characters after it, each search starting where the last run ended */
  function Runs(line: string, from: nat): (runs: seq<Run>)
    requires from <= |line|
    ensures forall i :: 0 <= i < |runs| ==> runs[i].start <= runs[i].end <= |line|
    decreases |line| - from
  {
    if from == |line| then []
    else if ApiAt(line, from) then
      var end := from + 5 + PathRun(line[from + 5..]);
      [Run(from, end)] + Runs(line, end)
    else Runs(line, from + 1)
  }

  /** The paths of one line, without the punctuation that follows them */
  function LinePaths(line: string): seq<string> {
    var runs := Runs(line, 0);
    seq(|runs|, i requires 0 <= i < |runs| => StripPunctuation(line[runs[i].start..runs[i].end]))
  }

  function AllPaths(lines: seq<string>): seq<string> {
    if lines == [] then [] else LinePaths(lines[0]) + AllPaths(lines[1..])
  }

  /** `row_paths` */
  function RowPaths(pathCell: string): seq<string> {
    AllPaths(TextLines.SplitLines(pathCell, TextLines.PY_BREAKS))
  }

  /** What the generator takes for a path: `/api/` and path characters, without
      punctuation at the end */
  ghost predicate IsRowPath(p: string) {
    IsApiPath(p) && (forall i :: 0 <= i < |p| ==> IsPathChar(p[i])) && !EndsInPunctuation(p)
  }

  lemma {:induction false} RunIsPathChars(t: string)
    ensures forall i :: 0 <= i < PathRun(t) ==> IsPathChar(t[i])
    ensures PathRun(t) < |t| ==> !IsPathChar(t[PathRun(t)])
  {
    if t != "" && IsPathChar(t[0]) {
      RunIsPathChars(t[1..]);
      forall i | 0 <= i < PathRun(t) ensures IsPathChar(t[i]) {
        if i > 0 {
          assert t[1..][i - 1] == t[i];
        }
      }
    }
  }

  lemma {:induction false} StripMakesRowPath(t: string)
    requires API <= t && forall i :: 0 <= i < |t| ==> IsPathChar(t[i])
    ensures IsRowPath(StripPunctuation(t))
    decreases |t|
  {
    if |t| > 5 {
      assert t[..|t| - 1][..5] == t[..5];
      if EndsInPunctuation(t) {
        StripMakesRowPath(t[..|t| - 1]);
      }
    } else {
      assert t == API && t[|t| - 1] == '/';
    }
  }

  /** From `/api/` on to the first character that no path has */
  ghost predicate IsRun(line: string, r: Run) {
    && r.start + 5 <= r.end <= |line| && ApiAt(line, r.start)
    && (forall k :: r.start <= k < r.end ==> IsPathChar(line[k]))
    && (r.end < |line| ==> !IsPathChar(line[r.end]))
  }

  /** The runs from `from` on: in order, and no `/api/` lies outside them */
  ghost predicate AreRuns(line: string, from: nat, runs: seq<Run>) {
    InOrder(from, runs) && AllRuns(line, runs) && AllFound(line, from, runs)
  }

  ghost predicate InOrder(from: nat, runs: seq<Run>)
    decreases |runs|
  {
    runs == [] || (from <= runs[0].start <= runs[0].end && InOrder(runs[0].end, runs[1..]))
  }

  ghost predicate AllRuns(line: string, runs: seq<Run>) {
    forall r | r in runs :: IsRun(line, r)
  }

  ghost predicate AllFound(line: string, from: nat, runs: seq<Run>) {
    forall k :: from <= k && ApiAt(line, k) ==> Within(k, runs)
  }

  ghost predicate Within(k: nat, runs: seq<Run>) {
    exists i :: 0 <= i < |runs| && runs[i].start <= k && k + 5 <= runs[i].end
  }

  lemma RunIs(line: string, from: nat)
    requires ApiAt(line, from)
    ensures IsRun(line, Run(from, from + 5 + PathRun(line[from + 5..])))
  {
    var t := line[from + 5..];
    RunIsPathChars(t);
    forall k | from + 5 <= k < from + 5 + PathRun(t) ensures IsPathChar(line[k]) {
      assert line[k] == t[k - from - 5];
    }
  }

  lemma RunHolds(line: string, r: Run, k: nat)
    requires IsRun(line, r) && ApiAt(line, k) && r.start <= k < r.end
    ensures k + 5 <= r.end
  {
  }

  /** No path is missed and none is cut short: the runs of a line hold every
      `/api/` in it. */
  lemma {:induction false} PathsAreFound(line: string, from: nat)
    requires from <= |line|
    ensures AreRuns(line, from, Runs(line, from))
    decreases |line| - from
  {
    if from < |line| && ApiAt(line, from) {
      var r := Run(from, from + 5 + PathRun(line[from + 5..]));
      RunIs(line, from);
      PathsAreFound(line, r.end);
      RunsCons(line, r, Runs(line, r.end));
      assert Runs(line, from) == [r] + Runs(line, r.end);
    } else if from < |line| {
      PathsAreFound(line, from + 1);
    }
  }

  lemma RunsCons(line: string, r: Run, rest: seq<Run>)
    requires IsRun(line, r) && AreRuns(line, r.end, rest)
    ensures AreRuns(line, r.start, [r] + rest)
  {
    OrderCons(r.start, r, rest);
    forall k | r.start <= k && ApiAt(line, k) ensures Within(k, [r] + rest) {
      if k < r.end {
        RunHolds(line, r, k);
      }
      WithinCons(k, r, rest);
    }
  }

  lemma OrderCons(from: nat, r: Run, rest: seq<Run>)
    ensures InOrder(from, [r] + rest) <==> from <= r.start <= r.end && InOrder(r.end, rest)
  {
    assert ([r] + rest)[1..] == rest;
  }

  lemma WithinCons(k: nat, r: Run, rest: seq<Run>)
    ensures Within(k, [r] + rest) <==> (r.start <= k && k + 5 <= r.end) || Within(k, rest)
  {
    var runs := [r] + rest;
    assert runs[0] == r;
    if Within(k, rest) {
      var i :| 0 <= i < |rest| && rest[i].start <= k && k + 5 <= rest[i].end;
      assert runs[i + 1] == rest[i];
    }
    if Within(k, runs) {
      var i :| 0 <= i < |runs| && runs[i].start <= k && k + 5 <= runs[i].end;
      assert i > 0 ==> rest[i - 1] == runs[i];
    }
  }

  /** These runs are the only ones. */
  lemma {:induction false} RunsAreUnique(line: string, from: nat, runs: seq<Run>)
    requires from <= |line| && AreRuns(line, from, runs)
    ensures runs == Runs(line, from)
    decreases |line| - from
  {
    if runs != [] {
      assert runs == [runs[0]] + runs[1..];
      assert runs[0] in runs;
      OrderCons(from, runs[0], runs[1..]);
    }
    if from < |line| && ApiAt(line, from) {
      FirstRun(line, from, runs);
      RunsAreUnique(line, runs[0].end, runs[1..]);
    } else if from < |line| {
      RunsAreUnique(line, from + 1, runs);
    }
  }

  lemma FirstRun(line: string, from: nat, runs: seq<Run>)
    requires AreRuns(line, from, runs) && ApiAt(line, from)
    ensures runs != [] && runs[0] == Run(from, from + 5 + PathRun(line[from + 5..]))
    ensures AreRuns(line, runs[0].end, runs[1..])
  {
    assert Within(from, runs);
    var r, rest := runs[0], runs[1..];
    assert runs == [r] + rest && r in runs;
    OrderCons(from, r, rest);
    WithinCons(from, r, rest);
    LaterRuns(r.end, rest, from);
    RunIs(line, from);
    SameRun(line, r, Run(from, from + 5 + PathRun(line[from + 5..])));
    forall k | r.end <= k && ApiAt(line, k) ensures Within(k, rest) {
      WithinCons(k, r, rest);
    }
  }

  lemma {:induction false} LaterRuns(from: nat, runs: seq<Run>, k: nat)
    requires InOrder(from, runs) && k < from
    ensures !Within(k, runs)
    decreases |runs|
  {
    if runs != [] {
      assert runs == [runs[0]] + runs[1..];
      OrderCons(from, runs[0], runs[1..]);
      WithinCons(k, runs[0], runs[1..]);
      LaterRuns(runs[0].end, runs[1..], k);
    }
  }

  lemma SameRun(line: string, r: Run, q: Run)
    requires IsRun(line, r) && IsRun(line, q) && r.start == q.start
    ensures r == q
  {
  }

  lemma RunIsRowPath(line: string, r: Run)
    requires IsRun(line, r)
    ensures IsRowPath(StripPunctuation(line[r.start..r.end]))
  {
    var t := line[r.start..r.end];
    assert t[..5] == API;
    StripMakesRowPath(t);
  }

  lemma LinePathsAreRowPaths(line: string)
    ensures forall p | p in LinePaths(line) :: IsRowPath(p)
  {
    var runs := Runs(line, 0);
    PathsAreFound(line, 0);
    forall i | 0 <= i < |runs| ensures IsRowPath(LinePaths(line)[i]) {
      assert runs[i] in runs;
      RunIsRowPath(line, runs[i]);
    }
  }

  lemma {:induction false} AllPathsAreRowPaths(lines: seq<string>)
    ensures forall p | p in AllPaths(lines) :: IsRowPath(p)
  {
    if lines != [] {
      LinePathsAreRowPaths(lines[0]);
      AllPathsAreRowPaths(lines[1..]);
    }
  }

  /** Every extracted path is a management path without prose around it. */
  lemma RowPathsAreClean(pathCell: string)
    ensures forall p | p in RowPaths(pathCell) :: IsRowPath(p)
  {
    AllPathsAreRowPaths(TextLines.SplitLines(pathCell, TextLines.PY_BREAKS));
  }

  /** A cell that holds a path and nothing else yields that path. */
  lemma CellOfPath(p: string)
    requires IsRowPath(p)
    ensures RowPaths(p) == [p]
  {
    var whole := Run(0, |p|);
    forall k: nat | ApiAt(p, k) ensures Within(k, [whole]) {
      assert [whole][0].start <= k && k + 5 <= [whole][0].end;
    }
    assert API[0] == p[0] && API[1] == p[1] && API[2] == p[2] && API[3] == p[3] && API[4] == p[4];
    assert [whole][1..] == [];
    RunsAreUnique(p, 0, [whole]);
    assert p[0..|p|] == p;
    assert !EndsInPunctuation(p);
    assert LinePaths(p) == [p];
    PathIsOneLine(p);
    assert [p][1..] == [] && AllPaths([]) == [] && [p] + [] == [p];
    assert AllPaths([p]) == LinePaths(p) + AllPaths([p][1..]);
  }

  lemma PathIsOneLine(p: string)
    requires p != "" && forall i :: 0 <= i < |p| ==> IsPathChar(p[i])
    ensures TextLines.SplitLines(p, TextLines.PY_BREAKS) == [p]
  {
    var i := TextLines.LineEnd(p, TextLines.PY_BREAKS);
    if i < |p| {
      PathCharIsNoBreak(p[i]);
    }
    assert p[..|p|] == p;
  }

  lemma PathCharIsNoBreak(c: char)
    requires IsPathChar(c)
    ensures c !in TextLines.PY_BREAKS
  {
  }

  // ----- what is extracted -----

  /** `[A-Za-z0-9_./:{}-]` by code: `-` to `:` holds the digits. */
  lemma PathCharIs(c: char)
    ensures IsPathChar(c) <==>
            var n := c as int;
            45 <= n <= 58 || 65 <= n <= 90 || n == 95 || 97 <= n <= 123 || n == 125
  {
  }

  predicate IsPunctuation(c: char) { c == '.' || c == ',' || c == ';' || c == ':' }

  /** What is left without the punctuation at the end */
  ghost predicate IsTrimmed(t: string, s: string) {
    && s <= t && (forall i :: |s| <= i < |t| ==> IsPunctuation(t[i]))
    && (s == "" || !IsPunctuation(s[|s| - 1]))
  }

  lemma {:induction false} TrimmedIs(t: string)
    ensures IsTrimmed(t, StripPunctuation(t))
  {
    if EndsInPunctuation(t) {
      TrimmedIs(t[..|t| - 1]);
    }
  }

  lemma TrimmedIsUnique(t: string, a: string, b: string)
    requires IsTrimmed(t, a) && IsTrimmed(t, b)
    ensures a == b
  {
    TrimmedEnds(t, a);
    TrimmedEnds(t, b);
  }

  lemma TrimmedEnds(t: string, s: string)
    requires IsTrimmed(t, s)
    ensures s == t[..|s|] && (s != "" ==> !IsPunctuation(t[|s| - 1]))
  {
  }

  /** The paths are those of the runs of the line, in order, each trimmed. */
  ghost predicate ArePathsOf(line: string, runs: seq<Run>, paths: seq<string>) {
    && AreRuns(line, 0, runs) && |paths| == |runs|
    && forall i :: 0 <= i < |runs| ==>
         runs[i].start <= runs[i].end <= |line| && IsTrimmed(line[runs[i].start..runs[i].end], paths[i])
  }

  ghost predicate ExtractsFrom(line: string, paths: seq<string>) {
    exists runs :: ArePathsOf(line, runs, paths)
  }

  lemma LinePathsAre(line: string, paths: seq<string>)
    ensures paths == LinePaths(line) <==> ExtractsFrom(line, paths)
  {
    var found := Runs(line, 0);
    PathsAreFound(line, 0);
    forall i | 0 <= i < |found| ensures IsTrimmed(line[found[i].start..found[i].end], LinePaths(line)[i]) {
      TrimmedIs(line[found[i].start..found[i].end]);
    }
    assert ArePathsOf(line, found, LinePaths(line));
    if runs: seq<Run> :| ArePathsOf(line, runs, paths) {
      RunsAreUnique(line, 0, runs);
      forall i | 0 <= i < |runs| ensures paths[i] == LinePaths(line)[i] {
        TrimmedIsUnique(line[runs[i].start..runs[i].end], paths[i], LinePaths(line)[i]);
      }
    }
  }

  function Flat(parts: seq<seq<string>>): seq<string> {
    if parts == [] then [] else parts[0] + Flat(parts[1..])
  }

  lemma {:induction false} AllPathsAre(lines: seq<string>, parts: seq<seq<string>>)
    requires |parts| == |lines| && forall k :: 0 <= k < |lines| ==> parts[k] == LinePaths(lines[k])
    ensures AllPaths(lines) == Flat(parts)
  {
    if lines != [] {
      AllPathsAre(lines[1..], parts[1..]);
    }
  }

  /** For each line in order, the paths of that line */
  ghost predicate AreLinePaths(lines: seq<string>, parts: seq<seq<string>>) {
    |parts| == |lines| && forall k :: 0 <= k < |lines| ==> ExtractsFrom(lines[k], parts[k])
  }

  /** Extraction keeps every line of the cell and every run of a line, in order. */
  lemma RowPathsAre(pathCell: string, paths: seq<string>)
    ensures var lines := TextLines.SplitLines(pathCell, TextLines.PY_BREAKS);
            paths == RowPaths(pathCell) <==> exists parts :: AreLinePaths(lines, parts) && paths == Flat(parts)
  {
    var lines := TextLines.SplitLines(pathCell, TextLines.PY_BREAKS);
    var found := seq(|lines|, k requires 0 <= k < |lines| => LinePaths(lines[k]));
    forall k | 0 <= k < |lines| ensures ExtractsFrom(lines[k], found[k]) {
      LinePathsAre(lines[k], found[k]);
    }
    AllPathsAre(lines, found);
    if parts :| AreLinePaths(lines, parts) && paths == Flat(parts) {
      forall k | 0 <= k < |lines| ensures parts[k] == LinePaths(lines[k]) {
        LinePathsAre(lines[k], parts[k]);
      }
      AllPathsAre(lines, parts);
    }
  }
}
