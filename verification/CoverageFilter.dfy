/** `filter_record` and the record loop of `scripts/check_production_coverage.py`. */
module CoverageFilter {
  import opened Options
  import opened Sequences
  import opened TextLines
  import opened RustScanner

  datatype FilterError = BadSource(scan: ScanError) | BadLine(line: string)

  /** What the program reads beside the report: the test ranges of a source file
      (empty when it cannot be read) and Python's `int(text)`. */
  datatype Inputs = Inputs(ranges: string -> Result<seq<Range>, ScanError>, toInt: string -> Option<int>)

  predicate StartsWith(line: string, prefix: string) {
    prefix <= line
  }

  /** `text.split(",")` */
  function Fields(t: string): (fs: seq<string>)
    ensures fs != []
  {
    Split(t, ',')
  }

  // ----- one line -----

  datatype Fate = Removed | Summary | Counted(hit: bool) | Plain

  function FateOf(line: string, ranges: seq<Range>, inputs: Inputs): Result<Fate, FilterError> {
    if StartsWith(line, "DA:") then
      var fs := Fields(line[3..]);
      if |fs| < 2 then Err(BadLine(line))
      else if ranges != [] && inputs.toInt(fs[0]).None? then Err(BadLine(line))
      else if exists r | r in ranges :: InRange(inputs.toInt(fs[0]).GetOr(0), r) then Ok(Removed)
      else
        match inputs.toInt(fs[1])
        case None => Err(BadLine(line))
        case Some(count) => Ok(Counted(count > 0))
    else if StartsWith(line, "LF:") || StartsWith(line, "LH:") then Ok(Summary)
    else Ok(Plain)
  }

  // ----- one record -----

  datatype Filtered = Filtered(kept: seq<string>, found: nat, hit: nat)

  function AddLine(f: Filtered, line: string, fate: Fate): Filtered {
    match fate
    case Removed => f
    case Summary => f
    case Counted(hit) => Filtered(f.kept + [line], f.found + 1, f.hit + if hit then 1 else 0)
    case Plain => f.(kept := f.kept + [line])
  }

  function KeepLines(record: seq<string>, ranges: seq<Range>, inputs: Inputs): Result<Filtered, FilterError> {
    if record == [] then Ok(Filtered([], 0, 0))
    else
      var last := record[|record| - 1];
      var f :- KeepLines(record[..|record| - 1], ranges, inputs);
      var fate :- FateOf(last, ranges, inputs);
      Ok(AddLine(f, last, fate))
  }

  function SourceLine(record: seq<string>): Option<string> {
    if record == [] then None
    else if StartsWith(record[0], "SF:") then Some(record[0])
    else SourceLine(record[1..])
  }

  function RecordRanges(record: seq<string>, inputs: Inputs): Result<seq<Range>, FilterError> {
    match SourceLine(record)
    case None => Ok([])
    case Some(line) =>
      match inputs.ranges(if |line| >= 3 then line[3..] else "")
      case Ok(ranges) => Ok(ranges)
      case Err(e) => Err(BadSource(e))
  }

  const END_OF_RECORD := "end_of_record"

  function Summaries(f: Filtered): seq<string> {
    ["LF:" + NatText(f.found), "LH:" + NatText(f.hit)]
  }

  function FilterOf(record: seq<string>, inputs: Inputs): Result<Filtered, FilterError> {
    var ranges :- RecordRanges(record, inputs);
    var f :- KeepLines(record, ranges, inputs);
    Ok(f.(kept := f.kept + Summaries(f) + [END_OF_RECORD]))
  }

  /** `filter_record` */
  method FilterRecord(record: seq<string>, inputs: Inputs) returns (r: Result<Filtered, FilterError>)
    ensures r == FilterOf(record, inputs)
  {
    var ranges :- RecordRanges(record, inputs);
    var f := Filtered([], 0, 0);
    for i := 0 to |record|
      invariant KeepLines(record[..i], ranges, inputs) == Ok(f)
    {
      assert record[..i + 1][..i] == record[..i];
      var fate := FateOf(record[i], ranges, inputs);
      if fate.Err? {
        KeepLinesFails(record, i + 1, ranges, inputs);
        return Err(fate.error);
      }
      f := AddLine(f, record[i], fate.value);
    }
    assert record[..|record|] == record;
    return Ok(f.(kept := f.kept + Summaries(f) + [END_OF_RECORD]));
  }

  lemma {:induction false} KeepLinesFails(record: seq<string>, i: nat, ranges: seq<Range>, inputs: Inputs)
    requires i <= |record| && KeepLines(record[..i], ranges, inputs).Err?
    ensures KeepLines(record, ranges, inputs) == KeepLines(record[..i], ranges, inputs)
    decreases |record|
  {
    if i == |record| {
      assert record[..i] == record;
    } else {
      assert record[..|record| - 1][..i] == record[..i];
      KeepLinesFails(record[..|record| - 1], i, ranges, inputs);
    }
  }

  // ----- the whole report -----

  datatype Report = Report(lines: seq<string>, total: nat, covered: nat)

  function AddRecord(report: Report, f: Filtered): Report {
    Report(report.lines + f.kept, report.total + f.found, report.covered + f.hit)
  }

  /** The report printed for `lines` when `record` holds the lines since the last
      record ended and `done` was printed before */
  function ReportOf(lines: seq<string>, record: seq<string>, done: Report, inputs: Inputs): Result<Report, FilterError>
    decreases |lines|
  {
    if lines == [] then
      if record == [] then Ok(done)
      else
        var f :- FilterOf(record, inputs);
        Ok(AddRecord(done, f))
    else if lines[0] != END_OF_RECORD then ReportOf(lines[1..], record + [lines[0]], done, inputs)
    else if record == [] then ReportOf(lines[1..], [], done, inputs)
    else
      var f :- FilterOf(record, inputs);
      ReportOf(lines[1..], [], AddRecord(done, f), inputs)
  }

  const EMPTY := Report([], 0, 0)

  /** The record loop of `main` */
  method FilterReport(lines: seq<string>, inputs: Inputs) returns (r: Result<Report, FilterError>)
    ensures r == ReportOf(lines, [], EMPTY, inputs)
  {
    var done := EMPTY;
    var record: seq<string> := [];
    assert lines[0..] == lines;
    for i := 0 to |lines|
      invariant ReportOf(lines, [], EMPTY, inputs) == ReportOf(lines[i..], record, done, inputs)
    {
      assert lines[i..][1..] == lines[i + 1..];
      if lines[i] == END_OF_RECORD {
        if record != [] {
          var f := FilterRecord(record, inputs);
          if f.Err? {
            return Err(f.error);
          }
          done := AddRecord(done, f.value);
          record := [];
        }
      } else {
        record := record + [lines[i]];
      }
    }
    if record != [] {
      var f := FilterRecord(record, inputs);
      if f.Err? {
        return Err(f.error);
      }
      done := AddRecord(done, f.value);
    }
    return Ok(done);
  }

  // ----- conservation -----

  function DataLines(lines: seq<string>): nat {
    if lines == [] then 0
    else DataLines(lines[..|lines| - 1]) + if StartsWith(lines[|lines| - 1], "DA:") then 1 else 0
  }

  /** Data lines whose line number lies in a test module */
  function TestLines(lines: seq<string>, ranges: seq<Range>, inputs: Inputs): nat {
    if lines == [] then 0
    else
      TestLines(lines[..|lines| - 1], ranges, inputs)
      + if FateOf(lines[|lines| - 1], ranges, inputs) == Ok(Removed) then 1 else 0
  }

  /** A data line with a positive count */
  predicate IsHit(line: string, inputs: Inputs) {
    && StartsWith(line, "DA:") && |Fields(line[3..])| >= 2
    && inputs.toInt(Fields(line[3..])[1]).GetOr(0) > 0
  }

  function HitLines(lines: seq<string>, inputs: Inputs): nat {
    if lines == [] then 0
    else HitLines(lines[..|lines| - 1], inputs) + if IsHit(lines[|lines| - 1], inputs) then 1 else 0
  }

  lemma DataLinesAppend(lines: seq<string>, line: string)
    ensures DataLines(lines + [line]) == DataLines(lines) + if StartsWith(line, "DA:") then 1 else 0
  {
    assert (lines + [line])[..|lines|] == lines;
  }

  lemma HitLinesAppend(lines: seq<string>, line: string, inputs: Inputs)
    ensures HitLines(lines + [line], inputs) == HitLines(lines, inputs) + if IsHit(line, inputs) then 1 else 0
  {
    assert (lines + [line])[..|lines|] == lines;
  }

  /** Every data line is kept or lies in a test module; the counters count what is kept. */
  lemma {:induction false} KeepLinesConserves(record: seq<string>, ranges: seq<Range>, inputs: Inputs)
    requires KeepLines(record, ranges, inputs).Ok?
    ensures var f := KeepLines(record, ranges, inputs).value;
            && DataLines(f.kept) + TestLines(record, ranges, inputs) == DataLines(record)
            && f.found == DataLines(f.kept) && f.hit == HitLines(f.kept, inputs) && f.hit <= f.found
  {
    if record != [] {
      var front, last := record[..|record| - 1], record[|record| - 1];
      KeepLinesConserves(front, ranges, inputs);
      FateTells(last, ranges, inputs);
      LineCounts(KeepLines(front, ranges, inputs).value, last, FateOf(last, ranges, inputs).value, inputs);
    }
  }

  /** What a line's fate says about the line */
  predicate Tells(fate: Fate, line: string, inputs: Inputs) {
    match fate
    case Removed => StartsWith(line, "DA:")
    case Counted(hit) => StartsWith(line, "DA:") && (hit <==> IsHit(line, inputs))
    case _ => !StartsWith(line, "DA:")
  }

  lemma FateTells(line: string, ranges: seq<Range>, inputs: Inputs)
    requires FateOf(line, ranges, inputs).Ok?
    ensures Tells(FateOf(line, ranges, inputs).value, line, inputs)
  {
  }

  lemma LineCounts(f: Filtered, line: string, fate: Fate, inputs: Inputs)
    requires Tells(fate, line, inputs)
    requires f.found == DataLines(f.kept) && f.hit == HitLines(f.kept, inputs) && f.hit <= f.found
    ensures var g := AddLine(f, line, fate);
            && DataLines(g.kept) + (if fate == Removed then 1 else 0) ==
                DataLines(f.kept) + (if StartsWith(line, "DA:") then 1 else 0)
            && g.found == DataLines(g.kept) && g.hit == HitLines(g.kept, inputs) && g.hit <= g.found
  {
    DataLinesAppend(f.kept, line);
    HitLinesAppend(f.kept, line, inputs);
  }

  lemma {:induction false} CountsAppend(a: seq<string>, b: seq<string>, inputs: Inputs)
    ensures DataLines(a + b) == DataLines(a) + DataLines(b) &&
        HitLines(a + b, inputs) == HitLines(a, inputs) + HitLines(b, inputs)
  {
    if b == [] {
      assert a + b == a;
    } else {
      var front, last := b[..|b| - 1], b[|b| - 1];
      CountsAppend(a, front, inputs);
      assert a + b == (a + front) + [last] && b == front + [last];
      DataLinesAppend(a + front, last);
      DataLinesAppend(front, last);
      HitLinesAppend(a + front, last, inputs);
      HitLinesAppend(front, last, inputs);
    }
  }

  ghost predicate Totalled(r: Report, inputs: Inputs) {
    r.total == DataLines(r.lines) && r.covered == HitLines(r.lines, inputs) && r.covered <= r.total
  }

  lemma EndsCountNothing(f: Filtered, inputs: Inputs)
    ensures var ends := Summaries(f) + [END_OF_RECORD]; DataLines(ends) == 0 && HitLines(ends, inputs) == 0
  {
    var lf, lh := Summaries(f)[0], Summaries(f)[1];
    assert lf[0] == 'L' && lh[0] == 'L' && END_OF_RECORD[0] == 'e';
    var one: seq<string> := [] + [lf];
    var two := one + [lh];
    DataLinesAppend([], lf);
    DataLinesAppend(one, lh);
    DataLinesAppend(two, END_OF_RECORD);
    HitLinesAppend([], lf, inputs);
    HitLinesAppend(one, lh, inputs);
    HitLinesAppend(two, END_OF_RECORD, inputs);
    assert Summaries(f) + [END_OF_RECORD] == two + [END_OF_RECORD];
  }

  /** The lines at the end count nothing themselves. */
  lemma PrintedCounts(f: Filtered, inputs: Inputs)
    ensures var all := f.kept + Summaries(f) + [END_OF_RECORD];
            DataLines(all) == DataLines(f.kept) && HitLines(all, inputs) == HitLines(f.kept, inputs)
  {
    var ends := Summaries(f) + [END_OF_RECORD];
    EndsCountNothing(f, inputs);
    CountsAppend(f.kept, ends, inputs);
    assert f.kept + Summaries(f) + [END_OF_RECORD] == f.kept + ends;
  }

  lemma RecordTotals(record: seq<string>, done: Report, inputs: Inputs)
    requires FilterOf(record, inputs).Ok? && Totalled(done, inputs)
    ensures Totalled(AddRecord(done, FilterOf(record, inputs).value), inputs)
  {
    var ranges := RecordRanges(record, inputs).value;
    var f := KeepLines(record, ranges, inputs).value;
    KeepLinesConserves(record, ranges, inputs);
    PrintedCounts(f, inputs);
    CountsAppend(done.lines, f.kept + Summaries(f) + [END_OF_RECORD], inputs);
  }

  /** The grand totals count the data lines of the printed report. */
  lemma {:induction false} ReportTotals(lines: seq<string>, record: seq<string>, done: Report, inputs: Inputs)
    requires Totalled(done, inputs) && ReportOf(lines, record, done, inputs).Ok?
    ensures Totalled(ReportOf(lines, record, done, inputs).value, inputs)
    decreases |lines|
  {
    if lines != [] && lines[0] != END_OF_RECORD {
      ReportTotals(lines[1..], record + [lines[0]], done, inputs);
    } else if record == [] {
      if lines != [] {
        ReportTotals(lines[1..], [], done, inputs);
      }
    } else {
      RecordTotals(record, done, inputs);
      if lines != [] {
        ReportTotals(lines[1..], [], AddRecord(done, FilterOf(record, inputs).value), inputs);
      }
    }
  }

  // ----- a second pass over what was kept -----

  ghost predicate KeptBy(line: string, ranges: seq<Range>, inputs: Inputs) {
    var fate := FateOf(line, ranges, inputs);
    fate.Ok? && (fate.value.Counted? || fate.value.Plain?)
  }

  lemma {:induction false} KeptAgain(record: seq<string>, ranges: seq<Range>, inputs: Inputs)
    requires KeepLines(record, ranges, inputs).Ok?
    ensures var f := KeepLines(record, ranges, inputs).value;
            && KeepLines(f.kept, ranges, inputs) == Ok(f)
            && (forall line | line in f.kept :: line in record && KeptBy(line, ranges, inputs))
  {
    if record != [] {
      var front, last := record[..|record| - 1], record[|record| - 1];
      KeptAgain(front, ranges, inputs);
      var f := KeepLines(front, ranges, inputs).value;
      assert (f.kept + [last])[..|f.kept|] == f.kept;
    }
  }

  lemma SourceLineAppend(a: seq<string>, line: string)
    ensures SourceLine(a + [line]) ==
            if SourceLine(a).Some? then SourceLine(a) else if StartsWith(line, "SF:") then Some(line) else None
  {
    if a == [] {
      assert [line][1..] == [];
    } else {
      assert (a + [line])[1..] == a[1..] + [line];
    }
  }

  lemma {:induction false} SourceLineKept(record: seq<string>, ranges: seq<Range>, inputs: Inputs)
    requires KeepLines(record, ranges, inputs).Ok?
    ensures SourceLine(KeepLines(record, ranges, inputs).value.kept) == SourceLine(record)
  {
    if record != [] {
      var front, last := record[..|record| - 1], record[|record| - 1];
      SourceLineKept(front, ranges, inputs);
      assert record == front + [last];
      SourceIsPlain(last, ranges, inputs);
      SourceLineStep(front, KeepLines(front, ranges, inputs).value, last, FateOf(last, ranges, inputs).value);
    }
  }

  lemma SourceLineStep(front: seq<string>, f: Filtered, line: string, fate: Fate)
    requires SourceLine(f.kept) == SourceLine(front) && (StartsWith(line, "SF:") ==> fate == Plain)
    ensures SourceLine(AddLine(f, line, fate).kept) == SourceLine(front + [line])
  {
    SourceLineAppend(front, line);
    SourceLineAppend(f.kept, line);
  }

  lemma SourceIsPlain(line: string, ranges: seq<Range>, inputs: Inputs)
    ensures StartsWith(line, "SF:") ==> FateOf(line, ranges, inputs) == Ok(Plain)
  {
    if StartsWith(line, "SF:") {
      assert line[0] == 'S';
    }
  }

  lemma SummariesDropped(f: Filtered, ranges: seq<Range>, inputs: Inputs)
    requires KeepLines(f.kept, ranges, inputs) == Ok(f)
    ensures KeepLines(f.kept + Summaries(f), ranges, inputs) == Ok(f)
    ensures SourceLine(f.kept + Summaries(f)) == SourceLine(f.kept)
  {
    var lf, lh := Summaries(f)[0], Summaries(f)[1];
    var one := f.kept + [lf];
    var two := one + [lh];
    assert f.kept + Summaries(f) == two;
    assert one[..|f.kept|] == f.kept && two[..|one|] == one;
    assert lf[0] == 'L' && lh[0] == 'L' && lf[..3] == "LF:" && lh[..3] == "LH:";
    SourceLineAppend(f.kept, lf);
    SourceLineAppend(one, lh);
  }

  /** Filtering a record that was filtered before changes nothing. */
  lemma FilterTwice(record: seq<string>, inputs: Inputs)
    requires FilterOf(record, inputs).Ok?
    ensures var f := FilterOf(record, inputs).value;
            f.kept != [] && FilterOf(f.kept[..|f.kept| - 1], inputs) == Ok(f)
  {
    var ranges := RecordRanges(record, inputs).value;
    var f := KeepLines(record, ranges, inputs).value;
    KeptAgain(record, ranges, inputs);
    SourceLineKept(record, ranges, inputs);
    SummariesDropped(f, ranges, inputs);
    var kept := f.kept + Summaries(f) + [END_OF_RECORD];
    assert kept[..|kept| - 1] == f.kept + Summaries(f);
  }

  ghost predicate NoEnds(lines: seq<string>) {
    END_OF_RECORD !in lines
  }

  lemma FilterKeepsNoEnds(record: seq<string>, inputs: Inputs)
    requires FilterOf(record, inputs).Ok? && NoEnds(record)
    ensures var kept := FilterOf(record, inputs).value.kept;
            |kept| >= 3 && kept[|kept| - 1] == END_OF_RECORD && NoEnds(kept[..|kept| - 1])
  {
    var ranges := RecordRanges(record, inputs).value;
    var f := KeepLines(record, ranges, inputs).value;
    KeptAgain(record, ranges, inputs);
    var kept := f.kept + Summaries(f) + [END_OF_RECORD];
    assert Summaries(f)[0][0] == 'L' && Summaries(f)[1][0] == 'L' && END_OF_RECORD[0] == 'e';
    assert kept[..|kept| - 1] == f.kept + Summaries(f);
  }

  /** Lines without an end marker only lengthen the record. */
  lemma {:induction false} ReportReads(lines: seq<string>, rest: seq<string>, record: seq<string>, done: Report,
      inputs: Inputs)
    requires NoEnds(lines)
    ensures ReportOf(lines + rest, record, done, inputs) == ReportOf(rest, record + lines, done, inputs)
    decreases |lines|
  {
    if lines == [] {
      assert lines + rest == rest && record + lines == record;
    } else {
      assert (lines + rest)[1..] == lines[1..] + rest;
      ReportReads(lines[1..], rest, record + [lines[0]], done, inputs);
      assert record + [lines[0]] + lines[1..] == record + lines;
    }
  }

  /** A printed record, read again, prints itself. */
  lemma ReportRereads(record: seq<string>, rest: seq<string>, done: Report, inputs: Inputs)
    requires FilterOf(record, inputs).Ok? && NoEnds(record)
    ensures var f := FilterOf(record, inputs).value;
            ReportOf(f.kept + rest, [], done, inputs) == ReportOf(rest, [], AddRecord(done, f), inputs)
  {
    var f := FilterOf(record, inputs).value;
    FilterTwice(record, inputs);
    FilterKeepsNoEnds(record, inputs);
    var body := f.kept[..|f.kept| - 1];
    var after := [END_OF_RECORD] + rest;
    assert f.kept + rest == body + after;
    ReportReads(body, after, [], done, inputs);
    assert [] + body == body;
    assert after[1..] == rest;
  }

  lemma SliceSplit(a: seq<string>, b: seq<string>, all: seq<string>)
    requires a + b <= all
    ensures a <= all && all[|a|..] == b + all[|a + b|..]
  {
    assert all == a + b + all[|a + b|..];
  }

  /** What `r` added to `done`, read again at the head of a report, is added
      again to what was printed before. */
  ghost predicate AddsAgain(r: Report, done: Report, rest: seq<string>, again: Report, inputs: Inputs) {
    && done.lines <= r.lines && done.total <= r.total && done.covered <= r.covered
    && var added := r.lines[|done.lines|..];
    && var next := Report(again.lines + added, again.total + (r.total - done.total),
        again.covered + (r.covered - done.covered));
    ReportOf(added + rest, [], again, inputs) == ReportOf(rest, [], next, inputs)
  }

  lemma NothingAdded(r: Report, rest: seq<string>, again: Report, inputs: Inputs)
    ensures AddsAgain(r, r, rest, again, inputs)
  {
    assert r.lines[|r.lines|..] == [];
    assert [] + rest == rest && again.lines + [] == again.lines;
  }

  lemma RecordAdded(record: seq<string>, r: Report, done: Report, rest: seq<string>, again: Report, inputs: Inputs)
    requires FilterOf(record, inputs).Ok? && NoEnds(record)
    requires var f := FilterOf(record, inputs).value;
             AddsAgain(r, AddRecord(done, f), rest, AddRecord(again, f), inputs)
    ensures AddsAgain(r, done, rest, again, inputs)
  {
    var f := FilterOf(record, inputs).value;
    var later := r.lines[|done.lines + f.kept|..];
    SliceSplit(done.lines, f.kept, r.lines);
    Glue(f.kept, later, rest);
    Glue(again.lines, f.kept, later);
    ReportRereads(record, later + rest, again, inputs);
  }

  lemma {:induction false} ReportTwice(lines: seq<string>, record: seq<string>, done: Report, rest: seq<string>,
      again: Report, inputs: Inputs)
    requires NoEnds(record) && ReportOf(lines, record, done, inputs).Ok?
    ensures AddsAgain(ReportOf(lines, record, done, inputs).value, done, rest, again, inputs)
    decreases |lines|
  {
    var r := ReportOf(lines, record, done, inputs).value;
    if lines != [] && lines[0] != END_OF_RECORD {
      ReportTwice(lines[1..], record + [lines[0]], done, rest, again, inputs);
    } else if record != [] {
      var f := FilterOf(record, inputs).value;
      if lines == [] {
        NothingAdded(r, rest, AddRecord(again, f), inputs);
      } else {
        ReportTwice(lines[1..], [], AddRecord(done, f), rest, AddRecord(again, f), inputs);
      }
      RecordAdded(record, r, done, rest, again, inputs);
    } else if lines == [] {
      NothingAdded(r, rest, again, inputs);
    } else {
      ReportTwice(lines[1..], [], done, rest, again, inputs);
    }
  }

  /** Filtering a filtered report against the same sources changes neither its
      lines nor its totals. */
  lemma FilterIsIdempotent(lines: seq<string>, inputs: Inputs)
    requires ReportOf(lines, [], EMPTY, inputs).Ok?
    ensures var r := ReportOf(lines, [], EMPTY, inputs).value;
            ReportOf(r.lines, [], EMPTY, inputs) == Ok(r)
  {
    var r := ReportOf(lines, [], EMPTY, inputs).value;
    ReportTwice(lines, [], EMPTY, [], EMPTY, inputs);
    assert r.lines[0..] + [] == r.lines && [] + r.lines == r.lines;
  }

  // ----- the report as text -----

  function FilterText(text: string, inputs: Inputs): Result<string, FilterError> {
    var r :- ReportOf(SplitLines(text, PY_BREAKS), [], EMPTY, inputs);
    Ok(JoinLines(r.lines) + "\n")
  }

  ghost predicate AllOneLine(lines: seq<string>, breaks: set<char>) {
    forall i :: 0 <= i < |lines| ==> OneLine(lines[i], breaks)
  }

  /** No boundary occurs in what the filter itself writes. */
  ghost predicate OutsideSummaries(breaks: set<char>) {
    && (forall c :: c in breaks ==> !IsDigit(c))
    && OneLine("LF:", breaks) && OneLine("LH:", breaks) && OneLine(END_OF_RECORD, breaks)
  }

  lemma FilterIsOneLine(record: seq<string>, inputs: Inputs, breaks: set<char>)
    requires FilterOf(record, inputs).Ok? && AllOneLine(record, breaks) && OutsideSummaries(breaks)
    ensures AllOneLine(FilterOf(record, inputs).value.kept, breaks)
  {
    var ranges := RecordRanges(record, inputs).value;
    var f := KeepLines(record, ranges, inputs).value;
    KeptAgain(record, ranges, inputs);
    forall i | 0 <= i < |f.kept| ensures OneLine(f.kept[i], breaks) {
      assert f.kept[i] in record;
    }
    OneLineAppend(f.kept, Summaries(f), breaks);
    OneLineAppend(f.kept + Summaries(f), [END_OF_RECORD], breaks);
  }

  lemma OneLineAppend(a: seq<string>, b: seq<string>, breaks: set<char>)
    requires AllOneLine(a, breaks) && AllOneLine(b, breaks)
    ensures AllOneLine(a + b, breaks)
  {
  }

  lemma {:induction false} ReportIsOneLine(lines: seq<string>, record: seq<string>, done: Report, inputs: Inputs,
      breaks: set<char>)
    requires AllOneLine(lines, breaks) && AllOneLine(record, breaks) && AllOneLine(done.lines, breaks) &&
        OutsideSummaries(breaks)
    requires ReportOf(lines, record, done, inputs).Ok?
    ensures AllOneLine(ReportOf(lines, record, done, inputs).value.lines, breaks)
    decreases |lines|
  {
    if lines != [] && lines[0] != END_OF_RECORD {
      ReportIsOneLine(lines[1..], record + [lines[0]], done, inputs, breaks);
    } else if record == [] {
      if lines != [] {
        ReportIsOneLine(lines[1..], [], done, inputs, breaks);
      }
    } else {
      FilterIsOneLine(record, inputs, breaks);
      if lines != [] {
        ReportIsOneLine(lines[1..], [], AddRecord(done, FilterOf(record, inputs).value), inputs, breaks);
      }
    }
  }

  /** Something is printed exactly when some line is not an end marker. */
  lemma {:induction false} ReportIsEmpty(lines: seq<string>, record: seq<string>, done: Report, inputs: Inputs)
    requires ReportOf(lines, record, done, inputs).Ok?
    ensures ReportOf(lines, record, done, inputs).value.lines == [] <==>
            done.lines == [] && record == [] && forall line | line in lines :: line == END_OF_RECORD
    decreases |lines|
  {
    if lines != [] && lines[0] != END_OF_RECORD {
      assert lines[0] in lines;
      ReportIsEmpty(lines[1..], record + [lines[0]], done, inputs);
    } else if record == [] {
      if lines != [] {
        ReportIsEmpty(lines[1..], [], done, inputs);
        assert forall line :: line in lines <==> line == lines[0] || line in lines[1..];
      }
    } else if lines != [] {
      ReportIsEmpty(lines[1..], [], AddRecord(done, FilterOf(record, inputs).value), inputs);
    }
  }

  lemma PythonBreaksOutside()
    ensures OutsideSummaries(PY_BREAKS) && '\n' in PY_BREAKS
  {
  }

  lemma PrintedReportRereads(text: string, inputs: Inputs, breaks: set<char>)
    requires OutsideSummaries(breaks) && '\n' in breaks
    requires var r := ReportOf(SplitLines(text, breaks), [], EMPTY, inputs); r.Ok? && r.value.lines != []
    ensures var r := ReportOf(SplitLines(text, breaks), [], EMPTY, inputs);
            ReportOf(SplitLines(JoinLines(r.value.lines) + "\n", breaks), [], EMPTY, inputs) == r
  {
    var lines := SplitLines(text, breaks);
    var r := ReportOf(lines, [], EMPTY, inputs).value;
    SplitIsOneLine(text, breaks);
    ReportIsOneLine(lines, [], EMPTY, inputs, breaks);
    SplitJoin(r.lines, breaks);
    FilterIsIdempotent(lines, inputs);
  }

  /** As texts, filtering twice is filtering once exactly for reports that hold
      a line other than an end marker: the empty report is written as one empty
      line, which a second pass reads as a record. */
  lemma FilterTextIsIdempotent(text: string, inputs: Inputs)
    requires FilterText(text, inputs).Ok?
    ensures FilterText(FilterText(text, inputs).value, inputs) == FilterText(text, inputs) <==>
            exists line :: line in SplitLines(text, PY_BREAKS) && line != END_OF_RECORD
  {
    var lines := SplitLines(text, PY_BREAKS);
    var r := ReportOf(lines, [], EMPTY, inputs).value;
    var out := FilterText(text, inputs).value;
    ReportIsEmpty(lines, [], EMPTY, inputs);
    if r.lines != [] {
      PythonBreaksOutside();
      PrintedReportRereads(text, inputs, PY_BREAKS);
    } else {
      EmptyTextGrows(inputs);
      assert out == "\n";
    }
  }

  lemma EmptyLineRecord(inputs: Inputs)
    ensures FilterOf([""], inputs) == Ok(Filtered(["", "LF:0", "LH:0", END_OF_RECORD], 0, 0))
  {
    assert [""][1..] == [] && [""][..0] == [] && [] + [""] == [""];
    assert KeepLines([""], [], inputs) == Ok(Filtered([""], 0, 0));
    assert NatText(0) == "0" && "LF:" + "0" == "LF:0" && "LH:" + "0" == "LH:0";
    assert [""] + ["LF:0", "LH:0"] + [END_OF_RECORD] == ["", "LF:0", "LH:0", END_OF_RECORD];
  }

  lemma EmptyLineReport(inputs: Inputs)
    ensures ReportOf([""], [], EMPTY, inputs) == Ok(Report(["", "LF:0", "LH:0", END_OF_RECORD], 0, 0))
  {
    EmptyLineRecord(inputs);
    assert [""][1..] == [] && [] + [""] == [""];
    assert ReportOf([""], [], EMPTY, inputs) == ReportOf([], [""], EMPTY, inputs);
    var kept := ["", "LF:0", "LH:0", END_OF_RECORD];
    assert [] + kept == kept;
  }

  /** The empty report: it is written as one empty line, and that line is filtered to
      a record of its own. */
  lemma EmptyReportGrows(inputs: Inputs)
    ensures FilterText("", inputs) == Ok("\n") && FilterText("\n", inputs).Ok? && FilterText("\n", inputs) != Ok("\n")
  {
    assert SplitLines("", PY_BREAKS) == [] && ReportOf([], [], EMPTY, inputs) == Ok(EMPTY);
    assert "" + "\n" == "\n";
    EmptyTextGrows(inputs);
  }

  lemma EmptyTextGrows(inputs: Inputs)
    ensures var again := FilterText("\n", inputs); again.Ok? && again.value != "\n"
  {
    assert SplitLines("\n", PY_BREAKS) == [""] by {
      assert "\n"[..0] == "" && "\n"[1..] == "";
    }
    EmptyLineReport(inputs);
    var kept := ["", "LF:0", "LH:0", END_OF_RECORD];
    assert JoinLines(kept) == kept[0] + "\n" + JoinLines(kept[1..]);
    assert |JoinLines(kept) + "\n"| >= 2;
  }
}
