/** A whole coverage report: its records on their own, what the filter does with
    each, and which lines it drops. */
module CoverageReport {
  import opened Options
  import opened Sequences
  import opened TextLines
  import opened RustTokens
  import opened RustScanner
  import opened CoverageFilter

  // ----- the records of a report -----

  /** The lines after the last end marker */
  function Pending(lines: seq<string>): seq<string> {
    if lines == [] || lines[|lines| - 1] == END_OF_RECORD then []
    else Pending(lines[..|lines| - 1]) + [lines[|lines| - 1]]
  }

  function Single(record: seq<string>): seq<seq<string>> {
    if record == [] then [] else [record]
  }

  /** The records that an end marker closes; empty ones do not count. */
  function Closed(lines: seq<string>): seq<seq<string>> {
    if lines == [] then []
    else
      var front := lines[..|lines| - 1];
      Closed(front) + if lines[|lines| - 1] == END_OF_RECORD then Single(Pending(front)) else []
  }

  /** The records of a report: a last one need not be closed. */
  function Records(lines: seq<string>): seq<seq<string>> {
    Closed(lines) + Single(Pending(lines))
  }

  /** Every record filtered on its own, in order, until one cannot be read */
  function FilterAll(records: seq<seq<string>>, done: Report, inputs: Inputs): Result<Report, FilterError> {
    if records == [] then Ok(done)
    else
      var f :- FilterOf(records[0], inputs);
      FilterAll(records[1..], AddRecord(done, f), inputs)
  }

  lemma {:induction false} PendingWithoutEnds(record: seq<string>)
    requires NoEnds(record)
    ensures Pending(record) == record && Closed(record) == []
  {
    if record != [] {
      var front, last := record[..|record| - 1], record[|record| - 1];
      assert last in record;
      PendingWithoutEnds(front);
      assert front + [last] == record;
    }
  }

  lemma AppendLine(lines: seq<string>, line: string)
    ensures Pending(lines + [line]) == if line == END_OF_RECORD then [] else Pending(lines) + [line]
    ensures Closed(lines + [line]) == Closed(lines) + if line == END_OF_RECORD then Single(Pending(lines)) else []
  {
    assert (lines + [line])[..|lines|] == lines;
  }

  /** An end marker closes what stands before it; the rest is read on its own. */
  lemma {:induction false} RecordsSplit(record: seq<string>, rest: seq<string>)
    requires NoEnds(record)
    ensures Pending(record + [END_OF_RECORD] + rest) == Pending(rest)
    ensures Closed(record + [END_OF_RECORD] + rest) == Single(record) + Closed(rest)
  {
    var closed := record + [END_OF_RECORD];
    if rest == [] {
      assert closed + rest == closed;
      PendingWithoutEnds(record);
      AppendLine(record, END_OF_RECORD);
    } else {
      var front, last := rest[..|rest| - 1], rest[|rest| - 1];
      RecordsSplit(record, front);
      assert rest == front + [last];
      Glue(closed, front, [last]);
      AppendLine(closed + front, last);
      AppendLine(front, last);
      Glue(Single(record), Closed(front), if last == END_OF_RECORD then Single(Pending(front)) else []);
    }
  }

  lemma RecordsCons(record: seq<string>, lines: seq<string>)
    requires NoEnds(record) && lines != []
    ensures Records(record + lines) ==
            if lines[0] == END_OF_RECORD then Single(record) + Records(lines[1..])
                else Records((record + [lines[0]]) + lines[1..])
  {
    if lines[0] == END_OF_RECORD {
      RecordsSplit(record, lines[1..]);
      assert record + lines == record + [END_OF_RECORD] + lines[1..];
    } else {
      assert record + lines == (record + [lines[0]]) + lines[1..];
    }
  }

  /** The loop over the lines filters exactly the records of the report, in order. */
  lemma {:induction false} ReportIsRecords(lines: seq<string>, record: seq<string>, done: Report, inputs: Inputs)
    requires NoEnds(record)
    ensures ReportOf(lines, record, done, inputs) == FilterAll(Records(record + lines), done, inputs)
    decreases |lines|
  {
    if lines == [] {
      assert record + lines == record;
      PendingWithoutEnds(record);
      FilterSingle(record, [], done, inputs);
      assert Single(record) + [] == Single(record) && [] + Single(record) == Single(record);
    } else {
      RecordsCons(record, lines);
      if lines[0] != END_OF_RECORD {
        ReportIsRecords(lines[1..], record + [lines[0]], done, inputs);
      } else {
        FilterSingle(record, Records(lines[1..]), done, inputs);
        assert [] + lines[1..] == lines[1..];
        if record == [] {
          ReportIsRecords(lines[1..], [], done, inputs);
        } else if FilterOf(record, inputs).Ok? {
          ReportIsRecords(lines[1..], [], AddRecord(done, FilterOf(record, inputs).value), inputs);
        }
      }
    }
  }

  lemma FilterSingle(record: seq<string>, rest: seq<seq<string>>, done: Report, inputs: Inputs)
    ensures FilterAll(Single(record) + rest, done, inputs) ==
            if record == [] then FilterAll(rest, done, inputs)
            else if FilterOf(record, inputs).Err? then Err(FilterOf(record, inputs).error)
            else FilterAll(rest, AddRecord(done, FilterOf(record, inputs).value), inputs)
  {
    if record == [] {
      assert Single(record) + rest == rest;
    } else {
      assert (Single(record) + rest)[1..] == rest;
    }
  }

  // ----- conservation -----

  /** The data lines of some records, and those of them that lie in test modules */
  function DataLinesIn(records: seq<seq<string>>): nat {
    if records == [] then 0 else DataLinesIn(records[..|records| - 1]) + DataLines(records[|records| - 1])
  }

  function TestLinesOf(record: seq<string>, inputs: Inputs): nat {
    match RecordRanges(record, inputs)
    case Ok(ranges) => TestLines(record, ranges, inputs)
    case Err(_) => 0
  }

  function TestLinesIn(records: seq<seq<string>>, inputs: Inputs): nat {
    if records == [] then 0 else TestLinesOf(records[0], inputs) + TestLinesIn(records[1..], inputs)
  }

  /** A filtered record ends with its two counts and an end marker, holds no other
      counts, and has every data line of the record that lies in no test module. */
  lemma RecordConserves(record: seq<string>, inputs: Inputs)
    requires FilterOf(record, inputs).Ok?
    ensures var kept := FilterOf(record, inputs).value.kept;
            var n := |kept| - 3;
            && n >= 0 && kept[n..] == ["LF:" + NatText(DataLines(kept)), "LH:" + NatText(HitLines(kept, inputs)),
                "end_of_record"]
            && (forall i :: 0 <= i < n ==>
                kept[i] in record && !StartsWith(kept[i], "LF:") && !StartsWith(kept[i], "LH:"))
            && DataLines(kept) + TestLinesOf(record, inputs) == DataLines(record)
  {
    var ranges := RecordRanges(record, inputs).value;
    var f := KeepLines(record, ranges, inputs).value;
    KeepLinesConserves(record, ranges, inputs);
    PrintedCounts(f, inputs);
    KeptHasNoCounts(record, ranges, inputs);
    PrintedEnds(f.kept, Summaries(f), END_OF_RECORD);
  }

  lemma PrintedEnds(kept: seq<string>, summaries: seq<string>, end: string)
    requires |summaries| == 2
    ensures var all := kept + summaries + [end];
            && |all| == |kept| + 3 && all[|kept|..] == [summaries[0], summaries[1], end]
            && forall i :: 0 <= i < |kept| ==> all[i] == kept[i]
  {
  }

  lemma KeptHasNoCounts(record: seq<string>, ranges: seq<Range>, inputs: Inputs)
    requires KeepLines(record, ranges, inputs).Ok?
    ensures var kept := KeepLines(record, ranges, inputs).value.kept;
            forall i :: 0 <= i < |kept| ==>
                kept[i] in record && !StartsWith(kept[i], "LF:") && !StartsWith(kept[i], "LH:")
  {
    KeptAgain(record, ranges, inputs);
    var kept := KeepLines(record, ranges, inputs).value.kept;
    forall i | 0 <= i < |kept| ensures kept[i] in record && !StartsWith(kept[i], "LF:") && !StartsWith(kept[i], "LH:") {
      KeptIsNoCount(kept[i], ranges, inputs);
    }
  }

  lemma KeptIsNoCount(line: string, ranges: seq<Range>, inputs: Inputs)
    requires KeptBy(line, ranges, inputs)
    ensures !StartsWith(line, "LF:") && !StartsWith(line, "LH:")
  {
    FirstLetter(line);
  }

  lemma FirstLetter(line: string)
    ensures StartsWith(line, "DA:") ==> !StartsWith(line, "LF:") && !StartsWith(line, "LH:")
  {
    if StartsWith(line, "DA:") {
      assert line[0] == 'D';
    }
  }

  lemma DataLinesInSplit(a: seq<seq<string>>, b: seq<seq<string>>)
    ensures DataLinesIn(a + b) == DataLinesIn(a) + DataLinesIn(b)
  {
    if b == [] {
      assert a + b == a;
    } else {
      var n := |b| - 1;
      DataLinesInSplit(a, b[..n]);
      assert (a + b)[..|a| + n] == a + b[..n];
    }
  }

  lemma DataLinesInSingle(record: seq<string>)
    ensures DataLinesIn(Single(record)) == DataLines(record)
  {
    if record != [] {
      assert Single(record)[..0] == [];
    }
  }

  /** The records hold all data lines of the report. */
  lemma {:induction false} RecordsHoldData(lines: seq<string>)
    ensures DataLinesIn(Records(lines)) == DataLines(lines)
  {
    DataLinesInSplit(Closed(lines), Single(Pending(lines)));
    DataLinesInSingle(Pending(lines));
    if lines != [] {
      var front, last := lines[..|lines| - 1], lines[|lines| - 1];
      RecordsHoldData(front);
      DataLinesInSplit(Closed(front), Single(Pending(front)));
      DataLinesInSingle(Pending(front));
      if last == END_OF_RECORD {
        assert last[0] == 'e';
      } else {
        DataLinesAppend(Pending(front), last);
        assert Closed(lines) == Closed(front);
      }
    }
  }

  lemma {:induction false} FilterAllConserves(records: seq<seq<string>>, done: Report, inputs: Inputs)
    requires FilterAll(records, done, inputs).Ok?
    ensures DataLines(FilterAll(records, done, inputs).value.lines) + TestLinesIn(records, inputs)
            == DataLines(done.lines) + DataLinesIn(records)
  {
    if records != [] {
      var f := FilterOf(records[0], inputs).value;
      RecordConserves(records[0], inputs);
      CountsAppend(done.lines, f.kept, inputs);
      FilterAllConserves(records[1..], AddRecord(done, f), inputs);
      DataLinesInCons(records);
    }
  }

  lemma DataLinesInCons(records: seq<seq<string>>)
    requires records != []
    ensures DataLinesIn(records) == DataLines(records[0]) + DataLinesIn(records[1..])
  {
    var first := [records[0]];
    DataLinesInSplit(first, records[1..]);
    assert first[..0] == [] && first + records[1..] == records;
  }

  /** For any report: every record is filtered, and kept plus removed data lines
      are the data lines of the report. */
  lemma ReportConserves(lines: seq<string>, inputs: Inputs)
    requires ReportOf(lines, [], EMPTY, inputs).Ok?
    ensures var r := ReportOf(lines, [], EMPTY, inputs).value;
            && FilterAll(Records(lines), EMPTY, inputs) == Ok(r)
            && DataLines(r.lines) + TestLinesIn(Records(lines), inputs) == DataLines(lines)
            && r.total == DataLines(r.lines) && r.covered == HitLines(r.lines, inputs) && r.covered <= r.total
  {
    assert [] + lines == lines;
    ReportIsRecords(lines, [], EMPTY, inputs);
    FilterAllConserves(Records(lines), EMPTY, inputs);
    RecordsHoldData(lines);
    ReportTotals(lines, [], EMPTY, inputs);
  }

  // ----- from source text to dropped line -----

  /** The ranges are those that `test_ranges` finds in the sources. */
  ghost predicate Reads(inputs: Inputs, sources: map<string, Source>) {
    forall path ::
      if path in sources then ValidHeaders(sources[path]) && IsTestRanges(sources[path], inputs.ranges(path))
      else inputs.ranges(path) == Ok([])
  }

  /** Some test module, from its header to its closing brace, has a character on
      line `n`. */
  ghost predicate InTestModule(source: Source, n: int) {
    exists m, c: nat, at: nat ::
      && m in source.headers && ValidMatch(source.text, m) && IsClosing(source.text, m.end, c)
      && m.start <= at <= c < |source.text| && LineOf(source.text, at) == n
  }

  /** A data line is dropped exactly when a test module of its source file has a
      character on the line it speaks of. */
  lemma DroppedIffInTestModule(path: string, line: string, inputs: Inputs, sources: map<string, Source>)
    requires Reads(inputs, sources) && inputs.ranges(path).Ok?
    requires StartsWith(line, "DA:") && FateOf(line, inputs.ranges(path).value, inputs).Ok?
    ensures FateOf(line, inputs.ranges(path).value, inputs) == Ok(Removed) <==>
            && path in sources && inputs.toInt(Fields(line[3..])[0]).Some?
            && InTestModule(sources[path], inputs.toInt(Fields(line[3..])[0]).value)
  {
    var ranges := inputs.ranges(path).value;
    var n := inputs.toInt(Fields(line[3..])[0]);
    if path in sources && n.Some? {
      RangesAreModules(sources[path], ranges, n.value);
    }
  }

  lemma RangesAreModules(source: Source, ranges: seq<Range>, n: int)
    requires ValidHeaders(source) && IsTestRanges(source, Ok(ranges))
    ensures (exists r :: r in ranges && InRange(n, r)) <==> InTestModule(source, n)
  {
    if exists r :: r in ranges && InRange(n, r) {
      var i :| 0 <= i < |ranges| && InRange(n, ranges[i]);
      assert source.headers[i] in source.headers;
      RangeIsInModule(source, source.headers[i], ranges[i], n);
    }
    if InTestModule(source, n) {
      ModuleHasRange(source, ranges, n);
    }
  }

  lemma ModuleHasRange(source: Source, ranges: seq<Range>, n: int)
    requires ValidHeaders(source) && IsTestRanges(source, Ok(ranges)) && InTestModule(source, n)
    ensures exists r :: r in ranges && InRange(n, r)
  {
    var m, c: nat, at: nat :|
      && m in source.headers && ValidMatch(source.text, m) && IsClosing(source.text, m.end, c)
      && m.start <= at <= c < |source.text| && LineOf(source.text, at) == n;
    var i :| 0 <= i < |source.headers| && source.headers[i] == m;
    ModuleIsInRange(source.text, m, ranges[i], c, at);
    assert ranges[i] in ranges;
  }

  lemma RangeIsInModule(source: Source, m: Match, r: Range, n: int)
    requires m in source.headers && ValidMatch(source.text, m) && IsModuleRange(source.text, m, r) && InRange(n, r)
    ensures InTestModule(source, n)
  {
    var c: nat :| IsClosing(source.text, m.end, c) && r == Range(LineOf(source.text, m.start), LineOf(source.text, c));
    RangeIsModuleLines(source.text, m, c, n);
  }

  lemma ModuleIsInRange(text: string, m: Match, r: Range, c: nat, at: nat)
    requires ValidMatch(text, m) && IsModuleRange(text, m, r) && IsClosing(text, m.end, c) &&
        m.start <= at <= c < |text|
    ensures InRange(LineOf(text, at), r)
  {
    var d: nat :| IsClosing(text, m.end, d) && r == Range(LineOf(text, m.start), LineOf(text, d));
    ClosingIsUnique(text, m.end, c, d);
    RangeIsModuleLines(text, m, c, LineOf(text, at));
  }
}
