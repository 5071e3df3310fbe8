/** Which lines of a coverage record the filter of `scripts/check_production_coverage.py`
    keeps, and when it fails, in terms of the record and the sources. */
module KeptLines {
  import opened Options
  import opened TextLines
  import opened RustTokens
  import opened RustScanner
  import opened CoverageFilter
  import opened CoverageReport

  // ----- the source file of a record -----

  /** The first line that names a source file */
  ghost predicate IsSourceLine(record: seq<string>, k: int) {
    0 <= k < |record| && "SF:" <= record[k] && forall j :: 0 <= j < k ==> !("SF:" <= record[j])
  }

  lemma {:induction false} SourceLineIs(record: seq<string>)
    ensures SourceLine(record).None? ==> forall k :: !IsSourceLine(record, k)
    ensures forall k | IsSourceLine(record, k) :: SourceLine(record) == Some(record[k])
  {
    if record != [] && !("SF:" <= record[0]) {
      SourceLineIs(record[1..]);
      forall k ensures IsSourceLine(record, k) <==> IsSourceLine(record[1..], k - 1) {
        SourceLineTail(record, k);
      }
    }
  }

  lemma SourceLineTail(record: seq<string>, k: int)
    requires record != [] && !("SF:" <= record[0])
    ensures IsSourceLine(record, k) <==> IsSourceLine(record[1..], k - 1)
  {
    if IsSourceLine(record[1..], k - 1) {
      forall j | 0 <= j < k ensures !("SF:" <= record[j]) {
        assert j > 0 ==> record[1..][j - 1] == record[j];
      }
    }
    if IsSourceLine(record, k) {
      forall j | 0 <= j < k - 1 ensures !("SF:" <= record[1..][j]) {
        assert record[1..][j] == record[j + 1];
      }
    }
  }

  // ----- the lines that are kept -----

  /** The line is a data line of the source file that lies in a test module. */
  ghost predicate InTests(record: seq<string>, line: string, inputs: Inputs, sources: map<string, Source>) {
    && "DA:" <= line
    && exists k, fields, n ::
      && IsSourceLine(record, k) && record[k][3..] in sources
      && AreFields(line[3..], ',', fields) && inputs.toInt(fields[0]) == Some(n)
      && InTestModule(sources[record[k][3..]], n)
  }

  ghost predicate IsDropped(record: seq<string>, line: string, inputs: Inputs, sources: map<string, Source>) {
    "LF:" <= line || "LH:" <= line || InTests(record, line, inputs, sources)
  }

  /** `kept` are the lines of the record that stand at the positions `at`. */
  ghost predicate AreLinesAt(kept: seq<string>, record: seq<string>, at: seq<int>) {
    && |at| == |kept| && (forall i, j :: 0 <= i < j < |at| ==> at[i] < at[j])
    && forall i :: 0 <= i < |at| ==> 0 <= at[i] < |record| && kept[i] == record[at[i]]
  }

  lemma {:induction false} KeptPositions(record: seq<string>, ranges: seq<Range>, inputs: Inputs)
    returns (at: seq<int>)
    requires KeepLines(record, ranges, inputs).Ok?
    ensures AreLinesAt(KeepLines(record, ranges, inputs).value.kept, record, at)
    ensures forall k :: k in at <==> 0 <= k < |record| && KeptBy(record[k], ranges, inputs)
  {
    at := [];
    if record != [] {
      var n := |record| - 1;
      var before := KeptPositions(record[..n], ranges, inputs);
      var keeps := KeptBy(record[n], ranges, inputs);
      at := if keeps then before + [n] else before;
      KeptStep(record, ranges, inputs);
      var front := KeepLines(record[..n], ranges, inputs).value.kept;
      LinesAtLonger(front, record, n, before, keeps);
      forall k ensures k in at <==> 0 <= k < |record| && KeptBy(record[k], ranges, inputs) {
        assert k in at <==> k in before || (k == n && keeps);
      }
    }
  }

  lemma LinesAtLonger(front: seq<string>, record: seq<string>, n: nat, at: seq<int>, keeps: bool)
    requires |record| == n + 1 && AreLinesAt(front, record[..n], at)
    ensures AreLinesAt(if keeps then front + [record[n]] else front, record, if keeps then at + [n] else at)
  {
  }

  lemma KeptStep(record: seq<string>, ranges: seq<Range>, inputs: Inputs)
    requires record != [] && KeepLines(record, ranges, inputs).Ok?
    ensures var n := |record| - 1;
            var before := KeepLines(record[..n], ranges, inputs).value.kept;
            KeepLines(record, ranges, inputs).value.kept ==
              if KeptBy(record[n], ranges, inputs) then before + [record[n]] else before
  {
  }

  lemma SourceRanges(record: seq<string>, inputs: Inputs)
    requires RecordRanges(record, inputs).Ok?
    ensures forall k | IsSourceLine(record, k) ::
              inputs.ranges(record[k][3..]) == Ok(RecordRanges(record, inputs).value)
    ensures (forall k :: !IsSourceLine(record, k)) ==> RecordRanges(record, inputs).value == []
  {
    SourceLineIs(record);
    if line :| SourceLine(record) == Some(line) {
      SourceLineIn(record);
    }
  }

  lemma {:induction false} SourceLineIn(record: seq<string>)
    requires SourceLine(record).Some?
    ensures exists k :: IsSourceLine(record, k)
  {
    if "SF:" <= record[0] {
      assert IsSourceLine(record, 0);
    } else {
      SourceLineIn(record[1..]);
      var k :| IsSourceLine(record[1..], k);
      SourceLineTail(record, k + 1);
    }
  }

  lemma LineIsDropped(record: seq<string>, line: string, inputs: Inputs, sources: map<string, Source>)
    requires Reads(inputs, sources) && RecordRanges(record, inputs).Ok?
    requires FateOf(line, RecordRanges(record, inputs).value, inputs).Ok?
    ensures KeptBy(line, RecordRanges(record, inputs).value, inputs) <==> !IsDropped(record, line, inputs, sources)
  {
    var ranges := RecordRanges(record, inputs).value;
    SourceRanges(record, inputs);
    FirstLetter(line);
    if "DA:" <= line {
      SplitGivesBack(line[3..], ',');
      if k :| IsSourceLine(record, k) {
        DroppedIffInTestModule(record[k][3..], line, inputs, sources);
        OneSource(record, k);
        DropsWhere(record, line, inputs, sources, k);
      }
    }
  }

  lemma OneSource(record: seq<string>, k: int)
    requires IsSourceLine(record, k)
    ensures forall j | IsSourceLine(record, j) :: j == k
  {
  }

  lemma DropsWhere(record: seq<string>, line: string, inputs: Inputs, sources: map<string, Source>, k: int)
    requires "DA:" <= line && IsSourceLine(record, k)
    ensures var path, n := record[k][3..], inputs.toInt(Fields(line[3..])[0]);
            InTests(record, line, inputs, sources) <==>
            path in sources && n.Some? && InTestModule(sources[path], n.value)
  {
    var path, n := record[k][3..], inputs.toInt(Fields(line[3..])[0]);
    SplitGivesBack(line[3..], ',');
    if InTests(record, line, inputs, sources) {
      var j, fields, m :|
        && IsSourceLine(record, j) && record[j][3..] in sources
        && AreFields(line[3..], ',', fields) && inputs.toInt(fields[0]) == Some(m)
        && InTestModule(sources[record[j][3..]], m);
      OneSource(record, k);
      SplitIs(line[3..], ',', fields);
    }
    if path in sources && n.Some? && InTestModule(sources[path], n.value) {
      assert inputs.toInt(Fields(line[3..])[0]) == Some(n.value);
    }
  }

  /** A filtered record is the record without its summaries and without the data lines
      of test modules, every other line in its place, and then the new summaries. */
  lemma KeptAre(record: seq<string>, inputs: Inputs, sources: map<string, Source>) returns (at: seq<int>)
    requires Reads(inputs, sources) && FilterOf(record, inputs).Ok?
    ensures forall k :: k in at <==> 0 <= k < |record| && !IsDropped(record, record[k], inputs, sources)
    ensures var kept := FilterOf(record, inputs).value.kept;
            && |kept| == |at| + 3 && AreLinesAt(kept[..|at|], record, at)
            && kept[|at|..] ==
               ["LF:" + NatText(DataLines(kept)), "LH:" + NatText(HitLines(kept, inputs)), "end_of_record"]
  {
    var ranges := RecordRanges(record, inputs).value;
    var f := KeepLines(record, ranges, inputs).value;
    at := KeptPositions(record, ranges, inputs);
    forall k | 0 <= k < |record|
      ensures KeptBy(record[k], ranges, inputs) <==> !IsDropped(record, record[k], inputs, sources)
    {
      LinesAreFine(record, ranges, inputs, k);
      LineIsDropped(record, record[k], inputs, sources);
    }
    assert (f.kept + Summaries(f) + [END_OF_RECORD])[..|at|] == f.kept;
    RecordConserves(record, inputs);
  }

  lemma {:induction false} LinesAreFine(record: seq<string>, ranges: seq<Range>, inputs: Inputs, k: nat)
    requires KeepLines(record, ranges, inputs).Ok? && k < |record|
    ensures FateOf(record[k], ranges, inputs).Ok?
    decreases |record|
  {
    if k < |record| - 1 {
      LinesAreFine(record[..|record| - 1], ranges, inputs, k);
    }
  }

  // ----- when the filter fails -----

  /** A data line that cannot be read: a single field; a line number that is none where
      there are ranges to compare it with; or a count that is none on a line that stays */
  ghost predicate IsBad(line: string, ranges: seq<Range>, inputs: Inputs) {
    && "DA:" <= line
    && var fields := Fields(line[3..]);
    || |fields| == 1
    || (ranges != [] && inputs.toInt(fields[0]).None?)
    || (inputs.toInt(fields[1]).None?
        && forall n, r | inputs.toInt(fields[0]) == Some(n) && r in ranges :: n < r.first || r.last < n)
  }

  lemma BadIs(line: string, ranges: seq<Range>, inputs: Inputs)
    ensures FateOf(line, ranges, inputs).Err? <==> IsBad(line, ranges, inputs)
    ensures FateOf(line, ranges, inputs).Err? ==> FateOf(line, ranges, inputs).error == BadLine(line)
  {
  }

  /** A record cannot be filtered exactly when the test modules of its source file cannot
      be found or one of its lines is bad; the error names the first such line. */
  lemma RecordFails(record: seq<string>, inputs: Inputs)
    ensures FilterOf(record, inputs).Err? <==>
            RecordRanges(record, inputs).Err?
            || exists k :: IsFirstBad(record, RecordRanges(record, inputs).value, inputs, k)
    ensures RecordRanges(record, inputs).Ok? ==>
              forall k | IsFirstBad(record, RecordRanges(record, inputs).value, inputs, k) ::
                FilterOf(record, inputs) == Err(BadLine(record[k]))
  {
    if RecordRanges(record, inputs).Ok? {
      LinesFail(record, RecordRanges(record, inputs).value, inputs);
    }
  }

  ghost predicate IsFirstBad(record: seq<string>, ranges: seq<Range>, inputs: Inputs, k: int) {
    && 0 <= k < |record| && IsBad(record[k], ranges, inputs)
    && forall j :: 0 <= j < k ==> !IsBad(record[j], ranges, inputs)
  }

  lemma {:induction false} LinesFail(record: seq<string>, ranges: seq<Range>, inputs: Inputs)
    ensures KeepLines(record, ranges, inputs).Err? <==> exists k :: IsFirstBad(record, ranges, inputs, k)
    ensures forall k | IsFirstBad(record, ranges, inputs, k) ::
              KeepLines(record, ranges, inputs) == Err(BadLine(record[k]))
  {
    if record != [] {
      var n := |record| - 1;
      var front := record[..n];
      LinesFail(front, ranges, inputs);
      BadIs(record[n], ranges, inputs);
      assert forall k :: IsFirstBad(front, ranges, inputs, k) ==> IsFirstBad(record, ranges, inputs, k);
      if KeepLines(front, ranges, inputs).Ok? {
        NoneBad(front, ranges, inputs);
        forall j | 0 <= j < n ensures !IsBad(record[j], ranges, inputs) {
          assert front[j] == record[j];
        }
        assert IsFirstBad(record, ranges, inputs, n) <==> IsBad(record[n], ranges, inputs);
      }
    }
  }

  lemma NoneBad(record: seq<string>, ranges: seq<Range>, inputs: Inputs)
    requires KeepLines(record, ranges, inputs).Ok?
    ensures forall j :: 0 <= j < |record| ==> !IsBad(record[j], ranges, inputs)
  {
    forall j | 0 <= j < |record| ensures !IsBad(record[j], ranges, inputs) {
      LinesAreFine(record, ranges, inputs, j);
      BadIs(record[j], ranges, inputs);
    }
  }

  // ----- line numbers -----

  /** A line number is one more than the number of line feeds before the position. */
  lemma {:induction false} LineOfIs(text: string, position: nat)
    requires position <= |text|
    ensures LineOf(text, position) == 1 + |set p | 0 <= p < position && text[p] == '\n'|
    decreases position
  {
    if position > 0 {
      LineOfIs(text, position - 1);
      var before := set p | 0 <= p < position - 1 && text[p] == '\n';
      assert position - 1 !in before;
      assert (set p | 0 <= p < position && text[p] == '\n')
          == before + if text[position - 1] == '\n' then {position - 1} else {};
    }
  }
}
