/** `matching_brace` and `test_ranges` of `scripts/check_production_coverage.py`. */
module RustScanner {
  import opened Options
  import opened RustTokens

  datatype ScanError = UnterminatedRawString | UnterminatedModule

  /** `text.find(pattern, start)` */
  function Find(text: string, pattern: string, start: nat): (r: Option<nat>)
    ensures r.Some? ==> FirstAt(text, pattern, start, r.value)
    ensures r.None? ==> Nowhere(text, pattern, start)
    decreases |text| - start
  {
    if At(text, start, pattern) then Some(start)
    else if start >= |text| then None
    else Find(text, pattern, start + 1)
  }

  /** The loop that leaves a block comment; `next` is past the text when it never closes. */
  method SkipComment(text: string, index: nat) returns (next: nat)
    requires CommentOpens(text, index)
    ensures forall j :: IsComment(text, index, j) <==> j == next && next <= |text| && IsComment(text, index, next)
    ensures index < next
    ensures (exists j :: IsComment(text, index, j)) || next >= |text|
  {
    var depth: nat := 1;
    next := index + 2;
    forall j ensures IsComment(text, index, j) <==> ClosesFrom(text, next, depth, j) {
      CommentIsOneOpen(text, index, j);
    }
    while next < |text| && depth != 0
      invariant index < next <= |text|
      invariant forall j :: IsComment(text, index, j) <==> ClosesFrom(text, next, depth, j)
      decreases |text| - next
    {
      if At(text, next, "/*") {
        AtPair(text, next, '/', '*');
        forall j ensures ClosesFrom(text, next, depth, j) <==> ClosesFrom(text, next + 2, depth + 1, j) {
          CommentNests(text, next, depth, j);
        }
        depth := depth + 1;
        next := next + 2;
      } else if At(text, next, "*/") {
        AtPair(text, next, '*', '/');
        forall j ensures ClosesFrom(text, next, depth, j) <==> ClosesFrom(text, next + 2, depth - 1, j) {
          CommentUnnests(text, next, depth, j);
        }
        depth := depth - 1;
        next := next + 2;
      } else {
        AtPair(text, next, '/', '*');
        AtPair(text, next, '*', '/');
        forall j ensures ClosesFrom(text, next, depth, j) <==> ClosesFrom(text, next + 1, depth, j) {
          CommentSkips(text, next, depth, j);
        }
        next := next + 1;
      }
    }
    if depth != 0 {
      forall j ensures !ClosesFrom(text, next, depth, j) {
        CommentNeverCloses(text, next, depth, j);
      }
    } else {
      assert ClosesFrom(text, next, 0, next);
    }
  }

  /** The loop that leaves a string; a trailing backslash can push `next` past the text. */
  method SkipString(text: string, index: nat) returns (next: nat)
    requires CharAt(text, index, '"')
    ensures forall j :: IsString(text, index, j) <==> j == next && next <= |text| && IsString(text, index, next)
    ensures index < next
    ensures (exists j :: IsString(text, index, j)) || next >= |text|
  {
    next := index + 1;
    while next < |text|
      invariant index < next <= |text| + 1
      invariant next <= |text| ==>
                forall j :: IsString(text, index, j) <==>
                    next <= j - 1 && CharAt(text, j - 1, '"') && IsStringBody(text, next, j - 1)
      invariant next > |text| ==> forall j :: !IsString(text, index, j)
    {
      if text[next] == '\\' {
        next := next + 2;
      } else if text[next] == '"' {
        next := next + 1;
        assert IsString(text, index, next);
        break;
      } else {
        next := next + 1;
      }
    }
  }

  /** One turn of the outer loop: the token at `index`, or a move past the end
      of the text when none starts there. */
  method NextToken(text: string, index: nat) returns (r: Result<Token, ScanError>)
    requires index < |text|
    ensures r.Ok? && NoToken(text, index) ==> r.value.end >= |text| && !r.value.kind.Close? && !r.value.kind.Open?
    ensures r.Ok? && !NoToken(text, index) ==> IsToken(text, index, r.value) && r.value.end <= |text|
    ensures r.Ok? ==> index < r.value.end
    ensures r.Err? ==> NoToken(text, index) && RawOpen(text, index).Some? && r.error == UnterminatedRawString
    ensures r.Ok? && NoToken(text, index) ==> RawOpen(text, index).None?
  {
    AtPair(text, index, '/', '/');
    AtPair(text, index, '/', '*');
    if At(text, index, "//") {
      var newline := Find(text, "\n", index + 2);
      r := Ok(Token(LineComment, if newline.None? then |text| else newline.value + 1));
      assert IsToken(text, index, r.value);
    } else if At(text, index, "/*") {
      r := NextComment(text, index);
    } else if RawOpen(text, index).Some? {
      r := NextRawString(text, index);
    } else if text[index] == '"' {
      r := NextString(text, index);
    } else if IsPlainChar(text, index) {
      r := Ok(Token(CharLiteral, index + 3));
      assert IsToken(text, index, r.value);
    } else if IsEscapedChar(text, index) {
      r := Ok(Token(CharLiteral, index + 4));
      assert IsToken(text, index, r.value);
    } else {
      r := Ok(Token(if text[index] == '{' then Open else if text[index] == '}' then Close else Other, index + 1));
      assert IsToken(text, index, r.value);
    }
  }

  method NextComment(text: string, index: nat) returns (r: Result<Token, ScanError>)
    requires index < |text| && CommentOpens(text, index)
    ensures r.Ok? && r.value.kind.BlockComment? && index < r.value.end
    ensures NoToken(text, index) ==> r.value.end >= |text|
    ensures !NoToken(text, index) ==> IsToken(text, index, r.value) && r.value.end <= |text|
    ensures RawOpen(text, index).None?
  {
    var next := SkipComment(text, index);
    var t := Token(BlockComment, next);
    r := Ok(t);
    if IsComment(text, index, next) {
      assert IsToken(text, index, t);
    } else {
      forall u ensures !IsToken(text, index, u) {
        assert !IsComment(text, index, u.end);
      }
    }
  }

  method NextString(text: string, index: nat) returns (r: Result<Token, ScanError>)
    requires CharAt(text, index, '"')
    ensures r.Ok? && r.value.kind.StringLiteral? && index < r.value.end
    ensures NoToken(text, index) ==> r.value.end >= |text|
    ensures !NoToken(text, index) ==> IsToken(text, index, r.value) && r.value.end <= |text|
  {
    var next := SkipString(text, index);
    var t := Token(StringLiteral, next);
    r := Ok(t);
    if IsString(text, index, next) {
      assert IsToken(text, index, t);
    } else {
      forall u ensures !IsToken(text, index, u) {
        assert !IsString(text, index, u.end);
      }
    }
  }

  method NextRawString(text: string, index: nat) returns (r: Result<Token, ScanError>)
    requires RawOpen(text, index).Some?
    ensures r.Ok? ==> IsToken(text, index, r.value) && r.value.kind.RawString? && index < r.value.end <= |text|
    ensures r.Err? ==> NoToken(text, index) && r.error == UnterminatedRawString
  {
    var head := RawOpen(text, index).value;
    var terminator := "\"" + Hashes(head.hashes);
    var end := Find(text, terminator, head.body);
    if end.None? {
      forall t ensures !IsToken(text, index, t) {
        assert !FirstAt(text, terminator, head.body, t.end - 1 - head.hashes);
      }
      return Err(UnterminatedRawString);
    }
    return Ok(Token(RawString, end.value + |terminator|));
  }

  /** `matching_brace`: the index of the brace that closes the module opened at `opening`. */
  method MatchingBrace(text: string, opening: nat) returns (r: Result<nat, ScanError>)
    requires opening < |text|
    ensures r.Ok? ==> IsClosing(text, opening + 1, r.value)
    ensures r.Err? ==> NoClosing(text, opening + 1)
    ensures r.Err? ==> exists p ::
        Stuck(text, opening + 1, p) && (r.error.UnterminatedRawString? <==> RawOpen(text, p).Some?)
  {
    var start := opening + 1;
    var depth := 1;
    var index := start;
    // The tokens read so far end at `p`; when no token starts there the loop is about to end.
    ghost var ts: seq<Token>, p: nat := [], index;
    while index < |text|
      invariant p <= |text| && start <= index
      invariant Tiles(text, start, ts, p) && StaysOpen(ts) && Depth(ts) == depth
      invariant index == p || (index >= |text| && NoToken(text, p) && RawOpen(text, p).None?)
      decreases |text| - index
    {
      var next := NextToken(text, index);
      if next.Err? {
        assert Stuck(text, start, p);
        ClosingRefuted(text, start, p);
        return Err(next.error);
      }
      var t := next.value;
      if t.kind.Open? {
        depth := depth + 1;
      } else if t.kind.Close? {
        depth := depth - 1;
        if depth == 0 {
          return Ok(index);
        }
      }
      if IsToken(text, p, t) {
        TilesAppend(text, start, ts, p, t);
        DepthAppend(ts, t);
        StaysOpenAppend(ts, t);
        ts, p := ts + [t], t.end;
      }
      index := t.end;
    }
    if index == p {
      EndHasNoToken(text, p);
    }
    assert Stuck(text, start, p);
    ClosingRefuted(text, start, p);
    return Err(UnterminatedModule);
  }

  lemma EndHasNoToken(text: string, p: nat)
    requires p >= |text|
    ensures NoToken(text, p) && RawOpen(text, p).None?
  {
  }

  lemma ClosingRefuted(text: string, i: nat, p: nat)
    requires Stuck(text, i, p)
    ensures NoClosing(text, i)
  {
    forall c ensures !IsClosing(text, i, c) {
      StuckHasNoClosing(text, i, p, c);
    }
  }

  // ----- line ranges of the test modules -----

  /** `text.count("\n", 0, position)` */
  function Newlines(text: string, position: nat): nat
    requires position <= |text|
  {
    if position == 0 then 0
    else Newlines(text, position - 1) + if text[position - 1] == '\n' then 1 else 0
  }

  /** The line, counted from one, on which a position lies */
  function LineOf(text: string, position: nat): nat
    requires position <= |text|
  {
    Newlines(text, position) + 1
  }

  /** Where the pattern for a test module header matched: `end` is just after its `{`. */
  datatype Match = Match(start: nat, end: nat)

  predicate ValidMatch(text: string, m: Match) {
    m.start < m.end <= |text|
  }

  datatype Range = Range(first: nat, last: nat)

  predicate InRange(n: int, r: Range) { r.first <= n <= r.last }

  /** The lines from a module's header to the brace that closes it */
  ghost predicate IsModuleRange(text: string, m: Match, r: Range)
    requires ValidMatch(text, m)
  {
    exists c :: IsClosing(text, m.end, c) && r == Range(LineOf(text, m.start), LineOf(text, c))
  }

  /** A source file that can be read, and where the headers of its test modules are */
  datatype Source = Source(text: string, headers: seq<Match>)

  predicate ValidHeaders(source: Source) {
    forall m | m in source.headers :: ValidMatch(source.text, m)
  }

  /** One range for every header, unless some module is never closed */
  ghost predicate IsTestRanges(source: Source, r: Result<seq<Range>, ScanError>)
    requires ValidHeaders(source)
  {
    && (r.Ok? ==>
          && |r.value| == |source.headers|
          && forall i :: 0 <= i < |source.headers| ==> IsModuleRange(source.text, source.headers[i], r.value[i]))
    && (r.Err? <==> exists i :: 0 <= i < |source.headers| && NoClosing(source.text, source.headers[i].end))
  }

  /** `test_ranges`, given the header matches */
  method TestRanges(source: Source) returns (r: Result<seq<Range>, ScanError>)
    requires ValidHeaders(source)
    ensures IsTestRanges(source, r)
  {
    var text, matches := source.text, source.headers;
    var ranges: seq<Range> := [];
    for i := 0 to |matches|
      invariant |ranges| == i
      invariant forall k :: 0 <= k < i ==> IsModuleRange(text, matches[k], ranges[k])
      invariant forall k :: 0 <= k < i ==> !NoClosing(text, matches[k].end)
    {
      var m := matches[i];
      assert m in matches;
      var closing := MatchingBrace(text, m.end - 1);
      if closing.Err? {
        return Err(closing.error);
      }
      var range := Range(LineOf(text, m.start), LineOf(text, closing.value));
      assert IsClosing(text, m.end, closing.value);
      ranges := ranges + [range];
    }
    return Ok(ranges);
  }

  lemma {:induction false} LinesGrow(text: string, p: nat, q: nat)
    requires p <= q <= |text|
    ensures LineOf(text, p) <= LineOf(text, q)
    decreases q - p
  {
    if p < q {
      LinesGrow(text, p, q - 1);
    }
  }

  lemma {:induction false} LineIsReached(text: string, p: nat, q: nat, n: nat) returns (at: nat)
    requires p <= q <= |text| && LineOf(text, p) <= n <= LineOf(text, q)
    ensures p <= at <= q && LineOf(text, at) == n
    decreases q - p
  {
    if LineOf(text, q) == n {
      at := q;
    } else {
      at := LineIsReached(text, p, q - 1, n);
    }
  }

  lemma {:induction false} TilesForward(text: string, i: nat, ts: seq<Token>, j: nat)
    requires Tiles(text, i, ts, j)
    ensures i <= j
    decreases |ts|
  {
    if ts != [] {
      TilesForward(text, ts[0].end, ts[1..], j);
    }
  }

  /** A line is dropped exactly when the module has a character on it. */
  lemma RangeIsModuleLines(text: string, m: Match, c: nat, n: nat)
    requires ValidMatch(text, m) && IsClosing(text, m.end, c)
    ensures InRange(n, Range(LineOf(text, m.start), LineOf(text, c))) <==>
            exists at: nat :: m.start <= at <= c && LineOf(text, at) == n
  {
    var ts :| Tiles(text, m.end, ts, c) && StaysOpen(ts) && Depth(ts) == 1;
    TilesForward(text, m.end, ts, c);
    if InRange(n, Range(LineOf(text, m.start), LineOf(text, c))) {
      var at := LineIsReached(text, m.start, c, n);
    }
    forall at: nat | m.start <= at <= c && LineOf(text, at) == n
      ensures InRange(n, Range(LineOf(text, m.start), LineOf(text, c)))
    {
      LinesGrow(text, m.start, at);
      LinesGrow(text, at, c);
    }
  }
}
