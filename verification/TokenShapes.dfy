/** What the tokens of `RustTokens` look like, character by character, and that each
    of them hides the braces inside it from the scanner of
    `scripts/check_production_coverage.py`. */
module TokenShapes {
  import opened Options
  import opened Sequences
  import opened RustTokens

  // ----- raw strings -----

  predicate HashesAt(text: string, k: int, h: nat) {
    0 <= k && k + h <= |text| && forall m :: k <= m < k + h ==> text[m] == '#'
  }

  /** A quote and `h` hashes stand at `k`. */
  predicate QuoteAt(text: string, k: int, h: nat) {
    CharAt(text, k, '"') && HashesAt(text, k + 1, h)
  }

  /** `r` or `br` */
  predicate RawPrefix(text: string, i: nat, p: nat) {
    (p == 1 && CharAt(text, i, 'r')) || (p == 2 && CharAt(text, i, 'b') && CharAt(text, i + 1, 'r'))
  }

  /** A prefix of length `p`, `h` hashes, a quote, a body without a quote and `h`
      hashes, a quote and `h` hashes */
  ghost predicate RawShape(text: string, i: nat, p: nat, h: nat, j: int) {
    var body, end := i + p + h + 1, j - 1 - h;
    && RawPrefix(text, i, p) && HashesAt(text, i + p, h) && CharAt(text, i + p + h, '"')
    && body <= end && QuoteAt(text, end, h)
    && forall k :: body <= k < end ==> !QuoteAt(text, k, h)
  }

  lemma {:induction false} HashRunIs(text: string, k: nat, h: nat)
    requires HashesAt(text, k, h) && (k + h < |text| ==> text[k + h] != '#')
    ensures HashRun(text, k) == h
    decreases h
  {
    if h > 0 {
      HashRunIs(text, k + 1, h - 1);
    }
  }

  lemma TerminatorAt(text: string, k: int, h: nat)
    ensures At(text, k, "\"" + Hashes(h)) <==> QuoteAt(text, k, h)
  {
    var t := "\"" + Hashes(h);
    if At(text, k, t) {
      assert text[k..k + |t|][0] == '"';
      forall m | k + 1 <= m < k + 1 + h ensures text[m] == '#' {
        assert text[k..k + |t|][m - k] == t[m - k];
      }
    }
    if QuoteAt(text, k, h) {
      assert text[k..k + |t|] == t;
    }
  }

  lemma RawOpenShape(text: string, i: nat, p: nat, h: nat)
    requires RawPrefix(text, i, p) && HashesAt(text, i + p, h) && CharAt(text, i + p + h, '"')
    ensures RawOpen(text, i) == Some(RawHead(i + p + h + 1, h))
  {
    HashRunIs(text, i + p, h);
  }

  lemma RawOpenFinds(text: string, i: nat) returns (p: nat)
    requires RawOpen(text, i).Some?
    ensures var h := RawOpen(text, i).value.hashes;
            && RawPrefix(text, i, p) && HashesAt(text, i + p, h) && CharAt(text, i + p + h, '"')
            && RawOpen(text, i).value.body == i + p + h + 1
  {
    p := if CharAt(text, i, 'r') then 1 else 2;
  }

  /** A raw string token is exactly that: the prefix, as many hashes after the last
      quote as before the first, and no such end in between. */
  lemma RawStringIs(text: string, i: nat, j: int)
    ensures IsToken(text, i, Token(RawString, j)) <==> exists p, h :: RawShape(text, i, p, h, j)
  {
    if IsRawString(text, i, j) {
      var p := RawOpenFinds(text, i);
      RawShapeOf(text, i, p, RawOpen(text, i).value.hashes, j);
    }
    forall p, h | RawShape(text, i, p, h, j) ensures IsRawString(text, i, j) {
      RawShapeIsToken(text, i, p, h, j);
    }
  }

  lemma RawShapeIsToken(text: string, i: nat, p: nat, h: nat, j: int)
    requires RawShape(text, i, p, h, j)
    ensures IsRawString(text, i, j)
  {
    RawOpenShape(text, i, p, h);
    RawShapeOf(text, i, p, h, j);
  }

  lemma RawShapeOf(text: string, i: nat, p: nat, h: nat, j: int)
    requires RawPrefix(text, i, p) && HashesAt(text, i + p, h) && CharAt(text, i + p + h, '"')
    ensures RawShape(text, i, p, h, j) <==> FirstAt(text, "\"" + Hashes(h), i + p + h + 1, j - 1 - h)
  {
    forall k ensures At(text, k, "\"" + Hashes(h)) <==> QuoteAt(text, k, h) {
      TerminatorAt(text, k, h);
    }
  }

  // ----- one token in braces -----

  /** One token that is not a brace, between two braces: the last one closes. */
  lemma EnclosedToken(text: string, t: Token)
    requires |text| >= 2 && text[|text| - 1] == '}'
    requires IsToken(text, 1, t) && 1 < t.end == |text| - 1 && !t.kind.Open? && !t.kind.Close?
    ensures forall c: nat :: IsClosing(text, 1, c) <==> c == |text| - 1
  {
    EnclosedIsClosed(text, t);
    forall c: nat | IsClosing(text, 1, c) ensures c == |text| - 1 {
      ClosingIsUnique(text, 1, c, |text| - 1);
    }
  }

  lemma EnclosedIsClosed(text: string, t: Token)
    requires |text| >= 2 && text[|text| - 1] == '}'
    requires IsToken(text, 1, t) && 1 < t.end == |text| - 1 && !t.kind.Open? && !t.kind.Close?
    ensures IsClosing(text, 1, |text| - 1)
  {
    var last: nat := |text| - 1;
    assert Tiles(text, 1, [], 1);
    TilesAppend(text, 1, [], 1, t);
    OneTokenIsOpen(t);
    assert Tiles(text, 1, [] + [t], last);
  }

  lemma OneTokenIsOpen(t: Token)
    requires !t.kind.Open? && !t.kind.Close?
    ensures Depth([] + [t]) == 1 && StaysOpen([] + [t])
  {
    DepthAppend([], t);
    StaysOpenAppend([], t);
  }

  function RawText(prefix: string, h: nat, body: string): string {
    prefix + Hashes(h) + "\"" + body + "\"" + Hashes(h)
  }

  function InBraces(token: string): string {
    "{" + token + "}"
  }

  lemma EndsInBrace(token: string)
    ensures var text := InBraces(token); |text| == |token| + 2 && text[|text| - 1] == '}'
  {
  }

  /** Braces in a raw string never count, whatever its hashes and its body. */
  lemma RawStringHides(prefix: string, h: nat, body: string)
    requires prefix == "r" || prefix == "br"
    requires forall k :: !QuoteAt(body, k, h)
    ensures var text := InBraces(RawText(prefix, h, body));
            forall c: nat :: IsClosing(text, 1, c) <==> c == |text| - 1
  {
    var text := InBraces(RawText(prefix, h, body));
    RawTextShape(prefix, h, body);
    RawShapeIsToken(text, 1, |prefix|, h, |text| - 1);
    EndsInBrace(RawText(prefix, h, body));
    EnclosedToken(text, Token(RawString, |text| - 1));
  }

  lemma RawTextShape(prefix: string, h: nat, body: string)
    requires prefix == "r" || prefix == "br"
    requires forall k :: !QuoteAt(body, k, h)
    ensures var text := InBraces(RawText(prefix, h, body)); RawShape(text, 1, |prefix|, h, |text| - 1)
  {
    var text := InBraces(RawText(prefix, h, body));
    var start := 1 + |prefix| + h + 1;
    RawTextAt(prefix, h, body);
    assert text[start + |body|] == '"';
    forall k | start <= k < start + |body| ensures !QuoteAt(text, k, h) {
      if QuoteAt(text, k, h) {
        assert QuoteAt(body, k - start, h);
      }
    }
  }

  lemma RawTextAt(prefix: string, h: nat, body: string)
    ensures var text, start := InBraces(RawText(prefix, h, body)), 1 + |prefix| + h + 1;
            && |text| == start + |body| + 1 + h + 1 && text[|text| - 1] == '}'
            && (forall m :: 0 <= m < |prefix| ==> text[1 + m] == prefix[m])
            && (forall m :: 1 + |prefix| <= m < start - 1 ==> text[m] == '#') && text[start - 1] == '"'
            && (forall m :: 0 <= m < |body| ==> text[start + m] == body[m])
            && text[start + |body|] == '"'
            && (forall m :: start + |body| < m < |text| - 1 ==> text[m] == '#')
  {
  }

  // ----- the other tokens -----

  /** A text written as a string literal: quotes and backslashes escaped */
  function Escaped(s: string): string {
    if s == "" then "" else (if s[0] == '"' || s[0] == '\\' then ['\\', s[0]] else [s[0]]) + Escaped(s[1..])
  }

  lemma {:induction false} EscapedIsBody(text: string, k: nat, s: string)
    requires k + |Escaped(s)| <= |text| && text[k..k + |Escaped(s)|] == Escaped(s)
    ensures IsStringBody(text, k, k + |Escaped(s)|)
    decreases |s|
  {
    if s != "" {
      var head, tail := if s[0] == '"' || s[0] == '\\' then ['\\', s[0]] else [s[0]], Escaped(s[1..]);
      SliceParts(text, k, head, tail);
      EscapedIsBody(text, k + |head|, s[1..]);
    }
  }

  lemma SliceParts(text: string, k: nat, head: string, tail: string)
    requires k + |head| + |tail| <= |text| && text[k..k + |head| + |tail|] == head + tail
    ensures text[k + |head|..k + |head| + |tail|] == tail && forall m :: 0 <= m < |head| ==> text[k + m] == head[m]
  {
    forall m | 0 <= m < |head| + |tail| ensures text[k + m] == (head + tail)[m] {
      assert text[k..k + |head| + |tail|][m] == text[k + m];
    }
    forall m | 0 <= m < |tail| ensures text[k + |head|..k + |head| + |tail|][m] == tail[m] {
      assert text[k + (|head| + m)] == (head + tail)[|head| + m];
    }
  }

  /** Braces in a string literal never count. */
  lemma StringHides(s: string)
    ensures var text := InBraces("\"" + Escaped(s) + "\"");
            forall c: nat :: IsClosing(text, 1, c) <==> c == |text| - 1
  {
    var text := InBraces("\"" + Escaped(s) + "\"");
    assert text[2..2 + |Escaped(s)|] == Escaped(s);
    EscapedIsBody(text, 2, s);
    EnclosedToken(text, Token(StringLiteral, |text| - 1));
  }

  /** A character other than a newline as a literal never counts as a brace. */
  lemma CharHides(ch: char)
    requires ch != '\n'
    ensures var text := InBraces(if ch == '\'' || ch == '\\' then ['\'', '\\', ch, '\''] else ['\'', ch, '\'']);
            forall c: nat :: IsClosing(text, 1, c) <==> c == |text| - 1
  {
    var text := InBraces(if ch == '\'' || ch == '\\' then ['\'', '\\', ch, '\''] else ['\'', ch, '\'']);
    EnclosedToken(text, Token(CharLiteral, |text| - 1));
  }

  lemma NewlineAt(text: string, k: int)
    ensures At(text, k, "\n") <==> CharAt(text, k, '\n')
  {
    if At(text, k, "\n") {
      assert text[k..k + 1][0] == '\n';
    }
    if CharAt(text, k, '\n') {
      assert text[k..k + 1] == "\n";
    }
  }

  /** A line comment hides everything up to the end of its line. */
  lemma LineCommentHides(body: string)
    requires '\n' !in body
    ensures var text := InBraces("//" + body + "\n");
            forall c: nat :: IsClosing(text, 1, c) <==> c == |text| - 1
  {
    var text := InBraces("//" + body + "\n");
    var n := 3 + |body|;
    assert text[n..n + 1] == "\n";
    forall k | 3 <= k < n ensures !At(text, k, "\n") {
      assert text[k] == body[k - 3] && body[k - 3] in body;
      NewlineAt(text, k);
    }
    EnclosedToken(text, Token(LineComment, |text| - 1));
  }

  /** `n` comments inside each other */
  function Nested(n: nat, body: string): string {
    if n == 0 then body else "/*" + Nested(n - 1, body) + "*/"
  }

  lemma {:induction false} PlainIsBody(text: string, i: nat, j: nat)
    requires i <= j <= |text| && forall k :: i <= k < j ==> text[k] != '/' && text[k] != '*'
    ensures IsCommentBody(text, i, j)
    decreases j - i
  {
    if i < j {
      PlainIsBody(text, i + 1, j);
    }
  }

  lemma {:induction false} NestedIsBody(text: string, i: nat, n: nat, body: string)
    requires '/' !in body && '*' !in body
    requires i + |Nested(n, body)| <= |text| && text[i..i + |Nested(n, body)|] == Nested(n, body)
    ensures IsCommentBody(text, i, i + |Nested(n, body)|)
    ensures n > 0 ==> IsComment(text, i, i + |Nested(n, body)|)
    decreases n
  {
    var all := Nested(n, body);
    var j := i + |all|;
    if n == 0 {
      forall k | i <= k < j ensures text[k] != '/' && text[k] != '*' {
        assert text[k] == text[i..j][k - i] == body[k - i] && body[k - i] in body;
      }
      PlainIsBody(text, i, j);
    } else {
      var inner := Nested(n - 1, body);
      CommentParts(text, i, inner);
      NestedIsBody(text, i + 2, n - 1, body);
      assert IsComment(text, i, j) && IsCommentBody(text, j, j);
      assert IsCommentThenBody(text, i, j);
    }
  }

  lemma CommentParts(text: string, i: nat, inner: string)
    requires var all := "/*" + inner + "*/"; i + |all| <= |text| && text[i..i + |all|] == all
    ensures text[i + 2..i + 2 + |inner|] == inner
    ensures CommentOpens(text, i) && CommentCloses(text, i + 2 + |inner|)
  {
    var all := "/*" + inner + "*/";
    forall k | 0 <= k < |all| ensures text[i + k] == all[k] {
      assert text[i..i + |all|][k] == text[i + k];
    }
    forall m | 0 <= m < |inner| ensures text[i + 2..i + 2 + |inner|][m] == inner[m] {
      assert text[i + (2 + m)] == all[2 + m];
    }
  }

  /** Block comments hide their body at every depth of nesting. */
  lemma NestedCommentHides(n: nat, body: string)
    requires n > 0 && '/' !in body && '*' !in body
    ensures var text := InBraces(Nested(n, body));
            forall c: nat :: IsClosing(text, 1, c) <==> c == |text| - 1
  {
    var text := InBraces(Nested(n, body));
    assert text[1..1 + |Nested(n, body)|] == Nested(n, body);
    NestedIsBody(text, 1, n, body);
    EnclosedToken(text, Token(BlockComment, |text| - 1));
  }

  // ----- braces -----

  function Repeated(n: nat, c: char): string {
    seq(n, k => c)
  }

  /** Braces inside each other: the last one closes the first. */
  lemma BracesNest(n: nat)
    ensures var text := Repeated(n + 1, '{') + Repeated(n + 1, '}');
            forall c: nat :: IsClosing(text, 1, c) <==> c == |text| - 1
  {
    var text := Repeated(n + 1, '{') + Repeated(n + 1, '}');
    var ts := OpenBraces(text, n, n);
    ts := CloseBraces(text, n, ts, n);
    assert IsClosing(text, 1, |text| - 1);
    forall c: nat | IsClosing(text, 1, c) ensures c == |text| - 1 {
      ClosingIsUnique(text, 1, c, |text| - 1);
    }
  }

  lemma OpenBraces(text: string, n: nat, m: nat) returns (ts: seq<Token>)
    requires text == Repeated(n + 1, '{') + Repeated(n + 1, '}') && m <= n
    ensures Tiles(text, 1, ts, m + 1) && Depth(ts) == m + 1 && StaysOpen(ts)
  {
    ts := [];
    for k := 0 to m
      invariant Tiles(text, 1, ts, k + 1) && Depth(ts) == k + 1 && StaysOpen(ts)
    {
      var t := Token(Open, k + 2);
      TilesAppend(text, 1, ts, k + 1, t);
      DepthAppend(ts, t);
      StaysOpenAppend(ts, t);
      ts := ts + [t];
    }
  }

  lemma CloseBraces(text: string, n: nat, opened_: seq<Token>, m: nat) returns (ts: seq<Token>)
    requires text == Repeated(n + 1, '{') + Repeated(n + 1, '}') && m <= n
    requires Tiles(text, 1, opened_, n + 1) && Depth(opened_) == n + 1 && StaysOpen(opened_)
    ensures Tiles(text, 1, ts, n + 1 + m) && Depth(ts) == n + 1 - m && StaysOpen(ts)
  {
    ts := opened_;
    for k := 0 to m
      invariant Tiles(text, 1, ts, n + 1 + k) && Depth(ts) == n + 1 - k && StaysOpen(ts)
    {
      var t := Token(Close, n + 2 + k);
      TilesAppend(text, 1, ts, n + 1 + k, t);
      DepthAppend(ts, t);
      StaysOpenAppend(ts, t);
      ts := ts + [t];
    }
  }
}
