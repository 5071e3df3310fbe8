/** The token grammar behind `matching_brace` of
    `scripts/check_production_coverage.py`. */
module RustTokens {
  import opened Options

  /** `text.startswith(pattern, i)` */
  predicate At(text: string, i: int, pattern: string) {
    0 <= i && i + |pattern| <= |text| && text[i..i + |pattern|] == pattern
  }

  predicate CharAt(text: string, i: int, c: char) {
    0 <= i < |text| && text[i] == c
  }

  predicate Pair(text: string, i: int, a: char, b: char) {
    CharAt(text, i, a) && CharAt(text, i + 1, b)
  }

  lemma AtPair(text: string, i: int, a: char, b: char)
    ensures At(text, i, [a, b]) <==> Pair(text, i, a, b)
  {
    if At(text, i, [a, b]) {
      assert text[i..i + 2][0] == a && text[i..i + 2][1] == b;
    }
    if Pair(text, i, a, b) {
      assert text[i..i + 2] == [a, b];
    }
  }

  ghost predicate FirstAt(text: string, pattern: string, from: int, j: int) {
    from <= j && At(text, j, pattern) && forall k :: from <= k < j ==> !At(text, k, pattern)
  }

  ghost predicate Nowhere(text: string, pattern: string, from: int) {
    forall k :: from <= k ==> !At(text, k, pattern)
  }

  // ----- comments -----

  ghost predicate IsLineComment(text: string, i: int, j: int) {
    && Pair(text, i, '/', '/')
    && (FirstAt(text, "\n", i + 2, j - 1) || (j == |text| && Nowhere(text, "\n", i + 2)))
  }

  predicate CommentOpens(text: string, i: int) { Pair(text, i, '/', '*') }

  predicate CommentCloses(text: string, i: int) { Pair(text, i, '*', '/') }

  /** comment ::= "/*" body "*/" */
  ghost predicate IsComment(text: string, i: int, j: int)
    decreases j - i, 0
  {
    i + 4 <= j && CommentOpens(text, i) && CommentCloses(text, j - 2) && IsCommentBody(text, i + 2, j - 2)
  }

  /** body ::= nothing | plain body | comment body, where `plain` is a character
      at which no comment opens or closes */
  ghost predicate IsCommentBody(text: string, i: int, j: int)
    decreases j - i, 2
  {
    || i == j
    || (0 <= i < j <= |text| && !CommentOpens(text, i) && !CommentCloses(text, i) && IsCommentBody(text, i + 1, j))
    || IsCommentThenBody(text, i, j)
  }

  ghost predicate IsCommentThenBody(text: string, i: int, j: int)
    decreases j - i, 1
  {
    exists k :: i < k <= j && IsComment(text, i, k) && IsCommentBody(text, k, j)
  }

  /** `depth` comments that are still open at `k` are all closed when `j` is reached. */
  ghost predicate ClosesFrom(text: string, k: int, depth: nat, j: int)
    decreases depth
  {
    if depth == 0 then k == j
    else exists m :: IsCommentBody(text, k, m) && CommentCloses(text, m) && ClosesFrom(text, m + 2, depth - 1, j)
  }

  // ----- literals -----

  ghost predicate IsString(text: string, i: int, j: int) {
    CharAt(text, i, '"') && i + 2 <= j && CharAt(text, j - 1, '"') && IsStringBody(text, i + 1, j - 1)
  }

  /** No quote is left unescaped between `i` and `j`. */
  ghost predicate IsStringBody(text: string, i: int, j: int)
    decreases j - i
  {
    || i == j
    || (i + 2 <= j && CharAt(text, i, '\\') && IsStringBody(text, i + 2, j))
    || (0 <= i < j <= |text| && text[i] != '\\' && text[i] != '"' && IsStringBody(text, i + 1, j))
  }

  function HashRun(text: string, k: nat): (h: nat)
    requires k <= |text|
    ensures k + h <= |text|
    ensures forall n :: k <= n < k + h ==> text[n] == '#'
    ensures k + h < |text| ==> text[k + h] != '#'
    decreases |text| - k
  {
    if k < |text| && text[k] == '#' then 1 + HashRun(text, k + 1) else 0
  }

  function Hashes(h: nat): string { seq(h, n => '#') }

  datatype RawHead = RawHead(body: nat, hashes: nat)

  /** `r` or `br`, then any number of hashes, then a quote */
  function RawOpen(text: string, i: nat): (r: Option<RawHead>)
    ensures r.Some? ==> i < r.value.body <= |text| && text[i] in {'r', 'b'}
  {
    if i > |text| then None
    else
      var p := if CharAt(text, i, 'r') then 1 else if Pair(text, i, 'b', 'r') then 2 else 0;
      if p == 0 then None
      else
        var h := HashRun(text, i + p);
        if CharAt(text, i + p + h, '"') then Some(RawHead(i + p + h + 1, h)) else None
  }

  ghost predicate IsRawString(text: string, i: nat, j: int) {
    var head := RawOpen(text, i);
    head.Some? && FirstAt(text, "\"" + Hashes(head.value.hashes), head.value.body, j - 1 - head.value.hashes)
  }

  predicate IsPlainChar(text: string, i: nat) {
    i + 2 < |text| && text[i] == '\'' && text[i + 1] !in {'\\', '\'', '\n'} && text[i + 2] == '\''
  }

  predicate IsEscapedChar(text: string, i: nat) {
    i + 3 < |text| && text[i] == '\'' && text[i + 1] == '\\' && text[i + 2] != '\n' && text[i + 3] == '\''
  }

  // ----- tokens -----

  datatype Kind = LineComment | BlockComment | RawString | StringLiteral | CharLiteral | Open | Close | Other

  datatype Token = Token(kind: Kind, end: int)

  predicate IsOther(text: string, i: nat) {
    && i < |text|
    && !Pair(text, i, '/', '/') && !CommentOpens(text, i) && RawOpen(text, i).None?
    && !IsPlainChar(text, i) && !IsEscapedChar(text, i)
    && text[i] !in {'"', '{', '}'}
  }

  ghost predicate IsToken(text: string, i: nat, t: Token) {
    match t.kind
    case LineComment => IsLineComment(text, i, t.end)
    case BlockComment => IsComment(text, i, t.end)
    case RawString => IsRawString(text, i, t.end)
    case StringLiteral => IsString(text, i, t.end)
    case CharLiteral => (IsPlainChar(text, i) && t.end == i + 3) || (IsEscapedChar(text, i) && t.end == i + 4)
    case Open => CharAt(text, i, '{') && t.end == i + 1
    case Close => CharAt(text, i, '}') && t.end == i + 1
    case Other => IsOther(text, i) && t.end == i + 1
  }

  ghost predicate NoToken(text: string, i: nat) {
    forall t :: !IsToken(text, i, t)
  }

  /** The tokens `ts` lie end to end from `i` to `j`. */
  ghost predicate Tiles(text: string, i: nat, ts: seq<Token>, j: nat)
    decreases |ts|
  {
    if ts == [] then i == j
    else IsToken(text, i, ts[0]) && i < ts[0].end <= |text| && Tiles(text, ts[0].end, ts[1..], j)
  }

  /** Braces left open inside a module that `ts` follow the opening brace of */
  function Depth(ts: seq<Token>): int {
    if ts == [] then 1
    else Depth(ts[..|ts| - 1]) + match ts[|ts| - 1].kind case Open => 1 case Close => -1 case _ => 0
  }

  ghost predicate StaysOpen(ts: seq<Token>) {
    forall n :: 0 <= n <= |ts| ==> Depth(ts[..n]) >= 1
  }

  /** `c` is the first closing brace token at which the depth reaches zero. */
  ghost predicate IsClosing(text: string, i: nat, c: nat) {
    CharAt(text, c, '}') && exists ts :: Tiles(text, i, ts, c) && StaysOpen(ts) && Depth(ts) == 1
  }

  ghost predicate NoClosing(text: string, i: nat) {
    forall c :: !IsClosing(text, i, c)
  }

  /** Tokens run from `i` to a place where no token starts, without closing the module. */
  ghost predicate Stuck(text: string, i: nat, p: nat) {
    NoToken(text, p) && exists ts :: Tiles(text, i, ts, p) && StaysOpen(ts)
  }

  // ----- the depth counter of the comment loop follows the grammar -----

  lemma CommentNests(text: string, k: int, depth: nat, j: int)
    requires depth > 0 && CommentOpens(text, k)
    ensures ClosesFrom(text, k, depth, j) <==> ClosesFrom(text, k + 2, depth + 1, j)
  {
    if ClosesFrom(text, k, depth, j) {
      var m :| IsCommentBody(text, k, m) && CommentCloses(text, m) && ClosesFrom(text, m + 2, depth - 1, j);
      assert IsCommentThenBody(text, k, m);
      var k' :| k < k' <= m && IsComment(text, k, k') && IsCommentBody(text, k', m);
      assert ClosesFrom(text, k', depth, j);
      assert IsCommentBody(text, k + 2, k' - 2) && CommentCloses(text, k' - 2);
      assert ClosesFrom(text, (k' - 2) + 2, depth, j);
    }
    if ClosesFrom(text, k + 2, depth + 1, j) {
      var m' :| IsCommentBody(text, k + 2, m') && CommentCloses(text, m') && ClosesFrom(text, m' + 2, depth, j);
      var m :| IsCommentBody(text, m' + 2, m) && CommentCloses(text, m) && ClosesFrom(text, m + 2, depth - 1, j);
      BodyForward(text, k + 2, m');
      BodyForward(text, m' + 2, m);
      assert IsComment(text, k, m' + 2);
      assert IsCommentThenBody(text, k, m);
      assert IsCommentBody(text, k, m);
    }
  }

  lemma BodyForward(text: string, i: int, j: int)
    requires IsCommentBody(text, i, j)
    ensures i <= j
  {
  }

  lemma ThenBodyOpens(text: string, i: int, j: int)
    requires IsCommentThenBody(text, i, j)
    ensures CommentOpens(text, i)
  {
  }

  lemma BodyStopsAtClose(text: string, i: int, j: int)
    requires IsCommentBody(text, i, j) && CommentCloses(text, i)
    ensures i == j
  {
    if IsCommentThenBody(text, i, j) {
      ThenBodyOpens(text, i, j);
    }
  }

  lemma BodySkips(text: string, i: int, j: int)
    requires IsCommentBody(text, i, j) && i != j && !CommentOpens(text, i)
    ensures IsCommentBody(text, i + 1, j)
  {
    if IsCommentThenBody(text, i, j) {
      ThenBodyOpens(text, i, j);
    }
  }

  lemma CommentUnnests(text: string, k: int, depth: nat, j: int)
    requires depth > 0 && CommentCloses(text, k)
    ensures ClosesFrom(text, k, depth, j) <==> ClosesFrom(text, k + 2, depth - 1, j)
  {
    assert IsCommentBody(text, k, k);
    if ClosesFrom(text, k, depth, j) {
      var m :| IsCommentBody(text, k, m) && CommentCloses(text, m) && ClosesFrom(text, m + 2, depth - 1, j);
      BodyStopsAtClose(text, k, m);
    }
  }

  lemma CommentSkips(text: string, k: int, depth: nat, j: int)
    requires depth > 0 && 0 <= k < |text| && !CommentOpens(text, k) && !CommentCloses(text, k)
    ensures ClosesFrom(text, k, depth, j) <==> ClosesFrom(text, k + 1, depth, j)
  {
    if ClosesFrom(text, k, depth, j) {
      var m :| IsCommentBody(text, k, m) && CommentCloses(text, m) && ClosesFrom(text, m + 2, depth - 1, j);
      BodySkips(text, k, m);
    }
    if ClosesFrom(text, k + 1, depth, j) {
      var m :| IsCommentBody(text, k + 1, m) && CommentCloses(text, m) && ClosesFrom(text, m + 2, depth - 1, j);
      BodyForward(text, k + 1, m);
      assert IsCommentBody(text, k, m);
    }
  }

  lemma CommentNeverCloses(text: string, k: int, depth: nat, j: int)
    requires depth > 0 && k >= |text|
    ensures !ClosesFrom(text, k, depth, j)
  {
    forall m | IsCommentBody(text, k, m) ensures !CommentCloses(text, m) {
      BodyForward(text, k, m);
    }
  }

  lemma CommentIsOneOpen(text: string, i: int, j: int)
    requires CommentOpens(text, i)
    ensures IsComment(text, i, j) <==> ClosesFrom(text, i + 2, 1, j)
  {
    if IsComment(text, i, j) {
      assert IsCommentBody(text, i + 2, j - 2) && CommentCloses(text, j - 2) && ClosesFrom(text, (j - 2) + 2, 0, j);
    }
    if ClosesFrom(text, i + 2, 1, j) {
      var m :| IsCommentBody(text, i + 2, m) && CommentCloses(text, m) && ClosesFrom(text, m + 2, 0, j);
      BodyForward(text, i + 2, m);
      assert m == j - 2;
    }
  }

  // ----- at most one token starts at each place -----

  lemma {:induction false} ClosesOnce(text: string, k: int, depth: nat, j: int, j': int)
    requires ClosesFrom(text, k, depth, j) && ClosesFrom(text, k, depth, j') && 0 <= k
    ensures j == j'
    decreases |text| - k, depth
  {
    if depth > 0 {
      if k >= |text| {
        CommentNeverCloses(text, k, depth, j);
      } else if CommentOpens(text, k) {
        CommentNests(text, k, depth, j);
        CommentNests(text, k, depth, j');
        ClosesOnce(text, k + 2, depth + 1, j, j');
      } else if CommentCloses(text, k) {
        CommentUnnests(text, k, depth, j);
        CommentUnnests(text, k, depth, j');
        ClosesOnce(text, k + 2, depth - 1, j, j');
      } else {
        CommentSkips(text, k, depth, j);
        CommentSkips(text, k, depth, j');
        ClosesOnce(text, k + 1, depth, j, j');
      }
    }
  }

  lemma {:induction false} StringEndsOnce(text: string, k: int, j: int, j': int)
    requires IsStringBody(text, k, j) && CharAt(text, j, '"') && IsStringBody(text, k, j') && CharAt(text, j', '"')
    ensures j == j'
    decreases j - k
  {
    if k < j && k < j' {
      if CharAt(text, k, '\\') {
        StringEndsOnce(text, k + 2, j, j');
      } else {
        StringEndsOnce(text, k + 1, j, j');
      }
    }
  }

  lemma TokenIsUnique(text: string, i: nat, t: Token, t': Token)
    requires IsToken(text, i, t) && IsToken(text, i, t')
    ensures t == t'
  {
    assert t.kind == t'.kind;
    match t.kind
    case BlockComment =>
      CommentIsOneOpen(text, i, t.end);
      CommentIsOneOpen(text, i, t'.end);
      ClosesOnce(text, i + 2, 1, t.end, t'.end);
    case StringLiteral =>
      StringEndsOnce(text, i + 1, t.end - 1, t'.end - 1);
    case _ =>
  }

  // ----- tilings -----

  lemma {:induction false} TilesAppend(text: string, i: nat, ts: seq<Token>, j: nat, t: Token)
    requires Tiles(text, i, ts, j) && IsToken(text, j, t) && j < t.end <= |text|
    ensures Tiles(text, i, ts + [t], t.end)
    decreases |ts|
  {
    if ts == [] {
      assert Tiles(text, t.end, [], t.end);
    } else {
      TilesAppend(text, ts[0].end, ts[1..], j, t);
      assert (ts + [t])[1..] == ts[1..] + [t];
    }
  }

  lemma DepthAppend(ts: seq<Token>, t: Token)
    ensures Depth(ts + [t]) == Depth(ts) + match t.kind case Open => 1 case Close => -1 case _ => 0
  {
    assert (ts + [t])[..|ts|] == ts;
  }

  lemma StaysOpenAppend(ts: seq<Token>, t: Token)
    requires StaysOpen(ts) && Depth(ts + [t]) >= 1
    ensures StaysOpen(ts + [t])
  {
    forall n | 0 <= n <= |ts| + 1 ensures Depth((ts + [t])[..n]) >= 1 {
      if n <= |ts| {
        assert (ts + [t])[..n] == ts[..n];
      } else {
        assert (ts + [t])[..n] == ts + [t];
      }
    }
  }

  /** A tiling that ends at a token of the text is a prefix of one that gets stuck. */
  lemma {:induction false} PrefixOfStuck(text: string, i: nat, ts: seq<Token>, p: nat, us: seq<Token>, c: nat, t: Token)
    requires Tiles(text, i, ts, p) && NoToken(text, p)
    requires Tiles(text, i, us, c) && IsToken(text, c, t)
    ensures |us| < |ts| && ts[..|us|] == us && ts[|us|] == t
    decreases |ts|
  {
    if us == [] {
      assert ts != [];
      TokenIsUnique(text, i, ts[0], t);
    } else {
      assert ts != [];
      TokenIsUnique(text, i, ts[0], us[0]);
      PrefixOfStuck(text, ts[0].end, ts[1..], p, us[1..], c, t);
      assert ts[..|us|] == [ts[0]] + ts[1..][..|us| - 1];
    }
  }

  lemma PrefixStaysOpen(ts: seq<Token>, us: seq<Token>, t: Token)
    requires StaysOpen(ts) && |us| < |ts| && ts[..|us|] == us && ts[|us|] == t
    ensures Depth(us + [t]) >= 1
  {
    assert ts[..|us| + 1] == us + [t];
  }

  /** Where the tokens get stuck, no closing brace exists. */
  lemma StuckHasNoClosing(text: string, i: nat, p: nat, c: nat)
    requires Stuck(text, i, p)
    ensures !IsClosing(text, i, c)
  {
    if IsClosing(text, i, c) {
      var ts :| Tiles(text, i, ts, p) && StaysOpen(ts);
      var us :| Tiles(text, i, us, c) && StaysOpen(us) && Depth(us) == 1;
      var t := Token(Close, c + 1);
      PrefixOfStuck(text, i, ts, p, us, c, t);
      DepthAppend(us, t);
      PrefixStaysOpen(ts, us, t);
    }
  }

  /** Two tilings of the same text agree as far as the shorter one goes. */
  lemma {:induction false} TilingsAgree(text: string, i: nat, ts: seq<Token>, j: nat, us: seq<Token>, j': nat)
    requires Tiles(text, i, ts, j) && Tiles(text, i, us, j') && |ts| <= |us|
    ensures us[..|ts|] == ts
    ensures |ts| == |us| ==> j == j'
    ensures |ts| < |us| ==> IsToken(text, j, us[|ts|])
    decreases |ts|
  {
    if ts != [] {
      TokenIsUnique(text, i, ts[0], us[0]);
      TilingsAgree(text, ts[0].end, ts[1..], j, us[1..], j');
      assert us[..|ts|] == [us[0]] + us[1..][..|ts| - 1];
    }
  }

  /** At most one brace closes a module. */
  lemma ClosingIsUnique(text: string, i: nat, c: nat, c': nat)
    requires IsClosing(text, i, c) && IsClosing(text, i, c')
    ensures c == c'
  {
    var ts :| Tiles(text, i, ts, c) && StaysOpen(ts) && Depth(ts) == 1;
    var us :| Tiles(text, i, us, c') && StaysOpen(us) && Depth(us) == 1;
    if |ts| <= |us| {
      ShorterClosingIsLast(text, i, ts, c, us, c');
    } else {
      ShorterClosingIsLast(text, i, us, c', ts, c);
    }
  }

  lemma ShorterClosingIsLast(text: string, i: nat, ts: seq<Token>, c: nat, us: seq<Token>, c': nat)
    requires Tiles(text, i, ts, c) && Depth(ts) == 1 && CharAt(text, c, '}')
    requires Tiles(text, i, us, c') && StaysOpen(us)
    requires |ts| <= |us|
    ensures c == c'
  {
    TilingsAgree(text, i, ts, c, us, c');
    if |ts| < |us| {
      var t := Token(Close, c + 1);
      TokenIsUnique(text, c, us[|ts|], t);
      DepthAppend(ts, t);
      PrefixStaysOpen(us, ts, t);
    }
  }
}
