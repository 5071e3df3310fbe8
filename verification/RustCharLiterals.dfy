/** The character literals of Rust that the scanner of
    `scripts/check_production_coverage.py` does not read as one token, `'\x41'` and
    `'\u{41}'` (the Rust Reference, "Tokens"), and when that makes a difference. */
module RustCharLiterals {
  import opened Options
  import opened RustTokens

  predicate IsHexOrUnderscore(c: char) {
    '0' <= c <= '9' || 'a' <= c <= 'f' || 'A' <= c <= 'F' || c == '_'
  }

  /** `'\xHH'`, or `'\u{H…}'` whatever the number of digits */
  predicate IsLongChar(text: string, i: nat, j: int) {
    && i + 6 <= j <= |text| && text[i] == '\'' && text[i + 1] == '\\' && text[j - 1] == '\''
    && (IsByteBody(text, i, j) || IsUnicodeBody(text, i, j))
  }

  predicate IsByteBody(text: string, i: nat, j: int)
    requires i + 6 <= j <= |text|
  {
    && text[i + 2] == 'x' && j == i + 6
    && '0' <= text[i + 3] <= '7' && IsHexOrUnderscore(text[i + 4]) && text[i + 4] != '_'
  }

  predicate IsUnicodeBody(text: string, i: nat, j: int)
    requires i + 6 <= j <= |text|
  {
    && text[i + 2] == 'u' && text[i + 3] == '{' && text[j - 2] == '}' && i + 7 <= j
    && forall k :: i + 4 <= k < j - 2 ==> IsHexOrUnderscore(text[k])
  }

  /** Both forms, written out: an octal and a hexadecimal digit after `x`, any hexadecimal
      digits in braces after `u`. */
  lemma LongCharsAre(a: char, b: char, digits: string)
    requires '0' <= a <= '7' && ('0' <= b <= '9' || 'a' <= b <= 'f' || 'A' <= b <= 'F')
    requires forall k :: 0 <= k < |digits| ==>
               '0' <= digits[k] <= '9' || 'a' <= digits[k] <= 'f' || 'A' <= digits[k] <= 'F' || digits[k] == '_'
    ensures IsLongChar("'\\x" + [a, b] + "'", 0, 6)
    ensures IsLongChar("'\\u{" + digits + "}'", 0, |digits| + 6) <==> digits != ""
  {
    var short, long := "'\\x" + [a, b] + "'", "'\\u{" + digits + "}'";
    assert short[2] == 'x' && short[3] == a && short[4] == b && short[5] == '\'';
    assert long[2] == 'u' && long[3] == '{' && long[|digits| + 4] == '}' && long[|digits| + 5] == '\'';
    assert forall k :: 4 <= k < |digits| + 4 ==> long[k] == digits[k - 4];
  }

  /** Rust's tokens: the long character literals, and otherwise the scanner's own */
  ghost predicate IsRustToken(text: string, i: nat, t: Token) {
    if t.kind.CharLiteral? && IsLongChar(text, i, t.end) then true
    else IsToken(text, i, t) && forall j :: !IsLongChar(text, i, j)
  }

  /** Where tokens from `i` on end */
  function End(i: nat, ts: seq<Token>): int {
    if ts == [] then i else ts[|ts| - 1].end
  }

  /** Rust's tokens `ts` lie end to end from `i` on. */
  ghost predicate RustTiles(text: string, i: nat, ts: seq<Token>) {
    ts == [] ||
    var front, t := ts[..|ts| - 1], ts[|ts| - 1];
    RustTiles(text, i, front) && 0 <= End(i, front) < t.end <= |text| && IsRustToken(text, End(i, front), t)
  }

  /** The quote that ends a literal before `j` opens one for the scanner, as the first
      quote of `','` does after a long literal. */
  predicate Straddles(text: string, j: nat) {
    j > 0 && (IsPlainChar(text, j - 1) || IsEscapedChar(text, j - 1))
  }

  /** No long literal among the tokens is straddled. */
  predicate NoStraddle(text: string, i: nat, ts: seq<Token>) {
    ts == [] ||
    var front, t := ts[..|ts| - 1], ts[|ts| - 1];
    NoStraddle(text, i, front) && Safe(text, End(i, front), t)
  }

  predicate Safe(text: string, p: int, t: Token) {
    p >= 0 && t.end >= 0 && IsLongChar(text, p, t.end) ==> !Straddles(text, t.end)
  }

  // ----- the scanner's tokens inside a long literal -----

  /** Characters that stand for themselves keep the depth. */
  lemma AppendOthers(text: string, i: nat, ts: seq<Token>, p: nat, q: nat) returns (us: seq<Token>)
    requires Tiles(text, i, ts, p) && p <= q <= |text| && forall k :: p <= k < q ==> IsOther(text, k)
    ensures Tiles(text, i, us, q) && Depth(us) == Depth(ts) && (StaysOpen(ts) ==> StaysOpen(us))
  {
    us := ts;
    if StaysOpen(ts) {
      DepthIsPositive(ts);
    }
    for k := p to q
      invariant Tiles(text, i, us, k) && Depth(us) == Depth(ts) && (StaysOpen(ts) ==> StaysOpen(us))
    {
      us := AppendToken(text, i, us, k, Token(Other, k + 1));
    }
  }

  function Change(t: Token): int {
    match t.kind case Open => 1 case Close => -1 case _ => 0
  }

  lemma AppendToken(text: string, i: nat, ts: seq<Token>, p: nat, t: Token) returns (us: seq<Token>)
    requires Tiles(text, i, ts, p) && IsToken(text, p, t) && p < t.end <= |text|
    ensures us == ts + [t] && Tiles(text, i, us, t.end) && Depth(us) == Depth(ts) + Change(t)
    ensures StaysOpen(ts) && Depth(us) >= 1 ==> StaysOpen(us)
  {
    us := ts + [t];
    TilesAppend(text, i, ts, p, t);
    DepthAppend(ts, t);
    if StaysOpen(ts) && Depth(us) >= 1 {
      StaysOpenAppend(ts, t);
    }
  }

  lemma DepthIsPositive(ts: seq<Token>)
    requires StaysOpen(ts)
    ensures Depth(ts) >= 1
  {
    assert ts[..|ts|] == ts;
  }

  lemma HexIsOther(text: string, k: nat)
    requires k + 1 < |text| && IsHexOrUnderscore(text[k]) && text[k + 1] != 'r'
    ensures IsOther(text, k)
  {
  }

  lemma EscapeIsOther(text: string, i: nat, j: nat)
    requires IsLongChar(text, i, j)
    ensures IsOther(text, i) && IsOther(text, i + 1) && IsOther(text, i + 2)
  {
    assert text[i + 3] != '\'';
  }

  /** The scanner reads a long literal character by character, up to its last quote,
      and ends at the depth at which it began. */
  lemma LongIsTiled(text: string, i: nat, ts: seq<Token>, p: nat, j: nat) returns (us: seq<Token>)
    requires Tiles(text, i, ts, p) && IsLongChar(text, p, j)
    ensures Tiles(text, i, us, j - 1) && Depth(us) == Depth(ts) && (StaysOpen(ts) ==> StaysOpen(us))
  {
    EscapeIsOther(text, p, j);
    us := AppendOthers(text, i, ts, p, p + 3);
    if IsByteBody(text, p, j) {
      HexIsOther(text, p + 3);
      HexIsOther(text, p + 4);
      us := AppendOthers(text, i, us, p + 3, p + 5);
    } else {
      us := UnicodeIsTiled(text, i, us, p, j);
    }
  }

  lemma DigitsAreOther(text: string, p: nat, j: nat)
    requires IsLongChar(text, p, j) && IsUnicodeBody(text, p, j)
    ensures forall k :: p + 4 <= k < j - 2 ==> IsOther(text, k)
  {
    forall k | p + 4 <= k < j - 2 ensures IsOther(text, k) {
      HexIsOther(text, k);
    }
  }

  lemma UnicodeIsTiled(text: string, i: nat, ts: seq<Token>, p: nat, j: nat) returns (us: seq<Token>)
    requires Tiles(text, i, ts, p + 3) && IsLongChar(text, p, j) && IsUnicodeBody(text, p, j)
    ensures Tiles(text, i, us, j - 1) && Depth(us) == Depth(ts) && (StaysOpen(ts) ==> StaysOpen(us))
  {
    if StaysOpen(ts) {
      DepthIsPositive(ts);
    }
    DigitsAreOther(text, p, j);
    us := InBraces(text, i, ts, p + 3, j - 2);
  }

  lemma InBraces(text: string, i: nat, ts: seq<Token>, p: nat, q: nat) returns (us: seq<Token>)
    requires Tiles(text, i, ts, p) && p < q && CharAt(text, p, '{') && CharAt(text, q, '}')
    requires forall k :: p < k < q ==> IsOther(text, k)
    ensures Tiles(text, i, us, q + 1) && Depth(us) == Depth(ts)
    ensures StaysOpen(ts) && Depth(ts) >= 1 ==> StaysOpen(us)
  {
    us := AppendToken(text, i, ts, p, Token(Open, p + 1));
    us := AppendOthers(text, i, us, p + 1, q);
    us := AppendToken(text, i, us, q, Token(Close, q + 1));
  }

  // ----- the boundaries of Rust's tokens -----

  /** The scanner's tokens `us` reach `p` at the depth at which Rust's tokens `ts` do. */
  ghost predicate Follows(text: string, i: nat, us: seq<Token>, p: nat, ts: seq<Token>) {
    Tiles(text, i, us, p) && Depth(us) == Depth(ts) && (StaysOpen(ts) ==> StaysOpen(us))
  }

  /** Without a straddled literal the scanner's tokens refine Rust's and end at the
      same depth. */
  lemma {:induction false} Refines(text: string, i: nat, ts: seq<Token>) returns (us: seq<Token>)
    requires i <= |text| && RustTiles(text, i, ts) && NoStraddle(text, i, ts)
    ensures End(i, ts) >= 0 && Follows(text, i, us, End(i, ts), ts)
    decreases |ts|
  {
    if ts == [] {
      return [];
    }
    var front, t := ts[..|ts| - 1], ts[|ts| - 1];
    us := Refines(text, i, front);
    us := FollowsToken(text, i, us, End(i, front), front, t);
    assert ts == front + [t];
  }

  lemma FollowsToken(text: string, i: nat, us: seq<Token>, p: nat, ts: seq<Token>, t: Token) returns (vs: seq<Token>)
    requires Follows(text, i, us, p, ts) && IsRustToken(text, p, t) && p < t.end <= |text|
    requires Safe(text, p, t)
    ensures Follows(text, i, vs, t.end, ts + [t])
  {
    vs := RefinesToken(text, i, us, p, t);
    DepthAppend(ts, t);
    FrontStaysOpen(ts, t);
  }

  lemma FrontStaysOpen(front: seq<Token>, t: Token)
    ensures StaysOpen(front + [t]) ==> StaysOpen(front) && Depth(front + [t]) >= 1
  {
    var ts := front + [t];
    if StaysOpen(ts) {
      forall n | 0 <= n <= |front| ensures Depth(front[..n]) >= 1 {
        assert ts[..n] == front[..n];
      }
      assert ts[..|ts|] == ts;
    }
  }

  lemma RefinesToken(text: string, i: nat, us: seq<Token>, p: nat, t: Token) returns (vs: seq<Token>)
    requires Tiles(text, i, us, p) && IsRustToken(text, p, t) && p < t.end <= |text|
    requires Safe(text, p, t)
    ensures Tiles(text, i, vs, t.end) && Depth(vs) == Depth(us) + Change(t)
    ensures StaysOpen(us) && Depth(vs) >= 1 ==> StaysOpen(vs)
  {
    if IsLongChar(text, p, t.end) {
      vs := LongIsTiled(text, i, us, p, t.end);
      vs := AppendToken(text, i, vs, t.end - 1, Token(Other, t.end));
    } else {
      vs := AppendToken(text, i, us, p, t);
    }
  }

  ghost predicate Reaches(text: string, i: nat, p: int) {
    p >= 0 && exists us :: Tiles(text, i, us, p)
  }

  /** Every token of Rust starts and ends where some token of the scanner does. */
  ghost predicate BoundariesShared(text: string, i: nat, ts: seq<Token>) {
    Reaches(text, i, End(i, ts)) && (ts == [] || BoundariesShared(text, i, ts[..|ts| - 1]))
  }

  lemma {:induction false} EndsBefore(text: string, i: nat, ts: seq<Token>, j: nat, k: nat)
    requires Tiles(text, i, ts, j) && k < |ts|
    ensures ts[k].end <= j
    decreases |ts|
  {
    if k > 0 {
      EndsBefore(text, ts[0].end, ts[1..], j, k - 1);
    } else if |ts| > 1 {
      EndsBefore(text, ts[0].end, ts[1..], j, 0);
      assert ts[1..][0].end > ts[0].end;
    }
  }

  /** A straddled literal does not end where a token of the scanner does. */
  lemma StraddleMisses(text: string, i: nat, us: seq<Token>, p: nat, j: nat)
    requires Tiles(text, i, us, p) && IsLongChar(text, p, j) && Straddles(text, j)
    ensures !Reaches(text, i, j)
  {
    var vs := LongIsTiled(text, i, us, p, j);
    forall ws, w: nat | Tiles(text, i, ws, w) ensures w != j {
      StraddleCuts(text, i, vs, ws, w, j);
    }
  }

  lemma StraddleCuts(text: string, i: nat, vs: seq<Token>, ws: seq<Token>, w: nat, j: nat)
    requires j > 0 && Tiles(text, i, vs, j - 1) && Straddles(text, j) && Tiles(text, i, ws, w)
    ensures w <= j - 1 || w >= j + 2
  {
    var t := Token(CharLiteral, j - 1 + if IsPlainChar(text, j - 1) then 3 else 4);
    assert IsToken(text, j - 1, t);
    if |vs| <= |ws| {
      TilingsAgree(text, i, vs, j - 1, ws, w);
      if |vs| < |ws| {
        TokenIsUnique(text, j - 1, ws[|vs|], t);
        EndsBefore(text, i, ws, w, |vs|);
      }
    } else {
      TilingsAgree(text, i, ws, w, vs, j - 1);
      EndsBefore(text, i, vs, j - 1, |ws|);
      TokenAfter(text, i, vs, j - 1, ws, w);
    }
  }

  lemma {:induction false} TokenAfter(text: string, i: nat, vs: seq<Token>, q: nat, ws: seq<Token>, p: nat)
    requires Tiles(text, i, vs, q) && Tiles(text, i, ws, p) && |ws| < |vs| && vs[..|ws|] == ws
    ensures vs[|ws|].end > p
    decreases |ws|
  {
    if ws != [] {
      assert vs[0] == ws[0] && vs[1..][..|ws| - 1] == ws[1..];
      TokenAfter(text, ws[0].end, vs[1..], q, ws[1..], p);
    }
  }

  /** The two tokenisations agree, in that every token boundary of Rust is one of the
      scanner's, exactly when no long character literal is followed at once by what
      closes a character literal for the scanner. */
  lemma {:induction false} AgreesIffNoStraddle(text: string, i: nat, ts: seq<Token>)
    requires i <= |text| && RustTiles(text, i, ts)
    ensures BoundariesShared(text, i, ts) <==> NoStraddle(text, i, ts)
    decreases |ts|
  {
    if ts == [] {
      assert Tiles(text, i, [], i);
    } else {
      var front, t := ts[..|ts| - 1], ts[|ts| - 1];
      AgreesIffNoStraddle(text, i, front);
      if NoStraddle(text, i, front) {
        var us := Refines(text, i, front);
        LastBoundary(text, i, us, End(i, front), t);
      }
    }
  }

  lemma LastBoundary(text: string, i: nat, us: seq<Token>, p: nat, t: Token)
    requires Tiles(text, i, us, p) && IsRustToken(text, p, t) && p < t.end <= |text|
    ensures Reaches(text, i, t.end) <==> Safe(text, p, t)
  {
    if Safe(text, p, t) {
      var vs := RefinesToken(text, i, us, p, t);
    } else {
      StraddleMisses(text, i, us, p, t.end);
    }
  }

  // ----- the closing brace -----

  /** The brace that closes the module for Rust, after the tokens `ts` */
  ghost predicate IsRustClosing(text: string, i: nat, ts: seq<Token>, c: nat) {
    && RustTiles(text, i, ts) && End(i, ts) == c && CharAt(text, c, '}')
    && StaysOpen(ts) && Depth(ts) == 1
  }

  /** Where the tokenisations agree the scanner finds Rust's closing brace. */
  lemma FindsRustClosing(text: string, i: nat, ts: seq<Token>, c: nat)
    requires i <= |text| && IsRustClosing(text, i, ts, c) && NoStraddle(text, i, ts)
    ensures IsClosing(text, i, c)
    ensures forall c': nat :: IsClosing(text, i, c') ==> c' == c
  {
    var us := Refines(text, i, ts);
    assert Tiles(text, i, us, c) && StaysOpen(us) && Depth(us) == 1;
    forall c': nat | IsClosing(text, i, c') ensures c' == c {
      ClosingIsUnique(text, i, c, c');
    }
  }

  /** The scanner's tokens up to a position are determined. */
  lemma TilingIsUnique(text: string, i: nat, ts: seq<Token>, us: seq<Token>, j: nat)
    requires Tiles(text, i, ts, j) && Tiles(text, i, us, j)
    ensures ts == us
  {
    if |ts| < |us| {
      ShorterEndsEarlier(text, i, ts, j, us, j);
    } else if |us| < |ts| {
      ShorterEndsEarlier(text, i, us, j, ts, j);
    } else {
      TilingsAgree(text, i, ts, j, us, j);
    }
  }

  lemma ShorterEndsEarlier(text: string, i: nat, ts: seq<Token>, j: nat, us: seq<Token>, j': nat)
    requires Tiles(text, i, ts, j) && Tiles(text, i, us, j') && |ts| < |us|
    ensures j < j'
  {
    TilingsAgree(text, i, ts, j, us, j');
    EndsBefore(text, i, us, j', |ts|);
    TokenAfter(text, i, us, j', ts, j);
  }

  const STRADDLED := "'\\u{41}','{'}"

  const STRADDLED_TOKENS := [Token(CharLiteral, 8), Token(Other, 9), Token(CharLiteral, 12)]

  /** A module that ends with the literals for A and for an opening brace: Rust closes it
      at the last brace, the scanner reads `','` as a literal and counts the brace. */
  lemma StraddledModule()
    ensures IsRustClosing(STRADDLED, 0, STRADDLED_TOKENS, 12) && !IsClosing(STRADDLED, 0, 12)
  {
    ReadByRust(STRADDLED, STRADDLED_TOKENS);
    ReadByScanner(STRADDLED);
  }

  /** `'\u{41}','{'}`, character by character */
  predicate IsStraddled(text: string) {
    && |text| == 13 && text[0] == '\'' && text[1] == '\\' && text[2] == 'u' && text[3] == '{' && text[4] == '4'
    && text[5] == '1' && text[6] == '}' && text[7] == '\'' && text[8] == ',' && text[9] == '\'' && text[10] == '{'
    && text[11] == '\'' && text[12] == '}'
  }

  lemma ReadByRust(text: string, ts: seq<Token>)
    requires IsStraddled(text) && ts == [Token(CharLiteral, 8), Token(Other, 9), Token(CharLiteral, 12)]
    ensures IsRustClosing(text, 0, ts, 12)
  {
    assert IsLongChar(text, 0, 8);
    assert IsRustToken(text, 8, ts[1]) && IsRustToken(text, 9, ts[2]);
    RustAppend(text, 0, [], ts[0]);
    RustAppend(text, 0, [] + [ts[0]], ts[1]);
    RustAppend(text, 0, [] + [ts[0]] + [ts[1]], ts[2]);
    assert [] + [ts[0]] + [ts[1]] + [ts[2]] == ts;
    LiteralsKeepDepth(ts);
  }

  lemma RustAppend(text: string, i: nat, ts: seq<Token>, t: Token)
    requires RustTiles(text, i, ts) && 0 <= End(i, ts) < t.end <= |text| && IsRustToken(text, End(i, ts), t)
    ensures RustTiles(text, i, ts + [t])
  {
    assert (ts + [t])[..|ts|] == ts;
  }

  lemma {:induction false} LiteralsKeepDepth(ts: seq<Token>)
    requires forall k :: 0 <= k < |ts| ==> Change(ts[k]) == 0
    ensures Depth(ts) == 1 && StaysOpen(ts)
    decreases |ts|
  {
    if ts == [] {
      assert forall n :: 0 <= n <= |ts| ==> ts[..n] == [];
    } else {
      var front, t := ts[..|ts| - 1], ts[|ts| - 1];
      assert ts == front + [t];
      LiteralsKeepDepth(front);
      DepthAppend(front, t);
      StaysOpenAppend(front, t);
    }
  }

  lemma ReadByScanner(text: string)
    requires IsStraddled(text)
    ensures !IsClosing(text, 0, 12)
  {
    assert Tiles(text, 0, [], 0) && IsLongChar(text, 0, 8);
    var us := LongIsTiled(text, 0, [], 0, 8);
    us := AppendToken(text, 0, us, 7, Token(CharLiteral, 10));
    us := AppendToken(text, 0, us, 10, Token(Open, 11));
    us := AppendToken(text, 0, us, 11, Token(Other, 12));
    forall ts | Tiles(text, 0, ts, 12) ensures Depth(ts) == 2 {
      TilingIsUnique(text, 0, ts, us, 12);
    }
  }
}
