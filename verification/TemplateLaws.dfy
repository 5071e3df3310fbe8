/** What path templates, their holes and their order mean on the text itself. */
module TemplateLaws {
  import opened Options
  import opened Sequences
  import opened Hexadecimal
  import opened PathTemplates

  function Concat(parts: seq<string>): string {
    if parts == [] then "" else parts[0] + Concat(parts[1..])
  }

  lemma ConcatCons(part: string, parts: seq<string>)
    ensures Concat([part] + parts) == part + Concat(parts)
  {
    assert ([part] + parts)[1..] == parts;
  }

  // ----- the pieces of a text -----

  function PieceText(p: Piece): string {
    match p case Literal(c) => [c] case Hole(name) => "{" + name + "}"
  }

  /** The text the pieces were cut from */
  function Text(ps: seq<Piece>): string {
    if ps == [] then "" else PieceText(ps[0]) + Text(ps[1..])
  }

  ghost predicate IsHoleName(name: string) {
    name != "" && forall i :: 0 <= i < |name| ==> name[i] != '{' && name[i] != '}'
  }

  /** Literals that would make a hole with a name of `n` characters */
  ghost predicate MissedHole(ps: seq<Piece>, i: nat, n: nat) {
    && 1 <= n && i + n + 1 < |ps| && ps[i] == Literal('{') && ps[i + n + 1] == Literal('}')
    && forall k :: i < k <= i + n ==> ps[k].Literal? && ps[k].c != '{' && ps[k].c != '}'
  }

  ghost predicate NoneMissed(ps: seq<Piece>) {
    forall i: nat, n: nat :: !MissedHole(ps, i, n)
  }

  /** The pieces give the text back, the holes have names without braces, and no
      hole is left among the literals. */
  ghost predicate ArePieces(ps: seq<Piece>, t: string) {
    Text(ps) == t && (forall p | p in ps && p.Hole? :: IsHoleName(p.name)) && NoneMissed(ps)
  }

  lemma {:induction false} PlainIs(t: string, n: nat)
    requires n <= |t| && (forall i :: 0 <= i < n ==> !IsBrace(t[i])) && (n < |t| ==> IsBrace(t[n]))
    ensures Plain(t) == n
  {
  }

  lemma FirstIsHole(name: string, rest: string)
    requires IsHoleName(name)
    ensures var t := "{" + name + "}" + rest;
            FirstPiece(t) == Hole(name) && t[PieceLength(t)..] == rest
  {
    var t := "{" + name + "}" + rest;
    PlainIs(t[1..], |name|);
    assert t[1..1 + |name|] == name;
  }

  lemma TextCons(p: Piece, ps: seq<Piece>)
    ensures Text([p] + ps) == PieceText(p) + Text(ps)
  {
    assert ([p] + ps)[1..] == ps;
  }

  lemma FirstText(t: string)
    requires t != ""
    ensures PieceText(FirstPiece(t)) + t[PieceLength(t)..] == t
    ensures FirstPiece(t).Hole? ==> IsHoleName(FirstPiece(t).name)
  {
  }

  lemma {:induction false} PiecesText(t: string)
    ensures Text(Pieces(t)) == t
    ensures forall p | p in Pieces(t) && p.Hole? :: IsHoleName(p.name)
    decreases |t|
  {
    if t != "" {
      var rest := t[PieceLength(t)..];
      FirstText(t);
      PiecesText(rest);
      TextCons(FirstPiece(t), Pieces(rest));
    }
  }

  /** Literals at the front are the characters of the text. */
  lemma {:induction false} LiteralText(ps: seq<Piece>, n: nat)
    requires n <= |ps| && forall k :: 0 <= k < n ==> ps[k].Literal?
    ensures |Text(ps)| >= n && forall k :: 0 <= k < n ==> Text(ps)[k] == ps[k].c
  {
    if n > 0 {
      LiteralText(ps[1..], n - 1);
      forall k | 0 <= k < n ensures Text(ps)[k] == ps[k].c {
        if k > 0 {
          assert Text(ps)[k] == Text(ps[1..])[k - 1] && ps[k] == ps[1..][k - 1];
        }
      }
    }
  }

  lemma FirstShows(ps: seq<Piece>)
    requires ps != []
    ensures Text(ps) != "" && Text(ps)[0] == match ps[0] case Literal(c) => c case Hole(_) => '{'
  {
  }

  /** A text without braces at the front comes from literals. */
  lemma {:induction false} PlainPieces(ps: seq<Piece>, n: nat)
    requires n <= |Text(ps)| && forall k :: 0 <= k < n ==> !IsBrace(Text(ps)[k])
    ensures n <= |ps| && forall k :: 0 <= k < n ==> ps[k] == Literal(Text(ps)[k])
  {
    if n > 0 {
      FirstShows(ps);
      forall k | 0 <= k < n - 1 ensures !IsBrace(Text(ps[1..])[k]) {
        assert Text(ps)[k + 1] == Text(ps[1..])[k];
      }
      PlainPieces(ps[1..], n - 1);
      forall k | 0 <= k < n ensures ps[k] == Literal(Text(ps)[k]) {
        if k > 0 {
          assert ps[k] == ps[1..][k - 1];
        }
      }
    }
  }

  lemma MissedTail(ps: seq<Piece>)
    requires ps != [] && NoneMissed(ps)
    ensures NoneMissed(ps[1..])
  {
    forall i: nat, n: nat ensures !MissedHole(ps[1..], i, n) {
      assert !MissedHole(ps, i + 1, n);
    }
  }

  lemma NotLiteral(ps: seq<Piece>)
    requires ps != [] && Text(ps) != "" && StartsWithHole(Text(ps))
    requires ps[0].Literal?
    ensures !NoneMissed(ps)
  {
    var t := Text(ps);
    var n := Plain(t[1..]);
    var rest := ps[1..];
    assert t == [ps[0].c] + Text(rest) && Text(rest) == t[1..];
    PlainPieces(rest, n);
    ClosingPiece(rest, n);
    forall k | 0 < k <= n ensures ps[k].Literal? && !IsBrace(ps[k].c) {
      assert ps[k] == rest[k - 1];
    }
    assert MissedHole(ps, 0, n);
  }

  lemma {:induction false} ClosingPiece(ps: seq<Piece>, n: nat)
    requires n < |Text(ps)| && Text(ps)[n] == '}' && forall k :: 0 <= k < n ==> !IsBrace(Text(ps)[k])
    ensures n < |ps| && ps[n] == Literal('}')
  {
    FirstShows(ps);
    if n > 0 {
      PlainPieces(ps, 1);
      forall k | 0 <= k < n - 1 ensures !IsBrace(Text(ps[1..])[k]) {
        assert Text(ps)[k + 1] == Text(ps[1..])[k];
      }
      ClosingPiece(ps[1..], n - 1);
    }
  }

  lemma {:induction false} PiecesMissNone(t: string)
    ensures NoneMissed(Pieces(t))
    decreases |t|
  {
    if t != "" {
      var first, rest := FirstPiece(t), t[PieceLength(t)..];
      PiecesMissNone(rest);
      PiecesText(t);
      forall i: nat, n: nat ensures !MissedHole(Pieces(t), i, n) {
        if MissedHole(Pieces(t), i, n) {
          if i > 0 {
            assert MissedHole(Pieces(rest), i - 1, n);
          } else {
            MissedStarts(Pieces(t), n);
          }
        }
      }
    }
  }

  lemma MissedStarts(ps: seq<Piece>, n: nat)
    requires MissedHole(ps, 0, n)
    ensures Text(ps) != "" && StartsWithHole(Text(ps))
  {
    var t := Text(ps);
    LiteralText(ps, n + 2);
    forall k | 0 <= k < n ensures !IsBrace(t[1..][k]) {
      assert t[1..][k] == ps[k + 1].c;
    }
    PlainIs(t[1..], n);
  }

  /** The pieces of a text are the only ones that cut it at its holes. */
  lemma {:induction false} PiecesAre(ps: seq<Piece>, t: string)
    ensures ArePieces(ps, t) <==> ps == Pieces(t)
    decreases |ps|
  {
    PiecesText(t);
    PiecesMissNone(t);
    if ArePieces(ps, t) && ps != [] {
      var first, rest := ps[0], ps[1..];
      MissedTail(ps);
      PiecesAre(rest, Text(rest));
      if first.Hole? {
        FirstIsHole(first.name, Text(rest));
      } else if StartsWithHole(t) {
        NotLiteral(ps);
      }
    }
  }

  // ----- the names of the holes -----

  lemma {:induction false} HoleNamesConcat(a: seq<Piece>, b: seq<Piece>)
    ensures HoleNames(a + b) == HoleNames(a) + HoleNames(b)
  {
    if a == [] {
      assert a + b == b;
    } else {
      assert (a + b)[1..] == a[1..] + b;
      HoleNamesConcat(a[1..], b);
    }
  }

  lemma HoleStays(p: string, rest: string)
    requires p != ""
    ensures FirstPiece(p + "{" + rest) == FirstPiece(p) && PieceLength(p + "{" + rest) == PieceLength(p)
  {
    var t, more := p + "{" + rest, "{" + rest;
    assert t == p + more && t[1..] == p[1..] + more;
    var n := Plain(p[1..]);
    PlainIs(t[1..], n);
    assert t[1..1 + n] == p[1..1 + n];
  }

  /** A hole is seen wherever it stands, and splits the names around it. */
  lemma NamesAround(p: string, name: string, rest: string)
    requires IsHoleName(name)
    ensures var t := p + "{" + name + "}" + rest;
            && Pieces(t) == Pieces(p) + [Hole(name)] + Pieces(rest)
            && HoleNames(Pieces(t)) == HoleNames(Pieces(p)) + [name] + HoleNames(Pieces(rest))
  {
    PiecesAround(p, name, rest);
    NamesOf(Pieces(p), name, Pieces(rest));
  }

  lemma {:induction false} PiecesAround(p: string, name: string, rest: string)
    requires IsHoleName(name)
    ensures Pieces(p + "{" + name + "}" + rest) == Pieces(p) + [Hole(name)] + Pieces(rest)
    decreases |p|
  {
    if p == "" {
      assert p + "{" + name + "}" + rest == "{" + name + "}" + rest;
      FirstIsHole(name, rest);
    } else {
      PiecesAround(p[PieceLength(p)..], name, rest);
      PiecesStep(p, name, rest);
    }
  }

  lemma PiecesStep(p: string, name: string, rest: string)
    requires p != ""
    ensures var t, more := p + "{" + name + "}" + rest, p[PieceLength(p)..] + "{" + name + "}" + rest;
            Pieces(t) == [FirstPiece(p)] + Pieces(more)
  {
    var t, n, after := p + "{" + name + "}" + rest, PieceLength(p), name + "}" + rest;
    assert t == p + "{" + after;
    HoleStays(p, after);
    assert t[n..] == p[n..] + "{" + name + "}" + rest;
  }

  lemma NamesOf(a: seq<Piece>, name: string, b: seq<Piece>)
    ensures HoleNames(a + [Hole(name)] + b) == HoleNames(a) + [name] + HoleNames(b)
  {
    HoleNamesConcat(a, [Hole(name)]);
    HoleNamesConcat(a + [Hole(name)], b);
    assert [Hole(name)][1..] == [];
  }

  /** `{name}` stands in the text. */
  ghost predicate Mentions(t: string, name: string) {
    IsHoleName(name) && exists p, rest :: t == p + "{" + name + "}" + rest
  }

  lemma {:induction false} NamedIsIn(ps: seq<Piece>, name: string)
    requires name in HoleNames(ps)
    ensures exists i :: 0 <= i < |ps| && ps[i] == Hole(name)
  {
    if ps[0] != Hole(name) {
      NamedIsIn(ps[1..], name);
      var i :| 0 <= i < |ps| - 1 && ps[1..][i] == Hole(name);
      assert ps[i + 1] == Hole(name);
    }
  }

  lemma {:induction false} TextConcat(a: seq<Piece>, b: seq<Piece>)
    ensures Text(a + b) == Text(a) + Text(b)
  {
    if a == [] {
      assert a + b == b;
    } else {
      assert (a + b)[1..] == a[1..] + b;
      TextConcat(a[1..], b);
    }
  }

  lemma TextAround(ps: seq<Piece>, i: nat, name: string)
    requires i < |ps| && ps[i] == Hole(name)
    ensures Text(ps) == Text(ps[..i]) + ("{" + name + "}" + Text(ps[i + 1..])) && ps[i] in ps
  {
    assert ps == ps[..i] + ([Hole(name)] + ps[i + 1..]);
    TextConcat(ps[..i], [Hole(name)] + ps[i + 1..]);
    TextCons(Hole(name), ps[i + 1..]);
  }

  lemma Braced(p: string, name: string, rest: string)
    requires IsHoleName(name)
    ensures Mentions(p + ("{" + name + "}" + rest), name)
  {
    assert p + ("{" + name + "}" + rest) == p + "{" + name + "}" + rest;
  }

  /** The holes of a template are the names that stand in braces in it. */
  lemma NamesAreMentioned(t: string, name: string)
    ensures name in HoleNames(Pieces(t)) <==> Mentions(t, name)
  {
    var ps := Pieces(t);
    PiecesText(t);
    if name in HoleNames(ps) {
      NamedIsIn(ps, name);
      var i :| 0 <= i < |ps| && ps[i] == Hole(name);
      TextAround(ps, i, name);
      Braced(Text(ps[..i]), name, Text(ps[i + 1..]));
    }
    if Mentions(t, name) {
      var p, rest :| t == p + "{" + name + "}" + rest;
      NamesAround(p, name, rest);
    }
  }

  // ----- matching -----

  /** One text for each piece: the character of a literal; for a hole any text that
      is not empty and has no slash */
  ghost predicate Fills(ps: seq<Piece>, parts: seq<string>) {
    && |parts| == |ps|
    && forall i :: 0 <= i < |ps| ==>
         match ps[i] case Literal(c) => parts[i] == [c] case Hole(_) => parts[i] != "" && '/' !in parts[i]
  }

  lemma FillsCons(ps: seq<Piece>, part: string, parts: seq<string>)
    requires ps != []
    ensures Fills(ps, [part] + parts) <==> Fills([ps[0]], [part]) && Fills(ps[1..], parts)
  {
    var all := [part] + parts;
    if Fills(ps, all) {
      assert all[0] == part;
      forall i | 0 <= i < |parts| ensures Fills([ps[i + 1]], [parts[i]]) {
        assert all[i + 1] == parts[i];
      }
    }
  }

  ghost predicate CanFill(ps: seq<Piece>, s: string) {
    exists parts :: Fills(ps, parts) && s == Concat(parts)
  }

  lemma CanFillFrom(ps: seq<Piece>, s: string, n: nat)
    requires ps != [] && n <= |s| && Fills([ps[0]], [s[..n]]) && CanFill(ps[1..], s[n..])
    ensures CanFill(ps, s)
  {
    var parts :| Fills(ps[1..], parts) && s[n..] == Concat(parts);
    FillsCons(ps, s[..n], parts);
    ConcatCons(s[..n], parts);
    assert s == s[..n] + s[n..];
  }

  lemma FirstFilled(ps: seq<Piece>, s: string) returns (n: nat)
    requires ps != [] && CanFill(ps, s)
    ensures n <= |s| && Fills([ps[0]], [s[..n]]) && CanFill(ps[1..], s[n..])
  {
    var parts :| Fills(ps, parts) && s == Concat(parts);
    assert parts == [parts[0]] + parts[1..];
    FillsCons(ps, parts[0], parts[1..]);
    n := |parts[0]|;
    assert s[..n] == parts[0] && s[n..] == Concat(parts[1..]);
  }

  /** A text matches exactly when its holes can be filled so that it comes out. */
  lemma {:induction false} MatchesIs(ps: seq<Piece>, s: string)
    ensures Matches(ps, s) <==> exists parts :: Fills(ps, parts) && s == Concat(parts)
    decreases |ps|
  {
    if ps == [] {
      assert Fills(ps, []) && Concat([]) == "";
    } else {
      if Matches(ps, s) {
        var n := FirstFilling(ps, s);
        MatchesIs(ps[1..], s[n..]);
        CanFillFrom(ps, s, n);
      }
      if CanFill(ps, s) {
        var n := FirstFilled(ps, s);
        MatchesIs(ps[1..], s[n..]);
        MatchesFrom(ps, s, n);
      }
    }
  }

  lemma FirstFilling(ps: seq<Piece>, s: string) returns (n: nat)
    requires ps != [] && Matches(ps, s)
    ensures n <= |s| && Fills([ps[0]], [s[..n]]) && Matches(ps[1..], s[n..])
  {
    if ps[0].Literal? {
      n := 1;
    } else {
      n :| 1 <= n <= |s| && NoSlash(s[..n]) && Matches(ps[1..], s[n..]);
    }
  }

  lemma MatchesFrom(ps: seq<Piece>, s: string, n: nat)
    requires ps != [] && n <= |s| && Fills([ps[0]], [s[..n]]) && Matches(ps[1..], s[n..])
    ensures Matches(ps, s)
  {
    var part := s[..n];
    assert [part][0] == part;
    if ps[0].Literal? {
      assert n == 1 && part[0] == s[0];
    } else {
      assert NoSlash(part);
    }
  }

  // ----- segments -----

  /** The texts between the slashes */
  function Cut(s: string): (parts: seq<string>)
    ensures |parts| >= 1
  {
    if s == "" then [""]
    else
      var rest := Cut(s[1..]);
      if s[0] == '/' then [""] + rest else [[s[0]] + rest[0]] + rest[1..]
  }

  /** The pieces between the slashes of a template */
  function CutPieces(ps: seq<Piece>): (parts: seq<seq<Piece>>)
    ensures |parts| >= 1
  {
    if ps == [] then [[]]
    else
      var rest := CutPieces(ps[1..]);
      if ps[0] == Literal('/') then [[]] + rest else [[ps[0]] + rest[0]] + rest[1..]
  }

  /** A slash between two texts separates their segments, the first of which have none. */
  lemma {:induction false} CutIs(a: string, b: string)
    requires '/' !in a
    ensures Cut(a) == [a] && Cut(a + "/" + b) == [a] + Cut(b)
  {
    var s := a + "/" + b;
    if a == "" {
      assert s == "/" + b && s[1..] == b;
    } else {
      CutIs(a[1..], b);
      assert s[1..] == a[1..] + "/" + b;
      assert [a[0]] + a[1..] == a;
    }
  }

  lemma {:induction false} CutDrop(s: string, n: nat)
    requires n <= |s|
    ensures NoSlash(s[..n]) <==> n <= |Cut(s)[0]|
    ensures n <= |Cut(s)[0]| ==> Cut(s[n..]) == [Cut(s)[0][n..]] + Cut(s)[1..]
  {
    if n == 0 {
      assert s[0..] == s && Cut(s)[0][0..] == Cut(s)[0];
    } else {
      var tail := s[1..];
      CutDrop(tail, n - 1);
      assert s[..n] == [s[0]] + tail[..n - 1] && s[n..] == tail[n - 1..];
      if s[0] != '/' {
        assert n <= |Cut(s)[0]| ==> Cut(s)[0][n..] == Cut(tail)[0][n - 1..];
        SlashFree(s[0], tail[..n - 1]);
      } else {
        assert s[..n][0] == '/';
      }
    }
  }

  lemma SlashFree(c: char, s: string)
    requires c != '/'
    ensures NoSlash([c] + s) <==> NoSlash(s)
  {
    if NoSlash([c] + s) {
      forall i | 0 <= i < |s| ensures s[i] != '/' {
        assert ([c] + s)[i + 1] == s[i];
      }
    }
  }

  ghost predicate SegmentsMatch(parts: seq<seq<Piece>>, texts: seq<string>) {
    |parts| == |texts| && forall i :: 0 <= i < |parts| ==> Matches(parts[i], texts[i])
  }

  lemma SegmentsCons(part: seq<Piece>, parts: seq<seq<Piece>>, text: string, texts: seq<string>)
    ensures SegmentsMatch([part] + parts, [text] + texts) <==> Matches(part, text) && SegmentsMatch(parts, texts)
  {
    var ps, ts := [part] + parts, [text] + texts;
    if SegmentsMatch(ps, ts) {
      assert Matches(ps[0], ts[0]);
      forall i | 0 <= i < |parts| ensures Matches(parts[i], texts[i]) {
        assert Matches(ps[i + 1], ts[i + 1]);
      }
    }
  }

  lemma LiteralMatches(c: char, ps: seq<Piece>, s: string)
    ensures Matches([Literal(c)] + ps, s) <==> s != "" && s[0] == c && Matches(ps, s[1..])
  {
    assert ([Literal(c)] + ps)[1..] == ps;
  }

  lemma HoleMatches(name: string, ps: seq<Piece>, s: string)
    ensures Matches([Hole(name)] + ps, s) <==> exists n :: 1 <= n <= |s| && NoSlash(s[..n]) && Matches(ps, s[n..])
  {
    assert ([Hole(name)] + ps)[1..] == ps;
  }

  /** A path is matched segment by segment: no hole reaches over a slash. */
  lemma {:induction false} MatchesBySegments(ps: seq<Piece>, s: string)
    ensures Matches(ps, s) <==> SegmentsMatch(CutPieces(ps), Cut(s))
    decreases |ps|, 0
  {
    if ps == [] {
      if s != "" && s[0] != '/' {
        assert Cut(s)[0] != "";
      }
    } else if ps[0].Literal? {
      LiteralBySegments(ps[0].c, ps[1..], s);
    } else {
      HoleBySegments(ps[0].name, ps[1..], s);
    }
  }

  lemma LiteralBySegments(c: char, ps: seq<Piece>, s: string)
    ensures Matches([Literal(c)] + ps, s) <==> SegmentsMatch(CutPieces([Literal(c)] + ps), Cut(s))
    decreases |ps|, 2
  {
    var all := [Literal(c)] + ps;
    assert all[1..] == ps;
    var parts, texts := CutPieces(ps), Cut(s);
    LiteralMatches(c, ps, s);
    if s != "" {
      MatchesBySegments(ps, s[1..]);
    }
    if c == '/' {
      SegmentsCons([], parts, texts[0], texts[1..]);
    } else {
      LiteralMatches(c, parts[0], texts[0]);
      SegmentsCons([Literal(c)] + parts[0], parts[1..], texts[0], texts[1..]);
      if s != "" {
        var rest := Cut(s[1..]);
        SegmentsCons(parts[0], parts[1..], rest[0], rest[1..]);
        assert [parts[0]] + parts[1..] == parts && [rest[0]] + rest[1..] == rest;
      }
    }
    assert [texts[0]] + texts[1..] == texts;
  }

  lemma HoleBySegments(name: string, ps: seq<Piece>, s: string)
    ensures Matches([Hole(name)] + ps, s) <==> SegmentsMatch(CutPieces([Hole(name)] + ps), Cut(s))
    decreases |ps|, 2
  {
    var all := [Hole(name)] + ps;
    assert all[1..] == ps;
    var parts, texts := CutPieces(ps), Cut(s);
    HoleMatches(name, ps, s);
    HoleMatches(name, parts[0], texts[0]);
    SegmentsCons([Hole(name)] + parts[0], parts[1..], texts[0], texts[1..]);
    assert [texts[0]] + texts[1..] == texts;
    FirstSegment(s);
    forall n: nat | n <= |s|
      ensures NoSlash(s[..n]) && Matches(ps, s[n..]) <==>
              n <= |texts[0]| && NoSlash(texts[0][..n]) && Matches(parts[0], texts[0][n..])
              && SegmentsMatch(parts[1..], texts[1..])
    {
      HoleStep(ps, s, n);
    }
  }

  lemma {:induction false} FirstSegment(s: string)
    ensures |Cut(s)[0]| <= |s| && NoSlash(Cut(s)[0])
  {
    if s != "" && s[0] != '/' {
      FirstSegment(s[1..]);
      SlashFree(s[0], Cut(s[1..])[0]);
    }
  }

  lemma HoleStep(ps: seq<Piece>, s: string, n: nat)
    requires n <= |s|
    ensures var parts, texts := CutPieces(ps), Cut(s);
            NoSlash(s[..n]) && Matches(ps, s[n..]) <==>
            n <= |texts[0]| && NoSlash(texts[0][..n]) && Matches(parts[0], texts[0][n..])
            && SegmentsMatch(parts[1..], texts[1..])
    decreases |ps|, 1
  {
    var parts, texts := CutPieces(ps), Cut(s);
    CutDrop(s, n);
    FirstSegment(s);
    if n <= |texts[0]| {
      MatchesBySegments(ps, s[n..]);
      SegmentsCons(parts[0], parts[1..], texts[0][n..], texts[1..]);
      assert [parts[0]] + parts[1..] == parts;
    }
  }

  /** A hole that is a segment of its own, or literals only */
  ghost predicate PlainSegment(part: seq<Piece>) {
    (|part| == 1 && part[0].Hole?) || forall i :: 0 <= i < |part| ==> part[i].Literal?
  }

  lemma {:induction false} LiteralsMatch(part: seq<Piece>, s: string)
    requires forall i :: 0 <= i < |part| ==> part[i].Literal?
    ensures Matches(part, s) <==> s == Text(part)
  {
    if part != [] {
      if s != "" {
        LiteralsMatch(part[1..], s[1..]);
        assert s == [s[0]] + s[1..];
      }
    }
  }

  lemma SegmentMatches(part: seq<Piece>, s: string)
    requires PlainSegment(part) && '/' !in s
    ensures Matches(part, s) <==> if part != [] && part[0].Hole? then s != "" else s == Text(part)
  {
    if part != [] && part[0].Hole? {
      assert part == [part[0]] + [];
      HoleMatches(part[0].name, [], s);
      if s != "" {
        assert s[..|s|] == s && s[|s|..] == "";
      }
    } else {
      LiteralsMatch(part, s);
    }
  }

  lemma {:induction false} CutsHaveNoSlash(s: string)
    ensures forall part | part in Cut(s) :: '/' !in part
  {
    if s != "" {
      CutsHaveNoSlash(s[1..]);
    }
  }

  /** Where every hole is a whole segment, a template matches exactly the paths with as
      many segments, the same text in each literal segment, and some text in each hole. */
  lemma WholeSegmentsMatch(ps: seq<Piece>, s: string)
    requires forall part | part in CutPieces(ps) :: PlainSegment(part)
    ensures var parts, texts := CutPieces(ps), Cut(s);
            Matches(ps, s) <==>
            && |parts| == |texts|
            && forall i :: 0 <= i < |parts| ==>
                 if parts[i] != [] && parts[i][0].Hole? then texts[i] != "" else texts[i] == Text(parts[i])
  {
    var parts, texts := CutPieces(ps), Cut(s);
    MatchesBySegments(ps, s);
    CutsHaveNoSlash(s);
    if |parts| == |texts| {
      forall i | 0 <= i < |parts|
        ensures Matches(parts[i], texts[i]) <==>
                if parts[i] != [] && parts[i][0].Hole? then texts[i] != "" else texts[i] == Text(parts[i])
      {
        assert texts[i] in texts && parts[i] in parts;
        SegmentMatches(parts[i], texts[i]);
      }
    }
  }

  /** A hole at the end of a template holds one segment only. */
  lemma HoleHoldsOneSegment(p: string, name: string, a: string, b: string)
    requires IsHoleName(name) && '/' !in a && forall i :: 0 <= i < |p| ==> !IsBrace(p[i])
    ensures !Matches(Pieces(p + "{" + name + "}"), p + a + "/" + b)
  {
    NamesAround(p, name, "");
    assert p + "{" + name + "}" + "" == p + "{" + name + "}";
    PlainPiecesAre(p);
    var ps, s := Pieces(p) + [Hole(name)], p + a + "/" + b;
    assert Pieces(p) + [Hole(name)] + Pieces("") == ps;
    if Matches(ps, s) {
      PrefixMatches(Pieces(p), [Hole(name)], s);
      assert s[|p|..] == a + "/" + b && (a + "/" + b)[|a|] == '/';
      OneHoleMatches(name, a + "/" + b);
    }
  }

  /** An operation of one virtual host does not take the observations of another one. */
  lemma SlashStaysOut(t: string, path: string)
    requires t == "/api/vhosts/{name}" && path == "/api/vhosts/a/permissions"
    ensures MatchPath([t], path) == None
  {
    var p, name, a, b := "/api/vhosts/", "name", "a", "permissions";
    assert p + "{" + name + "}" == t && p + a + "/" + b == path;
    HoleHoldsOneSegment(p, name, a, b);
    NoneAlone(t, path);
  }

  lemma NoneAlone(t: string, path: string)
    requires t != "" && t[|t| - 1] != '/' && path != "" && path[|path| - 1] != '/' && !Matches(Pieces(t), path)
    ensures MatchPath([t], path) == None
  {
    assert Normalize(t) == t && Normalize(path) == path;
  }

  lemma OneHoleMatches(name: string, s: string)
    requires Matches([Hole(name)], s)
    ensures '/' !in s
  {
    assert [Hole(name)] + [] == [Hole(name)];
    HoleMatches(name, [], s);
    var n :| 1 <= n <= |s| && NoSlash(s[..n]) && Matches([], s[n..]);
    assert s[..n] == s;
  }

  lemma {:induction false} PlainPiecesAre(p: string)
    requires forall i :: 0 <= i < |p| ==> !IsBrace(p[i])
    ensures |Pieces(p)| == |p| && forall i :: 0 <= i < |p| ==> Pieces(p)[i] == Literal(p[i])
  {
    if p != "" {
      PlainPiecesAre(p[1..]);
    }
  }

  lemma {:induction false} PrefixMatches(ps: seq<Piece>, rest: seq<Piece>, s: string)
    requires (forall i :: 0 <= i < |ps| ==> ps[i].Literal?) && Matches(ps + rest, s)
    ensures |s| >= |ps| && Matches(rest, s[|ps|..])
  {
    if ps == [] {
      assert ps + rest == rest && s[0..] == s;
    } else {
      assert (ps + rest)[1..] == ps[1..] + rest;
      PrefixMatches(ps[1..], rest, s[1..]);
      assert s[1..][|ps| - 1..] == s[|ps|..];
    }
  }

  // ----- the order in which templates are preferred -----

  /** What is left without the slashes at its end */
  ghost predicate IsStripped(t: string, s: string) {
    && s <= t && (forall i :: |s| <= i < |t| ==> t[i] == '/')
    && (s == "" || s[|s| - 1] != '/')
  }

  /** The text without slashes at its end; a slash if nothing is left */
  ghost predicate IsNormal(t: string, s: string) {
    if forall i :: 0 <= i < |t| ==> t[i] == '/' then s == "/" else IsStripped(t, s)
  }

  lemma {:induction false} StrippedIs(t: string)
    ensures IsStripped(t, RStrip(t))
  {
    if t != "" && t[|t| - 1] == '/' {
      StrippedIs(t[..|t| - 1]);
    }
  }

  lemma NormalIs(t: string, s: string)
    ensures s == Normalize(t) <==> IsNormal(t, s)
  {
    StrippedIs(t);
    StrippedEnds(t, RStrip(t));
    if IsStripped(t, s) {
      StrippedEnds(t, s);
    }
  }

  lemma StrippedEnds(t: string, s: string)
    requires IsStripped(t, s)
    ensures s == t[..|s|] && (s != "" ==> t[|s| - 1] != '/')
  {
  }

  /** The first text ends at `k`, or is smaller there, and both agree before. */
  ghost predicate IsBeforeAt(a: string, b: string, k: nat) {
    && k <= |a| && k < |b| && (forall i :: 0 <= i < k ==> a[i] == b[i])
    && (k == |a| || a[k] < b[k])
  }

  ghost predicate IsBefore(a: string, b: string) {
    exists k: nat :: IsBeforeAt(a, b, k)
  }

  lemma {:induction false} LessIs(a: string, b: string)
    ensures Less(a, b) <==> IsBefore(a, b)
    decreases |a|
  {
    if a != "" && b != "" && a[0] == b[0] {
      LessIs(a[1..], b[1..]);
      BeforeTail(a, b);
    } else {
      assert IsBeforeAt(a, b, 0) <==> b != "" && (a == "" || a[0] < b[0]);
    }
  }

  lemma BeforeTail(a: string, b: string)
    requires a != "" && b != "" && a[0] == b[0]
    ensures IsBefore(a, b) <==> IsBefore(a[1..], b[1..])
  {
    var x, y := a[1..], b[1..];
    if IsBefore(a, b) {
      var k: nat :| IsBeforeAt(a, b, k);
      assert IsBeforeAt(x, y, k - 1);
    }
    if IsBefore(x, y) {
      var k: nat :| IsBeforeAt(x, y, k);
      forall i | 0 < i < k + 1 ensures a[i] == b[i] {
        assert a[i] == x[i - 1] && b[i] == y[i - 1];
      }
      assert k < |x| ==> a[k + 1] == x[k];
      assert b[k + 1] == y[k];
      assert IsBeforeAt(a, b, k + 1);
    }
  }

  /** The number of characters outside the holes */
  ghost predicate IsStaticLength(ps: seq<Piece>, n: nat) {
    n == |set i | 0 <= i < |ps| && ps[i].Literal?|
  }

  lemma {:induction false} StaticLengthIs(ps: seq<Piece>)
    ensures IsStaticLength(ps, StaticLength(ps))
  {
    if ps != [] {
      var n := |ps| - 1;
      var front := ps[..n];
      StaticLengthIs(front);
      StaticAppend(front, ps[n]);
      assert ps == front + [ps[n]];
      var all, rest := set i | 0 <= i < |ps| && ps[i].Literal?, set i | 0 <= i < n && front[i].Literal?;
      assert n !in rest;
      assert all == if ps[n].Literal? then rest + {n} else rest;
    }
  }

  lemma {:induction false} StaticAppend(ps: seq<Piece>, p: Piece)
    ensures StaticLength(ps + [p]) == StaticLength(ps) + if p.Literal? then 1 else 0
  {
    if ps != [] {
      StaticAppend(ps[1..], p);
      assert (ps + [p])[1..] == ps[1..] + [p];
    } else {
      assert [] + [p] == [p];
    }
  }

  // ----- the look-up -----

  /** With the slashes at their ends taken off, the path fills the holes of the template. */
  ghost predicate Fits(template: string, path: string) {
    exists t, s, ps, parts ::
      IsNormal(template, t) && IsNormal(path, s) && ArePieces(ps, t) && Fills(ps, parts) && s == Concat(parts)
  }

  lemma FitsIs(template: string, path: string)
    ensures TemplateMatches(template, path) <==> Fits(template, path)
  {
    var t, s := Normalize(template), Normalize(path);
    NormalIs(template, t);
    NormalIs(path, s);
    PiecesAre(Pieces(t), t);
    MatchesIs(Pieces(t), s);
    if t', s', ps, parts :|
      IsNormal(template, t') && IsNormal(path, s') && ArePieces(ps, t') && Fills(ps, parts) && s' == Concat(parts)
    {
      NormalIs(template, t');
      NormalIs(path, s');
      PiecesAre(ps, t');
    }
  }

  /** More characters outside the holes, or as many and later as a text */
  ghost predicate IsPreferred(a: string, b: string) {
    exists t, u, ps, qs, m, n ::
      && IsNormal(a, t) && ArePieces(ps, t) && IsStaticLength(ps, m)
      && IsNormal(b, u) && ArePieces(qs, u) && IsStaticLength(qs, n)
      && (m > n || (m == n && IsBefore(b, a)))
  }

  lemma PreferredIs(a: string, b: string)
    ensures Ahead(a, b) <==> IsPreferred(a, b)
  {
    var t, u := Normalize(a), Normalize(b);
    NormalIs(a, t);
    NormalIs(b, u);
    PiecesAre(Pieces(t), t);
    PiecesAre(Pieces(u), u);
    StaticLengthIs(Pieces(t));
    StaticLengthIs(Pieces(u));
    LessIs(b, a);
    assert IsStaticLength(Pieces(t), Weight(a)) && IsStaticLength(Pieces(u), Weight(b));
    if IsPreferred(a, b) {
      var t', u', ps, qs, m, n :|
        && IsNormal(a, t') && ArePieces(ps, t') && IsStaticLength(ps, m)
        && IsNormal(b, u') && ArePieces(qs, u') && IsStaticLength(qs, n)
        && (m > n || (m == n && IsBefore(b, a)));
      NormalIs(a, t');
      NormalIs(b, u');
      PiecesAre(ps, t');
      PiecesAre(qs, u');
    }
  }

  /** The look-up finds a template exactly when it fits the path and is preferred to
      every other one that does. */
  lemma MatchPathIs(templates: seq<string>, path: string, best: string)
    ensures MatchPath(templates, path) == Some(best) <==>
            && best in templates && Fits(best, path)
            && forall t | t in templates && Fits(t, path) :: t == best || IsPreferred(best, t)
  {
    FitsIs(best, path);
    forall t | t in templates
      ensures TemplateMatches(t, path) <==> Fits(t, path)
      ensures Ahead(best, t) <==> IsPreferred(best, t)
    {
      FitsIs(t, path);
      PreferredIs(best, t);
    }
    var found := MatchPath(templates, path);
    if IsBest(templates, path, best) {
      BestIsUnique(templates, path, best, found.value);
    }
  }
}
