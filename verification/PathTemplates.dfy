/** Path templates: the holes both languages read in them, matching observed
    paths (`match_openapi_path` of `scripts/generate_openapi.py`) and filling
    the holes (`apply_path_params` of `src/services/api_client.rs`). */
module PathTemplates {
  import opened Options
  import opened Sequences
  import opened Hexadecimal

  datatype Piece = Literal(c: char) | Hole(name: string)

  predicate IsBrace(c: char) { c == '{' || c == '}' }

  /** The number of characters before the first brace */
  function Plain(t: string): (n: nat)
    ensures n <= |t| && (forall i :: 0 <= i < n ==> !IsBrace(t[i])) && (n < |t| ==> IsBrace(t[n]))
  {
    if t == "" || IsBrace(t[0]) then 0 else 1 + Plain(t[1..])
  }

  /** Whether `\{[^{}]+\}` matches at the start of the text */
  predicate StartsWithHole(t: string) {
    && t != "" && t[0] == '{'
    && var n := Plain(t[1..]);
    1 <= n < |t| - 1 && t[1 + n] == '}'
  }

  /** The text cut at the leftmost holes; every other character stands for itself. */
  function Pieces(t: string): seq<Piece>
    decreases |t|
  {
    if t == "" then [] else [FirstPiece(t)] + Pieces(t[PieceLength(t)..])
  }

  function FirstPiece(t: string): Piece
    requires t != ""
  {
    if StartsWithHole(t) then Hole(t[1..1 + Plain(t[1..])]) else Literal(t[0])
  }

  function PieceLength(t: string): (n: nat)
    requires t != ""
    ensures 1 <= n <= |t|
  {
    if StartsWithHole(t) then Plain(t[1..]) + 2 else 1
  }

  /** The names of the holes, in order */
  function HoleNames(pieces: seq<Piece>): seq<string> {
    if pieces == [] then []
    else (if pieces[0].Hole? then [pieces[0].name] else []) + HoleNames(pieces[1..])
  }

  // ----- match_openapi_path -----

  /** `t.rstrip("/")` */
  function RStrip(t: string): string {
    if t != "" && t[|t| - 1] == '/' then RStrip(t[..|t| - 1]) else t
  }

  function Normalize(t: string): string {
    if RStrip(t) == "" then "/" else RStrip(t)
  }

  predicate NoSlash(s: string) {
    forall i :: 0 <= i < |s| ==> s[i] != '/'
  }

  /** The whole of `s` matches: holes stand for one or more characters other than `/`. */
  predicate Matches(pieces: seq<Piece>, s: string)
    decreases |pieces|
  {
    if pieces == [] then s == ""
    else if pieces[0].Literal? then s != "" && s[0] == pieces[0].c && Matches(pieces[1..], s[1..])
    else exists n :: 1 <= n <= |s| && NoSlash(s[..n]) && Matches(pieces[1..], s[n..])
  }

  function StaticLength(pieces: seq<Piece>): nat {
    if pieces == [] then 0 else (if pieces[0].Literal? then 1 else 0) + StaticLength(pieces[1..])
  }

  predicate TemplateMatches(template: string, path: string) {
    Matches(Pieces(Normalize(template)), Normalize(path))
  }

  function Weight(template: string): nat {
    StaticLength(Pieces(Normalize(template)))
  }

  /** Python's order on strings */
  predicate Less(a: string, b: string) {
    if b == "" then false
    else if a == "" then true
    else a[0] < b[0] || (a[0] == b[0] && Less(a[1..], b[1..]))
  }

  /** `(static length, template)` compared as a tuple */
  predicate Ahead(a: string, b: string) {
    Weight(a) > Weight(b) || (Weight(a) == Weight(b) && Less(b, a))
  }

  lemma {:induction false} LessIsTransitive(a: string, b: string, c: string)
    requires Less(a, b) && Less(b, c)
    ensures Less(a, c)
    decreases |a|
  {
    if a != "" && a[0] == b[0] && b[0] == c[0] {
      LessIsTransitive(a[1..], b[1..], c[1..]);
    }
  }

  lemma {:induction false} LessIsTotal(a: string, b: string)
    ensures a != b ==> Less(a, b) || Less(b, a)
    ensures !(Less(a, b) && Less(b, a))
    decreases |a|
  {
    if a != "" && b != "" {
      LessIsTotal(a[1..], b[1..]);
      if a[0] == b[0] && a[1..] == b[1..] {
        assert a == [a[0]] + a[1..] && b == [b[0]] + b[1..];
      }
    }
  }

  ghost predicate IsBest(templates: seq<string>, path: string, best: string) {
    && best in templates && TemplateMatches(best, path)
    && forall t | t in templates && TemplateMatches(t, path) :: t == best || Ahead(best, t)
  }

  /** `match_openapi_path`: the template with the greatest static length among
      those that match (the greatest as a string among equals), if any does */
  function MatchPath(templates: seq<string>, path: string): (best: Option<string>)
    ensures best.None? <==> forall t | t in templates :: !TemplateMatches(t, path)
    ensures best.Some? ==> IsBest(templates, path, best.value)
  {
    if templates == [] then None
    else
      var first, rest := templates[0], MatchPath(templates[1..], path);
      assert forall t :: t in templates <==> t == first || t in templates[1..];
      if !TemplateMatches(first, path) then rest
      else if rest.None? then Some(first)
      else
        LessIsTotal(first, rest.value);
        if Ahead(rest.value, first) then rest
        else
          AheadOfAll(first, rest.value, templates[1..], path);
          Some(first)
  }

  lemma AheadOfAll(first: string, second: string, rest: seq<string>, path: string)
    requires IsBest(rest, path, second) && (first == second || Ahead(first, second))
    ensures forall t | t in rest && TemplateMatches(t, path) :: t == first || Ahead(first, t)
  {
    forall t | t in rest && TemplateMatches(t, path) ensures t == first || Ahead(first, t) {
      if t != second && first != second && Less(t, second) && Less(second, first) {
        LessIsTransitive(t, second, first);
      }
    }
  }

  /** The match does not depend on the order of the templates. */
  lemma BestIsUnique(templates: seq<string>, path: string, a: string, b: string)
    requires IsBest(templates, path, a) && IsBest(templates, path, b)
    ensures a == b
  {
    LessIsTotal(a, b);
  }

  // ----- apply_path_params -----

  type Byte = b: int | 0 <= b < 256

  predicate IsAlphanumeric(b: int) {
    48 <= b <= 57 || 65 <= b <= 90 || 97 <= b <= 122
  }

  function EncodeByte(b: Byte): string {
    if IsAlphanumeric(b) then [b as char] else ['%', UpperDigit(b / 16), UpperDigit(b % 16)]
  }

  /** `utf8_percent_encode(text, NON_ALPHANUMERIC)` of the UTF-8 bytes of a text */
  function Encode(bytes: seq<Byte>): string {
    if bytes == [] then "" else EncodeByte(bytes[0]) + Encode(bytes[1..])
  }

  /** Percent-decoding (RFC 3986 section 2.1) */
  function Decode(s: string): seq<Byte> {
    if s == "" then []
    else if s[0] == '%' && |s| >= 3 && HexValue(s[1]).Some? && HexValue(s[2]).Some? then
      [HexValue(s[1]).value * 16 + HexValue(s[2]).value] + Decode(s[3..])
    else [s[0] as int % 256] + Decode(s[1..])
  }

  lemma DecodeByte(b: Byte, rest: string)
    ensures Decode(EncodeByte(b) + rest) == [b] + Decode(rest)
  {
    if !IsAlphanumeric(b) {
      HexRoundTrip(b / 16);
      HexRoundTrip(b % 16);
    }
  }

  lemma {:induction false} DecodeEncode(bytes: seq<Byte>)
    ensures Decode(Encode(bytes)) == bytes
  {
    if bytes != [] {
      DecodeByte(bytes[0], Encode(bytes[1..]));
      DecodeEncode(bytes[1..]);
    }
  }

  lemma {:induction false} EncodeIsPlain(bytes: seq<Byte>)
    ensures NoSlash(Encode(bytes)) && (Encode(bytes) == "" <==> bytes == [])
  {
    if bytes != [] {
      EncodeIsPlain(bytes[1..]);
      EncodeByteIsPlain(bytes[0]);
    }
  }

  lemma EncodeByteIsPlain(b: Byte)
    ensures NoSlash(EncodeByte(b)) && EncodeByte(b) != ""
  {
    if !IsAlphanumeric(b) {
      assert UpperDigit(b / 16) != '/' && UpperDigit(b % 16) != '/';
    }
  }

  /** The argument texts, by name, as UTF-8 bytes */
  type Args = map<string, seq<Byte>>

  function Argument(args: Args, name: string): seq<Byte> {
    if name in args then args[name] else []
  }

  /** The characters before the first closing brace, or all of them */
  function NameLength(t: string): (n: nat)
    ensures n <= |t| && (forall i :: 0 <= i < n ==> t[i] != '}') && (n < |t| ==> t[n] == '}')
  {
    if t == "" || t[0] == '}' then 0 else 1 + NameLength(t[1..])
  }

  /** What `apply_path_params` returns */
  function Expand(path: string, args: Args): string
    decreases |path|
  {
    if path == "" then ""
    else if path[0] != '{' then [path[0]] + Expand(path[1..], args)
    else
      var n := NameLength(path[1..]);
      Encode(Argument(args, path[1..1 + n])) + Expand(if n + 2 <= |path| then path[n + 2..] else "", args)
  }

  /** The inner loop: a name up to its closing brace, and what follows the brace */
  method ReadName(from: string) returns (name: string, chars: string)
    ensures name == from[..NameLength(from)]
    ensures chars == if NameLength(from) < |from| then from[NameLength(from) + 1..] else ""
  {
    name, chars := "", from;
    while chars != ""
      invariant |name| + |chars| == |from| && name == from[..|name|] && chars == from[|name|..]
      invariant forall i :: 0 <= i < |name| ==> name[i] != '}'
      decreases |chars|
    {
      var next := chars[0];
      chars := chars[1..];
      if next == '}' {
        NameLengthIs(from, |name|);
        return;
      }
      name := name + [next];
    }
    NameLengthIs(from, |name|);
  }

  /** `apply_path_params` as it is written, consuming the characters one by one */
  method ApplyPathParams(path: string, args: Args) returns (result: string)
    ensures result == Expand(path, args)
  {
    result := "";
    var chars := path;
    while chars != ""
      invariant Expand(path, args) == result + Expand(chars, args)
      decreases |chars|
    {
      var c := chars[0];
      ghost var whole, done := chars, result;
      var piece := [c];
      if c == '{' {
        var name, rest := ReadName(chars[1..]);
        ExpandHole(chars, args);
        chars := rest;
        piece := Encode(Argument(args, name));
      } else {
        chars := chars[1..];
      }
      result := result + piece;
      assert Expand(whole, args) == piece + Expand(chars, args);
      Glue(done, piece, Expand(chars, args));
    }
    assert result + "" == result;
  }

  lemma ExpandHole(path: string, args: Args)
    requires path != "" && path[0] == '{'
    ensures var from := path[1..];
            var n := NameLength(from);
            Expand(path, args) ==
            Encode(Argument(args, from[..n])) + Expand(if n < |from| then from[n + 1..] else "", args)
  {
    var from := path[1..];
    var n := NameLength(from);
    assert path[1..1 + n] == from[..n];
    if n < |from| {
      assert path[n + 2..] == from[n + 1..];
    }
  }

  lemma {:induction false} NameLengthIs(t: string, n: nat)
    requires n <= |t| && (forall i :: 0 <= i < n ==> t[i] != '}') && (n < |t| ==> t[n] == '}')
    ensures NameLength(t) == n
  {
  }

  // ----- expansion and pieces -----

  function ExpandPieces(pieces: seq<Piece>, args: Args): string {
    if pieces == [] then ""
    else
      ExpandPiece(pieces[0], args) + ExpandPieces(pieces[1..], args)
  }

  /** No opening brace is left outside the holes. */
  ghost predicate Clean(pieces: seq<Piece>) {
    forall i :: 0 <= i < |pieces| ==> pieces[i] != Literal('{')
  }

  /** The client fills exactly the holes that the generator sees if and only if
      every opening brace of the template starts one of them. */
  lemma ExpandIsExact(t: string, args: Args)
    ensures Expand(t, args) == ExpandPieces(Pieces(t), args) <==> Clean(Pieces(t))
  {
    if Clean(Pieces(t)) {
      ExpandIsByPieces(t, args);
    } else {
      ExpandShowsNoBrace(t, args);
      PiecesShowBrace(Pieces(t), args);
    }
  }

  /** An opening brace that starts no hole: the client reads a name up to the end
      of the path and fills it, where the generator sees no parameter. */
  lemma UnclosedHole()
    ensures var args := map["x" := [97]];
            && HoleNames(Pieces("/{x")) == [] && Expand("/{x", args) == "/a"
            && ExpandPieces(Pieces("/{x"), args) == "/{x"
  {
    var args: Args := map["x" := [97]];
    UnclosedPieces();
    ExpandUnclosed(args);
    assert Argument(args, "x") == [97];
    LetterEncodes(97);
  }

  lemma LetterEncodes(b: Byte)
    requires IsAlphanumeric(b)
    ensures Encode([b]) == [b as char]
  {
    assert [b][1..] == [];
  }

  lemma ExpandUnclosed(args: Args)
    ensures Expand("/{x", args) == "/" + Encode(Argument(args, "x"))
  {
    var open := "{x";
    assert "/{x"[1..] == open && open[1..] == "x" && "x"[1..] == "";
    assert NameLength("x") == 1;
    ExpandHole(open, args);
    assert "x"[..1] == "x" && Expand("", args) == "";
    assert Encode(Argument(args, "x")) + "" == Encode(Argument(args, "x"));
  }

  lemma UnclosedPieces()
    ensures Pieces("/{x") == [Literal('/')] + ([Literal('{')] + [Literal('x')])
    ensures HoleNames(Pieces("/{x")) == []
    ensures forall args :: ExpandPieces(Pieces("/{x"), args) == "/{x"
  {
    assert "/{x"[1..] == "{x" && "{x"[1..] == "x" && "x"[1..] == "";
    assert Plain("x") == 1 && !StartsWithHole("{x");
    assert Pieces("x") == [Literal('x')] + [] == [Literal('x')];
    var x, open := [Literal('x')], [Literal('{')] + [Literal('x')];
    assert Pieces("{x") == open && x[1..] == [] && open[1..] == x && ([Literal('/')] + open)[1..] == open;
    forall args ensures ExpandPieces(Pieces("/{x"), args) == "/{x" {
      assert ExpandPieces([], args) == "" && ExpandPieces(x, args) == "x" + "";
      ExpandPiecesCons(Literal('{'), x, args);
      ExpandPiecesCons(Literal('/'), open, args);
      assert ['{'] + "x" == "{x" && ['/'] + "{x" == "/{x";
    }
  }

  lemma {:induction false} ExpandShowsNoBrace(t: string, args: Args)
    ensures '{' !in Expand(t, args)
    decreases |t|
  {
    if t != "" {
      if t[0] != '{' {
        ExpandShowsNoBrace(t[1..], args);
      } else {
        var n := NameLength(t[1..]);
        EncodeShowsNoBrace(Argument(args, t[1..1 + n]));
        ExpandShowsNoBrace(if n + 2 <= |t| then t[n + 2..] else "", args);
      }
    }
  }

  lemma {:induction false} EncodeShowsNoBrace(bytes: seq<Byte>)
    ensures '{' !in Encode(bytes)
  {
    if bytes != [] {
      EncodeShowsNoBrace(bytes[1..]);
      var b := bytes[0];
      if !IsAlphanumeric(b) {
        assert UpperDigit(b / 16) != '{' && UpperDigit(b % 16) != '{';
      }
    }
  }

  lemma {:induction false} PiecesShowBrace(pieces: seq<Piece>, args: Args)
    requires !Clean(pieces)
    ensures '{' in ExpandPieces(pieces, args)
  {
    if pieces[0] != Literal('{') {
      var i :| 0 <= i < |pieces| && pieces[i] == Literal('{');
      assert pieces[1..][i - 1] == Literal('{');
      PiecesShowBrace(pieces[1..], args);
    }
  }

  lemma {:induction false} ExpandIsByPieces(t: string, args: Args)
    requires Clean(Pieces(t))
    ensures Expand(t, args) == ExpandPieces(Pieces(t), args)
    decreases |t|
  {
    if t != "" {
      var rest := t[PieceLength(t)..];
      CleanTail(FirstPiece(t), Pieces(rest));
      ExpandIsByPieces(rest, args);
      ExpandFirst(t, args);
      ExpandPiecesCons(FirstPiece(t), Pieces(rest), args);
    }
  }

  lemma CleanTail(p: Piece, ps: seq<Piece>)
    requires Clean([p] + ps)
    ensures Clean(ps) && p != Literal('{')
  {
    var all := [p] + ps;
    assert all[0] == p;
    forall i | 0 <= i < |ps| ensures ps[i] != Literal('{') {
      assert all[i + 1] == ps[i];
    }
  }

  function ExpandPiece(p: Piece, args: Args): string {
    match p case Literal(c) => [c] case Hole(name) => Encode(Argument(args, name))
  }

  lemma ExpandPiecesCons(p: Piece, ps: seq<Piece>, args: Args)
    ensures ExpandPieces([p] + ps, args) == ExpandPiece(p, args) + ExpandPieces(ps, args)
  {
    assert ([p] + ps)[1..] == ps;
  }

  lemma ExpandFirst(t: string, args: Args)
    requires t != "" && FirstPiece(t) != Literal('{')
    ensures Expand(t, args) == ExpandPiece(FirstPiece(t), args) + Expand(t[PieceLength(t)..], args)
  {
    if StartsWithHole(t) {
      var n := HoleName(t);
      ExpandNamed(t, args, n);
      assert ExpandPiece(FirstPiece(t), args) == Encode(Argument(args, t[1..n + 1]));
    } else {
      ExpandPlain(t, args);
    }
  }

  /** A hole's name is what the client reads as a name. */
  lemma HoleName(t: string) returns (n: nat)
    requires StartsWithHole(t)
    ensures n + 2 <= |t| && t[0] == '{' && NameLength(t[1..]) == n
    ensures PieceLength(t) == n + 2 && FirstPiece(t) == Hole(t[1..n + 1])
  {
    n := Plain(t[1..]);
    NameLengthIs(t[1..], n);
  }

  lemma ExpandPlain(t: string, args: Args)
    requires t != "" && t[0] != '{'
    ensures Expand(t, args) == [t[0]] + Expand(t[1..], args)
  {
  }

  lemma ExpandNamed(t: string, args: Args, n: nat)
    requires n + 2 <= |t| && t[0] == '{' && NameLength(t[1..]) == n
    ensures Expand(t, args) == Encode(Argument(args, t[1..n + 1])) + Expand(t[n + 2..], args)
  {
  }

  ghost predicate Filled(pieces: seq<Piece>, args: Args) {
    forall i :: 0 <= i < |pieces| && pieces[i].Hole? ==> Argument(args, pieces[i].name) != []
  }

  /** An expanded path matches its own template. */
  lemma {:induction false} ExpansionMatches(pieces: seq<Piece>, args: Args)
    requires Filled(pieces, args)
    ensures Matches(pieces, ExpandPieces(pieces, args))
  {
    if pieces != [] {
      var rest := ExpandPieces(pieces[1..], args);
      ExpansionMatches(pieces[1..], args);
      var s := ExpandPieces(pieces, args);
      if pieces[0].Literal? {
        assert s[1..] == rest;
      } else {
        var text := Encode(Argument(args, pieces[0].name));
        EncodeIsPlain(Argument(args, pieces[0].name));
        assert s[..|text|] == text && s[|text|..] == rest;
      }
    }
  }

  // ----- trailing slashes -----

  lemma {:induction false} PlainAppend(t: string)
    ensures Plain(t + "/") == if Plain(t) < |t| then Plain(t) else |t| + 1
  {
    if t == "" {
      assert "/"[1..] == "" && t + "/" == "/";
    } else if !IsBrace(t[0]) {
      assert (t + "/")[1..] == t[1..] + "/";
      PlainAppend(t[1..]);
    }
  }

  lemma {:induction false} PiecesAppendSlash(t: string)
    ensures Pieces(t + "/") == Pieces(t) + [Literal('/')]
    decreases |t|
  {
    if t == "" {
      assert t + "/" == "/" && "/"[1..] == "";
    } else {
      FirstAppendSlash(t);
      PiecesAppendSlash(t[PieceLength(t)..]);
      Glue([FirstPiece(t)], Pieces(t[PieceLength(t)..]), [Literal('/')]);
    }
  }

  lemma FirstAppendSlash(t: string)
    requires t != ""
    ensures FirstPiece(t + "/") == FirstPiece(t) && PieceLength(t + "/") == PieceLength(t)
    ensures (t + "/")[PieceLength(t)..] == t[PieceLength(t)..] + "/"
  {
    var u := t + "/";
    assert u[1..] == t[1..] + "/";
    PlainAppend(t[1..]);
    assert StartsWithHole(u) <==> StartsWithHole(t);
    if StartsWithHole(t) {
      var n := Plain(t[1..]);
      assert u[1..1 + n] == t[1..1 + n];
    }
  }

  lemma ExpandAppend(pieces: seq<Piece>, p: Piece, args: Args)
    ensures ExpandPieces(pieces + [p], args) == ExpandPieces(pieces, args) + ExpandPieces([p], args)
  {
    if pieces == [] {
      assert pieces + [p] == [p];
    } else {
      ExpandAppend(pieces[1..], p, args);
      Glue([pieces[0]], pieces[1..], [p]);
      assert [pieces[0]] + pieces[1..] == pieces;
      ExpandPiecesCons(pieces[0], pieces[1..] + [p], args);
      Glue(ExpandPiece(pieces[0], args), ExpandPieces(pieces[1..], args), ExpandPieces([p], args));
    }
  }

  /** A slash at the end of a template is a slash at the end of its expansion. */
  lemma ExpandTrailingSlash(front: string, args: Args)
    requires Clean(Pieces(front + "/")) && Filled(Pieces(front + "/"), args)
    ensures Clean(Pieces(front)) && Filled(Pieces(front), args)
    ensures Expand(front + "/", args) == Expand(front, args) + "/"
  {
    PiecesAppendSlash(front);
    var ps := Pieces(front);
    var all := Pieces(front + "/");
    assert forall i :: 0 <= i < |ps| ==> all[i] == ps[i];
    ExpandIsByPieces(front + "/", args);
    ExpandIsByPieces(front, args);
    ExpandAppend(ps, Literal('/'), args);
    assert [Literal('/')][1..] == [];
    assert ExpandPieces([Literal('/')], args) == "/";
  }

  lemma ExpandUnstripped(t: string, args: Args)
    requires Clean(Pieces(t)) && Filled(Pieces(t), args) && (t != "" ==> t[|t| - 1] != '/')
    ensures RStrip(Expand(t, args)) == Expand(t, args)
  {
    if t != "" {
      LastPieceIsNotSlash(t);
      LastIsNotSlash(Pieces(t), args);
      ExpandIsByPieces(t, args);
    }
  }

  /** Stripping slashes before or after filling the holes is the same. */
  lemma {:induction false} ExpandStripped(t: string, args: Args)
    requires Clean(Pieces(t)) && Filled(Pieces(t), args)
    ensures RStrip(Expand(t, args)) == Expand(RStrip(t), args)
    ensures Clean(Pieces(RStrip(t))) && Filled(Pieces(RStrip(t)), args)
    decreases |t|
  {
    if t != "" && t[|t| - 1] == '/' {
      var front := t[..|t| - 1];
      assert t == front + "/";
      ExpandTrailingSlash(front, args);
      ExpandStripped(front, args);
      StripOne(Expand(front, args));
      StripOne(front);
    } else {
      ExpandUnstripped(t, args);
    }
  }

  lemma StripOne(s: string)
    ensures RStrip(s + "/") == RStrip(s)
  {
    assert (s + "/")[..|s|] == s;
  }

  lemma {:induction false} LastPieceIsNotSlash(t: string)
    requires t != "" && t[|t| - 1] != '/'
    ensures Pieces(t) != [] && Pieces(t)[|Pieces(t)| - 1] != Literal('/')
    decreases |t|
  {
    var rest := t[PieceLength(t)..];
    if rest != "" {
      LastPieceIsNotSlash(rest);
    }
  }

  lemma LastIsNotSlash(pieces: seq<Piece>, args: Args)
    requires pieces != [] && pieces[|pieces| - 1] != Literal('/') && Filled(pieces, args)
    ensures var s := ExpandPieces(pieces, args); s != "" && s[|s| - 1] != '/'
  {
    var front, last := pieces[..|pieces| - 1], pieces[|pieces| - 1];
    assert pieces == front + [last];
    ExpandAppend(front, last, args);
    assert [last][1..] == [];
    var s := ExpandPieces([last], args);
    match last
    case Literal(c) =>
      assert s == [c];
    case Hole(name) =>
      EncodeIsPlain(Argument(args, name));
      assert s == Encode(Argument(args, name));
  }

  /** A template whose holes are filled with non-empty texts is matched again by
      the path it expands to: the look-up finds a template that matches and is at
      least as specific. */
  lemma ExpansionIsFound(templates: seq<string>, t: string, args: Args)
    requires t in templates && Clean(Pieces(t)) && Filled(Pieces(t), args)
    ensures var best := MatchPath(templates, Expand(t, args));
            && best.Some? && best.value in templates
            && TemplateMatches(best.value, Expand(t, args)) && Weight(best.value) >= Weight(t)
  {
    TemplateMatchesExpansion(t, args);
  }

  lemma TemplateMatchesExpansion(t: string, args: Args)
    requires Clean(Pieces(t)) && Filled(Pieces(t), args)
    ensures TemplateMatches(t, Expand(t, args))
  {
    ExpandStripped(t, args);
    if RStrip(t) == "" {
      MatchesWhenEmpty(t, Expand(t, args));
    } else {
      LastStripped(t);
      StrippedMatches(RStrip(t), args);
      MatchesWhenStripped(t, Expand(t, args));
    }
  }

  lemma MatchesWhenEmpty(t: string, path: string)
    requires RStrip(t) == "" && RStrip(path) == ""
    ensures TemplateMatches(t, path)
  {
    SlashMatches();
  }

  lemma MatchesWhenStripped(t: string, path: string)
    requires RStrip(t) != "" && RStrip(path) != "" && Matches(Pieces(RStrip(t)), RStrip(path))
    ensures TemplateMatches(t, path)
  {
    NormalizeIs(t, RStrip(t));
    NormalizeIs(path, RStrip(path));
  }

  lemma StrippedMatches(t: string, args: Args)
    requires t != "" && t[|t| - 1] != '/' && Clean(Pieces(t)) && Filled(Pieces(t), args)
    ensures Expand(t, args) != "" && Matches(Pieces(t), Expand(t, args))
  {
    ExpandIsByPieces(t, args);
    ExpansionMatches(Pieces(t), args);
    LastPieceIsNotSlash(t);
    LastIsNotSlash(Pieces(t), args);
  }

  lemma NormalizeIs(t: string, stripped: string)
    requires RStrip(t) == stripped && stripped != ""
    ensures Normalize(t) == stripped
  {
  }

  lemma SlashMatches()
    ensures Matches(Pieces("/"), "/")
  {
    assert "/"[1..] == "";
    assert Pieces("/") == [Literal('/')] && [Literal('/')][1..] == [];
  }

  lemma {:induction false} LastStripped(t: string)
    ensures RStrip(t) == "" || RStrip(t)[|RStrip(t)| - 1] != '/'
  {
    if t != "" && t[|t| - 1] == '/' {
      LastStripped(t[..|t| - 1]);
    }
  }

  // ----- getting the arguments back -----

  /** Every hole is a whole segment. */
  ghost predicate WholeSegments(pieces: seq<Piece>) {
    forall i :: 0 <= i < |pieces| - 1 && pieces[i].Hole? ==> pieces[i + 1] == Literal('/')
  }

  function Segment(s: string): (n: nat)
    ensures n <= |s| && NoSlash(s[..n]) && (n < |s| ==> s[n] == '/')
  {
    if s == "" || s[0] == '/' then 0
    else
      var n := 1 + Segment(s[1..]);
      assert s[..n] == [s[0]] + s[1..][..n - 1];
      n
  }

  /** What stands in the holes of a path, decoded */
  function Extract(pieces: seq<Piece>, s: string): seq<seq<Byte>> {
    if pieces == [] then []
    else if pieces[0].Literal? then Extract(pieces[1..], if s == "" then "" else s[1..])
    else [Decode(s[..Segment(s)])] + Extract(pieces[1..], s[Segment(s)..])
  }

  function ArgumentsOf(names: seq<string>, args: Args): seq<seq<Byte>> {
    if names == [] then [] else [Argument(args, names[0])] + ArgumentsOf(names[1..], args)
  }

  lemma {:induction false} SegmentIs(text: string, rest: string)
    requires NoSlash(text) && (rest != "" ==> rest[0] == '/')
    ensures Segment(text + rest) == |text|
  {
    if text == "" {
      assert text + rest == rest;
    } else {
      assert (text + rest)[1..] == text[1..] + rest;
      SegmentIs(text[1..], rest);
    }
  }

  /** Filling whole-segment holes is undone by cutting at the slashes and decoding. */
  lemma {:induction false} ExtractExpansion(pieces: seq<Piece>, args: Args)
    requires WholeSegments(pieces)
    ensures Extract(pieces, ExpandPieces(pieces, args)) == ArgumentsOf(HoleNames(pieces), args)
  {
    if pieces != [] {
      var rest := ExpandPieces(pieces[1..], args);
      var s := ExpandPieces(pieces, args);
      assert WholeSegments(pieces[1..]) by {
        forall i | 0 <= i < |pieces| - 2 && pieces[1..][i].Hole? ensures pieces[1..][i + 1] == Literal('/') {
          assert pieces[i + 1] == pieces[1..][i];
        }
      }
      ExtractExpansion(pieces[1..], args);
      if pieces[0].Literal? {
        assert s[1..] == rest && HoleNames(pieces) == HoleNames(pieces[1..]);
      } else {
        var bytes := Argument(args, pieces[0].name);
        EncodeIsPlain(bytes);
        DecodeEncode(bytes);
        SegmentIs(Encode(bytes), rest);
        assert s[..|Encode(bytes)|] == Encode(bytes) && s[|Encode(bytes)|..] == rest;
        var names := HoleNames(pieces);
        assert names == [pieces[0].name] + HoleNames(pieces[1..]) && names[1..] == HoleNames(pieces[1..]);
      }
    }
  }

  lemma {:induction false} ArgumentsAgree(names: seq<string>, a: Args, b: Args)
    requires ArgumentsOf(names, a) == ArgumentsOf(names, b)
    ensures forall name | name in names :: Argument(a, name) == Argument(b, name)
  {
    if names != [] {
      assert ArgumentsOf(names, a)[1..] == ArgumentsOf(names[1..], a);
      assert ArgumentsOf(names, b)[1..] == ArgumentsOf(names[1..], b);
      assert ArgumentsOf(names, a)[0] == ArgumentsOf(names, b)[0];
      ArgumentsAgree(names[1..], a, b);
    }
  }

  /** Arguments that expand a template to the same path agree on all its holes. */
  lemma ExpansionIsInjective(t: string, a: Args, b: Args)
    requires Clean(Pieces(t)) && WholeSegments(Pieces(t))
    requires Expand(t, a) == Expand(t, b)
    ensures forall name | name in HoleNames(Pieces(t)) :: Argument(a, name) == Argument(b, name)
    ensures Extract(Pieces(t), Expand(t, a)) == ArgumentsOf(HoleNames(Pieces(t)), a)
  {
    ExpandIsByPieces(t, a);
    ExpandIsByPieces(t, b);
    ExtractExpansion(Pieces(t), a);
    ExtractExpansion(Pieces(t), b);
    ArgumentsAgree(HoleNames(Pieces(t)), a, b);
  }
}
