/** What the client's path expansion writes for each argument, on the text itself. */
module ExpansionLaws {
  import opened Options
  import opened Sequences
  import opened PathTemplates
  import opened TemplateLaws

  // ----- utf8_percent_encode -----

  ghost predicate IsUpperHex(c: char, d: nat) {
    c as int == if d < 10 then '0' as int + d else 'A' as int + d - 10
  }

  /** A letter or digit of ASCII stands for itself; every other byte is `%` and two
      upper-case hexadecimal digits. */
  ghost predicate IsByteText(part: string, b: Byte) {
    if '0' <= b as char <= '9' || 'A' <= b as char <= 'Z' || 'a' <= b as char <= 'z' then part == [b as char]
    else |part| == 3 && part[0] == '%' && IsUpperHex(part[1], b / 16) && IsUpperHex(part[2], b % 16)
  }

  ghost predicate AreByteTexts(parts: seq<string>, bytes: seq<Byte>) {
    |parts| == |bytes| && forall i :: 0 <= i < |parts| ==> IsByteText(parts[i], bytes[i])
  }

  ghost predicate IsEncoded(bytes: seq<Byte>, s: string) {
    exists parts :: AreByteTexts(parts, bytes) && s == Concat(parts)
  }

  lemma ByteTextIs(b: Byte, part: string)
    ensures part == EncodeByte(b) <==> IsByteText(part, b)
  {
  }

  /** The encoding is the concatenation of the texts of the bytes. */
  lemma {:induction false} EncodeIs(bytes: seq<Byte>, s: string)
    ensures s == Encode(bytes) <==> IsEncoded(bytes, s)
  {
    if bytes == [] {
      assert AreByteTexts([], bytes);
    } else {
      var tail, e := bytes[1..], EncodeByte(bytes[0]);
      EncodeIs(tail, Encode(tail));
      var texts :| AreByteTexts(texts, tail) && Encode(tail) == Concat(texts);
      ByteTextIs(bytes[0], e);
      ConcatCons(e, texts);
      assert AreByteTexts([e] + texts, bytes);
      if parts :| AreByteTexts(parts, bytes) && s == Concat(parts) {
        ByteTextIs(bytes[0], parts[0]);
        assert AreByteTexts(parts[1..], tail);
        EncodeIs(tail, Concat(parts[1..]));
      }
    }
  }

  // ----- apply_path_params -----

  /** What is written for the name: the argument encoded, or nothing if it is missing */
  ghost predicate IsWritten(args: Args, name: string, s: string) {
    if name in args then IsEncoded(args[name], s) else s == ""
  }

  lemma WrittenIs(args: Args, name: string, s: string)
    ensures s == Encode(Argument(args, name)) <==> IsWritten(args, name, s)
  {
    EncodeIs(Argument(args, name), s);
  }

  /** Texts for the pieces: literals stay, holes take their own arguments. */
  ghost predicate AreWritten(ps: seq<Piece>, args: Args, parts: seq<string>) {
    && |parts| == |ps|
    && forall i :: 0 <= i < |ps| ==>
         match ps[i] case Literal(c) => parts[i] == [c] case Hole(name) => IsWritten(args, name, parts[i])
  }

  lemma PieceIsWritten(p: Piece, args: Args, part: string)
    ensures part == ExpandPiece(p, args) <==>
            match p case Literal(c) => part == [c] case Hole(name) => IsWritten(args, name, part)
  {
    if p.Hole? {
      WrittenIs(args, p.name, part);
    }
  }

  lemma {:induction false} PiecesAreWritten(ps: seq<Piece>, args: Args) returns (parts: seq<string>)
    ensures AreWritten(ps, args, parts) && ExpandPieces(ps, args) == Concat(parts)
  {
    parts := [];
    if ps != [] {
      var rest := PiecesAreWritten(ps[1..], args);
      var part := ExpandPiece(ps[0], args);
      PieceIsWritten(ps[0], args, part);
      parts := [part] + rest;
      ConcatCons(part, rest);
    }
  }

  lemma {:induction false} WrittenPieces(ps: seq<Piece>, args: Args, parts: seq<string>)
    requires AreWritten(ps, args, parts)
    ensures ExpandPieces(ps, args) == Concat(parts)
  {
    if ps != [] {
      PieceIsWritten(ps[0], args, parts[0]);
      WrittenPieces(ps[1..], args, parts[1..]);
    }
  }

  /** Where every opening brace starts a hole, the client writes the literals of the
      template and, in each hole, the encoded argument of that name. */
  lemma ExpandIs(t: string, args: Args, s: string)
    requires Clean(Pieces(t))
    ensures s == Expand(t, args) <==>
            exists ps, parts :: ArePieces(ps, t) && AreWritten(ps, args, parts) && s == Concat(parts)
  {
    ExpandIsExact(t, args);
    PiecesAre(Pieces(t), t);
    var texts := PiecesAreWritten(Pieces(t), args);
    if ps, parts :| ArePieces(ps, t) && AreWritten(ps, args, parts) && s == Concat(parts) {
      PiecesAre(ps, t);
      WrittenPieces(ps, args, parts);
    }
  }

  /** What the client does with any text: characters before an opening brace are
      copied, a name reaches to the next closing brace, or to the end. */
  lemma ExpandReads(p: string, name: string, rest: string, args: Args)
    requires '{' !in p && '}' !in name
    ensures Expand(p + rest, args) == p + Expand(rest, args)
    ensures Expand("{" + name + "}" + rest, args) == Encode(Argument(args, name)) + Expand(rest, args)
    ensures Expand("{" + name, args) == Encode(Argument(args, name))
  {
    ExpandCopies(p, rest, args);
    ExpandClosed(name, rest, args);
    ExpandOpen(name, args);
  }

  lemma ExpandClosed(name: string, rest: string, args: Args)
    requires '}' !in name
    ensures Expand("{" + name + "}" + rest, args) == Encode(Argument(args, name)) + Expand(rest, args)
  {
    var path, from := "{" + name + "}" + rest, name + "}" + rest;
    assert path[1..] == from;
    NameLengthIs(from, |name|);
    ExpandHole(path, args);
    assert from[..|name|] == name && from[|name| + 1..] == rest;
  }

  lemma ExpandOpen(name: string, args: Args)
    requires '}' !in name
    ensures Expand("{" + name, args) == Encode(Argument(args, name))
  {
    var path := "{" + name;
    assert path[1..] == name && name[..|name|] == name;
    NameLengthIs(name, |name|);
    ExpandHole(path, args);
    assert Encode(Argument(args, name)) + "" == Encode(Argument(args, name));
  }

  lemma {:induction false} ExpandCopies(p: string, rest: string, args: Args)
    requires '{' !in p
    ensures Expand(p + rest, args) == p + Expand(rest, args)
  {
    if p == "" {
      assert p + rest == rest;
    } else {
      assert (p + rest)[1..] == p[1..] + rest;
      ExpandCopies(p[1..], rest, args);
      assert [p[0]] + (p[1..] + Expand(rest, args)) == p + Expand(rest, args);
    }
  }

  // ----- getting the arguments back -----

  lemma {:induction false} ArgumentsAt(names: seq<string>, args: Args, k: nat)
    requires k < |names|
    ensures |ArgumentsOf(names, args)| == |names|
    ensures ArgumentsOf(names, args)[k] == if names[k] in args then args[names[k]] else []
    decreases |names|
  {
    if |names| > 1 {
      ArgumentsAt(names[1..], args, if k > 0 then k - 1 else 0);
    } else {
      assert ArgumentsOf(names[1..], args) == [];
    }
  }

  /** Cutting an expanded path at its slashes and decoding gives, for each hole in
      order, the bytes of its argument, or none if there is no such argument. */
  lemma ArgumentsComeBack(t: string, args: Args, k: nat)
    requires Clean(Pieces(t)) && WholeSegments(Pieces(t)) && k < |HoleNames(Pieces(t))|
    ensures var found, name := Extract(Pieces(t), Expand(t, args)), HoleNames(Pieces(t))[k];
            && |found| == |HoleNames(Pieces(t))|
            && found[k] == if name in args then args[name] else []
  {
    ExpandIsExact(t, args);
    ExtractExpansion(Pieces(t), args);
    ArgumentsAt(HoleNames(Pieces(t)), args, k);
  }

  /** Arguments that give the same path are the same for every name in the template. */
  lemma SamePathSameArguments(t: string, a: Args, b: Args, name: string)
    requires Clean(Pieces(t)) && WholeSegments(Pieces(t)) && Expand(t, a) == Expand(t, b)
    requires Mentions(t, name) && name in a && name in b
    ensures a[name] == b[name]
  {
    ExpansionIsInjective(t, a, b);
    NamesAreMentioned(t, name);
  }
}
