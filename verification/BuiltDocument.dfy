/** What `build_openapi` of `scripts/generate_openapi.py` makes of a table: which
    operations there are, what is in them, and the order they come in. */
module BuiltDocument {
  import opened Options
  import opened Sequences
  import opened OrderedDicts
  import opened Json
  import opened Schemas
  import opened OpenApiDocument
  import opened Enrichment
  import opened EnrichmentRuns
  import opened OpenApiBuild
  import opened PathExtraction
  import PathTemplates

  // ----- which operations there are -----

  /** The row has its cells, and its path cell mentions the path. */
  ghost predicate Names(row: Row, path: string) {
    row.cells >= 6 && path in RowPaths(row.pathCell)
  }

  /** The row marks the method and mentions the path. */
  ghost predicate Asks(row: Row, path: string, verb: string) {
    && Names(row, path) && verb in row.marked
    && (verb == "get" || verb == "put" || verb == "delete" || verb == "post")
  }

  lemma {:induction false} PathMarks(path: string, row: Row, verbs: seq<string>, c: Cell)
    ensures c in PathCells(path, row, verbs) <==>
            c.path == path && (c.Mark? ==> c.verb in verbs && c.verb in row.marked && c.row == row)
  {
    if verbs != [] {
      var front, last := verbs[..|verbs| - 1], verbs[|verbs| - 1];
      PathMarks(path, row, front, c);
      assert verbs == front + [last];
    }
  }

  lemma {:induction false} RowMarks(row: Row, paths: seq<string>, c: Cell)
    ensures c in RowCells(row, paths) <==>
            c.path in paths && (c.Mark? ==> c.verb in VERBS && c.verb in row.marked && c.row == row)
  {
    if paths != [] {
      var front, last := paths[..|paths| - 1], paths[|paths| - 1];
      RowMarks(row, front, c);
      PathMarks(last, row, VERBS, c);
      assert paths == front + [last];
    }
  }

  lemma VerbIs(verb: string)
    ensures verb in VERBS <==> verb == "get" || verb == "put" || verb == "delete" || verb == "post"
  {
    assert VERBS[0] == "get" && VERBS[1] == "put" && VERBS[2] == "delete" && VERBS[3] == "post";
  }

  lemma {:induction false} TableMarks(rows: seq<Row>, c: Cell)
    ensures c in AllCells(rows) <==>
            if c.Mark? then c.row in rows && Asks(c.row, c.path, c.verb)
            else exists row :: row in rows && Names(row, c.path)
  {
    if rows != [] {
      var front, last := rows[..|rows| - 1], rows[|rows| - 1];
      assert rows == front + [last];
      TableMarks(front, c);
      RowMarks(last, RowPaths(last.pathCell), c);
      if c.Mark? {
        VerbIs(c.verb);
      } else {
        NamedByLast(front, last, c.path);
      }
    }
  }

  lemma NamedByLast(front: seq<Row>, last: Row, path: string)
    ensures (exists row :: row in front + [last] && Names(row, path)) <==>
            (exists row :: row in front && Names(row, path)) || Names(last, path)
  {
    if row :| row in front && Names(row, path) {
      assert row in front + [last];
    }
    assert last in front + [last];
  }

  /** Where the build succeeds, an operation stands in the document exactly when some
      row asks for it, and then it is the one made from that row; a path stands there
      exactly when some row names it. */
  lemma BuiltOperations(rows: seq<Row>, path: string, verb: string)
    requires Build(rows).Ok?
    ensures var paths := Build(rows).value;
            && (Has(paths, path) <==> exists row :: row in rows && Names(row, path))
            && (OperationAt(paths, Target(path, verb)).Some? <==> exists row :: row in rows && Asks(row, path, verb))
            && forall row | row in rows && Asks(row, path, verb) ::
              OperationAt(paths, Target(path, verb)) == Some(MakeOperation(verb, path, row))
  {
    var paths, cells, t := Build(rows).value, AllCells(rows), Target(path, verb);
    BuildSucceeds(rows);
    forall row | row in rows && Asks(row, path, verb)
      ensures OperationAt(paths, t) == Some(MakeOperation(verb, path, row))
    {
      TableMarks(rows, Mark(path, verb, row));
      MarkedIsMade(cells, Mark(path, verb, row));
    }
    if OperationAt(paths, t).Some? {
      assert Made(cells, t, OperationAt(paths, t).value);
      var row :| Mark(path, verb, row) in cells;
      TableMarks(rows, Mark(path, verb, row));
    }
    PathIsEntered(rows, path);
  }

  lemma PathIsEntered(rows: seq<Row>, path: string)
    ensures Entered(AllCells(rows), path) <==> exists row :: row in rows && Names(row, path)
  {
    TableMarks(rows, Touch(path));
    if Entered(AllCells(rows), path) {
      var c :| c in AllCells(rows) && c.path == path;
      TableMarks(rows, c);
    }
  }

  // ----- when the build succeeds -----

  /** How often the rows ask for the operation: a row asks as often as it mentions the path. */
  ghost function TimesAsked(rows: seq<Row>, path: string, verb: string): nat {
    if rows == [] then 0
    else
      var row := rows[|rows| - 1];
      TimesAsked(rows[..|rows| - 1], path, verb)
      + if Asks(row, path, verb) then multiset(RowPaths(row.pathCell))[path] else 0
  }

  ghost function CountIn(cells: seq<Cell>, t: Target): nat {
    multiset(Marks(cells))[t]
  }

  lemma CountAppend(cells: seq<Cell>, c: Cell, t: Target)
    ensures CountIn(cells + [c], t) == CountIn(cells, t) + if c.Mark? && Target(c.path, c.verb) == t then 1 else 0
  {
    MarksAppend(cells, c);
  }

  lemma CountConcat(a: seq<Cell>, b: seq<Cell>, t: Target)
    ensures CountIn(a + b, t) == CountIn(a, t) + CountIn(b, t)
  {
    MarksConcat(a, b);
  }

  lemma {:induction false} CountPathMarks(path: string, row: Row, verbs: seq<string>, t: Target)
    ensures CountIn(PathCells(path, row, verbs), t) ==
            if t.template == path && t.verb in row.marked then multiset(verbs)[t.verb] else 0
  {
    if verbs == [] {
      CountAppend([], Touch(path), t);
      assert [] + [Touch(path)] == [Touch(path)];
    } else {
      var front, last := verbs[..|verbs| - 1], verbs[|verbs| - 1];
      CountPathMarks(path, row, front, t);
      PathCellsLast(path, row, verbs);
      CountLast(front, last, t.verb);
      CountAppend(PathCells(path, row, front), Mark(path, last, row), t);
    }
  }

  lemma PathCellsLast(path: string, row: Row, verbs: seq<string>)
    requires verbs != []
    ensures var front, last := verbs[..|verbs| - 1], verbs[|verbs| - 1];
            var cells := PathCells(path, row, front);
            && verbs == front + [last]
            && PathCells(path, row, verbs) == if last in row.marked then cells + [Mark(path, last, row)] else cells
  {
  }

  lemma VerbsOnce(verb: string)
    ensures multiset(VERBS)[verb] == if verb in VERBS then 1 else 0
  {
    assert VERBS == ["get"] + ["put"] + ["delete"] + ["post"];
  }

  lemma CountLast<T>(front: seq<T>, last: T, x: T)
    ensures multiset(front + [last])[x] == multiset(front)[x] + if last == x then 1 else 0
  {
  }

  /** One mention of a path marks an operation once, if at all. */
  lemma CountOnePath(row: Row, path: string, t: Target)
    ensures CountIn(PathCells(path, row, VERBS), t) ==
            if path == t.template && t.verb in VERBS && t.verb in row.marked then 1 else 0
  {
    CountPathMarks(path, row, VERBS, t);
    VerbsOnce(t.verb);
  }

  lemma RowCellsLast(row: Row, paths: seq<string>)
    requires paths != []
    ensures var front, last := paths[..|paths| - 1], paths[|paths| - 1];
            RowCells(row, paths) == RowCells(row, front) + PathCells(last, row, VERBS) && paths == front + [last]
  {
  }

  lemma {:induction false} CountRowMarks(row: Row, paths: seq<string>, t: Target)
    ensures CountIn(RowCells(row, paths), t) ==
            if t.verb in VERBS && t.verb in row.marked then multiset(paths)[t.template] else 0
  {
    if paths != [] {
      var front, last := paths[..|paths| - 1], paths[|paths| - 1];
      CountRowMarks(row, front, t);
      RowCellsLast(row, paths);
      CountOnePath(row, last, t);
      CountConcat(RowCells(row, front), PathCells(last, row, VERBS), t);
      CountLast(front, last, t.template);
    }
  }

  lemma {:induction false} CountMarks(rows: seq<Row>, t: Target)
    ensures CountIn(AllCells(rows), t) == TimesAsked(rows, t.template, t.verb)
  {
    if rows != [] {
      CountMarks(rows[..|rows| - 1], t);
      CountLastRow(rows, t);
    }
  }

  lemma CountLastRow(rows: seq<Row>, t: Target)
    requires rows != []
    ensures var front, last := rows[..|rows| - 1], rows[|rows| - 1];
            CountIn(AllCells(rows), t) == CountIn(AllCells(front), t)
              + if Asks(last, t.template, t.verb) then multiset(RowPaths(last.pathCell))[t.template] else 0
  {
    var front, last := rows[..|rows| - 1], rows[|rows| - 1];
    var paths := RowPaths(last.pathCell);
    CountRowMarks(last, paths, t);
    CountConcat(AllCells(front), RowCells(last, paths), t);
    VerbIs(t.verb);
    assert AllCells(front) + [] == AllCells(front);
    assert AllCells(rows) == AllCells(front) + if last.cells < 6 then [] else RowCells(last, paths);
  }

  lemma {:induction false} OnceInDistinct<T>(s: seq<T>, x: T)
    requires Distinct(s)
    ensures multiset(s)[x] <= 1
  {
    if s != [] {
      var front, last := s[..|s| - 1], s[|s| - 1];
      assert s == front + [last] && last !in front;
      OnceInDistinct(front, x);
    }
  }

  lemma TwiceCounts<T>(s: seq<T>, x: T)
    requires Twice(s, x)
    ensures multiset(s)[x] >= 2
  {
    var i, j :| 0 <= i < j < |s| && s[i] == x && s[j] == x;
    assert s == s[..j] + [x] + s[j + 1..] && s[..j][i] == x;
  }

  /** A table builds exactly when some row names a path and no operation is asked for
      more than once; otherwise the error says which. */
  lemma BuildsIff(rows: seq<Row>)
    ensures Build(rows).Ok? <==>
            && (exists row, path :: row in rows && Names(row, path))
            && forall path, verb :: TimesAsked(rows, path, verb) <= 1
    ensures Build(rows).Err? ==>
            match Build(rows).error
            case NoPaths => forall row, path | row in rows :: !Names(row, path)
            case DuplicateOperation(verb, path) => TimesAsked(rows, path, verb) >= 2
  {
    BuildSucceeds(rows);
    MarksOnce(rows);
    CellsIff(rows);
    if Build(rows).Err? && Build(rows).error.DuplicateOperation? {
      var t := Target(Build(rows).error.path, Build(rows).error.verb);
      TwiceCounts(Marks(AllCells(rows)), t);
      CountMarks(rows, t);
    }
  }

  lemma MarksOnce(rows: seq<Row>)
    ensures Distinct(Marks(AllCells(rows))) <==> forall path, verb :: TimesAsked(rows, path, verb) <= 1
  {
    var marks := Marks(AllCells(rows));
    if Distinct(marks) {
      forall path, verb ensures TimesAsked(rows, path, verb) <= 1 {
        CountMarks(rows, Target(path, verb));
        OnceInDistinct(marks, Target(path, verb));
      }
    } else {
      var i, j :| 0 <= i < j < |marks| && marks[i] == marks[j];
      CountMarks(rows, marks[i]);
      TwiceCounts(marks, marks[i]);
      assert TimesAsked(rows, marks[i].template, marks[i].verb) >= 2;
    }
  }

  lemma CellsIff(rows: seq<Row>)
    ensures AllCells(rows) != [] <==> exists row, path :: row in rows && Names(row, path)
  {
    if AllCells(rows) != [] {
      var c := AllCells(rows)[0];
      assert Entered(AllCells(rows), c.path);
      PathIsEntered(rows, c.path);
    }
    if row, path :| row in rows && Names(row, path) {
      PathIsEntered(rows, path);
    }
  }

  // ----- the order -----

  /** The paths of the rows that have their cells, in order */
  ghost function MentionedPaths(rows: seq<Row>): seq<string> {
    if rows == [] then []
    else
      var row := rows[|rows| - 1];
      MentionedPaths(rows[..|rows| - 1]) + if row.cells >= 6 then RowPaths(row.pathCell) else []
  }

  /** The marked methods of a row, in the order the document gives them */
  ghost function MarkedVerbs(row: Row): seq<string> {
    IfMarked(row, "get") + IfMarked(row, "put") + IfMarked(row, "delete") + IfMarked(row, "post")
  }

  ghost function IfMarked(row: Row, verb: string): seq<string> {
    if verb in row.marked then [verb] else []
  }

  /** The methods that the rows ask for on a path, row after row */
  ghost function VerbsOf(rows: seq<Row>, path: string): seq<string> {
    if rows == [] then []
    else
      var row := rows[|rows| - 1];
      VerbsOf(rows[..|rows| - 1], path) + if Names(row, path) then MarkedVerbs(row) else []
  }

  function CellPaths(cells: seq<Cell>): seq<string> {
    seq(|cells|, i requires 0 <= i < |cells| => cells[i].path)
  }

  lemma {:induction false} KeysOfFold(cells: seq<Cell>)
    requires Fold(cells).Ok?
    ensures Keys(Fold(cells).value) == Unique(CellPaths(cells))
  {
    if cells != [] {
      var front, last := cells[..|cells| - 1], cells[|cells| - 1];
      KeysOfFold(front);
      var paths := Fold(front).value;
      HasKeys(paths, last.path);
      assert CellPaths(cells)[..|cells| - 1] == CellPaths(front);
      match last
      case Touch(path) => KeysPut(paths, path, []);
      case Mark(path, verb, row) =>
        KeysPut(paths, path, Put(Get(paths, path).GetOr([]), verb, MakeOperation(verb, path, row)));
    }
  }

  lemma UniqueAppend(a: seq<string>, x: string)
    ensures Unique(a + [x]) == if x in Unique(a) then Unique(a) else Unique(a) + [x]
  {
    assert (a + [x])[..|a|] == a;
  }

  lemma {:induction false} UniqueAbsorbs(a: seq<string>, b: seq<string>)
    requires forall x | x in b :: x in a
    ensures Unique(a + b) == Unique(a)
  {
    if b == [] {
      assert a + b == a;
    } else {
      var front, last := b[..|b| - 1], b[|b| - 1];
      UniqueAbsorbs(a, front);
      UniqueHolds(a);
      assert a + b == (a + front) + [last];
      UniqueAppend(a + front, last);
    }
  }

  lemma {:induction false} UniqueCongruent(a: seq<string>, b: seq<string>, c: seq<string>)
    requires Unique(a) == Unique(b)
    ensures Unique(a + c) == Unique(b + c)
  {
    if c == [] {
      assert a + c == a && b + c == b;
    } else {
      var front, last := c[..|c| - 1], c[|c| - 1];
      UniqueCongruent(a, b, front);
      assert a + c == (a + front) + [last] && b + c == (b + front) + [last];
      UniqueAppend(a + front, last);
      UniqueAppend(b + front, last);
    }
  }

  lemma PathsConcat(a: seq<Cell>, b: seq<Cell>)
    ensures CellPaths(a + b) == CellPaths(a) + CellPaths(b)
  {
  }

  lemma PathsOfPath(path: string, row: Row, verbs: seq<string>)
    ensures var ps := CellPaths(PathCells(path, row, verbs));
            ps != [] && ps[0] == path && forall p | p in ps :: p == path
  {
    var cells := PathCells(path, row, verbs);
    PathMarks(path, row, verbs, Touch(path));
    forall i | 0 <= i < |cells| ensures cells[i].path == path {
      PathMarks(path, row, verbs, cells[i]);
    }
  }

  lemma {:induction false} PathsOfRow(before: seq<string>, row: Row, paths: seq<string>)
    ensures Unique(before + CellPaths(RowCells(row, paths))) == Unique(before + paths)
  {
    if paths != [] {
      var front, last := paths[..|paths| - 1], paths[|paths| - 1];
      PathsOfRow(before, row, front);
      PathsConcat(RowCells(row, front), PathCells(last, row, VERBS));
      PathsOfPath(last, row, VERBS);
      OnePathAdded(before, CellPaths(RowCells(row, front)), front, last, CellPaths(PathCells(last, row, VERBS)));
      assert paths == front + [last];
    }
  }

  lemma OnePathAdded(before: seq<string>, found: seq<string>, front: seq<string>, last: string, own: seq<string>)
    requires Unique(before + found) == Unique(before + front)
    requires own != [] && own[0] == last && forall p | p in own :: p == last
    ensures Unique(before + (found + own)) == Unique(before + (front + [last]))
  {
    UniqueCongruent(before + found, before + front, own);
    Glue(before, found, own);
    Glue(before, front, [last]);
    OnceIsEnough(before + front, last, own);
  }

  lemma OnceIsEnough(s: seq<string>, last: string, own: seq<string>)
    requires own != [] && own[0] == last && forall p | p in own :: p == last
    ensures Unique(s + own) == Unique(s + [last])
  {
    var all, more := s + [last], own[1..];
    assert s + own == all + more;
    assert all[|s|] == last;
    forall x | x in more ensures x in all {
      assert x in own;
    }
    UniqueAbsorbs(all, more);
  }

  lemma {:induction false} PathsOfTable(rows: seq<Row>)
    ensures Unique(CellPaths(AllCells(rows))) == Unique(MentionedPaths(rows))
  {
    if rows != [] {
      var front, last := rows[..|rows| - 1], rows[|rows| - 1];
      PathsOfTable(front);
      if last.cells >= 6 {
        var paths := RowPaths(last.pathCell);
        PathsConcat(AllCells(front), RowCells(last, paths));
        PathsOfRow(CellPaths(AllCells(front)), last, paths);
        UniqueCongruent(CellPaths(AllCells(front)), MentionedPaths(front), paths);
      } else {
        assert AllCells(front) + [] == AllCells(front) && MentionedPaths(front) + [] == MentionedPaths(front);
      }
    }
  }

  /** `x` occurs before `y` does. */
  ghost predicate Precedes(s: seq<string>, x: string, y: string) {
    exists k: nat :: k < |s| && s[k] == x && y !in s[..k + 1]
  }

  /** `u` has the elements of `s` once each, in the order of their first occurrences. */
  ghost predicate IsFirstOrder(s: seq<string>, u: seq<string>) {
    && Distinct(u) && (forall x :: x in u <==> x in s)
    && forall i, j :: 0 <= i < j < |u| ==> Precedes(s, u[i], u[j])
  }

  lemma PrecedesAbsent(s: seq<string>, x: string, y: string)
    requires x in s && y !in s
    ensures Precedes(s, x, y)
  {
    var k: nat :| k < |s| && s[k] == x;
    assert forall z | z in s[..k + 1] :: z in s;
  }

  lemma PrecedesLonger(front: seq<string>, last: string, x: string, y: string)
    requires Precedes(front, x, y)
    ensures Precedes(front + [last], x, y)
  {
    var k: nat :| k < |front| && front[k] == x && y !in front[..k + 1];
    assert (front + [last])[..k + 1] == front[..k + 1] && (front + [last])[k] == x;
  }

  lemma {:induction false} UniqueIsFirstOrder(s: seq<string>)
    ensures IsFirstOrder(s, Unique(s))
  {
    UniqueHolds(s);
    if s != [] {
      var front, u := s[..|s| - 1], Unique(s);
      UniqueIsFirstOrder(front);
      UniqueHolds(front);
      forall i, j | 0 <= i < j < |u| ensures Precedes(s, u[i], u[j]) {
        if j == |Unique(front)| {
          PrecedesAbsent(front, u[i], u[j]);
        }
        PrecedesLonger(front, s[|s| - 1], u[i], u[j]);
      }
      assert s == front + [s[|s| - 1]];
    }
  }

  /** The methods marked on a path, in order */
  function VerbsAt(cells: seq<Cell>, path: string): seq<string> {
    if cells == [] then []
    else
      var last := cells[|cells| - 1];
      VerbsAt(cells[..|cells| - 1], path) + if last.Mark? && last.path == path then [last.verb] else []
  }

  lemma VerbsAppend(cells: seq<Cell>, c: Cell, path: string)
    ensures VerbsAt(cells + [c], path) == VerbsAt(cells, path) + if c.Mark? && c.path == path then [c.verb] else []
  {
    assert (cells + [c])[..|cells|] == cells;
  }

  lemma {:induction false} VerbsConcat(a: seq<Cell>, b: seq<Cell>, path: string)
    ensures VerbsAt(a + b, path) == VerbsAt(a, path) + VerbsAt(b, path)
  {
    if b == [] {
      assert a + b == a;
    } else {
      var front, last := b[..|b| - 1], b[|b| - 1];
      VerbsConcat(a, front, path);
      assert a + b == (a + front) + [last];
      VerbsAppend(a + front, last, path);
    }
  }

  lemma {:induction false} KeysOfItem(cells: seq<Cell>, path: string)
    requires Fold(cells).Ok?
    ensures Keys(Get(Fold(cells).value, path).GetOr([])) == VerbsAt(cells, path)
  {
    if cells != [] {
      var front, last := cells[..|cells| - 1], cells[|cells| - 1];
      KeysOfItem(front, path);
      ItemStep(Fold(front).value, last, path);
    }
  }

  lemma ItemStep(paths: Paths, c: Cell, path: string)
    requires ApplyCell(paths, c).Ok?
    ensures Keys(Get(ApplyCell(paths, c).value, path).GetOr([])) ==
            Keys(Get(paths, path).GetOr([])) + if c.Mark? && c.path == path then [c.verb] else []
  {
    match c
    case Touch(p) => GetPut(paths, p, [], path);
    case Mark(p, verb, row) =>
      var item, op := Get(paths, p).GetOr([]), MakeOperation(verb, p, row);
      GetPut(paths, p, Put(item, verb, op), path);
      KeysPut(item, verb, op);
  }

  lemma VerbsOfPath(path: string, row: Row, own: string)
    ensures VerbsAt(PathCells(path, row, VERBS), own) == if path == own then MarkedVerbs(row) else []
  {
    if path == own {
      assert VERBS[..0] == [] && VERBS[..4] == VERBS;
      VerbsAppend([], Touch(path), path);
      assert [] + [Touch(path)] == [Touch(path)];
      VerbsStep(path, row, 0);
      VerbsStep(path, row, 1);
      VerbsStep(path, row, 2);
      VerbsStep(path, row, 3);
      assert [] + IfMarked(row, "get") == IfMarked(row, "get");
    } else {
      VerbsElsewhere(path, row, VERBS, own);
    }
  }

  lemma VerbsStep(path: string, row: Row, i: nat)
    requires i < |VERBS|
    ensures VerbsAt(PathCells(path, row, VERBS[..i + 1]), path) ==
            VerbsAt(PathCells(path, row, VERBS[..i]), path) + IfMarked(row, VERBS[i])
  {
    PathCellsStep(path, row, i);
    VerbsAppend(PathCells(path, row, VERBS[..i]), Mark(path, VERBS[i], row), path);
  }

  lemma {:induction false} VerbsElsewhere(path: string, row: Row, verbs: seq<string>, own: string)
    requires path != own
    ensures VerbsAt(PathCells(path, row, verbs), own) == []
  {
    if verbs == [] {
      VerbsAppend([], Touch(path), own);
      assert [] + [Touch(path)] == [Touch(path)];
    } else {
      var front, last := verbs[..|verbs| - 1], verbs[|verbs| - 1];
      VerbsElsewhere(path, row, front, own);
      VerbsAppend(PathCells(path, row, front), Mark(path, last, row), own);
      assert PathCells(path, row, front) + [] == PathCells(path, row, front);
    }
  }

  function Repeat(s: seq<string>, n: nat): seq<string> {
    if n == 0 then [] else Repeat(s, n - 1) + s
  }

  lemma {:induction false} RepeatNothing(n: nat)
    ensures Repeat([], n) == []
  {
    if n > 0 {
      RepeatNothing(n - 1);
    }
  }

  lemma {:induction false} VerbsOfRow(row: Row, paths: seq<string>, path: string)
    ensures VerbsAt(RowCells(row, paths), path) == Repeat(MarkedVerbs(row), multiset(paths)[path])
  {
    if paths != [] {
      var front, last := paths[..|paths| - 1], paths[|paths| - 1];
      VerbsOfRow(row, front, path);
      RowCellsLast(row, paths);
      VerbsConcat(RowCells(row, front), PathCells(last, row, VERBS), path);
      VerbsOfPath(last, row, path);
      RepeatStep(MarkedVerbs(row), front, last, path);
    }
  }

  lemma RepeatStep(s: seq<string>, front: seq<string>, last: string, path: string)
    ensures Repeat(s, multiset(front + [last])[path]) ==
            Repeat(s, multiset(front)[path]) + if last == path then s else []
  {
    var r := Repeat(s, multiset(front)[path]);
    assert r + [] == r;
  }

  lemma {:induction false} VerbsOfTable(rows: seq<Row>, path: string)
    requires forall verb :: TimesAsked(rows, path, verb) <= 1
    ensures VerbsAt(AllCells(rows), path) == VerbsOf(rows, path)
  {
    if rows != [] {
      var front, last := rows[..|rows| - 1], rows[|rows| - 1];
      forall verb ensures TimesAsked(front, path, verb) <= 1 {
        assert TimesAsked(front, path, verb) <= TimesAsked(rows, path, verb);
      }
      VerbsOfTable(front, path);
      if last.cells >= 6 {
        VerbsConcat(AllCells(front), RowCells(last, RowPaths(last.pathCell)), path);
        VerbsOfLast(rows, path);
      } else {
        assert AllCells(front) + [] == AllCells(front) && VerbsOf(front, path) + [] == VerbsOf(front, path);
      }
    }
  }

  lemma VerbsOfLast(rows: seq<Row>, path: string)
    requires rows != [] && rows[|rows| - 1].cells >= 6
    requires forall verb :: TimesAsked(rows, path, verb) <= 1
    ensures var last := rows[|rows| - 1];
            var paths := RowPaths(last.pathCell);
            VerbsAt(RowCells(last, paths), path) == if path in paths then MarkedVerbs(last) else []
  {
    var last := rows[|rows| - 1];
    var n, verbs := multiset(RowPaths(last.pathCell))[path], MarkedVerbs(last);
    VerbsOfRow(last, RowPaths(last.pathCell), path);
    if verbs == [] {
      RepeatNothing(n);
    } else {
      assert TimesAsked(rows, path, verbs[0]) <= 1;
      assert n <= 1 && (n == 1 ==> Repeat(verbs, 1) == [] + verbs);
    }
  }

  /** The paths come in the order of their first mention, and the methods of a path in
      the order of the rows that mark them; those of one row as get, put, delete, post. */
  lemma BuiltOrder(rows: seq<Row>, path: string)
    requires Build(rows).Ok?
    ensures var paths := Build(rows).value;
            && IsFirstOrder(MentionedPaths(rows), Keys(paths))
            && Keys(Get(paths, path).GetOr([])) == VerbsOf(rows, path)
  {
    KeysOfFold(AllCells(rows));
    PathsOfTable(rows);
    UniqueIsFirstOrder(MentionedPaths(rows));
    BuildsIff(rows);
    KeysOfItem(AllCells(rows), path);
    VerbsOfTable(rows, path);
  }

  // ----- what is in an operation -----

  ghost predicate IsLetterOrDigit(c: char) {
    'a' <= c <= 'z' || 'A' <= c <= 'Z' || '0' <= c <= '9'
  }

  /** The letters and digits of a path in order, a letter at the start of each run as a
      capital; `inside` tells whether one stands just before. */
  ghost function Joint(path: string, inside: bool): string {
    if path == "" then ""
    else if !IsLetterOrDigit(path[0]) then Joint(path[1..], false)
    else
      var c := path[0];
      var own := if !inside && 'a' <= c <= 'z' then ('A' as int + (c as int - 'a' as int)) as char else c;
      [own] + Joint(path[1..], true)
  }

  lemma {:induction false} JointRun(t: string)
    ensures Joint(t, true) == t[..AlnumRun(t)] + Joint(t[AlnumRun(t)..], false)
  {
    var n := AlnumRun(t);
    if n > 0 {
      JointRun(t[1..]);
      assert t[..n] == [t[0]] + t[1..][..n - 1] && t[1..][n - 1..] == t[n..];
    } else {
      assert t[0..] == t && t[..0] == "";
    }
  }

  /** The joined path is what one scan over its characters gives. */
  lemma {:induction false} JoinedIs(path: string)
    ensures Joined(path) == Joint(path, false)
    decreases |path|
  {
    if path != "" {
      var n := AlnumRun(path);
      if n == 0 {
        JoinedIs(path[1..]);
      } else {
        JoinedIs(path[n..]);
        JointFirst(path);
      }
    }
  }

  lemma JointFirst(path: string)
    requires AlnumRun(path) > 0
    ensures var n := AlnumRun(path);
            Joint(path, false) == [UpperChar(path[0])] + path[1..n] + Joint(path[n..], false)
  {
    var n := AlnumRun(path);
    JointRun(path[1..]);
    assert path[1..][..n - 1] == path[1..n] && path[1..][n - 1..] == path[n..];
    Glue([UpperChar(path[0])], path[1..n], Joint(path[n..], false));
  }

  /** An operation of the document: its id, its path parameters, a request body for put
      and post only, and the three groups of responses */
  lemma MadeIs(verb: string, path: string, row: Row)
    ensures var op := MakeOperation(verb, path, row);
            && op.operationId == Some(verb + Joint(path, false))
            && (op.requestBody.Some? <==> verb == "put" || verb == "post")
            && (op.requestBody.Some? ==> op.requestBody.value == RequestBody(row))
            && (op.responses.Some? && Keys(op.responses.value) == ["2XX", "4XX", "5XX"])
            && op.responses.value[0].value == SuccessBody(row)
            && op.responses.value[1].value == Body(None) && op.responses.value[2].value == Body(None)
            && op.statuses == None
  {
    JoinedIs(path);
  }

  /** The parameters of an operation: the names in braces in its path, once each, in the
      order of their first occurrences, all required; no list if there are none */
  lemma MadeParameters(verb: string, path: string, row: Row)
    ensures var found, names := MakeOperation(verb, path, row).parameters,
                                PathTemplates.HoleNames(PathTemplates.Pieces(path));
            && (found.None? <==> names == [])
            && (found.Some? ==>
                  && (forall p | p in found.value :: p == Parameter(p.name, "path", true, false))
                  && exists u :: IsFirstOrder(names, u) && |u| == |found.value|
                                 && forall i :: 0 <= i < |u| ==> found.value[i].name == u[i])
  {
    var names := PathTemplates.HoleNames(PathTemplates.Pieces(path));
    UniqueIsFirstOrder(names);
    UniqueHolds(names);
    if names != [] {
      assert names[0] in Unique(names);
    }
  }

  lemma {:induction false} PopLast(entries: seq<Entry>, e: Entry)
    requires forall d | d in entries :: !SameKey(e, d)
    ensures Pop(entries + [e], e) == entries
  {
    if entries == [] {
      assert [e][1..] == [];
    } else {
      assert (entries + [e])[1..] == entries[1..] + [e];
      PopLast(entries[1..], e);
    }
  }

  lemma PopMarker(v: Json, required: seq<string>)
    ensures Infer(v, required, true) == Schema(Infer(v, required, false).entries + [Inferred])
    ensures Schema(Pop(Infer(v, required, true).entries, Inferred)) == Infer(v, required, false)
  {
    var plain := Infer(v, required, false).entries;
    assert plain + [] == plain;
    var names := if v.Obj? then RequiredInOrder(v.members, required) else [];
    assert plain == InferType(v) + if names == [] then [] else [Required(names)];
    InferTypeIsPlain(v);
    PopLast(plain, Inferred);
  }

  /** The schema for one example is its inferred schema with the marker; for several it
      is a choice of their inferred schemas, and only the choice is marked. */
  lemma ExampleSchemaIs(examples: seq<Example>)
    ensures var s := SchemaOf(examples);
            if |examples| == 1 then
              s == Schema(Infer(examples[0].value, examples[0].required, false).entries + [Inferred])
            else
              exists variants ::
                && s == Schema([OneOf(variants), Inferred]) && |variants| == |examples|
                && forall i :: 0 <= i < |variants| ==>
                     variants[i] == Infer(examples[i].value, examples[i].required, false)
  {
    forall i | 0 <= i < |examples|
      ensures Schema(Pop(Infer(examples[i].value, examples[i].required, true).entries, Inferred)) ==
              Infer(examples[i].value, examples[i].required, false)
    {
      PopMarker(examples[i].value, examples[i].required);
    }
    if |examples| == 1 {
      PopMarker(examples[0].value, examples[0].required);
    } else {
      var variants := SchemasOf(examples, false);
      assert SchemaOf(examples) == Schema([OneOf(variants), Inferred]);
    }
  }

  /** Bodies: JSON always described for a request, by its examples if it has any, and
      a form beside it where the description says so; for success only with examples */
  lemma BodiesAre(row: Row)
    ensures var content := RequestBody(row).content;
            && content.Some?
            && Keys(content.value) == ["application/json"] + (if row.multipart then ["multipart/form-data"] else [])
            && content.value[0].value == Media(Some(if row.requests == [] then EMPTY else SchemaOf(row.requests)))
            && (row.multipart ==> content.value[1].value == Media(Some(EMPTY)))
    ensures if row.responses == [] then SuccessBody(row) == Body(None)
            else SuccessBody(row) ==
                 Body(Some([Pair("application/json", Media(Some(SchemaOf(AsExamples(row.responses)))))]))
  {
  }

  // ----- validity -----

  ghost predicate IsAsked(rows: seq<Row>, path: string, verb: string) {
    exists row :: row in rows && Asks(row, path, verb)
  }

  lemma AskedIsMarked(rows: seq<Row>, path: string, verb: string)
    requires Build(rows).Ok?
    ensures Target(path, verb) in Marks(AllCells(rows)) <==> IsAsked(rows, path, verb)
  {
    BuildSucceeds(rows);
    BuiltOperations(rows, path, verb);
  }

  /** A table that builds gives a valid document exactly when no two different paths that
      rows ask for with the same method join to the same text. */
  lemma BuiltIsValidIff(rows: seq<Row>)
    requires Build(rows).Ok?
    ensures Valid("3.1.0", Build(rows).value) <==>
            forall p, q, verb | IsAsked(rows, p, verb) && IsAsked(rows, q, verb) && p != q ::
              Joint(p, false) != Joint(q, false)
  {
    var marks := Marks(AllCells(rows));
    BuiltIsValid(rows);
    if NoSharedIds(marks) {
      forall p, q, verb | IsAsked(rows, p, verb) && IsAsked(rows, q, verb) && p != q
        ensures Joint(p, false) != Joint(q, false)
      {
        AskedIsMarked(rows, p, verb);
        AskedIsMarked(rows, q, verb);
        assert !SameId(Target(p, verb), Target(q, verb));
        JoinedIs(p);
        JoinedIs(q);
      }
    } else {
      var t, u :| t in marks && u in marks && t != u && SameId(t, u);
      AskedIsMarked(rows, t.template, t.verb);
      AskedIsMarked(rows, u.template, u.verb);
      JoinedIs(t.template);
      JoinedIs(u.template);
      assert t.template != u.template;
    }
  }

  // ----- from table to published document -----

  /** From table to published document: after building and enriching, every example
      of a row and every used observation is covered at its own operation. */
  lemma PublishedCovers(rows: seq<Row>, observations: seq<Observation>, t: Target, row: Row)
    requires Build(rows).Ok? && row in rows && Asks(row, t.template, t.verb)
    requires forall obs | obs in observations :: UniqueObservation(obs)
    requires (forall e | e in row.requests :: UniqueKeys(e.value)) && (forall v | v in row.responses :: UniqueKeys(v))
    ensures var op := OperationAt(EnrichAll(Build(rows).value, observations).paths, t);
            && (t.verb in {"put", "post"} ==> forall e | e in row.requests :: Covers(RequestSchema(op), e.value))
            && (forall v | v in row.responses :: Covers(ResponseSchema(op, "2XX"), v))
    ensures var paths := Build(rows).value;
            forall obs | obs in observations && BelongsTo(paths, obs, t) ::
              HoldsEvidence(EnrichAll(paths, observations).paths, t, obs)
  {
    var paths, cells := Build(rows).value, AllCells(rows);
    BuildSucceeds(rows);
    NoEvidenceIsLost(paths, observations);
    TableMarks(rows, Mark(t.template, t.verb, row));
    MarkedIsMade(cells, Mark(t.template, t.verb, row));
    MadeCoversExamples(t.verb, t.template, row);
  }
}
