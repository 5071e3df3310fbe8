/** `operation_id`, `make_operation` and `build_openapi` of
    `scripts/generate_openapi.py`, from extracted table rows on. */
module OpenApiBuild {
  import opened Options
  import opened Sequences
  import opened OrderedDicts
  import opened Json
  import opened Schemas
  import opened OpenApiDocument
  import opened Enrichment
  import opened PathExtraction
  import PathTemplates

  /** A JSON example of the description and the keys it is said to require */
  datatype Example = Example(value: Json, required: seq<string>)

  /** A table row with the number of its cells, the methods marked with an X, the
      text of its path cell, and what the prose of its description yields */
  datatype Row = Row(
    cells: nat, marked: set<string>, pathCell: string,
    requests: seq<Example>, responses: seq<Json>, multipart: bool)

  const VERBS := ["get", "put", "delete", "post"]

  // ----- operation_id -----

  function AlnumRun(t: string): (n: nat)
    ensures n <= |t|
  {
    if t == "" || !IsAlnum(t[0]) then 0 else 1 + AlnumRun(t[1..])
  }

  function UpperChar(c: char): char {
    if 'a' <= c <= 'z' then (c as int - 32) as char else c
  }

  /** The alphanumeric runs of a path, each with a capital first letter, joined */
  function Joined(path: string): string
    decreases |path|
  {
    if path == "" then ""
    else
      var n := AlnumRun(path);
      if n == 0 then Joined(path[1..]) else [UpperChar(path[0])] + path[1..n] + Joined(path[n..])
  }

  function OperationId(verb: string, path: string): string {
    verb + Joined(path)
  }

  /** Operations with different methods never share an id; with the same method
      they share one exactly when their paths join to the same text. */
  lemma SharedIds(verb: string, path: string, verb': string, path': string)
    requires verb in METHODS && verb' in METHODS
    ensures OperationId(verb, path) == OperationId(verb', path') <==> verb == verb' && Joined(path) == Joined(path')
  {
    var a, b := OperationId(verb, path), OperationId(verb', path');
    if a == b {
      assert verb[0] == a[0] == verb'[0] && verb[1] == a[1] == verb'[1];
      assert a[|verb|..] == Joined(path) && b[|verb'|..] == Joined(path');
    }
  }

  // ----- make_operation -----

  /** `dict.fromkeys(names)` */
  function Unique(names: seq<string>): seq<string> {
    if names == [] then []
    else
      var front, last := Unique(names[..|names| - 1]), names[|names| - 1];
      if last in front then front else front + [last]
  }

  lemma {:induction false} UniqueHolds(names: seq<string>)
    ensures Distinct(Unique(names)) && forall n :: n in Unique(names) <==> n in names
  {
    if names != [] {
      UniqueHolds(names[..|names| - 1]);
      assert names == names[..|names| - 1] + [names[|names| - 1]];
    }
  }

  function PathParameter(name: string): Parameter {
    Parameter(name, "path", true, false)
  }

  function ParametersOf(path: string): seq<Parameter> {
    var names := Unique(PathTemplates.HoleNames(PathTemplates.Pieces(path)));
    seq(|names|, i requires 0 <= i < |names| => PathParameter(names[i]))
  }

  function SchemasOf(examples: seq<Example>, single: bool): (schemas: seq<Schema>)
    ensures |schemas| == |examples|
    ensures forall i :: 0 <= i < |examples| ==>
              var s := Infer(examples[i].value, examples[i].required, true);
              schemas[i] == if single then s else Schema(Pop(s.entries, Inferred))
  {
    seq(|examples|, i requires 0 <= i < |examples| =>
      var s := Infer(examples[i].value, examples[i].required, true);
      if single then s else Schema(Pop(s.entries, Inferred)))
  }

  /** The schema of `media_type_from_examples` */
  function SchemaOf(examples: seq<Example>): Schema {
    if |examples| == 1 then SchemasOf(examples, true)[0]
    else Schema([OneOf(SchemasOf(examples, false)), Inferred])
  }

  function RequestBody(row: Row): Body {
    var json := Media(Some(if row.requests == [] then EMPTY else SchemaOf(row.requests)));
    var form := if row.multipart then [Pair("multipart/form-data", Media(Some(EMPTY)))] else [];
    Body(Some([Pair(JSON_TYPE, json)] + form))
  }

  function AsExamples(values: seq<Json>): seq<Example> {
    seq(|values|, i requires 0 <= i < |values| => Example(values[i], []))
  }

  function SuccessBody(row: Row): Body {
    if row.responses == [] then Body(None)
    else Body(Some([Pair(JSON_TYPE, Media(Some(SchemaOf(AsExamples(row.responses)))))]))
  }

  /** `make_operation` */
  function MakeOperation(verb: string, path: string, row: Row): Operation {
    Operation(
      Some(OperationId(verb, path)),
      if ParametersOf(path) == [] then None else Some(ParametersOf(path)),
      if verb in {"put", "post"} then Some(RequestBody(row)) else None,
      Some([Pair("2XX", SuccessBody(row)), Pair("4XX", Body(None)), Pair("5XX", Body(None))]),
      None)
  }

  lemma MadeOutlineIsOk(verb: string, path: string, row: Row)
    requires verb in METHODS
    ensures OutlineOk(path, verb, OutlineOf(MakeOperation(verb, path, row)))
  {
    var names := PathTemplates.HoleNames(PathTemplates.Pieces(path));
    UniqueHolds(names);
    var ps := ParametersOf(path);
    assert forall n :: n in Unique(names) ==> PathParameter(n) in ps by {
      forall n | n in Unique(names) ensures PathParameter(n) in ps {
        var i :| 0 <= i < |Unique(names)| && Unique(names)[i] == n;
        assert ps[i] == PathParameter(n);
      }
    }
    assert PathParameters(ps) == HolesOf(path);
    assert OperationId(verb, path)[0] == verb[0];
  }

  // ----- build_openapi -----

  /** What the loops do, in order: a path is entered, or a method of it */
  datatype Cell = Touch(path: string) | Mark(path: string, verb: string, row: Row)

  datatype BuildError = DuplicateOperation(verb: string, path: string) | NoPaths

  function ApplyCell(paths: Paths, cell: Cell): Result<Paths, BuildError> {
    match cell
    case Touch(path) => Ok(if Has(paths, path) then paths else Put(paths, path, []))
    case Mark(path, verb, row) =>
      var item := Get(paths, path).GetOr([]);
      if Has(item, verb) then Err(DuplicateOperation(verb, path))
      else Ok(Put(paths, path, Put(item, verb, MakeOperation(verb, path, row))))
  }

  function Fold(cells: seq<Cell>): Result<Paths, BuildError> {
    if cells == [] then Ok([])
    else
      var before :- Fold(cells[..|cells| - 1]);
      ApplyCell(before, cells[|cells| - 1])
  }

  function PathCells(path: string, row: Row, verbs: seq<string>): seq<Cell> {
    if verbs == [] then [Touch(path)]
    else
      var verb := verbs[|verbs| - 1];
      PathCells(path, row, verbs[..|verbs| - 1]) + if verb in row.marked then [Mark(path, verb, row)] else []
  }

  function RowCells(row: Row, paths: seq<string>): seq<Cell> {
    if paths == [] then [] else RowCells(row, paths[..|paths| - 1]) + PathCells(paths[|paths| - 1], row, VERBS)
  }

  function AllCells(rows: seq<Row>): seq<Cell> {
    if rows == [] then []
    else
      var row := rows[|rows| - 1];
      AllCells(rows[..|rows| - 1]) + if row.cells < 6 then [] else RowCells(row, RowPaths(row.pathCell))
  }

  function Build(rows: seq<Row>): Result<Paths, BuildError> {
    var paths :- Fold(AllCells(rows));
    if paths == [] then Err(NoPaths) else Ok(paths)
  }

  lemma {:induction false} FoldFails(cells: seq<Cell>, n: nat)
    requires n <= |cells| && Fold(cells[..n]).Err?
    ensures Fold(cells) == Fold(cells[..n])
    decreases |cells|
  {
    if n == |cells| {
      assert cells[..n] == cells;
    } else {
      assert cells[..|cells| - 1][..n] == cells[..n];
      FoldFails(cells[..|cells| - 1], n);
    }
  }

  lemma FoldFailsPrefix(part: seq<Cell>, whole: seq<Cell>)
    requires part <= whole && Fold(part).Err?
    ensures Fold(whole) == Fold(part)
  {
    assert whole[..|part|] == part;
    FoldFails(whole, |part|);
  }

  lemma FoldFailsAfter(done: seq<Cell>, part: seq<Cell>, whole: seq<Cell>)
    requires part <= whole && Fold(done + part).Err?
    ensures Fold(done + whole) == Fold(done + part)
  {
    assert done + part <= done + whole;
    FoldFailsPrefix(done + part, done + whole);
  }

  lemma FoldAppend(cells: seq<Cell>, cell: Cell)
    ensures Fold(cells + [cell]) == match Fold(cells) case Ok(paths) => ApplyCell(paths, cell) case Err(e) => Err(e)
  {
    assert (cells + [cell])[..|cells|] == cells;
  }

  /** The loop over the methods of one path; `done` are the cells already entered. */
  method BuildPath(paths: Paths, path: string, row: Row, ghost done: seq<Cell>) returns (r: Result<Paths, BuildError>)
    requires Fold(done) == Ok(paths)
    ensures r == Fold(done + PathCells(path, row, VERBS))
  {
    FoldAppend(done, Touch(path));
    var all := SetDefault(paths, path);
    for i := 0 to |VERBS|
      invariant Fold(done + PathCells(path, row, VERBS[..i])) == Ok(all)
    {
      PathStep(done, path, row, i);
      if VERBS[i] in row.marked {
        var next := EnterOperation(all, path, VERBS[i], row);
        if next.Err? {
          PathFails(done, path, row, i + 1);
          return next;
        }
        all := next.value;
      }
    }
    assert VERBS[..|VERBS|] == VERBS;
    return Ok(all);
  }

  /** `paths.setdefault(path, OrderedDict())` */
  method SetDefault(paths: Paths, path: string) returns (all: Paths)
    ensures ApplyCell(paths, Touch(path)) == Ok(all)
  {
    all := if Has(paths, path) then paths else Put(paths, path, []);
  }

  /** One method that is marked */
  method EnterOperation(paths: Paths, path: string, verb: string, row: Row) returns (r: Result<Paths, BuildError>)
    ensures r == ApplyCell(paths, Mark(path, verb, row))
  {
    var item := Get(paths, path).GetOr([]);
    if Has(item, verb) {
      return Err(DuplicateOperation(verb, path));
    }
    return Ok(Put(paths, path, Put(item, verb, MakeOperation(verb, path, row))));
  }

  lemma PathStep(done: seq<Cell>, path: string, row: Row, i: nat)
    requires i < |VERBS|
    ensures var before, after := Fold(done + PathCells(path, row, VERBS[..i])),
        Fold(done + PathCells(path, row, VERBS[..i + 1]));
            after == if VERBS[i] !in row.marked || before.Err? then before
                     else ApplyCell(before.value, Mark(path, VERBS[i], row))
  {
    PathCellsStep(path, row, i);
    if VERBS[i] in row.marked {
      var cells := PathCells(path, row, VERBS[..i]);
      Glue(done, cells, [Mark(path, VERBS[i], row)]);
      FoldAppend(done + cells, Mark(path, VERBS[i], row));
    }
  }

  lemma PathCellsStep(path: string, row: Row, i: nat)
    requires i < |VERBS|
    ensures var before := PathCells(path, row, VERBS[..i]);
            PathCells(path, row, VERBS[..i + 1]) ==
              if VERBS[i] in row.marked then before + [Mark(path, VERBS[i], row)] else before
  {
    assert VERBS[..i + 1][..i] == VERBS[..i];
  }

  lemma PathFails(done: seq<Cell>, path: string, row: Row, i: nat)
    requires i <= |VERBS| && Fold(done + PathCells(path, row, VERBS[..i])).Err?
    ensures Fold(done + PathCells(path, row, VERBS)) == Fold(done + PathCells(path, row, VERBS[..i]))
  {
    PathCellsPrefix(path, row, i);
    FoldFailsAfter(done, PathCells(path, row, VERBS[..i]), PathCells(path, row, VERBS));
  }

  lemma {:induction false} PathCellsPrefix(path: string, row: Row, i: nat)
    requires i <= |VERBS|
    ensures PathCells(path, row, VERBS[..i]) <= PathCells(path, row, VERBS)
    decreases |VERBS| - i
  {
    if i < |VERBS| {
      PathCellsStep(path, row, i);
      PathCellsPrefix(path, row, i + 1);
    } else {
      assert VERBS[..i] == VERBS;
    }
  }

  /** The loop over the paths of one row */
  method BuildRow(paths: Paths, row: Row, ghost done: seq<Cell>) returns (r: Result<Paths, BuildError>)
    requires Fold(done) == Ok(paths)
    ensures r == Fold(done + RowCells(row, RowPaths(row.pathCell)))
  {
    var all := paths;
    var rowPaths := RowPaths(row.pathCell);
    assert done + [] == done;
    for i := 0 to |rowPaths|
      invariant Fold(done + RowCells(row, rowPaths[..i])) == Ok(all)
    {
      var next := BuildPath(all, rowPaths[i], row, done + RowCells(row, rowPaths[..i]));
      RowCellsStep(done, row, rowPaths, i);
      if next.Err? {
        RowCellsPrefix(row, rowPaths, i + 1);
        FoldFailsAfter(done, RowCells(row, rowPaths[..i + 1]), RowCells(row, rowPaths));
        return next;
      }
      all := next.value;
    }
    assert rowPaths[..|rowPaths|] == rowPaths;
    return Ok(all);
  }

  lemma RowCellsStep(done: seq<Cell>, row: Row, paths: seq<string>, i: nat)
    requires i < |paths|
    ensures done + RowCells(row, paths[..i + 1]) == (done + RowCells(row, paths[..i])) + PathCells(paths[i], row, VERBS)
  {
    assert paths[..i + 1][..i] == paths[..i];
    Glue(done, RowCells(row, paths[..i]), PathCells(paths[i], row, VERBS));
  }

  lemma {:induction false} RowCellsPrefix(row: Row, paths: seq<string>, i: nat)
    requires i <= |paths|
    ensures RowCells(row, paths[..i]) <= RowCells(row, paths)
    decreases |paths| - i
  {
    if i < |paths| {
      assert paths[..i + 1][..i] == paths[..i];
      RowCellsPrefix(row, paths, i + 1);
    } else {
      assert paths[..i] == paths;
    }
  }

  /** `build_openapi` */
  method BuildOpenapi(rows: seq<Row>) returns (r: Result<Paths, BuildError>)
    ensures r == Build(rows)
  {
    var paths: Paths := [];
    for i := 0 to |rows|
      invariant Fold(AllCells(rows[..i])) == Ok(paths)
    {
      var row := rows[i];
      AllCellsStep(rows, i);
      if row.cells >= 6 {
        var next := BuildRow(paths, row, AllCells(rows[..i]));
        if next.Err? {
          BuildFails(rows, i + 1);
          return next;
        }
        paths := next.value;
      }
    }
    assert rows[..|rows|] == rows;
    if paths == [] {
      return Err(NoPaths);
    }
    return Ok(paths);
  }

  lemma AllCellsStep(rows: seq<Row>, i: nat)
    requires i < |rows|
    ensures var before := AllCells(rows[..i]);
            AllCells(rows[..i + 1]) ==
            if rows[i].cells < 6 then before else before + RowCells(rows[i], RowPaths(rows[i].pathCell))
  {
    assert rows[..i + 1][..i] == rows[..i];
  }

  lemma BuildFails(rows: seq<Row>, i: nat)
    requires i <= |rows| && Fold(AllCells(rows[..i])).Err?
    ensures Build(rows) == Err(Fold(AllCells(rows[..i])).error)
  {
    AllCellsPrefix(rows, i);
    FoldFailsPrefix(AllCells(rows[..i]), AllCells(rows));
  }

  lemma {:induction false} AllCellsPrefix(rows: seq<Row>, i: nat)
    requires i <= |rows|
    ensures AllCells(rows[..i]) <= AllCells(rows)
    decreases |rows| - i
  {
    if i < |rows| {
      AllCellsStep(rows, i);
      AllCellsPrefix(rows, i + 1);
    } else {
      assert rows[..i] == rows;
    }
  }

  // ----- what is built -----

  /** The operations the table asks for, in order */
  function Marks(cells: seq<Cell>): seq<Target> {
    if cells == [] then []
    else
      var last := cells[|cells| - 1];
      Marks(cells[..|cells| - 1]) + if last.Mark? then [Target(last.path, last.verb)] else []
  }

  ghost predicate Entered(cells: seq<Cell>, path: string) {
    exists c :: c in cells && c.path == path
  }

  /** An operation of the document is the one its mark makes. */
  ghost predicate Made(cells: seq<Cell>, t: Target, op: Operation) {
    exists row :: Mark(t.template, t.verb, row) in cells && op == MakeOperation(t.verb, t.template, row)
  }

  /** The paths hold exactly the entered paths, and on them exactly the marked
      operations, each once. */
  ghost predicate Holds(paths: Paths, cells: seq<Cell>) {
    && (forall path :: Has(paths, path) <==> Entered(cells, path))
    && (forall t :: OperationAt(paths, t).Some? <==> t in Marks(cells))
    && (forall t :: OperationAt(paths, t).Some? ==> Made(cells, t, OperationAt(paths, t).value))
    && Distinct(Keys(paths)) && (forall p | p in paths :: Distinct(Keys(p.value)))
  }

  lemma MarksAppend(cells: seq<Cell>, c: Cell)
    ensures Marks(cells + [c]) == Marks(cells) + if c.Mark? then [Target(c.path, c.verb)] else []
  {
    assert (cells + [c])[..|cells|] == cells;
  }

  lemma EnteredAppend(cells: seq<Cell>, c: Cell)
    ensures forall path :: Entered(cells + [c], path) <==> Entered(cells, path) || path == c.path
  {
    forall path ensures Entered(cells + [c], path) <==> Entered(cells, path) || path == c.path {
      if Entered(cells, path) {
        var d :| d in cells && d.path == path;
        assert d in cells + [c];
      }
      assert c in cells + [c];
    }
  }

  lemma PutKeys<V>(d: Dict<V>, key: string, v: V)
    ensures forall k :: Has(Put(d, key, v), k) <==> k == key || Has(d, k)
  {
    forall k ensures Has(Put(d, key, v), k) <==> k == key || Has(d, k) {
      GetPut(d, key, v, k);
    }
  }

  lemma TouchHolds(paths: Paths, cells: seq<Cell>, path: string)
    requires Holds(paths, cells)
    ensures Holds(ApplyCell(paths, Touch(path)).value, cells + [Touch(path)])
  {
    var c := Touch(path);
    var next := ApplyCell(paths, c).value;
    MarksAppend(cells, c);
    EnteredAppend(cells, c);
    PutKeys(paths, path, []);
    DistinctPut(paths, path, []);
    PutHolds(paths, path, []);
    TouchOperations(paths, cells, path, next);
  }

  lemma MadeAppend(cells: seq<Cell>, c: Cell, t: Target, op: Operation)
    requires Made(cells, t, op)
    ensures Made(cells + [c], t, op)
  {
    var row :| Mark(t.template, t.verb, row) in cells && op == MakeOperation(t.verb, t.template, row);
    assert Mark(t.template, t.verb, row) in cells + [c];
  }

  lemma TouchOperations(paths: Paths, cells: seq<Cell>, path: string, next: Paths)
    requires next == ApplyCell(paths, Touch(path)).value
    requires forall t :: OperationAt(paths, t).Some? ==> Made(cells, t, OperationAt(paths, t).value)
    ensures forall t :: OperationAt(next, t) == OperationAt(paths, t)
    ensures forall t :: OperationAt(next, t).Some? ==> Made(cells + [Touch(path)], t, OperationAt(next, t).value)
  {
    forall t
      ensures OperationAt(next, t) == OperationAt(paths, t)
      ensures OperationAt(next, t).Some? ==> Made(cells + [Touch(path)], t, OperationAt(next, t).value)
    {
      if !Has(paths, path) {
        GetPut(paths, path, [], t.template);
      }
      if OperationAt(paths, t).Some? {
        MadeAppend(cells, Touch(path), t, OperationAt(paths, t).value);
      }
    }
  }

  lemma MarkHolds(paths: Paths, cells: seq<Cell>, c: Cell)
    requires Holds(paths, cells) && c.Mark? && ApplyCell(paths, c).Ok?
    ensures Holds(ApplyCell(paths, c).value, cells + [c])
  {
    var t := Target(c.path, c.verb);
    var op := MakeOperation(c.verb, c.path, c.row);
    var item := Get(paths, c.path).GetOr([]);
    var item' := Put(item, c.verb, op);
    var next := ApplyCell(paths, c).value;
    assert next == PutOperation(paths, t, op);
    MarksAppend(cells, c);
    EnteredAppend(cells, c);
    PutKeys(paths, c.path, item');
    DistinctPut(paths, c.path, item');
    PutHolds(paths, c.path, item');
    assert Distinct(Keys(item)) by {
      if Get(paths, c.path).Some? {
        assert Pair(c.path, item) in paths;
      }
    }
    DistinctPut(item, c.verb, op);
    MarkOperations(paths, cells, c, next);
  }

  lemma MarkOperations(paths: Paths, cells: seq<Cell>, c: Cell, next: Paths)
    requires c.Mark? && next == PutOperation(paths, Target(c.path, c.verb), MakeOperation(c.verb, c.path, c.row))
    requires forall t :: OperationAt(paths, t).Some? <==> t in Marks(cells)
    requires forall t :: OperationAt(paths, t).Some? ==> Made(cells, t, OperationAt(paths, t).value)
    ensures forall t :: OperationAt(next, t).Some? <==> t in Marks(cells + [c])
    ensures forall t :: OperationAt(next, t).Some? ==> Made(cells + [c], t, OperationAt(next, t).value)
  {
    MarksAppend(cells, c);
    var own := Target(c.path, c.verb);
    forall t
      ensures OperationAt(next, t).Some? <==> t in Marks(cells + [c])
      ensures OperationAt(next, t).Some? ==> Made(cells + [c], t, OperationAt(next, t).value)
    {
      OperationAfterPut(paths, own, MakeOperation(c.verb, c.path, c.row), t);
      if t == own {
        assert Mark(t.template, t.verb, c.row) in cells + [c];
      } else if OperationAt(paths, t).Some? {
        MadeAppend(cells, c, t, OperationAt(paths, t).value);
      }
    }
  }

  /** The build goes through exactly when no operation is marked twice, and then
      holds exactly what is marked. */
  lemma {:induction false} FoldHolds(cells: seq<Cell>)
    ensures Fold(cells).Ok? <==> Distinct(Marks(cells))
    ensures Fold(cells).Ok? ==> Holds(Fold(cells).value, cells)
  {
    if cells != [] {
      var front, last := cells[..|cells| - 1], cells[|cells| - 1];
      assert cells == front + [last];
      FoldHolds(front);
      MarksAppend(front, last);
      if Fold(front).Err? {
        if Distinct(Marks(cells)) {
          PrefixIsDistinct(Marks(front), Marks(cells));
        }
      } else if last.Touch? {
        TouchHolds(Fold(front).value, front, last.path);
      } else {
        var paths, t := Fold(front).value, Target(last.path, last.verb);
        assert Has(Get(paths, last.path).GetOr([]), last.verb) <==> OperationAt(paths, t).Some?;
        if t in Marks(front) {
          var i :| 0 <= i < |Marks(front)| && Marks(front)[i] == t;
          assert Marks(cells)[i] == Marks(cells)[|Marks(front)|];
        } else {
          DistinctAppend(Marks(front), t);
          MarkHolds(paths, front, last);
        }
      }
    }
  }

  /** The operation a failed build complains about is marked twice. */
  lemma {:induction false} FoldBlames(cells: seq<Cell>)
    requires Fold(cells).Err?
    ensures var e := Fold(cells).error; e.DuplicateOperation? && Twice(Marks(cells), Target(e.path, e.verb))
  {
    var front, last := cells[..|cells| - 1], cells[|cells| - 1];
    var before, marks := Marks(front), Marks(cells);
    if Fold(front).Err? {
      FoldBlames(front);
      var t := Target(Fold(front).error.path, Fold(front).error.verb);
      var i, j :| 0 <= i < j < |before| && before[i] == t && before[j] == t;
      assert marks[i] == t && marks[j] == t;
    } else {
      FoldHolds(front);
      var t := Target(last.path, last.verb);
      assert OperationAt(Fold(front).value, t).Some?;
      var i :| 0 <= i < |before| && before[i] == t;
      assert marks[i] == t && marks[|before|] == t;
    }
  }

  /** A table builds exactly when it names a path and marks no operation twice. */
  lemma BuildSucceeds(rows: seq<Row>)
    ensures Build(rows).Ok? <==> AllCells(rows) != [] && Distinct(Marks(AllCells(rows)))
    ensures Build(rows).Ok? ==> Holds(Build(rows).value, AllCells(rows))
    ensures Build(rows).Err? ==>
              match Build(rows).error
              case NoPaths => AllCells(rows) == []
              case DuplicateOperation(verb, path) => Twice(Marks(AllCells(rows)), Target(path, verb))
  {
    var cells := AllCells(rows);
    FoldHolds(cells);
    if Fold(cells).Ok? {
      var paths := Fold(cells).value;
      if cells != [] {
        assert cells[0] in cells;
        assert Entered(cells, cells[0].path);
        assert Has(paths, cells[0].path);
      } else {
        assert paths == [];
      }
    } else {
      FoldBlames(cells);
    }
  }

  // ----- every cell is sound -----

  ghost predicate CellsOk(cells: seq<Cell>) {
    forall c | c in cells :: IsApiPath(c.path) && (c.Mark? ==> c.verb in METHODS)
  }

  lemma {:induction false} PathCellsOk(path: string, row: Row, verbs: seq<string>)
    requires IsApiPath(path) && forall v | v in verbs :: v in METHODS
    ensures CellsOk(PathCells(path, row, verbs))
  {
    if verbs != [] {
      PathCellsOk(path, row, verbs[..|verbs| - 1]);
    }
  }

  lemma {:induction false} RowCellsOk(row: Row, paths: seq<string>)
    requires forall p | p in paths :: IsApiPath(p)
    ensures CellsOk(RowCells(row, paths))
  {
    if paths != [] {
      RowCellsOk(row, paths[..|paths| - 1]);
      PathCellsOk(paths[|paths| - 1], row, VERBS);
    }
  }

  lemma {:induction false} AllCellsOk(rows: seq<Row>)
    ensures CellsOk(AllCells(rows))
  {
    if rows != [] {
      AllCellsOk(rows[..|rows| - 1]);
      var row := rows[|rows| - 1];
      RowPathsAreClean(row.pathCell);
      RowCellsOk(row, RowPaths(row.pathCell));
    }
  }

  // ----- a built document is valid -----

  lemma BuiltItemsOk(paths: Paths, cells: seq<Cell>)
    requires Holds(paths, cells) && CellsOk(cells)
    ensures var o := OutlineOfPaths(paths);
            forall i :: 0 <= i < |o| ==> IsApiPath(o[i].key) && ItemOk(o[i].key, o[i].value)
  {
    var o := OutlineOfPaths(paths);
    forall i | 0 <= i < |o| ensures IsApiPath(o[i].key) && ItemOk(o[i].key, o[i].value) {
      var path, item := paths[i].key, paths[i].value;
      assert Keys(paths)[i] == path && Has(paths, path);
      var c :| c in cells && c.path == path;
      GetAt(paths, i);
      assert paths[i] in paths;
      forall j | 0 <= j < |item| ensures OutlineOk(path, item[j].key, OutlineOf(item[j].value)) {
        GetAt(item, j);
        var t := Target(path, item[j].key);
        assert OperationAt(paths, t) == Some(item[j].value);
        var row :| Mark(path, t.verb, row) in cells && item[j].value == MakeOperation(t.verb, path, row);
        MadeOutlineIsOk(t.verb, path, row);
      }
    }
  }

  /** The operations of the document, in the order of `Ids` */
  function ItemTargets(path: string, item: PathItem): seq<Target> {
    if item == [] then [] else ItemTargets(path, item[..|item| - 1]) + [Target(path, item[|item| - 1].key)]
  }

  function Targets(paths: Paths): seq<Target> {
    if paths == [] then []
    else Targets(paths[..|paths| - 1]) + ItemTargets(paths[|paths| - 1].key, paths[|paths| - 1].value)
  }

  /** `ids` are the operation ids of `targets`. */
  ghost predicate IdsOf(targets: seq<Target>, ids: seq<string>) {
    |ids| == |targets| && forall k :: 0 <= k < |ids| ==> ids[k] == OperationId(targets[k].verb, targets[k].template)
  }

  ghost predicate ItemMade(path: string, item: PathItem) {
    forall j :: 0 <= j < |item| ==> item[j].value.operationId == Some(OperationId(item[j].key, path))
  }

  lemma {:induction false} ItemIdsOf(path: string, item: PathItem)
    requires ItemMade(path, item)
    ensures IdsOf(ItemTargets(path, item), ItemIds(ItemOutline(item)))
    ensures |ItemTargets(path, item)| == |item|
    ensures forall k :: 0 <= k < |item| ==> ItemTargets(path, item)[k] == Target(path, item[k].key)
  {
    if item != [] {
      var n := |item| - 1;
      ItemIdsOf(path, item[..n]);
      MadeIdsStep(path, item, n);
      IdsOfAppend(ItemTargets(path, item[..n]), ItemIds(ItemOutline(item[..n])), Target(path, item[n].key));
    }
  }

  lemma IdsOfAppend(targets: seq<Target>, ids: seq<string>, t: Target)
    requires IdsOf(targets, ids)
    ensures IdsOf(targets + [t], ids + [OperationId(t.verb, t.template)])
  {
  }

  lemma MadeIdsStep(path: string, item: PathItem, n: nat)
    requires |item| == n + 1 && ItemMade(path, item)
    ensures ItemIds(ItemOutline(item)) == ItemIds(ItemOutline(item[..n])) + [OperationId(item[n].key, path)]
  {
    assert ItemOutline(item)[..n] == ItemOutline(item[..n]);
    assert ItemOutline(item)[n].value == OutlineOf(item[n].value);
  }

  lemma {:induction false} PathsIdsOf(paths: Paths)
    requires forall i :: 0 <= i < |paths| ==> ItemMade(paths[i].key, paths[i].value)
    requires Distinct(Keys(paths)) && forall p | p in paths :: Distinct(Keys(p.value))
    ensures IdsOf(Targets(paths), Ids(OutlineOfPaths(paths)))
    ensures Distinct(Targets(paths))
    ensures forall t :: t in Targets(paths) <==> OperationAt(paths, t).Some?
  {
    if paths != [] {
      var n := |paths| - 1;
      var front, last := paths[..n], paths[n];
      assert Keys(front) == Keys(paths)[..n];
      PathsIdsOf(front);
      ItemIdsOf(last.key, last.value);
      PathsIdsStep(paths, n);
      assert last in paths;
      LastTargets(paths, n);
      TargetsStayDistinct(paths, n);
    }
  }

  lemma PathsIdsStep(paths: Paths, n: nat)
    requires |paths| == n + 1
    ensures Ids(OutlineOfPaths(paths)) == Ids(OutlineOfPaths(paths[..n])) + ItemIds(ItemOutline(paths[n].value))
  {
    assert OutlineOfPaths(paths)[..n] == OutlineOfPaths(paths[..n]);
    assert OutlineOfPaths(paths)[n].value == ItemOutline(paths[n].value);
  }

  lemma OwnTargets(path: string, item: PathItem)
    requires ItemMade(path, item)
    ensures forall t :: t in ItemTargets(path, item) <==> t.template == path && Has(item, t.verb)
  {
    var own := ItemTargets(path, item);
    ItemIdsOf(path, item);
    forall t: Target | t.template == path && Has(item, t.verb) ensures t in own {
      var k :| 0 <= k < |item| && item[k].key == t.verb;
      assert own[k] == t;
    }
  }

  lemma FrontKeysDiffer(paths: Paths, n: nat)
    requires |paths| == n + 1 && Distinct(Keys(paths))
    ensures !Has(paths[..n], paths[n].key)
  {
    forall i | 0 <= i < n ensures paths[i].key != paths[n].key {
      assert Keys(paths)[i] != Keys(paths)[n];
    }
  }

  lemma LastTarget(paths: Paths, n: nat, t: Target)
    requires |paths| == n + 1 && !Has(paths[..n], paths[n].key)
    requires t in Targets(paths[..n]) <==> OperationAt(paths[..n], t).Some?
    requires t in ItemTargets(paths[n].key, paths[n].value) <==>
        t.template == paths[n].key && Has(paths[n].value, t.verb)
    ensures t in Targets(paths) <==> OperationAt(paths, t).Some?
    ensures t in Targets(paths[..n]) ==> t.template != paths[n].key
  {
    GetOfFront(paths, n, t.template);
  }

  lemma LastTargets(paths: Paths, n: nat)
    requires |paths| == n + 1 && Distinct(Keys(paths)) && ItemMade(paths[n].key, paths[n].value)
    requires forall t :: t in Targets(paths[..n]) <==> OperationAt(paths[..n], t).Some?
    ensures forall t :: t in Targets(paths) <==> OperationAt(paths, t).Some?
    ensures forall t | t in Targets(paths[..n]) :: t.template != paths[n].key
  {
    OwnTargets(paths[n].key, paths[n].value);
    FrontKeysDiffer(paths, n);
    forall t
      ensures t in Targets(paths) <==> OperationAt(paths, t).Some?
      ensures t in Targets(paths[..n]) ==> t.template != paths[n].key
    {
      LastTarget(paths, n, t);
    }
  }

  lemma {:induction false} GetOfFront(paths: Paths, n: nat, key: string)
    requires |paths| == n + 1
    ensures Get(paths, key) == if Get(paths[..n], key).Some? then Get(paths[..n], key)
                               else if paths[n].key == key then Some(paths[n].value) else None
    decreases n
  {
    if n > 0 {
      GetOfFront(paths[1..], n - 1, key);
      assert paths[1..][..n - 1] == paths[..n][1..];
    }
  }

  lemma TargetsStayDistinct(paths: Paths, n: nat)
    requires |paths| == n + 1 && Distinct(Targets(paths[..n])) && ItemMade(paths[n].key, paths[n].value)
    requires Distinct(Keys(paths[n].value)) && forall t | t in Targets(paths[..n]) :: t.template != paths[n].key
    ensures Distinct(Targets(paths))
  {
    OwnAreDistinct(paths[n].key, paths[n].value);
    OwnTargets(paths[n].key, paths[n].value);
    DistinctConcat(Targets(paths[..n]), ItemTargets(paths[n].key, paths[n].value));
  }

  lemma OwnAreDistinct(path: string, item: PathItem)
    requires ItemMade(path, item) && Distinct(Keys(item))
    ensures Distinct(ItemTargets(path, item))
  {
    var own := ItemTargets(path, item);
    ItemIdsOf(path, item);
    forall i, j | 0 <= i < j < |own| ensures own[i] != own[j] {
      assert Keys(item)[i] != Keys(item)[j];
    }
  }

  /** No two marked operations have the same method and paths that join alike. */
  ghost predicate NoSharedIds(marks: seq<Target>) {
    forall t, u | t in marks && u in marks && t != u :: !SameId(t, u)
  }

  predicate SameId(t: Target, u: Target) {
    t.verb == u.verb && Joined(t.template) == Joined(u.template)
  }

  lemma IdsAreDistinct(targets: seq<Target>, ids: seq<string>)
    requires IdsOf(targets, ids) && Distinct(targets) && forall t | t in targets :: t.verb in METHODS
    ensures Distinct(ids) <==> NoSharedIds(targets)
  {
    if Distinct(ids) {
      forall t, u | t in targets && u in targets && t != u ensures !SameId(t, u) {
        var i :| 0 <= i < |targets| && targets[i] == t;
        var j :| 0 <= j < |targets| && targets[j] == u;
        SameIdAt(targets, ids, i, j);
        assert ids[i] != ids[j];
      }
    }
    if NoSharedIds(targets) {
      forall i, j | 0 <= i < j < |ids| ensures ids[i] != ids[j] {
        SameIdAt(targets, ids, i, j);
        assert targets[i] in targets && targets[j] in targets && targets[i] != targets[j];
      }
    }
  }

  lemma SameIdAt(targets: seq<Target>, ids: seq<string>, i: nat, j: nat)
    requires IdsOf(targets, ids) && i < |targets| && j < |targets|
    requires targets[i].verb in METHODS && targets[j].verb in METHODS
    ensures ids[i] == ids[j] <==> SameId(targets[i], targets[j])
  {
    SharedIds(targets[i].verb, targets[i].template, targets[j].verb, targets[j].template);
  }

  lemma BuiltItemsMade(paths: Paths, cells: seq<Cell>)
    requires Holds(paths, cells)
    ensures forall i :: 0 <= i < |paths| ==> ItemMade(paths[i].key, paths[i].value)
  {
    forall i | 0 <= i < |paths| ensures ItemMade(paths[i].key, paths[i].value) {
      var path, item := paths[i].key, paths[i].value;
      GetAt(paths, i);
      assert paths[i] in paths;
      forall j | 0 <= j < |item| ensures item[j].value.operationId == Some(OperationId(item[j].key, path)) {
        GetAt(item, j);
        assert OperationAt(paths, Target(path, item[j].key)) == Some(item[j].value);
        assert Made(cells, Target(path, item[j].key), item[j].value);
      }
    }
  }

  /** Build meets validate: a built document is valid exactly when no two of its
      operations share an operation id, that is, when no two marked operations
      with the same method have paths that join to the same text. */
  lemma BuiltIsValid(rows: seq<Row>)
    requires Build(rows).Ok?
    ensures var paths := Build(rows).value;
            && (Valid("3.1.0", paths) <==> Distinct(Ids(OutlineOfPaths(paths))))
            && (Valid("3.1.0", paths) <==> NoSharedIds(Marks(AllCells(rows))))
  {
    var paths, cells := Build(rows).value, AllCells(rows);
    BuildSucceeds(rows);
    AllCellsOk(rows);
    BuiltItemsOk(paths, cells);
    BuiltItemsMade(paths, cells);
    PathsIdsOf(paths);
    forall t | t in Targets(paths) ensures t.verb in METHODS {
      assert Made(cells, t, OperationAt(paths, t).value);
    }
    IdsAreDistinct(Targets(paths), Ids(OutlineOfPaths(paths)));
    assert forall t :: t in Targets(paths) <==> t in Marks(cells);
  }

  /** A row with one path, marked with GET only */
  function GetRow(path: string): Row {
    Row(6, {"get"}, path, [], [], false)
  }

  lemma GetRowCells(path: string)
    requires IsRowPath(path)
    ensures RowCells(GetRow(path), RowPaths(path)) == GetCells(path)
  {
    CellOfPath(path);
    assert [path][..0] == [];
    GetPathCells(path);
  }

  lemma GetPathCells(path: string)
    ensures PathCells(path, GetRow(path), VERBS) == GetCells(path)
  {
    assert VERBS[..0] == [] && VERBS[..4] == VERBS;
    PathCellsStep(path, GetRow(path), 0);
    PathCellsStep(path, GetRow(path), 1);
    PathCellsStep(path, GetRow(path), 2);
    PathCellsStep(path, GetRow(path), 3);
  }

  lemma JoinedSegment(run: string, c: char, rest: string)
    requires run != "" && !IsAlnum(c) && forall i :: 0 <= i < |run| ==> IsAlnum(run[i])
    ensures Joined(run + [c] + rest) == [UpperChar(run[0])] + run[1..] + Joined(rest)
  {
    var t := run + [c] + rest;
    RunEnds(t, |run|);
    assert t[1..|run|] == run[1..] && t[|run|..] == [c] + rest && ([c] + rest)[1..] == rest;
    assert AlnumRun([c] + rest) == 0;
  }

  lemma {:induction false} RunEnds(t: string, n: nat)
    requires n <= |t| && (forall i :: 0 <= i < n ==> IsAlnum(t[i])) && (n < |t| ==> !IsAlnum(t[n]))
    ensures AlnumRun(t) == n
    decreases n
  {
    if n > 0 {
      RunEnds(t[1..], n - 1);
    }
  }

  /** Two paths that differ in one separator join alike. */
  lemma JoinedAlike(c: char)
    requires !IsAlnum(c)
    ensures Joined("/api/a" + [c] + "b") == "ApiA" + Joined("b")
  {
    var t := "/api/a" + [c] + "b";
    assert t[1..] == "api" + ['/'] + ("a" + [c] + "b");
    assert AlnumRun(t) == 0;
    JoinedSegment("api", '/', "a" + [c] + "b");
    JoinedSegment("a", c, "b");
    assert "api"[1..] == "pi" && "a"[1..] == "";
    assert ['A'] + "pi" + (['A'] + "" + Joined("b")) == "ApiA" + Joined("b");
  }

  /** A table that builds to an invalid document: two rows for GET whose paths
      differ in a separator only */
  lemma BuiltAndInvalid()
    ensures var rows := [GetRow("/api/a-b"), GetRow("/api/a/b")];
            Build(rows).Ok? && !Valid("3.1.0", Build(rows).value)
  {
    var p, q := "/api/a" + ['-'] + "b", "/api/a" + ['/'] + "b";
    assert p == "/api/a-b" && q == "/api/a/b" && p[6] != q[6];
    AreRowPaths('-');
    AreRowPaths('/');
    JoinedAlike('-');
    JoinedAlike('/');
    SharedIdIsInvalid(p, q);
  }

  lemma AreRowPaths(c: char)
    requires IsPathChar(c)
    ensures IsRowPath("/api/a" + [c] + "b")
  {
  }

  lemma SharedIdIsInvalid(p: string, q: string)
    requires IsRowPath(p) && IsRowPath(q) && p != q && Joined(p) == Joined(q)
    ensures var rows := [GetRow(p), GetRow(q)]; Build(rows).Ok? && !Valid("3.1.0", Build(rows).value)
  {
    var rows := [GetRow(p), GetRow(q)];
    TwoRowMarks(p, q);
    PairSharesId(Target(p, "get"), Target(q, "get"));
    BuildSucceeds(rows);
    BuiltIsValid(rows);
  }

  lemma PairSharesId(t: Target, u: Target)
    requires t != u && SameId(t, u)
    ensures Distinct([t, u]) && !NoSharedIds([t, u])
  {
    assert t in [t, u] && u in [t, u];
  }

  lemma TwoRowMarks(p: string, q: string)
    requires IsRowPath(p) && IsRowPath(q)
    ensures var cells := AllCells([GetRow(p), GetRow(q)]);
            cells != [] && Marks(cells) == [Target(p, "get"), Target(q, "get")]
  {
    TwoRowCells(p, q);
    MarksConcat(GetCells(p), GetCells(q));
    GetCellsMarks(p);
    GetCellsMarks(q);
  }

  function GetCells(path: string): seq<Cell> {
    [Touch(path)] + [Mark(path, "get", GetRow(path))]
  }

  lemma GetCellsMarks(path: string)
    ensures Marks(GetCells(path)) == [Target(path, "get")]
  {
    MarksAppend([], Touch(path));
    assert [] + [Touch(path)] == [Touch(path)];
    MarksAppend([Touch(path)], Mark(path, "get", GetRow(path)));
  }

  lemma TwoRowCells(p: string, q: string)
    requires IsRowPath(p) && IsRowPath(q)
    ensures AllCells([GetRow(p), GetRow(q)]) == GetCells(p) + GetCells(q)
  {
    RowAdded([], p);
    RowAdded([GetRow(p)], q);
    assert [] + [GetRow(p)] == [GetRow(p)] && [GetRow(p)] + [GetRow(q)] == [GetRow(p), GetRow(q)];
    assert [] + GetCells(p) == GetCells(p);
  }

  lemma RowAdded(rows: seq<Row>, path: string)
    requires IsRowPath(path)
    ensures AllCells(rows + [GetRow(path)]) == AllCells(rows) + GetCells(path)
  {
    assert (rows + [GetRow(path)])[..|rows|] == rows;
    GetRowCells(path);
  }

  lemma {:induction false} MarksConcat(a: seq<Cell>, b: seq<Cell>)
    ensures Marks(a + b) == Marks(a) + Marks(b)
  {
    if b == [] {
      assert a + b == a;
    } else {
      var front, last := b[..|b| - 1], b[|b| - 1];
      MarksConcat(a, front);
      assert a + b == (a + front) + [last] && b == front + [last];
      MarksAppend(a + front, last);
    }
  }

  // ----- documented examples -----

  lemma {:induction false} FindPop(entries: seq<Entry>, popped: Entry, like: Entry)
    requires !SameKey(like, popped)
    ensures Find(Pop(entries, popped), like) == Find(entries, like)
  {
    if entries != [] && !SameKey(popped, entries[0]) {
      FindPop(entries[1..], popped, like);
    }
  }

  lemma PopKeepsShape(s: Schema)
    ensures SameShape(s, Schema(Pop(s.entries, Inferred)))
  {
    FindPop(s.entries, Inferred, TypeIs(NullType));
    FindPop(s.entries, Inferred, Properties([]));
    FindPop(s.entries, Inferred, Items(EMPTY));
    FindPop(s.entries, Inferred, OneOf([]));
  }

  /** The schema made from a list of examples covers each of them. */
  lemma ExamplesAreCovered(examples: seq<Example>, i: nat)
    requires i < |examples| && UniqueKeys(examples[i].value)
    ensures Covers(SchemaOf(examples), examples[i].value)
  {
    var e := examples[i];
    var s := Infer(e.value, e.required, true);
    InferCovers(e.value, e.required, true);
    if |examples| > 1 {
      var variants := SchemasOf(examples, false);
      PopKeepsShape(s);
      SameShapeCovers(s, variants[i], e.value);
      MarkedOneOfCovers(variants, i, e.value);
    }
  }

  lemma MarkedOneOfCovers(variants: seq<Schema>, i: nat, v: Json)
    requires i < |variants| && Covers(variants[i], v)
    ensures Covers(Schema([OneOf(variants), Inferred]), v)
  {
    OneOfCovers(variants, i, v);
    AppendKeepsShape([OneOf(variants)], Inferred);
    assert [OneOf(variants)] + [Inferred] == [OneOf(variants), Inferred];
    SameShapeCovers(Schema([OneOf(variants)]), Schema([OneOf(variants), Inferred]), v);
  }

  /** A built operation covers the examples of its row. */
  lemma MadeCoversExamples(verb: string, path: string, row: Row)
    requires forall e | e in row.requests :: UniqueKeys(e.value)
    requires forall v | v in row.responses :: UniqueKeys(v)
    ensures var op := Some(MakeOperation(verb, path, row));
            && (verb in {"put", "post"} ==> forall e | e in row.requests :: Covers(RequestSchema(op), e.value))
            && (forall v | v in row.responses :: Covers(ResponseSchema(op, "2XX"), v))
  {
    if verb in {"put", "post"} {
      forall e | e in row.requests ensures Covers(RequestSchema(Some(MakeOperation(verb, path, row))), e.value) {
        var i :| 0 <= i < |row.requests| && row.requests[i] == e;
        ExamplesAreCovered(row.requests, i);
      }
    }
    forall v | v in row.responses ensures Covers(ResponseSchema(Some(MakeOperation(verb, path, row)), "2XX"), v) {
      var i :| 0 <= i < |row.responses| && row.responses[i] == v;
      ExamplesAreCovered(AsExamples(row.responses), i);
    }
  }

  /** Each mark's own row makes its operation. */
  lemma {:induction false} MarkedIsMade(cells: seq<Cell>, c: Cell)
    requires Fold(cells).Ok? && c in cells && c.Mark?
    ensures OperationAt(Fold(cells).value, Target(c.path, c.verb)) == Some(MakeOperation(c.verb, c.path, c.row))
  {
    var front, last := cells[..|cells| - 1], cells[|cells| - 1];
    assert cells == front + [last];
    var paths, t := Fold(front).value, Target(c.path, c.verb);
    match last
    case Touch(path) =>
      MarkedIsMade(front, c);
      GetPut(paths, path, [], c.path);
    case Mark(path, verb, row) =>
      OperationAfterPut(paths, Target(path, verb), MakeOperation(verb, path, row), t);
      if c != last {
        MarkedIsMade(front, c);
      }
  }
}
