/** The OpenAPI document the generator works on, and `validate_document` of
    `scripts/generate_openapi.py`. */
module OpenApiDocument {
  import opened Options
  import opened Sequences
  import opened OrderedDicts
  import PathTemplates
  import TemplateLaws
  import Schemas

  const METHODS: set<string> := {"get", "put", "delete", "post"}

  datatype Parameter = Parameter(name: string, location: string, required: bool, observed: bool)

  datatype Media = Media(schema: Option<Schemas.Schema>)

  /** A request body or a response: what can carry content */
  datatype Body = Body(content: Option<Dict<Media>>)

  datatype Operation = Operation(
    operationId: Option<string>,
    parameters: Option<seq<Parameter>>,
    requestBody: Option<Body>,
    responses: Option<Dict<Body>>,
    statuses: Option<seq<int>>)

  type PathItem = Dict<Operation>
  type Paths = Dict<PathItem>

  // ----- what validation looks at -----

  datatype Outline = Outline(id: Option<string>, pathParameters: set<string>, hasResponses: bool)

  function PathParameters(parameters: seq<Parameter>): set<string> {
    set p | p in parameters && p.location == "path" && p.required :: p.name
  }

  function OutlineOf(op: Operation): Outline {
    Outline(op.operationId, PathParameters(op.parameters.GetOr([])), op.responses.Some?)
  }

  function ItemOutline(item: PathItem): Dict<Outline> {
    MapValues(item, OutlineOf)
  }

  function OutlineOfPaths(paths: Paths): Dict<Dict<Outline>> {
    MapValues(paths, ItemOutline)
  }

  function HolesOf(path: string): set<string> {
    var names := PathTemplates.HoleNames(PathTemplates.Pieces(path));
    set name | name in names
  }

  predicate IsApiPath(path: string) {
    "/api/" <= path
  }

  predicate OutlineOk(path: string, method_: string, o: Outline) {
    && method_ in METHODS
    && o.id.Some? && o.id.value != ""
    && o.pathParameters == HolesOf(path)
    && o.hasResponses
  }

  /** The operation ids in document order; a missing id counts as the empty text. */
  function ItemIds(item: Dict<Outline>): seq<string> {
    if item == [] then [] else ItemIds(item[..|item| - 1]) + [item[|item| - 1].value.id.GetOr("")]
  }

  function Ids(paths: Dict<Dict<Outline>>): seq<string> {
    if paths == [] then [] else Ids(paths[..|paths| - 1]) + ItemIds(paths[|paths| - 1].value)
  }

  ghost predicate ItemOk(path: string, item: Dict<Outline>) {
    forall i :: 0 <= i < |item| ==> OutlineOk(path, item[i].key, item[i].value)
  }

  /** A valid document: management paths only, known methods only, every operation
      with its own id, with exactly its path's parameters and with responses */
  ghost predicate ValidOutline(paths: Dict<Dict<Outline>>) {
    && (forall i :: 0 <= i < |paths| ==> IsApiPath(paths[i].key) && ItemOk(paths[i].key, paths[i].value))
    && Distinct(Ids(paths))
  }

  ghost predicate Valid(openapi: string, paths: Paths) {
    openapi == "3.1.0" && ValidOutline(OutlineOfPaths(paths))
  }

  // ----- validate_document -----

  datatype Problem =
    | WrongVersion
    | UnexpectedPath(path: string)
    | UnexpectedMethod(name: string, path: string)
    | BadOperationId(id: Option<string>)
    | ParameterMismatch(name: string, path: string)
    | MissingResponses(name: string, path: string)

  /** What a reported problem says about the document: some path has it, and a
      reported id is missing, empty, or occurs twice among the ids. */
  ghost predicate Explains(problem: Problem, openapi: string, paths: Paths) {
    match problem
    case WrongVersion => openapi != "3.1.0"
    case UnexpectedPath(path) => Has(paths, path) && !IsApiPath(path)
    case BadOperationId(id) => BlamesSome(problem, paths) &&
        (Unusable(id) || Twice(Ids(OutlineOfPaths(paths)), id.value))
    case _ => BlamesSome(problem, paths)
  }

  predicate Unusable(id: Option<string>) {
    id.None? || id.value == ""
  }

  ghost predicate BlamesSome(problem: Problem, paths: Paths) {
    exists i :: 0 <= i < |paths| && BlamesItem(problem, paths[i].key, paths[i].value)
  }

  ghost predicate BlamesItem(problem: Problem, path: string, item: PathItem) {
    match problem
    case UnexpectedMethod(name, p) => p == path && Has(item, name) && name !in METHODS
    case ParameterMismatch(name, p) =>
      && p == path
      && exists m :: m in item && m.key == name && PathParameters(m.value.parameters.GetOr([])) != HolesOf(path)
    case MissingResponses(name, p) => p == path && exists m :: m in item && m.key == name && m.value.responses.None?
    case BadOperationId(id) => exists m :: m in item && m.value.operationId == id
    case _ => false
  }

  lemma {:induction false} ItemIdsPrefix(item: Dict<Outline>, j: nat)
    requires j <= |item|
    ensures ItemIds(item[..j]) <= ItemIds(item)
    decreases |item| - j
  {
    if j < |item| {
      assert item[..j + 1][..j] == item[..j];
      ItemIdsPrefix(item, j + 1);
    } else {
      assert item[..j] == item;
    }
  }

  lemma {:induction false} IdsPrefix(paths: Dict<Dict<Outline>>, i: nat)
    requires i <= |paths|
    ensures Ids(paths[..i]) <= Ids(paths)
    decreases |paths| - i
  {
    if i < |paths| {
      assert paths[..i + 1][..i] == paths[..i];
      IdsPrefix(paths, i + 1);
    } else {
      assert paths[..i] == paths;
    }
  }

  /** One more path keeps the first ones valid exactly when it is valid itself and
      brings new ids; otherwise the whole document is invalid. */
  lemma ValidStep(outline: Dict<Dict<Outline>>, i: nat)
    requires i < |outline| && ValidOutline(outline[..i])
    ensures Ids(outline[..i + 1]) == Ids(outline[..i]) + ItemIds(outline[i].value)
    ensures ValidOutline(outline[..i + 1]) <==>
              && IsApiPath(outline[i].key) && ItemOk(outline[i].key, outline[i].value)
              && Distinct(Ids(outline[..i]) + ItemIds(outline[i].value))
    ensures ValidOutline(outline) ==> ValidOutline(outline[..i + 1])
  {
    var front, next := outline[..i], outline[..i + 1];
    assert next[..i] == front;
    assert forall k :: 0 <= k < i ==> next[k] == front[k];
    if ValidOutline(outline) {
      IdsPrefix(outline, i + 1);
      PrefixIsDistinct(Ids(next), Ids(outline));
    }
  }

  /** What is wrong with one item is wrong with the document. */
  lemma ItemExplains(problem: Problem, openapi: string, paths: Paths, i: nat)
    requires i < |paths| && BlamesItem(problem, paths[i].key, paths[i].value)
    requires problem.BadOperationId? ==>
        Unusable(problem.id) || Twice(Ids(OutlineOfPaths(paths)[..i + 1]), problem.id.value)
    ensures Explains(problem, openapi, paths)
  {
    if problem.BadOperationId? && !Unusable(problem.id) {
      IdsPrefix(OutlineOfPaths(paths), i + 1);
      TwiceInPrefix(Ids(OutlineOfPaths(paths)[..i + 1]), Ids(OutlineOfPaths(paths)), problem.id.value);
    }
  }

  /** An id that occurred before repeats among the ids of the whole item. */
  lemma RepeatedId(before: seq<string>, item: Dict<Outline>, j: nat)
    requires j < |item| && item[j].value.id.GetOr("") in before + ItemIds(item[..j])
    ensures Twice(before + ItemIds(item), item[j].value.id.GetOr("")) && !Distinct(before + ItemIds(item))
  {
    var ids, id := ItemIds(item[..j]), item[j].value.id.GetOr("");
    ItemIdsStep(item, j);
    ItemIdsPrefix(item, j + 1);
    RepeatsIn(before, ids, id, ItemIds(item));
  }

  lemma ItemIdsStep(item: Dict<Outline>, j: nat)
    requires j < |item|
    ensures ItemIds(item[..j + 1]) == ItemIds(item[..j]) + [item[j].value.id.GetOr("")]
  {
    assert item[..j + 1][..j] == item[..j];
  }

  lemma RepeatsIn(before: seq<string>, ids: seq<string>, id: string, all: seq<string>)
    requires id in before + ids && ids + [id] <= all
    ensures Twice(before + all, id) && !Distinct(before + all)
  {
    var k :| 0 <= k < |before + ids| && (before + ids)[k] == id;
    assert all[|ids|] == (ids + [id])[|ids|];
    assert k >= |before| ==> all[k - |before|] == (ids + [id])[k - |before|];
    assert (before + all)[k] == id && (before + all)[|before| + |ids|] == id;
  }

  /** The loop over the methods of one path; `before` are the ids seen so far. */
  method ValidateItem(path: string, item: PathItem, operationIds: set<string>, ghost before: seq<string>)
    returns (r: Result<set<string>, Problem>)
    requires Distinct(before) && operationIds == set id | id in before
    ensures r.Ok? <==> ItemOk(path, ItemOutline(item)) && Distinct(before + ItemIds(ItemOutline(item)))
    ensures r.Ok? ==> r.value == set id | id in before + ItemIds(ItemOutline(item))
    ensures r.Err? ==> BlamesItem(r.error, path, item)
    ensures r.Err? && r.error.BadOperationId? ==>
              Unusable(r.error.id) || Twice(before + ItemIds(ItemOutline(item)), r.error.id.value)
  {
    ghost var outline := ItemOutline(item);
    var expected := HolesOf(path);
    var seen := operationIds;
    ghost var ids := before;
    for j := 0 to |item|
      invariant ItemOk(path, outline[..j])
      invariant ids == before + ItemIds(outline[..j]) && Distinct(ids) && seen == set id | id in ids
    {
      var name, op := item[j].key, item[j].value;
      assert outline[j] == Pair(name, OutlineOf(op)) && item[j] in item;
      if name !in METHODS {
        assert !OutlineOk(path, outline[j].key, outline[j].value);
        return Err(UnexpectedMethod(name, path));
      }
      if op.operationId.None? || op.operationId.value == "" {
        assert !OutlineOk(path, outline[j].key, outline[j].value);
        return Err(BadOperationId(op.operationId));
      }
      if op.operationId.value in seen {
        RepeatedId(before, outline, j);
        return Err(BadOperationId(op.operationId));
      }
      seen := seen + {op.operationId.value};
      if PathParameters(op.parameters.GetOr([])) != expected {
        assert !OutlineOk(path, outline[j].key, outline[j].value);
        return Err(ParameterMismatch(name, path));
      }
      if op.responses.None? {
        assert !OutlineOk(path, outline[j].key, outline[j].value);
        return Err(MissingResponses(name, path));
      }
      DistinctAppend(ids, op.operationId.value);
      ids := ids + [op.operationId.value];
      ItemIdsStep(outline, j);
      Glue(before, ItemIds(outline[..j]), [op.operationId.value]);
    }
    assert outline[..|item|] == outline;
    return Ok(seen);
  }

  /** `validate_document` */
  method ValidateDocument(openapi: string, paths: Paths) returns (r: Result<(), Problem>)
    ensures r.Ok? <==> Valid(openapi, paths)
    ensures r.Err? ==> Explains(r.error, openapi, paths)
  {
    if openapi != "3.1.0" {
      return Err(WrongVersion);
    }
    ghost var outline := OutlineOfPaths(paths);
    var operationIds: set<string> := {};
    for i := 0 to |paths|
      invariant ValidOutline(outline[..i]) && operationIds == set id | id in Ids(outline[..i])
    {
      var path, item := paths[i].key, paths[i].value;
      assert outline[i] == Pair(path, ItemOutline(item));
      ValidStep(outline, i);
      if !("/api/" <= path) {
        assert Has(paths, path);
        return Err(UnexpectedPath(path));
      }
      var r := ValidateItem(path, item, operationIds, Ids(outline[..i]));
      if r.Err? {
        ItemExplains(r.error, openapi, paths, i);
        return Err(r.error);
      }
      operationIds := r.value;
    }
    assert outline[..|paths|] == outline;
    return Ok(());
  }

  // ----- validity spelled out -----

  ghost predicate HasPathParameter(op: Operation, name: string) {
    exists p :: p in op.parameters.GetOr([]) && p.location == "path" && p.required && p.name == name
  }

  /** A known method, an id, responses, and a required path parameter for exactly the
      names in braces in the path */
  ghost predicate IsSound(path: string, name: string, op: Operation) {
    && (name == "get" || name == "put" || name == "delete" || name == "post")
    && op.operationId.Some? && op.operationId.value != ""
    && (forall hole :: HasPathParameter(op, hole) <==> TemplateLaws.Mentions(path, hole))
    && op.responses.Some?
  }

  ghost predicate AllSound(paths: Paths) {
    forall i, j :: 0 <= i < |paths| && 0 <= j < |paths[i].value| ==>
      IsSound(paths[i].key, paths[i].value[j].key, paths[i].value[j].value)
  }

  /** Operations at different places have different ids. */
  ghost predicate IdsDiffer(o: Dict<Dict<Outline>>) {
    forall i, j, k, l ::
      0 <= i < |o| && 0 <= j < |o[i].value| && 0 <= k < |o| && 0 <= l < |o[k].value| && (i != k || j != l) ==>
      o[i].value[j].value.id.GetOr("") != o[k].value[l].value.id.GetOr("")
  }

  lemma HolesAreMentioned(path: string, name: string)
    ensures name in HolesOf(path) <==> TemplateLaws.Mentions(path, name)
  {
    TemplateLaws.NamesAreMentioned(path, name);
  }

  lemma SoundIs(path: string, name: string, op: Operation)
    ensures OutlineOk(path, name, OutlineOf(op)) <==> IsSound(path, name, op)
  {
    var ps := PathParameters(op.parameters.GetOr([]));
    forall hole
      ensures hole in HolesOf(path) <==> TemplateLaws.Mentions(path, hole)
      ensures hole in ps <==> HasPathParameter(op, hole)
    {
      HolesAreMentioned(path, hole);
    }
    if IsSound(path, name, op) {
      assert ps == HolesOf(path);
    }
  }

  lemma {:induction false} ItemIdsAre(item: Dict<Outline>)
    ensures |ItemIds(item)| == |item|
    ensures forall j :: 0 <= j < |item| ==> ItemIds(item)[j] == item[j].value.id.GetOr("")
  {
    if item != [] {
      ItemIdsAre(item[..|item| - 1]);
    }
  }

  ghost predicate HasId(o: Dict<Dict<Outline>>, id: string) {
    exists i, j :: 0 <= i < |o| && 0 <= j < |o[i].value| && o[i].value[j].value.id.GetOr("") == id
  }

  lemma {:induction false} IdsAre(o: Dict<Dict<Outline>>)
    ensures forall id :: id in Ids(o) <==> HasId(o, id)
  {
    if o != [] {
      var n := |o| - 1;
      IdsAre(o[..n]);
      ItemIdsAre(o[n].value);
      forall id ensures id in Ids(o) <==> HasId(o, id) {
        LastId(o, n, id);
      }
    }
  }

  lemma LastId(o: Dict<Dict<Outline>>, n: nat, id: string)
    requires |o| == n + 1
    ensures HasId(o, id) <==>
            HasId(o[..n], id) || exists j :: 0 <= j < |o[n].value| && o[n].value[j].value.id.GetOr("") == id
  {
    if HasId(o[..n], id) {
      var i, j :| 0 <= i < n && 0 <= j < |o[..n][i].value| && o[..n][i].value[j].value.id.GetOr("") == id;
      assert o[i] == o[..n][i];
    }
    if HasId(o, id) {
      var i, j :| 0 <= i < |o| && 0 <= j < |o[i].value| && o[i].value[j].value.id.GetOr("") == id;
      assert i < n ==> o[..n][i] == o[i];
    }
  }

  /** The ids are distinct exactly when operations at different places have different ones. */
  lemma {:induction false} DistinctIdsAre(o: Dict<Dict<Outline>>)
    ensures Distinct(Ids(o)) <==> IdsDiffer(o)
  {
    if o != [] {
      var n := |o| - 1;
      DistinctIdsAre(o[..n]);
      IdsAre(o[..n]);
      ItemIdsAre(o[n].value);
      if Distinct(Ids(o)) {
        DistinctParts(Ids(o[..n]), ItemIds(o[n].value));
        DifferBeside(o, n);
      }
      if IdsDiffer(o) {
        DifferInParts(o, n);
        DistinctConcat(Ids(o[..n]), ItemIds(o[n].value));
      }
    }
  }

  lemma DistinctParts<T>(a: seq<T>, b: seq<T>)
    requires Distinct(a + b)
    ensures Distinct(a) && Distinct(b) && forall x | x in a :: x !in b
  {
    PrefixIsDistinct(a, a + b);
    forall i, j | 0 <= i < j < |b| ensures b[i] != b[j] {
      assert (a + b)[|a| + i] != (a + b)[|a| + j];
    }
    forall i, j | 0 <= i < |a| && 0 <= j < |b| ensures a[i] != b[j] {
      assert (a + b)[i] != (a + b)[|a| + j];
    }
  }

  lemma DifferBeside(o: Dict<Dict<Outline>>, n: nat)
    requires |o| == n + 1 && IdsDiffer(o[..n]) && Distinct(ItemIds(o[n].value))
    requires |ItemIds(o[n].value)| == |o[n].value|
    requires forall j :: 0 <= j < |o[n].value| ==> ItemIds(o[n].value)[j] == o[n].value[j].value.id.GetOr("")
    requires forall id | HasId(o[..n], id) :: id !in ItemIds(o[n].value)
    ensures IdsDiffer(o)
  {
    var ids := ItemIds(o[n].value);
    forall i, j, k, l |
      0 <= i < |o| && 0 <= j < |o[i].value| && 0 <= k < |o| && 0 <= l < |o[k].value| && (i != k || j != l)
      ensures o[i].value[j].value.id.GetOr("") != o[k].value[l].value.id.GetOr("")
    {
      if i < n && k < n {
        assert o[..n][i] == o[i] && o[..n][k] == o[k];
      } else if i < n {
        assert o[..n][i] == o[i];
        assert HasId(o[..n], o[i].value[j].value.id.GetOr("")) && ids[l] in ids;
      } else if k < n {
        assert o[..n][k] == o[k];
        assert HasId(o[..n], o[k].value[l].value.id.GetOr("")) && ids[j] in ids;
      } else {
        assert ids[j] != ids[l];
      }
    }
  }

  lemma DifferInParts(o: Dict<Dict<Outline>>, n: nat)
    requires |o| == n + 1 && IdsDiffer(o)
    requires |ItemIds(o[n].value)| == |o[n].value|
    requires forall j :: 0 <= j < |o[n].value| ==> ItemIds(o[n].value)[j] == o[n].value[j].value.id.GetOr("")
    ensures IdsDiffer(o[..n]) && Distinct(ItemIds(o[n].value))
    ensures forall id | HasId(o[..n], id) :: id !in ItemIds(o[n].value)
  {
    var ids := ItemIds(o[n].value);
    assert forall i :: 0 <= i < n ==> o[..n][i] == o[i];
    forall id | HasId(o[..n], id) ensures id !in ids {
      var i, j :| 0 <= i < n && 0 <= j < |o[..n][i].value| && o[..n][i].value[j].value.id.GetOr("") == id;
      assert o[..n][i] == o[i];
    }
  }

  /** The document is valid: the version, the paths, each operation for itself, and
      the operation ids among each other. */
  lemma ValidIs(openapi: string, paths: Paths)
    ensures Valid(openapi, paths) <==>
            && openapi == "3.1.0"
            && (forall i :: 0 <= i < |paths| ==> "/api/" <= paths[i].key)
            && AllSound(paths)
            && forall i, j, k, l ::
              0 <= i < |paths| && 0 <= j < |paths[i].value| && 0 <= k < |paths| && 0 <= l < |paths[k].value|
              && (i != k || j != l) ==>
              paths[i].value[j].value.operationId != paths[k].value[l].value.operationId
  {
    var o := OutlineOfPaths(paths);
    DistinctIdsAre(o);
    ItemsAreSound(paths);
    if AllSound(paths) {
      IdsAreOperationIds(paths);
    }
  }

  lemma ItemsAreSound(paths: Paths)
    ensures AllSound(paths) <==>
            forall i :: 0 <= i < |paths| ==> ItemOk(paths[i].key, OutlineOfPaths(paths)[i].value)
  {
    var o := OutlineOfPaths(paths);
    forall i | 0 <= i < |paths|
      ensures ItemOk(paths[i].key, o[i].value) <==>
              forall j :: 0 <= j < |paths[i].value| ==>
                IsSound(paths[i].key, paths[i].value[j].key, paths[i].value[j].value)
    {
      var item := paths[i].value;
      forall j | 0 <= j < |item|
        ensures OutlineOk(paths[i].key, o[i].value[j].key, o[i].value[j].value) <==>
                IsSound(paths[i].key, item[j].key, item[j].value)
      {
        SoundIs(paths[i].key, item[j].key, item[j].value);
      }
    }
  }

  lemma IdsAreOperationIds(paths: Paths)
    requires AllSound(paths)
    ensures IdsDiffer(OutlineOfPaths(paths)) <==>
            forall i, j, k, l ::
              0 <= i < |paths| && 0 <= j < |paths[i].value| && 0 <= k < |paths| && 0 <= l < |paths[k].value|
              && (i != k || j != l) ==>
              paths[i].value[j].value.operationId != paths[k].value[l].value.operationId
  {
    var o := OutlineOfPaths(paths);
    forall i, j | 0 <= i < |paths| && 0 <= j < |paths[i].value|
      ensures |o[i].value| == |paths[i].value|
      ensures Some(o[i].value[j].value.id.GetOr("")) == paths[i].value[j].value.operationId
    {
      assert IsSound(paths[i].key, paths[i].value[j].key, paths[i].value[j].value);
    }
  }
}
