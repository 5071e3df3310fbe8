/** `enrich_with_observations` of `scripts/generate_openapi.py`. */
module Enrichment {
  import opened Options
  import opened OrderedDicts
  import opened Json
  import opened Schemas
  import opened SchemaMerge
  import opened OpenApiDocument
  import PathTemplates
  import TextLines

  /** One captured request. `path` is the path component of its URL and
      `queryNames` are the distinct names in its query; `request` and `response`
      are `Null` when there was none. */
  datatype Observation = Observation(
    path: string, queryNames: seq<string>, verb: string, status: int,
    headers: seq<string>, request: Json, response: Json)

  function LowerChar(c: char): char {
    if 'A' <= c <= 'Z' then (c as int + 32) as char else c
  }

  function Lower(s: string): (t: string)
    ensures |t| == |s|
  {
    seq(|s|, i requires 0 <= i < |s| => LowerChar(s[i]))
  }

  // ----- observed statuses -----

  ghost predicate Ascending(s: seq<int>) {
    forall i, j :: 0 <= i < j < |s| ==> s[i] < s[j]
  }

  function Insert(x: int, s: seq<int>): seq<int> {
    if s == [] then [x]
    else if x < s[0] then [x] + s
    else if x == s[0] then s
    else [s[0]] + Insert(x, s[1..])
  }

  /** `sorted(set(s))` */
  function SortedSet(s: seq<int>): seq<int> {
    if s == [] then [] else Insert(s[|s| - 1], SortedSet(s[..|s| - 1]))
  }

  lemma {:induction false} InsertAscending(x: int, s: seq<int>)
    requires Ascending(s)
    ensures Ascending(Insert(x, s)) && forall y :: y in Insert(x, s) <==> y == x || y in s
  {
    if s != [] && x > s[0] {
      InsertAscending(x, s[1..]);
      AscendingCons(s[0], Insert(x, s[1..]));
    }
  }

  lemma AscendingCons(x: int, s: seq<int>)
    requires Ascending(s) && forall y :: y in s ==> x < y
    ensures Ascending([x] + s) && forall y :: y in [x] + s <==> y == x || y in s
  {
    forall i, j | 0 <= i < j < |[x] + s| ensures ([x] + s)[i] < ([x] + s)[j] {
      assert s[j - 1] in s;
    }
  }

  /** The status list is sorted, without repetition, and holds exactly the old
      statuses and the new one. */
  lemma {:induction false} StatusesAreSorted(s: seq<int>, status: int)
    ensures var r := SortedSet(s + [status]); Ascending(r) && forall y :: y in r <==> y in s || y == status
  {
    SortedSetHolds(s);
    assert (s + [status])[..|s|] == s;
    InsertAscending(status, SortedSet(s));
  }

  lemma {:induction false} SortedSetHolds(s: seq<int>)
    ensures Ascending(SortedSet(s)) && forall y :: y in SortedSet(s) <==> y in s
  {
    if s != [] {
      SortedSetHolds(s[..|s| - 1]);
      InsertAscending(s[|s| - 1], SortedSet(s[..|s| - 1]));
      assert s == s[..|s| - 1] + [s[|s| - 1]];
    }
  }

  // ----- observed parameters -----

  const IGNORED_HEADERS: set<string> :=
    {"accept", "accept-encoding", "authorization", "connection", "content-length", "content-type",
     "cookie", "host", "origin", "referer", "user-agent"}

  datatype Key = Key(location: string, name: string)

  function KeyOf(p: Parameter): Key {
    Key(p.location, Lower(p.name))
  }

  function KeysOf(parameters: seq<Parameter>): set<Key> {
    set p | p in parameters :: KeyOf(p)
  }

  predicate Skipped(location: string, name: string) {
    location == "header" && (Lower(name) in IGNORED_HEADERS || "sec-" <= Lower(name))
  }

  /** The parameters with those observed at one location appended */
  function AddNames(parameters: seq<Parameter>, location: string, names: seq<string>): seq<Parameter>
    decreases |names|
  {
    if names == [] then parameters
    else
      var p := Parameter(names[0], location, false, true);
      AddNames(if Skipped(location, names[0]) || KeyOf(p) in KeysOf(parameters) then parameters else parameters + [p],
               location, names[1..])
  }

  /** The loop over the query names, and the one over the header names */
  method AddObservedNames(parameters: seq<Parameter>, location: string, names: seq<string>)
    returns (all: seq<Parameter>)
    ensures all == AddNames(parameters, location, names)
  {
    all := parameters;
    var existing := KeysOf(parameters);
    assert names[0..] == names;
    for i := 0 to |names|
      invariant existing == KeysOf(all)
      invariant AddNames(parameters, location, names) == AddNames(all, location, names[i..])
    {
      assert names[i..][0] == names[i] && names[i..][1..] == names[i + 1..];
      var p := Parameter(names[i], location, false, true);
      if !Skipped(location, names[i]) && KeyOf(p) !in existing {
        all := all + [p];
        existing := existing + {KeyOf(p)};
      }
    }
    assert names[|names|..] == [];
  }

  /** Old parameters stay in front; every added one is optional, at the observed
      location, and differs from all others in location or lower-case name. */
  ghost predicate Extends(old_: seq<Parameter>, new_: seq<Parameter>) {
    && old_ <= new_
    && (forall i :: |old_| <= i < |new_| ==>
        new_[i].location in {"query", "header"} && !new_[i].required && new_[i].observed)
    && (forall i, j :: 0 <= i < j < |new_| && |old_| <= j ==> KeyOf(new_[i]) != KeyOf(new_[j]))
  }

  lemma {:induction false} AddNamesExtends(parameters: seq<Parameter>, location: string, names: seq<string>)
    requires location in {"query", "header"}
    ensures Extends(parameters, AddNames(parameters, location, names))
    decreases |names|
  {
    if names != [] {
      var p := Parameter(names[0], location, false, true);
      var known := Skipped(location, names[0]) || KeyOf(p) in KeysOf(parameters);
      var next := if known then parameters else parameters + [p];
      assert Extends(parameters, next) by {
        forall i | 0 <= i < |parameters| ensures KeyOf(parameters[i]) in KeysOf(parameters) {
        }
      }
      AddNamesExtends(next, location, names[1..]);
    }
  }

  /** Every observed name that is not skipped ends up among the parameters. */
  lemma {:induction false} AddNamesHolds(parameters: seq<Parameter>, location: string, names: seq<string>)
    ensures KeysOf(parameters) <= KeysOf(AddNames(parameters, location, names))
    ensures forall name | name in names && !Skipped(location, name) ::
              Key(location, Lower(name)) in KeysOf(AddNames(parameters, location, names))
    decreases |names|
  {
    if names != [] {
      var p := Parameter(names[0], location, false, true);
      var known := Skipped(location, names[0]) || KeyOf(p) in KeysOf(parameters);
      var next := if known then parameters else parameters + [p];
      AddNamesHolds(next, location, names[1..]);
      assert KeysOf(parameters) <= KeysOf(next);
      if !Skipped(location, names[0]) {
        assert KeyOf(p) in KeysOf(next);
      }
    }
  }

  /** Nothing but observed names that are not skipped is added. */
  lemma {:induction false} AddNamesSources(parameters: seq<Parameter>, location: string, names: seq<string>)
    ensures forall p | p in AddNames(parameters, location, names) ::
              p in parameters || (p.location == location && p.name in names && !Skipped(location, p.name))
    decreases |names|
  {
    if names != [] {
      var p := Parameter(names[0], location, false, true);
      var known := Skipped(location, names[0]) || KeyOf(p) in KeysOf(parameters);
      var next := if known then parameters else parameters + [p];
      AddNamesSources(next, location, names[1..]);
      assert forall q | q in next :: q in parameters || (q == p && !Skipped(location, names[0]));
    }
  }

  lemma ExtendsTransitive(a: seq<Parameter>, b: seq<Parameter>, c: seq<Parameter>)
    requires Extends(a, b) && Extends(b, c)
    ensures Extends(a, c)
  {
    forall i, j | 0 <= i < j < |c| && |a| <= j ensures KeyOf(c[i]) != KeyOf(c[j]) {
      if j < |b| {
        assert c[i] == b[i] && c[j] == b[j];
      }
    }
    forall i | |a| <= i < |c| ensures c[i].location in {"query", "header"} && !c[i].required && c[i].observed {
      if i < |b| {
        assert c[i] == b[i];
      }
    }
  }

  /** The name stands in the query or, unless it is skipped, in the headers. */
  predicate WasObserved(p: Parameter, obs: Observation) {
    || (p.location == "query" && p.name in obs.queryNames)
    || (p.location == "header" && p.name in obs.headers && !Skipped("header", p.name))
  }

  /** Every query name, and every header that is not skipped, is among the parameters. */
  ghost predicate HoldsNames(parameters: seq<Parameter>, obs: Observation) {
    && (forall name | name in obs.queryNames :: Key("query", Lower(name)) in KeysOf(parameters))
    && (forall name | name in obs.headers && !Skipped("header", name) ::
          Key("header", Lower(name)) in KeysOf(parameters))
  }

  // ----- observed bodies -----

  const JSON_TYPE := "application/json"

  /** The JSON schema of a body; nothing known when there is none */
  function BodySchema(body: Body): Schema {
    match Get(body.content.GetOr([]), JSON_TYPE)
    case None => EMPTY
    case Some(media) => media.schema.GetOr(EMPTY)
  }

  /** The body with a value observed in its JSON content */
  function ObserveBody(body: Body, v: Json): Body {
    var content := body.content.GetOr([]);
    Body(Some(Put(content, JSON_TYPE, Media(Some(Observe(BodySchema(body), v))))))
  }

  lemma ObserveBodySchema(body: Body, v: Json)
    ensures BodySchema(ObserveBody(body, v)) == Observe(BodySchema(body), v)
  {
    GetPut(body.content.GetOr([]), JSON_TYPE, Media(Some(Observe(BodySchema(body), v))), JSON_TYPE);
  }

  // ----- one operation -----

  function WithStatus(op: Operation, status: int): Operation {
    op.(statuses := Some(SortedSet(op.statuses.GetOr([]) + [status])))
  }

  function WithParameters(op: Operation, obs: Observation): Operation {
    var parameters := AddNames(AddNames(op.parameters.GetOr([]), "query", obs.queryNames), "header", obs.headers);
    op.(parameters := if parameters == [] then None else Some(parameters))
  }

  function WithRequest(op: Operation, verb: string, request: Json): Operation {
    if request == Null || verb !in {"put", "post"} then op
    else op.(requestBody := Some(ObserveBody(op.requestBody.GetOr(Body(None)), request)))
  }

  function WithResponse(op: Operation, status: int, response: Json): Operation {
    var code := TextLines.IntText(status);
    var responses := op.responses.GetOr([]);
    var body := Get(responses, code).GetOr(Body(None));
    op.(responses := Some(Put(responses, code, if response == Null then body else ObserveBody(body, response))))
  }

  function EnrichOperation(op: Operation, verb: string, obs: Observation): Operation {
    WithResponse(
      WithRequest(WithParameters(WithStatus(op, obs.status), obs), verb, obs.request),
      obs.status, obs.response)
  }

  // ----- one observation -----

  datatype Target = Target(template: string, verb: string)

  /** The operation an observation belongs to, if the document has it */
  function TargetOf(paths: Paths, obs: Observation): Option<Target> {
    var template := PathTemplates.MatchPath(Keys(paths), obs.path).GetOr("");
    var verb := Lower(obs.verb);
    if template == "" || Get(Get(paths, template).GetOr([]), verb).None? then None
    else Some(Target(template, verb))
  }

  function OperationAt(paths: Paths, t: Target): Option<Operation> {
    Get(Get(paths, t.template).GetOr([]), t.verb)
  }

  function PutOperation(paths: Paths, t: Target, op: Operation): Paths {
    Put(paths, t.template, Put(Get(paths, t.template).GetOr([]), t.verb, op))
  }

  function EnrichOne(paths: Paths, obs: Observation): Paths {
    var t := TargetOf(paths, obs);
    if t.None? || OperationAt(paths, t.value).None? then paths
    else PutOperation(paths, t.value, EnrichOperation(OperationAt(paths, t.value).value, t.value.verb, obs))
  }

  // ----- all observations -----

  datatype Enriched = Enriched(paths: Paths, operations: set<Target>, used: nat)

  function EnrichAll(paths: Paths, observations: seq<Observation>): Enriched {
    if observations == [] then Enriched(paths, {}, 0)
    else
      var before := EnrichAll(paths, observations[..|observations| - 1]);
      var obs := observations[|observations| - 1];
      match TargetOf(before.paths, obs)
      case None => before
      case Some(t) => Enriched(EnrichOne(before.paths, obs), before.operations + {t}, before.used + 1)
  }

  datatype Summary = Summary(version: string, observedOperations: nat, observationsUsed: nat)

  /** The parts of the document dictionary that enrichment and validation touch */
  class Document {
    var openapi: string
    var paths: Paths
    var enrichment: Option<Summary>

    constructor (openapi: string, paths: Paths)
      ensures this.openapi == openapi && this.paths == paths && enrichment == None
    {
      this.openapi := openapi;
      this.paths := paths;
      enrichment := None;
    }

    /** The body of the loop: the operation is found and updated in place. */
    method EnrichWithObservation(obs: Observation) returns (used: Option<Target>)
      modifies this`paths
      ensures used == TargetOf(old(paths), obs)
      ensures paths == EnrichOne(old(paths), obs)
    {
      used := TargetOf(paths, obs);
      if used.None? {
        return;
      }
      var t := used.value;
      var op := OperationAt(paths, t).value;
      op := WithStatus(op, obs.status);
      var parameters := AddObservedNames(op.parameters.GetOr([]), "query", obs.queryNames);
      parameters := AddObservedNames(parameters, "header", obs.headers);
      op := op.(parameters := if parameters == [] then None else Some(parameters));
      op := WithRequest(op, t.verb, obs.request);
      op := WithResponse(op, obs.status, obs.response);
      paths := PutOperation(paths, t, op);
    }

    /** `enrich_with_observations` */
    method EnrichWithObservations(observations: seq<Observation>, version: string)
      modifies this
      ensures openapi == old(openapi)
      ensures var e := EnrichAll(old(paths), observations);
              paths == e.paths && enrichment == Some(Summary(version, |e.operations|, e.used))
    {
      var observed: set<Target> := {};
      var used: nat := 0;
      for i := 0 to |observations|
        invariant openapi == old(openapi)
        invariant EnrichAll(old(paths), observations[..i]) == Enriched(paths, observed, used)
      {
        assert observations[..i + 1][..i] == observations[..i];
        var target := EnrichWithObservation(observations[i]);
        if target.Some? {
          observed := observed + {target.value};
          used := used + 1;
        }
      }
      assert observations[..|observations|] == observations;
      enrichment := Some(Summary(version, |observed|, used));
    }
  }

  // ----- what a step changes -----

  /** The step rewrites one operation; every other is as before. */
  lemma OperationAfterPut(paths: Paths, t: Target, op: Operation, u: Target)
    ensures OperationAt(PutOperation(paths, t, op), u) == if u == t then Some(op) else OperationAt(paths, u)
  {
    var item := Get(paths, t.template).GetOr([]);
    GetPut(paths, t.template, Put(item, t.verb, op), u.template);
    GetPut(item, t.verb, op, u.verb);
  }

  /** Paths keep their templates and verbs, so every observation keeps its target. */
  lemma StepKeepsTargets(paths: Paths, obs: Observation, other: Observation)
    ensures Keys(EnrichOne(paths, obs)) == Keys(paths)
    ensures TargetOf(EnrichOne(paths, obs), other) == TargetOf(paths, other)
  {
    var target := TargetOf(paths, obs);
    if target.Some? {
      var t := target.value;
      var op := EnrichOperation(OperationAt(paths, t).value, t.verb, obs);
      var item := Get(paths, t.template).GetOr([]);
      assert Get(paths, t.template).Some?;
      KeysPut(paths, t.template, Put(item, t.verb, op));
      var template := PathTemplates.MatchPath(Keys(paths), other.path).GetOr("");
      OperationAfterPut(paths, t, op, Target(template, Lower(other.verb)));
    }
  }

  /** The schema of a response, and of the request body, of one operation */
  function ResponseSchema(op: Option<Operation>, code: string): Schema {
    if op.None? then EMPTY
    else
      match Get(op.value.responses.GetOr([]), code)
      case None => EMPTY
      case Some(body) => BodySchema(body)
  }

  function RequestSchema(op: Option<Operation>): Schema {
    if op.None? then EMPTY else BodySchema(op.value.requestBody.GetOr(Body(None)))
  }

  /** Every response and every request body that `before` covers, `after` covers. */
  ghost predicate KeepsBodies(before: Option<Operation>, after: Option<Operation>) {
    && (forall code, w | Covers(ResponseSchema(before, code), w) :: Covers(ResponseSchema(after, code), w))
    && (forall w | Covers(RequestSchema(before), w) :: Covers(RequestSchema(after), w))
  }

  /** What holds of one operation after an observation of it */
  lemma OperationCovers(op: Operation, verb: string, obs: Observation)
    requires UniqueKeys(obs.request) && UniqueKeys(obs.response)
    ensures var op' := Some(EnrichOperation(op, verb, obs));
            && (obs.response != Null ==> Covers(ResponseSchema(op', TextLines.IntText(obs.status)), obs.response))
            && (obs.request != Null && verb in {"put", "post"} ==> Covers(RequestSchema(op'), obs.request))
            && KeepsBodies(Some(op), op')
  {
    var middle := WithRequest(WithParameters(WithStatus(op, obs.status), obs), verb, obs.request);
    ResponseCovers(middle, obs.status, obs.response);
    RequestCovers(op, verb, obs);
    forall code ensures ResponseSchema(Some(middle), code) == ResponseSchema(Some(op), code) {
    }
  }

  lemma RequestCovers(op: Operation, verb: string, obs: Observation)
    requires UniqueKeys(obs.request)
    ensures var op' := Some(EnrichOperation(op, verb, obs));
            && (obs.request != Null && verb in {"put", "post"} ==> Covers(RequestSchema(op'), obs.request))
            && (forall w | Covers(RequestSchema(Some(op)), w) :: Covers(RequestSchema(op'), w))
  {
    RequestIs(op, verb, obs);
    ObserveCovers(RequestSchema(Some(op)), obs.request);
  }

  lemma RequestIs(op: Operation, verb: string, obs: Observation)
    ensures RequestSchema(Some(EnrichOperation(op, verb, obs))) ==
            if obs.request != Null && verb in {"put", "post"}
            then Observe(RequestSchema(Some(op)), obs.request) else RequestSchema(Some(op))
  {
    ObserveBodySchema(op.requestBody.GetOr(Body(None)), obs.request);
  }

  lemma ResponseCovers(op: Operation, status: int, response: Json)
    requires UniqueKeys(response)
    ensures var op' := Some(WithResponse(op, status, response));
            && (response != Null ==> Covers(ResponseSchema(op', TextLines.IntText(status)), response))
            && (forall code, w | Covers(ResponseSchema(Some(op), code), w) :: Covers(ResponseSchema(op', code), w))
  {
    var own := TextLines.IntText(status);
    ObserveCovers(ResponseSchema(Some(op), own), response);
    ResponseIs(op, status, response, own);
    forall code, w | Covers(ResponseSchema(Some(op), code), w)
      ensures Covers(ResponseSchema(Some(WithResponse(op, status, response)), code), w)
    {
      ResponseIs(op, status, response, code);
    }
  }

  lemma ResponseIs(op: Operation, status: int, response: Json, code: string)
    ensures ResponseSchema(Some(WithResponse(op, status, response)), code) ==
            if code == TextLines.IntText(status) && response != Null
            then Observe(ResponseSchema(Some(op), code), response) else ResponseSchema(Some(op), code)
  {
    var own, responses := TextLines.IntText(status), op.responses.GetOr([]);
    var body := Get(responses, own).GetOr(Body(None));
    GetPut(responses, own, if response == Null then body else ObserveBody(body, response), code);
    ObserveBodySchema(body, response);
  }

  /** No step loses evidence, whichever operation it is about. */
  ghost predicate KeepsEvidence(before: Paths, after: Paths) {
    forall t :: KeepsBodies(OperationAt(before, t), OperationAt(after, t))
  }

  ghost predicate UniqueObservation(obs: Observation) {
    UniqueKeys(obs.request) && UniqueKeys(obs.response)
  }

  lemma StepKeepsEvidence(paths: Paths, obs: Observation)
    requires UniqueObservation(obs)
    ensures KeepsEvidence(paths, EnrichOne(paths, obs))
  {
    var target := TargetOf(paths, obs);
    if target.Some? {
      var t := target.value;
      var op := OperationAt(paths, t).value;
      var op' := EnrichOperation(op, t.verb, obs);
      OperationCovers(op, t.verb, obs);
      forall u ensures KeepsBodies(OperationAt(paths, u), OperationAt(EnrichOne(paths, obs), u)) {
        OperationAfterPut(paths, t, op', u);
      }
    }
  }

  /** The document holds the evidence of an observation. */
  ghost predicate HoldsEvidence(paths: Paths, t: Target, obs: Observation) {
    && (obs.response != Null ==> Covers(ResponseSchema(OperationAt(paths, t), TextLines.IntText(obs.status)),
        obs.response))
    && (obs.request != Null && t.verb in {"put", "post"} ==> Covers(RequestSchema(OperationAt(paths, t)), obs.request))
  }

  lemma StepHoldsEvidence(paths: Paths, obs: Observation)
    requires UniqueObservation(obs) && TargetOf(paths, obs).Some?
    ensures HoldsEvidence(EnrichOne(paths, obs), TargetOf(paths, obs).value, obs)
  {
    var t := TargetOf(paths, obs).value;
    var op := OperationAt(paths, t).value;
    OperationCovers(op, t.verb, obs);
    OperationAfterPut(paths, t, EnrichOperation(op, t.verb, obs), t);
  }

  lemma {:induction false} RunKeepsTargets(paths: Paths, observations: seq<Observation>, other: Observation)
    ensures TargetOf(EnrichAll(paths, observations).paths, other) == TargetOf(paths, other)
    ensures Keys(EnrichAll(paths, observations).paths) == Keys(paths)
  {
    if observations != [] {
      var front := observations[..|observations| - 1];
      RunKeepsTargets(paths, front, other);
      StepKeepsTargets(EnrichAll(paths, front).paths, observations[|observations| - 1], other);
    }
  }

  lemma {:induction false} RunHoldsEvidence(paths: Paths, observations: seq<Observation>)
    requires forall obs | obs in observations :: UniqueObservation(obs)
    ensures var final := EnrichAll(paths, observations).paths;
            && KeepsEvidence(paths, final)
            && forall obs | obs in observations && TargetOf(paths, obs).Some? ::
                HoldsEvidence(final, TargetOf(paths, obs).value, obs)
  {
    if observations != [] {
      var front, last := observations[..|observations| - 1], observations[|observations| - 1];
      assert observations == front + [last];
      RunHoldsEvidence(paths, front);
      var before := EnrichAll(paths, front).paths;
      var final := EnrichAll(paths, observations).paths;
      assert final == EnrichOne(before, last);
      StepKeepsEvidence(before, last);
      RunKeepsTargets(paths, front, last);
      if TargetOf(paths, last).Some? {
        StepHoldsEvidence(before, last);
      }
      forall obs | obs in observations && TargetOf(paths, obs).Some?
        ensures HoldsEvidence(final, TargetOf(paths, obs).value, obs)
      {
        if obs in front {
          assert HoldsEvidence(before, TargetOf(paths, obs).value, obs);
        }
      }
    }
  }

  // ----- validity -----

  lemma EnrichedOutline(op: Operation, verb: string, obs: Observation)
    requires op.responses.Some?
    ensures OutlineOf(EnrichOperation(op, verb, obs)) == OutlineOf(op)
  {
    EnrichedParameters(op, verb, obs);
    var a, b := op.parameters.GetOr([]), EnrichOperation(op, verb, obs).parameters.GetOr([]);
    forall p ensures (p in b && p.location == "path" && p.required) <==>
        (p in a && p.location == "path" && p.required) {
      if p in a {
        var i :| 0 <= i < |a| && a[i] == p;
        assert b[i] == p;
      } else if p in b {
        var i :| 0 <= i < |b| && b[i] == p;
        assert forall k :: 0 <= k < |a| ==> a[k] == b[k] && a[k] != p;
      }
    }
    assert PathParameters(a) == PathParameters(b);
  }

  /** Parameters added by one observation are optional, unique by location and
      lower-case name among all parameters of their operation, and are exactly the
      observed names that were not there. */
  lemma EnrichedParameters(op: Operation, verb: string, obs: Observation)
    ensures var before, after := op.parameters.GetOr([]), EnrichOperation(op, verb, obs).parameters.GetOr([]);
            && Extends(before, after) && HoldsNames(after, obs)
            && forall p | p in after :: p in before || WasObserved(p, obs)
  {
    var before := op.parameters.GetOr([]);
    var middle := AddNames(before, "query", obs.queryNames);
    var after := AddNames(middle, "header", obs.headers);
    AddNamesExtends(before, "query", obs.queryNames);
    AddNamesExtends(middle, "header", obs.headers);
    ExtendsTransitive(before, middle, after);
    AddNamesHolds(before, "query", obs.queryNames);
    AddNamesHolds(middle, "header", obs.headers);
    AddNamesSources(before, "query", obs.queryNames);
    AddNamesSources(middle, "header", obs.headers);
  }

  function ParametersAt(paths: Paths, t: Target): seq<Parameter> {
    match OperationAt(paths, t)
    case None => []
    case Some(op) => op.parameters.GetOr([])
  }

  lemma StepParameters(paths: Paths, obs: Observation, t: Target)
    ensures var before, after := ParametersAt(paths, t), ParametersAt(EnrichOne(paths, obs), t);
            && Extends(before, after)
            && (TargetOf(paths, obs) == Some(t) ==> HoldsNames(after, obs))
            && forall p | p in after :: p in before || (TargetOf(paths, obs) == Some(t) && WasObserved(p, obs))
  {
    var target := TargetOf(paths, obs);
    if target.Some? {
      var own := target.value;
      var op := OperationAt(paths, own).value;
      OperationAfterPut(paths, own, EnrichOperation(op, own.verb, obs), t);
      EnrichedParameters(op, own.verb, obs);
    }
  }

  lemma NamesStay(before: seq<Parameter>, after: seq<Parameter>, obs: Observation)
    requires HoldsNames(before, obs) && before <= after
    ensures HoldsNames(after, obs)
  {
    assert KeysOf(before) <= KeysOf(after);
  }

  lemma {:induction false} RunParameters(paths: Paths, observations: seq<Observation>, t: Target)
    ensures var before, after := ParametersAt(paths, t), ParametersAt(EnrichAll(paths, observations).paths, t);
            && Extends(before, after)
            && (forall obs | obs in observations && TargetOf(paths, obs) == Some(t) :: HoldsNames(after, obs))
            && (forall p | p in after :: p in before || ObservedIn(p, paths, observations, t))
  {
    if observations != [] {
      var front, last := observations[..|observations| - 1], observations[|observations| - 1];
      assert observations == front + [last];
      var middle := EnrichAll(paths, front).paths;
      var between, after := ParametersAt(middle, t), ParametersAt(EnrichOne(middle, last), t);
      assert EnrichAll(paths, observations).paths == EnrichOne(middle, last);
      RunParameters(paths, front, t);
      RunKeepsTargets(paths, front, last);
      StepParameters(middle, last, t);
      ExtendsTransitive(ParametersAt(paths, t), between, after);
      forall obs | obs in observations && TargetOf(paths, obs) == Some(t) ensures HoldsNames(after, obs) {
        if obs in front {
          NamesStay(between, after, obs);
        }
      }
      forall p | p in after ensures p in ParametersAt(paths, t) || ObservedIn(p, paths, observations, t) {
        if p in between && ObservedIn(p, paths, front, t) {
          var obs :| obs in front && TargetOf(paths, obs) == Some(t) && WasObserved(p, obs);
          assert obs in observations;
        }
      }
    }
  }

  ghost predicate ObservedIn(p: Parameter, paths: Paths, observations: seq<Observation>, t: Target) {
    exists obs :: obs in observations && TargetOf(paths, obs) == Some(t) && WasObserved(p, obs)
  }

  ghost predicate HaveResponses(paths: Paths) {
    forall t :: OperationAt(paths, t).Some? ==> OperationAt(paths, t).value.responses.Some?
  }

  /** Replacing an operation by one that validation cannot tell apart */
  lemma PutKeepsOutline(paths: Paths, t: Target, op: Operation)
    requires OperationAt(paths, t).Some? && OutlineOf(op) == OutlineOf(OperationAt(paths, t).value)
    ensures OutlineOfPaths(PutOperation(paths, t, op)) == OutlineOfPaths(paths)
  {
    var item := Get(paths, t.template).GetOr([]);
    assert Get(paths, t.template) == Some(item);
    MapPut(item, t.verb, op, OutlineOf);
    MapGet(item, t.verb, OutlineOf);
    PutSame(ItemOutline(item), t.verb, OutlineOf(op));
    var item' := Put(item, t.verb, op);
    MapPut(paths, t.template, item', ItemOutline);
    MapGet(paths, t.template, ItemOutline);
    PutSame(OutlineOfPaths(paths), t.template, ItemOutline(item));
  }

  lemma StepKeepsOutline(paths: Paths, obs: Observation)
    requires HaveResponses(paths)
    ensures OutlineOfPaths(EnrichOne(paths, obs)) == OutlineOfPaths(paths)
    ensures HaveResponses(EnrichOne(paths, obs))
  {
    var target := TargetOf(paths, obs);
    if target.Some? {
      var t := target.value;
      var op := OperationAt(paths, t).value;
      var op' := EnrichOperation(op, t.verb, obs);
      EnrichedOutline(op, t.verb, obs);
      PutKeepsOutline(paths, t, op');
      PutKeepsResponses(paths, t, op');
    }
  }

  lemma PutKeepsResponses(paths: Paths, t: Target, op: Operation)
    requires HaveResponses(paths) && op.responses.Some?
    ensures HaveResponses(PutOperation(paths, t, op))
  {
    forall u | OperationAt(PutOperation(paths, t, op), u).Some?
      ensures OperationAt(PutOperation(paths, t, op), u).value.responses.Some?
    {
      OperationAfterPut(paths, t, op, u);
    }
  }

  lemma {:induction false} RunKeepsOutline(paths: Paths, observations: seq<Observation>)
    requires HaveResponses(paths)
    ensures OutlineOfPaths(EnrichAll(paths, observations).paths) == OutlineOfPaths(paths)
    ensures HaveResponses(EnrichAll(paths, observations).paths)
  {
    if observations != [] {
      var front := observations[..|observations| - 1];
      RunKeepsOutline(paths, front);
      StepKeepsOutline(EnrichAll(paths, front).paths, observations[|observations| - 1]);
    }
  }

  /** A valid document stays valid. */
  lemma EnrichmentKeepsValidity(openapi: string, paths: Paths, observations: seq<Observation>)
    requires Valid(openapi, paths)
    ensures Valid(openapi, EnrichAll(paths, observations).paths)
  {
    RunKeepsOutline(paths, observations);
  }

  lemma {:induction false} RunCounters(paths: Paths, observations: seq<Observation>)
    ensures var e := EnrichAll(paths, observations);
            && |e.operations| <= e.used <= |observations|
            && (forall t :: t in e.operations <==> exists obs :: obs in observations && TargetOf(paths, obs) == Some(t))
  {
    if observations != [] {
      var front, last := observations[..|observations| - 1], observations[|observations| - 1];
      assert observations == front + [last];
      RunCounters(paths, front);
      RunKeepsTargets(paths, front, last);
      var before, e := EnrichAll(paths, front), EnrichAll(paths, observations);
      assert forall obs :: obs in observations <==> obs in front || obs == last;
      forall t ensures t in e.operations <==> exists obs :: obs in observations && TargetOf(paths, obs) == Some(t) {
        if t in before.operations {
          var obs :| obs in front && TargetOf(paths, obs) == Some(t);
          assert obs in observations;
        }
        if TargetOf(paths, last) == Some(t) {
          assert last in observations;
        }
      }
      if TargetOf(paths, last).Some? {
        var t := TargetOf(paths, last).value;
        assert |before.operations + {t}| <= |before.operations| + 1;
      }
    }
  }
}
