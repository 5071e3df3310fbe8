/** What `enrich_with_observations` of `scripts/generate_openapi.py` does to a
    document as a whole, in terms of which observations belong to which operation. */
module EnrichmentRuns {
  import opened Options
  import opened OrderedDicts
  import opened Json
  import opened Schemas
  import opened OpenApiDocument
  import opened Enrichment
  import PathTemplates
  import SchemaMerge
  import TextLines

  // ----- which operation an observation belongs to -----

  /** The text in lower case: capitals of ASCII replaced, everything else kept */
  ghost predicate IsLowered(text: string, low: string) {
    && |low| == |text|
    && forall i :: 0 <= i < |low| ==>
         if 'A' <= text[i] <= 'Z' then low[i] as int - 'a' as int == text[i] as int - 'A' as int else low[i] == text[i]
  }

  lemma LowerIs(text: string, low: string)
    ensures low == Lower(text) <==> IsLowered(text, low)
  {
  }

  /** The best template that matches the path, which is not empty, and the verb in
      lower case, which that path has */
  ghost predicate BelongsTo(paths: Paths, obs: Observation, t: Target) {
    && PathTemplates.IsBest(Keys(paths), obs.path, t.template) && t.template != ""
    && IsLowered(obs.verb, t.verb)
    && OperationAt(paths, t).Some?
  }

  /** The look-up of the loop finds the operation an observation belongs to. */
  lemma TargetIs(paths: Paths, obs: Observation, t: Target)
    ensures TargetOf(paths, obs) == Some(t) <==> BelongsTo(paths, obs, t)
  {
    LowerIs(obs.verb, t.verb);
    var best := PathTemplates.MatchPath(Keys(paths), obs.path);
    if PathTemplates.IsBest(Keys(paths), obs.path, t.template) {
      PathTemplates.BestIsUnique(Keys(paths), obs.path, best.value, t.template);
    }
  }

  /** The observation is used. */
  ghost predicate IsUsed(paths: Paths, obs: Observation) {
    exists t :: BelongsTo(paths, obs, t)
  }

  lemma UsedIs(paths: Paths, obs: Observation)
    ensures IsUsed(paths, obs) <==> TargetOf(paths, obs).Some?
  {
    if TargetOf(paths, obs).Some? {
      TargetIs(paths, obs, TargetOf(paths, obs).value);
    }
    if t :| BelongsTo(paths, obs, t) {
      TargetIs(paths, obs, t);
    }
  }

  /** Texts that differ in the case of letters only */
  ghost predicate SameButCase(a: string, b: string) {
    exists low :: IsLowered(a, low) && IsLowered(b, low)
  }

  ghost predicate AlikeButCase(a: Observation, b: Observation) {
    b == a.(verb := b.verb) && SameButCase(a.verb, b.verb)
  }

  /** Observations whose verbs differ in letter case enrich a document alike. */
  lemma {:induction false} CaseIsIgnored(paths: Paths, a: seq<Observation>, b: seq<Observation>)
    requires |a| == |b| && forall i :: 0 <= i < |a| ==> AlikeButCase(a[i], b[i])
    ensures EnrichAll(paths, a) == EnrichAll(paths, b)
  {
    if a != [] {
      var n := |a| - 1;
      CaseIsIgnored(paths, a[..n], b[..n]);
      assert AlikeButCase(a[n], b[n]);
      StepIgnoresCase(EnrichAll(paths, a[..n]).paths, a[n], b[n]);
    }
  }

  lemma StepIgnoresCase(paths: Paths, a: Observation, b: Observation)
    requires AlikeButCase(a, b)
    ensures TargetOf(paths, a) == TargetOf(paths, b) && EnrichOne(paths, a) == EnrichOne(paths, b)
  {
    var low :| IsLowered(a.verb, low) && IsLowered(b.verb, low);
    LowerIs(a.verb, low);
    LowerIs(b.verb, low);
  }

  // ----- evidence -----

  /** Enrichment loses no evidence: after the whole loop every observation is covered
      at the operation it belongs to and its own status, and so is everything that
      was covered before, whatever the number and the order of the observations. */
  lemma NoEvidenceIsLost(paths: Paths, observations: seq<Observation>)
    requires forall obs | obs in observations :: UniqueObservation(obs)
    ensures var final := EnrichAll(paths, observations).paths;
            && KeepsEvidence(paths, final)
            && forall obs, t | obs in observations && BelongsTo(paths, obs, t) :: HoldsEvidence(final, t, obs)
  {
    RunHoldsEvidence(paths, observations);
    forall obs, t | obs in observations && BelongsTo(paths, obs, t)
      ensures HoldsEvidence(EnrichAll(paths, observations).paths, t, obs)
    {
      TargetIs(paths, obs, t);
    }
  }

  // ----- parameters -----

  /** The headers that are never recorded, by lower-case name */
  predicate IsIgnoredName(low: string) {
    || low == "accept" || low == "accept-encoding" || low == "authorization" || low == "connection"
    || low == "content-length" || low == "content-type" || low == "cookie" || low == "host" || low == "origin"
    || low == "referer" || low == "user-agent"
    || (|low| >= 4 && low[0] == 's' && low[1] == 'e' && low[2] == 'c' && low[3] == '-')
  }

  lemma SkippedIs(name: string, low: string)
    requires IsLowered(name, low)
    ensures Skipped("header", name) <==> IsIgnoredName(low)
  {
    LowerIs(name, low);
    assert "sec-" <= low <==> |low| >= 4 && low[0] == 's' && low[1] == 'e' && low[2] == 'c' && low[3] == '-';
  }

  /** Some parameter stands at the location under the name, whatever its case. */
  ghost predicate HasParameter(parameters: seq<Parameter>, location: string, name: string) {
    exists p :: p in parameters && p.location == location && SameButCase(p.name, name)
  }

  lemma HasParameterIs(parameters: seq<Parameter>, location: string, name: string)
    ensures HasParameter(parameters, location, name) <==> Key(location, Lower(name)) in KeysOf(parameters)
  {
    LowerIs(name, Lower(name));
    if HasParameter(parameters, location, name) {
      var p :| p in parameters && p.location == location && SameButCase(p.name, name);
      var low :| IsLowered(p.name, low) && IsLowered(name, low);
      LowerIs(p.name, low);
      LowerIs(name, low);
      assert KeyOf(p) == Key(location, Lower(name));
    }
    if Key(location, Lower(name)) in KeysOf(parameters) {
      var p :| p in parameters && KeyOf(p) == Key(location, Lower(name));
      LowerIs(p.name, Lower(name));
      assert SameButCase(p.name, name);
    }
  }

  /** Query names and headers that are not ignored are parameters. */
  ghost predicate NamesAreParameters(parameters: seq<Parameter>, obs: Observation) {
    && (forall name | name in obs.queryNames :: HasParameter(parameters, "query", name))
    && (forall name, low | name in obs.headers && IsLowered(name, low) && !IsIgnoredName(low) ::
          HasParameter(parameters, "header", name))
  }

  /** The parameter comes from the query or the headers of the observation. */
  ghost predicate ComesFrom(p: Parameter, obs: Observation) {
    || (p.location == "query" && p.name in obs.queryNames)
    || (p.location == "header" && p.name in obs.headers && exists low :: IsLowered(p.name, low) && !IsIgnoredName(low))
  }

  /** What the whole loop does to the parameters of an operation: the old ones stay in
      front; the added ones are optional, and unique by location and name without
      case among all of them; the names of every observation that belongs to the
      operation are there; and nothing is added that was not observed. */
  lemma ParametersAfterAll(paths: Paths, observations: seq<Observation>, t: Target)
    ensures var before, after := ParametersAt(paths, t), ParametersAt(EnrichAll(paths, observations).paths, t);
            && before <= after
            && (forall i :: |before| <= i < |after| ==> !after[i].required && after[i].observed)
            && (forall i, j :: 0 <= i < j < |after| && |before| <= j ==>
                  !(after[i].location == after[j].location && SameButCase(after[i].name, after[j].name)))
            && (forall obs | obs in observations && BelongsTo(paths, obs, t) :: NamesAreParameters(after, obs))
            && (forall p | p in after ::
                  || p in before
                  || exists obs :: obs in observations && BelongsTo(paths, obs, t) && ComesFrom(p, obs))
  {
    var before, after := ParametersAt(paths, t), ParametersAt(EnrichAll(paths, observations).paths, t);
    RunParameters(paths, observations, t);
    ExtendsIs(before, after);
    forall obs | obs in observations && BelongsTo(paths, obs, t) ensures NamesAreParameters(after, obs) {
      TargetIs(paths, obs, t);
      NamesAre(after, obs);
    }
    forall p | p in after && p !in before
      ensures exists obs :: obs in observations && BelongsTo(paths, obs, t) && ComesFrom(p, obs)
    {
      var obs :| obs in observations && TargetOf(paths, obs) == Some(t) && WasObserved(p, obs);
      TargetIs(paths, obs, t);
      ComesFromIs(p, obs);
    }
  }

  lemma ExtendsIs(before: seq<Parameter>, after: seq<Parameter>)
    requires Extends(before, after)
    ensures forall i, j :: 0 <= i < j < |after| && |before| <= j ==>
              !(after[i].location == after[j].location && SameButCase(after[i].name, after[j].name))
  {
    forall i, j | 0 <= i < j < |after| && |before| <= j
      ensures !(after[i].location == after[j].location && SameButCase(after[i].name, after[j].name))
    {
      forall low
        ensures !(after[i].location == after[j].location
                  && IsLowered(after[i].name, low) && IsLowered(after[j].name, low))
      {
        LowerIs(after[i].name, low);
        LowerIs(after[j].name, low);
      }
    }
  }

  lemma NamesAre(parameters: seq<Parameter>, obs: Observation)
    requires HoldsNames(parameters, obs)
    ensures NamesAreParameters(parameters, obs)
  {
    forall name | name in obs.queryNames ensures HasParameter(parameters, "query", name) {
      HasParameterIs(parameters, "query", name);
    }
    forall name, low | name in obs.headers && IsLowered(name, low) && !IsIgnoredName(low)
      ensures HasParameter(parameters, "header", name)
    {
      SkippedIs(name, low);
      HasParameterIs(parameters, "header", name);
    }
  }

  lemma ComesFromIs(p: Parameter, obs: Observation)
    requires WasObserved(p, obs)
    ensures ComesFrom(p, obs)
  {
    LowerIs(p.name, Lower(p.name));
    SkippedIs(p.name, Lower(p.name));
  }

  // ----- statuses and responses -----

  function StatusesAt(paths: Paths, t: Target): seq<int> {
    match OperationAt(paths, t)
    case None => []
    case Some(op) => op.statuses.GetOr([])
  }

  function ResponsesAt(paths: Paths, t: Target): Dict<Body> {
    match OperationAt(paths, t)
    case None => []
    case Some(op) => op.responses.GetOr([])
  }

  /** Some observation of the operation had this status. */
  ghost predicate SeenStatus(paths: Paths, observations: seq<Observation>, t: Target, status: int) {
    exists obs :: obs in observations && BelongsTo(paths, obs, t) && obs.status == status
  }

  lemma StepStatuses(paths: Paths, obs: Observation, t: Target)
    ensures var before, after := StatusesAt(paths, t), StatusesAt(EnrichOne(paths, obs), t);
            if TargetOf(paths, obs) == Some(t)
            then Ascending(after) && forall y :: y in after <==> y in before || y == obs.status
            else after == before
    ensures forall code :: Has(ResponsesAt(EnrichOne(paths, obs), t), code) <==>
              || Has(ResponsesAt(paths, t), code)
              || (TargetOf(paths, obs) == Some(t) && code == TextLines.IntText(obs.status))
  {
    var target := TargetOf(paths, obs);
    if target.Some? {
      var own := target.value;
      var op := OperationAt(paths, own).value;
      OperationAfterPut(paths, own, EnrichOperation(op, own.verb, obs), t);
      StatusesAreSorted(op.statuses.GetOr([]), obs.status);
      EnrichedResponses(op, own.verb, obs);
    }
  }

  lemma EnrichedResponses(op: Operation, verb: string, obs: Observation)
    ensures forall code :: Has(EnrichOperation(op, verb, obs).responses.GetOr([]), code) <==>
              Has(op.responses.GetOr([]), code) || code == TextLines.IntText(obs.status)
  {
    var own, responses := TextLines.IntText(obs.status), op.responses.GetOr([]);
    var body := Get(responses, own).GetOr(Body(None));
    forall code
      ensures Has(EnrichOperation(op, verb, obs).responses.GetOr([]), code) <==> Has(responses, code) || code == own
    {
      GetPut(responses, own, if obs.response == Null then body else ObserveBody(body, obs.response), code);
    }
  }

  /** After the whole loop the statuses of an operation are its old ones and those of
      its observations, in ascending order if there were any, and each of them has an
      entry among the responses, with or without a body. */
  lemma {:induction false} StatusesAfterAll(paths: Paths, observations: seq<Observation>, t: Target)
    ensures var final := EnrichAll(paths, observations).paths;
            && (forall y :: y in StatusesAt(final, t) <==>
                  y in StatusesAt(paths, t) || SeenStatus(paths, observations, t, y))
            && ((exists y :: SeenStatus(paths, observations, t, y)) ==> Ascending(StatusesAt(final, t)))
            && (forall code :: Has(ResponsesAt(final, t), code) <==>
                  Has(ResponsesAt(paths, t), code)
                  || exists y :: SeenStatus(paths, observations, t, y) && code == TextLines.IntText(y))
  {
    if observations != [] {
      var front, last := observations[..|observations| - 1], observations[|observations| - 1];
      assert observations == front + [last];
      StatusesAfterAll(paths, front, t);
      RunKeepsTargets(paths, front, last);
      var middle := EnrichAll(paths, front).paths;
      assert EnrichAll(paths, observations).paths == EnrichOne(middle, last);
      StepStatuses(middle, last, t);
      SeenAppend(paths, front, last, t);
    }
  }

  lemma SeenAppend(paths: Paths, front: seq<Observation>, last: Observation, t: Target)
    ensures forall y :: SeenStatus(paths, front + [last], t, y) <==>
              SeenStatus(paths, front, t, y) || (TargetOf(paths, last) == Some(t) && last.status == y)
  {
    TargetIs(paths, last, t);
    forall y
      ensures SeenStatus(paths, front + [last], t, y) <==>
              SeenStatus(paths, front, t, y) || (TargetOf(paths, last) == Some(t) && last.status == y)
    {
      if SeenStatus(paths, front, t, y) {
        var obs :| obs in front && BelongsTo(paths, obs, t) && obs.status == y;
        assert obs in front + [last];
      }
      assert last in front + [last];
    }
  }

  // ----- what an observation does to an operation -----

  /** The JSON content of the body now has the value merged into its schema, which is
      marked as observed; other kinds of content are as before. */
  ghost predicate IsObserved(before: Body, after: Body, v: Json) {
    && after.content.Some?
    && (forall kind | kind != "application/json" ::
          Get(after.content.value, kind) == Get(before.content.GetOr([]), kind))
    && var schema := SchemaMerge.Observe(BodySchema(before), v);
    && Get(after.content.value, "application/json") == Some(Media(Some(schema)))
    && Find(schema.entries, Observed) == Some(Observed)
  }

  lemma ObserveBodyIs(body: Body, v: Json)
    ensures IsObserved(body, ObserveBody(body, v), v)
  {
    var content, schema := body.content.GetOr([]), SchemaMerge.Observe(BodySchema(body), v);
    forall kind
      ensures Get(ObserveBody(body, v).content.value, kind) ==
              if kind == JSON_TYPE then Some(Media(Some(schema))) else Get(content, kind)
    {
      GetPut(content, JSON_TYPE, Media(Some(schema)), kind);
    }
    FindSet(SchemaMerge.Merge(BodySchema(body), SchemaMerge.Evidence(v)).entries, Observed, Observed);
  }

  /** What else an observation does to its operation: a request is learnt for put and
      post only, a response at its own status only, and what was not observed stays. */
  lemma EnrichedBodies(op: Operation, verb: string, obs: Observation)
    ensures var after := EnrichOperation(op, verb, obs);
            && after.operationId == op.operationId
            && (if obs.request == Null || (verb != "put" && verb != "post") then after.requestBody == op.requestBody
                else after.requestBody.Some?
                     && IsObserved(op.requestBody.GetOr(Body(None)), after.requestBody.value, obs.request))
    ensures var own, before := TextLines.IntText(obs.status), op.responses.GetOr([]);
            var after := EnrichOperation(op, verb, obs).responses.GetOr([]);
            && (forall code | code != own :: Get(after, code) == Get(before, code))
            && Get(after, own).Some?
            && var body := Get(before, own).GetOr(Body(None));
            && (if obs.response == Null then Get(after, own) == Some(body)
                else IsObserved(body, Get(after, own).value, obs.response))
  {
    RequestIsObserved(op, verb, obs);
    ResponsesAre(op, verb, obs);
  }

  lemma RequestIsObserved(op: Operation, verb: string, obs: Observation)
    ensures var after := EnrichOperation(op, verb, obs);
            && after.operationId == op.operationId
            && (if obs.request == Null || (verb != "put" && verb != "post") then after.requestBody == op.requestBody
                else after.requestBody.Some?
                     && IsObserved(op.requestBody.GetOr(Body(None)), after.requestBody.value, obs.request))
  {
    ObserveBodyIs(op.requestBody.GetOr(Body(None)), obs.request);
  }

  lemma ResponsesAre(op: Operation, verb: string, obs: Observation)
    ensures var own, before := TextLines.IntText(obs.status), op.responses.GetOr([]);
            var after := EnrichOperation(op, verb, obs).responses.GetOr([]);
            && (forall code | code != own :: Get(after, code) == Get(before, code))
            && Get(after, own).Some?
            && var body := Get(before, own).GetOr(Body(None));
            && (if obs.response == Null then Get(after, own) == Some(body)
                else IsObserved(body, Get(after, own).value, obs.response))
  {
    var own, before := TextLines.IntText(obs.status), op.responses.GetOr([]);
    var body := Get(before, own).GetOr(Body(None));
    var body' := if obs.response == Null then body else ObserveBody(body, obs.response);
    forall code ensures Get(Put(before, own, body'), code) == if code == own then Some(body') else Get(before, code) {
      GetPut(before, own, body', code);
    }
    ObserveBodyIs(body, obs.response);
  }

  /** Operations without observations stay as they are, and none appears or goes. */
  lemma {:induction false} UntouchedStays(paths: Paths, observations: seq<Observation>, t: Target)
    ensures var final := EnrichAll(paths, observations).paths;
            && (OperationAt(final, t).Some? <==> OperationAt(paths, t).Some?)
            && ((forall obs | obs in observations :: !BelongsTo(paths, obs, t)) ==>
                  OperationAt(final, t) == OperationAt(paths, t))
  {
    if observations != [] {
      var front, last := observations[..|observations| - 1], observations[|observations| - 1];
      assert observations == front + [last];
      UntouchedStays(paths, front, t);
      RunKeepsTargets(paths, front, last);
      TargetIs(paths, last, t);
      var middle := EnrichAll(paths, front).paths;
      var own := TargetOf(middle, last);
      if own.Some? {
        var op := OperationAt(middle, own.value).value;
        OperationAfterPut(middle, own.value, EnrichOperation(op, own.value.verb, last), t);
      }
    }
  }

  // ----- counters -----

  ghost function CountUsed(paths: Paths, observations: seq<Observation>): nat {
    if observations == [] then 0
    else
      var last := observations[|observations| - 1];
      CountUsed(paths, observations[..|observations| - 1]) + if IsUsed(paths, last) then 1 else 0
  }

  /** The counters: every used observation is counted once, and the observed
      operations are those that some observation belongs to. */
  lemma CountersAreExact(paths: Paths, observations: seq<Observation>)
    ensures var e := EnrichAll(paths, observations);
            && e.used == CountUsed(paths, observations)
            && |e.operations| <= e.used <= |observations|
            && (forall t :: t in e.operations <==> exists obs :: obs in observations && BelongsTo(paths, obs, t))
  {
    RunCounters(paths, observations);
    UsedIsCounted(paths, observations);
    var e := EnrichAll(paths, observations);
    forall t ensures t in e.operations <==> exists obs :: obs in observations && BelongsTo(paths, obs, t) {
      forall obs ensures TargetOf(paths, obs) == Some(t) <==> BelongsTo(paths, obs, t) {
        TargetIs(paths, obs, t);
      }
    }
  }

  lemma {:induction false} UsedIsCounted(paths: Paths, observations: seq<Observation>)
    ensures EnrichAll(paths, observations).used == CountUsed(paths, observations)
  {
    if observations != [] {
      var front := observations[..|observations| - 1];
      UsedIsCounted(paths, front);
      RunKeepsTargets(paths, front, observations[|observations| - 1]);
      UsedIs(paths, observations[|observations| - 1]);
    }
  }
}
