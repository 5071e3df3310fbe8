/** `ApiClient::execute` of `src/services/api_client.rs`: limiter, breaker and
    retry loop composed. */
module ApiClient {
  import opened RetryLoop
  import opened Unsigned32
  import L = RateLimiter
  import B = CircuitBreaker

  datatype Config = Config(limiter: L.Config, breaker: B.Config, retryAttempts: nat)
  {
    predicate Valid() { retryAttempts < U32_SIZE }
  }

  // ----- one client, any number of calls at once -----

  datatype Phase = Granted | Abandoned | Rejected | Sending | Done

  /** An `execute` that the limiter granted */
  datatype Call = Call(grantedAt: nat, phase: Phase, sends: nat, records: nat)

  /** `events` are the breaker's critical sections so far. */
  datatype Client = Client(limiter: L.Run, breaker: B.Inner, events: seq<B.Event>, calls: seq<Call>)

  const FRESH := Client(L.Run([], []), B.INITIAL, [], [])

  /** What a call does next; steps of different calls interleave freely. */
  datatype Step =
    | Acquire(now: nat)
    | Abandon(i: nat)
    | Check(i: nat, now: nat)
    | Send(i: nat)
    | Complete(i: nat, ok: bool, now: nat)

  predicate In(c: Client, i: nat, phase: Phase) {
    i < |c.calls| && c.calls[i].phase == phase
  }

  function Record(config: Config, c: Client, e: B.Event, i: nat, call: Call): Client
    requires i < |c.calls|
  {
    c.(breaker := B.Step(config.breaker, c.breaker, e), events := c.events + [e], calls := c.calls[i := call])
  }

  /** A step that is not possible leaves the client as it is. */
  function Apply(config: Config, c: Client, step: Step): Client {
    match step
    case Acquire(now) =>
      var limiter := L.Attempt(config.limiter, c.limiter, now);
      c.(limiter := limiter,
         calls := if L.Grants(config.limiter, c.limiter.timestamps, now) then c.calls + [Call(now, Granted, 0, 0)]
           else c.calls)
    case Abandon(i) =>
      if In(c, i, Granted) then c.(calls := c.calls[i := c.calls[i].(phase := Abandoned)]) else c
    case Check(i, now) =>
      if In(c, i, Granted) then
        var phase := if B.Rejects(config.breaker, c.breaker, now) then Rejected else Sending;
        Record(config, c, B.Started(now), i, c.calls[i].(phase := phase))
      else c
    case Send(i) =>
      if In(c, i, Sending) && StillTrying(config.retryAttempts, c.calls[i].sends)
      then c.(calls := c.calls[i := c.calls[i].(sends := c.calls[i].sends + 1)])
      else c
    case Complete(i, ok, now) =>
      if In(c, i, Sending) then
        Record(config, c, if ok then B.Succeeded(now) else B.Failed(now), i,
               c.calls[i].(phase := Done, records := c.calls[i].records + 1))
      else c
  }

  function After(config: Config, steps: seq<Step>): Client {
    if steps == [] then FRESH else Apply(config, After(config, steps[..|steps| - 1]), steps[|steps| - 1])
  }

  /** The limiter's clock readings, in lock order */
  function Readings(steps: seq<Step>): seq<nat> {
    if steps == [] then []
    else Readings(steps[..|steps| - 1]) + if steps[|steps| - 1].Acquire? then [steps[|steps| - 1].now] else []
  }

  // ----- invariants -----

  ghost predicate CallOk(config: Config, call: Call) {
    && (call.sends > 0 ==> StillTrying(config.retryAttempts, call.sends - 1))
    && call.records == (if call.phase == Done then 1 else 0)
    && (call.phase in {Granted, Abandoned, Rejected} ==> call.sends == 0)
  }

  ghost predicate Consistent(config: Config, c: Client) {
    && (forall call | call in c.calls :: CallOk(config, call))
    && |c.calls| == |c.limiter.granted|
    && (forall i :: 0 <= i < |c.calls| ==> c.calls[i].grantedAt == c.limiter.granted[i])
    && c.breaker == B.After(config.breaker, c.events)
    && |B.Completions(c.events)| == Records(c.calls)
  }

  function Records(calls: seq<Call>): nat {
    if calls == [] then 0 else Records(calls[..|calls| - 1]) + calls[|calls| - 1].records
  }

  lemma {:induction false} RecordsUpdate(calls: seq<Call>, i: nat, call: Call)
    requires i < |calls|
    ensures Records(calls[i := call]) == Records(calls) - calls[i].records + call.records
  {
    var updated := calls[i := call];
    var n := |calls| - 1;
    if i < n {
      assert updated[..n] == calls[..n][i := call];
      RecordsUpdate(calls[..n], i, call);
    } else {
      assert updated[..n] == calls[..n];
    }
  }

  lemma UpdateConsistent(config: Config, c: Client, i: nat, call: Call)
    requires Consistent(config, c) && i < |c.calls|
    requires CallOk(config, call) && call.grantedAt == c.calls[i].grantedAt && call.records == c.calls[i].records
    ensures Consistent(config, c.(calls := c.calls[i := call]))
  {
    RecordsUpdate(c.calls, i, call);
  }

  lemma RecordConsistent(config: Config, c: Client, e: B.Event, i: nat, call: Call)
    requires Consistent(config, c) && i < |c.calls|
    requires CallOk(config, call) && call.grantedAt == c.calls[i].grantedAt
    requires call.records == c.calls[i].records + if e.Started? then 0 else 1
    ensures Consistent(config, Record(config, c, e, i, call))
  {
    RecordsUpdate(c.calls, i, call);
    B.CompletionsAppend(c.events, e);
    B.AfterAppend(config.breaker, c.events, e);
  }

  lemma GrantConsistent(config: Config, c: Client, now: nat)
    requires Consistent(config, c)
    ensures Consistent(config, Apply(config, c, Acquire(now)))
  {
    var calls := c.calls + [Call(now, Granted, 0, 0)];
    assert calls[..|c.calls|] == c.calls;
  }

  lemma StepConsistent(config: Config, c: Client, step: Step)
    requires Consistent(config, c)
    ensures Consistent(config, Apply(config, c, step))
  {
    if !step.Acquire? && step.i < |c.calls| {
      assert c.calls[step.i] in c.calls;
    }
    match step
    case Acquire(now) =>
      GrantConsistent(config, c, now);
    case Abandon(i) =>
      if In(c, i, Granted) {
        UpdateConsistent(config, c, i, c.calls[i].(phase := Abandoned));
      }
    case Check(i, now) =>
      if In(c, i, Granted) {
        var phase := if B.Rejects(config.breaker, c.breaker, now) then Rejected else Sending;
        RecordConsistent(config, c, B.Started(now), i, c.calls[i].(phase := phase));
      }
    case Send(i) =>
      if In(c, i, Sending) && StillTrying(config.retryAttempts, c.calls[i].sends) {
        UpdateConsistent(config, c, i, c.calls[i].(sends := c.calls[i].sends + 1));
      }
    case Complete(i, ok, now) =>
      if In(c, i, Sending) {
        var e := if ok then B.Succeeded(now) else B.Failed(now);
        RecordConsistent(config, c, e, i, c.calls[i].(phase := Done, records := c.calls[i].records + 1));
      }
  }

  /** On every interleaving: a call sends no more often than the retry loop does,
      and not at all unless the breaker let it through, the breaker's history holds
      exactly one outcome for each completed call and none for the others, and the
      limiter and the breaker are the machines of their own modules. */
  lemma {:induction false} AlwaysConsistent(config: Config, steps: seq<Step>)
    ensures Consistent(config, After(config, steps))
    ensures After(config, steps).limiter == L.After(config.limiter, Readings(steps))
  {
    if steps != [] {
      var front, last := steps[..|steps| - 1], steps[|steps| - 1];
      AlwaysConsistent(config, front);
      StepConsistent(config, After(config, front), last);
      if last.Acquire? {
        assert Readings(steps)[..|Readings(front)|] == Readings(front);
      } else {
        assert Readings(steps) == Readings(front);
      }
    }
  }

  // ----- throughput -----

  /** The sends of all calls granted in `[a, b]` */
  function SendsBetween(calls: seq<Call>, a: int, b: int): nat {
    if calls == [] then 0
    else
      var last := calls[|calls| - 1];
      SendsBetween(calls[..|calls| - 1], a, b) + if a <= last.grantedAt <= b then last.sends else 0
  }

  lemma {:induction false} SendsPerGrant(calls: seq<Call>, granted: seq<nat>, most: nat, a: int, b: int)
    requires |calls| == |granted| && forall i :: 0 <= i < |calls| ==>
        calls[i].grantedAt == granted[i] && calls[i].sends <= most
    ensures SendsBetween(calls, a, b) <= L.Between(granted, a, b) * most
  {
    if calls != [] {
      var n := |calls| - 1;
      SendsPerGrant(calls[..n], granted[..n], most, a, b);
      var k := L.Between(granted[..n], a, b);
      assert (k + 1) * most == k * most + most;
    }
  }

  lemma ProductGrows(k: nat, n: nat, most: nat)
    requires k <= n
    ensures k * most <= n * most
  {
  }

  /** The most grants an interval can hold */
  function GrantBound(config: L.Config, a: int, b: int): nat
    requires config.window > 0 && a <= b
  {
    config.limit * ((b - a) / config.window + 1)
  }

  /** The calls granted in `[a, b]` send at most `limit` times the number of windows
      that cover the interval, times `retryAttempts + 1`. */
  lemma ThroughputBound(config: Config, steps: seq<Step>, a: int, b: int)
    requires config.retryAttempts < U32_SIZE - 1 && config.limiter.window > 0
    requires L.Monotone(Readings(steps)) && a <= b
    ensures SendsBetween(After(config, steps).calls, a, b) <=
            config.limiter.limit * ((b - a) / config.limiter.window + 1) * (config.retryAttempts + 1)
  {
    var c := After(config, steps);
    AlwaysConsistent(config, steps);
    L.GrantsAreBounded(config.limiter, Readings(steps));
    GrantsFit(config.limiter, c.limiter.granted, a, b);
    forall i | 0 <= i < |c.calls| ensures c.calls[i].sends <= config.retryAttempts + 1 {
      SendsOfCall(config, c, i);
    }
    SendsFit(c.calls, c.limiter.granted, config.retryAttempts + 1, a, b, GrantBound(config.limiter, a, b));
  }

  lemma SendsOfCall(config: Config, c: Client, i: nat)
    requires Consistent(config, c) && i < |c.calls| && config.retryAttempts < U32_SIZE - 1
    ensures c.calls[i].sends <= config.retryAttempts + 1
  {
    assert c.calls[i] in c.calls;
    if c.calls[i].sends > 0 {
      StillTryingIs(config.retryAttempts, c.calls[i].sends - 1);
    }
  }

  lemma SendsFit(calls: seq<Call>, granted: seq<nat>, most: nat, a: int, b: int, bound: nat)
    requires |calls| == |granted| && forall i :: 0 <= i < |calls| ==>
        calls[i].grantedAt == granted[i] && calls[i].sends <= most
    requires L.Between(granted, a, b) <= bound
    ensures SendsBetween(calls, a, b) <= bound * most
  {
    SendsPerGrant(calls, granted, most, a, b);
    ProductGrows(L.Between(granted, a, b), bound, most);
  }

  lemma GrantsFit(config: L.Config, granted: seq<nat>, a: int, b: int)
    requires config.window > 0 && a <= b && L.Bounded(config, granted)
    ensures L.Between(granted, a, b) <= GrantBound(config, a, b)
  {
    L.IntervalBound(config, granted, a, b);
  }

  // ----- retries without end -----

  /** A run from a given state on */
  function RunFrom(config: Config, c: Client, steps: seq<Step>): Client {
    if steps == [] then c else Apply(config, RunFrom(config, c, steps[..|steps| - 1]), steps[|steps| - 1])
  }

  lemma {:induction false} AfterIsRun(config: Config, steps: seq<Step>)
    ensures After(config, steps) == RunFrom(config, FRESH, steps)
  {
    if steps != [] {
      AfterIsRun(config, steps[..|steps| - 1]);
    }
  }

  lemma RunAppend(config: Config, c: Client, steps: seq<Step>, step: Step)
    ensures RunFrom(config, c, steps + [step]) == Apply(config, RunFrom(config, c, steps), step)
  {
    assert (steps + [step])[..|steps|] == steps;
  }

  /** `steps` and then `n` sends of call `i` */
  function ThenSends(steps: seq<Step>, i: nat, n: nat): seq<Step> {
    if n == 0 then steps else ThenSends(steps, i, n - 1) + [Send(i)]
  }

  lemma {:induction false} SendsRun(config: Config, c: Client, steps: seq<Step>, i: nat, n: nat)
    requires n > 0 ==> StillTrying(config.retryAttempts, n - 1)
    requires var d := RunFrom(config, c, steps); n > 0 ==> In(d, i, Sending) && d.calls[i].sends == 0
    ensures var d := RunFrom(config, c, steps);
            RunFrom(config, c, ThenSends(steps, i, n)) == if n == 0 then d else WithSends(d, i, n)
  {
    if n > 0 {
      SendsRun(config, c, steps, i, n - 1);
      RunAppend(config, c, ThenSends(steps, i, n - 1), Send(i));
      SendOnce(config, RunFrom(config, c, steps), i, n - 1);
    }
  }

  lemma SendOnce(config: Config, d: Client, i: nat, n: nat)
    requires In(d, i, Sending) && d.calls[i].sends == 0 && StillTrying(config.retryAttempts, n)
    ensures Apply(config, WithSends(d, i, n), Send(i)) == WithSends(d, i, n + 1)
    ensures WithSends(d, i, 0) == d
  {
    assert d.calls[i := d.calls[i]] == d.calls;
    assert d.calls[i := d.calls[i].(sends := n)][i := d.calls[i].(sends := n + 1)] ==
        d.calls[i := d.calls[i].(sends := n + 1)];
  }

  function WithSends(d: Client, i: nat, n: nat): Client
    requires i < |d.calls|
  {
    d.(calls := d.calls[i := d.calls[i].(sends := n)])
  }

  function FirstCall(now: nat): seq<Step> {
    [Acquire(now)] + [Check(0, now)]
  }

  lemma FirstCallRuns(config: Config, now: nat)
    requires config.limiter.limit > 0
    ensures RunFrom(config, FRESH, FirstCall(now)).calls == [Call(now, Sending, 0, 0)]
    ensures Readings(FirstCall(now)) == [now]
  {
    var acquired := [Acquire(now)];
    assert acquired == [] + [Acquire(now)];
    RunAppend(config, FRESH, [], Acquire(now));
    RunAppend(config, FRESH, acquired, Check(0, now));
    assert FirstCall(now)[..1] == acquired && acquired[..0] == [];
    assert Readings(acquired) == [] + [now] == [now];
  }

  lemma {:induction false} SendsReadNothing(steps: seq<Step>, i: nat, n: nat)
    ensures Readings(ThenSends(steps, i, n)) == Readings(steps)
  {
    if n > 0 {
      var front := ThenSends(steps, i, n - 1);
      SendsReadNothing(steps, i, n - 1);
      assert (front + [Send(i)])[..|front|] == front;
    }
  }

  /** With the largest 32-bit number of retries a single call, granted at any time,
      can send any number of times. */
  lemma EndlessSends(config: Config, now: nat, n: nat)
    requires config.retryAttempts == U32_SIZE - 1 && config.limiter.limit > 0
    ensures var steps := ThenSends(FirstCall(now), 0, n);
            L.Monotone(Readings(steps)) && After(config, steps).calls == [Call(now, Sending, n, 0)]
  {
    var steps := ThenSends(FirstCall(now), 0, n);
    if n > 0 {
      StillTryingIs(config.retryAttempts, n - 1);
    }
    FirstCallRuns(config, now);
    SendsRun(config, FRESH, FirstCall(now), 0, n);
    SendsReadNothing(FirstCall(now), 0, n);
    AfterIsRun(config, steps);
  }

  ghost predicate BoundsSends(config: Config, a: int, b: int, bound: nat) {
    forall steps | L.Monotone(Readings(steps)) :: SendsBetween(After(config, steps).calls, a, b) <= bound
  }

  /** The sends of the calls granted in an interval are bounded over all runs exactly
      when the number of retries is below the largest 32-bit value. */
  lemma SendsAreBoundedIff(config: Config, a: int, b: int)
    requires config.Valid() && config.limiter.limit > 0 && config.limiter.window > 0
    requires a <= b && b >= 0
    ensures (exists bound: nat :: BoundsSends(config, a, b, bound)) <==> config.retryAttempts < U32_SIZE - 1
  {
    if config.retryAttempts < U32_SIZE - 1 {
      var bound := GrantBound(config.limiter, a, b) * (config.retryAttempts + 1);
      forall steps | L.Monotone(Readings(steps)) ensures SendsBetween(After(config, steps).calls, a, b) <= bound {
        ThroughputBound(config, steps, a, b);
      }
      assert BoundsSends(config, a, b, bound);
    } else {
      forall bound: nat ensures !BoundsSends(config, a, b, bound) {
        ExceedsBound(config, a, b, bound);
      }
    }
  }

  lemma ExceedsBound(config: Config, a: int, b: int, bound: nat)
    requires config.retryAttempts == U32_SIZE - 1 && config.limiter.limit > 0 && a <= b && b >= 0
    ensures !BoundsSends(config, a, b, bound)
  {
    var call := Call(b, Sending, bound + 1, 0);
    EndlessSends(config, b, bound + 1);
    assert [call][..0] == [];
    assert SendsBetween([call], a, b) == bound + 1;
  }

  // ----- one call -----

  /** The steps of one call with no other in between; those that are not possible
      change nothing. */
  function SoloSteps(i: nat, acquireAt: nat, startAt: nat, endAt: nat, prepared: bool, sends: nat, finished: bool,
      ok: bool): seq<Step> {
    if !prepared then [Acquire(acquireAt)] + [Abandon(i)]
    else
      var sent := ThenSends([Acquire(acquireAt)] + [Check(i, startAt)], i, sends);
      if finished then sent + [Complete(i, ok, endAt)] else sent
  }

  /** What `execute` leaves behind in the limiter's list and in the breaker */
  function SoloResult(config: Config, timestamps: seq<nat>, breaker: B.Inner, acquireAt: nat, startAt: nat,
      endAt: nat, prepared: bool, finished: bool, ok: bool): (seq<nat>, B.Inner) {
    var granted := L.Grants(config.limiter, timestamps, acquireAt);
    var started := B.Start(config.breaker, breaker, startAt);
    (L.Retain(config.limiter, timestamps, acquireAt) + (if granted then [acquireAt] else []),
     if !granted || !prepared then breaker
     else if B.Rejects(config.breaker, breaker, startAt) || !finished then started
     else B.Step(config.breaker, started, if ok then B.Succeeded(endAt) else B.Failed(endAt)))
  }

  predicate Admitted(config: Config, timestamps: seq<nat>, breaker: B.Inner, acquireAt: nat, startAt: nat,
      prepared: bool) {
    L.Grants(config.limiter, timestamps, acquireAt) && prepared && !B.Rejects(config.breaker, breaker, startAt)
  }

  lemma SoloAcquired(config: Config, c: Client, acquireAt: nat)
    ensures var d := RunFrom(config, c, [Acquire(acquireAt)]);
            var granted := L.Grants(config.limiter, c.limiter.timestamps, acquireAt);
            && d.limiter.timestamps == L.Retain(config.limiter, c.limiter.timestamps, acquireAt) +
                (if granted then [acquireAt] else [])
            && d.breaker == c.breaker
            && d.calls == c.calls + if granted then [Call(acquireAt, Granted, 0, 0)] else []
  {
    assert [Acquire(acquireAt)] == [] + [Acquire(acquireAt)];
    RunAppend(config, c, [], Acquire(acquireAt));
  }

  lemma SoloChecked(config: Config, c: Client, acquireAt: nat, startAt: nat)
    ensures var i, d := |c.calls|, RunFrom(config, c, [Acquire(acquireAt)] + [Check(|c.calls|, startAt)]);
            var granted := L.Grants(config.limiter, c.limiter.timestamps, acquireAt);
            && d.limiter.timestamps == L.Retain(config.limiter, c.limiter.timestamps, acquireAt) +
                (if granted then [acquireAt] else [])
            && d.breaker == (if granted then B.Start(config.breaker, c.breaker, startAt) else c.breaker)
            && (In(d, i, Sending) <==> Admitted(config, c.limiter.timestamps, c.breaker, acquireAt, startAt, true))
            && (In(d, i, Sending) ==> d.calls[i].sends == 0)
  {
    SoloAcquired(config, c, acquireAt);
    RunAppend(config, c, [Acquire(acquireAt)], Check(|c.calls|, startAt));
  }

  /** A call without interleaving is a run of the machine. */
  lemma SoloIsRun(config: Config, c: Client, acquireAt: nat, startAt: nat, endAt: nat, prepared: bool, sends: nat,
      finished: bool, ok: bool)
    requires sends > 0 ==>
               && Admitted(config, c.limiter.timestamps, c.breaker, acquireAt, startAt, prepared)
               && StillTrying(config.retryAttempts, sends - 1)
    ensures var steps := SoloSteps(|c.calls|, acquireAt, startAt, endAt, prepared, sends, finished, ok);
            var after := RunFrom(config, c, steps);
            (after.limiter.timestamps, after.breaker) ==
            SoloResult(config, c.limiter.timestamps, c.breaker, acquireAt, startAt, endAt, prepared, finished, ok)
  {
    var i := |c.calls|;
    if !prepared {
      SoloAcquired(config, c, acquireAt);
      RunAppend(config, c, [Acquire(acquireAt)], Abandon(i));
    } else {
      var checked := [Acquire(acquireAt)] + [Check(i, startAt)];
      SoloChecked(config, c, acquireAt, startAt);
      SendsRun(config, c, checked, i, sends);
      RunAppend(config, c, ThenSends(checked, i, sends), Complete(i, ok, endAt));
    }
  }

  class ApiClient {
    const retryAttempts: nat
    const limiter: L.RateLimiter
    const breaker: B.CircuitBreaker

    constructor (config: Config)
      ensures Settings() == config
      ensures fresh(limiter) && limiter.timestamps == []
      ensures fresh(breaker) && breaker.View() == B.INITIAL
    {
      retryAttempts := config.retryAttempts;
      limiter := new L.RateLimiter(config.limiter);
      breaker := new B.CircuitBreaker(config.breaker);
    }

    function Settings(): Config {
      Config(limiter.config, breaker.config, retryAttempts)
    }

    /** `execute` with no other call in between, watched for at most `limit` sends:
        the limiter is asked first, then the request is prepared, then the breaker
        is asked, and only then anything is sent. The times are the readings at the
        three critical sections; `c` is the machine's state, if one is followed. */
    method Execute(acquireAt: nat, startAt: nat, endAt: nat, prepared: bool, knownMethod: bool,
        outcome: nat -> Outcome, limit: nat, ghost c: Client)
      returns (finished: bool, ok: bool, sends: nat)
      requires Settings().Valid()
      requires c.limiter.timestamps == limiter.timestamps && c.breaker == breaker.View()
      modifies limiter, breaker
      ensures (limiter.timestamps, breaker.View()) ==
              SoloResult(Settings(), old(limiter.timestamps), old(breaker.View()), acquireAt, startAt, endAt,
                prepared, finished, ok)
      ensures var admitted :=
                Admitted(Settings(), old(limiter.timestamps), old(breaker.View()), acquireAt, startAt, prepared);
              if knownMethod && admitted then IsDispatch(outcome, retryAttempts, limit, finished, ok, sends)
              else finished && !ok && sends == 0
      ensures var steps := SoloSteps(|c.calls|, acquireAt, startAt, endAt, prepared, sends, finished, ok);
              var after := RunFrom(Settings(), c, steps);
              after.limiter.timestamps == limiter.timestamps && after.breaker == breaker.View()
    {
      finished, ok, sends := true, false, 0;
      var granted := limiter.Acquire(acquireAt);
      if granted && prepared {
        finished, ok, sends := ThroughBreaker(startAt, endAt, knownMethod, outcome, limit);
      }
      if sends > 0 {
        LastSendTried(outcome, retryAttempts, limit, finished, ok, sends);
      }
      SoloIsRun(Settings(), c, acquireAt, startAt, endAt, prepared, sends, finished, ok);
    }

    /** `circuit_breaker.execute(|| self.dispatch(...))` */
    method ThroughBreaker(startAt: nat, endAt: nat, knownMethod: bool, outcome: nat -> Outcome, limit: nat)
      returns (finished: bool, ok: bool, sends: nat)
      requires Settings().Valid()
      modifies breaker
      ensures var before, started := old(breaker.View()), B.Start(breaker.config, old(breaker.View()), startAt);
              var rejected := B.Rejects(breaker.config, before, startAt);
              && breaker.View() ==
                 (if rejected || !finished then started
                  else B.Step(breaker.config, started, if ok then B.Succeeded(endAt) else B.Failed(endAt)))
              && if knownMethod && !rejected then IsDispatch(outcome, retryAttempts, limit, finished, ok, sends)
                 else finished && !ok && sends == 0
    {
      var admitted := breaker.Admit(startAt);
      if !admitted {
        return true, false, 0;
      }
      finished, ok, sends := Dispatch(knownMethod, outcome, retryAttempts, limit);
      if finished && ok {
        breaker.OnSuccess();
      } else if finished {
        breaker.OnFailure(endAt);
      }
    }
  }
}
