/** `src/core/circuit_breaker.rs`: each critical section of the breaker is one
    atomic step; times are the clock readings taken under its lock. */
module CircuitBreaker {
  import opened Options
  import opened Unsigned32

  datatype State = Closed | Open | HalfOpen

  datatype Config = Config(threshold: nat, resetTimeout: nat)
  {
    predicate Valid() { 1 <= threshold < U32_SIZE }
  }

  /** The fields under the mutex */
  datatype Inner = Inner(state: State, failureCount: nat, openedAt: Option<nat>)

  const INITIAL := Inner(Closed, 0, None)

  /** `at.elapsed()` read at `now`; zero when nothing was recorded */
  function Elapsed(openedAt: Option<nat>, now: nat): nat {
    match openedAt
    case None => 0
    case Some(at) => if now >= at then now - at else 0
  }

  predicate Rejects(config: Config, inner: Inner, now: nat) {
    inner.state == Open && Elapsed(inner.openedAt, now) < config.resetTimeout
  }

  /** A call that starts at `now` */
  function Start(config: Config, inner: Inner, now: nat): Inner {
    if inner.state == Open && !Rejects(config, inner, now) then inner.(state := HalfOpen) else inner
  }

  function Succeed(inner: Inner): Inner {
    inner.(failureCount := 0, state := Closed)
  }

  /** A call that fails at `now` */
  function Fail(config: Config, inner: Inner, now: nat): Inner {
    var count := Increment(inner.failureCount);
    if inner.state == HalfOpen || count >= config.threshold
    then Inner(Open, count, Some(now))
    else inner.(failureCount := count)
  }

  class CircuitBreaker {
    const config: Config
    var state: State
    var failureCount: nat
    var openedAt: Option<nat>

    constructor (config: Config)
      ensures this.config == config && View() == INITIAL
    {
      this.config := config;
      state := Closed;
      failureCount := 0;
      openedAt := None;
    }

    function View(): Inner
      reads this
    {
      Inner(state, failureCount, openedAt)
    }

    /** The check at the head of `execute` */
    method Admit(now: nat) returns (admitted: bool)
      modifies this
      ensures View() == Start(config, old(View()), now)
      ensures admitted <==> !Rejects(config, old(View()), now)
    {
      if state == Open {
        var elapsed := Elapsed(openedAt, now);
        if elapsed < config.resetTimeout {
          return false;
        }
        state := HalfOpen;
      }
      return true;
    }

    method OnSuccess()
      modifies this
      ensures View() == Succeed(old(View()))
    {
      failureCount := 0;
      state := Closed;
    }

    method OnFailure(now: nat)
      modifies this
      ensures View() == Fail(config, old(View()), now)
    {
      failureCount := Increment(failureCount);
      if state == HalfOpen || failureCount >= config.threshold {
        state := Open;
        openedAt := Some(now);
      }
    }
  }

  // ----- runs -----

  /** The critical sections of any number of calls, in lock order */
  datatype Event = Started(at: nat) | Succeeded(at: nat) | Failed(at: nat)

  function Step(config: Config, inner: Inner, e: Event): Inner {
    match e
    case Started(at) => Start(config, inner, at)
    case Succeeded(_) => Succeed(inner)
    case Failed(at) => Fail(config, inner, at)
  }

  function After(config: Config, run: seq<Event>): Inner {
    if run == [] then INITIAL else Step(config, After(config, run[..|run| - 1]), run[|run| - 1])
  }

  ghost predicate Monotone(run: seq<Event>) {
    forall i, j :: 0 <= i < j < |run| ==> run[i].at <= run[j].at
  }

  ghost predicate NotBefore(now: nat, run: seq<Event>) {
    forall i :: 0 <= i < |run| ==> run[i].at <= now
  }

  /** The completed calls of a run, in order */
  function Completions(run: seq<Event>): seq<Event> {
    if run == [] then []
    else
      var last := run[|run| - 1];
      Completions(run[..|run| - 1]) + if last.Started? then [] else [last]
  }

  /** The last `n` completed calls all failed. */
  ghost predicate LastFailed(run: seq<Event>, n: nat) {
    var done := Completions(run);
    |done| >= n && forall i :: |done| - n <= i < |done| ==> done[i].Failed?
  }

  /** The number of failures since the last success */
  function Streak(run: seq<Event>): nat {
    if run == [] then 0
    else
      match run[|run| - 1]
      case Started(_) => Streak(run[..|run| - 1])
      case Succeeded(_) => 0
      case Failed(_) => Streak(run[..|run| - 1]) + 1
  }

  lemma {:induction false} StreakIsLastFailed(run: seq<Event>, n: nat)
    ensures LastFailed(run, n) <==> Streak(run) >= n
  {
    if run != [] {
      var front, last := run[..|run| - 1], run[|run| - 1];
      var done, before := Completions(run), Completions(front);
      if last.Started? {
        StreakIsLastFailed(front, n);
        assert done == before;
      } else if last.Succeeded? {
        if n > 0 {
          assert !done[|done| - 1].Failed?;
        }
      } else if n > 0 {
        StreakIsLastFailed(front, n - 1);
        assert done == before + [last];
        if LastFailed(front, n - 1) {
          assert LastFailed(run, n);
        }
        if LastFailed(run, n) {
          forall i | |before| - (n - 1) <= i < |before| ensures before[i].Failed? {
            assert done[i].Failed?;
          }
        }
      }
    }
  }

  /** What holds between critical sections. While the breaker is half open its
      last opening lies at least the reset timeout in the past; unless the
      counter has wrapped, `openedAt` is the last completion. */
  ghost predicate Consistent(config: Config, run: seq<Event>) {
    var inner := After(config, run);
    var done := Completions(run);
    && inner.failureCount == Wrapped(Streak(run))
    && (inner.state != Closed <==> Streak(run) >= config.threshold)
    && (inner.state != Closed ==> inner.openedAt.Some? && done != [])
    && (inner.state != Closed && Streak(run) < U32_SIZE ==> inner.openedAt.value == done[|done| - 1].at)
    && (inner.state == HalfOpen && Streak(run) < U32_SIZE ==>
          exists i :: 0 <= i < |run| && run[i].at >= done[|done| - 1].at + config.resetTimeout)
  }

  lemma {:induction false} CompletionsOccur(run: seq<Event>)
    ensures forall e | e in Completions(run) :: e in run
  {
    if run != [] {
      CompletionsOccur(run[..|run| - 1]);
    }
  }

  lemma {:induction false} AlwaysConsistent(config: Config, run: seq<Event>)
    requires config.Valid() && Monotone(run)
    ensures Consistent(config, run)
  {
    if run != [] {
      var front, last := run[..|run| - 1], run[|run| - 1];
      AlwaysConsistent(config, front);
      CompletionsOccur(front);
      IncrementWrapped(Streak(front));
      assert run == front + [last];
    }
  }

  /** The breaker is not closed exactly when the last `threshold` completed calls
      all failed; a call that starts at `now` is rejected exactly when they did
      and the last of them completed less than the reset timeout ago (as long as
      the failure counter has not wrapped). The opening time is always set when
      it is read. */
  lemma BreakerRefinesHistory(config: Config, run: seq<Event>, now: nat)
    requires config.Valid() && Monotone(run) && NotBefore(now, run)
    ensures var inner, done := After(config, run), Completions(run);
            && (inner.state != Closed <==> LastFailed(run, config.threshold))
            && (inner.state == Open ==> inner.openedAt.Some?)
            && (Streak(run) < U32_SIZE ==>
                  (Rejects(config, inner, now) <==>
                   LastFailed(run, config.threshold) && now - done[|done| - 1].at < config.resetTimeout))
  {
    AlwaysConsistent(config, run);
    StreakIsLastFailed(run, config.threshold);
    CompletionsOccur(run);
    var inner, done := After(config, run), Completions(run);
    if inner.state != Closed && Streak(run) < U32_SIZE {
      assert done[|done| - 1] in run;
      if inner.state == HalfOpen {
        var i :| 0 <= i < |run| && run[i].at >= done[|done| - 1].at + config.resetTimeout;
        assert run[i].at <= now;
      }
    }
  }

  // ----- trial calls -----

  /** The calls admitted since the last completion */
  function Admitted(config: Config, run: seq<Event>): nat {
    if run == [] then 0
    else
      var front, last := run[..|run| - 1], run[|run| - 1];
      if !last.Started? then 0
      else Admitted(config, front) + if Rejects(config, After(config, front), last.at) then 0 else 1
  }

  /** The calls that started since the last completion, a reset timeout after it or later */
  function LateStarts(config: Config, run: seq<Event>): nat {
    if run == [] then 0
    else
      var front, last := run[..|run| - 1], run[|run| - 1];
      var done := Completions(front);
      if !last.Started? then 0
      else
        LateStarts(config, front)
        + if done != [] && last.at < done[|done| - 1].at + config.resetTimeout then 0 else 1
  }

  /** A breaker that is not closed admits every call that starts once the reset
      timeout is over, until one of them completes: a single trial call is let
      through exactly when a single call starts in that time. */
  lemma {:induction false} TrialsAreLateStarts(config: Config, run: seq<Event>)
    requires config.Valid() && Monotone(run) && LastFailed(run, config.threshold) && Streak(run) < U32_SIZE
    ensures Admitted(config, run) == LateStarts(config, run)
  {
    if run != [] && run[|run| - 1].Started? {
      var front, last := run[..|run| - 1], run[|run| - 1];
      assert run == front + [last];
      MonotoneFront(front, last);
      assert Completions(run) == Completions(front);
      TrialsAreLateStarts(config, front);
      BreakerRefinesHistory(config, front, last.at);
    }
  }

  /** Two calls that start when the reset timeout is over are both let through. */
  lemma TwoTrialCalls(config: Config)
    requires config.Valid()
    ensures var late := Started(config.resetTimeout);
            var run := Failures(config.threshold, 0) + [late] + [late];
            Monotone(run) && LastFailed(run, config.threshold) && Admitted(config, run) == 2
  {
    var failed, late := Failures(config.threshold, 0), Started(config.resetTimeout);
    var run := failed + [late] + [late];
    FailuresStreak(config.threshold, 0);
    AfterAppend(config, failed, late);
    AfterAppend(config, failed + [late], late);
    StreakIsLastFailed(run, config.threshold);
    FailuresEnd(config.threshold);
    LateStartsAppend(config, failed, late.at);
    LateStartsAppend(config, failed + [late], late.at);
    CompletionsAppend(failed, late);
    TrialsAreLateStarts(config, run);
  }

  lemma FailuresEnd(n: nat)
    requires n > 0
    ensures var failed := Failures(n, 0); var done := Completions(failed);
            && done != [] && done[|done| - 1] == Failed(0) && failed[|failed| - 1] == Failed(0)
  {
    FailuresSplit(n, 0);
    CompletionsAppend(Failures(n - 1, 0), Failed(0));
  }

  lemma LateStartsAppend(config: Config, run: seq<Event>, at: nat)
    requires var done := Completions(run); done != [] && at >= done[|done| - 1].at + config.resetTimeout
    ensures LateStarts(config, run + [Started(at)]) == LateStarts(config, run) + 1
  {
    assert (run + [Started(at)])[..|run|] == run;
  }

  lemma CompletionsAppend(run: seq<Event>, e: Event)
    ensures Completions(run + [e]) == Completions(run) + if e.Started? then [] else [e]
  {
    assert (run + [e])[..|run|] == run;
  }

  // ----- the counter wraps -----

  function Failures(n: nat, at: nat): seq<Event> { seq(n, i => Failed(at)) }

  lemma FailuresSplit(n: nat, at: nat)
    requires n > 0
    ensures Failures(n, at) == Failures(n - 1, at) + [Failed(at)]
  {
  }

  function Failing(config: Config, n: nat, at: nat): Inner {
    if n < config.threshold then Inner(Closed, n, None) else Inner(Open, n, Some(at))
  }

  lemma {:induction false} AfterFailures(config: Config, n: nat, at: nat)
    requires config.Valid() && n < U32_SIZE
    ensures After(config, Failures(n, at)) == Failing(config, n, at)
  {
    if n > 0 {
      AfterFailures(config, n - 1, at);
      FailuresSplit(n, at);
      AfterAppend(config, Failures(n - 1, at), Failed(at));
    }
  }

  /** A failure that makes the counter wrap does not restart the reset timeout:
      with 2^32 calls in flight that all fail, a call that starts at the moment
      the last one fails is let through. */
  lemma WrappedCounterAdmits(config: Config)
    requires config.Valid()
    ensures var run := Failures(U32_SIZE - 1, 0) + [Failed(config.resetTimeout)];
            && Monotone(run) && LastFailed(run, config.threshold)
            && !Rejects(config, After(config, run), config.resetTimeout)
  {
    var before := Failures(U32_SIZE - 1, 0);
    AfterFailures(config, U32_SIZE - 1, 0);
    var run := before + [Failed(config.resetTimeout)];
    assert run[..|run| - 1] == before;
    FailuresStreak(U32_SIZE - 1, 0);
    StreakIsLastFailed(run, config.threshold);
  }

  lemma {:induction false} FailuresStreak(n: nat, at: nat)
    ensures Streak(Failures(n, at)) == n
  {
    if n > 0 {
      FailuresStreak(n - 1, at);
      FailuresSplit(n, at);
      assert Failures(n, at)[..n - 1] == Failures(n - 1, at);
    }
  }

  lemma {:induction false} OpenedAtOccurs(config: Config, run: seq<Event>)
    ensures var at := After(config, run).openedAt; at.Some? ==> Failed(at.value) in run
  {
    if run != [] {
      OpenedAtOccurs(config, run[..|run| - 1]);
    }
  }

  /** Exactly when a failure dates an open breaker: calls that start from then on
      are rejected for one reset timeout after it if and only if the breaker was
      half open, the wrapped counter still reaches the threshold, or the breaker
      opened at that very moment already. */
  lemma FailureDatesBreaker(config: Config, run: seq<Event>, at: nat)
    requires config.Valid() && config.resetTimeout > 0 && Monotone(run + [Failed(at)])
    requires LastFailed(run + [Failed(at)], config.threshold)
    ensures var inner, before := After(config, run + [Failed(at)]), After(config, run);
            (forall now | now >= at :: Rejects(config, inner, now) <==> now - at < config.resetTimeout) <==>
            before.state == HalfOpen || Wrapped(Streak(run) + 1) >= config.threshold || before.openedAt == Some(at)
  {
    var all := run + [Failed(at)];
    AlwaysConsistent(config, all);
    StreakIsLastFailed(all, config.threshold);
    MonotoneFront(run, Failed(at));
    AlwaysConsistent(config, run);
    AfterAppend(config, run, Failed(at));
    OpenedAtOccurs(config, run);
    DatesBreaker(config, After(config, run), at);
  }

  lemma MonotoneFront(run: seq<Event>, e: Event)
    requires Monotone(run + [e])
    ensures Monotone(run) && forall d | d in run :: d.at <= e.at
  {
    var all := run + [e];
    forall i | 0 <= i < |run| ensures run[i].at <= e.at {
      assert all[i].at <= all[|run|].at;
    }
    forall i, j | 0 <= i < j < |run| ensures run[i].at <= run[j].at {
      assert all[i].at <= all[j].at;
    }
  }

  lemma DatesBreaker(config: Config, before: Inner, at: nat)
    requires config.resetTimeout > 0 && Fail(config, before, at).state == Open
    requires before.openedAt.Some? ==> before.openedAt.value <= at
    requires before.state == Open ==> before.openedAt.Some?
    ensures var inner := Fail(config, before, at);
            (forall now | now >= at :: Rejects(config, inner, now) <==> now - at < config.resetTimeout) <==>
            before.state == HalfOpen || Increment(before.failureCount) >= config.threshold
            || before.openedAt == Some(at)
  {
    var inner := Fail(config, before, at);
    var since := inner.openedAt.value;
    if since < at {
      var now := if since + config.resetTimeout >= at then since + config.resetTimeout else at;
      assert !Rejects(config, inner, now) && now >= at && now - at < config.resetTimeout;
    }
  }

  // ----- one call at a time -----

  /** A call with the times at which it starts and, if it is admitted, ends */
  datatype Call = Call(start: nat, end: nat, ok: bool)

  /** The critical sections of calls made one after the other */
  function EventsOf(config: Config, calls: seq<Call>): seq<Event> {
    if calls == [] then []
    else
      var before := EventsOf(config, calls[..|calls| - 1]);
      var c := calls[|calls| - 1];
      before + [Started(c.start)] +
      if Rejects(config, After(config, before), c.start) then []
      else [if c.ok then Succeeded(c.end) else Failed(c.end)]
  }

  ghost predicate Sequential(calls: seq<Call>) {
    && (forall i :: 0 <= i < |calls| ==> calls[i].start <= calls[i].end)
    && (forall i, j :: 0 <= i < j < |calls| ==> calls[i].end <= calls[j].start)
  }

  /** When the failures of the current streak happened */
  function StreakTimes(run: seq<Event>): seq<nat> {
    if run == [] then []
    else
      match run[|run| - 1]
      case Started(_) => StreakTimes(run[..|run| - 1])
      case Succeeded(_) => []
      case Failed(at) => StreakTimes(run[..|run| - 1]) + [at]
  }

  /** Between calls the breaker is never half open, and an open breaker dates
      from the last failure. */
  ghost predicate AtRest(config: Config, run: seq<Event>) {
    var inner, times := After(config, run), StreakTimes(run);
    && inner.state != HalfOpen
    && |times| == Streak(run)
    && (inner.state == Closed <==> |times| < config.threshold)
    && (inner.state == Closed ==> inner.failureCount == |times|)
    && (inner.state == Open ==> times != [] && inner.openedAt == Some(times[|times| - 1]))
  }

  ghost predicate Paced(config: Config, times: seq<nat>) {
    forall i :: 1 <= config.threshold <= i < |times| ==> times[i] >= times[i - 1] + config.resetTimeout
  }

  lemma AfterAppend(config: Config, run: seq<Event>, e: Event)
    ensures After(config, run + [e]) == Step(config, After(config, run), e)
    ensures StreakTimes(run + [e]) ==
            if e.Started? then StreakTimes(run) else if e.Succeeded? then [] else StreakTimes(run) + [e.at]
    ensures Streak(run + [e]) == if e.Started? then Streak(run) else if e.Succeeded? then 0 else Streak(run) + 1
  {
    assert (run + [e])[..|run|] == run;
  }

  /** Before a call that starts at `start`, no failure of the streak is later. */
  ghost predicate RestsBefore(config: Config, run: seq<Event>, start: nat) {
    AtRest(config, run) && Paced(config, StreakTimes(run)) && forall t | t in StreakTimes(run) :: t <= start
  }

  lemma RejectedCallRests(config: Config, run: seq<Event>, c: Call)
    requires config.Valid() && RestsBefore(config, run, c.start) && c.start <= c.end
    requires Rejects(config, After(config, run), c.start)
    ensures RestsBefore(config, run + [Started(c.start)], c.end)
  {
    AfterAppend(config, run, Started(c.start));
  }

  /** An admitted failure is paced: it comes a reset timeout after the last one
      when the breaker was open. */
  lemma FailedCallIsPaced(config: Config, run: seq<Event>, c: Call)
    requires config.Valid() && RestsBefore(config, run, c.start) && c.start <= c.end
    requires !Rejects(config, After(config, run), c.start)
    ensures Paced(config, StreakTimes(run) + [c.end])
  {
    var times := StreakTimes(run);
    if After(config, run).state == Open {
      assert times[|times| - 1] in times;
    }
  }

  lemma FailedCallRests(config: Config, run: seq<Event>, c: Call)
    requires config.Valid() && RestsBefore(config, run, c.start) && c.start <= c.end
    requires !Rejects(config, After(config, run), c.start)
    ensures RestsBefore(config, run + [Started(c.start)] + [Failed(c.end)], c.end)
  {
    var started := run + [Started(c.start)];
    AfterAppend(config, run, Started(c.start));
    AfterAppend(config, started, Failed(c.end));
    FailedCallIsPaced(config, run, c);
    FailAdmitted(config, After(config, run), c, |StreakTimes(run)|);
  }

  /** What an admitted failure makes of a breaker at rest after `n` failures */
  lemma FailAdmitted(config: Config, inner: Inner, c: Call, n: nat)
    requires config.Valid() && inner.state != HalfOpen && !Rejects(config, inner, c.start)
    requires (inner.state == Closed <==> n < config.threshold) && (inner.state == Closed ==> inner.failureCount == n)
    ensures var next := Fail(config, Start(config, inner, c.start), c.end);
            && next.state != HalfOpen && (next.state == Closed <==> n + 1 < config.threshold)
            && (next.state == Closed ==> next.failureCount == n + 1)
            && (next.state == Open ==> next.openedAt == Some(c.end))
  {
  }

  lemma EventsOfLast(config: Config, calls: seq<Call>)
    requires calls != []
    ensures var before, c := EventsOf(config, calls[..|calls| - 1]), calls[|calls| - 1];
            var started := before + [Started(c.start)];
            EventsOf(config, calls) ==
            if Rejects(config, After(config, before), c.start) then started
            else started + [if c.ok then Succeeded(c.end) else Failed(c.end)]
  {
  }

  lemma {:induction false} SequentialIsPaced(config: Config, calls: seq<Call>)
    requires config.Valid() && Sequential(calls)
    ensures RestsBefore(config, EventsOf(config, calls), if calls == [] then 0 else calls[|calls| - 1].end)
  {
    if calls != [] {
      var front, c := calls[..|calls| - 1], calls[|calls| - 1];
      SequentialIsPaced(config, front);
      var before := EventsOf(config, front);
      assert front != [] ==> front[|front| - 1].end <= c.start;
      assert RestsBefore(config, before, c.start);
      EventsOfLast(config, calls);
      if Rejects(config, After(config, before), c.start) {
        RejectedCallRests(config, before, c);
      } else if !c.ok {
        FailedCallRests(config, before, c);
      }
    }
  }

  lemma {:induction false} PacedSpan(config: Config, times: seq<nat>, n: nat)
    requires config.Valid() && Paced(config, times) && config.threshold <= n <= |times|
    ensures times[n - 1] >= times[config.threshold - 1] + (n - config.threshold) * config.resetTimeout
    decreases n
  {
    if n > config.threshold {
      PacedSpan(config, times, n - 1);
      assert times[n - 1] >= times[n - 2] + config.resetTimeout;
      assert (n - config.threshold) * config.resetTimeout ==
          (n - 1 - config.threshold) * config.resetTimeout + config.resetTimeout;
    }
  }

  /** A failing service is called at most once per reset timeout: with calls made
      one at a time, the last failure of a streak of `n` lies at least
      `(n - threshold)` reset timeouts after the one that opened the breaker. */
  lemma PacingBound(config: Config, calls: seq<Call>)
    requires config.Valid() && Sequential(calls)
    requires Streak(EventsOf(config, calls)) > config.threshold
    ensures var times := StreakTimes(EventsOf(config, calls));
            && |times| == Streak(EventsOf(config, calls))
            && times[|times| - 1] >= times[config.threshold - 1] + (|times| - config.threshold) * config.resetTimeout
  {
    SequentialIsPaced(config, calls);
    var times := StreakTimes(EventsOf(config, calls));
    PacedSpan(config, times, |times|);
  }
}
