/** `src/core/rate_limiter.rs`: the sliding-window limiter and what its pruned
    list says about the whole history. */
module RateLimiter {

  datatype Config = Config(limit: nat, window: nat)

  /** `now.duration_since(t) < window`; the difference saturates at zero */
  predicate Recent(config: Config, now: nat, t: nat) {
    (if now >= t then now - t else 0) < config.window
  }

  /** `timestamps.retain(...)` */
  function Retain(config: Config, timestamps: seq<nat>, now: nat): seq<nat> {
    if timestamps == [] then []
    else
      var last := timestamps[|timestamps| - 1];
      Retain(config, timestamps[..|timestamps| - 1], now) + if Recent(config, now, last) then [last] else []
  }

  predicate Grants(config: Config, timestamps: seq<nat>, now: nat) {
    |Retain(config, timestamps, now)| < config.limit
  }

  class RateLimiter {
    const config: Config
    var timestamps: seq<nat>

    constructor (config: Config)
      ensures this.config == config && timestamps == []
    {
      this.config := config;
      timestamps := [];
    }

    /** `acquire`, where `now` was read before the lock was taken */
    method Acquire(now: nat) returns (granted: bool)
      modifies this
      ensures granted <==> Grants(config, old(timestamps), now)
      ensures timestamps == Retain(config, old(timestamps), now) + if granted then [now] else []
    {
      timestamps := Retain(config, timestamps, now);
      if |timestamps| >= config.limit {
        return false;
      }
      timestamps := timestamps + [now];
      return true;
    }
  }

  // ----- runs -----

  /** The limiter's list, and every grant since it was made */
  datatype Run = Run(timestamps: seq<nat>, granted: seq<nat>)

  /** The state after `acquire` ran with these clock readings, in lock order */
  function After(config: Config, readings: seq<nat>): Run {
    if readings == [] then Run([], [])
    else
      var before := After(config, readings[..|readings| - 1]);
      Attempt(config, before, readings[|readings| - 1])
  }

  function Attempt(config: Config, run: Run, now: nat): Run {
    var kept := Retain(config, run.timestamps, now);
    if Grants(config, run.timestamps, now) then Run(kept + [now], run.granted + [now]) else Run(kept, run.granted)
  }

  ghost predicate Monotone(times: seq<nat>) {
    forall i, j :: 0 <= i < j < |times| ==> times[i] <= times[j]
  }

  ghost predicate UpTo(times: seq<nat>, now: nat) {
    forall i :: 0 <= i < |times| ==> times[i] <= now
  }

  /** How many of `times` lie in `(until - window, until]` */
  function InWindow(config: Config, times: seq<nat>, until: int): nat {
    if times == [] then 0
    else
      var last := times[|times| - 1];
      InWindow(config, times[..|times| - 1], until) + if until - config.window < last <= until then 1 else 0
  }

  lemma {:induction false} RetainRetain(config: Config, times: seq<nat>, now: nat, later: nat)
    requires now <= later
    ensures Retain(config, Retain(config, times, now), later) == Retain(config, times, later)
  {
    if times != [] {
      var front, last := times[..|times| - 1], times[|times| - 1];
      RetainRetain(config, front, now, later);
      assert times == front + [last];
      assert Retain(config, front, now) + [] == Retain(config, front, now);
      assert Retain(config, front, later) + [] == Retain(config, front, later);
    }
  }

  lemma InWindowAppend(config: Config, times: seq<nat>, t: nat, until: int)
    ensures InWindow(config, times + [t], until) ==
            InWindow(config, times, until) + if until - config.window < t <= until then 1 else 0
  {
    assert (times + [t])[..|times|] == times;
  }

  lemma {:induction false} RetainCounts(config: Config, times: seq<nat>, now: nat)
    requires UpTo(times, now)
    ensures |Retain(config, times, now)| == InWindow(config, times, now)
  {
    if times != [] {
      RetainCounts(config, times[..|times| - 1], now);
    }
  }

  /** The pruned list and the whole history keep the same grants at every later
      reading. */
  ghost predicate Agrees(config: Config, run: Run, now: nat) {
    && UpTo(run.granted, now)
    && forall later :: later >= now ==> Retain(config, run.timestamps, later) == Retain(config, run.granted, later)
  }

  lemma {:induction false} AlwaysAgrees(config: Config, readings: seq<nat>, now: nat)
    requires Monotone(readings) && UpTo(readings, now)
    ensures Agrees(config, After(config, readings), now)
  {
    if readings != [] {
      var front, last := readings[..|readings| - 1], readings[|readings| - 1];
      AlwaysAgrees(config, front, last);
      var before, run := After(config, front), After(config, readings);
      forall later: nat | later >= last
        ensures Retain(config, run.timestamps, later) == Retain(config, run.granted, later)
      {
        RetainRetain(config, before.timestamps, last, later);
      }
    }
  }

  /** `acquire` rejects exactly when the whole history has at least `limit`
      grants within the window that ends now. */
  lemma PrunedListIsExact(config: Config, readings: seq<nat>, now: nat)
    requires Monotone(readings) && UpTo(readings, now)
    ensures var run := After(config, readings);
            !Grants(config, run.timestamps, now) <==> InWindow(config, run.granted, now) >= config.limit
  {
    AlwaysAgrees(config, readings, now);
    RetainCounts(config, After(config, readings).granted, now);
  }

  lemma {:induction false} EarlierWindow(config: Config, times: seq<nat>, now: nat, until: int)
    requires UpTo(times, now) && now <= until
    ensures InWindow(config, times, until) <= InWindow(config, times, now)
  {
    if times != [] {
      EarlierWindow(config, times[..|times| - 1], now, until);
    }
  }

  ghost predicate Bounded(config: Config, times: seq<nat>) {
    forall until :: InWindow(config, times, until) <= config.limit
  }

  /** No interval `(until - window, until]` ever holds more than `limit` grants. */
  lemma {:induction false} GrantsAreBounded(config: Config, readings: seq<nat>)
    requires Monotone(readings)
    ensures Bounded(config, After(config, readings).granted)
  {
    if readings != [] {
      var front, now := readings[..|readings| - 1], readings[|readings| - 1];
      GrantsAreBounded(config, front);
      var before := After(config, front);
      PrunedListIsExact(config, front, now);
      AlwaysAgrees(config, front, now);
      forall until ensures InWindow(config, After(config, readings).granted, until) <= config.limit {
        InWindowAppend(config, before.granted, now, until);
        if until >= now {
          EarlierWindow(config, before.granted, now, until);
        }
      }
    }
  }

  // ----- intervals of any length -----

  /** How many of `times` lie in `[a, b]` */
  function Between(times: seq<nat>, a: int, b: int): nat {
    if times == [] then 0
    else Between(times[..|times| - 1], a, b) + if a <= times[|times| - 1] <= b then 1 else 0
  }

  lemma {:induction false} BetweenSplits(config: Config, times: seq<nat>, a: int, b: int)
    ensures Between(times, a, b) <= Between(times, a, b - config.window) + InWindow(config, times, b)
  {
    if times != [] {
      BetweenSplits(config, times[..|times| - 1], a, b);
    }
  }

  lemma {:induction false} BetweenEmpty(times: seq<nat>, a: int, b: int)
    requires b < a
    ensures Between(times, a, b) == 0
  {
    if times != [] {
      BetweenEmpty(times[..|times| - 1], a, b);
    }
  }

  /** `[a, b]` holds at most `limit` grants for each window it takes to cover it. */
  lemma {:induction false} IntervalBound(config: Config, times: seq<nat>, a: int, b: int)
    requires config.window > 0 && a <= b && Bounded(config, times)
    ensures Between(times, a, b) <= config.limit * ((b - a) / config.window + 1)
    decreases b - a
  {
    BetweenSplits(config, times, a, b);
    var windows := (b - a) / config.window;
    if b - a < config.window {
      BetweenEmpty(times, a, b - config.window);
      assert windows == 0;
    } else {
      IntervalBound(config, times, a, b - config.window);
      assert (b - config.window - a) / config.window == windows - 1 by {
        OneWindowLess(b - a, config.window);
      }
      assert config.limit * windows + config.limit == config.limit * (windows + 1);
    }
  }

  lemma OneWindowLess(d: int, w: int)
    requires 0 < w <= d
    ensures (d - w) / w == d / w - 1
  {
    var q, r := d / w, d % w;
    assert d == w * q + r;
    assert d - w == w * (q - 1) + r;
    QuotientIsUnique(d - w, w, q - 1, r);
  }

  lemma QuotientIsUnique(d: int, w: int, q: int, r: int)
    requires 0 <= r < w && d == w * q + r
    ensures d / w == q
  {
    var k := d / w - q;
    assert d == w * (d / w) + d % w;
    assert w * (d / w) - w * q == w * k;
    if k >= 1 {
      AtLeastOnce(w, k);
    } else if k <= -1 {
      assert w * k == -(w * -k);
      AtLeastOnce(w, -k);
    }
  }

  lemma AtLeastOnce(w: int, k: int)
    requires w > 0 && k >= 1
    ensures w * k >= w
  {
    assert w * k == w * (k - 1) + w;
  }

  // ----- readings out of lock order -----

  function Repeat(n: nat, t: nat): seq<nat> { seq(n, i => t) }

  lemma RepeatSplit(n: nat, t: nat)
    requires n > 0
    ensures Repeat(n, t)[..n - 1] == Repeat(n - 1, t) && Repeat(n, t) == Repeat(n - 1, t) + [t]
  {
  }

  lemma {:induction false} AfterRepeat(config: Config, n: nat)
    requires n <= config.limit && config.window > 0
    ensures After(config, Repeat(n, 0)) == Run(Repeat(n, 0), Repeat(n, 0))
    ensures Retain(config, Repeat(n, 0), 0) == Repeat(n, 0) && Retain(config, Repeat(n, 0), config.window) == []
    ensures InWindow(config, Repeat(n, 0), 0) == n
  {
    if n > 0 {
      AfterRepeat(config, n - 1);
      RepeatSplit(n, 0);
    }
  }

  /** A full window, one grant a window later, and a reading taken before both */
  function LateReading(config: Config): seq<nat> {
    Repeat(config.limit, 0) + [config.window] + [0]
  }

  lemma LateReadingExceeds(config: Config)
    requires config.limit >= 2 && config.window > 0
    ensures InWindow(config, After(config, LateReading(config)).granted, 0) == config.limit + 1
  {
    var full := Repeat(config.limit, 0);
    AfterRepeat(config, config.limit);
    var pruned := full + [config.window];
    assert pruned[..|pruned| - 1] == full;
    assert After(config, pruned) == Run([config.window], pruned);
    assert LateReading(config)[..|pruned|] == pruned;
    assert |Retain(config, [config.window], 0)| <= 1;
    assert After(config, LateReading(config)).granted == pruned + [0];
    InWindowAppend(config, full, config.window, 0);
    InWindowAppend(config, pruned, 0, 0);
  }

  ghost predicate Spread(config: Config, times: seq<nat>) {
    forall i, j :: 0 <= i < j < |times| ==> times[i] + config.window <= times[j]
  }

  /** With a limit of one the list holds the last grant and nothing else. */
  ghost predicate OneAtATime(config: Config, run: Run) {
    && Spread(config, run.granted)
    && (config.limit == 0 ==> run.granted == [])
    && run.timestamps == if run.granted == [] then [] else [run.granted[|run.granted| - 1]]
  }

  lemma OneAtATimeStep(config: Config, run: Run, now: nat)
    requires config.limit <= 1 && config.window > 0 && OneAtATime(config, run)
    ensures OneAtATime(config, Attempt(config, run, now))
  {
    if run.granted != [] {
      var last := run.granted[|run.granted| - 1];
      RetainOne(config, last, now);
      if Grants(config, run.timestamps, now) {
        SpreadAppend(config, run.granted, now);
      }
    }
    assert [] + [now] == [now];
  }

  lemma SpreadAppend(config: Config, times: seq<nat>, t: nat)
    requires Spread(config, times) && times != [] && times[|times| - 1] + config.window <= t
    ensures Spread(config, times + [t])
  {
    forall i | 0 <= i < |times| ensures times[i] + config.window <= t {
      assert i < |times| - 1 ==> times[i] + config.window <= times[|times| - 1];
    }
  }

  lemma {:induction false} SmallLimitSpreads(config: Config, readings: seq<nat>)
    requires config.limit <= 1 && config.window > 0
    ensures OneAtATime(config, After(config, readings))
  {
    if readings != [] {
      SmallLimitSpreads(config, readings[..|readings| - 1]);
      OneAtATimeStep(config, After(config, readings[..|readings| - 1]), readings[|readings| - 1]);
    }
  }

  lemma RetainOne(config: Config, t: nat, now: nat)
    ensures Retain(config, [t], now) == if Recent(config, now, t) then [t] else []
  {
    assert [t][..0] == [];
  }

  lemma {:induction false} SpreadIsBounded(config: Config, times: seq<nat>, until: int)
    requires Spread(config, times)
    ensures InWindow(config, times, until) <= 1
  {
    if times != [] {
      var front, last := times[..|times| - 1], times[|times| - 1];
      SpreadIsBounded(config, front, until);
      if last <= until && front != [] {
        EarlierIsOutside(config, front, last - config.window, until);
      }
    }
  }

  lemma {:induction false} EarlierIsOutside(config: Config, times: seq<nat>, bound: int, until: int)
    requires forall i :: 0 <= i < |times| ==> times[i] <= bound
    requires bound <= until - config.window
    ensures InWindow(config, times, until) == 0
  {
    if times != [] {
      EarlierIsOutside(config, times[..|times| - 1], bound, until);
    }
  }

  lemma {:induction false} NoWindowNoCount(config: Config, times: seq<nat>, until: int)
    requires config.window == 0
    ensures InWindow(config, times, until) == 0
  {
    if times != [] {
      NoWindowNoCount(config, times[..|times| - 1], until);
    }
  }

  /** Readings are taken before the lock, so they can reach the list out of order.
      The bound survives every order of readings exactly when `limit` is at most
      one (or the window is empty): otherwise a late reading is granted against
      a list from which its own window has already been pruned. */
  lemma OrderMatters(config: Config)
    ensures (forall readings :: Bounded(config, After(config, readings).granted)) <==>
        config.limit <= 1 || config.window == 0
  {
    if config.limit <= 1 || config.window == 0 {
      forall readings ensures Bounded(config, After(config, readings).granted) {
        var granted := After(config, readings).granted;
        forall until ensures InWindow(config, granted, until) <= config.limit {
          if config.window == 0 {
            NoWindowNoCount(config, granted, until);
          } else {
            SmallLimitSpreads(config, readings);
            SpreadIsBounded(config, granted, until);
          }
        }
      }
    } else {
      LateReadingExceeds(config);
      assert !Bounded(config, After(config, LateReading(config)).granted);
    }
  }
}
