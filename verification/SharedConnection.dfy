/** `cached_in_memory_connection` of `src/data/store.rs`: a look-up and an
    insert-if-absent under a lock, with the building of the connection between
    them outside the lock. */
module SharedConnection {
  /** A connection is known by the caller that built it. */
  type Conn = nat

  datatype Progress = Started | Building | Built | Returned(conn: Conn) | Failed

  datatype Caller = Caller(key: string, progress: Progress)

  datatype State = State(cache: map<string, Conn>, callers: map<nat, Caller>)

  const INITIAL := State(map[], map[])

  datatype Action = Call | LookUp | Build(works: bool) | Insert

  /** The next thing caller `i`, which asked for `key`, does */
  datatype Step = Step(i: nat, key: string, action: Action)

  function Move(s: State, step: Step, progress: Progress): State {
    s.(callers := s.callers[step.i := Caller(step.key, progress)])
  }

  /** A step that is not possible leaves the state as it is. */
  function Apply(s: State, step: Step): State {
    var known := step.i in s.callers;
    if step.action.Call? then
      if known then s else Move(s, step, Started)
    else if !known || s.callers[step.i].key != step.key then s
    else
      match (step.action, s.callers[step.i].progress)
      case (LookUp, Started) =>
        Move(s, step, if step.key in s.cache then Returned(s.cache[step.key]) else Building)
      case (Build(works), Building) =>
        Move(s, step, if works then Built else Failed)
      case (Insert, Built) =>
        if step.key in s.cache then Move(s, step, Returned(s.cache[step.key]))
        else Move(s.(cache := s.cache[step.key := step.i]), step, Returned(step.i))
      case _ => s
  }

  function After(steps: seq<Step>): State {
    if steps == [] then INITIAL else Apply(After(steps[..|steps| - 1]), steps[|steps| - 1])
  }

  ghost predicate Consistent(s: State) {
    && (forall i | i in s.callers && s.callers[i].progress.Returned? ::
          s.callers[i].key in s.cache && s.cache[s.callers[i].key] == s.callers[i].progress.conn)
    && (forall key | key in s.cache ::
        s.cache[key] in s.callers && s.callers[s.cache[key]] == Caller(key, Returned(s.cache[key])))
  }

  lemma {:induction false} AlwaysConsistent(steps: seq<Step>)
    ensures Consistent(After(steps))
  {
    if steps != [] {
      AlwaysConsistent(steps[..|steps| - 1]);
    }
  }

  /** All callers that succeed with the same key get the same connection, callers
      with different keys different ones, and each gets a connection built for
      its own key. */
  lemma CallersAgree(steps: seq<Step>, i: nat, j: nat)
    requires var s := After(steps);
             && i in s.callers && s.callers[i].progress.Returned?
             && j in s.callers && s.callers[j].progress.Returned?
    ensures var s := After(steps);
            && (s.callers[i].progress.conn == s.callers[j].progress.conn <==> s.callers[i].key == s.callers[j].key)
            && s.callers[i].progress.conn in s.callers && s.callers[s.callers[i].progress.conn].key == s.callers[i].key
  {
    AlwaysConsistent(steps);
  }

  /** An entry never changes once it is set, and a caller's result never changes. */
  lemma {:induction false} EntriesStay(steps: seq<Step>, n: nat)
    requires n <= |steps|
    ensures var early, late := After(steps[..n]), After(steps);
            && (forall key | key in early.cache :: key in late.cache && late.cache[key] == early.cache[key])
            && (forall i | i in early.callers && early.callers[i].progress.Returned? ::
                  i in late.callers && late.callers[i] == early.callers[i])
    decreases |steps|
  {
    if n == |steps| {
      assert steps[..n] == steps;
    } else {
      var front, last := steps[..|steps| - 1], steps[|steps| - 1];
      assert front[..n] == steps[..n];
      EntriesStay(front, n);
      StepKeepsEntries(After(front), last);
    }
  }

  lemma StepKeepsEntries(s: State, step: Step)
    ensures var t := Apply(s, step);
            && (forall key | key in s.cache :: key in t.cache && t.cache[key] == s.cache[key])
            && (forall i | i in s.callers && s.callers[i].progress.Returned? ::
                i in t.callers && t.callers[i] == s.callers[i])
  {
  }

  /** The steps of the callers that ask for `key` */
  function Project(steps: seq<Step>, key: string): seq<Step> {
    if steps == [] then []
    else Project(steps[..|steps| - 1], key) + if steps[|steps| - 1].key == key then [steps[|steps| - 1]] else []
  }

  /** A caller asks for one key only. */
  ghost predicate OneKeyEach(steps: seq<Step>) {
    forall a, b :: 0 <= a < b < |steps| && steps[a].i == steps[b].i ==> steps[a].key == steps[b].key
  }

  ghost predicate SameFor(s: State, t: State, key: string) {
    && (key in s.cache <==> key in t.cache)
    && (key in s.cache ==> s.cache[key] == t.cache[key])
    && (forall i :: i in t.callers <==> i in s.callers && s.callers[i].key == key)
    && (forall i | i in t.callers :: t.callers[i] == s.callers[i])
  }

  lemma {:induction false} CallersAsked(steps: seq<Step>)
    ensures forall i | i in After(steps).callers ::
              exists a :: 0 <= a < |steps| && steps[a].i == i && steps[a].key == After(steps).callers[i].key
  {
    if steps != [] {
      var front, last := steps[..|steps| - 1], steps[|steps| - 1];
      CallersAsked(front);
      forall i | i in After(steps).callers
        ensures exists a :: 0 <= a < |steps| && steps[a].i == i && steps[a].key == After(steps).callers[i].key
      {
        if i in After(front).callers && After(front).callers[i].key == After(steps).callers[i].key {
          var a :| 0 <= a < |front| && front[a].i == i && front[a].key == After(front).callers[i].key;
          assert steps[a] == front[a];
        } else {
          assert steps[|steps| - 1] == last;
        }
      }
    }
  }

  lemma SameKeyStep(s: State, t: State, step: Step)
    requires SameFor(s, t, step.key) && (step.i in s.callers ==> s.callers[step.i].key == step.key)
    ensures SameFor(Apply(s, step), Apply(t, step), step.key)
  {
  }

  lemma OtherKeyStep(s: State, t: State, step: Step, key: string)
    requires SameFor(s, t, key) && step.key != key && (step.i in s.callers ==> s.callers[step.i].key == step.key)
    ensures SameFor(Apply(s, step), t, key)
  {
  }

  lemma OwnKeyOnly(steps: seq<Step>)
    requires OneKeyEach(steps) && steps != []
    ensures var last, callers := steps[|steps| - 1], After(steps[..|steps| - 1]).callers;
            last.i in callers ==> callers[last.i].key == last.key
  {
    var front, last := steps[..|steps| - 1], steps[|steps| - 1];
    CallersAsked(front);
    if last.i in After(front).callers {
      var a :| 0 <= a < |front| && front[a].i == last.i && front[a].key == After(front).callers[last.i].key;
      assert steps[a].key == steps[|steps| - 1].key;
    }
  }

  /** Different keys do not affect each other: the callers of one key fare exactly
      as if they were alone. */
  lemma {:induction false} KeysAreIndependent(steps: seq<Step>, key: string)
    requires OneKeyEach(steps)
    ensures SameFor(After(steps), After(Project(steps, key)), key)
  {
    if steps != [] {
      var front, last := steps[..|steps| - 1], steps[|steps| - 1];
      KeysAreIndependent(front, key);
      OwnKeyOnly(steps);
      var alone := Project(front, key);
      if last.key == key {
        assert (alone + [last])[..|alone|] == alone;
        SameKeyStep(After(front), After(alone), last);
      } else {
        assert Project(steps, key) == alone;
        OtherKeyStep(After(front), After(alone), last, key);
      }
    }
  }

  // ----- who returns -----

  /** What caller `i` does when nothing keeps it from asking for `key` to the end */
  function Script(i: nat, key: string, works: bool): seq<Step> {
    [Step(i, key, Call), Step(i, key, LookUp), Step(i, key, Build(works)), Step(i, key, Insert)]
  }

  /** The steps of one caller */
  function Own(steps: seq<Step>, i: nat): seq<Step> {
    if steps == [] then []
    else Own(steps[..|steps| - 1], i) + if steps[|steps| - 1].i == i then [steps[|steps| - 1]] else []
  }

  /** How caller `i` fares after the first `n` steps of its script, `p` being where it
      looked for its key */
  ghost predicate Fares(steps: seq<Step>, i: nat, key: string, works: bool, n: nat, p: nat)
    requires n <= 4 && (n >= 2 ==> p < |steps|)
  {
    var s := After(steps);
    if n == 0 then i !in s.callers
    else
      && i in s.callers && s.callers[i].key == key
      && (n == 1 ==> s.callers[i].progress == Started)
      && (n >= 2 ==>
            var found := After(steps[..p]).cache;
            if key in found then s.callers[i].progress == Returned(found[key])
            else if n == 2 then s.callers[i].progress == Building
            else if !works then s.callers[i].progress == Failed
            else if n == 3 then s.callers[i].progress == Built
            else key in s.cache && s.callers[i].progress == Returned(s.cache[key]))
  }

  lemma {:induction false} OwnHolds(steps: seq<Step>, p: nat)
    requires p < |steps|
    ensures steps[p] in Own(steps, steps[p].i)
  {
    if p < |steps| - 1 {
      OwnHolds(steps[..|steps| - 1], p);
    }
  }

  lemma OthersStep(s: State, step: Step, i: nat)
    requires step.i != i
    ensures i in Apply(s, step).callers <==> i in s.callers
    ensures i in s.callers ==> Apply(s, step).callers[i] == s.callers[i]
  {
  }

  lemma {:induction false} ScriptFares(steps: seq<Step>, i: nat, key: string, works: bool, n: nat, p: nat)
    requires n <= 4 && Own(steps, i) == Script(i, key, works)[..n]
    requires n >= 2 ==> p < |steps| && steps[p] == Step(i, key, LookUp)
    ensures Fares(steps, i, key, works, n, p)
    decreases |steps|
  {
    if steps != [] {
      var front, last := steps[..|steps| - 1], steps[|steps| - 1];
      if last.i != i {
        assert Own(steps, i) == Own(front, i);
        ScriptFares(front, i, key, works, n, p);
        OthersStep(After(front), last, i);
        StepKeepsEntries(After(front), last);
        assert n >= 2 ==> front[..p] == steps[..p];
      } else {
        OwnLast(steps, i, key, works, n);
        ScriptFares(front, i, key, works, n - 1, p);
        LookedUpThere(steps, i, key, works, n, p);
        OwnStepFares(steps, i, key, works, n, p);
      }
    }
  }

  lemma OwnLast(steps: seq<Step>, i: nat, key: string, works: bool, n: nat)
    requires n <= 4 && Own(steps, i) == Script(i, key, works)[..n]
    requires steps != [] && steps[|steps| - 1].i == i
    ensures n > 0 && steps[|steps| - 1] == Script(i, key, works)[n - 1]
    ensures Own(steps[..|steps| - 1], i) == Script(i, key, works)[..n - 1]
  {
    PrefixLast(Own(steps[..|steps| - 1], i), steps[|steps| - 1], Script(i, key, works), n);
  }

  lemma PrefixLast<T>(front: seq<T>, last: T, all: seq<T>, n: nat)
    requires n <= |all| && front + [last] == all[..n]
    ensures n > 0 && last == all[n - 1] && front == all[..n - 1]
  {
    assert n == |front| + 1 && (front + [last])[n - 1] == last;
    forall k | 0 <= k < |front| ensures front[k] == all[k] {
      assert (front + [last])[k] == front[k];
    }
  }

  lemma LookedUpThere(steps: seq<Step>, i: nat, key: string, works: bool, n: nat, p: nat)
    requires 0 < n <= 4 && steps != [] && steps[|steps| - 1] == Script(i, key, works)[n - 1]
    requires Own(steps[..|steps| - 1], i) == Script(i, key, works)[..n - 1]
    requires n >= 2 ==> p < |steps| && steps[p] == Step(i, key, LookUp)
    ensures n == 2 ==> p == |steps| - 1
    ensures n > 2 ==> p < |steps| - 1
  {
    assert Script(i, key, works)[..1] == [Step(i, key, Call)];
    if n == 2 && p < |steps| - 1 {
      OwnHolds(steps[..|steps| - 1], p);
    }
  }

  lemma OwnStepFares(steps: seq<Step>, i: nat, key: string, works: bool, n: nat, p: nat)
    requires 0 < n <= 4 && steps != [] && steps[|steps| - 1] == Script(i, key, works)[n - 1]
    requires n == 2 ==> p == |steps| - 1
    requires n > 2 ==> p < |steps| - 1
    requires Fares(steps[..|steps| - 1], i, key, works, n - 1, p)
    ensures Fares(steps, i, key, works, n, p)
  {
    var front := steps[..|steps| - 1];
    assert n >= 2 ==> steps[..p] == front[..p];
    StepKeepsEntries(After(front), steps[|steps| - 1]);
  }

  /** Whatever the others do in between, a caller that goes through its steps returns
      when it finds the key or its build works, and fails otherwise; it returns what it
      found, or else what is in the cache after it inserted. */
  lemma CallerReturns(steps: seq<Step>, i: nat, key: string, works: bool, p: nat)
    requires Own(steps, i) == Script(i, key, works)
    requires p < |steps| && steps[p] == Step(i, key, LookUp)
    ensures var s, found := After(steps), After(steps[..p]).cache;
            && i in s.callers && s.callers[i].key == key
            && (s.callers[i].progress.Returned? <==> key in found || works)
            && (s.callers[i].progress.Returned? ==>
                  key in s.cache && s.callers[i].progress.conn == s.cache[key])
            && (key in found ==> s.callers[i].progress == Returned(found[key]))
            && (key !in found && !works ==> s.callers[i].progress == Failed)
  {
    assert Script(i, key, works)[..4] == Script(i, key, works);
    ScriptFares(steps, i, key, works, 4, p);
    AlwaysConsistent(steps);
  }
}
