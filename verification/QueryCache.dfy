/** `src/core/cache_manager.rs`: a TTL cache with arbitrary eviction, against an
    unbounded timed map. Values are strings; times are the clock readings taken
    under the lock. */
module QueryCache {
  import opened Options

  datatype Entry = Entry(value: string, expiresAt: nat)

  datatype Config = Config(maxSize: nat, ttl: nat)

  type Store = map<string, Entry>

  // ----- the three operations -----

  function Look(store: Store, key: string, now: nat): Option<string> {
    if key in store && now <= store[key].expiresAt then Some(store[key].value) else None
  }

  function AfterGet(store: Store, key: string, now: nat): Store {
    if key in store && now > store[key].expiresAt then store - {key} else store
  }

  /** Storing evicts one entry first when the cache is full and the key is new. */
  predicate Evicts(config: Config, store: Store, key: string) {
    |store| >= config.maxSize && key !in store && store != map[]
  }

  function AfterSet(config: Config, store: Store, key: string, value: string, now: nat, victim: string): Store {
    var kept := if Evicts(config, store, key) then store - {victim} else store;
    kept[key := Entry(value, now + config.ttl)]
  }

  // ----- runs -----

  datatype Op =
    | GetOp(key: string, now: nat)
    | SetOp(key: string, value: string, now: nat, victim: string)
    | ClearOp

  function Apply(config: Config, store: Store, op: Op): Store {
    match op
    case GetOp(key, now) => AfterGet(store, key, now)
    case SetOp(key, value, now, victim) => AfterSet(config, store, key, value, now, victim)
    case ClearOp => map[]
  }

  function After(config: Config, run: seq<Op>): Store {
    if run == [] then map[] else Apply(config, After(config, run[..|run| - 1]), run[|run| - 1])
  }

  /** Every evicted key was in the cache. */
  ghost predicate Legal(config: Config, run: seq<Op>) {
    forall i :: 0 <= i < |run| && run[i].SetOp? ==>
      var store := After(config, run[..i]);
      Evicts(config, store, run[i].key) ==> run[i].victim in store
  }

  ghost predicate Monotone(run: seq<Op>) {
    forall i, j :: 0 <= i < j < |run| && !run[i].ClearOp? && !run[j].ClearOp? ==> run[i].now <= run[j].now
  }

  /** The unbounded map: the last value stored since the cache was last cleared,
      and when it expires */
  function TimedMap(config: Config, run: seq<Op>): Store {
    if run == [] then map[]
    else
      var before := TimedMap(config, run[..|run| - 1]);
      match run[|run| - 1]
      case GetOp(_, _) => before
      case SetOp(key, value, now, _) => before[key := Entry(value, now + config.ttl)]
      case ClearOp => map[]
  }

  lemma LegalFront(config: Config, run: seq<Op>)
    requires Legal(config, run) && run != []
    ensures Legal(config, run[..|run| - 1])
  {
    var front := run[..|run| - 1];
    forall i | 0 <= i < |front| && front[i].SetOp? && Evicts(config, After(config, front[..i]), front[i].key)
      ensures front[i].victim in After(config, front[..i])
    {
      assert front[..i] == run[..i] && front[i] == run[i];
    }
  }

  /** Whatever is evicted, the cache holds only entries of the timed map and never
      more than `maxSize` of them (one, when `maxSize` is zero). */
  lemma {:induction false} CacheIsBounded(config: Config, run: seq<Op>)
    requires Legal(config, run)
    ensures var store, timed := After(config, run), TimedMap(config, run);
            && (forall key | key in store :: key in timed && timed[key] == store[key])
            && |store| <= if config.maxSize == 0 then 1 else config.maxSize
  {
    if run != [] {
      var front, op := run[..|run| - 1], run[|run| - 1];
      LegalFront(config, run);
      CacheIsBounded(config, front);
      assert op.SetOp? ==> run[..|run| - 1] == front;
    }
  }

  // ----- when nothing is evicted -----

  /** The operation at `i` stores something, and no clear follows it. */
  ghost predicate IsSince(run: seq<Op>, i: int) {
    0 <= i < |run| && run[i].SetOp? && forall j :: i < j < |run| ==> !run[j].ClearOp?
  }

  /** The keys stored since the last clear */
  ghost function KeysStored(run: seq<Op>): set<string> {
    set i | 0 <= i < |run| && IsSince(run, i) :: run[i].key
  }

  /** No more than `maxSize` distinct keys were stored since the last clear. */
  ghost predicate Fits(config: Config, run: seq<Op>) {
    |KeysStored(run)| <= config.maxSize
  }

  ghost predicate NotBefore(now: nat, run: seq<Op>) {
    forall i :: 0 <= i < |run| && !run[i].ClearOp? ==> run[i].now <= now
  }

  /** What is missing from the cache has expired. */
  ghost predicate MissesOnlyExpired(store: Store, timed: Store, now: nat) {
    forall key | key in timed :: (key in store && store[key] == timed[key]) || timed[key].expiresAt < now
  }

  lemma SubsetIsSmaller(store: Store, timed: Store, key: string)
    requires (forall k | k in store :: k in timed) && key !in store && key in timed
    ensures |store| < |timed|
  {
    assert store.Keys <= timed.Keys - {key};
    SubsetSize(store.Keys, timed.Keys - {key});
  }

  lemma {:induction false} SubsetSize(a: set<string>, b: set<string>)
    requires a <= b
    ensures |a| <= |b|
  {
    if a != {} {
      var x :| x in a;
      SubsetSize(a - {x}, b - {x});
    }
  }

  lemma {:induction false} NothingIsEvicted(config: Config, run: seq<Op>, now: nat)
    requires Legal(config, run) && Monotone(run) && NotBefore(now, run)
    requires |TimedMap(config, run)| <= config.maxSize
    ensures MissesOnlyExpired(After(config, run), TimedMap(config, run), now)
    ensures forall key | key in After(config, run) :: key in TimedMap(config, run)
    decreases |run|
  {
    if run != [] && !run[|run| - 1].ClearOp? {
      var front, op := run[..|run| - 1], run[|run| - 1];
      LegalFront(config, run);
      CacheIsBounded(config, run);
      if op.SetOp? {
        var store, timed := After(config, front), TimedMap(config, run);
        NothingIsEvicted(config, front, op.now);
        if op.key !in store {
          SubsetIsSmaller(store, timed, op.key);
        }
      } else {
        NothingIsEvicted(config, front, op.now);
      }
    }
  }

  // ----- the answers on a run -----

  /** The operation at `i` is the last one to store the key, and no clear follows it. */
  ghost predicate IsLastStored(run: seq<Op>, key: string, i: int) {
    && 0 <= i < |run| && run[i].SetOp? && run[i].key == key
    && forall j :: i < j < |run| ==> !run[j].ClearOp? && !(run[j].SetOp? && run[j].key == key)
  }

  ghost predicate StoredAt(config: Config, run: seq<Op>, key: string, i: int, value: string, now: nat) {
    IsLastStored(run, key, i) && run[i].value == value && now <= run[i].now + config.ttl
  }

  /** The value was stored last under the key since the last clear, and is not older
      than the time to live. */
  ghost predicate Stored(config: Config, run: seq<Op>, key: string, value: string, now: nat) {
    exists i :: StoredAt(config, run, key, i, value, now)
  }

  ghost predicate OnlyGets(run: seq<Op>, i: int) {
    forall j :: 0 <= i < j < |run| ==> run[j].GetOp?
  }

  lemma LastStoredAppend(run: seq<Op>, op: Op, key: string, i: int)
    ensures IsLastStored(run + [op], key, i) <==>
            if op.SetOp? && op.key == key then i == |run| else IsLastStored(run, key, i) && !op.ClearOp?
  {
    var all := run + [op];
    if IsLastStored(all, key, i) && i < |run| {
      forall j | i < j < |run| ensures !run[j].ClearOp? && !(run[j].SetOp? && run[j].key == key) {
        assert all[j] == run[j];
      }
      assert !all[|run|].ClearOp?;
    }
  }

  ghost predicate HasLast(run: seq<Op>, key: string) {
    exists i :: IsLastStored(run, key, i)
  }

  lemma HasLastAppend(run: seq<Op>, op: Op, key: string)
    ensures HasLast(run + [op], key) <==> (op.SetOp? && op.key == key) || (HasLast(run, key) && !op.ClearOp?)
  {
    forall i
      ensures IsLastStored(run + [op], key, i) <==>
              if op.SetOp? && op.key == key then i == |run| else IsLastStored(run, key, i) && !op.ClearOp?
    {
      LastStoredAppend(run, op, key, i);
    }
    if HasLast(run, key) && !op.ClearOp? && !(op.SetOp? && op.key == key) {
      var i :| IsLastStored(run, key, i);
      assert IsLastStored(run + [op], key, i);
    }
    if op.SetOp? && op.key == key {
      assert IsLastStored(run + [op], key, |run|);
    }
  }

  /** The timed map holds for each key what was stored last under it. */
  lemma {:induction false} TimedMapIs(config: Config, run: seq<Op>, key: string)
    ensures key in TimedMap(config, run) <==> HasLast(run, key)
    ensures forall i | IsLastStored(run, key, i) ::
              key in TimedMap(config, run)
              && TimedMap(config, run)[key] == Entry(run[i].value, run[i].now + config.ttl)
  {
    if run != [] {
      var front, op := run[..|run| - 1], run[|run| - 1];
      assert run == front + [op];
      TimedMapIs(config, front, key);
      HasLastAppend(front, op, key);
      forall i | IsLastStored(run, key, i)
        ensures key in TimedMap(config, run)
        ensures TimedMap(config, run)[key] == Entry(run[i].value, run[i].now + config.ttl)
      {
        LastStoredAppend(front, op, key, i);
      }
    }
  }

  lemma LookTimedIs(config: Config, run: seq<Op>, key: string, now: nat)
    ensures forall v :: Look(TimedMap(config, run), key, now) == Some(v) <==> Stored(config, run, key, v, now)
  {
    TimedMapIs(config, run, key);
    forall v ensures Look(TimedMap(config, run), key, now) == Some(v) <==> Stored(config, run, key, v, now) {
      if Look(TimedMap(config, run), key, now) == Some(v) {
        var i :| IsLastStored(run, key, i);
        assert StoredAt(config, run, key, i, v, now);
      }
    }
  }

  lemma {:induction false} KeysAreStored(config: Config, run: seq<Op>)
    ensures TimedMap(config, run).Keys == KeysStored(run)
  {
    if run != [] {
      var front, op := run[..|run| - 1], run[|run| - 1];
      assert run == front + [op];
      KeysAreStored(config, front);
      KeysAppend(front, op);
    }
  }

  lemma SinceAppend(run: seq<Op>, op: Op, i: int)
    ensures IsSince(run + [op], i) <==> if i == |run| then op.SetOp? else IsSince(run, i) && !op.ClearOp?
  {
    var all := run + [op];
    if IsSince(all, i) && i < |run| {
      assert !all[|run|].ClearOp?;
      assert forall j :: i < j < |run| ==> all[j] == run[j];
    }
  }

  lemma KeysAppend(run: seq<Op>, op: Op)
    ensures KeysStored(run + [op]) ==
            (if op.ClearOp? then {} else KeysStored(run)) + if op.SetOp? then {op.key} else {}
  {
    var all := run + [op];
    forall i ensures IsSince(all, i) <==> if i == |run| then op.SetOp? else IsSince(run, i) && !op.ClearOp? {
      SinceAppend(run, op, i);
    }
    forall key
      ensures key in KeysStored(all) <==>
              (!op.ClearOp? && key in KeysStored(run)) || (op.SetOp? && key == op.key)
    {
      if !op.ClearOp? && key in KeysStored(run) {
        var i :| 0 <= i < |run| && IsSince(run, i) && run[i].key == key;
        assert IsSince(all, i) && all[i].key == key;
      }
      if op.SetOp? {
        assert IsSince(all, |run|) && all[|run|] == op;
      }
    }
  }

  lemma {:induction false} StoredStays(config: Config, run: seq<Op>, i: nat, now: nat)
    requires i < |run| && run[i].SetOp? && OnlyGets(run, i) && NotBefore(now, run) && now <= run[i].now + config.ttl
    ensures run[i].key in After(config, run)
    ensures After(config, run)[run[i].key] == Entry(run[i].value, run[i].now + config.ttl)
    decreases |run|
  {
    if i < |run| - 1 {
      var front := run[..|run| - 1];
      assert run[|run| - 1].GetOp?;
      StoredStays(config, front, i, now);
    }
  }

  /** What the store of a run answers, in terms of the run alone: only what was stored
      last and is fresh; all of it, as long as no more than `maxSize` distinct keys were
      stored since the last clear; and always what was just stored. */
  lemma GetAnswers(config: Config, run: seq<Op>, key: string, now: nat)
    requires Legal(config, run)
    ensures var found := Look(After(config, run), key, now);
            && (found.Some? ==> Stored(config, run, key, found.value, now))
            && (Monotone(run) && NotBefore(now, run) && Fits(config, run) ==>
                  forall v :: found == Some(v) <==> Stored(config, run, key, v, now))
            && (forall i, v | StoredAt(config, run, key, i, v, now) ::
                  NotBefore(now, run) && OnlyGets(run, i) ==> found == Some(v))
  {
    CacheIsBounded(config, run);
    LookTimedIs(config, run, key, now);
    var found := Look(After(config, run), key, now);
    assert found.Some? ==> Look(TimedMap(config, run), key, now) == found;
    if Monotone(run) && NotBefore(now, run) && Fits(config, run) {
      KeysAreStored(config, run);
      NothingIsEvicted(config, run, now);
    }
    forall i, v | StoredAt(config, run, key, i, v, now) && NotBefore(now, run) && OnlyGets(run, i)
      ensures found == Some(v)
    {
      StoredStays(config, run, i, now);
    }
  }

  // ----- operations added to a run -----

  lemma LegalAppend(config: Config, run: seq<Op>, op: Op)
    requires Legal(config, run)
    requires op.SetOp? && Evicts(config, After(config, run), op.key) ==> op.victim in After(config, run)
    ensures Legal(config, run + [op]) && After(config, run + [op]) == Apply(config, After(config, run), op)
  {
    var all := run + [op];
    assert all[..|run|] == run;
    forall i | 0 <= i < |all| && all[i].SetOp? && Evicts(config, After(config, all[..i]), all[i].key)
      ensures all[i].victim in After(config, all[..i])
    {
      if i < |run| {
        assert all[..i] == run[..i] && all[i] == run[i];
      }
    }
  }

  lemma SetAppends(config: Config, run: seq<Op>, key: string, value: string, now: nat, victim: string)
    requires Legal(config, run)
    requires Evicts(config, After(config, run), key) ==> victim in After(config, run)
    ensures var store, after := After(config, run), run + [SetOp(key, value, now, victim)];
            && Legal(config, after)
            && After(config, after) == (if Evicts(config, store, key) then store - {victim} else store)
                                       [key := Entry(value, now + config.ttl)]
  {
    LegalAppend(config, run, SetOp(key, value, now, victim));
    ApplySet(config, After(config, run), key, value, now, victim);
  }

  lemma ApplySet(config: Config, store: Store, key: string, value: string, now: nat, victim: string)
    ensures Apply(config, store, SetOp(key, value, now, victim)) ==
            (if Evicts(config, store, key) then store - {victim} else store)[key := Entry(value, now + config.ttl)]
  {
  }

  // ----- the cache -----

  /** The cache with the operations it has been through */
  class QueryCache {
    const config: Config
    var store: Store
    ghost var run: seq<Op>

    ghost predicate Valid()
      reads this
    {
      Legal(config, run) && store == After(config, run)
    }

    constructor (config: Config)
      ensures Valid() && this.config == config && store == map[] && run == []
    {
      this.config := config;
      store := map[];
      run := [];
    }

    /** What is returned was stored last under the key since the last clear and has not
        expired; it is missed only if it was evicted, which cannot have happened while
        the keys stored since then fit, nor when nothing was stored after it. */
    method Get(key: string, now: nat) returns (value: Option<string>)
      requires Valid()
      modifies this
      ensures Valid() && run == old(run) + [GetOp(key, now)]
      ensures store == if value.None? then old(store) - {key} else old(store)
      ensures value.Some? ==> Stored(config, old(run), key, value.value, now)
      ensures Monotone(old(run)) && NotBefore(now, old(run)) && Fits(config, old(run)) ==>
                forall v :: value == Some(v) <==> Stored(config, old(run), key, v, now)
      ensures forall i, v | StoredAt(config, old(run), key, i, v, now) ::
                NotBefore(now, old(run)) && OnlyGets(old(run), i) ==> value == Some(v)
    {
      GetAnswers(config, run, key, now);
      LegalAppend(config, run, GetOp(key, now));
      run := run + [GetOp(key, now)];
      if key !in store {
        return None;
      }
      var entry := store[key];
      if now > entry.expiresAt {
        store := store - {key};
        return None;
      }
      return Some(entry.value);
    }

    method Set(key: string, value: string, now: nat) returns (ghost victim: string)
      requires Valid()
      modifies this
      ensures Valid() && run == old(run) + [SetOp(key, value, now, victim)]
      ensures var full := |old(store)| >= config.maxSize && key !in old(store) && old(store) != map[];
              && (full ==> victim in old(store))
              && store == (if full then old(store) - {victim} else old(store))[key := Entry(value, now + config.ttl)]
    {
      victim := MakeRoom(key);
      store := store[key := Entry(value, now + config.ttl)];
      SetAppends(config, run, key, value, now, victim);
      run := run + [SetOp(key, value, now, victim)];
    }

    /** The victim is whichever key the hash map lists first. */
    method MakeRoom(key: string) returns (ghost victim: string)
      modifies this`store
      ensures Evicts(config, old(store), key) ==> victim in old(store)
      ensures store == if Evicts(config, old(store), key) then old(store) - {victim} else old(store)
    {
      victim := key;
      if |store| >= config.maxSize && key !in store && store != map[] {
        var oldest :| oldest in store;
        store := store - {oldest};
        victim := oldest;
      }
    }

    method Clear()
      requires Valid()
      modifies this
      ensures Valid() && run == old(run) + [ClearOp] && store == map[]
    {
      LegalAppend(config, run, ClearOp);
      run := run + [ClearOp];
      store := map[];
    }
  }
}
