/** Insertion-ordered dictionaries with string keys (Python's `dict` and
    `OrderedDict`): equality is equality of the pairs in order. */
module OrderedDicts {
  import opened Options
  import opened Sequences

  datatype Pair<+V> = Pair(key: string, value: V)

  type Dict<+V> = seq<Pair<V>>

  /** `d.get(k)` */
  function Get<V>(d: Dict<V>, k: string): (r: Option<V>)
    ensures r.Some? <==> Has(d, k)
    ensures r.Some? ==> Pair(k, r.value) in d
  {
    if d == [] then None
    else if d[0].key == k then
      assert d[0] == Pair(k, d[0].value);
      Some(d[0].value)
    else Get(d[1..], k)
  }

  /** `k in d` */
  predicate Has<V>(d: Dict<V>, k: string) {
    exists i :: 0 <= i < |d| && d[i].key == k
  }

  /** `d[k] = v`: replaced where it stands, or appended */
  function Put<V>(d: Dict<V>, k: string, v: V): (r: Dict<V>)
  {
    if d == [] then [Pair(k, v)]
    else if d[0].key == k then [Pair(k, v)] + d[1..]
    else [d[0]] + Put(d[1..], k, v)
  }

  function Keys<V>(d: Dict<V>): (ks: seq<string>)
    ensures |ks| == |d|
    ensures forall i :: 0 <= i < |d| ==> ks[i] == d[i].key
  {
    seq(|d|, i requires 0 <= i < |d| => d[i].key)
  }

  lemma {:induction false} GetPut<V>(d: Dict<V>, k: string, v: V, k': string)
    ensures Get(Put(d, k, v), k') == if k' == k then Some(v) else Get(d, k')
  {
    if d != [] && d[0].key != k {
      GetPut(d[1..], k, v, k');
      var p := Put(d, k, v);
      assert p[1..] == Put(d[1..], k, v);
    }
  }

  lemma KeysCons<V>(p: Pair<V>, d: Dict<V>)
    ensures Keys([p] + d) == [p.key] + Keys(d)
  {
  }

  lemma HasCons<V>(p: Pair<V>, d: Dict<V>, k: string)
    ensures Has([p] + d, k) <==> p.key == k || Has(d, k)
  {
    var e := [p] + d;
    if p.key == k {
      assert e[0].key == k;
    }
    if Has(d, k) {
      var i :| 0 <= i < |d| && d[i].key == k;
      assert e[i + 1].key == k;
    }
    if Has(e, k) {
      var i :| 0 <= i < |e| && e[i].key == k;
      if i > 0 {
        assert d[i - 1].key == k;
      }
    }
  }

  /** Writing keeps the keys in order; a new key goes to the end. */
  lemma {:induction false} KeysPut<V>(d: Dict<V>, k: string, v: V)
    ensures Keys(Put(d, k, v)) == if Has(d, k) then Keys(d) else Keys(d) + [k]
  {
    if d == [] {
    } else {
      var head, tail := d[0], d[1..];
      assert d == [head] + tail;
      KeysCons(head, tail);
      HasCons(head, tail, k);
      if head.key == k {
        KeysCons(Pair(k, v), tail);
      } else {
        KeysPut(tail, k, v);
        KeysCons(head, Put(tail, k, v));
      }
    }
  }

  lemma HasKeys<V>(d: Dict<V>, k: string)
    ensures Has(d, k) <==> k in Keys(d)
  {
    if Has(d, k) {
      var i :| 0 <= i < |d| && d[i].key == k;
      assert Keys(d)[i] == k;
    }
  }

  lemma DistinctPut<V>(d: Dict<V>, k: string, v: V)
    requires Distinct(Keys(d))
    ensures Distinct(Keys(Put(d, k, v)))
  {
    KeysPut(d, k, v);
    HasKeys(d, k);
  }

  /** With distinct keys every stored pair is the one that is found. */
  lemma {:induction false} GetAt<V>(d: Dict<V>, i: nat)
    requires Distinct(Keys(d)) && i < |d|
    ensures Get(d, d[i].key) == Some(d[i].value)
  {
    if i > 0 {
      assert Keys(d)[0] != Keys(d)[i];
      assert Distinct(Keys(d[1..])) by {
        forall a, b | 0 <= a < b < |d| - 1 ensures Keys(d[1..])[a] != Keys(d[1..])[b] {
          assert Keys(d)[a + 1] != Keys(d)[b + 1];
        }
      }
      GetAt(d[1..], i - 1);
    }
  }

  lemma {:induction false} PutSame<V>(d: Dict<V>, key: string, v: V)
    requires Get(d, key) == Some(v)
    ensures Put(d, key, v) == d
  {
    if d[0].key != key {
      PutSame(d[1..], key, v);
    }
  }

  /** The same keys with `f` of the values */
  function MapValues<V, W>(d: Dict<V>, f: V -> W): (r: Dict<W>)
    ensures |r| == |d|
    ensures forall i :: 0 <= i < |d| ==> r[i] == Pair(d[i].key, f(d[i].value))
  {
    seq(|d|, i requires 0 <= i < |d| => Pair(d[i].key, f(d[i].value)))
  }

  lemma {:induction false} MapPut<V, W>(d: Dict<V>, k: string, v: V, f: V -> W)
    ensures MapValues(Put(d, k, v), f) == Put(MapValues(d, f), k, f(v))
  {
    if d != [] && d[0].key != k {
      MapPut(d[1..], k, v, f);
      assert MapValues(d, f)[1..] == MapValues(d[1..], f);
    }
  }

  lemma {:induction false} MapGet<V, W>(d: Dict<V>, k: string, f: V -> W)
    ensures Get(MapValues(d, f), k) == if Get(d, k).Some? then Some(f(Get(d, k).value)) else None
  {
    if d != [] && d[0].key != k {
      MapGet(d[1..], k, f);
      assert MapValues(d, f)[1..] == MapValues(d[1..], f);
    }
  }

  lemma {:induction false} PutHolds<V>(d: Dict<V>, k: string, v: V)
    ensures forall p | p in Put(d, k, v) :: p in d || p == Pair(k, v)
  {
    if d != [] && d[0].key != k {
      PutHolds(d[1..], k, v);
    }
  }
}
