/** `_merge_schema` of `scripts/generate_openapi.py`. */
module SchemaMerge {
  import opened Options
  import opened Sequences
  import opened OrderedDicts
  import opened Json
  import opened Schemas

  predicate BothAre(l: Schema, r: Schema, t: Type) {
    TypeOf(l) == Some(t) && TypeOf(r) == Some(t)
  }

  /** What `_merge_schema(l, r)` returns */
  function Merge(l: Schema, r: Schema): Schema
    decreases r != EMPTY, r
  {
    if l == EMPTY then r
    else if r == EMPTY then l
    else if BothAre(l, r, ObjectType) then
      WithProperties(l, r, MergeProperties(PropertiesOf(l), PropertiesOf(r), r))
    else if BothAre(l, r, ArrayType) then
      Schema(Set(l.entries, Items(Merge(ItemsOf(l), ItemsOf(r)))))
    else if l == r then l
    else Schema([OneOf(AddNew(AddNew([], Branches(l)), Branches(r)))])
  }

  /** The left dictionary with merged properties; `True` additional properties win. */
  function WithProperties(l: Schema, r: Schema, properties: Dict<Schema>): Schema {
    var described := if properties == [] then l.entries else Set(l.entries, Properties(properties));
    Schema(if HasKey(l, AdditionalProperties) || HasKey(r, AdditionalProperties)
           then Set(described, AdditionalProperties) else described)
  }

  function MergeProperties(lp: Dict<Schema>, rp: Dict<Schema>, ghost bound: Schema): Dict<Schema>
    requires bound != EMPTY && forall p | p in rp :: p.value < bound
    decreases bound != EMPTY, bound, |rp|
  {
    if rp == [] then lp
    else
      var p := rp[0];
      var merged := match Get(lp, p.key) case Some(s) => Merge(s, p.value) case None => p.value;
      MergeProperties(Put(lp, p.key, merged), rp[1..], bound)
  }

  /** The branches of a schema that is nothing but a `oneOf`, or the schema itself */
  function Branches(s: Schema): seq<Schema> {
    if |s.entries| == 1 && s.entries[0].OneOf? then s.entries[0].variants else [s]
  }

  /** `variants` and then the `candidates` that do not occur yet */
  function AddNew(variants: seq<Schema>, candidates: seq<Schema>): seq<Schema>
    decreases |candidates|
  {
    if candidates == [] then variants
    else AddNew(if candidates[0] in variants then variants else variants + [candidates[0]], candidates[1..])
  }

  /** `_merge_schema` as it is written, with its loops over properties and variants */
  method MergeSchema(left: Schema, right: Schema) returns (merged: Schema)
    ensures merged == Merge(left, right)
    decreases right != EMPTY, right
  {
    if left == EMPTY {
      return right;
    }
    if right == EMPTY {
      return left;
    }
    if BothAre(left, right, ObjectType) {
      var properties := PropertiesOf(left);
      var updates := PropertiesOf(right);
      assert updates[0..] == updates;
      for i := 0 to |updates|
        invariant forall p | p in updates[i..] :: p.value < right
        invariant MergeProperties(PropertiesOf(left), updates, right) ==
            MergeProperties(properties, updates[i..], right)
      {
        var p := updates[i];
        assert p in updates && updates[i..][0] == p && updates[i..][1..] == updates[i + 1..];
        var schema := p.value;
        match Get(properties, p.key) {
          case Some(known) => schema := MergeSchema(known, p.value);
          case None =>
        }
        properties := Put(properties, p.key, schema);
      }
      assert updates[|updates|..] == [];
      return WithProperties(left, right, properties);
    }
    if BothAre(left, right, ArrayType) {
      var items := MergeSchema(ItemsOf(left), ItemsOf(right));
      return Schema(Set(left.entries, Items(items)));
    }
    if left == right {
      return left;
    }
    var variants: seq<Schema> := [];
    var candidates := [left, right];
    for i := 0 to 2
      invariant variants == if i == 0 then [] else if i == 1 then AddNew([], Branches(left))
                            else AddNew(AddNew([], Branches(left)), Branches(right))
    {
      var branches := Branches(candidates[i]);
      ghost var before := variants;
      assert branches[0..] == branches;
      for j := 0 to |branches|
        invariant AddNew(before, branches) == AddNew(variants, branches[j..])
      {
        assert branches[j..][0] == branches[j] && branches[j..][1..] == branches[j + 1..];
        if branches[j] !in variants {
          variants := variants + [branches[j]];
        }
      }
      assert branches[|branches|..] == [];
    }
    return Schema([OneOf(variants)]);
  }

  // ----- what is found in a merged schema -----

  lemma ObjectMergeShape(l: Schema, r: Schema)
    requires l != EMPTY && r != EMPTY && BothAre(l, r, ObjectType)
    ensures var m, ps := Merge(l, r), MergeProperties(PropertiesOf(l), PropertiesOf(r), r);
            && TypeOf(m) == Some(ObjectType)
            && PropertiesOf(m) == ps
            && ItemsOf(m) == ItemsOf(l) && VariantsOf(m) == VariantsOf(l)
            && (HasKey(m, OneOf([])) <==> HasKey(l, OneOf([])))
            && (HasKey(m, Items(EMPTY)) <==> HasKey(l, Items(EMPTY)))
            && (HasKey(m, AdditionalProperties) <==> HasKey(l, AdditionalProperties) || HasKey(r, AdditionalProperties))
  {
    MergedIsEmpty(PropertiesOf(l), PropertiesOf(r), r);
    var ps := MergeProperties(PropertiesOf(l), PropertiesOf(r), r);
    FindWithProperties(l, r, ps, TypeIs(NullType));
    FindWithProperties(l, r, ps, Properties([]));
    FindWithProperties(l, r, ps, Items(EMPTY));
    FindWithProperties(l, r, ps, OneOf([]));
    FindWithProperties(l, r, ps, AdditionalProperties);
  }

  lemma FindWithProperties(l: Schema, r: Schema, ps: Dict<Schema>, like: Entry)
    ensures Find(WithProperties(l, r, ps).entries, like) ==
              if like.Properties? && ps != [] then Some(Properties(ps))
              else if like.AdditionalProperties? && (HasKey(l, like) || HasKey(r, like)) then Some(like)
              else Find(l.entries, like)
  {
    var described := if ps == [] then l.entries else Set(l.entries, Properties(ps));
    FindSet(l.entries, Properties(ps), like);
    FindSet(described, AdditionalProperties, like);
  }

  lemma FindSetAll(entries: seq<Entry>, e: Entry)
    ensures forall like :: Find(Set(entries, e), like) == if SameKey(like, e) then Some(e) else Find(entries, like)
  {
    forall like ensures Find(Set(entries, e), like) == if SameKey(like, e) then Some(e) else Find(entries, like) {
      FindSet(entries, e, like);
    }
  }

  lemma {:induction false} MergedIsEmpty(lp: Dict<Schema>, rp: Dict<Schema>, bound: Schema)
    requires bound != EMPTY && forall p | p in rp :: p.value < bound
    ensures MergeProperties(lp, rp, bound) == [] <==> lp == [] && rp == []
    decreases |rp|
  {
    if rp != [] {
      var p := rp[0];
      var merged := match Get(lp, p.key) case Some(s) => Merge(s, p.value) case None => p.value;
      MergedIsEmpty(Put(lp, p.key, merged), rp[1..], bound);
    }
  }

  lemma ArrayMergeShape(l: Schema, r: Schema)
    requires l != EMPTY && r != EMPTY && BothAre(l, r, ArrayType)
    ensures var m := Merge(l, r);
            && TypeOf(m) == Some(ArrayType)
            && ItemsOf(m) == Merge(ItemsOf(l), ItemsOf(r)) && HasKey(m, Items(EMPTY))
            && PropertiesOf(m) == PropertiesOf(l) && VariantsOf(m) == VariantsOf(l)
            && (HasKey(m, OneOf([])) <==> HasKey(l, OneOf([])))
            && (HasKey(m, Properties([])) <==> HasKey(l, Properties([])))
  {
    FindSetAll(l.entries, Items(Merge(ItemsOf(l), ItemsOf(r))));
  }

  lemma {:induction false} AddNewHolds(variants: seq<Schema>, candidates: seq<Schema>)
    ensures forall s :: s in AddNew(variants, candidates) <==> s in variants || s in candidates
    ensures Distinct(variants) ==> Distinct(AddNew(variants, candidates))
    decreases |candidates|
  {
    if candidates != [] {
      var next := if candidates[0] in variants then variants else variants + [candidates[0]];
      AddNewHolds(next, candidates[1..]);
      assert forall s :: s in candidates <==> s == candidates[0] || s in candidates[1..];
    }
  }

  /** Objects are merged by changing nothing but `properties` and `additionalProperties`
      of the left schema, arrays nothing but `items`; other keys of the right are lost. */
  lemma MergedEntries(l: Schema, r: Schema, like: Entry)
    requires l != EMPTY && r != EMPTY
    ensures BothAre(l, r, ObjectType) && !like.Properties? && !like.AdditionalProperties? ==>
              Find(Merge(l, r).entries, like) == Find(l.entries, like)
    ensures BothAre(l, r, ArrayType) && !like.Items? ==>
              Find(Merge(l, r).entries, like) == Find(l.entries, like)
  {
    if BothAre(l, r, ObjectType) {
      FindWithProperties(l, r, MergeProperties(PropertiesOf(l), PropertiesOf(r), r), like);
    } else if BothAre(l, r, ArrayType) {
      FindSetAll(l.entries, Items(Merge(ItemsOf(l), ItemsOf(r))));
    }
  }

  // ----- upper bound -----

  /** Covered on one side, covered by the merge. */
  lemma {:induction false} MergeIsUpperBound(l: Schema, r: Schema, v: Json)
    requires Covers(l, v) || Covers(r, v)
    ensures Covers(Merge(l, r), v)
    decreases r != EMPTY, r, 2
  {
    if l == EMPTY || r == EMPTY {
      EmptyCoversNothing(v);
    } else if BothAre(l, r, ObjectType) {
      ObjectUpperBound(l, r, v);
    } else if BothAre(l, r, ArrayType) {
      ArrayUpperBound(l, r, v);
    } else if l != r {
      OneOfUpperBound(l, r, v);
    }
  }

  lemma ObjectUpperBound(l: Schema, r: Schema, v: Json)
    requires l != EMPTY && r != EMPTY && BothAre(l, r, ObjectType)
    requires Covers(l, v) || Covers(r, v)
    ensures Covers(Merge(l, r), v)
    decreases r != EMPTY, r, 1
  {
    ObjectMergeShape(l, r);
    var ps := MergeProperties(PropertiesOf(l), PropertiesOf(r), r);
    forall m | m in v.members ensures Listed(ps, m.key, m.value) {
      assert Listed(PropertiesOf(l), m.key, m.value) || Listed(PropertiesOf(r), m.key, m.value);
      PropertiesCover(PropertiesOf(l), PropertiesOf(r), r, m.key, m.value);
    }
  }

  lemma ArrayUpperBound(l: Schema, r: Schema, v: Json)
    requires l != EMPTY && r != EMPTY && BothAre(l, r, ArrayType)
    requires Covers(l, v) || Covers(r, v)
    ensures Covers(Merge(l, r), v)
    decreases r != EMPTY, r, 1
  {
    ArrayMergeShape(l, r);
    var items := Merge(ItemsOf(l), ItemsOf(r));
    forall x | x in v.items ensures items != EMPTY && Covers(items, x) {
      EmptyCoversNothing(x);
      ItemCovered(if Covers(l, v) then l else r, v, x);
      MergeIsUpperBound(ItemsOf(l), ItemsOf(r), x);
    }
  }

  lemma ItemCovered(s: Schema, v: Json, x: Json)
    requires TypeOf(s) == Some(ArrayType) && Covers(s, v) && x in v.items
    ensures Covers(ItemsOf(s), x)
  {
  }

  lemma OneOfUpperBound(l: Schema, r: Schema, v: Json)
    requires l != EMPTY && r != EMPTY && l != r && !BothAre(l, r, ObjectType) && !BothAre(l, r, ArrayType)
    requires Covers(l, v) || Covers(r, v)
    ensures Covers(Merge(l, r), v)
  {
    NewOneOfIsDistinct(l, r);
    var variants := AddNew(AddNew([], Branches(l)), Branches(r));
  }

  lemma EmptyCoversNothing(v: Json)
    ensures !Covers(EMPTY, v)
  {
  }

  ghost predicate Listed(ps: Dict<Schema>, key: string, v: Json) {
    exists p | p in ps :: Get(ps, key) == Some(p.value) && Covers(p.value, v)
  }

  lemma {:induction false} PropertiesCover(lp: Dict<Schema>, rp: Dict<Schema>, bound: Schema, key: string, v: Json)
    requires bound != EMPTY && forall p | p in rp :: p.value < bound
    requires Listed(lp, key, v) || Listed(rp, key, v)
    ensures Listed(MergeProperties(lp, rp, bound), key, v)
    decreases bound != EMPTY, bound, 0, |rp|
  {
    if rp != [] {
      var p := rp[0];
      var merged := match Get(lp, p.key) case Some(s) => Merge(s, p.value) case None => p.value;
      var next := Put(lp, p.key, merged);
      GetPut(lp, p.key, merged, key);
      if p.key == key && Get(lp, key).Some? && (Covers(Get(lp, key).value, v) || Covers(p.value, v)) {
        assert p in rp;
        MergeIsUpperBound(Get(lp, key).value, p.value, v);
      }
      PropertiesCover(next, rp[1..], bound, key, v);
    }
  }

  // ----- shape -----

  /** `{}` is the identity of merging. */
  lemma EmptyIsIdentity(s: Schema)
    ensures Merge(EMPTY, s) == s && Merge(s, EMPTY) == s
  {
  }

  /** The names of `b` that `a` does not have */
  function NewNames(a: seq<string>, b: seq<string>): seq<string> {
    if b == [] then [] else (if b[0] in a then [] else [b[0]]) + NewNames(a, b[1..])
  }

  lemma {:induction false} NewNamesAppend(a: seq<string>, n: string, b: seq<string>)
    requires n !in b
    ensures NewNames(a + [n], b) == NewNames(a, b)
  {
    if b != [] {
      NewNamesAppend(a, n, b[1..]);
    }
  }

  lemma DistinctTail(p: Pair<Schema>, rest: Dict<Schema>)
    requires Distinct(Keys([p] + rest))
    ensures Distinct(Keys(rest)) && p.key !in Keys(rest)
  {
    KeysCons(p, rest);
    var all := Keys([p] + rest);
    forall i | 0 <= i < |rest| ensures Keys(rest)[i] != p.key {
      assert all[i + 1] != all[0];
    }
    forall i, j | 0 <= i < j < |rest| ensures Keys(rest)[i] != Keys(rest)[j] {
      assert all[i + 1] != all[j + 1];
    }
  }

  /** Merged properties are the left names and then the new ones, each in order. */
  lemma {:induction false} MergedNames(lp: Dict<Schema>, rp: Dict<Schema>, bound: Schema)
    requires bound != EMPTY && (forall p | p in rp :: p.value < bound) && Distinct(Keys(rp))
    ensures Keys(MergeProperties(lp, rp, bound)) == Keys(lp) + NewNames(Keys(lp), Keys(rp))
    decreases |rp|
  {
    if rp != [] {
      var p, rest := rp[0], rp[1..];
      assert rp == [p] + rest;
      DistinctTail(p, rest);
      var merged := match Get(lp, p.key) case Some(s) => Merge(s, p.value) case None => p.value;
      MergedNames(Put(lp, p.key, merged), rest, bound);
      KeysPut(lp, p.key, merged);
      NewNamesStep(lp, p, rest);
    }
  }

  lemma NewNamesStep(lp: Dict<Schema>, p: Pair<Schema>, rest: Dict<Schema>)
    requires p.key !in Keys(rest)
    ensures var before := if Has(lp, p.key) then Keys(lp) else Keys(lp) + [p.key];
            before + NewNames(before, Keys(rest)) == Keys(lp) + NewNames(Keys(lp), Keys([p] + rest))
  {
    HasKeys(lp, p.key);
    KeysCons(p, rest);
    assert Keys([p] + rest)[1..] == Keys(rest);
    if !Has(lp, p.key) {
      NewNamesAppend(Keys(lp), p.key, Keys(rest));
      assert NewNames(Keys(lp), Keys([p] + rest)) == [p.key] + NewNames(Keys(lp), Keys(rest));
    }
  }

  /** An object merge names exactly the union, left names first. */
  lemma ObjectMergeNames(l: Schema, r: Schema)
    requires l != EMPTY && r != EMPTY && BothAre(l, r, ObjectType) && Distinct(Keys(PropertiesOf(r)))
    ensures Keys(PropertiesOf(Merge(l, r))) ==
            Keys(PropertiesOf(l)) + NewNames(Keys(PropertiesOf(l)), Keys(PropertiesOf(r)))
  {
    ObjectMergeShape(l, r);
    MergedNames(PropertiesOf(l), PropertiesOf(r), r);
  }

  /** A merge of different kinds of schema is a `oneOf` that repeats no branch
      and holds every branch of both sides. */
  lemma NewOneOfIsDistinct(l: Schema, r: Schema)
    requires l != EMPTY && r != EMPTY && l != r && !BothAre(l, r, ObjectType) && !BothAre(l, r, ArrayType)
    ensures var m := Merge(l, r);
            && m == Schema([OneOf(VariantsOf(m))]) && Distinct(VariantsOf(m))
            && forall s :: s in VariantsOf(m) <==> s in Branches(l) || s in Branches(r)
  {
    AddNewHolds([], Branches(l));
    AddNewHolds(AddNew([], Branches(l)), Branches(r));
  }

  lemma {:induction false} MergeKeepsWellFormed(l: Schema, r: Schema)
    requires WellFormed(l) && WellFormed(r)
    ensures WellFormed(Merge(l, r))
    decreases r != EMPTY, r, 1
  {
    if l == EMPTY || r == EMPTY {
    } else if BothAre(l, r, ObjectType) {
      ObjectMergeShape(l, r);
      PropertiesWellFormed(PropertiesOf(l), PropertiesOf(r), r);
      assert ItemsOf(l) == EMPTY;
    } else if BothAre(l, r, ArrayType) {
      ArrayMergeShape(l, r);
      if ItemsOf(l) != EMPTY && ItemsOf(r) != EMPTY {
        MergeKeepsWellFormed(ItemsOf(l), ItemsOf(r));
      }
    } else if l != r {
      var variants := AddNew(AddNew([], Branches(l)), Branches(r));
      AddNewHolds([], Branches(l));
      AddNewHolds(AddNew([], Branches(l)), Branches(r));
      OneOfWellFormed(variants);
    }
  }

  ghost predicate AllWellFormed(ps: Dict<Schema>) {
    Distinct(Keys(ps)) && forall p | p in ps :: WellFormed(p.value)
  }

  lemma {:induction false} PutWellFormed(ps: Dict<Schema>, key: string, s: Schema)
    requires AllWellFormed(ps) && WellFormed(s)
    ensures AllWellFormed(Put(ps, key, s))
  {
    DistinctPut(ps, key, s);
    PutHolds(ps, key, s);
  }

  lemma {:induction false} PropertiesWellFormed(lp: Dict<Schema>, rp: Dict<Schema>, bound: Schema)
    requires bound != EMPTY && forall p | p in rp :: p.value < bound && WellFormed(p.value)
    requires AllWellFormed(lp)
    ensures AllWellFormed(MergeProperties(lp, rp, bound))
    decreases bound != EMPTY, bound, 0, |rp|
  {
    if rp != [] {
      var p := rp[0];
      assert p in rp;
      var merged := p.value;
      match Get(lp, p.key) {
        case Some(s) =>
          MergeKeepsWellFormed(s, p.value);
          merged := Merge(s, p.value);
        case None =>
      }
      PutWellFormed(lp, p.key, merged);
      PropertiesWellFormed(Put(lp, p.key, merged), rp[1..], bound);
    }
  }

  // ----- merging a schema with itself -----

  lemma {:induction false} FindAlike(entries: seq<Entry>, a: Entry, b: Entry)
    requires SameKey(a, b)
    ensures Find(entries, a) == Find(entries, b)
  {
    if entries != [] {
      FindAlike(entries[1..], a, b);
    }
  }

  lemma {:induction false} SetSame(entries: seq<Entry>, e: Entry)
    requires Find(entries, e) == Some(e)
    ensures Set(entries, e) == entries
  {
    if !SameKey(e, entries[0]) {
      SetSame(entries[1..], e);
    }
  }

  /** Merging is idempotent, markers or not. */
  lemma {:induction false} MergeIsIdempotent(s: Schema)
    requires WellFormed(s)
    ensures Merge(s, s) == s
    decreases s != EMPTY, s, 1
  {
    if s == EMPTY {
    } else if TypeOf(s) == Some(ObjectType) {
      var ps := PropertiesOf(s);
      assert ps[0..] == ps;
      PropertiesIdempotent(ps, 0, s);
      if ps != [] {
        FindAlike(s.entries, Properties([]), Properties(ps));
        SetSame(s.entries, Properties(ps));
      }
      if HasKey(s, AdditionalProperties) {
        SetSame(s.entries, AdditionalProperties);
      }
    } else if TypeOf(s) == Some(ArrayType) {
      MergeIsIdempotent(ItemsOf(s));
      FindAlike(s.entries, Items(EMPTY), Items(ItemsOf(s)));
      SetSame(s.entries, Items(ItemsOf(s)));
    }
  }

  lemma {:induction false} PropertiesIdempotent(ps: Dict<Schema>, i: nat, bound: Schema)
    requires i <= |ps| && AllWellFormed(ps) && bound != EMPTY && forall p | p in ps :: p.value < bound
    ensures MergeProperties(ps, ps[i..], bound) == ps
    decreases bound != EMPTY, bound, 0, |ps| - i
  {
    if i < |ps| {
      var p := ps[i];
      assert ps[i..][0] == p && ps[i..][1..] == ps[i + 1..] && p in ps;
      GetAt(ps, i);
      MergeIsIdempotent(p.value);
      PutSame(ps, p.key, p.value);
      PropertiesIdempotent(ps, i + 1, bound);
    }
  }

  // ----- observing a value -----

  /** `_schema_without_evidence_markers` */
  function Evidence(v: Json): Schema {
    Schema(Pop(Infer(v, [], false).entries, Required([])))
  }

  lemma {:induction false} NothingRequired(members: seq<Member>)
    ensures RequiredInOrder(members, []) == []
  {
    if members != [] {
      NothingRequired(members[1..]);
    }
  }

  lemma {:induction false} PopMissing(entries: seq<Entry>, like: Entry)
    requires Find(entries, like).None?
    ensures Pop(entries, like) == entries
  {
    if entries != [] {
      PopMissing(entries[1..], like);
    }
  }

  lemma EvidenceIs(v: Json)
    ensures Evidence(v) == Schema(InferType(v)) == Infer(v, [], false)
  {
    if v.Obj? {
      NothingRequired(v.members);
    }
    assert InferType(v) + [] == InferType(v);
    FindInType(v, Required([]));
    PopMissing(InferType(v), Required([]));
  }

  /** The schema after observing `v` when it was `s` */
  function Observe(s: Schema, v: Json): Schema {
    MarkObserved(Merge(s, Evidence(v)))
  }

  /** Observing a value keeps all earlier evidence and adds that value. */
  lemma ObserveCovers(s: Schema, v: Json)
    requires UniqueKeys(v)
    ensures Covers(Observe(s, v), v)
    ensures forall w | Covers(s, w) :: Covers(Observe(s, v), w)
    ensures WellFormed(s) ==> WellFormed(Observe(s, v))
  {
    EvidenceIs(v);
    var m := Merge(s, Evidence(v));
    MarkKeepsCoverage(m);
    InferCovers(v, [], false);
    forall w | Covers(s, w) || w == v ensures Covers(Observe(s, v), w) {
      MergeIsUpperBound(s, Evidence(v), w);
      SameShapeCovers(m, Observe(s, v), w);
    }
    SameShapeCovers(m, Observe(s, v), v);
    if WellFormed(s) {
      InferWellFormed(v, [], false);
      MergeKeepsWellFormed(s, Evidence(v));
    }
  }

  // ----- merging the same evidence again -----

  /** A merged property is the merge of the properties of that name. */
  lemma {:induction false} MergedProperty(lp: Dict<Schema>, rp: Dict<Schema>, bound: Schema, key: string)
    requires bound != EMPTY && (forall p | p in rp :: p.value < bound) && Distinct(Keys(rp))
    ensures Get(MergeProperties(lp, rp, bound), key) ==
            if Get(rp, key).None? then Get(lp, key)
            else if Get(lp, key).None? then Get(rp, key)
            else Some(Merge(Get(lp, key).value, Get(rp, key).value))
    decreases |rp|
  {
    if rp != [] {
      var p, rest := rp[0], rp[1..];
      assert rp == [p] + rest;
      DistinctTail(p, rest);
      HasKeys(rest, p.key);
      var merged := match Get(lp, p.key) case Some(s) => Merge(s, p.value) case None => p.value;
      GetPut(lp, p.key, merged, key);
      MergedProperty(Put(lp, p.key, merged), rest, bound, key);
    }
  }

  /** Merging properties that have nothing new to say changes nothing. */
  lemma {:induction false} PropertiesAbsorb(lp: Dict<Schema>, rp: Dict<Schema>, bound: Schema)
    requires bound != EMPTY && forall p | p in rp :: p.value < bound
    requires forall p | p in rp :: Get(lp, p.key).Some? && Merge(Get(lp, p.key).value, p.value) == Get(lp, p.key).value
    ensures MergeProperties(lp, rp, bound) == lp
    decreases |rp|
  {
    if rp != [] {
      PutSame(lp, rp[0].key, Get(lp, rp[0].key).value);
      PropertiesAbsorb(lp, rp[1..], bound);
    }
  }

  lemma ObjectAbsorbs(l: Schema, r: Schema)
    requires l != EMPTY && r != EMPTY && BothAre(l, r, ObjectType)
    requires MergeProperties(PropertiesOf(l), PropertiesOf(r), r) == PropertiesOf(l)
    requires HasKey(r, AdditionalProperties) ==> HasKey(l, AdditionalProperties)
    ensures Merge(l, r) == l
  {
    var ps := PropertiesOf(l);
    if ps != [] {
      FindAlike(l.entries, Properties([]), Properties(ps));
      SetSame(l.entries, Properties(ps));
    }
    if HasKey(l, AdditionalProperties) {
      SetSame(l.entries, AdditionalProperties);
    }
  }

  lemma ArrayAbsorbs(l: Schema, r: Schema)
    requires l != EMPTY && r != EMPTY && BothAre(l, r, ArrayType) && HasKey(l, Items(EMPTY))
    requires Merge(ItemsOf(l), ItemsOf(r)) == ItemsOf(l)
    ensures Merge(l, r) == l
  {
    FindAlike(l.entries, Items(EMPTY), Items(ItemsOf(l)));
    SetSame(l.entries, Items(ItemsOf(l)));
  }

  /** Evidence that was merged in is absorbed when it is merged in again. */
  lemma {:induction false} MergeAbsorbs(l: Schema, r: Schema)
    requires WellFormed(l) && WellFormed(r)
    ensures Merge(Merge(l, r), r) == Merge(l, r)
    decreases r != EMPTY, r
  {
    if l == EMPTY || r == EMPTY || l == r {
      MergeIsIdempotent(r);
    } else if BothAre(l, r, ObjectType) {
      ObjectMergeShape(l, r);
      forall p | p in PropertiesOf(r)
        ensures var known := Get(PropertiesOf(Merge(l, r)), p.key);
                known.Some? && Merge(known.value, p.value) == known.value
      {
        GetIn(PropertiesOf(r), p);
        MergedProperty(PropertiesOf(l), PropertiesOf(r), r, p.key);
        if Get(PropertiesOf(l), p.key).Some? {
          MergeAbsorbs(Get(PropertiesOf(l), p.key).value, p.value);
        } else {
          MergeIsIdempotent(p.value);
        }
      }
      PropertiesAbsorb(PropertiesOf(Merge(l, r)), PropertiesOf(r), r);
      ObjectAbsorbs(Merge(l, r), r);
    } else if BothAre(l, r, ArrayType) {
      ArrayMergeShape(l, r);
      if ItemsOf(l) != EMPTY && ItemsOf(r) != EMPTY {
        MergeAbsorbs(ItemsOf(l), ItemsOf(r));
      } else if ItemsOf(r) != EMPTY {
        MergeIsIdempotent(ItemsOf(r));
      }
      ArrayAbsorbs(Merge(l, r), r);
    } else {
      OneOfAbsorbs(l, r);
    }
  }

  lemma {:induction false} NothingNew(variants: seq<Schema>, candidates: seq<Schema>)
    requires forall c | c in candidates :: c in variants
    ensures AddNew(variants, candidates) == variants
    decreases |candidates|
  {
    if candidates != [] {
      assert candidates[0] in candidates;
      NothingNew(variants, candidates[1..]);
    }
  }

  lemma {:induction false} AddDistinct(variants: seq<Schema>, candidates: seq<Schema>)
    requires Distinct(variants + candidates)
    ensures AddNew(variants, candidates) == variants + candidates
    decreases |candidates|
  {
    if candidates != [] {
      forall i | 0 <= i < |variants| ensures variants[i] != candidates[0] {
        assert (variants + candidates)[i] != (variants + candidates)[|variants|];
      }
      assert variants + candidates == (variants + [candidates[0]]) + candidates[1..];
      AddDistinct(variants + [candidates[0]], candidates[1..]);
    }
  }

  lemma OneOfAbsorbs(l: Schema, r: Schema)
    requires l != EMPTY && r != EMPTY && l != r && !BothAre(l, r, ObjectType) && !BothAre(l, r, ArrayType)
    ensures Merge(Merge(l, r), r) == Merge(l, r)
  {
    NewOneOfIsDistinct(l, r);
    var m := Merge(l, r);
    var variants := VariantsOf(m);
    assert TypeOf(m) == None by {
      assert m.entries[1..] == [];
    }
    if m != r {
      assert Branches(m) == variants;
      assert [] + variants == variants;
      AddDistinct([], variants);
      NothingNew(variants, Branches(r));
    }
  }

  // ----- observing the same value again -----

  /** The schema is of the value's own container type, or has seen nothing. */
  predicate SameContainer(s: Schema, v: Json) {
    (v.Obj? && (s == EMPTY || TypeOf(s) == Some(ObjectType))) ||
      (v.Arr? && (s == EMPTY || TypeOf(s) == Some(ArrayType)))
  }

  /** Observing a value twice in a row is observing it once exactly for objects on an
      object schema and arrays on an array schema. Everywhere else the second
      observation leaves two branches that have both seen the value: the marked
      schema of the first observation and the unmarked one of the value. */
  lemma RepeatedObservation(s: Schema, v: Json)
    requires WellFormed(s) && UniqueKeys(v)
    ensures var once := Observe(s, v);
            && (Observe(once, v) == once <==> SameContainer(s, v))
            && (!SameContainer(s, v) ==>
                  && VariantsOf(Observe(once, v)) == [once, Evidence(v)] && TypeOf(Observe(once, v)) == None
                  && Covers(once, v) && Covers(Evidence(v), v))
  {
    EvidenceIs(v);
    InferTypeShape(v);
    InferCovers(v, [], false);
    InferWellFormed(v, [], false);
    ObserveCovers(s, v);
    MergeAbsorbs(s, Evidence(v));
    MarkKeepsCoverage(Merge(s, Evidence(v)));
    if SameContainer(s, v) {
      SetSameMark(Merge(s, Evidence(v)).entries);
      AbsorbedWhenMarked(s, Evidence(v));
    } else {
      GrowsWhenMarked(s, v);
    }
  }

  lemma AbsorbedWhenMarked(s: Schema, e: Schema)
    requires WellFormed(s) && WellFormed(e) && e != EMPTY
    requires var t := TypeOf(e); (t == Some(ObjectType) || t == Some(ArrayType)) && (s == EMPTY || TypeOf(s) == t)
    requires Merge(Merge(s, e), e) == Merge(s, e) && SameShape(Merge(s, e), MarkObserved(Merge(s, e)))
    ensures Merge(MarkObserved(Merge(s, e)), e) == MarkObserved(Merge(s, e))
  {
    var m := Merge(s, e);
    FindSet(m.entries, Observed, AdditionalProperties);
    FindSet(m.entries, Observed, TypeIs(NullType));
    if TypeOf(e) == Some(ObjectType) {
      if s != EMPTY {
        ObjectMergeShape(s, e);
      }
      ObjectMergeShape(m, e);
      ObjectAbsorbs(MarkObserved(m), e);
    } else {
      if s != EMPTY {
        ArrayMergeShape(s, e);
      }
      ArrayMergeShape(m, e);
      ArrayAbsorbs(MarkObserved(m), e);
    }
  }

  lemma MergedContainer(s: Schema, e: Schema)
    requires s != EMPTY && e != EMPTY && e.entries[0].TypeIs? && TypeOf(s) != TypeOf(e)
    ensures TypeOf(Merge(s, e)) == None
  {
    NewOneOfIsDistinct(s, e);
    assert Merge(s, e).entries[1..] == [];
  }

  lemma GrowsWhenMarked(s: Schema, v: Json)
    requires !SameContainer(s, v) && SameShape(Merge(s, Evidence(v)), Observe(s, v))
    requires Evidence(v) == Schema(InferType(v))
    ensures var once := Observe(s, v);
            Observe(once, v) != once && VariantsOf(Observe(once, v)) == [once, Evidence(v)] &&
              TypeOf(Observe(once, v)) == None
    ensures Merge(Observe(s, v), Evidence(v)) == Schema([OneOf([Observe(s, v), Evidence(v)])])
  {
    MarkedHasKey(Merge(s, Evidence(v)));
    EvidenceIsUnmarked(v);
    OtherContainer(s, v);
    TwoBranches(Observe(s, v), Evidence(v));
  }

  lemma MarkedHasKey(s: Schema)
    ensures HasKey(MarkObserved(s), Observed)
  {
    FindSet(s.entries, Observed, Observed);
  }

  lemma EvidenceIsUnmarked(v: Json)
    ensures var e := Schema(InferType(v)); e.entries != [] && e.entries[0].TypeIs? && !HasKey(e, Observed)
  {
    FindInType(v, Observed);
    EntriesOfType(v);
  }

  lemma EntriesOfType(v: Json)
    ensures var es := InferType(v); 1 <= |es| <= 2 && es[0].TypeIs? && (|es| == 2 ==> !es[1].Observed?)
  {
  }

  lemma OtherContainer(s: Schema, v: Json)
    requires !SameContainer(s, v) && SameShape(Merge(s, Evidence(v)), Observe(s, v))
    requires Evidence(v) == Schema(InferType(v))
    ensures !BothAre(Observe(s, v), Evidence(v), ObjectType) && !BothAre(Observe(s, v), Evidence(v), ArrayType)
  {
    InferTypeShape(v);
    if s != EMPTY && TypeOf(s) != TypeOf(Evidence(v)) {
      MergedContainer(s, Evidence(v));
    }
  }

  lemma TwoBranches(once: Schema, e: Schema)
    requires e.entries != [] && e.entries[0].TypeIs?
    requires HasKey(once, Observed) && !HasKey(e, Observed)
    requires !BothAre(once, e, ObjectType) && !BothAre(once, e, ArrayType)
    ensures Merge(once, e) == Schema([OneOf([once, e])])
    ensures var grown := MarkObserved(Merge(once, e));
            grown != once && VariantsOf(grown) == [once, e] && TypeOf(grown) == None
  {
    MarkedIsBranch(once);
    assert Branches(e) == [e];
    assert AddNew([], [once]) == [once];
    assert [e][1..] == [] && [once] + [e] == [once, e];
    assert AddNew([once], [e]) == [once, e];
    OneOfPair(once, e);
  }

  lemma MarkedIsBranch(s: Schema)
    requires HasKey(s, Observed)
    ensures s != EMPTY && Branches(s) == [s]
  {
  }

  lemma OneOfPair(a: Schema, b: Schema)
    ensures var grown := MarkObserved(Schema([OneOf([a, b])]));
            grown != a && VariantsOf(grown) == [a, b] && TypeOf(grown) == None
  {
    var s := Schema([OneOf([a, b])]);
    assert s.entries[1..] == [];
    MarkKeepsCoverage(s);
    assert a in VariantsOf(MarkObserved(s));
  }

  lemma SetSameMark(entries: seq<Entry>)
    ensures Set(Set(entries, Observed), Observed) == Set(entries, Observed)
  {
    FindSet(entries, Observed, Observed);
    SetSame(Set(entries, Observed), Observed);
  }
}
