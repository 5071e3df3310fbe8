/** The reading of `oneOf` in which exactly one branch holds (JSON Schema Core
    2020-12, section 10.2.1.3): when does the schema made from a value take that
    value? */
module OneOfReading {
  import opened Options
  import opened OrderedDicts
  import opened Json
  import opened Schemas
  import opened SchemaMerge
  import opened OpenApiBuild

  function RequiredOf(s: Schema): seq<string> {
    match Find(s.entries, Required([]))
    case Some(Required(names)) => names
    case _ => []
  }

  predicate HasRequired(s: Schema, v: Json) {
    v.Obj? ==> forall name | name in RequiredOf(s) :: exists m :: m in v.members && m.key == name
  }

  /** The value is valid under the schema: its type, the required names, the
      properties and items, and exactly one branch of a `oneOf`. */
  ghost predicate Takes(s: Schema, v: Json)
    decreases s, 2
  {
    HasRequired(s, v) && TakesShape(s, v)
  }

  ghost predicate TakesShape(s: Schema, v: Json)
    decreases s, 1
  {
    && TypeAccepts(TypeOf(s), v)
    && (v.Obj? ==> forall p, m | p in PropertiesOf(s) && m in v.members && m.key == p.key :: Takes(p.value, m.value))
    && (v.Arr? && ItemsOf(s) != EMPTY ==> forall x | x in v.items :: Takes(ItemsOf(s), x))
    && (HasKey(s, OneOf([])) ==> ExactlyOne(Takers(s, v)))
  }

  /** The branches of a schema that take the value */
  ghost function Takers(s: Schema, v: Json): set<int>
    decreases s, 0
  {
    set i | 0 <= i < |VariantsOf(s)| && Takes(VariantsOf(s)[i], v)
  }

  /** The positions at which something holds are one position. */
  ghost predicate ExactlyOne(holds: set<int>) {
    exists i :: holds == {i}
  }

  // ----- the same in terms of values -----

  predicate IsLeaf(v: Json) { !v.Obj? && !v.Arr? }

  predicate AllLeaves(us: seq<Json>) {
    forall k :: 0 <= k < |us| ==> IsLeaf(us[k])
  }

  /** The values have the same schema: the same keys in the same order, and arrays
      of one kind of item, whatever their lengths, or item for item alike. */
  predicate Alike(u: Json, v: Json)
    decreases u, 2
  {
    match u
    case Obj(ms) =>
      && v.Obj? && |ms| == |v.members|
      && forall i :: 0 <= i < |ms| ==> ms[i].key == v.members[i].key && Alike(ms[i].value, v.members[i].value)
    case Arr(us) => v.Arr? && AlikeItems(us, v.items)
    case _ => IsLeaf(v) && LeafType(u) == LeafType(v)
  }

  predicate AlikeItems(us: seq<Json>, vs: seq<Json>)
    decreases us, 1
  {
    if us == [] then vs == []
    else if Uniform(us) then vs != [] && AllAlike(us[0], vs)
    else |us| == |vs| && forall i :: 0 <= i < |us| ==> Alike(us[i], vs[i])
  }

  predicate AllAlike(u: Json, vs: seq<Json>)
    decreases u, 3
  {
    forall i :: 0 <= i < |vs| ==> Alike(u, vs[i])
  }

  predicate Uniform(us: seq<Json>)
    decreases us, 0
  {
    us != [] ==> AllAlike(us[0], us)
  }

  /** Where `u` was seen, `v` is valid too: an integer where a float was, and a float
      without a fractional part where an integer was; an object with like values
      under the keys they share; an array whose items are each like the items seen,
      or, when those are not all alike, like exactly one. */
  ghost predicate Like(u: Json, v: Json)
    decreases u, 1
  {
    match u
    case Obj(ms) =>
      v.Obj? && forall a, b | a in ms && b in v.members && a.key == b.key :: Like(a.value, b.value)
    case Arr(us) => v.Arr? && (us != [] ==> forall x | x in v.items :: LikeItem(us, x))
    case Float(_) => v.Int? || v.Float?
    case Int(_) => v.Int? || (v.Float? && IsWhole(v.text))
    case _ => IsLeaf(v) && LeafType(u) == LeafType(v)
  }

  ghost predicate LikeItem(us: seq<Json>, x: Json)
    requires us != []
    decreases us, 1
  {
    if Uniform(us) then Like(us[0], x) else ExactlyOne(Likers(us, x))
  }

  /** The values seen that the item is like */
  ghost function Likers(us: seq<Json>, x: Json): set<int>
    decreases us, 0
  {
    set i | 0 <= i < |us| && Like(us[i], x)
  }

  // ----- schemas are equal exactly for values that are alike -----

  function SchemaFor(v: Json): Schema {
    Infer(v, [], false)
  }

  lemma SchemaForIs(v: Json)
    ensures SchemaFor(v) == Schema(InferType(v))
  {
    EvidenceIs(v);
  }

  lemma {:induction false} AlikeIs(u: Json, v: Json)
    ensures Alike(u, v) <==> SchemaFor(u) == SchemaFor(v)
    decreases u
  {
    SchemaForIs(u);
    SchemaForIs(v);
    match u
    case Obj(ms) =>
      if v.Obj? {
        forall i | 0 <= i < |ms| && i < |v.members|
          ensures Alike(ms[i].value, v.members[i].value) <==> SchemaFor(ms[i].value) == SchemaFor(v.members[i].value)
        {
          AlikeIs(ms[i].value, v.members[i].value);
        }
        AlikeObjects(ms, v.members);
      }
    case Arr(us) =>
      if v.Arr? {
        forall i, j | 0 <= i < |us| && 0 <= j < |v.items| ensures AlikeSchemas(us[i], v.items[j]) {
          AlikeIs(us[i], v.items[j]);
        }
        forall j | 0 <= j < |us| ensures AlikeSchemas(us[0], us[j]) {
          AlikeIs(us[0], us[j]);
        }
        AlikeArrays(us, v.items);
        ArraySchemas(us, v.items);
      }
    case _ =>
  }

  ghost predicate AlikeSchemas(u: Json, v: Json) {
    Alike(u, v) <==> SchemaFor(u) == SchemaFor(v)
  }

  lemma ArraySchemas(us: seq<Json>, vs: seq<Json>)
    ensures InferType(Arr(us)) == InferType(Arr(vs)) <==> ItemSchema(InferItems(us)) == ItemSchema(InferItems(vs))
  {
    if InferType(Arr(us)) == InferType(Arr(vs)) {
      assert InferType(Arr(us))[1] == InferType(Arr(vs))[1];
    }
  }

  lemma AlikeObjects(ms: seq<Member>, ns: seq<Member>)
    requires forall i :: 0 <= i < |ms| && i < |ns| ==>
        (Alike(ms[i].value, ns[i].value) <==> SchemaFor(ms[i].value) == SchemaFor(ns[i].value))
    ensures Alike(Obj(ms), Obj(ns)) <==> InferType(Obj(ms)) == InferType(Obj(ns))
  {
    var ps, qs := InferMembers(ms), InferMembers(ns);
    if Alike(Obj(ms), Obj(ns)) {
      assert ps == qs;
    }
    if InferType(Obj(ms)) == InferType(Obj(ns)) {
      assert InferType(Obj(ms))[1] == InferType(Obj(ns))[1];
      assert |ms| == |ns| && ps == qs;
      forall i | 0 <= i < |ms| ensures ms[i].key == ns[i].key && SchemaFor(ms[i].value) == SchemaFor(ns[i].value) {
        assert ps[i] == qs[i];
      }
    }
  }

  /** All items have this schema. */
  predicate AllHave(s: Schema, us: seq<Json>) {
    forall i :: 0 <= i < |us| ==> SchemaFor(us[i]) == s
  }

  predicate AllSame(us: seq<Json>) {
    us != [] ==> AllHave(SchemaFor(us[0]), us)
  }

  lemma ItemSchemaIs(us: seq<Json>)
    ensures ItemSchema(InferItems(us)) ==
            if us == [] then EMPTY else if AllSame(us) then SchemaFor(us[0]) else Schema([OneOf(InferItems(us))])
  {
    var schemas := InferItems(us);
    if us != [] && !AllSame(us) {
      var i :| 0 <= i < |us| && SchemaFor(us[i]) != SchemaFor(us[0]);
      assert schemas[i] in schemas;
    }
  }

  lemma SchemaForHasType(v: Json)
    ensures SchemaFor(v).entries != [] && SchemaFor(v).entries[0].TypeIs?
  {
    SchemaForIs(v);
  }

  lemma AlikeArrays(us: seq<Json>, vs: seq<Json>)
    requires forall i, j :: 0 <= i < |us| && 0 <= j < |vs| ==> AlikeSchemas(us[i], vs[j])
    requires forall j :: 0 <= j < |us| ==> AlikeSchemas(us[0], us[j])
    ensures AlikeItems(us, vs) <==> ItemSchema(InferItems(us)) == ItemSchema(InferItems(vs))
  {
    if us == [] || vs == [] {
      EmptyItems(us);
      EmptyItems(vs);
    } else {
      AllAlikeIs(us[0], us);
      if Uniform(us) {
        AlikeUniform(us, vs);
      } else {
        AlikeMixed(us, vs);
      }
    }
  }

  lemma AlikeUniform(us: seq<Json>, vs: seq<Json>)
    requires us != [] && vs != [] && Uniform(us) && AllHave(SchemaFor(us[0]), us)
    requires forall j :: 0 <= j < |vs| ==> AlikeSchemas(us[0], vs[j])
    ensures AlikeItems(us, vs) <==> ItemSchema(InferItems(us)) == ItemSchema(InferItems(vs))
  {
    AllAlikeIs(us[0], vs);
    CommonSchema(us, vs);
  }

  lemma AlikeMixed(us: seq<Json>, vs: seq<Json>)
    requires us != [] && vs != [] && !Uniform(us) && !AllHave(SchemaFor(us[0]), us)
    requires forall i :: 0 <= i < |us| && i < |vs| ==> AlikeSchemas(us[i], vs[i])
    ensures AlikeItems(us, vs) <==> ItemSchema(InferItems(us)) == ItemSchema(InferItems(vs))
  {
    MixedSchema(us, vs);
    if |us| == |vs| {
      forall i | 0 <= i < |us| ensures Alike(us[i], vs[i]) <==> SchemaFor(us[i]) == SchemaFor(vs[i]) {
        assert AlikeSchemas(us[i], vs[i]);
      }
    }
  }

  lemma AllAlikeIs(u: Json, vs: seq<Json>)
    requires forall j :: 0 <= j < |vs| ==> AlikeSchemas(u, vs[j])
    ensures AllAlike(u, vs) <==> AllHave(SchemaFor(u), vs)
  {
    forall j | 0 <= j < |vs| ensures Alike(u, vs[j]) <==> SchemaFor(vs[j]) == SchemaFor(u) {
      assert AlikeSchemas(u, vs[j]);
    }
  }

  lemma EmptyItems(us: seq<Json>)
    ensures ItemSchema(InferItems(us)) == EMPTY <==> us == []
  {
    ItemSchemaIs(us);
    if us != [] {
      SchemaForHasType(us[0]);
    }
  }

  /** A common schema is never a `oneOf`. */
  lemma CommonSchema(us: seq<Json>, vs: seq<Json>)
    requires us != [] && vs != [] && AllSame(us)
    ensures ItemSchema(InferItems(us)) == ItemSchema(InferItems(vs)) <==> AllHave(SchemaFor(us[0]), vs)
  {
    ItemSchemaIs(us);
    ItemSchemaIs(vs);
    SchemaForHasType(us[0]);
  }

  lemma MixedSchema(us: seq<Json>, vs: seq<Json>)
    requires us != [] && vs != [] && !AllSame(us)
    ensures ItemSchema(InferItems(us)) == ItemSchema(InferItems(vs)) <==>
            |us| == |vs| && forall i :: 0 <= i < |us| ==> SchemaFor(us[i]) == SchemaFor(vs[i])
  {
    ItemSchemaIs(us);
    SameLists(us, vs);
    SamePointwise(us, vs);
    if AllSame(vs) {
      CommonSchema(vs, us);
    } else {
      ItemSchemaIs(vs);
    }
  }

  lemma SamePointwise(us: seq<Json>, vs: seq<Json>)
    ensures |us| == |vs| && (forall i :: 0 <= i < |us| ==> SchemaFor(us[i]) == SchemaFor(vs[i])) && AllSame(vs) ==>
        AllSame(us)
  {
  }

  lemma SameLists(us: seq<Json>, vs: seq<Json>)
    ensures InferItems(us) == InferItems(vs) <==> |us| == |vs| && forall i :: 0 <= i < |us| ==>
        SchemaFor(us[i]) == SchemaFor(vs[i])
  {
    var a, b := InferItems(us), InferItems(vs);
    if a == b {
      forall i | 0 <= i < |us| ensures SchemaFor(us[i]) == SchemaFor(vs[i]) {
        assert a[i] == b[i];
      }
    }
  }

  lemma UniformIs(us: seq<Json>)
    ensures Uniform(us) <==> AllSame(us)
  {
    forall i | 0 <= i < |us| ensures AlikeSchemas(us[0], us[i]) {
      AlikeIs(us[0], us[i]);
    }
  }

  // ----- a schema takes exactly the values that are like its own -----

  lemma NothingIsRequired(u: Json)
    ensures RequiredOf(SchemaFor(u)) == []
  {
    SchemaForIs(u);
    FindInType(u, Required([]));
  }

  ghost predicate TakesAsLike(u: Json, v: Json) {
    Takes(SchemaFor(u), v) <==> Like(u, v)
  }

  /** A value's schema takes exactly what is like the value. */
  lemma {:induction false} TakesIsLike(u: Json, v: Json)
    requires UniqueKeys(u)
    ensures TakesAsLike(u, v)
    decreases u
  {
    match u
    case Obj(ms) =>
      ObjectSchemaTakes(ms, v);
      if v.Obj? {
        forall a, b | a in ms && b in v.members ensures TakesAsLike(a.value, b.value) {
          TakesIsLike(a.value, b.value);
        }
        MembersTake(ms, v.members);
      }
    case Arr(us) =>
      ArraySchemaTakes(us, v);
      if v.Arr? {
        forall i, x | 0 <= i < |us| && x in v.items ensures TakesAsLike(us[i], x) {
          TakesIsLike(us[i], x);
        }
        forall x | x in v.items && us != [] ensures Takes(ItemSchema(InferItems(us)), x) <==> LikeItem(us, x) {
          ItemTakes(us, x);
        }
      }
    case _ =>
      LeafSchemaTakes(u, v);
  }

  lemma LeafSchemaTakes(u: Json, v: Json)
    requires IsLeaf(u)
    ensures TakesAsLike(u, v)
  {
    NothingIsRequired(u);
    SchemaForIs(u);
    InferTypeShape(u);
  }

  lemma ObjectSchemaTakes(ms: seq<Member>, v: Json)
    ensures Takes(SchemaFor(Obj(ms)), v) <==> v.Obj? && MembersTaken(InferMembers(ms), v.members)
  {
    NothingIsRequired(Obj(ms));
    SchemaForIs(Obj(ms));
    InferTypeShape(Obj(ms));
  }

  lemma ArraySchemaTakes(us: seq<Json>, v: Json)
    ensures Takes(SchemaFor(Arr(us)), v) <==>
        v.Arr? && (us != [] ==> forall x | x in v.items :: Takes(ItemSchema(InferItems(us)), x))
  {
    NothingIsRequired(Arr(us));
    SchemaForIs(Arr(us));
    InferTypeShape(Arr(us));
    EmptyItems(us);
  }

  ghost predicate MembersTaken(ps: Dict<Schema>, ns: seq<Member>) {
    forall p, m | p in ps && m in ns && m.key == p.key :: Takes(p.value, m.value)
  }

  lemma MembersTake(ms: seq<Member>, ns: seq<Member>)
    requires forall a, b | a in ms && b in ns :: TakesAsLike(a.value, b.value)
    ensures MembersTaken(InferMembers(ms), ns) <==> Like(Obj(ms), Obj(ns))
  {
    var ps := InferMembers(ms);
    if Like(Obj(ms), Obj(ns)) {
      forall p, m | p in ps && m in ns && m.key == p.key ensures Takes(p.value, m.value) {
        var a := MemberOf(ms, p);
        assert TakesAsLike(a.value, m.value);
      }
    }
    if MembersTaken(ps, ns) {
      forall a, b | a in ms && b in ns && a.key == b.key ensures Like(a.value, b.value) {
        PropertyOf(ms, a);
        assert TakesAsLike(a.value, b.value) && Takes(Pair(a.key, SchemaFor(a.value)).value, b.value);
      }
    }
  }

  lemma MemberOf(ms: seq<Member>, p: Pair<Schema>) returns (a: Member)
    requires p in InferMembers(ms)
    ensures a in ms && p == Pair(a.key, SchemaFor(a.value))
  {
    var i :| 0 <= i < |ms| && InferMembers(ms)[i] == p;
    a := ms[i];
  }

  lemma PropertyOf(ms: seq<Member>, a: Member)
    requires a in ms
    ensures Pair(a.key, SchemaFor(a.value)) in InferMembers(ms)
  {
    var i :| 0 <= i < |ms| && ms[i] == a;
    assert InferMembers(ms)[i] == Pair(a.key, SchemaFor(a.value));
  }

  lemma OneOfTakes(variants: seq<Schema>, x: Json)
    ensures var s := Schema([OneOf(variants)]);
            && (Takes(s, x) <==> ExactlyOne(Takers(s, x)))
            && (forall i :: i in Takers(s, x) <==> 0 <= i < |variants| && Takes(variants[i], x))
  {
    var s := Schema([OneOf(variants)]);
    assert s.entries[1..] == [];
    assert TypeOf(s) == None && PropertiesOf(s) == [] && ItemsOf(s) == EMPTY && VariantsOf(s) == variants &&
        RequiredOf(s) == [];
  }

  lemma ItemTakes(us: seq<Json>, x: Json)
    requires us != [] && forall i | 0 <= i < |us| :: TakesAsLike(us[i], x)
    ensures Takes(ItemSchema(InferItems(us)), x) <==> LikeItem(us, x)
  {
    ItemSchemaIs(us);
    UniformIs(us);
    if !AllSame(us) {
      OneOfTakes(InferItems(us), x);
      TakersAreLikers(us, x);
    } else {
      assert TakesAsLike(us[0], x);
    }
  }

  lemma TakersAreLikers(us: seq<Json>, x: Json)
    requires forall i | 0 <= i < |us| :: TakesAsLike(us[i], x)
    ensures Takers(Schema([OneOf(InferItems(us))]), x) == Likers(us, x)
  {
    OneOfTakes(InferItems(us), x);
    var takers, likers := Takers(Schema([OneOf(InferItems(us))]), x), Likers(us, x);
    forall i ensures i in takers <==> i in likers {
      if 0 <= i < |us| {
        assert TakesAsLike(us[i], x);
      }
    }
  }

  // ----- what the generator builds -----

  lemma RequiredNames(v: Json, required: seq<string>, mark: bool)
    ensures RequiredOf(Infer(v, required, mark)) == if v.Obj? then RequiredInOrder(v.members, required) else []
  {
    var names := if v.Obj? then RequiredInOrder(v.members, required) else [];
    FindInType(v, Required([]));
    AppendRequired(InferType(v), names);
    AppendMark(InferType(v) + (if names == [] then [] else [Required(names)]), mark);
  }

  lemma AppendRequired(entries: seq<Entry>, names: seq<string>)
    requires Find(entries, Required([])).None?
    ensures RequiredOf(Schema(entries + (if names == [] then [] else [Required(names)]))) == names
  {
    if names == [] {
      assert entries + [] == entries;
    } else {
      FindAppend(entries, Required(names), Required([]));
    }
  }

  lemma AppendMark(entries: seq<Entry>, mark: bool)
    ensures RequiredOf(Schema(entries + (if mark then [Inferred] else []))) == RequiredOf(Schema(entries))
  {
    if mark {
      FindAppend(entries, Inferred, Required([]));
    } else {
      assert entries + [] == entries;
    }
  }

  lemma {:induction false} RequiredAreKeys(members: seq<Member>, required: seq<string>)
    ensures forall name | name in RequiredInOrder(members, required) :: exists m :: m in members && m.key == name
  {
    if members != [] {
      RequiredAreKeys(members[1..], required);
      assert members[0] in members;
    }
  }

  /** The names required when `u` was seen are keys of `v`. */
  predicate HasKeysOf(u: Json, required: seq<string>, v: Json) {
    u.Obj? && v.Obj? ==>
      forall name | name in RequiredInOrder(u.members, required) :: exists m :: m in v.members && m.key == name
  }

  lemma InferTakes(u: Json, required: seq<string>, mark: bool, v: Json)
    requires UniqueKeys(u)
    ensures Takes(Infer(u, required, mark), v) <==> Like(u, v) && HasKeysOf(u, required, v)
  {
    TakesIsLike(u, v);
    NothingIsRequired(u);
    SchemaForIs(u);
    InferShape(u, required, mark);
    SameShapeTakes(SchemaFor(u), Infer(u, required, mark), v);
    RequiredNames(u, required, mark);
  }

  lemma SameShapeTakes(s: Schema, t: Schema, v: Json)
    requires SameShape(s, t)
    ensures TakesShape(s, v) <==> TakesShape(t, v)
  {
  }

  /** An inferred schema takes the value it was inferred from exactly when the value
      is like itself. */
  lemma InferTakesOwn(v: Json, required: seq<string>, mark: bool)
    requires UniqueKeys(v)
    ensures Takes(Infer(v, required, mark), v) <==> Like(v, v)
  {
    InferTakes(v, required, mark, v);
    if v.Obj? {
      RequiredAreKeys(v.members, required);
    }
  }

  lemma MarkedTakes(s: Schema, v: Json)
    ensures Takes(MarkObserved(s), v) <==> Takes(s, v)
  {
    MarkKeepsCoverage(s);
    SameShapeTakes(s, MarkObserved(s), v);
    FindSet(s.entries, Observed, Required([]));
    assert RequiredOf(MarkObserved(s)) == RequiredOf(s);
  }

  /** The same for a first observation. */
  lemma ObserveTakesOwn(v: Json)
    requires UniqueKeys(v)
    ensures Takes(Observe(EMPTY, v), v) <==> Like(v, v)
  {
    EvidenceIs(v);
    MarkedTakes(Evidence(v), v);
    TakesIsLike(v, v);
  }

  /** And for a repeated one: for a value whose container type the schema shares,
      nothing changes; otherwise exactly one of the first observation's schema and
      the value's own schema has to take it. */
  lemma RepeatedObservationTakes(s: Schema, v: Json)
    requires WellFormed(s) && UniqueKeys(v)
    ensures var once := Observe(s, v);
            Takes(Observe(once, v), v) <==> if SameContainer(s, v) then Takes(once, v) else Takes(once, v) != Like(v, v)
  {
    RepeatedObservation(s, v);
    if !SameContainer(s, v) {
      var once, e := Observe(s, v), Evidence(v);
      EvidenceIs(v);
      TakesIsLike(v, v);
      RepeatedIsPair(s, v);
      MarkedTakes(Merge(once, e), v);
      PairTakes(once, e, v);
    }
  }

  lemma PairTakes(a: Schema, b: Schema, v: Json)
    ensures Takes(Schema([OneOf([a, b])]), v) <==> Takes(a, v) != Takes(b, v)
  {
    OneOfTakes([a, b], v);
    var holds := Takers(Schema([OneOf([a, b])]), v);
    assert 0 in holds <==> Takes(a, v);
    assert 1 in holds <==> Takes(b, v);
    if Takes(a, v) != Takes(b, v) {
      assert holds == if Takes(a, v) then {0} else {1};
    }
  }

  lemma RepeatedIsPair(s: Schema, v: Json)
    requires WellFormed(s) && UniqueKeys(v) && !SameContainer(s, v)
    ensures Merge(Observe(s, v), Evidence(v)) == Schema([OneOf([Observe(s, v), Evidence(v)])])
  {
    EvidenceIs(v);
    MarkKeepsCoverage(Merge(s, Evidence(v)));
    GrowsWhenMarked(s, v);
  }

  /** A leaf that is observed twice is refused; an object or array is taken as it was
      after the first time. */
  lemma ObserveTwiceTakesOwn(v: Json)
    requires UniqueKeys(v)
    ensures Takes(Observe(Observe(EMPTY, v), v), v) <==> !IsLeaf(v) && Like(v, v)
  {
    RepeatedObservationTakes(EMPTY, v);
    ObserveTakesOwn(v);
  }

  /** The schema made from several examples takes one of them exactly when it is
      like just one of them, with the keys that one requires. */
  lemma ExamplesTake(examples: seq<Example>, k: nat)
    requires k < |examples| && |examples| > 1 && forall e | e in examples :: UniqueKeys(e.value)
    ensures Takes(SchemaOf(examples), examples[k].value) <==>
            ExactlyOne(set i | 0 <= i < |examples| && Suits(examples[i], examples[k].value))
  {
    var v, variants := examples[k].value, SchemasOf(examples, false);
    forall i | 0 <= i < |examples| ensures Takes(variants[i], v) <==> Suits(examples[i], v) {
      assert examples[i] in examples;
      ExampleTakes(examples[i], v);
    }
    OneOfTakes(variants, v);
    assert Takers(Schema([OneOf(variants)]), v) == set i | 0 <= i < |examples| && Suits(examples[i], v);
    InferredOneOfTakes(variants, v);
  }

  lemma ExampleTakes(e: Example, v: Json)
    requires UniqueKeys(e.value)
    ensures Takes(Schema(Pop(Infer(e.value, e.required, true).entries, Inferred)), v) <==> Suits(e, v)
  {
    InferTakes(e.value, e.required, true, v);
    PoppedTakes(Infer(e.value, e.required, true), v);
  }

  ghost predicate Suits(e: Example, v: Json) {
    Like(e.value, v) && HasKeysOf(e.value, e.required, v)
  }

  lemma PoppedTakes(s: Schema, v: Json)
    ensures Takes(Schema(Pop(s.entries, Inferred)), v) <==> Takes(s, v)
  {
    PopKeepsShape(s);
    SameShapeTakes(s, Schema(Pop(s.entries, Inferred)), v);
    FindPop(s.entries, Inferred, Required([]));
    assert RequiredOf(Schema(Pop(s.entries, Inferred))) == RequiredOf(s);
  }

  lemma InferredOneOfTakes(variants: seq<Schema>, v: Json)
    ensures Takes(Schema([OneOf(variants), Inferred]), v) <==> Takes(Schema([OneOf(variants)]), v)
  {
    var entries := [OneOf(variants)];
    AppendKeepsShape(entries, Inferred);
    FindAppend(entries, Inferred, Required([]));
    assert entries + [Inferred] == [OneOf(variants), Inferred];
    SameShapeTakes(Schema(entries), Schema(entries + [Inferred]), v);
    assert RequiredOf(Schema(entries + [Inferred])) == RequiredOf(Schema(entries));
  }

  // ----- mixed arrays -----

  /** No item is like an item at another place. */
  ghost predicate Unlike(us: seq<Json>) {
    forall i, j :: 0 <= i < |us| && 0 <= j < |us| && i != j ==> !Like(us[i], us[j])
  }

  /** Every mixed array, at any depth, has items that are unlike each other. */
  ghost predicate Apart(v: Json) {
    match v
    case Obj(ms) => forall m | m in ms :: Apart(m.value)
    case Arr(us) => (Uniform(us) || Unlike(us)) && forall x | x in us :: Apart(x)
    case _ => true
  }

  /** In every mixed array, at any depth, each item is taken by its own branch. */
  ghost predicate OwnBranches(v: Json) {
    match v
    case Obj(ms) => forall m | m in ms :: OwnBranches(m.value)
    case Arr(us) => (Uniform(us) || forall x | x in us :: Like(x, x)) && forall x | x in us :: OwnBranches(x)
    case _ => true
  }

  /** A value is taken by its own schema, each item of a mixed array by its own
      branch, exactly when the items of its mixed arrays are unlike each other. */
  lemma {:induction false} TakesOwnIffApart(v: Json)
    requires UniqueKeys(v)
    ensures Apart(v) <==> Like(v, v) && OwnBranches(v)
    decreases v
  {
    match v
    case Obj(ms) =>
      forall m | m in ms ensures Apart(m.value) <==> Like(m.value, m.value) && OwnBranches(m.value) {
        TakesOwnIffApart(m.value);
      }
      OwnKeysOnly(ms);
    case Arr(us) =>
      forall x | x in us ensures Apart(x) <==> Like(x, x) && OwnBranches(x) {
        TakesOwnIffApart(x);
      }
      if Uniform(us) {
        UniformLikes(us);
      } else if forall x | x in us :: Like(x, x) {
        MixedLikes(us);
      }
    case _ =>
  }

  lemma OwnKeysOnly(ms: seq<Member>)
    requires UniqueKeys(Obj(ms))
    ensures Like(Obj(ms), Obj(ms)) <==> forall m | m in ms :: Like(m.value, m.value)
  {
    forall a, b | a in ms && b in ms && a.key == b.key ensures a == b {
      var i :| 0 <= i < |ms| && ms[i] == a;
      var j :| 0 <= j < |ms| && ms[j] == b;
    }
  }

  lemma UniformLikes(us: seq<Json>)
    requires Uniform(us) && UniqueKeys(Arr(us))
    ensures Like(Arr(us), Arr(us)) <==> forall x | x in us :: Like(x, x)
  {
    forall i | 0 <= i < |us| ensures Like(us[0], us[i]) <==> Like(us[i], us[i]) {
      AlikeIs(us[0], us[i]);
      assert us[0] in us && us[i] in us;
      TakesIsLike(us[0], us[i]);
      TakesIsLike(us[i], us[i]);
    }
  }

  /** A mixed array of items that are like themselves */
  lemma MixedLikes(us: seq<Json>)
    requires !Uniform(us) && forall x | x in us :: Like(x, x)
    ensures Like(Arr(us), Arr(us)) <==> Unlike(us)
  {
    if Unlike(us) {
      forall x | x in us ensures LikeItem(us, x) {
        var i :| 0 <= i < |us| && us[i] == x;
        assert Likers(us, x) == {i};
      }
    }
    if Like(Arr(us), Arr(us)) {
      forall i, j | 0 <= i < |us| && 0 <= j < |us| && i != j ensures !Like(us[i], us[j]) {
        assert us[j] in us && LikeItem(us, us[j]);
        assert j in Likers(us, us[j]) && i !in Likers(us, us[j]);
      }
    }
  }

  /** Objects are like each other exactly when no key they share disagrees. */
  lemma ObjectsLike(ms: seq<Member>, ns: seq<Member>)
    ensures Like(Obj(ms), Obj(ns)) <==> !exists a, b :: a in ms && b in ns && a.key == b.key && !Like(a.value, b.value)
  {
  }

  // ----- arrays of leaves -----

  /** All mixed arrays, at any depth, hold leaves only. */
  ghost predicate Plain(v: Json) {
    match v
    case Obj(ms) => forall m | m in ms :: Plain(m.value)
    case Arr(us) => (Uniform(us) || AllLeaves(us)) && forall x | x in us :: Plain(x)
    case _ => true
  }

  /** Kinds are pairwise different, and no integer stands beside a float. */
  predicate KindsApart(us: seq<Json>) {
    forall i, j :: 0 <= i < |us| && 0 <= j < |us| && i != j ==>
      !(IsLeaf(us[i]) && IsLeaf(us[j]) && LeafType(us[i]) == LeafType(us[j])) && !(us[i].Float? && us[j].Int?)
  }

  lemma LeafLike(u: Json, v: Json)
    requires IsLeaf(u) && IsLeaf(v)
    ensures Like(u, v) <==>
            LeafType(u) == LeafType(v) || (u.Float? && v.Int?) || (u.Int? && v.Float? && IsWhole(v.text))
  {
  }

  /** Leaves are unlike each other exactly when their kinds are apart. */
  lemma LeavesUnlike(us: seq<Json>)
    requires AllLeaves(us)
    ensures Unlike(us) <==> KindsApart(us)
  {
    forall i, j | 0 <= i < |us| && 0 <= j < |us| && i != j
      ensures Like(us[i], us[j]) ==>
          LeafType(us[i]) == LeafType(us[j]) || (us[i].Float? && us[j].Int?) || (us[j].Float? && us[i].Int?)
      ensures LeafType(us[i]) == LeafType(us[j]) || (us[i].Float? && us[j].Int?) ==> Like(us[i], us[j])
    {
      LeafLike(us[i], us[j]);
    }
  }

  /** With leaves only in its mixed arrays, a value is taken by its own schema exactly
      when these have one item of each kind, and not both an integer and a float. */
  lemma PlainTakesOwn(v: Json)
    requires UniqueKeys(v) && Plain(v)
    ensures Like(v, v) <==> Apart(v)
  {
    TakesOwnIffApart(v);
    PlainHasOwnBranches(v);
  }

  lemma {:induction false} PlainHasOwnBranches(v: Json)
    requires Plain(v)
    ensures OwnBranches(v)
    decreases v
  {
    match v
    case Obj(ms) =>
      forall m | m in ms ensures OwnBranches(m.value) {
        PlainHasOwnBranches(m.value);
      }
    case Arr(us) =>
      forall x | x in us ensures OwnBranches(x) && (AllLeaves(us) ==> Like(x, x)) {
        PlainHasOwnBranches(x);
        var i :| 0 <= i < |us| && us[i] == x;
        if AllLeaves(us) {
          LeafLike(us[i], us[i]);
        }
      }
    case _ =>
  }

  // ----- values that are refused -----

  lemma RefusesPair(us: seq<Json>, other: nat, i: nat, j: nat)
    requires other < |us| && i < |us| && j < |us| && i != j && UniqueKeys(Arr(us))
    requires !Alike(us[0], us[other]) && Like(us[i], us[j]) && Like(us[j], us[j])
    ensures !Takes(Observe(EMPTY, Arr(us)), Arr(us))
  {
    ObserveTakesOwn(Arr(us));
    NotUniform(us, other);
    assert i in Likers(us, us[j]) && j in Likers(us, us[j]);
    assert us[j] in us && !LikeItem(us, us[j]);
  }

  lemma NotUniform(us: seq<Json>, other: nat)
    requires other < |us| && !Alike(us[0], us[other])
    ensures !Uniform(us)
  {
  }

  /** A mixed list of leaves with its kinds not apart: observing it again changes
      nothing and the schema covers it, and still it does not take the list it was
      made from. */
  lemma MixedListFails(us: seq<Json>)
    requires !Uniform(us) && !KindsApart(us) && AllLeaves(us)
    ensures var v := Arr(us);
            var once := Observe(EMPTY, v);
            && Observe(once, v) == once && Covers(once, v) && !Takes(once, v)
            && VariantsOf(ItemsOf(once)) == InferItems(us)
  {
    assert UniqueKeys(Arr(us));
    RepeatedObservation(EMPTY, Arr(us));
    ObserveCovers(EMPTY, Arr(us));
    LeavesRefused(us);
    MixedItems(us);
  }

  lemma LeavesRefused(us: seq<Json>)
    requires !Uniform(us) && !KindsApart(us) && AllLeaves(us)
    ensures !Takes(Observe(EMPTY, Arr(us)), Arr(us))
  {
    assert UniqueKeys(Arr(us));
    ObserveTakesOwn(Arr(us));
    forall x | x in us ensures Like(x, x) {
      var i :| 0 <= i < |us| && us[i] == x;
      LeafLike(us[i], us[i]);
    }
    MixedLikes(us);
    LeavesUnlike(us);
  }

  lemma MixedItems(us: seq<Json>)
    requires !Uniform(us)
    ensures VariantsOf(ItemsOf(Observe(EMPTY, Arr(us)))) == InferItems(us)
  {
    ObservedItems(us);
    ItemSchemaIs(us);
    UniformIs(us);
    OneOfVariants(InferItems(us));
  }

  lemma OneOfVariants(variants: seq<Schema>)
    ensures VariantsOf(Schema([OneOf(variants)])) == variants
  {
  }

  lemma ObservedItems(us: seq<Json>)
    ensures ItemsOf(Observe(EMPTY, Arr(us))) == ItemSchema(InferItems(us))
  {
    EvidenceIs(Arr(us));
    InferTypeShape(Arr(us));
    MarkKeepsCoverage(Evidence(Arr(us)));
  }

  const REPEATED_KIND := Arr([Int(1), Str("a"), Int(1)])

  /** A list that repeats a kind */
  lemma RepeatedKindFails()
    ensures !Takes(Observe(EMPTY, REPEATED_KIND), REPEATED_KIND)
  {
    RefusesPair([Int(1), Str("a"), Int(1)], 1, 0, 2);
  }

  /** A list with an integer beside a float */
  lemma IntegerBesideFloatFails()
    ensures var v := Arr([Int(1), Float("1.5")]); !Takes(Observe(EMPTY, v), v)
  {
    RefusesPair([Int(1), Float("1.5")], 1, 1, 0);
  }

  function TwoNumbers(a: Json, b: Json): Json {
    Obj([Member("a", a), Member("b", b)])
  }

  lemma TwoNumbersLike(a: Json, b: Json, c: Json, d: Json)
    ensures Like(TwoNumbers(a, b), TwoNumbers(c, d)) <==> Like(a, c) && Like(b, d)
  {
    var ms, ns := TwoNumbers(a, b).members, TwoNumbers(c, d).members;
    assert ms[0] in ms && ms[1] in ms && ns[0] in ns && ns[1] in ns;
    assert ms[0].key == ns[0].key && ms[1].key == ns[1].key && ms[0].key != ns[1].key && ms[1].key != ns[0].key;
  }

  /** Objects with a whole float under a key where another one has an integer */
  lemma WholeFloatFails()
    ensures var v := Arr([TwoNumbers(Int(1), Float("1.5")), TwoNumbers(Float("2.0"), Int(3))]);
            !Takes(Observe(EMPTY, v), v)
  {
    NumbersRefused(Int(1), Float("1.5"), Float("2.0"), Int(3));
  }

  lemma NumbersRefused(a: Json, b: Json, c: Json, d: Json)
    requires a.Int? && b.Float? && c.Float? && d.Int? && IsWhole(c.text)
    ensures var v := Arr([TwoNumbers(a, b), TwoNumbers(c, d)]); !Takes(Observe(EMPTY, v), v)
  {
    TwoNumbersLike(a, b, c, d);
    TwoNumbersLike(c, d, c, d);
    TwoNumbersUnique(a, b);
    TwoNumbersUnique(c, d);
    NumbersUnalike(a, b, c, d);
    RefusesTwo(TwoNumbers(a, b), TwoNumbers(c, d));
  }

  lemma NumbersUnalike(a: Json, b: Json, c: Json, d: Json)
    requires a.Int? && c.Float?
    ensures !Alike(TwoNumbers(a, b), TwoNumbers(c, d))
  {
    assert !Alike(TwoNumbers(a, b).members[0].value, TwoNumbers(c, d).members[0].value);
  }

  lemma RefusesTwo(u: Json, w: Json)
    requires UniqueKeys(u) && UniqueKeys(w) && !Alike(u, w) && Like(u, w) && Like(w, w)
    ensures !Takes(Observe(EMPTY, Arr([u, w])), Arr([u, w]))
  {
    var us := [u, w];
    assert us[0] == u && us[1] == w;
    RefusesPair(us, 1, 0, 1);
  }

  lemma TwoNumbersUnique(a: Json, b: Json)
    requires IsLeaf(a) && IsLeaf(b)
    ensures UniqueKeys(TwoNumbers(a, b))
  {
  }

  /** The documented examples 1 and 2.0: both branches hold for the second one. */
  lemma WholeFloatExampleFails()
    ensures !Takes(SchemaOf([Example(Int(1), []), Example(Float("2.0"), [])]), Float("2.0"))
  {
    var examples := [Example(Int(1), []), Example(Float("2.0"), [])];
    ExamplesTake(examples, 1);
    var suiting := set i | 0 <= i < |examples| && Suits(examples[i], examples[1].value);
    assert 0 in suiting && 1 in suiting;
  }

  /** An item need not be taken by its own branch: here the first one is taken by the
      second's, and the list by its own schema. */
  lemma ForeignBranch()
    ensures var us := ForeignItems(REPEATED_KIND, Int(1), Float("1.5"));
            Like(Arr(us), Arr(us)) && !Like(us[0], us[0]) && !OwnBranches(Arr(us))
  {
    RepeatedIsUnlikeItself();
    assert !IsWhole("1.5");
    TakenByOther(REPEATED_KIND, Int(1), Float("1.5"));
  }

  lemma RepeatedIsUnlikeItself()
    ensures !Like(REPEATED_KIND, REPEATED_KIND)
  {
    assert UniqueKeys(REPEATED_KIND);
    RepeatedKindFails();
    ObserveTakesOwn(REPEATED_KIND);
  }

  function ForeignItems(k: Json, j: Json, other: Json): seq<Json> {
    [Obj([Member("k", k), Member("j", j)]), Obj([Member("j", other)])]
  }

  lemma Disagree(ms: seq<Member>, ns: seq<Member>, i: nat, j: nat)
    requires i < |ms| && j < |ns| && ms[i].key == ns[j].key && !Like(ms[i].value, ns[j].value)
    ensures !Like(Obj(ms), Obj(ns))
  {
    assert ms[i] in ms && ns[j] in ns;
  }

  lemma TakenByOther(k: Json, j: Json, other: Json)
    requires !Like(k, k) && j.Int? && other.Float? && !IsWhole(other.text)
    ensures var us := ForeignItems(k, j, other); Like(Arr(us), Arr(us)) && !Like(us[0], us[0]) && !OwnBranches(Arr(us))
  {
    var us := ForeignItems(k, j, other);
    Disagree(us[0].members, us[0].members, 0, 0);
    Disagree(us[0].members, us[1].members, 1, 0);
    SecondLikes(k, j, other);
    LikedBySecond(us);
    NotOwnBranches(us);
  }

  lemma SecondLikes(k: Json, j: Json, other: Json)
    requires other.Float? && j.Int?
    ensures var us := ForeignItems(k, j, other); Like(us[1], us[0]) && Like(us[1], us[1])
  {
    var us := ForeignItems(k, j, other);
    forall a, b | a in us[1].members && b in us[0].members && a.key == b.key ensures Like(a.value, b.value) {
      assert a == Member("j", other);
      assert b == Member("j", j) || b == Member("k", k);
    }
  }

  lemma NotOwnBranches(us: seq<Json>)
    requires |us| > 0 && !Uniform(us) && !Like(us[0], us[0])
    ensures !OwnBranches(Arr(us))
  {
    assert us[0] in us;
  }

  lemma LikedBySecond(us: seq<Json>)
    requires |us| == 2 && us[0].Obj? && us[1].Obj? && |us[0].members| != |us[1].members|
    requires !Like(us[0], us[0]) && !Like(us[0], us[1]) && Like(us[1], us[0]) && Like(us[1], us[1])
    ensures !Uniform(us) && Like(Arr(us), Arr(us))
  {
    assert !Alike(us[0], us[1]);
    SecondOnly(us, us[0]);
    SecondOnly(us, us[1]);
  }

  lemma SecondOnly(us: seq<Json>, x: Json)
    requires |us| == 2 && !Like(us[0], x) && Like(us[1], x)
    ensures Likers(us, x) == {1}
  {
  }
}
