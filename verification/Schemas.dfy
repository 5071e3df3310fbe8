/** JSON schemas as the generator builds them, `inferred_schema`, and what it
    means for a schema to hold evidence for a value. */
module Schemas {
  import opened Options
  import opened Sequences
  import opened OrderedDicts
  import opened Json

  datatype Type = ObjectType | ArrayType | StringType | IntegerType | NumberType | BooleanType | NullType

  /** One key of a schema dictionary. `AdditionalProperties` stands for the value
      `True`; `Inferred` and `Observed` are the `x-rabbitmq-*` markers. */
  datatype Entry =
    | TypeIs(type_: Type)
    | Properties(properties: Dict<Schema>)
    | Required(names: seq<string>)
    | AdditionalProperties
    | Items(items: Schema)
    | OneOf(variants: seq<Schema>)
    | Inferred
    | Observed

  /** A schema is its dictionary: equal schemas have the same keys in the same order. */
  datatype Schema = Schema(entries: seq<Entry>)

  const EMPTY := Schema([])

  predicate SameKey(a: Entry, b: Entry) {
    match a
    case TypeIs(_) => b.TypeIs?
    case Properties(_) => b.Properties?
    case Required(_) => b.Required?
    case AdditionalProperties => b.AdditionalProperties?
    case Items(_) => b.Items?
    case OneOf(_) => b.OneOf?
    case Inferred => b.Inferred?
    case Observed => b.Observed?
  }

  /** The first entry with the same key as `like` */
  function Find(entries: seq<Entry>, like: Entry): (r: Option<Entry>)
    ensures r.Some? ==> r.value in entries && SameKey(like, r.value)
    ensures r.None? ==> forall e | e in entries :: !SameKey(like, e)
  {
    if entries == [] then None
    else if SameKey(like, entries[0]) then Some(entries[0])
    else Find(entries[1..], like)
  }

  /** `schema[key] = value` */
  function Set(entries: seq<Entry>, e: Entry): seq<Entry> {
    if entries == [] then [e]
    else if SameKey(e, entries[0]) then [e] + entries[1..]
    else [entries[0]] + Set(entries[1..], e)
  }

  /** `schema.pop(key, None)` */
  function Pop(entries: seq<Entry>, like: Entry): seq<Entry> {
    if entries == [] then []
    else if SameKey(like, entries[0]) then entries[1..]
    else [entries[0]] + Pop(entries[1..], like)
  }

  function TypeOf(s: Schema): Option<Type> {
    match Find(s.entries, TypeIs(NullType))
    case Some(TypeIs(t)) => Some(t)
    case _ => None
  }

  function PropertiesOf(s: Schema): (ps: Dict<Schema>)
    ensures forall p | p in ps :: p.value < s
  {
    var e := Find(s.entries, Properties([]));
    if e.Some? then
      assert e.value in s.entries;
      e.value.properties
    else []
  }

  /** `schema.get("items", {})` */
  function ItemsOf(s: Schema): (items: Schema)
    ensures items == EMPTY || items < s
  {
    var e := Find(s.entries, Items(EMPTY));
    if e.Some? then
      assert e.value in s.entries;
      e.value.items
    else EMPTY
  }

  function VariantsOf(s: Schema): (vs: seq<Schema>)
    ensures forall v | v in vs :: v < s
  {
    var e := Find(s.entries, OneOf([]));
    if e.Some? then
      assert e.value in s.entries;
      e.value.variants
    else []
  }

  predicate HasKey(s: Schema, like: Entry) {
    Find(s.entries, like).Some?
  }

  lemma {:induction false} FindSet(entries: seq<Entry>, e: Entry, like: Entry)
    ensures Find(Set(entries, e), like) == if SameKey(like, e) then Some(e) else Find(entries, like)
  {
    if entries != [] && !SameKey(e, entries[0]) {
      FindSet(entries[1..], e, like);
      var r := Set(entries, e);
      assert r[1..] == Set(entries[1..], e);
    }
  }

  // ----- inferred_schema -----

  /** `inferred_schema(value, required, mark_inferred=mark)` */
  function Infer(v: Json, required: seq<string>, mark: bool): Schema
    decreases v, 2
  {
    var names := if v.Obj? then RequiredInOrder(v.members, required) else [];
    var described := InferType(v) + if names == [] then [] else [Required(names)];
    Schema(described + if mark then [Inferred] else [])
  }

  function InferType(v: Json): seq<Entry>
    decreases v, 1
  {
    match v
    case Obj(members) =>
      [TypeIs(ObjectType), if members == [] then AdditionalProperties else Properties(InferMembers(members))]
    case Arr(items) =>
      [TypeIs(ArrayType), Items(ItemSchema(InferItems(items)))]
    case _ => [TypeIs(LeafType(v))]
  }

  /** The common schema of the items, or one branch for each */
  function ItemSchema(schemas: seq<Schema>): Schema {
    if schemas == [] then EMPTY
    else if forall s | s in schemas :: s == schemas[0] then schemas[0]
    else Schema([OneOf(schemas)])
  }

  function LeafType(v: Json): Type
    requires !v.Obj? && !v.Arr?
  {
    match v
    case Bool(_) => BooleanType
    case Int(_) => IntegerType
    case Float(_) => NumberType
    case Str(_) => StringType
    case Null => NullType
  }

  function InferMembers(members: seq<Member>): (ps: Dict<Schema>)
    ensures |ps| == |members|
    ensures forall i :: 0 <= i < |members| ==> ps[i] == Pair(members[i].key, Infer(members[i].value, [], false))
    decreases members, 0
  {
    if members == [] then []
    else [Pair(members[0].key, Infer(members[0].value, [], false))] + InferMembers(members[1..])
  }

  function InferItems(items: seq<Json>): (schemas: seq<Schema>)
    ensures |schemas| == |items|
    ensures forall i :: 0 <= i < |items| ==> schemas[i] == Infer(items[i], [], false)
    decreases items, 0
  {
    if items == [] then [] else [Infer(items[0], [], false)] + InferItems(items[1..])
  }

  /** The keys of the value that are required, in the value's order */
  function RequiredInOrder(members: seq<Member>, required: seq<string>): seq<string> {
    if members == [] then []
    else (if members[0].key in required then [members[0].key] else []) + RequiredInOrder(members[1..], required)
  }

  // ----- evidence -----

  /** The schema was built from values like `v`: an empty schema has seen nothing,
      an object's keys are all listed, `oneOf` has a branch that has seen `v`.
      The markers and `required` play no part. */
  ghost predicate Covers(s: Schema, v: Json)
    decreases s
  {
    match TypeOf(s)
    case None => exists b | b in VariantsOf(s) :: Covers(b, v)
    case Some(ObjectType) =>
      && v.Obj?
      && forall m | m in v.members ::
        exists p | p in PropertiesOf(s) :: Get(PropertiesOf(s), m.key) == Some(p.value) && Covers(p.value, m.value)
    case Some(ArrayType) =>
      && v.Arr?
      && (ItemsOf(s) == EMPTY ==> v.items == [])
      && (ItemsOf(s) != EMPTY ==> forall x | x in v.items :: Covers(ItemsOf(s), x))
    case Some(t) => !v.Obj? && !v.Arr? && t == LeafType(v)
  }

  /** The `type` keyword: integers are numbers, and numbers without a fractional part
      are integers (JSON Schema Validation 2020-12, section 6.1.1). */
  predicate TypeAccepts(t: Option<Type>, v: Json) {
    match t
    case None => true
    case Some(ObjectType) => v.Obj?
    case Some(ArrayType) => v.Arr?
    case Some(NumberType) => v.Int? || v.Float?
    case Some(IntegerType) => v.Int? || (v.Float? && IsWhole(v.text))
    case Some(StringType) => v.Str?
    case Some(BooleanType) => v.Bool?
    case Some(NullType) => v.Null?
  }

  /** The usual open reading of a schema: the empty schema accepts everything,
      unlisted keys are allowed, some branch of a `oneOf` is enough. */
  ghost predicate Accepts(s: Schema, v: Json)
    decreases s
  {
    && TypeAccepts(TypeOf(s), v)
    && (v.Obj? ==> forall p, m | p in PropertiesOf(s) && m in v.members && m.key == p.key :: Accepts(p.value, m.value))
    && (v.Arr? && ItemsOf(s) != EMPTY ==> forall x | x in v.items :: Accepts(ItemsOf(s), x))
    && (HasKey(s, OneOf([])) ==> exists b | b in VariantsOf(s) :: Accepts(b, v))
  }

  /** Object keys are distinct all the way down, as in a Python dictionary. */
  predicate UniqueKeys(v: Json) {
    match v
    case Obj(members) =>
      && (forall i, j :: 0 <= i < j < |members| ==> members[i].key != members[j].key)
      && (forall m | m in members :: UniqueKeys(m.value))
    case Arr(items) => forall x | x in items :: UniqueKeys(x)
    case _ => true
  }

  /** The shape every schema of the generator has: `oneOf` stands without a type,
      `properties` only with objects, `items` always and only with arrays, and
      property names are distinct. */
  ghost predicate WellFormed(s: Schema)
    decreases s
  {
    && (HasKey(s, OneOf([])) ==> TypeOf(s) == None)
    && (HasKey(s, Properties([])) ==> TypeOf(s) == Some(ObjectType))
    && (HasKey(s, Items(EMPTY)) <==> TypeOf(s) == Some(ArrayType))
    && Distinct(Keys(PropertiesOf(s)))
    && (forall p | p in PropertiesOf(s) :: WellFormed(p.value))
    && (ItemsOf(s) != EMPTY ==> WellFormed(ItemsOf(s)))
    && (forall b | b in VariantsOf(s) :: WellFormed(b))
  }

  lemma GetIn<V>(d: Dict<V>, p: Pair<V>)
    requires Distinct(Keys(d)) && p in d
    ensures Get(d, p.key) == Some(p.value)
  {
    var i :| 0 <= i < |d| && d[i] == p;
    GetAt(d, i);
  }

  /** A schema that covers a value also accepts it under the open reading. */
  lemma {:induction false} CoversIsAccepted(s: Schema, v: Json)
    requires WellFormed(s) && Covers(s, v)
    ensures Accepts(s, v)
    decreases s
  {
    match TypeOf(s)
    case None =>
      var b :| b in VariantsOf(s) && Covers(b, v);
      CoversIsAccepted(b, v);
    case Some(ObjectType) =>
      forall p, m | p in PropertiesOf(s) && m in v.members && m.key == p.key ensures Accepts(p.value, m.value) {
        GetIn(PropertiesOf(s), p);
        CoversIsAccepted(p.value, m.value);
      }
    case Some(ArrayType) =>
      if ItemsOf(s) != EMPTY {
        forall x | x in v.items ensures Accepts(ItemsOf(s), x) {
          CoversIsAccepted(ItemsOf(s), x);
        }
      }
    case _ =>
  }

  /** `schema["x-rabbitmq-observed"] = True` */
  function MarkObserved(s: Schema): Schema {
    Schema(Set(s.entries, Observed))
  }

  /** Marking a schema changes neither what it covers nor its shape. */
  lemma MarkKeepsCoverage(s: Schema)
    ensures SameShape(s, MarkObserved(s))
  {
    FindSet(s.entries, Observed, TypeIs(NullType));
    FindSet(s.entries, Observed, Properties([]));
    FindSet(s.entries, Observed, Items(EMPTY));
    FindSet(s.entries, Observed, OneOf([]));
  }

  lemma {:induction false} FindAppend(entries: seq<Entry>, e: Entry, like: Entry)
    ensures Find(entries + [e], like) ==
            if Find(entries, like).Some? then Find(entries, like) else if SameKey(like, e) then Some(e) else None
  {
    if entries == [] {
      assert [e][1..] == [];
    } else {
      assert (entries + [e])[1..] == entries[1..] + [e];
      FindAppend(entries[1..], e, like);
    }
  }

  ghost predicate SameShape(s: Schema, t: Schema) {
    && TypeOf(t) == TypeOf(s) && PropertiesOf(t) == PropertiesOf(s)
    && ItemsOf(t) == ItemsOf(s) && VariantsOf(t) == VariantsOf(s)
    && (HasKey(t, OneOf([])) <==> HasKey(s, OneOf([])))
    && (HasKey(t, Items(EMPTY)) <==> HasKey(s, Items(EMPTY)))
    && (HasKey(t, Properties([])) <==> HasKey(s, Properties([])))
  }

  lemma AppendKeepsShape(entries: seq<Entry>, e: Entry)
    requires e.Inferred? || e.Observed? || e.Required? || e.AdditionalProperties?
    ensures SameShape(Schema(entries), Schema(entries + [e]))
  {
    FindAppend(entries, e, TypeIs(NullType));
    FindAppend(entries, e, Properties([]));
    FindAppend(entries, e, Items(EMPTY));
    FindAppend(entries, e, OneOf([]));
  }

  lemma SameShapeCovers(s: Schema, t: Schema, v: Json)
    requires SameShape(s, t)
    ensures Covers(s, v) <==> Covers(t, v)
    ensures WellFormed(s) <==> WellFormed(t)
  {
  }

  /** What is found in an inferred schema */
  lemma InferShape(v: Json, required: seq<string>, mark: bool)
    ensures SameShape(Schema(InferType(v)), Infer(v, required, mark))
  {
    var names := if v.Obj? then RequiredInOrder(v.members, required) else [];
    var base := InferType(v);
    var described := if names == [] then base else base + [Required(names)];
    assert base + [] == base && described + [] == described;
    AppendKeepsShape(base, Required(names));
    AppendKeepsShape(described, Inferred);
  }

  lemma InferTypeShape(v: Json)
    ensures var s := Schema(InferType(v));
            && TypeOf(s) == Some(if v.Obj? then ObjectType else if v.Arr? then ArrayType else LeafType(v))
            && PropertiesOf(s) == (if v.Obj? then InferMembers(v.members) else [])
            && ItemsOf(s) == (if v.Arr? then ItemSchema(InferItems(v.items)) else EMPTY)
            && VariantsOf(s) == []
            && !HasKey(s, OneOf([])) && (HasKey(s, Items(EMPTY)) <==> v.Arr?)
            && (HasKey(s, Properties([])) ==> v.Obj?)
  {
    match v
    case Obj(_) => InferTypeFinds(v);
    case Arr(_) => InferTypeFinds(v);
    case _ => InferTypeFinds(v);
  }

  lemma InferTypeFinds(v: Json)
    ensures var es := InferType(v);
            && Find(es, TypeIs(NullType)) == Some(es[0])
            && Find(es, Properties([])) == (if |es| == 2 && es[1].Properties? then Some(es[1]) else None)
            && Find(es, Items(EMPTY)) == (if |es| == 2 && es[1].Items? then Some(es[1]) else None)
            && Find(es, OneOf([])) == None
  {
    FindInType(v, TypeIs(NullType));
    FindInType(v, Properties([]));
    FindInType(v, Items(EMPTY));
    FindInType(v, OneOf([]));
  }

  lemma FindInType(v: Json, like: Entry)
    ensures var es := InferType(v);
            Find(es, like) ==
            if SameKey(like, es[0]) then Some(es[0])
            else if |es| == 2 && SameKey(like, es[1]) then Some(es[1]) else None
  {
    var es := InferType(v);
    if |es| == 2 {
      assert es[1..] == [es[1]] && [es[1]][1..] == [];
    } else {
      assert es[1..] == [];
    }
  }

  /** An inferred schema covers the value it was inferred from. */
  lemma {:induction false} InferCovers(v: Json, required: seq<string>, mark: bool)
    requires UniqueKeys(v)
    ensures Covers(Infer(v, required, mark), v)
    decreases v
  {
    InferShape(v, required, mark);
    SameShapeCovers(Schema(InferType(v)), Infer(v, required, mark), v);
    match v
    case Obj(members) =>
      forall m | m in members ensures Covers(Infer(m.value, [], false), m.value) {
        InferCovers(m.value, [], false);
      }
      InferObjectCovers(v);
    case Arr(items) =>
      forall x | x in items ensures Covers(Infer(x, [], false), x) {
        InferCovers(x, [], false);
      }
      InferArrayCovers(v);
    case _ =>
      InferTypeShape(v);
  }

  lemma InferObjectCovers(v: Json)
    requires v.Obj? && UniqueKeys(v)
    requires forall m | m in v.members :: Covers(Infer(m.value, [], false), m.value)
    ensures Covers(Schema(InferType(v)), v)
  {
    InferTypeShape(v);
    var ps := InferMembers(v.members);
    assert PropertiesOf(Schema(InferType(v))) == ps;
    forall m | m in v.members
      ensures exists p | p in ps :: Get(ps, m.key) == Some(p.value) && Covers(p.value, m.value)
    {
      var i :| 0 <= i < |v.members| && v.members[i] == m;
      GetAt(ps, i);
      assert ps[i] in ps;
    }
  }

  lemma InferArrayCovers(v: Json)
    requires v.Arr?
    requires forall x | x in v.items :: Covers(Infer(x, [], false), x)
    ensures Covers(Schema(InferType(v)), v)
  {
    InferTypeShape(v);
    forall x | x in v.items
      ensures ItemSchema(InferItems(v.items)) != EMPTY && Covers(ItemSchema(InferItems(v.items)), x)
    {
      ItemSchemaCovers(v.items, x);
    }
  }

  lemma ItemSchemaCovers(items: seq<Json>, x: Json)
    requires x in items && Covers(Infer(x, [], false), x)
    ensures var s := ItemSchema(InferItems(items)); s != EMPTY && Covers(s, x)
  {
    var i :| 0 <= i < |items| && items[i] == x;
    OneOfCovers(InferItems(items), i, x);
    InferIsNotEmpty(items[0]);
    CommonOrOneOf(InferItems(items), i);
  }

  lemma InferIsNotEmpty(v: Json)
    ensures Infer(v, [], false) != EMPTY
  {
    assert InferType(v) != [];
  }

  lemma CommonOrOneOf(schemas: seq<Schema>, i: nat)
    requires i < |schemas|
    ensures ItemSchema(schemas) == schemas[0] == schemas[i] || ItemSchema(schemas) == Schema([OneOf(schemas)])
  {
    assert schemas[i] in schemas;
  }

  lemma OneOfCovers(variants: seq<Schema>, i: nat, v: Json)
    requires i < |variants| && Covers(variants[i], v)
    ensures Covers(Schema([OneOf(variants)]), v)
  {
    var s := Schema([OneOf(variants)]);
    assert VariantsOf(s) == variants;
    assert s.entries[1..] == [];
    assert variants[i] in VariantsOf(s);
  }

  lemma {:induction false} InferWellFormed(v: Json, required: seq<string>, mark: bool)
    requires UniqueKeys(v)
    ensures WellFormed(Infer(v, required, mark))
    decreases v
  {
    InferShape(v, required, mark);
    SameShapeCovers(Schema(InferType(v)), Infer(v, required, mark), v);
    InferTypeShape(v);
    match v
    case Obj(members) =>
      forall m | m in members ensures WellFormed(Infer(m.value, [], false)) {
        InferWellFormed(m.value, [], false);
      }
      InferMembersWellFormed(members);
    case Arr(items) =>
      forall x | x in items ensures WellFormed(Infer(x, [], false)) {
        InferWellFormed(x, [], false);
      }
      ItemSchemaWellFormed(items);
    case _ =>
  }

  lemma InferMembersWellFormed(members: seq<Member>)
    requires forall i, j :: 0 <= i < j < |members| ==> members[i].key != members[j].key
    requires forall m | m in members :: WellFormed(Infer(m.value, [], false))
    ensures Distinct(Keys(InferMembers(members))) && forall p | p in InferMembers(members) :: WellFormed(p.value)
  {
    forall p | p in InferMembers(members) ensures WellFormed(p.value) {
      var i :| 0 <= i < |members| && p == Pair(members[i].key, Infer(members[i].value, [], false));
      assert members[i] in members;
    }
  }

  lemma ItemSchemaWellFormed(items: seq<Json>)
    requires forall x | x in items :: WellFormed(Infer(x, [], false))
    ensures WellFormed(ItemSchema(InferItems(items)))
  {
    var schemas := InferItems(items);
    forall t | t in schemas ensures WellFormed(t) {
      var i :| 0 <= i < |items| && t == Infer(items[i], [], false);
      assert items[i] in items;
    }
    OneOfWellFormed(schemas);
  }

  lemma OneOfWellFormed(variants: seq<Schema>)
    requires forall t | t in variants :: WellFormed(t)
    ensures WellFormed(Schema([OneOf(variants)]))
  {
    var s := Schema([OneOf(variants)]);
    assert VariantsOf(s) == variants;
    assert s.entries[1..] == [];
  }

  // ----- the keys that are required -----

  /** The positions, in ascending order, of the members whose keys are required */
  ghost predicate ArePositions(members: seq<Member>, required: seq<string>, at: seq<int>) {
    && (forall i, j :: 0 <= i < j < |at| ==> at[i] < at[j])
    && (forall k :: k in at <==> 0 <= k < |members| && members[k].key in required)
  }

  /** The keys of the value that are required, each where it stands in the value */
  ghost predicate ListsRequired(names: seq<string>, members: seq<Member>, required: seq<string>) {
    exists at :: ArePositions(members, required, at) && AreKeysAt(names, members, at)
  }

  ghost predicate AreKeysAt(names: seq<string>, members: seq<Member>, at: seq<int>) {
    |at| == |names| && forall i :: 0 <= i < |at| ==> 0 <= at[i] < |members| && names[i] == members[at[i]].key
  }

  lemma {:induction false} RequiredPositions(members: seq<Member>, required: seq<string>) returns (at: seq<int>)
    ensures ArePositions(members, required, at)
    ensures AreKeysAt(RequiredInOrder(members, required), members, at)
  {
    at := [];
    if members != [] {
      var n := |members| - 1;
      var front := members[..n];
      var before := RequiredPositions(front, required);
      at := before + if members[n].key in required then [n] else [];
      RequiredAppend(front, members[n], required);
      assert members == front + [members[n]];
      assert forall k :: k in at <==> k in before || (k == n && members[n].key in required);
    }
  }

  lemma {:induction false} RequiredAppend(members: seq<Member>, m: Member, required: seq<string>)
    ensures RequiredInOrder(members + [m], required) ==
            RequiredInOrder(members, required) + if m.key in required then [m.key] else []
  {
    if members == [] {
      assert [] + [m] == [m] && [m][1..] == [];
    } else {
      assert (members + [m])[1..] == members[1..] + [m];
      RequiredAppend(members[1..], m, required);
    }
  }

  /** An inferred schema has a `required` list exactly when some key of the value is
      required, the list holds those keys in the value's order, and the schema carries
      the marker exactly when it was asked for. */
  lemma InferRequires(v: Json, required: seq<string>, mark: bool)
    ensures var found := Find(Infer(v, required, mark).entries, Required([]));
            && (found.Some? <==> v.Obj? && exists m :: m in v.members && m.key in required)
            && (found.Some? ==> ListsRequired(found.value.names, v.members, required))
    ensures Inferred in Infer(v, required, mark).entries <==> mark
  {
    var names := if v.Obj? then RequiredInOrder(v.members, required) else [];
    InferFindsRequired(v, required, mark, names);
    if v.Obj? {
      var at := RequiredPositions(v.members, required);
      assert ListsRequired(names, v.members, required);
      NoneRequired(v.members, required, at);
    }
  }

  lemma InferFindsRequired(v: Json, required: seq<string>, mark: bool, names: seq<string>)
    requires names == if v.Obj? then RequiredInOrder(v.members, required) else []
    ensures Find(Infer(v, required, mark).entries, Required([])) == if names == [] then None else Some(Required(names))
    ensures Inferred in Infer(v, required, mark).entries <==> mark
  {
    InferTypeIsPlain(v);
    TailFinds(InferType(v), names, mark);
  }

  lemma TailFinds(base: seq<Entry>, names: seq<string>, mark: bool)
    requires forall e | e in base :: !e.Required? && !e.Inferred?
    ensures var entries := (base + if names == [] then [] else [Required(names)]) + if mark then [Inferred] else [];
            && Find(entries, Required([])) == (if names == [] then None else Some(Required(names)))
            && (Inferred in entries <==> mark)
  {
    var described := base + if names == [] then [] else [Required(names)];
    FindNone(base, Required([]));
    FindAppend(base, Required(names), Required([]));
    FindAppend(described, Inferred, Required([]));
    assert base + [] == base && described + [] == described;
  }

  lemma {:induction false} FindNone(entries: seq<Entry>, like: Entry)
    requires forall e | e in entries :: !SameKey(like, e)
    ensures Find(entries, like) == None
  {
  }

  lemma InferTypeIsPlain(v: Json)
    ensures forall e | e in InferType(v) :: !e.Required? && !e.Inferred?
  {
    match v
    case Obj(_) =>
    case Arr(_) =>
    case _ =>
  }

  lemma NoneRequired(members: seq<Member>, required: seq<string>, at: seq<int>)
    requires ArePositions(members, required, at)
    ensures at == [] <==> !exists m :: m in members && m.key in required
  {
    if at != [] {
      assert at[0] in at;
      assert members[at[0]] in members;
    }
    if m :| m in members && m.key in required {
      var k :| 0 <= k < |members| && members[k] == m;
      assert k in at;
    }
  }
}
