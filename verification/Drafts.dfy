/** Schemas as their authors write them, how they are compiled, and what the standard says they mean. */
module Drafts {
  import opened Bytes
  import opened Dom
  import opened Decimals
  import opened Schemas
  import opened Validation
  import Events
  import JsonText
  import Lexing
  import Numbers
  import RoundTrip

  datatype DraftAdditional = Anything | Nothing | Only(schema: Draft)

  datatype DraftItems = NoItems | List(schema: Draft) | Positions(schemas: seq<Draft>)

  datatype Declared = Declared(name: Text, schema: Draft)

  /** The keywords of a schema, section 5 of draft-fge-json-schema-validation-00. */
  datatype Draft = Draft(
    types: Types,
    allOf: seq<Draft>,
    anyOf: seq<Draft>,
    oneOf: seq<Draft>,
    negated: Option<Draft>,
    properties: seq<Declared>,
    required: seq<Text>,
    additionalProperties: DraftAdditional,
    minProperties: Option<nat>,
    maxProperties: Option<nat>,
    items: DraftItems,
    additionalItems: DraftAdditional,
    minItems: Option<nat>,
    maxItems: Option<nat>,
    minimum: Bound,
    maximum: Bound,
    defaultLength: nat)

  const EMPTY_DRAFT: Draft := Draft(ANY_TYPE, [], [], [], None, [], [], Anything, None, None, NoItems, Anything, None, None, NoBound, NoBound, 0)

  // ------------------------------------------------------------ compiling

  /** A size is taken if it fits SizeType, otherwise the keyword is ignored. */
  function Size(o: Option<nat>, default: nat): nat {
    if o.Some? && o.value <= MAX_SIZE then o.value else default
  }

  function AddUnique(names: seq<Text>, name: Text): seq<Text> {
    if name in names then names else names + [name]
  }

  /** The names of the property table: those declared, then those required. */
  function TableNames(ds: seq<Declared>, required: seq<Text>): seq<Text> {
    AddRequired(AddDeclared([], ds), required)
  }

  function AddDeclared(names: seq<Text>, ds: seq<Declared>): seq<Text>
    decreases |ds|
  {
    if ds == [] then names else AddDeclared(AddUnique(names, ds[0].name), ds[1..])
  }

  function AddRequired(names: seq<Text>, required: seq<Text>): seq<Text>
    decreases |required|
  {
    if required == [] then names else AddRequired(AddUnique(names, required[0]), required[1..])
  }

  /** The declaration of a name; a repeated one replaces those before it. */
  function Lookup(ds: seq<Declared>, name: Text): (r: Option<Declared>)
    ensures r.Some? ==> r.value in ds && r.value.name == name
    decreases |ds|
  {
    if ds == [] then None
    else
      var later := Lookup(ds[1..], name);
      if later.Some? then later else if ds[0].name == name then Some(ds[0]) else None
  }

  function CompileTable(d: Draft, names: seq<Text>): (r: seq<Property>)
    ensures |r| == |names|
    decreases d, 0, |names|
  {
    if names == [] then []
    else
      var found := Lookup(d.properties, names[0]);
      var schema := if found.Some? then CompileDeclared(d, found.value) else TYPELESS;
      [Property(names[0], schema, names[0] in d.required)] + CompileTable(d, names[1..])
  }

  function CompileDeclared(d: Draft, p: Declared): Schema
    requires p in d.properties
    decreases d, 0, 0
  {
    Compile(p.schema)
  }

  function CompileAll(ds: seq<Draft>): (r: seq<Schema>)
    ensures |r| == |ds|
    decreases ds, 0
  {
    if ds == [] then [] else [Compile(ds[0])] + CompileAll(ds[1..])
  }

  function CompileAdditional(a: DraftAdditional): Additional
    decreases a, 0
  {
    match a
    case Anything => Allowed
    case Nothing => Forbidden
    case Only(d) => Under(Compile(d))
  }

  function CompileItems(i: DraftItems): Items
    decreases i, 0
  {
    match i
    case NoItems => AnyItems
    case List(d) => Each(Compile(d))
    case Positions(ds) => Tuple(CompileAll(ds))
  }

  function CompileOption(o: Option<Draft>): Option<Schema>
    decreases o, 0
  {
    match o
    case None => None
    case Some(d) => Some(Compile(d))
  }

  /** The schema constructor. */
  function Compile(d: Draft): Schema
    decreases d, 1
  {
    Schema(
      d.types, CompileAll(d.allOf), CompileAll(d.anyOf), CompileAll(d.oneOf), CompileOption(d.negated),
      CompileTable(d, TableNames(d.properties, d.required)), CompileAdditional(d.additionalProperties),
      Size(d.minProperties, 0), Size(d.maxProperties, MAX_SIZE),
      CompileItems(d.items), CompileAdditional(d.additionalItems),
      Size(d.minItems, 0), Size(d.maxItems, MAX_SIZE),
      d.minimum, d.maximum, d.defaultLength)
  }

  // ------------------------------------------------------------ the meaning

  predicate InLimits(lo: Option<nat>, hi: Option<nat>, n: nat) {
    (lo.Some? ==> lo.value <= n) && (hi.Some? ==> n <= hi.value)
  }

  /** The schema an element is checked against (sections 5.3.1 and 8.2). */
  function DraftItem(d: Draft, i: nat): Option<Draft> {
    match d.items
    case NoItems => Some(EMPTY_DRAFT)
    case List(c) => Some(c)
    case Positions(cs) => if i < |cs| then Some(cs[i]) else DraftAdditionalSchema(d.additionalItems)
  }

  function DraftAdditionalSchema(a: DraftAdditional): Option<Draft> {
    match a
    case Anything => Some(EMPTY_DRAFT)
    case Nothing => None
    case Only(c) => Some(c)
  }

  /** The schema a member is checked against (sections 5.4.4 and 8.3). */
  function DraftMember(d: Draft, name: Text): Option<Draft> {
    var found := Lookup(d.properties, name);
    if found.Some? then Some(found.value.schema) else DraftAdditionalSchema(d.additionalProperties)
  }

  /** An integer is a number without fraction or exponent part, however long (section 3.5 of draft-zyp-json-schema-04). */
  predicate DraftTakes(t: Types, literal: Text) {
    t.number || (t.integer && IsIntegerLiteral(literal))
  }

  ghost predicate DraftParts(d: Draft, v: Value)
    decreases v, 0
  {
    match v
    case NullValue => d.types.nil
    case BoolValue(_) => d.types.boolean
    case StringValue(_) => d.types.str
    case Number(_, _) => (d.types.integer || d.types.number) && WithinBounds(d.minimum, d.maximum, IntegerOf(v) as real)
    case Real(literal) => DraftTakes(d.types, literal) && WithinBounds(d.minimum, d.maximum, Amount(literal))
    case Array(es) =>
      && d.types.arr
      && InLimits(d.minItems, d.maxItems, |es|)
      && forall i :: 0 <= i < |es| ==> DraftAllows(DraftItem(d, i), es[i])
    case Object(ms) =>
      && d.types.obj
      && InLimits(d.minProperties, d.maxProperties, |ms|)
      && (forall i :: 0 <= i < |d.required| ==> d.required[i] in Names(ms))
      && forall i :: 0 <= i < |ms| ==> DraftAllows(DraftMember(d, ms[i].name), ms[i].value)
  }

  ghost predicate DraftAllows(o: Option<Draft>, v: Value)
    decreases v, 2
  {
    o.Some? && DraftSatisfies(o.value, v)
  }

  ghost predicate DraftEvery(ds: seq<Draft>, v: Value)
    decreases v, 1, ds, 2
  {
    forall i :: 0 <= i < |ds| ==> DraftSatisfies(ds[i], v)
  }

  ghost predicate DraftSome(ds: seq<Draft>, v: Value)
    decreases v, 1, ds, 2
  {
    exists i :: 0 <= i < |ds| && DraftSatisfies(ds[i], v)
  }

  ghost predicate DraftOne(ds: seq<Draft>, v: Value)
    decreases v, 1, ds, 2
  {
    exists i :: DraftOnly(ds, i, v)
  }

  /** Sections 5.5.3 to 5.5.6. */
  ghost predicate DraftCombined(d: Draft, v: Value)
    decreases v, 1, d, 0
  {
    && DraftEvery(d.allOf, v)
    && (d.anyOf != [] ==> DraftSome(d.anyOf, v))
    && (d.oneOf != [] ==> DraftOne(d.oneOf, v))
    && (d.negated.Some? ==> !DraftSatisfies(d.negated.value, v))
  }

  ghost predicate DraftOnly(ds: seq<Draft>, i: int, v: Value)
    decreases v, 1, ds, 0
  {
    0 <= i < |ds| && DraftSatisfies(ds[i], v) && forall k :: 0 <= k < |ds| && k != i ==> !DraftSatisfies(ds[k], v)
  }

  ghost predicate DraftSatisfies(d: Draft, v: Value)
    decreases v, 1, d, 1
  {
    DraftParts(d, v) && DraftCombined(d, v)
  }

  // ------------------------------------------------- what the table holds

  lemma {:induction false} AddDeclaredHas(names: seq<Text>, ds: seq<Declared>, name: Text)
    ensures name in AddDeclared(names, ds) <==> name in names || Lookup(ds, name).Some?
    decreases |ds|
  {
    if ds != [] {
      AddDeclaredHas(AddUnique(names, ds[0].name), ds[1..], name);
    }
  }

  lemma {:induction false} AddRequiredHas(names: seq<Text>, required: seq<Text>, name: Text)
    ensures name in AddRequired(names, required) <==> name in names || name in required
    decreases |required|
  {
    if required != [] {
      AddRequiredHas(AddUnique(names, required[0]), required[1..], name);
    }
  }

  lemma TableNamesHas(d: Draft, name: Text)
    ensures name in TableNames(d.properties, d.required) <==> Lookup(d.properties, name).Some? || name in d.required
  {
    AddDeclaredHas([], d.properties, name);
    AddRequiredHas(AddDeclared([], d.properties), d.required, name);
  }

  /** The table entry the compiler makes for a name. */
  function Entry(d: Draft, name: Text): Property {
    var found := Lookup(d.properties, name);
    Property(name, if found.Some? then Compile(found.value.schema) else TYPELESS, name in d.required)
  }

  lemma {:induction false} EntryAt(d: Draft, names: seq<Text>, i: nat)
    requires i < |names|
    ensures CompileTable(d, names)[i] == Entry(d, names[i])
    decreases |names|
  {
    if i > 0 {
      EntryAt(d, names[1..], i - 1);
    }
  }

  lemma {:induction false} FindEntry(d: Draft, names: seq<Text>, name: Text)
    ensures FindProperty(CompileTable(d, names), name) == if name in names then Some(Entry(d, name)) else None
    decreases |names|
  {
    if names != [] {
      assert CompileTable(d, names)[1..] == CompileTable(d, names[1..]);
      EntryAt(d, names, 0);
      FindEntry(d, names[1..], name);
    }
  }

  lemma {:induction false} CompileAllAt(ds: seq<Draft>, i: nat)
    requires i < |ds|
    ensures CompileAll(ds)[i] == Compile(ds[i])
    decreases |ds|
  {
    if i > 0 {
      CompileAllAt(ds[1..], i - 1);
    }
  }

  lemma CompiledEmpty()
    ensures Compile(EMPTY_DRAFT) == TYPELESS
  {
    assert TableNames([], []) == [];
  }

  // ------------------------------------- where compiled and written part

  /** Everything may stand there, so it is the keyword-free schema that applies. */
  predicate AllowsAnything(a: DraftAdditional) {
    CompileOption(DraftAdditionalSchema(a)) == Some(TYPELESS)
  }

  lemma AdditionalCompiles(a: DraftAdditional)
    ensures AdditionalSchema(CompileAdditional(a)) == CompileOption(DraftAdditionalSchema(a))
    ensures a.Anything? ==> AllowsAnything(a)
  {
    CompiledEmpty();
  }

  /** A member gets the schema the standard says, unless its name is required but not declared. */
  lemma MemberChoice(d: Draft, name: Text)
    ensures MemberSchema(Compile(d), name) == CompileOption(DraftMember(d, name)) <==>
      !(name in d.required && Lookup(d.properties, name).None? && !AllowsAnything(d.additionalProperties))
  {
    TableNamesHas(d, name);
    FindEntry(d, TableNames(d.properties, d.required), name);
    AdditionalCompiles(d.additionalProperties);
  }

  /** An element gets the schema the standard says, unless the list of positions is empty. */
  lemma ItemChoice(d: Draft, i: nat)
    ensures ItemSchema(Compile(d), i) == CompileOption(DraftItem(d, i)) <==>
      !(d.items == Positions([]) && !AllowsAnything(d.additionalItems))
  {
    AdditionalCompiles(d.additionalItems);
    CompiledEmpty();
    if d.items.Positions? && i < |d.items.schemas| {
      CompileAllAt(d.items.schemas, i);
    }
  }

  /** A declared name whose schema has a default string other than the empty one. */
  predicate HasDefault(d: Draft, name: Text) {
    var found := Lookup(d.properties, name);
    found.Some? && found.value.schema.defaultLength > 0
  }

  /** Just the required names without a default string are looked for. */
  lemma RequiredChoice(d: Draft, names: set<Text>)
    ensures MissesRequired(Compile(d), names) <==>
      exists i :: 0 <= i < |d.required| && d.required[i] !in names && !HasDefault(d, d.required[i])
  {
    var table := TableNames(d.properties, d.required);
    var ps := CompileTable(d, table);
    if i :| 0 <= i < |ps| && Misses(ps[i], names) {
      EntryAt(d, table, i);
      var k :| 0 <= k < |d.required| && d.required[k] == table[i];
      assert d.required[k] !in names && !HasDefault(d, d.required[k]);
    }
    if k :| 0 <= k < |d.required| && d.required[k] !in names && !HasDefault(d, d.required[k]) {
      TableNamesHas(d, d.required[k]);
      var i :| 0 <= i < |table| && table[i] == d.required[k];
      EntryAt(d, table, i);
      assert Misses(ps[i], names);
    }
  }

  predicate FitsSize(o: Option<nat>) {
    o.Some? ==> o.value <= MAX_SIZE
  }

  /** Every size a value can have meets the compiled limits exactly when it meets the written ones. */
  predicate LimitsAgree(lo: Option<nat>, hi: Option<nat>) {
    forall n :: 0 <= n <= MAX_SIZE ==> (Size(lo, 0) <= n <= Size(hi, MAX_SIZE) <==> InLimits(lo, hi, n))
  }

  /** Limits mean what they say exactly when the lower one fits SizeType. */
  lemma SizeChoice(lo: Option<nat>, hi: Option<nat>)
    ensures LimitsAgree(lo, hi) <==> FitsSize(lo)
  {
    if !FitsSize(lo) {
      var n := Size(hi, MAX_SIZE);
      assert Size(lo, 0) <= n && !InLimits(lo, hi, n);
    }
  }

  /** A double gets the verdict the standard says, unless it stands for an integer that only `integer` admits. */
  lemma NumberChoice(t: Types, literal: Text)
    ensures t.number == DraftTakes(t, literal) <==> !(t.integer && !t.number && IsIntegerLiteral(literal))
  {
  }

  /** The value holds an integer that the reader announced as a double, for it does not fit 64 bits. */
  predicate HoldsBigInteger(v: Value)
    decreases v
  {
    match v
    case Real(literal) => IsIntegerLiteral(literal)
    case Array(es) => exists i :: 0 <= i < |es| && HoldsBigInteger(es[i])
    case Object(ms) => exists i :: 0 <= i < |ms| && HoldsBigInteger(ms[i].value)
    case _ => false
  }

  /**
   * None of the points at which the compiled schema departs from the standard is touched; `big` says
   * whether values may hold big integers.
   */
  predicate FollowsDraft(d: Draft, big: bool)
    decreases d, 1
  {
    && (big && d.types.integer ==> d.types.number)
    && FitsSize(d.minProperties) && FitsSize(d.minItems)
    && (d.items == Positions([]) ==> AllowsAnything(d.additionalItems))
    && (forall i :: 0 <= i < |d.required| ==> RequiredFollows(d, d.required[i]))
    && AllFollow(d.allOf, big) && AllFollow(d.anyOf, big) && AllFollow(d.oneOf, big)
    && (d.negated.Some? ==> FollowsDraft(d.negated.value, big))
    && DeclaredFollow(d.properties, big)
    && AdditionalFollows(d.additionalProperties, big) && AdditionalFollows(d.additionalItems, big)
    && (d.items.List? ==> FollowsDraft(d.items.schema, big))
    && (d.items.Positions? ==> AllFollow(d.items.schemas, big))
  }

  predicate RequiredFollows(d: Draft, name: Text) {
    !HasDefault(d, name) && (Lookup(d.properties, name).None? ==> AllowsAnything(d.additionalProperties))
  }

  predicate AllFollow(ds: seq<Draft>, big: bool)
    decreases ds, 0
  {
    ds == [] || (FollowsDraft(ds[0], big) && AllFollow(ds[1..], big))
  }

  predicate DeclaredFollow(ds: seq<Declared>, big: bool)
    decreases ds, 0
  {
    ds == [] || (FollowsDraft(ds[0].schema, big) && DeclaredFollow(ds[1..], big))
  }

  predicate AdditionalFollows(a: DraftAdditional, big: bool)
    decreases a, 0
  {
    a.Only? ==> FollowsDraft(a.schema, big)
  }

  lemma {:induction false} AllFollowAt(ds: seq<Draft>, i: nat, big: bool)
    requires AllFollow(ds, big) && i < |ds|
    ensures FollowsDraft(ds[i], big)
    decreases |ds|
  {
    if i > 0 {
      AllFollowAt(ds[1..], i - 1, big);
    }
  }

  lemma {:induction false} LookupFollows(ds: seq<Declared>, name: Text, big: bool)
    requires DeclaredFollow(ds, big) && Lookup(ds, name).Some?
    ensures FollowsDraft(Lookup(ds, name).value.schema, big)
    decreases |ds|
  {
    if Lookup(ds[1..], name).Some? {
      LookupFollows(ds[1..], name, big);
    }
  }

  lemma EmptyFollows(big: bool)
    ensures FollowsDraft(EMPTY_DRAFT, big)
  {
  }

  lemma ItemFollows(d: Draft, i: nat, big: bool)
    requires FollowsDraft(d, big) && DraftItem(d, i).Some?
    ensures FollowsDraft(DraftItem(d, i).value, big)
  {
    EmptyFollows(big);
    if d.items.Positions? && i < |d.items.schemas| {
      AllFollowAt(d.items.schemas, i, big);
    }
  }

  lemma MemberFollows(d: Draft, name: Text, big: bool)
    requires FollowsDraft(d, big) && DraftMember(d, name).Some?
    ensures FollowsDraft(DraftMember(d, name).value, big)
  {
    EmptyFollows(big);
    if Lookup(d.properties, name).Some? {
      LookupFollows(d.properties, name, big);
    }
  }

  // ------------------------------------------------ compiling keeps meaning

  lemma {:induction false} ItemsStreamableAt(es: seq<Value>, i: nat)
    requires ItemsStreamable(es) && i < |es|
    ensures Streamable(es[i])
    decreases |es|
  {
    if i > 0 {
      ItemsStreamableAt(es[1..], i - 1);
    }
  }

  lemma {:induction false} MembersStreamableAt(ms: seq<Member>, i: nat)
    requires MembersStreamable(ms) && i < |ms|
    ensures Streamable(ms[i].value)
    decreases |ms|
  {
    if i > 0 {
      MembersStreamableAt(ms[1..], i - 1);
    }
  }

  lemma {:induction false} PartMeans(o: Option<Draft>, c: Option<Schema>, v: Value, big: bool)
    requires c == CompileOption(o) && (o.Some? ==> FollowsDraft(o.value, big)) && Streamable(v) && (HoldsBigInteger(v) ==> big)
    ensures c.Some? && Satisfies(c.value, v) <==> DraftAllows(o, v)
    decreases v, 2
  {
    if o.Some? {
      CompilingMeans(o.value, v, big);
    }
  }

  lemma {:induction false} ItemsMean(d: Draft, es: seq<Value>, big: bool)
    requires FollowsDraft(d, big) && ItemsStreamable(es) && (HoldsBigInteger(Array(es)) ==> big)
    ensures (forall i :: 0 <= i < |es| ==> ItemSatisfies(Compile(d), i, es[i])) <==>
      (forall i :: 0 <= i < |es| ==> DraftAllows(DraftItem(d, i), es[i]))
    decreases es, 3
  {
    forall i | 0 <= i < |es|
      ensures ItemSatisfies(Compile(d), i, es[i]) <==> DraftAllows(DraftItem(d, i), es[i])
    {
      ItemMeans(d, i, es[i], es, big);
    }
  }

  lemma {:induction false} ItemMeans(d: Draft, i: nat, e: Value, es: seq<Value>, big: bool)
    requires FollowsDraft(d, big) && ItemsStreamable(es) && (HoldsBigInteger(Array(es)) ==> big) && i < |es| && e == es[i]
    ensures ItemSatisfies(Compile(d), i, e) <==> DraftAllows(DraftItem(d, i), e)
    decreases e, 3
  {
    ItemsStreamableAt(es, i);
    ItemChoice(d, i);
    AdditionalCompiles(d.additionalItems);
    if DraftItem(d, i).Some? {
      ItemFollows(d, i, big);
    }
    PartMeans(DraftItem(d, i), ItemSchema(Compile(d), i), e, big);
  }

  lemma {:induction false} MemberMeans(d: Draft, m: Member, big: bool)
    requires FollowsDraft(d, big) && Streamable(m.value) && (HoldsBigInteger(m.value) ==> big)
    ensures MemberSatisfies(Compile(d), m) <==> DraftAllows(DraftMember(d, m.name), m.value)
    decreases m.value, 3
  {
    MemberChoice(d, m.name);
    AdditionalCompiles(d.additionalProperties);
    if m.name in d.required {
      var i :| 0 <= i < |d.required| && d.required[i] == m.name;
      assert RequiredFollows(d, d.required[i]);
    }
    if DraftMember(d, m.name).Some? {
      MemberFollows(d, m.name, big);
    }
    PartMeans(DraftMember(d, m.name), MemberSchema(Compile(d), m.name), m.value, big);
  }

  lemma {:induction false} MembersMean(d: Draft, ms: seq<Member>, big: bool)
    requires FollowsDraft(d, big) && MembersStreamable(ms) && (HoldsBigInteger(Object(ms)) ==> big)
    ensures (forall i :: 0 <= i < |ms| ==> MemberSatisfies(Compile(d), ms[i])) <==>
      (forall i :: 0 <= i < |ms| ==> DraftAllows(DraftMember(d, ms[i].name), ms[i].value))
    decreases ms, 3
  {
    forall i | 0 <= i < |ms|
      ensures MemberSatisfies(Compile(d), ms[i]) <==> DraftAllows(DraftMember(d, ms[i].name), ms[i].value)
    {
      MembersStreamableAt(ms, i);
      MemberMeans(d, ms[i], big);
    }
  }

  lemma {:induction false} PartsMean(d: Draft, v: Value, big: bool)
    requires FollowsDraft(d, big) && Streamable(v) && (HoldsBigInteger(v) ==> big)
    ensures PartsSatisfied(Compile(d), v) <==> DraftParts(d, v)
    decreases v, 0
  {
    if v.Array? {
      ItemsMean(d, v.elements, big);
    } else if v.Object? {
      MembersMean(d, v.members, big);
      RequiredChoice(d, Names(v.members));
      assert forall i :: 0 <= i < |d.required| ==> RequiredFollows(d, d.required[i]);
    }
  }

  /** A list of subschemas, each meaning what it says. */
  ghost predicate Means(cs: seq<Schema>, ds: seq<Draft>, v: Value) {
    |cs| == |ds| && forall i :: 0 <= i < |ds| ==> (Satisfies(cs[i], v) <==> DraftSatisfies(ds[i], v))
  }

  lemma {:induction false} ListMeans(ds: seq<Draft>, v: Value, big: bool)
    requires AllFollow(ds, big) && Streamable(v) && (HoldsBigInteger(v) ==> big)
    ensures Means(CompileAll(ds), ds, v)
    decreases v, 1, ds, 2
  {
    forall i | 0 <= i < |ds|
      ensures Satisfies(CompileAll(ds)[i], v) <==> DraftSatisfies(ds[i], v)
    {
      AllFollowAt(ds, i, big);
      CompileAllAt(ds, i);
      CompilingMeans(ds[i], v, big);
    }
  }

  lemma EveryMeans(cs: seq<Schema>, ds: seq<Draft>, v: Value)
    requires Means(cs, ds, v)
    ensures SatisfiesEvery(cs, v) <==> DraftEvery(ds, v)
    ensures SatisfiesSome(cs, v) <==> DraftSome(ds, v)
  {
    if SatisfiesEvery(cs, v) {
      forall i | 0 <= i < |ds|
        ensures DraftSatisfies(ds[i], v)
      {
        assert Satisfies(cs[i], v);
      }
    }
    if SatisfiesSome(cs, v) {
      var i :| 0 <= i < |cs| && Satisfies(cs[i], v);
      assert DraftSatisfies(ds[i], v);
    }
  }

  lemma OnlyMeans(cs: seq<Schema>, ds: seq<Draft>, v: Value)
    requires Means(cs, ds, v)
    ensures SatisfiesOne(cs, v) <==> DraftOne(ds, v)
  {
    if i :| OnlySatisfies(cs, i, v) {
      assert DraftOnly(ds, i, v);
    }
    if i :| DraftOnly(ds, i, v) {
      assert OnlySatisfies(cs, i, v);
    }
  }

  lemma CompiledShape(d: Draft)
    ensures var c := Compile(d);
      && c.allOf == CompileAll(d.allOf) && c.anyOf == CompileAll(d.anyOf) && c.oneOf == CompileAll(d.oneOf)
      && c.negated == if d.negated.Some? then Some(Compile(d.negated.value)) else None
  {
    assert CompileOption(d.negated) == if d.negated.Some? then Some(Compile(d.negated.value)) else None;
  }

  /** The groups of a compiled schema mean what those of its source do. */
  ghost predicate GroupsMean(c: Schema, d: Draft, v: Value) {
    && (SatisfiesEvery(c.allOf, v) <==> DraftEvery(d.allOf, v))
    && (SatisfiesSome(c.anyOf, v) <==> DraftSome(d.anyOf, v))
    && (SatisfiesOne(c.oneOf, v) <==> DraftOne(d.oneOf, v))
  }

  lemma {:induction false} ListMean(ds: seq<Draft>, v: Value, big: bool)
    requires AllFollow(ds, big) && Streamable(v) && (HoldsBigInteger(v) ==> big)
    ensures SatisfiesEvery(CompileAll(ds), v) <==> DraftEvery(ds, v)
    ensures SatisfiesSome(CompileAll(ds), v) <==> DraftSome(ds, v)
    ensures SatisfiesOne(CompileAll(ds), v) <==> DraftOne(ds, v)
    decreases v, 1, ds, 3
  {
    ListMeans(ds, v, big);
    EveryMeans(CompileAll(ds), ds, v);
    OnlyMeans(CompileAll(ds), ds, v);
  }

  lemma GroupsDecide(c: Schema, d: Draft, v: Value)
    requires GroupsMean(c, d, v) && |c.anyOf| == |d.anyOf| && |c.oneOf| == |d.oneOf|
    requires c.negated.Some? <==> d.negated.Some?
    requires c.negated.Some? ==> (Satisfies(c.negated.value, v) <==> DraftSatisfies(d.negated.value, v))
    ensures CombinedSatisfied(c, v) <==> DraftCombined(d, v)
  {
  }

  lemma {:induction false} CombinedMeans(d: Draft, v: Value, big: bool)
    requires FollowsDraft(d, big) && Streamable(v) && (HoldsBigInteger(v) ==> big)
    ensures CombinedSatisfied(Compile(d), v) <==> DraftCombined(d, v)
    decreases v, 1, d, 0
  {
    ListMean(d.allOf, v, big);
    ListMean(d.anyOf, v, big);
    ListMean(d.oneOf, v, big);
    if d.negated.Some? {
      CompilingMeans(d.negated.value, v, big);
    }
    CompiledShape(d);
    GroupsDecide(Compile(d), d, v);
  }

  /** A schema that avoids the five departures means, once compiled, what the standard says. */
  lemma {:induction false} CompilingMeans(d: Draft, v: Value, big: bool)
    requires FollowsDraft(d, big) && Streamable(v) && (HoldsBigInteger(v) ==> big)
    ensures Satisfies(Compile(d), v) <==> DraftSatisfies(d, v)
    decreases v, 1, d, 1
  {
    PartsMean(d, v, big);
    CombinedMeans(d, v, big);
  }

  /** End to end: compile the schema, stream the value's events, and read off the standard's verdict. */
  lemma ValidatorDecidesDraft(d: Draft, v: Value)
    requires FollowsDraft(d, HoldsBigInteger(v)) && Streamable(v)
    ensures Feed(Fresh(Compile(d)), ReadEvents(v)).valid <==> DraftSatisfies(d, v)
  {
    CompilingMeans(d, v, HoldsBigInteger(v));
    StreamingIsSatisfaction(Compile(d), v);
  }

  // ---------------------------------------------------- the five departures

  const NAME: Text := [0x61]

  lemma OnlyParts(d: Draft, v: Value)
    requires d.allOf == d.anyOf == d.oneOf == [] && d.negated == None && Streamable(v)
    requires PartsSatisfied(Compile(d), v) && !DraftParts(d, v)
    ensures Feed(Fresh(Compile(d)), ReadEvents(v)).valid && !DraftSatisfies(d, v)
  {
    CompiledShape(d);
    var none: seq<Draft> := [];
    assert CompileAll(none) == [];
    assert CombinedSatisfied(Compile(d), v);
    StreamingIsSatisfaction(Compile(d), v);
  }

  /** `required: [a], additionalProperties: false` admits `a`, which the standard does not. */
  lemma RequiredNameSlipsThrough()
    ensures var (d, v) := (EMPTY_DRAFT.(required := [NAME], additionalProperties := Nothing), Object([Member(NAME, NullValue)]));
      Feed(Fresh(Compile(d)), ReadEvents(v)).valid && !DraftSatisfies(d, v)
  {
    var d := EMPTY_DRAFT.(required := [NAME], additionalProperties := Nothing);
    var m := Member(NAME, NullValue);
    assert NAME in d.required;
    TableNamesHas(d, NAME);
    FindEntry(d, TableNames(d.properties, d.required), NAME);
    RequiredChoice(d, Names([m]));
    assert m.name in Names([m]) by {
      assert [m][0].name == NAME;
    }
    assert MemberSatisfies(Compile(d), m);
    assert PartsSatisfied(Compile(d), Object([m])) by {
      assert forall i :: 0 <= i < |d.required| ==> d.required[i] == NAME;
    }
    assert !DraftParts(d, Object([m])) by {
      assert !DraftAllows(DraftMember(d, [m][0].name), [m][0].value);
    }
    OnlyParts(d, Object([m]));
  }

  /** A required name may be missing when its schema has a default string. */
  lemma DefaultWaivesRequired()
    ensures var d := EMPTY_DRAFT.(properties := [Declared(NAME, EMPTY_DRAFT.(defaultLength := 1))], required := [NAME]);
      Feed(Fresh(Compile(d)), ReadEvents(Object([]))).valid && !DraftSatisfies(d, Object([]))
  {
    var d := EMPTY_DRAFT.(properties := [Declared(NAME, EMPTY_DRAFT.(defaultLength := 1))], required := [NAME]);
    assert d.properties[1..] == [];
    RequiredChoice(d, Names([]));
    assert forall i :: 0 <= i < |d.required| ==> HasDefault(d, d.required[i]);
    assert PartsSatisfied(Compile(d), Object([]));
    assert !DraftParts(d, Object([])) by {
      assert d.required[0] !in Names([]);
    }
    OnlyParts(d, Object([]));
  }

  /** `items: [], additionalItems: false` admits elements. */
  lemma EmptyPositionsAdmit()
    ensures var d := EMPTY_DRAFT.(items := Positions([]), additionalItems := Nothing);
      Feed(Fresh(Compile(d)), ReadEvents(Array([NullValue]))).valid && !DraftSatisfies(d, Array([NullValue]))
  {
    var d := EMPTY_DRAFT.(items := Positions([]), additionalItems := Nothing);
    var v := [NullValue];
    assert CompileItems(d.items) == Tuple([]);
    assert ItemSatisfies(Compile(d), 0, NullValue);
    StreamingIsSatisfaction(Compile(d), Array(v));
    assert !DraftAllows(DraftItem(d, 0), v[0]);
  }

  /** A size that does not fit SizeType is as good as none. */
  lemma HugeMinimumIsIgnored()
    ensures var d := EMPTY_DRAFT.(minItems := Some(MAX_SIZE + 1));
      Feed(Fresh(Compile(d)), ReadEvents(Array([]))).valid && !DraftSatisfies(d, Array([]))
  {
    var d := EMPTY_DRAFT.(minItems := Some(MAX_SIZE + 1));
    StreamingIsSatisfaction(Compile(d), Array([]));
  }

  /** An integer of more than 64 bits, which the reader announces as a double, is no integer to the validator. */
  lemma BigIntegerIsRefused(cfg: Events.Config, n: nat)
    requires n >= 0x1_0000_0000_0000_0000 && cfg.inRange(JsonText.Decimal(n))
    ensures var literal := JsonText.Decimal(n);
      var d := EMPTY_DRAFT.(types := Types(false, false, false, false, false, false, true));
      && Lexing.ScanNumber(cfg, literal) == Lexing.Good(Events.Double(literal), [])
      && !Feed(Fresh(Compile(d)), ReadEvents(Real(literal))).valid && DraftSatisfies(d, Real(literal))
  {
    var literal := JsonText.Decimal(n);
    var d := EMPTY_DRAFT.(types := Types(false, false, false, false, false, false, true));
    RoundTrip.DecimalDigits(n);
    Numbers.IntegerLiteralExact(cfg, false, literal, []);
    assert literal + [] == literal && [] + literal == literal;
    StreamingIsSatisfaction(Compile(d), Real(literal));
    assert DraftParts(d, Real(literal));
  }
}
