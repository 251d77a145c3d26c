/** Compiled schemas, and what it means for a value to satisfy one. */
module Schemas {
  import opened Bytes
  import opened Dom
  import opened Decimals

  datatype Types = Types(nil: bool, boolean: bool, obj: bool, arr: bool, str: bool, number: bool, integer: bool)

  /** A bound is kept as an integer when it is one, as a double otherwise. */
  datatype Bound = NoBound | Bound(limit: int, exclusive: bool) | DoubleBound(amount: real, exclusive: bool)

  datatype Additional = Allowed | Forbidden | Under(schema: Schema)

  datatype Items = AnyItems | Each(schema: Schema) | Tuple(schemas: seq<Schema>)

  /** An entry of the property table. */
  datatype Property = Property(name: Text, schema: Schema, required: bool)

  datatype Schema = Schema(
    types: Types,
    allOf: seq<Schema>,
    anyOf: seq<Schema>,
    oneOf: seq<Schema>,
    negated: Option<Schema>,
    properties: seq<Property>,
    additionalProperties: Additional,
    minProperties: nat,
    maxProperties: nat,
    items: Items,
    additionalItems: Additional,
    minItems: nat,
    maxItems: nat,
    minimum: Bound,
    maximum: Bound,
    defaultLength: nat)      // length of the "default" keyword when it is a string

  const ANY_TYPE := Types(true, true, true, true, true, true, true)

  const MAX_SIZE: nat := 0xFFFF_FFFF

  /** The schema without keywords. */
  const TYPELESS: Schema := Schema(ANY_TYPE, [], [], [], None, [], Allowed, 0, MAX_SIZE, AnyItems, Allowed, 0, MAX_SIZE, NoBound, NoBound, 0)

  // --------------------------------------------------- choosing subschemas

  /** The schema of array element `i`; None when no such element may exist. */
  function ItemSchema(s: Schema, i: nat): Option<Schema> {
    match s.items
    case Each(c) => Some(c)
    case Tuple(cs) =>
      if |cs| == 0 then Some(TYPELESS)
      else if i < |cs| then Some(cs[i])
      else AdditionalSchema(s.additionalItems)
    case AnyItems => Some(TYPELESS)
  }

  function AdditionalSchema(a: Additional): Option<Schema> {
    match a
    case Under(c) => Some(c)
    case Allowed => Some(TYPELESS)
    case Forbidden => None
  }

  /** The table entry of a name, searched from the front. */
  function FindProperty(ps: seq<Property>, name: Text): Option<Property> {
    if ps == [] then None
    else if ps[0].name == name then Some(ps[0])
    else FindProperty(ps[1..], name)
  }

  /** The schema of the member called `name`; None when no such member may exist. */
  function MemberSchema(s: Schema, name: Text): Option<Schema> {
    match FindProperty(s.properties, name)
    case Some(p) => Some(p.schema)
    case None => AdditionalSchema(s.additionalProperties)
  }

  // ---------------------------------------------------------- satisfaction

  /** A bound as a number. */
  function Limit(b: Bound): real
    requires b != NoBound
  {
    if b.Bound? then b.limit as real else b.amount
  }

  predicate AtLeast(b: Bound, x: real) {
    b == NoBound || (if b.exclusive then x > Limit(b) else x >= Limit(b))
  }

  predicate AtMost(b: Bound, x: real) {
    b == NoBound || (if b.exclusive then x < Limit(b) else x <= Limit(b))
  }

  predicate WithinBounds(minimum: Bound, maximum: Bound, x: real) {
    AtLeast(minimum, x) && AtMost(maximum, x)
  }

  /** A required name is missing, unless its schema carries a default string. */
  predicate MissesRequired(s: Schema, names: set<Text>) {
    exists i :: 0 <= i < |s.properties| && Misses(s.properties[i], names)
  }

  predicate Misses(p: Property, names: set<Text>) {
    p.required && p.name !in names && p.schema.defaultLength == 0
  }

  /** Element `i` may exist and satisfies the schema of its position. */
  ghost predicate ItemSatisfies(s: Schema, i: nat, e: Value)
    decreases e, 2
  {
    ItemSchema(s, i).Some? && Satisfies(ItemSchema(s, i).value, e)
  }

  /** The member may exist and satisfies the schema of its name. */
  ghost predicate MemberSatisfies(s: Schema, m: Member)
    decreases m, 2
  {
    MemberSchema(s, m.name).Some? && Satisfies(MemberSchema(s, m.name).value, m.value)
  }

  /** Keywords about the value itself, its elements and members. */
  ghost predicate PartsSatisfied(s: Schema, v: Value)
    decreases v, 0
  {
    match v
    case NullValue => s.types.nil
    case BoolValue(_) => s.types.boolean
    case StringValue(_) => s.types.str
    case Number(_, _) => (s.types.integer || s.types.number) && WithinBounds(s.minimum, s.maximum, IntegerOf(v) as real)
    case Real(literal) => s.types.number && WithinBounds(s.minimum, s.maximum, Amount(literal))
    case Array(es) =>
      && s.types.arr
      && s.minItems <= |es| <= s.maxItems
      && forall i :: 0 <= i < |es| ==> ItemSatisfies(s, i, es[i])
    case Object(ms) =>
      && s.types.obj
      && s.minProperties <= |ms| <= s.maxProperties
      && !MissesRequired(s, Names(ms))
      && forall i :: 0 <= i < |ms| ==> MemberSatisfies(s, ms[i])
  }

  ghost predicate SatisfiesEvery(ss: seq<Schema>, v: Value)
    decreases v, 1, ss, 2
  {
    forall i :: 0 <= i < |ss| ==> Satisfies(ss[i], v)
  }

  ghost predicate SatisfiesSome(ss: seq<Schema>, v: Value)
    decreases v, 1, ss, 2
  {
    exists i :: 0 <= i < |ss| && Satisfies(ss[i], v)
  }

  /** Schema `i` of the list is the only one satisfied. */
  ghost predicate OnlySatisfies(ss: seq<Schema>, i: int, v: Value)
    decreases v, 1, ss, 2
  {
    0 <= i < |ss| && Satisfies(ss[i], v) && forall k :: 0 <= k < |ss| && k != i ==> !Satisfies(ss[k], v)
  }

  ghost predicate SatisfiesOne(ss: seq<Schema>, v: Value)
    decreases v, 1, ss, 3
  {
    exists i :: OnlySatisfies(ss, i, v)
  }

  /** Keywords that combine subschemas about the same value. */
  ghost predicate CombinedSatisfied(s: Schema, v: Value)
    decreases v, 1, s, 0
  {
    && SatisfiesEvery(s.allOf, v)
    && (s.anyOf != [] ==> SatisfiesSome(s.anyOf, v))
    && (s.oneOf != [] ==> SatisfiesOne(s.oneOf, v))
    && (s.negated.Some? ==> !Satisfies(s.negated.value, v))
  }

  /** A value satisfies a schema: its parts do, and the combined subschemas agree. */
  ghost predicate Satisfies(s: Schema, v: Value)
    decreases v, 1, s, 1
  {
    PartsSatisfied(s, v) && CombinedSatisfied(s, v)
  }

  // --------------------------------------------------------------- heights

  function Max(a: nat, b: nat): nat {
    if a < b then b else a
  }

  /** How deep schemas nest; the keyword-free schema is as low as any. */
  function Height(s: Schema): (h: nat)
    ensures h >= 1
    decreases s, 0
  {
    1 + Max(Max(Max(HeightAll(s.allOf), HeightAll(s.anyOf)), Max(HeightAll(s.oneOf), HeightOption(s.negated))),
      Max(Max(HeightProperties(s.properties), HeightAdditional(s.additionalProperties)),
          Max(HeightItems(s.items), HeightAdditional(s.additionalItems))))
  }

  function HeightAll(ss: seq<Schema>): nat
    decreases ss, 1
  {
    if ss == [] then 0 else Max(Height(ss[0]), HeightAll(ss[1..]))
  }

  function HeightProperties(ps: seq<Property>): nat
    decreases ps, 1
  {
    if ps == [] then 0 else Max(Height(ps[0].schema), HeightProperties(ps[1..]))
  }

  function HeightOption(o: Option<Schema>): nat
    decreases o, 1
  {
    if o.None? then 0 else Height(o.value)
  }

  function HeightAdditional(a: Additional): nat
    decreases a, 1
  {
    if a.Under? then Height(a.schema) else 0
  }

  function HeightItems(i: Items): nat
    decreases i, 1
  {
    match i
    case AnyItems => 0
    case Each(c) => Height(c)
    case Tuple(cs) => HeightAll(cs)
  }

  lemma {:induction false} HeightOfElement(ss: seq<Schema>, i: nat)
    requires i < |ss|
    ensures Height(ss[i]) <= HeightAll(ss)
    decreases |ss|
  {
    if i > 0 {
      HeightOfElement(ss[1..], i - 1);
    }
  }

  lemma {:induction false} HeightOfProperty(ps: seq<Property>, name: Text)
    requires FindProperty(ps, name).Some?
    ensures Height(FindProperty(ps, name).value.schema) <= HeightProperties(ps)
    decreases |ps|
  {
    if ps[0].name != name {
      HeightOfProperty(ps[1..], name);
    }
  }

  lemma HeightOfTypeless()
    ensures Height(TYPELESS) == 1
  {
  }

  /** A part of a value is checked against a schema no higher than that of the whole. */
  lemma ItemSchemaHeight(s: Schema, i: nat)
    requires ItemSchema(s, i).Some?
    ensures Height(ItemSchema(s, i).value) <= Height(s)
  {
    HeightOfTypeless();
    if s.items.Tuple? && i < |s.items.schemas| {
      HeightOfElement(s.items.schemas, i);
    }
  }

  lemma MemberSchemaHeight(s: Schema, name: Text)
    requires MemberSchema(s, name).Some?
    ensures Height(MemberSchema(s, name).value) <= Height(s)
  {
    HeightOfTypeless();
    if FindProperty(s.properties, name).Some? {
      HeightOfProperty(s.properties, name);
    }
  }

  /** The subschemas checked in parallel, in the order of the validator array. */
  function Parallel(s: Schema): seq<Schema> {
    s.allOf + s.anyOf + s.oneOf + (if s.negated.Some? then [s.negated.value] else [])
  }

  /** The parallel schemas hold `ss` from index `lo` on. */
  predicate HoldsAt(s: Schema, ss: seq<Schema>, lo: nat) {
    lo + |ss| <= |Parallel(s)| && Parallel(s)[lo..lo + |ss|] == ss
  }

  lemma ParallelParts(s: Schema)
    ensures HoldsAt(s, s.allOf, 0)
    ensures HoldsAt(s, s.anyOf, |s.allOf|)
    ensures HoldsAt(s, s.oneOf, |s.allOf| + |s.anyOf|)
    ensures s.negated.Some? ==> Parallel(s)[|s.allOf| + |s.anyOf| + |s.oneOf|] == s.negated.value
  {
  }

  lemma ParallelHeight(s: Schema, i: nat)
    requires i < |Parallel(s)|
    ensures Height(Parallel(s)[i]) < Height(s)
  {
    var (a, b, c) := (|s.allOf|, |s.anyOf|, |s.oneOf|);
    if i < a {
      HeightOfElement(s.allOf, i);
    } else if i < a + b {
      HeightOfElement(s.anyOf, i - a);
    } else if i < a + b + c {
      HeightOfElement(s.oneOf, i - a - b);
    }
  }
}
