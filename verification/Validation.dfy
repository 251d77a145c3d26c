/** The streaming validator: a stack of contexts, each with nested validators for parallel subschemas. */
module Validation {
  import opened Bytes
  import opened Events
  import opened Dom
  import opened Decimals
  import opened Schemas

  datatype Validator = Validator(root: Schema, valid: bool, stack: Stack)

  /** The contexts of the values being read, the innermost first. */
  datatype Stack = Empty | Push(top: Context, below: Stack)

  datatype Context = Context(
    schema: Schema,
    valueSchema: Schema,             // chosen for the value to come
    validators: seq<Validator>,      // of the parallel subschemas
    exist: set<Text>,                // table names seen among the members
    index: nat,                      // of the next array element
    inArray: bool)

  function Fresh(s: Schema): Validator {
    Validator(s, true, Empty)
  }

  function NewContext(s: Schema): Context {
    Context(s, TYPELESS, [], {}, 0, false)
  }

  // --------------------------------------- what the current schema decides

  /** Pushes the context of the value that begins; None when no value may stand here. */
  function Begin(root: Schema, stack: Stack): Option<Stack> {
    if stack.Empty? then Some(Push(NewContext(root), Empty))
    else if stack.top.inArray then
      match ItemSchema(stack.top.schema, stack.top.index)
      case None => None
      case Some(c) =>
        Some(Push(NewContext(c), Push(stack.top.(valueSchema := c, index := Increment(stack.top.index)), stack.below)))
    else Some(Push(NewContext(stack.top.valueSchema), stack))
  }

  /** The checks for a negative or signed integer event; integer bounds are 64-bit integers of either kind. */
  predicate CheckInt(s: Schema, i: int) {
    && (s.types.integer || s.types.number)
    && (match s.minimum
        case NoBound => true
        case Bound(limit, exclusive) => limit < 0x8000_0000_0000_0000 && !(if exclusive then i <= limit else i < limit)
        case DoubleBound(amount, exclusive) => CheckDoubleMinimum(amount, exclusive, i as real))
    && (match s.maximum
        case NoBound => true
        case Bound(limit, exclusive) => limit >= 0x8000_0000_0000_0000 || !(if exclusive then i >= limit else i > limit)
        case DoubleBound(amount, exclusive) => CheckDoubleMaximum(amount, exclusive, i as real))
  }

  /** The checks for an unsigned integer event. */
  predicate CheckUint(s: Schema, i: int) {
    && (s.types.integer || s.types.number)
    && (match s.minimum
        case NoBound => true
        case Bound(limit, exclusive) => limit < 0 || !(if exclusive then i <= limit else i < limit)
        case DoubleBound(amount, exclusive) => CheckDoubleMinimum(amount, exclusive, i as real))
    && (match s.maximum
        case NoBound => true
        case Bound(limit, exclusive) => limit >= 0 && !(if exclusive then i >= limit else i > limit)
        case DoubleBound(amount, exclusive) => CheckDoubleMaximum(amount, exclusive, i as real))
  }

  predicate CheckDoubleMinimum(limit: real, exclusive: bool, d: real) {
    !(if exclusive then d <= limit else d < limit)
  }

  predicate CheckDoubleMaximum(limit: real, exclusive: bool, d: real) {
    !(if exclusive then d >= limit else d > limit)
  }

  /** The checks for a double event; a bound that is an integer is converted. */
  predicate CheckDouble(s: Schema, d: real) {
    && s.types.number
    && (s.minimum != NoBound ==> CheckDoubleMinimum(Limit(s.minimum), s.minimum.exclusive, d))
    && (s.maximum != NoBound ==> CheckDoubleMaximum(Limit(s.maximum), s.maximum.exclusive, d))
  }

  /** Whether a value may start with this event. */
  predicate StartOk(s: Schema, e: Event) {
    match e
    case Null => s.types.nil
    case Bool(_) => s.types.boolean
    case Int(n) => CheckInt(s, n)
    case Int64(n) => CheckInt(s, n)
    case Uint(n) => CheckUint(s, n)
    case Uint64(n) => CheckUint(s, n)
    case Double(literal) => CheckDouble(s, Amount(literal))
    case String(_) => s.types.str
    case StartObject => s.types.obj
    case StartArray => s.types.arr
    case _ => false
  }

  predicate StartsValue(e: Event) {
    !e.Key? && !e.EndObject? && !e.EndArray?
  }

  function FreshAll(ss: seq<Schema>): (r: seq<Validator>)
    ensures |r| == |ss| && forall i :: 0 <= i < |ss| ==> r[i] == Fresh(ss[i])
  {
    seq(|ss|, i requires 0 <= i < |ss| => Fresh(ss[i]))
  }

  /** Creates the nested validators of a context and marks an array. */
  function Started(c: Context, e: Event): Context {
    c.(validators := FreshAll(Parallel(c.schema)), index := if e.StartArray? then 0 else c.index, inArray := e.StartArray?)
  }

  /** The checks when an object ends, its members having been counted. */
  predicate ObjectOk(s: Schema, exist: set<Text>, n: nat) {
    !MissesRequired(s, exist) && s.minProperties <= n <= s.maxProperties
  }

  predicate ArrayOk(s: Schema, n: nat) {
    s.minItems <= n <= s.maxItems
  }

  /** How many of the validators from `lo` up to `hi` are valid. */
  function CountValid(ws: seq<Validator>, lo: nat, hi: nat): nat
    requires lo <= hi <= |ws|
    decreases hi - lo
  {
    if lo == hi then 0
    else
      var rest := CountValid(ws, lo + 1, hi);
      if ws[lo].valid then rest + 1 else rest
  }

  /** The verdicts of the nested validators, combined; `ws` holds them in groups. */
  predicate EndOk(s: Schema, ws: seq<Validator>) {
    var (a, b, c) := (|s.allOf|, |s.allOf| + |s.anyOf|, |s.allOf| + |s.anyOf| + |s.oneOf|);
    && |ws| == |Parallel(s)|
    && (s.allOf != [] ==> CountValid(ws, 0, a) == a)
    && (s.anyOf != [] ==> CountValid(ws, a, b) > 0)
    && (s.oneOf != [] ==> CountValid(ws, b, c) == 1)
    && (s.negated.Some? ==> !ws[c].valid)
  }

  /** What a member name does to the context of its object. */
  function Keyed(c: Context, name: Text, chosen: Schema): Context {
    c.(valueSchema := chosen, exist := if FindProperty(c.schema.properties, name).Some? then c.exist + {name} else c.exist)
  }

  // --------------------------------------------------------------- stepping

  /**
   * One event.  Nested validators belong to lower schemas than the root, which is what bounds the
   * recursion; the events of a value reach those of its own context and of every one below.
   */
  function Step(v: Validator, e: Event): Validator
    decreases Height(v.root), 1
  {
    if !v.valid then v
    else if StartsValue(e) then
      match Begin(v.root, v.stack)
      case None => v.(valid := false)
      case Some(st) =>
        if !StartOk(st.top.schema, e) then v.(valid := false)
        else
          var st2 := Forward(Height(v.root), Push(Started(st.top, e), st.below), e);
          if e.StartObject? || e.StartArray? then v.(stack := st2) else Ended(v, st2)
    else if v.stack.Empty? then v.(valid := false)
    else if e.Key? then
      match MemberSchema(v.stack.top.schema, e.s)
      case None => v.(valid := false)
      case Some(c) => v.(stack := Forward(Height(v.root), Push(Keyed(v.stack.top, e.s, c), v.stack.below), e))
    else
      var st2 := Forward(Height(v.root), v.stack, e);
      var ok := if e.EndObject? then ObjectOk(st2.top.schema, st2.top.exist, e.count) else ArrayOk(st2.top.schema, e.count);
      if ok then Ended(v, st2) else v.(valid := false)
  }

  /** The end of a value: the nested verdicts count and its context goes. */
  function Ended(v: Validator, st: Stack): Validator
    requires st.Push?
  {
    if EndOk(st.top.schema, st.top.validators) then v.(stack := st.below) else v.(valid := false)
  }

  /** Sends an event to every nested validator of every context. */
  function Forward(h: nat, st: Stack, e: Event): (r: Stack)
    ensures r.Push? <==> st.Push?
    ensures st.Push? ==> r.top == st.top.(validators := r.top.validators)
    decreases h, 0, st
  {
    match st
    case Empty => Empty
    case Push(c, below) =>
      var validators := seq(|c.validators|, i requires 0 <= i < |c.validators| =>
        if Height(c.validators[i].root) < h then Step(c.validators[i], e) else c.validators[i]);
      Push(c.(validators := validators), Forward(h, below, e))
  }

  function Feed(v: Validator, es: seq<Event>): Validator
    decreases |es|
  {
    if es == [] then v else Feed(Step(v, es[0]), es[1..])
  }

  // ----------------------------------------------------- feeding in pieces

  lemma {:induction false} FeedConcat(v: Validator, a: seq<Event>, b: seq<Event>)
    ensures Feed(v, a + b) == Feed(Feed(v, a), b)
    decreases |a|
  {
    if a == [] {
      assert a + b == b;
    } else {
      assert (a + b)[1..] == a[1..] + b;
      FeedConcat(Step(v, a[0]), a[1..], b);
    }
  }

  lemma FeedOne(v: Validator, e: Event)
    ensures Feed(v, [e]) == Step(v, e)
  {
    assert [e][1..] == [];
  }

  lemma {:induction false} FeedKeepsRoot(v: Validator, es: seq<Event>)
    ensures Feed(v, es).root == v.root
    decreases |es|
  {
    if es != [] {
      FeedKeepsRoot(Step(v, es[0]), es[1..]);
    }
  }

  lemma {:induction false} FeedInvalid(v: Validator, es: seq<Event>)
    requires !v.valid
    ensures Feed(v, es) == v
    decreases |es|
  {
    if es != [] {
      FeedInvalid(v, es[1..]);
    }
  }

  /** Nested validators after some events. */
  function FeedAll(ws: seq<Validator>, es: seq<Event>): (r: seq<Validator>)
    ensures |r| == |ws| && forall i :: 0 <= i < |ws| ==> r[i] == Feed(ws[i], es)
  {
    seq(|ws|, i requires 0 <= i < |ws| => Feed(ws[i], es))
  }

  /** The contexts after their nested validators have been sent some events. */
  function Advance(st: Stack, es: seq<Event>): (r: Stack)
    ensures r.Push? <==> st.Push?
  {
    match st
    case Empty => Empty
    case Push(c, below) => Push(c.(validators := FeedAll(c.validators, es)), Advance(below, es))
  }

  /** Every nested validator belongs to a schema lower than `h`. */
  predicate Guarded(st: Stack, h: nat) {
    match st
    case Empty => true
    case Push(c, below) =>
      (forall i :: 0 <= i < |c.validators| ==> Height(c.validators[i].root) < h) && Guarded(below, h)
  }

  lemma {:induction false} ForwardAdvances(h: nat, st: Stack, e: Event)
    requires Guarded(st, h)
    ensures Forward(h, st, e) == Advance(st, [e])
    decreases st
  {
    if st.Push? {
      ForwardAdvances(h, st.below, e);
      var ws := st.top.validators;
      forall i | 0 <= i < |ws|
        ensures Forward(h, st, e).top.validators[i] == FeedAll(ws, [e])[i]
      {
        FeedOne(ws[i], e);
      }
      assert Forward(h, st, e).top.validators == FeedAll(ws, [e]);
    }
  }

  lemma FeedAllConcat(ws: seq<Validator>, a: seq<Event>, b: seq<Event>)
    ensures FeedAll(FeedAll(ws, a), b) == FeedAll(ws, a + b)
  {
    forall i | 0 <= i < |ws|
      ensures FeedAll(FeedAll(ws, a), b)[i] == FeedAll(ws, a + b)[i]
    {
      FeedConcat(ws[i], a, b);
    }
  }

  lemma {:induction false} AdvanceConcat(st: Stack, a: seq<Event>, b: seq<Event>)
    ensures Advance(Advance(st, a), b) == Advance(st, a + b)
    decreases st
  {
    if st.Push? {
      AdvanceConcat(st.below, a, b);
      FeedAllConcat(st.top.validators, a, b);
    }
  }

  lemma {:induction false} AdvanceGuarded(st: Stack, es: seq<Event>, h: nat)
    requires Guarded(st, h)
    ensures Guarded(Advance(st, es), h)
    decreases st
  {
    if st.Push? {
      AdvanceGuarded(st.below, es, h);
      var ws := st.top.validators;
      forall i | 0 <= i < |ws|
        ensures Height(FeedAll(ws, es)[i].root) < h
      {
        FeedKeepsRoot(ws[i], es);
      }
    }
  }

  lemma {:induction false} AdvanceNothing(st: Stack)
    ensures Advance(st, []) == st
    decreases st
  {
    if st.Push? {
      AdvanceNothing(st.below);
      assert FeedAll(st.top.validators, []) == st.top.validators;
    }
  }

  // -------------------------------------------------------- verdicts agree

  lemma {:induction false} CountAll(ws: seq<Validator>, lo: nat, hi: nat)
    requires lo <= hi <= |ws|
    ensures CountValid(ws, lo, hi) <= hi - lo
    ensures CountValid(ws, lo, hi) == hi - lo <==> forall i :: lo <= i < hi ==> ws[i].valid
    decreases hi - lo
  {
    if lo < hi {
      CountAll(ws, lo + 1, hi);
    }
  }

  lemma {:induction false} CountSome(ws: seq<Validator>, lo: nat, hi: nat)
    requires lo <= hi <= |ws|
    ensures CountValid(ws, lo, hi) > 0 <==> exists i :: lo <= i < hi && ws[i].valid
    decreases hi - lo
  {
    if lo < hi {
      CountSome(ws, lo + 1, hi);
    }
  }

  /** Validator `i` alone is valid. */
  predicate OnlyValid(ws: seq<Validator>, lo: nat, hi: nat, i: int)
    requires lo <= hi <= |ws|
  {
    lo <= i < hi && ws[i].valid && forall k :: lo <= k < hi && k != i ==> !ws[k].valid
  }

  lemma {:induction false} CountOne(ws: seq<Validator>, lo: nat, hi: nat)
    requires lo <= hi <= |ws|
    ensures CountValid(ws, lo, hi) == 1 <==> exists i :: OnlyValid(ws, lo, hi, i)
    decreases hi - lo
  {
    if lo < hi {
      CountOne(ws, lo + 1, hi);
      CountSome(ws, lo + 1, hi);
      if CountValid(ws, lo, hi) == 1 {
        var i := if ws[lo].valid then lo else var k :| OnlyValid(ws, lo + 1, hi, k); k;
        assert OnlyValid(ws, lo, hi, i);
      }
      if i :| OnlyValid(ws, lo, hi, i) {
        if i > lo {
          assert OnlyValid(ws, lo + 1, hi, i);
        }
      }
    }
  }

  /** The nested validators have each reached the verdict of their schema. */
  ghost predicate Verdicts(s: Schema, ws: seq<Validator>, j: Value) {
    && |ws| == |Parallel(s)|
    && forall k :: 0 <= k < |ws| ==> (ws[k].valid <==> Satisfies(Parallel(s)[k], j))
  }

  /** The verdicts on a run of the parallel schemas. */
  ghost predicate GroupVerdicts(ss: seq<Schema>, ws: seq<Validator>, lo: nat, j: Value)
    requires lo + |ss| <= |ws|
  {
    forall i :: 0 <= i < |ss| ==> (ws[lo + i].valid <==> Satisfies(ss[i], j))
  }

  lemma EveryVerdict(ss: seq<Schema>, ws: seq<Validator>, lo: nat, j: Value)
    requires lo + |ss| <= |ws| && GroupVerdicts(ss, ws, lo, j)
    ensures CountValid(ws, lo, lo + |ss|) == |ss| <==> SatisfiesEvery(ss, j)
  {
    CountAll(ws, lo, lo + |ss|);
    if SatisfiesEvery(ss, j) {
      forall k | lo <= k < lo + |ss|
        ensures ws[k].valid
      {
        assert Satisfies(ss[k - lo], j);
      }
    }
  }

  lemma SomeVerdict(ss: seq<Schema>, ws: seq<Validator>, lo: nat, j: Value)
    requires lo + |ss| <= |ws| && GroupVerdicts(ss, ws, lo, j)
    ensures CountValid(ws, lo, lo + |ss|) > 0 <==> SatisfiesSome(ss, j)
  {
    CountSome(ws, lo, lo + |ss|);
    if k :| lo <= k < lo + |ss| && ws[k].valid {
      assert ws[lo + (k - lo)].valid <==> Satisfies(ss[k - lo], j);
    }
  }

  lemma OneVerdict(ss: seq<Schema>, ws: seq<Validator>, lo: nat, j: Value)
    requires lo + |ss| <= |ws| && GroupVerdicts(ss, ws, lo, j)
    ensures CountValid(ws, lo, lo + |ss|) == 1 <==> SatisfiesOne(ss, j)
  {
    var hi := lo + |ss|;
    CountOne(ws, lo, hi);
    if k :| OnlyValid(ws, lo, hi, k) {
      forall i | 0 <= i < |ss| && i != k - lo
        ensures !Satisfies(ss[i], j)
      {
        assert !ws[lo + i].valid;
      }
      assert ws[lo + (k - lo)].valid <==> Satisfies(ss[k - lo], j);
      assert OnlySatisfies(ss, k - lo, j);
    }
    if i :| OnlySatisfies(ss, i, j) {
      forall k | lo <= k < hi && k != lo + i
        ensures !ws[k].valid
      {
        assert ws[lo + (k - lo)].valid <==> Satisfies(ss[k - lo], j);
      }
      assert OnlyValid(ws, lo, hi, lo + i);
    }
  }

  lemma GroupOfVerdicts(s: Schema, ws: seq<Validator>, ss: seq<Schema>, lo: nat, j: Value)
    requires Verdicts(s, ws, j) && HoldsAt(s, ss, lo)
    ensures GroupVerdicts(ss, ws, lo, j)
  {
    forall i | 0 <= i < |ss|
      ensures ws[lo + i].valid <==> Satisfies(ss[i], j)
    {
      assert ss[i] == Parallel(s)[lo + i];
    }
  }

  /** Counts that decide each group decide the combined keywords. */
  lemma CountsCombine(s: Schema, ws: seq<Validator>, j: Value, a: nat, b: nat, c: nat)
    requires |ws| == |Parallel(s)| && a == |s.allOf| && b == a + |s.anyOf| && c == b + |s.oneOf|
    requires CountValid(ws, 0, a) == a <==> SatisfiesEvery(s.allOf, j)
    requires CountValid(ws, a, b) > 0 <==> SatisfiesSome(s.anyOf, j)
    requires CountValid(ws, b, c) == 1 <==> SatisfiesOne(s.oneOf, j)
    requires s.negated.Some? ==> (ws[c].valid <==> Satisfies(s.negated.value, j))
    ensures EndOk(s, ws) <==> CombinedSatisfied(s, j)
  {
  }

  lemma GroupCounts(s: Schema, ws: seq<Validator>, ss: seq<Schema>, lo: nat, j: Value)
    requires Verdicts(s, ws, j) && HoldsAt(s, ss, lo)
    ensures CountValid(ws, lo, lo + |ss|) == |ss| <==> SatisfiesEvery(ss, j)
    ensures CountValid(ws, lo, lo + |ss|) > 0 <==> SatisfiesSome(ss, j)
    ensures CountValid(ws, lo, lo + |ss|) == 1 <==> SatisfiesOne(ss, j)
  {
    GroupOfVerdicts(s, ws, ss, lo, j);
    EveryVerdict(ss, ws, lo, j);
    SomeVerdict(ss, ws, lo, j);
    OneVerdict(ss, ws, lo, j);
  }

  lemma AllOfCounts(s: Schema, ws: seq<Validator>, j: Value)
    requires Verdicts(s, ws, j)
    ensures CountValid(ws, 0, |s.allOf|) == |s.allOf| <==> SatisfiesEvery(s.allOf, j)
  {
    ParallelParts(s);
    GroupCounts(s, ws, s.allOf, 0, j);
  }

  lemma AnyOfCounts(s: Schema, ws: seq<Validator>, j: Value)
    requires Verdicts(s, ws, j)
    ensures CountValid(ws, |s.allOf|, |s.allOf| + |s.anyOf|) > 0 <==> SatisfiesSome(s.anyOf, j)
  {
    ParallelParts(s);
    GroupCounts(s, ws, s.anyOf, |s.allOf|, j);
  }

  lemma OneOfCounts(s: Schema, ws: seq<Validator>, j: Value)
    requires Verdicts(s, ws, j)
    ensures var b := |s.allOf| + |s.anyOf|; CountValid(ws, b, b + |s.oneOf|) == 1 <==> SatisfiesOne(s.oneOf, j)
  {
    ParallelParts(s);
    GroupCounts(s, ws, s.oneOf, |s.allOf| + |s.anyOf|, j);
  }

  lemma NegatedVerdict(s: Schema, ws: seq<Validator>, j: Value)
    requires Verdicts(s, ws, j) && s.negated.Some?
    ensures ws[|s.allOf| + |s.anyOf| + |s.oneOf|].valid <==> Satisfies(s.negated.value, j)
  {
    ParallelParts(s);
  }

  /** Counting the verdicts decides the combined keywords. */
  lemma EndVerdict(s: Schema, ws: seq<Validator>, j: Value)
    requires Verdicts(s, ws, j)
    ensures EndOk(s, ws) <==> CombinedSatisfied(s, j)
  {
    AllOfCounts(s, ws, j);
    AnyOfCounts(s, ws, j);
    OneOfCounts(s, ws, j);
    if s.negated.Some? {
      NegatedVerdict(s, ws, j);
    }
    var (a, b) := (|s.allOf|, |s.allOf| + |s.anyOf|);
    CountsCombine(s, ws, j, a, b, b + |s.oneOf|);
  }

  /** What streaming handles: integers as constructors make them, sizes that fit SizeType. */
  predicate Streamable(v: Value)
    decreases v, 0
  {
    match v
    case Number(_, _) => ExactNumber(v)
    case Array(es) => |es| <= MAX_SIZE && ItemsStreamable(es)
    case Object(ms) => |ms| <= MAX_SIZE && MembersStreamable(ms)
    case _ => true
  }

  predicate ItemsStreamable(es: seq<Value>)
    decreases es, 1
  {
    es == [] || (Streamable(es[0]) && ItemsStreamable(es[1..]))
  }

  predicate MembersStreamable(ms: seq<Member>)
    decreases ms, 1
  {
    ms == [] || (Streamable(ms[0].value) && MembersStreamable(ms[1..]))
  }

  /** The first event of a scalar decides the keywords about it, whichever integer event it is. */
  lemma StartVerdict(s: Schema, j: Value)
    requires Streamable(j) && !j.Array? && !j.Object?
    ensures StartOk(s, ReadEvents(j)[0]) <==> PartsSatisfied(s, j)
  {
  }

  // ------------------------------------------------------------- invariants

  /** Schemas that a context may hand to its parts are no higher than the root's. */
  predicate Bounded(v: Validator) {
    && v.valid
    && Guarded(v.stack, Height(v.root))
    && (v.stack.Push? ==> Height(v.stack.top.schema) <= Height(v.root) && Height(v.stack.top.valueSchema) <= Height(v.root))
  }

  lemma BeginBounded(v: Validator)
    requires Bounded(v) && Begin(v.root, v.stack).Some?
    ensures var st := Begin(v.root, v.stack).value;
      && st.Push? && st.top == NewContext(st.top.schema) && Height(st.top.schema) <= Height(v.root)
      && Guarded(st.below, Height(v.root))
  {
    if v.stack.Push? && v.stack.top.inArray {
      ItemSchemaHeight(v.stack.top.schema, v.stack.top.index);
    }
  }

  /** The context of a value once its first event has been forwarded. */
  function Opened(s: Schema, e: Event): Context {
    var c := Started(NewContext(s), e);
    c.(validators := FeedAll(c.validators, [e]))
  }

  /** The first event of a value: refused, or sent on with the new context on top. */
  lemma FirstStep(v: Validator, e: Event)
    requires Bounded(v) && StartsValue(e) && Begin(v.root, v.stack).Some?
    ensures var st := Begin(v.root, v.stack).value;
      var st2 := Push(Opened(st.top.schema, e), Advance(st.below, [e]));
      Step(v, e) ==
        if !StartOk(st.top.schema, e) then v.(valid := false)
        else if e.StartObject? || e.StartArray? then v.(stack := st2) else Ended(v, st2)
  {
    var st := Begin(v.root, v.stack).value;
    var s := st.top.schema;
    BeginBounded(v);
    var pushed := Push(Started(st.top, e), st.below);
    forall i | 0 <= i < |Parallel(s)|
      ensures Height(FreshAll(Parallel(s))[i].root) < Height(v.root)
    {
      ParallelHeight(s, i);
    }
    ForwardAdvances(Height(v.root), pushed, e);
  }

  /** A member name: refused, or the value schema is chosen and the name is sent on. */
  lemma KeyStep(v: Validator, name: Text)
    requires Bounded(v) && v.stack.Push?
    ensures Step(v, Key(name)) ==
      match MemberSchema(v.stack.top.schema, name)
      case None => v.(valid := false)
      case Some(c) => v.(stack := Advance(Push(Keyed(v.stack.top, name, c), v.stack.below), [Key(name)]))
  {
    var m := MemberSchema(v.stack.top.schema, name);
    if m.Some? {
      ForwardAdvances(Height(v.root), Push(Keyed(v.stack.top, name, m.value), v.stack.below), Key(name));
    }
  }

  /** The end of a container: the nested validators see it first, then the sizes are checked. */
  lemma EndStep(v: Validator, e: Event)
    requires Bounded(v) && v.stack.Push? && (e.EndObject? || e.EndArray?)
    ensures var st := Advance(v.stack, [e]);
      Step(v, e) ==
        if (if e.EndObject? then ObjectOk(st.top.schema, st.top.exist, e.count) else ArrayOk(st.top.schema, e.count))
        then Ended(v, st) else v.(valid := false)
  {
    ForwardAdvances(Height(v.root), v.stack, e);
  }

  // -------------------------------------------- between two parts of a value

  /** From `v` to `r` the events `es` of some parts of a container went by, and all is well. */
  predicate Kept(v: Validator, r: Validator, es: seq<Event>)
    requires v.stack.Push?
  {
    && Bounded(r)
    && r.root == v.root
    && r.stack.Push?
    && r.stack.top.schema == v.stack.top.schema
    && r.stack.top.inArray == v.stack.top.inArray
    && r.stack.top.validators == FeedAll(v.stack.top.validators, es)
    && r.stack.below == Advance(v.stack.below, es)
  }

  lemma KeptTransitive(v: Validator, m: Validator, r: Validator, a: seq<Event>, b: seq<Event>)
    requires v.stack.Push? && Kept(v, m, a) && Kept(m, r, b)
    ensures Kept(v, r, a + b)
  {
    FeedAllConcat(v.stack.top.validators, a, b);
    AdvanceConcat(v.stack.below, a, b);
  }

  lemma KeptAtOnce(v: Validator)
    requires v.stack.Push? && Bounded(v)
    ensures Kept(v, v, [])
  {
    AdvanceNothing(v.stack);
  }

  /** Elements against the schemas of their positions, from position `i` on. */
  ghost predicate ItemsSatisfy(s: Schema, es: seq<Value>, i: nat)
    decreases |es|
  {
    es == [] ||
    (ItemSatisfies(s, i, es[0]) && ItemsSatisfy(s, es[1..], i + 1))
  }

  lemma {:induction false} ItemsSatisfyAll(s: Schema, es: seq<Value>, i: nat)
    ensures ItemsSatisfy(s, es, i) <==> forall k :: 0 <= k < |es| ==> ItemSatisfies(s, i + k, es[k])
    decreases |es|
  {
    if es != [] {
      ItemsSatisfyAll(s, es[1..], i + 1);
      if ItemsSatisfy(s, es, i) {
        forall k | 0 < k < |es|
          ensures ItemSatisfies(s, i + k, es[k])
        {
          assert ItemSatisfies(s, i + 1 + (k - 1), es[1..][k - 1]);
        }
      }
      if forall k :: 0 <= k < |es| ==> ItemSatisfies(s, i + k, es[k]) {
        assert ItemSatisfies(s, i + 0, es[0]);
        forall k | 0 <= k < |es| - 1
          ensures ItemSatisfies(s, i + 1 + k, es[1..][k])
        {
          assert ItemSatisfies(s, i + (k + 1), es[k + 1]);
        }
      }
    }
  }

  /** Members against the schemas of their names. */
  ghost predicate MembersSatisfy(s: Schema, ms: seq<Member>)
    decreases |ms|
  {
    ms == [] ||
    (MemberSatisfies(s, ms[0]) && MembersSatisfy(s, ms[1..]))
  }

  lemma {:induction false} MembersSatisfyAll(s: Schema, ms: seq<Member>)
    ensures MembersSatisfy(s, ms) <==>
      forall i :: 0 <= i < |ms| ==> MemberSatisfies(s, ms[i])
    decreases |ms|
  {
    if ms != [] {
      MembersSatisfyAll(s, ms[1..]);
      if MembersSatisfy(s, ms) {
        forall i | 0 < i < |ms|
          ensures MemberSatisfies(s, ms[i])
        {
          assert ms[i] == ms[1..][i - 1];
        }
      }
    }
  }

  lemma ArrayParts(s: Schema, es: seq<Value>)
    ensures PartsSatisfied(s, Array(es)) <==> s.types.arr && ArrayOk(s, |es|) && ItemsSatisfy(s, es, 0)
  {
    ItemsSatisfyAll(s, es, 0);
    assert (forall k :: 0 <= k < |es| ==> ItemSatisfies(s, k, es[k])) <==>
      (forall k :: 0 <= k < |es| ==> ItemSatisfies(s, 0 + k, es[k]));
  }

  /** The table names seen once the members have gone by. */
  function Seen(ps: seq<Property>, ms: seq<Member>, exist: set<Text>): set<Text>
    decreases |ms|
  {
    if ms == [] then exist
    else Seen(ps, ms[1..], if FindProperty(ps, ms[0].name).Some? then exist + {ms[0].name} else exist)
  }

  lemma {:induction false} SeenNames(ps: seq<Property>, ms: seq<Member>, exist: set<Text>, name: Text)
    requires FindProperty(ps, name).Some?
    ensures name in Seen(ps, ms, exist) <==> name in exist || name in Names(ms)
    decreases |ms|
  {
    if ms != [] {
      SeenNames(ps, ms[1..], if FindProperty(ps, ms[0].name).Some? then exist + {ms[0].name} else exist, name);
      assert name in Names(ms[1..]) ==> name in Names(ms) by {
        if i :| 0 <= i < |ms[1..]| && ms[1..][i].name == name {
          assert ms[i + 1].name == name;
        }
      }
      assert name in Names(ms) && name != ms[0].name ==> name in Names(ms[1..]) by {
        if i :| 0 < i < |ms| && ms[i].name == name {
          assert ms[1..][i - 1].name == name;
        }
      }
      assert ms[0].name in Names(ms);
    }
  }

  lemma {:induction false} TableHas(ps: seq<Property>, i: nat)
    requires i < |ps|
    ensures FindProperty(ps, ps[i].name).Some?
    decreases |ps|
  {
    if i > 0 {
      TableHas(ps[1..], i - 1);
    }
  }

  /** The marks in the property table miss a required name just when the object does. */
  lemma MarksSuffice(s: Schema, ms: seq<Member>)
    ensures MissesRequired(s, Seen(s.properties, ms, {})) <==> MissesRequired(s, Names(ms))
  {
    forall i | 0 <= i < |s.properties|
      ensures Misses(s.properties[i], Seen(s.properties, ms, {})) <==> Misses(s.properties[i], Names(ms))
    {
      TableHas(s.properties, i);
      SeenNames(s.properties, ms, {}, s.properties[i].name);
    }
  }

  lemma ObjectParts(s: Schema, ms: seq<Member>)
    ensures PartsSatisfied(s, Object(ms)) <==>
      s.types.obj && ObjectOk(s, Seen(s.properties, ms, {}), |ms|) && MembersSatisfy(s, ms)
  {
    MembersSatisfyAll(s, ms);
    MarksSuffice(s, ms);
  }

  // ------------------------------------------------- the streaming theorem

  /**
   * A value fed to a validator: if it satisfies the schema chosen for it, its context is gone and
   * the contexts below have only passed its events on; otherwise the validator is invalid.
   */
  ghost predicate FedWell(v: Validator, j: Value) {
    var b := Begin(v.root, v.stack);
    var r := Feed(v, ReadEvents(j));
    if b.Some? && Satisfies(b.value.top.schema, j) then r == v.(stack := Advance(b.value.below, ReadEvents(j)))
    else !r.valid
  }

  /** What the context of a value knows after the events `es` of that value. */
  predicate Tracks(c: Context, s: Schema, es: seq<Event>) {
    c.schema == s && c.validators == FeedAll(FreshAll(Parallel(s)), es)
  }

  /** Nested validators that are fed the whole value reach the verdict of their schema. */
  lemma {:induction false} NestedVerdicts(s: Schema, j: Value)
    requires Streamable(j)
    ensures Verdicts(s, FeedAll(FreshAll(Parallel(s)), ReadEvents(j)), j)
    decreases Height(s), j, 0
  {
    forall k | 0 <= k < |Parallel(s)|
      ensures Feed(Fresh(Parallel(s)[k]), ReadEvents(j)).valid <==> Satisfies(Parallel(s)[k], j)
    {
      ParallelHeight(s, k);
      ValueFed(Fresh(Parallel(s)[k]), j);
    }
  }

  /** The last step of a value whose own keywords hold. */
  lemma {:induction false} ClosesValue(v: Validator, st: Stack, s: Schema, j: Value)
    requires st.Push? && Tracks(st.top, s, ReadEvents(j)) && Streamable(j) && PartsSatisfied(s, j) && v.valid
    ensures Ended(v, st) == if Satisfies(s, j) then v.(stack := st.below) else v.(valid := false)
    decreases Height(s), j, 1
  {
    NestedVerdicts(s, j);
    EndVerdict(s, st.top.validators, j);
  }

  /** A scalar, an array or an object none of whose keywords about the start fail. */
  ghost predicate Admitted(v: Validator, j: Value) {
    && Bounded(v)
    && Streamable(j)
    && Begin(v.root, v.stack).Some?
    && StartOk(Begin(v.root, v.stack).value.top.schema, ReadEvents(j)[0])
  }

  lemma {:induction false} ScalarFed(v: Validator, j: Value)
    requires Admitted(v, j) && !j.Array? && !j.Object?
    ensures FedWell(v, j)
    decreases Height(v.root), j, 2
  {
    var st := Begin(v.root, v.stack).value;
    var (s, e) := (st.top.schema, ReadEvents(j)[0]);
    BeginBounded(v);
    FirstStep(v, e);
    FeedOne(v, e);
    StartVerdict(s, j);
    ClosesValue(v, Push(Opened(s, e), Advance(st.below, [e])), s, j);
  }

  /** After the first event of a container, its context is on top and bounded. */
  lemma FirstKept(v: Validator, e: Event)
    requires Bounded(v) && (e.StartArray? || e.StartObject?)
    requires Begin(v.root, v.stack).Some? && StartOk(Begin(v.root, v.stack).value.top.schema, e)
    ensures var st := Begin(v.root, v.stack).value;
      Step(v, e) == v.(stack := Push(Opened(st.top.schema, e), Advance(st.below, [e]))) && Bounded(Step(v, e))
  {
    var st := Begin(v.root, v.stack).value;
    BeginBounded(v);
    FirstStep(v, e);
    HeightOfTypeless();
    AdvanceGuarded(st.below, [e], Height(v.root));
    forall i | 0 <= i < |Parallel(st.top.schema)|
      ensures Height(Opened(st.top.schema, e).validators[i].root) < Height(v.root)
    {
      ParallelHeight(st.top.schema, i);
      FeedKeepsRoot(Fresh(Parallel(st.top.schema)[i]), [e]);
    }
  }

  /** Three stretches of events one after the other. */
  lemma Stretches(st: Stack, ws: seq<Validator>, a: seq<Event>, b: seq<Event>, c: seq<Event>)
    ensures Advance(Advance(Advance(st, a), b), c) == Advance(st, a + (b + c))
    ensures FeedAll(FeedAll(FeedAll(ws, a), b), c) == FeedAll(ws, a + (b + c))
  {
    AdvanceConcat(Advance(st, a), b, c);
    AdvanceConcat(st, a, b + c);
    FeedAllConcat(FeedAll(ws, a), b, c);
    FeedAllConcat(ws, a, b + c);
  }

  /** The events of a container are its first, those of its parts, and its last. */
  predicate Splits(j: Value, first: Event, es: seq<Event>, last: Event) {
    || (j.Array? && first == StartArray && es == ReadItems(j.elements) && last == EndArray(|j.elements|))
    || (j.Object? && first == StartObject && es == ReadMembers(j.members) && last == EndObject(|j.members|))
  }

  lemma FeedSplit(v: Validator, j: Value, first: Event, es: seq<Event>, last: Event)
    requires Splits(j, first, es, last)
    ensures ReadEvents(j)[0] == first && ReadEvents(j) == [first] + (es + [last])
    ensures Feed(v, ReadEvents(j)) == Step(Feed(Step(v, first), es), last)
  {
    var r := Feed(Step(v, first), es);
    FeedConcat(v, [first], es + [last]);
    FeedOne(v, first);
    FeedConcat(Step(v, first), es, [last]);
    FeedOne(r, last);
  }

  /** Whether the marks and the count allow a container to end. */
  predicate MayEnd(s: Schema, j: Value, exist: set<Text>) {
    (j.Object? && ObjectOk(s, exist, |j.members|)) || (j.Array? && ArrayOk(s, |j.elements|))
  }

  /** A container whose parts are well ends as its schema says. */
  lemma {:induction false} ContainerCloses(v: Validator, r: Validator, s: Schema, below: Stack, j: Value,
                                           first: Event, es: seq<Event>, last: Event)
    requires Splits(j, first, es, last) && Streamable(j) && Bounded(r) && r.stack.Push?
    requires r.root == v.root && v.valid && Height(s) <= Height(v.root)
    requires r.stack.top.schema == s && r.stack.below == Advance(Advance(below, [first]), es)
    requires r.stack.top.validators == FeedAll(FeedAll(FreshAll(Parallel(s)), [first]), es)
    requires PartsSatisfied(s, j) <==> MayEnd(s, j, r.stack.top.exist)
    ensures Step(r, last) == if Satisfies(s, j) then v.(stack := Advance(below, ReadEvents(j))) else r.(valid := false)
    decreases Height(s), j, 2
  {
    EndStep(r, last);
    Stretches(below, FreshAll(Parallel(s)), [first], es, [last]);
    if PartsSatisfied(s, j) {
      ClosesValue(r, Advance(r.stack, [last]), s, j);
    }
  }

  lemma {:induction false} ValueFed(v: Validator, j: Value)
    requires Bounded(v) && Streamable(j)
    ensures FedWell(v, j)
    decreases Height(v.root), j, 4
  {
    var e := ReadEvents(j)[0];
    var b := Begin(v.root, v.stack);
    if b.None? {
      FeedInvalid(Step(v, e), ReadEvents(j)[1..]);
    } else {
      BeginBounded(v);
      FirstStep(v, e);
      if !StartOk(b.value.top.schema, e) {
        StartNeeded(b.value.top.schema, j);
        FeedInvalid(Step(v, e), ReadEvents(j)[1..]);
      } else if j.Array? {
        ArrayFed(v, j);
      } else if j.Object? {
        ObjectFed(v, j);
      } else {
        ScalarFed(v, j);
      }
    }
  }

  /** An element has gone by: the position has advanced, and the rest is as before. */
  lemma ItemKept(v: Validator, r: Validator, es: seq<Event>)
    requires Bounded(v) && v.stack.Push? && v.stack.top.inArray && v.stack.top.index < MAX_SIZE
    requires ItemSchema(v.stack.top.schema, v.stack.top.index).Some?
    requires r == v.(stack := Advance(Begin(v.root, v.stack).value.below, es))
    ensures Kept(v, r, es) && r.stack.top.index == v.stack.top.index + 1
  {
    ItemSchemaHeight(v.stack.top.schema, v.stack.top.index);
    AdvanceGuarded(v.stack, es, Height(v.root));
  }

  /** One element: the next position's schema applies, and the position advances. */
  lemma {:induction false} ItemFed(v: Validator, e: Value)
    requires Bounded(v) && v.stack.Push? && v.stack.top.inArray && Streamable(e) && v.stack.top.index < MAX_SIZE
    ensures var (c, r) := (v.stack.top, Feed(v, ReadEvents(e)));
      if ItemSatisfies(c.schema, c.index, e)
      then Kept(v, r, ReadEvents(e)) && r.stack.top.index == c.index + 1
      else !r.valid
    decreases Height(v.root), e, 5
  {
    ValueFed(v, e);
    if ItemSatisfies(v.stack.top.schema, v.stack.top.index, e) {
      ItemKept(v, Feed(v, ReadEvents(e)), ReadEvents(e));
    }
  }

  lemma {:induction false} ItemsFed(v: Validator, es: seq<Value>)
    requires Bounded(v) && v.stack.Push? && v.stack.top.inArray
    requires ItemsStreamable(es) && v.stack.top.index + |es| <= MAX_SIZE
    ensures var r := Feed(v, ReadItems(es));
      if ItemsSatisfy(v.stack.top.schema, es, v.stack.top.index) then Kept(v, r, ReadItems(es)) else !r.valid
    decreases Height(v.root), es, 3
  {
    if es == [] {
      KeptAtOnce(v);
    } else {
      var (a, b) := (ReadEvents(es[0]), ReadItems(es[1..]));
      var m := Feed(v, a);
      FeedConcat(v, a, b);
      ItemFed(v, es[0]);
      if m.valid {
        ItemsFed(m, es[1..]);
        if ItemsSatisfy(v.stack.top.schema, es, v.stack.top.index) {
          KeptTransitive(v, m, Feed(m, b), a, b);
        }
      } else {
        FeedInvalid(m, b);
      }
    }
  }

  lemma {:induction false} MemberFed(v: Validator, m: Member)
    requires Bounded(v) && v.stack.Push? && !v.stack.top.inArray && Streamable(m.value)
    ensures var s := v.stack.top.schema;
      var es := [Key(m.name)] + ReadEvents(m.value);
      var r := Feed(v, es);
      if MemberSatisfies(s, m)
      then Kept(v, r, es) && r.stack.top.exist == Seen(s.properties, [m], v.stack.top.exist)
      else !r.valid
    decreases Height(v.root), m.value, 5
  {
    var (c, below) := (v.stack.top, v.stack.below);
    var (a, b) := ([Key(m.name)], ReadEvents(m.value));
    FeedConcat(v, a, b);
    FeedOne(v, Key(m.name));
    KeyStep(v, m.name);
    var chosen := MemberSchema(c.schema, m.name);
    var k := Step(v, Key(m.name));
    if chosen.None? {
      FeedInvalid(k, b);
    } else {
      MemberSchemaHeight(c.schema, m.name);
      AdvanceGuarded(v.stack, a, Height(v.root));
      assert Kept(v, k, a);
      ValueFed(k, m.value);
      if Satisfies(chosen.value, m.value) {
        AdvanceGuarded(k.stack, b, Height(v.root));
        KeptTransitive(v, k, Feed(k, b), a, b);
      }
    }
  }

  lemma {:induction false} MembersFed(v: Validator, ms: seq<Member>)
    requires Bounded(v) && v.stack.Push? && !v.stack.top.inArray && MembersStreamable(ms)
    ensures var s := v.stack.top.schema;
      var r := Feed(v, ReadMembers(ms));
      if MembersSatisfy(s, ms)
      then Kept(v, r, ReadMembers(ms)) && r.stack.top.exist == Seen(s.properties, ms, v.stack.top.exist)
      else !r.valid
    decreases Height(v.root), ms, 3
  {
    if ms == [] {
      KeptAtOnce(v);
    } else {
      var (a, b) := ([Key(ms[0].name)] + ReadEvents(ms[0].value), ReadMembers(ms[1..]));
      var m := Feed(v, a);
      FeedConcat(v, a, b);
      MemberFed(v, ms[0]);
      if m.valid {
        MembersFed(m, ms[1..]);
        if MembersSatisfy(v.stack.top.schema, ms) {
          KeptTransitive(v, m, Feed(m, b), a, b);
        }
      } else {
        FeedInvalid(m, b);
      }
    }
  }

  lemma {:induction false} ArrayFed(v: Validator, j: Value)
    requires Admitted(v, j) && j.Array?
    ensures FedWell(v, j)
    decreases Height(v.root), j, 3
  {
    var st := Begin(v.root, v.stack).value;
    var (s, es, evs) := (st.top.schema, j.elements, ReadItems(j.elements));
    BeginBounded(v);
    FirstKept(v, StartArray);
    FeedSplit(v, j, StartArray, evs, EndArray(|es|));
    ArrayParts(s, es);
    var v1 := Step(v, StartArray);
    ItemsFed(v1, es);
    var r := Feed(v1, evs);
    if ItemsSatisfy(s, es, 0) {
      ContainerCloses(v, r, s, st.below, j, StartArray, evs, EndArray(|es|));
    }
  }

  lemma {:induction false} ObjectFed(v: Validator, j: Value)
    requires Admitted(v, j) && j.Object?
    ensures FedWell(v, j)
    decreases Height(v.root), j, 3
  {
    var st := Begin(v.root, v.stack).value;
    var (s, ms, evs) := (st.top.schema, j.members, ReadMembers(j.members));
    BeginBounded(v);
    FirstKept(v, StartObject);
    FeedSplit(v, j, StartObject, evs, EndObject(|ms|));
    ObjectParts(s, ms);
    var v1 := Step(v, StartObject);
    MembersFed(v1, ms);
    var r := Feed(v1, evs);
    if MembersSatisfy(s, ms) {
      ContainerCloses(v, r, s, st.below, j, StartObject, evs, EndObject(|ms|));
    }
  }

  /** A value whose first event is refused satisfies nothing it is checked against. */
  lemma StartNeeded(s: Schema, j: Value)
    requires Streamable(j) && !StartOk(s, ReadEvents(j)[0])
    ensures !Satisfies(s, j)
  {
    if !j.Array? && !j.Object? {
      StartVerdict(s, j);
    }
  }

  /** Two events for the same integer. */
  predicate SameInteger(e: Event, f: Event) {
    && IsIntegerEvent(e)
    && IsIntegerEvent(f)
    && e.n == f.n
  }

  /** An integer event whose number is in the range of its kind. */
  predicate IsIntegerEvent(e: Event) {
    || (e.Int? && -0x8000_0000 <= e.n < 0x8000_0000)
    || (e.Uint? && 0 <= e.n < 0x1_0000_0000)
    || (e.Int64? && -0x8000_0000_0000_0000 <= e.n < 0x8000_0000_0000_0000)
    || (e.Uint64? && 0 <= e.n < 0x1_0000_0000_0000_0000)
  }

  lemma SameStart(s: Schema, e: Event, f: Event)
    requires SameInteger(e, f)
    ensures StartOk(s, e) == StartOk(s, f)
  {
  }

  /** The kind of event an integer arrives as makes no difference to a validator. */
  lemma {:induction false} KindIsIrrelevant(v: Validator, e: Event, f: Event)
    requires SameInteger(e, f)
    ensures Step(v, e) == Step(v, f)
    decreases Height(v.root), 1
  {
    var b := Begin(v.root, v.stack);
    if v.valid && b.Some? {
      SameStart(b.value.top.schema, e, f);
      var pushed := Push(Started(b.value.top, e), b.value.below);
      KindForward(Height(v.root), pushed, e, f);
    }
  }

  lemma {:induction false} KindForward(h: nat, st: Stack, e: Event, f: Event)
    requires SameInteger(e, f)
    ensures Forward(h, st, e) == Forward(h, st, f)
    decreases h, 0, st
  {
    if st.Push? {
      KindForward(h, st.below, e, f);
      forall i | 0 <= i < |st.top.validators| && Height(st.top.validators[i].root) < h
        ensures Step(st.top.validators[i], e) == Step(st.top.validators[i], f)
      {
        KindIsIrrelevant(st.top.validators[i], e, f);
      }
      assert Forward(h, st, e).top.validators == Forward(h, st, f).top.validators;
    }
  }

  /** Integers may arrive as events of other kinds, as when a stored value is sent instead of a parsed one. */
  lemma {:induction false} KindsAreIrrelevant(v: Validator, es: seq<Event>, fs: seq<Event>)
    requires |es| == |fs|
    requires forall i :: 0 <= i < |es| ==> es[i] == fs[i] || SameInteger(es[i], fs[i])
    ensures Feed(v, es) == Feed(v, fs)
    decreases |es|
  {
    if es != [] {
      if es[0] != fs[0] {
        KindIsIrrelevant(v, es[0], fs[0]);
      }
      KindsAreIrrelevant(Step(v, es[0]), es[1..], fs[1..]);
    }
  }

  /** The streaming verdict is the recursive one, for every schema and every value. */
  lemma StreamingIsSatisfaction(s: Schema, j: Value)
    requires Streamable(j)
    ensures Feed(Fresh(s), ReadEvents(j)).valid <==> Satisfies(s, j)
    ensures Satisfies(s, j) ==> Feed(Fresh(s), ReadEvents(j)) == Fresh(s)
  {
    ValueFed(Fresh(s), j);
  }
}
