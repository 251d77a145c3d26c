/** The validator as an event handler: loops over contexts, nested validators and table entries. */
module SchemaValidator {
  import opened Bytes
  import opened Events
  import opened Dom
  import opened Schemas
  import opened Validation

  /** The contexts as the validator stores them, the innermost last. */
  function Stacked(cs: seq<Context>): (r: Stack)
    ensures r.Push? <==> cs != []
    decreases |cs|
  {
    if cs == [] then Empty else Push(cs[|cs| - 1], Stacked(cs[..|cs| - 1]))
  }

  lemma StackedPush(cs: seq<Context>, c: Context)
    ensures Stacked(cs + [c]) == Push(c, Stacked(cs))
  {
    assert (cs + [c])[..|cs|] == cs;
  }

  lemma StackedReplace(cs: seq<Context>, c: Context)
    requires cs != []
    ensures Stacked(cs[|cs| - 1 := c]) == Push(c, Stacked(cs).below)
  {
    assert cs[|cs| - 1 := c][..|cs| - 1] == cs[..|cs| - 1];
  }

  /** The context belongs to schemas no higher than `h`, its nested validators to lower ones. */
  predicate Within(c: Context, h: nat) {
    && Height(c.schema) <= h
    && Height(c.valueSchema) <= h
    && forall i :: 0 <= i < |c.validators| ==> Height(c.validators[i].root) < h
  }

  predicate AllWithin(cs: seq<Context>, h: nat) {
    forall i :: 0 <= i < |cs| ==> Within(cs[i], h)
  }

  /** A context whose nested validators have seen one more event. */
  function Sent(c: Context, e: Event): (r: Context)
    ensures r == c.(validators := r.validators) && |r.validators| == |c.validators|
  {
    c.(validators := seq(|c.validators|, i requires 0 <= i < |c.validators| => Step(c.validators[i], e)))
  }

  lemma {:induction false} SentWithin(c: Context, e: Event, h: nat)
    requires Within(c, h)
    ensures Within(Sent(c, e), h)
  {
    forall i | 0 <= i < |c.validators|
      ensures Step(c.validators[i], e).root == c.validators[i].root
    {
      FeedKeepsRoot(c.validators[i], [e]);
      FeedOne(c.validators[i], e);
    }
  }

  lemma ForwardTop(h: nat, st: Stack, e: Event)
    requires st.Push? && Within(st.top, h)
    ensures Forward(h, st, e) == Push(Sent(st.top, e), Forward(h, st.below, e))
  {
    assert Forward(h, st, e).top.validators == Sent(st.top, e).validators;
  }

  /** Sending an event to every context is what the recursive definition does. */
  lemma {:induction false} SentToAll(h: nat, cs: seq<Context>, ds: seq<Context>, e: Event)
    requires AllWithin(cs, h) && |ds| == |cs| && forall i :: 0 <= i < |cs| ==> ds[i] == Sent(cs[i], e)
    ensures Forward(h, Stacked(cs), e) == Stacked(ds)
    decreases |cs|
  {
    if cs != [] {
      var k := |cs| - 1;
      SentToAll(h, cs[..k], ds[..k], e);
      assert Within(cs[k], h);
      ForwardTop(h, Stacked(cs), e);
    }
  }

  lemma SentAllWithin(h: nat, cs: seq<Context>, ds: seq<Context>, e: Event)
    requires AllWithin(cs, h) && |ds| == |cs| && forall i :: 0 <= i < |cs| ==> ds[i] == Sent(cs[i], e)
    ensures AllWithin(ds, h)
  {
    forall i | 0 <= i < |ds|
      ensures Within(ds[i], h)
    {
      SentWithin(cs[i], e, h);
    }
  }

  /** The context has a validator for every parallel subschema. */
  predicate Full(c: Context) {
    |c.validators| == |Parallel(c.schema)|
  }

  predicate AllFull(cs: seq<Context>) {
    forall i :: 0 <= i < |cs| ==> Full(cs[i])
  }

  lemma StartedWithin(c: Context, e: Event, h: nat)
    requires Within(c, h)
    ensures Within(Started(c, e), h) && Full(Started(c, e))
  {
    forall i | 0 <= i < |Parallel(c.schema)|
      ensures Height(FreshAll(Parallel(c.schema))[i].root) < h
    {
      ParallelHeight(c.schema, i);
    }
  }

  /** The same validator as far as anyone can tell: an invalid one ignores whatever follows. */
  predicate Agree(a: Validator, b: Validator) {
    a.root == b.root && a.valid == b.valid && (a.valid ==> a == b)
  }

  /** The value may stand here and its first event is allowed. */
  predicate StartAllowed(v: Validator, e: Event) {
    var b := Begin(v.root, v.stack);
    b.Some? && StartOk(b.value.top.schema, e)
  }

  /** The contexts with that of the new value on top. */
  function Entered(v: Validator, e: Event): (r: Stack)
    requires StartAllowed(v, e)
    ensures r.Push?
  {
    var st := Begin(v.root, v.stack).value;
    Push(Started(st.top, e), st.below)
  }

  lemma StartStep(v: Validator, e: Event)
    requires v.valid && StartsValue(e)
    ensures Step(v, e) ==
      if !StartAllowed(v, e) then v.(valid := false)
      else
        var st := Forward(Height(v.root), Entered(v, e), e);
        if e.StartObject? || e.StartArray? then v.(stack := st) else Ended(v, st)
  {
  }

  /** Searches the property table from the front. */
  method FindPropertyIndex(ps: seq<Property>, name: Text) returns (index: Option<nat>)
    ensures index.Some? ==> index.value < |ps| && FindProperty(ps, name) == Some(ps[index.value])
    ensures index.None? <==> FindProperty(ps, name).None?
  {
    var i := 0;
    assert ps[0..] == ps;
    while i < |ps|
      invariant 0 <= i <= |ps|
      invariant FindProperty(ps, name) == FindProperty(ps[i..], name)
    {
      if ps[i].name == name {
        return Some(i);
      }
      assert ps[i..][1..] == ps[i + 1..];
      i := i + 1;
    }
    return None;
  }

  /** Counts the missing required properties, as the error report would list them. */
  method EndMissingProperties(s: Schema, exist: set<Text>) returns (missing: bool)
    ensures missing <==> MissesRequired(s, exist)
  {
    missing := false;
    var i := 0;
    while i < |s.properties|
      invariant 0 <= i <= |s.properties|
      invariant missing <==> exists k :: 0 <= k < i && Misses(s.properties[k], exist)
    {
      var p := s.properties[i];
      if p.required && p.name !in exist {
        if p.schema.defaultLength == 0 {
          assert Misses(s.properties[i], exist);
          missing := true;
        }
      }
      i := i + 1;
    }
  }

  /** All of a group must be valid. */
  method EveryValid(ws: seq<Validator>, begin: nat, count: nat) returns (ok: bool)
    requires begin + count <= |ws|
    ensures ok <==> CountValid(ws, begin, begin + count) == count
  {
    CountAll(ws, begin, begin + count);
    var i := begin;
    while i < begin + count
      invariant begin <= i <= begin + count
      invariant forall k :: begin <= k < i ==> ws[k].valid
    {
      if !ws[i].valid {
        return false;
      }
      i := i + 1;
    }
    return true;
  }

  /** One of a group must be valid; the search stops at the first. */
  method SomeValid(ws: seq<Validator>, begin: nat, count: nat) returns (ok: bool)
    requires begin + count <= |ws|
    ensures ok <==> CountValid(ws, begin, begin + count) > 0
  {
    CountSome(ws, begin, begin + count);
    var i := begin;
    while i < begin + count
      invariant begin <= i <= begin + count
      invariant forall k :: begin <= k < i ==> !ws[k].valid
    {
      if ws[i].valid {
        return true;
      }
      i := i + 1;
    }
    return false;
  }

  lemma {:induction false} CountSplits(ws: seq<Validator>, lo: nat, mid: nat, hi: nat)
    requires lo <= mid <= hi <= |ws|
    ensures CountValid(ws, lo, hi) == CountValid(ws, lo, mid) + CountValid(ws, mid, hi)
    decreases mid - lo
  {
    if lo < mid {
      CountSplits(ws, lo + 1, mid, hi);
    }
  }

  /** Exactly one of a group must be valid; the search stops at the second. */
  method OneValid(ws: seq<Validator>, begin: nat, count: nat) returns (ok: bool)
    requires begin + count <= |ws|
    ensures ok <==> CountValid(ws, begin, begin + count) == 1
  {
    var oneValid := false;
    var i := begin;
    while i < begin + count
      invariant begin <= i <= begin + count
      invariant CountValid(ws, begin, i) == if oneValid then 1 else 0
    {
      CountSplits(ws, begin, i, i + 1);
      CountSplits(ws, begin, i + 1, begin + count);
      assert CountValid(ws, i, i + 1) == if ws[i].valid then 1 else 0;
      if ws[i].valid {
        if oneValid {
          return false;
        }
        oneValid := true;
      }
      i := i + 1;
    }
    return oneValid;
  }

  /** The verdict on a value whose own keywords hold. */
  method EndValueOk(s: Schema, ws: seq<Validator>) returns (ok: bool)
    requires |ws| == |Parallel(s)|
    ensures ok <==> EndOk(s, ws)
  {
    var (a, b, c) := (|s.allOf|, |s.anyOf|, |s.oneOf|);
    if a > 0 {
      ok := EveryValid(ws, 0, a);
      if !ok {
        return;
      }
    }
    if b > 0 {
      ok := SomeValid(ws, a, b);
      if !ok {
        return;
      }
    }
    if c > 0 {
      ok := OneValid(ws, a + b, c);
      if !ok {
        return;
      }
    }
    ok := !(s.negated.Some? && ws[a + b + c].valid);
  }

  class SchemaValidator {
    const root: Schema
    var valid: bool
    var contexts: seq<Context>

    ghost function State(): Validator
      reads this
    {
      Validator(root, valid, Stacked(contexts))
    }

    /** Nothing is asked of an invalid validator. */
    ghost predicate Sound()
      reads this
    {
      valid ==> AllWithin(contexts, Height(root)) && AllFull(contexts)
    }

    constructor (s: Schema)
      ensures root == s && State() == Fresh(s) && Sound()
    {
      root := s;
      valid := true;
      contexts := [];
    }

    /** Sends an event to the nested validators of every context. */
    method SendParallel(e: Event)
      requires AllWithin(contexts, Height(root))
      modifies this`contexts
      ensures |contexts| == |old(contexts)| && forall i :: 0 <= i < |contexts| ==> contexts[i] == Sent(old(contexts)[i], e)
      ensures Stacked(contexts) == Forward(Height(root), Stacked(old(contexts)), e)
      ensures AllWithin(contexts, Height(root))
    {
      var i := 0;
      while i < |contexts|
        invariant 0 <= i <= |contexts| == |old(contexts)|
        invariant forall k :: 0 <= k < i ==> contexts[k] == Sent(old(contexts)[k], e)
        invariant forall k :: i <= k < |contexts| ==> contexts[k] == old(contexts)[k]
      {
        var c := contexts[i];
        var ws := c.validators;
        var j := 0;
        while j < |ws|
          invariant 0 <= j <= |ws| == |c.validators|
          invariant forall k :: 0 <= k < j ==> ws[k] == Step(c.validators[k], e)
          invariant forall k :: j <= k < |ws| ==> ws[k] == c.validators[k]
        {
          ws := ws[j := Step(ws[j], e)];
          j := j + 1;
        }
        assert ws == Sent(c, e).validators;
        contexts := contexts[i := c.(validators := ws)];
        i := i + 1;
      }
      SentToAll(Height(root), old(contexts), contexts, e);
      SentAllWithin(Height(root), old(contexts), contexts, e);
    }

    /** Chooses the schema of the value to come and pushes its context. */
    method BeginValue() returns (ok: bool)
      requires valid && Sound()
      modifies this`contexts
      ensures ok <==> Begin(root, Stacked(old(contexts))).Some?
      ensures ok ==> Stacked(contexts) == Begin(root, Stacked(old(contexts))).value && AllWithin(contexts, Height(root))
      ensures ok ==> contexts != [] && AllFull(contexts[..|contexts| - 1])
      ensures ok ==> contexts[|contexts| - 1] == NewContext(contexts[|contexts| - 1].schema)
    {
      ghost var h := Height(root);
      HeightOfTypeless();
      var schema := root;
      ghost var before := contexts;
      if contexts != [] {
        var k := |contexts| - 1;
        var c := contexts[k];
        assert Within(c, h);
        if c.inArray {
          var item := ItemSchema(c.schema, c.index);
          if item.None? {
            return false;
          }
          ItemSchemaHeight(c.schema, c.index);
          StackedReplace(contexts, c.(valueSchema := item.value, index := Increment(c.index)));
          c := c.(valueSchema := item.value, index := Increment(c.index));
          contexts := contexts[k := c];
        }
        schema := c.valueSchema;
      }
      assert AllWithin(contexts, h) by {
        forall i | 0 <= i < |contexts|
          ensures Within(contexts[i], h)
        {
          assert Within(before[i], h);
        }
      }
      StackedPush(contexts, NewContext(schema));
      contexts := contexts + [NewContext(schema)];
      return true;
    }

    /** Ends the current value: the verdict on it, and its context goes. */
    method EndValue()
      requires valid && contexts != [] && Sound()
      modifies this
      ensures Agree(State(), Ended(old(State()), Stacked(old(contexts)))) && Sound()
    {
      var c := contexts[|contexts| - 1];
      valid := EndValueOk(c.schema, c.validators);
      if valid {
        contexts := contexts[..|contexts| - 1];
      }
    }

    /** The checks on the first event of a value, after which its context is in place. */
    method HandleBegin(e: Event) returns (ok: bool)
      requires valid && StartsValue(e) && Sound()
      modifies this
      ensures ok == valid == StartAllowed(old(State()), e) && Sound()
      ensures ok ==> State() == old(State()).(stack := Entered(old(State()), e))
    {
      var begun := BeginValue();
      if !begun || !StartOk(contexts[|contexts| - 1].schema, e) {
        valid := false;
        return false;
      }
      CreateValidators(e);
      return true;
    }

    /** A scalar, or the start of a container. */
    method Start(e: Event) returns (ok: bool)
      requires StartsValue(e) && Sound()
      modifies this
      ensures ok == valid && Sound() && Agree(State(), Step(old(State()), e))
    {
      if !valid {
        return false;
      }
      ghost var was := State();
      StartStep(was, e);
      ok := HandleBegin(e);
      if !ok {
        return;
      }
      SendParallel(e);
      assert State() == was.(stack := Forward(Height(root), Entered(was, e), e));
      if !(e.StartObject? || e.StartArray?) {
        EndValue();
      }
      return valid;
    }

    /** Creates the nested validators of the innermost context, and marks an array. */
    method CreateValidators(e: Event)
      requires contexts != [] && AllWithin(contexts, Height(root)) && AllFull(contexts[..|contexts| - 1])
      modifies this`contexts
      ensures AllWithin(contexts, Height(root)) && AllFull(contexts) && contexts != []
      ensures Stacked(contexts) == Push(Started(old(contexts)[|old(contexts)| - 1], e), Stacked(old(contexts)).below)
    {
      var k := |contexts| - 1;
      var c := Started(contexts[k], e);
      StackedReplace(contexts, c);
      StartedWithin(contexts[k], e, Height(root));
      contexts := contexts[k := c];
    }

    /** A member name. */
    method Key(name: Text) returns (ok: bool)
      requires Sound()
      modifies this
      ensures ok == valid && Sound() && Agree(State(), Step(old(State()), Event.Key(name)))
    {
      if !valid {
        return false;
      }
      if contexts == [] {
        valid := false;
        return false;
      }
      ok := ChooseMember(name);
      if !ok {
        valid := false;
        return;
      }
      SendParallel(Event.Key(name));
    }

    /** Chooses the schema of the member's value and marks the name in the table. */
    method ChooseMember(name: Text) returns (ok: bool)
      requires valid && contexts != [] && Sound()
      modifies this`contexts
      ensures ok <==> MemberSchema(old(contexts)[|old(contexts)| - 1].schema, name).Some?
      ensures Sound() && contexts != []
      ensures ok ==>
        var c := old(contexts)[|old(contexts)| - 1];
        Stacked(contexts) == Push(Keyed(c, name, MemberSchema(c.schema, name).value), Stacked(old(contexts)).below)
    {
      var k := |contexts| - 1;
      var c := contexts[k];
      assert Within(c, Height(root)) && Full(c);
      var index := FindPropertyIndex(c.schema.properties, name);
      var chosen: Option<Schema>;
      if index.Some? {
        chosen := Some(c.schema.properties[index.value].schema);
        c := c.(exist := c.exist + {name});
      } else {
        chosen := AdditionalSchema(c.schema.additionalProperties);
      }
      if chosen.None? {
        return false;
      }
      MemberSchemaHeight(c.schema, name);
      c := c.(valueSchema := chosen.value);
      StackedReplace(contexts, c);
      assert Within(c, Height(root));
      contexts := contexts[k := c];
      return true;
    }

    /** The end of a container, with the number of its parts. */
    method End(e: Event) returns (ok: bool)
      requires Sound() && (e.EndObject? || e.EndArray?)
      modifies this
      ensures ok == valid && Sound() && Agree(State(), Step(old(State()), e))
    {
      if !valid {
        return false;
      }
      if contexts == [] {
        valid := false;
        return false;
      }
      SendParallel(e);
      var c := contexts[|contexts| - 1];
      var missing := false;
      if e.EndObject? {
        missing := EndMissingProperties(c.schema, c.exist);
      }
      if missing {
        valid := false;
        return false;
      }
      if e.EndObject? {
        valid := c.schema.minProperties <= e.count <= c.schema.maxProperties;
      } else {
        valid := c.schema.minItems <= e.count <= c.schema.maxItems;
      }
      if valid {
        EndValue();
      }
      return valid;
    }
  }

  lemma AgreeSteps(a: Validator, b: Validator, e: Event)
    requires Agree(a, b)
    ensures Agree(Step(a, e), Step(b, e))
  {
    FeedKeepsRoot(a, [e]);
    FeedOne(a, e);
    FeedKeepsRoot(b, [e]);
    FeedOne(b, e);
  }

  /** Validates a run of events as they come, stopping the stream as soon as the handler refuses one. */
  method Validate(s: Schema, es: seq<Event>) returns (ok: bool)
    ensures ok <==> Feed(Fresh(s), es).valid
  {
    var validator := new SchemaValidator(s);
    var i := 0;
    ok := true;
    ghost var v := Fresh(s);
    assert es[0..] == es;
    while ok && i < |es|
      invariant 0 <= i <= |es| && fresh(validator)
      invariant ok == validator.valid && validator.Sound()
      invariant Agree(validator.State(), v) && Feed(Fresh(s), es) == Feed(v, es[i..])
    {
      AgreeSteps(validator.State(), v, es[i]);
      if StartsValue(es[i]) {
        ok := validator.Start(es[i]);
      } else if es[i].Key? {
        ok := validator.Key(es[i].s);
      } else {
        ok := validator.End(es[i]);
      }
      assert es[i..][1..] == es[i + 1..];
      v := Step(v, es[i]);
      i := i + 1;
    }
    if !ok {
      FeedInvalid(v, es[i..]);
    }
  }

  /** The streaming verdict on a value, whose events pass by one at a time, is satisfaction. */
  method Accepts(s: Schema, j: Value) returns (ok: bool)
    requires Streamable(j)
    ensures ok <==> Satisfies(s, j)
  {
    StreamingIsSatisfaction(s, j);
    ok := Validate(s, ReadEvents(j));
  }
}
