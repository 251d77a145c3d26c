/** The hasher as an event handler: a stack of codes, one for each value whose container is still open. */
module Hasher {
  import opened Bytes
  import opened Events
  import opened Dom
  import opened Equality
  import Decimals
  import opened Sequences

  /** The codes of an array's elements, mixed in order. */
  function FoldCodes(h: nat, codes: seq<nat>): nat
    decreases |codes|
  {
    if codes == [] then h else FoldCodes(Mix(h, codes[0]), codes[1..])
  }

  /** The codes of an object's names and values, two by two. */
  function FoldPairs(h: nat, codes: seq<nat>): nat
    requires |codes| % 2 == 0
    decreases |codes|
  {
    if codes == [] then h else FoldPairs(Xor(h, Mix(codes[0], codes[1])), codes[2..])
  }


  predicate CanHash(stack: seq<nat>, e: Event) {
    (e.EndObject? ==> 2 * e.count <= |stack|) && (e.EndArray? ==> e.count <= |stack|)
  }

  /** The code an event other than the start or end of a container pushes. */
  function CodeOf(e: Event, doubles: Doubles): nat {
    match e
    case Null => BufferHash(NullTag, [])
    case Bool(b) => BufferHash(if b then TrueTag else FalseTag, [])
    case Int(n) => IntegerHash(n, doubles)
    case Uint(n) => IntegerHash(n, doubles)
    case Int64(n) => IntegerHash(n, doubles)
    case Uint64(n) => IntegerHash(n, doubles)
    case Double(literal) => DoubleHash(Decimals.Amount(literal), doubles)
    case String(s) => BufferHash(StringTag, s)
    case Key(s) => BufferHash(StringTag, s)
    case _ => 0
  }

  /** What an event does to the stack. */
  function HashStep(stack: seq<nat>, e: Event, doubles: Doubles): seq<nat>
    requires CanHash(stack, e)
  {
    match e
    case StartObject => stack
    case StartArray => stack
    case EndObject(n) =>
      var k := |stack| - 2 * n;
      stack[..k] + [FoldPairs(Mix(0, TagCode(ObjectTag)), stack[k..])]
    case EndArray(n) =>
      var k := |stack| - n;
      stack[..k] + [FoldCodes(Mix(0, TagCode(ArrayTag)), stack[k..])]
    case _ => stack + [CodeOf(e, doubles)]
  }

  /** What a run of events does; None when one pops more than there is. */
  function HashAll(stack: seq<nat>, es: seq<Event>, doubles: Doubles): Option<seq<nat>>
    decreases |es|
  {
    if es == [] then Some(stack)
    else if !CanHash(stack, es[0]) then None
    else HashAll(HashStep(stack, es[0], doubles), es[1..], doubles)
  }

  /** On top of any stack, the events leave these codes. */
  ghost predicate Leaves(es: seq<Event>, codes: seq<nat>, doubles: Doubles) {
    forall stack: seq<nat> :: HashAll(stack, es, doubles) == Some(stack + codes)
  }

  lemma {:induction false} HashConcat(stack: seq<nat>, a: seq<Event>, b: seq<Event>, doubles: Doubles)
    ensures HashAll(stack, a + b, doubles) ==
      match HashAll(stack, a, doubles) case None => None case Some(mid) => HashAll(mid, b, doubles)
    decreases |a|
  {
    if a == [] {
      assert a + b == b;
    } else {
      assert (a + b)[0] == a[0] && (a + b)[1..] == a[1..] + b;
      if CanHash(stack, a[0]) {
        HashConcat(HashStep(stack, a[0], doubles), a[1..], b, doubles);
      }
    }
  }

  lemma LeavesBoth(a: seq<Event>, x: seq<nat>, b: seq<Event>, y: seq<nat>, doubles: Doubles)
    requires Leaves(a, x, doubles) && Leaves(b, y, doubles)
    ensures Leaves(a + b, x + y, doubles)
  {
    forall stack: seq<nat>
      ensures HashAll(stack, a + b, doubles) == Some(stack + (x + y))
    {
      HashConcat(stack, a, b, doubles);
      Joins3(stack, x, y);
    }
  }

  lemma LeavesNothing(doubles: Doubles)
    ensures Leaves([], [], doubles)
  {
    forall stack: seq<nat>
      ensures HashAll(stack, [], doubles) == Some(stack + [])
    {
      assert stack + [] == stack;
    }
  }

  lemma LeavesOne(e: Event, doubles: Doubles)
    requires !e.StartObject? && !e.StartArray? && !e.EndObject? && !e.EndArray?
    ensures Leaves([e], [CodeOf(e, doubles)], doubles)
  {
    forall stack: seq<nat>
      ensures HashAll(stack, [e], doubles) == Some(stack + [CodeOf(e, doubles)])
    {
      assert [e][1..] == [];
    }
  }

  // ------------------------------------------------------------ containers

  lemma {:induction false} PairsFold(h: nat, codes: seq<nat>)
    requires |codes| % 2 == 0
    ensures FoldPairs(h, codes) == Xor(h, FoldPairs(0, codes))
    decreases |codes|
  {
    if codes == [] {
      XorZero(h);
    } else {
      var m := Mix(codes[0], codes[1]);
      PairsFold(Xor(h, m), codes[2..]);
      PairsFold(Xor(0, m), codes[2..]);
      XorAssociates(h, m, FoldPairs(0, codes[2..]));
    }
  }

  lemma XorZero(h: nat)
    ensures Xor(h, 0) == h && Xor(0, h) == h
  {
  }

  /** The codes of the elements, in order. */
  function ItemCodes(es: seq<Value>, doubles: Doubles): (r: seq<nat>)
    ensures |r| == |es|
  {
    if es == [] then [] else [HashOf(es[0], doubles)] + ItemCodes(es[1..], doubles)
  }

  /** The codes of the members' names and values, in order. */
  function MemberCodes(ms: seq<Member>, doubles: Doubles): (r: seq<nat>)
    ensures |r| == 2 * |ms|
  {
    if ms == [] then []
    else [BufferHash(StringTag, ms[0].name), HashOf(ms[0].value, doubles)] + MemberCodes(ms[1..], doubles)
  }

  lemma {:induction false} ItemsFold(h: nat, es: seq<Value>, doubles: Doubles)
    ensures FoldCodes(h, ItemCodes(es, doubles)) == HashItems(h, es, doubles)
    decreases |es|
  {
    if es != [] {
      var codes := ItemCodes(es, doubles);
      assert codes[0] == HashOf(es[0], doubles) && codes[1..] == ItemCodes(es[1..], doubles);
      ItemsFold(Mix(h, codes[0]), es[1..], doubles);
    }
  }

  lemma PairsFromZero(a: nat, b: nat, rest: seq<nat>)
    requires |rest| % 2 == 0
    ensures FoldPairs(0, [a, b] + rest) == Xor(Mix(a, b), FoldPairs(0, rest))
  {
    var codes := [a, b] + rest;
    assert codes[0] == a && codes[1] == b && codes[2..] == rest;
    XorZero(Mix(a, b));
    PairsFold(Mix(a, b), rest);
  }

  lemma {:induction false} MembersFold(ms: seq<Member>, doubles: Doubles)
    ensures FoldPairs(0, MemberCodes(ms, doubles)) == HashMembers(ms, doubles)
    decreases |ms|
  {
    if ms != [] {
      PairsFromZero(BufferHash(StringTag, ms[0].name), HashOf(ms[0].value, doubles), MemberCodes(ms[1..], doubles));
      MembersFold(ms[1..], doubles);
    }
  }

  /** An object's end pops what its members left. */
  lemma ObjectEnds(stack: seq<nat>, ms: seq<Member>, doubles: Doubles)
    ensures HashAll(stack + MemberCodes(ms, doubles), [EndObject(|ms|)], doubles) == Some(stack + [HashOf(Object(ms), doubles)])
  {
    var codes := MemberCodes(ms, doubles);
    var all := stack + codes;
    assert all[..|stack|] == stack && all[|stack|..] == codes;
    assert [EndObject(|ms|)][1..] == [];
    PairsFold(Mix(0, TagCode(ObjectTag)), codes);
    MembersFold(ms, doubles);
  }

  lemma ArrayEnds(stack: seq<nat>, es: seq<Value>, doubles: Doubles)
    ensures HashAll(stack + ItemCodes(es, doubles), [EndArray(|es|)], doubles) == Some(stack + [HashOf(Array(es), doubles)])
  {
    var codes := ItemCodes(es, doubles);
    var all := stack + codes;
    assert all[..|stack|] == stack && all[|stack|..] == codes;
    assert [EndArray(|es|)][1..] == [];
    ItemsFold(Mix(0, TagCode(ArrayTag)), es, doubles);
  }

  lemma ContainerLeaves(start: Event, parts: seq<Event>, codes: seq<nat>, end: Event, code: nat, doubles: Doubles)
    requires (start.StartObject? || start.StartArray?) && Leaves(parts, codes, doubles)
    requires forall stack: seq<nat> :: HashAll(stack + codes, [end], doubles) == Some(stack + [code])
    ensures Leaves([start] + (parts + [end]), [code], doubles)
  {
    forall stack: seq<nat>
      ensures HashAll(stack, [start] + (parts + [end]), doubles) == Some(stack + [code])
    {
      var es := [start] + (parts + [end]);
      assert es[1..] == parts + [end];
      HashConcat(stack, parts, [end], doubles);
    }
  }

  // ----------------------------------------------------------- whole values

  /** Numbers are as the constructors make them. */
  predicate Exact(v: Value)
    decreases v
  {
    match v
    case Object(ms) => forall i :: 0 <= i < |ms| ==> Exact(ms[i].value)
    case Array(es) => forall i :: 0 <= i < |es| ==> Exact(es[i])
    case Number(_, _) => ExactNumber(v)
    case _ => true
  }

  lemma {:induction false} ItemsLeave(es: seq<Value>, doubles: Doubles)
    requires forall i :: 0 <= i < |es| ==> Exact(es[i])
    ensures Leaves(ReadItems(es), ItemCodes(es, doubles), doubles)
    decreases es, 1
  {
    if es == [] {
      LeavesNothing(doubles);
    } else {
      HasherComputes(es[0], doubles);
      ItemsLeave(es[1..], doubles);
      LeavesBoth(ReadEvents(es[0]), [HashOf(es[0], doubles)], ReadItems(es[1..]), ItemCodes(es[1..], doubles), doubles);
    }
  }

  lemma {:induction false} MembersLeave(ms: seq<Member>, doubles: Doubles)
    requires forall i :: 0 <= i < |ms| ==> Exact(ms[i].value)
    ensures Leaves(ReadMembers(ms), MemberCodes(ms, doubles), doubles)
    decreases ms, 1
  {
    if ms == [] {
      LeavesNothing(doubles);
    } else {
      var (name, value) := (BufferHash(StringTag, ms[0].name), HashOf(ms[0].value, doubles));
      LeavesOne(Key(ms[0].name), doubles);
      HasherComputes(ms[0].value, doubles);
      LeavesBoth([Key(ms[0].name)], [name], ReadEvents(ms[0].value), [value], doubles);
      MembersLeave(ms[1..], doubles);
      assert [name] + [value] == [name, value];
      LeavesBoth([Key(ms[0].name)] + ReadEvents(ms[0].value), [name, value], ReadMembers(ms[1..]),
        MemberCodes(ms[1..], doubles), doubles);
    }
  }

  /** The events of a value leave one code, that of the value, on top of any stack. */
  lemma {:induction false} HasherComputes(v: Value, doubles: Doubles)
    requires Exact(v)
    ensures Leaves(ReadEvents(v), [HashOf(v, doubles)], doubles)
    decreases v, 0
  {
    if v.Object? {
      MembersLeave(v.members, doubles);
      forall stack: seq<nat>
        ensures HashAll(stack + MemberCodes(v.members, doubles), [EndObject(|v.members|)], doubles)
          == Some(stack + [HashOf(v, doubles)])
      {
        ObjectEnds(stack, v.members, doubles);
      }
      ContainerLeaves(StartObject, ReadMembers(v.members), MemberCodes(v.members, doubles), EndObject(|v.members|),
        HashOf(v, doubles), doubles);
    } else if v.Array? {
      ItemsLeave(v.elements, doubles);
      forall stack: seq<nat>
        ensures HashAll(stack + ItemCodes(v.elements, doubles), [EndArray(|v.elements|)], doubles)
          == Some(stack + [HashOf(v, doubles)])
      {
        ArrayEnds(stack, v.elements, doubles);
      }
      ContainerLeaves(StartArray, ReadItems(v.elements), ItemCodes(v.elements, doubles), EndArray(|v.elements|),
        HashOf(v, doubles), doubles);
    } else {
      var e := ReadEvents(v)[0];
      assert ReadEvents(v) == [e] && CodeOf(e, doubles) == HashOf(v, doubles);
      LeavesOne(e, doubles);
    }
  }

  // ---------------------------------------------------------- the handler

  lemma {:induction false} PairAppended(h: nat, codes: seq<nat>, k: nat, v: nat)
    requires |codes| % 2 == 0
    ensures FoldPairs(h, codes + [k, v]) == Xor(FoldPairs(h, codes), Mix(k, v))
    decreases |codes|
  {
    var all := codes + [k, v];
    if codes == [] {
      assert all == [k, v] && all[2..] == [];
    } else {
      assert all[0] == codes[0] && all[1] == codes[1] && all[2..] == codes[2..] + [k, v];
      PairAppended(Xor(h, Mix(codes[0], codes[1])), codes[2..], k, v);
    }
  }

  lemma {:induction false} CodeAppended(h: nat, codes: seq<nat>, c: nat)
    ensures FoldCodes(h, codes + [c]) == Mix(FoldCodes(h, codes), c)
    decreases |codes|
  {
    var all := codes + [c];
    if codes == [] {
      assert all == [c] && all[1..] == [];
    } else {
      assert all[0] == codes[0] && all[1..] == codes[1..] + [c];
      CodeAppended(Mix(h, codes[0]), codes[1..], c);
    }
  }

  /** The loop over the names and values popped at an object's end. */
  method MixPairs(start: nat, kv: seq<nat>) returns (h: nat)
    requires |kv| % 2 == 0
    ensures h == FoldPairs(start, kv)
  {
    h := start;
    for i := 0 to |kv| / 2
      invariant h == FoldPairs(start, kv[..2 * i])
    {
      PairAppended(start, kv[..2 * i], kv[2 * i], kv[2 * i + 1]);
      assert kv[..2 * (i + 1)] == kv[..2 * i] + [kv[2 * i], kv[2 * i + 1]];
      h := Xor(h, Mix(kv[2 * i], kv[2 * i + 1]));
    }
    assert kv[..2 * (|kv| / 2)] == kv;
  }

  /** The loop over the elements popped at an array's end. */
  method MixCodes(start: nat, e: seq<nat>) returns (h: nat)
    ensures h == FoldCodes(start, e)
  {
    h := start;
    for i := 0 to |e|
      invariant h == FoldCodes(start, e[..i])
    {
      CodeAppended(start, e[..i], e[i]);
      assert e[..i + 1] == e[..i] + [e[i]];
      h := Mix(h, e[i]);
    }
    assert e[..|e|] == e;
  }

  class Handler {
    const doubles: Doubles
    var stack: seq<nat>

    constructor (doubles: Doubles)
      ensures this.doubles == doubles && stack == []
    {
      this.doubles := doubles;
      stack := [];
    }

    method EndObject(memberCount: nat)
      requires 2 * memberCount <= |stack|
      modifies this`stack
      ensures stack == HashStep(old(stack), Event.EndObject(memberCount), doubles)
    {
      var k := |stack| - 2 * memberCount;
      var h := MixPairs(Mix(0, TagCode(ObjectTag)), stack[k..]);
      stack := stack[..k] + [h];
    }

    method EndArray(elementCount: nat)
      requires elementCount <= |stack|
      modifies this`stack
      ensures stack == HashStep(old(stack), Event.EndArray(elementCount), doubles)
    {
      var k := |stack| - elementCount;
      var h := MixCodes(Mix(0, TagCode(ArrayTag)), stack[k..]);
      stack := stack[..k] + [h];
    }

    method Handle(e: Event)
      requires CanHash(stack, e)
      modifies this`stack
      ensures stack == HashStep(old(stack), e, doubles)
    {
      if e.EndObject? {
        EndObject(e.count);
      } else if e.EndArray? {
        EndArray(e.count);
      } else if !e.StartObject? && !e.StartArray? {
        stack := stack + [CodeOf(e, doubles)];
      }
    }
  }

  /** A fresh hasher fed the events of a value is left with the code of that value alone. */
  method HashCode(v: Value, doubles: Doubles) returns (h: nat)
    requires Exact(v)
    ensures h == HashOf(v, doubles)
  {
    var hasher := new Handler(doubles);
    var es := ReadEvents(v);
    HasherComputes(v, doubles);
    assert [] + [HashOf(v, doubles)] == [HashOf(v, doubles)];
    ghost var end := HashAll([], es, doubles);
    for i := 0 to |es|
      invariant HashAll(hasher.stack, es[i..], doubles) == end && hasher.doubles == doubles
    {
      assert es[i..][0] == es[i] && es[i..][1..] == es[i + 1..];
      hasher.Handle(es[i]);
    }
    assert es[|es|..] == [];
    h := hasher.stack[0];
  }

  /** A listed value is the same as this one, integer for integer. */
  predicate Lists(listed: seq<Value>, v: Value) {
    exists k :: 0 <= k < |listed| && Same(listed[k], v)
  }

  predicate Same(v: Value, w: Value) {
    Regular(v) && Regular(w) && Equal(v, w) && SameIntegers(v, w)
  }

  method FindCode(codes: seq<nat>, h: nat) returns (found: bool)
    ensures found <==> h in codes
  {
    found := false;
    for i := 0 to |codes|
      invariant found <==> h in codes[..i]
    {
      if codes[i] == h {
        found := true;
      }
    }
    assert codes[..|codes|] == codes;
  }

  function Codes(vs: seq<Value>, doubles: Doubles): (r: seq<nat>)
    ensures |r| == |vs| && forall i :: 0 <= i < |vs| ==> r[i] == HashOf(vs[i], doubles)
  {
    seq(|vs|, i requires 0 <= i < |vs| => HashOf(vs[i], doubles))
  }

  /** The `enum` test: one code is compared with those of the listed values, made beforehand. */
  method EnumAllows(listed: seq<Value>, v: Value, doubles: Doubles) returns (found: bool)
    requires Exact(v) && forall i :: 0 <= i < |listed| ==> Exact(listed[i])
    ensures found <==> HashOf(v, doubles) in Codes(listed, doubles)
    ensures Lists(listed, v) ==> found
  {
    var codes: seq<nat> := [];
    for i := 0 to |listed|
      invariant codes == Codes(listed, doubles)[..i]
    {
      var code := HashCode(listed[i], doubles);
      codes := codes + [code];
    }
    var h := HashCode(v, doubles);
    found := FindCode(codes, h);
    if k :| 0 <= k < |listed| && Same(listed[k], v) {
      EqualHash(listed[k], v, doubles);
      assert Codes(listed, doubles)[k] == h;
    }
  }

  predicate AllDifferent(codes: seq<nat>) {
    forall i, j :: 0 <= i < j < |codes| ==> codes[i] != codes[j]
  }

  /** The `uniqueItems` test: each element's code is looked for among those before it. */
  method ItemsUnique(es: seq<Value>, doubles: Doubles) returns (unique: bool)
    requires forall i :: 0 <= i < |es| ==> Exact(es[i])
    ensures unique <==> AllDifferent(Codes(es, doubles))
    ensures (exists i, j :: 0 <= i < j < |es| && Same(es[i], es[j])) ==> !unique
  {
    ghost var all := Codes(es, doubles);
    var codes: seq<nat> := [];
    unique := true;
    for j := 0 to |es|
      invariant codes == all[..j] && (unique <==> AllDifferent(codes))
    {
      var h := HashCode(es[j], doubles);
      var found := FindCode(codes, h);
      OneMoreCode(codes, h);
      unique := unique && !found;
      codes := codes + [h];
    }
    assert all[..|es|] == all;
    if i, j :| 0 <= i < j < |es| && Same(es[i], es[j]) {
      EqualHash(es[i], es[j], doubles);
      assert all[i] == all[j];
    }
  }

  lemma OneMoreCode(codes: seq<nat>, h: nat)
    ensures AllDifferent(codes + [h]) <==> AllDifferent(codes) && h !in codes
  {
    var all := codes + [h];
    if h in codes {
      var i :| 0 <= i < |codes| && codes[i] == h;
      assert all[i] == all[|codes|];
    } else if AllDifferent(all) {
      forall i, j | 0 <= i < j < |codes|
        ensures codes[i] != codes[j]
      {
        assert all[i] != all[j];
      }
    }
  }
}
