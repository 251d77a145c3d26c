/** DOM values, the events they send, and the stack machine that builds them from events. */
module Dom {
  import opened Bytes
  import opened Events

  /** Which getters a number answers to. */
  datatype Flags = Flags(isInt: bool, isUint: bool, isInt64: bool, isUint64: bool)

  datatype Value =
    | NullValue
    | BoolValue(b: bool)
    | Number(bits: nat, flags: Flags)   // 64 bits of data, shared by all integer types
    | Real(literal: Text)
    | StringValue(s: Text)
    | Array(elements: seq<Value>)
    | Object(members: seq<Member>)

  datatype Member = Member(name: Text, value: Value)

  // -------------------------------------------------------------- members

  /** The first member of that name. */
  function FindMember(ms: seq<Member>, name: Text): (r: Option<nat>)
    ensures r.Some? ==> r.value < |ms| && ms[r.value].name == name && forall i :: 0 <= i < r.value ==> ms[i].name != name
    ensures r.None? ==> forall i :: 0 <= i < |ms| ==> ms[i].name != name
    decreases |ms|
  {
    if ms == [] then None
    else if ms[0].name == name then Some(0)
    else
      match FindMember(ms[1..], name)
      case None => None
      case Some(i) =>
        assert forall k :: 0 < k < i + 1 ==> ms[k] == ms[1..][k - 1];
        Some(i + 1)
  }

  /** The names of an object's members. */
  function Names(ms: seq<Member>): set<Text> {
    set i | 0 <= i < |ms| :: ms[i].name
  }

  // ------------------------------------------------------ integer numbers

  /** An integer seen as the 64 bits that hold it. */
  function Bits64(n: int): nat {
    n % 0x1_0000_0000_0000_0000
  }

  /** No bit of `x` is set at position `k` or above. */
  predicate BitsBelow(x: nat, k: nat)
    requires k in {31, 32, 63}
  {
    x / (if k == 31 then 0x8000_0000 else if k == 32 then 0x1_0000_0000 else 0x8000_0000_0000_0000) == 0
  }

  function FromInt(i: int): Value
    requires -0x8000_0000 <= i < 0x8000_0000
  {
    Number(Bits64(i), if i >= 0 then Flags(true, true, true, true) else Flags(true, false, true, false))
  }

  function FromUint(u: nat): Value
    requires u < 0x1_0000_0000
  {
    Number(u, if BitsBelow(u, 31) then Flags(true, true, true, true) else Flags(false, true, true, true))
  }

  function FromInt64(i: int): Value
    requires -0x8000_0000_0000_0000 <= i < 0x8000_0000_0000_0000
  {
    Number(Bits64(i),
      if i >= 0 then Flags(BitsBelow(i, 31), BitsBelow(i, 32), true, true)
      else Flags(i >= -0x8000_0000, false, true, false))
  }

  function FromUint64(u: nat): Value
    requires u < 0x1_0000_0000_0000_0000
  {
    Number(u, Flags(BitsBelow(u, 31), BitsBelow(u, 32), BitsBelow(u, 63), true))
  }

  predicate IsInteger(n: int) {
    -0x8000_0000_0000_0000 <= n < 0x1_0000_0000_0000_0000
  }

  /** The number `n` with every getter flag that its value allows. */
  function NumberOf(n: int): Value
    requires IsInteger(n)
  {
    Number(Bits64(n), Flags(
      -0x8000_0000 <= n < 0x8000_0000, 0 <= n < 0x1_0000_0000,
      n < 0x8000_0000_0000_0000, 0 <= n))
  }

  /** What event a handler is sent decides nothing: each constructor yields the number of its value. */
  lemma ConstructorsAgree(n: int)
    requires IsInteger(n)
    ensures -0x8000_0000 <= n < 0x8000_0000 ==> FromInt(n) == NumberOf(n)
    ensures 0 <= n < 0x1_0000_0000 ==> FromUint(n) == NumberOf(n)
    ensures n < 0x8000_0000_0000_0000 ==> FromInt64(n) == NumberOf(n)
    ensures 0 <= n ==> FromUint64(n) == NumberOf(n)
  {
  }

  function AsInt32(bits: nat): int {
    var low := bits % 0x1_0000_0000;
    if low < 0x8000_0000 then low else low - 0x1_0000_0000
  }

  function AsInt64(bits: nat): int {
    if bits < 0x8000_0000_0000_0000 then bits else bits - 0x1_0000_0000_0000_0000
  }

  /** The event a number sends: of the kinds its flags allow, the first in this order. */
  function NumberEvent(v: Value): Event
    requires v.Number?
  {
    if v.flags.isInt then Int(AsInt32(v.bits))
    else if v.flags.isUint then Uint(v.bits % 0x1_0000_0000)
    else if v.flags.isInt64 then Int64(AsInt64(v.bits))
    else Uint64(v.bits)
  }

  /** The kind narrows to the value: a number sends itself, as `Int` whenever it fits. */
  lemma NumberSends(n: int)
    requires IsInteger(n)
    ensures NumberEvent(NumberOf(n)) ==
      if -0x8000_0000 <= n < 0x8000_0000 then Int(n)
      else if 0 <= n < 0x1_0000_0000 then Uint(n)
      else if n < 0x8000_0000_0000_0000 then Int64(n)
      else Uint64(n)
  {
  }

  /** The integer a number stands for, as its flags select it. */
  function IntegerOf(v: Value): int
    requires v.Number?
  {
    if v.flags.isInt then AsInt32(v.bits)
    else if v.flags.isUint then v.bits % 0x1_0000_0000
    else if v.flags.isInt64 then AsInt64(v.bits)
    else v.bits
  }

  lemma IntegerOfNumber(n: int)
    requires IsInteger(n)
    ensures IntegerOf(NumberOf(n)) == n
  {
  }

  /** A number as the constructors make it. */
  predicate ExactNumber(v: Value) {
    v.Number? && IsInteger(IntegerOf(v)) && v == NumberOf(IntegerOf(v))
  }

  // --------------------------------------------------------------- events

  /** The event by which the reader announces an integer. */
  function ReadEvent(n: int): Event {
    if n < 0 then (if n >= -0x8000_0000 then Int(n) else Int64(n))
    else if n < 0x1_0000_0000 then Uint(n) else Uint64(n)
  }

  /** The events by which the reader announces a value. */
  function ReadEvents(v: Value): seq<Event>
    decreases v, 0
  {
    match v
    case NullValue => [Null]
    case BoolValue(b) => [Bool(b)]
    case Number(_, _) => [ReadEvent(IntegerOf(v))]
    case Real(literal) => [Double(literal)]
    case StringValue(s) => [String(s)]
    case Array(es) => [StartArray] + (ReadItems(es) + [EndArray(|es|)])
    case Object(ms) => [StartObject] + (ReadMembers(ms) + [EndObject(|ms|)])
  }

  function ReadItems(es: seq<Value>): seq<Event>
    decreases es, 1
  {
    if es == [] then [] else ReadEvents(es[0]) + ReadItems(es[1..])
  }

  function ReadMembers(ms: seq<Member>): seq<Event>
    decreases ms, 1
  {
    if ms == [] then [] else [Key(ms[0].name)] + ReadEvents(ms[0].value) + ReadMembers(ms[1..])
  }

  // -------------------------------------------------------------- builder

  /** A flat run of names and values, taken two by two. */
  function Pair(vs: seq<Value>): seq<Member> {
    if |vs| < 2 then [] else [Member(if vs[0].StringValue? then vs[0].s else [], vs[1])] + Pair(vs[2..])
  }

  /** Replaces the container under the last `n` values by one made of them. */
  function Fold(stack: seq<Value>, n: nat, isObject: bool): seq<Value>
    requires n < |stack|
  {
    var k := |stack| - n;
    stack[..k - 1] + [if isObject then Object(Pair(stack[k..])) else Array(stack[k..])]
  }

  /** The document stack must hold the parts an end event counts. */
  predicate CanBuild(stack: seq<Value>, e: Event) {
    match e
    case Int(n) => -0x8000_0000 <= n < 0x8000_0000
    case Uint(n) => 0 <= n < 0x1_0000_0000
    case Int64(n) => -0x8000_0000_0000_0000 <= n < 0x8000_0000_0000_0000
    case Uint64(n) => 0 <= n < 0x1_0000_0000_0000_0000
    case EndObject(n) => 2 * n < |stack|
    case EndArray(n) => n < |stack|
    case _ => true
  }

  /** The value an event pushes. */
  function Pushed(e: Event): Value
    requires CanBuild([], e)
  {
    match e
    case Null => NullValue
    case Bool(b) => BoolValue(b)
    case Int(n) => FromInt(n)
    case Uint(n) => FromUint(n)
    case Int64(n) => FromInt64(n)
    case Uint64(n) => FromUint64(n)
    case Double(literal) => Real(literal)
    case String(s) => StringValue(s)
    case Key(s) => StringValue(s)
    case StartObject => Object([])
    case StartArray => Array([])
  }

  /** One event's effect on the document stack. */
  function Build(stack: seq<Value>, e: Event): seq<Value>
    requires CanBuild(stack, e)
  {
    if e.EndObject? then Fold(stack, 2 * e.count, true)
    else if e.EndArray? then Fold(stack, e.count, false)
    else stack + [Pushed(e)]
  }

  /** The stack after a run of events, None if one of them asks for parts that are not there. */
  function BuildAll(stack: seq<Value>, es: seq<Event>): Option<seq<Value>>
    decreases |es|
  {
    if es == [] then Some(stack)
    else if CanBuild(stack, es[0]) then BuildAll(Build(stack, es[0]), es[1..])
    else None
  }

  /** The document as a handler: a stack of values, with its root at the bottom at the end. */
  class Document {
    var stack: seq<Value>

    constructor ()
      ensures stack == []
    {
      stack := [];
    }

    /** Each event pushes one value, except the end of a container, which gathers its parts. */
    method Handle(e: Event)
      requires CanBuild(stack, e)
      modifies this
      ensures stack == Build(old(stack), e)
    {
      if e.EndObject? {
        EndObject(e.count);
      } else if e.EndArray? {
        EndArray(e.count);
      } else {
        stack := stack + [Pushed(e)];
      }
    }

    method EndObject(memberCount: nat)
      requires 2 * memberCount < |stack|
      modifies this
      ensures stack == Build(old(stack), Events.EndObject(memberCount))
    {
      var members := [];
      var parts := stack[|stack| - 2 * memberCount..];
      for i := 0 to memberCount
        invariant members == Pair(parts[..2 * i]) && stack == old(stack)
      {
        var name, value := parts[2 * i], parts[2 * i + 1];
        members := members + [Member(if name.StringValue? then name.s else [], value)];
        PairAppend(parts[..2 * i], name, value);
        assert parts[..2 * (i + 1)] == parts[..2 * i] + [name, value];
      }
      assert parts[..2 * memberCount] == parts;
      stack := stack[..|stack| - 2 * memberCount - 1] + [Object(members)];
    }

    method EndArray(elementCount: nat)
      requires elementCount < |stack|
      modifies this
      ensures stack == Build(old(stack), Events.EndArray(elementCount))
    {
      var elements := stack[|stack| - elementCount..];
      stack := stack[..|stack| - elementCount - 1] + [Array(elements)];
    }
  }

  lemma {:induction false} PairAppend(vs: seq<Value>, name: Value, value: Value)
    requires |vs| % 2 == 0
    ensures Pair(vs + [name, value]) == Pair(vs) + [Member(if name.StringValue? then name.s else [], value)]
  {
    if vs != [] {
      PairAppend(vs[2..], name, value);
      assert (vs + [name, value])[2..] == vs[2..] + [name, value];
    } else {
      assert vs + [name, value] == [name, value];
    }
  }
}
