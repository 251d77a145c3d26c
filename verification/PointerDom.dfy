/** JSON Pointer on a document: resolving, creating, setting and erasing what a list of tokens names. */
module PointerDom {
  import opened Bytes
  import opened Dom

  const INVALID_INDEX: nat := 0xFFFF_FFFF

  /** A name, and the array index it also stands for. */
  datatype Token = Token(name: Text, index: nat)

  /** `-`, which stands for the element after the last. */
  const DASH: Text := [0x2D]

  /** The place of the child a token names; None when there is none. */
  function Child(v: Value, t: Token): (r: Option<nat>)
    ensures r.Some? ==> (v.Object? && r.value < |v.members|) || (v.Array? && r.value < |v.elements|)
  {
    match v
    case Object(ms) => FindMember(ms, t.name)
    case Array(es) => if t.index == INVALID_INDEX || t.index >= |es| then None else Some(t.index)
    case _ => None
  }

  function ChildAt(v: Value, i: nat): Value
    requires (v.Object? && i < |v.members|) || (v.Array? && i < |v.elements|)
  {
    if v.Object? then v.members[i].value else v.elements[i]
  }

  function WithChild(v: Value, i: nat, x: Value): Value
    requires (v.Object? && i < |v.members|) || (v.Array? && i < |v.elements|)
  {
    if v.Object? then Object(v.members[i := v.members[i].(value := x)]) else Array(v.elements[i := x])
  }

  // ------------------------------------------------------------- resolving

  /** The value the tokens resolve to. */
  function Resolve(v: Value, ts: seq<Token>): Option<Value>
    decreases |ts|
  {
    if ts == [] then Some(v)
    else
      match Child(v, ts[0])
      case None => None
      case Some(i) => Resolve(ChildAt(v, i), ts[1..])
  }

  /** Walks down with one cursor; also reports the first token that does not resolve. */
  method Get(root: Value, ts: seq<Token>) returns (r: Option<Value>, unresolved: nat)
    ensures r == Resolve(root, ts)
    ensures r.Some? ==> unresolved == |ts|
    ensures r.None? ==> unresolved < |ts| && Resolve(root, ts[..unresolved]).Some? && Resolve(root, ts[..unresolved + 1]).None?
  {
    var v := root;
    var k := 0;
    assert ts[0..] == ts;
    while k < |ts|
      invariant 0 <= k <= |ts|
      invariant Resolve(root, ts) == Resolve(v, ts[k..])
      invariant Resolve(root, ts[..k]) == Some(v)
    {
      ResolveLonger(root, ts[..k], v, ts[k]);
      assert ts[..k + 1] == ts[..k] + [ts[k]];
      assert ts[k..][1..] == ts[k + 1..];
      var i := Child(v, ts[k]);
      if i.None? {
        return None, k;
      }
      v := ChildAt(v, i.value);
      k := k + 1;
    }
    return Some(v), k;
  }

  lemma {:induction false} ResolveLonger(root: Value, ts: seq<Token>, v: Value, t: Token)
    requires Resolve(root, ts) == Some(v)
    ensures Resolve(root, ts + [t]) == if Child(v, t).Some? then Some(ChildAt(v, Child(v, t).value)) else None
    decreases |ts|
  {
    if ts == [] {
      assert [t][1..] == [];
    } else {
      assert (ts + [t])[1..] == ts[1..] + [t];
      ResolveLonger(ChildAt(root, Child(root, ts[0]).value), ts[1..], v, t);
    }
  }

  // -------------------------------------------------------------- creating

  predicate Appends(v: Value, t: Token) {
    v.Array? && t.name == DASH
  }

  function Nulls(n: nat): seq<Value> {
    seq(n, _ => NullValue)
  }

  /** The container the token needs: an array when it is an index, unless there is one already. */
  function Container(v: Value, t: Token): (r: Value)
    ensures r.Object? || r.Array?
  {
    if t.index == INVALID_INDEX then (if v.Object? then v else Object([]))
    else if v.Array? || v.Object? then v else Array([])
  }

  /** The container with a place for the token; new places hold null. */
  function Room(v: Value, t: Token): (r: Value)
    ensures Child(r, t).Some?
  {
    var c := Container(v, t);
    if c.Array? then
      if t.index >= |c.elements| then Array(c.elements + Nulls(t.index + 1 - |c.elements|)) else c
    else if FindMember(c.members, t.name).None? then
      AppendedIsFound(c.members, t.name);
      Object(c.members + [Member(t.name, NullValue)])
    else c
  }

  lemma {:induction false} AppendedIsFound(ms: seq<Member>, name: Text)
    requires FindMember(ms, name).None?
    ensures FindMember(ms + [Member(name, NullValue)], name) == Some(|ms|)
    decreases |ms|
  {
    if ms != [] {
      assert (ms + [Member(name, NullValue)])[1..] == ms[1..] + [Member(name, NullValue)];
      assert forall i :: 0 <= i < |ms[1..]| ==> ms[1..][i] == ms[i + 1];
      AppendedIsFound(ms[1..], name);
    }
  }

  /** The document once the place the tokens name exists, holding `x` if there is one; and whether it existed. */
  function Place(v: Value, ts: seq<Token>, x: Option<Value>): (Value, bool)
    decreases |ts|
  {
    if ts == [] then (if x.Some? then x.value else v, true)
    else if Appends(v, ts[0]) then (Array(v.elements + [Place(NullValue, ts[1..], x).0]), false)
    else
      var c := Room(v, ts[0]);
      var i := Child(c, ts[0]).value;
      var (child, existed) := Place(ChildAt(c, i), ts[1..], x);
      (WithChild(c, i, child), existed && c == v)
  }

  function Create(v: Value, ts: seq<Token>): (Value, bool) {
    Place(v, ts, None)
  }

  function Set(v: Value, ts: seq<Token>, x: Value): Value {
    Place(v, ts, Some(x)).0
  }

  /** There is room already exactly when the token names a child. */
  lemma RoomThere(v: Value, t: Token)
    requires !Appends(v, t)
    ensures Room(v, t) == v <==> Child(v, t).Some?
  {
  }

  lemma AppendsNothing(v: Value, t: Token)
    requires Appends(v, t) && (t.name == DASH ==> t.index == INVALID_INDEX)
    ensures Child(v, t).None?
  {
  }

  /** A dash is not a number. */
  predicate WellNumbered(ts: seq<Token>) {
    forall i :: 0 <= i < |ts| ==> ts[i].name == DASH ==> ts[i].index == INVALID_INDEX
  }

  /** Creating reports that the place existed exactly when the tokens resolved, and then changes nothing. */
  lemma {:induction false} CreateExactly(v: Value, ts: seq<Token>)
    requires WellNumbered(ts)
    ensures Create(v, ts).1 <==> Resolve(v, ts).Some?
    ensures Create(v, ts).1 ==> Create(v, ts).0 == v
    decreases |ts|
  {
    if ts != [] {
      var t := ts[0];
      if Appends(v, t) {
        AppendsNothing(v, t);
      } else {
        RoomThere(v, t);
        var c := Room(v, t);
        var i := Child(c, t).value;
        CreateExactly(ChildAt(c, i), ts[1..]);
        if Create(v, ts).1 {
          assert WithChild(c, i, ChildAt(c, i)) == c;
        }
      }
    }
  }

  /** No token appends on the way. */
  predicate NeverAppends(v: Value, ts: seq<Token>)
    decreases |ts|
  {
    ts == [] || (!Appends(v, ts[0]) && NeverAppends(ChildAt(Room(v, ts[0]), Child(Room(v, ts[0]), ts[0]).value), ts[1..]))
  }

  /** A child put in place of another is found where that was. */
  lemma ReplacedIsFound(c: Value, t: Token, x: Value)
    requires Child(c, t).Some?
    ensures var i := Child(c, t).value; Child(WithChild(c, i, x), t) == Some(i) && ChildAt(WithChild(c, i, x), i) == x
  {
    if c.Object? {
      var i := Child(c, t).value;
      var ms := c.members[i := c.members[i].(value := x)];
      SameNames(c.members, ms, t.name);
    }
  }

  lemma {:induction false} SameNames(a: seq<Member>, b: seq<Member>, name: Text)
    requires |a| == |b| && forall i :: 0 <= i < |a| ==> a[i].name == b[i].name
    ensures FindMember(a, name) == FindMember(b, name)
    decreases |a|
  {
    if a != [] {
      SameNames(a[1..], b[1..], name);
    }
  }

  /** What is set is found there afterwards, exactly when no token appended. */
  lemma {:induction false} SetThenGet(v: Value, ts: seq<Token>, x: Value)
    requires WellNumbered(ts)
    ensures Resolve(Set(v, ts, x), ts) == if NeverAppends(v, ts) then Some(x) else None
    decreases |ts|
  {
    if ts != [] {
      var t := ts[0];
      if !Appends(v, t) {
        var c := Room(v, t);
        var i := Child(c, t).value;
        SetThenGet(ChildAt(c, i), ts[1..], x);
        ReplacedIsFound(c, t, Place(ChildAt(c, i), ts[1..], Some(x)).0);
      }
    }
  }

  /** `-` on an empty array: the value is appended, and the pointer that put it there does not find it. */
  lemma AppendedIsNotFound(x: Value)
    ensures var t := Token(DASH, INVALID_INDEX);
      Set(Array([]), [t], x) == Array([x]) && Resolve(Set(Array([]), [t], x), [t]) == None
  {
    var t := Token(DASH, INVALID_INDEX);
    SetThenGet(Array([]), [t], x);
    assert [t][1..] == [];
    assert Place(NullValue, [t][1..], Some(x)).0 == x;
    assert [] + [x] == [x];
    assert Array([]).elements == [];
  }

  /** A created place that did not exist holds null, unless a token appended. */
  lemma {:induction false} CreateThenGet(v: Value, ts: seq<Token>)
    requires WellNumbered(ts) && NeverAppends(v, ts)
    ensures Resolve(Create(v, ts).0, ts) == if Create(v, ts).1 then Resolve(v, ts) else Some(NullValue)
    decreases |ts|
  {
    if ts != [] {
      var t := ts[0];
      var c := Room(v, t);
      var i := Child(c, t).value;
      RoomThere(v, t);
      CreateThenGet(ChildAt(c, i), ts[1..]);
      ReplacedIsFound(c, t, Place(ChildAt(c, i), ts[1..], None).0);
      if c != v {
        NewRoomIsNull(v, t);
        CreateInNull(ts[1..]);
      }
    }
  }

  lemma NewRoomIsNull(v: Value, t: Token)
    requires Room(v, t) != v && !Appends(v, t)
    ensures ChildAt(Room(v, t), Child(Room(v, t), t).value) == NullValue
  {
    var c := Container(v, t);
    if c.Object? {
      AppendedIsFound(c.members, t.name);
    }
  }

  lemma {:induction false} CreateInNull(ts: seq<Token>)
    requires WellNumbered(ts)
    ensures Resolve(Create(NullValue, ts).0, ts) == Some(NullValue) && NeverAppends(NullValue, ts)
    decreases |ts|
  {
    if ts != [] {
      var t := ts[0];
      var c := Room(NullValue, t);
      var i := Child(c, t).value;
      NewRoomIsNull(NullValue, t);
      CreateInNull(ts[1..]);
      ReplacedIsFound(c, t, Place(NullValue, ts[1..], None).0);
    }
  }

  // --------------------------------------------------------------- erasing

  function WithoutChild(v: Value, i: nat): Value
    requires (v.Object? && i < |v.members|) || (v.Array? && i < |v.elements|)
  {
    if v.Object? then Object(v.members[..i] + v.members[i + 1..]) else Array(v.elements[..i] + v.elements[i + 1..])
  }

  /** The document without what the tokens name, and whether there was anything. */
  function Erase(v: Value, ts: seq<Token>): (Value, bool)
    decreases |ts|
  {
    if ts == [] then (v, false)
    else
      match Child(v, ts[0])
      case None => (v, false)
      case Some(i) =>
        if |ts| == 1 then (WithoutChild(v, i), true)
        else
          var (child, erased) := Erase(ChildAt(v, i), ts[1..]);
          (WithChild(v, i, child), erased)
  }

  /** Erasing succeeds exactly when the tokens are not empty and resolve; otherwise nothing changes. */
  lemma {:induction false} EraseExactly(v: Value, ts: seq<Token>)
    ensures Erase(v, ts).1 <==> ts != [] && Resolve(v, ts).Some?
    ensures !Erase(v, ts).1 ==> Erase(v, ts).0 == v
    decreases |ts|
  {
    if ts != [] && Child(v, ts[0]).Some? {
      var i := Child(v, ts[0]).value;
      if |ts| == 1 {
        assert ts[1..] == [];
      } else {
        EraseExactly(ChildAt(v, i), ts[1..]);
        assert WithChild(v, i, ChildAt(v, i)) == v;
      }
    }
  }

  /** Erasing takes the child away from its parent, which is otherwise where and as it was. */
  lemma {:induction false} EraseThenGet(v: Value, ts: seq<Token>)
    requires ts != [] && Resolve(v, ts).Some?
    ensures var (parent, last) := (Resolve(v, ts[..|ts| - 1]), ts[|ts| - 1]);
      && parent.Some? && Child(parent.value, last).Some?
      && Resolve(Erase(v, ts).0, ts[..|ts| - 1]) == Some(WithoutChild(parent.value, Child(parent.value, last).value))
    decreases |ts|
  {
    var i := Child(v, ts[0]).value;
    if |ts| == 1 {
      assert ts[..0] == [];
    } else {
      var rest := ts[1..];
      EraseThenGet(ChildAt(v, i), rest);
      EraseExactly(ChildAt(v, i), rest);
      assert ts[..|ts| - 1][1..] == rest[..|rest| - 1] && ts[..|ts| - 1][0] == ts[0];
      ReplacedIsFound(v, ts[0], Erase(ChildAt(v, i), rest).0);
    }
  }

  /** Erasing a name that has just been added undoes adding it. */
  lemma EraseUndoesAdding(v: Value, t: Token, x: Value)
    requires v.Object? && Child(v, t).None?
    ensures Erase(Set(v, [t], x), [t]) == (v, true)
  {
    assert [t][1..] == [];
    var c := Room(v, t);
    AppendedIsFound(v.members, t.name);
    var i := |v.members|;
    ReplacedIsFound(c, t, x);
    var s := WithChild(c, i, x);
    assert Place(ChildAt(c, i), [t][1..], Some(x)) == (x, true);
    assert Set(v, [t], x) == s;
    assert WithoutChild(s, i).members == v.members;
  }
}
