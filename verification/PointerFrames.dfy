/** What setting, creating and erasing through a pointer change, and that they change nothing else. */
module PointerFrames {
  import opened Bytes
  import opened Dom
  import opened PointerDom

  // -------------------------------------------------------- the last token

  /** A name the object has not. */
  predicate NoMember(ms: seq<Member>, name: Text) {
    forall i :: 0 <= i < |ms| ==> ms[i].name != name
  }

  /** Member `i` is the first of its name. */
  predicate FirstMember(ms: seq<Member>, name: Text, i: nat) {
    i < |ms| && ms[i].name == name && NoMember(ms[..i], name)
  }

  lemma {:induction false} FindsFirst(ms: seq<Member>, name: Text)
    ensures FindMember(ms, name).None? <==> NoMember(ms, name)
    ensures forall i: nat :: FirstMember(ms, name, i) <==> FindMember(ms, name) == Some(i)
    decreases |ms|
  {
    if ms != [] {
      FindsFirst(ms[1..], name);
      assert forall i :: 0 <= i < |ms[1..]| ==> ms[1..][i] == ms[i + 1];
      forall i: nat
        ensures FirstMember(ms, name, i) <==> FindMember(ms, name) == Some(i)
      {
        if 0 < i <= |ms| {
          assert ms[..i] == [ms[0]] + ms[1..][..i - 1];
          assert NoMember(ms[..i], name) <==> ms[0].name != name && NoMember(ms[1..][..i - 1], name) by {
            assert ms[..i][0] == ms[0];
            assert ms[..i][1..] == ms[1..][..i - 1];
            assert forall j :: 1 <= j < i ==> ms[..i][j] == ms[1..][..i - 1][j - 1];
          }
          assert FirstMember(ms[1..], name, i - 1) <==> FindMember(ms[1..], name) == Some(i - 1);
        }
      }
    }
  }

  /** `y` is the array with `x` at the index; it is padded with nulls just up to there. */
  predicate PutAtIndex(es: seq<Value>, index: nat, x: Value, y: Value) {
    && y.Array?
    && (index < |es| ==> y.elements == es[index := x])
    && (index >= |es| ==>
         && |y.elements| == index + 1 && es <= y.elements && y.elements[index] == x
         && forall i :: |es| <= i < index ==> y.elements[i] == NullValue)
  }

  /** `y` is the object with `x` as the first member of the name, or with a new last member. */
  ghost predicate PutAtName(ms: seq<Member>, name: Text, x: Value, y: Value) {
    && y.Object?
    && (NoMember(ms, name) ==> y.members == ms + [Member(name, x)])
    && (!NoMember(ms, name) ==> exists i: nat :: FirstMember(ms, name, i) && y.members == ms[i := Member(name, x)])
  }

  /** The token leaves the kind of `v` alone: any container for an index, an object for a name, an array for `-`. */
  predicate Keeps(v: Value, t: Token) {
    v.Object? || (v.Array? && (t.name == DASH || t.index != INVALID_INDEX))
  }

  /**
   * `y` is what `v` becomes when one token puts `x` into it.  A value that is no container the token
   * can use is lost: an index makes an array of it, a name an object.
   */
  ghost predicate Puts(v: Value, t: Token, x: Value, y: Value) {
    if v.Array? && t.name == DASH then y == Array(v.elements + [x])
    else if v.Object? then PutAtName(v.members, t.name, x, y)
    else if t.index == INVALID_INDEX then y == Object([Member(t.name, x)])
    else PutAtIndex(if v.Array? then v.elements else [], t.index, x, y)
  }

  lemma OneToken(v: Value, t: Token, x: Option<Value>)
    requires !Appends(v, t)
    ensures var c := Room(v, t); var i := Child(c, t).value;
      Place(v, [t], x).0 == WithChild(c, i, if x.Some? then x.value else ChildAt(c, i))
  {
    assert [t][1..] == [];
    var c := Room(v, t);
    var i := Child(c, t).value;
    assert Place(ChildAt(c, i), [], x) == (if x.Some? then x.value else ChildAt(c, i), true);
  }

  lemma SetAtName(v: Value, t: Token, x: Value)
    requires v.Object?
    ensures PutAtName(v.members, t.name, x, Set(v, [t], x))
  {
    var ms := v.members;
    OneToken(v, t, Some(x));
    FindsFirst(ms, t.name);
    if FindMember(ms, t.name).None? {
      AppendedIsFound(ms, t.name);
      assert Set(v, [t], x).members == ms + [Member(t.name, x)];
    } else {
      var i := FindMember(ms, t.name).value;
      assert FirstMember(ms, t.name, i);
      assert Set(v, [t], x).members == ms[i := Member(t.name, x)];
    }
  }

  lemma SetAtIndex(v: Value, t: Token, x: Value)
    requires !v.Object? && !Appends(v, t) && t.index != INVALID_INDEX
    ensures PutAtIndex(if v.Array? then v.elements else [], t.index, x, Set(v, [t], x))
  {
    OneToken(v, t, Some(x));
  }

  /** What one token does to the value it is applied to, whatever that is. */
  lemma SetPuts(v: Value, t: Token, x: Value)
    ensures Puts(v, t, x, Set(v, [t], x))
  {
    if v.Object? {
      SetAtName(v, t, x);
    } else if Appends(v, t) {
      assert [t][1..] == [];
      assert Place(NullValue, [], Some(x)) == (x, true);
    } else if t.index != INVALID_INDEX {
      SetAtIndex(v, t, x);
    } else {
      OneToken(v, t, Some(x));
      AppendedIsFound([], t.name);
      assert [] + [Member(t.name, NullValue)] == [Member(t.name, NullValue)];
      assert Set(v, [t], x).members == [Member(t.name, x)];
    }
  }

  /** Creating is setting null where there is nothing, and nothing where there is something. */
  lemma CreatePuts(v: Value, t: Token)
    ensures if Child(v, t).Some? && !Appends(v, t) then Create(v, [t]).0 == v else Create(v, [t]).0 == Set(v, [t], NullValue)
  {
    if Appends(v, t) {
      assert [t][1..] == [];
      assert Place(NullValue, [], None) == (NullValue, true) && Place(NullValue, [], Some(NullValue)) == (NullValue, true);
    } else {
      OneToken(v, t, None);
      OneToken(v, t, Some(NullValue));
      RoomThere(v, t);
      var c := Room(v, t);
      var i := Child(c, t).value;
      assert WithChild(c, i, ChildAt(c, i)) == c;
      if c != v {
        NewRoomIsNull(v, t);
      }
    }
  }

  // -------------------------------------------------------------- locality

  /** What is at the end of a path, or will be once the path is there. */
  function There(v: Value, ts: seq<Token>): Value {
    var r := Resolve(v, ts);
    if r.Some? then r.value else NullValue
  }

  /**
   * Setting or creating through a longer list of tokens does at the end of any first part of it what
   * the rest of the tokens do to what is there.
   */
  lemma {:induction false} PlaceIsLocal(v: Value, a: seq<Token>, b: seq<Token>, x: Option<Value>)
    requires WellNumbered(a) && NeverAppends(v, a)
    ensures Resolve(Place(v, a + b, x).0, a) == Some(Place(There(v, a), b, x).0)
    decreases |a|
  {
    if a == [] {
      assert a + b == b;
    } else {
      var t := a[0];
      assert (a + b)[0] == t && (a + b)[1..] == a[1..] + b;
      var c := Room(v, t);
      var i := Child(c, t).value;
      PlaceIsLocal(ChildAt(c, i), a[1..], b, x);
      ReplacedIsFound(c, t, Place(ChildAt(c, i), a[1..] + b, x).0);
      RoomThere(v, t);
      if c != v {
        NewRoomIsNull(v, t);
        NothingInNull(a[1..]);
      }
    }
  }

  /** Setting changes the parent of what is set as its last token says; null is the parent where there was none. */
  lemma SetChangesParent(v: Value, parents: seq<Token>, t: Token, x: Value)
    requires WellNumbered(parents) && NeverAppends(v, parents)
    ensures var r := Resolve(Set(v, parents + [t], x), parents);
      r.Some? && Puts(There(v, parents), t, x, r.value)
  {
    PlaceIsLocal(v, parents, [t], Some(x));
    SetPuts(There(v, parents), t, x);
  }

  lemma NothingInNull(ts: seq<Token>)
    ensures There(NullValue, ts) == NullValue
  {
  }

  // ------------------------------------------------------------------ frame

  /**
   * The path `us` leaves the tokens at some child: up to there the tokens lead to the same children and
   * replace no container, and there `us` takes a child that is another one.
   */
  predicate Leaves(v: Value, ts: seq<Token>, us: seq<Token>)
    decreases |ts|
  {
    && ts != [] && us != [] && Keeps(v, ts[0]) && Child(v, us[0]).Some?
    && (Child(v, ts[0]) == Child(v, us[0]) ==> Leaves(ChildAt(v, Child(v, us[0]).value), ts[1..], us[1..]))
  }

  lemma RoomKeeps(v: Value, t: Token, u: Token)
    requires Keeps(v, t) && !Appends(v, t) && Child(v, u).Some?
    ensures Child(Room(v, t), u) == Child(v, u) && ChildAt(Room(v, t), Child(v, u).value) == ChildAt(v, Child(v, u).value)
  {
    if v.Object? && FindMember(v.members, t.name).None? {
      FoundBefore(v.members, Member(t.name, NullValue), u.name);
    }
  }

  lemma {:induction false} FoundBefore(ms: seq<Member>, m: Member, name: Text)
    requires FindMember(ms, name).Some?
    ensures FindMember(ms + [m], name) == FindMember(ms, name)
    decreases |ms|
  {
    assert (ms + [m])[0] == ms[0];
    if ms[0].name != name {
      assert (ms + [m])[1..] == ms[1..] + [m];
      FoundBefore(ms[1..], m, name);
    }
  }

  lemma OthersStay(c: Value, i: nat, x: Value, u: Token)
    requires (c.Object? && i < |c.members|) || (c.Array? && i < |c.elements|)
    requires Child(c, u).Some? && Child(c, u).value != i
    ensures Child(WithChild(c, i, x), u) == Child(c, u)
    ensures ChildAt(WithChild(c, i, x), Child(c, u).value) == ChildAt(c, Child(c, u).value)
  {
    if c.Object? {
      SameNames(c.members, c.members[i := c.members[i].(value := x)], u.name);
    }
  }

  /** Setting and creating leave alone whatever a path that leaves the tokens finds. */
  lemma {:induction false} PlaceFrame(v: Value, ts: seq<Token>, us: seq<Token>, x: Option<Value>)
    requires WellNumbered(ts) && Leaves(v, ts, us)
    ensures Resolve(Place(v, ts, x).0, us) == Resolve(v, us)
    decreases |ts|
  {
    var (t, u) := (ts[0], us[0]);
    var j := Child(v, u).value;
    if Appends(v, t) {
      AppendsNothing(v, t);
    } else {
      var c := Room(v, t);
      var i := Child(c, t).value;
      var y := Place(ChildAt(c, i), ts[1..], x).0;
      RoomKeeps(v, t, u);
      RoomThere(v, t);
      if Child(v, t) == Child(v, u) {
        PlaceFrame(ChildAt(v, j), ts[1..], us[1..], x);
        ReplacedIsFound(c, t, y);
        SamePlace(c, i, y, t, u);
      } else {
        Elsewhere(v, t, u);
        OthersStay(c, i, y, u);
      }
    }
  }

  lemma SamePlace(c: Value, i: nat, y: Value, t: Token, u: Token)
    requires Child(c, t) == Child(c, u) == Some(i)
    ensures Child(WithChild(c, i, y), u) == Some(i) && ChildAt(WithChild(c, i, y), i) == y
  {
    ReplacedIsFound(c, u, y);
  }

  lemma Elsewhere(v: Value, t: Token, u: Token)
    requires Keeps(v, t) && !Appends(v, t) && Child(v, u).Some? && Child(v, t) != Child(v, u)
    ensures Child(Room(v, t), t).value != Child(v, u).value
  {
    if v.Object? && FindMember(v.members, t.name).None? {
      AppendedIsFound(v.members, t.name);
    }
  }

  /** Erasing leaves alone whatever a path finds that leaves the tokens before the last one. */
  lemma {:induction false} EraseFrame(v: Value, ts: seq<Token>, us: seq<Token>)
    requires ts != [] && Leaves(v, ts[..|ts| - 1], us)
    ensures Resolve(Erase(v, ts).0, us) == Resolve(v, us)
    decreases |ts|
  {
    var (t, u) := (ts[0], us[0]);
    assert ts[..|ts| - 1][0] == t && ts[..|ts| - 1][1..] == ts[1..][..|ts| - 2];
    if Child(v, t).Some? {
      var i := Child(v, t).value;
      var y := Erase(ChildAt(v, i), ts[1..]).0;
      if Child(v, t) == Child(v, u) {
        EraseFrame(ChildAt(v, i), ts[1..], us[1..]);
        SamePlace(v, i, y, t, u);
      } else {
        OthersStay(v, i, y, u);
      }
    }
  }
}
