/** Equality of values, and the hash codes that stand in for it when schemas compare. */
module Equality {
  import opened Bytes
  import opened Events
  import opened Dom
  import opened Powers
  import Decimals

  /** `operator==`. */
  predicate Equal(v: Value, w: Value)
    decreases v
  {
    match v
    case Object(ms) => w.Object? && |ms| == |w.members| && forall i :: 0 <= i < |ms| ==> Matched(ms, i, w.members)
    case Array(es) => w.Array? && |es| == |w.elements| && forall i :: 0 <= i < |es| ==> Equal(es[i], w.elements[i])
    case StringValue(s) => w.StringValue? && s == w.s
    case Number(bits, _) => w.Number? && bits == w.bits
    case Real(literal) => w.Real? && literal == w.literal
    case BoolValue(b) => w.BoolValue? && b == w.b
    case NullValue => w.NullValue?
  }

  /** The other object has a member of that name and an equal value. */
  predicate Matched(ms: seq<Member>, i: nat, ns: seq<Member>)
    requires i < |ms|
    decreases ms, 0
  {
    var k := FindMember(ns, ms[i].name);
    k.Some? && Equal(ms[i].value, ns[k.value].value)
  }

  predicate Distinct(ms: seq<Member>) {
    forall i, j :: 0 <= i < j < |ms| ==> ms[i].name != ms[j].name
  }

  /** Objects have no two members of the same name, and numbers are integers. */
  predicate Regular(v: Value)
    decreases v
  {
    match v
    case Object(ms) => Distinct(ms) && forall i :: 0 <= i < |ms| ==> Regular(ms[i].value)
    case Array(es) => forall i :: 0 <= i < |es| ==> Regular(es[i])
    case Number(_, _) => ExactNumber(v)
    case Real(_) => false
    case _ => true
  }

  lemma FoundAt(ms: seq<Member>, i: nat)
    requires Distinct(ms) && i < |ms|
    ensures FindMember(ms, ms[i].name) == Some(i)
  {
  }

  lemma {:induction false} NamesCount(ms: seq<Member>)
    requires Distinct(ms)
    ensures |Names(ms)| == |ms|
  {
    if ms == [] {
      assert Names(ms) == {};
    } else {
      var last := |ms| - 1;
      NamesCount(ms[..last]);
      forall name
        ensures name in Names(ms) <==> name in Names(ms[..last]) + {ms[last].name}
      {
        if name in Names(ms) {
          var i :| 0 <= i < |ms| && ms[i].name == name;
          if i < last {
            assert ms[..last][i].name == name;
          }
        }
        if name in Names(ms[..last]) {
          var i :| 0 <= i < last && ms[..last][i].name == name;
          assert ms[i].name == name;
        }
        assert ms[last].name in Names(ms);
      }
      assert Names(ms) == Names(ms[..last]) + {ms[last].name};
    }
  }

  lemma SameSize(a: set<Text>, b: set<Text>)
    requires a <= b && |a| == |b|
    ensures a == b
  {
    assert b == a + (b - a);
    assert |b| == |a| + |b - a|;
  }

  /** Equal objects have the same names. */
  lemma SameNames(ms: seq<Member>, ns: seq<Member>)
    requires Distinct(ms) && Distinct(ns) && |ms| == |ns|
    requires forall i :: 0 <= i < |ms| ==> FindMember(ns, ms[i].name).Some?
    ensures Names(ms) == Names(ns)
  {
    forall name | name in Names(ms)
      ensures name in Names(ns)
    {
      var i :| 0 <= i < |ms| && ms[i].name == name;
      var k := FindMember(ns, ms[i].name).value;
      assert ns[k].name == name;
    }
    NamesCount(ms);
    NamesCount(ns);
    SameSize(Names(ms), Names(ns));
  }

  // ----------------------------------------------------------- equivalence

  lemma {:induction false} EqualReflexive(v: Value)
    requires Regular(v)
    ensures Equal(v, v)
    decreases v
  {
    if v.Object? {
      forall i | 0 <= i < |v.members|
        ensures Matched(v.members, i, v.members)
      {
        FoundAt(v.members, i);
        EqualReflexive(v.members[i].value);
      }
    } else if v.Array? {
      forall i | 0 <= i < |v.elements|
        ensures Equal(v.elements[i], v.elements[i])
      {
        EqualReflexive(v.elements[i]);
      }
    }
  }

  lemma {:induction false} EqualSymmetric(v: Value, w: Value)
    requires Regular(v) && Regular(w) && Equal(v, w)
    ensures Equal(w, v)
    decreases v
  {
    if v.Object? {
      var (ms, ns) := (v.members, w.members);
      forall i | 0 <= i < |ms|
        ensures FindMember(ns, ms[i].name).Some?
      {
        assert Matched(ms, i, ns);
      }
      SameNames(ms, ns);
      forall j | 0 <= j < |ns|
        ensures Matched(ns, j, ms)
      {
        assert ns[j].name in Names(ns);
        var i :| 0 <= i < |ms| && ms[i].name == ns[j].name;
        assert Matched(ms, i, ns);
        FoundAt(ms, i);
        FoundAt(ns, j);
        EqualSymmetric(ms[i].value, ns[j].value);
      }
    } else if v.Array? {
      forall i | 0 <= i < |v.elements|
        ensures Equal(w.elements[i], v.elements[i])
      {
        EqualSymmetric(v.elements[i], w.elements[i]);
      }
    }
  }

  lemma {:induction false} EqualTransitive(u: Value, v: Value, w: Value)
    requires Regular(u) && Regular(v) && Regular(w) && Equal(u, v) && Equal(v, w)
    ensures Equal(u, w)
    decreases u
  {
    if u.Object? {
      forall i | 0 <= i < |u.members|
        ensures Matched(u.members, i, w.members)
      {
        assert Matched(u.members, i, v.members);
        var k := FindMember(v.members, u.members[i].name).value;
        assert Matched(v.members, k, w.members);
        var l := FindMember(w.members, v.members[k].name).value;
        EqualTransitive(u.members[i].value, v.members[k].value, w.members[l].value);
      }
    } else if u.Array? {
      forall i | 0 <= i < |u.elements|
        ensures Equal(u.elements[i], w.elements[i])
      {
        EqualTransitive(u.elements[i], v.elements[i], w.elements[i]);
      }
    }
  }

  /** The order of members does not matter. */
  lemma OrderIsIrrelevant(ms: seq<Member>, ns: seq<Member>)
    requires Regular(Object(ms)) && Regular(Object(ns)) && multiset(ms) == multiset(ns)
    ensures Equal(Object(ms), Object(ns))
  {
    assert |multiset(ms)| == |ms| && |multiset(ns)| == |ns|;
    forall i | 0 <= i < |ms|
      ensures Matched(ms, i, ns)
    {
      assert ms[i] in multiset(ns);
      var k :| 0 <= k < |ns| && ns[k] == ms[i];
      FoundAt(ns, k);
      EqualReflexive(ms[i].value);
    }
  }

  // --------------------------------------------------------- repeated names

  predicate AllRegular(ms: seq<Member>) {
    forall i :: 0 <= i < |ms| ==> Regular(ms[i].value)
  }

  /** Members of the same name have equal values. */
  predicate AgreeByName(ms: seq<Member>) {
    forall i, j :: 0 <= i < |ms| && 0 <= j < |ms| && ms[i].name == ms[j].name ==> Equal(ms[i].value, ms[j].value)
  }

  ghost predicate EqualsSomething(ms: seq<Member>) {
    exists ns: seq<Member> :: AllRegular(ns) && Equal(Object(ms), Object(ns))
  }

  ghost predicate SomethingEquals(ns: seq<Member>) {
    exists ms: seq<Member> :: AllRegular(ms) && Equal(Object(ms), Object(ns))
  }

  lemma EqualsItself(ms: seq<Member>)
    requires AgreeByName(ms)
    ensures Equal(Object(ms), Object(ms))
  {
    forall i | 0 <= i < |ms|
      ensures Matched(ms, i, ms)
    {
      assert FindMember(ms, ms[i].name).Some?;
    }
  }

  lemma MembersAgree(ms: seq<Member>, ns: seq<Member>, i: nat, j: nat)
    requires AllRegular(ms) && AllRegular(ns) && Equal(Object(ms), Object(ns))
    requires i < |ms| && j < |ms| && ms[i].name == ms[j].name
    ensures Equal(ms[i].value, ms[j].value)
  {
    assert Matched(ms, i, ns) && Matched(ms, j, ns);
    var k := FindMember(ns, ms[i].name).value;
    EqualSymmetric(ms[j].value, ns[k].value);
    EqualTransitive(ms[i].value, ns[k].value, ms[j].value);
  }

  /**
   * On the left, an object equals something exactly when its members of the same name have equal values;
   * it then equals itself, repeated names or not.
   */
  lemma LeftExactly(ms: seq<Member>)
    requires AllRegular(ms)
    ensures EqualsSomething(ms) <==> AgreeByName(ms)
    ensures Equal(Object(ms), Object(ms)) <==> AgreeByName(ms)
  {
    if AgreeByName(ms) {
      EqualsItself(ms);
    }
    if ns :| AllRegular(ns) && Equal(Object(ms), Object(ns)) {
      forall i, j | 0 <= i < |ms| && 0 <= j < |ms| && ms[i].name == ms[j].name
        ensures Equal(ms[i].value, ms[j].value)
      {
        MembersAgree(ms, ns, i, j);
      }
    }
  }

  lemma {:induction false} FewerNames(ms: seq<Member>, i: nat, j: nat)
    requires i < j < |ms| && ms[i].name == ms[j].name
    ensures |Names(ms)| < |ms|
  {
    var rest := Without(ms, j);
    forall name
      ensures name in Names(ms) <==> name in Names(rest)
    {
      if k :| 0 <= k < |ms| && ms[k].name == name {
        var at := if k < j then k else if k == j then i else k - 1;
        assert rest[at].name == name;
      }
      if k :| 0 <= k < |rest| && rest[k].name == name {
        assert ms[if k < j then k else k + 1].name == name;
      }
    }
    assert Names(ms) == Names(rest);
    NamesAtMost(rest);
  }

  lemma {:induction false} NamesAtMost(ms: seq<Member>)
    ensures |Names(ms)| <= |ms|
  {
    if ms == [] {
      assert Names(ms) == {};
    } else {
      var last := |ms| - 1;
      NamesAtMost(ms[..last]);
      forall name | name in Names(ms)
        ensures name in Names(ms[..last]) + {ms[last].name}
      {
        var i :| 0 <= i < |ms| && ms[i].name == name;
        if i < last {
          assert ms[..last][i].name == name;
        }
      }
      SubsetSize(Names(ms), Names(ms[..last]) + {ms[last].name});
    }
  }

  lemma SubsetSize(a: set<Text>, b: set<Text>)
    requires a <= b
    ensures |a| <= |b|
  {
    assert b == a + (b - a);
  }

  /** An object without repeated names equals no object that has one. */
  lemma DistinctStays(ms: seq<Member>, ns: seq<Member>)
    requires Distinct(ms) && Equal(Object(ms), Object(ns))
    ensures Distinct(ns)
  {
    NamesCount(ms);
    forall name | name in Names(ms)
      ensures name in Names(ns)
    {
      var i :| 0 <= i < |ms| && ms[i].name == name;
      assert Matched(ms, i, ns);
      assert ns[FindMember(ns, ms[i].name).value].name == name;
    }
    SubsetSize(Names(ms), Names(ns));
    if i, j :| 0 <= i < j < |ns| && ns[i].name == ns[j].name {
      FewerNames(ns, i, j);
    }
  }

  /** The first member of each name, in order. */
  function Firsts(ms: seq<Member>): (r: seq<Member>)
    ensures forall i :: 0 <= i < |r| ==> r[i] in ms
    decreases |ms|
  {
    if ms == [] then []
    else
      var last := |ms| - 1;
      assert forall m :: m in ms[..last] ==> m in ms;
      Firsts(ms[..last]) + (if FindMember(ms[..last], ms[last].name).Some? then [] else [ms[last]])
  }

  lemma {:induction false} FindInLonger(ms: seq<Member>, m: Member, name: Text)
    ensures FindMember(ms + [m], name) ==
      if FindMember(ms, name).Some? then FindMember(ms, name) else if m.name == name then Some(|ms|) else None
    decreases |ms|
  {
    if ms == [] {
      assert (ms + [m])[1..] == [];
    } else {
      assert (ms + [m])[1..] == ms[1..] + [m];
      FindInLonger(ms[1..], m, name);
    }
  }

  /** The value a name leads to. */
  function ValueFor(ms: seq<Member>, name: Text): Option<Value> {
    match FindMember(ms, name)
    case None => None
    case Some(k) => Some(ms[k].value)
  }

  lemma ValueInLonger(ms: seq<Member>, m: Member, name: Text)
    ensures ValueFor(ms + [m], name) ==
      if ValueFor(ms, name).Some? then ValueFor(ms, name) else if m.name == name then Some(m.value) else None
  {
    FindInLonger(ms, m, name);
  }

  lemma {:induction false} FirstsFind(ms: seq<Member>, name: Text)
    ensures ValueFor(Firsts(ms), name) == ValueFor(ms, name)
    decreases |ms|
  {
    if ms != [] {
      var (before, m) := (ms[..|ms| - 1], ms[|ms| - 1]);
      assert ms == before + [m];
      FirstsFind(before, name);
      ValueInLonger(before, m, name);
      if FindMember(before, m.name).None? {
        ValueInLonger(Firsts(before), m, name);
      } else {
        assert Firsts(before) + [] == Firsts(before);
      }
    }
  }

  /** Only the value a name leads to matters. */
  lemma MatchedMeans(ms: seq<Member>, i: nat, ns: seq<Member>)
    requires i < |ms|
    ensures Matched(ms, i, ns) <==> ValueFor(ns, ms[i].name).Some? && Equal(ms[i].value, ValueFor(ns, ms[i].name).value)
  {
  }

  predicate AllMatched(ms: seq<Member>, ns: seq<Member>) {
    forall i :: 0 <= i < |ms| ==> Matched(ms, i, ns)
  }

  lemma FirstsMatch(ms: seq<Member>, ns: seq<Member>)
    ensures AllMatched(ms, ns) <==> AllMatched(ms, Firsts(ns))
  {
    forall i | 0 <= i < |ms|
      ensures Matched(ms, i, ns) <==> Matched(ms, i, Firsts(ns))
    {
      FirstsFind(ns, ms[i].name);
      MatchedMeans(ms, i, ns);
      MatchedMeans(ms, i, Firsts(ns));
    }
  }

  /**
   * On the right, an object with a repeated name is equalled only by objects that repeat a name as well,
   * and by just those of its size all of whose members have an equal among the first ones of each name.
   */
  lemma RightExactly(ms: seq<Member>, ns: seq<Member>)
    requires !Distinct(ns)
    ensures Equal(Object(ms), Object(ns)) <==> |ms| == |ns| && AllMatched(ms, Firsts(ns))
    ensures Equal(Object(ms), Object(ns)) ==> !Distinct(ms)
  {
    FirstsMatch(ms, ns);
    assert Equal(Object(ms), Object(ns)) <==> |ms| == |ns| && AllMatched(ms, ns);
    if Distinct(ms) && Equal(Object(ms), Object(ns)) {
      DistinctStays(ms, ns);
    }
  }

  /** On the right, an object always meets something equal to it, whatever its names. */
  lemma SomethingAlwaysEquals(ns: seq<Member>)
    requires AllRegular(ns)
    ensures SomethingEquals(ns)
  {
    var ms: seq<Member> := if ns == [] then [] else seq(|ns|, _ => ns[0]);
    if ns != [] {
      EqualReflexive(ns[0].value);
      assert FindMember(ns, ns[0].name) == Some(0);
    }
    assert forall i :: 0 <= i < |ms| ==> Matched(ms, i, ns);
    assert Equal(Object(ms), Object(ns)) && AllRegular(ms);
  }

  /** A repeated name breaks symmetry, and an object that has one can equal itself. */
  lemma RepeatedNamesCompareOddly(m: Member, n: Member)
    requires m.name != n.name && Regular(m.value)
    ensures Equal(Object([m, m]), Object([m, m]))
    ensures Equal(Object([m, m]), Object([m, n])) && !Equal(Object([m, n]), Object([m, m]))
  {
    EqualReflexive(m.value);
    assert forall i :: 0 <= i < 2 ==> Matched([m, m], i, [m, m]) && Matched([m, m], i, [m, n]);
    assert !Matched([m, n], 1, [m, m]);
  }

  // ------------------------------------------------------------------ hash

  const WORD: nat := 0x1_0000_0000_0000_0000

  function Xor(a: nat, b: nat): nat
    decreases a + b
  {
    if a == 0 then b else if b == 0 then a
    else 2 * Xor(a / 2, b / 2) + (if a % 2 == b % 2 then 0 else 1)
  }

  lemma {:induction false} XorCommutes(a: nat, b: nat)
    ensures Xor(a, b) == Xor(b, a)
    decreases a + b
  {
    if a > 0 && b > 0 {
      XorCommutes(a / 2, b / 2);
    }
  }

  lemma XorHalves(a: nat, b: nat)
    ensures Xor(a, b) / 2 == Xor(a / 2, b / 2) && Xor(a, b) % 2 == (if a % 2 == b % 2 then 0 else 1)
  {
  }

  lemma SameHalves(x: nat, y: nat)
    requires x / 2 == y / 2 && x % 2 == y % 2
    ensures x == y
  {
  }

  lemma {:induction false} XorAssociates(a: nat, b: nat, c: nat)
    ensures Xor(Xor(a, b), c) == Xor(a, Xor(b, c))
    decreases a + b + c
  {
    if a > 0 && b > 0 && c > 0 {
      XorAssociates(a / 2, b / 2, c / 2);
      XorHalves(a, b);
      XorHalves(b, c);
      XorHalves(Xor(a, b), c);
      XorHalves(a, Xor(b, c));
      SameHalves(Xor(Xor(a, b), c), Xor(a, Xor(b, c)));
    }
  }

  /** One step of FNV-1a. */
  function Mix(h: nat, d: nat): nat {
    Xor(h, d) * 0x100_0000_01B3 % WORD
  }

  /** The type tags that are hashed. */
  datatype Tag = NullTag | FalseTag | TrueTag | ObjectTag | ArrayTag | StringTag | NumberTag

  function TagCode(t: Tag): nat {
    match t
    case NullTag => 0
    case FalseTag => 1
    case TrueTag => 2
    case ObjectTag => 3
    case ArrayTag => 4
    case StringTag => 5
    case NumberTag => 6
  }

  function MixBytes(h: nat, s: Text): nat
    decreases |s|
  {
    if s == [] then h else MixBytes(Mix(h, s[0]), s[1..])
  }

  function BufferHash(t: Tag, s: Text): nat {
    MixBytes(Mix(0x8422_2325_CBF2_9CE4, TagCode(t)), s)
  }

  /** The eight bytes of a word, the lowest first. */
  function WordBytes(n: nat, k: nat): Text {
    if k == 0 then [] else [n % 256] + WordBytes(n / 256, k - 1)
  }

  /** The double nearest to a number: what it becomes when cast to an integer, and its bytes. */
  datatype Nearest = Nearest(cast: int, bytes: Text)

  type Doubles = real -> Nearest

  /** A number is hashed as 64 bits and as the double nearest to it. */
  function NumberHash(bits: nat, x: real, doubles: Doubles): nat {
    BufferHash(NumberTag, WordBytes(bits, 8) + doubles(x).bytes)
  }

  function IntegerHash(n: int, doubles: Doubles): nat {
    NumberHash(Bits64(n), n as real, doubles)
  }

  /** The 64 bits of a double are those of the integer it is cast to. */
  function DoubleHash(x: real, doubles: Doubles): nat {
    NumberHash(Bits64(doubles(x).cast), x, doubles)
  }

  function HashOf(v: Value, doubles: Doubles): nat
    decreases v, 0
  {
    match v
    case NullValue => BufferHash(NullTag, [])
    case BoolValue(b) => BufferHash(if b then TrueTag else FalseTag, [])
    case StringValue(s) => BufferHash(StringTag, s)
    case Number(bits, _) => NumberHash(bits, IntegerOf(v) as real, doubles)
    case Real(literal) => DoubleHash(Decimals.Amount(literal), doubles)
    case Array(es) => HashItems(Mix(0, TagCode(ArrayTag)), es, doubles)
    case Object(ms) => Xor(Mix(0, TagCode(ObjectTag)), HashMembers(ms, doubles))
  }

  function HashItems(h: nat, es: seq<Value>, doubles: Doubles): nat
    decreases es, 1
  {
    if es == [] then h else HashItems(Mix(h, HashOf(es[0], doubles)), es[1..], doubles)
  }

  function HashMember(m: Member, doubles: Doubles): nat
    decreases m, 1
  {
    Mix(BufferHash(StringTag, m.name), HashOf(m.value, doubles))
  }

  function HashMembers(ms: seq<Member>, doubles: Doubles): nat
    decreases ms, 1
  {
    if ms == [] then 0 else Xor(HashMember(ms[0], doubles), HashMembers(ms[1..], doubles))
  }

  // ------------------------------------------------- equal values, one code

  /** Two numbers of the same 64 bits are the same integer, unless one is negative and the other above 2^63. */
  lemma SameBits(m: int, n: int)
    requires IsInteger(m) && IsInteger(n)
    ensures Equal(NumberOf(m), NumberOf(n)) <==>
      m == n || m == n + WORD || n == m + WORD
  {
  }

  /** Numbers that equality matches are the same integer, not only the same 64 bits. */
  predicate SameIntegers(v: Value, w: Value)
    decreases v
  {
    match v
    case Object(ms) => w.Object? ==> forall i :: 0 <= i < |ms| ==> SameMember(ms, i, w.members)
    case Array(es) => w.Array? && |w.elements| == |es| ==> forall i :: 0 <= i < |es| ==> SameIntegers(es[i], w.elements[i])
    case Number(_, _) => w.Number? ==> IntegerOf(v) == IntegerOf(w)
    case _ => true
  }

  predicate SameMember(ms: seq<Member>, i: nat, ns: seq<Member>)
    requires i < |ms|
    decreases ms, 0
  {
    var k := FindMember(ns, ms[i].name);
    k.Some? ==> SameIntegers(ms[i].value, ns[k.value].value)
  }

  function Without(ms: seq<Member>, k: nat): (r: seq<Member>)
    requires k < |ms|
    ensures |r| == |ms| - 1
    ensures forall i :: 0 <= i < |r| ==> r[i] == ms[if i < k then i else i + 1]
  {
    ms[..k] + ms[k + 1..]
  }

  lemma XorMiddle(a: nat, b: nat, c: nat)
    ensures Xor(a, Xor(b, c)) == Xor(b, Xor(a, c))
  {
    XorAssociates(a, b, c);
    XorCommutes(a, b);
    XorAssociates(b, a, c);
  }

  /** Taking a member out takes its code out. */
  lemma {:induction false} HashWithout(ms: seq<Member>, k: nat, doubles: Doubles)
    requires k < |ms|
    ensures HashMembers(ms, doubles) == Xor(HashMember(ms[k], doubles), HashMembers(Without(ms, k), doubles))
    decreases k
  {
    if k == 0 {
      assert Without(ms, 0) == ms[1..];
    } else {
      HashWithout(ms[1..], k - 1, doubles);
      assert Without(ms, k)[1..] == Without(ms[1..], k - 1);
      XorMiddle(HashMember(ms[0], doubles), HashMember(ms[k], doubles), HashMembers(Without(ms[1..], k - 1), doubles));
    }
  }

  /** The members of one object have counterparts in the other, with the same codes. */
  ghost predicate Paired(ms: seq<Member>, ns: seq<Member>, doubles: Doubles) {
    && Distinct(ms) && Distinct(ns) && |ms| == |ns|
    && forall i :: 0 <= i < |ms| ==> PairedAt(ms[i], ns, doubles)
  }

  ghost predicate PairedAt(m: Member, ns: seq<Member>, doubles: Doubles) {
    exists k :: 0 <= k < |ns| && ns[k].name == m.name && HashMember(ns[k], doubles) == HashMember(m, doubles)
  }

  lemma {:induction false} PairedHash(ms: seq<Member>, ns: seq<Member>, doubles: Doubles)
    requires Paired(ms, ns, doubles)
    ensures HashMembers(ms, doubles) == HashMembers(ns, doubles)
    decreases |ms|
  {
    if ms != [] {
      assert PairedAt(ms[0], ns, doubles);
      var k :| 0 <= k < |ns| && ns[k].name == ms[0].name && HashMember(ns[k], doubles) == HashMember(ms[0], doubles);
      var rest := Without(ns, k);
      forall i | 0 <= i < |ms[1..]|
        ensures PairedAt(ms[1..][i], rest, doubles)
      {
        assert PairedAt(ms[i + 1], ns, doubles);
        var l :| 0 <= l < |ns| && ns[l].name == ms[i + 1].name && HashMember(ns[l], doubles) == HashMember(ms[i + 1], doubles);
        var at := if l < k then l else l - 1;
        assert rest[at] == ns[l];
      }
      PairedHash(ms[1..], rest, doubles);
      HashWithout(ns, k, doubles);
    }
  }

  lemma {:induction false} ItemsHash(h: nat, es: seq<Value>, fs: seq<Value>, doubles: Doubles)
    requires |es| == |fs| && forall i :: 0 <= i < |es| ==> HashOf(es[i], doubles) == HashOf(fs[i], doubles)
    ensures HashItems(h, es, doubles) == HashItems(h, fs, doubles)
    decreases |es|
  {
    if es != [] {
      ItemsHash(Mix(h, HashOf(es[0], doubles)), es[1..], fs[1..], doubles);
    }
  }

  /** Equal values have the same hash code, if the numbers matched are the same integers. */
  lemma {:induction false} EqualHash(v: Value, w: Value, doubles: Doubles)
    requires Regular(v) && Regular(w) && Equal(v, w) && SameIntegers(v, w)
    ensures HashOf(v, doubles) == HashOf(w, doubles)
    decreases v
  {
    match v
    case Object(ms) =>
      var ns := w.members;
      forall i | 0 <= i < |ms|
        ensures PairedAt(ms[i], ns, doubles)
      {
        assert Matched(ms, i, ns) && SameMember(ms, i, ns);
        var k := FindMember(ns, ms[i].name).value;
        EqualHash(ms[i].value, ns[k].value, doubles);
        assert ns[k].name == ms[i].name && HashMember(ns[k], doubles) == HashMember(ms[i], doubles);
      }
      PairedHash(ms, ns, doubles);
    case Array(es) =>
      forall i | 0 <= i < |es|
        ensures HashOf(es[i], doubles) == HashOf(w.elements[i], doubles)
      {
        EqualHash(es[i], w.elements[i], doubles);
      }
      ItemsHash(Mix(0, TagCode(ArrayTag)), es, w.elements, doubles);
    case Number(_, _) =>
    case NullValue =>
    case BoolValue(_) =>
    case StringValue(_) =>
  }

  // -------------------------------- when equality forces the same integers

  /** Every number is in [0, 2^63). */
  predicate Settled(v: Value)
    decreases v
  {
    match v
    case Object(ms) => forall i :: 0 <= i < |ms| ==> Settled(ms[i].value)
    case Array(es) => forall i :: 0 <= i < |es| ==> Settled(es[i])
    case Number(_, _) => 0 <= IntegerOf(v) < 0x8000_0000_0000_0000
    case _ => true
  }

  lemma {:induction false} SettledForces(v: Value, w: Value)
    requires Regular(v) && Regular(w) && Equal(v, w) && Settled(v)
    ensures SameIntegers(v, w)
    decreases v
  {
    if v.Object? {
      forall i | 0 <= i < |v.members|
        ensures SameMember(v.members, i, w.members)
      {
        assert Matched(v.members, i, w.members);
        SettledForces(v.members[i].value, w.members[FindMember(w.members, v.members[i].name).value].value);
      }
    } else if v.Array? {
      forall i | 0 <= i < |v.elements|
        ensures SameIntegers(v.elements[i], w.elements[i])
      {
        SettledForces(v.elements[i], w.elements[i]);
      }
    } else if v.Number? {
      SameBits(IntegerOf(v), IntegerOf(w));
    }
  }

  /** The other integer of the same 64 bits, where there is one. */
  function Alias(n: int): int {
    if n < 0 then n + WORD else if n >= 0x8000_0000_0000_0000 then n - WORD else n
  }

  /** The value with every number replaced by the other one of its bits. */
  function Flipped(v: Value): Value
    decreases v
  {
    match v
    case Object(ms) => Object(seq(|ms|, i requires 0 <= i < |ms| => Member(ms[i].name, Flipped(ms[i].value))))
    case Array(es) => Array(seq(|es|, i requires 0 <= i < |es| => Flipped(es[i])))
    case Number(_, _) => if IsInteger(Alias(IntegerOf(v))) then NumberOf(Alias(IntegerOf(v))) else v
    case _ => v
  }

  lemma FlippedNumber(n: int)
    requires IsInteger(n)
    ensures IsInteger(Alias(n)) && Bits64(n) == Bits64(Alias(n))
    ensures Alias(n) == n ==> 0 <= n < 0x8000_0000_0000_0000
  {
  }

  lemma {:induction false} FlippedIsEqual(v: Value)
    requires Regular(v)
    ensures Regular(Flipped(v)) && Equal(v, Flipped(v)) && (SameIntegers(v, Flipped(v)) ==> Settled(v))
    decreases v
  {
    if v.Object? {
      var (ms, ns) := (v.members, Flipped(v).members);
      assert Distinct(ns);
      forall i | 0 <= i < |ms|
        ensures Regular(ns[i].value) && Matched(ms, i, ns) && (SameMember(ms, i, ns) ==> Settled(ms[i].value))
      {
        FlippedIsEqual(ms[i].value);
        FoundAt(ns, i);
        assert ns[i].name == ms[i].name;
      }
    } else if v.Array? {
      forall i | 0 <= i < |v.elements|
        ensures Regular(Flipped(v.elements[i])) && Equal(v.elements[i], Flipped(v.elements[i]))
        ensures SameIntegers(v.elements[i], Flipped(v.elements[i])) ==> Settled(v.elements[i])
      {
        FlippedIsEqual(v.elements[i]);
      }
    } else if v.Number? {
      FlippedNumber(IntegerOf(v));
      IntegerOfNumber(Alias(IntegerOf(v)));
    }
  }

  /** Every equal value has the same integers. */
  ghost predicate Forces(v: Value) {
    forall w :: Regular(w) && Equal(v, w) ==> SameIntegers(v, w)
  }

  /** Equality forces the same integers exactly on values whose numbers are all in [0, 2^63). */
  lemma ForcedExactly(v: Value)
    requires Regular(v)
    ensures Settled(v) <==> Forces(v)
  {
    if Settled(v) {
      forall w | Regular(w) && Equal(v, w)
        ensures SameIntegers(v, w)
      {
        SettledForces(v, w);
      }
    } else if Forces(v) {
      FlippedIsEqual(v);
    }
  }

  // ------------------------------------------------- equal, two codes

  const PRIME: nat := 0x100_0000_01B3
  const INVERSE: nat := 0xce965057aff6957b

  lemma {:induction false} XorWithItself(a: nat)
    ensures Xor(a, a) == 0
  {
    if a > 0 {
      XorWithItself(a / 2);
    }
  }

  lemma XorCancels(h: nat, x: nat, y: nat)
    requires Xor(h, x) == Xor(h, y)
    ensures x == y
  {
    XorAssociates(h, h, x);
    XorAssociates(h, h, y);
    XorWithItself(h);
  }

  lemma {:induction false} XorBounded(a: nat, b: nat, k: nat)
    requires a < Pow2(k) && b < Pow2(k)
    ensures Xor(a, b) < Pow2(k)
    decreases k
  {
    if k > 0 && a > 0 && b > 0 {
      XorBounded(a / 2, b / 2, k - 1);
    }
  }

  /** Multiplying by the FNV prime loses nothing modulo 2^64. */
  lemma PrimeCancels(x: nat, y: nat)
    requires x < WORD && y < WORD && x * PRIME % WORD == y * PRIME % WORD
    ensures x == y
  {
    var (q, r) := (x * PRIME / WORD, y * PRIME / WORD);
    var d := x - y;
    assert d * PRIME == (q - r) * WORD;
    assert PRIME * INVERSE == 1 + 887285111055 * WORD;
    assert d * (PRIME * INVERSE) == (d * PRIME) * INVERSE;
    assert d + d * 887285111055 * WORD == (q - r) * INVERSE * WORD;
    var m := (q - r) * INVERSE - d * 887285111055;
    assert d == m * WORD;
  }

  lemma MixTells(h: nat, x: Byte, y: Byte)
    requires h < WORD && Mix(h, x) == Mix(h, y)
    ensures x == y
  {
    Pow2Of64();
    XorBounded(h, x, 64);
    XorBounded(h, y, 64);
    PrimeCancels(Xor(h, x), Xor(h, y));
    XorCancels(h, x, y);
  }

  lemma {:induction false} MixBytesConcat(h: nat, a: Text, b: Text)
    ensures MixBytes(h, a + b) == MixBytes(MixBytes(h, a), b)
    decreases |a|
  {
    if a == [] {
      assert a + b == b;
    } else {
      assert (a + b)[1..] == a[1..] + b;
      MixBytesConcat(Mix(h, a[0]), a[1..], b);
    }
  }

  lemma {:induction false} MixBytesBounded(h: nat, s: Text)
    requires h < WORD
    ensures MixBytes(h, s) < WORD
    decreases |s|
  {
    if s != [] {
      MixBytesBounded(Mix(h, s[0]), s[1..]);
    }
  }

  /** Texts that differ in their last byte alone have different codes. */
  lemma LastByteTells(t: Tag, s: Text, x: Byte, y: Byte)
    requires BufferHash(t, s + [x]) == BufferHash(t, s + [y])
    ensures x == y
  {
    var h := Mix(0x8422_2325_CBF2_9CE4, TagCode(t));
    MixBytesConcat(h, s, [x]);
    MixBytesConcat(h, s, [y]);
    MixBytesBounded(h, s);
    var k := MixBytes(h, s);
    assert MixBytes(k, [x]) == Mix(k, x) && MixBytes(k, [y]) == Mix(k, y);
    MixTells(k, x, y);
  }

  /** The doubles -1 and 2^64, IEEE 754, the lowest byte first. */
  predicate Ieee(doubles: Doubles) {
    && doubles(-1.0).bytes == [0, 0, 0, 0, 0, 0, 0xF0, 0xBF]
    && doubles((WORD - 1) as real).bytes == [0, 0, 0, 0, 0, 0, 0xF0, 0x43]
  }

  /** -1 and 2^64 - 1 compare equal, yet an `enum` of one does not find the other. */
  lemma EqualButToldApart(doubles: Doubles)
    requires Ieee(doubles)
    ensures Equal(NumberOf(-1), NumberOf(WORD - 1))
    ensures HashOf(NumberOf(-1), doubles) != HashOf(NumberOf(WORD - 1), doubles)
  {
    SameBits(-1, WORD - 1);
    IntegerOfNumber(-1);
    IntegerOfNumber(WORD - 1);
    var s := WordBytes(WORD - 1, 8) + [0, 0, 0, 0, 0, 0, 0xF0];
    assert WordBytes(WORD - 1, 8) + doubles(-1.0).bytes == s + [0xBF];
    assert WordBytes(WORD - 1, 8) + doubles((WORD - 1) as real).bytes == s + [0x43];
    if HashOf(NumberOf(-1), doubles) == HashOf(NumberOf(WORD - 1), doubles) {
      LastByteTells(NumberTag, s, 0xBF, 0x43);
    }
  }
}
