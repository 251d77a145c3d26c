/** What hash codes tell apart, and what they cannot. */
module HashCodes {
  import opened Bytes
  import opened Dom
  import opened Equality
  import opened Powers
  import Decimals

  lemma XorFits(a: nat, b: nat)
    requires a < WORD && b < WORD
    ensures Xor(a, b) < WORD
  {
    Pow2Of64();
    XorBounded(a, b, 64);
  }

  /** A step of the hash loses neither what was hashed before nor what is hashed now. */
  lemma MixLosesNothing(h: nat, k: nat, x: nat, y: nat)
    requires h < WORD && k < WORD && x < WORD && y < WORD
    requires Mix(h, x) == Mix(k, y)
    ensures h == k <==> x == y
  {
    XorFits(h, x);
    XorFits(k, y);
    PrimeCancels(Xor(h, x), Xor(k, y));
    if h == k {
      XorCancels(h, x, y);
    } else if x == y {
      XorCommutes(h, x);
      XorCommutes(k, x);
      XorCancels(x, h, k);
    }
  }

  lemma {:induction false} BytesLoseNothing(h: nat, k: nat, s: Text)
    requires h < WORD && k < WORD && MixBytes(h, s) == MixBytes(k, s)
    ensures h == k
    decreases |s|
  {
    if s != [] {
      BytesLoseNothing(Mix(h, s[0]), Mix(k, s[0]), s[1..]);
      MixLosesNothing(h, k, s[0], s[0]);
    }
  }

  /** The same bytes under different tags have different codes: null, false, true and "" among them. */
  lemma TagsApart(t: Tag, u: Tag, s: Text)
    ensures BufferHash(t, s) == BufferHash(u, s) <==> t == u
  {
    if BufferHash(t, s) == BufferHash(u, s) {
      var seed := 0x8422_2325_CBF2_9CE4;
      BytesLoseNothing(Mix(seed, TagCode(t)), Mix(seed, TagCode(u)), s);
      MixLosesNothing(seed, seed, TagCode(t), TagCode(u));
    }
  }

  /** Null, the truth values and the empty string have four codes. */
  lemma WordsApart(doubles: Doubles)
    ensures var codes := [HashOf(NullValue, doubles), HashOf(BoolValue(false), doubles), HashOf(BoolValue(true), doubles),
                          HashOf(StringValue([]), doubles)];
      forall i, j :: 0 <= i < j < |codes| ==> codes[i] != codes[j]
  {
    TagsApart(NullTag, FalseTag, []);
    TagsApart(NullTag, TrueTag, []);
    TagsApart(NullTag, StringTag, []);
    TagsApart(FalseTag, TrueTag, []);
    TagsApart(FalseTag, StringTag, []);
    TagsApart(TrueTag, StringTag, []);
  }

  /** Strings that differ in one byte have different codes. */
  lemma OneByteTells(a: Text, x: Byte, y: Byte, b: Text, doubles: Doubles)
    ensures HashOf(StringValue(a + ([x] + b)), doubles) == HashOf(StringValue(a + ([y] + b)), doubles) <==> x == y
  {
    var h := Mix(0x8422_2325_CBF2_9CE4, TagCode(StringTag));
    MixBytesConcat(h, a, [x] + b);
    MixBytesConcat(h, a, [y] + b);
    MixBytesBounded(h, a);
    var k := MixBytes(h, a);
    assert ([x] + b)[1..] == b && ([y] + b)[1..] == b;
    if MixBytes(k, [x] + b) == MixBytes(k, [y] + b) {
      BytesLoseNothing(Mix(k, x), Mix(k, y), b);
      MixLosesNothing(k, k, x, y);
    }
  }

  // ----------------------------------------------------------- containers

  lemma BufferFits(t: Tag, s: Text)
    ensures BufferHash(t, s) < WORD
  {
    MixBytesBounded(Mix(0x8422_2325_CBF2_9CE4, TagCode(t)), s);
  }

  lemma NumberFits(bits: nat, x: real, doubles: Doubles)
    ensures NumberHash(bits, x, doubles) < WORD
  {
    BufferFits(NumberTag, WordBytes(bits, 8) + doubles(x).bytes);
  }

  lemma {:induction false} HashFits(v: Value, doubles: Doubles)
    ensures HashOf(v, doubles) < WORD
    decreases v, 0
  {
    match v
    case NullValue => BufferFits(NullTag, []);
    case BoolValue(b) => BufferFits(if b then TrueTag else FalseTag, []);
    case StringValue(s) => BufferFits(StringTag, s);
    case Number(bits, _) => NumberFits(bits, IntegerOf(v) as real, doubles);
    case Real(literal) => NumberFits(Bits64(doubles(Decimals.Amount(literal)).cast), Decimals.Amount(literal), doubles);
    case Array(es) => ItemsFitIn(Mix(0, TagCode(ArrayTag)), es, doubles);
    case Object(ms) =>
      MembersFitIn(ms, doubles);
      XorFits(Mix(0, TagCode(ObjectTag)), HashMembers(ms, doubles));
  }

  lemma {:induction false} ItemsFitIn(h: nat, es: seq<Value>, doubles: Doubles)
    requires h < WORD
    ensures HashItems(h, es, doubles) < WORD
    decreases es, 1
  {
    if es != [] {
      ItemsFitIn(Mix(h, HashOf(es[0], doubles)), es[1..], doubles);
    }
  }

  lemma {:induction false} MembersFitIn(ms: seq<Member>, doubles: Doubles)
    ensures HashMembers(ms, doubles) < WORD
    decreases ms, 1
  {
    if ms != [] {
      MembersFitIn(ms[1..], doubles);
      XorFits(HashMember(ms[0], doubles), HashMembers(ms[1..], doubles));
    }
  }

  lemma {:induction false} ItemsLoseNothing(h: nat, k: nat, es: seq<Value>, doubles: Doubles)
    requires h < WORD && k < WORD && HashItems(h, es, doubles) == HashItems(k, es, doubles)
    ensures h == k
    decreases |es|
  {
    if es != [] {
      var x := HashOf(es[0], doubles);
      HashFits(es[0], doubles);
      ItemsLoseNothing(Mix(h, x), Mix(k, x), es[1..], doubles);
      MixLosesNothing(h, k, x, x);
    }
  }

  lemma {:induction false} ItemsDiffer(h: nat, es: seq<Value>, i: nat, x: Value, doubles: Doubles)
    requires h < WORD && i < |es|
    ensures HashItems(h, es[i := x], doubles) == HashItems(h, es, doubles) <==> HashOf(x, doubles) == HashOf(es[i], doubles)
    decreases |es|
  {
    var fs := es[i := x];
    if i == 0 {
      assert fs[1..] == es[1..];
      var (c, d) := (HashOf(x, doubles), HashOf(es[0], doubles));
      HashFits(x, doubles);
      HashFits(es[0], doubles);
      if HashItems(h, fs, doubles) == HashItems(h, es, doubles) {
        ItemsLoseNothing(Mix(h, c), Mix(h, d), es[1..], doubles);
        MixLosesNothing(h, h, c, d);
      }
    } else {
      assert fs[1..] == es[1..][i - 1 := x];
      ItemsDiffer(Mix(h, HashOf(es[0], doubles)), es[1..], i - 1, x, doubles);
    }
  }

  /** Arrays that differ in one element have the same code exactly when the two elements have. */
  lemma ElementTells(es: seq<Value>, i: nat, x: Value, doubles: Doubles)
    requires i < |es|
    ensures HashOf(Array(es[i := x]), doubles) == HashOf(Array(es), doubles) <==> HashOf(x, doubles) == HashOf(es[i], doubles)
  {
    ItemsDiffer(Mix(0, TagCode(ArrayTag)), es, i, x, doubles);
  }

  lemma {:induction false} MembersDiffer(ms: seq<Member>, i: nat, x: Value, doubles: Doubles)
    requires i < |ms|
    ensures HashMembers(ms[i := ms[i].(value := x)], doubles) == HashMembers(ms, doubles) <==>
      HashOf(x, doubles) == HashOf(ms[i].value, doubles)
    decreases |ms|
  {
    var ns := ms[i := ms[i].(value := x)];
    var rest := HashMembers(ms[1..], doubles);
    if i == 0 {
      assert ns[1..] == ms[1..];
      var (c, d) := (HashMember(ns[0], doubles), HashMember(ms[0], doubles));
      var k := BufferHash(StringTag, ms[0].name);
      HashFits(x, doubles);
      HashFits(ms[0].value, doubles);
      BufferFits(StringTag, ms[0].name);
      if Xor(c, rest) == Xor(d, rest) {
        XorCommutes(c, rest);
        XorCommutes(d, rest);
        XorCancels(rest, c, d);
        MixLosesNothing(k, k, HashOf(x, doubles), HashOf(ms[0].value, doubles));
      }
    } else {
      assert ns[1..] == ms[1..][i - 1 := ms[1..][i - 1].(value := x)];
      MembersDiffer(ms[1..], i - 1, x, doubles);
      if HashMembers(ns, doubles) == HashMembers(ms, doubles) {
        XorCancels(HashMember(ms[0], doubles), HashMembers(ns[1..], doubles), rest);
      }
    }
  }

  /** Objects that differ in the value of one member have the same code exactly when the two values have. */
  lemma MemberTells(ms: seq<Member>, i: nat, x: Value, doubles: Doubles)
    requires i < |ms|
    ensures HashOf(Object(ms[i := ms[i].(value := x)]), doubles) == HashOf(Object(ms), doubles) <==>
      HashOf(x, doubles) == HashOf(ms[i].value, doubles)
  {
    var (a, b) := (HashMembers(ms[i := ms[i].(value := x)], doubles), HashMembers(ms, doubles));
    MembersDiffer(ms, i, x, doubles);
    if Xor(Mix(0, TagCode(ObjectTag)), a) == Xor(Mix(0, TagCode(ObjectTag)), b) {
      XorCancels(Mix(0, TagCode(ObjectTag)), a, b);
    }
  }

  lemma MoreMembersDiffer(ns: seq<Member>, ms: seq<Member>)
    requires |ns| != |ms|
    ensures !Equal(Object(ns), Object(ms))
  {
  }

  lemma XorTells(h: nat, a: nat, b: nat)
    ensures Xor(h, a) == Xor(h, b) <==> a == b
  {
    if Xor(h, a) == Xor(h, b) {
      XorCancels(h, a, b);
    }
  }

  lemma PairCancels(c: nat, d: nat, r: nat)
    ensures Xor(c, Xor(d, r)) == r <==> c == d
  {
    XorAssociates(c, c, r);
    XorWithItself(c);
    if Xor(c, Xor(d, r)) == r {
      XorAssociates(c, d, r);
      XorCommutes(Xor(c, d), r);
      XorCommutes(0, r);
      XorCancels(r, Xor(c, d), 0);
      XorCancels(c, c, d);
    }
  }

  lemma TwoMembers(m: Member, n: Member, ms: seq<Member>, doubles: Doubles)
    ensures HashMembers([m, n] + ms, doubles)
      == Xor(HashMember(m, doubles), Xor(HashMember(n, doubles), HashMembers(ms, doubles)))
  {
    var ns := [m, n] + ms;
    assert ns[1..] == [n] + ms && ([n] + ms)[1..] == ms;
  }

  /** Two more members leave the code of an object as it was exactly when the two have one code. */
  lemma TwoMembersCancel(m: Member, n: Member, ms: seq<Member>, doubles: Doubles)
    ensures HashOf(Object([m, n] + ms), doubles) == HashOf(Object(ms), doubles) <==> HashMember(m, doubles) == HashMember(n, doubles)
  {
    var (tag, a, b) := (Mix(0, TagCode(ObjectTag)), HashMembers([m, n] + ms, doubles), HashMembers(ms, doubles));
    TwoMembers(m, n, ms, doubles);
    PairCancels(HashMember(m, doubles), HashMember(n, doubles), b);
    XorTells(tag, a, b);
  }

  /** The same member twice cancels out of the code: `{"a":1,"a":1}` has that of `{}`, which it does not equal. */
  lemma TwiceCancels(m: Member, ms: seq<Member>, doubles: Doubles)
    ensures HashOf(Object([m, m] + ms), doubles) == HashOf(Object(ms), doubles)
    ensures !Equal(Object([m, m] + ms), Object(ms))
  {
    TwoMembersCancel(m, m, ms, doubles);
    MoreMembersDiffer([m, m] + ms, ms);
  }
}
