/** Integer literals: exact values, the narrowest event, accumulators that never wrap. */
module Numbers {
  import opened Bytes
  import opened Events
  import opened Lexing

  predicate AllDigits(s: Text) {
    forall i :: 0 <= i < |s| ==> IsDigit(s[i])
  }

  /** `i` followed by the digits of `ds`, in base ten. */
  function ValueOf(i: nat, ds: Text): nat
    requires AllDigits(ds)
    decreases |ds|
  {
    if ds == [] then i else ValueOf(i * 10 + (ds[0] - 0x30), ds[1..])
  }

  lemma {:induction false} ValueGrows(i: nat, ds: Text)
    requires AllDigits(ds)
    ensures ValueOf(i, ds) >= i
    decreases |ds|
  {
    if ds != [] {
      ValueGrows(i * 10 + (ds[0] - 0x30), ds[1..]);
    }
  }

  /**
   * Accumulation either consumes all digits and holds their exact value, or stops within its bound
   * before a digit that would exceed it, the digits left still spelling the same number.
   */
  lemma {:induction false} AccumulateExact(ds: Text, post: Text, i: nat, limit: nat, top: nat) returns (left: Text)
    requires AllDigits(ds) && !IsDigit(Peek(post)) && top <= 9 && i <= limit * 10 + top
    ensures AllDigits(left)
    ensures var r := Accumulate(ds + post, i, limit, top);
      && r.rest == left + post
      && r.value <= limit * 10 + top
      && ValueOf(r.value, left) == ValueOf(i, ds)
      && (r.full <==> ValueOf(i, ds) > limit * 10 + top)
      && (r.full <==> left != [])
  {
    var s := ds + post;
    if ds == [] {
      assert s == post;
      left := [];
    } else {
      var d := ds[0] - 0x30;
      assert s[0] == ds[0] && s[1..] == ds[1..] + post;
      if i * 10 + d > limit * 10 + top {
        left := ds;
        ValueGrows(i * 10 + d, ds[1..]);
      } else {
        left := AccumulateExact(ds[1..], post, i * 10 + d, limit, top);
      }
    }
  }

  lemma {:induction false} SkipAllDigits(ds: Text, post: Text)
    requires AllDigits(ds) && !IsDigit(Peek(post))
    ensures SkipDigits(ds + post) == post
  {
    if ds == [] {
      assert ds + post == post;
    } else {
      assert (ds + post)[1..] == ds[1..] + post;
      SkipAllDigits(ds[1..], post);
    }
  }

  /** A run of digits as JSON writes an integer: no superfluous leading zero. */
  predicate IsNatural(ds: Text) {
    AllDigits(ds) && ds != [] && (ds[0] == 0x30 ==> |ds| == 1)
  }

  function Bound32(minus: bool): nat {
    if minus then 0x8000_0000 else 0xFFFF_FFFF
  }

  function Bound64(minus: bool): nat {
    if minus then 0x8000_0000_0000_0000 else 0xFFFF_FFFF_FFFF_FFFF
  }

  /** The width class of an integer part is the narrowest its value fits. */
  lemma IntegerPartExact(minus: bool, ds: Text, post: Text)
    requires IsNatural(ds) && !IsDigit(Peek(post))
    ensures var v, r := ValueOf(0, ds), ScanInteger(minus, ds + post);
      && r.Good? && r.rest == post
      && r.value.width == (if v <= Bound32(minus) then Narrow else if v <= Bound64(minus) then Wide else Big)
      && (v <= Bound64(minus) ==> r.value.value == v)
  {
    var s := ds + post;
    if ds[0] == 0x30 {
      assert s[1..] == post;
    } else {
      assert s[1..] == ds[1..] + post;
      var left := AccumulateExact(ds[1..], post, ds[0] - 0x30, Limit32(minus), LastDigit(minus));
      var a := Accumulate(s[1..], s[0] - 0x30, Limit32(minus), LastDigit(minus));
      if a.full {
        var left' := AccumulateExact(left, post, a.value, Limit64(minus), LastDigit(minus));
        SkipAllDigits(left', post);
      } else {
        assert left + post == post;
      }
    }
  }

  /** What an integer literal makes of itself. */
  function LiteralEvent(cfg: Config, minus: bool, v: nat, literal: Text, post: Text): Scan<Event> {
    var n: int := v;
    if v <= Bound32(minus) then Good(if minus then Int(-n) else Uint(n), post)
    else if v <= Bound64(minus) then Good(if minus then Int64(-n) else Uint64(n), post)
    else if cfg.inRange(literal) then Good(Double(literal), post) else Bad
  }

  predicate EndsInteger(c: Byte) {
    !IsDigit(c) && c != 0x2E && c != 0x65 && c != 0x45
  }

  /**
   * An integer literal is read exactly, as the narrowest of the kinds the reader uses: `Int` and
   * `Int64` after a minus sign, `Uint` and `Uint64` otherwise; beyond 64 bits it is a `Double`.
   */
  lemma IntegerLiteralExact(cfg: Config, minus: bool, ds: Text, post: Text)
    requires IsNatural(ds) && EndsInteger(Peek(post))
    ensures var literal := (if minus then [MINUS] else []) + ds;
      ScanNumber(cfg, literal + post) == LiteralEvent(cfg, minus, ValueOf(0, ds), literal, post)
  {
    var literal := (if minus then [MINUS] else []) + ds;
    var s := literal + post;
    assert (if minus then s[1..] else s) == ds + post;
    IntegerPartExact(minus, ds, post);
    assert s[..|s| - |post|] == literal;
  }

  // --------------------------------------------------------- accumulators

  predicate AllAtMost(steps: seq<nat>, bound: int) {
    forall i :: 0 <= i < |steps| ==> steps[i] <= bound
  }

  /** Every value of an accumulator with this limit, the first one included. */
  function Values(s: Text, i: nat, limit: nat, top: nat): (r: seq<nat>)
    ensures r != []
    decreases |s|
  {
    if !IsDigit(Peek(s)) || i > limit || (i == limit && s[0] - 0x30 > top) then [i]
    else [i] + Values(s[1..], i * 10 + (s[0] - 0x30), limit, top)
  }

  lemma {:induction false} ValuesBounded(s: Text, i: nat, limit: nat, top: nat)
    requires top <= 9 && i <= limit * 10 + top
    ensures AllAtMost(Values(s, i, limit, top), limit * 10 + top)
    ensures var vs := Values(s, i, limit, top); Accumulate(s, i, limit, top).value == vs[|vs| - 1]
    decreases |s|
  {
    if IsDigit(Peek(s)) && !(i > limit || (i == limit && s[0] - 0x30 > top)) {
      ValuesBounded(s[1..], i * 10 + (s[0] - 0x30), limit, top);
    }
  }

  /** Every value of the significand while fraction digits are added to it. */
  function SignificandValues(s: Text, i: nat): (r: seq<nat>)
    ensures r != []
    decreases |s|
  {
    if !IsDigit(Peek(s)) || i > 0x1F_FFFF_FFFF_FFFF then [i]
    else [i] + SignificandValues(s[1..], i * 10 + (s[0] - 0x30))
  }

  lemma {:induction false} SignificandBounded(s: Text, i: nat, digits: nat, exponent: int)
    requires i <= 0xFFFF_FFFF_FFFF_FFFF
    ensures AllAtMost(SignificandValues(s, i), 0xFFFF_FFFF_FFFF_FFFF)
    ensures var vs := SignificandValues(s, i); ScanSignificand(s, i, digits, exponent).significand == vs[|vs| - 1]
    decreases |s|
  {
    if IsDigit(Peek(s)) && i <= 0x1F_FFFF_FFFF_FFFF {
      var i' := i * 10 + (s[0] - 0x30);
      SignificandBounded(s[1..], i', if i' != 0 then digits + 1 else digits, exponent - 1);
    }
  }

  /** The values of the 32-bit accumulator on a number without its sign. */
  function NarrowValues(minus: bool, s: Text): seq<nat> {
    if !IsDigit(Peek(s)) then []
    else if s[0] == 0x30 then [0]
    else Values(s[1..], s[0] - 0x30, Limit32(minus), LastDigit(minus))
  }

  /** The values of the 64-bit accumulator, which takes over from the other one. */
  function WideValues(minus: bool, s: Text): seq<nat> {
    if !IsDigit(Peek(s)) || s[0] == 0x30 then []
    else
      var a := Accumulate(s[1..], s[0] - 0x30, Limit32(minus), LastDigit(minus));
      if a.full then Values(a.rest, a.value, Limit64(minus), LastDigit(minus)) else []
  }

  /** The values of the 64-bit significand of a fraction, which goes on from the integer part. */
  function FractionValues(minus: bool, s: Text): seq<nat> {
    var r := ScanInteger(minus, s);
    if r.Good? && Peek(r.rest) == 0x2E && IsDigit(Peek(r.rest[1..])) && r.value.width != Big
    then SignificandValues(r.rest[1..], r.value.value)
    else []
  }

  /** On any input, no accumulator of a number ever holds a value too big for its type. */
  lemma AccumulatorsNeverWrap(minus: bool, s: Text)
    ensures AllAtMost(NarrowValues(minus, s), Bound32(minus))
    ensures AllAtMost(WideValues(minus, s), Bound64(minus))
    ensures AllAtMost(FractionValues(minus, s), 0xFFFF_FFFF_FFFF_FFFF)
  {
    assert Limit32(minus) * 10 + LastDigit(minus) == Bound32(minus);
    assert Limit64(minus) * 10 + LastDigit(minus) == Bound64(minus);
    if IsDigit(Peek(s)) && s[0] != 0x30 {
      ValuesBounded(s[1..], s[0] - 0x30, Limit32(minus), LastDigit(minus));
      var a := Accumulate(s[1..], s[0] - 0x30, Limit32(minus), LastDigit(minus));
      ValuesBounded(a.rest, a.value, Limit64(minus), LastDigit(minus));
    }
    var r := ScanInteger(minus, s);
    if r.Good? && Peek(r.rest) == 0x2E && r.value.width != Big {
      SignificandBounded(r.rest[1..], r.value.value, 0, 0);
    }
  }

  // ------------------------------------------------------------ exponents

  predicate IsInt32(n: int) {
    -0x8000_0000 <= n < 0x8000_0000
  }

  /** The values an exponent takes in `int exp` while its digits are read, up to the first past `maxExp`. */
  function ExponentSteps(s: Text, exp: nat, maxExp: int): (r: seq<nat>)
    ensures r != []
    decreases |s|
  {
    if !IsDigit(Peek(s)) then [exp]
    else
      var exp' := exp * 10 + (s[0] - 0x30);
      [exp] + if exp' > maxExp then [exp'] else ExponentSteps(s[1..], exp', maxExp)
  }

  lemma {:induction false} StepsBounded(s: Text, exp: nat, maxExp: int)
    requires exp <= 9 || exp <= maxExp
    ensures AllAtMost(ExponentSteps(s, exp, maxExp), if exp <= maxExp then 10 * maxExp + 9 else 99)
    decreases |s|
  {
    var bound := if exp <= maxExp then 10 * maxExp + 9 else 99;
    if IsDigit(Peek(s)) {
      var exp' := exp * 10 + (s[0] - 0x30);
      assert exp <= exp' <= bound;
      if exp' <= maxExp {
        StepsBounded(s[1..], exp', maxExp);
        var tail := ExponentSteps(s[1..], exp', maxExp);
        assert ExponentSteps(s, exp, maxExp) == [exp] + tail;
      }
    }
  }

  /** The exponent a scan ends with is the last of its steps. */
  lemma {:induction false} StepsEnd(s: Text, exp: nat, maxExp: int)
    ensures var steps := ExponentSteps(s, exp, maxExp);
      && ScanNegative(s, exp, maxExp).0 == steps[|steps| - 1]
      && (ScanPositive(s, exp, maxExp).Good? ==> ScanPositive(s, exp, maxExp).value == steps[|steps| - 1])
    decreases |s|
  {
    if IsDigit(Peek(s)) {
      var exp' := exp * 10 + (s[0] - 0x30);
      if exp' <= maxExp {
        StepsEnd(s[1..], exp', maxExp);
      }
    }
  }

  predicate AllInt32(steps: seq<nat>) {
    forall i :: 0 <= i < |steps| ==> IsInt32(steps[i])
  }

  /** The digits 147483648 after a first digit 2 spell 2^31. */
  lemma OverflowingExponent(s: Text, k: nat)
    requires k > 214748055 && s == [0x31, 0x34, 0x37, 0x34, 0x38, 0x33, 0x36, 0x34, 0x38]
    ensures !AllInt32(ExponentSteps(s, 2, 308 + k))
  {
    var m := 308 + k;
    var last := ExponentSteps(s[8..], 214748364, m);
    assert IsDigit(Peek(s[8..])) && s[8..][0] == 0x38;
    assert ExponentSteps([], 2147483648, m) == [2147483648];
    assert s[8..] == [0x38] && s[8..][1..] == [];
    assert last[1] == 2147483648;
    Extends(s[7..], 21474836, m);
    Extends(s[6..], 2147483, m);
    Extends(s[5..], 214748, m);
    Extends(s[4..], 21474, m);
    Extends(s[3..], 2147, m);
    Extends(s[2..], 214, m);
    Extends(s[1..], 21, m);
    Extends(s, 2, m);
  }

  lemma Extends(s: Text, exp: nat, maxExp: int)
    requires IsDigit(Peek(s)) && exp * 10 + (s[0] - 0x30) <= maxExp
    requires !AllInt32(ExponentSteps(s[1..], exp * 10 + (s[0] - 0x30), maxExp))
    ensures !AllInt32(ExponentSteps(s, exp, maxExp))
  {
    var inner := ExponentSteps(s[1..], exp * 10 + (s[0] - 0x30), maxExp);
    var i :| 0 <= i < |inner| && !IsInt32(inner[i]);
    assert ExponentSteps(s, exp, maxExp)[i + 1] == inner[i];
  }

  /** A negative exponent never overflows, nor does its sum with the fraction's power of ten. */
  lemma NegativeExponentSafe(s: Text, exp: nat, expFrac: int)
    requires exp <= 9 && -2147483549 <= expFrac <= 0
    ensures var steps := ExponentSteps(s, exp, Truncate(expFrac + 2147483639, 10));
      AllInt32(steps) && IsInt32(expFrac - steps[|steps| - 1])
  {
    var maxExp := Truncate(expFrac + 2147483639, 10);
    StepsBounded(s, exp, maxExp);
    var steps := ExponentSteps(s, exp, maxExp);
    assert 9 <= maxExp && 10 * maxExp + 9 <= expFrac + 2147483648;
  }

  /** The power of ten of a fraction counts at most its digits. */
  lemma FractionBounded(i: Integer, s: Text)
    requires FractionPart(i, s).Good? && FractionPart(i, s).value.Some?
    ensures var r := FractionPart(i, s);
      -(|s| - 1 - |r.rest|) <= r.value.value <= 0
  {
  }

  /** The values `int exp` takes on the part of a number after its fraction, whose power of ten is `expFrac`. */
  function ExponentValues(expFrac: int, s: Text): seq<nat> {
    if Peek(s) != 0x65 && Peek(s) != 0x45 then []
    else
      var sign := Peek(s[1..]);
      var t := if sign == 0x2B || sign == MINUS then s[2..] else s[1..];
      if !IsDigit(Peek(t)) then []
      else ExponentSteps(t[1..], t[0] - 0x30, if sign == MINUS then Truncate(expFrac + 2147483639, 10) else 308 - expFrac)
  }

  lemma ExponentFits(expFrac: int, s: Text)
    requires -214748055 <= expFrac <= 0
    ensures AllInt32(ExponentValues(expFrac, s))
  {
    if (Peek(s) == 0x65 || Peek(s) == 0x45) && s[1..] != [] {
      var sign := Peek(s[1..]);
      var t := if sign == 0x2B || sign == MINUS then s[2..] else s[1..];
      if IsDigit(Peek(t)) && sign == MINUS {
        NegativeExponentSafe(t[1..], t[0] - 0x30, expFrac);
      } else if IsDigit(Peek(t)) {
        StepsBounded(t[1..], t[0] - 0x30, 308 - expFrac);
      }
    }
  }

  /** The fraction of a number, as `ScanNumber` reads it. */
  function FractionOf(s: Text): Scan<Option<int>> {
    var minus := Peek(s) == MINUS;
    match ScanInteger(minus, if minus then s[1..] else s)
    case Bad => Bad
    case Good(i, s1) => FractionPart(i, s1)
  }

  /** The number has a fraction, of which `k` digits count for the power of ten. */
  predicate CountsDigits(s: Text, k: nat) {
    var f := FractionOf(s);
    f.Good? && f.value.Some? && f.value.value == 0 - k as int
  }

  /** Every value of `int exp` while a number is read fits `int`. */
  predicate ExponentSafe(s: Text) {
    var f := FractionOf(s);
    f.Good? ==> AllInt32(ExponentValues(if f.value.Some? then f.value.value else 0, f.rest))
  }

  function Zeros(k: nat): (r: Text)
    ensures |r| == k
  {
    seq(k, _ => 0x30)
  }

  lemma {:induction false} ZerosCount(k: nat, post: Text, exponent: int)
    requires !IsDigit(Peek(post))
    ensures ScanSignificand(Zeros(k) + post, 0, 0, exponent) == Fraction(0, 0, exponent - k, post)
    decreases k
  {
    if k == 0 {
      assert Zeros(0) + post == post;
    } else {
      assert (Zeros(k) + post)[1..] == Zeros(k - 1) + post;
      ZerosCount(k - 1, post, exponent - 1);
    }
  }

  /** A fraction of zeros: every one of them counts. */
  lemma SmallFraction(k: nat, post: Text)
    requires k > 0 && !IsDigit(Peek(post))
    ensures FractionOf([0x30, 0x2E] + (Zeros(k) + post)) == Good(Some(0 - k as int), post)
  {
    var s := [0x30, 0x2E] + (Zeros(k) + post);
    assert s[1..][1..] == Zeros(k) + post;
    ZerosCount(k, post, 0);
  }

  const E_2_31: Text := [0x65, 0x32, 0x31, 0x34, 0x37, 0x34, 0x38, 0x33, 0x36, 0x34, 0x38]

  /** `0.00...0e2147483648` overflows `int exp` once it has more than 214748055 zeros. */
  lemma ManyZerosOverflow(k: nat)
    requires k > 214748055
    ensures var s := [0x30, 0x2E] + (Zeros(k) + E_2_31); CountsDigits(s, k) && !ExponentSafe(s)
  {
    SmallFraction(k, E_2_31);
    var t := E_2_31[1..];
    OverflowingExponent(t[1..], k);
    assert ExponentValues(0 - k as int, E_2_31) == ExponentSteps(t[1..], 2, 308 + k);
  }

  /** No number whose fraction counts `k` digits overflows `int exp` exactly when `k` is at most 214748055. */
  lemma ExponentSafeExactly(k: nat)
    ensures k <= 214748055 <==> forall s :: CountsDigits(s, k) ==> ExponentSafe(s)
  {
    if k <= 214748055 {
      forall s | CountsDigits(s, k)
        ensures ExponentSafe(s)
      {
        ExponentFits(0 - k as int, FractionOf(s).rest);
      }
    } else {
      ManyZerosOverflow(k);
    }
  }
}
