/** The number literals of RFC 8259 section 6: which are read, as what, and the number they stand for. */
module NumberLiterals {
  import opened Bytes
  import opened Decimals
  import opened Events
  import opened Lexing
  import opened Numbers
  import opened Sequences

  /** `e` or `E`, perhaps a sign, digits. */
  datatype Exponent = Exponent(e: Byte, sign: Text, digits: Text)

  /** An empty fraction stands for no decimal point. */
  datatype Literal = Literal(minus: bool, whole: Text, fraction: Text, exponent: Option<Exponent>)

  predicate ExponentFits(x: Exponent) {
    && (x.e == 0x65 || x.e == 0x45)
    && (x.sign == [] || x.sign == [0x2B] || x.sign == [MINUS])
    && x.digits != [] && AllDigits(x.digits)
  }

  predicate LiteralFits(l: Literal) {
    IsNatural(l.whole) && AllDigits(l.fraction) && (l.exponent.Some? ==> ExponentFits(l.exponent.value))
  }

  function ExponentText(x: Option<Exponent>): Text {
    match x
    case None => []
    case Some(x) => [x.e] + (x.sign + x.digits)
  }

  function FractionText(fraction: Text): Text {
    if fraction == [] then [] else [0x2E] + fraction
  }

  function SignText(minus: bool): Text {
    if minus then [MINUS] else []
  }

  function LiteralText(l: Literal): Text {
    SignText(l.minus) + (l.whole + (FractionText(l.fraction) + ExponentText(l.exponent)))
  }

  // ---------------------------------------------------------------- value

  lemma {:induction false} PowerAdds(a: nat, b: nat, c: nat)
    requires c == a + b
    ensures PowerOfTen(c) == PowerOfTen(a) * PowerOfTen(b)
  {
    if a > 0 {
      PowerAdds(a - 1, b, c - 1);
      assert 10.0 * PowerOfTen(a - 1) * PowerOfTen(b) == 10.0 * (PowerOfTen(a - 1) * PowerOfTen(b));
    }
  }

  lemma PowersMultiply(a: nat, b: nat, c: nat, p: real, q: real, r: real)
    requires c == a + b && p == PowerOfTen(a) && q == PowerOfTen(b) && r == PowerOfTen(c)
    ensures r == p * q && p >= 1.0 && q >= 1.0 && r >= 1.0
  {
    PowerAdds(a, b, c);
  }

  lemma Lifts(s: real, x: real, p: real, q: real, r: real)
    requires p >= 1.0 && q == p * r && s == x * r
    ensures s == x / p * q
  {
    var y := x / p;
    assert x == y * p;
    assert y * p * r == y * (p * r);
  }

  lemma Lowers(s: real, x: real, p: real, q: real, r: real)
    requires p >= 1.0 && r >= 1.0 && q >= 1.0 && p == q * r && s == x / r
    ensures s == x / p * q
  {
    var y := x / p;
    assert x == y * p;
    assert y * (q * r) == y * q * r;
    DividesBack(y * q, r);
  }

  lemma DividesBack(z: real, r: real)
    requires r >= 1.0
    ensures z * r / r == z
  {
  }

  lemma Nests(s: real, x: real, p: real, q: real, r: real)
    requires p >= 1.0 && q >= 1.0 && r >= 1.0 && r == p * q && s == x / r
    ensures s == x / p / q
  {
    var y := x / p / q;
    assert x == x / p * p && x / p == y * q;
    assert y * q * p == y * (p * q);
    DividesBack(y, r);
  }

  lemma ScaledIs(n: int, x: real, d: nat, r: real)
    requires r == PowerOfTen(d) && x == n as real
    ensures Scaled(n, d) == x * r && Scaled(n, 0 - d) == x / r
  {
  }

  lemma ScaledUp(n: int, x: real, k: nat, e: nat, d: nat, p: real, q: real, r: real)
    requires x == n as real && p == PowerOfTen(k) && q == PowerOfTen(e) && r == PowerOfTen(d) && e == k + d
    ensures Scaled(n, d) == x / p * q
  {
    PowersMultiply(k, d, e, p, r, q);
    ScaledIs(n, x, d, r);
    Lifts(Scaled(n, d), x, p, q, r);
  }

  lemma ScaledDown(n: int, x: real, k: nat, e: nat, d: int, p: real, q: real, r: real)
    requires x == n as real && p == PowerOfTen(k) && q == PowerOfTen(e) && d < 0 && r == PowerOfTen(-d) && d == e - k
    ensures Scaled(n, d) == x / p * q
  {
    PowersMultiply(e, -d, k, q, r, p);
    ScaledIs(n, x, -d, r);
    Lowers(Scaled(n, d), x, p, q, r);
  }

  /** Scaling by `e - k`, the powers of ten for `k` and `e` being `p` and `q`. */
  lemma ScaledRight(n: int, x: real, k: nat, e: nat, d: int, p: real, q: real)
    requires x == n as real && p == PowerOfTen(k) && q == PowerOfTen(e) && d == e - k
    ensures Scaled(n, d) == x / p * q
  {
    if d >= 0 {
      ScaledUp(n, x, k, e, d, p, q, PowerOfTen(d));
    } else {
      ScaledDown(n, x, k, e, d, p, q, PowerOfTen(-d));
    }
  }

  lemma ScaledLeft(n: int, x: real, k: nat, e: nat, d: nat, p: real, q: real, r: real)
    requires x == n as real && p == PowerOfTen(k) && q == PowerOfTen(e) && d == k + e && r == PowerOfTen(d)
    ensures Scaled(n, 0 - d) == x / p / q
  {
    PowersMultiply(k, e, d, p, q, r);
    ScaledIs(n, x, d, r);
    Nests(Scaled(n, 0 - d), x, p, q, r);
  }

  lemma ExponentIs(x: Exponent)
    requires ExponentFits(x)
    ensures ExponentAmount(ExponentText(Some(x))) == (if x.sign == [MINUS] then -(ValueOf(0, x.digits) as int) else ValueOf(0, x.digits))
  {
    var s := ExponentText(Some(x));
    TakesAll(x.digits, [], 0);
    assert x.digits + [] == x.digits;
    if x.sign == [] {
      assert s[1..] == x.digits;
    } else {
      assert s[1..][0] == x.sign[0] && s[2..] == x.digits;
    }
  }

  /** The digits before the exponent, read on as one number. */
  lemma DigitsTaken(whole: Text, fraction: Text, x: Text)
    requires IsNatural(whole) && AllDigits(fraction) && !IsDigit(Peek(x)) && Peek(x) != 0x2E
    ensures var s := FractionText(fraction) + x;
      && TakeDigits(whole + s, 0) == (ValueOf(0, whole), s)
      && Peek(s) == (if fraction == [] then Peek(x) else 0x2E)
      && (fraction != [] ==> TakeDigits(s[1..], ValueOf(0, whole)) == (ValueOf(ValueOf(0, whole), fraction), x))
  {
    var s := FractionText(fraction) + x;
    TakesAll(whole, s, 0);
    if fraction == [] {
      assert s == x;
    } else {
      assert s[1..] == fraction + x;
      TakesAll(fraction, x, ValueOf(0, whole));
    }
  }

  lemma Unsigned(minus: bool, ds: Text)
    requires ds != [] && ds[0] != MINUS
    ensures var s := SignText(minus) + ds;
      (Peek(s) == MINUS <==> minus) && (if minus then s[1..] else s) == ds
  {
  }

  /** The digits of a literal, with its sign and without its point, as one number. */
  function Signed(l: Literal): int
    requires LiteralFits(l)
  {
    if l.minus then -(ValueOf(ValueOf(0, l.whole), l.fraction) as int) else ValueOf(ValueOf(0, l.whole), l.fraction)
  }

  lemma DigitsAre(l: Literal, d: int)
    requires LiteralFits(l) && d == ExponentAmount(ExponentText(l.exponent)) - |l.fraction|
    ensures Amount(LiteralText(l)) == Scaled(Signed(l), d)
  {
    var x := ExponentText(l.exponent);
    var s := FractionText(l.fraction) + x;
    Unsigned(l.minus, l.whole + s);
    DigitsTaken(l.whole, l.fraction, x);
    if l.fraction == [] {
      assert s == x;
    } else {
      assert |s| - 1 - |x| == |l.fraction|;
    }
  }

  lemma ScaledByExponent(n: int, x: real, k: nat, o: Option<Exponent>, d: int, p: real, q: real)
    requires x == n as real && p == PowerOfTen(k) && (o.Some? ==> ExponentFits(o.value))
    requires q == if o.Some? then PowerOfTen(ValueOf(0, o.value.digits)) else 1.0
    requires d == ExponentAmount(ExponentText(o)) - k
    ensures Scaled(n, d) == if o.None? then x / p else if o.value.sign == [MINUS] then x / p / q else x / p * q
  {
    if o.None? {
      ScaledRight(n, x, k, 0, d, p, 1.0);
    } else {
      ExponentIs(o.value);
      var e := ValueOf(0, o.value.digits);
      if o.value.sign == [MINUS] {
        ScaledLeft(n, x, k, e, -d, p, q, PowerOfTen(-d));
      } else {
        ScaledRight(n, x, k, e, d, p, q);
      }
    }
  }

  /**
   * The number a literal of the standard stands for: `x` is what its digits spell, `p` the power of
   * ten of its fraction, `q` that of its exponent.
   */
  lemma LiteralAmount(l: Literal, x: real, p: real, q: real)
    requires LiteralFits(l)
    requires x == Signed(l) as real && p == PowerOfTen(|l.fraction|)
    requires q == if l.exponent.Some? then PowerOfTen(ValueOf(0, l.exponent.value.digits)) else 1.0
    ensures Amount(LiteralText(l)) == if l.exponent.None? then x / p else if l.exponent.value.sign == [MINUS] then x / p / q else x / p * q
  {
    var d := ExponentAmount(ExponentText(l.exponent)) - |l.fraction|;
    DigitsAre(l, d);
    ScaledByExponent(Signed(l), x, |l.fraction|, l.exponent, d, p, q);
  }

  // ------------------------------------------------------------- complete

  lemma {:induction false} SignificandTaken(f: Text, post: Text, i: nat, digits: nat, exponent: int)
    requires AllDigits(f) && !IsDigit(Peek(post))
    ensures var r := ScanSignificand(f, i, digits, exponent);
      AllDigits(r.rest) && ScanSignificand(f + post, i, digits, exponent) == r.(rest := r.rest + post)
    decreases |f|
  {
    if f == [] {
      assert f + post == post && [] + post == post;
    } else {
      assert (f + post)[1..] == f[1..] + post;
      if i <= 0x1F_FFFF_FFFF_FFFF {
        var i' := i * 10 + (f[0] - 0x30);
        SignificandTaken(f[1..], post, i', if i' != 0 then digits + 1 else digits, exponent - 1);
      }
    }
  }

  lemma {:induction false} FractionDigitsTaken(f: Text, post: Text, positive: bool, digits: nat, exponent: int)
    requires AllDigits(f) && !IsDigit(Peek(post))
    ensures ScanFraction(f + post, positive, digits, exponent) == (ScanFraction(f, positive, digits, exponent).0, post)
    decreases |f|
  {
    if f == [] {
      assert f + post == post;
    } else {
      assert (f + post)[1..] == f[1..] + post;
      var positive' := positive || (digits < 17 && f[0] != 0x30);
      FractionDigitsTaken(f[1..], post, positive', if digits < 17 && positive' then digits + 1 else digits,
        if digits < 17 then exponent - 1 else exponent);
    }
  }

  /** How far the digits of a fraction that count shift the decimal point. */
  function Shift(i: Integer, fraction: Text): (r: nat)
    requires AllDigits(fraction)
    ensures r <= |fraction|
  {
    if fraction == [] then 0
    else
      var f := FractionPart(i, [0x2E] + fraction);
      assert ([0x2E] + fraction)[1..] == fraction;
      -f.value.value
  }

  lemma FractionTaken(i: Integer, fraction: Text, x: Text)
    requires AllDigits(fraction)
    requires if fraction == [] then Peek(x) != 0x2E else !IsDigit(Peek(x))
    ensures FractionPart(i, FractionText(fraction) + x)
      == Good(if fraction == [] then None else Some(0 - Shift(i, fraction) as int), x)
  {
    var s := FractionText(fraction) + x;
    if fraction == [] {
      assert s == x;
    } else {
      var t: Text := [0x2E] + fraction;
      assert s[1..] == fraction + x && t[1..] == fraction;
      if i.width == Big {
        FractionDigitsTaken(fraction, x, true, i.digits, 0);
      } else {
        SignificandTaken(fraction, x, i.value, i.digits, 0);
        var f := ScanSignificand(fraction, i.value, i.digits, 0);
        FractionDigitsTaken(f.rest, x, f.significand != 0, f.digits, f.exponent);
      }
    }
  }

  lemma {:induction false} NegativeTaken(ds: Text, post: Text, exp: nat, maxExp: int)
    requires AllDigits(ds) && !IsDigit(Peek(post))
    ensures ScanNegative(ds + post, exp, maxExp).1 == post
    decreases |ds|
  {
    if ds == [] {
      assert ds + post == post;
    } else {
      assert (ds + post)[1..] == ds[1..] + post;
      var exp' := exp * 10 + (ds[0] - 0x30);
      if exp' > maxExp {
        SkipAllDigits(ds[1..], post);
      } else {
        NegativeTaken(ds[1..], post, exp', maxExp);
      }
    }
  }

  lemma {:induction false} PositiveTaken(ds: Text, post: Text, exp: nat, maxExp: int)
    requires AllDigits(ds) && !IsDigit(Peek(post)) && exp <= maxExp
    ensures ScanPositive(ds + post, exp, maxExp) == if ValueOf(exp, ds) <= maxExp then Good(ValueOf(exp, ds), post) else Bad
    decreases |ds|
  {
    if ds == [] {
      assert ds + post == post;
    } else {
      assert (ds + post)[1..] == ds[1..] + post;
      var exp' := exp * 10 + (ds[0] - 0x30);
      if exp' > maxExp {
        ValueGrows(exp', ds[1..]);
      } else {
        PositiveTaken(ds[1..], post, exp', maxExp);
      }
    }
  }

  /** A positive exponent must not exceed 308 by more than the fraction shifts the point. */
  predicate ExponentHolds(o: Option<Exponent>, shift: nat)
    requires o.Some? ==> ExponentFits(o.value)
  {
    o.Some? && o.value.sign != [MINUS] ==> ValueOf(0, o.value.digits) <= 308 + shift
  }

  lemma ExponentSplits(x: Exponent, post: Text)
    requires ExponentFits(x)
    ensures var s := ExponentText(Some(x)) + post;
      && s[0] == x.e
      && s[1..] == x.sign + (x.digits + post)
      && (x.sign != [] ==> s[1..][0] == x.sign[0] && s[2..] == x.digits + post)
      && (x.digits + post)[1..] == x.digits[1..] + post
  {
    var s := ExponentText(Some(x)) + post;
    assert s[1..] == x.sign + (x.digits + post);
    assert x.sign != [] ==> |x.sign| == 1 && s[2..] == x.digits + post;
  }

  /** The digits of an exponent as `ExponentPart` finds them. */
  lemma ExponentDigits(x: Exponent, post: Text) returns (s: Text, t: Text)
    requires ExponentFits(x)
    ensures s == ExponentText(Some(x)) + post && (Peek(s) == 0x65 || Peek(s) == 0x45)
    ensures t == (if Peek(s[1..]) == 0x2B || Peek(s[1..]) == MINUS then s[2..] else s[1..])
    ensures t != [] && IsDigit(t[0]) && t[0] == x.digits[0] && t[1..] == x.digits[1..] + post
    ensures Peek(s[1..]) == MINUS <==> x.sign == [MINUS]
  {
    s, t := ExponentText(Some(x)) + post, x.digits + post;
    ExponentSplits(x, post);
    assert t[0] == x.digits[0];
    if x.sign == [] {
      assert s[1..] == t;
    }
  }

  lemma ExponentTaken(expFrac: int, o: Option<Exponent>, post: Text)
    requires o.Some? ==> ExponentFits(o.value) && !IsDigit(Peek(post))
    requires expFrac <= 0 && (o.None? ==> Peek(post) != 0x65 && Peek(post) != 0x45)
    ensures var r := ExponentPart(expFrac, ExponentText(o) + post);
      && (r.Good? <==> ExponentHolds(o, -expFrac))
      && (r.Good? ==> r.rest == post && (r.value.Some? <==> o.Some?))
  {
    if o.None? {
      assert [] + post == post;
    } else {
      var x := o.value;
      var s, t := ExponentDigits(x, post);
      if x.sign == [MINUS] {
        NegativeTaken(x.digits[1..], post, x.digits[0] - 0x30, Truncate(expFrac + 2147483639, 10));
      } else {
        PositiveTaken(x.digits[1..], post, x.digits[0] - 0x30, 308 - expFrac);
      }
    }
  }

  lemma {:induction false} SmallCountsAll(f: Text, i: nat, digits: nat, exponent: int)
    requires AllDigits(f) && ValueOf(i, f) <= 0x1F_FFFF_FFFF_FFFF
    ensures ScanSignificand(f, i, digits, exponent).rest == []
    ensures ScanSignificand(f, i, digits, exponent).exponent == exponent - |f|
    decreases |f|
  {
    if f != [] {
      var i' := i * 10 + (f[0] - 0x30);
      ValueGrows(i', f[1..]);
      SmallCountsAll(f[1..], i', if i' != 0 then digits + 1 else digits, exponent - 1);
    }
  }

  /** Every digit of a fraction counts as long as the digits make a number below 2^53. */
  lemma ShiftCountsAll(i: Integer, fraction: Text)
    requires AllDigits(fraction) && i.width != Big && ValueOf(i.value, fraction) <= 0x1F_FFFF_FFFF_FFFF
    ensures Shift(i, fraction) == |fraction|
  {
    if fraction != [] {
      assert ([0x2E] + fraction)[1..] == fraction;
      SmallCountsAll(fraction, i.value, i.digits, 0);
    }
  }

  /** What may follow a literal: nothing that would go on with it. */
  predicate Stops(l: Literal, c: Byte) {
    && ((l.whole == [0x30] && l.fraction == [] && l.exponent.None?) || !IsDigit(c))
    && (l.exponent.None? ==> c != 0x65 && c != 0x45)
    && (l.exponent.None? && l.fraction == [] ==> c != 0x2E)
  }

  lemma {:induction false} AccumulateTaken(ds: Text, post: Text, i: nat, limit: nat, top: nat)
    requires AllDigits(ds) && !IsDigit(Peek(post))
    ensures var r := Accumulate(ds, i, limit, top);
      && AllDigits(r.rest)
      && Accumulate(ds + post, i, limit, top) == r.(rest := r.rest + post)
      && (!r.full ==> r.rest == [])
    decreases |ds|
  {
    if ds == [] {
      assert ds + post == post && [] + post == post;
    } else {
      assert (ds + post)[1..] == ds[1..] + post;
      if !(i > limit || (i == limit && ds[0] - 0x30 > top)) {
        AccumulateTaken(ds[1..], post, i * 10 + (ds[0] - 0x30), limit, top);
      }
    }
  }

  /** The integer part of a literal, as the reader keeps it. */
  function Whole(minus: bool, whole: Text): Integer
    requires IsNatural(whole)
  {
    IntegerPartExact(minus, whole, []);
    assert whole + [] == whole;
    ScanInteger(minus, whole).value
  }

  lemma IntegerTaken(minus: bool, whole: Text, post: Text)
    requires IsNatural(whole) && (whole == [0x30] || !IsDigit(Peek(post)))
    ensures ScanInteger(minus, whole + post) == Good(Whole(minus, whole), post)
  {
    var s := whole + post;
    if whole[0] == 0x30 {
      assert s[1..] == post;
    } else {
      assert s[1..] == whole[1..] + post;
      AccumulateTaken(whole[1..], post, whole[0] - 0x30, Limit32(minus), LastDigit(minus));
      var a := Accumulate(whole[1..], whole[0] - 0x30, Limit32(minus), LastDigit(minus));
      if a.full {
        AccumulateTaken(a.rest, post, a.value, Limit64(minus), LastDigit(minus));
        var b := Accumulate(a.rest, a.value, Limit64(minus), LastDigit(minus));
        SkipAllDigits(b.rest, post);
      }
    }
  }

  /** An integer that 64 bits hold, written without fraction or exponent. */
  predicate IsIntegral(l: Literal)
    requires LiteralFits(l)
  {
    l.fraction == [] && l.exponent.None? && ValueOf(0, l.whole) <= Bound64(l.minus)
  }

  /** The exponent is not too big, and a number that is no 64-bit integer is one `double` can hold. */
  predicate Holds(cfg: Config, l: Literal)
    requires LiteralFits(l)
  {
    && ExponentHolds(l.exponent, Shift(Whole(l.minus, l.whole), l.fraction))
    && (!IsIntegral(l) ==> cfg.inRange(LiteralText(l)))
  }

  /** The narrowest integer kind that holds the number, or the literal itself for a `double`. */
  function SpelledEvent(l: Literal): Event
    requires LiteralFits(l)
  {
    var v: int := ValueOf(0, l.whole);
    if !IsIntegral(l) then Double(LiteralText(l))
    else if v <= Bound32(l.minus) then (if l.minus then Int(-v) else Uint(v))
    else (if l.minus then Int64(-v) else Uint64(v))
  }

  lemma WholeIs(l: Literal)
    requires LiteralFits(l)
    ensures var i := Whole(l.minus, l.whole);
      && (i.width != Big <==> ValueOf(0, l.whole) <= Bound64(l.minus))
      && (IsIntegral(l) ==> IntegerEvent(l.minus, i) == SpelledEvent(l))
  {
    IntegerPartExact(l.minus, l.whole, []);
    assert l.whole + [] == l.whole;
  }

  /** The parts of a literal followed by `post`, as the reader meets them. */
  lemma LiteralSplits(l: Literal, post: Text) returns (s: Text, s0: Text, s1: Text, s2: Text)
    requires LiteralFits(l)
    ensures s2 == ExponentText(l.exponent) + post
    ensures s1 == FractionText(l.fraction) + s2
    ensures s0 == l.whole + s1
    ensures s == LiteralText(l) + post && (Peek(s) == MINUS <==> l.minus) && s0 == (if l.minus then s[1..] else s)
    ensures s[..|s| - |post|] == LiteralText(l)
  {
    s2 := ExponentText(l.exponent) + post;
    s1 := FractionText(l.fraction) + s2;
    s0 := l.whole + s1;
    s := LiteralText(l) + post;
    Joins3(FractionText(l.fraction), ExponentText(l.exponent), post);
    Joins3(l.whole, FractionText(l.fraction) + ExponentText(l.exponent), post);
    Joins3(SignText(l.minus), l.whole + (FractionText(l.fraction) + ExponentText(l.exponent)), post);
    Unsigned(l.minus, s0);
  }

  lemma NextBytes(l: Literal, s1: Text, s2: Text, post: Text)
    requires LiteralFits(l) && Stops(l, Peek(post))
    requires s2 == ExponentText(l.exponent) + post && s1 == FractionText(l.fraction) + s2
    ensures Peek(s2) == (if l.exponent.Some? then l.exponent.value.e else Peek(post))
    ensures Peek(s1) == (if l.fraction != [] then 0x2E else Peek(s2))
  {
    if l.exponent.None? {
      assert s2 == post;
    }
    if l.fraction == [] {
      assert s1 == s2;
    }
  }

  /** What the three parts of a number make of the whole. */
  lemma PartsMake(cfg: Config, s: Text, i: Integer, s1: Text, frac: Option<int>, s2: Text, x: Scan<Option<int>>)
    requires ScanInteger(Peek(s) == MINUS, if Peek(s) == MINUS then s[1..] else s) == Good(i, s1)
    requires FractionPart(i, s1) == Good(frac, s2)
    requires x == ExponentPart(if frac.Some? then frac.value else 0, s2)
    ensures ScanNumber(cfg, s) ==
      if x.Bad? then Bad
      else if i.width != Big && frac.None? && x.value.None? then Good(IntegerEvent(Peek(s) == MINUS, i), x.rest)
      else if cfg.inRange(s[..|s| - |x.rest|]) then Good(Double(s[..|s| - |x.rest|]), x.rest)
      else Bad
  {
  }

  /** What follows each part of a literal does not go on with it. */
  lemma PartsStop(l: Literal, s1: Text, s2: Text, post: Text)
    requires LiteralFits(l) && Stops(l, Peek(post))
    requires s2 == ExponentText(l.exponent) + post && s1 == FractionText(l.fraction) + s2
    ensures l.whole == [0x30] || !IsDigit(Peek(s1))
    ensures if l.fraction == [] then Peek(s2) != 0x2E else !IsDigit(Peek(s2))
    ensures if l.exponent.Some? then !IsDigit(Peek(post)) else Peek(post) != 0x65 && Peek(post) != 0x45
  {
    NextBytes(l, s1, s2, post);
  }

  lemma FractionFinds(i: Integer, fraction: Text, s1: Text, s2: Text) returns (shift: nat, frac: Option<int>)
    requires AllDigits(fraction) && s1 == FractionText(fraction) + s2
    requires if fraction == [] then Peek(s2) != 0x2E else !IsDigit(Peek(s2))
    ensures shift == Shift(i, fraction) && FractionPart(i, s1) == Good(frac, s2)
    ensures frac == if fraction == [] then None else Some(0 - shift as int)
    ensures fraction == [] ==> shift == 0
  {
    shift := Shift(i, fraction);
    frac := if fraction == [] then None else Some(0 - shift as int);
    FractionTaken(i, fraction, s2);
  }

  lemma ExponentFinds(e: int, shift: nat, o: Option<Exponent>, s2: Text, post: Text) returns (x: Scan<Option<int>>)
    requires e == 0 - shift && (o.Some? ==> ExponentFits(o.value)) && s2 == ExponentText(o) + post
    requires if o.Some? then !IsDigit(Peek(post)) else Peek(post) != 0x65 && Peek(post) != 0x45
    ensures x == ExponentPart(e, s2)
    ensures x.Good? <==> ExponentHolds(o, shift)
    ensures x.Good? ==> x.rest == post && (x.value.Some? <==> o.Some?)
  {
    x := ExponentPart(e, s2);
    ExponentTaken(e, o, post);
  }

  /** The outcome of a number from those of its parts. */
  lemma Concludes(cfg: Config, l: Literal, i: Integer, shift: nat, r: Scan<Event>, x: Scan<Option<int>>, post: Text)
    requires LiteralFits(l) && i == Whole(l.minus, l.whole) && shift == Shift(i, l.fraction)
    requires x.Good? <==> ExponentHolds(l.exponent, shift)
    requires x.Good? ==> x.rest == post && (x.value.Some? <==> l.exponent.Some?)
    requires r == if x.Bad? then Bad
      else if i.width != Big && l.fraction == [] && x.value.None? then Good(IntegerEvent(l.minus, i), post)
      else if cfg.inRange(LiteralText(l)) then Good(Double(LiteralText(l)), post)
      else Bad
    ensures r == if Holds(cfg, l) then Good(SpelledEvent(l), post) else Bad
  {
    WholeIs(l);
  }

  lemma LiteralAt(cfg: Config, l: Literal, s: Text, s1: Text, s2: Text, post: Text)
    requires LiteralFits(l) && Stops(l, Peek(post))
    requires s2 == ExponentText(l.exponent) + post && s1 == FractionText(l.fraction) + s2
    requires (Peek(s) == MINUS <==> l.minus) && (if l.minus then s[1..] else s) == l.whole + s1
    requires |post| <= |s| && s[..|s| - |post|] == LiteralText(l)
    ensures ScanNumber(cfg, s) == if Holds(cfg, l) then Good(SpelledEvent(l), post) else Bad
  {
    PartsStop(l, s1, s2, post);
    IntegerTaken(l.minus, l.whole, s1);
    var i := Whole(l.minus, l.whole);
    var shift, frac := FractionFinds(i, l.fraction, s1, s2);
    var x := ExponentFinds(if frac.Some? then frac.value else 0, shift, l.exponent, s2, post);
    PartsMake(cfg, s, i, s1, frac, s2, x);
    Concludes(cfg, l, i, shift, ScanNumber(cfg, s), x, post);
  }

  /** A literal of the standard is read whole exactly when it holds, as the event it spells. */
  lemma LiteralReads(cfg: Config, l: Literal, post: Text)
    requires LiteralFits(l) && Stops(l, Peek(post))
    ensures ScanNumber(cfg, LiteralText(l) + post) == if Holds(cfg, l) then Good(SpelledEvent(l), post) else Bad
  {
    var s, s0, s1, s2 := LiteralSplits(l, post);
    LiteralAt(cfg, l, s, s1, s2, post);
  }

  // ---------------------------------------------------------------- sound

  lemma {:induction false} RunOf(s: Text) returns (ds: Text)
    ensures AllDigits(ds) && s == ds + SkipDigits(s) && !IsDigit(Peek(SkipDigits(s)))
    ensures ds != [] <==> IsDigit(Peek(s))
  {
    if IsDigit(Peek(s)) {
      var tail := RunOf(s[1..]);
      ds := [s[0]] + tail;
      assert s == [s[0]] + s[1..];
      Joins3([s[0]], tail, SkipDigits(s[1..]));
    } else {
      ds := [];
    }
  }

  lemma WholeOf(minus: bool, s: Text) returns (whole: Text, rest: Text)
    requires ScanInteger(minus, s).Good?
    ensures IsNatural(whole) && s == whole + rest && (whole == [0x30] || !IsDigit(Peek(rest)))
    ensures ScanInteger(minus, s) == Good(Whole(minus, whole), rest)
  {
    if Peek(s) == 0x30 {
      whole, rest := [0x30], s[1..];
    } else {
      whole := RunOf(s);
      rest := SkipDigits(s);
      assert whole[0] == s[0];
    }
    IntegerTaken(minus, whole, rest);
  }

  lemma FractionOf(i: Integer, s: Text) returns (fraction: Text, rest: Text)
    requires FractionPart(i, s).Good?
    ensures AllDigits(fraction) && s == FractionText(fraction) + rest
    ensures if fraction == [] then Peek(rest) != 0x2E else !IsDigit(Peek(rest))
  {
    if Peek(s) == 0x2E {
      fraction := RunOf(s[1..]);
      rest := SkipDigits(s[1..]);
      assert s == [0x2E] + s[1..];
    } else {
      fraction, rest := [], s;
    }
  }

  lemma ExponentOf(expFrac: int, s: Text) returns (o: Option<Exponent>, rest: Text)
    requires ExponentPart(expFrac, s).Good?
    ensures (o.Some? ==> ExponentFits(o.value)) && s == ExponentText(o) + rest
    ensures if o.Some? then !IsDigit(Peek(rest)) else Peek(rest) != 0x65 && Peek(rest) != 0x45
  {
    if Peek(s) != 0x65 && Peek(s) != 0x45 {
      o, rest := None, s;
    } else {
      var signed := Peek(s[1..]) == 0x2B || Peek(s[1..]) == MINUS;
      var sign := if signed then [s[1]] else [];
      var t := if signed then s[2..] else s[1..];
      var digits := RunOf(t);
      o, rest := Some(Exponent(s[0], sign, digits)), SkipDigits(t);
      assert s == [s[0]] + (sign + t);
      Joins3(sign, digits, rest);
      Joins3([s[0]], sign + digits, rest);
    }
  }

  lemma PartsGood(cfg: Config, s: Text) returns (i: Integer, s1: Text, frac: Option<int>, s2: Text)
    requires ScanNumber(cfg, s).Good?
    ensures ScanInteger(Peek(s) == MINUS, if Peek(s) == MINUS then s[1..] else s) == Good(i, s1)
    ensures FractionPart(i, s1) == Good(frac, s2)
    ensures ExponentPart(if frac.Some? then frac.value else 0, s2).Good?
  {
    var minus := Peek(s) == MINUS;
    var a := ScanInteger(minus, if minus then s[1..] else s);
    i, s1 := a.value, a.rest;
    var f := FractionPart(i, s1);
    frac, s2 := f.value, f.rest;
  }

  lemma PartsJoin(l: Literal, s: Text, s0: Text, s1: Text, s2: Text, rest: Text)
    requires LiteralFits(l)
    requires s == SignText(l.minus) + s0 && s0 == l.whole + s1 && s1 == FractionText(l.fraction) + s2
    requires s2 == ExponentText(l.exponent) + rest
    ensures s == LiteralText(l) + rest
  {
    var s', s0', s1', s2' := LiteralSplits(l, rest);
    Joins3(SignText(l.minus), l.whole + (FractionText(l.fraction) + ExponentText(l.exponent)), rest);
    Joins3(l.whole, FractionText(l.fraction) + ExponentText(l.exponent), rest);
    Joins3(FractionText(l.fraction), ExponentText(l.exponent), rest);
  }

  lemma FractionFound(i: Integer, s: Text, frac: Option<int>, rest: Text) returns (fraction: Text)
    requires FractionPart(i, s) == Good(frac, rest)
    ensures AllDigits(fraction) && s == FractionText(fraction) + rest
    ensures if fraction == [] then Peek(rest) != 0x2E else !IsDigit(Peek(rest))
  {
    var rest';
    fraction, rest' := FractionOf(i, s);
    FractionTaken(i, fraction, rest');
  }

  lemma LiteralOf(cfg: Config, s: Text) returns (l: Literal, rest: Text)
    requires ScanNumber(cfg, s).Good?
    ensures LiteralFits(l) && Stops(l, Peek(rest)) && s == LiteralText(l) + rest
  {
    var i, s1, frac, s2 := PartsGood(cfg, s);
    var minus := Peek(s) == MINUS;
    var s0 := if minus then s[1..] else s;
    var whole, s1' := WholeOf(minus, s0);
    var fraction := FractionFound(i, s1, frac, s2);
    var exponent;
    exponent, rest := ExponentOf(if frac.Some? then frac.value else 0, s2);
    l := Literal(minus, whole, fraction, exponent);
    assert s == SignText(minus) + s0;
    PartsJoin(l, s, s0, s1, s2, rest);
    StopsHere(l, s1, s2, rest);
  }

  lemma StopsHere(l: Literal, s1: Text, s2: Text, rest: Text)
    requires LiteralFits(l) && s2 == ExponentText(l.exponent) + rest && s1 == FractionText(l.fraction) + s2
    requires l.whole == [0x30] || !IsDigit(Peek(s1))
    requires if l.fraction == [] then Peek(s2) != 0x2E else !IsDigit(Peek(s2))
    requires if l.exponent.Some? then !IsDigit(Peek(rest)) else Peek(rest) != 0x65 && Peek(rest) != 0x45
    ensures Stops(l, Peek(rest))
  {
    assert l.exponent.None? ==> s2 == rest;
    assert l.fraction == [] ==> s1 == s2;
  }

  /** `s` is a literal that holds and spells `e`, and `r`, which does not go on with it. */
  ghost predicate SpellsNumber(cfg: Config, s: Text, e: Event, r: Text) {
    exists l :: LiteralFits(l) && Stops(l, Peek(r)) && s == LiteralText(l) + r && Holds(cfg, l) && e == SpelledEvent(l)
  }

  /** A number is read exactly when a literal of the standard that holds is there, and as what it spells. */
  lemma NumberExactly(cfg: Config, s: Text, e: Event, r: Text)
    ensures ScanNumber(cfg, s) == Good(e, r) <==> SpellsNumber(cfg, s, e, r)
  {
    if ScanNumber(cfg, s) == Good(e, r) {
      var l, rest := LiteralOf(cfg, s);
      LiteralReads(cfg, l, rest);
    }
    if SpellsNumber(cfg, s, e, r) {
      var l :| LiteralFits(l) && Stops(l, Peek(r)) && s == LiteralText(l) + r && Holds(cfg, l) && e == SpelledEvent(l);
      LiteralReads(cfg, l, r);
    }
  }

  /** A zero with an exponent above 308 is refused as too big, though it stands for 0. */
  lemma ZeroTooBig(cfg: Config, ds: Text)
    requires ds != [] && AllDigits(ds) && ValueOf(0, ds) > 308
    ensures ScanNumber(cfg, [0x30, 0x65] + ds) == Bad && Amount([0x30, 0x65] + ds) == 0.0
  {
    var l := Literal(false, [0x30], [], Some(Exponent(0x65, [], ds)));
    var s := LiteralText(l);
    assert s == [0x30, 0x65] + ds && s + [] == s;
    LiteralReads(cfg, l, []);
    assert ValueOf(0, [0x30]) == 0 && ValueOf(0, []) == 0;
    LiteralAmount(l, 0.0, 1.0, PowerOfTen(ValueOf(0, ds)));
  }
}
