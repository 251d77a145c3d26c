/** The number a literal stands for. */
module Decimals {
  import opened Bytes
  import opened Lexing
  import opened Numbers

  function PowerOfTen(k: nat): (r: real)
    ensures r >= 1.0
  {
    if k == 0 then 1.0 else 10.0 * PowerOfTen(k - 1)
  }

  function Scaled(n: int, exponent: int): real {
    if exponent >= 0 then n as real * PowerOfTen(exponent) else n as real / PowerOfTen(-exponent)
  }

  /** `i` followed by the digits the text begins with, and what is left. */
  function TakeDigits(s: Text, i: nat): (r: (nat, Text))
    ensures |r.1| <= |s|
    decreases |s|
  {
    if !IsDigit(Peek(s)) then (i, s) else TakeDigits(s[1..], i * 10 + (s[0] - 0x30))
  }

  function ExponentAmount(s: Text): int {
    if Peek(s) != 0x65 && Peek(s) != 0x45 then 0
    else
      var sign := Peek(s[1..]);
      var n: int := TakeDigits(if sign == 0x2B || sign == MINUS then s[2..] else s[1..], 0).0;
      if sign == MINUS then -n else n
  }

  /** The decimal number that is written, before any rounding. */
  function Amount(literal: Text): real {
    var minus := Peek(literal) == MINUS;
    var (whole, s) := TakeDigits(if minus then literal[1..] else literal, 0);
    var (n: int, t) := if Peek(s) == 0x2E then TakeDigits(s[1..], whole) else (whole, s);
    var fraction: int := if Peek(s) == 0x2E then |s| - 1 - |t| else 0;
    Scaled(if minus then -n else n, ExponentAmount(t) - fraction)
  }

  /** A number without fraction or exponent part. */
  predicate IsIntegerLiteral(literal: Text) {
    IsNatural(if Peek(literal) == MINUS then literal[1..] else literal)
  }

  lemma {:induction false} TakesAll(ds: Text, post: Text, i: nat)
    requires AllDigits(ds) && !IsDigit(Peek(post))
    ensures TakeDigits(ds + post, i) == (ValueOf(i, ds), post)
    decreases |ds|
  {
    if ds == [] {
      assert ds + post == post;
    } else {
      assert (ds + post)[1..] == ds[1..] + post;
      TakesAll(ds[1..], post, i * 10 + (ds[0] - 0x30));
    }
  }

  /** An integer literal, however long, stands for its value. */
  lemma IntegerAmount(minus: bool, ds: Text)
    requires IsNatural(ds)
    ensures var n: int := ValueOf(0, ds);
      Amount((if minus then [MINUS] else []) + ds) == (if minus then -n else n) as real
  {
    var literal := (if minus then [MINUS] else []) + ds;
    assert (if minus then literal[1..] else literal) == ds + [];
    TakesAll(ds, [], 0);
  }

  /** A fraction scales what is before and after the point together. */
  lemma FractionAmount(whole: Text, fraction: Text)
    requires IsNatural(whole) && AllDigits(fraction)
    ensures Amount(whole + ([0x2E] + fraction)) == ValueOf(ValueOf(0, whole), fraction) as real / PowerOfTen(|fraction|)
  {
    TakesAll(whole, [0x2E] + fraction, 0);
    assert ([0x2E] + fraction)[1..] == fraction + [];
    TakesAll(fraction, [], ValueOf(0, whole));
  }
}
