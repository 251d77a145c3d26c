/** Scanning of white space, comments, strings and numbers, as functions of the unread input. */
module Lexing {
  import opened Bytes
  import opened Events
  import Unicode

  datatype Scan<+T> = Bad | Good(value: T, rest: Text)

  // ------------------------------------------------ white space, comments

  predicate IsSpace(c: Byte) {
    c == SPACE || c == LF || c == CR || c == TAB
  }

  function SkipSpace(s: Text): (r: Text)
    ensures |r| <= |s|
  {
    if s != [] && IsSpace(s[0]) then SkipSpace(s[1..]) else s
  }

  /** The input after the closing of a block comment, `s` being inside it. */
  function BlockEnd(s: Text): (r: Scan<()>)
    ensures r.Good? ==> |r.rest| < |s|
  {
    if Peek(s) == 0 then Bad
    else if s[0] == STAR && Peek(s[1..]) == SLASH then Good((), s[2..])
    else BlockEnd(s[1..])
  }

  function LineEnd(s: Text): (r: Text)
    ensures |r| <= |s|
  {
    if Peek(s) == 0 then s else if s[0] == LF then s[1..] else LineEnd(s[1..])
  }

  /** Comments, each followed by white space; an unclosed or malformed one is an error. */
  function SkipComments(s: Text): (r: Scan<()>)
    ensures r.Good? ==> |r.rest| <= |s|
    decreases |s|
  {
    if Peek(s) != SLASH then Good((), s)
    else if Peek(s[1..]) == STAR then
      match BlockEnd(s[2..])
      case Bad => Bad
      case Good(_, r) => SkipComments(SkipSpace(r))
    else if Peek(s[1..]) == SLASH then SkipComments(SkipSpace(LineEnd(s[2..])))
    else Bad
  }

  function Skip(cfg: Config, s: Text): (r: Scan<()>)
    ensures r.Good? ==> |r.rest| <= |s|
  {
    if cfg.comments then SkipComments(SkipSpace(s)) else Good((), SkipSpace(s))
  }

  // -------------------------------------------------------------- strings

  /** The character a two-character escape stands for, 0 when there is none. */
  function Unescape(e: Byte): Byte {
    match e
    case 0x22 => 0x22
    case 0x2F => 0x2F
    case 0x5C => 0x5C
    case 0x62 => 0x08
    case 0x66 => 0x0C
    case 0x6E => 0x0A
    case 0x72 => 0x0D
    case 0x74 => 0x09
    case _ => 0
  }

  function HexDigit(c: Byte): (d: int)
    ensures -1 <= d < 16
  {
    if 0x30 <= c <= 0x39 then c - 0x30
    else if 0x41 <= c <= 0x46 then c - 0x41 + 10
    else if 0x61 <= c <= 0x66 then c - 0x61 + 10
    else -1
  }

  /** Four hexadecimal digits. */
  function Hex4(s: Text): (r: Scan<nat>)
    ensures r.Good? ==> r.value < 0x1_0000 && |s| >= 4 && r.rest == s[4..]
  {
    if |s| < 4 then Bad
    else
      var (a, b, c, d) := (HexDigit(s[0]), HexDigit(s[1]), HexDigit(s[2]), HexDigit(s[3]));
      if a < 0 || b < 0 || c < 0 || d < 0 then Bad
      else Good(((a * 16 + b) * 16 + c) * 16 + d, s[4..])
  }

  /** The code point of an escape, `s` being after its `\u`; a lead surrogate needs a trail. */
  function UnicodeEscape(s: Text): (r: Scan<nat>)
    ensures r.Good? ==> r.value <= 0x10FFFF && |r.rest| < |s|
  {
    match Hex4(s)
    case Bad => Bad
    case Good(lead, s1) =>
      if lead < 0xD800 || lead > 0xDBFF then Good(lead, s1)
      else if Peek(s1) != BACKSLASH || Peek(s1[1..]) != 0x75 then Bad
      else
        match Hex4(s1[2..])
        case Bad => Bad
        case Good(trail, s2) =>
          if trail < 0xDC00 || trail > 0xDFFF then Bad
          else Good((lead - 0xD800) * 0x400 + (trail - 0xDC00) + 0x10000, s2)
  }

  /** The rest of a string after its opening quote; `acc` is what is decoded so far. */
  function ScanString(cfg: Config, s: Text, acc: Text): (r: Scan<Text>)
    ensures r.Good? ==> |r.rest| < |s|
    decreases |s|
  {
    var c := Peek(s);
    if c == BACKSLASH then
      var e := Peek(s[1..]);
      if Unescape(e) != 0 then ScanString(cfg, s[2..], acc + [Unescape(e)])
      else if e == 0x75 then
        match UnicodeEscape(s[2..])
        case Bad => Bad
        case Good(cp, r) => ScanString(cfg, r, acc + Unicode.Encode(cp))
      else Bad
    else if c == QUOTE then Good(acc, s[1..])
    else if c < 0x20 then Bad
    else if cfg.validate then
      var d := Unicode.Decode(s);
      if d.ok && d.taken <= |s| then ScanString(cfg, s[d.taken..], acc + s[..d.taken]) else Bad
    else ScanString(cfg, s[1..], acc + [c])
  }

  // -------------------------------------------------------------- numbers

  predicate IsDigit(c: Byte) {
    0x30 <= c <= 0x39
  }

  function SkipDigits(s: Text): (r: Text)
    ensures |r| <= |s|
  {
    if IsDigit(Peek(s)) then SkipDigits(s[1..]) else s
  }

  /** An integer accumulated until the next digit would exceed `limit * 10 + top`. */
  datatype Run = Run(value: nat, full: bool, rest: Text)

  function Accumulate(s: Text, i: nat, limit: nat, top: nat): (r: Run)
    ensures |r.rest| <= |s|
    decreases |s|
  {
    if !IsDigit(Peek(s)) then Run(i, false, s)
    else if i > limit || (i == limit && s[0] - 0x30 > top) then Run(i, true, s)
    else Accumulate(s[1..], i * 10 + (s[0] - 0x30), limit, top)
  }

  function Limit32(minus: bool): nat { if minus then 214748364 else 429496729 }

  function Limit64(minus: bool): nat { if minus then 0x0CCC_CCCC_CCCC_CCCC else 0x1999_9999_9999_9999 }

  function LastDigit(minus: bool): nat { if minus then 8 else 5 }

  datatype Width = Narrow | Wide | Big

  /** The integer part: its width class, its value unless it is Big, and the digits it counted. */
  datatype Integer = Integer(width: Width, value: nat, digits: nat)

  function ScanInteger(minus: bool, s: Text): (r: Scan<Integer>)
    ensures r.Good? ==> |r.rest| < |s|
  {
    if Peek(s) == 0x30 then Good(Integer(Narrow, 0, 0), s[1..])
    else if IsDigit(Peek(s)) then
      var a := Accumulate(s[1..], s[0] - 0x30, Limit32(minus), LastDigit(minus));
      if !a.full then Good(Integer(Narrow, a.value, |s| - 1 - |a.rest|), a.rest)
      else
        var b := Accumulate(a.rest, a.value, Limit64(minus), LastDigit(minus));
        if !b.full then Good(Integer(Wide, b.value, |s| - 1 - |b.rest|), b.rest)
        else Good(Integer(Big, b.value, |s| - 1 - |b.rest|), SkipDigits(b.rest))
    else Bad
  }

  /** Fraction digits kept in a 64-bit significand, then in a double, then only counted. */
  datatype Fraction = Fraction(significand: nat, digits: nat, exponent: int, rest: Text)

  function ScanSignificand(s: Text, i: nat, digits: nat, exponent: int): (r: Fraction)
    ensures |r.rest| <= |s| && r.exponent - |r.rest| == exponent - |s|
    decreases |s|
  {
    if !IsDigit(Peek(s)) || i > 0x1F_FFFF_FFFF_FFFF then Fraction(i, digits, exponent, s)
    else
      var i' := i * 10 + (s[0] - 0x30);
      ScanSignificand(s[1..], i', if i' != 0 then digits + 1 else digits, exponent - 1)
  }

  function ScanFraction(s: Text, positive: bool, digits: nat, exponent: int): (r: (int, Text))
    ensures |r.1| <= |s| && exponent - (|s| - |r.1|) <= r.0 <= exponent
    decreases |s|
  {
    if !IsDigit(Peek(s)) then (exponent, s)
    else if digits < 17 then
      var positive' := positive || s[0] != 0x30;
      ScanFraction(s[1..], positive', if positive' then digits + 1 else digits, exponent - 1)
    else ScanFraction(s[1..], positive, digits, exponent)
  }

  /** The exponent digits of a negative exponent: past `maxExp` they are read and dropped. */
  function ScanNegative(s: Text, exp: nat, maxExp: int): (r: (nat, Text))
    ensures |r.1| <= |s|
    ensures r.0 == exp || r.0 <= 10 * maxExp + 9 || r.0 <= 10 * exp + 9
    decreases |s|
  {
    if !IsDigit(Peek(s)) then (exp, s)
    else
      var exp' := exp * 10 + (s[0] - 0x30);
      if exp' > maxExp then (exp', SkipDigits(s[1..])) else ScanNegative(s[1..], exp', maxExp)
  }

  /** The exponent digits of a positive exponent: past `maxExp` the number is too big. */
  function ScanPositive(s: Text, exp: nat, maxExp: int): (r: Scan<nat>)
    ensures r.Good? ==> |r.rest| <= |s| && (r.value == exp || r.value <= maxExp)
    decreases |s|
  {
    if !IsDigit(Peek(s)) then Good(exp, s)
    else
      var exp' := exp * 10 + (s[0] - 0x30);
      if exp' > maxExp then Bad else ScanPositive(s[1..], exp', maxExp)
  }

  /** Division of `int`, which truncates toward zero. */
  function Truncate(a: int, b: nat): int
    requires b > 0
  {
    if a >= 0 then a / b else -(-a / b)
  }

  /** The power of ten the fraction digits kept call for, None without a decimal point. */
  function FractionPart(i: Integer, s: Text): (r: Scan<Option<int>>)
    ensures r.Good? ==> |r.rest| <= |s|
  {
    if Peek(s) != 0x2E then Good(None, s)
    else if !IsDigit(Peek(s[1..])) then Bad
    else if i.width == Big then
      var (exponent, rest) := ScanFraction(s[1..], true, i.digits, 0);
      Good(Some(exponent), rest)
    else
      var f := ScanSignificand(s[1..], i.value, i.digits, 0);
      var (exponent, rest) := ScanFraction(f.rest, f.significand != 0, f.digits, f.exponent);
      Good(Some(exponent), rest)
  }

  /** The exponent, None without an `e`. */
  function ExponentPart(expFrac: int, s: Text): (r: Scan<Option<int>>)
    ensures r.Good? ==> |r.rest| <= |s|
  {
    if Peek(s) != 0x65 && Peek(s) != 0x45 then Good(None, s)
    else
      var sign := Peek(s[1..]);
      var t := if sign == 0x2B || sign == MINUS then s[2..] else s[1..];
      if !IsDigit(Peek(t)) then Bad
      else if sign == MINUS then
        var (exp: int, rest) := ScanNegative(t[1..], t[0] - 0x30, Truncate(expFrac + 2147483639, 10));
        Good(Some(-exp), rest)
      else
        match ScanPositive(t[1..], t[0] - 0x30, 308 - expFrac)
        case Bad => Bad
        case Good(exp, rest) => Good(Some(exp), rest)
  }

  function IntegerEvent(minus: bool, i: Integer): Event {
    var n: int := i.value;
    if i.width == Wide then (if minus then Int64(-n) else Uint64(n))
    else (if minus then Int(-n) else Uint(n))
  }

  function ScanNumber(cfg: Config, s: Text): (r: Scan<Event>)
    ensures r.Good? ==> |r.rest| < |s|
  {
    var minus := Peek(s) == MINUS;
    match ScanInteger(minus, if minus then s[1..] else s)
    case Bad => Bad
    case Good(i, s1) =>
      match FractionPart(i, s1)
      case Bad => Bad
      case Good(frac, s2) =>
        match ExponentPart(if frac.Some? then frac.value else 0, s2)
        case Bad => Bad
        case Good(exp, s3) =>
          if i.width != Big && frac.None? && exp.None? then Good(IntegerEvent(minus, i), s3)
          else
            var literal := s[..|s| - |s3|];
            if cfg.inRange(literal) then Good(Double(literal), s3) else Bad
  }

  // -------------------------------------------------- literals and scalars

  const NULL_TAIL: Text := [0x75, 0x6C, 0x6C]
  const TRUE_TAIL: Text := [0x72, 0x75, 0x65]
  const FALSE_TAIL: Text := [0x61, 0x6C, 0x73, 0x65]

  function ScanLiteral(s: Text, tail: Text, e: Event): (r: Scan<Event>)
    ensures r.Good? ==> |r.rest| < |s|
  {
    if s != [] && tail <= s[1..] then Good(e, s[1 + |tail|..]) else Bad
  }

  /** Any value that is not an object or an array: one event, or an error. */
  function ScanScalar(cfg: Config, s: Text): (r: Scan<Event>)
    ensures r.Good? ==> |r.rest| < |s|
  {
    match Peek(s)
    case 0x6E => ScanLiteral(s, NULL_TAIL, Null)
    case 0x74 => ScanLiteral(s, TRUE_TAIL, Bool(true))
    case 0x66 => ScanLiteral(s, FALSE_TAIL, Bool(false))
    case 0x22 =>
      (match ScanString(cfg, s[1..], [])
       case Bad => Bad
       case Good(str, r) => Good(String(str), r))
    case _ => ScanNumber(cfg, s)
  }
}
