/** The UTF-8 codec, exact against RFC 3629. */
module Unicode {
  import opened Bytes
  import opened Sequences

  /** A Unicode scalar value: any code point that is not a surrogate. */
  predicate IsScalar(c: int) {
    0 <= c < 0xD800 || 0xE000 <= c <= 0x10FFFF
  }

  type Scalar = c: int | 0 <= c < 0xD800 || 0xE000 <= c <= 0x10FFFF

  /** Outcome of taking one encoded code point off a stream. */
  datatype Decoded = Decoded(ok: bool, codepoint: nat, taken: nat)

  // ---------------------------------------------------------------- UTF-8

  /** Puts one code point, which the source asserts to be at most U+10FFFF. */
  function Encode(c: int): (r: Text)
    requires 0 <= c <= 0x10FFFF
    ensures 1 <= |r| <= 4
  {
    if c <= 0x7F then [c]
    else if c <= 0x7FF then [0xC0 + c / 64, 0x80 + c % 64]
    else if c <= 0xFFFF then [0xE0 + c / 4096, 0x80 + c / 64 % 64, 0x80 + c % 64]
    else [0xF0 + c / 262144, 0x80 + c / 4096 % 64, 0x80 + c / 64 % 64, 0x80 + c % 64]
  }

  /** Byte classes; 0x10, 0x20 and 0x40 are bits so that one mask tests several. */
  function GetRange(c: Byte): nat {
    if c < 0x80 then 0
    else if c < 0x90 then 0x10
    else if c < 0xA0 then 0x40
    else if c < 0xC0 then 0x20
    else if c < 0xC2 then 8
    else if c < 0xE0 then 2
    else if c == 0xE0 then 10
    else if c < 0xED then 3
    else if c == 0xED then 4
    else if c < 0xF0 then 3
    else if c == 0xF0 then 11
    else if c < 0xF4 then 6
    else if c == 0xF4 then 5
    else 8
  }

  /** `GetRange(c) & mask != 0`, where only the bits 0x10, 0x20 and 0x40 can meet a mask. */
  predicate InMask(c: Byte, mask: nat) {
    match GetRange(c)
    case 0x10 => mask / 0x10 % 2 == 1
    case 0x20 => mask / 0x20 % 2 == 1
    case 0x40 => mask / 0x40 % 2 == 1
    case _ => false
  }

  /** Takes trailing byte `i`, tests it against `mask` and shifts its low bits in. */
  function Tail(s: Text, i: nat, cp: nat, mask: nat): (bool, nat) {
    (InMask(At(s, i), mask), cp * 64 + At(s, i) % 64)
  }

  function Two(s: Text, lead: nat, mask: nat): Decoded {
    var (a, cp) := Tail(s, 1, lead, mask);
    Decoded(a, cp, 2)
  }

  function Three(s: Text, lead: nat, mask: nat): Decoded {
    var (a, cp) := Tail(s, 1, lead, mask);
    var (b, cp') := Tail(s, 2, cp, 0x70);
    Decoded(a && b, cp', 3)
  }

  function Four(s: Text, lead: nat, mask: nat): Decoded {
    var (a, cp) := Tail(s, 1, lead, mask);
    var (b, cp') := Tail(s, 2, cp, 0x70);
    var (c, cp'') := Tail(s, 3, cp', 0x70);
    Decoded(a && b && c, cp'', 4)
  }

  /** The lead byte decides how many bytes follow, and what the first of them may be. */
  function Decode(s: Text): Decoded {
    var c := At(s, 0);
    var t := GetRange(c);
    if c < 0x80 then Decoded(true, c, 1)
    else if t == 2 then Two(s, c % 64, 0x70)
    else if t == 3 then Three(s, c % 32, 0x70)
    else if t == 4 then Three(s, c % 16, 0x50)
    else if t == 5 then Four(s, c % 8, 0x10)
    else if t == 6 then Four(s, c % 4, 0x70)
    else if t == 10 then Three(s, 0, 0x20)
    else if t == 11 then Four(s, 0, 0x60)
    else Decoded(false, 0, 1)
  }

  // UTF8-1, UTF8-2, UTF8-3 and UTF8-4 of RFC 3629 section 4.

  predicate IsTail(b: Byte) {
    0x80 <= b <= 0xBF
  }

  predicate IsOne(a: Byte) {
    a <= 0x7F
  }

  predicate IsTwo(a: Byte, b: Byte) {
    0xC2 <= a <= 0xDF && IsTail(b)
  }

  predicate IsThree(a: Byte, b: Byte, c: Byte) {
    && IsTail(c)
    && ( || (a == 0xE0 && 0xA0 <= b <= 0xBF)
         || (0xE1 <= a <= 0xEC && IsTail(b))
         || (a == 0xED && 0x80 <= b <= 0x9F)
         || (0xEE <= a <= 0xEF && IsTail(b)))
  }

  predicate IsFour(a: Byte, b: Byte, c: Byte, d: Byte) {
    && IsTail(c) && IsTail(d)
    && ( || (a == 0xF0 && 0x90 <= b <= 0xBF)
         || (0xF1 <= a <= 0xF3 && IsTail(b))
         || (a == 0xF4 && 0x80 <= b <= 0x8F))
  }

  /** UTF8-char of RFC 3629 section 4. */
  predicate IsUtf8Char(b: Text) {
    || (|b| == 1 && IsOne(b[0]))
    || (|b| == 2 && IsTwo(b[0], b[1]))
    || (|b| == 3 && IsThree(b[0], b[1], b[2]))
    || (|b| == 4 && IsFour(b[0], b[1], b[2], b[3]))
  }

  lemma MaskMeaning(c: Byte)
    ensures InMask(c, 0x70) <==> IsTail(c)
    ensures InMask(c, 0x50) <==> 0x80 <= c <= 0x9F
    ensures InMask(c, 0x10) <==> 0x80 <= c <= 0x8F
    ensures InMask(c, 0x20) <==> 0xA0 <= c <= 0xBF
    ensures InMask(c, 0x60) <==> 0x90 <= c <= 0xBF
  {
  }

  /** Length of the RFC 3629 character `s` begins with, 0 when there is none. */
  function Shape(s: Text): (n: nat)
    ensures n <= |s| && (n != 0 ==> IsUtf8Char(s[..n]))
  {
    if |s| >= 1 && IsOne(s[0]) then 1
    else if |s| >= 2 && IsTwo(s[0], s[1]) then 2
    else if |s| >= 3 && IsThree(s[0], s[1], s[2]) then 3
    else if |s| >= 4 && IsFour(s[0], s[1], s[2], s[3]) then 4
    else 0
  }

  /** The code point those bits spell, RFC 3629 section 3. */
  function Payload(s: Text): nat {
    var n := Shape(s);
    if n == 0 then 0
    else if n == 1 then s[0]
    else if n == 2 then
      var (a: int, b: int) := (s[0], s[1]);
      (a - 0xC0) * 64 + (b - 0x80)
    else if n == 3 then
      var (a: int, b: int, c: int) := (s[0], s[1], s[2]);
      ((a - 0xE0) * 64 + (b - 0x80)) * 64 + (c - 0x80)
    else
      var (a: int, b: int, c: int, d: int) := (s[0], s[1], s[2], s[3]);
      (((a - 0xF0) * 64 + (b - 0x80)) * 64 + (c - 0x80)) * 64 + (d - 0x80)
  }

  lemma TailBits(b: Byte)
    requires IsTail(b)
    ensures b % 64 == b - 0x80
  {
  }

  predicate DecodesExactly(s: Text) {
    && (Decode(s).ok <==> Shape(s) != 0)
    && (Decode(s).ok ==> Decode(s).taken == Shape(s) && Decode(s).codepoint == Payload(s))
  }

  lemma DecodeTwo(s: Text)
    requires s != [] && s[0] < 0xE0
    ensures DecodesExactly(s)
  {
    MaskMeaning(At(s, 1));
  }

  lemma DecodeThree(s: Text)
    requires s != [] && 0xE0 <= s[0] < 0xF0
    ensures DecodesExactly(s)
  {
    var a, b, c := s[0], At(s, 1), At(s, 2);
    var mask := if a == 0xE0 then 0x20 else if a == 0xED then 0x50 else 0x70;
    assert Decode(s) == Three(s, a - 0xE0, mask);
    MaskMeaning(b);
    MaskMeaning(c);
    if InMask(b, mask) && IsTail(c) {
      TailBits(b);
      TailBits(c);
    }
  }

  /** What three trailing bytes must be, and what they spell. */
  lemma FourMeans(s: Text, lead: nat, mask: nat)
    requires mask == 0x60 || mask == 0x10 || mask == 0x70
    ensures var r := Four(s, lead, mask);
      && (r.ok <==> InMask(At(s, 1), mask) && IsTail(At(s, 2)) && IsTail(At(s, 3)))
      && (r.ok ==> r.codepoint == ((lead * 64 + (At(s, 1) - 0x80)) * 64 + (At(s, 2) - 0x80)) * 64 + (At(s, 3) - 0x80))
      && r.taken == 4
  {
    MaskMeaning(At(s, 1));
    MaskMeaning(At(s, 2));
    MaskMeaning(At(s, 3));
    if Four(s, lead, mask).ok {
      TailBits(At(s, 1));
      TailBits(At(s, 2));
      TailBits(At(s, 3));
    }
  }

  function FourMask(a: Byte): nat {
    if a == 0xF0 then 0x60 else if a == 0xF4 then 0x10 else 0x70
  }

  lemma FourShape(s: Text)
    requires s != [] && 0xF0 <= s[0] <= 0xF4
    ensures Shape(s) == if InMask(At(s, 1), FourMask(s[0])) && IsTail(At(s, 2)) && IsTail(At(s, 3)) then 4 else 0
  {
    MaskMeaning(At(s, 1));
  }

  lemma DecodeFour(s: Text)
    requires s != [] && 0xF0 <= s[0] <= 0xF4
    ensures DecodesExactly(s)
  {
    assert Decode(s) == Four(s, s[0] - 0xF0, FourMask(s[0]));
    FourMeans(s, s[0] - 0xF0, FourMask(s[0]));
    FourShape(s);
  }

  /** Decoding succeeds exactly on an RFC 3629 character, takes it and spells its code point. */
  lemma DecodeExact(s: Text)
    requires s != []
    ensures Decode(s).ok <==> Shape(s) != 0
    ensures Decode(s).ok ==> Decode(s).taken == Shape(s) && Decode(s).codepoint == Payload(s)
  {
    if s[0] < 0xE0 {
      DecodeTwo(s);
    } else if s[0] < 0xF0 {
      DecodeThree(s);
    } else if s[0] <= 0xF4 {
      DecodeFour(s);
    }
  }

  // --------------------------------------------- one character both ways

  /** An encoded scalar is an RFC 3629 character, whatever follows it. */
  lemma EncodeShape(c: Scalar, rest: Text)
    ensures var s := Encode(c) + rest;
      Shape(s) == |Encode(c)| && Payload(s) == c
  {
    var s := Encode(c) + rest;
    if c <= 0x7F {
      assert s[0] == c;
    } else if c <= 0x7FF {
      assert s[0] == 0xC0 + c / 64 && s[1] == 0x80 + c % 64;
    } else if c <= 0xFFFF {
      EncodeThree(c, s);
    } else {
      EncodeFour(c, s);
    }
  }

  lemma EncodeThree(c: Scalar, s: Text)
    requires 0x800 <= c <= 0xFFFF && |s| >= 3
    requires s[0] == 0xE0 + c / 4096 && s[1] == 0x80 + c / 64 % 64 && s[2] == 0x80 + c % 64
    ensures Shape(s) == 3 && Payload(s) == c
  {
    var h := c / 64;
    assert c / 4096 == h / 64;
  }

  lemma EncodeFour(c: Scalar, s: Text)
    requires 0x10000 <= c && |s| >= 4
    requires s[0] == 0xF0 + c / 262144 && s[1] == 0x80 + c / 4096 % 64
    requires s[2] == 0x80 + c / 64 % 64 && s[3] == 0x80 + c % 64
    ensures Shape(s) == 4 && Payload(s) == c
  {
    var h := c / 64;
    var k := h / 64;
    assert c / 4096 == k && c / 262144 == k / 64;
  }

  /** The code point of an RFC 3629 character is a scalar and encodes to the same bytes. */
  lemma PayloadEncodes(s: Text)
    requires Shape(s) != 0
    ensures IsScalar(Payload(s)) && Encode(Payload(s)) == s[..Shape(s)]
  {
    var n, c := Shape(s), Payload(s);
    if n == 3 {
      PayloadThree(s);
    } else if n == 4 {
      PayloadFour(s);
    }
  }

  lemma PayloadThree(s: Text)
    requires Shape(s) == 3
    ensures var c := Payload(s); 0x800 <= c <= 0xFFFF && IsScalar(c) && Encode(c) == s[..3]
  {
    var c := Payload(s);
    var hi: int, mid: int, lo: int := s[0] - 0xE0, s[1] - 0x80, s[2] - 0x80;
    assert c == (hi * 64 + mid) * 64 + lo;
    assert c / 64 == hi * 64 + mid && c % 64 == lo;
    assert c / 4096 == hi && c / 64 % 64 == mid;
  }

  lemma PayloadFour(s: Text)
    requires Shape(s) == 4
    ensures var c := Payload(s); 0x10000 <= c <= 0x10FFFF && Encode(c) == s[..4]
  {
    var c := Payload(s);
    var top: int, hi: int, mid: int, lo: int := s[0] - 0xF0, s[1] - 0x80, s[2] - 0x80, s[3] - 0x80;
    assert c == ((top * 64 + hi) * 64 + mid) * 64 + lo;
    assert c / 64 == (top * 64 + hi) * 64 + mid && c % 64 == lo;
    assert c / 4096 == top * 64 + hi && c / 64 % 64 == mid;
    assert c / 262144 == top && c / 4096 % 64 == hi;
  }

  /** Decoding gives back an encoded scalar and takes exactly its bytes. */
  lemma DecodeEncode(c: Scalar, rest: Text)
    ensures Decode(Encode(c) + rest) == Decoded(true, c, |Encode(c)|)
  {
    EncodeShape(c, rest);
    DecodeExact(Encode(c) + rest);
  }

  /** A successful decode reads a scalar, and re-encoding it gives the bytes taken. */
  lemma EncodeDecode(s: Text)
    requires s != [] && Decode(s).ok
    ensures Decode(s).taken <= |s|
    ensures IsScalar(Decode(s).codepoint) && Encode(Decode(s).codepoint) == s[..Decode(s).taken]
  {
    DecodeExact(s);
    PayloadEncodes(s);
  }

  // -------------------------------------------------------- whole strings

  function EncodeAll(cs: seq<Scalar>): Text {
    if cs == [] then [] else Encode(cs[0]) + EncodeAll(cs[1..])
  }

  /** Decode again and again until the stream is used up. */
  function DecodeAll(s: Text): Option<seq<Scalar>>
    decreases |s|
  {
    if s == [] then Some([])
    else
      var d := Decode(s);
      if !d.ok then None
      else
        EncodeDecode(s);
        match DecodeAll(s[d.taken..])
        case None => None
        case Some(cs) => Some([d.codepoint] + cs)
  }

  /** Decoding a string is exact: it yields the one list of scalars that encodes to it. */
  lemma {:induction false} DecodeAllExact(s: Text, cs: seq<Scalar>)
    ensures DecodeAll(s) == Some(cs) <==> EncodeAll(cs) == s
    decreases |s|, |cs|
  {
    if s != [] && Decode(s).ok {
      var d := Decode(s);
      EncodeDecode(s);
      assert s == s[..d.taken] + s[d.taken..];
      if cs != [] {
        DecodeAllExact(s[d.taken..], cs[1..]);
        if DecodeAll(s) == Some(cs) {
          assert cs[1..] == DecodeAll(s[d.taken..]).value;
        }
      }
    }
    if cs != [] && EncodeAll(cs) == s {
      DecodeEncode(cs[0], EncodeAll(cs[1..]));
      assert s[|Encode(cs[0])|..] == EncodeAll(cs[1..]);
      assert [cs[0]] + cs[1..] == cs;
    }
  }

  predicate AllUtf8(bs: seq<Text>) {
    forall i :: 0 <= i < |bs| ==> IsUtf8Char(bs[i])
  }

  function Concat(bs: seq<Text>): Text {
    if bs == [] then [] else bs[0] + Concat(bs[1..])
  }

  /** A string is accepted exactly when it is a run of RFC 3629 characters. */
  lemma {:induction false} DecodeAllAccepts(s: Text)
    ensures DecodeAll(s).Some? <==> exists bs :: AllUtf8(bs) && Concat(bs) == s
  {
    if DecodeAll(s).Some? {
      var bs := Split(s);
      assert AllUtf8(bs) && Concat(bs) == s;
    }
    forall bs | AllUtf8(bs) && Concat(bs) == s
      ensures DecodeAll(s).Some?
    {
      RunDecodes(bs);
    }
  }

  lemma FirstChar(s: Text)
    requires s != [] && Decode(s).ok
    ensures 0 < Decode(s).taken <= |s| && IsUtf8Char(s[..Decode(s).taken])
  {
    EncodeDecode(s);
    DecodeExact(s);
  }

  lemma SplitStep(first: Text, rest: Text, tail: seq<Text>)
    requires IsUtf8Char(first) && AllUtf8(tail) && Concat(tail) == rest
    ensures AllUtf8([first] + tail) && Concat([first] + tail) == first + rest
  {
  }

  lemma RestDecodes(s: Text)
    requires s != [] && Decode(s).ok && DecodeAll(s).Some?
    ensures Decode(s).taken <= |s| && DecodeAll(s[Decode(s).taken..]).Some?
  {
    EncodeDecode(s);
  }

  /** The first character and the rest of a string that decodes. */
  lemma Unpacks(s: Text) returns (first: Text, rest: Text)
    requires s != [] && DecodeAll(s).Some?
    ensures IsUtf8Char(first) && DecodeAll(rest).Some? && first + rest == s && |rest| < |s|
  {
    FirstChar(s);
    RestDecodes(s);
    var n := Decode(s).taken;
    TakeDrop(s, n);
    first, rest := s[..n], s[n..];
  }

  lemma {:induction false} Split(s: Text) returns (bs: seq<Text>)
    requires DecodeAll(s).Some?
    ensures AllUtf8(bs) && Concat(bs) == s
    decreases |s|
  {
    if s == [] {
      bs := [];
    } else {
      var first, rest := Unpacks(s);
      bs := Split(rest);
      SplitStep(first, rest, bs);
      bs := [first] + bs;
    }
  }

  lemma {:induction false} RunDecodes(bs: seq<Text>)
    requires AllUtf8(bs)
    ensures DecodeAll(Concat(bs)).Some?
  {
    if bs != [] {
      var b, rest := bs[0], Concat(bs[1..]);
      RunDecodes(bs[1..]);
      ShapeOfChar(b, rest);
      DecodeExact(b + rest);
      assert (b + rest)[|b|..] == rest;
    }
  }

  lemma ShapeOfChar(b: Text, rest: Text)
    requires IsUtf8Char(b)
    ensures Shape(b + rest) == |b|
  {
    var s := b + rest;
    assert forall i :: 0 <= i < |b| ==> s[i] == b[i];
  }
}
