/** UTF-16, and transcoding whole strings between UTF-8 and UTF-16. */
module Transcoding {
  import opened Bytes
  import opened Unicode

  type Unit = u: int | 0 <= u < 0x10000

  function PeekUnit(s: seq<Unit>): Unit {
    if s == [] then 0 else s[0]
  }

  /** A supplementary code point becomes a lead and a trail surrogate, RFC 2781 section 2.1. */
  function Encode16(c: Scalar): (r: seq<Unit>)
    ensures 1 <= |r| <= 2
  {
    if c <= 0xFFFF then [c]
    else
      var v := c - 0x10000;
      [0xD800 + v / 1024, 0xDC00 + v % 1024]
  }

  /** Two surrogates carry ten bits each of a supplementary code point, the lead the upper ones. */
  lemma SurrogatesCarry(c: Scalar, lead: Unit, trail: Unit)
    requires c > 0xFFFF
    ensures Encode16(c) == [lead, trail] <==>
      0xD800 <= lead < 0xDC00 && 0xDC00 <= trail < 0xE000 && c == 0x10000 + (lead - 0xD800) * 0x400 + (trail - 0xDC00)
  {
    var v := c - 0x10000;
    if 0xD800 <= lead < 0xDC00 && 0xDC00 <= trail < 0xE000 && c == 0x10000 + (lead - 0xD800) * 0x400 + (trail - 0xDC00) {
      assert v / 1024 == lead - 0xD800 && v % 1024 == trail - 0xDC00;
    } else {
      assert v == v / 1024 * 1024 + v % 1024;
    }
  }

  function Decode16(s: seq<Unit>): Decoded {
    var c := PeekUnit(s);
    if c < 0xD800 || c > 0xDFFF then Decoded(true, c, 1)
    else if c <= 0xDBFF then
      var t := if |s| >= 2 then s[1] else 0;
      Decoded(0xDC00 <= t <= 0xDFFF, c % 1024 * 1024 + t % 1024 + 0x10000, 2)
    else Decoded(false, 0, 1)
  }

  lemma Decode16Encode16(c: Scalar, rest: seq<Unit>)
    ensures Decode16(Encode16(c) + rest) == Decoded(true, c, |Encode16(c)|)
  {
    if c > 0xFFFF {
      var v := c - 0x10000;
      var s := Encode16(c) + rest;
      assert s[0] == 0xD800 + v / 1024 && s[1] == 0xDC00 + v % 1024;
      assert s[0] % 1024 == v / 1024 && s[1] % 1024 == v % 1024;
    }
  }

  lemma Encode16Decode16(s: seq<Unit>)
    requires s != [] && Decode16(s).ok
    ensures Decode16(s).taken <= |s|
    ensures IsScalar(Decode16(s).codepoint)
    ensures Encode16(Decode16(s).codepoint) == s[..Decode16(s).taken]
  {
    var c: int := s[0];
    if 0xD800 <= c <= 0xDBFF {
      var t: int := s[1];
      var v := c % 1024 * 1024 + t % 1024;
      assert v / 1024 == c - 0xD800 && v % 1024 == t - 0xDC00;
    }
  }

  // ------------------------------------------------- the transcoding loops

  /** UTF-8 to UTF-16, one code point at a time; fails as soon as a decode fails. */
  function To16(s: Text): Option<seq<Unit>>
    decreases |s|
  {
    if s == [] then Some([])
    else
      var d := Decode(s);
      if !d.ok then None
      else
        EncodeDecode(s);
        match To16(s[d.taken..])
        case None => None
        case Some(u) => Some(Encode16(d.codepoint) + u)
  }

  /** UTF-16 to UTF-8. */
  function To8(u: seq<Unit>): Option<Text>
    decreases |u|
  {
    if u == [] then Some([])
    else
      var d := Decode16(u);
      if !d.ok then None
      else
        Encode16Decode16(u);
        match To8(u[d.taken..])
        case None => None
        case Some(s) => Some(Encode(d.codepoint) + s)
  }

  /** Each transcoding undoes the other, on every string the other accepts. */
  lemma TranscodeInverse(s: Text, u: seq<Unit>)
    ensures To16(s) == Some(u) <==> To8(u) == Some(s)
  {
    if To16(s) == Some(u) {
      To8AfterTo16(s);
    }
    if To8(u) == Some(s) {
      To16AfterTo8(u);
    }
  }

  /** One more code point in front. */
  lemma To8Step(c: Scalar, u: seq<Unit>, s: Text)
    requires To8(u) == Some(s)
    ensures To8(Encode16(c) + u) == Some(Encode(c) + s)
  {
    var v := Encode16(c) + u;
    Decode16Encode16(c, u);
    assert v[|Encode16(c)|..] == u;
  }

  lemma To16Step(c: Scalar, s: Text, u: seq<Unit>)
    requires To16(s) == Some(u)
    ensures To16(Encode(c) + s) == Some(Encode16(c) + u)
  {
    var t := Encode(c) + s;
    DecodeEncode(c, s);
    assert t[|Encode(c)|..] == s;
  }

  /** The first code point of a string that transcodes, and the rest. */
  lemma To16Unpacks(s: Text) returns (c: Scalar, rest: Text, u: seq<Unit>)
    requires s != [] && To16(s).Some?
    ensures |rest| < |s| && s == Encode(c) + rest && To16(rest) == Some(u) && To16(s) == Some(Encode16(c) + u)
  {
    EncodeDecode(s);
    c := Decode(s).codepoint;
    rest := s[Decode(s).taken..];
    u := To16(rest).value;
  }

  lemma To8Unpacks(u: seq<Unit>) returns (c: Scalar, rest: seq<Unit>, s: Text)
    requires u != [] && To8(u).Some?
    ensures |rest| < |u| && u == Encode16(c) + rest && To8(rest) == Some(s) && To8(u) == Some(Encode(c) + s)
  {
    Encode16Decode16(u);
    c := Decode16(u).codepoint;
    rest := u[Decode16(u).taken..];
    s := To8(rest).value;
  }

  lemma {:induction false} To8AfterTo16(s: Text)
    requires To16(s).Some?
    ensures To8(To16(s).value) == Some(s)
    decreases |s|
  {
    if s != [] {
      var c, rest, u := To16Unpacks(s);
      To8AfterTo16(rest);
      To8Step(c, u, rest);
    }
  }

  lemma {:induction false} To16AfterTo8(u: seq<Unit>)
    requires To8(u).Some?
    ensures To16(To8(u).value) == Some(u)
    decreases |u|
  {
    if u != [] {
      var c, rest, s := To8Unpacks(u);
      To16AfterTo8(rest);
      To16Step(c, s, rest);
    }
  }

  /** Transcoding to UTF-16 accepts exactly the strings UTF-8 decoding accepts. */
  lemma {:induction false} To16Accepts(s: Text)
    ensures To16(s).Some? <==> DecodeAll(s).Some?
    decreases |s|
  {
    if s != [] && Decode(s).ok {
      EncodeDecode(s);
      To16Accepts(s[Decode(s).taken..]);
    }
  }
}
