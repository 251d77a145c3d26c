/** The syntax of JSON Pointers, RFC 6901 sections 3 and 6: which texts are accepted, and what they name. */
module PointerGrammar {
  import opened Bytes
  import opened PointerText
  import opened Sequences
  import opened StringLiterals
  import opened Unicode
  import Lexing

  // The unreserved characters of RFC 3986 section 2.3.

  const CAPITALS := "ABCDEFGHIJKLMNOPQRSTUVWXYZ"
  const SMALL_LETTERS := "abcdefghijklmnopqrstuvwxyz"
  const DIGITS := "0123456789"
  const MARKS := "-._~"

  predicate Listed(c: Byte, list: string) {
    exists i :: 0 <= i < |list| && list[i] as int == c
  }

  predicate Unreserved(c: Byte) {
    Listed(c, CAPITALS) || Listed(c, SMALL_LETTERS) || Listed(c, DIGITS) || Listed(c, MARKS)
  }

  lemma CapitalsAre(c: Byte)
    ensures Listed(c, CAPITALS) <==> 0x41 <= c <= 0x5A
  {
    if 0x41 <= c <= 0x5A {
      assert CAPITALS[c - 0x41] as int == c;
    }
  }

  lemma LettersAre(c: Byte)
    ensures Listed(c, SMALL_LETTERS) <==> 0x61 <= c <= 0x7A
  {
    if 0x61 <= c <= 0x7A {
      assert SMALL_LETTERS[c - 0x61] as int == c;
    }
  }

  lemma DigitsAre(c: Byte)
    ensures Listed(c, DIGITS) <==> 0x30 <= c <= 0x39
  {
    if 0x30 <= c <= 0x39 {
      assert DIGITS[c - 0x30] as int == c;
    }
  }

  lemma MarksAre(c: Byte)
    ensures Listed(c, MARKS) <==> c == 0x2D || c == 0x2E || c == 0x5F || c == 0x7E
  {
    assert MARKS[0] as int == 0x2D && MARKS[1] as int == 0x2E && MARKS[2] as int == 0x5F && MARKS[3] as int == 0x7E;
  }

  /** Exactly the unreserved characters need no encoding. */
  lemma UnreservedExactly(c: Byte)
    ensures NeedsPercent(c) <==> !Unreserved(c)
  {
    CapitalsAre(c);
    LettersAre(c);
    DigitsAre(c);
    MarksAre(c);
  }

  // --------------------------------------------------------------- syntax

  /** Triplets of a percent sign and two hexadecimal digits, in either case, that spell the bytes. */
  predicate SpellsBytes(t: Text, bs: Text) {
    if bs == [] then t == []
    else
      && |t| >= 3 && t[0] == PERCENT && SpellsDigit(t[1], bs[0] / 16) && SpellsDigit(t[2], bs[0] % 16)
      && SpellsBytes(t[3..], bs[1..])
  }

  /** What a reference token is made of: a character, an escaped tilde or solidus, an encoded character. */
  datatype Part = Raw(c: Byte) | Escaped(tilde: Text, solidus: bool) | Encoded(bytes: Text, text: Text)

  predicate PartFits(uri: bool, p: Part) {
    match p
    case Raw(c) => c != TILDE && c != SLASH && (uri ==> Unreserved(c))
    case Escaped(tilde, _) => tilde == [TILDE] || (uri && SpellsBytes(tilde, [TILDE]))
    case Encoded(bytes, text) => uri && IsUtf8Char(bytes) && bytes != [TILDE] && SpellsBytes(text, bytes)
  }

  predicate PartsFit(uri: bool, ps: seq<Part>) {
    forall i :: 0 <= i < |ps| ==> PartFits(uri, ps[i])
  }

  function PartText(p: Part): Text {
    match p
    case Raw(c) => [c]
    case Escaped(tilde, solidus) => tilde + [if solidus then ONE else ZERO]
    case Encoded(_, text) => text
  }

  function PartName(p: Part): Text {
    match p
    case Raw(c) => [c]
    case Escaped(_, solidus) => [if solidus then SLASH else TILDE]
    case Encoded(bytes, _) => bytes
  }

  function PartsText(ps: seq<Part>): Text {
    if ps == [] then [] else PartText(ps[0]) + PartsText(ps[1..])
  }

  function PartsName(ps: seq<Part>): Text {
    if ps == [] then [] else PartName(ps[0]) + PartsName(ps[1..])
  }

  // ------------------------------------------------------------- complete

  lemma SpelledByte(t: Text, b: Byte, post: Text)
    requires |t| >= 3 && t[0] == PERCENT && SpellsDigit(t[1], b / 16) && SpellsDigit(t[2], b % 16)
    ensures TakeByte(t + post) == Some(b)
  {
    HexDigitExact(t[1], b / 16);
    HexDigitExact(t[2], b % 16);
    var s := t + post;
    assert s[0] == t[0] && s[1] == t[1] && s[2] == t[2];
  }

  lemma {:induction false} SpelledBytes(t: Text, bs: Text, post: Text)
    requires SpellsBytes(t, bs)
    ensures TakeBytes(t + post, |bs|) == Some(bs) && |t| == 3 * |bs|
    decreases |bs|
  {
    if bs != [] {
      SpelledByte(t, bs[0], post);
      assert (t + post)[3..] == t[3..] + post;
      SpelledBytes(t[3..], bs[1..], post);
      assert [bs[0]] + bs[1..] == bs;
    }
  }

  lemma SpelledCharacter(t: Text, bs: Text, post: Text)
    requires IsUtf8Char(bs) && SpellsBytes(t, bs)
    ensures TakeCharacter(t + post) == Some(bs) && |t| == 3 * |bs| && (t + post)[0] == PERCENT && (t + post)[|t|..] == post
  {
    LeadTells(bs);
    SpelledBytes(t, bs, post);
    SpelledByte(t, bs[0], post);
  }

  lemma PartReads(uri: bool, p: Part, rest: Text)
    requires PartFits(uri, p)
    ensures var s := PartText(p) + rest; s != [] && s[0] != SLASH && TakeUnit(s, uri) == Good(PartName(p), rest)
  {
    var s := PartText(p) + rest;
    match p
    case Raw(c) =>
      UnreservedExactly(c);
      MarksAre(c);
      assert s[1..] == rest;
    case Escaped(tilde, solidus) =>
      var after := [if solidus then ONE else ZERO] + rest;
      Joins3(tilde, [if solidus then ONE else ZERO], rest);
      assert after[1..] == rest;
      if tilde == [TILDE] {
        assert s[1..] == after;
      } else {
        SpelledCharacter(tilde, [TILDE], after);
      }
    case Encoded(bytes, text) =>
      SpelledCharacter(text, bytes, rest);
  }

  lemma {:induction false} PartsRead(uri: bool, ps: seq<Part>, rest: Text)
    requires PartsFit(uri, ps) && EndsName(rest)
    ensures TakeName(PartsText(ps) + rest, uri) == Good(PartsName(ps), rest)
  {
    if ps == [] {
      assert [] + rest == rest;
    } else {
      var tail := PartsText(ps[1..]) + rest;
      PartsRead(uri, ps[1..], rest);
      PartReads(uri, ps[0], tail);
      Joins3(PartText(ps[0]), PartsText(ps[1..]), rest);
      NameStep(PartText(ps[0]) + tail, uri, PartName(ps[0]), tail, PartsName(ps[1..]), rest);
    }
  }

  // ---------------------------------------------------------------- sound

  lemma ByteOf(s: Text)
    requires TakeByte(s).Some?
    ensures var b := TakeByte(s).value;
      |s| >= 3 && s[0] == PERCENT && SpellsDigit(s[1], b / 16) && SpellsDigit(s[2], b % 16)
  {
    PlaceOf(s[1]);
    PlaceOf(s[2]);
    var b := TakeByte(s).value;
    assert b / 16 == Lexing.HexDigit(s[1]) && b % 16 == Lexing.HexDigit(s[2]);
  }

  lemma {:induction false} BytesOf(s: Text, n: nat)
    requires TakeBytes(s, n).Some?
    ensures |s| >= 3 * n && SpellsBytes(s[..3 * n], TakeBytes(s, n).value)
    decreases n
  {
    if n > 0 {
      ByteOf(s);
      BytesOf(s[3..], n - 1);
      assert s[..3 * n][3..] == s[3..][..3 * (n - 1)];
    }
  }

  lemma CharacterOf(s: Text) returns (t: Text, bs: Text, rest: Text)
    requires TakeCharacter(s).Some?
    ensures TakeCharacter(s) == Some(bs) && IsUtf8Char(bs) && SpellsBytes(t, bs) && |t| == 3 * |bs|
    ensures s == t + rest && rest == s[3 * |bs|..]
  {
    bs := TakeCharacter(s).value;
    var n := |bs|;
    BytesOf(s, n);
    t, rest := s[..3 * n], s[3 * n..];
    WholeCharacter(bs, TakeByte(s).value);
  }

  lemma WholeCharacter(bs: Text, lead: Byte)
    requires bs != [] && Decode(bs).ok && |bs| == Decode([lead]).taken && bs[0] == lead
    ensures IsUtf8Char(bs)
  {
    FirstChar(bs);
    assert Decode(bs).taken == Decode([lead]).taken;
    assert bs[..|bs|] == bs;
  }

  /** What an escaped tilde or solidus is, `tilde` being how the tilde is written. */
  lemma EscapedOf(uri: bool, tilde: Text, after: Text) returns (p: Part, rest: Text)
    requires tilde == [TILDE] || (uri && SpellsBytes(tilde, [TILDE]))
    requires Unescaped(TILDE, after).Good?
    ensures PartFits(uri, p) && tilde + after == PartText(p) + rest && Unescaped(TILDE, after) == Good(PartName(p), rest)
  {
    p, rest := Escaped(tilde, after[0] == ONE), after[1..];
    assert after == [after[0]] + rest;
    Joins3(tilde, [after[0]], rest);
  }

  lemma PartOf(uri: bool, s: Text) returns (p: Part, rest: Text)
    requires s != [] && s[0] != SLASH && TakeUnit(s, uri).Good?
    ensures PartFits(uri, p) && s == PartText(p) + rest && TakeUnit(s, uri) == Good(PartName(p), rest)
  {
    var c := s[0];
    assert s == [c] + s[1..];
    if uri && c == PERCENT {
      var t, bs, after := CharacterOf(s);
      if bs == [TILDE] {
        p, rest := EscapedOf(uri, t, after);
      } else {
        p, rest := Encoded(bs, t), after;
        assert |bs| == 1 ==> bs == [bs[0]];
      }
    } else if c == TILDE {
      p, rest := EscapedOf(uri, [c], s[1..]);
    } else {
      p, rest := Raw(c), s[1..];
      UnreservedExactly(c);
    }
  }

  lemma {:induction false} PartsOf(uri: bool, s: Text) returns (ps: seq<Part>)
    requires TakeName(s, uri).Good?
    ensures var r := TakeName(s, uri);
      PartsFit(uri, ps) && s == PartsText(ps) + r.rest && r.name == PartsName(ps) && EndsName(r.rest)
    decreases |s|
  {
    if s == [] || s[0] == SLASH {
      ps := [];
    } else {
      var p, rest := PartOf(uri, s);
      var tail := PartsOf(uri, rest);
      ps := [p] + tail;
      assert ps[1..] == tail;
      Joins3(PartText(p), PartsText(tail), TakeName(s, uri).rest);
    }
  }

  // -------------------------------------------------------- whole pointers

  predicate AllFit(uri: bool, tokens: seq<seq<Part>>) {
    forall i :: 0 <= i < |tokens| ==> PartsFit(uri, tokens[i])
  }

  /** Reference tokens, each after a solidus. */
  function TokensText(tokens: seq<seq<Part>>): Text {
    if tokens == [] then [] else [SLASH] + (PartsText(tokens[0]) + TokensText(tokens[1..]))
  }

  function Names(tokens: seq<seq<Part>>): seq<Text> {
    if tokens == [] then [] else [PartsName(tokens[0])] + Names(tokens[1..])
  }

  lemma {:induction false} TokensRead(uri: bool, tokens: seq<seq<Part>>)
    requires AllFit(uri, tokens)
    ensures TakeNames(TokensText(tokens), uri) == Some(Names(tokens)) && EndsName(TokensText(tokens))
  {
    if tokens != [] {
      TokensRead(uri, tokens[1..]);
      PartsRead(uri, tokens[0], TokensText(tokens[1..]));
      NamesStep(TokensText(tokens), uri, PartsText(tokens[0]) + TokensText(tokens[1..]), PartsName(tokens[0]),
        TokensText(tokens[1..]), Names(tokens[1..]));
    }
  }

  lemma {:induction false} TokensOf(uri: bool, s: Text) returns (tokens: seq<seq<Part>>)
    requires TakeNames(s, uri).Some?
    ensures AllFit(uri, tokens) && s == TokensText(tokens) && TakeNames(s, uri).value == Names(tokens)
    decreases |s|
  {
    if s == [] {
      tokens := [];
    } else {
      var ps := PartsOf(uri, s[1..]);
      var tail := TokensOf(uri, TakeName(s[1..], uri).rest);
      tokens := [ps] + tail;
      assert tokens[1..] == tail && s == [SLASH] + s[1..];
    }
  }

  /** `source` is written as the standard has it, as a string or after a number sign, and names `names`. */
  ghost predicate IsPointer(source: Text, names: seq<Text>) {
    exists uri, tokens :: AllFit(uri, tokens)
      && source == (if uri then [HASH] else []) + TokensText(tokens) && names == Names(tokens)
  }

  /** Exactly the pointers of the standard are accepted, in both representations, for what they name. */
  lemma PointerExactly(source: Text, names: seq<Text>)
    ensures Parse(source) == Some(names) <==> IsPointer(source, names)
  {
    var uri := Peek(source) == HASH;
    if Parse(source) == Some(names) {
      var tokens := TokensOf(uri, if uri then source[1..] else source);
      assert source == (if uri then [HASH] else []) + TokensText(tokens);
      assert AllFit(uri, tokens) && names == Names(tokens);
    }
    if IsPointer(source, names) {
      var fragment, tokens :| AllFit(fragment, tokens)
        && source == (if fragment then [HASH] else []) + TokensText(tokens) && names == Names(tokens);
      TokensRead(fragment, tokens);
      assert if fragment then source[1..] == TokensText(tokens) else source == TokensText(tokens);
      assert fragment == uri;
    }
  }
}
