/** Printing a value and parsing the text gives the value back, flags included. */
module RoundTrip {
  import opened Bytes
  import opened Events
  import opened Lexing
  import opened Descent
  import opened Dom
  import opened JsonText
  import opened Numbers
  import opened Unicode
  import opened Sequences

  // --------------------------------------------------------------- layout

  predicate AllSpace(s: Text) {
    forall i :: 0 <= i < |s| ==> IsSpace(s[i])
  }

  /** The layout characters must be white space, as the source asserts. */
  predicate GoodStyle(style: Style) {
    IsSpace(style.indentChar)
  }

  /** `c` starts a token: neither white space nor a comment is skipped there. */
  predicate StartsToken(c: Byte) {
    !IsSpace(c) && c != SLASH
  }

  lemma {:induction false} SkipLayout(cfg: Config, ws: Text, s: Text)
    requires AllSpace(ws) && StartsToken(Peek(s))
    ensures Skip(cfg, ws + s) == Good((), s)
  {
    SkipSpaces(ws, s);
  }

  lemma {:induction false} SkipSpaces(ws: Text, s: Text)
    requires AllSpace(ws) && !IsSpace(Peek(s))
    ensures SkipSpace(ws + s) == s
  {
    if ws == [] {
      assert ws + s == s;
    } else {
      assert (ws + s)[1..] == ws[1..] + s;
      SkipSpaces(ws[1..], s);
    }
  }

  // -------------------------------------------------------------- integers

  lemma {:induction false} DecimalDigits(n: nat)
    ensures IsNatural(Decimal(n)) && ValueOf(0, Decimal(n)) == n
    ensures n > 0 ==> Decimal(n)[0] != 0x30
  {
    if n >= 10 {
      DecimalDigits(n / 10);
      ValueAppend(0, Decimal(n / 10), 0x30 + n % 10);
    } else {
      assert Decimal(n)[1..] == [];
    }
  }

  lemma {:induction false} ValueAppend(i: nat, ds: Text, d: Byte)
    requires AllDigits(ds) && IsDigit(d)
    ensures AllDigits(ds + [d]) && ValueOf(i, ds + [d]) == ValueOf(i, ds) * 10 + (d - 0x30)
    decreases |ds|
  {
    if ds == [] {
      assert (ds + [d])[1..] == [];
    } else {
      assert (ds + [d])[1..] == ds[1..] + [d];
      ValueAppend(i * 10 + (ds[0] - 0x30), ds[1..], d);
    }
  }

  lemma IntegerReads(cfg: Config, n: int, post: Text)
    requires IsInteger(n) && EndsInteger(Peek(post))
    ensures ScanNumber(cfg, IntegerText(n) + post) == Good(ReadEvent(n), post)
  {
    var m := if n < 0 then -n else n;
    DecimalDigits(m);
    IntegerLiteralExact(cfg, n < 0, Decimal(m), post);
    if n >= 0 {
      assert [] + Decimal(m) == Decimal(m);
    }
  }

  // --------------------------------------------------------------- strings

  lemma HexDigitReads(d: nat)
    requires d < 16
    ensures HexDigit(HexText(d)) == d
  {
  }

  lemma HexSplits(n: nat)
    requires n < 0x1_0000
    ensures n / 4096 < 16
    ensures ((n / 4096 * 16 + n / 256 % 16) * 16 + n / 16 % 16) * 16 + n % 16 == n
  {
    assert n / 16 == n / 16 / 16 * 16 + n / 16 % 16;
    assert n / 256 == n / 16 / 16 && n / 4096 == n / 256 / 16;
  }

  lemma HexReads(n: nat, post: Text)
    requires n < 0x1_0000
    ensures Hex4(Hex4Text(n) + post) == Good(n, post)
  {
    HexSplits(n);
    HexDigitReads(n / 4096);
    HexDigitReads(n / 256 % 16);
    HexDigitReads(n / 16 % 16);
    HexDigitReads(n % 16);
    var s := Hex4Text(n) + post;
    assert s[4..] == post;
    assert s[0] == Hex4Text(n)[0] && s[1] == Hex4Text(n)[1] && s[2] == Hex4Text(n)[2] && s[3] == Hex4Text(n)[3];
  }

  lemma PairReads(c: Scalar, post: Text)
    requires c > 0xFFFF
    ensures var v := c - 0x10000;
      UnicodeEscape(Hex4Text(v / 1024 + 0xD800) + ([BACKSLASH, 0x75] + (Hex4Text(v % 1024 + 0xDC00) + post))) == Good(c, post)
  {
    var v := c - 0x10000;
    var (lead, trail) := (v / 1024 + 0xD800, v % 1024 + 0xDC00);
    var s2 := Hex4Text(trail) + post;
    var s1 := [BACKSLASH, 0x75] + s2;
    HexReads(lead, s1);
    assert s1[1..][0] == 0x75 && s1[2..] == s2;
    HexReads(trail, post);
    assert v == v / 1024 * 1024 + v % 1024;
  }

  /** The text after the first `\u` of a Unicode escape. */
  function AfterU(c: Scalar, post: Text): Text {
    if c <= 0xFFFF then Hex4Text(c) + post
    else
      var v := c - 0x10000;
      Hex4Text(v / 1024 + 0xD800) + ([BACKSLASH, 0x75] + (Hex4Text(v % 1024 + 0xDC00) + post))
  }

  lemma UnicodeSplits(c: Scalar, post: Text)
    ensures UnicodeText(c) + post == [BACKSLASH, 0x75] + AfterU(c, post)
  {
  }

  lemma UnicodeReads(c: Scalar, post: Text)
    ensures UnicodeEscape(AfterU(c, post)) == Good(c, post)
  {
    if c <= 0xFFFF {
      HexReads(c, post);
    } else {
      PairReads(c, post);
    }
  }

  /** The reader turns the text `t` into the bytes `u`, whatever precedes and follows it. */
  ghost predicate ReadsAs(cfg: Config, t: Text, u: Text) {
    forall post: Text, acc: Text :: ScanString(cfg, t + post, acc) == ScanString(cfg, post, acc + u)
  }

  lemma ReadsNothing(cfg: Config)
    ensures ReadsAs(cfg, [], [])
  {
    forall post: Text, acc: Text
      ensures ScanString(cfg, [] + post, acc) == ScanString(cfg, post, acc + [])
    {
      assert [] + post == post && acc + [] == acc;
    }
  }

  lemma ReadsBoth(cfg: Config, t: Text, u: Text, t': Text, u': Text)
    requires ReadsAs(cfg, t, u) && ReadsAs(cfg, t', u')
    ensures ReadsAs(cfg, t + t', u + u')
  {
    forall post: Text, acc: Text
      ensures ScanString(cfg, t + t' + post, acc) == ScanString(cfg, post, acc + (u + u'))
    {
      Joins3(t, t', post);
      Joins3(acc, u, u');
    }
  }

  lemma LetterReads(cfg: Config, letter: Byte, c: Byte)
    requires Unescape(letter) == c && c != 0
    ensures ReadsAs(cfg, [BACKSLASH, letter], [c])
  {
    forall post: Text, acc: Text
      ensures ScanString(cfg, [BACKSLASH, letter] + post, acc) == ScanString(cfg, post, acc + [c])
    {
      var t := [BACKSLASH, letter] + post;
      assert t[1..][0] == letter && t[2..] == post;
    }
  }

  /** A Unicode escape reads as the encoding of its code point. */
  lemma EscapeUReads(cfg: Config, t: Text, after: Text, c: nat, post: Text, acc: Text)
    requires c <= 0x10FFFF && t == [BACKSLASH, 0x75] + after && UnicodeEscape(after) == Good(c, post)
    ensures ScanString(cfg, t, acc) == ScanString(cfg, post, acc + Encode(c))
  {
    assert t[1..][0] == 0x75 && t[2..] == after;
  }

  lemma CodePointReads(cfg: Config, c: Scalar)
    ensures ReadsAs(cfg, UnicodeText(c), Encode(c))
  {
    forall post: Text, acc: Text
      ensures ScanString(cfg, UnicodeText(c) + post, acc) == ScanString(cfg, post, acc + Encode(c))
    {
      UnicodeSplits(c, post);
      UnicodeReads(c, post);
      EscapeUReads(cfg, UnicodeText(c) + post, AfterU(c, post), c, post, acc);
    }
  }

  lemma ControlReads(cfg: Config, c: Byte)
    requires c < 0x20
    ensures ReadsAs(cfg, [BACKSLASH, 0x75, 0x30, 0x30, HexText(c / 16), HexText(c % 16)], [c])
  {
    CodePointReads(cfg, c);
    assert UnicodeText(c) == [BACKSLASH, 0x75, 0x30, 0x30, HexText(c / 16), HexText(c % 16)];
    assert Encode(c) == [c];
  }

  lemma PlainReads(cfg: Config, c: Byte)
    requires EscapeLetter(c) == 0 && (cfg.validate ==> c < 0x80)
    ensures ReadsAs(cfg, [c], [c])
  {
    forall post: Text, acc: Text
      ensures ScanString(cfg, [c] + post, acc) == ScanString(cfg, post, acc + [c])
    {
      var t := [c] + post;
      assert t[1..] == post && t[..1] == [c];
      if cfg.validate {
        assert Decode(t) == Decoded(true, c, 1);
      }
    }
  }

  /** A validating reader copies a whole character. */
  lemma CharacterReads(cfg: Config, c: Scalar)
    requires cfg.validate && c >= 0x80
    ensures ReadsAs(cfg, Encode(c), Encode(c))
  {
    forall post: Text, acc: Text
      ensures ScanString(cfg, Encode(c) + post, acc) == ScanString(cfg, post, acc + Encode(c))
    {
      var t := Encode(c) + post;
      var n := |Encode(c)|;
      DecodeEncode(c, post);
      assert t[..n] == Encode(c) && t[n..] == post;
      assert t[0] >= 0x80;
    }
  }

  /** One escaped unit or character is read back as it was. */
  lemma EscapeReads(cfg: Config, ascii: bool, s: Text)
    requires s != [] && EscapeNext(ascii, s).Escape?
    requires cfg.validate && !ascii ==> s[0] < 0x80
    ensures var e := EscapeNext(ascii, s); ReadsAs(cfg, e.text, s[..e.taken])
  {
    var c, e := s[0], EscapeNext(ascii, s);
    if ascii && c >= 0x80 {
      EncodeDecode(s);
      CodePointReads(cfg, Decode(s).codepoint);
    } else {
      assert s[..1] == [c];
      if EscapeLetter(c) == 0x75 {
        ControlReads(cfg, c);
      } else if EscapeLetter(c) != 0 {
        LetterReads(cfg, EscapeLetter(c), c);
      } else {
        PlainReads(cfg, c);
      }
    }
  }

  lemma PlainStep(c: Byte, rest: Text)
    requires c >= 0x80 && EscapeAll(false, [c] + rest).Some?
    ensures EscapeAll(false, rest).Some? && EscapeAll(false, [c] + rest).value == [c] + EscapeAll(false, rest).value
  {
    var s := [c] + rest;
    assert s[1..] == rest;
  }

  /** Bytes above 0x7F are written as they are in UTF-8. */
  lemma {:induction false} PlainRun(high: Text, rest: Text)
    requires forall i :: 0 <= i < |high| ==> high[i] >= 0x80
    requires EscapeAll(false, high + rest).Some?
    ensures EscapeAll(false, rest).Some? && EscapeAll(false, high + rest).value == high + EscapeAll(false, rest).value
    decreases |high|
  {
    if high == [] {
      assert high + rest == rest;
    } else {
      var tail := high[1..];
      assert [high[0]] + tail == high;
      Joins3([high[0]], tail, rest);
      PlainStep(high[0], tail + rest);
      PlainRun(tail, rest);
      Joins3([high[0]], tail, EscapeAll(false, rest).value);
    }
  }

  /** Which strings a reader takes back: any bytes, unless it validates. */
  predicate Readable(cfg: Config, s: Text) {
    cfg.validate ==> DecodeAll(s).Some?
  }

  /** An escaped string reads as the string itself, byte for byte. */
  lemma {:induction false} EscapedReads(cfg: Config, ascii: bool, s: Text)
    requires EscapeAll(ascii, s).Some? && Readable(cfg, s)
    ensures ReadsAs(cfg, EscapeAll(ascii, s).value, s)
    decreases |s|
  {
    if s == [] {
      ReadsNothing(cfg);
    } else {
      if cfg.validate {
        EncodeDecode(s);
      }
      var n;
      if cfg.validate && !ascii && s[0] >= 0x80 {
        n := Decode(s).taken;
        HighBytes(s);
        TakeDrop(s, n);
        PlainRun(s[..n], s[n..]);
        CharacterReads(cfg, Decode(s).codepoint);
      } else {
        n := EscapeNext(ascii, s).taken;
        EscapeReads(cfg, ascii, s);
      }
      assert cfg.validate ==> n == Decode(s).taken;
      EscapedReads(cfg, ascii, s[n..]);
      var t := if cfg.validate && !ascii && s[0] >= 0x80 then s[..n] else EscapeNext(ascii, s).text;
      ReadsBoth(cfg, t, s[..n], EscapeAll(ascii, s[n..]).value, s[n..]);
      assert s[..n] + s[n..] == s;
    }
  }

  lemma HighBytes(s: Text)
    requires s != [] && s[0] >= 0x80 && Decode(s).ok
    ensures Decode(s).taken <= |s| && forall i :: 0 <= i < Decode(s).taken ==> s[i] >= 0x80
    ensures Decode(s).codepoint >= 0x80
  {
    DecodeExact(s);
    EncodeDecode(s);
  }

  /** A quoted string is read back up to its closing quote. */
  lemma QuoteReads(cfg: Config, ascii: bool, s: Text, post: Text)
    requires Quote(ascii, s).Some? && Readable(cfg, s)
    ensures var q := Quote(ascii, s).value + post;
      q != [] && q[0] == QUOTE && ScanString(cfg, q[1..], []) == Good(s, post)
  {
    var t := EscapeAll(ascii, s).value;
    EscapedReads(cfg, ascii, s);
    QuoteSplits(t, post);
    ClosingQuote(cfg, post, [] + s);
    assert ScanString(cfg, t + ([QUOTE] + post), []) == ScanString(cfg, [QUOTE] + post, [] + s);
    assert [] + s == s;
  }

  lemma QuoteSplits(t: Text, post: Text)
    ensures ([QUOTE] + t + [QUOTE] + post)[1..] == t + ([QUOTE] + post)
  {
  }

  lemma ClosingQuote(cfg: Config, post: Text, acc: Text)
    ensures ScanString(cfg, [QUOTE] + post, acc) == Good(acc, post)
  {
    assert ([QUOTE] + post)[1..] == post;
  }

  predicate Ascii(t: Text) {
    forall i :: 0 <= i < |t| ==> t[i] < 0x80
  }

  /** With an ASCII target the writer takes exactly the well-formed strings, and puts only ASCII. */
  lemma {:induction false} AsciiExact(s: Text)
    ensures EscapeAll(true, s).Some? <==> DecodeAll(s).Some?
    ensures EscapeAll(true, s).Some? ==> Ascii(EscapeAll(true, s).value)
    decreases |s|
  {
    if s != [] && Decode(s).ok {
      EncodeDecode(s);
      var e := EscapeNext(true, s);
      if s[0] < 0x80 {
        assert e.taken == Decode(s).taken == 1;
      }
      AsciiEscape(s);
      AsciiExact(s[e.taken..]);
    } else if s != [] {
      assert s[0] >= 0x80;
    }
  }

  lemma Hex4Ascii(n: nat)
    requires n < 0x1_0000
    ensures Ascii(Hex4Text(n))
  {
  }

  lemma AsciiConcat(a: Text, b: Text)
    requires Ascii(a) && Ascii(b)
    ensures Ascii(a + b)
  {
  }

  lemma UnicodeTextAscii(c: Scalar)
    ensures Ascii(UnicodeText(c))
  {
    var u: Text := [BACKSLASH, 0x75];
    if c <= 0xFFFF {
      Hex4Ascii(c);
      AsciiConcat(u, Hex4Text(c));
    } else {
      var v := c - 0x10000;
      Hex4Ascii(v / 1024 + 0xD800);
      Hex4Ascii(v % 1024 + 0xDC00);
      AsciiConcat(u, Hex4Text(v / 1024 + 0xD800));
      AsciiConcat(u + Hex4Text(v / 1024 + 0xD800), u);
      AsciiConcat(u + Hex4Text(v / 1024 + 0xD800) + u, Hex4Text(v % 1024 + 0xDC00));
    }
  }

  lemma AsciiEscape(s: Text)
    requires s != [] && EscapeNext(true, s).Escape?
    ensures Ascii(EscapeNext(true, s).text)
  {
    if s[0] >= 0x80 {
      EncodeDecode(s);
      UnicodeTextAscii(Decode(s).codepoint);
    } else {
      LowEscape(s[0]);
      assert EscapeNext(true, s).text == LowText(s[0]);
    }
  }

  /** What is written for a unit below 0x80. */
  function LowText(c: Byte): Text {
    if EscapeLetter(c) == 0x75 then [BACKSLASH, 0x75, 0x30, 0x30, HexText(c / 16), HexText(c % 16)]
    else if EscapeLetter(c) != 0 then [BACKSLASH, EscapeLetter(c)]
    else [c]
  }

  lemma LowEscape(c: Byte)
    requires c < 0x80
    ensures Ascii(LowText(c))
  {
    assert EscapeLetter(c) < 0x80;
  }

  // --------------------------------------------------------------- values

  /** A handler that refuses nothing, as the document builder is. */
  ghost predicate AcceptsAll(cfg: Config) {
    forall sent: seq<Event> :: cfg.accepts(sent)
  }

  /** Parsing `t` as a value sends `es`, before anything that cannot continue a number. */
  ghost predicate ValueReads(cfg: Config, t: Text, es: seq<Event>) {
    forall post: Text, sent: seq<Event> :: EndsInteger(Peek(post)) ==> AnyValue(cfg, t + post, sent) == Done(post, sent + es)
  }

  /** Parsing `t` from an element to the end of its array sends `es`, `n` elements coming before. */
  ghost predicate ElementsRead(cfg: Config, t: Text, n: nat, es: seq<Event>) {
    forall post: Text, sent: seq<Event> :: Element(cfg, t + post, n, sent) == Done(post, sent + es)
  }

  /** What the reader does after an element, white space not yet skipped. */
  function AfterElement(cfg: Config, s: Text, n: nat, sent: seq<Event>): Outcome {
    match Skip(cfg, s)
    case Bad => Fail(sent)
    case Good(_, t) => ElementEnd(cfg, t, n, sent)
  }

  ghost predicate TailReads(cfg: Config, t: Text, n: nat, es: seq<Event>) {
    && t != [] && EndsInteger(t[0])
    && forall post: Text, sent: seq<Event> :: AfterElement(cfg, t + post, n, sent) == Done(post, sent + es)
  }

  lemma ElementStepAt(cfg: Config, s: Text, n: nat, sent: seq<Event>, t: Text, sent': seq<Event>, r: Outcome)
    requires AnyValue(cfg, s, sent) == Done(t, sent') && n + 1 < 0x1_0000_0000
    requires AfterElement(cfg, t, n + 1, sent') == r
    ensures Element(cfg, s, n, sent) == r
  {
  }

  lemma ElementStep(cfg: Config, j: Text, ev: seq<Event>, t: Text, n: nat, es: seq<Event>)
    requires ValueReads(cfg, j, ev) && n + 1 < 0x1_0000_0000 && TailReads(cfg, t, n + 1, es)
    ensures ElementsRead(cfg, j + t, n, ev + es)
  {
    forall post: Text, sent: seq<Event>
      ensures Element(cfg, j + t + post, n, sent) == Done(post, sent + (ev + es))
    {
      ValueThenTail(cfg, j, ev, t, n, es, post, sent);
    }
  }

  lemma ValueThenTail(cfg: Config, j: Text, ev: seq<Event>, t: Text, n: nat, es: seq<Event>, post: Text, sent: seq<Event>)
    requires ValueReads(cfg, j, ev) && n + 1 < 0x1_0000_0000 && TailReads(cfg, t, n + 1, es)
    ensures Element(cfg, j + t + post, n, sent) == Done(post, sent + (ev + es))
  {
    var s, t' := j + t + post, t + post;
    assert s == j + t' && t'[0] == t[0];
    assert sent + ev + es == sent + (ev + es);
    ElementStepAt(cfg, s, n, sent, t', sent + ev, Done(post, sent + (ev + es)));
  }

  lemma TailCloses(cfg: Config, ws: Text, n: nat)
    requires AcceptsAll(cfg) && AllSpace(ws)
    ensures TailReads(cfg, ws + [RBRACKET], n, [EndArray(n)])
  {
    var t := ws + [RBRACKET];
    assert t[0] == if ws == [] then RBRACKET else ws[0];
    forall post: Text, sent: seq<Event>
      ensures AfterElement(cfg, t + post, n, sent) == Done(post, sent + [EndArray(n)])
    {
      var end := [RBRACKET] + post;
      assert t + post == ws + end && end[1..] == post;
      SkipLayout(cfg, ws, end);
    }
  }

  lemma TailContinuesAt(cfg: Config, s: Text, t: Text, n: nat, sent: seq<Event>, r: Outcome)
    requires s != [] && s[0] == COMMA && Skip(cfg, s) == Good((), s) && Skip(cfg, s[1..]) == Good((), t)
    requires Peek(t) != RBRACKET && Element(cfg, t, n, sent) == r
    ensures AfterElement(cfg, s, n, sent) == r
  {
    assert ElementNext(cfg, t, n, sent) == r;
    assert ElementEnd(cfg, s, n, sent) == r;
  }

  lemma TailContinues(cfg: Config, ws: Text, t: Text, n: nat, es: seq<Event>)
    requires AllSpace(ws) && ElementsRead(cfg, t, n, es)
    requires t != [] && StartsToken(t[0]) && t[0] != RBRACKET
    ensures TailReads(cfg, [COMMA] + ws + t, n, es)
  {
    forall post: Text, sent: seq<Event>
      ensures AfterElement(cfg, [COMMA] + ws + t + post, n, sent) == Done(post, sent + es)
    {
      var s, t' := [COMMA] + ws + t + post, t + post;
      CommaSplits(ws, t, post);
      SkipLayout(cfg, [], s);
      SkipLayout(cfg, ws, t');
      TailContinuesAt(cfg, s, t', n, sent, Done(post, sent + es));
    }
  }

  lemma CommaSplits(ws: Text, t: Text, post: Text)
    requires t != []
    ensures var s := [COMMA] + ws + t + post;
      s[0] == COMMA && s[1..] == ws + (t + post) && [] + s == s && (t + post)[0] == t[0]
  {
  }

  // -------------------------------------------------------------- members

  /** Parsing `t` from a member name to the end of its object sends `es`, `n` members coming before. */
  ghost predicate MembersRead(cfg: Config, t: Text, n: nat, es: seq<Event>) {
    forall post: Text, sent: seq<Event> :: MemberName(cfg, t + post, n, sent) == Done(post, sent + es)
  }

  function AfterMember(cfg: Config, s: Text, n: nat, sent: seq<Event>): Outcome {
    match Skip(cfg, s)
    case Bad => Fail(sent)
    case Good(_, t) => MemberEnd(cfg, t, n, sent)
  }

  ghost predicate MemberTailReads(cfg: Config, t: Text, n: nat, es: seq<Event>) {
    && t != [] && EndsInteger(t[0])
    && forall post: Text, sent: seq<Event> :: AfterMember(cfg, t + post, n, sent) == Done(post, sent + es)
  }

  lemma MemberValueAt(cfg: Config, j: Text, n: nat, keyed: seq<Event>, t: Text, sent: seq<Event>)
    requires n + 1 < 0x1_0000_0000 && AnyValue(cfg, j, keyed) == Done(t, sent)
    ensures MemberValue(cfg, j, n, keyed) == AfterMember(cfg, t, n + 1, sent)
  {
  }

  lemma MemberColonAt(cfg: Config, c: Text, n: nat, keyed: seq<Event>, j: Text)
    requires Peek(c) == COLON && Skip(cfg, c[1..]) == Good((), j)
    ensures MemberColon(cfg, c, n, keyed) == MemberValue(cfg, j, n, keyed)
  {
  }

  lemma MemberNameAt(cfg: Config, s: Text, n: nat, sent: seq<Event>, name: Text, c: Text)
    requires AcceptsAll(cfg) && Peek(s) == QUOTE && ScanString(cfg, s[1..], []) == Good(name, c)
    requires Skip(cfg, c) == Good((), c)
    ensures MemberName(cfg, s, n, sent) == MemberColon(cfg, c, n, sent + [Key(name)])
  {
    assert cfg.accepts(sent + [Key(name)]);
  }

  lemma MemberStepAt(cfg: Config, s: Text, n: nat, sent: seq<Event>, name: Text, c: Text, j: Text, t: Text,
                     sent': seq<Event>, r: Outcome)
    requires AcceptsAll(cfg) && n + 1 < 0x1_0000_0000
    requires Peek(s) == QUOTE && ScanString(cfg, s[1..], []) == Good(name, c)
    requires Peek(c) == COLON && Skip(cfg, c) == Good((), c) && Skip(cfg, c[1..]) == Good((), j)
    requires AnyValue(cfg, j, sent + [Key(name)]) == Done(t, sent') && AfterMember(cfg, t, n + 1, sent') == r
    ensures MemberName(cfg, s, n, sent) == r
  {
    var keyed := sent + [Key(name)];
    MemberNameAt(cfg, s, n, sent, name, c);
    MemberColonAt(cfg, c, n, keyed, j);
    MemberValueAt(cfg, j, n, keyed, t, sent');
  }

  lemma MemberSplits(q: Text, ws: Text, j: Text, t: Text, post: Text)
    requires q != [] && j != []
    ensures var c := [COLON] + ws + (j + (t + post));
      && q + ([COLON] + ws) + j + t + post == q + c
      && [] + c == c && c[0] == COLON && c[1..] == ws + (j + (t + post)) && (j + (t + post))[0] == j[0]
  {
  }

  lemma MemberStep(cfg: Config, ascii: bool, name: Text, ws: Text, j: Text, ev: seq<Event>, t: Text, n: nat, es: seq<Event>)
    requires AcceptsAll(cfg) && AllSpace(ws) && n + 1 < 0x1_0000_0000
    requires Quote(ascii, name).Some? && Readable(cfg, name)
    requires j != [] && StartsToken(j[0]) && ValueReads(cfg, j, ev) && MemberTailReads(cfg, t, n + 1, es)
    ensures MembersRead(cfg, Quote(ascii, name).value + ([COLON] + ws) + j + t, n, [Key(name)] + ev + es)
  {
    var q := Quote(ascii, name).value;
    forall post: Text, sent: seq<Event>
      ensures MemberName(cfg, q + ([COLON] + ws) + j + t + post, n, sent) == Done(post, sent + ([Key(name)] + ev + es))
    {
      var t' := t + post;
      var j' := j + t';
      var c := [COLON] + ws + j';
      MemberSplits(q, ws, j, t, post);
      QuoteReads(cfg, ascii, name, c);
      SkipLayout(cfg, [], c);
      SkipLayout(cfg, ws, j');
      assert t'[0] == t[0];
      assert sent + [Key(name)] + ev + es == sent + ([Key(name)] + ev + es);
      MemberStepAt(cfg, q + c, n, sent, name, c, j', t', sent + [Key(name)] + ev, Done(post, sent + ([Key(name)] + ev + es)));
    }
  }

  lemma MemberTailCloses(cfg: Config, ws: Text, n: nat)
    requires AcceptsAll(cfg) && AllSpace(ws)
    ensures MemberTailReads(cfg, ws + [RBRACE], n, [EndObject(n)])
  {
    var t := ws + [RBRACE];
    assert t[0] == if ws == [] then RBRACE else ws[0];
    forall post: Text, sent: seq<Event>
      ensures AfterMember(cfg, t + post, n, sent) == Done(post, sent + [EndObject(n)])
    {
      var end := [RBRACE] + post;
      assert t + post == ws + end && end[1..] == post;
      SkipLayout(cfg, ws, end);
    }
  }

  lemma MemberTailContinuesAt(cfg: Config, s: Text, t: Text, n: nat, sent: seq<Event>, r: Outcome)
    requires s != [] && s[0] == COMMA && Skip(cfg, s) == Good((), s) && Skip(cfg, s[1..]) == Good((), t)
    requires Peek(t) != RBRACE && MemberName(cfg, t, n, sent) == r
    ensures AfterMember(cfg, s, n, sent) == r
  {
    assert MemberNext(cfg, t, n, sent) == r;
    assert MemberEnd(cfg, s, n, sent) == r;
  }

  lemma MemberTailContinues(cfg: Config, ws: Text, t: Text, n: nat, es: seq<Event>)
    requires AllSpace(ws) && MembersRead(cfg, t, n, es)
    requires t != [] && t[0] == QUOTE
    ensures MemberTailReads(cfg, [COMMA] + ws + t, n, es)
  {
    forall post: Text, sent: seq<Event>
      ensures AfterMember(cfg, [COMMA] + ws + t + post, n, sent) == Done(post, sent + es)
    {
      var s, t' := [COMMA] + ws + t + post, t + post;
      CommaSplits(ws, t, post);
      SkipLayout(cfg, [], s);
      SkipLayout(cfg, ws, t');
      MemberTailContinuesAt(cfg, s, t', n, sent, Done(post, sent + es));
    }
  }

  // ----------------------------------------------------------- containers

  lemma ArrayReadsAt(cfg: Config, s: Text, t: Text, sent: seq<Event>, r: Outcome)
    requires AcceptsAll(cfg) && Peek(s) == LBRACKET && Skip(cfg, s[1..]) == Good((), t)
    requires ArrayStart(cfg, t, sent + [StartArray]) == r
    ensures AnyValue(cfg, s, sent) == r
  {
  }

  lemma ArrayReads(cfg: Config, ws: Text, t: Text, es: seq<Event>)
    requires AcceptsAll(cfg) && AllSpace(ws) && t != [] && StartsToken(t[0])
    requires if t[0] == RBRACKET then t == [RBRACKET] && es == [EndArray(0)] else ElementsRead(cfg, t, 0, es)
    ensures ValueReads(cfg, [LBRACKET] + ws + t, [StartArray] + es)
  {
    forall post: Text, sent: seq<Event>
      ensures AnyValue(cfg, [LBRACKET] + ws + t + post, sent) == Done(post, sent + ([StartArray] + es))
    {
      var s, t' := [LBRACKET] + ws + t + post, t + post;
      assert s[1..] == ws + t' && t'[0] == t[0];
      assert t == [RBRACKET] ==> t'[1..] == post;
      SkipLayout(cfg, ws, t');
      assert sent + [StartArray] + es == sent + ([StartArray] + es);
      assert ArrayStart(cfg, t', sent + [StartArray]) == Done(post, sent + ([StartArray] + es));
      ArrayReadsAt(cfg, s, t', sent, Done(post, sent + ([StartArray] + es)));
    }
  }

  lemma ObjectReadsAt(cfg: Config, s: Text, t: Text, sent: seq<Event>, r: Outcome)
    requires AcceptsAll(cfg) && Peek(s) == LBRACE && Skip(cfg, s[1..]) == Good((), t)
    requires ObjectStart(cfg, t, sent + [StartObject]) == r
    ensures AnyValue(cfg, s, sent) == r
  {
  }

  lemma ObjectReads(cfg: Config, ws: Text, t: Text, es: seq<Event>)
    requires AcceptsAll(cfg) && AllSpace(ws) && t != [] && StartsToken(t[0])
    requires if t[0] == RBRACE then t == [RBRACE] && es == [EndObject(0)] else MembersRead(cfg, t, 0, es)
    ensures ValueReads(cfg, [LBRACE] + ws + t, [StartObject] + es)
  {
    forall post: Text, sent: seq<Event>
      ensures AnyValue(cfg, [LBRACE] + ws + t + post, sent) == Done(post, sent + ([StartObject] + es))
    {
      var s, t' := [LBRACE] + ws + t + post, t + post;
      assert s[1..] == ws + t' && t'[0] == t[0];
      assert t == [RBRACE] ==> t'[1..] == post;
      SkipLayout(cfg, ws, t');
      assert sent + [StartObject] + es == sent + ([StartObject] + es);
      assert ObjectStart(cfg, t', sent + [StartObject]) == Done(post, sent + ([StartObject] + es));
      ObjectReadsAt(cfg, s, t', sent, Done(post, sent + ([StartObject] + es)));
    }
  }
}
