/** The string literals of RFC 8259 section 7, and what they spell. */
module StringLiterals {
  import opened Bytes
  import opened Events
  import opened JsonText
  import opened Lexing
  import opened RoundTrip
  import opened Sequences
  import opened Unicode

  const UPPER := "0123456789ABCDEF"
  const LOWER := "0123456789abcdef"

  /** The letters that may follow a backslash, and the characters they stand for. */
  const LETTERS := "\"\\/bfnrt"
  const STANDS_FOR: Text := [0x22, 0x5C, 0x2F, 0x08, 0x0C, 0x0A, 0x0D, 0x09]

  predicate SpellsDigit(c: Byte, d: nat)
    requires d < 16
  {
    c == UPPER[d] as int || c == LOWER[d] as int
  }

  /** Four hexadecimal digits, each in either case, that spell `n`. */
  predicate Spells(t: Text, n: nat)
    requires n < 0x1_0000
  {
    && |t| == 4
    && SpellsDigit(t[0], n / 4096) && SpellsDigit(t[1], n / 256 % 16)
    && SpellsDigit(t[2], n / 16 % 16) && SpellsDigit(t[3], n % 16)
  }

  /** What may stand between the quotes: a character, a short escape, a Unicode escape, a pair of them. */
  datatype Item = Plain(bytes: Text) | Short(k: nat) | Code(n: nat, digits: Text) | Pair(c: nat, lead: Text, trail: Text)

  predicate IsLead(n: nat) {
    0xD800 <= n <= 0xDBFF
  }

  predicate IsTrail(n: nat) {
    0xDC00 <= n <= 0xDFFF
  }

  predicate ItemFits(cfg: Config, item: Item) {
    match item
    case Plain(b) =>
      (if cfg.validate then IsUtf8Char(b) else |b| == 1) && b[0] >= 0x20 && b[0] != QUOTE && b[0] != BACKSLASH
    case Short(k) => k < 8
    case Code(n, digits) => n < 0x1_0000 && !IsLead(n) && Spells(digits, n)
    case Pair(c, lead, trail) =>
      0x10000 <= c <= 0x10FFFF && Spells(lead, 0xD800 + (c - 0x10000) / 1024) && Spells(trail, 0xDC00 + (c - 0x10000) % 1024)
  }

  predicate ItemsFit(cfg: Config, items: seq<Item>) {
    forall i :: 0 <= i < |items| ==> ItemFits(cfg, items[i])
  }

  function ItemText(item: Item): Text {
    match item
    case Plain(b) => b
    case Short(k) => if k < 8 then [BACKSLASH, LETTERS[k] as int] else []
    case Code(_, digits) => [BACKSLASH, 0x75] + digits
    case Pair(_, lead, trail) => [BACKSLASH, 0x75] + (lead + ([BACKSLASH, 0x75] + trail))
  }

  /** The bytes an item puts into the string: those of UTF-8. */
  function ItemBytes(item: Item): Text {
    match item
    case Plain(b) => b
    case Short(k) => if k < 8 then [STANDS_FOR[k]] else []
    case Code(n, _) => if n <= 0x10FFFF then Encode(n) else []
    case Pair(c, _, _) => if c <= 0x10FFFF then Encode(c) else []
  }

  function ItemsText(items: seq<Item>): Text {
    if items == [] then [] else ItemText(items[0]) + ItemsText(items[1..])
  }

  function ItemsBytes(items: seq<Item>): Text {
    if items == [] then [] else ItemBytes(items[0]) + ItemsBytes(items[1..])
  }

  // --------------------------------------------------------------- tables

  /** A hexadecimal digit is read as its place among the sixteen, in either case. */
  lemma HexDigitExact(c: Byte, d: nat)
    requires d < 16
    ensures HexDigit(c) == d <==> SpellsDigit(c, d)
  {
    if HexDigit(c) >= 0 {
      PlaceOf(c);
    }
    if SpellsDigit(c, d) {
      Places(c, d);
    }
  }

  lemma PlaceOf(c: Byte)
    requires HexDigit(c) >= 0
    ensures SpellsDigit(c, HexDigit(c))
  {
    assert UPPER == ['0', '1', '2', '3', '4', '5', '6', '7', '8', '9', 'A', 'B', 'C', 'D', 'E', 'F'];
    assert LOWER == ['0', '1', '2', '3', '4', '5', '6', '7', '8', '9', 'a', 'b', 'c', 'd', 'e', 'f'];
  }

  lemma Places(c: Byte, d: nat)
    requires d < 16 && SpellsDigit(c, d)
    ensures HexDigit(c) == d
  {
  }

  /** The short escapes are the eight of the standard, the solidus among them. */
  lemma UnescapeExact(e: Byte, c: Byte)
    requires c != 0
    ensures Unescape(e) == c <==> exists k: nat :: k < 8 && LETTERS[k] as int == e && STANDS_FOR[k] == c
  {
    if Unescape(e) == c {
      var k := ShortOf(e);
    }
    forall k: nat | k < 8 && LETTERS[k] as int == e && STANDS_FOR[k] == c
      ensures Unescape(e) == c
    {
      ShortReads(k);
    }
  }

  lemma ShortOf(e: Byte) returns (k: nat)
    requires Unescape(e) != 0
    ensures k < 8 && LETTERS[k] as int == e && STANDS_FOR[k] == Unescape(e)
  {
    k := if e == 0x22 then 0 else if e == 0x5C then 1 else if e == 0x2F then 2 else if e == 0x62 then 3
         else if e == 0x66 then 4 else if e == 0x6E then 5 else if e == 0x72 then 6 else 7;
  }

  lemma ShortReads(k: nat)
    requires k < 8
    ensures Unescape(LETTERS[k] as int) == STANDS_FOR[k] != 0
  {
  }

  // ------------------------------------------------------------- complete

  /** Digits in any mix of cases read as the number they spell. */
  lemma SpelledReads(t: Text, n: nat, post: Text)
    requires n < 0x1_0000 && Spells(t, n)
    ensures Hex4(t + post) == Good(n, post)
  {
    HexSplits(n);
    HexDigitExact(t[0], n / 4096);
    HexDigitExact(t[1], n / 256 % 16);
    HexDigitExact(t[2], n / 16 % 16);
    HexDigitExact(t[3], n % 16);
    var s := t + post;
    assert s[0] == t[0] && s[1] == t[1] && s[2] == t[2] && s[3] == t[3] && s[4..] == post;
  }

  /** A lead surrogate followed by the escape of a trail surrogate. */
  lemma SurrogatesRead(s: Text, lead: nat, s1: Text, trail: nat, post: Text)
    requires Hex4(s) == Good(lead, s1) && IsLead(lead)
    requires Peek(s1) == BACKSLASH && Peek(s1[1..]) == 0x75
    requires Hex4(s1[2..]) == Good(trail, post) && IsTrail(trail)
    ensures UnicodeEscape(s) == Good((lead - 0xD800) * 0x400 + (trail - 0xDC00) + 0x10000, post)
  {
  }

  lemma SurrogatesSplit(c: nat, lead: nat, trail: nat)
    requires 0x10000 <= c <= 0x10FFFF && lead == 0xD800 + (c - 0x10000) / 1024 && trail == 0xDC00 + (c - 0x10000) % 1024
    ensures IsLead(lead) && IsTrail(trail) && (lead - 0xD800) * 0x400 + (trail - 0xDC00) + 0x10000 == c
  {
  }

  lemma PairSpelledReads(c: nat, lead: Text, trail: Text, post: Text)
    requires 0x10000 <= c <= 0x10FFFF
    requires Spells(lead, 0xD800 + (c - 0x10000) / 1024) && Spells(trail, 0xDC00 + (c - 0x10000) % 1024)
    ensures UnicodeEscape(lead + ([BACKSLASH, 0x75] + (trail + post))) == Good(c, post)
  {
    var (m, n) := (0xD800 + (c - 0x10000) / 1024, 0xDC00 + (c - 0x10000) % 1024);
    var s2 := trail + post;
    var s1 := [BACKSLASH, 0x75] + s2;
    SurrogatesSplit(c, m, n);
    SpelledReads(lead, m, s1);
    assert s1[1..][0] == 0x75 && s1[2..] == s2;
    SpelledReads(trail, n, post);
    SurrogatesRead(lead + s1, m, s1, n, post);
  }

  lemma CodeReads(cfg: Config, n: nat, digits: Text, post: Text, acc: Text)
    requires n < 0x1_0000 && !IsLead(n) && Spells(digits, n)
    ensures ScanString(cfg, [BACKSLASH, 0x75] + digits + post, acc) == ScanString(cfg, post, acc + Encode(n))
  {
    var u: Text := [BACKSLASH, 0x75];
    Joins3(u, digits, post);
    SpelledReads(digits, n, post);
    EscapeUReads(cfg, u + digits + post, digits + post, n, post, acc);
  }

  lemma PairReadsAs(cfg: Config, c: nat, lead: Text, trail: Text, post: Text, acc: Text)
    requires 0x10000 <= c <= 0x10FFFF
    requires Spells(lead, 0xD800 + (c - 0x10000) / 1024) && Spells(trail, 0xDC00 + (c - 0x10000) % 1024)
    ensures ScanString(cfg, [BACKSLASH, 0x75] + (lead + ([BACKSLASH, 0x75] + trail)) + post, acc)
      == ScanString(cfg, post, acc + Encode(c))
  {
    var u: Text := [BACKSLASH, 0x75];
    PairJoins(u, lead, trail, post);
    PairSpelledReads(c, lead, trail, post);
    EscapeUReads(cfg, u + (lead + (u + trail)) + post, lead + (u + (trail + post)), c, post, acc);
  }

  lemma PlainItemReads(cfg: Config, b: Text)
    requires ItemFits(cfg, Plain(b))
    ensures ReadsAs(cfg, b, b)
  {
    if |b| == 1 {
      PlainReads(cfg, b[0]);
      assert b == [b[0]];
    } else {
      ShapeOfChar(b, []);
      assert b + [] == b;
      DecodeExact(b);
      EncodeDecode(b);
      assert b[..|b|] == b;
      HighBytes(b);
      CharacterReads(cfg, Decode(b).codepoint);
    }
  }

  lemma ItemReads(cfg: Config, item: Item, post: Text, acc: Text)
    requires ItemFits(cfg, item)
    ensures ScanString(cfg, ItemText(item) + post, acc) == ScanString(cfg, post, acc + ItemBytes(item))
  {
    match item
    case Plain(b) => PlainItemReads(cfg, b);
    case Short(k) =>
      ShortReads(k);
      LetterReads(cfg, LETTERS[k] as int, STANDS_FOR[k]);
    case Code(n, digits) => CodeReads(cfg, n, digits, post, acc);
    case Pair(c, lead, trail) => PairReadsAs(cfg, c, lead, trail, post, acc);
  }

  lemma {:induction false} ItemsRead(cfg: Config, items: seq<Item>, post: Text, acc: Text)
    requires ItemsFit(cfg, items)
    ensures ScanString(cfg, ItemsText(items) + ([QUOTE] + post), acc) == Good(acc + ItemsBytes(items), post)
  {
    var end := [QUOTE] + post;
    if items == [] {
      assert [] + end == end && acc + [] == acc;
      ClosingQuote(cfg, post, acc);
    } else {
      var t, rest := ItemText(items[0]), ItemsText(items[1..]);
      Joins3(t, rest, end);
      ItemReads(cfg, items[0], rest + end, acc);
      ItemsRead(cfg, items[1..], post, acc + ItemBytes(items[0]));
      Joins3(acc, ItemBytes(items[0]), ItemsBytes(items[1..]));
    }
  }

  // ---------------------------------------------------------------- sound

  lemma HexJoins(a: nat, b: nat, c: nat, d: nat)
    requires a < 16 && b < 16 && c < 16 && d < 16
    ensures var n := ((a * 16 + b) * 16 + c) * 16 + d;
      n < 0x1_0000 && n / 4096 == a && n / 256 % 16 == b && n / 16 % 16 == c && n % 16 == d
  {
  }

  lemma DigitsSpell(t: Text, a: nat, b: nat, c: nat, d: nat)
    requires |t| == 4 && a < 16 && b < 16 && c < 16 && d < 16
    requires SpellsDigit(t[0], a) && SpellsDigit(t[1], b) && SpellsDigit(t[2], c) && SpellsDigit(t[3], d)
    ensures ((a * 16 + b) * 16 + c) * 16 + d < 0x1_0000 && Spells(t, ((a * 16 + b) * 16 + c) * 16 + d)
  {
    HexJoins(a, b, c, d);
  }

  lemma SpelledOf(s: Text)
    requires Hex4(s).Good?
    ensures |s| >= 4 && Spells(s[..4], Hex4(s).value)
    ensures s == s[..4] + Hex4(s).rest
  {
    FourDigits(s, s[..4], HexDigit(s[0]), HexDigit(s[1]), HexDigit(s[2]), HexDigit(s[3]));
  }

  lemma SpelledAs(s: Text, n: nat, rest: Text)
    requires Hex4(s) == Good(n, rest)
    ensures |s| >= 4 && n < 0x1_0000 && Spells(s[..4], n) && s == s[..4] + rest
  {
    SpelledOf(s);
  }

  lemma FourDigits(s: Text, t: Text, a: nat, b: nat, c: nat, d: nat)
    requires |s| >= 4 && t == s[..4] && HexDigit(s[0]) == a && HexDigit(s[1]) == b && HexDigit(s[2]) == c && HexDigit(s[3]) == d
    ensures ((a * 16 + b) * 16 + c) * 16 + d < 0x1_0000 && Spells(t, ((a * 16 + b) * 16 + c) * 16 + d)
  {
    PlaceOf(s[0]);
    PlaceOf(s[1]);
    PlaceOf(s[2]);
    PlaceOf(s[3]);
    DigitsSpell(t, a, b, c, d);
  }

  /** The parts of a pair of escapes, which the reader took. */
  lemma SurrogatesOf(s: Text) returns (lead: nat, s1: Text, trail: nat, post: Text)
    requires UnicodeEscape(s).Good? && Hex4(s).Good? && IsLead(Hex4(s).value)
    ensures Hex4(s) == Good(lead, s1) && Peek(s1) == BACKSLASH && Peek(s1[1..]) == 0x75
    ensures Hex4(s1[2..]) == Good(trail, post) && IsLead(lead) && IsTrail(trail)
    ensures UnicodeEscape(s) == Good((lead - 0xD800) * 0x400 + (trail - 0xDC00) + 0x10000, post)
  {
    lead, s1 := Hex4(s).value, Hex4(s).rest;
    trail, post := Hex4(s1[2..]).value, Hex4(s1[2..]).rest;
  }

  lemma SurrogatesJoin(lead: nat, trail: nat, c: nat)
    requires IsLead(lead) && IsTrail(trail) && c == (lead - 0xD800) * 0x400 + (trail - 0xDC00) + 0x10000
    ensures 0x10000 <= c <= 0x10FFFF && lead == 0xD800 + (c - 0x10000) / 1024 && trail == 0xDC00 + (c - 0x10000) % 1024
  {
  }

  lemma PairFrom(cfg: Config, s: Text, lead: nat, s1: Text, trail: nat, post: Text, c: nat) returns (item: Item)
    requires Hex4(s) == Good(lead, s1) && Peek(s1) == BACKSLASH && Peek(s1[1..]) == 0x75
    requires Hex4(s1[2..]) == Good(trail, post) && IsLead(lead) && IsTrail(trail)
    requires c == (lead - 0xD800) * 0x400 + (trail - 0xDC00) + 0x10000
    ensures ItemFits(cfg, item) && item.Pair? && item.c == c
    ensures s == item.lead + ([BACKSLASH, 0x75] + (item.trail + post))
  {
    var s2 := s1[2..];
    SurrogatesJoin(lead, trail, c);
    var (a, b) := (s[..4], s2[..4]);
    SpelledAs(s, lead, s1);
    SpelledAs(s2, trail, post);
    item := PairItem(cfg, c, lead, trail, a, b);
    EscapeStarts(s1);
  }

  lemma DoubleOf(cfg: Config, s: Text) returns (item: Item)
    requires UnicodeEscape(s).Good? && Hex4(s).Good? && IsLead(Hex4(s).value)
    ensures ItemFits(cfg, item) && item.Pair? && item.c == UnicodeEscape(s).value
    ensures s == item.lead + ([BACKSLASH, 0x75] + (item.trail + UnicodeEscape(s).rest))
  {
    var lead, s1, trail, post := SurrogatesOf(s);
    item := PairFrom(cfg, s, lead, s1, trail, post, UnicodeEscape(s).value);
  }

  lemma EscapeStarts(s: Text)
    requires Peek(s) == BACKSLASH && Peek(s[1..]) == 0x75
    ensures s == [BACKSLASH, 0x75] + s[2..]
  {
  }

  lemma SingleOf(cfg: Config, s: Text) returns (item: Item)
    requires UnicodeEscape(s).Good? && Hex4(s).Good? && !IsLead(Hex4(s).value)
    ensures ItemFits(cfg, item) && item.Code? && item.n == UnicodeEscape(s).value
    ensures s == item.digits + UnicodeEscape(s).rest
  {
    SpelledOf(s);
    item := Code(Hex4(s).value, s[..4]);
  }

  lemma CodeOf(cfg: Config, s: Text) returns (item: Item)
    requires UnicodeEscape(s).Good?
    ensures ItemFits(cfg, item) && [BACKSLASH, 0x75] + s == ItemText(item) + UnicodeEscape(s).rest
    ensures ItemBytes(item) == Encode(UnicodeEscape(s).value)
  {
    var u: Text := [BACKSLASH, 0x75];
    var r := UnicodeEscape(s).rest;
    if IsLead(Hex4(s).value) {
      item := DoubleOf(cfg, s);
      PairJoins(u, item.lead, item.trail, r);
    } else {
      item := SingleOf(cfg, s);
      Joins3(u, item.digits, r);
    }
  }

  lemma PairItem(cfg: Config, c: nat, m: nat, n: nat, lead: Text, trail: Text) returns (item: Item)
    requires 0x10000 <= c <= 0x10FFFF && m == 0xD800 + (c - 0x10000) / 1024 && n == 0xDC00 + (c - 0x10000) % 1024
    requires Spells(lead, m) && Spells(trail, n)
    ensures item == Pair(c, lead, trail) && ItemFits(cfg, item)
  {
    item := Pair(c, lead, trail);
  }

  lemma PairJoins(u: Text, lead: Text, trail: Text, r: Text)
    ensures u + (lead + (u + (trail + r))) == (u + (lead + (u + trail))) + r
  {
  }

  lemma PlainOf(cfg: Config, s: Text) returns (item: Item)
    requires s != [] && s[0] >= 0x20 && s[0] != QUOTE && s[0] != BACKSLASH
    requires cfg.validate ==> Decode(s).ok && Decode(s).taken <= |s|
    ensures item.Plain? && ItemFits(cfg, item)
    ensures item.bytes == s[..if cfg.validate then Decode(s).taken else 1]
    ensures s == item.bytes + s[|item.bytes|..]
  {
    if cfg.validate {
      FirstChar(s);
      item := Plain(s[..Decode(s).taken]);
    } else {
      item := Plain(s[..1]);
    }
  }

  /** The first item of what is read as a string, and what it contributes. */
  lemma ItemOf(cfg: Config, s: Text, acc: Text) returns (item: Item, rest: Text)
    requires ScanString(cfg, s, acc).Good? && Peek(s) != QUOTE
    ensures ItemFits(cfg, item) && s == ItemText(item) + rest && |rest| < |s|
    ensures ScanString(cfg, s, acc) == ScanString(cfg, rest, acc + ItemBytes(item))
  {
    if s[0] == BACKSLASH {
      var e := Peek(s[1..]);
      if Unescape(e) != 0 {
        var k := ShortOf(e);
        item, rest := Short(k), s[2..];
        assert s == [BACKSLASH, e] + s[2..];
      } else {
        item := CodeOf(cfg, s[2..]);
        rest := UnicodeEscape(s[2..]).rest;
        assert s == [BACKSLASH, 0x75] + s[2..];
      }
    } else {
      item := PlainOf(cfg, s);
      rest := s[|item.bytes|..];
      assert !cfg.validate ==> item.bytes == [s[0]];
    }
  }

  lemma {:induction false} ItemsOf(cfg: Config, s: Text, acc: Text) returns (items: seq<Item>)
    requires ScanString(cfg, s, acc).Good?
    ensures var r := ScanString(cfg, s, acc);
      ItemsFit(cfg, items) && s == ItemsText(items) + ([QUOTE] + r.rest) && r.value == acc + ItemsBytes(items)
    decreases |s|
  {
    if Peek(s) == QUOTE {
      items := [];
      assert acc + [] == acc;
    } else {
      var item, rest := ItemOf(cfg, s, acc);
      var tail := ItemsOf(cfg, rest, acc + ItemBytes(item));
      items := [item] + tail;
      assert items[1..] == tail;
      Joins3(ItemText(item), ItemsText(tail), [QUOTE] + ScanString(cfg, s, acc).rest);
      Joins3(acc, ItemBytes(item), ItemsBytes(tail));
    }
  }

  /** `s` is items that spell `v`, a quote and `r`. */
  ghost predicate SpellsString(cfg: Config, s: Text, v: Text, r: Text) {
    exists items :: ItemsFit(cfg, items) && s == ItemsText(items) + ([QUOTE] + r) && v == ItemsBytes(items)
  }

  /** A string is read exactly when the standard's items spell it up to a quote, and reads as they spell. */
  lemma StringExactly(cfg: Config, s: Text, v: Text, r: Text)
    ensures ScanString(cfg, s, []) == Good(v, r) <==> SpellsString(cfg, s, v, r)
  {
    if ScanString(cfg, s, []) == Good(v, r) {
      var items := ItemsOf(cfg, s, []);
      assert [] + ItemsBytes(items) == ItemsBytes(items);
    }
    if SpellsString(cfg, s, v, r) {
      var items :| ItemsFit(cfg, items) && s == ItemsText(items) + ([QUOTE] + r) && v == ItemsBytes(items);
      ItemsRead(cfg, items, r, []);
      assert [] + v == v;
    }
  }

  // ---------------------------------------------------------- well-formed

  lemma CharThen(b: Text, rest: Text)
    requires IsUtf8Char(b)
    ensures DecodeAll(b + rest).Some? <==> DecodeAll(rest).Some?
  {
    ShapeOfChar(b, rest);
    DecodeExact(b + rest);
    assert (b + rest)[|b|..] == rest;
  }

  lemma ScalarThen(c: Scalar, rest: Text)
    ensures DecodeAll(Encode(c) + rest).Some? <==> DecodeAll(rest).Some?
  {
    DecodeEncode(c, rest);
    assert (Encode(c) + rest)[|Encode(c)|..] == rest;
  }

  lemma TrailThen(n: nat, rest: Text)
    requires IsTrail(n)
    ensures DecodeAll(Encode(n) + rest).None?
  {
    var s := Encode(n) + rest;
    assert n / 4096 == 13 && n / 64 % 64 >= 48;
    assert s[0] == 0xED && At(s, 1) == Encode(n)[1] >= 0xB0;
    MaskMeaning(At(s, 1));
  }

  predicate NoTrail(items: seq<Item>) {
    forall i :: 0 <= i < |items| ==> !(items[i].Code? && IsTrail(items[i].n))
  }

  lemma ItemThen(cfg: Config, item: Item, rest: Text)
    requires cfg.validate && ItemFits(cfg, item) && !(item.Code? && IsTrail(item.n))
    ensures DecodeAll(ItemBytes(item) + rest).Some? <==> DecodeAll(rest).Some?
  {
    match item
    case Plain(b) => CharThen(b, rest);
    case Short(k) => CharThen([STANDS_FOR[k]], rest);
    case Code(n, _) => ScalarThen(n, rest);
    case Pair(c, _, _) => ScalarThen(c, rest);
  }

  /** A validating reader puts well-formed UTF-8 exactly when no trail surrogate is escaped alone. */
  lemma {:induction false} ValidatedExactly(cfg: Config, items: seq<Item>)
    requires cfg.validate && ItemsFit(cfg, items)
    ensures DecodeAll(ItemsBytes(items)).Some? <==> NoTrail(items)
  {
    if items != [] {
      var rest := ItemsBytes(items[1..]);
      ValidatedExactly(cfg, items[1..]);
      assert NoTrail(items) <==> !(items[0].Code? && IsTrail(items[0].n)) && NoTrail(items[1..]) by {
        assert items == [items[0]] + items[1..];
      }
      if items[0].Code? && IsTrail(items[0].n) {
        TrailThen(items[0].n, rest);
      } else {
        ItemThen(cfg, items[0], rest);
      }
    }
  }

  const LONE_TRAIL: Text := [BACKSLASH, 0x75, 0x64, 0x63, 0x30, 0x30, QUOTE]

  /** `\udc00` alone is read even by a validating reader, into bytes that are no UTF-8. */
  lemma LoneTrailSlipsThrough(cfg: Config)
    ensures ScanString(cfg, LONE_TRAIL, []) == Good([0xED, 0xB0, 0x80], []) && DecodeAll([0xED, 0xB0, 0x80]).None?
  {
    assert LONE_TRAIL[2..] == [0x64, 0x63, 0x30, 0x30, QUOTE];
    var after := LONE_TRAIL[2..];
    assert Hex4(after) == Good(0xDC00, after[4..]);
    EscapeUReads(cfg, LONE_TRAIL, after, 0xDC00, [QUOTE], []);
    assert [] + Encode(0xDC00) == [0xED, 0xB0, 0x80];
    TrailThen(0xDC00, []);
    assert Encode(0xDC00) + [] == [0xED, 0xB0, 0x80];
    assert [QUOTE][1..] == [];
  }

  // -------------------------------------------------------------- written

  predicate AllUpper(t: Text) {
    forall i :: 0 <= i < |t| ==> !(0x61 <= t[i] <= 0x66)
  }

  /** What the writer chooses among the spellings of a string. */
  predicate Canonical(ascii: bool, item: Item) {
    match item
    case Plain(b) => |b| == 1 && (ascii ==> b[0] < 0x80)
    case Short(k) => k < 8 && STANDS_FOR[k] != SLASH
    case Code(n, digits) => AllUpper(digits) && (if n < 0x80 then n < 0x20 && n !in STANDS_FOR else ascii)
    case Pair(_, lead, trail) => ascii && AllUpper(lead) && AllUpper(trail)
  }

  predicate AllCanonical(ascii: bool, items: seq<Item>) {
    forall i :: 0 <= i < |items| ==> Canonical(ascii, items[i])
  }

  lemma Hex4Spells(n: nat)
    requires n < 0x1_0000
    ensures Spells(Hex4Text(n), n) && AllUpper(Hex4Text(n))
  {
    HexSplits(n);
    HexSpells(n / 4096);
    HexSpells(n / 256 % 16);
    HexSpells(n / 16 % 16);
    HexSpells(n % 16);
  }

  lemma HexSpells(d: nat)
    requires d < 16
    ensures SpellsDigit(HexText(d), d) && !(0x61 <= HexText(d) <= 0x66)
  {
  }

  lemma PairTextIs(u: Text, a: Text, b: Text)
    ensures u + a + u + b == u + (a + (u + b))
  {
  }

  lemma PairWritten(cfg: Config, c: Scalar, m: nat, n: nat) returns (item: Item)
    requires c > 0xFFFF && m == 0xD800 + (c - 0x10000) / 1024 && n == 0xDC00 + (c - 0x10000) % 1024
    ensures ItemFits(cfg, item) && Canonical(true, item)
    ensures ItemText(item) == [BACKSLASH, 0x75] + Hex4Text(m) + [BACKSLASH, 0x75] + Hex4Text(n)
    ensures ItemBytes(item) == Encode(c)
  {
    var (a, b) := (Hex4Text(m), Hex4Text(n));
    Hex4Spells(m);
    Hex4Spells(n);
    item := PairItem(cfg, c, m, n, a, b);
    PairTextIs([BACKSLASH, 0x75], a, b);
  }

  lemma UnicodeTextIs(c: Scalar, m: nat, n: nat)
    requires c > 0xFFFF && m == 0xD800 + (c - 0x10000) / 1024 && n == 0xDC00 + (c - 0x10000) % 1024
    ensures UnicodeText(c) == [BACKSLASH, 0x75] + Hex4Text(m) + [BACKSLASH, 0x75] + Hex4Text(n)
  {
  }

  lemma CodeWritten(cfg: Config, c: Scalar) returns (item: Item)
    requires (c < 0x20 && c !in STANDS_FOR) || c >= 0x80
    ensures ItemFits(cfg, item) && Canonical(true, item) && (c < 0x20 ==> Canonical(false, item))
    ensures ItemText(item) == UnicodeText(c) && ItemBytes(item) == Encode(c)
  {
    if c <= 0xFFFF {
      Hex4Spells(c);
      item := Code(c, Hex4Text(c));
    } else {
      var m: nat, n: nat := 0xD800 + (c - 0x10000) / 1024, 0xDC00 + (c - 0x10000) % 1024;
      UnicodeTextIs(c, m, n);
      item := PairWritten(cfg, c, m, n);
    }
  }

  lemma LetterPlace(c: Byte) returns (k: nat)
    requires EscapeLetter(c) != 0 && EscapeLetter(c) != 0x75
    ensures k < 8 && LETTERS[k] as int == EscapeLetter(c) && STANDS_FOR[k] == c != SLASH
  {
    k := if c == 0x22 then 0 else if c == 0x5C then 1 else if c == 0x08 then 3 else if c == 0x0C then 4
         else if c == 0x0A then 5 else if c == 0x0D then 6 else 7;
  }

  lemma NoLetter(c: Byte)
    requires EscapeLetter(c) == 0x75
    ensures c < 0x20 && c !in STANDS_FOR
    ensures UnicodeText(c) == [BACKSLASH, 0x75, 0x30, 0x30, HexText(c / 16), HexText(c % 16)]
  {
  }

  lemma ItemWritten(cfg: Config, ascii: bool, s: Text) returns (item: Item)
    requires !cfg.validate && s != [] && EscapeNext(ascii, s).Escape?
    ensures ItemFits(cfg, item) && Canonical(ascii, item)
    ensures var e := EscapeNext(ascii, s); ItemText(item) == e.text && ItemBytes(item) == s[..e.taken]
  {
    var c := s[0];
    if ascii && c >= 0x80 {
      HighBytes(s);
      EncodeDecode(s);
      item := CodeWritten(cfg, Decode(s).codepoint);
    } else if EscapeLetter(c) == 0x75 {
      NoLetter(c);
      item := CodeWritten(cfg, c);
    } else if EscapeLetter(c) != 0 {
      var k := LetterPlace(c);
      item := Short(k);
    } else {
      item := Plain([c]);
    }
  }

  /**
   * The writer spells a string by characters as they are, but for the quote, the backslash and the
   * controls: short escapes where there are any, upper-case Unicode escapes otherwise, and those
   * for every character an ASCII target lacks.
   */
  lemma {:induction false} Written(cfg: Config, ascii: bool, s: Text) returns (items: seq<Item>)
    requires !cfg.validate && EscapeAll(ascii, s).Some?
    ensures ItemsFit(cfg, items) && AllCanonical(ascii, items)
    ensures ItemsText(items) == EscapeAll(ascii, s).value && ItemsBytes(items) == s
    decreases |s|
  {
    if s == [] {
      items := [];
    } else {
      var n := EscapeNext(ascii, s).taken;
      var item := ItemWritten(cfg, ascii, s);
      var tail := Written(cfg, ascii, s[n..]);
      items := [item] + tail;
      assert items[1..] == tail;
      TakeDrop(s, n);
    }
  }
}
