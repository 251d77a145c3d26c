/** JSON Pointer text: tokens escaped with `~`, and percent-encoded in URI fragments (RFC 6901 sections 3, 4 and 6). */
module PointerText {
  import opened Bytes
  import opened Unicode
  import Lexing
  import JsonText
  import opened Sequences

  const TILDE: Byte := 0x7E
  const PERCENT: Byte := 0x25
  const HASH: Byte := 0x23
  const ZERO: Byte := 0x30
  const ONE: Byte := 0x31

  /** Anything but the unreserved characters of RFC 3986 section 2.3. */
  predicate NeedsPercent(c: Byte) {
    !(Lexing.IsDigit(c) || 0x41 <= c <= 0x5A || 0x61 <= c <= 0x7A || c == MINUS || c == 0x2E || c == 0x5F || c == TILDE)
  }

  // ------------------------------------------------------- percent triplets

  /** The byte of the triplet in front; None when there is no valid triplet. */
  function TakeByte(s: Text): (r: Option<Byte>)
    ensures r.Some? ==> |s| >= 3
  {
    if |s| < 3 || s[0] != PERCENT then None
    else
      var (h, l) := (Lexing.HexDigit(s[1]), Lexing.HexDigit(s[2]));
      if h < 0 || l < 0 then None else Some(h * 16 + l)
  }

  function Triplet(b: Byte): (r: Text)
    ensures |r| == 3
  {
    [PERCENT, JsonText.HexText(b / 16), JsonText.HexText(b % 16)]
  }

  function Triplets(bs: Text): Text {
    if bs == [] then [] else Triplet(bs[0]) + Triplets(bs[1..])
  }

  /** The bytes of `n` triplets in front. */
  function TakeBytes(s: Text, n: nat): (r: Option<Text>)
    ensures r.Some? ==> |r.value| == n && |s| >= 3 * n
    decreases n
  {
    if n == 0 then Some([])
    else
      match TakeByte(s)
      case None => None
      case Some(b) =>
        match TakeBytes(s[3..], n - 1)
        case None => None
        case Some(bs) => Some([b] + bs)
  }

  /** One UTF-8 character as triplets: how many there are, the lead byte tells. */
  function TakeCharacter(s: Text): (r: Option<Text>)
    ensures r.Some? ==> |r.value| >= 1 && |s| >= 3 * |r.value|
  {
    match TakeByte(s)
    case None => None
    case Some(lead) =>
      match TakeBytes(s, Decode([lead]).taken)
      case None => None
      case Some(bs) => if bs != [] && Decode(bs).ok then Some(bs) else None
  }

  // ---------------------------------------------------------------- parsing

  /** What stands for one character or escape, and the text after it. */
  datatype Unit = Bad | Good(name: Text, rest: Text)

  /** A character, `~0` or `~1`; `c` may have come out of a triplet. */
  function Unescaped(c: Byte, rest: Text): (r: Unit)
    ensures r.Good? ==> |r.rest| <= |rest|
  {
    if c != TILDE then Good([c], rest)
    else if rest == [] then Bad
    else if rest[0] == ZERO then Good([TILDE], rest[1..])
    else if rest[0] == ONE then Good([SLASH], rest[1..])
    else Bad
  }

  function TakeUnit(s: Text, uri: bool): (r: Unit)
    requires s != []
    ensures r.Good? ==> |r.rest| < |s|
  {
    var c := s[0];
    if uri && c == PERCENT then
      match TakeCharacter(s)
      case None => Bad
      case Some(bs) => if |bs| == 1 then Unescaped(bs[0], s[3..]) else Good(bs, s[3 * |bs|..])
    else if uri && NeedsPercent(c) then Bad
    else Unescaped(c, s[1..])
  }

  /** A name, up to the next solidus or the end. */
  function TakeName(s: Text, uri: bool): (r: Unit)
    ensures r.Good? ==> |r.rest| <= |s| && (r.rest == [] || r.rest[0] == SLASH)
    decreases |s|
  {
    if s == [] || s[0] == SLASH then Good([], s)
    else
      match TakeUnit(s, uri)
      case Bad => Bad
      case Good(a, rest) =>
        match TakeName(rest, uri)
        case Bad => Bad
        case Good(b, end) => Good(a + b, end)
  }

  /** The names of a pointer without its hash; each begins with a solidus. */
  function TakeNames(s: Text, uri: bool): Option<seq<Text>>
    decreases |s|
  {
    if s == [] then Some([])
    else if s[0] != SLASH then None
    else
      match TakeName(s[1..], uri)
      case Bad => None
      case Good(name, rest) =>
        match TakeNames(rest, uri)
        case None => None
        case Some(names) => Some([name] + names)
  }

  function Parse(source: Text): Option<seq<Text>> {
    if Peek(source) == HASH then TakeNames(source[1..], true) else TakeNames(source, false)
  }

  // --------------------------------------------------------------- printing

  /** The two characters with a meaning of their own are escaped. */
  function EscapedUnit(c: Byte): (r: Text)
    ensures r != [] && r[0] != SLASH
  {
    if c == TILDE then [TILDE, ZERO] else if c == SLASH then [TILDE, ONE] else [c]
  }

  function Escape(name: Text): Text {
    if name == [] then [] else EscapedUnit(name[0]) + Escape(name[1..])
  }

  function Print(names: seq<Text>): Text {
    if names == [] then [] else [SLASH] + Escape(names[0]) + Print(names[1..])
  }

  /** As in a URI fragment; None when a character that needs encoding is not UTF-8. */
  function EscapeUri(name: Text): Option<Text>
    decreases |name|
  {
    if name == [] then Some([])
    else
      var c := name[0];
      if c == TILDE || c == SLASH || !NeedsPercent(c) then
        match EscapeUri(name[1..])
        case None => None
        case Some(t) => Some(EscapedUnit(c) + t)
      else
        var d := Decode(name);
        if !d.ok then None
        else
          EncodeDecode(name);
          match EscapeUri(name[d.taken..])
          case None => None
          case Some(t) => Some(Triplets(name[..d.taken]) + t)
  }

  function PrintNamesUri(names: seq<Text>): Option<Text> {
    if names == [] then Some([])
    else
      match (EscapeUri(names[0]), PrintNamesUri(names[1..]))
      case (Some(a), Some(b)) => Some([SLASH] + a + b)
      case _ => None
  }

  function PrintUri(names: seq<Text>): Option<Text> {
    match PrintNamesUri(names)
    case None => None
    case Some(t) => Some([HASH] + t)
  }

  // ------------------------------------------------------ text both ways

  predicate EndsName(s: Text) {
    s == [] || s[0] == SLASH
  }

  lemma NameStep(s: Text, uri: bool, a: Text, rest: Text, b: Text, end: Text)
    requires s != [] && s[0] != SLASH && TakeUnit(s, uri) == Good(a, rest) && TakeName(rest, uri) == Good(b, end)
    ensures TakeName(s, uri) == Good(a + b, end)
  {
  }

  lemma NamesStep(s: Text, uri: bool, after: Text, name: Text, rest: Text, names: seq<Text>)
    requires s == [SLASH] + after && TakeName(after, uri) == Good(name, rest) && TakeNames(rest, uri) == Some(names)
    ensures TakeNames(s, uri) == Some([name] + names)
  {
    assert s[1..] == after;
  }

  lemma PlainUnit(c: Byte, rest: Text, uri: bool)
    requires uri ==> c == TILDE || c == SLASH || !NeedsPercent(c)
    ensures TakeUnit(EscapedUnit(c) + rest, uri) == Good([c], rest)
  {
    var s := EscapedUnit(c) + rest;
    if c == TILDE || c == SLASH {
      assert s[1..][1..] == rest;
    } else {
      assert s[1..] == rest;
    }
  }

  lemma HeadAndTail(name: Text)
    requires name != []
    ensures [name[0]] + name[1..] == name
  {
  }

  lemma {:induction false} EscapedReads(name: Text, rest: Text)
    requires EndsName(rest)
    ensures TakeName(Escape(name) + rest, false) == Good(name, rest)
    decreases |name|
  {
    if name == [] {
      assert Escape(name) + rest == rest;
    } else {
      var tail := Escape(name[1..]) + rest;
      EscapedReads(name[1..], rest);
      PlainUnit(name[0], tail, false);
      Joins3(EscapedUnit(name[0]), Escape(name[1..]), rest);
      HeadAndTail(name);
      NameStep(EscapedUnit(name[0]) + tail, false, [name[0]], tail, name[1..], rest);
    }
  }

  lemma PrintBegins(names: seq<Text>)
    ensures EndsName(Print(names))
  {
  }

  lemma {:induction false} PrintedNamesRead(names: seq<Text>)
    ensures TakeNames(Print(names), false) == Some(names)
  {
    if names != [] {
      var (after, rest) := (Escape(names[0]) + Print(names[1..]), Print(names[1..]));
      PrintedNamesRead(names[1..]);
      PrintBegins(names[1..]);
      EscapedReads(names[0], rest);
      Joins3([SLASH], Escape(names[0]), rest);
      NamesStep(Print(names), false, after, names[0], rest, names[1..]);
      assert [names[0]] + names[1..] == names;
    }
  }

  /** Parsing the string form of any list of names gives the names back. */
  lemma PrintThenParse(names: seq<Text>)
    ensures Parse(Print(names)) == Some(names)
  {
    PrintBegins(names);
    PrintedNamesRead(names);
  }

  lemma UnitReprints(s: Text)
    requires s != [] && s[0] != SLASH && TakeUnit(s, false).Good?
    ensures var u := TakeUnit(s, false); |u.name| == 1 && s == EscapedUnit(u.name[0]) + u.rest
  {
    HeadAndTail(s);
    if s[0] == TILDE {
      HeadAndTail(s[1..]);
    }
  }

  lemma EscapeStep(c: Byte, b: Text)
    ensures Escape([c] + b) == EscapedUnit(c) + Escape(b)
  {
    assert ([c] + b)[1..] == b;
  }

  lemma {:induction false} NameReprints(s: Text)
    requires TakeName(s, false).Good?
    ensures var r := TakeName(s, false); s == Escape(r.name) + r.rest
    decreases |s|
  {
    if s != [] && s[0] != SLASH {
      var u := TakeUnit(s, false);
      var r := TakeName(u.rest, false);
      NameReprints(u.rest);
      UnitReprints(s);
      assert u.name == [u.name[0]];
      EscapeStep(u.name[0], r.name);
      Joins3(EscapedUnit(u.name[0]), Escape(r.name), r.rest);
    }
  }

  /** Printing the names of an accepted string-form pointer gives back its text. */
  lemma {:induction false} NamesReprint(s: Text)
    requires TakeNames(s, false).Some?
    ensures Print(TakeNames(s, false).value) == s
    decreases |s|
  {
    if s != [] {
      var r := TakeName(s[1..], false);
      NameReprints(s[1..]);
      NamesReprint(r.rest);
      var names := TakeNames(r.rest, false).value;
      assert ([r.name] + names)[1..] == names;
      HeadAndTail(s);
      Joins3([SLASH], Escape(r.name), r.rest);
    }
  }

  lemma ParseThenPrint(s: Text)
    requires Parse(s).Some? && Peek(s) != HASH
    ensures Print(Parse(s).value) == s
  {
    NamesReprint(s);
  }

  // ---------------------------------------------------------- URI fragments

  lemma TripletReads(b: Byte, rest: Text)
    ensures TakeByte(Triplet(b) + rest) == Some(b)
  {
    var s := Triplet(b) + rest;
    assert s[0] == PERCENT && s[1] == JsonText.HexText(b / 16) && s[2] == JsonText.HexText(b % 16);
  }

  lemma {:induction false} TripletsRead(bs: Text, rest: Text)
    ensures TakeBytes(Triplets(bs) + rest, |bs|) == Some(bs) && |Triplets(bs)| == 3 * |bs|
    decreases |bs|
  {
    if bs != [] {
      var tail := Triplets(bs[1..]) + rest;
      TripletsRead(bs[1..], rest);
      TripletReads(bs[0], tail);
      assert Triplets(bs) + rest == Triplet(bs[0]) + tail;
      assert (Triplet(bs[0]) + tail)[3..] == tail;
      assert [bs[0]] + bs[1..] == bs;
    }
  }

  /** The lead byte of a UTF-8 character tells its length. */
  lemma LeadTells(bs: Text)
    requires IsUtf8Char(bs)
    ensures Decode([bs[0]]).taken == |bs| && Decode(bs).ok && Decode(bs).taken == |bs|
  {
    ShapeOfChar(bs, []);
    assert bs + [] == bs;
    DecodeExact(bs);
  }

  lemma CharacterReads(bs: Text, rest: Text)
    requires IsUtf8Char(bs)
    ensures TakeCharacter(Triplets(bs) + rest) == Some(bs)
  {
    var s := Triplets(bs) + rest;
    LeadTells(bs);
    TripletsRead(bs, rest);
    TripletReads(bs[0], Triplets(bs[1..]) + rest);
    assert s == Triplet(bs[0]) + (Triplets(bs[1..]) + rest);
  }

  lemma PercentUnit(name: Text, rest: Text)
    requires name != [] && NeedsPercent(name[0]) && Decode(name).ok
    ensures var n := Decode(name).taken; 1 <= n <= |name| && TakeUnit(Triplets(name[..n]) + rest, true) == Good(name[..n], rest)
  {
    EncodeDecode(name);
    DecodeExact(name);
    var n := Decode(name).taken;
    var bs := name[..n];
    CharacterReads(bs, rest);
    TripletsRead(bs, rest);
    var s := Triplets(bs) + rest;
    assert s[0] == PERCENT;
    assert s[3 * n..] == rest;
  }

  lemma {:induction false} UriReads(name: Text, rest: Text)
    requires EscapeUri(name).Some? && EndsName(rest)
    ensures TakeName(EscapeUri(name).value + rest, true) == Good(name, rest)
    decreases |name|
  {
    if name == [] {
      assert EscapeUri(name).value + rest == rest;
    } else {
      var c := name[0];
      if c == TILDE || c == SLASH || !NeedsPercent(c) {
        var t := EscapeUri(name[1..]).value;
        UriReads(name[1..], rest);
        PlainUnit(c, t + rest, true);
        Joins3(EscapedUnit(c), t, rest);
        HeadAndTail(name);
        NameStep(EscapedUnit(c) + (t + rest), true, [c], t + rest, name[1..], rest);
      } else {
        EncodedReads(name, rest);
      }
    }
  }

  lemma EscapeUriEncodes(name: Text)
    requires name != [] && name[0] != TILDE && name[0] != SLASH && NeedsPercent(name[0]) && EscapeUri(name).Some?
    ensures Decode(name).ok && 1 <= Decode(name).taken <= |name|
    ensures var n := Decode(name).taken;
      EscapeUri(name[n..]).Some? && EscapeUri(name) == Some(Triplets(name[..n]) + EscapeUri(name[n..]).value)
  {
    EncodeDecode(name);
    DecodeExact(name);
  }

  lemma EncodedStep(name: Text, a: Text, b: Text, head: Text, tail: Text, t: Text, rest: Text)
    requires a + b == name && head != [] && head[0] == PERCENT && tail == t + rest
    requires TakeUnit(head + tail, true) == Good(a, tail) && TakeName(tail, true) == Good(b, rest)
    ensures TakeName((head + t) + rest, true) == Good(name, rest)
  {
    var s := head + tail;
    assert s == (head + t) + rest;
    assert s[0] == PERCENT;
    NameStep(s, true, a, tail, b, rest);
  }

  lemma {:induction false} EncodedReads(name: Text, rest: Text)
    requires name != [] && name[0] != TILDE && name[0] != SLASH && NeedsPercent(name[0])
    requires EscapeUri(name).Some? && EndsName(rest)
    ensures TakeName(EscapeUri(name).value + rest, true) == Good(name, rest)
    decreases |name|, 0
  {
    EscapeUriEncodes(name);
    var n := Decode(name).taken;
    var t := EscapeUri(name[n..]).value;
    var tail := t + rest;
    UriReads(name[n..], rest);
    PercentUnit(name, tail);
    TripletsStart(name[..n]);
    TakeDrop(name, n);
    EncodedStep(name, name[..n], name[n..], Triplets(name[..n]), tail, t, rest);
  }

  lemma TripletsStart(bs: Text)
    requires bs != []
    ensures Triplets(bs) != [] && Triplets(bs)[0] == PERCENT
  {
  }

  lemma {:induction false} UriNamesRead(names: seq<Text>)
    requires PrintNamesUri(names).Some?
    ensures TakeNames(PrintNamesUri(names).value, true) == Some(names) && EndsName(PrintNamesUri(names).value)
  {
    if names != [] {
      UriNamesRead(names[1..]);
      var (a, b) := (EscapeUri(names[0]).value, PrintNamesUri(names[1..]).value);
      UriReads(names[0], b);
      Joins3([SLASH], a, b);
      NamesStep([SLASH] + a + b, true, a + b, names[0], b, names[1..]);
      assert [names[0]] + names[1..] == names;
    }
  }

  /** Parsing the URI fragment form gives the names back. */
  lemma UriThenParse(names: seq<Text>)
    requires PrintUri(names).Some?
    ensures Parse(PrintUri(names).value) == Some(names)
  {
    UriNamesRead(names);
    assert PrintUri(names).value[1..] == PrintNamesUri(names).value;
  }

  /** There is a URI fragment form exactly for UTF-8 names. */
  lemma {:induction false} UriNeedsUtf8(name: Text)
    ensures EscapeUri(name).Some? <==> DecodeAll(name).Some?
    decreases |name|
  {
    if name != [] {
      var c := name[0];
      if c == TILDE || c == SLASH || !NeedsPercent(c) {
        assert Decode(name) == Decoded(true, c, 1);
        UriNeedsUtf8(name[1..]);
      } else if Decode(name).ok {
        EncodeDecode(name);
        DecodeExact(name);
        UriNeedsUtf8(name[Decode(name).taken..]);
      }
    }
  }

  lemma {:induction false} UriExists(names: seq<Text>)
    ensures PrintUri(names).Some? <==> forall i :: 0 <= i < |names| ==> DecodeAll(names[i]).Some?
  {
    if names != [] {
      UriNeedsUtf8(names[0]);
      UriExists(names[1..]);
      assert names == [names[0]] + names[1..];
    }
  }
}
