/** The JSON text of a value, compact or pretty, in UTF-8 or escaped down to ASCII. */
module JsonText {
  import opened Bytes
  import opened Dom
  import opened Unicode

  /** Writer settings: target encoding, and the layout of the pretty writer if it is used. */
  datatype Style = Style(ascii: bool, pretty: bool, indentChar: Byte, indentCount: nat, singleLineArrays: bool)

  // -------------------------------------------------------------- numbers

  function Decimal(n: nat): (r: Text)
    ensures r != []
  {
    if n < 10 then [0x30 + n] else Decimal(n / 10) + [0x30 + n % 10]
  }

  function IntegerText(n: int): Text {
    if n < 0 then [MINUS] + Decimal(-n) else Decimal(n)
  }

  // -------------------------------------------------------------- strings

  /** The letter after the backslash for a unit that must be escaped, 0 for any other. */
  function EscapeLetter(c: Byte): Byte {
    match c
    case 0x08 => 0x62
    case 0x09 => 0x74
    case 0x0A => 0x6E
    case 0x0C => 0x66
    case 0x0D => 0x72
    case 0x22 => 0x22
    case 0x5C => 0x5C
    case _ => if c < 0x20 then 0x75 else 0
  }

  function HexText(d: nat): Byte
    requires d < 16
  {
    if d < 10 then 0x30 + d else 0x41 + (d - 10)
  }

  function Hex4Text(n: nat): Text
    requires n < 0x1_0000
  {
    [HexText(n / 4096), HexText(n / 256 % 16), HexText(n / 16 % 16), HexText(n % 16)]
  }

  function UnicodeText(c: Scalar): Text {
    if c <= 0xFFFF then [BACKSLASH, 0x75] + Hex4Text(c)
    else
      var s := c - 0x10000;
      [BACKSLASH, 0x75] + Hex4Text(s / 1024 + 0xD800) + [BACKSLASH, 0x75] + Hex4Text(s % 1024 + 0xDC00)
  }

  /** What is written for the next unit or character of a string, and how many units it takes. */
  datatype Escape = Invalid | Escape(text: Text, taken: nat)

  function EscapeNext(ascii: bool, s: Text): (r: Escape)
    requires s != []
    ensures r.Escape? ==> 1 <= r.taken <= |s|
  {
    var c := s[0];
    if ascii && c >= 0x80 then
      var d := Decode(s);
      if !d.ok then Invalid
      else
        EncodeDecode(s);
        Escape(UnicodeText(d.codepoint), d.taken)
    else if EscapeLetter(c) == 0x75 then Escape([BACKSLASH, 0x75, 0x30, 0x30, HexText(c / 16), HexText(c % 16)], 1)
    else if EscapeLetter(c) != 0 then Escape([BACKSLASH, EscapeLetter(c)], 1)
    else Escape([c], 1)
  }

  /** A string between its quotes; an ASCII target cannot express malformed UTF-8. */
  function EscapeAll(ascii: bool, s: Text): Option<Text>
    decreases |s|
  {
    if s == [] then Some([])
    else
      match EscapeNext(ascii, s)
      case Invalid => None
      case Escape(text, n) =>
        match EscapeAll(ascii, s[n..])
        case None => None
        case Some(rest) => Some(text + rest)
  }

  function Quote(ascii: bool, s: Text): Option<Text> {
    match EscapeAll(ascii, s)
    case None => None
    case Some(t) => Some([QUOTE] + t + [QUOTE])
  }

  // --------------------------------------------------------------- layout

  function Repeat(c: Byte, n: nat): Text {
    seq(n, _ => c)
  }

  function Indent(style: Style, depth: nat): Text {
    Repeat(style.indentChar, depth * style.indentCount)
  }

  function NewLine(style: Style, depth: nat): Text {
    [LF] + Indent(style, depth)
  }

  /** What precedes an array element, inside `depth` containers. */
  function BeforeElement(style: Style, depth: nat, first: bool): Text {
    (if first then [] else [COMMA])
    + if !style.pretty then []
      else if style.singleLineArrays then (if first then [] else [SPACE])
      else NewLine(style, depth)
  }

  /** What precedes a member name. */
  function BeforeName(style: Style, depth: nat, first: bool): Text {
    (if first then [] else [COMMA]) + if style.pretty then NewLine(style, depth) else []
  }

  /** What stands between a member name and its value. */
  function BeforeMember(style: Style): Text {
    [COLON] + if style.pretty then [SPACE] else []
  }

  /** What precedes a closing bracket, `depth` containers staying open. */
  function BeforeClose(style: Style, depth: nat, isArray: bool, empty: bool): Text {
    if empty || !style.pretty || (isArray && style.singleLineArrays) then [] else NewLine(style, depth)
  }

  /** The indentation of a level: so many times the number of characters asked for, and nothing else. */
  lemma IndentExactly(style: Style, depth: nat, t: Text)
    ensures Indent(style, depth) == t <==> |t| == depth * style.indentCount && forall i :: 0 <= i < |t| ==> t[i] == style.indentChar
  {
  }

  /**
   * The layout of the pretty writer: members and elements on lines of their own, indented by their
   * level, as is the closing bracket by that of the container; elements on one line if asked for.
   */
  lemma LaidOut(style: Style, depth: nat, indent: Text)
    requires style.pretty && Indent(style, depth) == indent
    ensures BeforeName(style, depth, true) == [LF] + indent && BeforeName(style, depth, false) == [COMMA, LF] + indent
    ensures BeforeMember(style) == [COLON, SPACE]
    ensures !style.singleLineArrays ==>
      && BeforeElement(style, depth, true) == [LF] + indent && BeforeElement(style, depth, false) == [COMMA, LF] + indent
      && BeforeClose(style, depth, true, false) == [LF] + indent
    ensures style.singleLineArrays ==>
      && BeforeElement(style, depth, true) == [] && BeforeElement(style, depth, false) == [COMMA, SPACE]
      && BeforeClose(style, depth, true, false) == []
    ensures BeforeClose(style, depth, false, false) == [LF] + indent
    ensures BeforeClose(style, depth, true, true) == BeforeClose(style, depth, false, true) == []
  {
    assert [COMMA, LF] + indent == [COMMA] + ([LF] + indent);
  }

  // --------------------------------------------------------------- values

  const NULL: Text := [0x6E, 0x75, 0x6C, 0x6C]
  const TRUE: Text := [0x74, 0x72, 0x75, 0x65]
  const FALSE: Text := [0x66, 0x61, 0x6C, 0x73, 0x65]

  function QuoteText(style: Style, s: Text): Text {
    var q := Quote(style.ascii, s);
    if q.Some? then q.value else []
  }

  /** The text of a value that `depth` containers enclose. */
  function Json(style: Style, v: Value, depth: nat): Text
    decreases v, 0
  {
    match v
    case NullValue => NULL
    case BoolValue(b) => if b then TRUE else FALSE
    case Number(_, _) => IntegerText(IntegerOf(v))
    case Real(literal) => literal
    case StringValue(s) => QuoteText(style, s)
    case Array(es) =>
      [LBRACKET] + Items(style, es, depth + 1, true) + BeforeClose(style, depth, true, es == []) + [RBRACKET]
    case Object(ms) =>
      [LBRACE] + Members(style, ms, depth + 1, true) + BeforeClose(style, depth, false, ms == []) + [RBRACE]
  }

  function ItemText(style: Style, v: Value, depth: nat, first: bool): Text
    decreases v, 1
  {
    BeforeElement(style, depth, first) + Json(style, v, depth)
  }

  function Items(style: Style, es: seq<Value>, depth: nat, first: bool): Text
    decreases es, 1
  {
    if es == [] then [] else ItemText(style, es[0], depth, first) + Items(style, es[1..], depth, false)
  }

  function MemberText(style: Style, m: Member, depth: nat, first: bool): Text
    decreases m, 1
  {
    BeforeName(style, depth, first) + QuoteText(style, m.name) + BeforeMember(style) + Json(style, m.value, depth)
  }

  function Members(style: Style, ms: seq<Member>, depth: nat, first: bool): Text
    decreases ms, 1
  {
    if ms == [] then [] else MemberText(style, ms[0], depth, first) + Members(style, ms[1..], depth, false)
  }

  /** Every string of the value can be written, and no number needs floating-point formatting. */
  predicate Writable(style: Style, v: Value)
    decreases v, 0
  {
    match v
    case Real(_) => false
    case StringValue(s) => Quote(style.ascii, s).Some?
    case Array(es) => AllWritable(style, es)
    case Object(ms) => MembersWritable(style, ms)
    case _ => true
  }

  predicate AllWritable(style: Style, es: seq<Value>)
    decreases es, 1
  {
    es == [] || (Writable(style, es[0]) && AllWritable(style, es[1..]))
  }

  predicate MembersWritable(style: Style, ms: seq<Member>)
    decreases ms, 1
  {
    ms == [] || (Quote(style.ascii, ms[0].name).Some? && Writable(style, ms[0].value) && MembersWritable(style, ms[1..]))
  }
}
