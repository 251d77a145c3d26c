/** Printing a value and parsing the text gives the value back, getter flags included. */
module PrintParse {
  import opened Bytes
  import opened Events
  import opened Lexing
  import opened Descent
  import opened Dom
  import opened JsonText
  import opened RoundTrip
  import opened Numbers
  import Automaton
  import Reader
  import Writer
  import opened Sequences

  /**
   * What can be printed and read back: integers as their constructors make them, containers whose
   * size fits SizeType, strings the target and the reader can carry.
   */
  predicate Printable(cfg: Config, style: Style, v: Value)
    decreases v, 0
  {
    match v
    case Number(_, _) => ExactNumber(v)
    case Real(_) => false
    case StringValue(s) => StringPrintable(cfg, style, s)
    case Array(es) => |es| < 0x1_0000_0000 && ItemsPrintable(cfg, style, es)
    case Object(ms) => |ms| < 0x1_0000_0000 && MembersPrintable(cfg, style, ms)
    case _ => true
  }

  predicate StringPrintable(cfg: Config, style: Style, s: Text) {
    Quote(style.ascii, s).Some? && Readable(cfg, s)
  }

  predicate ItemsPrintable(cfg: Config, style: Style, es: seq<Value>)
    decreases es, 1
  {
    es == [] || (Printable(cfg, style, es[0]) && ItemsPrintable(cfg, style, es[1..]))
  }

  predicate MembersPrintable(cfg: Config, style: Style, ms: seq<Member>)
    decreases ms, 1
  {
    ms == [] || (StringPrintable(cfg, style, ms[0].name) && Printable(cfg, style, ms[0].value)
      && MembersPrintable(cfg, style, ms[1..]))
  }

  // -------------------------------------------------------------- scalars

  lemma IndentIsSpace(style: Style, depth: nat)
    requires GoodStyle(style)
    ensures AllSpace(Indent(style, depth)) && AllSpace(NewLine(style, depth))
  {
  }

  /** The text of a value starts a token, and no closing bracket. */
  lemma JsonHead(cfg: Config, style: Style, v: Value, depth: nat)
    requires Printable(cfg, style, v)
    ensures var j := Json(style, v, depth);
      j != [] && StartsToken(j[0]) && j[0] != RBRACKET && j[0] != RBRACE && j[0] != 0
  {
    if v.Number? {
      var n := IntegerOf(v);
      if n >= 0 {
        DecimalDigits(n);
      }
    } else if v.Array? || v.Object? {
      assert Json(style, v, depth)[0] == if v.Array? then LBRACKET else LBRACE;
    }
  }

  /** A scalar that a scan turns into one event. */
  lemma ScalarReads(cfg: Config, t: Text, e: Event)
    requires AcceptsAll(cfg) && t != [] && t[0] != LBRACE && t[0] != LBRACKET
    requires forall post: Text :: EndsInteger(Peek(post)) ==> ScanScalar(cfg, t + post) == Good(e, post)
    ensures ValueReads(cfg, t, [e])
  {
    forall post: Text, sent: seq<Event> | EndsInteger(Peek(post))
      ensures AnyValue(cfg, t + post, sent) == Done(post, sent + [e])
    {
      assert (t + post)[0] == t[0];
      assert ScanScalar(cfg, t + post) == Good(e, post);
    }
  }

  lemma LiteralScans(cfg: Config, head: Byte, tail: Text, e: Event, post: Text)
    ensures ScanLiteral([head] + tail + post, tail, e) == Good(e, post)
  {
    var s := [head] + tail + post;
    assert s[1..] == tail + post && s[1 + |tail|..] == post;
  }

  lemma NullReads(cfg: Config)
    requires AcceptsAll(cfg)
    ensures ValueReads(cfg, NULL, [Null])
  {
    assert NULL == [0x6E] + NULL_TAIL;
    forall post: Text | EndsInteger(Peek(post))
      ensures ScanScalar(cfg, NULL + post) == Good(Null, post)
    {
      LiteralScans(cfg, 0x6E, NULL_TAIL, Null, post);
    }
    ScalarReads(cfg, NULL, Null);
  }

  lemma BoolReads(cfg: Config, b: bool)
    requires AcceptsAll(cfg)
    ensures ValueReads(cfg, if b then TRUE else FALSE, [Bool(b)])
  {
    var t := if b then TRUE else FALSE;
    assert TRUE == [0x74] + TRUE_TAIL && FALSE == [0x66] + FALSE_TAIL;
    forall post: Text | EndsInteger(Peek(post))
      ensures ScanScalar(cfg, t + post) == Good(Bool(b), post)
    {
      LiteralScans(cfg, t[0], if b then TRUE_TAIL else FALSE_TAIL, Bool(b), post);
    }
    ScalarReads(cfg, t, Bool(b));
  }

  lemma NumberReads(cfg: Config, n: int)
    requires AcceptsAll(cfg) && IsInteger(n)
    ensures ValueReads(cfg, IntegerText(n), [ReadEvent(n)])
  {
    var t := IntegerText(n);
    if n >= 0 {
      DecimalDigits(n);
    }
    assert t[0] == MINUS || IsDigit(t[0]);
    forall post: Text | EndsInteger(Peek(post))
      ensures ScanScalar(cfg, t + post) == Good(ReadEvent(n), post)
    {
      assert (t + post)[0] == t[0];
      IntegerReads(cfg, n, post);
    }
    ScalarReads(cfg, t, ReadEvent(n));
  }

  lemma StringReads(cfg: Config, style: Style, s: Text)
    requires AcceptsAll(cfg) && StringPrintable(cfg, style, s)
    ensures ValueReads(cfg, QuoteText(style, s), [String(s)])
  {
    var t := QuoteText(style, s);
    forall post: Text | EndsInteger(Peek(post))
      ensures ScanScalar(cfg, t + post) == Good(String(s), post)
    {
      QuoteReads(cfg, style.ascii, s, post);
    }
    ScalarReads(cfg, t, String(s));
  }

  // ----------------------------------------------------------- containers

  /** The text after an element: the other elements, then the end of the array. */
  function ItemsTail(style: Style, es: seq<Value>, depth: nat, ws: Text): Text {
    Items(style, es, depth, false) + (ws + [RBRACKET])
  }

  function MembersTail(style: Style, ms: seq<Member>, depth: nat, ws: Text): Text {
    Members(style, ms, depth, false) + (ws + [RBRACE])
  }

  /** The white space after a comma. */
  function ItemGap(style: Style, depth: nat): Text {
    if !style.pretty then [] else if style.singleLineArrays then [SPACE] else NewLine(style, depth)
  }

  function NameGap(style: Style, depth: nat): Text {
    if style.pretty then NewLine(style, depth) else []
  }

  lemma ItemsTailSplits(style: Style, es: seq<Value>, depth: nat, ws: Text)
    requires es != []
    ensures ItemsTail(style, es, depth, ws)
      == [COMMA] + ItemGap(style, depth) + (Json(style, es[0], depth) + ItemsTail(style, es[1..], depth, ws))
  {
    assert BeforeElement(style, depth, false) == [COMMA] + ItemGap(style, depth);
    assert ItemText(style, es[0], depth, false) == [COMMA] + ItemGap(style, depth) + Json(style, es[0], depth);
    Joins4([COMMA] + ItemGap(style, depth), Json(style, es[0], depth), Items(style, es[1..], depth, false), ws + [RBRACKET]);
  }

  lemma {:induction false} ItemsRead(cfg: Config, style: Style, es: seq<Value>, depth: nat, n: nat, ws: Text)
    requires AcceptsAll(cfg) && GoodStyle(style) && AllSpace(ws)
    requires es != [] && ItemsPrintable(cfg, style, es) && n + |es| < 0x1_0000_0000
    ensures ElementsRead(cfg, Json(style, es[0], depth) + ItemsTail(style, es[1..], depth, ws), n,
      ReadItems(es) + [EndArray(n + |es|)])
    decreases es, 0
  {
    var rest, tail := es[1..], ItemsTail(style, es[1..], depth, ws);
    var end := ReadItems(rest) + [EndArray(n + |es|)];
    JsonReads(cfg, style, es[0], depth);
    if rest == [] {
      assert tail == ws + [RBRACKET] && end == [EndArray(n + 1)];
      TailCloses(cfg, ws, n + 1);
    } else {
      ItemsRead(cfg, style, rest, depth, n + 1, ws);
      ItemsTailSplits(style, rest, depth, ws);
      JsonHead(cfg, style, rest[0], depth);
      IndentIsSpace(style, depth);
      TailContinues(cfg, ItemGap(style, depth), Json(style, rest[0], depth) + ItemsTail(style, rest[1..], depth, ws), n + 1, end);
    }
    ElementStep(cfg, Json(style, es[0], depth), ReadEvents(es[0]), tail, n, end);
    Joins3(ReadEvents(es[0]), ReadItems(rest), [EndArray(n + |es|)]);
  }

  /** The text of a value reads as its events. */
  lemma {:induction false} JsonReads(cfg: Config, style: Style, v: Value, depth: nat)
    requires AcceptsAll(cfg) && GoodStyle(style) && Printable(cfg, style, v)
    ensures ValueReads(cfg, Json(style, v, depth), ReadEvents(v))
    decreases v, 1
  {
    if v.NullValue? {
      NullReads(cfg);
    } else if v.BoolValue? {
      BoolReads(cfg, v.b);
    } else if v.Number? {
      NumberReads(cfg, IntegerOf(v));
    } else if v.StringValue? {
      StringReads(cfg, style, v.s);
    } else if v.Array? {
      JsonArrayReads(cfg, style, v.elements, depth);
    } else {
      JsonObjectReads(cfg, style, v.members, depth);
    }
  }

  /** From the first element to the end of the array. */
  function ItemsFrom(style: Style, es: seq<Value>, depth: nat, ws: Text): Text
    requires es != []
  {
    Json(style, es[0], depth) + ItemsTail(style, es[1..], depth, ws)
  }

  lemma ArrayText(style: Style, es: seq<Value>, depth: nat)
    requires es != []
    ensures Json(style, Array(es), depth) == [LBRACKET] + BeforeElement(style, depth + 1, true)
      + ItemsFrom(style, es, depth + 1, BeforeClose(style, depth, true, false))
  {
    assert ItemText(style, es[0], depth + 1, true) == BeforeElement(style, depth + 1, true) + Json(style, es[0], depth + 1);
    ArrayTextSplits(BeforeElement(style, depth + 1, true), Json(style, es[0], depth + 1),
      Items(style, es[1..], depth + 1, false), BeforeClose(style, depth, true, false));
  }

  lemma ArrayTextSplits(first: Text, j: Text, items: Text, ws: Text)
    ensures [LBRACKET] + (first + j + items) + ws + [RBRACKET] == [LBRACKET] + first + (j + (items + (ws + [RBRACKET])))
  {
  }

  lemma {:induction false} JsonArrayReads(cfg: Config, style: Style, es: seq<Value>, depth: nat)
    requires AcceptsAll(cfg) && GoodStyle(style) && Printable(cfg, style, Array(es))
    ensures ValueReads(cfg, Json(style, Array(es), depth), ReadEvents(Array(es)))
    decreases es, 1
  {
    if es == [] {
      EmptyArrayReads(cfg, style, depth);
    } else {
      IndentIsSpace(style, depth);
      ItemsRead(cfg, style, es, depth + 1, 0, BeforeClose(style, depth, true, false));
      FullArrayReads(cfg, style, es, depth);
    }
  }

  lemma EmptyArrayReads(cfg: Config, style: Style, depth: nat)
    requires AcceptsAll(cfg)
    ensures ValueReads(cfg, Json(style, Array([]), depth), ReadEvents(Array([])))
  {
    ArrayReads(cfg, [], [RBRACKET], [EndArray(0)]);
    assert Json(style, Array([]), depth) == [LBRACKET] + [] + [RBRACKET];
    assert ReadItems([]) + [EndArray(0)] == [EndArray(0)];
  }

  lemma FullArrayReads(cfg: Config, style: Style, es: seq<Value>, depth: nat)
    requires AcceptsAll(cfg) && GoodStyle(style) && es != [] && Printable(cfg, style, es[0])
    requires ElementsRead(cfg, ItemsFrom(style, es, depth + 1, BeforeClose(style, depth, true, false)), 0,
      ReadItems(es) + [EndArray(|es|)])
    ensures ValueReads(cfg, Json(style, Array(es), depth), ReadEvents(Array(es)))
  {
    IndentIsSpace(style, depth + 1);
    JsonHead(cfg, style, es[0], depth + 1);
    ArrayText(style, es, depth);
    var t := ItemsFrom(style, es, depth + 1, BeforeClose(style, depth, true, false));
    assert t[0] == Json(style, es[0], depth + 1)[0];
    ArrayReads(cfg, BeforeElement(style, depth + 1, true), t, ReadItems(es) + [EndArray(|es|)]);
  }

  lemma MembersTailSplits(style: Style, ms: seq<Member>, depth: nat, ws: Text)
    requires ms != []
    ensures MembersTail(style, ms, depth, ws)
      == [COMMA] + NameGap(style, depth) + MembersFrom(style, ms, depth, ws)
  {
    assert BeforeName(style, depth, false) == [COMMA] + NameGap(style, depth);
    assert MemberText(style, ms[0], depth, false) == [COMMA] + NameGap(style, depth) + QuoteText(style, ms[0].name)
      + BeforeMember(style) + Json(style, ms[0].value, depth);
    MemberRegroups([COMMA] + NameGap(style, depth), QuoteText(style, ms[0].name), BeforeMember(style),
      Json(style, ms[0].value, depth), Members(style, ms[1..], depth, false), ws + [RBRACE]);
  }

  lemma MemberRegroups(a: Text, q: Text, c: Text, j: Text, members: Text, end: Text)
    ensures a + q + c + j + members + end == a + (q + c + j + (members + end))
  {
  }

  /** From the first member name to the end of the object. */
  function MembersFrom(style: Style, ms: seq<Member>, depth: nat, ws: Text): Text
    requires ms != []
  {
    QuoteText(style, ms[0].name) + BeforeMember(style) + Json(style, ms[0].value, depth) + MembersTail(style, ms[1..], depth, ws)
  }

  /** What follows a member: the end of the object, or the other members. */
  lemma MembersTailReads(cfg: Config, style: Style, rest: seq<Member>, depth: nat, n: nat, ws: Text, end: seq<Event>)
    requires AcceptsAll(cfg) && GoodStyle(style) && AllSpace(ws)
    requires if rest == [] then end == [EndObject(n)]
      else Quote(style.ascii, rest[0].name).Some? && MembersRead(cfg, MembersFrom(style, rest, depth, ws), n, end)
    ensures MemberTailReads(cfg, MembersTail(style, rest, depth, ws), n, end)
  {
    if rest == [] {
      assert Members(style, rest, depth, false) == [];
      assert [] + (ws + [RBRACE]) == ws + [RBRACE];
      MemberTailCloses(cfg, ws, n);
    } else {
      MembersTailSplits(style, rest, depth, ws);
      IndentIsSpace(style, depth);
      assert MembersFrom(style, rest, depth, ws)[0] == QUOTE;
      MemberTailContinues(cfg, NameGap(style, depth), MembersFrom(style, rest, depth, ws), n, end);
    }
  }

  lemma MemberThenTail(cfg: Config, style: Style, m: Member, depth: nat, n: nat, tail: Text, end: seq<Event>)
    requires AcceptsAll(cfg) && GoodStyle(style) && n + 1 < 0x1_0000_0000
    requires Quote(style.ascii, m.name).Some? && Readable(cfg, m.name) && Printable(cfg, style, m.value)
    requires ValueReads(cfg, Json(style, m.value, depth), ReadEvents(m.value)) && MemberTailReads(cfg, tail, n + 1, end)
    ensures MembersRead(cfg, QuoteText(style, m.name) + BeforeMember(style) + Json(style, m.value, depth) + tail, n,
      [Key(m.name)] + ReadEvents(m.value) + end)
  {
    JsonHead(cfg, style, m.value, depth);
    MemberStep(cfg, style.ascii, m.name, if style.pretty then [SPACE] else [], Json(style, m.value, depth),
      ReadEvents(m.value), tail, n, end);
  }

  lemma {:induction false} MembersReadBack(cfg: Config, style: Style, ms: seq<Member>, depth: nat, n: nat, ws: Text)
    requires AcceptsAll(cfg) && GoodStyle(style) && AllSpace(ws)
    requires ms != [] && MembersPrintable(cfg, style, ms) && n + |ms| < 0x1_0000_0000
    ensures MembersRead(cfg, MembersFrom(style, ms, depth, ws), n, ReadMembers(ms) + [EndObject(n + |ms|)])
    decreases ms, 0
  {
    var rest := ms[1..];
    var end := ReadMembers(rest) + [EndObject(n + |ms|)];
    JsonReads(cfg, style, ms[0].value, depth);
    if rest == [] {
      assert end == [EndObject(n + 1)];
    } else {
      MembersReadBack(cfg, style, rest, depth, n + 1, ws);
    }
    MembersTailReads(cfg, style, rest, depth, n + 1, ws, end);
    MemberThenTail(cfg, style, ms[0], depth, n, MembersTail(style, rest, depth, ws), end);
    FirstMemberEvents(ms, EndObject(n + |ms|));
  }

  lemma FirstMemberEvents(ms: seq<Member>, e: Event)
    requires ms != []
    ensures ReadMembers(ms) + [e] == [Key(ms[0].name)] + ReadEvents(ms[0].value) + (ReadMembers(ms[1..]) + [e])
  {
    Joins3([Key(ms[0].name)] + ReadEvents(ms[0].value), ReadMembers(ms[1..]), [e]);
  }

  lemma ObjectText(style: Style, ms: seq<Member>, depth: nat)
    requires ms != []
    ensures Json(style, Object(ms), depth) == [LBRACE] + NameGap(style, depth + 1)
      + MembersFrom(style, ms, depth + 1, BeforeClose(style, depth, false, false))
  {
    assert BeforeName(style, depth + 1, true) == NameGap(style, depth + 1);
    assert MemberText(style, ms[0], depth + 1, true) == NameGap(style, depth + 1) + QuoteText(style, ms[0].name)
      + BeforeMember(style) + Json(style, ms[0].value, depth + 1);
    ObjectTextSplits(NameGap(style, depth + 1), QuoteText(style, ms[0].name), BeforeMember(style),
      Json(style, ms[0].value, depth + 1), Members(style, ms[1..], depth + 1, false), BeforeClose(style, depth, false, false));
  }

  lemma ObjectTextSplits(first: Text, q: Text, c: Text, j: Text, members: Text, ws: Text)
    ensures [LBRACE] + (first + q + c + j + members) + ws + [RBRACE]
      == [LBRACE] + first + (q + c + j + (members + (ws + [RBRACE])))
  {
    Joins4(first, q, c, j);
    assert first + (q + (c + j)) == first + (q + c + j);
  }

  lemma {:induction false} JsonObjectReads(cfg: Config, style: Style, ms: seq<Member>, depth: nat)
    requires AcceptsAll(cfg) && GoodStyle(style) && Printable(cfg, style, Object(ms))
    ensures ValueReads(cfg, Json(style, Object(ms), depth), ReadEvents(Object(ms)))
    decreases ms, 1
  {
    if ms == [] {
      EmptyObjectReads(cfg, style, depth);
    } else {
      IndentIsSpace(style, depth);
      MembersReadBack(cfg, style, ms, depth + 1, 0, BeforeClose(style, depth, false, false));
      FullObjectReads(cfg, style, ms, depth);
    }
  }

  lemma EmptyObjectReads(cfg: Config, style: Style, depth: nat)
    requires AcceptsAll(cfg)
    ensures ValueReads(cfg, Json(style, Object([]), depth), ReadEvents(Object([])))
  {
    ObjectReads(cfg, [], [RBRACE], [EndObject(0)]);
    assert Json(style, Object([]), depth) == [LBRACE] + [] + [RBRACE];
    assert ReadMembers([]) + [EndObject(0)] == [EndObject(0)];
  }

  lemma FullObjectReads(cfg: Config, style: Style, ms: seq<Member>, depth: nat)
    requires AcceptsAll(cfg) && GoodStyle(style) && ms != [] && Quote(style.ascii, ms[0].name).Some?
    requires MembersRead(cfg, MembersFrom(style, ms, depth + 1, BeforeClose(style, depth, false, false)), 0,
      ReadMembers(ms) + [EndObject(|ms|)])
    ensures ValueReads(cfg, Json(style, Object(ms), depth), ReadEvents(Object(ms)))
  {
    IndentIsSpace(style, depth + 1);
    ObjectText(style, ms, depth);
    var t := MembersFrom(style, ms, depth + 1, BeforeClose(style, depth, false, false));
    assert t[0] == QuoteText(style, ms[0].name)[0] == QUOTE;
    ObjectReads(cfg, NameGap(style, depth + 1), t, ReadMembers(ms) + [EndObject(|ms|)]);
  }

  // ------------------------------------------------------------- building

  /** The events `es` push the values `vs`, whatever is on the stack. */
  ghost predicate Builds(es: seq<Event>, vs: seq<Value>) {
    forall stack: seq<Value> :: BuildAll(stack, es) == Some(stack + vs)
  }

  lemma {:induction false} BuildConcat(stack: seq<Value>, a: seq<Event>, b: seq<Event>)
    requires BuildAll(stack, a).Some?
    ensures BuildAll(stack, a + b) == BuildAll(BuildAll(stack, a).value, b)
    decreases |a|
  {
    if a == [] {
      assert a + b == b;
    } else {
      assert (a + b)[1..] == a[1..] + b;
      BuildConcat(Build(stack, a[0]), a[1..], b);
    }
  }

  lemma BuildsNothing()
    ensures Builds([], [])
  {
    forall stack: seq<Value>
      ensures BuildAll(stack, []) == Some(stack + [])
    {
      assert stack + [] == stack;
    }
  }

  lemma BuildsBoth(a: seq<Event>, vs: seq<Value>, b: seq<Event>, ws: seq<Value>)
    requires Builds(a, vs) && Builds(b, ws)
    ensures Builds(a + b, vs + ws)
  {
    forall stack: seq<Value>
      ensures BuildAll(stack, a + b) == Some(stack + (vs + ws))
    {
      BuildsAt(stack, a, vs);
      BuildsAt(stack + vs, b, ws);
      Joins3(stack, vs, ws);
      BuildThen(stack, a, stack + vs, b, stack + (vs + ws));
    }
  }

  lemma BuildsAt(stack: seq<Value>, es: seq<Event>, vs: seq<Value>)
    requires Builds(es, vs)
    ensures BuildAll(stack, es) == Some(stack + vs)
  {
  }

  lemma BuildThen(stack: seq<Value>, a: seq<Event>, mid: seq<Value>, b: seq<Event>, end: seq<Value>)
    requires BuildAll(stack, a) == Some(mid) && BuildAll(mid, b) == Some(end)
    ensures BuildAll(stack, a + b) == Some(end)
  {
    BuildConcat(stack, a, b);
  }

  lemma BuildOne(stack: seq<Value>, e: Event)
    requires CanBuild(stack, e)
    ensures BuildAll(stack, [e]) == Some(Build(stack, e))
  {
    assert [e][1..] == [];
  }

  lemma ScalarBuilds(e: Event, v: Value)
    requires forall stack: seq<Value> :: CanBuild(stack, e) && Build(stack, e) == stack + [v]
    ensures Builds([e], [v])
  {
    forall stack: seq<Value>
      ensures BuildAll(stack, [e]) == Some(stack + [v])
    {
      assert CanBuild(stack, e);
      BuildOne(stack, e);
    }
  }

  /** An end event gathers the parts pushed since the container's start. */
  lemma ContainerBuilds(es: seq<Event>, parts: seq<Value>, isObject: bool, n: nat)
    requires Builds(es, parts) && |parts| == if isObject then 2 * n else n
    ensures Builds([if isObject then StartObject else StartArray] + (es + [if isObject then EndObject(n) else EndArray(n)]),
      [if isObject then Object(Pair(parts)) else Array(parts)])
  {
    var start := if isObject then StartObject else StartArray;
    var end := if isObject then EndObject(n) else EndArray(n);
    forall stack: seq<Value>
      ensures BuildAll(stack, [start] + (es + [end])) == Some(stack + [if isObject then Object(Pair(parts)) else Array(parts)])
    {
      var under := Build(stack, start);
      BuildOne(stack, start);
      BuildConcat(stack, [start], es + [end]);
      assert BuildAll(under, es) == Some(under + parts);
      BuildConcat(under, es, [end]);
      FoldParts(stack, under, parts, isObject);
      BuildOne(under + parts, end);
    }
  }

  lemma FoldParts(stack: seq<Value>, under: seq<Value>, parts: seq<Value>, isObject: bool)
    requires |under| == |stack| + 1 && under[..|stack|] == stack
    ensures Fold(under + parts, |parts|, isObject) == stack + [if isObject then Object(Pair(parts)) else Array(parts)]
  {
    PartsOnTop(stack, under, parts);
  }

  lemma PartsOnTop(stack: seq<Value>, under: seq<Value>, parts: seq<Value>)
    requires |under| == |stack| + 1 && under[..|stack|] == stack
    ensures |under + parts| - |parts| == |stack| + 1
    ensures (under + parts)[|stack| + 1..] == parts && (under + parts)[..|stack|] == stack
  {
  }

  /** Names and values in turn, as they lie on the stack. */
  function Flat(ms: seq<Member>): (r: seq<Value>)
    ensures |r| == 2 * |ms|
  {
    if ms == [] then [] else [StringValue(ms[0].name)] + [ms[0].value] + Flat(ms[1..])
  }

  lemma {:induction false} PairFlat(ms: seq<Member>)
    ensures Pair(Flat(ms)) == ms
  {
    if ms != [] {
      PairFlat(ms[1..]);
      assert Flat(ms)[2..] == Flat(ms[1..]) && Flat(ms)[0] == StringValue(ms[0].name) && Flat(ms)[1] == ms[0].value;
    }
  }

  /** The reader's events for a value build that value. */
  lemma {:induction false} EventsBuild(cfg: Config, style: Style, v: Value)
    requires Printable(cfg, style, v)
    ensures Builds(ReadEvents(v), [v])
    decreases v, 1
  {
    if v.Array? {
      ItemsBuild(cfg, style, v.elements);
      ContainerBuilds(ReadItems(v.elements), v.elements, false, |v.elements|);
    } else if v.Object? {
      MembersBuild(cfg, style, v.members);
      PairFlat(v.members);
      ContainerBuilds(ReadMembers(v.members), Flat(v.members), true, |v.members|);
    } else {
      if v.Number? {
        ConstructorsAgree(IntegerOf(v));
      }
      ScalarBuilds(ReadEvents(v)[0], v);
    }
  }

  lemma {:induction false} ItemsBuild(cfg: Config, style: Style, es: seq<Value>)
    requires ItemsPrintable(cfg, style, es)
    ensures Builds(ReadItems(es), es)
    decreases es, 0
  {
    if es == [] {
      BuildsNothing();
    } else {
      EventsBuild(cfg, style, es[0]);
      ItemsBuild(cfg, style, es[1..]);
      BuildsBoth(ReadEvents(es[0]), [es[0]], ReadItems(es[1..]), es[1..]);
      assert [es[0]] + es[1..] == es;
    }
  }

  lemma {:induction false} MembersBuild(cfg: Config, style: Style, ms: seq<Member>)
    requires MembersPrintable(cfg, style, ms)
    ensures Builds(ReadMembers(ms), Flat(ms))
    decreases ms, 0
  {
    if ms == [] {
      BuildsNothing();
    } else {
      var m := ms[0];
      ScalarBuilds(Key(m.name), StringValue(m.name));
      EventsBuild(cfg, style, m.value);
      MembersBuild(cfg, style, ms[1..]);
      BuildsBoth([Key(m.name)], [StringValue(m.name)], ReadEvents(m.value), [m.value]);
      BuildsBoth([Key(m.name)] + ReadEvents(m.value), [StringValue(m.name)] + [m.value], ReadMembers(ms[1..]), Flat(ms[1..]));
    }
  }

  // ---------------------------------------------------------- main results

  lemma {:induction false} PrintableIsWritable(cfg: Config, style: Style, v: Value)
    requires Printable(cfg, style, v)
    ensures Writable(style, v)
    decreases v, 1
  {
    if v.Array? {
      ItemsWritable(cfg, style, v.elements);
    } else if v.Object? {
      MembersAreWritable(cfg, style, v.members);
    }
  }

  lemma {:induction false} ItemsWritable(cfg: Config, style: Style, es: seq<Value>)
    requires ItemsPrintable(cfg, style, es)
    ensures AllWritable(style, es)
    decreases es, 0
  {
    if es != [] {
      PrintableIsWritable(cfg, style, es[0]);
      ItemsWritable(cfg, style, es[1..]);
    }
  }

  lemma {:induction false} MembersAreWritable(cfg: Config, style: Style, ms: seq<Member>)
    requires MembersPrintable(cfg, style, ms)
    ensures MembersWritable(style, ms)
    decreases ms, 0
  {
    if ms != [] {
      PrintableIsWritable(cfg, style, ms[0].value);
      MembersAreWritable(cfg, style, ms[1..]);
    }
  }

  /**
   * Print then parse is the identity.  The writer succeeds, either parser takes its whole text,
   * and the events it sends leave the document stack holding that value alone.
   */
  lemma PrintThenParse(cfg: Config, style: Style, v: Value)
    requires AcceptsAll(cfg) && GoodStyle(style) && Printable(cfg, style, v)
    ensures Writable(style, v)
    ensures ParseDocument(cfg, Json(style, v, 0)) == Done([], ReadEvents(v))
    ensures Automaton.IterativeDocument(cfg, Json(style, v, 0)) == Done([], ReadEvents(v))
    ensures BuildAll([], ReadEvents(v)) == Some([v])
  {
    var t := Json(style, v, 0);
    PrintableIsWritable(cfg, style, v);
    JsonReads(cfg, style, v, 0);
    JsonHead(cfg, style, v, 0);
    assert t + [] == t && [] + t == t && [] + ReadEvents(v) == ReadEvents(v) && [] + [v] == [v];
    SkipLayout(cfg, [], t);
    assert AnyValue(cfg, t + [], []) == Done([], [] + ReadEvents(v));
    SkipLayout(cfg, [], []);
    Automaton.IterativeIsRecursive(cfg, t);
    EventsBuild(cfg, style, v);
    assert BuildAll([], ReadEvents(v)) == Some([] + [v]);
  }

  /**
   * The writer, either parser and the document put together: the value comes back.  The document
   * refuses no event, so it may be sent them all once parsing is over.
   */
  method PrintAndReparse(cfg: Config, style: Style, v: Value, iterative: bool) returns (root: Value)
    requires AcceptsAll(cfg) && GoodStyle(style) && Printable(cfg, style, v)
    ensures root == v
  {
    PrintThenParse(cfg, style, v);
    var ok, text := Writer.Print(style, v);
    var reader := new Reader.Reader(cfg, text);
    if iterative {
      reader.IterativeParse();
    } else {
      reader.Parse();
    }
    var document := new Dom.Document();
    Replay(document, reader.sent, [v]);
    root := document.stack[0];
  }

  /** Sends events to a document whose stack they turn into `end`. */
  method Replay(document: Dom.Document, events: seq<Event>, ghost end: seq<Value>)
    requires BuildAll(document.stack, events) == Some(end)
    modifies document
    ensures document.stack == end
  {
    var rest := events;
    while rest != []
      invariant BuildAll(document.stack, rest) == Some(end)
      decreases |rest|
    {
      document.Handle(rest[0]);
      rest := rest[1..];
    }
  }
}
