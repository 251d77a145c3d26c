/** The grammar of RFC 8259 as syntax trees: the readers accept exactly its texts. */
module Grammar {
  import opened Bytes
  import opened Events
  import opened Lexing
  import opened Descent
  import opened Layouts
  import opened NumberLiterals
  import opened Sequences
  import opened StringLiterals
  import Automaton

  type Layout = seq<Piece>

  /** A value as it is written, with all that is around its tokens. */
  datatype Node =
    | Word(e: Event)
    | NumberNode(l: Literal)
    | StringNode(items: seq<Item>)
    | ArrayNode(open: Layout, elements: Elements)
    | ObjectNode(open: Layout, members: Members)

  /** What follows the opening bracket of an array, or a comma in it. */
  datatype Elements =
    | NoElement
    | LastElement(value: Node, after: Layout)
    | MoreElements(value: Node, after: Layout, before: Layout, rest: Elements)

  datatype Head = Head(name: seq<Item>, afterName: Layout, afterColon: Layout)

  datatype Members =
    | NoMember
    | LastMember(head: Head, value: Node, after: Layout)
    | MoreMembers(head: Head, value: Node, after: Layout, before: Layout, rest: Members)

  // ----------------------------------------------------------------- text

  function WordText(e: Event): Text {
    match e
    case Null => [0x6E, 0x75, 0x6C, 0x6C]
    case Bool(b) => if b then [0x74, 0x72, 0x75, 0x65] else [0x66, 0x61, 0x6C, 0x73, 0x65]
    case _ => []
  }

  function QuotedText(items: seq<Item>): Text {
    [QUOTE] + (ItemsText(items) + [QUOTE])
  }

  function NodeText(v: Node): Text {
    match v
    case Word(e) => WordText(e)
    case NumberNode(l) => LiteralText(l)
    case StringNode(items) => QuotedText(items)
    case ArrayNode(open, es) => [LBRACKET] + (LayoutText(open) + ElementsText(es))
    case ObjectNode(open, ms) => [LBRACE] + (LayoutText(open) + MembersText(ms))
  }

  function ElementsText(es: Elements): Text {
    match es
    case NoElement => [RBRACKET]
    case LastElement(v, after) => NodeText(v) + (LayoutText(after) + [RBRACKET])
    case MoreElements(v, after, before, rest) =>
      NodeText(v) + (LayoutText(after) + ([COMMA] + (LayoutText(before) + ElementsText(rest))))
  }

  function HeadText(h: Head): Text {
    QuotedText(h.name) + (LayoutText(h.afterName) + ([COLON] + LayoutText(h.afterColon)))
  }

  function MembersText(ms: Members): Text {
    match ms
    case NoMember => [RBRACE]
    case LastMember(h, v, after) => HeadText(h) + (NodeText(v) + (LayoutText(after) + [RBRACE]))
    case MoreMembers(h, v, after, before, rest) =>
      HeadText(h) + (NodeText(v) + (LayoutText(after) + ([COMMA] + (LayoutText(before) + MembersText(rest)))))
  }

  // ----------------------------------------------------------- well-formed

  /** Comments and trailing commas only where the reader allows them. */
  predicate NodeFits(cfg: Config, v: Node) {
    match v
    case Word(e) => e.Null? || e.Bool?
    case NumberNode(l) => LiteralFits(l) && Holds(cfg, l)
    case StringNode(items) => ItemsFit(cfg, items)
    case ArrayNode(open, es) => Closed(cfg, open) && ElementsFit(cfg, es)
    case ObjectNode(open, ms) => Closed(cfg, open) && MembersFit(cfg, ms)
  }

  predicate ElementsFit(cfg: Config, es: Elements) {
    match es
    case NoElement => true
    case LastElement(v, after) => NodeFits(cfg, v) && Closed(cfg, after)
    case MoreElements(v, after, before, rest) =>
      && NodeFits(cfg, v) && Closed(cfg, after) && Closed(cfg, before)
      && ElementsFit(cfg, rest) && (rest.NoElement? ==> cfg.trailingCommas)
  }

  predicate HeadFits(cfg: Config, h: Head) {
    ItemsFit(cfg, h.name) && Closed(cfg, h.afterName) && Closed(cfg, h.afterColon)
  }

  predicate MembersFit(cfg: Config, ms: Members) {
    match ms
    case NoMember => true
    case LastMember(h, v, after) => HeadFits(cfg, h) && NodeFits(cfg, v) && Closed(cfg, after)
    case MoreMembers(h, v, after, before, rest) =>
      && HeadFits(cfg, h) && NodeFits(cfg, v) && Closed(cfg, after) && Closed(cfg, before)
      && MembersFit(cfg, rest) && (rest.NoMember? ==> cfg.trailingCommas)
  }

  /** `c` may follow the value. */
  predicate NodeStops(v: Node, c: Byte) {
    v.NumberNode? ==> Stops(v.l, c)
  }

  // --------------------------------------------------------------- events

  function NodeEvents(v: Node): seq<Event> {
    match v
    case Word(e) => [e]
    case NumberNode(l) => if LiteralFits(l) then [SpelledEvent(l)] else []
    case StringNode(items) => [String(ItemsBytes(items))]
    case ArrayNode(_, es) => [StartArray] + ElementsEvents(es, 0)
    case ObjectNode(_, ms) => [StartObject] + MembersEvents(ms, 0)
  }

  /** `n` elements come before; the count is of SizeType. */
  function ElementsEvents(es: Elements, n: nat): seq<Event> {
    match es
    case NoElement => [EndArray(n)]
    case LastElement(v, _) => NodeEvents(v) + [EndArray(Increment(n))]
    case MoreElements(v, _, _, rest) => NodeEvents(v) + ElementsEvents(rest, Increment(n))
  }

  function MembersEvents(ms: Members, n: nat): seq<Event> {
    match ms
    case NoMember => [EndObject(n)]
    case LastMember(h, v, _) => [Key(ItemsBytes(h.name))] + (NodeEvents(v) + [EndObject(Increment(n))])
    case MoreMembers(h, v, _, _, rest) => [Key(ItemsBytes(h.name))] + (NodeEvents(v) + MembersEvents(rest, Increment(n)))
  }

  /** The handler accepts each of these events, having accepted those before. */
  ghost predicate Accepted(cfg: Config, sent: seq<Event>, es: seq<Event>)
    decreases |es|
  {
    es == [] || (cfg.accepts(sent + [es[0]]) && Accepted(cfg, sent + [es[0]], es[1..]))
  }

  lemma {:induction false} AcceptedSplits(cfg: Config, sent: seq<Event>, a: seq<Event>, b: seq<Event>)
    ensures Accepted(cfg, sent, a + b) <==> Accepted(cfg, sent, a) && Accepted(cfg, sent + a, b)
    decreases |a|
  {
    if a == [] {
      assert a + b == b && sent + a == sent;
    } else {
      assert (a + b)[0] == a[0] && (a + b)[1..] == a[1..] + b;
      AcceptedSplits(cfg, sent + [a[0]], a[1..], b);
      assert sent + [a[0]] + a[1..] == sent + a;
    }
  }

  lemma AcceptedOne(cfg: Config, sent: seq<Event>, e: Event)
    ensures Accepted(cfg, sent, [e]) <==> cfg.accepts(sent + [e])
  {
    assert [e][1..] == [];
  }

  // ------------------------------------------------------------- complete

  /** No value begins with `c` if it is white space, a slash, a closing bracket or the end. */
  predicate StartsValue(c: Byte) {
    !IsSpace(c) && c != SLASH && c != RBRACKET && c != RBRACE && c != 0
  }

  lemma ValueStarts(cfg: Config, v: Node)
    requires NodeFits(cfg, v)
    ensures NodeText(v) != [] && StartsValue(NodeText(v)[0])
  {
    if v.NumberNode? {
      assert v.l.minus ==> LiteralText(v.l)[0] == MINUS;
      assert !v.l.minus ==> LiteralText(v.l)[0] == v.l.whole[0];
    }
  }

  lemma ElementsStart(cfg: Config, es: Elements)
    requires ElementsFit(cfg, es)
    ensures ElementsText(es) != []
    ensures if es.NoElement? then ElementsText(es)[0] == RBRACKET else StartsValue(ElementsText(es)[0])
  {
    if !es.NoElement? {
      ValueStarts(cfg, es.value);
    }
  }

  lemma MembersStart(ms: Members)
    ensures MembersText(ms) != [] && MembersText(ms)[0] == if ms.NoMember? then RBRACE else QUOTE
  {
  }

  predicate IsDelimiter(c: Byte) {
    c == COMMA || c == RBRACKET || c == RBRACE
  }

  lemma ClosedFits(cfg: Config, ps: Layout, post: Text)
    requires Closed(cfg, ps) && StopsLayout(cfg, Peek(post))
    ensures Skip(cfg, LayoutText(ps) + post) == Good((), post)
  {
    LayoutReads(cfg, ps, post);
  }

  lemma DelimiterStops(cfg: Config, v: Node, after: Layout, end: Text)
    requires NodeFits(cfg, v) && Closed(cfg, after) && IsDelimiter(Peek(end))
    ensures NodeStops(v, Peek(LayoutText(after) + end))
  {
    var t := LayoutText(after) + end;
    if after == [] {
      assert t == end;
    } else {
      assert t[0] == PieceText(after[0])[0];
      assert PieceFits(cfg, after[0]);
    }
  }

  lemma WordReads(cfg: Config, e: Event, post: Text)
    requires e.Null? || e.Bool?
    ensures ScanScalar(cfg, WordText(e) + post) == Good(e, post)
  {
    var s := WordText(e) + post;
    if e.Null? {
      assert s[1..] == NULL_TAIL + post;
    } else if e.b {
      assert s[1..] == TRUE_TAIL + post;
    } else {
      assert s[1..] == FALSE_TAIL + post;
    }
  }

  lemma QuotedReads(cfg: Config, items: seq<Item>, post: Text)
    requires ItemsFit(cfg, items)
    ensures var s := QuotedText(items) + post;
      s[0] == QUOTE && ScanString(cfg, s[1..], []) == Good(ItemsBytes(items), post)
  {
    var s := QuotedText(items) + post;
    assert s[1..] == ItemsText(items) + ([QUOTE] + post);
    ItemsRead(cfg, items, post, []);
    assert [] + ItemsBytes(items) == ItemsBytes(items);
  }

  lemma NumberNodeReads(cfg: Config, l: Literal, post: Text)
    requires LiteralFits(l) && Holds(cfg, l) && Stops(l, Peek(post))
    ensures ScanScalar(cfg, LiteralText(l) + post) == Good(SpelledEvent(l), post)
    ensures Peek(LiteralText(l) + post) != LBRACKET && Peek(LiteralText(l) + post) != LBRACE
  {
    var s := LiteralText(l) + post;
    LiteralReads(cfg, l, post);
    assert s[0] == if l.minus then MINUS else l.whole[0];
  }

  lemma ScalarReads(cfg: Config, v: Node, post: Text, sent: seq<Event>)
    requires v.Word? || v.NumberNode? || v.StringNode?
    requires NodeFits(cfg, v) && NodeStops(v, Peek(post)) && Accepted(cfg, sent, NodeEvents(v))
    ensures AnyValue(cfg, NodeText(v) + post, sent) == Done(post, sent + NodeEvents(v))
  {
    var s := NodeText(v) + post;
    assert NodeEvents(v) == [NodeEvents(v)[0]];
    AcceptedOne(cfg, sent, NodeEvents(v)[0]);
    if v.Word? {
      WordReads(cfg, v.e, post);
    } else if v.NumberNode? {
      NumberNodeReads(cfg, v.l, post);
    } else {
      QuotedReads(cfg, v.items, post);
    }
  }

  lemma ElementAt(cfg: Config, s: Text, n: nat, sent: seq<Event>, t: Text, sent': seq<Event>, end: Text)
    requires AnyValue(cfg, s, sent) == Done(t, sent') && Skip(cfg, t) == Good((), end)
    ensures Element(cfg, s, n, sent) == ElementEnd(cfg, end, Increment(n), sent')
  {
  }

  lemma MemberValueAt(cfg: Config, s: Text, n: nat, sent: seq<Event>, t: Text, sent': seq<Event>, end: Text)
    requires AnyValue(cfg, s, sent) == Done(t, sent') && Skip(cfg, t) == Good((), end)
    ensures MemberValue(cfg, s, n, sent) == MemberEnd(cfg, end, Increment(n), sent')
  {
  }

  lemma {:induction false} NodeReads(cfg: Config, v: Node, post: Text, sent: seq<Event>)
    requires NodeFits(cfg, v) && NodeStops(v, Peek(post)) && Accepted(cfg, sent, NodeEvents(v))
    ensures AnyValue(cfg, NodeText(v) + post, sent) == Done(post, sent + NodeEvents(v))
    decreases v, 0
  {
    match v
    case ArrayNode(open, es) =>
      AcceptedSplits(cfg, sent, [StartArray], ElementsEvents(es, 0));
      AcceptedOne(cfg, sent, StartArray);
      ElementsRead(cfg, es, post, 0, sent + [StartArray]);
      ArrayReads(cfg, open, es, post, sent);
    case ObjectNode(open, ms) =>
      AcceptedSplits(cfg, sent, [StartObject], MembersEvents(ms, 0));
      AcceptedOne(cfg, sent, StartObject);
      MembersRead(cfg, ms, post, 0, sent + [StartObject]);
      ObjectReads(cfg, open, ms, post, sent);
    case _ => ScalarReads(cfg, v, post, sent);
  }

  /** The reader at the elements of an array, or where there are none. */
  function AtElements(cfg: Config, es: Elements, s: Text, n: nat, sent: seq<Event>): Outcome {
    if es.NoElement? then Emit(cfg, EndArray(n), if s == [] then s else s[1..], sent) else Element(cfg, s, n, sent)
  }

  function AtMembers(cfg: Config, ms: Members, s: Text, n: nat, sent: seq<Event>): Outcome {
    if ms.NoMember? then Emit(cfg, EndObject(n), if s == [] then s else s[1..], sent) else MemberName(cfg, s, n, sent)
  }

  lemma ArrayAt(cfg: Config, s: Text, t: Text, sent: seq<Event>)
    requires Peek(s) == LBRACKET && cfg.accepts(sent + [StartArray]) && Skip(cfg, s[1..]) == Good((), t)
    ensures AnyValue(cfg, s, sent) == ArrayStart(cfg, t, sent + [StartArray])
  {
  }

  lemma Opened(b: Byte, open: Text, t: Text, post: Text)
    ensures var s := [b] + (open + t) + post;
      Peek(s) == b && s[1..] == open + (t + post)
  {
  }

  lemma ArrayStartAt(cfg: Config, es: Elements, t: Text, post: Text, sent: seq<Event>)
    requires ElementsFit(cfg, es) && t == ElementsText(es) + post
    ensures Peek(t) != 0 && StopsLayout(cfg, Peek(t)) && ArrayStart(cfg, t, sent) == AtElements(cfg, es, t, 0, sent)
  {
    ElementsStart(cfg, es);
    assert t[0] == ElementsText(es)[0];
  }

  lemma ArrayReads(cfg: Config, open: Layout, es: Elements, post: Text, sent: seq<Event>)
    requires Closed(cfg, open) && ElementsFit(cfg, es) && cfg.accepts(sent + [StartArray])
    requires AtElements(cfg, es, ElementsText(es) + post, 0, sent + [StartArray])
      == Done(post, sent + [StartArray] + ElementsEvents(es, 0))
    ensures AnyValue(cfg, NodeText(ArrayNode(open, es)) + post, sent) == Done(post, sent + NodeEvents(ArrayNode(open, es)))
  {
    var s, t := NodeText(ArrayNode(open, es)) + post, ElementsText(es) + post;
    ArrayStartAt(cfg, es, t, post, sent + [StartArray]);
    Opened(LBRACKET, LayoutText(open), ElementsText(es), post);
    ClosedFits(cfg, open, t);
    ArrayAt(cfg, s, t, sent);
    Joins3(sent, [StartArray], ElementsEvents(es, 0));
  }

  lemma ObjectAt(cfg: Config, s: Text, t: Text, sent: seq<Event>)
    requires Peek(s) == LBRACE && cfg.accepts(sent + [StartObject]) && Skip(cfg, s[1..]) == Good((), t)
    ensures AnyValue(cfg, s, sent) == ObjectStart(cfg, t, sent + [StartObject])
  {
  }

  lemma ObjectStartAt(cfg: Config, ms: Members, t: Text, post: Text, sent: seq<Event>)
    requires t == MembersText(ms) + post
    ensures Peek(t) != 0 && StopsLayout(cfg, Peek(t)) && ObjectStart(cfg, t, sent) == AtMembers(cfg, ms, t, 0, sent)
  {
    MembersStart(ms);
    assert t[0] == MembersText(ms)[0];
  }

  lemma ObjectReads(cfg: Config, open: Layout, ms: Members, post: Text, sent: seq<Event>)
    requires Closed(cfg, open) && MembersFit(cfg, ms) && cfg.accepts(sent + [StartObject])
    requires AtMembers(cfg, ms, MembersText(ms) + post, 0, sent + [StartObject])
      == Done(post, sent + [StartObject] + MembersEvents(ms, 0))
    ensures AnyValue(cfg, NodeText(ObjectNode(open, ms)) + post, sent) == Done(post, sent + NodeEvents(ObjectNode(open, ms)))
  {
    var s, t := NodeText(ObjectNode(open, ms)) + post, MembersText(ms) + post;
    ObjectStartAt(cfg, ms, t, post, sent + [StartObject]);
    Opened(LBRACE, LayoutText(open), MembersText(ms), post);
    ClosedFits(cfg, open, t);
    ObjectAt(cfg, s, t, sent);
    Joins3(sent, [StartObject], MembersEvents(ms, 0));
  }

  /** An element up to what follows it. */
  lemma {:induction false} ElementReads(cfg: Config, v: Node, after: Layout, end: Text, n: nat, sent: seq<Event>)
    requires NodeFits(cfg, v) && Closed(cfg, after) && IsDelimiter(Peek(end)) && Accepted(cfg, sent, NodeEvents(v))
    ensures Element(cfg, NodeText(v) + (LayoutText(after) + end), n, sent)
      == ElementEnd(cfg, end, Increment(n), sent + NodeEvents(v))
    decreases v, 1
  {
    var t := LayoutText(after) + end;
    DelimiterStops(cfg, v, after, end);
    NodeReads(cfg, v, t, sent);
    ClosedFits(cfg, after, end);
    ElementAt(cfg, NodeText(v) + t, n, sent, t, sent + NodeEvents(v), end);
  }

  lemma ElementsClose(cfg: Config, post: Text, n: nat, sent: seq<Event>)
    requires cfg.accepts(sent + [EndArray(n)])
    ensures ElementEnd(cfg, [RBRACKET] + post, n, sent) == Done(post, sent + [EndArray(n)])
  {
    assert ([RBRACKET] + post)[1..] == post;
  }

  lemma ElementsGoOn(cfg: Config, before: Layout, rest: Elements, post: Text, n: nat, sent: seq<Event>)
    requires Closed(cfg, before) && ElementsFit(cfg, rest) && (rest.NoElement? ==> cfg.trailingCommas)
    ensures ElementEnd(cfg, [COMMA] + (LayoutText(before) + (ElementsText(rest) + post)), n, sent)
      == AtElements(cfg, rest, ElementsText(rest) + post, n, sent)
  {
    var t := ElementsText(rest) + post;
    var s := [COMMA] + (LayoutText(before) + t);
    ElementsStart(cfg, rest);
    assert s[1..] == LayoutText(before) + t && t[0] == ElementsText(rest)[0];
    ClosedFits(cfg, before, t);
  }

  lemma {:induction false} ElementsRead(cfg: Config, es: Elements, post: Text, n: nat, sent: seq<Event>)
    requires ElementsFit(cfg, es) && Accepted(cfg, sent, ElementsEvents(es, n))
    ensures AtElements(cfg, es, ElementsText(es) + post, n, sent) == Done(post, sent + ElementsEvents(es, n))
    decreases es, 0
  {
    match es
    case NoElement =>
      AcceptedOne(cfg, sent, EndArray(n));
      assert ([RBRACKET] + post)[1..] == post;
    case LastElement(v, after) =>
      var m, end := Increment(n), [RBRACKET] + post;
      AcceptedSplits(cfg, sent, NodeEvents(v), [EndArray(m)]);
      AcceptedOne(cfg, sent + NodeEvents(v), EndArray(m));
      ElementReads(cfg, v, after, end, n, sent);
      ElementsClose(cfg, post, m, sent + NodeEvents(v));
      Joins3(LayoutText(after), [RBRACKET], post);
      Joins3(NodeText(v), LayoutText(after) + [RBRACKET], post);
      Joins3(sent, NodeEvents(v), [EndArray(m)]);
    case MoreElements(v, after, before, rest) =>
      var m := Increment(n);
      AcceptedSplits(cfg, sent, NodeEvents(v), ElementsEvents(rest, m));
      MoreJoins(NodeText(v), LayoutText(after), [COMMA], LayoutText(before), ElementsText(rest), post);
      ElementReads(cfg, v, after, [COMMA] + (LayoutText(before) + (ElementsText(rest) + post)), n, sent);
      ElementsGoOn(cfg, before, rest, post, m, sent + NodeEvents(v));
      ElementsRead(cfg, rest, post, m, sent + NodeEvents(v));
      Joins3(sent, NodeEvents(v), ElementsEvents(rest, m));
  }

  lemma MoreJoins(a: Text, b: Text, c: Text, d: Text, e: Text, f: Text)
    ensures a + (b + (c + (d + e))) + f == a + (b + (c + (d + (e + f))))
  {
    Joins3(d, e, f);
    Joins3(c, d + e, f);
    Joins3(b, c + (d + e), f);
    Joins3(a, b + (c + (d + e)), f);
  }

  // -------------------------------------------------------------- members

  lemma HeadAt(cfg: Config, s: Text, n: nat, sent: seq<Event>, name: Text, c: Text, d: Text, j: Text)
    requires Peek(s) == QUOTE && ScanString(cfg, s[1..], []) == Good(name, c)
    requires cfg.accepts(sent + [Key(name)]) && Skip(cfg, c) == Good((), d)
    requires Peek(d) == COLON && Skip(cfg, d[1..]) == Good((), j)
    ensures MemberName(cfg, s, n, sent) == MemberValue(cfg, j, n, sent + [Key(name)])
  {
    assert MemberColon(cfg, d, n, sent + [Key(name)]) == MemberValue(cfg, j, n, sent + [Key(name)]);
  }

  lemma HeadSplits(h: Head, j: Text)
    ensures HeadText(h) + j
      == QuotedText(h.name) + (LayoutText(h.afterName) + ([COLON] + (LayoutText(h.afterColon) + j)))
  {
    MoreJoins(QuotedText(h.name), LayoutText(h.afterName), [COLON], LayoutText(h.afterColon), [], j);
    assert LayoutText(h.afterColon) + [] == LayoutText(h.afterColon) && [] + j == j;
  }

  /** A member name up to the value. */
  lemma HeadReads(cfg: Config, h: Head, j: Text, n: nat, sent: seq<Event>)
    requires HeadFits(cfg, h) && StopsLayout(cfg, Peek(j)) && cfg.accepts(sent + [Key(ItemsBytes(h.name))])
    ensures MemberName(cfg, HeadText(h) + j, n, sent) == MemberValue(cfg, j, n, sent + [Key(ItemsBytes(h.name))])
  {
    var d := [COLON] + (LayoutText(h.afterColon) + j);
    var c := LayoutText(h.afterName) + d;
    HeadSplits(h, j);
    QuotedReads(cfg, h.name, c);
    ClosedFits(cfg, h.afterName, d);
    assert d[1..] == LayoutText(h.afterColon) + j;
    ClosedFits(cfg, h.afterColon, j);
    HeadAt(cfg, QuotedText(h.name) + c, n, sent, ItemsBytes(h.name), c, d, j);
  }

  /** A member up to what follows it. */
  lemma {:induction false} MemberReads(cfg: Config, h: Head, v: Node, after: Layout, end: Text, n: nat, sent: seq<Event>)
    requires HeadFits(cfg, h) && NodeFits(cfg, v) && Closed(cfg, after) && IsDelimiter(Peek(end))
    requires Accepted(cfg, sent, [Key(ItemsBytes(h.name))] + NodeEvents(v))
    ensures MemberName(cfg, HeadText(h) + (NodeText(v) + (LayoutText(after) + end)), n, sent)
      == MemberEnd(cfg, end, Increment(n), sent + ([Key(ItemsBytes(h.name))] + NodeEvents(v)))
    decreases v, 1
  {
    var t := LayoutText(after) + end;
    var key := [Key(ItemsBytes(h.name))];
    AcceptedSplits(cfg, sent, key, NodeEvents(v));
    AcceptedOne(cfg, sent, key[0]);
    ValueStarts(cfg, v);
    HeadReads(cfg, h, NodeText(v) + t, n, sent);
    DelimiterStops(cfg, v, after, end);
    NodeReads(cfg, v, t, sent + key);
    ClosedFits(cfg, after, end);
    Joins3(sent, key, NodeEvents(v));
    MemberValueAt(cfg, NodeText(v) + t, n, sent + key, t, sent + key + NodeEvents(v), end);
  }

  lemma MembersClose(cfg: Config, post: Text, n: nat, sent: seq<Event>)
    requires cfg.accepts(sent + [EndObject(n)])
    ensures MemberEnd(cfg, [RBRACE] + post, n, sent) == Done(post, sent + [EndObject(n)])
  {
    assert ([RBRACE] + post)[1..] == post;
  }

  lemma MembersGoOn(cfg: Config, before: Layout, rest: Members, post: Text, n: nat, sent: seq<Event>)
    requires Closed(cfg, before) && MembersFit(cfg, rest) && (rest.NoMember? ==> cfg.trailingCommas)
    ensures MemberEnd(cfg, [COMMA] + (LayoutText(before) + (MembersText(rest) + post)), n, sent)
      == AtMembers(cfg, rest, MembersText(rest) + post, n, sent)
  {
    var t := MembersText(rest) + post;
    var s := [COMMA] + (LayoutText(before) + t);
    MembersStart(rest);
    assert s[1..] == LayoutText(before) + t && t[0] == MembersText(rest)[0];
    ClosedFits(cfg, before, t);
  }

  lemma {:induction false} MembersRead(cfg: Config, ms: Members, post: Text, n: nat, sent: seq<Event>)
    requires MembersFit(cfg, ms) && Accepted(cfg, sent, MembersEvents(ms, n))
    ensures AtMembers(cfg, ms, MembersText(ms) + post, n, sent) == Done(post, sent + MembersEvents(ms, n))
    decreases ms, 0
  {
    match ms
    case NoMember =>
      AcceptedOne(cfg, sent, EndObject(n));
      assert ([RBRACE] + post)[1..] == post;
    case LastMember(h, v, after) =>
      var m, end := Increment(n), [RBRACE] + post;
      var ev := [Key(ItemsBytes(h.name))] + NodeEvents(v);
      Joins3([Key(ItemsBytes(h.name))], NodeEvents(v), [EndObject(m)]);
      AcceptedSplits(cfg, sent, ev, [EndObject(m)]);
      AcceptedOne(cfg, sent + ev, EndObject(m));
      MemberReads(cfg, h, v, after, end, n, sent);
      MembersClose(cfg, post, m, sent + ev);
      LastJoins(HeadText(h), NodeText(v), LayoutText(after), [RBRACE], post);
      Joins3(sent, ev, [EndObject(m)]);
    case MoreMembers(h, v, after, before, rest) =>
      var m := Increment(n);
      var ev := [Key(ItemsBytes(h.name))] + NodeEvents(v);
      Joins3([Key(ItemsBytes(h.name))], NodeEvents(v), MembersEvents(rest, m));
      AcceptedSplits(cfg, sent, ev, MembersEvents(rest, m));
      MoreJoins(NodeText(v), LayoutText(after), [COMMA], LayoutText(before), MembersText(rest), post);
      Joins3(HeadText(h), NodeText(v) + (LayoutText(after) + ([COMMA] + (LayoutText(before) + MembersText(rest)))), post);
      MemberReads(cfg, h, v, after, [COMMA] + (LayoutText(before) + (MembersText(rest) + post)), n, sent);
      MembersGoOn(cfg, before, rest, post, m, sent + ev);
      MembersRead(cfg, rest, post, m, sent + ev);
      Joins3(sent, ev, MembersEvents(rest, m));
  }

  lemma LastJoins(a: Text, b: Text, c: Text, d: Text, e: Text)
    ensures a + (b + (c + d)) + e == a + (b + (c + (d + e)))
  {
    Joins3(c, d, e);
    Joins3(b, c + d, e);
    Joins3(a, b + (c + d), e);
  }

  // ---------------------------------------------------------------- sound

  /** The outcome `r` at `s` is that of reading `t`, whose events are `es`. */
  ghost predicate Reads(cfg: Config, s: Text, sent: seq<Event>, r: Outcome, t: Text, es: seq<Event>) {
    r.Done? && s == t + r.rest && r.sent == sent + es && Accepted(cfg, sent, es)
  }

  lemma Skipped(cfg: Config, s: Text) returns (t: Text)
    requires Skip(cfg, s).Good?
    ensures Skip(cfg, s) == Good((), t) && |t| <= |s|
  {
    t := Skip(cfg, s).rest;
    match Skip(cfg, s).value
    case () =>
  }

  lemma LayoutFound(cfg: Config, s: Text, r: Text) returns (ps: Layout)
    requires Skip(cfg, s) == Good((), r) && Peek(r) != 0
    ensures Closed(cfg, ps) && s == LayoutText(ps) + r
  {
    ps := LayoutOf(cfg, s);
  }

  lemma QuotedOf(cfg: Config, s: Text, str: Text, r: Text) returns (items: seq<Item>)
    requires Peek(s) == QUOTE && ScanString(cfg, s[1..], []) == Good(str, r)
    ensures ItemsFit(cfg, items) && s == QuotedText(items) + r && str == ItemsBytes(items)
  {
    items := ItemsOf(cfg, s[1..], []);
    assert [] + ItemsBytes(items) == ItemsBytes(items);
    assert s == [QUOTE] + s[1..];
    Joins3(ItemsText(items), [QUOTE], r);
    Joins3([QUOTE], ItemsText(items) + [QUOTE], r);
  }

  lemma WordOf(s: Text, tail: Text, e: Event)
    requires ScanLiteral(s, tail, e).Good?
    ensures s == [s[0]] + tail + ScanLiteral(s, tail, e).rest
  {
    assert s == [s[0]] + s[1..];
  }

  lemma ScalarNodeOf(cfg: Config, s: Text, e: Event, r: Text) returns (v: Node)
    requires ScanScalar(cfg, s) == Good(e, r)
    ensures NodeFits(cfg, v) && NodeStops(v, Peek(r)) && NodeEvents(v) == [e] && s == NodeText(v) + r
  {
    if Peek(s) == 0x6E {
      WordOf(s, NULL_TAIL, Null);
      v := Word(Null);
    } else if Peek(s) == 0x74 {
      WordOf(s, TRUE_TAIL, Bool(true));
      v := Word(Bool(true));
    } else if Peek(s) == 0x66 {
      WordOf(s, FALSE_TAIL, Bool(false));
      v := Word(Bool(false));
    } else if Peek(s) == QUOTE {
      var items := QuotedOf(cfg, s, e.s, r);
      v := StringNode(items);
    } else {
      NumberExactly(cfg, s, e, r);
      var l :| LiteralFits(l) && Stops(l, Peek(r)) && s == LiteralText(l) + r && Holds(cfg, l) && e == SpelledEvent(l);
      v := NumberNode(l);
    }
  }

  lemma ReadsOn(cfg: Config, s: Text, sent: seq<Event>, m: Outcome, a: Text, ea: seq<Event>, r: Outcome, b: Text, eb: seq<Event>)
    requires Reads(cfg, s, sent, m, a, ea) && Reads(cfg, m.rest, m.sent, r, b, eb)
    ensures Reads(cfg, s, sent, r, a + b, ea + eb)
  {
    AcceptedSplits(cfg, sent, ea, eb);
    Joins3(a, b, r.rest);
    Joins3(sent, ea, eb);
  }

  /** A layout sends nothing. */
  lemma LayoutSilent(cfg: Config, s: Text, r: Text, ps: Layout, sent: seq<Event>)
    requires s == LayoutText(ps) + r
    ensures Reads(cfg, s, sent, Done(r, sent), LayoutText(ps), [])
  {
    assert sent + [] == sent;
  }

  lemma TokenReads(cfg: Config, s: Text, sent: seq<Event>, e: Event)
    requires s != [] && cfg.accepts(sent + [e])
    ensures Reads(cfg, s, sent, Done(s[1..], sent + [e]), [s[0]], [e])
  {
    AcceptedOne(cfg, sent, e);
  }

  lemma SignReads(cfg: Config, s: Text, sent: seq<Event>)
    requires s != []
    ensures Reads(cfg, s, sent, Done(s[1..], sent), [s[0]], [])
  {
    assert sent + [] == sent;
  }

  lemma {:induction false} NodeOf(cfg: Config, s: Text, sent: seq<Event>) returns (v: Node)
    requires AnyValue(cfg, s, sent).Done?
    ensures var r := AnyValue(cfg, s, sent);
      NodeFits(cfg, v) && NodeStops(v, Peek(r.rest)) && Reads(cfg, s, sent, r, NodeText(v), NodeEvents(v))
    decreases |s|, 9
  {
    var r := AnyValue(cfg, s, sent);
    if Peek(s) == LBRACKET {
      var t := Skipped(cfg, s[1..]);
      var es := ArrayOf(cfg, t, sent + [StartArray]);
      v := ArrayFound(cfg, s, t, sent, r, es);
    } else if Peek(s) == LBRACE {
      var t := Skipped(cfg, s[1..]);
      var ms := ObjectOf(cfg, t, sent + [StartObject]);
      v := ObjectFound(cfg, s, t, sent, r, ms);
    } else {
      var e := ScanScalar(cfg, s).value;
      v := ScalarNodeOf(cfg, s, e, r.rest);
      AcceptedOne(cfg, sent, e);
    }
  }

  lemma ArrayFound(cfg: Config, s: Text, t: Text, sent: seq<Event>, r: Outcome, es: Elements) returns (v: Node)
    requires Peek(s) == LBRACKET && cfg.accepts(sent + [StartArray]) && Skip(cfg, s[1..]) == Good((), t)
    requires ElementsFit(cfg, es) && Reads(cfg, t, sent + [StartArray], r, ElementsText(es), ElementsEvents(es, 0))
    ensures v.ArrayNode? && NodeFits(cfg, v) && Reads(cfg, s, sent, r, NodeText(v), NodeEvents(v))
  {
    var sent' := sent + [StartArray];
    ArrayStartAt(cfg, es, t, r.rest, sent');
    var open := LayoutFound(cfg, s[1..], t);
    v := ArrayNode(open, es);
    TokenReads(cfg, s, sent, StartArray);
    LayoutSilent(cfg, s[1..], t, open, sent');
    ReadsOn(cfg, s[1..], sent', Done(t, sent'), LayoutText(open), [], r, ElementsText(es), ElementsEvents(es, 0));
    assert [] + ElementsEvents(es, 0) == ElementsEvents(es, 0);
    ReadsOn(cfg, s, sent, Done(s[1..], sent'), [LBRACKET], [StartArray], r,
      LayoutText(open) + ElementsText(es), ElementsEvents(es, 0));
  }

  lemma ObjectFound(cfg: Config, s: Text, t: Text, sent: seq<Event>, r: Outcome, ms: Members) returns (v: Node)
    requires Peek(s) == LBRACE && cfg.accepts(sent + [StartObject]) && Skip(cfg, s[1..]) == Good((), t)
    requires MembersFit(cfg, ms) && Reads(cfg, t, sent + [StartObject], r, MembersText(ms), MembersEvents(ms, 0))
    ensures v.ObjectNode? && NodeFits(cfg, v) && Reads(cfg, s, sent, r, NodeText(v), NodeEvents(v))
  {
    var sent' := sent + [StartObject];
    ObjectStartAt(cfg, ms, t, r.rest, sent');
    var open := LayoutFound(cfg, s[1..], t);
    v := ObjectNode(open, ms);
    TokenReads(cfg, s, sent, StartObject);
    LayoutSilent(cfg, s[1..], t, open, sent');
    ReadsOn(cfg, s[1..], sent', Done(t, sent'), LayoutText(open), [], r, MembersText(ms), MembersEvents(ms, 0));
    assert [] + MembersEvents(ms, 0) == MembersEvents(ms, 0);
    ReadsOn(cfg, s, sent, Done(s[1..], sent'), [LBRACE], [StartObject], r,
      LayoutText(open) + MembersText(ms), MembersEvents(ms, 0));
  }

  lemma {:induction false} ArrayOf(cfg: Config, s: Text, sent: seq<Event>) returns (es: Elements)
    requires ArrayStart(cfg, s, sent).Done?
    ensures ElementsFit(cfg, es) && Reads(cfg, s, sent, ArrayStart(cfg, s, sent), ElementsText(es), ElementsEvents(es, 0))
    decreases |s|, 12
  {
    if Peek(s) == RBRACKET {
      es := NoElement;
      TokenReads(cfg, s, sent, EndArray(0));
    } else {
      es := ElementsOf(cfg, s, 0, sent);
    }
  }

  /** What reading an element came through. */
  lemma ElementParts(cfg: Config, s: Text, n: nat, sent: seq<Event>) returns (o: Outcome, end: Text, r: Outcome)
    requires Element(cfg, s, n, sent).Done?
    ensures o == AnyValue(cfg, s, sent) && o.Done? && Skip(cfg, o.rest) == Good((), end)
    ensures r == Element(cfg, s, n, sent) == ElementEnd(cfg, end, Increment(n), o.sent)
    ensures |o.rest| < |s| && |end| <= |o.rest| && Peek(end) != 0
  {
    o := AnyValue(cfg, s, sent);
    end := Skipped(cfg, o.rest);
    r := ElementEnd(cfg, end, Increment(n), o.sent);
  }

  /** A value, its layout, and what is read then. */
  lemma ValueThen(cfg: Config, s: Text, sent: seq<Event>, o: Outcome, a: Text, ea: seq<Event>, after: Layout, end: Text,
                  r: Outcome, b: Text, eb: seq<Event>)
    requires Reads(cfg, s, sent, o, a, ea) && o.rest == LayoutText(after) + end && Reads(cfg, end, o.sent, r, b, eb)
    ensures Reads(cfg, s, sent, r, a + (LayoutText(after) + b), ea + eb)
  {
    LayoutSilent(cfg, o.rest, end, after, o.sent);
    ReadsOn(cfg, o.rest, o.sent, Done(end, o.sent), LayoutText(after), [], r, b, eb);
    assert [] + eb == eb;
    ReadsOn(cfg, s, sent, o, a, ea, r, LayoutText(after) + b, eb);
  }

  lemma {:induction false} ElementsOf(cfg: Config, s: Text, n: nat, sent: seq<Event>) returns (es: Elements)
    requires Element(cfg, s, n, sent).Done?
    ensures !es.NoElement? && ElementsFit(cfg, es)
    ensures Reads(cfg, s, sent, Element(cfg, s, n, sent), ElementsText(es), ElementsEvents(es, n))
    decreases |s|, 11
  {
    var o, end, r := ElementParts(cfg, s, n, sent);
    var v := NodeOf(cfg, s, sent);
    var after := LayoutFound(cfg, o.rest, end);
    var m := Increment(n);
    if Peek(end) == COMMA {
      var before, rest := MoreOf(cfg, end, m, o.sent);
      es := MoreElements(v, after, before, rest);
      ValueThen(cfg, s, sent, o, NodeText(v), NodeEvents(v), after, end, r,
        [COMMA] + (LayoutText(before) + ElementsText(rest)), ElementsEvents(rest, m));
    } else {
      es := LastElement(v, after);
      TokenReads(cfg, end, o.sent, EndArray(m));
      ValueThen(cfg, s, sent, o, NodeText(v), NodeEvents(v), after, end, r, [RBRACKET], [EndArray(m)]);
    }
  }

  lemma CommaParts(cfg: Config, s: Text, n: nat, sent: seq<Event>) returns (t: Text)
    requires ElementEnd(cfg, s, n, sent).Done? && Peek(s) == COMMA
    ensures Skip(cfg, s[1..]) == Good((), t) && ElementEnd(cfg, s, n, sent) == ElementNext(cfg, t, n, sent) && |t| < |s|
  {
    t := Skipped(cfg, s[1..]);
  }

  /** After a comma. */
  lemma {:induction false} MoreOf(cfg: Config, s: Text, n: nat, sent: seq<Event>) returns (before: Layout, rest: Elements)
    requires ElementEnd(cfg, s, n, sent).Done? && Peek(s) == COMMA
    ensures Closed(cfg, before) && ElementsFit(cfg, rest) && (rest.NoElement? ==> cfg.trailingCommas)
    ensures Reads(cfg, s, sent, ElementEnd(cfg, s, n, sent), [COMMA] + (LayoutText(before) + ElementsText(rest)), ElementsEvents(rest, n))
    decreases |s|, 5
  {
    var t := CommaParts(cfg, s, n, sent);
    rest := NextOf(cfg, t, n, sent);
    before := LayoutFound(cfg, s[1..], t);
    CommaReads(cfg, s, t, before, sent, ElementNext(cfg, t, n, sent), ElementsText(rest), ElementsEvents(rest, n));
  }

  lemma CommaReads(cfg: Config, s: Text, t: Text, before: Layout, sent: seq<Event>, r: Outcome, text: Text, es: seq<Event>)
    requires Peek(s) == COMMA && s[1..] == LayoutText(before) + t && Reads(cfg, t, sent, r, text, es)
    ensures Reads(cfg, s, sent, r, [COMMA] + (LayoutText(before) + text), es)
  {
    LayoutSilent(cfg, s[1..], t, before, sent);
    ReadsOn(cfg, s[1..], sent, Done(t, sent), LayoutText(before), [], r, text, es);
    assert [] + es == es;
    SignReads(cfg, s, sent);
    ReadsOn(cfg, s, sent, Done(s[1..], sent), [COMMA], [], r, LayoutText(before) + text, es);
  }

  lemma {:induction false} NextOf(cfg: Config, s: Text, n: nat, sent: seq<Event>) returns (es: Elements)
    requires ElementNext(cfg, s, n, sent).Done?
    ensures ElementsFit(cfg, es) && (es.NoElement? ==> cfg.trailingCommas) && Peek(s) != 0
    ensures Reads(cfg, s, sent, ElementNext(cfg, s, n, sent), ElementsText(es), ElementsEvents(es, n))
    decreases |s|, 12
  {
    if cfg.trailingCommas && Peek(s) == RBRACKET {
      es := NoElement;
      TokenReads(cfg, s, sent, EndArray(n));
    } else {
      es := ElementsOf(cfg, s, n, sent);
      ElementsStart(cfg, es);
      assert s[0] == ElementsText(es)[0];
    }
  }

  // -------------------------------------------------------------- members

  lemma {:induction false} ObjectOf(cfg: Config, s: Text, sent: seq<Event>) returns (ms: Members)
    requires ObjectStart(cfg, s, sent).Done?
    ensures MembersFit(cfg, ms) && Reads(cfg, s, sent, ObjectStart(cfg, s, sent), MembersText(ms), MembersEvents(ms, 0))
    decreases |s|, 12
  {
    if Peek(s) == RBRACE {
      ms := NoMember;
      TokenReads(cfg, s, sent, EndObject(0));
    } else {
      ms := MembersOf(cfg, s, 0, sent);
    }
  }

  /** What reading a member name came through. */
  lemma HeadParts(cfg: Config, s: Text, n: nat, sent: seq<Event>) returns (name: Text, c: Text, d: Text, j: Text)
    requires MemberName(cfg, s, n, sent).Done?
    ensures Peek(s) == QUOTE && ScanString(cfg, s[1..], []) == Good(name, c) && cfg.accepts(sent + [Key(name)])
    ensures Skip(cfg, c) == Good((), d) && Peek(d) == COLON && Skip(cfg, d[1..]) == Good((), j)
    ensures MemberName(cfg, s, n, sent) == MemberValue(cfg, j, n, sent + [Key(name)])
    ensures |j| < |s|
  {
    name, c := ScanString(cfg, s[1..], []).value, ScanString(cfg, s[1..], []).rest;
    d := Skipped(cfg, c);
    assert MemberName(cfg, s, n, sent) == MemberColon(cfg, d, n, sent + [Key(name)]);
    j := Skipped(cfg, d[1..]);
  }

  /** The name of a member and its colon, up to the value. */
  lemma HeadOf(cfg: Config, s: Text, n: nat, sent: seq<Event>) returns (h: Head, j: Text, key: Event)
    requires MemberName(cfg, s, n, sent).Done?
    ensures HeadFits(cfg, h) && key == Key(ItemsBytes(h.name)) && |j| < |s|
    ensures Reads(cfg, s, sent, Done(j, sent + [key]), HeadText(h), [key])
    ensures MemberName(cfg, s, n, sent) == MemberValue(cfg, j, n, sent + [key])
    decreases |s|, 10
  {
    var name, c, d;
    name, c, d, j := HeadParts(cfg, s, n, sent);
    key := Key(name);
    var items := QuotedOf(cfg, s, name, c);
    var afterName := LayoutFound(cfg, c, d);
    ValueNotEnd(cfg, j, n, sent + [key]);
    var afterColon := LayoutFound(cfg, d[1..], j);
    h := Head(items, afterName, afterColon);
    HeadJoins(h, s, c, d, j);
    AcceptedOne(cfg, sent, key);
  }

  lemma HeadJoins(h: Head, s: Text, c: Text, d: Text, j: Text)
    requires s == QuotedText(h.name) + c && c == LayoutText(h.afterName) + d
    requires Peek(d) == COLON && d[1..] == LayoutText(h.afterColon) + j
    ensures s == HeadText(h) + j
  {
    assert d == [COLON] + d[1..];
    HeadSplits(h, j);
  }

  lemma ValueNotEnd(cfg: Config, s: Text, n: nat, sent: seq<Event>)
    requires MemberValue(cfg, s, n, sent).Done?
    ensures Peek(s) != 0
    decreases |s|, 10
  {
    var o, end, r := MemberParts(cfg, s, n, sent);
    var v := NodeOf(cfg, s, sent);
    ValueStarts(cfg, v);
    assert s[0] == NodeText(v)[0];
  }

  /** What reading the value of a member came through. */
  lemma MemberParts(cfg: Config, s: Text, n: nat, sent: seq<Event>) returns (o: Outcome, end: Text, r: Outcome)
    requires MemberValue(cfg, s, n, sent).Done?
    ensures o == AnyValue(cfg, s, sent) && o.Done? && Skip(cfg, o.rest) == Good((), end)
    ensures r == MemberValue(cfg, s, n, sent) == MemberEnd(cfg, end, Increment(n), o.sent)
    ensures |o.rest| < |s| && |end| <= |o.rest| && Peek(end) != 0
  {
    o := AnyValue(cfg, s, sent);
    end := Skipped(cfg, o.rest);
    r := MemberEnd(cfg, end, Increment(n), o.sent);
  }

  lemma {:induction false} MembersOf(cfg: Config, s: Text, n: nat, sent: seq<Event>) returns (ms: Members)
    requires MemberName(cfg, s, n, sent).Done?
    ensures !ms.NoMember? && MembersFit(cfg, ms)
    ensures Reads(cfg, s, sent, MemberName(cfg, s, n, sent), MembersText(ms), MembersEvents(ms, n))
    decreases |s|, 11
  {
    var h, j, key := HeadOf(cfg, s, n, sent);
    var keyed := sent + [key];
    var o, end, r := MemberParts(cfg, j, n, keyed);
    var v := NodeOf(cfg, j, keyed);
    var after := LayoutFound(cfg, o.rest, end);
    var m := Increment(n);
    if Peek(end) == COMMA {
      var before, rest := MoreMembersOf(cfg, end, m, o.sent);
      ms := MoreMembers(h, v, after, before, rest);
      ValueThen(cfg, j, keyed, o, NodeText(v), NodeEvents(v), after, end, r,
        [COMMA] + (LayoutText(before) + MembersText(rest)), MembersEvents(rest, m));
      ReadsOn(cfg, s, sent, Done(j, keyed), HeadText(h), [key], r,
        NodeText(v) + (LayoutText(after) + ([COMMA] + (LayoutText(before) + MembersText(rest)))),
        NodeEvents(v) + MembersEvents(rest, m));
    } else {
      ms := LastMember(h, v, after);
      TokenReads(cfg, end, o.sent, EndObject(m));
      ValueThen(cfg, j, keyed, o, NodeText(v), NodeEvents(v), after, end, r, [RBRACE], [EndObject(m)]);
      ReadsOn(cfg, s, sent, Done(j, keyed), HeadText(h), [key], r,
        NodeText(v) + (LayoutText(after) + [RBRACE]), NodeEvents(v) + [EndObject(m)]);
    }
  }

  lemma MemberCommaParts(cfg: Config, s: Text, n: nat, sent: seq<Event>) returns (t: Text)
    requires MemberEnd(cfg, s, n, sent).Done? && Peek(s) == COMMA
    ensures Skip(cfg, s[1..]) == Good((), t) && MemberEnd(cfg, s, n, sent) == MemberNext(cfg, t, n, sent) && |t| < |s|
  {
    t := Skipped(cfg, s[1..]);
  }

  lemma {:induction false} MoreMembersOf(cfg: Config, s: Text, n: nat, sent: seq<Event>) returns (before: Layout, rest: Members)
    requires MemberEnd(cfg, s, n, sent).Done? && Peek(s) == COMMA
    ensures Closed(cfg, before) && MembersFit(cfg, rest) && (rest.NoMember? ==> cfg.trailingCommas)
    ensures Reads(cfg, s, sent, MemberEnd(cfg, s, n, sent), [COMMA] + (LayoutText(before) + MembersText(rest)), MembersEvents(rest, n))
    decreases |s|, 5
  {
    var t := MemberCommaParts(cfg, s, n, sent);
    rest := NextMemberOf(cfg, t, n, sent);
    before := LayoutFound(cfg, s[1..], t);
    CommaReads(cfg, s, t, before, sent, MemberNext(cfg, t, n, sent), MembersText(rest), MembersEvents(rest, n));
  }

  lemma {:induction false} NextMemberOf(cfg: Config, s: Text, n: nat, sent: seq<Event>) returns (ms: Members)
    requires MemberNext(cfg, s, n, sent).Done?
    ensures MembersFit(cfg, ms) && (ms.NoMember? ==> cfg.trailingCommas) && Peek(s) != 0
    ensures Reads(cfg, s, sent, MemberNext(cfg, s, n, sent), MembersText(ms), MembersEvents(ms, n))
    decreases |s|, 12
  {
    if cfg.trailingCommas && Peek(s) == RBRACE {
      ms := NoMember;
      TokenReads(cfg, s, sent, EndObject(n));
    } else {
      ms := MembersOf(cfg, s, n, sent);
      MembersStart(ms);
      assert s[0] == MembersText(ms)[0];
    }
  }

  // ------------------------------------------------------------ documents

  /**
   * `s` is a value with layout around it, and `r`: what is left where the reader is told to stop
   * when done, the end of the input otherwise.
   */
  ghost predicate Derives(cfg: Config, before: Layout, v: Node, after: Layout, s: Text, r: Text, es: seq<Event>) {
    && Closed(cfg, before) && NodeFits(cfg, v)
    && s == LayoutText(before) + (NodeText(v) + (LayoutText(after) + r))
    && NodeStops(v, Peek(LayoutText(after) + r))
    && (if cfg.stopWhenDone then after == [] else Peek(r) == 0 && LayoutFits(cfg, after, 0))
    && es == NodeEvents(v) && Accepted(cfg, [], es)
  }

  ghost predicate IsDocument(cfg: Config, s: Text, r: Text, es: seq<Event>) {
    exists before, v, after :: Derives(cfg, before, v, after, s, r, es)
  }

  lemma DocumentAt(cfg: Config, s: Text, t: Text)
    requires Skip(cfg, s) == Good((), t) && Peek(t) != 0
    ensures ParseDocument(cfg, s) == DocumentEnd(cfg, AnyValue(cfg, t, []))
  {
  }

  lemma DocumentReads(cfg: Config, before: Layout, v: Node, after: Layout, s: Text, r: Text, es: seq<Event>)
    requires Derives(cfg, before, v, after, s, r, es)
    ensures ParseDocument(cfg, s) == Done(r, es)
  {
    var end := LayoutText(after) + r;
    var t := NodeText(v) + end;
    ValueStarts(cfg, v);
    ClosedFits(cfg, before, t);
    DocumentAt(cfg, s, t);
    NodeReads(cfg, v, end, []);
    assert [] + es == es;
    if cfg.stopWhenDone {
      assert end == r;
    } else {
      LayoutReads(cfg, after, r);
    }
  }

  lemma DocumentOf(cfg: Config, s: Text) returns (before: Layout, v: Node, after: Layout)
    requires ParseDocument(cfg, s).Done?
    ensures Derives(cfg, before, v, after, s, ParseDocument(cfg, s).rest, ParseDocument(cfg, s).sent)
  {
    var t := Skipped(cfg, s);
    DocumentAt(cfg, s, t);
    var o, r := AnyValue(cfg, t, []), ParseDocument(cfg, s).rest;
    before := LayoutFound(cfg, s, t);
    v := NodeOf(cfg, t, []);
    assert [] + NodeEvents(v) == NodeEvents(v);
    if cfg.stopWhenDone {
      after := [];
      assert LayoutText(after) + r == r;
    } else {
      after := LayoutOf(cfg, o.rest);
    }
  }

  /**
   * Both readers accept exactly the texts of the grammar, and send the events of their syntax tree,
   * whatever the parse flags and the handler.
   */
  lemma ReadersAcceptGrammar(cfg: Config, s: Text, r: Text, es: seq<Event>)
    ensures ParseDocument(cfg, s) == Done(r, es) <==> IsDocument(cfg, s, r, es)
    ensures Automaton.IterativeDocument(cfg, s) == Done(r, es) <==> IsDocument(cfg, s, r, es)
  {
    Automaton.IterativeIsRecursive(cfg, s);
    if ParseDocument(cfg, s) == Done(r, es) {
      var before, v, after := DocumentOf(cfg, s);
    }
    if IsDocument(cfg, s, r, es) {
      var before, v, after :| Derives(cfg, before, v, after, s, r, es);
      DocumentReads(cfg, before, v, after, s, r, es);
    }
  }
}
