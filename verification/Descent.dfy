/** The recursive-descent grammar as functions of the unread input, cut where white space is skipped. */
module Descent {
  import opened Bytes
  import opened Events
  import opened Lexing

  /** How parsing goes on: the input left and the events sent, or an error after some events. */
  datatype Outcome = Fail(sent: seq<Event>) | Done(rest: Text, sent: seq<Event>)

  function Emit(cfg: Config, e: Event, rest: Text, sent: seq<Event>): (r: Outcome)
    ensures r.Done? ==> r.rest == rest
    ensures r.sent == sent + [e]
  {
    if cfg.accepts(sent + [e]) then Done(rest, sent + [e]) else Fail(sent + [e])
  }

  /** `Progress(s, r)`: a successful outcome leaves less input than `s`. */
  predicate Progress(s: Text, r: Outcome) {
    r.Done? ==> |r.rest| < |s|
  }

  function Scalar(cfg: Config, s: Text, sent: seq<Event>): (r: Outcome)
    ensures Progress(s, r)
  {
    match ScanScalar(cfg, s)
    case Bad => Fail(sent)
    case Good(e, rest) => Emit(cfg, e, rest, sent)
  }

  function AnyValue(cfg: Config, s: Text, sent: seq<Event>): (r: Outcome)
    ensures Progress(s, r)
    decreases |s|, 9
  {
    if Peek(s) == LBRACE then
      var r := Emit(cfg, StartObject, s[1..], sent);
      if r.Fail? then r
      else
        match Skip(cfg, s[1..])
        case Bad => Fail(r.sent)
        case Good(_, t) => ObjectStart(cfg, t, r.sent)
    else if Peek(s) == LBRACKET then
      var r := Emit(cfg, StartArray, s[1..], sent);
      if r.Fail? then r
      else
        match Skip(cfg, s[1..])
        case Bad => Fail(r.sent)
        case Good(_, t) => ArrayStart(cfg, t, r.sent)
    else Scalar(cfg, s, sent)
  }

  // -------------------------------------------------------------- objects

  /** At the first token inside the braces. */
  function ObjectStart(cfg: Config, s: Text, sent: seq<Event>): (r: Outcome)
    ensures Progress(s, r)
    decreases |s|, 8
  {
    if Peek(s) == RBRACE then Emit(cfg, EndObject(0), s[1..], sent) else MemberName(cfg, s, 0, sent)
  }

  /** Where a member name must stand, `n` members being complete. */
  function MemberName(cfg: Config, s: Text, n: nat, sent: seq<Event>): (r: Outcome)
    ensures Progress(s, r)
    decreases |s|, 7
  {
    if Peek(s) != QUOTE then Fail(sent)
    else
      match ScanString(cfg, s[1..], [])
      case Bad => Fail(sent)
      case Good(name, rest) =>
        var r := Emit(cfg, Key(name), rest, sent);
        if r.Fail? then r
        else
          match Skip(cfg, rest)
          case Bad => Fail(r.sent)
          case Good(_, t) => MemberColon(cfg, t, n, r.sent)
  }

  function MemberColon(cfg: Config, s: Text, n: nat, sent: seq<Event>): (r: Outcome)
    ensures Progress(s, r)
    decreases |s|, 6
  {
    if Peek(s) != COLON then Fail(sent)
    else
      match Skip(cfg, s[1..])
      case Bad => Fail(sent)
      case Good(_, t) => MemberValue(cfg, t, n, sent)
  }

  function MemberValue(cfg: Config, s: Text, n: nat, sent: seq<Event>): (r: Outcome)
    ensures Progress(s, r)
    decreases |s|, 10
  {
    var v := AnyValue(cfg, s, sent);
    if v.Fail? then v
    else
      match Skip(cfg, v.rest)
      case Bad => Fail(v.sent)
      case Good(_, t) => MemberEnd(cfg, t, Increment(n), v.sent)
  }

  /** At the token after a member, `n` counting it. */
  function MemberEnd(cfg: Config, s: Text, n: nat, sent: seq<Event>): (r: Outcome)
    ensures Progress(s, r)
    decreases |s|, 5
  {
    if Peek(s) == COMMA then
      match Skip(cfg, s[1..])
      case Bad => Fail(sent)
      case Good(_, t) => MemberNext(cfg, t, n, sent)
    else if Peek(s) == RBRACE then Emit(cfg, EndObject(n), s[1..], sent)
    else Fail(sent)
  }

  /** At the token after a comma. */
  function MemberNext(cfg: Config, s: Text, n: nat, sent: seq<Event>): (r: Outcome)
    ensures Progress(s, r)
    decreases |s|, 8
  {
    if cfg.trailingCommas && Peek(s) == RBRACE then Emit(cfg, EndObject(n), s[1..], sent)
    else MemberName(cfg, s, n, sent)
  }

  // --------------------------------------------------------------- arrays

  /** At the first token after `[`. */
  function ArrayStart(cfg: Config, s: Text, sent: seq<Event>): (r: Outcome)
    ensures Progress(s, r)
    decreases |s|, 12
  {
    if Peek(s) == RBRACKET then Emit(cfg, EndArray(0), s[1..], sent) else Element(cfg, s, 0, sent)
  }

  function Element(cfg: Config, s: Text, n: nat, sent: seq<Event>): (r: Outcome)
    ensures Progress(s, r)
    decreases |s|, 11
  {
    var v := AnyValue(cfg, s, sent);
    if v.Fail? then v
    else
      match Skip(cfg, v.rest)
      case Bad => Fail(v.sent)
      case Good(_, t) => ElementEnd(cfg, t, Increment(n), v.sent)
  }

  /** At the token after an element, `n` counting it. */
  function ElementEnd(cfg: Config, s: Text, n: nat, sent: seq<Event>): (r: Outcome)
    ensures Progress(s, r)
    decreases |s|, 5
  {
    if Peek(s) == COMMA then
      match Skip(cfg, s[1..])
      case Bad => Fail(sent)
      case Good(_, t) => ElementNext(cfg, t, n, sent)
    else if Peek(s) == RBRACKET then Emit(cfg, EndArray(n), s[1..], sent)
    else Fail(sent)
  }

  /** At the token after a comma. */
  function ElementNext(cfg: Config, s: Text, n: nat, sent: seq<Event>): (r: Outcome)
    ensures Progress(s, r)
    decreases |s|, 12
  {
    if cfg.trailingCommas && Peek(s) == RBRACKET then Emit(cfg, EndArray(n), s[1..], sent)
    else Element(cfg, s, n, sent)
  }

  // ------------------------------------------------------------- documents

  /** After the root value: nothing but white space may follow, unless asked to stop there. */
  function DocumentEnd(cfg: Config, r: Outcome): Outcome {
    if r.Fail? || cfg.stopWhenDone then r
    else
      match Skip(cfg, r.rest)
      case Bad => Fail(r.sent)
      case Good(_, t) => if Peek(t) != 0 then Fail(r.sent) else Done(t, r.sent)
  }

  function ParseDocument(cfg: Config, s: Text): Outcome {
    match Skip(cfg, s)
    case Bad => Fail([])
    case Good(_, t) => if Peek(t) == 0 then Fail([]) else DocumentEnd(cfg, AnyValue(cfg, t, []))
  }
}
