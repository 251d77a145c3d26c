/** The reader itself: a stream that moves, a handler that is sent events, an explicit stack. */
module Reader {
  import opened Bytes
  import opened Events
  import opened Lexing
  import opened Descent
  import opened Automaton
  import Unicode

  /** What the text of a number consists of. */
  datatype Parts = Parts(minus: bool, integer: Integer, frac: Option<int>, exp: Option<int>)

  function ScanParts(s: Text): (r: Scan<Parts>)
    ensures r.Good? ==> |r.rest| <= |s|
  {
    var minus := Peek(s) == MINUS;
    match ScanInteger(minus, if minus then s[1..] else s)
    case Bad => Bad
    case Good(i, s1) =>
      match FractionPart(i, s1)
      case Bad => Bad
      case Good(frac, s2) =>
        match ExponentPart(if frac.Some? then frac.value else 0, s2)
        case Bad => Bad
        case Good(exp, s3) => Good(Parts(minus, i, frac, exp), s3)
  }

  lemma NumberFromParts(cfg: Config, s: Text)
    ensures ScanNumber(cfg, s) == match ScanParts(s)
      case Bad => Bad
      case Good(p, t) =>
        if p.integer.width != Big && p.frac.None? && p.exp.None? then Good(IntegerEvent(p.minus, p.integer), t)
        else if cfg.inRange(s[..|s| - |t|]) then Good(Double(s[..|s| - |t|]), t) else Bad
  {
  }

  class Reader {
    const cfg: Config
    var input: Text          // what the stream has not yet given out
    var sent: seq<Event>     // the events the handler has been sent
    var failed: bool         // a parse error has been recorded
    var stack: seq<Frame>    // saved states and counts of the iterative parser

    constructor (cfg: Config, text: Text)
      ensures this.cfg == cfg && input == text && sent == [] && !failed && stack == []
    {
      this.cfg := cfg;
      input, sent, failed, stack := text, [], false, [];
    }

    /** Where the parse stands. */
    function Result(): Outcome
      reads this
    {
      if failed then Fail(sent) else Done(input, sent)
    }

    method Take()
      requires input != []
      modifies this`input
      ensures input == old(input)[1..]
    {
      input := input[1..];
    }

    method Consume(unit: Byte) returns (ok: bool)
      requires unit != 0
      modifies this`input
      ensures ok <==> Peek(old(input)) == unit
      ensures input == if ok then old(input)[1..] else old(input)
    {
      ok := Peek(input) == unit;
      if ok {
        Take();
      }
    }

    /** Sends an event; the parse stops when the handler refuses it. */
    method Send(e: Event)
      requires !failed
      modifies this`sent, this`failed
      ensures Result() == Emit(cfg, e, input, old(sent))
    {
      sent := sent + [e];
      failed := !cfg.accepts(sent);
    }

    method SkipWhitespace()
      modifies this`input
      ensures input == SkipSpace(old(input))
    {
      while input != [] && IsSpace(input[0])
        invariant SkipSpace(input) == SkipSpace(old(input))
        decreases |input|
      {
        Take();
      }
    }

    method FinishBlockComment()
      requires !failed
      modifies this`input, this`failed
      ensures match BlockEnd(old(input))
        case Bad => failed
        case Good(_, t) => !failed && input == t
    {
      while true
        invariant !failed && BlockEnd(input) == BlockEnd(old(input))
        decreases |input|
      {
        if Peek(input) == 0 {
          failed := true;
          return;
        }
        ghost var here := input;
        var star := Consume(STAR);
        if star {
          var slash := Consume(SLASH);
          if slash {
            assert input == here[2..];
            return;
          }
        } else {
          Take();
        }
      }
    }

    method FinishLineComment()
      modifies this`input
      ensures input == LineEnd(old(input))
    {
      while Peek(input) != 0
        invariant LineEnd(input) == LineEnd(old(input))
        decreases |input|
      {
        var last := input[0] == LF;
        Take();
        if last {
          return;
        }
      }
    }

    method SkipWhitespaceAndComments()
      requires !failed
      modifies this`input, this`failed
      ensures match Skip(cfg, old(input))
        case Bad => failed
        case Good(_, t) => !failed && input == t
    {
      SkipWhitespace();
      if !cfg.comments {
        return;
      }
      ghost var goal := SkipComments(input);
      while Peek(input) == SLASH
        invariant !failed && SkipComments(input) == goal
        decreases |input|
      {
        ghost var here := input;
        Take();
        var block := Consume(STAR);
        if block {
          assert input == here[2..];
          FinishBlockComment();
          if failed {
            return;
          }
        } else {
          var line := Consume(SLASH);
          if !line {
            failed := true;
            return;
          }
          assert input == here[2..];
          FinishLineComment();
        }
        SkipWhitespace();
      }
    }

    // ------------------------------------------------------------ strings

    method ParseHex4() returns (codepoint: nat)
      requires !failed
      modifies this`input, this`failed
      ensures match Hex4(old(input))
        case Bad => failed
        case Good(v, t) => !failed && codepoint == v && input == t
    {
      codepoint := 0;
      ghost var start := input;
      for i := 0 to 4
        invariant !failed && i <= |start| && input == start[i..]
        invariant forall j :: 0 <= j < i ==> HexDigit(start[j]) >= 0
        invariant i >= 1 ==> codepoint % 16 == HexDigit(start[i - 1]) && codepoint < 0x1_0000
        invariant codepoint == (match i
          case 0 => 0
          case 1 => HexDigit(start[0])
          case 2 => HexDigit(start[0]) * 16 + HexDigit(start[1])
          case 3 => (HexDigit(start[0]) * 16 + HexDigit(start[1])) * 16 + HexDigit(start[2])
          case _ => ((HexDigit(start[0]) * 16 + HexDigit(start[1])) * 16 + HexDigit(start[2])) * 16 + HexDigit(start[3]))
      {
        var d := HexDigit(Peek(input));
        if d < 0 {
          failed := true;
          return;
        }
        codepoint := codepoint * 16 + d;
        Take();
      }
    }

    /** Decodes a string up to its closing quote, the opening quote being next. */
    method ParseStringToStream() returns (os: Text)
      requires !failed && Peek(input) == QUOTE
      modifies this`input, this`failed
      ensures match ScanString(cfg, old(input)[1..], [])
        case Bad => failed
        case Good(s, t) => !failed && os == s && input == t
    {
      os := [];
      Take();
      ghost var goal := ScanString(cfg, input, []);
      while true
        invariant !failed && ScanString(cfg, input, os) == goal
        decreases |input|
      {
        var c := Peek(input);
        if c == BACKSLASH {
          Take();
          var e := Peek(input);
          if Unescape(e) != 0 {
            Take();
            os := os + [Unescape(e)];
          } else if e == 0x75 {
            Take();
            var codepoint := ParseUnicodeEscape();
            if failed {
              return;
            }
            os := os + Unicode.Encode(codepoint);
          } else {
            failed := true;
            return;
          }
        } else if c == QUOTE {
          Take();
          return;
        } else if c < 0x20 {
          failed := true;
          return;
        } else if cfg.validate {
          var d := Unicode.Decode(input);
          if !d.ok || d.taken > |input| {
            failed := true;
            return;
          }
          os := os + input[..d.taken];
          input := input[d.taken..];
        } else {
          os := os + [c];
          Take();
        }
      }
    }

    method ParseUnicodeEscape() returns (codepoint: nat)
      requires !failed
      modifies this`input, this`failed
      ensures match UnicodeEscape(old(input))
        case Bad => failed
        case Good(v, t) => !failed && codepoint == v && input == t
    {
      codepoint := ParseHex4();
      if failed {
        return;
      }
      if 0xD800 <= codepoint <= 0xDBFF {
        var slash := Consume(BACKSLASH);
        if !slash {
          failed := true;
          return;
        }
        var u := Consume(0x75);
        if !u {
          failed := true;
          return;
        }
        var codepoint2 := ParseHex4();
        if failed {
          return;
        }
        if codepoint2 < 0xDC00 || codepoint2 > 0xDFFF {
          failed := true;
          return;
        }
        codepoint := (codepoint - 0xD800) * 0x400 + (codepoint2 - 0xDC00) + 0x10000;
      }
    }

    method ParseString(isKey: bool)
      requires !failed && Peek(input) == QUOTE
      modifies this`input, this`sent, this`failed
      ensures Result() == match ScanString(cfg, old(input)[1..], [])
        case Bad => Fail(old(sent))
        case Good(s, t) => Emit(cfg, if isKey then Key(s) else String(s), t, old(sent))
    {
      var str := ParseStringToStream();
      if failed {
        return;
      }
      Send(if isKey then Key(str) else String(str));
    }

    // ------------------------------------------------------------ literals

    /** `null`, `true` or `false`: the first letter is next, `tail` must follow. */
    method ParseLiteral(tail: Text, e: Event)
      requires !failed && input != []
      requires forall i :: 0 <= i < |tail| ==> tail[i] != 0
      modifies this`input, this`sent, this`failed
      ensures Result() == match ScanLiteral(old(input), tail, e)
        case Bad => Fail(old(sent))
        case Good(e', t) => Emit(cfg, e', t, old(sent))
    {
      Take();
      ghost var start := input;
      for i := 0 to |tail|
        invariant !failed && sent == old(sent) && i <= |start| && input == start[i..]
        invariant tail[..i] == start[..i]
      {
        var ok := Consume(tail[i]);
        if !ok {
          failed := true;
          return;
        }
      }
      Send(e);
    }

    // ------------------------------------------------------------- numbers

    method SkipRestOfDigits()
      modifies this`input
      ensures input == SkipDigits(old(input))
    {
      while IsDigit(Peek(input))
        invariant SkipDigits(input) == SkipDigits(old(input))
        decreases |input|
      {
        Take();
      }
    }

    /** Accumulates digits while the next one keeps the integer within its width. */
    method AccumulateDigits(start: nat, limit: nat, top: nat) returns (i: nat, full: bool)
      modifies this`input
      ensures Accumulate(old(input), start, limit, top) == Run(i, full, input)
    {
      i, full := start, false;
      while IsDigit(Peek(input))
        invariant !full && Accumulate(input, i, limit, top) == Accumulate(old(input), start, limit, top)
        decreases |input|
      {
        if i >= limit {
          if i != limit || input[0] > 0x30 + top {
            full := true;
            return;
          }
        }
        i := i * 10 + (input[0] - 0x30);
        Take();
      }
    }

    method ParseInteger(minus: bool) returns (i: Integer)
      requires !failed
      modifies this`input, this`failed
      ensures match ScanInteger(minus, old(input))
        case Bad => failed
        case Good(v, t) => !failed && i == v && input == t
    {
      i := Integer(Narrow, 0, 0);
      ghost var start := input;
      if Peek(input) == 0x30 {
        Take();
      } else if IsDigit(Peek(input)) {
        var first := input[0] - 0x30;
        Take();
        var before := |input|;
        var value, full := AccumulateDigits(first, Limit32(minus), LastDigit(minus));
        i := Integer(Narrow, value, before - |input|);
        if full {
          value, full := AccumulateDigits(value, Limit64(minus), LastDigit(minus));
          i := Integer(if full then Big else Wide, value, before - |input|);
          if full {
            SkipRestOfDigits();
          }
        }
      } else {
        failed := true;
      }
    }

    method ParseFraction(i: Integer) returns (frac: Option<int>)
      requires !failed
      modifies this`input, this`failed
      ensures match FractionPart(i, old(input))
        case Bad => failed
        case Good(v, t) => !failed && frac == v && input == t
    {
      frac := None;
      var point := Consume(0x2E);
      if !point {
        return;
      }
      if !IsDigit(Peek(input)) {
        failed := true;
        return;
      }
      ghost var goal := FractionPart(i, old(input));
      var expFrac, digits, positive := 0, i.digits, true;
      if i.width != Big {
        var i64: nat := i.value;
        ghost var f := ScanSignificand(input, i64, digits, expFrac);
        while IsDigit(Peek(input)) && i64 <= 0x1F_FFFF_FFFF_FFFF
          invariant !failed && ScanSignificand(input, i64, digits, expFrac) == f
          decreases |input|
        {
          i64 := i64 * 10 + (input[0] - 0x30);
          Take();
          expFrac := expFrac - 1;
          if i64 != 0 {
            digits := digits + 1;
          }
        }
        positive := i64 != 0;
      }
      ghost var end := ScanFraction(input, positive, digits, expFrac);
      while IsDigit(Peek(input))
        invariant !failed && ScanFraction(input, positive, digits, expFrac) == end
        decreases |input|
      {
        if digits < 17 {
          positive := positive || input[0] != 0x30;
          Take();
          expFrac := expFrac - 1;
          if positive {
            digits := digits + 1;
          }
        } else {
          Take();
        }
      }
      frac := Some(expFrac);
    }

    method ParseExponent(expFrac: int) returns (exponent: Option<int>)
      requires !failed
      modifies this`input, this`failed
      ensures match ExponentPart(expFrac, old(input))
        case Bad => failed
        case Good(v, t) => !failed && exponent == v && input == t
    {
      exponent := None;
      ghost var start := input;
      if Peek(input) != 0x65 && Peek(input) != 0x45 {
        return;
      }
      Take();
      var plus := Consume(0x2B);
      var minus := false;
      if !plus {
        minus := Consume(MINUS);
      }
      if !IsDigit(Peek(input)) {
        failed := true;
        return;
      }
      assert input == if plus || minus then start[2..] else start[1..];
      var exp: nat := input[0] - 0x30;
      Take();
      if minus {
        exp := NegativeExponent(exp, Truncate(expFrac + 2147483639, 10));
        var e: int := exp;
        exponent := Some(-e);
      } else {
        exp := PositiveExponent(exp, 308 - expFrac);
        exponent := Some(exp);
      }
    }

    method NegativeExponent(first: nat, maxExp: int) returns (exp: nat)
      modifies this`input
      ensures (exp, input) == ScanNegative(old(input), first, maxExp)
    {
      exp := first;
      ghost var goal := ScanNegative(input, exp, maxExp);
      while IsDigit(Peek(input))
        invariant ScanNegative(input, exp, maxExp) == goal
        decreases |input|
      {
        exp := exp * 10 + (input[0] - 0x30);
        Take();
        if exp > maxExp {
          SkipRestOfDigits();
          return;
        }
      }
    }

    method PositiveExponent(first: nat, maxExp: int) returns (exp: nat)
      requires !failed
      modifies this`input, this`failed
      ensures match ScanPositive(old(input), first, maxExp)
        case Bad => failed
        case Good(v, t) => !failed && exp == v && input == t
    {
      exp := first;
      while IsDigit(Peek(input))
        invariant !failed && ScanPositive(input, exp, maxExp) == ScanPositive(old(input), first, maxExp)
        decreases |input|
      {
        exp := exp * 10 + (input[0] - 0x30);
        Take();
        if exp > maxExp {
          failed := true;
          return;
        }
      }
    }

    method ParseParts() returns (p: Parts)
      requires !failed
      modifies this`input, this`failed
      ensures match ScanParts(old(input))
        case Bad => failed
        case Good(v, t) => !failed && p == v && input == t
    {
      p := Parts(false, Integer(Narrow, 0, 0), None, None);
      var minus := Consume(MINUS);
      var i := ParseInteger(minus);
      if failed {
        return;
      }
      var frac := ParseFraction(i);
      if failed {
        return;
      }
      var exp := ParseExponent(if frac.Some? then frac.value else 0);
      p := Parts(minus, i, frac, exp);
    }

    method ParseNumber()
      requires !failed
      modifies this`input, this`sent, this`failed
      ensures Result() == match ScanNumber(cfg, old(input))
        case Bad => Fail(old(sent))
        case Good(e, t) => Emit(cfg, e, t, old(sent))
    {
      var start := input;
      NumberFromParts(cfg, start);
      var p := ParseParts();
      if failed {
        return;
      }
      if p.integer.width != Big && p.frac.None? && p.exp.None? {
        Send(IntegerEvent(p.minus, p.integer));
      } else {
        var literal := start[..|start| - |input|];
        if !cfg.inRange(literal) {
          failed := true;
          return;
        }
        Send(Double(literal));
      }
    }

    // ----------------------------------------------------- recursive descent

    method ParseScalar()
      requires !failed && Peek(input) != LBRACE && Peek(input) != LBRACKET
      modifies this`input, this`sent, this`failed
      ensures Result() == Scalar(cfg, old(input), old(sent))
    {
      match Peek(input) {
        case 0x6E => ParseLiteral(NULL_TAIL, Null);
        case 0x74 => ParseLiteral(TRUE_TAIL, Bool(true));
        case 0x66 => ParseLiteral(FALSE_TAIL, Bool(false));
        case 0x22 => ParseString(false);
        case _ => ParseNumber();
      }
    }

    method ParseValue()
      requires !failed
      modifies this`input, this`sent, this`failed
      ensures Result() == AnyValue(cfg, old(input), old(sent))
      decreases |input|, 1
    {
      if Peek(input) == LBRACE {
        ParseObject();
      } else if Peek(input) == LBRACKET {
        ParseArray();
      } else {
        ParseScalar();
      }
    }

    method ParseObject()
      requires !failed && Peek(input) == LBRACE
      modifies this`input, this`sent, this`failed
      ensures Result() == AnyValue(cfg, old(input), old(sent))
      decreases |input|, 0
    {
      ghost var goal := AnyValue(cfg, input, sent);
      var whole := |input|;
      Take();
      Send(StartObject);
      if failed {
        return;
      }
      SkipWhitespaceAndComments();
      if failed {
        return;
      }
      assert ObjectStart(cfg, input, sent) == goal;
      var close := Consume(RBRACE);
      if close {
        Send(EndObject(0));
        return;
      }
      assert |input| < whole;
      var memberCount := 0;
      while true
        invariant !failed && MemberName(cfg, input, memberCount, sent) == goal && |input| < whole
        decreases |input|
      {
        if Peek(input) != QUOTE {
          failed := true;
          return;
        }
        ParseString(true);
        if failed {
          return;
        }
        SkipWhitespaceAndComments();
        if failed {
          return;
        }
        assert MemberColon(cfg, input, memberCount, sent) == goal;
        var colon := Consume(COLON);
        if !colon {
          failed := true;
          return;
        }
        SkipWhitespaceAndComments();
        if failed {
          return;
        }
        assert MemberValue(cfg, input, memberCount, sent) == goal;
        ParseValue();
        if failed {
          return;
        }
        SkipWhitespaceAndComments();
        if failed {
          return;
        }
        memberCount := Increment(memberCount);
        assert MemberEnd(cfg, input, memberCount, sent) == goal;
        if Peek(input) == COMMA {
          Take();
          SkipWhitespaceAndComments();
          if failed {
            return;
          }
        } else if Peek(input) == RBRACE {
          Take();
          Send(EndObject(memberCount));
          return;
        } else {
          failed := true;
          return;
        }
        assert MemberNext(cfg, input, memberCount, sent) == goal;
        if cfg.trailingCommas && Peek(input) == RBRACE {
          Send(EndObject(memberCount));
          if !failed {
            Take();
          }
          return;
        }
      }
    }

    method ParseArray()
      requires !failed && Peek(input) == LBRACKET
      modifies this`input, this`sent, this`failed
      ensures Result() == AnyValue(cfg, old(input), old(sent))
      decreases |input|, 0
    {
      ghost var goal := AnyValue(cfg, input, sent);
      var whole := |input|;
      Take();
      Send(StartArray);
      if failed {
        return;
      }
      SkipWhitespaceAndComments();
      if failed {
        return;
      }
      var close := Consume(RBRACKET);
      if close {
        Send(EndArray(0));
        return;
      }
      var elementCount := 0;
      while true
        invariant !failed && Element(cfg, input, elementCount, sent) == goal && |input| < whole
        decreases |input|
      {
        ParseValue();
        if failed {
          return;
        }
        elementCount := Increment(elementCount);
        SkipWhitespaceAndComments();
        if failed {
          return;
        }
        assert ElementEnd(cfg, input, elementCount, sent) == goal;
        var comma := Consume(COMMA);
        if comma {
          SkipWhitespaceAndComments();
          if failed {
            return;
          }
        } else {
          close := Consume(RBRACKET);
          if close {
            Send(EndArray(elementCount));
          } else {
            failed := true;
          }
          return;
        }
        assert ElementNext(cfg, input, elementCount, sent) == goal;
        if cfg.trailingCommas && Peek(input) == RBRACKET {
          Send(EndArray(elementCount));
          if !failed {
            Take();
          }
          return;
        }
      }
    }

    /** Parses a whole document by recursive descent. */
    method Parse()
      requires !failed && sent == []
      modifies this`input, this`sent, this`failed
      ensures Result() == ParseDocument(cfg, old(input))
    {
      SkipWhitespaceAndComments();
      if failed {
        return;
      }
      if Peek(input) == 0 {
        failed := true;
        return;
      }
      ParseValue();
      if failed || cfg.stopWhenDone {
        return;
      }
      SkipWhitespaceAndComments();
      if failed {
        return;
      }
      failed := Peek(input) != 0;
    }

    // --------------------------------------------------- iterative parsing

    /** The automaton this reader is in when its local variable `state` has this value. */
    function AsMachine(state: State): Machine
      reads this
    {
      Machine(state, stack, input, sent)
    }

    /** Whether `state` and this reader are where one step from `m` leads. */
    predicate Reached(m: Machine, state: State)
      reads this
      requires Valid(m) && m.rest != []
    {
      var r := Step(cfg, m);
      && state == r.state
      && sent == r.sent
      && (state != Error ==> !failed && stack == r.stack && input == r.rest)
    }

    method OpenContainer(src: State, dst: State) returns (state: State)
      requires !failed && input != [] && Valid(AsMachine(src))
      requires dst == Predict(src, Tokenize(Peek(input))) && (dst == ObjectInitial || dst == ArrayInitial)
      modifies this
      ensures Reached(old(AsMachine(src)), state)
    {
      stack := stack + [Frame(Saved(src), 0)];
      Send(if dst == ObjectInitial then StartObject else StartArray);
      if failed {
        return Error;
      }
      Take();
      return dst;
    }

    method CloseContainer(src: State, isObject: bool) returns (state: State)
      requires !failed && input != [] && Valid(AsMachine(src))
      requires Predict(src, Tokenize(Peek(input))) == if isObject then ObjectFinish else ArrayFinish
      modifies this
      ensures Reached(old(AsMachine(src)), state)
    {
      if !cfg.trailingCommas && src == (if isObject then MemberDelimiter else ElementDelimiter) {
        failed := true;
        return Error;
      }
      var top := stack[|stack| - 1];
      stack := stack[..|stack| - 1];
      var c := top.count;
      if src == (if isObject then MemberVal else Elem) {
        c := Increment(c);
      }
      Send(if isObject then EndObject(c) else EndArray(c));
      if failed {
        return Error;
      }
      Take();
      return if top.state == Start then Finish else top.state;
    }

    method ReadKey(src: State) returns (state: State)
      requires !failed && input != [] && Valid(AsMachine(src))
      requires Predict(src, Tokenize(Peek(input))) == MemberKey
      modifies this`input, this`sent, this`failed
      ensures Reached(old(AsMachine(src)), state)
    {
      NameStep(cfg, AsMachine(src));
      ParseString(true);
      state := if failed then Error else MemberKey;
    }

    method ReadValue(src: State, dst: State) returns (state: State)
      requires !failed && input != [] && Valid(AsMachine(src))
      requires dst == Predict(src, Tokenize(Peek(input))) && (dst == Single || dst == Elem || dst == MemberVal)
      modifies this`input, this`sent, this`failed
      ensures Reached(old(AsMachine(src)), state)
    {
      ScalarStep(cfg, AsMachine(src));
      ScalarIsValue(cfg, input, sent);
      ParseValue();
      state := if failed then Error else if src == Start then Finish else dst;
    }

    method TakeDelimiter(src: State, dst: State)
      requires !failed && input != [] && Valid(AsMachine(src))
      requires dst == Predict(src, Tokenize(Peek(input)))
      requires dst == KeyValueDelimiter || dst == MemberDelimiter || dst == ElementDelimiter
      modifies this`input, this`stack
      ensures Reached(old(AsMachine(src)), dst)
    {
      if dst == KeyValueDelimiter {
        ColonStep(cfg, AsMachine(src));
        Take();
      } else {
        CommaStep(cfg, AsMachine(src));
        CountOne();
      }
    }

    /** Carries out the transition the table asks for; a saved state may take the place of `dst`. */
    method TransitTo(src: State, dst: State) returns (state: State)
      requires !failed && input != [] && Valid(AsMachine(src))
      requires dst == Predict(src, Tokenize(Peek(input)))
      modifies this
      ensures Reached(old(AsMachine(src)), state)
    {
      state := dst;
      if dst == ObjectInitial || dst == ArrayInitial {
        state := OpenContainer(src, dst);
      } else if dst == ObjectFinish || dst == ArrayFinish {
        state := CloseContainer(src, dst == ObjectFinish);
      } else if dst == MemberKey {
        state := ReadKey(src);
      } else if dst == KeyValueDelimiter || dst == MemberDelimiter || dst == ElementDelimiter {
        TakeDelimiter(src, dst);
      } else if dst != Error {
        state := ReadValue(src, dst);
      }
    }

    /** Takes a comma and counts the member or element before it. */
    method CountOne()
      requires input != [] && stack != []
      modifies this`input, this`stack
      ensures input == old(input)[1..]
      ensures var top := old(stack)[|old(stack)| - 1];
        stack == old(stack)[..|old(stack)| - 1] + [Frame(top.state, Increment(top.count))]
    {
      var k := |stack| - 1;
      Take();
      stack := stack[..k] + [Frame(stack[k].state, Increment(stack[k].count))];
    }

    /** Parses a whole document with the automaton. */
    method IterativeParse()
      requires !failed && sent == [] && stack == []
      modifies this
      ensures Result() == ParseDocument(cfg, old(input))
    {
      IterativeIsRecursive(cfg, input);
      ghost var goal := ParseDocument(cfg, input);
      var state := Start;
      SkipWhitespaceAndComments();
      if failed {
        return;
      }
      while Peek(input) != 0
        invariant !failed && state != Error && Valid(AsMachine(state))
        invariant Automaton.Run(cfg, AsMachine(state)) == goal
        decreases |input|
      {
        ghost var m := AsMachine(state);
        var n := Predict(state, Tokenize(Peek(input)));
        state := TransitTo(state, n);
        if state == Error {
          failed := true;
          return;
        }
        if cfg.stopWhenDone && state == Finish {
          return;
        }
        assert AsMachine(state) == Step(cfg, m);
        SkipWhitespaceAndComments();
        if failed {
          return;
        }
      }
      failed := state != Finish;
    }
  }
}
