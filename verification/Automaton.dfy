/** The table-driven pushdown automaton: every run of it ends as recursive descent does. */
module Automaton {
  import opened Bytes
  import opened Events
  import opened Lexing
  import opened Descent

  datatype Token =
    | LeftBracket | RightBracket | LeftCurly | RightCurly | CommaToken | ColonToken
    | StringToken | FalseToken | TrueToken | NullToken | NumberToken

  datatype State =
    | Finish | Error | Start
    | ObjectInitial | MemberKey | MemberVal | ObjectFinish
    | ArrayInitial | Elem | ArrayFinish
    | Single
    | ElementDelimiter | MemberDelimiter | KeyValueDelimiter

  /** The map from a character to a token; every other character may start a number. */
  function Tokenize(c: Byte): Token {
    match c
    case 0x5B => LeftBracket
    case 0x5D => RightBracket
    case 0x7B => LeftCurly
    case 0x7D => RightCurly
    case 0x2C => CommaToken
    case 0x3A => ColonToken
    case 0x22 => StringToken
    case 0x66 => FalseToken
    case 0x74 => TrueToken
    case 0x6E => NullToken
    case _ => NumberToken
  }

  predicate IsScalarToken(t: Token) {
    t == StringToken || t == FalseToken || t == TrueToken || t == NullToken || t == NumberToken
  }

  /** The transition table, row by row. */
  function Predict(state: State, t: Token): State {
    match state
    case Start =>
      if t == LeftBracket then ArrayInitial
      else if t == LeftCurly then ObjectInitial
      else if IsScalarToken(t) then Single else Error
    case ObjectInitial =>
      if t == RightCurly then ObjectFinish else if t == StringToken then MemberKey else Error
    case MemberKey =>
      if t == ColonToken then KeyValueDelimiter else Error
    case MemberVal =>
      if t == RightCurly then ObjectFinish else if t == CommaToken then MemberDelimiter else Error
    case ArrayInitial =>
      if t == LeftBracket then ArrayInitial
      else if t == RightBracket then ArrayFinish
      else if t == LeftCurly then ObjectInitial
      else if IsScalarToken(t) then Elem else Error
    case Elem =>
      if t == RightBracket then ArrayFinish else if t == CommaToken then ElementDelimiter else Error
    case ElementDelimiter =>
      if t == LeftBracket then ArrayInitial
      else if t == RightBracket then ArrayFinish
      else if t == LeftCurly then ObjectInitial
      else if IsScalarToken(t) then Elem else Error
    case MemberDelimiter =>
      if t == RightCurly then ObjectFinish else if t == StringToken then MemberKey else Error
    case KeyValueDelimiter =>
      if t == LeftBracket then ArrayInitial
      else if t == LeftCurly then ObjectInitial
      else if IsScalarToken(t) then MemberVal else Error
    case _ => Error
  }

  /** Two entries of the parse stack: the state to go back to and the member or element count. */
  datatype Frame = Frame(state: State, count: nat)

  /** The automaton between two tokens; the last frame is the top of the stack. */
  datatype Machine = Machine(state: State, stack: seq<Frame>, rest: Text, sent: seq<Event>)

  /** The state a container returns to, chosen when it is opened. */
  function Saved(src: State): State {
    if src == ArrayInitial || src == ElementDelimiter then Elem
    else if src == KeyValueDelimiter then MemberVal
    else src
  }

  function Failed(m: Machine, sent: seq<Event>): Machine {
    Machine(Error, m.stack, m.rest, sent)
  }

  function Top(m: Machine): Frame
    requires m.stack != []
  {
    m.stack[|m.stack| - 1]
  }

  function Popped(m: Machine): seq<Frame>
    requires m.stack != []
  {
    m.stack[..|m.stack| - 1]
  }

  /** Sends one event; the automaton then goes to `state`, or to Error if it is refused. */
  function Send(cfg: Config, m: Machine, e: Event, state: State, stack: seq<Frame>, rest: Text): Machine {
    var sent := m.sent + [e];
    if cfg.accepts(sent) then Machine(state, stack, rest, sent) else Failed(m, sent)
  }

  /** Reads a value that is not a container. */
  function ReadScalar(cfg: Config, m: Machine, dst: State): Machine {
    match Scalar(cfg, m.rest, m.sent)
    case Fail(sent) => Failed(m, sent)
    case Done(rest, sent) => Machine(dst, m.stack, rest, sent)
  }

  /** Opens a container: the state to come back to and a zero count go onto the stack. */
  function Open(cfg: Config, m: Machine, dst: State): Machine
    requires m.rest != []
  {
    Send(cfg, m, if dst == ObjectInitial then StartObject else StartArray, dst,
      m.stack + [Frame(Saved(m.state), 0)], m.rest[1..])
  }

  /** Closes a container: the last element counts, and the saved state comes back. */
  function Close(cfg: Config, m: Machine, isObject: bool): Machine
    requires m.rest != [] && m.stack != []
  {
    var delimiter := if isObject then MemberDelimiter else ElementDelimiter;
    if !cfg.trailingCommas && m.state == delimiter then Failed(m, m.sent)
    else
      var last := if isObject then MemberVal else Elem;
      var c := if m.state == last then Increment(Top(m).count) else Top(m).count;
      var back := if Top(m).state == Start then Finish else Top(m).state;
      Send(cfg, m, if isObject then EndObject(c) else EndArray(c), back, Popped(m), m.rest[1..])
  }

  /** One transition.  A stack pop is only ever asked for inside a container. */
  function Transit(cfg: Config, m: Machine, dst: State): Machine
    requires m.rest != []
    requires Nested(m.state) ==> m.stack != []
    requires dst == Predict(m.state, Tokenize(Peek(m.rest)))
  {
    match dst
    case Error => Failed(m, m.sent)
    case ObjectInitial => Open(cfg, m, dst)
    case ArrayInitial => Open(cfg, m, dst)
    case MemberKey =>
      (match ScanString(cfg, m.rest[1..], [])
       case Bad => Failed(m, m.sent)
       case Good(name, rest) => Send(cfg, m, Key(name), MemberKey, m.stack, rest))
    case KeyValueDelimiter => m.(state := dst, rest := m.rest[1..])
    case MemberVal => ReadScalar(cfg, m, dst)
    case Elem => ReadScalar(cfg, m, dst)
    case MemberDelimiter =>
      m.(state := dst, rest := m.rest[1..], stack := Popped(m) + [Frame(Top(m).state, Increment(Top(m).count))])
    case ElementDelimiter =>
      m.(state := dst, rest := m.rest[1..], stack := Popped(m) + [Frame(Top(m).state, Increment(Top(m).count))])
    case ObjectFinish => Close(cfg, m, true)
    case ArrayFinish => Close(cfg, m, false)
    case _ => ReadScalar(cfg, m, Finish)
  }

  /** The states in which some container is open. */
  predicate Nested(s: State) {
    s != Finish && s != Error && s != Start && s != ObjectFinish && s != ArrayFinish && s != Single
  }

  /** Stack discipline: saved states are those a container can be opened from, Start at the bottom. */
  predicate Valid(m: Machine) {
    && m.state != ObjectFinish && m.state != ArrayFinish && m.state != Single
    && (m.state != Error ==> (Nested(m.state) <==> m.stack != []))
    && StackValid(m.stack)
    && (m.state == ObjectInitial || m.state == ArrayInitial ==> Top(m).count == 0)
  }

  predicate StackValid(stack: seq<Frame>) {
    forall i :: 0 <= i < |stack| ==>
      if i == 0 then stack[i].state == Start else stack[i].state == Elem || stack[i].state == MemberVal
  }

  /** The stack discipline is kept, and input is taken. */
  predicate Keeps(m: Machine, r: Machine) {
    Valid(r) && (r.state != Error ==> |r.rest| < |m.rest|)
  }

  lemma OpenKeeps(cfg: Config, m: Machine, dst: State)
    requires Valid(m) && m.rest != [] && m.state in {Start, ArrayInitial, ElementDelimiter, KeyValueDelimiter}
    requires dst == ObjectInitial || dst == ArrayInitial
    ensures Keeps(m, Open(cfg, m, dst))
  {
    var stack := m.stack + [Frame(Saved(m.state), 0)];
    assert StackValid(stack);
  }

  lemma CloseKeeps(cfg: Config, m: Machine, isObject: bool)
    requires Valid(m) && m.rest != [] && Nested(m.state)
    ensures Keeps(m, Close(cfg, m, isObject))
  {
    assert StackValid(Popped(m));
  }

  lemma CommaKeeps(m: Machine, dst: State)
    requires Valid(m) && m.rest != [] && Nested(m.state) && (dst == MemberDelimiter || dst == ElementDelimiter)
    ensures Keeps(m, m.(state := dst, rest := m.rest[1..], stack := Popped(m) + [Frame(Top(m).state, Increment(Top(m).count))]))
  {
    assert StackValid(Popped(m) + [Frame(Top(m).state, Increment(Top(m).count))]);
  }

  lemma TransitKeeps(cfg: Config, m: Machine, dst: State)
    requires Valid(m) && m.rest != [] && dst == Predict(m.state, Tokenize(Peek(m.rest)))
    ensures Keeps(m, Transit(cfg, m, dst))
  {
    if dst == ObjectInitial || dst == ArrayInitial {
      OpenKeeps(cfg, m, dst);
    } else if dst == ObjectFinish || dst == ArrayFinish {
      CloseKeeps(cfg, m, dst == ObjectFinish);
    } else if dst == MemberDelimiter || dst == ElementDelimiter {
      CommaKeeps(m, dst);
    }
  }

  function Step(cfg: Config, m: Machine): (r: Machine)
    requires Valid(m) && m.rest != []
    ensures Valid(r)
    ensures r.state != Error ==> |r.rest| < |m.rest|
  {
    var dst := Predict(m.state, Tokenize(Peek(m.rest)));
    TransitKeeps(cfg, m, dst);
    Transit(cfg, m, dst)
  }

  lemma RestIsFree(m: Machine, rest: Text)
    requires Valid(m)
    ensures Valid(m.(rest := rest))
  {
  }

  /** The parsing loop, white space having been skipped. */
  function Run(cfg: Config, m: Machine): Outcome
    requires Valid(m)
    decreases |m.rest|
  {
    if Peek(m.rest) == 0 then (if m.state == Finish then Done(m.rest, m.sent) else Fail(m.sent))
    else
      var n := Step(cfg, m);
      if n.state == Error then Fail(n.sent)
      else if cfg.stopWhenDone && n.state == Finish then Done(n.rest, n.sent)
      else
        match Skip(cfg, n.rest)
        case Bad => Fail(n.sent)
        case Good(_, t) =>
          RestIsFree(n, t);
          Run(cfg, n.(rest := t))
  }

  function IterativeDocument(cfg: Config, s: Text): Outcome {
    match Skip(cfg, s)
    case Bad => Fail([])
    case Good(_, t) => Run(cfg, Machine(Start, [], t, []))
  }

  // ----------------------------------------------------------- simulation

  /** What recursive descent does from inside the innermost container, `n` parts being counted. */
  function Phase(cfg: Config, state: State, n: nat, s: Text, sent: seq<Event>): Outcome {
    match state
    case ObjectInitial => ObjectStart(cfg, s, sent)
    case MemberKey => MemberColon(cfg, s, n, sent)
    case KeyValueDelimiter => MemberValue(cfg, s, n, sent)
    case MemberVal => MemberEnd(cfg, s, Increment(n), sent)
    case MemberDelimiter => MemberNext(cfg, s, n, sent)
    case ArrayInitial => ArrayStart(cfg, s, sent)
    case Elem => ElementEnd(cfg, s, Increment(n), sent)
    case ElementDelimiter => ElementNext(cfg, s, n, sent)
    case _ => Fail(sent)
  }

  /** What follows a value that leaves the enclosing container in `state`. */
  function AfterValue(cfg: Config, state: State, n: nat, r: Outcome): Outcome {
    if r.Fail? then r
    else
      match Skip(cfg, r.rest)
      case Bad => Fail(r.sent)
      case Good(_, t) => Phase(cfg, state, n, t, r.sent)
  }

  /** The stack read as the calls still open: each frame says how its caller goes on. */
  function Unwind(cfg: Config, stack: seq<Frame>, r: Outcome): Outcome
    requires stack != [] && StackValid(stack)
  {
    var k := |stack| - 1;
    if k == 0 then DocumentEnd(cfg, r)
    else Unwind(cfg, stack[..k], AfterValue(cfg, stack[k].state, stack[k - 1].count, r))
  }

  /** The outcome recursive descent reaches from the point where the automaton stands. */
  function Resume(cfg: Config, m: Machine): Outcome
    requires Valid(m)
  {
    if m.state == Error then Fail(m.sent)
    else if m.state == Finish then (if Peek(m.rest) != 0 then Fail(m.sent) else Done(m.rest, m.sent))
    else if m.state == Start then (if Peek(m.rest) == 0 then Fail(m.sent) else DocumentEnd(cfg, AnyValue(cfg, m.rest, m.sent)))
    else Unwind(cfg, m.stack, Phase(cfg, m.state, Top(m).count, m.rest, m.sent))
  }

  /** The same, for a machine that has yet to skip white space. */
  function ResumeAfterSkip(cfg: Config, m: Machine): Outcome
    requires Valid(m)
  {
    if m.state == Error then Fail(m.sent)
    else if cfg.stopWhenDone && m.state == Finish then Done(m.rest, m.sent)
    else
      match Skip(cfg, m.rest)
      case Bad => Fail(m.sent)
      case Good(_, t) => Resume(cfg, m.(rest := t))
  }

  lemma {:induction false} UnwindFail(cfg: Config, stack: seq<Frame>, sent: seq<Event>)
    requires stack != [] && StackValid(stack)
    ensures Unwind(cfg, stack, Fail(sent)) == Fail(sent)
    decreases |stack|
  {
    var k := |stack| - 1;
    if k > 0 {
      UnwindFail(cfg, stack[..k], sent);
    }
  }

  /** Where a value may start, the enclosing container goes on after it from the saved state. */
  lemma ValueExpected(cfg: Config, m: Machine)
    requires Valid(m) && Nested(m.state) && m.rest != [] && Tokenize(Peek(m.rest)) != RightBracket
    requires m.state == ArrayInitial || m.state == ElementDelimiter || m.state == KeyValueDelimiter
    ensures Phase(cfg, m.state, Top(m).count, m.rest, m.sent)
      == AfterValue(cfg, Saved(m.state), Top(m).count, AnyValue(cfg, m.rest, m.sent))
  {
    var n := Top(m).count;
    if m.state == KeyValueDelimiter {
      assert MemberValue(cfg, m.rest, n, m.sent) == AfterValue(cfg, MemberVal, n, AnyValue(cfg, m.rest, m.sent));
    } else {
      assert Element(cfg, m.rest, n, m.sent) == AfterValue(cfg, Elem, n, AnyValue(cfg, m.rest, m.sent));
    }
  }

  lemma NestedContinues(cfg: Config, m: Machine)
    requires Valid(m) && Nested(m.state)
    ensures Resume(cfg, m) == Unwind(cfg, m.stack, Phase(cfg, m.state, Top(m).count, m.rest, m.sent))
  {
  }

  lemma NestedSkips(cfg: Config, n: Machine)
    requires Valid(n) && Nested(n.state)
    ensures Skip(cfg, n.rest).Bad? ==> ResumeAfterSkip(cfg, n) == Fail(n.sent)
    ensures Skip(cfg, n.rest).Good? ==>
      ResumeAfterSkip(cfg, n) == Unwind(cfg, n.stack, Phase(cfg, n.state, Top(n).count, Skip(cfg, n.rest).rest, n.sent))
  {
    if Skip(cfg, n.rest).Good? {
      NestedContinues(cfg, n.(rest := Skip(cfg, n.rest).rest));
    }
  }

  /** Before white space is skipped, an open container goes on as after a value that ends here. */
  lemma NestedResumes(cfg: Config, n: Machine)
    requires Valid(n) && Nested(n.state)
    ensures ResumeAfterSkip(cfg, n) == Unwind(cfg, n.stack, AfterValue(cfg, n.state, Top(n).count, Done(n.rest, n.sent)))
  {
    NestedSkips(cfg, n);
    UnwindFail(cfg, n.stack, n.sent);
  }

  /** What the caller that waits for a value makes of it. */
  function Waiting(cfg: Config, below: seq<Frame>, saved: State, v: Outcome): Outcome
    requires StackValid(below)
  {
    if below == [] then DocumentEnd(cfg, v)
    else Unwind(cfg, below, AfterValue(cfg, saved, below[|below| - 1].count, v))
  }

  lemma WaitingFails(cfg: Config, below: seq<Frame>, saved: State, sent: seq<Event>)
    requires StackValid(below)
    ensures Waiting(cfg, below, saved, Fail(sent)) == Fail(sent)
  {
    if below != [] {
      UnwindFail(cfg, below, sent);
    }
  }

  /** Where a value may start, its caller waits for it. */
  lemma ValueAwaited(cfg: Config, m: Machine)
    requires Valid(m) && m.rest != [] && Peek(m.rest) != 0 && Tokenize(Peek(m.rest)) != RightBracket
    requires m.state in {Start, ArrayInitial, ElementDelimiter, KeyValueDelimiter}
    ensures Resume(cfg, m) == Waiting(cfg, m.stack, Saved(m.state), AnyValue(cfg, m.rest, m.sent))
  {
    if m.state != Start {
      ValueExpected(cfg, m);
      NestedContinues(cfg, m);
    }
  }

  predicate MayStartValue(m: Machine) {
    m.state in {Start, ArrayInitial, ElementDelimiter, KeyValueDelimiter}
  }

  lemma OpenStep(cfg: Config, m: Machine, dst: State)
    requires Valid(m) && m.rest != [] && Predict(m.state, Tokenize(Peek(m.rest))) == dst
    requires dst == ObjectInitial || dst == ArrayInitial
    ensures MayStartValue(m) && Peek(m.rest) == (if dst == ObjectInitial then LBRACE else LBRACKET)
    ensures Step(cfg, m) == Open(cfg, m, dst)
  {
  }

  /** A container just opened: its frame stands for the caller waiting for it. */
  lemma OpenResumes(cfg: Config, m: Machine, dst: State, n: Machine)
    requires Valid(m) && Valid(n) && MayStartValue(m) && m.rest != [] && (dst == ObjectInitial || dst == ArrayInitial)
    requires Peek(m.rest) == (if dst == ObjectInitial then LBRACE else LBRACKET)
    requires n == Open(cfg, m, dst)
    ensures Resume(cfg, m) == ResumeAfterSkip(cfg, n)
  {
    var v := AnyValue(cfg, m.rest, m.sent);
    ValueOpens(cfg, m, dst, n, v);
    ValueAwaited(cfg, m);
    ContainerOpened(cfg, m.stack, Saved(m.state), n, v);
  }

  lemma ValueOpens(cfg: Config, m: Machine, dst: State, n: Machine, v: Outcome)
    requires m.rest != [] && (dst == ObjectInitial || dst == ArrayInitial)
    requires Peek(m.rest) == (if dst == ObjectInitial then LBRACE else LBRACKET)
    requires n == Open(cfg, m, dst) && v == AnyValue(cfg, m.rest, m.sent)
    ensures if n.state == Error then v == Fail(n.sent)
      else
        && n.state == dst && n.stack == m.stack + [Frame(Saved(m.state), 0)]
        && v == AfterValue(cfg, dst, 0, Done(n.rest, n.sent))
  {
  }

  lemma ContainerOpened(cfg: Config, below: seq<Frame>, saved: State, n: Machine, v: Outcome)
    requires Valid(n) && StackValid(below)
    requires if n.state == Error then v == Fail(n.sent) else
      && Nested(n.state) && n.stack == below + [Frame(saved, 0)]
      && v == AfterValue(cfg, n.state, 0, Done(n.rest, n.sent))
    ensures Waiting(cfg, below, saved, v) == ResumeAfterSkip(cfg, n)
  {
    if n.state == Error {
      WaitingFails(cfg, below, saved, n.sent);
    } else {
      NestedResumes(cfg, n);
      FrameOpened(cfg, below, n.stack, saved, v);
    }
  }

  /** A frame on top of the stack stands for the caller that waits for `v`. */
  lemma FrameOpened(cfg: Config, below: seq<Frame>, stack: seq<Frame>, saved: State, v: Outcome)
    requires StackValid(below) && StackValid(stack) && stack == below + [Frame(saved, 0)]
    ensures Unwind(cfg, stack, v) == Waiting(cfg, below, saved, v)
  {
    assert stack[..|below|] == below;
  }

  /** Where a scalar that stands alone leads, or one inside a container. */
  function AfterScalar(m: Machine): State {
    if m.state == Start then Finish else Saved(m.state)
  }

  lemma ScalarStep(cfg: Config, m: Machine)
    requires Valid(m) && m.rest != []
    requires Predict(m.state, Tokenize(Peek(m.rest))) in {Single, Elem, MemberVal}
    ensures MayStartValue(m) && IsScalarToken(Tokenize(Peek(m.rest)))
    ensures Step(cfg, m) == ReadScalar(cfg, m, AfterScalar(m))
  {
  }

  lemma ScalarIsValue(cfg: Config, s: Text, sent: seq<Event>)
    requires IsScalarToken(Tokenize(Peek(s)))
    ensures AnyValue(cfg, s, sent) == Scalar(cfg, s, sent)
  {
  }

  lemma ScalarResumes(cfg: Config, m: Machine, n: Machine)
    requires Valid(m) && Valid(n) && MayStartValue(m) && m.rest != [] && Peek(m.rest) != 0
    requires IsScalarToken(Tokenize(Peek(m.rest))) && n == ReadScalar(cfg, m, AfterScalar(m))
    ensures Resume(cfg, m) == ResumeAfterSkip(cfg, n)
  {
    ScalarIsValue(cfg, m.rest, m.sent);
    ValueAwaited(cfg, m);
    ValueRead(cfg, m.stack, AfterScalar(m), n, Scalar(cfg, m.rest, m.sent));
  }

  /** After a scalar the caller that waited for it goes on, or the document ends. */
  lemma ValueRead(cfg: Config, below: seq<Frame>, dst: State, n: Machine, v: Outcome)
    requires Valid(n) && StackValid(below) && n.stack == below && n.sent == v.sent
    requires below == [] ==> dst == Finish
    requires below != [] ==> Nested(dst)
    requires if v.Fail? then n.state == Error else n.state == dst && n.rest == v.rest
    ensures Waiting(cfg, below, dst, v) == ResumeAfterSkip(cfg, n)
  {
    if v.Fail? {
      WaitingFails(cfg, below, dst, n.sent);
    } else if below != [] {
      NestedResumes(cfg, n);
    }
  }

  /** `s` cannot begin a value here. */
  lemma NoValue(cfg: Config, s: Text, n: nat, sent: seq<Event>)
    requires Peek(s) in {0, RBRACKET, RBRACE, COMMA, COLON}
    ensures AnyValue(cfg, s, sent) == Fail(sent)
    ensures Element(cfg, s, n, sent) == Fail(sent) && MemberValue(cfg, s, n, sent) == Fail(sent)
  {
    assert ScanScalar(cfg, s) == ScanNumber(cfg, s) == Bad;
  }

  predicate Closed(m: Machine, n: Machine, phase: Outcome)
    requires m.stack != []
  {
    if n.state == Error then phase == Fail(n.sent)
    else
      && phase == Done(n.rest, n.sent)
      && n.stack == Popped(m)
      && n.state == (if Top(m).state == Start then Finish else Top(m).state)
  }

  lemma ClosingStep(cfg: Config, m: Machine, isObject: bool)
    requires Valid(m) && m.rest != [] && m.stack != []
    requires Predict(m.state, Tokenize(Peek(m.rest))) == if isObject then ObjectFinish else ArrayFinish
    ensures Step(cfg, m) == Close(cfg, m, isObject)
    ensures Peek(m.rest) == if isObject then RBRACE else RBRACKET
    ensures m.state in if isObject then {ObjectInitial, MemberVal, MemberDelimiter} else {ArrayInitial, Elem, ElementDelimiter}
  {
  }

  lemma ObjectCloses(cfg: Config, m: Machine)
    requires Valid(m) && m.rest != [] && m.stack != [] && Peek(m.rest) == RBRACE
    requires m.state in {ObjectInitial, MemberVal, MemberDelimiter}
    ensures Closed(m, Close(cfg, m, true), Phase(cfg, m.state, Top(m).count, m.rest, m.sent))
  {
    if m.state == MemberDelimiter && !cfg.trailingCommas {
      assert MemberName(cfg, m.rest, Top(m).count, m.sent) == Fail(m.sent);
    }
  }

  lemma ArrayCloses(cfg: Config, m: Machine)
    requires Valid(m) && m.rest != [] && m.stack != [] && Peek(m.rest) == RBRACKET
    requires m.state in {ArrayInitial, Elem, ElementDelimiter}
    ensures Closed(m, Close(cfg, m, false), Phase(cfg, m.state, Top(m).count, m.rest, m.sent))
  {
    if m.state == ElementDelimiter && !cfg.trailingCommas {
      NoValue(cfg, m.rest, Top(m).count, m.sent);
    }
  }

  /** A closed container hands its outcome to the caller its frame stands for. */
  lemma CloseResumes(cfg: Config, m: Machine, isObject: bool, n: Machine)
    requires Valid(m) && Valid(n) && m.rest != [] && m.stack != [] && n == Close(cfg, m, isObject)
    requires Peek(m.rest) == if isObject then RBRACE else RBRACKET
    requires m.state in if isObject then {ObjectInitial, MemberVal, MemberDelimiter} else {ArrayInitial, Elem, ElementDelimiter}
    ensures Resume(cfg, m) == ResumeAfterSkip(cfg, n)
  {
    if isObject {
      ObjectCloses(cfg, m);
    } else {
      ArrayCloses(cfg, m);
    }
    ContainerRead(cfg, m, n, Phase(cfg, m.state, Top(m).count, m.rest, m.sent));
  }

  lemma ContainerRead(cfg: Config, m: Machine, n: Machine, phase: Outcome)
    requires Valid(m) && Valid(n) && Nested(m.state)
    requires phase == Phase(cfg, m.state, Top(m).count, m.rest, m.sent)
    requires Closed(m, n, phase)
    ensures Resume(cfg, m) == ResumeAfterSkip(cfg, n)
  {
    NestedContinues(cfg, m);
    var k := |m.stack| - 1;
    if n.state == Error {
      UnwindFail(cfg, m.stack, phase.sent);
    } else if k > 0 {
      assert Top(n) == m.stack[k - 1];
      NestedResumes(cfg, n);
    }
  }

  /** The count in the innermost frame is not read when its container has ended. */
  lemma UnwindTop(cfg: Config, a: seq<Frame>, b: seq<Frame>, r: Outcome)
    requires a != [] && |a| == |b| && StackValid(a) && StackValid(b)
    requires a[..|a| - 1] == b[..|b| - 1] && a[|a| - 1].state == b[|b| - 1].state
    ensures Unwind(cfg, a, r) == Unwind(cfg, b, r)
  {
    var k := |a| - 1;
    if k > 0 {
      assert a[k - 1] == a[..k][k - 1] == b[..k][k - 1] == b[k - 1];
    }
  }

  lemma SameCaller(cfg: Config, stack: seq<Frame>, n: Machine, phase: Outcome)
    requires Valid(n) && Nested(n.state) && StackValid(stack) && |stack| == |n.stack|
    requires stack[..|stack| - 1] == Popped(n) && stack[|stack| - 1].state == Top(n).state
    requires phase == AfterValue(cfg, n.state, Top(n).count, Done(n.rest, n.sent))
    ensures Unwind(cfg, stack, phase) == ResumeAfterSkip(cfg, n)
  {
    NestedResumes(cfg, n);
    UnwindTop(cfg, stack, n.stack, phase);
  }

  /** The automaton moved within the innermost container, from one phase of it to the next. */
  lemma Moved(cfg: Config, m: Machine, n: Machine, phase: Outcome)
    requires Valid(m) && Valid(n) && Nested(m.state)
    requires phase == Phase(cfg, m.state, Top(m).count, m.rest, m.sent)
    requires if n.state == Error then phase == Fail(n.sent) else
      && Nested(n.state) && |n.stack| == |m.stack| && Popped(n) == Popped(m) && Top(n).state == Top(m).state
      && phase == AfterValue(cfg, n.state, Top(n).count, Done(n.rest, n.sent))
    ensures Resume(cfg, m) == ResumeAfterSkip(cfg, n)
  {
    NestedContinues(cfg, m);
    if n.state == Error {
      UnwindFail(cfg, m.stack, n.sent);
    } else {
      SameCaller(cfg, m.stack, n, phase);
    }
  }

  /** The machine after a member name. */
  function Named(cfg: Config, m: Machine): Machine
    requires m.rest != []
  {
    match ScanString(cfg, m.rest[1..], [])
    case Bad => Failed(m, m.sent)
    case Good(name, rest) => Send(cfg, m, Key(name), MemberKey, m.stack, rest)
  }

  lemma NameStep(cfg: Config, m: Machine)
    requires Valid(m) && m.rest != [] && Predict(m.state, Tokenize(Peek(m.rest))) == MemberKey
    ensures (m.state == ObjectInitial || m.state == MemberDelimiter) && Peek(m.rest) == QUOTE
    ensures Step(cfg, m) == Named(cfg, m)
  {
  }

  lemma NameResumes(cfg: Config, m: Machine, n: Machine)
    requires Valid(m) && Valid(n) && m.rest != [] && (m.state == ObjectInitial || m.state == MemberDelimiter)
    requires Peek(m.rest) == QUOTE && n == Named(cfg, m)
    ensures Resume(cfg, m) == ResumeAfterSkip(cfg, n)
  {
    NamePhase(cfg, m.state, Top(m).count, m.rest, m.sent);
    NameMoves(cfg, m, Top(m).count, n);
    Moved(cfg, m, n, MemberName(cfg, m.rest, Top(m).count, m.sent));
  }

  lemma NameMoves(cfg: Config, m: Machine, c: nat, n: Machine)
    requires m.rest != [] && Peek(m.rest) == QUOTE && n == Named(cfg, m)
    ensures var phase := MemberName(cfg, m.rest, c, m.sent);
      if n.state == Error then phase == Fail(n.sent)
      else n.state == MemberKey && n.stack == m.stack && phase == AfterValue(cfg, MemberKey, c, Done(n.rest, n.sent))
  {
  }

  lemma NamePhase(cfg: Config, state: State, c: nat, s: Text, sent: seq<Event>)
    requires (state == ObjectInitial && c == 0) || state == MemberDelimiter
    requires Peek(s) == QUOTE
    ensures Phase(cfg, state, c, s, sent) == MemberName(cfg, s, c, sent)
  {
  }

  lemma ColonStep(cfg: Config, m: Machine)
    requires Valid(m) && m.rest != [] && Predict(m.state, Tokenize(Peek(m.rest))) == KeyValueDelimiter
    ensures m.state == MemberKey && Peek(m.rest) == COLON
    ensures Step(cfg, m) == m.(state := KeyValueDelimiter, rest := m.rest[1..])
  {
  }

  lemma ColonResumes(cfg: Config, m: Machine, n: Machine)
    requires Valid(m) && Valid(n) && m.rest != [] && m.state == MemberKey && Peek(m.rest) == COLON
    requires n == m.(state := KeyValueDelimiter, rest := m.rest[1..])
    ensures Resume(cfg, m) == ResumeAfterSkip(cfg, n)
  {
    Moved(cfg, m, n, MemberColon(cfg, m.rest, Top(m).count, m.sent));
  }

  /** The machine after a comma. */
  function Counted(m: Machine): Machine
    requires m.rest != [] && m.stack != []
  {
    Machine(if m.state == MemberVal then MemberDelimiter else ElementDelimiter,
      Popped(m) + [Frame(Top(m).state, Increment(Top(m).count))], m.rest[1..], m.sent)
  }

  lemma CommaStep(cfg: Config, m: Machine)
    requires Valid(m) && m.rest != []
    requires Predict(m.state, Tokenize(Peek(m.rest))) in {MemberDelimiter, ElementDelimiter}
    ensures (m.state == MemberVal || m.state == Elem) && Peek(m.rest) == COMMA && Step(cfg, m) == Counted(m)
  {
  }

  lemma CommaResumes(cfg: Config, m: Machine, n: Machine)
    requires Valid(m) && Valid(n) && m.rest != [] && Peek(m.rest) == COMMA
    requires (m.state == MemberVal || m.state == Elem) && n == Counted(m)
    ensures Resume(cfg, m) == ResumeAfterSkip(cfg, n)
  {
    assert Popped(n) == Popped(m);
    if m.state == MemberVal {
      Moved(cfg, m, n, MemberEnd(cfg, m.rest, Increment(Top(m).count), m.sent));
    } else {
      Moved(cfg, m, n, ElementEnd(cfg, m.rest, Increment(Top(m).count), m.sent));
    }
  }

  /** Where the table has no entry, and at the end of the input, recursive descent fails too. */
  lemma DeadEnd(cfg: Config, m: Machine)
    requires Valid(m) && m.state != Finish && m.state != Error
    requires Peek(m.rest) == 0 || Predict(m.state, Tokenize(Peek(m.rest))) == Error
    ensures Resume(cfg, m) == Fail(m.sent)
  {
    if m.state == Start {
      NoValue(cfg, m.rest, 0, m.sent);
    } else {
      DeadPhase(cfg, m);
      UnwindFail(cfg, m.stack, m.sent);
    }
  }

  lemma DeadPhase(cfg: Config, m: Machine)
    requires Valid(m) && Nested(m.state)
    requires Peek(m.rest) == 0 || Predict(m.state, Tokenize(Peek(m.rest))) == Error
    ensures Phase(cfg, m.state, Top(m).count, m.rest, m.sent) == Fail(m.sent)
  {
    var c := Top(m).count;
    if m.state == ObjectInitial || m.state == MemberDelimiter {
      DeadName(cfg, m.state, c, m.rest, m.sent);
    } else if m.state == ArrayInitial || m.state == ElementDelimiter || m.state == KeyValueDelimiter {
      DeadValue(cfg, m.state, c, m.rest, m.sent);
    }
  }

  lemma DeadName(cfg: Config, state: State, c: nat, s: Text, sent: seq<Event>)
    requires (state == ObjectInitial || state == MemberDelimiter) && Peek(s) != QUOTE && Peek(s) != RBRACE
    ensures Phase(cfg, state, c, s, sent) == Fail(sent)
  {
    assert MemberName(cfg, s, c, sent) == Fail(sent) && MemberName(cfg, s, 0, sent) == Fail(sent);
  }

  lemma DeadValue(cfg: Config, state: State, c: nat, s: Text, sent: seq<Event>)
    requires state == ArrayInitial || state == ElementDelimiter || state == KeyValueDelimiter
    requires Peek(s) in {0, RBRACKET, RBRACE, COMMA, COLON}
    requires Peek(s) == RBRACKET ==> state == KeyValueDelimiter
    ensures Phase(cfg, state, c, s, sent) == Fail(sent)
  {
    NoValue(cfg, s, c, sent);
    NoValue(cfg, s, 0, sent);
  }

  lemma MoveResumes(cfg: Config, m: Machine, dst: State, n: Machine)
    requires Valid(m) && m.rest != [] && m.state != Error && m.state != Finish && Peek(m.rest) != 0
    requires dst == Predict(m.state, Tokenize(Peek(m.rest))) && n == Step(cfg, m)
    ensures Resume(cfg, m) == ResumeAfterSkip(cfg, n)
  {
    match dst
    case Error => DeadEnd(cfg, m);
    case ObjectInitial => OpenStep(cfg, m, dst); OpenResumes(cfg, m, dst, n);
    case ArrayInitial => OpenStep(cfg, m, dst); OpenResumes(cfg, m, dst, n);
    case ObjectFinish => ClosingStep(cfg, m, true); CloseResumes(cfg, m, true, n);
    case ArrayFinish => ClosingStep(cfg, m, false); CloseResumes(cfg, m, false, n);
    case MemberKey => NameStep(cfg, m); NameResumes(cfg, m, n);
    case KeyValueDelimiter => ColonStep(cfg, m); ColonResumes(cfg, m, n);
    case MemberDelimiter => CommaStep(cfg, m); CommaResumes(cfg, m, n);
    case ElementDelimiter => CommaStep(cfg, m); CommaResumes(cfg, m, n);
    case _ => ScalarStep(cfg, m); ScalarResumes(cfg, m, n);
  }

  /** One step of the automaton never changes the outcome recursive descent would reach. */
  lemma StepResumes(cfg: Config, m: Machine)
    requires Valid(m) && m.rest != [] && m.state != Error
    ensures Resume(cfg, m) == if Peek(m.rest) == 0 then (if m.state == Finish then Done(m.rest, m.sent) else Fail(m.sent))
      else ResumeAfterSkip(cfg, Step(cfg, m))
  {
    if m.state == Finish {
    } else if Peek(m.rest) == 0 {
      DeadEnd(cfg, m);
    } else {
      MoveResumes(cfg, m, Predict(m.state, Tokenize(Peek(m.rest))), Step(cfg, m));
    }
  }

  lemma {:induction false} RunResumes(cfg: Config, m: Machine)
    requires Valid(m) && m.state != Error
    ensures Run(cfg, m) == Resume(cfg, m)
    decreases |m.rest|
  {
    if m.rest == [] {
      if m.state != Finish {
        DeadEnd(cfg, m);
      }
    } else {
      StepResumes(cfg, m);
      if Peek(m.rest) != 0 {
        var n := Step(cfg, m);
        if n.state != Error && !(cfg.stopWhenDone && n.state == Finish) {
          match Skip(cfg, n.rest)
          case Bad =>
          case Good(_, t) => RunResumes(cfg, n.(rest := t));
        }
      }
    }
  }

  /** The automaton and recursive descent agree on acceptance, events and remaining input. */
  lemma IterativeIsRecursive(cfg: Config, s: Text)
    ensures IterativeDocument(cfg, s) == ParseDocument(cfg, s)
  {
    match Skip(cfg, s)
    case Bad =>
    case Good(_, t) => RunResumes(cfg, Machine(Start, [], t, []));
  }
}
