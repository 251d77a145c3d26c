/** The writer as a handler: a level stack decides what goes before each value. */
module Writer {
  import opened Bytes
  import opened Events
  import opened Dom
  import opened JsonText
  import opened Sequences

  /** The level stack, innermost container first: how many values each has, names included. */
  datatype Levels = Root | Level(valueCount: nat, inArray: bool, outer: Levels)

  function Depth(levels: Levels): nat {
    if levels.Root? then 0 else 1 + Depth(levels.outer)
  }

  predicate First(levels: Levels) {
    levels.Root? || levels.valueCount == 0
  }

  /** The innermost level after `n` more values; there is none to count at the root. */
  function Counted(levels: Levels, n: nat): Levels {
    if levels.Root? then Root else levels.(valueCount := levels.valueCount + n)
  }

  /** The separator a value or name calls for where the writer stands. */
  function Separator(style: Style, levels: Levels): Text {
    if levels.Root? then []
    else if levels.inArray then BeforeElement(style, Depth(levels), First(levels))
    else if levels.valueCount % 2 == 0 then BeforeName(style, Depth(levels), First(levels))
    else BeforeMember(style)
  }

  /** A name is due: inside an object, after an even number of values. */
  predicate NameDue(levels: Levels) {
    levels.Level? && !levels.inArray && levels.valueCount % 2 == 0
  }

  predicate InArray(levels: Levels) {
    levels.Level? && levels.inArray
  }

  /** What the source asserts before each event. */
  predicate Legal(levels: Levels, e: Event) {
    if e.Key? || e.EndObject? then NameDue(levels)
    else if e.EndArray? then InArray(levels)
    else !NameDue(levels)
  }

  /** The text a scalar or name puts, None when the writer fails; formatting of doubles is not modelled. */
  function ScalarText(style: Style, e: Event): Option<Text> {
    match e
    case Null => Some(NULL)
    case Bool(b) => Some(if b then TRUE else FALSE)
    case Int(n) => Some(IntegerText(n))
    case Uint(n) => Some(IntegerText(n))
    case Int64(n) => Some(IntegerText(n))
    case Uint64(n) => Some(IntegerText(n))
    case String(s) => Quote(style.ascii, s)
    case Key(s) => Quote(style.ascii, s)
    case _ => None
  }

  /** The event of a value that is not a container. */
  function ScalarEvent(v: Value): Event
    requires !v.Array? && !v.Object?
  {
    match v
    case NullValue => Null
    case BoolValue(b) => Bool(b)
    case Number(_, _) => NumberEvent(v)
    case Real(literal) => Double(literal)
    case StringValue(s) => String(s)
  }

  // ------------------------------------------------------ the writer object

  function Prepend(t: Text, o: Option<Text>): Option<Text> {
    if o.None? then None else Some(t + o.value)
  }

  lemma PrependNothing(o: Option<Text>)
    ensures Prepend([], o) == o
  {
    if o.Some? {
      assert [] + o.value == o.value;
    }
  }

  lemma PrependStep(ascii: bool, done: Text, rest: Text)
    requires rest != [] && EscapeNext(ascii, rest).Escape?
    ensures var next := EscapeNext(ascii, rest);
      Prepend(done, EscapeAll(ascii, rest)) == Prepend(done + next.text, EscapeAll(ascii, rest[next.taken..]))
  {
    var next := EscapeNext(ascii, rest);
    var tail := EscapeAll(ascii, rest[next.taken..]);
    if tail.Some? {
      Joins3(done, next.text, tail.value);
    }
  }

  /** The element at `i` and the elements after it. */
  lemma ItemStep(style: Style, es: seq<Value>, i: nat, depth: nat)
    requires i < |es|
    ensures AllWritable(style, es[i..]) <==> Writable(style, es[i]) && AllWritable(style, es[i + 1..])
    ensures Items(style, es[i..], depth, i == 0) == ItemText(style, es[i], depth, i == 0) + Items(style, es[i + 1..], depth, false)
  {
    assert es[i..][1..] == es[i + 1..];
  }

  lemma MemberStep(style: Style, ms: seq<Member>, i: nat, depth: nat)
    requires i < |ms|
    ensures MembersWritable(style, ms[i..]) <==>
      Quote(style.ascii, ms[i].name).Some? && Writable(style, ms[i].value) && MembersWritable(style, ms[i + 1..])
    ensures Members(style, ms[i..], depth, i == 0) == MemberText(style, ms[i], depth, i == 0) + Members(style, ms[i + 1..], depth, false)
  {
    assert ms[i..][1..] == ms[i + 1..];
  }

  lemma MemberWritten(style: Style, ms: seq<Member>, i: nat, depth: nat, before: Text, after: Text, all: Text)
    requires i < |ms| && before + Members(style, ms[i..], depth, i == 0) == all
    requires after == before + MemberText(style, ms[i], depth, i == 0)
    ensures after + Members(style, ms[i + 1..], depth, false) == all
  {
    MemberStep(style, ms, i, depth);
    Joins3(before, MemberText(style, ms[i], depth, i == 0), Members(style, ms[i + 1..], depth, false));
  }

  /** After `i` members another name is due. */
  lemma MembersCounted(open: Levels, i: nat)
    requires NameDue(open) && First(open)
    ensures var l := Counted(open, 2 * i);
      NameDue(l) && (First(l) <==> i == 0) && Depth(l) == Depth(open) && Counted(l, 2) == Counted(open, 2 * (i + 1))
  {
  }

  lemma ArrayPrinted(style: Style, es: seq<Value>, before: Text, depth: nat)
    ensures before + [LBRACKET] + Items(style, es, depth + 1, true) + (BeforeClose(style, depth, true, es == []) + [RBRACKET])
      == before + Json(style, Array(es), depth)
  {
    Joins5(before, [LBRACKET], Items(style, es, depth + 1, true), BeforeClose(style, depth, true, es == []), [RBRACKET]);
  }

  lemma ObjectPrinted(style: Style, ms: seq<Member>, before: Text, depth: nat)
    ensures before + [LBRACE] + Members(style, ms, depth + 1, true) + (BeforeClose(style, depth, false, ms == []) + [RBRACE])
      == before + Json(style, Object(ms), depth)
  {
    Joins5(before, [LBRACE], Members(style, ms, depth + 1, true), BeforeClose(style, depth, false, ms == []), [RBRACE]);
  }

  class JsonWriter {
    const style: Style
    var os: Text
    var levels: Levels
    var hasRoot: bool

    constructor (style: Style)
      ensures this.style == style && os == [] && levels == Root && !hasRoot
    {
      this.style := style;
      os, levels, hasRoot := [], Root, false;
    }

    /** A root is announced before any container opens, and only once. */
    predicate Ready()
      reads this
    {
      levels.Level? <==> hasRoot
    }

    method PutText(t: Text)
      modifies this`os
      ensures os == old(os) + t
    {
      os := os + t;
    }

    method WriteIndent(depth: nat)
      modifies this`os
      ensures os == old(os) + Indent(style, depth)
    {
      var count := depth * style.indentCount;
      for i := 0 to count
        invariant os == old(os) + Repeat(style.indentChar, i)
      {
        assert Repeat(style.indentChar, i + 1) == Repeat(style.indentChar, i) + [style.indentChar];
        PutText([style.indentChar]);
      }
    }

    method PutNewLine(depth: nat)
      modifies this`os
      ensures os == old(os) + NewLine(style, depth)
    {
      PutText([LF]);
      WriteIndent(depth);
    }

    /** Puts the separator the next value or name needs, and counts it. */
    method Prefix()
      requires Ready()
      modifies this
      ensures os == old(os) + Separator(style, old(levels)) && levels == Counted(old(levels), 1)
      ensures hasRoot
    {
      if levels.Level? {
        if levels.inArray {
          if levels.valueCount > 0 {
            PutText([COMMA]);
            if style.pretty && style.singleLineArrays {
              PutText([SPACE]);
            }
          }
          if style.pretty && !style.singleLineArrays {
            PutNewLine(Depth(levels));
          }
        } else if levels.valueCount % 2 == 0 {
          if levels.valueCount > 0 {
            PutText([COMMA]);
          }
          if style.pretty {
            PutNewLine(Depth(levels));
          }
        } else {
          PutText([COLON]);
          if style.pretty {
            PutText([SPACE]);
          }
        }
        levels := levels.(valueCount := levels.valueCount + 1);
      } else {
        hasRoot := true;
      }
    }

    /** Writes the units of a string, escaped; false when an ASCII target meets malformed UTF-8. */
    method WriteUnits(s: Text) returns (ok: bool)
      modifies this`os
      ensures ok <==> EscapeAll(style.ascii, s).Some?
      ensures ok ==> os == old(os) + EscapeAll(style.ascii, s).value
    {
      ghost var done: Text := [];
      var rest := s;
      PrependNothing(EscapeAll(style.ascii, s));
      assert os + [] == os;
      while rest != []
        invariant os == old(os) + done
        invariant EscapeAll(style.ascii, s) == Prepend(done, EscapeAll(style.ascii, rest))
        decreases |rest|
      {
        var next := EscapeNext(style.ascii, rest);
        if next.Invalid? {
          return false;
        }
        PutText(next.text);
        PrependStep(style.ascii, done, rest);
        Joins3(old(os), done, next.text);
        done := done + next.text;
        rest := rest[next.taken..];
      }
      assert done + [] == done;
      return true;
    }

    /** Writes a string between quotes. */
    method WriteString(s: Text) returns (ok: bool)
      modifies this`os
      ensures ok <==> Quote(style.ascii, s).Some?
      ensures ok ==> os == old(os) + Quote(style.ascii, s).value
    {
      PutText([QUOTE]);
      ok := WriteUnits(s);
      if ok {
        PutText([QUOTE]);
        Joins4(old(os), [QUOTE], EscapeAll(style.ascii, s).value, [QUOTE]);
      }
    }

    /** A name or a value that is not a container. */
    method Scalar(e: Event) returns (ok: bool)
      requires Ready() && Legal(levels, e)
      requires !e.StartObject? && !e.StartArray? && !e.EndObject? && !e.EndArray?
      modifies this
      ensures ok <==> ScalarText(style, e).Some?
      ensures ok ==> os == old(os) + Separator(style, old(levels)) + ScalarText(style, e).value
      ensures ok ==> levels == Counted(old(levels), 1) && hasRoot
    {
      Prefix();
      if e.String? || e.Key? {
        ok := WriteString(e.s);
      } else {
        ok := !e.Double?;
        if ok {
          PutText(ScalarText(style, e).value);
        }
      }
    }

    method StartContainer(isArray: bool)
      requires Ready() && !NameDue(levels)
      modifies this
      ensures os == old(os) + Separator(style, old(levels)) + [if isArray then LBRACKET else LBRACE]
      ensures levels == Level(0, isArray, Counted(old(levels), 1)) && hasRoot
    {
      Prefix();
      levels := Level(0, isArray, levels);
      PutText([if isArray then LBRACKET else LBRACE]);
    }

    method EndContainer(isArray: bool)
      requires Ready() && (if isArray then InArray(levels) else NameDue(levels))
      modifies this
      ensures os == old(os) + (BeforeClose(style, Depth(old(levels)) - 1, isArray, First(old(levels)))
        + [if isArray then RBRACKET else RBRACE])
      ensures levels == old(levels).outer && hasRoot
    {
      var empty := levels.valueCount == 0;
      levels := levels.outer;
      if style.pretty && !empty && !(isArray && style.singleLineArrays) {
        PutNewLine(Depth(levels));
      }
      PutText([if isArray then RBRACKET else RBRACE]);
    }

    /** A value visits the writer, which adds its separator and text or reports a failure. */
    method Visit(v: Value) returns (ok: bool)
      requires Ready() && !NameDue(levels)
      modifies this
      ensures ok <==> Writable(style, v)
      ensures ok ==> os == old(os) + Separator(style, old(levels)) + Json(style, v, Depth(old(levels)))
      ensures ok ==> levels == Counted(old(levels), 1) && hasRoot
      decreases v, 1
    {
      if v.Array? {
        ok := VisitArray(v.elements);
      } else if v.Object? {
        ok := VisitObject(v.members);
      } else {
        ok := Scalar(ScalarEvent(v));
      }
    }

    method VisitArray(es: seq<Value>) returns (ok: bool)
      requires Ready() && !NameDue(levels)
      modifies this
      ensures ok <==> AllWritable(style, es)
      ensures ok ==> os == old(os) + Separator(style, old(levels)) + Json(style, Array(es), Depth(old(levels)))
      ensures ok ==> levels == Counted(old(levels), 1) && hasRoot
      decreases es, 1
    {
      StartContainer(true);
      ok := VisitElements(es);
      if ok {
        EndContainer(true);
        ArrayPrinted(style, es, old(os) + Separator(style, old(levels)), Depth(old(levels)));
      }
    }

    method VisitElements(es: seq<Value>) returns (ok: bool)
      requires Ready() && InArray(levels) && First(levels)
      modifies this
      ensures ok <==> AllWritable(style, es)
      ensures ok ==> os == old(os) + Items(style, es, Depth(old(levels)), true)
      ensures ok ==> levels == Counted(old(levels), |es|) && hasRoot
      decreases es, 0
    {
      ghost var (depth, all) := (Depth(levels), os + Items(style, es, Depth(levels), true));
      for i := 0 to |es|
        invariant levels == Counted(old(levels), i) && hasRoot
        invariant AllWritable(style, es) <==> AllWritable(style, es[i..])
        invariant os + Items(style, es[i..], depth, i == 0) == all
      {
        ghost var os2 := os;
        ok := Visit(es[i]);
        ItemStep(style, es, i, depth);
        if !ok {
          return;
        }
        Joins4(os2, BeforeElement(style, depth, i == 0), Json(style, es[i], depth), Items(style, es[i + 1..], depth, false));
      }
      assert os + [] == os;
      return true;
    }

    method VisitObject(ms: seq<Member>) returns (ok: bool)
      requires Ready() && !NameDue(levels)
      modifies this
      ensures ok <==> MembersWritable(style, ms)
      ensures ok ==> os == old(os) + Separator(style, old(levels)) + Json(style, Object(ms), Depth(old(levels)))
      ensures ok ==> levels == Counted(old(levels), 1) && hasRoot
      decreases ms, 1
    {
      StartContainer(false);
      ok := VisitMembers(ms);
      if ok {
        EndContainer(false);
        ObjectPrinted(style, ms, old(os) + Separator(style, old(levels)), Depth(old(levels)));
      }
    }

    method VisitMembers(ms: seq<Member>) returns (ok: bool)
      requires Ready() && NameDue(levels) && First(levels)
      modifies this
      ensures ok <==> MembersWritable(style, ms)
      ensures ok ==> os == old(os) + Members(style, ms, Depth(old(levels)), true)
      ensures ok ==> levels == Counted(old(levels), 2 * |ms|) && hasRoot
      decreases ms, 0
    {
      ghost var (depth, all) := (Depth(levels), os + Members(style, ms, Depth(levels), true));
      for i := 0 to |ms|
        invariant levels == Counted(old(levels), 2 * i) && hasRoot
        invariant MembersWritable(style, ms) <==> MembersWritable(style, ms[i..])
        invariant os + Members(style, ms[i..], depth, i == 0) == all
      {
        MembersCounted(old(levels), i);
        MemberStep(style, ms, i, depth);
        ghost var os2 := os;
        ok := VisitMember(ms[i]);
        if !ok {
          return;
        }
        MemberWritten(style, ms, i, depth, os2, os, all);
      }
      assert os + [] == os;
      return true;
    }

    method VisitMember(m: Member) returns (ok: bool)
      requires Ready() && NameDue(levels)
      modifies this
      ensures ok <==> Quote(style.ascii, m.name).Some? && Writable(style, m.value)
      ensures ok ==> os == old(os) + MemberText(style, m, Depth(old(levels)), First(old(levels)))
      ensures ok ==> levels == Counted(old(levels), 2) && hasRoot
      decreases m
    {
      ok := Scalar(Key(m.name));
      if !ok {
        return;
      }
      ok := Visit(m.value);
      if ok {
        Joins5(old(os), BeforeName(style, Depth(old(levels)), First(old(levels))), QuoteText(style, m.name),
          BeforeMember(style), Json(style, m.value, Depth(old(levels))));
      }
    }
  }

  /** Prints a document: on success the text is the value's JSON text. */
  method Print(style: Style, v: Value) returns (ok: bool, text: Text)
    ensures ok <==> Writable(style, v)
    ensures ok ==> text == Json(style, v, 0)
  {
    var writer := new JsonWriter(style);
    ok := writer.Visit(v);
    text := writer.os;
    assert [] + [] + Json(style, v, 0) == Json(style, v, 0);
  }
}
