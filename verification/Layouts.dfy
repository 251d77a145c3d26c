/** What may stand between tokens: white space and, where the reader allows them, comments. */
module Layouts {
  import opened Bytes
  import opened Events
  import opened Lexing
  import opened Sequences

  /** A line comment ends with its line feed, or with the input. */
  datatype Piece = Blank(c: Byte) | Block(body: Text) | Line(body: Text, ended: bool)

  function PieceText(p: Piece): (t: Text)
    ensures t != []
  {
    match p
    case Blank(c) => [c]
    case Block(body) => [SLASH, STAR] + (body + [STAR, SLASH])
    case Line(body, ended) => [SLASH, SLASH] + (body + if ended then [LF] else [])
  }

  function LayoutText(ps: seq<Piece>): Text {
    if ps == [] then [] else PieceText(ps[0]) + LayoutText(ps[1..])
  }

  /** The text has a closing of a block comment at `i`. */
  predicate ClosesAt(t: Text, i: nat) {
    i + 1 < |t| && t[i] == STAR && t[i + 1] == SLASH
  }

  predicate PieceFits(cfg: Config, p: Piece) {
    match p
    case Blank(c) => c == 0x20 || c == 0x09 || c == 0x0A || c == 0x0D
    case Block(body) => cfg.comments && 0 !in body && forall i :: 0 <= i < |body| ==> !ClosesAt(body, i)
    case Line(body, ended) => cfg.comments && 0 !in body && LF !in body
  }

  /** Every comment is closed. */
  predicate Closed(cfg: Config, ps: seq<Piece>) {
    forall i :: 0 <= i < |ps| ==> PieceFits(cfg, ps[i]) && (ps[i].Line? ==> ps[i].ended)
  }

  /** Only a last line comment may be unclosed, and then the input ends. */
  predicate LayoutFits(cfg: Config, ps: seq<Piece>, next: Byte) {
    forall i :: 0 <= i < |ps| ==>
      PieceFits(cfg, ps[i]) && (ps[i].Line? && !ps[i].ended ==> i == |ps| - 1 && next == 0)
  }

  /** Neither white space nor a comment starts with `c`. */
  predicate StopsLayout(cfg: Config, c: Byte) {
    !IsSpace(c) && (cfg.comments ==> c != SLASH)
  }

  // ------------------------------------------------------------- complete

  lemma {:induction false} BlockReads(body: Text, post: Text)
    requires 0 !in body && forall i :: 0 <= i < |body| ==> !ClosesAt(body, i)
    ensures BlockEnd(body + [STAR, SLASH] + post) == Good((), post)
  {
    var s := body + [STAR, SLASH] + post;
    if body == [] {
      assert s[1..][0] == SLASH && s[2..] == post;
    } else {
      assert s[1..] == body[1..] + [STAR, SLASH] + post;
      assert s[0] in body && !ClosesAt(body, 0);
      assert s[0] == STAR ==> s[1..][0] != SLASH;
      forall i | 0 <= i < |body[1..]|
        ensures !ClosesAt(body[1..], i)
      {
        assert !ClosesAt(body, i + 1);
      }
      BlockReads(body[1..], post);
    }
  }

  lemma {:induction false} LineReads(body: Text, ended: bool, post: Text)
    requires 0 !in body && LF !in body && (ended || Peek(post) == 0)
    ensures LineEnd(body + (if ended then [LF] else []) + post) == post
  {
    var end := if ended then [LF] else [];
    var s := body + end + post;
    if body == [] {
      assert s == end + post;
      assert ended ==> s[1..] == post;
    } else {
      assert s[1..] == body[1..] + end + post;
      assert s[0] in body;
      LineReads(body[1..], ended, post);
    }
  }

  lemma PieceReads(cfg: Config, p: Piece, post: Text)
    requires PieceFits(cfg, p) && (p.Line? && !p.ended ==> Peek(post) == 0)
    ensures Skip(cfg, PieceText(p) + post) == Skip(cfg, post)
  {
    var s := PieceText(p) + post;
    match p
    case Blank(c) =>
      assert s[1..] == post;
    case Block(body) =>
      assert s[0] == SLASH && s[1..][0] == STAR;
      assert s[2..] == body + [STAR, SLASH] + post;
      BlockReads(body, post);
    case Line(body, ended) =>
      assert s[0] == SLASH && s[1..][0] == SLASH;
      assert s[2..] == body + (if ended then [LF] else []) + post;
      LineReads(body, ended, post);
  }

  /** A layout is skipped whole. */
  lemma {:induction false} LayoutReads(cfg: Config, ps: seq<Piece>, post: Text)
    requires LayoutFits(cfg, ps, Peek(post)) && StopsLayout(cfg, Peek(post))
    ensures Skip(cfg, LayoutText(ps) + post) == Good((), post)
  {
    if ps == [] {
      assert LayoutText(ps) + post == post;
    } else {
      var rest := LayoutText(ps[1..]) + post;
      Joins3(PieceText(ps[0]), LayoutText(ps[1..]), post);
      if ps[0].Line? && !ps[0].ended {
        assert rest == post;
      }
      PieceReads(cfg, ps[0], rest);
      LayoutReads(cfg, ps[1..], post);
    }
  }

  // ---------------------------------------------------------------- sound

  lemma {:induction false} BlockOf(s: Text) returns (body: Text)
    requires BlockEnd(s).Good?
    ensures 0 !in body && forall i :: 0 <= i < |body| ==> !ClosesAt(body, i)
    ensures s == body + [STAR, SLASH] + BlockEnd(s).rest
    decreases |s|
  {
    var r := BlockEnd(s).rest;
    if s[0] == STAR && Peek(s[1..]) == SLASH {
      body := [];
      assert s == [STAR, SLASH] + s[2..];
    } else {
      var tail := BlockOf(s[1..]);
      body := [s[0]] + tail;
      forall i | 0 <= i < |body|
        ensures !ClosesAt(body, i)
      {
        if i > 0 {
          assert !ClosesAt(tail, i - 1);
        } else {
          assert tail != [] ==> tail[0] == s[1..][0];
        }
      }
    }
  }

  lemma {:induction false} LineOf(s: Text) returns (body: Text, ended: bool)
    ensures 0 !in body && LF !in body && (ended || Peek(LineEnd(s)) == 0)
    ensures s == body + (if ended then [LF] else []) + LineEnd(s)
    decreases |s|
  {
    if Peek(s) == 0 {
      body, ended := [], false;
    } else if s[0] == LF {
      body, ended := [], true;
    } else {
      body, ended := LineOf(s[1..]);
      body := [s[0]] + body;
    }
  }

  /** One piece off what is skipped. */
  lemma PieceOf(cfg: Config, s: Text) returns (p: Piece, rest: Text)
    requires Skip(cfg, s).Good? && !StopsLayout(cfg, Peek(s))
    ensures PieceFits(cfg, p) && s == PieceText(p) + rest && Skip(cfg, rest) == Skip(cfg, s)
    ensures p.Line? && !p.ended ==> Peek(rest) == 0
  {
    if IsSpace(Peek(s)) {
      p, rest := Blank(s[0]), s[1..];
    } else if Peek(s[1..]) == STAR {
      var body := BlockOf(s[2..]);
      p, rest := Block(body), BlockEnd(s[2..]).rest;
      assert s == [SLASH, STAR] + s[2..];
    } else {
      var body, ended := LineOf(s[2..]);
      p, rest := Line(body, ended), LineEnd(s[2..]);
      assert s == [SLASH, SLASH] + s[2..];
    }
  }

  lemma {:induction false} LayoutOf(cfg: Config, s: Text) returns (ps: seq<Piece>)
    requires Skip(cfg, s).Good?
    ensures var r := Skip(cfg, s).rest;
      s == LayoutText(ps) + r && LayoutFits(cfg, ps, Peek(r)) && StopsLayout(cfg, Peek(r))
    decreases |s|
  {
    if StopsLayout(cfg, Peek(s)) {
      ps := [];
    } else {
      var p, rest := PieceOf(cfg, s);
      var tail := LayoutOf(cfg, rest);
      ps := [p] + tail;
      assert ps[1..] == tail;
      Joins3(PieceText(p), LayoutText(tail), Skip(cfg, s).rest);
      if p.Line? && !p.ended {
        NothingAtEnd(cfg, tail, rest, Skip(cfg, s).rest);
      }
    }
  }

  lemma NothingAtEnd(cfg: Config, ps: seq<Piece>, s: Text, r: Text)
    requires Peek(s) == 0 && s == LayoutText(ps) + r && LayoutFits(cfg, ps, Peek(r))
    ensures ps == []
  {
    if ps != [] {
      FirstByte(cfg, ps, r);
    }
  }

  lemma FirstByte(cfg: Config, ps: seq<Piece>, r: Text)
    requires ps != [] && LayoutFits(cfg, ps, Peek(r))
    ensures Peek(LayoutText(ps) + r) != 0
  {
    assert PieceText(ps[0])[0] != 0;
  }

  /** `s` is a layout followed by `r`, where a token or the end is. */
  ghost predicate BeginsWithLayout(cfg: Config, s: Text, r: Text) {
    StopsLayout(cfg, Peek(r)) && exists ps :: LayoutFits(cfg, ps, Peek(r)) && s == LayoutText(ps) + r
  }

  /** Skipping succeeds exactly before well-formed layouts, and skips them whole. */
  lemma SkipExactly(cfg: Config, s: Text, r: Text)
    ensures Skip(cfg, s) == Good((), r) <==> BeginsWithLayout(cfg, s, r)
  {
    if Skip(cfg, s) == Good((), r) {
      var ps := LayoutOf(cfg, s);
    }
    if BeginsWithLayout(cfg, s, r) {
      var ps :| LayoutFits(cfg, ps, Peek(r)) && s == LayoutText(ps) + r;
      LayoutReads(cfg, ps, r);
    }
  }
}
