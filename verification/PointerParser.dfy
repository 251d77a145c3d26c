/** The pointer parser with its two buffers: names go into one as long as the text, tokens into another. */
module PointerParser {
  import opened Bytes
  import opened Unicode
  import opened PointerText
  import opened PointerDom
  import Lexing
  import Numbers
  import JsonText
  import RoundTrip
  import opened Sequences

  // ---------------------------------------------------------------- indices

  /** Accumulates with a test for wrap-around that misses some; None when it finds one. */
  function Accumulate(n: nat, ds: Text): Option<nat>
    requires Numbers.AllDigits(ds)
    decreases |ds|
  {
    if ds == [] then Some(n)
    else
      var m := (n * 10 + (ds[0] - 0x30)) % 0x1_0000_0000;
      if m < n then None else Accumulate(m, ds[1..])
  }

  function IndexOf(name: Text): nat {
    if !Numbers.IsNatural(name) then INVALID_INDEX
    else
      match Accumulate(0, name)
      case None => INVALID_INDEX
      case Some(n) => n
  }

  lemma WrapsOnce(m: nat)
    ensures 0 <= m % 0x1_0000_0000 < 0x1_0000_0000
    ensures m < 0x1_0000_0000 ==> m % 0x1_0000_0000 == m
  {
  }

  lemma {:induction false} AccumulateExactly(n: nat, ds: Text)
    requires Numbers.AllDigits(ds) && n < 0x1_0000_0000
    ensures Accumulate(n, ds).Some? ==> Accumulate(n, ds).value < 0x1_0000_0000
    ensures Numbers.ValueOf(n, ds) < 0x1_0000_0000 ==> Accumulate(n, ds) == Some(Numbers.ValueOf(n, ds))
    decreases |ds|
  {
    if ds != [] {
      var m := n * 10 + (ds[0] - 0x30);
      Numbers.ValueGrows(m, ds[1..]);
      WrapsOnce(m);
      AccumulateExactly(m % 0x1_0000_0000, ds[1..]);
    }
  }

  /** A number is an index, that of its value, exactly when it is below the mark for no index. */
  lemma IndexExact(name: Text)
    requires Numbers.IsNatural(name)
    ensures var v := Numbers.ValueOf(0, name);
      IndexOf(name) == v && IndexOf(name) != INVALID_INDEX <==> v < INVALID_INDEX
  {
    AccumulateExactly(0, name);
  }

  lemma DecimalIndex(n: nat)
    requires n < INVALID_INDEX
    ensures IndexOf(JsonText.Decimal(n)) == n
  {
    RoundTrip.DecimalDigits(n);
    IndexExact(JsonText.Decimal(n));
  }

  /** 4294967295 fits 32 bits and yet is no index: it is the mark for none. */
  lemma MarkIsNoIndex()
    ensures IndexOf(JsonText.Decimal(4294967295)) == INVALID_INDEX
  {
    RoundTrip.DecimalDigits(4294967295);
    AccumulateExactly(0, JsonText.Decimal(4294967295));
  }

  // ------------------------------------------------ the test for wrap-around

  /** The number that the first `k` digits spell, on top of `n`, as 32 bits hold it. */
  function Held(n: nat, ds: Text, k: nat): nat
    requires Numbers.AllDigits(ds) && k <= |ds|
  {
    Numbers.ValueOf(n, ds[..k]) % 0x1_0000_0000
  }

  /** Some digit makes what is held smaller. */
  predicate Drops(n: nat, ds: Text)
    requires Numbers.AllDigits(ds)
  {
    exists k :: 0 <= k < |ds| && Held(n, ds, k + 1) < Held(n, ds, k)
  }

  /** Wrapping early changes nothing that is held later. */
  lemma {:induction false} HeldWraps(n: nat, ds: Text)
    requires Numbers.AllDigits(ds)
    ensures Numbers.ValueOf(n % 0x1_0000_0000, ds) % 0x1_0000_0000 == Numbers.ValueOf(n, ds) % 0x1_0000_0000
    decreases |ds|
  {
    if ds != [] {
      var (d, w) := (ds[0] - 0x30, n % 0x1_0000_0000);
      HeldWraps(w * 10 + d, ds[1..]);
      HeldWraps(n * 10 + d, ds[1..]);
      SameRemainder(n, d);
    } else {
      WrapsOnce(n % 0x1_0000_0000);
    }
  }

  lemma SameRemainder(n: nat, d: nat)
    ensures (n % 0x1_0000_0000 * 10 + d) % 0x1_0000_0000 == (n * 10 + d) % 0x1_0000_0000
  {
  }

  lemma HeldShifts(n: nat, ds: Text, k: nat)
    requires Numbers.AllDigits(ds) && ds != [] && k < |ds|
    ensures Held(n, ds, k + 1) == Held((n * 10 + (ds[0] - 0x30)) % 0x1_0000_0000, ds[1..], k)
  {
    var m := n * 10 + (ds[0] - 0x30);
    var some := ds[..k + 1];
    assert some[0] == ds[0] && some[1..] == ds[1..][..k];
    HeldWraps(m, ds[1..][..k]);
  }

  lemma DropsShift(n: nat, ds: Text)
    requires Numbers.AllDigits(ds) && ds != [] && n < 0x1_0000_0000
    ensures var m := (n * 10 + (ds[0] - 0x30)) % 0x1_0000_0000;
      Drops(n, ds) <==> m < n || Drops(m, ds[1..])
  {
    var m := (n * 10 + (ds[0] - 0x30)) % 0x1_0000_0000;
    WrapsOnce(n);
    WrapsOnce(m);
    assert ds[..0] == [] && ds[1..][..0] == [];
    HeldShifts(n, ds, 0);
    if k :| 0 <= k < |ds| && Held(n, ds, k + 1) < Held(n, ds, k) {
      if k > 0 {
        HeldShifts(n, ds, k);
        HeldShifts(n, ds, k - 1);
        assert Held(m, ds[1..], k - 1 + 1) < Held(m, ds[1..], k - 1);
      }
    }
    if m < n {
      assert Held(n, ds, 0 + 1) < Held(n, ds, 0);
    }
    if k :| 0 <= k < |ds[1..]| && Held(m, ds[1..], k + 1) < Held(m, ds[1..], k) {
      HeldShifts(n, ds, k + 1);
      HeldShifts(n, ds, k);
      assert Held(n, ds, k + 1 + 1) < Held(n, ds, k + 1);
    }
  }

  /**
   * On any digits, the test finds wrap-around exactly when some digit makes what is held smaller; if none
   * does, what is left of the number is its low 32 bits.
   */
  lemma {:induction false} WrapFoundExactly(n: nat, ds: Text)
    requires Numbers.AllDigits(ds) && n < 0x1_0000_0000
    ensures Accumulate(n, ds) == if Drops(n, ds) then None else Some(Numbers.ValueOf(n, ds) % 0x1_0000_0000)
    decreases |ds|
  {
    if ds == [] {
      WrapsOnce(n);
    } else {
      var m := n * 10 + (ds[0] - 0x30);
      DropsShift(n, ds);
      WrapsOnce(m);
      WrapFoundExactly(m % 0x1_0000_0000, ds[1..]);
      HeldWraps(m, ds[1..]);
    }
  }

  /** Of numbers below ten thousand million, the test misses those that wrap to a tenth of themselves or more. */
  lemma TenDigits(ds: Text)
    requires Numbers.AllDigits(ds) && Numbers.ValueOf(0, ds) < 10000000000
    ensures var v := Numbers.ValueOf(0, ds);
      Accumulate(0, ds) == if v % 0x1_0000_0000 < v / 10 then None else Some(v % 0x1_0000_0000)
  {
    if ds != [] {
      var (front, d) := (ds[..|ds| - 1], ds[|ds| - 1]);
      assert ds == front + [d];
      RoundTrip.ValueAppend(0, front, d);
      AccumulateExactly(0, front);
      AccumulateAppend(0, front, d);
    }
  }

  lemma {:induction false} AccumulateAppend(n: nat, ds: Text, d: Byte)
    requires Numbers.AllDigits(ds) && Lexing.IsDigit(d)
    ensures Numbers.AllDigits(ds + [d])
    ensures Accumulate(n, ds + [d]) ==
      match Accumulate(n, ds)
      case None => None
      case Some(h) => var m := (h * 10 + (d - 0x30)) % 0x1_0000_0000; if m < h then None else Some(m)
    decreases |ds|
  {
    var all := ds + [d];
    if ds == [] {
      assert all == [d] && all[1..] == [];
    } else {
      assert all[0] == ds[0] && all[1..] == ds[1..] + [d];
      AccumulateAppend((n * 10 + (ds[0] - 0x30)) % 0x1_0000_0000, ds[1..], d);
    }
  }

  /** A dash is not a number, so parsed tokens append with it. */
  lemma DashHasNoIndex()
    ensures IndexOf(DASH) == INVALID_INDEX
  {
    assert !Lexing.IsDigit(DASH[0]);
  }

  /** The tokens of the names of a pointer. */
  function Tokens(names: seq<Text>): (r: seq<Token>)
    ensures |r| == |names| && forall i :: 0 <= i < |names| ==> r[i] == Token(names[i], IndexOf(names[i]))
  {
    seq(|names|, i requires 0 <= i < |names| => Token(names[i], IndexOf(names[i])))
  }

  /** Parsed tokens obey the laws of resolving, creating and erasing. */
  lemma ParsedTokens(names: seq<Text>)
    ensures WellNumbered(Tokens(names))
  {
    DashHasNoIndex();
  }

  lemma TenDigitIndex(v: nat)
    requires 0x1_0000_0000 <= v < 10000000000
    ensures IndexOf(JsonText.Decimal(v)) == if v % 0x1_0000_0000 < v / 10 then INVALID_INDEX else v % 0x1_0000_0000
  {
    RoundTrip.DecimalDigits(v);
    TenDigits(JsonText.Decimal(v));
  }

  /** 6000000000 wraps to 1705032704 unnoticed; 4294967296 is noticed. */
  lemma WrapGoesUnnoticed()
    ensures IndexOf(JsonText.Decimal(6000000000)) == 1705032704
    ensures IndexOf(JsonText.Decimal(4294967296)) == INVALID_INDEX
  {
    TenDigitIndex(6000000000);
    TenDigitIndex(4294967296);
  }

  // ----------------------------------------------------- decoding in place

  lemma TakeOne(s: Text)
    ensures TakeBytes(s, 0) == Some([])
    ensures TakeBytes(s, 1) == if TakeByte(s).Some? then Some([TakeByte(s).value]) else None
  {
    if TakeByte(s).Some? {
      var b := TakeByte(s).value;
      assert TakeBytes(s[3..], 0) == Some([]);
      assert [b] + [] == [b] && [] + [b] == [b];
    }
  }

  lemma {:induction false} TakeOneMore(s: Text, k: nat)
    requires TakeBytes(s, k).Some?
    ensures TakeBytes(s, k + 1) ==
      if TakeByte(s[3 * k..]).Some? then Some(TakeBytes(s, k).value + [TakeByte(s[3 * k..]).value]) else None
    decreases k
  {
    if k == 0 {
      assert s[0..] == s;
      TakeOne(s);
      if TakeByte(s).Some? {
        assert [] + [TakeByte(s).value] == [TakeByte(s).value];
      }
    } else {
      TakeOneMore(s[3..], k - 1);
      assert s[3..][3 * (k - 1)..] == s[3 * k..];
      if TakeByte(s[3 * k..]).Some? {
        Joins3([TakeByte(s).value], TakeBytes(s[3..], k - 1).value, [TakeByte(s[3 * k..]).value]);
      }
    }
  }

  lemma {:induction false} TakeNoMore(s: Text, k: nat, n: nat)
    requires TakeBytes(s, k).None? && k <= n
    ensures TakeBytes(s, n).None?
    decreases k
  {
    if k > 0 && TakeByte(s).Some? {
      TakeNoMore(s[3..], k - 1, n - 1);
    }
  }

  /** The masks for the bytes of a character of two to four. */
  predicate Pass(bs: Text, n: nat, mask: nat)
    requires |bs| == n + 1 && 1 <= n <= 3
  {
    InMask(bs[1], mask) && (n < 2 || InMask(bs[2], 0x70)) && (n < 3 || InMask(bs[3], 0x70))
  }

  function Tails(lead: Byte): nat {
    Decode([lead]).taken - 1
  }

  function FirstMask(lead: Byte): nat {
    match GetRange(lead)
    case 4 => 0x50
    case 5 => 0x10
    case 10 => 0x20
    case 11 => 0x60
    case _ => 0x70
  }

  lemma DecodeByMasks(bs: Text)
    requires |bs| > 1 && |bs| == Decode([bs[0]]).taken
    ensures |bs| <= 4 && (Decode(bs).ok <==> Pass(bs, |bs| - 1, FirstMask(bs[0])))
  {
  }

  class Decoder {
    const source: Text
    var src: nat                // the read position
    var valid: bool
    const buffer: array<Byte>
    var put: nat                // the write position

    constructor (s: Text, i: nat, b: array<Byte>, at: nat)
      ensures source == s && src == i && valid && buffer == b && put == at
    {
      source, src, valid, buffer, put := s, i, true, b, at;
    }

    /** Takes a triplet; what is not one yields 0 and marks the stream invalid. */
    method Take() returns (c: Byte)
      modifies this`src, this`valid
      ensures old(src) <= |source| && TakeByte(source[old(src)..]).Some? ==>
        c == TakeByte(source[old(src)..]).value && src == old(src) + 3 && valid == old(valid)
      ensures old(src) <= |source| && TakeByte(source[old(src)..]).None? ==> c == 0 && !valid
      ensures old(src) <= |source| ==> old(src) <= src <= |source|
    {
      if At(source, src) != PERCENT || src + 3 > |source| {
        valid := false;
        return 0;
      }
      src := src + 1;
      var h := Lexing.HexDigit(source[src]);
      if h < 0 {
        valid := false;
        return 0;
      }
      src := src + 1;
      var l := Lexing.HexDigit(source[src]);
      if l < 0 {
        valid := false;
        return 0;
      }
      src := src + 1;
      return h * 16 + l;
    }

    /** Copies one byte, which must pass the mask. */
    method CopyTail(mask: nat) returns (pass: bool)
      requires put < buffer.Length && src <= |source|
      modifies this`src, this`valid, this`put, buffer
      ensures put == old(put) + 1 && old(src) <= src <= |source|
      ensures pass == InMask(buffer[old(put)], mask)
      ensures forall j :: 0 <= j < buffer.Length && j != old(put) ==> buffer[j] == old(buffer[j])
      ensures TakeByte(source[old(src)..]).Some? ==>
        buffer[old(put)] == TakeByte(source[old(src)..]).value && src == old(src) + 3 && valid == old(valid)
      ensures TakeByte(source[old(src)..]).None? ==> !valid
    {
      var c := Take();
      buffer[put] := c;
      put := put + 1;
      pass := InMask(c, mask);
    }

    /** The bytes read since `start`, as far as they are valid, are those put since `from`. */
    ghost predicate Reads(start: nat, first: nat)
      reads this, buffer
    {
      && start <= src <= |source| && first <= put <= buffer.Length
      && (valid <==> TakeBytes(source[start..], put - first).Some?)
      && (valid ==> src == start + 3 * (put - first) && TakeBytes(source[start..], put - first) == Some(buffer[first..put]))
    }

    /** One more trailing byte. */
    method NextTail(mask: nat, ghost start: nat, ghost first: nat) returns (pass: bool)
      requires Reads(start, first) && put < buffer.Length
      modifies this`src, this`valid, this`put, buffer
      ensures Reads(start, first) && put == old(put) + 1
      ensures pass == InMask(buffer[old(put)], mask)
      ensures forall j :: 0 <= j < buffer.Length && j != old(put) ==> buffer[j] == old(buffer[j])
    {
      ghost var (s, k, was, bytes) := (source[start..], put - first, valid, buffer[first..put]);
      if valid {
        TakeOneMore(s, k);
        assert s[3 * k..] == source[src..];
      } else {
        TakeNoMore(s, k, k + 1);
      }
      pass := CopyTail(mask);
      if valid {
        assert buffer[first..put] == bytes + [buffer[put - 1]];
      }
    }

    /** The trailing bytes, of which there are one to three. */
    method CopyTails(n: nat, mask: nat, ghost start: nat, ghost first: nat) returns (pass: bool)
      requires 1 <= n <= 3 && Reads(start, first) && put == first + 1 && first + 4 <= buffer.Length
      modifies this`src, this`valid, this`put, buffer
      ensures Reads(start, first) && put == first + n + 1
      ensures pass == Pass(buffer[first..put], n, mask)
      ensures forall j :: 0 <= j < buffer.Length && !(first < j < put) ==> buffer[j] == old(buffer[j])
    {
      var a := NextTail(mask, start, first);
      var (b, c) := (true, true);
      if n >= 2 {
        b := NextTail(0x70, start, first);
      }
      if n >= 3 {
        c := NextTail(0x70, start, first);
      }
      pass := a && b && c;
    }

    /** Takes one character, copies its bytes as they come, and says whether it is one. */
    method Validate() returns (ok: bool)
      requires valid && src <= |source| && put < buffer.Length
      requires src + 3 <= |source| ==> put + 4 <= buffer.Length
      modifies this`src, this`valid, this`put, buffer
      ensures old(put) < put <= buffer.Length && src <= |source|
      ensures ok && valid <==> TakeCharacter(source[old(src)..]).Some?
      ensures ok && valid ==>
        && buffer[old(put)..put] == TakeCharacter(source[old(src)..]).value
        && src == old(src) + 3 * (put - old(put))
      ensures forall j :: 0 <= j < old(put) ==> buffer[j] == old(buffer[j])
    {
      ghost var (start, first, s) := (src, put, source[src..]);
      var c := Take();
      buffer[put] := c;
      put := put + 1;
      TakeOne(s);
      assert buffer[first..put] == [c];
      if c < 0x80 {
        return true;
      }
      var n := Tails(c);
      if n == 0 {
        return false;
      }
      ok := CopyTails(n, FirstMask(c), start, first);
      if valid {
        DecodeByMasks(buffer[first..put]);
      }
    }
  }

  // ---------------------------------------------------------------- parsing

  /** Where a token's name lies in the name buffer, and its index. */
  datatype Slot = Slot(start: nat, length: nat, index: nat)

  /** The write position is behind the read position by the characters that put nothing. */
  predicate Behind(w: nat, i: nat, uri: bool) {
    w + (if uri then 2 else 1) <= i
  }

  /** Decodes triplets into the name buffer, which has room even if decoding fails: it is as long as the text. */
  method ParsePercent(source: Text, i: nat, buffer: array<Byte>, w: nat) returns (ok: bool, len: nat)
    requires i < |source| == buffer.Length && source[i] == PERCENT && Behind(w, i, true)
    modifies buffer
    ensures forall j :: 0 <= j < w ==> buffer[j] == old(buffer[j])
    ensures ok <==> TakeCharacter(source[i..]).Some?
    ensures ok ==> 1 <= len && i + 3 * len <= |source| && buffer[w..w + len] == TakeCharacter(source[i..]).value
  {
    var decoder := new Decoder(source, i, buffer, w);
    ok := decoder.Validate();
    ok := ok && decoder.valid;
    len := if ok then decoder.put - w else 0;
  }

  /** Replaces an escape and puts the character. */
  method PutCharacter(source: Text, first: Byte, i: nat, buffer: array<Byte>, w: nat) returns (ok: bool, i': nat, digit: bool)
    requires i <= |source| == buffer.Length && w < buffer.Length
    modifies buffer
    ensures forall j :: 0 <= j < buffer.Length && j != w ==> buffer[j] == old(buffer[j])
    ensures ok <==> Unescaped(first, source[i..]).Good?
    ensures ok ==> i <= i' <= |source| && Unescaped(first, source[i..]) == Good([buffer[w]], source[i'..])
    ensures ok ==> (digit <==> Lexing.IsDigit(buffer[w]))
  {
    var c := first;
    i' := i;
    if c == TILDE {
      if i == |source| {
        return false, i, false;
      }
      assert source[i..][1..] == source[i + 1..];
      c := source[i];
      if c == ZERO {
        c := TILDE;
      } else if c == ONE {
        c := SLASH;
      } else {
        return false, i, false;
      }
      i' := i + 1;
    }
    digit := Lexing.IsDigit(c);
    buffer[w] := c;
    ok := true;
  }

  /** What one turn of the loop over a name's characters does. */
  ghost predicate UnitRead(u: Unit, ok: bool, source: Text, i': nat, written: Text, digit: bool) {
    && (ok <==> u.Good?)
    && (ok ==> i' <= |source| && u == Good(written, source[i'..]) && (digit <==> Numbers.AllDigits(written)))
  }

  lemma EncodedUnit(source: Text, i: nat, bs: Text)
    requires i < |source| && source[i] == PERCENT && TakeCharacter(source[i..]) == Some(bs)
    ensures i + 3 * |bs| <= |source|
    ensures TakeUnit(source[i..], true) ==
      if |bs| == 1 then Unescaped(bs[0], source[i + 3..]) else Good(bs, source[i + 3 * |bs|..])
  {
    assert source[i..][3 * |bs|..] == source[i + 3 * |bs|..];
  }

  lemma NoEncodedUnit(source: Text, i: nat)
    requires i < |source| && source[i] == PERCENT && TakeCharacter(source[i..]).None?
    ensures TakeUnit(source[i..], true) == Bad
  {
    assert source[i..][0] == PERCENT;
  }

  lemma OneDigit(c: Byte)
    ensures Numbers.AllDigits([c]) <==> Lexing.IsDigit(c)
  {
    if Numbers.AllDigits([c]) {
      assert Lexing.IsDigit([c][0]);
    }
  }

  /** Triplets: a character of one byte may begin an escape. */
  method ParseEncoded(source: Text, i: nat, buffer: array<Byte>, w: nat) returns (ok: bool, i': nat, w': nat, digit: bool)
    requires i < |source| == buffer.Length && source[i] == PERCENT && Behind(w, i, true)
    modifies buffer
    ensures forall j :: 0 <= j < w ==> buffer[j] == old(buffer[j])
    ensures w <= w' <= buffer.Length && UnitRead(TakeUnit(source[i..], true), ok, source, i', buffer[w..w'], digit)
    ensures ok ==> i < i' && Behind(w', i', true)
  {
    i', w', digit := i, w, false;
    var len;
    ok, len := ParsePercent(source, i, buffer, w);
    if !ok {
      NoEncodedUnit(source, i);
      return;
    }
    ghost var bs := buffer[w..w + len];
    EncodedUnit(source, i, bs);
    assert bs[0] == buffer[w];
    if len > 1 {
      CharacterHasNoDigits(source[i..]);
      i', w' := i + 3 * len, w + len;
      assert TakeUnit(source[i..], true) == Good(buffer[w..w'], source[i'..]);
      return;
    }
    ok, i', digit := PutCharacter(source, buffer[w], i + 3, buffer, w);
    if ok {
      w' := w + 1;
      OneDigit(buffer[w]);
      assert buffer[w..w'] == [buffer[w]];
    }
  }

  method ParseUnit(source: Text, i: nat, uri: bool, buffer: array<Byte>, w: nat) returns (ok: bool, i': nat, w': nat, digit: bool)
    requires i < |source| == buffer.Length && Behind(w, i, uri)
    modifies buffer
    ensures forall j :: 0 <= j < w ==> buffer[j] == old(buffer[j])
    ensures w <= w' <= buffer.Length && UnitRead(TakeUnit(source[i..], uri), ok, source, i', buffer[w..w'], digit)
    ensures ok ==> i < i' && Behind(w', i', uri)
  {
    var c := source[i];
    if uri && c == PERCENT {
      ok, i', w', digit := ParseEncoded(source, i, buffer, w);
      return;
    }
    i', w', digit := i, w, false;
    if uri && NeedsPercent(c) {
      return false, i, w, false;
    }
    assert source[i..][1..] == source[i + 1..];
    ok, i', digit := PutCharacter(source, c, i + 1, buffer, w);
    if ok {
      w' := w + 1;
      OneDigit(buffer[w]);
      assert buffer[w..w'] == [buffer[w]];
    }
  }

  lemma CharacterHasNoDigits(s: Text)
    requires TakeCharacter(s).Some? && |TakeCharacter(s).value| > 1
    ensures !Numbers.AllDigits(TakeCharacter(s).value)
  {
    NoDigits(TakeCharacter(s).value);
  }

  /** A character of several bytes has no digit. */
  lemma NoDigits(bs: Text)
    requires |bs| > 1 && |bs| == Decode([bs[0]]).taken
    ensures !Numbers.AllDigits(bs)
  {
    assert !Lexing.IsDigit(bs[0]);
  }

  // ------------------------------------------------------------ whole names

  /** One turn of the loop: the name grows by what one character or escape stands for. */
  method NameTurn(source: Text, i: nat, uri: bool, buffer: array<Byte>, first: nat, w: nat, digits: bool)
    returns (ok: bool, i': nat, w': nat, digits': bool)
    requires i < |source| == buffer.Length && source[i] != SLASH && Behind(w, i, uri) && first <= w
    requires digits <==> Numbers.AllDigits(buffer[first..w])
    modifies buffer
    ensures forall j :: 0 <= j < first ==> buffer[j] == old(buffer[j])
    ensures !ok ==> TakeName(source[i..], uri) == Bad
    ensures ok ==> i < i' <= |source| && first <= w' <= buffer.Length && Behind(w', i', uri)
    ensures ok ==> After(old(buffer[first..w]), TakeName(source[i..], uri)) == After(buffer[first..w'], TakeName(source[i'..], uri))
    ensures ok ==> (digits' <==> Numbers.AllDigits(buffer[first..w']))
  {
    ghost var (s, taken) := (source[i..], buffer[first..w]);
    var digit;
    ok, i', w', digit := ParseUnit(source, i, uri, buffer, w);
    digits' := digits && digit;
    if ok {
      ghost var unit := buffer[w..w'];
      assert buffer[first..w] == taken;
      assert buffer[first..w'] == taken + unit;
      UnitThenName(s, uri, unit, source[i'..], taken);
      DigitsConcat(taken, unit);
    }
  }

  /** A name, up to the next solidus. */
  method ParseName(source: Text, start: nat, uri: bool, buffer: array<Byte>, first: nat)
    returns (ok: bool, i: nat, w: nat, isNumber: bool)
    requires start <= |source| == buffer.Length && Behind(first, start, uri)
    modifies buffer
    ensures forall j :: 0 <= j < first ==> buffer[j] == old(buffer[j])
    ensures ok <==> TakeName(source[start..], uri).Good?
    ensures ok ==> start <= i <= |source| && first <= w <= buffer.Length && Behind(w, i, uri)
    ensures ok ==> TakeName(source[start..], uri) == Good(buffer[first..w], source[i..])
    ensures ok ==> (isNumber <==> Numbers.AllDigits(buffer[first..w]))
  {
    i, w, isNumber, ok := start, first, true, true;
    assert buffer[first..w] == [];
    NothingTaken(TakeName(source[start..], uri));
    while i < |source| && source[i] != SLASH
      invariant start <= i <= |source| && first <= w <= buffer.Length && Behind(w, i, uri)
      invariant forall j :: 0 <= j < first ==> buffer[j] == old(buffer[j])
      invariant TakeName(source[start..], uri) == After(buffer[first..w], TakeName(source[i..], uri))
      invariant isNumber <==> Numbers.AllDigits(buffer[first..w])
    {
      ok, i, w, isNumber := NameTurn(source, i, uri, buffer, first, w, isNumber);
      if !ok {
        return;
      }
    }
    NameEnds(source[i..], uri, buffer[first..w]);
  }

  lemma NameEnds(s: Text, uri: bool, taken: Text)
    requires EndsName(s)
    ensures After(taken, TakeName(s, uri)) == Good(taken, s)
  {
    assert taken + [] == taken;
  }

  /** A name of which some has been taken already. */
  function After(taken: Text, u: Unit): Unit {
    if u.Good? then Good(taken + u.name, u.rest) else Bad
  }

  lemma NothingTaken(u: Unit)
    ensures After([], u) == u
  {
  }

  lemma UnitThenName(s: Text, uri: bool, unit: Text, rest: Text, taken: Text)
    requires s != [] && s[0] != SLASH && TakeUnit(s, uri) == Good(unit, rest)
    ensures After(taken, TakeName(s, uri)) == After(taken + unit, TakeName(rest, uri))
  {
    if TakeName(rest, uri).Good? {
      Joins3(taken, unit, TakeName(rest, uri).name);
    }
  }

  lemma DigitsConcat(a: Text, b: Text)
    ensures Numbers.AllDigits(a + b) <==> Numbers.AllDigits(a) && Numbers.AllDigits(b)
  {
    if Numbers.AllDigits(a + b) {
      forall i | 0 <= i < |a|
        ensures Lexing.IsDigit(a[i])
      {
        assert (a + b)[i] == a[i];
      }
      forall i | 0 <= i < |b|
        ensures Lexing.IsDigit(b[i])
      {
        assert (a + b)[|a| + i] == b[i];
      }
    }
  }

  /** The index of the name in the buffer: two checks, then digit by digit. */
  method ParseIndex(buffer: array<Byte>, start: nat, length: nat, digits: bool) returns (index: nat)
    requires start + length <= buffer.Length && (digits <==> Numbers.AllDigits(buffer[start..start + length]))
    ensures index == IndexOf(buffer[start..start + length])
  {
    ghost var name := buffer[start..start + length];
    var isNumber := digits && length > 0;
    if isNumber && length > 1 && buffer[start] == ZERO {
      isNumber := false;
    }
    if !isNumber {
      return INVALID_INDEX;
    }
    var n: nat := 0;
    var j := 0;
    assert name[0..] == name;
    while j < length
      invariant 0 <= j <= length && Numbers.AllDigits(name[j..])
      invariant Accumulate(0, name) == Accumulate(n, name[j..])
    {
      assert name[j] == buffer[start + j] && name[j..][0] == name[j] && name[j..][1..] == name[j + 1..];
      assert Lexing.IsDigit(name[j..][0]);
      var m := (n * 10 + (buffer[start + j] - ZERO)) % 0x1_0000_0000;
      if m < n {
        return INVALID_INDEX;
      }
      n := m;
      j := j + 1;
    }
    return n;
  }

  // --------------------------------------------------------- whole pointers

  function Slashes(s: Text): nat {
    if s == [] then 0 else (if s[0] == SLASH then 1 else 0) + Slashes(s[1..])
  }

  lemma {:induction false} SlashesLeft(s: Text, i: nat)
    requires i <= |s|
    ensures Slashes(s[i..]) <= Slashes(s)
    decreases i
  {
    if i == 0 {
      assert s[0..] == s;
    } else {
      SlashesLeft(s[1..], i - 1);
      assert s[1..][i - 1..] == s[i..];
    }
  }

  /** The first slots hold the names, each followed by a zero, below the write position. */
  ghost predicate Holds(slots: seq<Slot>, bytes: Text, names: seq<Text>, w: nat) {
    && |slots| == |names| && w <= |bytes|
    && forall k :: 0 <= k < |names| ==> HoldsOne(slots[k], bytes, names[k], w)
  }

  ghost predicate HoldsOne(t: Slot, bytes: Text, name: Text, w: nat)
    requires w <= |bytes|
  {
    && t.start + t.length < w && t.length == |name|
    && bytes[t.start..t.start + t.length] == name && bytes[t.start + t.length] == 0
    && t.index == IndexOf(name)
  }

  lemma HoldsMore(slots: seq<Slot>, before: Text, after: Text, names: seq<Text>, w: nat, t: Slot, name: Text, w': nat)
    requires Holds(slots, before, names, w) && w <= w' <= |after| && |after| == |before|
    requires SamePrefix(after, before, w)
    requires HoldsOne(t, after, name, w')
    ensures Holds(slots + [t], after, names + [name], w')
  {
    forall k | 0 <= k < |names|
      ensures HoldsOne(slots[k], after, names[k], w')
    {
      assert HoldsOne(slots[k], before, names[k], w);
      var u := slots[k];
      assert after[u.start..u.start + u.length] == before[u.start..u.start + u.length];
    }
  }

  /** Names of which some have been read already. */
  function Following(names: seq<Text>, rest: Option<seq<Text>>): Option<seq<Text>> {
    match rest
    case None => None
    case Some(more) => Some(names + more)
  }

  lemma NameThenNames(s: Text, uri: bool, name: Text, rest: Text, names: seq<Text>)
    requires s != [] && s[0] == SLASH && TakeName(s[1..], uri) == Good(name, rest)
    ensures Following(names, TakeNames(s, uri)) == Following(names + [name], TakeNames(rest, uri))
  {
    match TakeNames(rest, uri)
    case None =>
    case Some(more) => assert names + ([name] + more) == (names + [name]) + more;
  }

  lemma TokenRead(source: Text, i: nat, i': nat, uri: bool, name: Text, names: seq<Text>)
    requires i < i' <= |source| && source[i] == SLASH && TakeName(source[i + 1..], uri) == Good(name, source[i'..])
    ensures Following(names, TakeNames(source[i..], uri)) == Following(names + [name], TakeNames(source[i'..], uri))
    ensures Slashes(source[i'..]) + 1 <= Slashes(source[i..]) && EndsName(source[i'..])
  {
    var s := source[i..];
    assert s[0] == SLASH && s[1..] == source[i + 1..];
    NameThenNames(s, uri, name, source[i'..], names);
    SlashesLeft(source[i + 1..], i' - i - 1);
    assert source[i + 1..][i' - i - 1..] == source[i'..];
  }

  lemma NoToken(source: Text, i: nat, uri: bool)
    requires i < |source| && source[i] == SLASH && TakeName(source[i + 1..], uri).Bad?
    ensures TakeNames(source[i..], uri).None?
  {
    var s := source[i..];
    assert s[0] == SLASH && s[1..] == source[i + 1..];
  }

  /** The first `w` bytes are the same. */
  predicate SamePrefix(a: Text, b: Text, w: nat) {
    |a| == |b| && forall j :: 0 <= j < w && j < |a| ==> a[j] == b[j]
  }

  lemma PrefixKept(a: Text, b: Text, c: Text, v: nat, w: nat)
    requires SamePrefix(a, b, v) && SamePrefix(b, c, w) && w <= v
    ensures SamePrefix(a, c, w)
  {
  }

  lemma HoldsIntro(t: Slot, bytes: Text, name: Text, w: nat)
    requires t.start + t.length < w <= |bytes| && t.length == |name|
    requires bytes[t.start..t.start + t.length] == name && bytes[t.start + t.length] == 0 && t.index == IndexOf(name)
    ensures HoldsOne(t, bytes, name, w)
  {
  }

  class GenericPointer {
    var tokens: array<Slot>
    var nameBuffer: array<Byte>
    var tokenCount: nat
    var failed: bool

    constructor ()
      ensures !failed && tokenCount == 0 && fresh(tokens) && fresh(nameBuffer)
    {
      tokens := new Slot[0];
      nameBuffer := new Byte[0];
      tokenCount := 0;
      failed := false;
    }

    /** Counts the solidi. */
    method CountTokens(source: Text) returns (n: nat)
      ensures n == Slashes(source)
    {
      n := 0;
      var i := 0;
      assert source[0..] == source;
      while i < |source|
        invariant 0 <= i <= |source| && n + Slashes(source[i..]) == Slashes(source)
      {
        assert source[i..][1..] == source[i + 1..];
        if source[i] == SLASH {
          n := n + 1;
        }
        i := i + 1;
      }
    }

    /** Ends a name with a zero and works out its index. */
    method FinishToken(w: nat, end: nat, digits: bool, ghost name: Text) returns (slot: Slot)
      requires w <= end < nameBuffer.Length && name == nameBuffer[w..end] && (digits <==> Numbers.AllDigits(name))
      modifies nameBuffer
      ensures SamePrefix(nameBuffer[..], old(nameBuffer[..]), end)
      ensures HoldsOne(slot, nameBuffer[..], name, end + 1)
    {
      nameBuffer[end] := 0;
      assert nameBuffer[w..w + (end - w)] == name;
      var index := ParseIndex(nameBuffer, w, end - w, digits);
      slot := Slot(w, end - w, index);
      ghost var bytes := nameBuffer[..];
      assert bytes[w..w + (end - w)] == name;
      HoldsIntro(slot, bytes, name, end + 1);
    }

    /** Parses the name after a solidus into the name buffer. */
    method ReadName(source: Text, start: nat, uri: bool, w: nat)
      returns (ok: bool, i': nat, w': nat, isNumber: bool, ghost name: Text)
      requires start <= |source| == nameBuffer.Length && Behind(w, start, uri)
      modifies nameBuffer
      ensures SamePrefix(nameBuffer[..], old(nameBuffer[..]), w)
      ensures ok <==> TakeName(source[start..], uri).Good?
      ensures ok ==> start <= i' <= |source| && TakeName(source[start..], uri) == Good(name, source[i'..])
      ensures ok ==> w <= w' < nameBuffer.Length && w' + (if uri then 2 else 1) <= i' && name == nameBuffer[w..w']
      ensures ok ==> (isNumber <==> Numbers.AllDigits(name))
    {
      name := [];
      ok, i', w', isNumber := ParseName(source, start, uri, nameBuffer, w);
      if ok {
        name := nameBuffer[w..w'];
      }
    }

    /** Parses one token after its solidus. */
    method ParseToken(source: Text, i: nat, uri: bool, w: nat) returns (ok: bool, i': nat, w': nat, slot: Slot, ghost name: Text)
      requires i < |source| == nameBuffer.Length && source[i] == SLASH && Behind(w, i + 1, uri)
      modifies nameBuffer
      ensures SamePrefix(nameBuffer[..], old(nameBuffer[..]), w)
      ensures ok <==> TakeName(source[i + 1..], uri).Good?
      ensures ok ==> i < i' <= |source| && w < w' <= nameBuffer.Length && w' + (if uri then 1 else 0) <= i'
      ensures ok ==> TakeName(source[i + 1..], uri) == Good(name, source[i'..])
      ensures ok ==> HoldsOne(slot, nameBuffer[..], name, w')
    {
      var isNumber;
      slot := Slot(0, 0, 0);
      ok, i', w', isNumber, name := ReadName(source, i + 1, uri, w);
      if ok {
        ghost var named := nameBuffer[..];
        slot := FinishToken(w, w', isNumber, name);
        PrefixKept(nameBuffer[..], named, old(nameBuffer[..]), w', w);
        w' := w' + 1;
      }
    }

    /** Parses one token and stores it; there is a slot for every solidus. */
    method NextToken(source: Text, i: nat, uri: bool, w: nat, ghost names: seq<Text>)
      returns (ok: bool, i': nat, w': nat, ghost names': seq<Text>)
      requires i < |source| == nameBuffer.Length && source[i] == SLASH && Behind(w, i + 1, uri)
      requires tokenCount + Slashes(source[i..]) <= tokens.Length
      requires Holds(tokens[..tokenCount], nameBuffer[..], names, w)
      modifies this`tokenCount, tokens, nameBuffer
      ensures ok ==> i < i' <= |source| && EndsName(source[i'..]) && Behind(w', i' + 1, uri)
      ensures ok ==> tokenCount + Slashes(source[i'..]) <= tokens.Length
      ensures ok ==> Holds(tokens[..tokenCount], nameBuffer[..], names', w')
      ensures ok ==> Following(names, TakeNames(source[i..], uri)) == Following(names', TakeNames(source[i'..], uri))
      ensures !ok ==> TakeNames(source[i..], uri).None?
    {
      ghost var (before, slots) := (nameBuffer[..], tokens[..tokenCount]);
      var slot;
      ghost var name;
      names' := names;
      ok, i', w', slot, name := ParseToken(source, i, uri, w);
      if !ok {
        NoToken(source, i, uri);
        return;
      }
      TokenRead(source, i, i', uri, name, names);
      HoldsMore(slots, before, nameBuffer[..], names, w, slot, name, w');
      tokens[tokenCount] := slot;
      tokenCount := tokenCount + 1;
      assert tokens[..tokenCount] == slots + [slot];
      names' := names + [name];
    }

    /** The buffers hold these names. */
    ghost predicate HoldsAll(names: seq<Text>)
      reads this, tokens, nameBuffer
    {
      tokenCount <= tokens.Length && exists w :: Holds(tokens[..tokenCount], nameBuffer[..], names, w)
    }

    /** Parses the tokens from `start` on, into empty buffers. */
    method ParseTokens(source: Text, start: nat, uri: bool)
      requires start <= |source| == nameBuffer.Length && start == (if uri then 1 else 0) && EndsName(source[start..])
      requires tokenCount == 0 && tokens.Length >= Slashes(source[start..]) && !failed
      modifies this`tokenCount, this`failed, tokens, nameBuffer
      ensures failed <==> TakeNames(source[start..], uri).None?
      ensures !failed ==> HoldsAll(TakeNames(source[start..], uri).value)
    {
      var i: nat := start;
      var w: nat := 0;
      ghost var goal := TakeNames(source[start..], uri);
      ghost var names: seq<Text> := [];
      NoNames(goal);
      while i < |source|
        invariant start <= i <= |source| == nameBuffer.Length && EndsName(source[i..]) && Behind(w, i + 1, uri)
        invariant tokenCount + Slashes(source[i..]) <= tokens.Length && !failed
        invariant goal == Following(names, TakeNames(source[i..], uri))
        invariant Holds(tokens[..tokenCount], nameBuffer[..], names, w)
      {
        assert source[i..][0] == source[i];
        var ok;
        ok, i, w, names := NextToken(source, i, uri, w, names);
        if !ok {
          failed := true;
          return;
        }
      }
      assert source[i..] == [] && names + [] == names;
    }

    /** Fills the buffers, or fails. */
    method ParseSource(source: Text)
      requires !failed
      modifies this
      ensures fresh(tokens) && fresh(nameBuffer)
      ensures failed <==> PointerText.Parse(source).None?
      ensures !failed ==> HoldsAll(PointerText.Parse(source).value)
    {
      var count := CountTokens(source);
      tokens := new Slot[count];
      nameBuffer := new Byte[|source|];
      tokenCount := 0;
      var (i: nat, uri) := (0, false);
      assert source[0..] == source;
      if Peek(source) == HASH {
        uri := true;
        i := 1;
        SlashesLeft(source, 1);
      }
      if i != |source| && source[i] != SLASH {
        failed := true;
        return;
      }
      ParseTokens(source, i, uri);
    }
  }

  lemma NoNames(rest: Option<seq<Text>>)
    ensures Following([], rest) == rest
  {
    match rest
    case None =>
    case Some(more) => assert [] + more == more;
  }
}
