/** The pool allocator: blocks are cut one after the other from the newest of a list of chunks. */
module Allocators {
  import opened Bytes

  /** More than any object may measure; sums of two sizes below it do not wrap. */
  const HUGE: nat := 0x8000_0000_0000_0000

  /** The size of a chunk's header, a multiple of 8. */
  const HEADER: nat := 24

  /** Rounds up to a multiple of 8. */
  function Align(n: nat): nat {
    (n + 7) / 8 * 8
  }

  lemma AlignRounds(n: nat)
    ensures n <= Align(n) < n + 8 && Align(n) % 8 == 0
    ensures n > 0 ==> Align(n) >= 8
  {
  }

  /** Where a chunk lies, how much it can hold, how much of it is used. */
  datatype Chunk = Chunk(base: nat, capacity: nat, size: nat)

  function First(c: Chunk): nat {
    c.base + HEADER
  }

  function Limit(c: Chunk): nat {
    c.base + HEADER + c.capacity
  }

  predicate Apart(a: Chunk, b: Chunk) {
    Limit(a) <= b.base || Limit(b) <= a.base
  }

  predicate AllApart(cs: seq<Chunk>) {
    forall i, j :: 0 <= i < j < |cs| ==> Apart(cs[i], cs[j])
  }

  /** The blocks of a chunk, which lie one after the other: their sizes, the last cut first. */
  datatype Blocks = Bottom | Stack(size: nat, below: Blocks)

  function Total(bs: Blocks): nat {
    match bs
    case Bottom => 0
    case Stack(n, below) => Total(below) + n
  }

  predicate Aligned(bs: Blocks) {
    bs.Stack? ==> bs.size >= 8 && bs.size % 8 == 0 && Aligned(bs.below)
  }

  predicate Tiled(c: Chunk, bs: Blocks) {
    c.size == Total(bs) <= c.capacity < HUGE && Aligned(bs)
  }

  predicate AllTiled(cs: seq<Chunk>, tiles: seq<Blocks>) {
    |tiles| == |cs| && forall i :: 0 <= i < |cs| ==> Tiled(cs[i], tiles[i])
  }

  /** A block of a chunk, told by itself and those below it. */
  predicate Has(bs: Blocks, t: Blocks) {
    t.Stack? && bs.Stack? && (bs == t || Has(bs.below, t))
  }

  /** The address of a block. */
  function Address(c: Chunk, t: Blocks): nat
    requires t.Stack?
  {
    First(c) + Total(t.below)
  }

  lemma {:induction false} HasTotal(bs: Blocks, t: Blocks)
    requires Has(bs, t) && Aligned(bs)
    ensures Total(t) + (if bs == t then 0 else 8) <= Total(bs) && Aligned(t)
  {
    if bs != t {
      HasTotal(bs.below, t);
    }
  }

  lemma {:induction false} AlignedTotal(bs: Blocks)
    requires Aligned(bs)
    ensures Total(bs) % 8 == 0
  {
    if bs.Stack? {
      AlignedTotal(bs.below);
    }
  }

  /** A block lies inside the used part of its chunk, as aligned as the chunk is. */
  lemma BlockInside(c: Chunk, bs: Blocks, t: Blocks)
    requires Tiled(c, bs) && Has(bs, t)
    ensures First(c) <= Address(c, t) && t.size >= 8 && Address(c, t) + t.size <= First(c) + c.size <= Limit(c)
    ensures Address(c, t) % 8 == c.base % 8
  {
    HasTotal(bs, t);
    AlignedTotal(t.below);
  }

  /** Of two blocks of a chunk one was cut before the other, and lies before it. */
  lemma {:induction false} BlockBefore(c: Chunk, bs: Blocks, t: Blocks, u: Blocks)
    requires Aligned(bs) && Has(bs, t) && Has(bs, u) && t != u
    ensures Address(c, t) + t.size <= Address(c, u) || Address(c, u) + u.size <= Address(c, t)
  {
    if bs == t {
      HasTotal(bs.below, u);
    } else if bs == u {
      HasTotal(bs.below, t);
    } else {
      BlockBefore(c, bs.below, t, u);
    }
  }

  lemma ChunksApart(cs: seq<Chunk>, i: nat, j: nat)
    requires AllApart(cs) && i < |cs| && j < |cs| && i != j
    ensures Apart(cs[i], cs[j])
  {
    var (a, b) := (if i < j then i else j, if i < j then j else i);
    assert Apart(cs[a], cs[b]);
  }

  lemma SameBase(cs: seq<Chunk>, i: nat, j: nat)
    requires AllApart(cs) && i < |cs| && j < |cs| && cs[i].base == cs[j].base
    ensures i == j
  {
    if i != j {
      ChunksApart(cs, i, j);
    }
  }

  /** Two blocks never overlap. */
  lemma BlocksApart(cs: seq<Chunk>, tiles: seq<Blocks>, i: nat, t: Blocks, j: nat, u: Blocks)
    requires AllApart(cs) && AllTiled(cs, tiles)
    requires i < |cs| && Has(tiles[i], t) && j < |cs| && Has(tiles[j], u) && (i != j || t != u)
    ensures Address(cs[i], t) + t.size <= Address(cs[j], u) || Address(cs[j], u) + u.size <= Address(cs[i], t)
  {
    if i != j {
      BlockInside(cs[i], tiles[i], t);
      BlockInside(cs[j], tiles[j], u);
      ChunksApart(cs, i, j);
    } else {
      BlockBefore(cs[i], tiles[i], t, u);
    }
  }

  /** A pointer that ends where the newest chunk's used part ends belongs to its last block, whole. */
  lemma LastBlock(cs: seq<Chunk>, tiles: seq<Blocks>, i: nat, t: Blocks, size: nat)
    requires AllApart(cs) && AllTiled(cs, tiles) && i < |cs| && Has(tiles[i], t) && size <= t.size
    requires var head := cs[|cs| - 1]; Address(cs[i], t) + size == First(head) + head.size
    ensures i == |cs| - 1 && t == tiles[i] && size == t.size
  {
    BlockInside(cs[i], tiles[i], t);
    var apart := Apart(cs[i], cs[|cs| - 1]);
    HasTotal(tiles[i], t);
  }

  function TotalSize(cs: seq<Chunk>): nat {
    if cs == [] then 0 else TotalSize(cs[..|cs| - 1]) + cs[|cs| - 1].size
  }

  function TotalCapacity(cs: seq<Chunk>): nat {
    if cs == [] then 0 else TotalCapacity(cs[..|cs| - 1]) + cs[|cs| - 1].capacity
  }

  function TotalTiles(tiles: seq<Blocks>): nat {
    if tiles == [] then 0 else TotalTiles(tiles[..|tiles| - 1]) + Total(tiles[|tiles| - 1])
  }

  /** What is used is what the blocks take, and fits. */
  lemma {:induction false} SizesAddUp(cs: seq<Chunk>, tiles: seq<Blocks>)
    requires AllTiled(cs, tiles)
    ensures TotalSize(cs) == TotalTiles(tiles) <= TotalCapacity(cs)
    decreases |cs|
  {
    if cs != [] {
      assert Tiled(cs[|cs| - 1], tiles[|cs| - 1]);
      SizesAddUp(cs[..|cs| - 1], tiles[..|cs| - 1]);
    }
  }

  /** Chunks begin at multiples of 8, except that the user's buffer begins where it does. */
  predicate AllPlaced(cs: seq<Chunk>, buffer: Option<nat>) {
    forall i :: 0 <= i < |cs| ==> cs[i].base % 8 == 0 || buffer == Some(cs[i].base)
  }

  class MemoryPoolAllocator {
    var chunks: seq<Chunk>             // the newest, which serves requests, last
    const chunkCapacity: nat
    const userBuffer: Option<nat>
    var memory: nat -> Byte
    ghost var tiles: seq<Blocks>     // the sizes of the blocks handed out, chunk by chunk

    ghost predicate Valid()
      reads this`chunks, this`tiles
    {
      && AllApart(chunks)
      && AllTiled(chunks, tiles)
      && AllPlaced(chunks, userBuffer)
      && (userBuffer.Some? ==> chunks != [] && chunks[0].base == userBuffer.value)
      && chunkCapacity < HUGE
    }

    /** A block that was handed out, with its true size. */
    ghost predicate IsBlock(i: nat, t: Blocks, p: nat)
      reads this`chunks, this`tiles
      requires Valid()
    {
      i < |chunks| && Has(tiles[i], t) && p == Address(chunks[i], t)
    }

    constructor (capacity: nat)
      requires capacity < HUGE
      ensures Valid() && chunks == [] && tiles == [] && chunkCapacity == capacity && userBuffer == None
    {
      chunks := [];
      chunkCapacity := capacity;
      userBuffer := None;
      memory := _ => 0;
      tiles := [];
    }

    constructor WithBuffer(buffer: nat, size: nat, capacity: nat)
      requires HEADER < size < HUGE && capacity < HUGE
      ensures Valid() && chunks == [Chunk(buffer, size - HEADER, 0)] && tiles == [Bottom]
      ensures chunkCapacity == capacity && userBuffer == Some(buffer)
    {
      chunks := [Chunk(buffer, size - HEADER, 0)];
      chunkCapacity := capacity;
      userBuffer := Some(buffer);
      memory := _ => 0;
      tiles := [Bottom];
    }

    /** Sums over the list of chunks, from the newest. */
    method Size() returns (size: nat)
      requires Valid()
      ensures size == TotalSize(chunks) == TotalTiles(tiles) <= TotalCapacity(chunks)
    {
      size := 0;
      var i := |chunks|;
      assert chunks[..i] == chunks;
      while i > 0
        invariant 0 <= i <= |chunks|
        invariant size + TotalSize(chunks[..i]) == TotalSize(chunks)
      {
        assert chunks[..i][..i - 1] == chunks[..i - 1];
        i := i - 1;
        size := size + chunks[i].size;
      }
      SizesAddUp(chunks, tiles);
    }

    method Capacity() returns (capacity: nat)
      requires Valid()
      ensures capacity == TotalCapacity(chunks)
    {
      capacity := 0;
      var i := |chunks|;
      assert chunks[..i] == chunks;
      while i > 0
        invariant 0 <= i <= |chunks|
        invariant capacity + TotalCapacity(chunks[..i]) == TotalCapacity(chunks)
      {
        assert chunks[..i][..i - 1] == chunks[..i - 1];
        i := i - 1;
        capacity := capacity + chunks[i].capacity;
      }
    }

    /** Gives up every chunk but the user's buffer, which is empty again. */
    method Clear()
      requires Valid()
      modifies this`chunks, this`tiles
      ensures Valid()
      ensures userBuffer.None? ==> chunks == [] && tiles == []
      ensures userBuffer.Some? ==> chunks == [old(chunks)[0].(size := 0)] && tiles == [Bottom]
    {
      while chunks != [] && userBuffer != Some(chunks[|chunks| - 1].base)
        invariant |chunks| <= |old(chunks)| && chunks == old(chunks)[..|chunks|] && tiles == old(tiles)[..|chunks|]
        invariant Valid()
        decreases |chunks|
      {
        var h := |chunks| - 1;
        assert AllApart(chunks[..h]) && AllTiled(chunks[..h], tiles[..h]);
        chunks := chunks[..h];
        tiles := tiles[..h];
      }
      if chunks != [] {
        SameBase(chunks, 0, |chunks| - 1);
        chunks := [chunks[0].(size := 0)];
        tiles := [Bottom];
      }
    }

    /** What the base allocator answers: aligned memory that overlaps no other, or nothing. */
    ghost predicate Answers(base: Option<nat>, capacity: nat)
      reads this`chunks
    {
      base.Some? ==> GoodAnswer(chunks, base.value, capacity)
    }

    method AddChunk(capacity: nat, base: Option<nat>) returns (ok: bool)
      requires Valid() && Answers(base, capacity)
      modifies this`chunks, this`tiles
      ensures Valid() && ok == base.Some?
      ensures ok ==> chunks == old(chunks) + [Chunk(base.value, capacity, 0)] && tiles == old(tiles) + [Bottom]
      ensures !ok ==> chunks == old(chunks) && tiles == old(tiles)
    {
      if base.None? {
        return false;
      }
      chunks := chunks + [Chunk(base.value, capacity, 0)];
      tiles := tiles + [Bottom];
      return true;
    }

    function NewCapacity(size: nat): nat {
      if chunkCapacity > Align(size) then chunkCapacity else Align(size)
    }

    /** The newest chunk, if the request fits in it. */
    predicate Fits(size: nat)
      reads this`chunks, this`tiles
    {
      chunks != [] && chunks[|chunks| - 1].size + Align(size) <= chunks[|chunks| - 1].capacity
    }

    /** The block is the last of the newest chunk. */
    ghost predicate IsLast(p: nat, size: nat)
      reads this`chunks, this`tiles
      requires Valid()
    {
      && chunks != []
      && var h := |chunks| - 1;
      && tiles[h].Stack? && p == Address(chunks[h], tiles[h]) && tiles[h].size == size
    }

    /** Appends a block to the newest chunk, after adding a chunk if need be; earlier blocks stay as they are. */
    method Malloc(size: nat, base: Option<nat>) returns (p: Option<nat>)
      requires Valid() && size < HUGE - 8 && Answers(base, NewCapacity(size))
      modifies this`chunks, this`tiles
      ensures Valid()
      ensures p.None? <==> size == 0 || (!old(Fits(size)) && base.None?)
      ensures p.None? ==> chunks == old(chunks) && tiles == old(tiles)
      ensures p.Some? ==> IsLast(p.value, Align(size)) && Cut(old(tiles), tiles, Align(size))
      ensures p.Some? ==> |chunks| == |old(chunks)| + (if old(Fits(size)) then 0 else 1)
      ensures p.Some? && !old(Fits(size)) ==> chunks[|chunks| - 1].capacity == NewCapacity(size)
      ensures SameBases(old(chunks), chunks) && Stay(old(tiles), tiles)
    {
      if size == 0 {
        return None;
      }
      AlignRounds(size);
      var ok := MakeRoom(size, base);
      if !ok {
        return None;
      }
      ghost var (between, middle) := (tiles, chunks);
      p := Bump(Align(size));
      CutFrom(old(tiles), between, tiles, Align(size));
      SameBasesTransitive(old(chunks), middle, chunks);
      CutStays(old(tiles), tiles, Align(size));
    }

    /** Adds a chunk when the newest has no room. */
    method MakeRoom(size: nat, base: Option<nat>) returns (ok: bool)
      requires Valid() && 0 < size < HUGE - 8 && Answers(base, NewCapacity(size))
      modifies this`chunks, this`tiles
      ensures Valid() && (ok <==> old(Fits(size)) || base.Some?)
      ensures SameBases(old(chunks), chunks)
      ensures !ok ==> chunks == old(chunks) && tiles == old(tiles)
      ensures ok ==> tiles == if old(Fits(size)) then old(tiles) else old(tiles) + [Bottom]
      ensures ok && !old(Fits(size)) ==> chunks == old(chunks) + [Chunk(base.value, NewCapacity(size), 0)]
      ensures ok ==> chunks != [] && chunks[|chunks| - 1].size + Align(size) <= chunks[|chunks| - 1].capacity
    {
      AlignRounds(size);
      var n := Align(size);
      if chunks == [] || chunks[|chunks| - 1].size + n > chunks[|chunks| - 1].capacity {
        ok := AddChunk(if chunkCapacity > n then chunkCapacity else n, base);
      } else {
        ok := true;
      }
    }

    /** Cuts a block off the newest chunk, which has room for it. */
    method Bump(n: nat) returns (p: Option<nat>)
      requires Valid() && chunks != [] && n >= 8 && n % 8 == 0
      requires chunks[|chunks| - 1].size + n <= chunks[|chunks| - 1].capacity
      modifies this`chunks, this`tiles
      ensures Valid() && |chunks| == |old(chunks)| && SameBases(old(chunks), chunks)
      ensures chunks[|chunks| - 1].capacity == old(chunks)[|chunks| - 1].capacity
      ensures p.Some? && IsLast(p.value, n)
      ensures tiles == old(tiles)[|chunks| - 1 := Stack(n, old(tiles)[|chunks| - 1])]
    {
      var h := |chunks| - 1;
      var c := chunks[h];
      p := Some(First(c) + c.size);
      chunks := chunks[h := c.(size := c.size + n)];
      tiles := tiles[h := Stack(n, tiles[h])];
    }

    /** The last block of the newest chunk grows where it is, if there is room. */
    method Expand(increment: nat) returns (ok: bool)
      requires Valid() && chunks != [] && tiles[|tiles| - 1].Stack? && increment % 8 == 0 && increment < HUGE
      modifies this`chunks, this`tiles
      ensures Valid()
      ensures !ok ==> chunks == old(chunks) && tiles == old(tiles)
      ensures ok ==> Grown(old(tiles), tiles, increment) && |chunks| == |old(chunks)|
      ensures SameBases(old(chunks), chunks)
    {
      var h := |chunks| - 1;
      var c := chunks[h];
      if c.size + increment <= c.capacity {
        chunks := chunks[h := c.(size := c.size + increment)];
        tiles := tiles[h := Lengthened(tiles[h], increment)];
        return true;
      }
      return false;
    }

    /** Copies bytes from one place to another. */
    method Copy(target: nat, source: nat, n: nat)
      requires target + n <= source || source + n <= target
      modifies this`memory
      ensures Stretch(memory, target, n) == Stretch(old(memory), source, n)
      ensures forall a: nat :: a < target || target + n <= a ==> memory(a) == old(memory)(a)
    {
      var i := 0;
      while i < n
        invariant 0 <= i <= n
        invariant Stretch(memory, target, i) == Stretch(old(memory), source, i)
        invariant forall a: nat :: a < target || target + i <= a ==> memory(a) == old(memory)(a)
      {
        var (m, b) := (memory, memory(source + i));
        var here := target + i;
        memory := (a: nat) => if a == here then b else m(a);
        StretchGrows(m, memory, target, i);
        StretchGrows(old(memory), old(memory), source, i);
        i := i + 1;
      }
    }

    /** Cuts a new block and copies the old one's bytes to it. */
    method Move(p: nat, o: nat, n: nat, base: Option<nat>, ghost i: nat, ghost t: Blocks) returns (r: Option<nat>)
      requires Valid() && IsBlock(i, t, p) && o <= t.size && o <= n < HUGE - 8 && n > 0 && n % 8 == 0
      requires Answers(base, NewCapacity(n))
      modifies this`chunks, this`tiles, this`memory
      ensures Valid()
      ensures r.None? ==> chunks == old(chunks) && tiles == old(tiles) && memory == old(memory) && base.None?
      ensures r.Some? ==> IsLast(r.value, n) && Cut(old(tiles), tiles, n)
      ensures r.Some? ==> r.value != p && Stretch(memory, r.value, o) == Stretch(old(memory), p, o)
      ensures SameBases(old(chunks), chunks) && Stay(old(tiles), tiles)
      ensures Untouched(old(chunks), old(tiles), old(memory), memory)
    {
      AlignAgain(n);
      ghost var (was, were) := (chunks, tiles);
      BlockInside(was[i], were[i], t);
      r := Malloc(n, base);
      if r.Some? {
        var q := r.value;
        NewBlockClear(was, were, chunks, tiles, n, i, t, p, q);
        assert p + o <= q || q + o <= p;
        Copy(q, p, o);
        ClearIsUntouched(was, were, q, n, o, old(memory), memory);
      }
    }

    /**
     * Resizes block `t` of chunk `i`, whose size the caller may understate.  A block large enough stays; the
     * last block may grow where it is; otherwise the bytes move to a new block.  No byte of a block changes,
     * and every block stays where it is, longer if it grew.
     */
    method Resize(p: nat, originalSize: nat, newSize: nat, base: Option<nat>, ghost i: nat, ghost t: Blocks)
      returns (r: Option<nat>)
      requires Valid() && IsBlock(i, t, p) && originalSize < HUGE && newSize < HUGE - 16
      requires Align(originalSize) <= t.size && Answers(base, NewCapacity(Align(newSize)))
      modifies this`chunks, this`tiles, this`memory
      ensures Valid() && SameBases(old(chunks), chunks)
      ensures r.None? ==> chunks == old(chunks) && tiles == old(tiles) && memory == old(memory)
      ensures newSize == 0 ==> r == None
      ensures r.None? ==> newSize == 0 || base.None?
      ensures r.Some? && r.value == p && Align(newSize) <= Align(originalSize) ==> tiles == old(tiles)
      ensures r.Some? && r.value == p && Align(newSize) > Align(originalSize) ==>
        old(IsLast(p, Align(originalSize))) && Grown(old(tiles), tiles, Align(newSize) - Align(originalSize))
        && i == |tiles| - 1 && t == old(tiles)[i]
      ensures r.Some? && r.value != p ==>
        IsLast(r.value, Align(newSize)) && Cut(old(tiles), tiles, Align(newSize)) && Stay(old(tiles), tiles)
      ensures r.Some? ==> Stretch(memory, r.value, Align(originalSize)) == Stretch(old(memory), p, Align(originalSize))
      ensures Untouched(old(chunks), old(tiles), old(memory), memory)
    {
      if newSize == 0 {
        return None;
      }
      AlignRounds(originalSize);
      AlignRounds(newSize);
      AlignAgain(Align(newSize));
      var (o, n) := (Align(originalSize), Align(newSize));
      if o >= n {
        return Some(p);
      }
      var h := |chunks| - 1;
      if p + o == First(chunks[h]) + chunks[h].size {
        LastBlock(chunks, tiles, i, t, o);
        var ok := Expand(n - o);
        if ok {
          return Some(p);
        }
      }
      r := Move(p, o, n, base, i, t);
    }

    /** A null pointer asks for a new block; any other is resized. */
    method Realloc(original: Option<nat>, originalSize: nat, newSize: nat, base: Option<nat>, ghost i: nat, ghost t: Blocks)
      returns (r: Option<nat>)
      requires Valid() && originalSize < HUGE && newSize < HUGE - 16
      requires original.Some? ==> IsBlock(i, t, original.value) && Align(originalSize) <= t.size
      requires Answers(base, NewCapacity(if original.None? then newSize else Align(newSize)))
      modifies this`chunks, this`tiles, this`memory
      ensures Valid() && SameBases(old(chunks), chunks)
      ensures r.None? ==> chunks == old(chunks) && tiles == old(tiles) && memory == old(memory)
      ensures newSize == 0 ==> r == None
      ensures r.None? ==> newSize == 0 || base.None?
      ensures original.Some? && r == original && Align(newSize) <= Align(originalSize) ==> tiles == old(tiles)
      ensures original.Some? && r == original && Align(newSize) > Align(originalSize) ==>
        Grown(old(tiles), tiles, Align(newSize) - Align(originalSize)) && i == |tiles| - 1 && t == old(tiles)[i]
        && t.size == Align(originalSize)
      ensures r.Some? && r != original ==>
        IsLast(r.value, Align(newSize)) && Cut(old(tiles), tiles, Align(newSize)) && Stay(old(tiles), tiles)
      ensures r.Some? && original.Some? ==>
        Stretch(memory, r.value, Align(originalSize)) == Stretch(old(memory), original.value, Align(originalSize))
      ensures Untouched(old(chunks), old(tiles), old(memory), memory)
    {
      if original.None? {
        r := Malloc(newSize, base);
      } else {
        r := Resize(original.value, originalSize, newSize, base, i, t);
      }
    }

    /** The owner of a block writes into it. */
    method Write(p: nat, bytes: Text)
      modifies this`memory
      ensures Stretch(memory, p, |bytes|) == bytes
      ensures forall a: nat :: a < p || p + |bytes| <= a ==> memory(a) == old(memory)(a)
    {
      var m := memory;
      memory := (a: nat) => if p <= a < p + |bytes| then bytes[a - p] else m(a);
    }
  }

  /** Memory for a chunk, aligned and apart from the chunks there are. */
  ghost predicate GoodAnswer(cs: seq<Chunk>, base: nat, capacity: nat) {
    && capacity < HUGE && base % 8 == 0
    && forall i :: 0 <= i < |cs| ==> Apart(cs[i], Chunk(base, capacity, 0))
  }

  /** Every block there was is still a block. */
  ghost predicate Stay(were: seq<Blocks>, ts: seq<Blocks>) {
    forall j: nat, u: Blocks :: j < |were| && Has(were[j], u) ==> j < |ts| && Has(ts[j], u)
  }

  lemma CutStays(were: seq<Blocks>, ts: seq<Blocks>, n: nat)
    requires Cut(were, ts, n)
    ensures Stay(were, ts)
  {
    forall j: nat, u: Blocks | j < |were| && Has(were[j], u)
      ensures j < |ts| && Has(ts[j], u)
    {
      CutKeeps(were, ts, n, j, u);
    }
  }

  /** The bytes of a stretch of memory. */
  ghost function Stretch(m: nat -> Byte, p: nat, n: nat): seq<Byte> {
    seq(n, i requires 0 <= i < n => m(p + i))
  }

  /** No byte of a block differs. */
  ghost predicate Untouched(cs: seq<Chunk>, ts: seq<Blocks>, before: nat -> Byte, after: nat -> Byte) {
    forall a: nat :: InBlock(cs, ts, a) ==> after(a) == before(a)
  }

  lemma StretchGrows(m: nat -> Byte, m2: nat -> Byte, p: nat, n: nat)
    requires forall a: nat :: a != p + n ==> m2(a) == m(a)
    ensures Stretch(m2, p, n + 1) == Stretch(m, p, n) + [m2(p + n)]
  {
  }

  /** The address belongs to a block. */
  ghost predicate InBlock(cs: seq<Chunk>, ts: seq<Blocks>, a: nat) {
    |cs| == |ts| && exists j: nat, t: Blocks :: j < |cs| && Has(ts[j], t) && Address(cs[j], t) <= a < Address(cs[j], t) + t.size
  }

  lemma AlignAgain(n: nat)
    requires n <= HUGE && n % 8 == 0
    ensures Align(n) == n
  {
  }

  /** One block has been added, in the newest chunk, which may be new. */
  predicate Cut(before: seq<Blocks>, after: seq<Blocks>, n: nat) {
    && after != []
    && var h := |after| - 1;
    && (|before| == h || |before| == h + 1)
    && after == (if |before| == h then before + [Stack(n, Bottom)] else before[h := Stack(n, before[h])])
  }

  function Lengthened(bs: Blocks, n: nat): Blocks
    requires bs.Stack?
  {
    Stack(bs.size + n, bs.below)
  }

  /** The last block of the newest chunk has grown. */
  predicate Grown(before: seq<Blocks>, after: seq<Blocks>, n: nat) {
    && before != []
    && var h := |before| - 1;
    && before[h].Stack?
    && after == before[h := Lengthened(before[h], n)]
  }

  /** Chunks stay where and as large as they are. */
  predicate SameBases(was: seq<Chunk>, cs: seq<Chunk>) {
    |was| <= |cs| && forall i :: 0 <= i < |was| ==> cs[i].base == was[i].base && cs[i].capacity == was[i].capacity
  }

  lemma SameBasesTransitive(a: seq<Chunk>, b: seq<Chunk>, c: seq<Chunk>)
    requires SameBases(a, b) && SameBases(b, c)
    ensures SameBases(a, c)
  {
  }

  lemma CutFrom(were: seq<Blocks>, between: seq<Blocks>, ts: seq<Blocks>, n: nat)
    requires between != [] && (between == were || between == were + [Bottom])
    requires var h := |between| - 1; ts == between[h := Stack(n, between[h])]
    ensures Cut(were, ts, n)
  {
    if between == were + [Bottom] {
      assert ts == were + [Stack(n, Bottom)];
    }
  }

  lemma CutKeeps(were: seq<Blocks>, ts: seq<Blocks>, n: nat, j: nat, t: Blocks)
    requires Cut(were, ts, n) && j < |were| && Has(were[j], t)
    ensures j < |ts| && Has(ts[j], t) && (j == |ts| - 1 ==> t != ts[j])
  {
    if j == |ts| - 1 {
      NotBelow(were[j], t);
    }
  }

  lemma {:induction false} NotBelow(bs: Blocks, t: Blocks)
    requires Has(bs, t)
    ensures Depth(t) <= Depth(bs)
  {
    if bs != t {
      NotBelow(bs.below, t);
    }
  }

  function Depth(bs: Blocks): nat {
    if bs.Stack? then 1 + Depth(bs.below) else 0
  }

  /** A block there was lies clear of the block just cut. */
  lemma NewBlockApart(was: seq<Chunk>, were: seq<Blocks>, cs: seq<Chunk>, ts: seq<Blocks>, n: nat, j: nat, t: Blocks)
    requires AllApart(cs) && AllTiled(cs, ts) && |was| == |were| && Cut(were, ts, n)
    requires SameBases(was, cs) && j < |was| && Has(were[j], t)
    ensures var (p, q) := (Address(was[j], t), Address(cs[|cs| - 1], ts[|cs| - 1]));
      p + t.size <= q || q + n <= p
  {
    CutKeeps(were, ts, n, j, t);
    BlocksApart(cs, ts, j, t, |cs| - 1, ts[|cs| - 1]);
  }

  /** No byte of a block is in the stretch. */
  ghost predicate Clear(cs: seq<Chunk>, ts: seq<Blocks>, q: nat, n: nat) {
    forall a: nat :: InBlock(cs, ts, a) ==> a < q || q + n <= a
  }

  lemma ClearIsUntouched(cs: seq<Chunk>, ts: seq<Blocks>, q: nat, n: nat, o: nat, before: nat -> Byte, after: nat -> Byte)
    requires Clear(cs, ts, q, n) && o <= n
    requires forall a: nat :: a < q || q + o <= a ==> after(a) == before(a)
    ensures Untouched(cs, ts, before, after)
  {
  }

  lemma NewBlockClear(was: seq<Chunk>, were: seq<Blocks>, cs: seq<Chunk>, ts: seq<Blocks>, n: nat,
                      i: nat, t: Blocks, p: nat, q: nat)
    requires AllApart(cs) && AllTiled(cs, ts) && |was| == |were| && Cut(were, ts, n) && n > 0
    requires SameBases(was, cs) && i < |was| && Has(were[i], t) && p == Address(was[i], t) && t.size > 0
    requires q == Address(cs[|cs| - 1], ts[|cs| - 1])
    ensures p + t.size <= q || q + n <= p
    ensures Clear(was, were, q, n)
  {
    NewBlockApart(was, were, cs, ts, n, i, t);
    forall a: nat | InBlock(was, were, a)
      ensures a < q || q + n <= a
    {
      var j: nat, u: Blocks :| j < |was| && Has(were[j], u) && Address(was[j], u) <= a < Address(was[j], u) + u.size;
      NewBlockApart(was, were, cs, ts, n, j, u);
    }
  }
}
