/** A client of the pool allocator, over any sequence of requests. */
module Pools {
  import opened Bytes
  import opened Allocators

  /** A block the client holds: the size it asked for, and the bytes it last stored there. */
  datatype Handle = Handle(p: nat, size: nat, bytes: Text)

  /** Which block that is. */
  datatype Owner = Owner(chunk: nat, block: Blocks)

  /** `Reallocate` with a handle that is not there passes a null pointer. */
  datatype Request = Allocate(size: nat) | Reallocate(k: nat, size: nat) | Store(k: nat, bytes: Text) | Reset

  const LARGEST: nat := HUGE - 16

  /** The base allocator: whatever the chunks are, it finds memory apart from them or gives up. */
  type Base = (seq<Chunk>, nat) -> Option<nat>

  ghost predicate Sane(base: Base) {
    forall cs, capacity :: base(cs, capacity).Some? ==> GoodAnswer(cs, base(cs, capacity).value, capacity)
  }

  /** The handle's block is there, large enough, and holds what was stored. */
  ghost predicate Holds(cs: seq<Chunk>, ts: seq<Blocks>, m: nat -> Byte, h: Handle, o: Owner) {
    && |ts| == |cs| && o.chunk < |cs| && Has(ts[o.chunk], o.block) && h.p == Address(cs[o.chunk], o.block)
    && h.size < LARGEST && Align(h.size) <= o.block.size
    && |h.bytes| <= h.size && Stretch(m, h.p, |h.bytes|) == h.bytes
  }

  predicate AllDifferent(os: seq<Owner>) {
    forall k, l :: 0 <= k < l < |os| ==> os[k] != os[l]
  }

  ghost predicate AllHold(cs: seq<Chunk>, ts: seq<Blocks>, m: nat -> Byte, hs: seq<Handle>, os: seq<Owner>) {
    |os| == |hs| && forall k :: 0 <= k < |hs| ==> Holds(cs, ts, m, hs[k], os[k])
  }

  lemma BytesInBlock(cs: seq<Chunk>, ts: seq<Blocks>, m: nat -> Byte, h: Handle, o: Owner, a: nat)
    requires Holds(cs, ts, m, h, o) && h.p <= a < h.p + |h.bytes|
    ensures InBlock(cs, ts, a)
  {
    AlignRounds(h.size);
    assert Has(ts[o.chunk], o.block);
  }

  /** What is untouched holds what it held. */
  lemma BytesStay(cs: seq<Chunk>, ts: seq<Blocks>, m: nat -> Byte, m2: nat -> Byte, h: Handle, o: Owner)
    requires Holds(cs, ts, m, h, o) && Untouched(cs, ts, m, m2)
    ensures Stretch(m2, h.p, |h.bytes|) == h.bytes
  {
    forall i | 0 <= i < |h.bytes|
      ensures m2(h.p + i) == h.bytes[i]
    {
      BytesInBlock(cs, ts, m, h, o, h.p + i);
      assert Stretch(m, h.p, |h.bytes|)[i] == m(h.p + i);
    }
  }

  /** A handle whose block is still a block survives. */
  lemma HandleStays(cs: seq<Chunk>, ts: seq<Blocks>, m: nat -> Byte, cs2: seq<Chunk>, ts2: seq<Blocks>, m2: nat -> Byte, h: Handle, o: Owner)
    requires Holds(cs, ts, m, h, o) && SameBases(cs, cs2) && |ts2| == |cs2|
    requires Untouched(cs, ts, m, m2) && o.chunk < |ts2| && Has(ts2[o.chunk], o.block)
    ensures Holds(cs2, ts2, m2, h, o)
  {
    BytesStay(cs, ts, m, m2, h, o);
  }

  lemma AllStay(cs: seq<Chunk>, ts: seq<Blocks>, m: nat -> Byte, cs2: seq<Chunk>, ts2: seq<Blocks>, m2: nat -> Byte, hs: seq<Handle>, os: seq<Owner>)
    requires AllHold(cs, ts, m, hs, os) && SameBases(cs, cs2) && |ts2| == |cs2|
    requires Untouched(cs, ts, m, m2) && Stay(ts, ts2)
    ensures AllHold(cs2, ts2, m2, hs, os)
  {
    forall k | 0 <= k < |hs|
      ensures Holds(cs2, ts2, m2, hs[k], os[k])
    {
      assert Holds(cs, ts, m, hs[k], os[k]) && Has(ts[os[k].chunk], os[k].block);
      HandleStays(cs, ts, m, cs2, ts2, m2, hs[k], os[k]);
    }
  }

  lemma NothingTouched(cs: seq<Chunk>, ts: seq<Blocks>, m: nat -> Byte)
    ensures Untouched(cs, ts, m, m)
  {
  }

  /** A block just cut is no other handle's. */
  lemma NewIsDifferent(cs: seq<Chunk>, ts: seq<Blocks>, ts2: seq<Blocks>, n: nat, m: nat -> Byte, hs: seq<Handle>, os: seq<Owner>)
    requires AllHold(cs, ts, m, hs, os) && Cut(ts, ts2, n)
    ensures forall k :: 0 <= k < |os| ==> os[k] != Owner(|ts2| - 1, ts2[|ts2| - 1])
  {
    forall k | 0 <= k < |os|
      ensures os[k] != Owner(|ts2| - 1, ts2[|ts2| - 1])
    {
      assert Holds(cs, ts, m, hs[k], os[k]);
      CutKeeps(ts, ts2, n, os[k].chunk, os[k].block);
    }
  }

  lemma EmptyStretch(m: nat -> Byte, p: nat)
    ensures Stretch(m, p, 0) == []
  {
  }

  lemma StretchPrefix(m: nat -> Byte, p: nat, n: nat, k: nat)
    requires k <= n
    ensures Stretch(m, p, n)[..k] == Stretch(m, p, k)
  {
  }

  /** The block just cut, as a handle. */
  lemma CutHolds(cs: seq<Chunk>, ts: seq<Blocks>, m: nat -> Byte, h: Handle, n: nat)
    requires |ts| == |cs| > 0 && ts[|ts| - 1].Stack? && h.p == Address(cs[|cs| - 1], ts[|ts| - 1]) && ts[|ts| - 1].size == n
    requires Align(h.size) == n && h.size < LARGEST && |h.bytes| <= h.size && Stretch(m, h.p, |h.bytes|) == h.bytes
    ensures Holds(cs, ts, m, h, Owner(|ts| - 1, ts[|ts| - 1]))
  {
  }

  // ---------------------------------------------------------------- requests

  /** A new block, if there is memory for it. */
  method DoAllocate(a: MemoryPoolAllocator, hs: seq<Handle>, size: nat, base: Base, ghost os: seq<Owner>)
    returns (r: seq<Handle>, ghost rs: seq<Owner>)
    requires a.Valid() && AllHold(a.chunks, a.tiles, a.memory, hs, os) && AllDifferent(os) && Sane(base) && size < LARGEST
    modifies a
    ensures a.Valid() && AllHold(a.chunks, a.tiles, a.memory, r, rs) && AllDifferent(rs)
    ensures Gained(hs, r, size, base)
  {
    ghost var (cs, ts, m) := (a.chunks, a.tiles, a.memory);
    var answer := base(a.chunks, a.NewCapacity(size));
    var p := a.Realloc(None, 0, size, answer, 0, Bottom);
    r, rs := hs, os;
    if p.Some? {
      AllStay(cs, ts, m, a.chunks, a.tiles, a.memory, hs, os);
      NewIsDifferent(cs, ts, a.tiles, Align(size), m, hs, os);
      var h := Handle(p.value, size, []);
      EmptyStretch(a.memory, p.value);
      CutHolds(a.chunks, a.tiles, a.memory, h, Align(size));
      r, rs := hs + [h], os + [Owner(|a.tiles| - 1, a.tiles[|a.tiles| - 1])];
    }
  }

  /** The bytes a resized block still holds. */
  function Cropped(bytes: Text, size: nat): Text {
    if |bytes| <= size then bytes else bytes[..size]
  }

  /** A block grown where it is keeps the others, and is told from them. */
  lemma GrownKeeps(ts: seq<Blocks>, ts2: seq<Blocks>, n: nat, j: nat, u: Blocks)
    requires Grown(ts, ts2, n) && j < |ts| && Has(ts[j], u) && !(j == |ts| - 1 && u == ts[j])
    ensures j < |ts2| && Has(ts2[j], u) && !(j == |ts| - 1 && u == ts2[j])
  {
    if j == |ts| - 1 {
      NotBelow(ts[j].below, u);
    }
  }

  lemma GrownStays(cs: seq<Chunk>, ts: seq<Blocks>, m: nat -> Byte, cs2: seq<Chunk>, ts2: seq<Blocks>, m2: nat -> Byte,
                   hs: seq<Handle>, os: seq<Owner>, k: nat, n: nat, h: Handle)
    requires AllHold(cs, ts, m, hs, os) && AllDifferent(os) && k < |hs| && SameBases(cs, cs2) && |ts2| == |cs2|
    requires Untouched(cs, ts, m, m2) && Grown(ts, ts2, n)
    requires os[k] == Owner(|ts| - 1, ts[|ts| - 1])
    requires Holds(cs2, ts2, m2, h, Owner(|ts| - 1, ts2[|ts| - 1]))
    ensures AllHold(cs2, ts2, m2, hs[k := h], os[k := Owner(|ts| - 1, ts2[|ts| - 1])])
    ensures AllDifferent(os[k := Owner(|ts| - 1, ts2[|ts| - 1])])
  {
    var o2 := Owner(|ts| - 1, ts2[|ts| - 1]);
    forall l | 0 <= l < |os| && l != k
      ensures Holds(cs2, ts2, m2, hs[l], os[l]) && os[l] != o2
    {
      assert Holds(cs, ts, m, hs[l], os[l]);
      assert os[l] != os[k] by {
        assert if l < k then os[l] != os[k] else os[k] != os[l];
      }
      GrownKeeps(ts, ts2, n, os[l].chunk, os[l].block);
      HandleStays(cs, ts, m, cs2, ts2, m2, hs[l], os[l]);
    }
  }

  /** Replacing one handle by another whose block is no other's. */
  lemma Replaced(cs: seq<Chunk>, ts: seq<Blocks>, m: nat -> Byte, hs: seq<Handle>, os: seq<Owner>, k: nat, h: Handle, o: Owner)
    requires AllHold(cs, ts, m, hs, os) && AllDifferent(os) && k < |hs| && Holds(cs, ts, m, h, o)
    requires forall l :: 0 <= l < |os| && l != k ==> os[l] != o
    ensures AllHold(cs, ts, m, hs[k := h], os[k := o]) && AllDifferent(os[k := o])
  {
  }

  lemma ResizedBytes(m: nat -> Byte, m2: nat -> Byte, h: Handle, q: nat, n: nat, size: nat)
    requires Stretch(m, h.p, |h.bytes|) == h.bytes && |h.bytes| <= n
    requires Stretch(m2, q, n) == Stretch(m, h.p, n)
    ensures var bytes := Cropped(h.bytes, size); Stretch(m2, q, |bytes|) == bytes && |bytes| <= size
  {
    var bytes := Cropped(h.bytes, size);
    StretchPrefix(m, h.p, n, |h.bytes|);
    StretchPrefix(m, h.p, |h.bytes|, |bytes|);
    StretchPrefix(m2, q, n, |bytes|);
    StretchPrefix(m, h.p, n, |bytes|);
  }

  lemma MovedHolds(cs: seq<Chunk>, ts: seq<Blocks>, m: nat -> Byte, cs2: seq<Chunk>, ts2: seq<Blocks>, m2: nat -> Byte,
                   hs: seq<Handle>, os: seq<Owner>, k: nat, g: Handle)
    requires AllHold(cs, ts, m, hs, os) && AllDifferent(os) && k < |hs| && SameBases(cs, cs2) && |ts2| == |cs2|
    requires Untouched(cs, ts, m, m2) && Stay(ts, ts2) && Cut(ts, ts2, Align(g.size)) && ts2[|ts2| - 1].Stack?
    requires g.p == Address(cs2[|cs2| - 1], ts2[|ts2| - 1]) && ts2[|ts2| - 1].size == Align(g.size) && g.size < LARGEST
    requires |g.bytes| <= g.size && Stretch(m2, g.p, |g.bytes|) == g.bytes
    ensures var o := Owner(|ts2| - 1, ts2[|ts2| - 1]);
      AllHold(cs2, ts2, m2, hs[k := g], os[k := o]) && AllDifferent(os[k := o])
  {
    AllStay(cs, ts, m, cs2, ts2, m2, hs, os);
    NewIsDifferent(cs, ts, ts2, Align(g.size), m, hs, os);
    CutHolds(cs2, ts2, m2, g, Align(g.size));
    Replaced(cs2, ts2, m2, hs, os, k, g, Owner(|ts2| - 1, ts2[|ts2| - 1]));
  }

  lemma GrownHolds(cs: seq<Chunk>, ts: seq<Blocks>, m: nat -> Byte, cs2: seq<Chunk>, ts2: seq<Blocks>, m2: nat -> Byte,
                   hs: seq<Handle>, os: seq<Owner>, k: nat, n: nat, g: Handle)
    requires AllHold(cs, ts, m, hs, os) && AllDifferent(os) && k < |hs| && SameBases(cs, cs2) && |ts2| == |cs2|
    requires Untouched(cs, ts, m, m2) && Grown(ts, ts2, n) && os[k] == Owner(|ts| - 1, ts[|ts| - 1])
    requires g.p == hs[k].p && g.size < LARGEST && Align(g.size) == Align(hs[k].size) + n
    requires ts[|ts| - 1].size == Align(hs[k].size)
    requires |g.bytes| <= g.size && Stretch(m2, g.p, |g.bytes|) == g.bytes
    ensures var o := Owner(|ts| - 1, ts2[|ts| - 1]);
      AllHold(cs2, ts2, m2, hs[k := g], os[k := o]) && AllDifferent(os[k := o])
  {
    assert Holds(cs, ts, m, hs[k], os[k]);
    assert Holds(cs2, ts2, m2, g, Owner(|ts| - 1, ts2[|ts| - 1]));
    GrownStays(cs, ts, m, cs2, ts2, m2, hs, os, k, n, g);
  }

  lemma ShrunkHolds(cs: seq<Chunk>, ts: seq<Blocks>, m: nat -> Byte, cs2: seq<Chunk>, m2: nat -> Byte,
                    hs: seq<Handle>, os: seq<Owner>, k: nat, g: Handle)
    requires AllHold(cs, ts, m, hs, os) && AllDifferent(os) && k < |hs| && SameBases(cs, cs2) && |ts| == |cs2|
    requires Untouched(cs, ts, m, m2) && g.p == hs[k].p && g.size < LARGEST && Align(g.size) <= Align(hs[k].size)
    requires |g.bytes| <= g.size && Stretch(m2, g.p, |g.bytes|) == g.bytes
    ensures AllHold(cs2, ts, m2, hs[k := g], os)
  {
    SameTilesStay(ts);
    AllStay(cs, ts, m, cs2, ts, m2, hs, os);
    assert Holds(cs2, ts, m2, hs[k], os[k]);
  }

  /** Resizes a block, or keeps it when there is no memory; a size of zero gives it up. */
  method DoReallocate(a: MemoryPoolAllocator, hs: seq<Handle>, k: nat, size: nat, base: Base, ghost os: seq<Owner>)
    returns (r: seq<Handle>, ghost rs: seq<Owner>)
    requires a.Valid() && AllHold(a.chunks, a.tiles, a.memory, hs, os) && AllDifferent(os) && Sane(base)
    requires k < |hs| && 0 < size < LARGEST
    modifies a
    ensures a.Valid() && AllHold(a.chunks, a.tiles, a.memory, r, rs) && AllDifferent(rs)
    ensures Changed(hs, r, k, size, base)
  {
    ghost var (cs, ts, m) := (a.chunks, a.tiles, a.memory);
    var h := hs[k];
    assert Holds(cs, ts, m, h, os[k]);
    var q := CallRealloc(a, h, size, base, os[k]);
    r, rs := hs, os;
    if q.Some? {
      var g := Handle(q.value, size, Cropped(h.bytes, size));
      r := hs[k := g];
      ResizedBytes(m, a.memory, h, q.value, Align(h.size), size);
      rs := NewOwner(cs, ts, m, a.chunks, a.tiles, a.memory, hs, os, k, g);
    }
  }

  /** The call itself, with whatever the base allocator answers. */
  method CallRealloc(a: MemoryPoolAllocator, h: Handle, size: nat, base: Base, ghost o: Owner) returns (q: Option<nat>)
    requires a.Valid() && Holds(a.chunks, a.tiles, a.memory, h, o) && Sane(base) && 0 < size < LARGEST
    modifies a
    ensures a.Valid() && SameBases(old(a.chunks), a.chunks) && |h.bytes| <= Align(h.size)
    ensures q.None? ==> a.chunks == old(a.chunks) && a.tiles == old(a.tiles) && a.memory == old(a.memory) && !Generous(base)
    ensures q == Some(h.p) && Align(size) <= Align(h.size) ==> a.tiles == old(a.tiles)
    ensures q == Some(h.p) && Align(size) > Align(h.size) ==>
      Grown(old(a.tiles), a.tiles, Align(size) - Align(h.size)) && o.chunk == |a.tiles| - 1 && o.block == old(a.tiles)[o.chunk]
      && o.block.size == Align(h.size)
    ensures q.Some? && q != Some(h.p) ==>
      a.IsLast(q.value, Align(size)) && Cut(old(a.tiles), a.tiles, Align(size)) && Stay(old(a.tiles), a.tiles)
    ensures q.Some? ==> Stretch(a.memory, q.value, Align(h.size)) == Stretch(old(a.memory), h.p, Align(h.size))
    ensures Untouched(old(a.chunks), old(a.tiles), old(a.memory), a.memory)
  {
    SizesFit(h.size, size);
    var n := Align(size);
    AlignAgain(n);
    var capacity := a.NewCapacity(n);
    var answer := base(a.chunks, capacity);
    if answer.None? {
      GaveUp(base, a.chunks, capacity);
    }
    q := a.Realloc(Some(h.p), h.size, size, answer, o.chunk, o.block);
  }

  lemma GaveUp(base: Base, cs: seq<Chunk>, capacity: nat)
    requires capacity < HUGE && base(cs, capacity).None?
    ensures !Generous(base)
  {
  }

  lemma SizesFit(o: nat, n: nat)
    requires n < LARGEST
    ensures o <= Align(o) && Align(n) < HUGE - 8
  {
    AlignRounds(o);
    AlignRounds(n);
  }

  /** Whichever way a block was resized, the handles hold, and are told apart. */
  lemma NewOwner(cs: seq<Chunk>, ts: seq<Blocks>, m: nat -> Byte, cs2: seq<Chunk>, ts2: seq<Blocks>, m2: nat -> Byte,
                 hs: seq<Handle>, os: seq<Owner>, k: nat, g: Handle) returns (rs: seq<Owner>)
    requires AllHold(cs, ts, m, hs, os) && AllDifferent(os) && k < |hs| && SameBases(cs, cs2) && |ts2| == |cs2| && |ts| == |cs|
    requires Untouched(cs, ts, m, m2) && g.size < LARGEST
    requires |g.bytes| <= g.size && Stretch(m2, g.p, |g.bytes|) == g.bytes
    requires g.p == hs[k].p && Align(g.size) <= Align(hs[k].size) ==> ts2 == ts
    requires g.p == hs[k].p && Align(g.size) > Align(hs[k].size) ==>
      Grown(ts, ts2, Align(g.size) - Align(hs[k].size)) && os[k] == Owner(|ts| - 1, ts[|ts| - 1])
      && ts[|ts| - 1].size == Align(hs[k].size)
    requires g.p != hs[k].p ==>
      Stay(ts, ts2) && Cut(ts, ts2, Align(g.size)) && ts2[|ts2| - 1].Stack?
      && g.p == Address(cs2[|cs2| - 1], ts2[|ts2| - 1]) && ts2[|ts2| - 1].size == Align(g.size)
    ensures AllHold(cs2, ts2, m2, hs[k := g], rs) && AllDifferent(rs)
  {
    if g.p != hs[k].p {
      MovedHolds(cs, ts, m, cs2, ts2, m2, hs, os, k, g);
      rs := os[k := Owner(|ts2| - 1, ts2[|ts2| - 1])];
    } else if Align(g.size) > Align(hs[k].size) {
      GrownHolds(cs, ts, m, cs2, ts2, m2, hs, os, k, Align(g.size) - Align(hs[k].size), g);
      rs := os[k := Owner(|ts| - 1, ts2[|ts| - 1])];
    } else {
      ShrunkHolds(cs, ts, m, cs2, m2, hs, os, k, g);
      rs := os;
    }
  }

  lemma SameTilesStay(ts: seq<Blocks>)
    ensures Stay(ts, ts)
  {
  }

  /** The owner of a block stores bytes in it; no other block changes. */
  method DoStore(a: MemoryPoolAllocator, hs: seq<Handle>, k: nat, bytes: Text, ghost os: seq<Owner>) returns (r: seq<Handle>)
    requires a.Valid() && AllHold(a.chunks, a.tiles, a.memory, hs, os) && AllDifferent(os)
    requires k < |hs| && |bytes| <= hs[k].size
    modifies a
    ensures a.Valid() && AllHold(a.chunks, a.tiles, a.memory, r, os) && r == hs[k := hs[k].(bytes := bytes)]
    ensures a.chunks == old(a.chunks) && a.tiles == old(a.tiles)
  {
    ghost var m := a.memory;
    assert Holds(a.chunks, a.tiles, m, hs[k], os[k]);
    a.Write(hs[k].p, bytes);
    r := hs[k := hs[k].(bytes := bytes)];
    forall l | 0 <= l < |hs| && l != k
      ensures Holds(a.chunks, a.tiles, a.memory, hs[l], os[l])
    {
      assert Holds(a.chunks, a.tiles, m, hs[l], os[l]);
      HandlesApart(a.chunks, a.tiles, m, hs, os, k, l);
      AlignRounds(hs[k].size);
      AlignRounds(hs[l].size);
      ElsewhereSame(m, a.memory, hs[k].p, |bytes|, hs[l].p, |hs[l].bytes|);
    }
  }

  lemma ElsewhereSame(m: nat -> Byte, m2: nat -> Byte, p: nat, n: nat, q: nat, k: nat)
    requires forall a: nat :: a < p || p + n <= a ==> m2(a) == m(a)
    requires p + n <= q || q + k <= p
    ensures Stretch(m2, q, k) == Stretch(m, q, k)
  {
  }

  /** Two handles' memory does not overlap. */
  lemma HandlesApart(cs: seq<Chunk>, ts: seq<Blocks>, m: nat -> Byte, hs: seq<Handle>, os: seq<Owner>, k: nat, l: nat)
    requires AllApart(cs) && AllTiled(cs, ts) && AllHold(cs, ts, m, hs, os) && AllDifferent(os)
    requires k < |hs| && l < |hs| && k != l
    ensures hs[k].p + Align(hs[k].size) <= hs[l].p || hs[l].p + Align(hs[l].size) <= hs[k].p
  {
    assert Holds(cs, ts, m, hs[k], os[k]) && Holds(cs, ts, m, hs[l], os[l]);
    assert os[k] != os[l] by {
      assert if k < l then os[k] != os[l] else os[l] != os[k];
    }
    BlocksApart(cs, ts, os[k].chunk, os[k].block, os[l].chunk, os[l].block);
  }

  // --------------------------------------------------------------- any run

  /** The block of a handle lies in one chunk. */
  ghost predicate InOneChunk(cs: seq<Chunk>, h: Handle) {
    exists i :: 0 <= i < |cs| && First(cs[i]) <= h.p && h.p + Align(h.size) <= First(cs[i]) + cs[i].size && cs[i].size <= cs[i].capacity
  }

  /** A handle begins at a multiple of 8, unless it is in a user's buffer that does not. */
  predicate Placed(buffer: Option<nat>, h: Handle) {
    h.p % 8 == 0 || (buffer.Some? && h.p % 8 == buffer.value % 8)
  }

  lemma HandlePlaced(cs: seq<Chunk>, ts: seq<Blocks>, m: nat -> Byte, h: Handle, o: Owner, buffer: Option<nat>)
    requires AllTiled(cs, ts) && AllPlaced(cs, buffer) && Holds(cs, ts, m, h, o)
    ensures InOneChunk(cs, h) && Placed(buffer, h)
  {
    BlockInside(cs[o.chunk], ts[o.chunk], o.block);
    var c := cs[o.chunk];
    assert First(c) <= h.p && h.p + Align(h.size) <= First(c) + c.size;
  }

  /** Everything a client relies on. */
  ghost predicate Safe(a: MemoryPoolAllocator, hs: seq<Handle>)
    reads a
  {
    && (forall k :: 0 <= k < |hs| ==> InOneChunk(a.chunks, hs[k]) && Placed(a.userBuffer, hs[k]))
    && (forall k :: 0 <= k < |hs| ==> Stretch(a.memory, hs[k].p, |hs[k].bytes|) == hs[k].bytes)
    && (forall k, l :: 0 <= k < l < |hs| ==>
          hs[k].p + Align(hs[k].size) <= hs[l].p || hs[l].p + Align(hs[l].size) <= hs[k].p)
    && TotalSize(a.chunks) == TotalTiles(a.tiles) <= TotalCapacity(a.chunks)
  }

  lemma HoldingIsSafe(a: MemoryPoolAllocator, hs: seq<Handle>, os: seq<Owner>)
    requires a.Valid() && AllHold(a.chunks, a.tiles, a.memory, hs, os) && AllDifferent(os)
    ensures Safe(a, hs)
  {
    forall k | 0 <= k < |hs|
      ensures InOneChunk(a.chunks, hs[k]) && Placed(a.userBuffer, hs[k])
    {
      assert Holds(a.chunks, a.tiles, a.memory, hs[k], os[k]);
      HandlePlaced(a.chunks, a.tiles, a.memory, hs[k], os[k], a.userBuffer);
    }
    forall k, l | 0 <= k < l < |hs|
      ensures hs[k].p + Align(hs[k].size) <= hs[l].p || hs[l].p + Align(hs[l].size) <= hs[k].p
    {
      HandlesApart(a.chunks, a.tiles, a.memory, hs, os, k, l);
    }
    SizesAddUp(a.chunks, a.tiles);
  }

  /** The base allocator never gives up on what it can serve. */
  ghost predicate Generous(base: Base) {
    forall cs, capacity: nat :: capacity < HUGE ==> base(cs, capacity).Some?
  }

  /** A new handle at the end; none for nothing, or when memory has run out. */
  ghost predicate Gained(before: seq<Handle>, after: seq<Handle>, size: nat, base: Base) {
    || (after == before && (size == 0 || !Generous(base)))
    || (size > 0 && |after| == |before| + 1 && after[..|before|] == before && after[|before|].size == size)
  }

  /** What the client finds after one request. */
  ghost predicate Answered(before: seq<Handle>, after: seq<Handle>, request: Request, base: Base) {
    match request
    case Allocate(size) => Gained(before, after, size, base)
    case Reallocate(k, size) =>
      if k >= |before| then Gained(before, after, size, base)
      else if size == 0 then after == before[..k] + before[k + 1..]
      else Changed(before, after, k, size, base)
    case Store(k, bytes) =>
      after == if k < |before| && |bytes| <= before[k].size then before[k := before[k].(bytes := bytes)] else before
    case Reset => after == []
  }

  /** A handle of the new size with the old bytes, as far as they fit; the old handle only when memory has run out. */
  ghost predicate Changed(before: seq<Handle>, after: seq<Handle>, k: nat, size: nat, base: Base)
    requires k < |before|
  {
    || (after == before && !Generous(base))
    || (exists p :: after == before[k := Handle(p, size, Cropped(before[k].bytes, size))])
  }

  /** The handles some run of the requests may lead to, from none. */
  ghost predicate Reached(requests: seq<Request>, hs: seq<Handle>, base: Base)
    decreases |requests|
  {
    if requests == [] then hs == []
    else
      var last := |requests| - 1;
      exists before :: Reached(requests[..last], before, base) && Answered(before, hs, requests[last], base)
  }

  method Serve(a: MemoryPoolAllocator, hs: seq<Handle>, request: Request, base: Base, ghost os: seq<Owner>)
    returns (r: seq<Handle>, ghost rs: seq<Owner>)
    requires a.Valid() && AllHold(a.chunks, a.tiles, a.memory, hs, os) && AllDifferent(os) && Sane(base)
    requires (request.Allocate? || request.Reallocate?) ==> request.size < LARGEST
    modifies a
    ensures a.Valid() && AllHold(a.chunks, a.tiles, a.memory, r, rs) && AllDifferent(rs)
    ensures Answered(hs, r, request, base)
  {
    r, rs := hs, os;
    match request
    case Allocate(size) => r, rs := DoAllocate(a, hs, size, base, os);
    case Reallocate(k, size) =>
      if k >= |hs| {
        r, rs := DoAllocate(a, hs, size, base, os);
      } else if size == 0 {
        r, rs := hs[..k] + hs[k + 1..], os[..k] + os[k + 1..];
      } else {
        r, rs := DoReallocate(a, hs, k, size, base, os);
      }
    case Store(k, bytes) =>
      if k < |hs| && |bytes| <= hs[k].size {
        r := DoStore(a, hs, k, bytes, os);
      }
    case Reset =>
      a.Clear();
      r, rs := [], [];
  }

  /**
   * After any requests, whatever memory the base allocator finds: live blocks are aligned, apart and each
   * inside one chunk, they hold what was stored in them, and the size is the sum of the blocks.
   */
  method Run(requests: seq<Request>, base: Base, a: MemoryPoolAllocator) returns (hs: seq<Handle>)
    requires a.Valid() && Sane(base)
    requires forall i :: 0 <= i < |requests| && (requests[i].Allocate? || requests[i].Reallocate?) ==> requests[i].size < LARGEST
    modifies a
    ensures a.Valid() && Safe(a, hs) && Reached(requests, hs, base)
  {
    hs := [];
    ghost var os: seq<Owner> := [];
    var i := 0;
    HoldingIsSafe(a, hs, os);
    while i < |requests|
      invariant 0 <= i <= |requests|
      invariant Reached(requests[..i], hs, base)
      invariant a.Valid() && AllHold(a.chunks, a.tiles, a.memory, hs, os) && AllDifferent(os)
      invariant Safe(a, hs)
    {
      ghost var before := hs;
      hs, os := Serve(a, hs, requests[i], base, os);
      HoldingIsSafe(a, hs, os);
      assert requests[..i + 1][..i] == requests[..i];
      assert Reached(requests[..i + 1][..i], before, base) && Answered(before, hs, requests[i], base);
      i := i + 1;
    }
    assert requests[..i] == requests;
  }
}
