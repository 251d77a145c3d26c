/** The lidar data queue: a power-of-two ring of packets indexed by wrapping 32-bit counters. */
module Rings {
  import opened Powers

  datatype Packet = Packet(baseTime: nat, points: seq<int>)

  const WRAP: nat := 0x1_0000_0000

  /** The `&` operator on unsigned integers. */
  function BitAnd(x: nat, y: nat): nat {
    if x == 0 || y == 0 then 0
    else 2 * BitAnd(x / 2, y / 2) + (if x % 2 == 1 && y % 2 == 1 then 1 else 0)
  }

  lemma {:induction false} MultipleAtLeast(a: int, m: int)
    requires a >= 1 && m > 0
    ensures a * m >= m
    decreases a
  {
    if a > 1 {
      MultipleAtLeast(a - 1, m);
      assert a * m == (a - 1) * m + m;
    }
  }

  lemma ModUnique(x: int, m: int, q: int, r: int)
    requires m > 0 && x == q * m + r && 0 <= r < m
    ensures x % m == r
  {
    var (q2, r2) := (x / m, x % m);
    assert x == q2 * m + r2;
    assert (q - q2) * m == q * m - q2 * m;
    assert (q2 - q) * m == q2 * m - q * m;
    if q > q2 {
      MultipleAtLeast(q - q2, m);
    } else if q < q2 {
      MultipleAtLeast(q2 - q, m);
    }
  }

  lemma AddMultiple(a: int, t: int, m: int)
    requires m > 0
    ensures (a + t * m) % m == a % m
  {
    assert a == (a / m) * m + a % m;
    assert (a / m + t) * m == (a / m) * m + t * m;
    ModUnique(a + t * m, m, a / m + t, a % m);
  }

  lemma HalfMod(x: nat, p: nat)
    requires p > 0
    ensures x % (2 * p) == 2 * ((x / 2) % p) + x % 2
  {
    var (q, r) := ((x / 2) / p, (x / 2) % p);
    assert x / 2 == q * p + r;
    assert q * (2 * p) == 2 * (q * p);
    ModUnique(x, 2 * p, q, 2 * r + x % 2);
  }

  lemma {:induction false} MaskIsMod(x: nat, k: nat)
    ensures BitAnd(x, Pow2(k) - 1) == x % Pow2(k)
    decreases k
  {
    if k > 0 {
      var p := Pow2(k - 1);
      MaskIsMod(x / 2, k - 1);
      HalfMod(x, p);
      assert (2 * p - 1) / 2 == p - 1 && (2 * p - 1) % 2 == 1;
      BitAndHalves(x, 2 * p - 1);
    }
  }

  lemma BitAndHalves(x: nat, y: nat)
    ensures BitAnd(x, y) == 2 * BitAnd(x / 2, y / 2) + (if x % 2 == 1 && y % 2 == 1 then 1 else 0)
  {
  }

  /** The power-of-two test: the size and the number below it share no bit. */
  predicate IsPowerOf2(size: nat) {
    size != 0 && BitAnd(size, size - 1) == 0
  }

  ghost predicate IsAPower(n: nat) {
    exists k: nat :: n == Pow2(k)
  }

  lemma PowerIntro(n: nat, k: nat)
    requires n == Pow2(k)
    ensures IsAPower(n)
  {
  }

  lemma OneIsAPower()
    ensures IsAPower(1)
  {
    PowerIntro(1, 0);
  }

  lemma EvenPower(n: nat)
    requires n > 0
    ensures IsAPower(2 * n) <==> IsAPower(n)
  {
    if IsAPower(n) {
      var k: nat :| n == Pow2(k);
      PowerIntro(2 * n, k + 1);
    }
    if IsAPower(2 * n) {
      var k: nat :| 2 * n == Pow2(k);
      if k > 0 {
        PowerIntro(n, k - 1);
      }
    }
  }

  lemma OddPower(n: nat)
    requires n % 2 == 1 && IsAPower(n)
    ensures n == 1
  {
    var k: nat :| n == Pow2(k);
    OnlyOneIsOdd(k);
  }

  lemma OnlyOneIsOdd(k: nat)
    ensures k == 0 || Pow2(k) % 2 == 0
  {
  }

  lemma {:induction false} IsPowerOf2Exact(size: nat)
    ensures IsPowerOf2(size) <==> IsAPower(size)
    decreases size
  {
    if size == 1 {
      OneIsAPower();
    } else if size > 0 && size % 2 == 0 {
      IsPowerOf2Exact(size / 2);
      EvenPower(size / 2);
      BitAndHalves(size, size - 1);
      assert (size - 1) / 2 == size / 2 - 1;
    } else if size > 0 {
      SharesAllBits(size / 2);
      BitAndHalves(size, size - 1);
      assert (size - 1) / 2 == size / 2;
      if IsAPower(size) {
        OddPower(size);
      }
    }
  }

  lemma {:induction false} SharesAllBits(x: nat)
    ensures BitAnd(x, x) == x
  {
    if x > 0 {
      SharesAllBits(x / 2);
    }
  }

  /** The least power of two that is at least the size, up to 2^31; above that, 2^31, which is less. */
  method RoundupPowerOf2(size: nat) returns (r: nat)
    requires size < WRAP
    ensures IsPowerOf2(r) && r <= 0x8000_0000
    ensures size <= r <==> size <= 0x8000_0000
    ensures forall p :: IsPowerOf2(p) && size <= p ==> r <= p
  {
    ghost var k := 0;
    r := 0;
    Pow2Of31();
    var i := 0;
    while i < 32
      invariant 0 <= i <= 32
      invariant i > 0 ==> r == Pow2(i - 1) && size > r
    {
      r := Pow2(i);
      if size <= r {
        break;
      }
      i := i + 1;
    }
    k := if i < 32 then i else 31;
    IsPowerOf2Exact(r);
    PowerIntro(r, k);
    if k < 31 {
      Pow2Grows(k, 31);
    }
    forall p | IsPowerOf2(p) && size <= p
      ensures r <= p
    {
      IsPowerOf2Exact(p);
      var j: nat :| p == Pow2(j);
      if j < k {
        if j < k - 1 {
          Pow2Grows(j, k - 1);
        }
      } else if j > k {
        Pow2Grows(k, j);
      }
    }
  }

  // ------------------------------------------------------------------ ring

  /** The queue as a value. */
  datatype Ring = Ring(slots: seq<Packet>, rd: nat, wr: nat)

  predicate IsSize(size: nat) {
    exists k: nat :: k <= 31 && size == Pow2(k)
  }

  /** How far the write index is ahead of the read index, across wrap-around. */
  function Used(r: Ring): (n: nat)
    ensures n < WRAP
  {
    (r.wr - r.rd) % WRAP
  }

  ghost predicate Proper(r: Ring) {
    IsSize(|r.slots|) && r.rd < WRAP && r.wr < WRAP && Used(r) <= |r.slots|
  }

  /** The packets in the queue, oldest first. */
  function Contents(r: Ring): (s: seq<Packet>)
    requires |r.slots| > 0
    ensures |s| == Used(r)
  {
    seq(Used(r), i requires 0 <= i < Used(r) => r.slots[(r.rd + i) % |r.slots|])
  }

  /** The write index moves on. */
  function Bumped(r: Ring): Ring {
    r.(wr := (r.wr + 1) % WRAP)
  }

  /** The read index moves on. */
  function Popped(r: Ring): Ring {
    r.(rd := (r.rd + 1) % WRAP)
  }

  function Stored(r: Ring, p: Packet): Ring
    requires |r.slots| > 0
  {
    r.(slots := r.slots[r.wr % |r.slots| := p])
  }

  lemma SizeDivides(size: nat)
    requires IsSize(size)
    ensures 1 <= size <= 0x8000_0000 && exists m: nat :: WRAP == size * m
  {
    var k: nat :| k <= 31 && size == Pow2(k);
    Pow2Of31();
    Pow2Divides(k, 32);
    assert WRAP == size * Pow2(32 - k);
    if k < 31 {
      Pow2Grows(k, 31);
    }
  }

  /** Wrapping an index at 2^32 does not change its slot, nor those after it. */
  lemma WrapKeepsSlot(x: nat, i: nat, size: nat)
    requires IsSize(size)
    ensures size > 0 && (x % WRAP + i) % size == (x + i) % size
  {
    SizeDivides(size);
    var m: nat :| WRAP == size * m;
    var q := x / WRAP;
    assert x + i == x % WRAP + i + (q * m) * size by {
      assert q * WRAP == (q * m) * size;
    }
    AddMultiple(x % WRAP + i, q * m, size);
  }

  /** Indices less than a ring apart use different slots. */
  lemma SlotsDiffer(x: nat, y: nat, size: nat)
    requires 0 < size && x < y < x + size
    ensures x % size != y % size
  {
    var (a, d) := (x % size, y - x);
    if a + d < size {
      ModUnique(y, size, x / size, a + d);
    } else {
      assert (x / size + 1) * size == (x / size) * size + size;
      ModUnique(y, size, x / size + 1, a + d - size);
    }
  }

  lemma WriteSlot(r: Ring)
    requires Proper(r)
    ensures r.wr % |r.slots| == (r.rd + Used(r)) % |r.slots|
  {
    assert (r.rd + Used(r)) % WRAP == r.wr;
    WrapKeepsSlot(r.rd + Used(r), 0, |r.slots|);
  }

  /** Storing into a ring that is not full leaves what it holds alone. */
  lemma StoringIsInvisible(r: Ring, p: Packet)
    requires Proper(r) && Used(r) < |r.slots|
    ensures Proper(Stored(r, p)) && Contents(Stored(r, p)) == Contents(r)
  {
    WriteSlot(r);
    forall i | 0 <= i < Used(r)
      ensures Contents(Stored(r, p))[i] == Contents(r)[i]
    {
      SlotsDiffer(r.rd + i, r.rd + Used(r), |r.slots|);
    }
  }

  lemma UsedMoves(r: Ring)
    requires r.rd < WRAP && r.wr < WRAP
    ensures Used(r) + 1 < WRAP ==> Used(Bumped(r)) == Used(r) + 1
    ensures Used(r) > 0 ==> Used(Popped(r)) == Used(r) - 1
  {
  }

  /** Moving the write index appends what its slot holds. */
  lemma BumpingAppends(r: Ring)
    requires Proper(r) && Used(r) < |r.slots|
    ensures Proper(Bumped(r)) && Contents(Bumped(r)) == Contents(r) + [r.slots[r.wr % |r.slots|]]
  {
    SizeDivides(|r.slots|);
    WriteSlot(r);
    UsedMoves(r);
  }

  /** Moving the read index removes the oldest packet. */
  lemma PoppingRemoves(r: Ring)
    requires Proper(r) && Used(r) > 0
    ensures Proper(Popped(r)) && Contents(Popped(r)) == Contents(r)[1..]
    ensures Contents(r)[0] == r.slots[r.rd % |r.slots|]
  {
    UsedMoves(r);
    forall i | 0 <= i < Used(r) - 1
      ensures Contents(Popped(r))[i] == Contents(r)[1..][i]
    {
      WrapKeepsSlot(r.rd + 1, i, |r.slots|);
      assert r.rd + 1 + i == r.rd + (i + 1);
    }
  }

  /** While a packet is being written and another read, the slots are different. */
  lemma WriterMissesReader(r: Ring)
    requires Proper(r) && 0 < Used(r) < |r.slots|
    ensures r.wr % |r.slots| != r.rd % |r.slots|
  {
    WriteSlot(r);
    SlotsDiffer(r.rd, r.rd + Used(r), |r.slots|);
  }

  /** The code's masked index is the slot. */
  lemma MaskedIndex(r: Ring, x: nat)
    requires Proper(r)
    ensures |r.slots| > 0 && BitAnd(x, |r.slots| - 1) == x % |r.slots|
  {
    var k: nat :| k <= 31 && |r.slots| == Pow2(k);
    MaskIsMod(x, k);
  }
}
