/** The queue operations on their shared structure. */
module LidarQueue {
  import opened Powers
  import opened Rings
  import opened Sequences

  class LidarDataQueue {
    var storage: array?<Packet>     // null before the first push
    var rd: nat
    var wr: nat
    var mask: nat
    var size: nat

    ghost predicate Valid()
      reads this, storage
    {
      && storage != null
      && size == storage.Length
      && mask == size - 1
      && Proper(AsRing())
    }

    ghost function AsRing(): Ring
      requires storage != null
      reads this, storage
    {
      Ring(storage[..], rd, wr)
    }

    /** What is in the queue, oldest first. */
    ghost function Queued(): (s: seq<Packet>)
      requires Valid()
      reads this, storage
    {
      Contents(AsRing())
    }

    constructor ()
      ensures storage == null && rd == wr == 0
    {
      storage := null;
      rd, wr, mask, size := 0, 0, 0, 0;
    }

    /** A fresh ring of the least power of two that holds the request, when 32 bits can hold it. */
    method InitQueue(queueSize: nat)
      requires queueSize < WRAP
      modifies this
      ensures Valid() && fresh(storage) && Queued() == []
      ensures LeastPower(size, queueSize)
    {
      var n := RingSize(queueSize);
      storage := new Packet[n](_ => Packet(0, []));
      rd := 0;
      wr := 0;
      size := n;
      mask := n - 1;
      EmptyIsProper(storage[..]);
    }

    /** More packets than the mask are in use. */
    method IsFull() returns (full: bool)
      requires Valid()
      ensures full <==> |Queued()| == size
    {
      full := (wr - rd) % WRAP > mask;
    }

    method IsEmpty() returns (empty: bool)
      requires Valid()
      ensures empty <==> Queued() == []
    {
      empty := rd == wr;
    }

    method UsedSize() returns (n: nat)
      requires Valid()
      ensures n == |Queued()| <= size
    {
      n := (wr - rd) % WRAP;
    }

    /** Copies a packet into the slot of the write index, then moves the index. */
    method PushAny(p: Packet)
      requires Valid() && |Queued()| < size
      modifies this`wr, storage
      ensures Valid() && Queued() == old(Queued()) + [p]
    {
      ghost var was := AsRing();
      MaskedIndex(was, wr);
      StoringIsInvisible(was, p);
      var i := BitAnd(wr, mask);
      storage[i] := p;
      assert AsRing() == Stored(was, p);
      BumpingAppends(AsRing());
      wr := (wr + 1) % WRAP;
    }

    /** Copies the oldest packet out. */
    method PrePop() returns (p: Packet, ok: bool)
      requires Valid()
      ensures ok <==> Queued() != []
      ensures ok ==> p == Queued()[0]
    {
      var empty := IsEmpty();
      if empty {
        return Packet(0, []), false;
      }
      PoppingRemoves(AsRing());
      MaskedIndex(AsRing(), rd);
      var i := BitAnd(rd, mask);
      return storage[i], true;
    }

    method PopUpdate()
      requires Valid() && Queued() != []
      modifies this`rd
      ensures Valid() && Queued() == old(Queued())[1..]
    {
      PoppingRemoves(AsRing());
      rd := (rd + 1) % WRAP;
    }

    method Pop() returns (p: Packet, ok: bool)
      requires Valid()
      modifies this`rd
      ensures Valid() && (ok <==> old(Queued()) != [])
      ensures if ok then [p] + Queued() == old(Queued()) else Queued() == []
    {
      p, ok := PrePop();
      if ok {
        PopUpdate();
      }
    }

    /** Empties the queue; packets without points are skipped, the others are published in order. */
    method Publish() returns (published: seq<Packet>)
      requires Valid()
      modifies this`rd
      ensures Valid() && Queued() == []
      ensures published == NonEmpty(old(Queued()))
    {
      published := [];
      ghost var before := Queued();
      ghost var taken := [];
      var empty := IsEmpty();
      while !empty
        invariant Valid() && (empty <==> Queued() == [])
        invariant before == taken + Queued() && published == NonEmpty(taken)
        decreases |Queued()|
      {
        ghost var rest := Queued();
        var p, ok := Pop();
        assert rest == [p] + Queued();
        NonEmptyAppend(taken, p);
        Joins3(taken, [p], Queued());
        taken := taken + [p];
        if p.points != [] {
          published := published + [p];
        }
        empty := IsEmpty();
      }
      assert before == taken;
    }
  }

  /** No power of two that holds the request is less; this one holds it if it is at most 2^31. */
  ghost predicate LeastPower(n: nat, request: nat) {
    && IsPowerOf2(n)
    && (request <= n <==> request <= 0x8000_0000)
    && forall p :: IsPowerOf2(p) && request <= p ==> n <= p
  }

  method RingSize(request: nat) returns (n: nat)
    requires request < WRAP
    ensures LeastPower(n, request) && IsSize(n) && n >= 1
  {
    n := request;
    if !IsPowerOf2(request) {
      n := RoundupPowerOf2(request);
    }
    PowerIsSize(n);
    SizeDivides(n);
  }

  lemma EmptyIsProper(slots: seq<Packet>)
    requires IsSize(|slots|) && |slots| >= 1
    ensures Proper(Ring(slots, 0, 0)) && Contents(Ring(slots, 0, 0)) == []
  {
  }

  lemma PowerIsSize(n: nat)
    requires IsPowerOf2(n) && n < WRAP
    ensures IsSize(n)
  {
    IsPowerOf2Exact(n);
    var k: nat :| n == Pow2(k);
    Pow2Of31();
    if k > 32 {
      Pow2Grows(32, k);
    }
  }

  /** The packets that hold points. */
  function NonEmpty(ps: seq<Packet>): seq<Packet> {
    if ps == [] then []
    else (if ps[0].points == [] then [] else [ps[0]]) + NonEmpty(ps[1..])
  }

  lemma {:induction false} NonEmptyAppend(ps: seq<Packet>, p: Packet)
    ensures NonEmpty(ps + [p]) == NonEmpty(ps) + (if p.points == [] then [] else [p])
    decreases |ps|
  {
    if ps == [] {
      assert ps + [p] == [p] && [p][1..] == [];
    } else {
      assert (ps + [p])[0] == ps[0] && (ps + [p])[1..] == ps[1..] + [p];
      NonEmptyAppend(ps[1..], p);
    }
  }
}
