/** The point-cloud pipeline: two threads whose reads and writes of shared memory interleave at will. */
module Pipeline {
  import opened Bytes
  import opened Rings

  /** `ready` is false until the first push makes the queue. */
  datatype Lidar = Lidar(sampling: bool, ready: bool, ring: Ring)

  /** Where the storing thread stands; each names the lidar it serves. */
  datatype Producer =
    | Idle
    | Checking(i: nat, packet: Packet)     // before the test for a full queue
    | Filling(i: nat, packet: Packet)      // before copying into the slot
    | Copying(i: nat, packet: Packet)      // the slot is half written
    | Advancing(i: nat, packet: Packet)    // before moving the write index
    | Testing(i: nat)                      // before the test for an empty queue
    | Asking(i: nat)                       // before reading the semaphore's count
    | Signalling(i: nat)                   // before raising it

  /** Where the draining thread stands. */
  datatype Consumer =
    | Waiting
    | Visiting(k: nat)                     // before looking at lidar `k`
    | Polling(k: nat)                      // before the outer test for an empty queue
    | Draining(k: nat)                     // before the inner test
    | Popping(k: nat)                      // before the test inside the pop
    | Reading(k: nat)                      // the slot is being copied out
    | Releasing(k: nat, packet: Packet)    // before moving the read index

  /** A packet handed over for storing, and whether the queue had room for it. */
  datatype Offer = Offer(packet: Packet, room: bool)

  /** What happened so far, for each lidar; no thread reads these. */
  datatype Log = Log(offers: seq<Offer>, popped: seq<Packet>, watched: bool)

  /** The packets that found room. */
  function Accepted(offers: seq<Offer>): seq<Packet> {
    if offers == [] then []
    else
      var last := offers[|offers| - 1];
      Accepted(offers[..|offers| - 1]) + (if last.room then [last.packet] else [])
  }

  function Packets(offers: seq<Offer>): seq<Packet> {
    seq(|offers|, i requires 0 <= i < |offers| => offers[i].packet)
  }

  datatype State = State(lidars: seq<Lidar>, count: int, producer: Producer, consumer: Consumer, logs: seq<Log>)

  datatype Action =
    | Store(lidar: nat, packet: Packet)    // a packet arrives
    | Produce(junk: Packet)                // the storing thread takes a step
    | Consume                              // the draining thread takes a step
    | Connect(lidar: nat)                  // a lidar starts sampling

  function Start(n: nat): State {
    State(seq(n, _ => Lidar(false, false, Ring([], 0, 0))), 0, Idle, Waiting, seq(n, _ => Log([], [], false)))
  }

  function SetLidar(s: State, i: nat, l: Lidar): State
    requires i < |s.lidars|
  {
    s.(lidars := s.lidars[i := l])
  }

  function SetLog(s: State, i: nat, g: Log): State
    requires i < |s.logs|
  {
    s.(logs := s.logs[i := g])
  }

  predicate Formed(s: State, n: nat) {
    && |s.lidars| == n && |s.logs| == n
    && (s.producer != Idle ==> s.producer.i < n && s.lidars[s.producer.i].ready)
    && (s.consumer.Visiting? ==> s.consumer.k <= n)
    && (s.consumer != Waiting && !s.consumer.Visiting? ==> s.consumer.k < n && s.lidars[s.consumer.k].ready)
    && forall i :: 0 <= i < n && s.lidars[i].ready ==> |s.lidars[i].ring.slots| > 0
  }

  /** A packet for a lidar: its queue is made if there is none. */
  function StoreStep(s: State, i: nat, p: Packet, size: nat): State
    requires i < |s.lidars|
  {
    var l := s.lidars[i];
    var made := if l.ready then l else l.(ready := true, ring := Ring(seq(size, _ => Packet(0, [])), 0, 0));
    SetLidar(s, i, made).(producer := Checking(i, p))
  }

  function ProduceStep(s: State, n: nat, junk: Packet): State
    requires Formed(s, n)
  {
    var p := s.producer;
    if p.Idle? then s
    else
      var l := s.lidars[p.i];
      var r := l.ring;
      match p
      case Checking(i, packet) =>
        var full := Used(r) > |r.slots| - 1;
        var seen := SetLog(s, i, s.logs[i].(watched := l.sampling, offers := s.logs[i].offers + [Offer(packet, !full)]));
        seen.(producer := if full then Asking(i) else Filling(i, packet))
      case Filling(i, packet) => SetLidar(s, i, l.(ring := Stored(r, junk))).(producer := Copying(i, packet))
      case Copying(i, packet) => SetLidar(s, i, l.(ring := Stored(r, packet))).(producer := Advancing(i, packet))
      case Advancing(i, _) => SetLidar(s, i, l.(ring := Bumped(r))).(producer := Testing(i))
      case Testing(i) => s.(producer := if r.rd == r.wr then Idle else Asking(i))
      case Asking(i) => s.(producer := if s.count <= 0 then Signalling(i) else Idle)
      case Signalling(i) => s.(count := s.count + 1, producer := Idle)
  }

  function ConsumeStep(s: State, n: nat): State
    requires Formed(s, n)
  {
    match s.consumer
    case Waiting => if s.count > 0 then s.(count := s.count - 1, consumer := Visiting(0)) else s
    case Visiting(k) =>
      if k == n then s.(consumer := Waiting)
      else if s.lidars[k].sampling && s.lidars[k].ready then s.(consumer := Polling(k))
      else s.(consumer := Visiting(k + 1))
    case Polling(k) => s.(consumer := if Empty(s, k) then Visiting(k + 1) else Draining(k))
    case Draining(k) => s.(consumer := if Empty(s, k) then Polling(k) else Popping(k))
    case Popping(k) => s.(consumer := if Empty(s, k) then Draining(k) else Reading(k))
    case Reading(k) =>
      var r := s.lidars[k].ring;
      s.(consumer := Releasing(k, r.slots[r.rd % |r.slots|]))
    case Releasing(k, packet) =>
      var l := s.lidars[k];
      SetLog(SetLidar(s, k, l.(ring := Popped(l.ring))), k, s.logs[k].(popped := s.logs[k].popped + [packet]))
        .(consumer := Draining(k))
  }

  predicate Empty(s: State, k: nat)
    requires k < |s.lidars|
  {
    s.lidars[k].ring.rd == s.lidars[k].ring.wr
  }

  function Next(s: State, n: nat, size: nat, a: Action): State
    requires Formed(s, n)
  {
    match a
    case Store(i, packet) => if s.producer == Idle && i < n then StoreStep(s, i, packet, size) else s
    case Produce(junk) => ProduceStep(s, n, junk)
    case Consume => ConsumeStep(s, n)
    case Connect(i) => if i < n then SetLidar(s, i, s.lidars[i].(sampling := true)) else s
  }

  // -------------------------------------------------------------- invariant

  /** The packet that found room but is not in the queue yet. */
  function InFlight(p: Producer, i: nat): seq<Packet> {
    if Claims(p) && p.i == i then [p.packet] else []
  }

  /** A queue and its log: what found room is what was popped, what is queued, and what is being stored. */
  ghost predicate Kept(s: State, i: nat, size: nat)
    requires i < |s.lidars| == |s.logs|
  {
    var (l, g) := (s.lidars[i], s.logs[i]);
    if l.ready then
      |l.ring.slots| == size && Proper(l.ring)
      && Accepted(g.offers) == g.popped + (Contents(l.ring) + InFlight(s.producer, i))
    else l.ring.rd == l.ring.wr && g == Log([], [], false)
  }

  ghost predicate AllKept(s: State, n: nat, size: nat) {
    Formed(s, n) && forall i :: 0 <= i < n ==> Kept(s, i, size)
  }

  /** Between the test and the move of the write index there is a free slot. */
  predicate Claims(p: Producer) {
    p.Filling? || p.Copying? || p.Advancing?
  }

  /** Between the test and the move of the read index there is a packet. */
  predicate Holds(c: Consumer) {
    c.Reading? || c.Releasing?
  }

  ghost predicate Room(s: State, n: nat, size: nat)
    requires Formed(s, n)
  {
    && (Claims(s.producer) ==> Used(s.lidars[s.producer.i].ring) < size)
    && (s.producer.Advancing? ==>
          var r := s.lidars[s.producer.i].ring; |r.slots| > 0 && s.producer.packet == r.slots[r.wr % |r.slots|])
    && (Holds(s.consumer) ==> Used(s.lidars[s.consumer.k].ring) > 0)
    && (s.consumer.Releasing? ==>
          var r := s.lidars[s.consumer.k].ring; |r.slots| > 0 && s.consumer.packet == r.slots[r.rd % |r.slots|])
  }

  /** The draining thread has yet to look at the lidar on this round. */
  predicate WillVisit(c: Consumer, i: nat) {
    c != Waiting && c.k <= i
  }

  /** The storing thread is past the full test for this lidar, and will ask for a signal unless it is drained. */
  predicate Pending(p: Producer, i: nat) {
    p != Idle && !p.Checking? && p.i == i
  }

  /** Nobody has forgotten a packet of this lidar. */
  predicate Attended(s: State, i: nat)
    requires i < |s.lidars| == |s.logs|
  {
    s.logs[i].watched && !Empty(s, i) ==> s.count > 0 || WillVisit(s.consumer, i) || Pending(s.producer, i)
  }

  ghost predicate Awake(s: State, n: nat)
    requires Formed(s, n)
  {
    && 0 <= s.count <= 1
    && (s.producer.Signalling? ==> s.count == 0)
    && (forall i :: 0 <= i < n && s.logs[i].watched ==> s.lidars[i].sampling && s.lidars[i].ready)
    && forall i :: 0 <= i < n ==> Attended(s, i)
  }

  ghost predicate Invariant(s: State, n: nat, size: nat) {
    AllKept(s, n, size) && Room(s, n, size) && Awake(s, n)
  }

  // ----------------------------------------------- every step preserves it

  lemma StartHolds(n: nat, size: nat)
    ensures Invariant(Start(n), n, size)
  {
  }

  lemma StoreKeeps(s: State, n: nat, size: nat, i: nat, p: Packet)
    requires IsSize(size) && Invariant(s, n, size) && s.producer == Idle && i < n
    ensures Invariant(StoreStep(s, i, p, size), n, size)
  {
    SizeDivides(size);
    var t := StoreStep(s, i, p, size);
    assert Kept(s, i, size);
    assert Kept(t, i, size);
    forall j | 0 <= j < n
      ensures Kept(t, j, size) && Attended(t, j)
    {
      assert Kept(s, j, size) && Attended(s, j);
    }
  }

  lemma ConnectKeeps(s: State, n: nat, size: nat, i: nat)
    requires Invariant(s, n, size) && i < n
    ensures Invariant(SetLidar(s, i, s.lidars[i].(sampling := true)), n, size)
  {
    var t := SetLidar(s, i, s.lidars[i].(sampling := true));
    forall j | 0 <= j < n
      ensures Kept(t, j, size) && Attended(t, j)
    {
      assert Kept(s, j, size) && Attended(s, j);
    }
  }

  /** A step that changes no queue and no log. */
  lemma QuietKeeps(s: State, t: State, n: nat, size: nat)
    requires AllKept(s, n, size) && t.lidars == s.lidars && t.logs == s.logs && Formed(t, n)
    requires Claims(s.producer) || Claims(t.producer) ==> s.producer == t.producer
    ensures AllKept(t, n, size)
  {
    forall j | 0 <= j < n
      ensures Kept(t, j, size)
    {
      assert Kept(s, j, size);
    }
  }

  lemma CheckingKeeps(s: State, n: nat, size: nat, junk: Packet)
    requires IsSize(size) && Invariant(s, n, size) && s.producer.Checking?
    ensures Invariant(ProduceStep(s, n, junk), n, size)
  {
    SizeDivides(size);
    var t := ProduceStep(s, n, junk);
    var i := s.producer.i;
    OfferGrows(s.logs[i].offers, t.logs[i].offers[|s.logs[i].offers|]);
    assert Kept(s, i, size);
    EndWith(s.logs[i].popped, Contents(s.lidars[i].ring), InFlight(t.producer, i));
    forall j | 0 <= j < n
      ensures Kept(t, j, size) && Attended(t, j)
    {
      assert Kept(s, j, size) && Attended(s, j);
    }
  }

  lemma OfferGrows(offers: seq<Offer>, o: Offer)
    ensures Accepted(offers + [o]) == Accepted(offers) + (if o.room then [o.packet] else [])
    ensures Packets(offers + [o]) == Packets(offers) + [o.packet]
  {
    assert (offers + [o])[..|offers|] == offers;
  }

  lemma EndWith(popped: seq<Packet>, queue: seq<Packet>, flight: seq<Packet>)
    ensures (popped + (queue + [])) + flight == popped + (queue + flight)
  {
    assert queue + [] == queue;
  }

  /** Writing the slot of the write index. */
  lemma WritingKeeps(s: State, n: nat, size: nat, packet: Packet, next: Producer)
    requires IsSize(size) && Invariant(s, n, size) && Claims(s.producer)
    requires (next.Copying? || next.Advancing?) && next.i == s.producer.i && next.packet == s.producer.packet
    requires next.Advancing? ==> packet == next.packet
    ensures var (i, l) := (s.producer.i, s.lidars[s.producer.i]);
      Invariant(SetLidar(s, i, l.(ring := Stored(l.ring, packet))).(producer := next), n, size)
  {
    SizeDivides(size);
    var i := s.producer.i;
    var l := s.lidars[i];
    var t := SetLidar(s, i, l.(ring := Stored(l.ring, packet))).(producer := next);
    assert Kept(s, i, size);
    StoringIsInvisible(l.ring, packet);
    if Holds(s.consumer) && s.consumer.k == i {
      WriterMissesReader(l.ring);
    }
    forall j | 0 <= j < n
      ensures Kept(t, j, size) && Attended(t, j)
    {
      assert Kept(s, j, size) && Attended(s, j);
    }
  }

  lemma AdvancingKeeps(s: State, n: nat, size: nat, junk: Packet)
    requires IsSize(size) && Invariant(s, n, size) && s.producer.Advancing?
    ensures Invariant(ProduceStep(s, n, junk), n, size)
  {
    SizeDivides(size);
    var i := s.producer.i;
    var r := s.lidars[i].ring;
    var t := ProduceStep(s, n, junk);
    assert Kept(s, i, size);
    BumpingAppends(r);
    UsedMoves(r);
    assert Contents(r) + [s.producer.packet] == Contents(Bumped(r)) + [];
    forall j | 0 <= j < n
      ensures Kept(t, j, size) && Attended(t, j)
    {
      assert Kept(s, j, size) && Attended(s, j);
    }
  }

  /** The tests that decide on a signal, and the signal. */
  lemma SignallingKeeps(s: State, n: nat, size: nat, junk: Packet)
    requires Invariant(s, n, size) && (s.producer.Testing? || s.producer.Asking? || s.producer.Signalling?)
    ensures Invariant(ProduceStep(s, n, junk), n, size)
  {
    var t := ProduceStep(s, n, junk);
    QuietKeeps(s, t, n, size);
    forall j | 0 <= j < n
      ensures Attended(t, j)
    {
      assert Attended(s, j);
    }
  }

  lemma ProduceKeeps(s: State, n: nat, size: nat, junk: Packet)
    requires IsSize(size) && Invariant(s, n, size)
    ensures Invariant(ProduceStep(s, n, junk), n, size)
  {
    var p := s.producer;
    if p.Checking? {
      CheckingKeeps(s, n, size, junk);
    } else if p.Filling? {
      WritingKeeps(s, n, size, junk, Copying(p.i, p.packet));
    } else if p.Copying? {
      WritingKeeps(s, n, size, p.packet, Advancing(p.i, p.packet));
    } else if p.Advancing? {
      AdvancingKeeps(s, n, size, junk);
    } else if p != Idle {
      SignallingKeeps(s, n, size, junk);
    }
  }

  lemma WaitingKeeps(s: State, n: nat, size: nat)
    requires Invariant(s, n, size) && s.consumer == Waiting
    ensures Invariant(ConsumeStep(s, n), n, size)
  {
    var t := ConsumeStep(s, n);
    QuietKeeps(s, t, n, size);
    forall j | 0 <= j < n
      ensures Attended(t, j)
    {
      assert Attended(s, j);
    }
  }

  /** Looking at lidars and testing queues: a lidar is left behind only if it is unwatched or empty. */
  lemma LookingKeeps(s: State, n: nat, size: nat)
    requires Invariant(s, n, size) && s.consumer != Waiting && !Holds(s.consumer)
    ensures Invariant(ConsumeStep(s, n), n, size)
  {
    var t := ConsumeStep(s, n);
    if s.consumer.Popping? {
      assert Kept(s, s.consumer.k, size);
    }
    QuietKeeps(s, t, n, size);
    forall j | 0 <= j < n
      ensures Attended(t, j)
    {
      assert Attended(s, j) && Kept(s, j, size);
    }
  }

  lemma ReadingKeeps(s: State, n: nat, size: nat)
    requires Invariant(s, n, size) && s.consumer.Reading?
    ensures Invariant(ConsumeStep(s, n), n, size)
  {
    var t := ConsumeStep(s, n);
    QuietKeeps(s, t, n, size);
    forall j | 0 <= j < n
      ensures Attended(t, j)
    {
      assert Attended(s, j);
    }
  }

  lemma PopMoves(popped: seq<Packet>, p: Packet, queue: seq<Packet>, flight: seq<Packet>)
    ensures popped + (([p] + queue) + flight) == (popped + [p]) + (queue + flight)
  {
  }

  lemma ReleasingKeeps(s: State, n: nat, size: nat)
    requires IsSize(size) && Invariant(s, n, size) && s.consumer.Releasing?
    ensures Invariant(ConsumeStep(s, n), n, size)
  {
    SizeDivides(size);
    var k := s.consumer.k;
    var (l, g) := (s.lidars[k], s.logs[k]);
    var t := ConsumeStep(s, n);
    assert Kept(s, k, size);
    PoppingRemoves(l.ring);
    UsedMoves(l.ring);
    PopMoves(g.popped, s.consumer.packet, Contents(Popped(l.ring)), InFlight(s.producer, k));
    assert Contents(l.ring) == [s.consumer.packet] + Contents(Popped(l.ring));
    forall j | 0 <= j < n
      ensures Kept(t, j, size) && Attended(t, j)
    {
      assert Kept(s, j, size) && Attended(s, j);
    }
  }

  lemma NextKeeps(s: State, n: nat, size: nat, a: Action)
    requires IsSize(size) && Invariant(s, n, size)
    ensures Invariant(Next(s, n, size, a), n, size)
  {
    match a
    case Store(i, packet) =>
      if s.producer == Idle && i < n {
        StoreKeeps(s, n, size, i, packet);
      }
    case Produce(junk) => ProduceKeeps(s, n, size, junk);
    case Connect(i) =>
      if i < n {
        ConnectKeeps(s, n, size, i);
      }
    case Consume =>
      if s.consumer == Waiting {
        WaitingKeeps(s, n, size);
      } else if s.consumer.Reading? {
        ReadingKeeps(s, n, size);
      } else if s.consumer.Releasing? {
        ReleasingKeeps(s, n, size);
      } else {
        LookingKeeps(s, n, size);
      }
  }

  // ------------------------------------------------------------------- runs

  /** States reachable from the start by some interleaving. */
  ghost predicate Reaches(n: nat, size: nat, actions: seq<Action>, s: State)
    decreases |actions|
  {
    if actions == [] then s == Start(n)
    else
      var last := |actions| - 1;
      exists was :: Reaches(n, size, actions[..last], was) && Formed(was, n) && s == Next(was, n, size, actions[last])
  }

  lemma {:induction false} InvariantHolds(n: nat, size: nat, actions: seq<Action>, s: State)
    requires IsSize(size) && Reaches(n, size, actions, s)
    ensures Invariant(s, n, size)
    decreases |actions|
  {
    if actions == [] {
      StartHolds(n, size);
    } else {
      var last := |actions| - 1;
      var was :| Reaches(n, size, actions[..last], was) && Formed(was, n) && s == Next(was, n, size, actions[last]);
      InvariantHolds(n, size, actions[..last], was);
      NextKeeps(was, n, size, actions[last]);
    }
  }

  /** Every interleaving leads somewhere. */
  lemma {:induction false} RunsContinue(n: nat, size: nat, actions: seq<Action>, s: State, a: Action)
    requires IsSize(size) && Reaches(n, size, actions, s)
    ensures Formed(s, n) && Reaches(n, size, actions + [a], Next(s, n, size, a))
  {
    InvariantHolds(n, size, actions, s);
    assert (actions + [a])[..|actions|] == actions;
  }

  lemma WatchedIsDrained(s: State, n: nat, size: nat, i: nat)
    requires Invariant(s, n, size) && i < n && s.logs[i].watched
    requires (s.producer.Idle? || s.producer.Checking?) && s.consumer == Waiting && s.count == 0
    ensures Empty(s, i) && s.logs[i].popped == Accepted(s.logs[i].offers)
  {
    assert Attended(s, i) && Kept(s, i, size);
  }

  /**
   * No lost wakeup: when the storing thread is between packets and the draining thread is blocked, the
   * queue of every lidar that was sampling at its last packet is empty.  The semaphore stays binary.
   */
  lemma NoLostWakeup(n: nat, size: nat, actions: seq<Action>, s: State)
    requires IsSize(size) && Reaches(n, size, actions, s)
    ensures |s.lidars| == |s.logs| == n && 0 <= s.count <= 1
    ensures (s.producer.Idle? || s.producer.Checking?) && s.consumer == Waiting && s.count == 0 ==>
      forall i :: 0 <= i < n && s.logs[i].watched ==> Empty(s, i) && s.logs[i].popped == Accepted(s.logs[i].offers)
  {
    InvariantHolds(n, size, actions, s);
    if (s.producer.Idle? || s.producer.Checking?) && s.consumer == Waiting && s.count == 0 {
      forall i | 0 <= i < n && s.logs[i].watched
        ensures Empty(s, i) && s.logs[i].popped == Accepted(s.logs[i].offers)
      {
        WatchedIsDrained(s, n, size, i);
      }
    }
  }

  /** The packets that `Store` actions handed over for a lidar, those that came while another was being stored apart. */
  ghost predicate Offered(n: nat, size: nat, actions: seq<Action>, i: nat, ps: seq<Packet>)
    decreases |actions|
  {
    if actions == [] then ps == []
    else
      var last := |actions| - 1;
      exists was, before :: Reaches(n, size, actions[..last], was) && Offered(n, size, actions[..last], i, before)
        && ps == before + Offering(was, n, i, actions[last])
  }

  function Offering(s: State, n: nat, i: nat, a: Action): seq<Packet> {
    if a.Store? && a.lidar == i && i < n && s.producer == Idle then [a.packet] else []
  }

  /** The packet that is handed over but not yet looked at. */
  function Unchecked(p: Producer, i: nat): seq<Packet> {
    if p.Checking? && p.i == i then [p.packet] else []
  }

  lemma NextOffers(s: State, n: nat, size: nat, a: Action, i: nat)
    requires IsSize(size) && Invariant(s, n, size) && i < n
    ensures var t := Next(s, n, size, a);
      i < |t.logs| && Packets(s.logs[i].offers) + Unchecked(s.producer, i) + Offering(s, n, i, a)
        == Packets(t.logs[i].offers) + Unchecked(t.producer, i)
  {
    var t := Next(s, n, size, a);
    if a.Produce? && s.producer.Checking? && s.producer.i == i {
      OfferGrows(s.logs[i].offers, t.logs[i].offers[|s.logs[i].offers|]);
      assert Packets(t.logs[i].offers) == Packets(s.logs[i].offers) + [s.producer.packet];
    } else {
      assert t.logs[i].offers == s.logs[i].offers;
    }
  }

  /** The offers logged are those of the `Store` actions, in order. */
  lemma {:induction false} OffersAreStores(n: nat, size: nat, actions: seq<Action>, s: State, i: nat, ps: seq<Packet>)
    requires IsSize(size) && Reaches(n, size, actions, s) && Offered(n, size, actions, i, ps) && i < n
    ensures |s.logs| == n && Packets(s.logs[i].offers) + Unchecked(s.producer, i) == ps
    decreases |actions|
  {
    InvariantHolds(n, size, actions, s);
    if actions == [] {
      assert Packets(s.logs[i].offers) == [];
    } else {
      var last := |actions| - 1;
      var was, before :| Reaches(n, size, actions[..last], was) && Offered(n, size, actions[..last], i, before)
        && ps == before + Offering(was, n, i, actions[last]);
      var was2 :| Reaches(n, size, actions[..last], was2) && Formed(was2, n) && s == Next(was2, n, size, actions[last]);
      OneState(n, size, actions[..last], was, was2);
      OffersAreStores(n, size, actions[..last], was, i, before);
      InvariantHolds(n, size, actions[..last], was);
      NextOffers(was, n, size, actions[last], i);
    }
  }

  /** Every run hands over some packets. */
  lemma {:induction false} SomeOffered(n: nat, size: nat, actions: seq<Action>, s: State, i: nat) returns (ps: seq<Packet>)
    requires Reaches(n, size, actions, s)
    ensures Offered(n, size, actions, i, ps)
    decreases |actions|
  {
    if actions == [] {
      ps := [];
    } else {
      var last := |actions| - 1;
      var was :| Reaches(n, size, actions[..last], was) && Formed(was, n) && s == Next(was, n, size, actions[last]);
      var before := SomeOffered(n, size, actions[..last], was, i);
      ps := before + Offering(was, n, i, actions[last]);
    }
  }

  /** The actions decide the state. */
  lemma {:induction false} OneState(n: nat, size: nat, actions: seq<Action>, s: State, t: State)
    requires Reaches(n, size, actions, s) && Reaches(n, size, actions, t)
    ensures s == t
    decreases |actions|
  {
    if actions != [] {
      var last := |actions| - 1;
      var a :| Reaches(n, size, actions[..last], a) && Formed(a, n) && s == Next(a, n, size, actions[last]);
      var b :| Reaches(n, size, actions[..last], b) && Formed(b, n) && t == Next(b, n, size, actions[last]);
      OneState(n, size, actions[..last], a, b);
    }
  }

  /**
   * First in, first out: of the packets handed over by `Store` actions, in order, some found room; those
   * popped are a prefix of them, and the rest are in the queue, at most `size`, but for one being stored.
   */
  lemma FirstInFirstOut(n: nat, size: nat, actions: seq<Action>, s: State, i: nat, ps: seq<Packet>)
    requires IsSize(size) && Reaches(n, size, actions, s) && Offered(n, size, actions, i, ps) && i < n
    ensures Formed(s, n) && Packets(s.logs[i].offers) + Unchecked(s.producer, i) == ps
    ensures s.logs[i].popped <= Accepted(s.logs[i].offers)
    ensures s.lidars[i].ready ==>
      && |s.lidars[i].ring.slots| > 0
      && Accepted(s.logs[i].offers) == s.logs[i].popped + (Contents(s.lidars[i].ring) + InFlight(s.producer, i))
      && |Contents(s.lidars[i].ring)| <= size
  {
    InvariantHolds(n, size, actions, s);
    OffersAreStores(n, size, actions, s, i, ps);
    assert Kept(s, i, size);
  }

  /** A packet finds room exactly when fewer than `size` are queued. */
  lemma RoomExactly(n: nat, size: nat, actions: seq<Action>, s: State, junk: Packet)
    requires IsSize(size) && Reaches(n, size, actions, s) && s.producer.Checking?
    ensures Formed(s, n) && |s.lidars[s.producer.i].ring.slots| > 0
    ensures var (i, t) := (s.producer.i, Next(s, n, size, Produce(junk)));
      t.logs[i].offers == s.logs[i].offers + [Offer(s.producer.packet, |Contents(s.lidars[i].ring)| < size)]
  {
    InvariantHolds(n, size, actions, s);
    assert Kept(s, s.producer.i, size);
  }

  /** A slot is never written while it is being read. */
  lemma NoTornRead(n: nat, size: nat, actions: seq<Action>, s: State)
    requires IsSize(size) && Reaches(n, size, actions, s)
    requires Claims(s.producer) && Holds(s.consumer) && s.producer.i == s.consumer.k
    ensures Formed(s, n)
    ensures var r := s.lidars[s.consumer.k].ring; |r.slots| > 0 && r.wr % |r.slots| != r.rd % |r.slots|
  {
    InvariantHolds(n, size, actions, s);
    assert Kept(s, s.consumer.k, size);
    WriterMissesReader(s.lidars[s.consumer.k].ring);
  }
}
