/** From raw packets to published frames: points are accumulated lidar by lidar and handed on by a timer. */
module Points {
  import opened Bytes
  import opened SortedKeys
  import opened Sequences

  const NS_PER_MS: nat := 1_000_000
  const TIME_WRAP: nat := 0x1_0000_0000_0000_0000
  const MAX_LIDARS: nat := 32

  /** What the sensor measured, and when. */
  datatype Point = Point(raw: int, time: nat)

  datatype Packet = Packet(handle: int, known: bool, stamp: nat, interval: nat, raw: seq<int>)

  /** The points of one lidar in a frame. */
  datatype Part = Part(handle: int, baseTime: nat, points: seq<Point>)

  /** The frames published, the latest first. */
  datatype Frames = NoFrame | Frame(parts: seq<Part>, before: Frames)

  function PointAt(p: Packet, i: nat): Point
    requires i < |p.raw|
  {
    Point(p.raw[i], (p.stamp + i * p.interval) % TIME_WRAP)
  }

  /** The points of a packet; those of an unknown type hold none. */
  function PointsOf(p: Packet): seq<Point> {
    if p.known then seq(|p.raw|, i requires 0 <= i < |p.raw| => PointAt(p, i)) else []
  }

  lemma NextTime(stamp: nat, i: nat, interval: nat)
    ensures ((stamp + i * interval) % TIME_WRAP + interval) % TIME_WRAP == (stamp + (i + 1) * interval) % TIME_WRAP
  {
    var n := stamp + i * interval;
    assert stamp + (i + 1) * interval == n + interval;
    assert n == n / TIME_WRAP * TIME_WRAP + n % TIME_WRAP;
    WrapsAway(n % TIME_WRAP + interval, n / TIME_WRAP);
  }

  lemma WrapsAway(x: nat, q: nat)
    ensures (q * TIME_WRAP + x) % TIME_WRAP == x % TIME_WRAP
  {
    assert x == x / TIME_WRAP * TIME_WRAP + x % TIME_WRAP;
    assert q * TIME_WRAP + x == (q + x / TIME_WRAP) * TIME_WRAP + x % TIME_WRAP;
  }

  /** A packet of a known type holds one point for each value measured, in order; any other packet holds none. */
  lemma PacketValues(p: Packet)
    ensures var ps := PointsOf(p);
      && |ps| == (if p.known then |p.raw| else 0)
      && forall i :: 0 <= i < |ps| ==> ps[i].raw == p.raw[i]
  {
  }

  /** The first point is taken at the packet's time, and each other one an interval after the one before. */
  lemma PacketTimes(p: Packet, i: nat)
    requires p.known && i < |p.raw|
    ensures var ps := PointsOf(p);
      ps[i].time == if i == 0 then p.stamp % TIME_WRAP else (ps[i - 1].time + p.interval) % TIME_WRAP
  {
    var ps := PointsOf(p);
    assert ps[i] == PointAt(p, i);
    if i > 0 {
      assert ps[i - 1] == PointAt(p, i - 1);
      NextTime(p.stamp, i - 1, p.interval);
    }
  }

  /** The points of a lidar among the parts of a frame. */
  function Collected(parts: seq<Part>, id: int): seq<Point> {
    if parts == [] then []
    else
      var last := |parts| - 1;
      Collected(parts[..last], id) + (if parts[last].handle == id then parts[last].points else [])
  }

  /** The points of a lidar published so far. */
  function Sent(frames: Frames, id: int): seq<Point> {
    match frames
    case NoFrame => []
    case Frame(parts, before) => Sent(before, id) + Collected(parts, id)
  }

  function Pending(clouds: map<int, seq<Point>>, id: int): seq<Point> {
    if id in clouds then clouds[id] else []
  }

  lemma CollectedGrows(parts: seq<Part>, p: Part, id: int)
    ensures Collected(parts + [p], id) == Collected(parts, id) + (if p.handle == id then p.points else [])
  {
    assert (parts + [p])[..|parts|] == parts;
  }

  /** What left the buffers is in the parts. */
  ghost predicate Moved(before: map<int, seq<Point>>, parts: seq<Part>, after: map<int, seq<Point>>) {
    forall id :: Collected(parts, id) + Pending(after, id) == Pending(before, id)
  }

  /** A part has points, and starts when its first point was measured. */
  predicate Dated(parts: seq<Part>) {
    forall i :: 0 <= i < |parts| ==> parts[i].points != [] && parts[i].baseTime == parts[i].points[0].time
  }

  predicate AllDated(frames: Frames) {
    match frames
    case NoFrame => true
    case Frame(parts, before) => Dated(parts) && |parts| <= MAX_LIDARS && AllDated(before)
  }

  lemma MoveOneAt(before: map<int, seq<Point>>, parts: seq<Part>, after: map<int, seq<Point>>, p: Part, id: int)
    requires Collected(parts, id) + Pending(after, id) == Pending(before, id)
    requires p.handle in after && p.points == after[p.handle]
    ensures Collected(parts + [p], id) + Pending(after[p.handle := []], id) == Pending(before, id)
  {
    CollectedGrows(parts, p, id);
    if id != p.handle {
      assert Collected(parts, id) + [] == Collected(parts, id);
    }
  }

  lemma MoveOne(before: map<int, seq<Point>>, parts: seq<Part>, after: map<int, seq<Point>>, p: Part)
    requires Moved(before, parts, after) && p.handle in after && p.points == after[p.handle]
    ensures Moved(before, parts + [p], after[p.handle := []])
  {
    forall id
      ensures Collected(parts + [p], id) + Pending(after[p.handle := []], id) == Pending(before, id)
    {
      MoveOneAt(before, parts, after, p, id);
    }
  }

  /** Every point received is published or pending, in the order of arrival. */
  ghost predicate Conserved(frames: Frames, clouds: map<int, seq<Point>>, received: int -> seq<Point>) {
    forall id :: Sent(frames, id) + Pending(clouds, id) == received(id)
  }

  lemma PublishConserves(frames: Frames, before: map<int, seq<Point>>, parts: seq<Part>, after: map<int, seq<Point>>, received: int -> seq<Point>)
    requires Conserved(frames, before, received) && Moved(before, parts, after)
    ensures Conserved(Frame(parts, frames), after, received)
  {
    forall id
      ensures Sent(Frame(parts, frames), id) + Pending(after, id) == received(id)
    {
      Joins3(Sent(frames, id), Collected(parts, id), Pending(after, id));
      assert Collected(parts, id) + Pending(after, id) == Pending(before, id);
      assert Sent(frames, id) + Pending(before, id) == received(id);
    }
  }

  /** What has been received once a packet has come in. */
  ghost function Received(received: int -> seq<Point>, p: Packet): int -> seq<Point> {
    (id: int) => if id == p.handle then received(id) + PointsOf(p) else received(id)
  }

  class PubHandler {
    var clouds: map<int, seq<Point>>          // the points accumulated for each lidar
    var order: seq<int>                       // the lidars, in the order of the map
    const frame: array<Part>
    var lidarNum: nat
    const interval: nat                       // nanoseconds between two frames
    const tolerance: nat
    const intervalMs: nat
    var first: bool
    var lastPublication: int
    ghost var published: Frames
    ghost var received: int -> seq<Point>

    ghost predicate Valid()
      reads this
    {
      && frame.Length == MAX_LIDARS
      && lidarNum == 0
      && |order| <= MAX_LIDARS
      && intervalMs > 0
      && Ascending(order)
      && (forall k :: 0 <= k < |order| ==> order[k] in clouds)
      && (forall id :: id in clouds ==> id in order)
      && Conserved(published, clouds, received)
      && AllDated(published)
    }

    constructor (nsInterval: nat)
      requires nsInterval >= NS_PER_MS
      ensures fresh(frame)
      ensures Valid() && clouds == map[] && order == [] && published == NoFrame && first && (forall id :: received(id) == [])
    {
      clouds := map[];
      order := [];
      var part := Part(0, 0, []);
      frame := new Part[MAX_LIDARS](_ => part);
      lidarNum := 0;
      interval := nsInterval;
      tolerance := nsInterval - NS_PER_MS;
      intervalMs := nsInterval / NS_PER_MS;
      first := true;
      lastPublication := 0;
      published := NoFrame;
      received := _ => [];
    }

    /** Appends the points of a packet, one at a time. */
    method PointCloudProcess(p: Packet)
      requires p.handle in clouds
      modifies this`clouds
      ensures clouds == old(clouds)[p.handle := old(clouds)[p.handle] + PointsOf(p)]
    {
      assert clouds[p.handle] + [] == clouds[p.handle];
      if !p.known {
        return;
      }
      var i := 0;
      while i < |p.raw|
        invariant 0 <= i <= |p.raw|
        invariant clouds == old(clouds)[p.handle := old(clouds)[p.handle] + PointsOf(p)[..i]]
      {
        ghost var so_far := PointsOf(p)[..i];
        assert PointsOf(p)[..i + 1] == so_far + [PointAt(p, i)];
        Joins3(old(clouds)[p.handle], so_far, [PointAt(p, i)]);
        clouds := clouds[p.handle := clouds[p.handle] + [PointAt(p, i)]];
        i := i + 1;
      }
      assert PointsOf(p)[..i] == PointsOf(p);
    }

    method BaseTime(id: int) returns (t: nat)
      requires id in clouds
      ensures clouds[id] == [] ==> t == 0
      ensures clouds[id] != [] ==> t == clouds[id][0].time
    {
      t := if clouds[id] == [] then 0 else clouds[id][0].time;
    }

    method RecentTime(id: int) returns (t: nat)
      requires id in clouds
      ensures clouds[id] == [] ==> t == 0
      ensures clouds[id] != [] ==> t == clouds[id][|clouds[id]| - 1].time
    {
      t := if clouds[id] == [] then 0 else clouds[id][|clouds[id]| - 1].time;
    }

    /** Moves the points of a lidar into the frame, unless there are none. */
    method TakePoints(id: int) returns (taken: bool)
      requires id in clouds && lidarNum < frame.Length
      modifies this`clouds, this`lidarNum, frame
      ensures taken <==> old(clouds)[id] != []
      ensures !taken ==> lidarNum == old(lidarNum) && clouds == old(clouds)
      ensures taken ==> lidarNum == old(lidarNum) + 1 && clouds == old(clouds)[id := []]
      ensures taken ==> frame[lidarNum - 1] == Part(id, old(clouds)[id][0].time, old(clouds)[id])
      ensures frame[..old(lidarNum)] == old(frame[..lidarNum])
    {
      var t := BaseTime(id);
      frame[lidarNum] := frame[lidarNum].(baseTime := t);
      var points := clouds[id];
      clouds := clouds[id := []];
      if points == [] {
        return false;
      }
      frame[lidarNum] := frame[lidarNum].(handle := id, points := points);
      lidarNum := lidarNum + 1;
      return true;
    }

    /** Hands the frame to the callback and starts a new one. */
    method PublishPointCloud(ghost before: map<int, seq<Point>>)
      requires lidarNum <= frame.Length == MAX_LIDARS
      requires Conserved(published, before, received) && Moved(before, frame[..lidarNum], clouds)
      requires AllDated(published) && Dated(frame[..lidarNum])
      modifies this`lidarNum, this`published
      ensures published == Frame(old(frame[..lidarNum]), old(published)) && lidarNum == 0
      ensures Conserved(published, clouds, received) && AllDated(published)
    {
      PublishConserves(published, before, frame[..lidarNum], clouds, received);
      published := Frame(frame[..lidarNum], published);
      lidarNum := 0;
    }

    /** The last point is at a multiple of the interval, and nearly an interval after the first. */
    predicate Due(points: seq<Point>) {
      && points != []
      && intervalMs > 0
      && var recent := points[|points| - 1].time;
      && recent / NS_PER_MS % intervalMs == 0 && recent / NS_PER_MS > 0
      && (recent - points[0].time) % TIME_WRAP >= tolerance
    }

    /** Synchronised lidars publish alone, at multiples of the interval. */
    method CheckSynced(id: int)
      requires Valid() && id in clouds
      modifies this`clouds, this`lidarNum, this`published, frame
      ensures Valid() && clouds.Keys == old(clouds).Keys
      ensures Due(old(clouds)[id]) ==>
        published == Frame([Part(id, old(clouds)[id][0].time, old(clouds)[id])], old(published)) && clouds == old(clouds)[id := []]
      ensures !Due(old(clouds)[id]) ==> published == old(published) && clouds == old(clouds)
    {
      var recent := RecentTime(id);
      var recentMs := recent / NS_PER_MS;
      if recentMs % intervalMs != 0 || recentMs == 0 {
        return;
      }
      var base := BaseTime(id);
      if (recent - base) % TIME_WRAP < tolerance {
        return;
      }
      PublishOne(id);
    }

    /** A frame with the points of one lidar. */
    method PublishOne(id: int)
      requires Valid() && id in clouds && clouds[id] != []
      modifies this`clouds, this`lidarNum, this`published, frame
      ensures Valid() && clouds.Keys == old(clouds).Keys
      ensures published == Frame([Part(id, old(clouds)[id][0].time, old(clouds)[id])], old(published))
      ensures clouds == old(clouds)[id := []]
    {
      NothingMoved(clouds);
      ghost var before: map<int, seq<Point>> := clouds;
      assert frame[..0] == [];
      var taken := TakePoints(id);
      ghost var part := Part(id, before[id][0].time, before[id]);
      assert frame[..1] == [] + [part] && [] + [part] == [part];
      MoveOne(before, [], before, part);
      PublishPointCloud(before);
    }

    /** Moves the points of every lidar that has some into the frame. */
    method FillFrame()
      requires Valid()
      modifies this`clouds, this`lidarNum, frame
      ensures lidarNum <= MAX_LIDARS && clouds.Keys == old(clouds).Keys
      ensures Moved(old(clouds), frame[..lidarNum], clouds) && Dated(frame[..lidarNum])
      ensures forall id :: id in clouds ==> clouds[id] == []
    {
      ghost var before: map<int, seq<Point>> := clouds;
      NothingMoved(clouds);
      assert frame[..0] == [];
      var k := 0;
      while k < |order|
        invariant 0 <= k <= |order| && lidarNum <= k
        invariant clouds.Keys == before.Keys
        invariant Moved(before, frame[..lidarNum], clouds) && Dated(frame[..lidarNum])
        invariant forall l :: 0 <= l < k ==> clouds[order[l]] == []
      {
        ghost var (parts, so_far) := (frame[..lidarNum], clouds);
        assert order[k] in before;
        var taken := TakePoints(order[k]);
        if taken {
          assert frame[..lidarNum] == parts + [frame[lidarNum - 1]];
          MoveOne(before, parts, so_far, frame[lidarNum - 1]);
        }
        k := k + 1;
      }
    }

    /** Other lidars publish together, whenever an interval of real time is over. */
    method CheckUnsynced(now: int)
      requires Valid()
      modifies this`clouds, this`lidarNum, this`published, this`first, this`lastPublication, frame
      ensures Valid() && clouds.Keys == old(clouds).Keys && !first
      ensures old(first) || now - old(lastPublication) < interval ==> published == old(published) && clouds == old(clouds)
      ensures old(first) ==> lastPublication == now
      ensures !old(first) && now - old(lastPublication) >= interval ==>
        && lastPublication == old(lastPublication) + interval
        && published.Frame? && published.before == old(published)
        && forall id :: id in clouds ==> clouds[id] == []
    {
      if first {
        lastPublication := now;
        first := false;
        return;
      }
      if now - lastPublication < interval {
        return;
      }
      lastPublication := lastPublication + interval;
      ghost var before: map<int, seq<Point>> := clouds;
      FillFrame();
      PublishPointCloud(before);
    }

    /** A lidar heard of for the first time. */
    method AddLidar(id: int)
      requires Valid() && id !in clouds && |WithKey(order, id)| <= MAX_LIDARS
      modifies this`clouds, this`order
      ensures Valid() && clouds == old(clouds)[id := []]
    {
      WithKeyHas(order, id);
      clouds := clouds[id := []];
      order := WithKey(order, id);
      forall k | 0 <= k < |order|
        ensures order[k] in clouds
      {
        assert order[k] in order;
      }
      NewLidarConserves(published, old(clouds), received, id);
    }

    /** One packet: its points are added to its lidar's, and the timer decides what to publish. */
    method ProcessPacket(p: Packet, synced: bool, now: int)
      requires Valid() && |WithKey(order, p.handle)| <= MAX_LIDARS
      modifies this, frame
      ensures Valid() && received == Received(old(received), p)
      ensures clouds.Keys == old(clouds).Keys + {p.handle}
    {
      if p.handle !in clouds {
        AddLidar(p.handle);
      }
      ghost var was := clouds;
      PointCloudProcess(p);
      PacketConserves(published, was, received, p);
      received := Received(received, p);
      if synced {
        CheckSynced(p.handle);
      } else {
        CheckUnsynced(now);
      }
    }
  }

  /** A packet, the synchronisation flag it left behind, and the time at which it is processed. */
  datatype Input = Input(packet: Packet, synced: bool, now: int)

  /** The points of a lidar in its packets, in the order of arrival. */
  function Arrived(inputs: seq<Input>, id: int): seq<Point> {
    if inputs == [] then []
    else
      var last := |inputs| - 1;
      var p := inputs[last].packet;
      Arrived(inputs[..last], id) + (if p.handle == id then PointsOf(p) else [])
  }

  /**
   * Packets one after the other, from at most 32 lidars, synchronised or not: for each lidar, what is
   * published and then what is pending is what arrived.
   */
  method RawDataProcess(inputs: seq<Input>, nsInterval: nat, ghost ids: set<int>) returns (handler: PubHandler)
    requires nsInterval >= NS_PER_MS && |ids| <= MAX_LIDARS
    requires forall i :: 0 <= i < |inputs| ==> inputs[i].packet.handle in ids
    ensures fresh(handler) && handler.Valid()
    ensures forall id :: Sent(handler.published, id) + Pending(handler.clouds, id) == Arrived(inputs, id)
    ensures AllDated(handler.published)
  {
    handler := new PubHandler(nsInterval);
    var i := 0;
    while i < |inputs|
      invariant 0 <= i <= |inputs| && fresh(handler) && fresh(handler.frame) && handler.Valid()
      invariant handler.clouds.Keys <= ids
      invariant forall id :: handler.received(id) == Arrived(inputs[..i], id)
    {
      var p := inputs[i].packet;
      WithKeyHas(handler.order, p.handle);
      FewKeys(WithKey(handler.order, p.handle), ids);
      assert inputs[..i + 1][..i] == inputs[..i];
      handler.ProcessPacket(p, inputs[i].synced, inputs[i].now);
      i := i + 1;
    }
    assert inputs[..i] == inputs;
  }

  lemma NothingMoved(clouds: map<int, seq<Point>>)
    ensures Moved(clouds, [], clouds)
  {
  }

  lemma NewLidarConserves(frames: Frames, clouds: map<int, seq<Point>>, received: int -> seq<Point>, id: int)
    requires Conserved(frames, clouds, received) && id !in clouds
    ensures Conserved(frames, clouds[id := []], received)
  {
    forall i
      ensures Sent(frames, i) + Pending(clouds[id := []], i) == received(i)
    {
      assert Pending(clouds[id := []], i) == Pending(clouds, i);
    }
  }

  lemma PacketConserves(frames: Frames, clouds: map<int, seq<Point>>, received: int -> seq<Point>, p: Packet)
    requires Conserved(frames, clouds, received) && p.handle in clouds
    ensures Conserved(frames, clouds[p.handle := clouds[p.handle] + PointsOf(p)], Received(received, p))
  {
    var more := clouds[p.handle := clouds[p.handle] + PointsOf(p)];
    forall id
      ensures Sent(frames, id) + Pending(more, id) == Received(received, p)(id)
    {
      assert Sent(frames, id) + Pending(clouds, id) == received(id);
      if id == p.handle {
        Joins3(Sent(frames, id), clouds[id], PointsOf(p));
      }
    }
  }
}
