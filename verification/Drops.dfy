/** Where the flight releases something: only after targets that ask for it, or over the landing place. */
module Drops {
  import opened Bytes
  import opened Missions

  /** The target published last; -1 when there is none. */
  function LastTarget(log: Log): (k: int)
    ensures k >= -1
  {
    match log
    case Nothing => -1
    case Then(o, before) => if o.Target? then o.k else LastTarget(before)
  }

  /** After target `k` there may be a release: it is asked for there, or it is the last of at least five. */
  predicate ReleaseAsked(c: Config, k: int) {
    c.doPut && ((0 <= k <= 3 && c.doMission && c.puts(k)) || (k >= 4 && k == c.points - 1))
  }

  /** Every release came after a target that asks for one. */
  predicate AllAsked(c: Config, log: Log) {
    match log
    case Nothing => true
    case Then(o, before) => AllAsked(c, before) && (o.Released? ==> ReleaseAsked(c, LastTarget(before)))
  }

  /** A mission goes on after a target that asks for it, or after the last one. */
  predicate MissionAsked(c: Config, m: Mission) {
    var g := m.progress;
    m.phase == ExecMission ==>
      if g.doLand then g.targetId == c.points >= 5
      else c.doMission && 1 <= g.targetId <= 4 && c.puts(g.targetId - 1)
  }

  predicate Obeys(c: Config, m: Mission) {
    && LastTarget(m.progress.log) == m.progress.targetId - 1
    && AllAsked(c, m.progress.log)
    && MissionAsked(c, m)
    && (m.progress.doLand ==> m.phase == ExecMission || m.phase == Hold || m.phase == Tracking || m.phase == Land)
    && (m.progress.doLand ==> m.progress.targetId == c.points >= 5)
  }

  lemma HoldObeys(c: Config, m: Mission)
    requires Obeys(c, m) && m.phase == Hold
    ensures Obeys(c, HoldStep(c, m))
  {
  }

  lemma MissionObeys(c: Config, m: Mission, seen: Option<Detection>, servoWorks: bool)
    requires Obeys(c, m) && m.phase == ExecMission
    ensures Obeys(c, MissionStep(c, m, seen, servoWorks))
  {
  }

  lemma StepObeys(c: Config, m: Mission, e: Event)
    requires Obeys(c, m)
    ensures Obeys(c, Step(c, m, e))
  {
    if e.Tick? {
      var n := Clocked(c, m, e.elapsed);
      if m.phase == Hold {
        HoldObeys(c, n);
      } else if m.phase == ExecMission {
        MissionObeys(c, n, e.seen, e.servoWorks);
      }
    }
  }

  lemma {:induction false} FlightObeys(c: Config, m: Mission, es: seq<Event>)
    requires Obeys(c, m)
    ensures Obeys(c, Fly(c, m, es))
    decreases |es|
  {
    if es != [] {
      StepObeys(c, m, es[0]);
      FlightObeys(c, Step(c, m, es[0]), es[1..]);
    }
  }

  /**
   * Over any flight, releasing is switched on and something is released only after one of the first four
   * targets that asks for it, missions being switched on, or after the last target of at least five.
   */
  lemma ReleasesAreAsked(c: Config, haveOdometry: bool, odometry: Position, target: Position, height: int, es: seq<Event>)
    ensures AllAsked(c, Flown(c, haveOdometry, odometry, target, height, es).progress.log)
  {
    FlightObeys(c, Begin(haveOdometry, odometry, target, height), es);
  }

  // ------------------------------------------------------ starting, leaving

  /** Two seconds after a target. */
  predicate Settled(m: Mission) {
    m.clock - m.progress.lastPublication >= 2 * SECOND
  }

  /**
   * Holding starts a mission exactly two seconds after a target that asks for one, nothing having been
   * released since and something being left to release, or after the last target of at least five.
   */
  lemma HoldStartsExactly(c: Config, m: Mission)
    requires m.phase == Hold
    ensures HoldStep(c, m).phase == ExecMission <==>
      && m.sensors.egoReady && c.points >= 1 && Settled(m)
      && var (g, k) := (m.progress, m.progress.targetId);
         || (1 <= k <= 4 && c.doMission && c.puts(k - 1) && !g.justPut && g.servo >= 1)
         || (k >= 5 && k == c.points)
  {
  }

  /** The pursuit as this tick sees it: one more detection, or one more miss. */
  function Counted(p: Pursuit, seen: Option<Detection>): Pursuit {
    if seen.Some? then p.(misses := 0, detections := p.detections + 1) else p.(misses := p.misses + 1)
  }

  /**
   * Adjusting is over exactly when the object has been near, is nearer or has been seen long enough, and
   * five seconds are over since it was near first; or when it has been missed for too long, twice before.
   */
  lemma AdjustLeavesExactly(c: Config, p: Pursuit, seen: Option<Detection>, clock: nat, servo: int, doLand: bool)
    requires c.overtime1 >= 0
    ensures var (o, n) := (AdjustStep(c, p, seen, clock, servo, doLand), Counted(p, seen));
      o.stage != Adjust <==>
        || (seen.Some? && clock - p.holdTime >= 5 * SECOND
            && (p.adjusted || !(Within(Aim(servo, seen.value), 200) || n.detections > 800))
            && (Within(Aim(servo, seen.value), 100) || n.detections > 80))
        || (seen.None? && n.misses > c.overtime1 * 60 && p.raises >= 2)
  {
  }

  /** The drone climbs 300 further exactly when the object has been missed for too long, and not twice before. */
  lemma ClimbsExactly(c: Config, p: Pursuit, seen: Option<Detection>, clock: nat, servo: int, doLand: bool)
    requires c.overtime1 >= 0
    ensures var o := AdjustStep(c, p, seen, clock, servo, doLand);
      && (o.pursuit.raises == p.raises + 1 <==> seen.None? && p.misses + 1 > c.overtime1 * 60 && p.raises < 2)
      && (o.pursuit.raises == p.raises + 1 ==> o.pursuit.height == p.height + 300 && o.pursuit.misses == 0)
  {
  }

  /** Exactly when a tick takes the flight from one phase to the next, and the last part of a mission to its end. */
  lemma MovesExactly(c: Config, m: Mission, elapsed: nat, seen: Option<Detection>, servoWorks: bool)
    ensures var (n, s) := (Step(c, m, Tick(elapsed, seen, servoWorks)), m.sensors);
      && (m.phase == Init ==> (n.phase == TakingOff <==> s.connected && s.haveOdometry))
      && (m.phase == TakingOff ==> (n.phase == Hold <==> c.distance(s.odometry, Position(0, 0, 1100)) < 300))
      && (m.phase == Tracking ==> (n.phase == Hold <==> c.distance(s.odometry, s.currentTarget) < 500))
      && (m.phase == ExecMission ==> (n.phase == Hold <==> m.stage == Rise && Abs(s.odometry.z - c.holdHeight) < 100))
  {
  }

  /** Exactly when a tick ends the drop, and the release stage. */
  lemma DropsExactly(c: Config, m: Mission, elapsed: nat, seen: Option<Detection>, servoWorks: bool)
    requires m.phase == ExecMission
    ensures var (n, p, now) := (Step(c, m, Tick(elapsed, seen, servoWorks)), m.pursuit, m.clock + elapsed);
      && (m.stage == Drop ==> (n.stage == Put <==>
            (Abs(m.sensors.odometry.z - c.putHeight) < 200 || (seen.None? && p.misses + 1 > c.overtime2 * 100) || (seen.Some? && 0 > c.overtime2))
            && now - p.holdTime >= 5 * SECOND))
      && (m.stage == Put ==> (n.stage == Rise <==>
            !c.doPut || (now - p.holdTime >= 3 * SECOND && 1 <= m.progress.servo <= 3 && servoWorks)))
  {
  }
}
