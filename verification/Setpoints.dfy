/** The height the mission setpoint commands in every stage, and how long the stages take. */
module Setpoints {
  import opened Bytes
  import opened Missions

  /** A base height, raised by 300 at most twice for want of a detection. */
  predicate RaisedFrom(height: int, base: int, raises: nat) {
    raises <= 2 && (height == base || (raises >= 1 && height == base + 300) || (raises >= 2 && height == base + 600))
  }

  /** The height while adjusting: that of detecting, until the object has been near. */
  predicate Searching(c: Config, p: Pursuit) {
    RaisedFrom(p.height, if p.adjusted then c.adjustHeight else c.detectHeight, p.raises)
  }

  /** The height adjusting ended with. */
  predicate Left(c: Config, p: Pursuit) {
    RaisedFrom(p.height, if p.adjusted then c.adjustHeight else c.detectHeight, 2)
  }

  /** What is commanded in a mission, and in the landing that ends the last one. */
  predicate Commands(c: Config, m: Mission) {
    var p := m.pursuit;
    match m.stage
    case YoloInit => !p.adjusted
    case Adjust => Searching(c, p)
    case Drop => p.height == c.putHeight || Left(c, p)
    case Put => p.height == c.putHeight
    case Rise => p.height == c.putHeight || p.height == c.holdHeight
    case DropLand => p.height == 300 || (p.height == 600 && p.adjusted) || Left(c, p)
  }

  predicate HeightsHold(c: Config, m: Mission) {
    && m.pursuit.raises <= 2
    && (m.phase == Land ==> m.pursuit.height == 300)
    && (m.phase == ExecMission ==> Commands(c, m))
    && (m.phase != ExecMission && m.phase != Land ==> !m.pursuit.adjusted)
  }

  lemma AdjustCommands(c: Config, p: Pursuit, seen: Option<Detection>, clock: nat, servo: int, doLand: bool)
    requires Searching(c, p)
    ensures var o := AdjustStep(c, p, seen, clock, servo, doLand);
      o.pursuit.raises <= 2 && Left(c, o.pursuit) && (o.stage == Adjust ==> Searching(c, o.pursuit))
  {
  }

  lemma LandingCommands(c: Config, m: Mission, seen: Option<Detection>)
    requires m.phase == ExecMission && m.stage == DropLand && HeightsHold(c, m)
    ensures HeightsHold(c, Landing(c, m, seen))
  {
  }

  lemma MissionCommands(c: Config, m: Mission, seen: Option<Detection>, servoWorks: bool)
    requires m.phase == ExecMission && HeightsHold(c, m)
    ensures HeightsHold(c, MissionStep(c, m, seen, servoWorks))
  {
    if m.stage == Adjust {
      AdjustCommands(c, m.pursuit, seen, m.clock, m.progress.servo, m.progress.doLand);
      AdjustLeadsOn(c, m.pursuit, seen, m.clock, m.progress.servo, m.progress.doLand);
    } else if m.stage == DropLand {
      LandingCommands(c, m, seen);
    }
  }

  lemma StepCommands(c: Config, m: Mission, e: Event)
    requires HeightsHold(c, m)
    ensures HeightsHold(c, Step(c, m, e))
  {
    if e.Tick? && m.phase == ExecMission {
      MissionCommands(c, Clocked(c, m, e.elapsed), e.seen, e.servoWorks);
    }
  }

  lemma {:induction false} FlightCommands(c: Config, m: Mission, es: seq<Event>)
    requires HeightsHold(c, m)
    ensures HeightsHold(c, Fly(c, m, es))
    decreases |es|
  {
    if es != [] {
      StepCommands(c, m, es[0]);
      FlightCommands(c, Step(c, m, es[0]), es[1..]);
    }
  }

  /**
   * Over any flight: the height of detecting while looking for the object and that of adjusting once
   * it has been near, raised by 300 twice at most; that of putting at a release; 300 while landing.
   */
  lemma HeightsAreCommanded(c: Config, haveOdometry: bool, odometry: Position, target: Position, height: int, es: seq<Event>)
    ensures HeightsHold(c, Flown(c, haveOdometry, odometry, target, height, es))
  {
    FlightCommands(c, Begin(haveOdometry, odometry, target, height), es);
  }

  // ----------------------------------------------------- one tick's command

  /** The object is seen within `limit` of where the servo in use needs it. */
  predicate SeenWithin(m: Mission, seen: Option<Detection>, limit: int) {
    seen.Some? && (if m.stage == DropLand then Within(seen.value, limit) else Within(Aim(m.progress.servo, seen.value), limit))
  }

  /** A tick of a mission commands the height of its stage. */
  lemma TickCommands(c: Config, m: Mission, elapsed: nat, seen: Option<Detection>, servoWorks: bool)
    requires m.phase == ExecMission
    ensures var n := Step(c, m, Tick(elapsed, seen, servoWorks));
      && (m.stage == YoloInit ==> n.pursuit.height == c.detectHeight && n.stage == Adjust && n.timer)
      && (m.stage == Adjust && !m.pursuit.adjusted && SeenWithin(m, seen, 200) ==>
            n.pursuit.height == c.adjustHeight && n.pursuit.adjusted && n.pursuit.holdTime == n.clock)
      && (m.stage == Drop ==> n.pursuit.height == c.putHeight)
      && (m.stage == Put ==> n.pursuit.height == m.pursuit.height)
      && (m.stage == Rise ==> n.pursuit.height == c.holdHeight)
      && (m.stage == DropLand && !m.pursuit.adjusted && SeenWithin(m, seen, 200) ==> n.pursuit.height == 600 && n.pursuit.adjusted)
      && (m.stage == DropLand && m.pursuit.adjusted && SeenWithin(m, seen, 100) ==> n.pursuit.height == 300)
  {
  }

  /** Where the servo in use sits: the offsets at which the object is exactly under it. */
  lemma AimedAt(servo: int, d: Detection)
    ensures Aim(servo, d) == Detection(0, 0) <==>
      d == (if servo == 1 then Detection(100, 0) else if servo == 2 then Detection(-100, 0)
            else if servo == 3 then Detection(0, 100) else Detection(0, 0))
  {
  }

  /** In the last stage, the object having been near before, or landing already. */
  predicate Descending(m: Mission) {
    (m.phase == ExecMission && m.stage == DropLand && m.pursuit.adjusted) || m.phase == Land
  }

  lemma DescendsOn(c: Config, m: Mission, e: Event)
    requires Descending(m)
    ensures var n := Step(c, m, e); Descending(n) && (n.pursuit.height == m.pursuit.height || n.pursuit.height == 300)
  {
  }

  lemma {:induction false} DescendsInOneGo(c: Config, m: Mission, es: seq<Event>)
    requires Descending(m)
    ensures Fly(c, m, es).pursuit.height == m.pursuit.height || Fly(c, m, es).pursuit.height == 300
    decreases |es|
  {
    if es != [] {
      DescendsOn(c, m, es[0]);
      DescendsInOneGo(c, Step(c, m, es[0]), es[1..]);
    }
  }

  /**
   * The first descent of a landing, to 600, is ever made exactly when the object had not been near while
   * adjusting: the mark of having been near is not cleared before the last stage.
   */
  lemma FirstDescentExactly(c: Config, m: Mission)
    requires m.phase == ExecMission && m.stage == DropLand && m.pursuit.height != 600
    ensures (exists es :: Fly(c, m, es).pursuit.height == 600) <==> !m.pursuit.adjusted
  {
    if m.pursuit.adjusted {
      forall es
        ensures Fly(c, m, es).pursuit.height != 600
      {
        DescendsInOneGo(c, m, es);
      }
    } else {
      var e := Tick(0, Some(Detection(0, 0)), true);
      TickCommands(c, m, 0, Some(Detection(0, 0)), true);
      assert [e][1..] == [];
      assert Within(Detection(0, 0), 200);
      assert Fly(c, Step(c, m, e), []) == Step(c, m, e);
      assert Fly(c, m, [e]).pursuit.height == 600;
    }
  }

  // ------------------------------------------------------------- durations

  lemma {:induction false} ClockGrows(c: Config, m: Mission, es: seq<Event>)
    ensures Fly(c, m, es).clock >= m.clock
    decreases |es|
  {
    if es != [] {
      ClockGrows(c, Step(c, m, es[0]), es[1..]);
    }
  }

  /** A step releases something only at the release stage, three seconds into it. */
  lemma StepReleases(c: Config, m: Mission, e: Event)
    ensures var n := Step(c, m, e);
      Releases(n.progress.log) != Releases(m.progress.log) ==>
        m.phase == ExecMission && m.stage == Put && c.doPut && n.clock - m.pursuit.holdTime >= 3 * SECOND
  {
  }

  /** A step from the release stage stays there with the same start, or leaves it three seconds into it, if releasing is on. */
  lemma PutWaits(c: Config, m: Mission, e: Event)
    requires m.phase == ExecMission && m.stage == Put && c.doPut
    ensures var n := Step(c, m, e);
      || (n.phase == ExecMission && n.stage == Put && n.pursuit.holdTime == m.pursuit.holdTime)
      || n.clock - m.pursuit.holdTime >= 3 * SECOND
  {
  }

  lemma {:induction false} NothingReleased(c: Config, m: Mission, es: seq<Event>)
    requires !c.doPut
    ensures Releases(Fly(c, m, es).progress.log) == Releases(m.progress.log)
    decreases |es|
  {
    if es != [] {
      StepReleases(c, m, es[0]);
      NothingReleased(c, Step(c, m, es[0]), es[1..]);
    }
  }

  /** From the release stage on, nothing is released within three seconds of its start. */
  lemma {:induction false} ReleaseWaits(c: Config, m: Mission, es: seq<Event>)
    requires m.phase == ExecMission && m.stage == Put
    ensures Releases(Fly(c, m, es).progress.log) != Releases(m.progress.log) ==> Fly(c, m, es).clock - m.pursuit.holdTime >= 3 * SECOND
    decreases |es|
  {
    if !c.doPut {
      NothingReleased(c, m, es);
    } else if es != [] {
      var n := Step(c, m, es[0]);
      StepReleases(c, m, es[0]);
      PutWaits(c, m, es[0]);
      ClockGrows(c, n, es[1..]);
      if n.phase == ExecMission && n.stage == Put && n.pursuit.holdTime == m.pursuit.holdTime {
        ReleaseWaits(c, n, es[1..]);
      }
    }
  }

  /** A step from the drop goes on with it, or begins the release stage five seconds into it. */
  lemma DropWaits(c: Config, m: Mission, e: Event)
    requires m.phase == ExecMission && m.stage == Drop
    ensures var n := Step(c, m, e);
      && n.phase == ExecMission && n.progress.log == m.progress.log
      && ((n.stage == Drop && n.pursuit.holdTime == m.pursuit.holdTime)
          || (n.stage == Put && n.pursuit.holdTime == n.clock && n.clock - m.pursuit.holdTime >= 5 * SECOND))
  {
  }

  /** From a drop on, nothing is released within eight seconds of its start. */
  lemma {:induction false} DropAndReleaseWait(c: Config, m: Mission, es: seq<Event>)
    requires m.phase == ExecMission && m.stage == Drop
    ensures Releases(Fly(c, m, es).progress.log) != Releases(m.progress.log) ==> Fly(c, m, es).clock - m.pursuit.holdTime >= 8 * SECOND
    decreases |es|
  {
    if es != [] {
      var n := Step(c, m, es[0]);
      DropWaits(c, m, es[0]);
      if n.stage == Drop {
        DropAndReleaseWait(c, n, es[1..]);
      } else {
        ReleaseWaits(c, n, es[1..]);
      }
    }
  }

  lemma HoldPublishes(c: Config, m: Mission)
    requires m.progress.targetId > 0
    ensures var g := HoldStep(c, m).progress;
      && g.targetId > 0
      && (if g.targetId == m.progress.targetId then g.lastPublication == m.progress.lastPublication
          else g.lastPublication == m.clock && m.clock - m.progress.lastPublication >= 2 * SECOND)
      && HoldStep(c, m).clock == m.clock
  {
  }

  /** A step publishes a target at least two seconds after the one before, which it records. */
  lemma StepPublishes(c: Config, m: Mission, e: Event)
    requires m.progress.targetId > 0
    ensures var n := Step(c, m, e);
      && n.progress.targetId > 0
      && (if n.progress.targetId == m.progress.targetId then n.progress.lastPublication == m.progress.lastPublication
          else n.progress.lastPublication == n.clock && n.clock - m.progress.lastPublication >= 2 * SECOND)
  {
    if e.Tick? && m.phase == Hold {
      HoldPublishes(c, Clocked(c, m, e.elapsed));
    }
  }

  /** Two targets are never published within two seconds. */
  lemma {:induction false} TargetsWait(c: Config, m: Mission, es: seq<Event>)
    requires m.progress.targetId > 0
    ensures var n := Fly(c, m, es);
      n.progress.targetId != m.progress.targetId ==> n.clock - m.progress.lastPublication >= 2 * SECOND
    decreases |es|
  {
    if es != [] {
      var n := Step(c, m, es[0]);
      StepPublishes(c, m, es[0]);
      ClockGrows(c, n, es[1..]);
      TargetsWait(c, n, es[1..]);
    }
  }
}
