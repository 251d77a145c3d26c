/** Whether a flight can be completed: from every holding state, landing is possible or never will be. */
module Flights {
  import opened Bytes
  import opened Missions

  /** Some events lead from one state to the other. */
  ghost predicate Leads(c: Config, m: Mission, n: Mission) {
    exists es: seq<Event> :: Fly(c, m, es) == n
  }

  lemma {:induction false} FlyConcat(c: Config, m: Mission, a: seq<Event>, b: seq<Event>)
    ensures Fly(c, m, a + b) == Fly(c, Fly(c, m, a), b)
    decreases |a|
  {
    if a == [] {
      assert a + b == b;
    } else {
      assert (a + b)[1..] == a[1..] + b;
      FlyConcat(c, Step(c, m, a[0]), a[1..], b);
    }
  }

  lemma LeadsTransitive(c: Config, m: Mission, n: Mission, o: Mission)
    requires Leads(c, m, n) && Leads(c, n, o)
    ensures Leads(c, m, o)
  {
    var a :| Fly(c, m, a) == n;
    var b :| Fly(c, n, b) == o;
    FlyConcat(c, m, a, b);
  }

  lemma LeadsStep(c: Config, m: Mission, e: Event)
    ensures Leads(c, m, Step(c, m, e))
  {
    assert [e][1..] == [];
    assert Fly(c, m, [e]) == Step(c, m, e);
  }

  /** One more event after those that led here. */
  lemma LeadsOn(c: Config, m: Mission, n: Mission, e: Event)
    requires Leads(c, m, n)
    ensures Leads(c, m, Step(c, n, e))
  {
    LeadsStep(c, n, e);
    LeadsTransitive(c, m, n, Step(c, n, e));
  }

  lemma LeadsSafely(c: Config, m: Mission, n: Mission)
    requires Leads(c, m, n) && Safe(c, m)
    ensures Safe(c, n)
  {
    var es :| Fly(c, m, es) == n;
    FlightIsSafe(c, m, es);
  }

  lemma LeadsNowhere(c: Config, m: Mission)
    ensures Leads(c, m, m)
  {
    assert Fly(c, m, []) == m;
  }

  /** What the camera must see for the servo to be over the object. */
  function Centred(servo: int): Detection {
    if servo == 2 then Detection(-100, 0)
    else if servo == 3 then Detection(0, 100)
    else if servo == 1 then Detection(100, 0)
    else Detection(0, 0)
  }

  /** The stage after adjusting, with nothing else of the flight changed. */
  predicate Adjusted(m: Mission, n: Mission) {
    && n.phase == ExecMission
    && n.stage == (if m.progress.doLand then DropLand else Drop)
    && n.pursuit.adjusted
    && n.progress == m.progress
    && n.sensors.egoReady == m.sensors.egoReady
  }

  lemma SightStep(c: Config, m: Mission, elapsed: nat)
    requires c.overtime1 >= 0 && Adjusting(m)
    ensures var n := Step(c, m, Tick(elapsed, Some(Centred(m.progress.servo)), true));
      && (Adjusted(m, n) || (Adjusting(n) && n.pursuit.adjusted && n.progress == m.progress && n.sensors.egoReady == m.sensors.egoReady))
      && (m.pursuit.adjusted && elapsed >= 5 * SECOND && m.pursuit.holdTime <= m.clock ==> Adjusted(m, n))
      && (n.pursuit.holdTime == m.pursuit.holdTime || n.pursuit.holdTime == n.clock)
      && n.clock == m.clock + elapsed
  {
    var d := Aim(m.progress.servo, Centred(m.progress.servo));
    assert Within(d, 100) && Within(d, 200);
  }

  lemma AdjustCompletes(c: Config, m: Mission) returns (n: Mission)
    requires c.overtime1 >= 0 && Adjusting(m)
    ensures Leads(c, m, n) && Adjusted(m, n)
  {
    var sight := Some(Centred(m.progress.servo));
    var wait: nat := if m.pursuit.holdTime > m.clock then m.pursuit.holdTime - m.clock else 0;
    n := Step(c, m, Tick(wait, sight, true));
    LeadsStep(c, m, Tick(wait, sight, true));
    SightStep(c, m, wait);
    if Adjusting(n) {
      SightStep(c, n, 5 * SECOND);
      LeadsOn(c, m, n, Tick(5 * SECOND, sight, true));
      n := Step(c, n, Tick(5 * SECOND, sight, true));
    }
  }

  predicate Ready(m: Mission) {
    m.phase == Hold && m.sensors.egoReady
  }

  /** From holding, through a mission's start, to the end of adjusting. */
  lemma MissionAdjusts(c: Config, m: Mission, started: Mission) returns (n: Mission)
    requires c.overtime1 >= 0 && Leads(c, m, started)
    requires started.phase == ExecMission && started.stage == YoloInit
    ensures Leads(c, m, n) && Adjusted(started, n)
  {
    var tick := Tick(0, None, true);
    LeadsOn(c, m, started, tick);
    var adjusting := Step(c, started, tick);
    n := AdjustCompletes(c, adjusting);
    LeadsTransitive(c, m, adjusting, n);
  }

  /** What a drop or what follows it leaves alone. */
  predicate SameCourse(m: Mission, n: Mission) {
    && n.progress.targetId == m.progress.targetId
    && n.progress.doLand == m.progress.doLand
    && n.sensors.egoReady == m.sensors.egoReady
  }

  predicate InStage(m: Mission, stage: MissionStage) {
    m.phase == ExecMission && m.stage == stage
  }

  lemma RiseCompletes(c: Config, m: Mission, rising: Mission) returns (n: Mission)
    requires Leads(c, m, rising) && InStage(rising, Rise)
    ensures Leads(c, m, n) && SameCourse(rising, n) && n.phase == Hold && n.progress.justPut
    ensures n.progress.servo == rising.progress.servo
  {
    var risen := Odometry(Position(0, 0, c.holdHeight));
    LeadsOn(c, m, rising, risen);
    n := Step(c, rising, risen);
    LeadsOn(c, m, n, Tick(0, None, true));
    n := Step(c, n, Tick(0, None, true));
  }

  lemma PutCompletes(c: Config, m: Mission, putting: Mission) returns (n: Mission)
    requires Leads(c, m, putting) && InStage(putting, Put)
    requires !c.doPut || 1 <= putting.progress.servo <= 3
    ensures Leads(c, m, n) && SameCourse(putting, n) && n.phase == Hold && n.progress.justPut
    ensures n.progress.servo == putting.progress.servo - (if c.doPut then 1 else 0)
  {
    var wait: nat := 3 * SECOND + putting.pursuit.holdTime;
    LeadsOn(c, m, putting, Tick(wait, None, true));
    n := RiseCompletes(c, m, Step(c, putting, Tick(wait, None, true)));
  }

  lemma DropLeadsToPut(c: Config, m: Mission, dropping: Mission) returns (n: Mission)
    requires Leads(c, m, dropping) && InStage(dropping, Drop)
    ensures Leads(c, m, n) && SameCourse(dropping, n) && InStage(n, Put) && n.progress.servo == dropping.progress.servo
  {
    var over := Odometry(Position(0, 0, c.putHeight));
    var wait: nat := 5 * SECOND + dropping.pursuit.holdTime;
    LeadsOn(c, m, dropping, over);
    n := Step(c, dropping, over);
    LeadsOn(c, m, n, Tick(wait, None, true));
    n := Step(c, n, Tick(wait, None, true));
  }

  /** From a drop back to holding. */
  lemma DropCompletes(c: Config, m: Mission, dropping: Mission) returns (n: Mission)
    requires Leads(c, m, dropping) && InStage(dropping, Drop)
    requires !c.doPut || 1 <= dropping.progress.servo <= 3
    ensures Leads(c, m, n) && SameCourse(dropping, n) && n.phase == Hold && n.progress.justPut
    ensures n.progress.servo == dropping.progress.servo - (if c.doPut then 1 else 0)
  {
    var putting := DropLeadsToPut(c, m, dropping);
    n := PutCompletes(c, m, putting);
  }

  /** Holding after a release, or with none due, the next target goes out. */
  lemma NextGoesOut(c: Config, m: Mission, h: Mission) returns (n: Mission)
    requires Leads(c, m, h) && Ready(h) && c.points >= 1
    requires 1 <= h.progress.targetId && (h.progress.targetId <= 4 || h.progress.targetId < c.points)
    requires h.progress.justPut || h.progress.targetId > 4 || !c.doMission || h.progress.servo < 1 || !c.puts(h.progress.targetId - 1)
    ensures Leads(c, m, n) && Ready(n) && n.progress.targetId == h.progress.targetId + 1 && n.progress.doLand == h.progress.doLand
    ensures n.progress.servo == h.progress.servo && !n.progress.justPut
  {
    var wait: nat := 2 * SECOND + h.progress.lastPublication;
    LeadsOn(c, m, h, Tick(wait, None, true));
    n := Step(c, h, Tick(wait, None, true));
  }

  /** A mission is due before the next target goes out. */
  predicate MissionDue(c: Config, g: Progress)
    requires g.targetId >= 1
  {
    !g.justPut && g.targetId <= 4 && c.doMission && g.servo >= 1 && c.puts(g.targetId - 1)
  }

  /** The next target can be reached, by way of a mission when one is due. */
  lemma NextTarget(c: Config, m: Mission) returns (n: Mission)
    requires c.overtime1 >= 0 && c.points >= 1 && Ready(m) && Safe(c, m) && !m.progress.doLand
    requires 1 <= m.progress.targetId && (m.progress.targetId <= 4 || m.progress.targetId < c.points)
    ensures Leads(c, m, n) && Ready(n) && n.progress.targetId == m.progress.targetId + 1 && !n.progress.doLand
    ensures !n.progress.justPut
    ensures n.progress.servo == m.progress.servo - (if c.doPut && MissionDue(c, m.progress) then 1 else 0)
  {
    LeadsNowhere(c, m);
    var g := m.progress;
    if !MissionDue(c, g) {
      n := NextGoesOut(c, m, m);
    } else {
      var wait: nat := 2 * SECOND + g.lastPublication;
      LeadsStep(c, m, Tick(wait, None, true));
      var started := Step(c, m, Tick(wait, None, true));
      assert started.phase == ExecMission && started.stage == YoloInit && started.progress == g;
      var dropping := MissionAdjusts(c, m, started);
      var held := DropCompletes(c, m, dropping);
      n := NextGoesOut(c, m, held);
    }
  }

  lemma {:induction false} AllTargets(c: Config, m: Mission, goal: nat) returns (n: Mission)
    requires c.overtime1 >= 0 && c.points >= 1 && Ready(m) && Safe(c, m) && !m.progress.doLand
    requires 1 <= m.progress.targetId <= goal && (goal <= 5 || goal <= c.points)
    ensures Leads(c, m, n) && Ready(n) && n.progress.targetId == goal && !n.progress.doLand
    ensures m.progress.servo == 0 ==> n.progress.servo == 0
    decreases goal - m.progress.targetId
  {
    if m.progress.targetId == goal {
      LeadsNowhere(c, m);
      n := m;
    } else {
      var next := NextTarget(c, m);
      LeadsSafely(c, m, next);
      n := AllTargets(c, next, goal);
      LeadsTransitive(c, m, next, n);
    }
  }

  /** The landing mission begins once every target is out. */
  lemma LastPartStarts(c: Config, m: Mission, h: Mission) returns (n: Mission)
    requires Leads(c, m, h) && Ready(h) && h.progress.targetId == c.points >= 5
    ensures Leads(c, m, n) && InStage(n, YoloInit) && n.progress == h.progress.(doLand := true)
  {
    var wait: nat := 2 * SECOND + h.progress.lastPublication;
    LeadsOn(c, m, h, Tick(wait, None, true));
    n := Step(c, h, Tick(wait, None, true));
  }

  /** The last stage can always be completed. */
  lemma DropLandCompletes(c: Config, m: Mission, landing: Mission) returns (n: Mission)
    requires Leads(c, m, landing) && InStage(landing, DropLand)
    ensures Leads(c, m, n) && n.phase == Land
  {
    var over := Some(Detection(0, 0));
    var wait: nat := 5 * SECOND + landing.pursuit.holdTime;
    LeadsOn(c, m, landing, Tick(wait, over, true));
    n := Step(c, landing, Tick(wait, over, true));
    if n.phase != Land {
      LeadsOn(c, m, n, Tick(5 * SECOND, over, true));
      n := Step(c, n, Tick(5 * SECOND, over, true));
    }
  }

  /** With every target published, the drone can land. */
  lemma LastPartLands(c: Config, m: Mission, h: Mission) returns (n: Mission)
    requires c.overtime1 >= 0 && Leads(c, m, h) && Ready(h) && h.progress.targetId == c.points >= 5
    ensures Leads(c, m, n) && n.phase == Land
  {
    var started := LastPartStarts(c, m, h);
    var landing := MissionAdjusts(c, m, started);
    n := DropLandCompletes(c, m, landing);
  }

  /** From holding, the first target can go out. */
  lemma FirstTarget(c: Config, m: Mission) returns (n: Mission)
    requires c.points >= 1 && Safe(c, m) && m.phase == Hold
    ensures Leads(c, m, n) && Ready(n) && Safe(c, n) && n.progress.targetId >= 1 && n.progress.doLand == m.progress.doLand
    ensures n.progress.servo == m.progress.servo && n.progress.justPut == m.progress.justPut
    ensures n.progress.targetId == (if m.progress.targetId == 0 then 1 else m.progress.targetId)
  {
    LeadsStep(c, m, EgoState(true));
    n := Step(c, m, EgoState(true));
    if n.progress.targetId == 0 {
      LeadsOn(c, m, n, Tick(0, None, true));
      n := Step(c, n, Tick(0, None, true));
    }
    LeadsSafely(c, m, n);
  }

  lemma LandingIsReachable(c: Config, m: Mission) returns (n: Mission)
    requires c.overtime1 >= 0 && c.points >= 5 && Safe(c, m) && m.phase == Hold
    ensures Leads(c, m, n) && n.phase == Land
  {
    var h := FirstTarget(c, m);
    if !h.progress.doLand {
      var last := AllTargets(c, h, c.points);
      LeadsTransitive(c, m, h, last);
      h := last;
    }
    n := LastPartLands(c, m, h);
  }

  /** Dropping with nothing left to release. */
  predicate Stranded(c: Config, m: Mission) {
    (InStage(m, Drop) || InStage(m, Put)) && c.doPut && m.progress.servo == 0
  }

  lemma {:induction false} StrandedForEver(c: Config, m: Mission, es: seq<Event>)
    requires Stranded(c, m)
    ensures Stranded(c, Fly(c, m, es))
    decreases |es|
  {
    if es != [] {
      StrandedForEver(c, Step(c, m, es[0]), es[1..]);
    }
  }

  /** A mission that is not stranded can be brought back to holding, or the drone landed. */
  lemma MissionCompletes(c: Config, m: Mission) returns (n: Mission)
    requires c.overtime1 >= 0 && Safe(c, m) && m.phase == ExecMission && !Stranded(c, m)
    ensures Leads(c, m, n) && (n.phase == Land || n.phase == Hold)
  {
    LeadsNowhere(c, m);
    if m.stage == YoloInit {
      n := MissionAdjusts(c, m, m);
    } else if m.stage == Adjust {
      n := AdjustCompletes(c, m);
    } else {
      n := m;
    }
    if n.stage == Drop {
      n := DropCompletes(c, m, n);
    } else if n.stage == Put {
      n := PutCompletes(c, m, n);
    } else if n.stage == Rise {
      n := RiseCompletes(c, m, n);
    } else {
      n := DropLandCompletes(c, m, n);
    }
  }

  /** Some position is near enough to end the take-off. */
  ghost predicate CanTakeOff(c: Config) {
    exists near :: c.distance(near, TAKE_OFF_POSITION) < 300
  }

  /** Some position is near enough to the target to end the tracking. */
  ghost predicate CanArrive(c: Config, target: Position) {
    exists near :: c.distance(near, target) < 500
  }

  /** Nothing stands between this state and a landing but the number of targets. */
  ghost predicate Unhindered(c: Config, m: Mission) {
    match m.phase
    case Init => CanTakeOff(c)
    case TakingOff => CanTakeOff(c)
    case Tracking => CanArrive(c, m.sensors.currentTarget)
    case ExecMission => !Stranded(c, m)
    case Hold => true
    case Land => true
  }

  /** The drone takes off, given a position near the end of the take-off. */
  lemma TakesOff(c: Config, m: Mission, near: Position) returns (n: Mission)
    requires (m.phase == Init || m.phase == TakingOff) && c.distance(near, TAKE_OFF_POSITION) < 300
    ensures Leads(c, m, n) && n.phase == Hold && n.progress == m.progress
  {
    LeadsStep(c, m, Connection(true));
    n := Step(c, m, Connection(true));
    LeadsOn(c, m, n, Odometry(near));
    n := Step(c, n, Odometry(near));
    LeadsOn(c, m, n, Tick(0, None, true));
    n := Step(c, n, Tick(0, None, true));
    if n.phase == TakingOff {
      LeadsOn(c, m, n, Tick(0, None, true));
      n := Step(c, n, Tick(0, None, true));
    }
  }

  lemma Arrives(c: Config, m: Mission, near: Position) returns (n: Mission)
    requires m.phase == Tracking && c.distance(near, m.sensors.currentTarget) < 500
    ensures Leads(c, m, n) && n.phase == Hold
  {
    LeadsStep(c, m, Odometry(near));
    n := Step(c, m, Odometry(near));
    LeadsOn(c, m, n, Tick(0, None, true));
    n := Step(c, n, Tick(0, None, true));
  }

  lemma {:induction false} NeverTakesOff(c: Config, m: Mission, es: seq<Event>)
    requires !CanTakeOff(c) && (m.phase == Init || m.phase == TakingOff)
    ensures Fly(c, m, es).phase == Init || Fly(c, m, es).phase == TakingOff
    decreases |es|
  {
    if es != [] {
      NeverTakesOff(c, Step(c, m, es[0]), es[1..]);
    }
  }

  lemma {:induction false} NeverArrives(c: Config, m: Mission, es: seq<Event>)
    requires m.phase == Tracking && !CanArrive(c, m.sensors.currentTarget)
    ensures Fly(c, m, es).phase == Tracking
    decreases |es|
  {
    if es != [] {
      NeverArrives(c, Step(c, m, es[0]), es[1..]);
    }
  }

  lemma HinderedNeverLands(c: Config, m: Mission, es: seq<Event>)
    requires !Unhindered(c, m)
    ensures Fly(c, m, es).phase != Land
  {
    if m.phase == ExecMission {
      StrandedForEver(c, m, es);
    } else if m.phase == Tracking {
      NeverArrives(c, m, es);
    } else {
      NeverTakesOff(c, m, es);
    }
  }

  /** An unhindered flight comes to hold, or lands. */
  lemma ComesToHold(c: Config, m: Mission) returns (n: Mission)
    requires c.overtime1 >= 0 && Safe(c, m) && Unhindered(c, m)
    ensures Leads(c, m, n) && (n.phase == Land || n.phase == Hold)
  {
    if m.phase == ExecMission {
      n := MissionCompletes(c, m);
    } else if m.phase == Init || m.phase == TakingOff {
      var near :| c.distance(near, TAKE_OFF_POSITION) < 300;
      n := TakesOff(c, m, near);
    } else if m.phase == Tracking {
      var near :| c.distance(near, m.sensors.currentTarget) < 500;
      n := Arrives(c, m, near);
    } else {
      LeadsNowhere(c, m);
      n := m;
    }
  }

  /**
   * From any state of a flight, landing is possible exactly with five targets or more, unless the drone
   * cannot come near where it must take off to or is tracking to, or is stranded in a drop with nothing
   * left to release.
   */
  lemma LandsExactlyWithFiveTargets(c: Config, m: Mission)
    requires c.overtime1 >= 0 && Safe(c, m)
    ensures c.points >= 5 && Unhindered(c, m) <==> exists n :: Leads(c, m, n) && n.phase == Land
  {
    if c.points >= 5 && Unhindered(c, m) {
      var held := ComesToHold(c, m);
      if held.phase == Hold {
        LeadsSafely(c, m, held);
        var n := LandingIsReachable(c, held);
        LeadsTransitive(c, m, held, n);
      }
    }
    if n :| Leads(c, m, n) && n.phase == Land {
      LeadsSafely(c, m, n);
      var es :| Fly(c, m, es) == n;
      if !Unhindered(c, m) {
        HinderedNeverLands(c, m, es);
      }
    }
  }

  // ------------------------------------------------- a stranded flight exists

  /** Adjusting with nothing in sight ends in a drop, even when landing. */
  lemma {:induction false} BlindAdjusting(c: Config, m: Mission, a: Mission) returns (n: Mission)
    requires Leads(c, m, a) && Adjusting(a)
    ensures Leads(c, m, n) && InStage(n, Drop) && n.progress == a.progress
    decreases AtLeastZero(2 - a.pursuit.raises), AtLeastZero(c.overtime1 * 60 + 1 - a.pursuit.misses)
  {
    LeadsOn(c, m, a, Tick(0, None, true));
    n := Step(c, a, Tick(0, None, true));
    if n.stage == Adjust {
      n := BlindAdjusting(c, m, n);
    }
  }

  /** A release after each of the first three targets leaves none for the landing. */
  lemma ThreeReleases(c: Config, m: Mission) returns (n: Mission)
    requires c.overtime1 >= 0 && c.points >= 5 && c.doMission && c.doPut && c.puts(0) && c.puts(1) && c.puts(2)
    requires Ready(m) && Safe(c, m) && m.progress.targetId == 1 && m.progress.servo == 3
    requires !m.progress.justPut && !m.progress.doLand
    ensures Leads(c, m, n) && Ready(n) && n.progress.targetId == c.points && n.progress.servo == 0
  {
    var second := NextTarget(c, m);
    LeadsSafely(c, m, second);
    var third := NextTarget(c, second);
    LeadsTransitive(c, m, second, third);
    LeadsSafely(c, m, third);
    var fourth := NextTarget(c, third);
    LeadsTransitive(c, m, third, fourth);
    LeadsSafely(c, m, fourth);
    n := AllTargets(c, fourth, c.points);
    LeadsTransitive(c, m, fourth, n);
  }

  /** A whole flight that ends stranded: three releases, then nothing is seen while landing. */
  lemma LandingCanStrand(c: Config, haveOdometry: bool, odometry: Position, target: Position, height: int, near: Position)
    returns (n: Mission)
    requires c.overtime1 >= 0 && c.points >= 5 && c.doMission && c.doPut && c.puts(0) && c.puts(1) && c.puts(2)
    requires c.distance(near, TAKE_OFF_POSITION) < 300
    ensures Leads(c, Begin(haveOdometry, odometry, target, height), n)
    ensures InStage(n, Put) && n.progress.servo == 0 && n.progress.doLand && Stranded(c, n)
  {
    var m := Begin(haveOdometry, odometry, target, height);
    BeginIsSafe(c, haveOdometry, odometry, target, height);
    var held := TakesOff(c, m, near);
    LeadsSafely(c, m, held);
    var first := FirstTarget(c, held);
    LeadsTransitive(c, m, held, first);
    var last := ThreeReleases(c, first);
    LeadsTransitive(c, m, first, last);
    var started := LastPartStarts(c, m, last);
    LeadsOn(c, m, started, Tick(0, None, true));
    var dropping := BlindAdjusting(c, m, Step(c, started, Tick(0, None, true)));
    n := DropLeadsToPut(c, m, dropping);
  }

  /** Only configured targets can go out exactly when there are none to go out or at least five. */
  lemma TargetsAreConfigured(c: Config, m: Mission)
    requires c.overtime1 >= 0 && Safe(c, m) && m.phase == Hold && (c.points < 1 ==> m.progress.targetId == 0)
    ensures c.points < 1 || c.points >= 5 <==> forall n :: Leads(c, m, n) ==> n.progress.targetId <= AtLeastZero(c.points)
  {
    if 1 <= c.points < 5 {
      var h := FirstTarget(c, m);
      if h.progress.targetId < 5 {
        var n := AllTargets(c, h, 5);
        LeadsTransitive(c, m, h, n);
      }
    } else {
      forall n | Leads(c, m, n)
        ensures n.progress.targetId <= AtLeastZero(c.points)
      {
        var es :| Fly(c, m, es) == n;
        if c.points >= 5 {
          LeadsSafely(c, m, n);
        } else {
          NothingGoesOut(c, m, es);
        }
      }
    }
  }

  lemma {:induction false} NothingGoesOut(c: Config, m: Mission, es: seq<Event>)
    requires c.points < 1 && m.progress.targetId == 0
    ensures Fly(c, m, es).progress.targetId == 0
    decreases |es|
  {
    if es != [] {
      NothingGoesOut(c, Step(c, m, es[0]), es[1..]);
    }
  }
}
