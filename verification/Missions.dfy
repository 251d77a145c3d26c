/** The flight's state machine as a function of its state and of what happens next. */
module Missions {
  import opened Bytes

  datatype Phase = Init | TakingOff | Land | Hold | ExecMission | Tracking

  datatype MissionStage = YoloInit | Adjust | Drop | Rise | Put | DropLand

  datatype Position = Position(x: int, y: int, z: int)

  /** Offsets of the detected object.  Lengths are in millimetres. */
  datatype Detection = Detection(dx: int, dy: int)

  /** Times are in nanoseconds; timeouts in the parameters are in units of 60 or 100 ticks. */
  const SECOND: nat := 1_000_000_000

  datatype Config = Config(
    points: int,                       // target_point_num_
    targets: nat -> Position,
    distance: (Position, Position) -> int,
    doMission: bool,
    doPut: bool,
    puts: nat -> bool,                 // whether to release something after target k
    overtime1: int,
    overtime2: int,
    detectHeight: int,
    adjustHeight: int,
    putHeight: int,
    holdHeight: int)

  const TAKE_OFF_POSITION: Position := Position(0, 0, 1100)

  datatype Output = Target(k: nat) | Released(servo: int)

  /** What the flight has done, the latest first. */
  datatype Log = Nothing | Then(output: Output, before: Log)

  /** What the drone knows about itself and its surroundings. */
  datatype Sensors = Sensors(
    egoReady: bool,
    connected: bool,
    haveOdometry: bool,
    odometry: Position,
    currentTarget: Position,
    paused: bool)

  /** How far the flight has come. */
  datatype Progress = Progress(
    log: Log,
    targetId: nat,
    servo: int,                        // put_servo_id
    justPut: bool,
    doLand: bool,
    lastPublication: nat)

  /** Closing in on a detected object. */
  datatype Pursuit = Pursuit(
    adjusted: bool,
    misses: int,                       // overtime_t_
    detections: int,                   // detect_overtime
    raises: nat,                       // the counter nn
    holdTime: nat,
    height: int)                       // commanded by the mission setpoint

  datatype Mission = Mission(
    phase: Phase,
    stage: MissionStage,
    clock: nat,
    timer: bool,                       // whether the mission setpoint is being published
    sensors: Sensors,
    progress: Progress,
    pursuit: Pursuit)

  datatype Event =
    | Tick(elapsed: nat, seen: Option<Detection>, servoWorks: bool)
    | EgoCommand
    | EgoState(ready: bool)
    | Odometry(position: Position)
    | Connection(up: bool)

  function Begin(haveOdometry: bool, odometry: Position, target: Position, height: int): Mission {
    Mission(Init, YoloInit, 0, false, Sensors(false, false, haveOdometry, odometry, target, false),
      Progress(Nothing, 0, 3, false, false, 0), Pursuit(false, 0, 0, 0, 0, height))
  }

  function Abs(x: int): (r: int)
    ensures r >= 0
  {
    if x < 0 then -x else x
  }

  /** Each servo sits at its own offset from the camera. */
  function Aim(servo: int, d: Detection): Detection {
    if servo == 2 then d.(dx := d.dx + 100)
    else if servo == 3 then d.(dy := d.dy - 100)
    else if servo == 1 then d.(dx := d.dx - 100)
    else d
  }

  predicate Within(d: Detection, limit: int) {
    Abs(d.dx) < limit && Abs(d.dy) < limit
  }

  /** The servo service moves servos 1, 2 and 3, when the hardware does. */
  predicate ServoMoves(servo: int, works: bool) {
    1 <= servo <= 3 && works
  }

  // ----------------------------------------------------------- the phases

  /** How a step of a mission ends. */
  datatype Outcome = Outcome(stage: MissionStage, pursuit: Pursuit)

  function PublishTarget(g: Progress, clock: nat): Progress {
    g.(log := Then(Target(g.targetId), g.log), lastPublication := clock, targetId := g.targetId + 1)
  }

  function Published(c: Config, m: Mission): Mission {
    m.(progress := PublishTarget(m.progress, m.clock), sensors := m.sensors.(currentTarget := c.targets(m.progress.targetId)))
  }

  /** The mark of the last release is cleared, except by the very first target. */
  function PublishedNext(c: Config, m: Mission): Mission {
    var m1 := Published(c, m);
    m1.(progress := m1.progress.(justPut := false))
  }

  function StartMission(m: Mission): Mission {
    m.(phase := ExecMission, stage := YoloInit)
  }

  function HoldStep(c: Config, m: Mission): Mission {
    var g := m.progress;
    var recent := m.clock - g.lastPublication < 2 * SECOND;
    if !m.sensors.egoReady || c.points < 1 then m
    else if g.targetId == 0 then Published(c, m)
    else if g.targetId <= 4 then
      if recent then m
      else if c.doMission && !g.justPut && g.servo >= 1 && c.puts(g.targetId - 1) then StartMission(m)
      else PublishedNext(c, m)
    else if g.targetId < c.points then
      if recent then m else PublishedNext(c, m)
    else if g.targetId == c.points then
      if recent then m else StartMission(m.(progress := g.(doLand := true)))
    else m
  }

  /** Too many ticks without a detection. */
  function MissedStep(c: Config, p: Pursuit): Outcome {
    if p.misses <= c.overtime1 * 60 then Outcome(Adjust, p)
    else if p.raises >= 2 then Outcome(Drop, p.(misses := 0, raises := 0))
    else Outcome(Adjust, p.(misses := 0, height := p.height + 300, raises := p.raises + 1))
  }

  /** The drone is over the object, or has been trying for long. */
  function OnTarget(p: Pursuit, near: bool, clock: nat, doLand: bool): Outcome {
    if !((near || p.detections > 80) && clock - p.holdTime >= 5 * SECOND) then Outcome(Adjust, p)
    else if doLand then Outcome(DropLand, p)
    else Outcome(Drop, p.(detections := 0, holdTime := clock))
  }

  function SeenStep(c: Config, p: Pursuit, d: Detection, clock: nat, doLand: bool): Outcome {
    if (Within(d, 200) || p.detections > 800) && !p.adjusted
    then Outcome(Adjust, p.(holdTime := clock, height := c.adjustHeight, detections := 0, adjusted := true))
    else
      var o := OnTarget(p, Within(d, 100), clock, doLand);
      if o.stage != Adjust then o else MissedStep(c, o.pursuit)
  }

  function AdjustStep(c: Config, p: Pursuit, seen: Option<Detection>, clock: nat, servo: int, doLand: bool): Outcome {
    match seen
    case None => MissedStep(c, p.(misses := p.misses + 1))
    case Some(d) => SeenStep(c, p.(misses := 0, detections := p.detections + 1), Aim(servo, d), clock, doLand)
  }

  function DropStep(c: Config, p: Pursuit, seen: Option<Detection>, clock: nat, altitude: int): Outcome {
    var p1 := p.(misses := if seen.Some? then 0 else p.misses + 1, height := c.putHeight);
    if (Abs(altitude - c.putHeight) < 200 || p1.misses > c.overtime2 * 100) && clock - p.holdTime >= 5 * SECOND
    then Outcome(Put, p1.(holdTime := clock))
    else Outcome(Drop, p1)
  }

  function PutStep(c: Config, m: Mission, servoWorks: bool): Mission {
    var g := m.progress;
    if !c.doPut then m.(stage := Rise)
    else if m.clock - m.pursuit.holdTime < 3 * SECOND || !ServoMoves(g.servo, servoWorks) then m
    else m.(progress := g.(log := Then(Released(g.servo), g.log), servo := g.servo - 1), stage := Rise)
  }

  function RiseStep(c: Config, m: Mission): Mission {
    var p := m.pursuit.(height := c.holdHeight);
    if Abs(m.sensors.odometry.z - c.holdHeight) < 100
    then m.(pursuit := p.(adjusted := false), progress := m.progress.(justPut := true), timer := false, phase := Hold)
    else m.(pursuit := p)
  }

  /** The last stage: whether to land now, and how the pursuit goes on. */
  function DropLandStep(c: Config, p: Pursuit, d: Detection, clock: nat): (bool, Pursuit) {
    if (Within(d, 200) || p.detections > c.overtime2 * 100) && !p.adjusted
    then (false, p.(holdTime := clock, height := 600, detections := 0, adjusted := true))
    else if !(Within(d, 100) || p.detections > 80) then (false, p)
    else (clock - p.holdTime >= 5 * SECOND, p.(height := 300))
  }

  function Landing(c: Config, m: Mission, seen: Option<Detection>): Mission {
    var p := m.pursuit;
    match seen
    case None => m.(pursuit := p.(misses := p.misses + 1))
    case Some(d) =>
      var (lands, p1) := DropLandStep(c, p.(misses := 0, detections := p.detections + 1), d, m.clock);
      m.(pursuit := p1, phase := if lands then Land else ExecMission)
  }

  function Went(m: Mission, o: Outcome): Mission {
    m.(stage := o.stage, pursuit := o.pursuit)
  }

  function MissionStep(c: Config, m: Mission, seen: Option<Detection>, servoWorks: bool): Mission
    requires m.phase == ExecMission
  {
    match m.stage
    case YoloInit => m.(timer := true, pursuit := m.pursuit.(height := c.detectHeight), stage := Adjust)
    case Adjust => Went(m, AdjustStep(c, m.pursuit, seen, m.clock, m.progress.servo, m.progress.doLand))
    case Drop => Went(m, DropStep(c, m.pursuit, seen, m.clock, m.sensors.odometry.z))
    case Rise => RiseStep(c, m)
    case Put => PutStep(c, m, servoWorks)
    case DropLand => Landing(c, m, seen)
  }

  /** The drone is near its target, so it need not be tracked. */
  function Looked(c: Config, s: Sensors): Sensors {
    s.(paused := c.distance(s.odometry, s.currentTarget) < 500)
  }

  /** What every tick does first. */
  function Clocked(c: Config, m: Mission, elapsed: nat): Mission {
    m.(clock := m.clock + elapsed, sensors := Looked(c, m.sensors))
  }

  /** One tick of the loop, on a state whose clock and pause flag are up to date. */
  function TickStep(c: Config, m: Mission, seen: Option<Detection>, servoWorks: bool): Mission {
    match m.phase
    case Init => if m.sensors.connected && m.sensors.haveOdometry then m.(phase := TakingOff) else m
    case TakingOff => if c.distance(m.sensors.odometry, TAKE_OFF_POSITION) < 300 then m.(phase := Hold) else m
    case Hold => HoldStep(c, m)
    case ExecMission => MissionStep(c, m, seen, servoWorks)
    case Land => m
    case Tracking => if m.sensors.paused then m.(phase := Hold) else m
  }

  function Step(c: Config, m: Mission, e: Event): Mission {
    match e
    case Tick(elapsed, seen, servoWorks) => TickStep(c, Clocked(c, m, elapsed), seen, servoWorks)
    case EgoCommand => if m.phase == Hold && !m.sensors.paused then m.(phase := Tracking) else m
    case EgoState(ready) => m.(sensors := m.sensors.(egoReady := ready))
    case Odometry(position) => m.(sensors := m.sensors.(odometry := position, haveOdometry := true))
    case Connection(up) => m.(sensors := m.sensors.(connected := up))
  }

  function Fly(c: Config, m: Mission, es: seq<Event>): Mission
    decreases |es|
  {
    if es == [] then m else Fly(c, Step(c, m, es[0]), es[1..])
  }

  // --------------------------------------------------- what the log records

  /** The targets published, in order. */
  function Targets(log: Log): seq<nat> {
    match log
    case Nothing => []
    case Then(o, before) => if o.Target? then Targets(before) + [o.k] else Targets(before)
  }

  /** The servos released, in order. */
  function Releases(log: Log): seq<int> {
    match log
    case Nothing => []
    case Then(o, before) => if o.Released? then Releases(before) + [o.servo] else Releases(before)
  }

  /** How many releases there were since the last target. */
  function Fresh(log: Log): nat {
    match log
    case Nothing => 0
    case Then(o, before) => if o.Target? then 0 else 1 + Fresh(before)
  }

  /** Between two targets, and before the first, there is at most one release. */
  predicate Spaced(log: Log) {
    match log
    case Nothing => true
    case Then(o, before) => Spaced(before) && (o.Target? ==> Fresh(before) <= 1)
  }

  function UpTo(n: nat): seq<nat> {
    seq(n, i => i)
  }

  /** The releases so far, when servo `servo` is next. */
  function Countdown(servo: int): seq<int>
    requires 0 <= servo <= 3
  {
    [3, 2, 1][..3 - servo]
  }

  // -------------------------------------------------------------- invariant

  /** A mission that may still release something has released nothing since the last target. */
  predicate OneRelease(m: Mission) {
    var g := m.progress;
    g.doLand || (Fresh(g.log) <= 1 &&
    (Fresh(g.log) == 0 || (if m.phase == ExecMission then m.stage == Rise else g.justPut)))
  }

  /** The targets so far in order, the releases so far in order. */
  predicate Recorded(g: Progress) {
    && Targets(g.log) == UpTo(g.targetId)
    && 0 <= g.servo <= 3
    && Releases(g.log) == Countdown(g.servo)
    && Spaced(g.log)
  }

  /** Landing is the last part. */
  predicate LandsLast(c: Config, m: Mission) {
    && (m.progress.targetId <= 5 || m.progress.targetId <= c.points)
    && (m.progress.doLand ==> m.progress.targetId == c.points >= 5)
    && (m.phase == Land ==> m.progress.doLand)
    && (m.stage == DropLand && m.phase == ExecMission ==> m.progress.doLand)
  }

  /** The mission setpoint is published during missions, once they have begun, and landings, and only then. */
  predicate TimerTame(m: Mission) {
    m.timer <==> (m.phase == ExecMission && m.stage != YoloInit) || m.phase == Land
  }

  /** A mission other than the landing has something to release, until it is rising again. */
  predicate Loaded(m: Mission) {
    m.phase == ExecMission && m.stage != Rise && !m.progress.doLand ==> m.progress.servo >= 1
  }

  predicate Safe(c: Config, m: Mission) {
    Recorded(m.progress) && OneRelease(m) && LandsLast(c, m) && TimerTame(m) && Loaded(m)
  }

  lemma BeginIsSafe(c: Config, haveOdometry: bool, odometry: Position, target: Position, height: int)
    ensures Safe(c, Begin(haveOdometry, odometry, target, height))
  {
  }

  lemma PublishIsRecorded(g: Progress, clock: nat)
    requires Recorded(g) && Fresh(g.log) <= 1
    ensures Recorded(PublishTarget(g, clock)) && Fresh(PublishTarget(g, clock).log) == 0
  {
    assert UpTo(g.targetId) + [g.targetId] == UpTo(g.targetId + 1);
  }

  lemma HoldIsSafe(c: Config, m: Mission)
    requires Safe(c, m) && m.phase == Hold
    ensures Safe(c, HoldStep(c, m))
  {
    if !m.progress.doLand {
      PublishIsRecorded(m.progress, m.clock);
    }
  }

  /** Adjusting ends in a drop, or when landing in the last stage. */
  lemma AdjustLeadsOn(c: Config, p: Pursuit, seen: Option<Detection>, clock: nat, servo: int, doLand: bool)
    ensures var o := AdjustStep(c, p, seen, clock, servo, doLand);
      o.stage == Adjust || o.stage == Drop || (o.stage == DropLand && doLand)
  {
  }

  lemma PutIsSafe(c: Config, m: Mission, servoWorks: bool)
    requires Safe(c, m) && m.phase == ExecMission && m.stage == Put
    ensures Safe(c, PutStep(c, m, servoWorks))
  {
    if m.progress.servo > 0 {
      assert Countdown(m.progress.servo) + [m.progress.servo] == Countdown(m.progress.servo - 1);
    }
  }

  lemma MissionIsSafe(c: Config, m: Mission, seen: Option<Detection>, servoWorks: bool)
    requires Safe(c, m) && m.phase == ExecMission
    ensures Safe(c, MissionStep(c, m, seen, servoWorks))
  {
    if m.stage == Adjust {
      AdjustLeadsOn(c, m.pursuit, seen, m.clock, m.progress.servo, m.progress.doLand);
    } else if m.stage == Put {
      PutIsSafe(c, m, servoWorks);
    }
  }

  lemma TickIsSafe(c: Config, m: Mission, seen: Option<Detection>, servoWorks: bool)
    requires Safe(c, m)
    ensures Safe(c, TickStep(c, m, seen, servoWorks))
  {
    if m.phase == Hold {
      HoldIsSafe(c, m);
    } else if m.phase == ExecMission {
      MissionIsSafe(c, m, seen, servoWorks);
    }
  }

  /** Only the phase and what is recorded matter. */
  lemma SafetyIgnores(c: Config, m: Mission, clock: nat, sensors: Sensors)
    requires Safe(c, m)
    ensures Safe(c, m.(clock := clock, sensors := sensors))
  {
  }

  lemma CommandIsSafe(c: Config, m: Mission)
    requires Safe(c, m) && m.phase == Hold
    ensures Safe(c, m.(phase := Tracking))
  {
  }

  lemma StepIsSafe(c: Config, m: Mission, e: Event)
    requires Safe(c, m)
    ensures Safe(c, Step(c, m, e))
  {
    match e
    case Tick(elapsed, seen, servoWorks) =>
      SafetyIgnores(c, m, m.clock + elapsed, Looked(c, m.sensors));
      TickIsSafe(c, Clocked(c, m, elapsed), seen, servoWorks);
    case EgoCommand =>
      if m.phase == Hold {
        CommandIsSafe(c, m);
      }
    case EgoState(ready) => SafetyIgnores(c, m, m.clock, m.sensors.(egoReady := ready));
    case Odometry(position) => SafetyIgnores(c, m, m.clock, m.sensors.(odometry := position, haveOdometry := true));
    case Connection(up) => SafetyIgnores(c, m, m.clock, m.sensors.(connected := up));
  }

  lemma {:induction false} FlightIsSafe(c: Config, m: Mission, es: seq<Event>)
    requires Safe(c, m)
    ensures Safe(c, Fly(c, m, es))
    decreases |es|
  {
    if es != [] {
      StepIsSafe(c, m, es[0]);
      FlightIsSafe(c, Step(c, m, es[0]), es[1..]);
    }
  }

  // ------------------------------------------------------ commanded height

  function Higher(c: Config): int {
    if c.detectHeight < c.adjustHeight then c.adjustHeight else c.detectHeight
  }

  /** The commanded height while adjusting. */
  predicate LowEnough(c: Config, m: Mission) {
    m.phase == ExecMission && m.stage == Adjust ==> Low(c, m.pursuit)
  }

  predicate Low(c: Config, p: Pursuit) {
    p.raises <= 2 && p.height <= Higher(c) + 300 * p.raises
  }

  predicate FewRaises(m: Mission) {
    m.pursuit.raises <= 2
  }

  lemma AdjustIsLow(c: Config, p: Pursuit, seen: Option<Detection>, clock: nat, servo: int, doLand: bool)
    requires Low(c, p)
    ensures var o := AdjustStep(c, p, seen, clock, servo, doLand);
      o.pursuit.raises <= 2 && (o.stage == Adjust ==> Low(c, o.pursuit))
  {
  }

  lemma StepIsLow(c: Config, m: Mission, e: Event)
    requires FewRaises(m) && LowEnough(c, m)
    ensures FewRaises(Step(c, m, e)) && LowEnough(c, Step(c, m, e))
  {
    if e.Tick? && m.phase == ExecMission && m.stage == Adjust {
      AdjustIsLow(c, m.pursuit, e.seen, m.clock + e.elapsed, m.progress.servo, m.progress.doLand);
    }
  }

  // ------------------------------------------------------- the main results

  /** The state after any events, from the start. */
  function Flown(c: Config, haveOdometry: bool, odometry: Position, target: Position, height: int, es: seq<Event>): Mission {
    Fly(c, Begin(haveOdometry, odometry, target, height), es)
  }

  lemma {:induction false} FlightIsLow(c: Config, m: Mission, es: seq<Event>)
    requires FewRaises(m) && LowEnough(c, m)
    ensures LowEnough(c, Fly(c, m, es))
    decreases |es|
  {
    if es != [] {
      StepIsLow(c, m, es[0]);
      FlightIsLow(c, Step(c, m, es[0]), es[1..]);
    }
  }

  /** Targets go out in order, each once; servos 3, 2 and 1 release in order, with a target between two of them. */
  lemma FlightIsOrderly(c: Config, haveOdometry: bool, odometry: Position, target: Position, height: int, es: seq<Event>)
    ensures var g := Flown(c, haveOdometry, odometry, target, height, es).progress;
      && Targets(g.log) == UpTo(g.targetId)
      && Releases(g.log) <= [3, 2, 1]
      && Spaced(g.log)
      && (c.points >= 5 ==> g.targetId <= c.points)
  {
    var m := Begin(haveOdometry, odometry, target, height);
    BeginIsSafe(c, haveOdometry, odometry, target, height);
    FlightIsSafe(c, m, es);
  }

  /** The drone lands only after the last target, and so never with fewer than five. */
  lemma LandsAfterAllTargets(c: Config, haveOdometry: bool, odometry: Position, target: Position, height: int, es: seq<Event>)
    requires Flown(c, haveOdometry, odometry, target, height, es).phase == Land
    ensures c.points >= 5
    ensures Targets(Flown(c, haveOdometry, odometry, target, height, es).progress.log) == UpTo(c.points)
  {
    var m := Begin(haveOdometry, odometry, target, height);
    BeginIsSafe(c, haveOdometry, odometry, target, height);
    FlightIsSafe(c, m, es);
  }

  /**
   * The mission setpoint is published exactly in a mission that has begun and while landing: not before
   * take-off, while holding or while tracking.  Its height stays bounded while adjusting.
   */
  lemma SetpointsAreTame(c: Config, haveOdometry: bool, odometry: Position, target: Position, height: int, es: seq<Event>)
    ensures var m := Flown(c, haveOdometry, odometry, target, height, es);
      && (m.timer <==> (m.phase == ExecMission && m.stage != YoloInit) || m.phase == Land)
      && (m.phase == ExecMission && m.stage == Adjust ==> m.pursuit.height <= Higher(c) + 600)
  {
    var m := Begin(haveOdometry, odometry, target, height);
    BeginIsSafe(c, haveOdometry, odometry, target, height);
    FlightIsSafe(c, m, es);
    FlightIsLow(c, m, es);
  }

  /** Tracking starts from holding, on a command, away from the target; landing from the last stage. */
  lemma PhaseEntries(c: Config, m: Mission, e: Event)
    ensures Step(c, m, e).phase == Tracking != m.phase ==> m.phase == Hold && e == EgoCommand && !m.sensors.paused
    ensures Step(c, m, e).phase == Land != m.phase ==> m.phase == ExecMission && m.stage == DropLand && e.Tick?
    ensures m.phase == Land ==> Step(c, m, e).phase == Land
  {
  }

  /** With no servo left a drop cannot be finished: the release fails for ever. */
  lemma {:induction false} EmptyPutIsStuck(c: Config, m: Mission, es: seq<Event>)
    requires c.doPut && m.phase == ExecMission && m.stage == Put && m.progress.servo == 0
    ensures Fly(c, m, es).phase == ExecMission && Fly(c, m, es).stage == Put
    decreases |es|
  {
    if es != [] {
      EmptyPutIsStuck(c, Step(c, m, es[0]), es[1..]);
    }
  }

  // --------------------------------------------------------- adjusting ends

  function AtLeastZero(n: int): nat {
    if n < 0 then 0 else n
  }

  /** How many ticks of at least `delta` the hold time may still take. */
  function WaitLeft(elapsed: int, delta: nat): nat
    requires delta > 0
  {
    if elapsed >= 5 * SECOND then 0 else (5 * SECOND - elapsed) / delta + 1
  }

  /** How many detections there can be before the next stage. */
  function SightsLeft(p: Pursuit, clock: nat, delta: nat): nat
    requires delta > 0
  {
    if p.adjusted then AtLeastZero(80 - p.detections) + WaitLeft(clock - p.holdTime, delta)
    else AtLeastZero(801 - p.detections) + 81 + WaitLeft(0, delta)
  }

  /** How many misses there can be in a row. */
  function MaxMisses(c: Config): int {
    c.overtime1 * 60 + 1
  }

  /** A bound on the ticks spent adjusting. */
  function TicksLeft(c: Config, p: Pursuit, clock: nat, delta: nat): int
    requires delta > 0
  {
    (SightsLeft(p, clock, delta) + AtLeastZero(2 - p.raises)) * (MaxMisses(c) + 1) + AtLeastZero(MaxMisses(c) - p.misses)
  }

  lemma WaitShrinks(elapsed: int, later: int, delta: nat)
    requires delta > 0 && later >= elapsed + delta
    ensures WaitLeft(later, delta) <= WaitLeft(elapsed, delta)
    ensures later < 5 * SECOND ==> WaitLeft(later, delta) < WaitLeft(elapsed, delta)
  {
    if later < 5 * SECOND {
      var (a, b) := (5 * SECOND - elapsed, 5 * SECOND - later);
      assert b <= a - delta;
      DivisionDrops(a, b, delta);
    }
  }

  lemma DivisionDrops(a: int, b: int, d: nat)
    requires d > 0 && 0 <= b <= a - d
    ensures b / d + 1 <= a / d
  {
    var (q, r) := (a / d, a % d);
    assert a == q * d + r;
    var (q2, r2) := (b / d, b % d);
    assert b == q2 * d + r2;
    if q2 >= q {
      ProductAtLeastZero(q2 - q, d);
    }
  }

  lemma {:induction false} ProductAtLeastZero(n: nat, d: nat)
    ensures n * d >= 0
  {
  }

  /** A tick that does not end the adjusting brings its end nearer. */
  lemma AdjustingShrinks(c: Config, p: Pursuit, seen: Option<Detection>, clock: nat, later: nat, servo: int, doLand: bool, delta: nat)
    requires c.overtime1 >= 0 && p.misses >= 0 && delta > 0 && later >= clock + delta
    ensures var o := AdjustStep(c, p, seen, later, servo, doLand);
      o.stage == Adjust ==> o.pursuit.misses >= 0 && TicksLeft(c, o.pursuit, later, delta) < TicksLeft(c, p, clock, delta)
  {
    WaitShrinks(clock - p.holdTime, later - p.holdTime, delta);
    var o := AdjustStep(c, p, seen, later, servo, doLand);
    if o.stage == Adjust {
      var (s1, s2) := (SightsLeft(p, clock, delta), SightsLeft(o.pursuit, later, delta));
      var (r1, r2) := (AtLeastZero(2 - p.raises), AtLeastZero(2 - o.pursuit.raises));
      if seen.Some? {
        assert s2 + r2 < s1 + r1;
      } else {
        assert s2 <= s1;
      }
      if s2 + r2 < s1 + r1 {
        ProductDrops(s1 + r1, s2 + r2, MaxMisses(c) + 1);
      } else {
        assert s2 + r2 == s1 + r1;
      }
    }
  }

  lemma ProductDrops(a: int, b: int, k: int)
    requires b < a && k >= 0
    ensures a * k >= b * k + k
  {
    assert a * k == b * k + (a - b) * k;
    assert (a - b) * k == k + (a - b - 1) * k;
  }

  predicate Adjusting(m: Mission) {
    m.phase == ExecMission && m.stage == Adjust
  }

  /** Every tick takes at least `delta`. */
  predicate Paced(es: seq<Event>, delta: nat) {
    forall i :: 0 <= i < |es| ==> es[i].Tick? ==> es[i].elapsed >= delta
  }

  function Ticks(es: seq<Event>): nat {
    if es == [] then 0 else (if es[0].Tick? then 1 else 0) + Ticks(es[1..])
  }

  /** Whatever is seen or missed, adjusting is over after a number of ticks known beforehand. */
  lemma {:induction false} AdjustingEnds(c: Config, m: Mission, es: seq<Event>, delta: nat)
    requires c.overtime1 >= 0 && m.pursuit.misses >= 0 && delta > 0 && Paced(es, delta)
    requires Ticks(es) > TicksLeft(c, m.pursuit, m.clock, delta)
    ensures exists i :: 0 <= i <= |es| && !Adjusting(Fly(c, m, es[..i]))
    decreases |es|
  {
    if !Adjusting(m) {
      assert !Adjusting(Fly(c, m, es[..0]));
    } else if es != [] {
      var n := Step(c, m, es[0]);
      if es[0].Tick? {
        AdjustingShrinks(c, m.pursuit, es[0].seen, m.clock, m.clock + es[0].elapsed, m.progress.servo, m.progress.doLand, delta);
      }
      if Adjusting(n) {
        AdjustingEnds(c, n, es[1..], delta);
        var i :| 0 <= i <= |es[1..]| && !Adjusting(Fly(c, n, es[1..][..i]));
        assert es[..i + 1][1..] == es[1..][..i];
        assert !Adjusting(Fly(c, m, es[..i + 1]));
      } else {
        assert es[..1][1..] == [];
        assert !Adjusting(Fly(c, m, es[..1]));
      }
    }
  }
}
