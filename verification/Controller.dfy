/** The flight controller: its callbacks update the fields in place. */
module Controller {
  import opened Bytes
  import opened Missions
  import opened Drops
  import opened Setpoints

  class Fsm {
    const config: Config
    var phase: Phase
    var action: MissionStage
    var clock: nat
    var missionTimer: bool
    var sensors: Sensors
    var log: Log
    var targetId: nat
    var putServoId: int
    var haveJustPut: bool
    var doLand: bool
    var lastPubTime: nat
    var haveAdjusted: bool
    var overtime: int
    var detectOvertime: int
    var nn: nat
    var holdTime: nat
    var missionZ: int

    ghost function Progressed(): Progress
      reads this
    {
      Progress(log, targetId, putServoId, haveJustPut, doLand, lastPubTime)
    }

    ghost function Pursued(): Pursuit
      reads this
    {
      Pursuit(haveAdjusted, overtime, detectOvertime, nn, holdTime, missionZ)
    }

    ghost function State(): Mission
      reads this
    {
      Mission(phase, action, clock, missionTimer, sensors, Progressed(), Pursued())
    }

    constructor (c: Config, haveOdometry: bool, odometry: Position, target: Position, height: int)
      ensures config == c && State() == Begin(haveOdometry, odometry, target, height)
    {
      config := c;
      phase, action, clock, missionTimer := Init, YoloInit, 0, false;
      sensors := Sensors(false, false, haveOdometry, odometry, target, false);
      log, targetId, putServoId, haveJustPut, doLand, lastPubTime := Nothing, 0, 3, false, false, 0;
      haveAdjusted, overtime, detectOvertime, nn, holdTime, missionZ := false, 0, 0, 0, 0, height;
    }

    method PubNewTarget()
      modifies this`log, this`sensors, this`lastPubTime, this`targetId
      ensures State() == Published(config, old(State()))
    {
      log := Then(Target(targetId), log);
      sensors := sensors.(currentTarget := config.targets(targetId));
      lastPubTime := clock;
      targetId := targetId + 1;
    }

    method HoldState()
      requires phase == Hold
      modifies this
      ensures State() == HoldStep(config, old(State()))
    {
      if !sensors.egoReady {
        return;
      }
      if config.points < 1 {
        return;
      }
      if targetId == 0 {
        PubNewTarget();
        return;
      }
      var recent := clock - lastPubTime < 2 * SECOND;
      if targetId <= 4 {
        if recent {
          return;
        }
        if config.doMission && !haveJustPut && putServoId >= 1 && config.puts(targetId - 1) {
          phase := ExecMission;
          action := YoloInit;
          return;
        }
        PubNewTarget();
        haveJustPut := false;
        return;
      }
      if targetId < config.points {
        if recent {
          return;
        }
        PubNewTarget();
        haveJustPut := false;
        return;
      }
      if targetId == config.points {
        if recent {
          return;
        }
        doLand := true;
        phase := ExecMission;
        action := YoloInit;
      }
    }

    /** What the misses lead to. */
    method CountMisses()
      requires action == Adjust
      modifies this`overtime, this`action, this`nn, this`missionZ
      ensures State() == Went(old(State()), MissedStep(config, old(Pursued())))
    {
      if overtime > config.overtime1 * 60 && nn >= 2 {
        overtime := 0;
        action := Drop;
        nn := 0;
        return;
      }
      if overtime > config.overtime1 * 60 {
        overtime := 0;
        missionZ := missionZ + 300;
        nn := nn + 1;
      }
    }

    method AdjustAction(seen: Option<Detection>)
      requires action == Adjust
      modifies this
      ensures State() == Went(old(State()), AdjustStep(config, old(Pursued()), seen, old(clock), old(putServoId), old(doLand)))
    {
      if seen.Some? {
        overtime := 0;
        var d := Aim(putServoId, seen.value);
        detectOvertime := detectOvertime + 1;
        if Within(d, 200) || detectOvertime > 800 {
          if !haveAdjusted {
            holdTime := clock;
            missionZ := config.adjustHeight;
            detectOvertime := 0;
            haveAdjusted := true;
            return;
          }
        }
        if Within(d, 100) || detectOvertime > 80 {
          if clock - holdTime >= 5 * SECOND {
            if doLand {
              action := DropLand;
              return;
            }
            detectOvertime := 0;
            action := Drop;
            holdTime := clock;
            return;
          }
        }
      } else {
        overtime := overtime + 1;
      }
      CountMisses();
    }

    method DropAction(seen: Option<Detection>)
      requires action == Drop
      modifies this
      ensures State() == Went(old(State()), DropStep(config, old(Pursued()), seen, old(clock), old(sensors).odometry.z))
    {
      if seen.Some? {
        overtime := 0;
      } else {
        overtime := overtime + 1;
      }
      missionZ := config.putHeight;
      if Abs(sensors.odometry.z - config.putHeight) < 200 || overtime > config.overtime2 * 100 {
        if clock - holdTime >= 5 * SECOND {
          action := Put;
          holdTime := clock;
        }
      }
    }

    method RiseAction()
      modifies this
      ensures State() == RiseStep(config, old(State()))
    {
      missionZ := config.holdHeight;
      if Abs(sensors.odometry.z - config.holdHeight) < 100 {
        missionTimer := false;
        haveJustPut := true;
        haveAdjusted := false;
        phase := Hold;
      }
    }

    method PutAction(servoWorks: bool)
      modifies this
      ensures State() == PutStep(config, old(State()), servoWorks)
    {
      if config.doPut {
        if clock - holdTime >= 3 * SECOND {
          var flag := ServoMoves(putServoId, servoWorks);
          if !flag {
            return;
          }
          log := Then(Released(putServoId), log);
          putServoId := putServoId - 1;
          action := Rise;
        }
        return;
      }
      action := Rise;
    }

    method DropLandAction(seen: Option<Detection>)
      requires phase == ExecMission
      modifies this
      ensures State() == Landing(config, old(State()), seen)
    {
      if seen.None? {
        overtime := overtime + 1;
        return;
      }
      overtime := 0;
      var d := seen.value;
      detectOvertime := detectOvertime + 1;
      if Within(d, 200) || detectOvertime > config.overtime2 * 100 {
        if !haveAdjusted {
          holdTime := clock;
          missionZ := 600;
          detectOvertime := 0;
          haveAdjusted := true;
          return;
        }
      }
      if Within(d, 100) || detectOvertime > 80 {
        missionZ := 300;
        if clock - holdTime >= 5 * SECOND {
          phase := Land;
        }
      }
    }

    method ExecMissionState(seen: Option<Detection>, servoWorks: bool)
      requires phase == ExecMission
      modifies this
      ensures State() == MissionStep(config, old(State()), seen, servoWorks)
    {
      match action
      case YoloInit =>
        missionTimer := true;
        missionZ := config.detectHeight;
        action := Adjust;
      case Adjust => AdjustAction(seen);
      case Drop => DropAction(seen);
      case Rise => RiseAction();
      case Put => PutAction(servoWorks);
      case DropLand => DropLandAction(seen);
    }

    method CheckPos()
      modifies this`sensors
      ensures sensors == Looked(config, old(sensors))
    {
      if config.distance(sensors.odometry, sensors.currentTarget) < 500 {
        sensors := sensors.(paused := true);
      } else {
        sensors := sensors.(paused := false);
      }
    }

    /** The timer callback. */
    method LoopCallback(elapsed: nat, seen: Option<Detection>, servoWorks: bool)
      modifies this
      ensures State() == TickStep(config, Clocked(config, old(State()), elapsed), seen, servoWorks)
    {
      ghost var m := State();
      clock := clock + elapsed;
      CheckPos();
      assert State() == Clocked(config, m, elapsed);
      PhaseStep(seen, servoWorks);
    }

    method PhaseStep(seen: Option<Detection>, servoWorks: bool)
      modifies this
      ensures State() == TickStep(config, old(State()), seen, servoWorks)
    {
      match phase
      case Init =>
        if !sensors.connected {
          return;
        }
        if !sensors.haveOdometry {
          return;
        }
        phase := TakingOff;
      case TakingOff =>
        if config.distance(sensors.odometry, TAKE_OFF_POSITION) < 300 {
          phase := Hold;
        }
      case Hold => HoldState();
      case ExecMission => ExecMissionState(seen, servoWorks);
      case Land =>
      case Tracking =>
        if sensors.paused {
          phase := Hold;
        }
    }

    method QuadmsgCallback()
      modifies this`phase
      ensures State() == Step(config, old(State()), EgoCommand)
    {
      if phase == Hold && !sensors.paused {
        phase := Tracking;
      }
    }

    method EgoInitCallback(ready: bool)
      modifies this`sensors
      ensures State() == Step(config, old(State()), EgoState(ready))
    {
      if sensors.egoReady != ready {
        sensors := sensors.(egoReady := ready);
      }
    }

    method OdomCallback(position: Position)
      modifies this`sensors
      ensures State() == Step(config, old(State()), Odometry(position))
    {
      sensors := sensors.(odometry := position, haveOdometry := true);
    }

    method Px4StateCallback(connected: bool)
      modifies this`sensors
      ensures State() == Step(config, old(State()), Connection(connected))
    {
      sensors := sensors.(connected := connected);
    }

    /** One callback. */
    method Handle(e: Event)
      modifies this
      ensures State() == Step(config, old(State()), e)
    {
      match e
      case Tick(elapsed, seen, servoWorks) => LoopCallback(elapsed, seen, servoWorks);
      case EgoCommand => QuadmsgCallback();
      case EgoState(ready) => EgoInitCallback(ready);
      case Odometry(position) => OdomCallback(position);
      case Connection(up) => Px4StateCallback(up);
    }

    /** Callbacks in the order of their events. */
    method Spin(es: seq<Event>)
      modifies this
      ensures State() == Fly(config, old(State()), es)
    {
      for i := 0 to |es|
        invariant Fly(config, State(), es[i..]) == Fly(config, old(State()), es)
      {
        assert es[i..][1..] == es[i + 1..];
        Handle(es[i]);
      }
    }
  }

  /** A flight from the start: whatever happens, the controller keeps its order and its heights, and lands last. */
  method Flight(c: Config, haveOdometry: bool, odometry: Position, target: Position, height: int, es: seq<Event>)
    returns (f: Fsm)
    ensures fresh(f) && f.config == c
    ensures Targets(f.log) == UpTo(f.targetId) && (c.points >= 5 ==> f.targetId <= c.points)
    ensures Releases(f.log) <= [3, 2, 1] && Spaced(f.log)
    ensures f.phase == Land ==> f.doLand && f.targetId == c.points >= 5
    ensures f.phase == ExecMission && !f.doLand && f.action != Rise ==> f.putServoId >= 1
    ensures f.missionTimer <==> (f.phase == ExecMission && f.action != YoloInit) || f.phase == Land
    ensures f.phase == ExecMission && f.action == Adjust ==> f.missionZ <= Higher(c) + 600
    ensures HeightsHold(c, f.State()) && AllAsked(c, f.log)
  {
    f := new Fsm(c, haveOdometry, odometry, target, height);
    f.Spin(es);
    ghost var m := Begin(haveOdometry, odometry, target, height);
    BeginIsSafe(c, haveOdometry, odometry, target, height);
    FlightIsSafe(c, m, es);
    FlightIsOrderly(c, haveOdometry, odometry, target, height, es);
    SetpointsAreTame(c, haveOdometry, odometry, target, height, es);
    HeightsAreCommanded(c, haveOdometry, odometry, target, height, es);
    ReleasesAreAsked(c, haveOdometry, odometry, target, height, es);
  }
}
