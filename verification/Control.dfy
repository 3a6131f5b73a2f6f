/** The control service: `internal/control/service.go`. */
module Control {
  import opened Basics
  import opened Access
  import opened Motor

  /** What `LastError` may hold; NoFault is the empty text. */
  datatype Fault =
    | NoFault
    | InvalidLeftSpeed
    | InvalidRightSpeed
    | MotorFault(text: string)
    | UnsupportedVersion
    | UnknownMessageType
    | MissingDrivePayload
    | MissingSystemPayload
    | UnknownSystemCommand
    | ControlDenied(reason: Reason)
    | EmergencyStopDenied(reason: Reason)

  datatype State = State(
    motorConnected: bool,
    cameraConnected: bool,
    pair: Pair,
    failsafe: bool,
    lastCommandValid: bool,
    lastError: Fault,
    lastCommandAt: Option<Time>,
    power: Power,
    lastTelemetryAt: Option<Time>)

  datatype Power = Power(batteryVoltage: real, batteryPercent: int, rssi: int, uptimeMS: nat, freeHeap: nat)

  datatype MotorTelemetry = MotorTelemetry(pair: Pair, failsafe: bool, power: Power)

  const FRESH := State(false, false, STOP, false, true, NoFault, None, Power(0.0, 0, 0, 0, 0), None)

  function Validate(cmd: Pair): Fault {
    if cmd.left < -100 || cmd.left > 100 then InvalidLeftSpeed
    else if cmd.right < -100 || cmd.right > 100 then InvalidRightSpeed
    else NoFault
  }

  function Reject(s: State, fault: Fault): State {
    s.(lastCommandValid := false, lastError := fault)
  }

  /** The service together with the link it drives. */
  datatype Board = Board(state: State, link: Link)

  const NEW_BOARD := Board(FRESH, IDLE)

  /** Send first, then record; a failed send leaves the recorded pair and its time alone. */
  function Command(b: Board, cmd: Pair, failure: Option<string>, now: Time, source: Source): Board {
    var link := Transmit(b.link, cmd, failure, now, source);
    match failure
    case Some(text) => Board(Reject(b.state, MotorFault(text)).(motorConnected := false), link)
    case None =>
      Board(
        b.state.(motorConnected := true, pair := cmd, lastCommandValid := true, lastError := NoFault,
                 lastCommandAt := Some(now)),
        link)
  }

  function DriveCommand(b: Board, cmd: Pair, failure: Option<string>, now: Time, source: Source): Board {
    if Validate(cmd) != NoFault then b.(state := Reject(b.state, Validate(cmd)))
    else Command(b, cmd, failure, now, source)
  }

  function Observe(s: State, t: MotorTelemetry, now: Time): State {
    s.(motorConnected := true, power := t.power, pair := t.pair, failsafe := t.failsafe, lastTelemetryAt := Some(now))
  }

  class Service {
    const motor: MotorClient
    var state: State

    ghost function Snapshot(): Board
      reads this, motor
    {
      Board(state, motor.Snapshot())
    }

    constructor (motor: MotorClient)
      ensures this.motor == motor && state == FRESH
    {
      this.motor := motor;
      state := FRESH;
    }

    method SetInvalidCommand(fault: Fault) returns (s: State)
      modifies this
      ensures s == state == Reject(old(state), fault)
    {
      state := state.(lastCommandValid := false, lastError := fault);
      s := state;
    }

    method SetMotorError(text: string) returns (s: State)
      modifies this
      ensures s == state == Reject(old(state), MotorFault(text)).(motorConnected := false)
    {
      state := state.(motorConnected := false, lastCommandValid := false, lastError := MotorFault(text));
      s := state;
    }

    method Drive(cmd: Pair, failure: Option<string>, now: Time, ghost source: Source) returns (s: State)
      modifies this, motor
      ensures Snapshot() == DriveCommand(old(Snapshot()), cmd, failure, now, source)
      ensures s == state
    {
      var invalid := Validate(cmd);
      if invalid != NoFault {
        s := SetInvalidCommand(invalid);
        return;
      }
      var err := motor.Send(cmd.left, cmd.right, failure, now, source);
      if err.Some? {
        s := SetMotorError(err.value);
        return;
      }
      state := state.(motorConnected := true, pair := cmd, lastCommandValid := true, lastError := NoFault,
                      lastCommandAt := Some(now));
      s := state;
    }

    method Stop(failure: Option<string>, now: Time, ghost source: Source) returns (s: State)
      modifies this, motor
      ensures Snapshot() == Command(old(Snapshot()), STOP, failure, now, source)
      ensures s == state
    {
      var err := motor.Stop(failure, now, source);
      if err.Some? {
        s := SetMotorError(err.value);
        return;
      }
      state := state.(motorConnected := true, pair := STOP, lastCommandValid := true, lastError := NoFault,
                      lastCommandAt := Some(now));
      s := state;
    }

    method UpdateMotorTelemetry(t: MotorTelemetry, now: Time) returns (s: State)
      modifies this`state
      ensures s == state == Observe(old(state), t, now)
    {
      state := state.(motorConnected := true, power := t.power, pair := t.pair, failsafe := t.failsafe,
                      lastTelemetryAt := Some(now));
      s := state;
    }

    method SetMotorConnected(connected: bool) returns (s: State)
      modifies this`state
      ensures s == state == old(state).(motorConnected := connected)
    {
      state := state.(motorConnected := connected);
      s := state;
    }

    method SetCameraConnected(connected: bool) returns (s: State)
      modifies this`state
      ensures s == state == old(state).(cameraConnected := connected)
    {
      state := state.(cameraConnected := connected);
      s := state;
    }
  }
}
