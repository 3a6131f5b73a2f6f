/**
 What the service's state says, field by field, after any run: each field holds what the last event that
 wrote it wrote. Which events write which field is told here without the service's own functions.
 */
module Record {
  import opened Basics
  import opened Access
  import opened Motor
  import opened Control
  import opened Safety
  import opened Ws
  import opened LeaseRefinement
  import opened System
  import opened Inert
  import opened Standstill

  /** The pair an event makes the server try to send. */
  function Attempted(cfg: Config, w: World, e: Event): (r: Option<Pair>)
    ensures r.Some? ==> e.WatchdogTick? || e.ShutdownStop? || e.Leave? || e.Receive?
  {
    match e
    case WatchdogTick(_) => if Fires(w.State(), cfg.commandTimeout, w.clock) then Some(STOP) else None
    case ShutdownStop(_) => Some(STOP)
    case Leave(addr, _) =>
      var who := cfg.dir.Resolve(addr);
      if who.Some? && Live(w.core.lease, cfg.controlTimeout, w.clock).Holder() == who then Some(STOP) else None
    case Receive(_, msg, _) =>
      if Denied(cfg, w, e) then None
      else if msg.kind.SystemKind? then Some(STOP)
      else if InRange(msg.drive.value) then msg.drive
      else None
    case _ => None
  }

  predicate Succeeds(cfg: Config, w: World, e: Event) {
    Attempted(cfg, w, e).Some? && e.failure.None?
  }

  /** A send that failed, or a drive that the lease let through and whose speeds are out of range. */
  predicate Spoils(cfg: Config, w: World, e: Event) {
    (Attempted(cfg, w, e).Some? && e.failure.Some?) || OutOfRange(cfg, w, e)
  }

  predicate OutOfRange(cfg: Config, w: World, e: Event) {
    e.Receive? && !Denied(cfg, w, e) && e.msg.kind.ControlKind? && !InRange(e.msg.drive.value)
  }

  // ---- Who writes what

  datatype Verdict = Verdict(valid: bool, error: Fault)

  datatype Report = Report(failsafe: bool, power: Power, at: Option<Time>)

  function PairWrite(cfg: Config, w: World, e: Event): Option<Pair> {
    if e.Hear? then Some(e.telemetry.pair) else if Succeeds(cfg, w, e) then Attempted(cfg, w, e) else None
  }

  function TimeWrite(cfg: Config, w: World, e: Event): Option<Option<Time>> {
    if Succeeds(cfg, w, e) then Some(Some(w.clock)) else None
  }

  function VerdictWrite(cfg: Config, w: World, e: Event): Option<Verdict> {
    if Succeeds(cfg, w, e) then Some(Verdict(true, NoFault))
    else if OutOfRange(cfg, w, e) then
      Some(Verdict(false, if -100 <= e.msg.drive.value.left <= 100 then InvalidRightSpeed else InvalidLeftSpeed))
    else if Spoils(cfg, w, e) then Some(Verdict(false, MotorFault(e.failure.value)))
    else None
  }

  function MotorWrite(cfg: Config, w: World, e: Event): Option<bool> {
    if e.Hear? || Succeeds(cfg, w, e) then Some(true)
    else if e.ReportMotor? then Some(e.connected)
    else if Attempted(cfg, w, e).Some? then Some(false)
    else None
  }

  function CameraWrite(cfg: Config, w: World, e: Event): Option<bool> {
    if e.ReportCamera? then Some(e.connected) else None
  }

  function ReportWrite(cfg: Config, w: World, e: Event): Option<Report> {
    if e.Hear? then Some(Report(e.telemetry.failsafe, e.telemetry.power, Some(w.clock))) else None
  }

  // ---- The last write

  ghost predicate LastWrite<T>(writes: seq<Option<T>>, i: nat) {
    i < |writes| && writes[i].Some? && forall j :: i < j < |writes| ==> writes[j].None?
  }

  /** `value` is what was written last, or the initial one if nothing was. */
  ghost predicate LatestIs<T>(writes: seq<Option<T>>, initial: T, value: T) {
    && ((forall i :: 0 <= i < |writes| ==> writes[i].None?) ==> value == initial)
    && (forall i: nat :: LastWrite(writes, i) ==> value == writes[i].value)
  }

  function Or<T>(write: Option<T>, value: T): T {
    if write.Some? then write.value else value
  }

  lemma LatestSnoc<T>(writes: seq<Option<T>>, initial: T, value: T, write: Option<T>)
    requires LatestIs(writes, initial, value)
    ensures LatestIs(writes + [write], initial, Or(write, value))
  {
    var longer := writes + [write];
    if write.None? {
      assert longer[|writes|].None?;
      forall i: nat | LastWrite(longer, i)
        ensures value == longer[i].value
      {
        assert forall j :: i < j < |writes| ==> longer[j] == writes[j];
        assert LastWrite(writes, i);
      }
      if forall i :: 0 <= i < |longer| ==> longer[i].None? {
        assert forall i :: 0 <= i < |writes| ==> longer[i] == writes[i];
      }
    } else {
      assert longer[|writes|] == write;
    }
  }

  /** The writes of one kind that a run makes. */
  ghost function Writes<T>(cfg: Config, es: seq<Event>, ws: seq<World>, write: (Config, World, Event) -> Option<T>)
    : (writes: seq<Option<T>>)
    requires |ws| == |es| + 1
    ensures |writes| == |es| && forall i :: 0 <= i < |es| ==> writes[i] == write(cfg, ws[i], es[i])
  {
    seq(|es|, i requires 0 <= i < |es| => write(cfg, ws[i], es[i]))
  }

  lemma WritesSnoc<T>(
    cfg: Config, es: seq<Event>, ws: seq<World>, w: World, write: (Config, World, Event) -> Option<T>)
    requires es != [] && |ws| == |es|
    ensures Writes(cfg, es, ws + [w], write) ==
            Writes(cfg, es[..|es| - 1], ws, write) + [write(cfg, ws[|es| - 1], es[|es| - 1])]
  {
  }

  // ---- One event

  function VerdictOf(s: State): Verdict {
    Verdict(s.lastCommandValid, s.lastError)
  }

  function ReportOf(s: State): Report {
    Report(s.failsafe, s.power, s.lastTelemetryAt)
  }

  /** What a command makes of the state. */
  function Commanded(s: State, cmd: Pair, failure: Option<string>, now: Time): State {
    match failure
    case None =>
      s.(motorConnected := true, pair := cmd, lastCommandValid := true, lastError := NoFault,
         lastCommandAt := Some(now))
    case Some(text) => s.(motorConnected := false, lastCommandValid := false, lastError := MotorFault(text))
  }

  lemma MessageStep(cfg: Config, w: World, e: Event)
    requires Timed(cfg, w) && e.Receive?
    ensures var s := Step(cfg, w, e).State();
            && (Attempted(cfg, w, e).Some? ==>
                  s == Commanded(w.State(), Attempted(cfg, w, e).value, e.failure, w.clock))
            && (Attempted(cfg, w, e).None? ==>
                  s == w.State().(lastCommandValid := s.lastCommandValid, lastError := s.lastError)
                  && VerdictOf(s) == Or(VerdictWrite(cfg, w, e), VerdictOf(w.State())))
  {
    if Denied(cfg, w, e) {
      DeniedExactlyInert(cfg, w, e);
    } else if OutOfRange(cfg, w, e) {
      OutOfRangeTakesLease(cfg, w, e);
    } else {
      AttemptsCommand(cfg, w, e);
    }
  }

  lemma AttemptsCommand(cfg: Config, w: World, e: Event)
    requires Timed(cfg, w) && e.Receive? && Attempted(cfg, w, e).Some?
    ensures Step(cfg, w, e).State() == Commanded(w.State(), Attempted(cfg, w, e).value, e.failure, w.clock)
  {
    if e.msg.kind.ControlKind? {
      AttemptsDrive(cfg, w, e);
    } else if IsEmergencyStop(e.msg) {
      AttemptsEmergencyStop(cfg, w, e);
    } else {
      AttemptsStop(cfg, w, e);
    }
  }

  lemma AttemptsDrive(cfg: Config, w: World, e: Event)
    requires Timed(cfg, w) && e.Receive? && !Denied(cfg, w, e) && e.msg.kind.ControlKind? && InRange(e.msg.drive.value)
    ensures Step(cfg, w, e).State() == Commanded(w.State(), e.msg.drive.value, e.failure, w.clock)
  {
  }

  lemma AttemptsEmergencyStop(cfg: Config, w: World, e: Event)
    requires Timed(cfg, w) && e.Receive? && !Denied(cfg, w, e) && IsEmergencyStop(e.msg)
    ensures Step(cfg, w, e).State() == Commanded(w.State(), STOP, e.failure, w.clock)
  {
  }

  lemma AttemptsStop(cfg: Config, w: World, e: Event)
    requires Timed(cfg, w) && e.Receive? && !Denied(cfg, w, e) && e.msg.kind.SystemKind? && !IsEmergencyStop(e.msg)
    ensures Step(cfg, w, e).State() == Commanded(w.State(), STOP, e.failure, w.clock)
  {
  }

  lemma OtherStep(cfg: Config, w: World, e: Event)
    requires Timed(cfg, w) && !e.Receive? && !e.Hear? && !e.ReportMotor? && !e.ReportCamera?
    ensures Step(cfg, w, e).State() ==
            if Attempted(cfg, w, e).None? then w.State()
            else Commanded(w.State(), Attempted(cfg, w, e).value, e.failure, w.clock)
  {
  }

  /** Every field is left alone or written as told above. */
  predicate Updated(cfg: Config, w: World, e: Event, s: State) {
    && s.pair == Or(PairWrite(cfg, w, e), w.State().pair)
    && s.lastCommandAt == Or(TimeWrite(cfg, w, e), w.State().lastCommandAt)
    && VerdictOf(s) == Or(VerdictWrite(cfg, w, e), VerdictOf(w.State()))
    && s.motorConnected == Or(MotorWrite(cfg, w, e), w.State().motorConnected)
    && s.cameraConnected == Or(CameraWrite(cfg, w, e), w.State().cameraConnected)
    && ReportOf(s) == Or(ReportWrite(cfg, w, e), ReportOf(w.State()))
  }

  lemma ReportUpdates(cfg: Config, w: World, e: Event)
    requires e.Hear? || e.ReportMotor? || e.ReportCamera?
    ensures Updated(cfg, w, e, Step(cfg, w, e).State())
  {
  }

  lemma StepUpdates(cfg: Config, w: World, e: Event)
    requires Timed(cfg, w)
    ensures Updated(cfg, w, e, Step(cfg, w, e).State())
  {
    if e.Receive? {
      MessageStep(cfg, w, e);
      WritesFollow(cfg, w, e, Step(cfg, w, e).State());
    } else if e.Hear? || e.ReportMotor? || e.ReportCamera? {
      ReportUpdates(cfg, w, e);
    } else {
      OtherStep(cfg, w, e);
      WritesFollow(cfg, w, e, Step(cfg, w, e).State());
    }
  }

  lemma WritesFollow(cfg: Config, w: World, e: Event, s: State)
    requires !e.Hear? && !e.ReportMotor? && !e.ReportCamera?
    requires Attempted(cfg, w, e).Some? ==> s == Commanded(w.State(), Attempted(cfg, w, e).value, e.failure, w.clock)
    requires Attempted(cfg, w, e).None? ==>
               && s == w.State().(lastCommandValid := s.lastCommandValid, lastError := s.lastError)
               && VerdictOf(s) == Or(VerdictWrite(cfg, w, e), VerdictOf(w.State()))
    ensures Updated(cfg, w, e, s)
  {
  }

  // ---- Runs

  /** Every field after `es` is the last one written, from a state that claims nothing but a valid last command. */
  ghost predicate Recorded(cfg: Config, es: seq<Event>, ws: seq<World>, s: State)
    requires |ws| == |es| + 1
  {
    && LatestIs(Writes(cfg, es, ws, PairWrite), Pair(0, 0), s.pair)
    && LatestIs(Writes(cfg, es, ws, TimeWrite), None, s.lastCommandAt)
    && LatestIs(Writes(cfg, es, ws, VerdictWrite), Verdict(true, NoFault), VerdictOf(s))
    && LatestIs(Writes(cfg, es, ws, MotorWrite), false, s.motorConnected)
    && LatestIs(Writes(cfg, es, ws, CameraWrite), false, s.cameraConnected)
    && LatestIs(Writes(cfg, es, ws, ReportWrite), Report(false, Power(0.0, 0, 0, 0, 0), None), ReportOf(s))
  }

  lemma RecordedSnoc(cfg: Config, es: seq<Event>, ws: seq<World>, w': World)
    requires es != [] && |ws| == |es|
    requires Recorded(cfg, es[..|es| - 1], ws, ws[|es| - 1].State())
    requires Updated(cfg, ws[|es| - 1], es[|es| - 1], w'.State())
    ensures Recorded(cfg, es, ws + [w'], w'.State())
  {
    var before, w, e := es[..|es| - 1], ws[|es| - 1], es[|es| - 1];
    WritesSnoc(cfg, es, ws, w', PairWrite);
    LatestSnoc(Writes(cfg, before, ws, PairWrite), Pair(0, 0), w.State().pair, PairWrite(cfg, w, e));
    WritesSnoc(cfg, es, ws, w', TimeWrite);
    LatestSnoc(Writes(cfg, before, ws, TimeWrite), None, w.State().lastCommandAt, TimeWrite(cfg, w, e));
    WritesSnoc(cfg, es, ws, w', VerdictWrite);
    LatestSnoc(Writes(cfg, before, ws, VerdictWrite), Verdict(true, NoFault), VerdictOf(w.State()),
               VerdictWrite(cfg, w, e));
    WritesSnoc(cfg, es, ws, w', MotorWrite);
    LatestSnoc(Writes(cfg, before, ws, MotorWrite), false, w.State().motorConnected, MotorWrite(cfg, w, e));
    WritesSnoc(cfg, es, ws, w', CameraWrite);
    LatestSnoc(Writes(cfg, before, ws, CameraWrite), false, w.State().cameraConnected, CameraWrite(cfg, w, e));
    WritesSnoc(cfg, es, ws, w', ReportWrite);
    LatestSnoc(Writes(cfg, before, ws, ReportWrite), Report(false, Power(0.0, 0, 0, 0, 0), None), ReportOf(w.State()),
               ReportWrite(cfg, w, e));
  }

  lemma {:induction false} RecordExact(cfg: Config, es: seq<Event>)
    requires Run(cfg, es)
    ensures Recorded(cfg, es, Worlds(cfg, es), Exec(cfg, es).State()) && Worlds(cfg, es)[|es|] == Exec(cfg, es)
  {
    if es == [] {
    } else {
      var before, e := es[..|es| - 1], es[|es| - 1];
      var w := Exec(cfg, before);
      RecordExact(cfg, before);
      TimedRun(cfg, before);
      StepUpdates(cfg, w, e);
      RecordedSnoc(cfg, es, Worlds(cfg, before), Exec(cfg, es));
    }
  }

  ghost predicate SpoiledLast(cfg: Config, es: seq<Event>, ws: seq<World>, i: nat) {
    && |ws| == |es| + 1 && i < |es| && Spoils(cfg, ws[i], es[i])
    && forall j :: i < j < |es| ==> !Succeeds(cfg, ws[j], es[j])
  }

  /**
   The stored command counts as invalid exactly when a failed send, or an out-of-range drive, is not yet
   followed by a command that got out.
   */
  lemma InvalidExact(cfg: Config, es: seq<Event>)
    requires Run(cfg, es)
    ensures !Exec(cfg, es).State().lastCommandValid <==> exists i: nat :: SpoiledLast(cfg, es, Worlds(cfg, es), i)
  {
    RecordExact(cfg, es);
    VerdictDecides(cfg, es, Worlds(cfg, es), Exec(cfg, es).State());
  }

  lemma VerdictDecides(cfg: Config, es: seq<Event>, ws: seq<World>, s: State)
    requires |ws| == |es| + 1
    requires LatestIs(Writes(cfg, es, ws, VerdictWrite), Verdict(true, NoFault), VerdictOf(s))
    ensures !s.lastCommandValid <==> exists i: nat :: SpoiledLast(cfg, es, ws, i)
  {
    var writes := Writes(cfg, es, ws, VerdictWrite);
    var last := LastOf(writes, |writes|);
    if last.Some? {
      assert LastWrite(writes, last.value);
      forall j | last.value < j < |es|
        ensures !Succeeds(cfg, ws[j], es[j]) && !Spoils(cfg, ws[j], es[j])
      {
        assert writes[j].None?;
      }
      assert !s.lastCommandValid ==> SpoiledLast(cfg, es, ws, last.value);
    }
    if i: nat :| SpoiledLast(cfg, es, ws, i) {
      assert writes[i] == VerdictWrite(cfg, ws[i], es[i]);
      assert last.Some? && i <= last.value;
      assert writes[last.value] == VerdictWrite(cfg, ws[last.value], es[last.value]);
    }
  }

  lemma {:induction false} LastOf<T>(writes: seq<Option<T>>, n: nat) returns (last: Option<nat>)
    requires n <= |writes| && forall j :: n <= j < |writes| ==> writes[j].None?
    ensures last.None? ==> forall j :: 0 <= j < |writes| ==> writes[j].None?
    ensures last.Some? ==> LastWrite(writes, last.value)
  {
    if n == 0 {
      last := None;
    } else if writes[n - 1].Some? {
      last := Some(n - 1);
    } else {
      last := LastOf(writes, n - 1);
    }
  }
}
