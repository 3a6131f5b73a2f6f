/** Telemetry packets and the connection timer: `internal/telemetry/listener.go`. */
module Telemetry {
  import opened Basics
  import opened Motor
  import opened Control

  datatype MotorBlock = MotorBlock(pair: Pair, failsafe: bool)
  datatype PowerBlock = PowerBlock(batteryVoltage: real, batteryPercent: int)
  datatype SystemBlock = SystemBlock(uptimeMS: nat, freeHeap: nat)

  /** A decoded packet; every block may be missing. */
  datatype Packet = Packet(
    version: int, kind: string,
    motor: Option<MotorBlock>, power: Option<PowerBlock>, rssi: Option<int>, system: Option<SystemBlock>)

  /** What an accepted packet reports: a missing block reads as zeros. */
  function Report(p: Packet): Option<MotorTelemetry> {
    if p.version != 1 || p.kind != "telemetry" then None else
      var motor := if p.motor.Some? then p.motor.value else MotorBlock(STOP, false);
      var power := if p.power.Some? then p.power.value else PowerBlock(0.0, 0);
      var system := if p.system.Some? then p.system.value else SystemBlock(0, 0);
      var rssi := if p.rssi.Some? then p.rssi.value else 0;
      Some(MotorTelemetry(motor.pair, motor.failsafe,
                          Power(power.batteryVoltage, power.batteryPercent, rssi, system.uptimeMS, system.freeHeap)))
  }

  predicate Accepted(p: Packet) {
    p.version == 1 && p.kind == "telemetry"
  }

  /** Every reported field of the state is the packet's, and a standstill or zero where the packet has no such block. */
  predicate Shows(s: State, p: Packet, now: Time) {
    && s.motorConnected && s.lastTelemetryAt == Some(now)
    && s.pair == (if p.motor.Some? then p.motor.value.pair else Pair(0, 0))
    && s.failsafe == (p.motor.Some? && p.motor.value.failsafe)
    && s.power.batteryVoltage == (if p.power.Some? then p.power.value.batteryVoltage else 0.0)
    && s.power.batteryPercent == (if p.power.Some? then p.power.value.batteryPercent else 0)
    && s.power.rssi == (if p.rssi.Some? then p.rssi.value else 0)
    && s.power.uptimeMS == (if p.system.Some? then p.system.value.uptimeMS else 0)
    && s.power.freeHeap == (if p.system.Some? then p.system.value.freeHeap else 0)
  }

  /** The packet, and nothing else, decides what is reported. */
  lemma ReportExact(p: Packet, s: State, now: Time)
    ensures Report(p).Some? <==> Accepted(p)
    ensures Accepted(p) ==> Shows(Observe(s, Report(p).value, now), p, now)
  {
  }

  /** What one look at the service makes the timer do. */
  predicate Stale(s: State, motorTimeout: nat, now: Time) {
    s.lastTelemetryAt.None? || now - s.lastTelemetryAt.value > motorTimeout
  }

  class Listener {
    const motorTimeout: nat
    const service: Service

    constructor (motorTimeout: nat, service: Service)
      ensures this.motorTimeout == motorTimeout && this.service == service
    {
      this.motorTimeout := motorTimeout;
      this.service := service;
    }

    method HandlePacket(msg: Packet, now: Time)
      modifies service`state
      ensures service.state == match Report(msg)
                               case None => old(service.state)
                               case Some(t) => Observe(old(service.state), t, now)
      ensures Accepted(msg) ==> Shows(service.state, msg, now)
      ensures Accepted(msg) ==>
                service.state == old(service.state).(
                  motorConnected := true, pair := service.state.pair, failsafe := service.state.failsafe,
                  power := service.state.power, lastTelemetryAt := Some(now))
      ensures !Accepted(msg) ==> service.state == old(service.state)
    {
      if msg.version != 1 { return; }
      if msg.kind != "telemetry" { return; }
      var data := MotorTelemetry(STOP, false, Power(0.0, 0, 0, 0, 0));
      if msg.motor.Some? {
        data := data.(pair := msg.motor.value.pair, failsafe := msg.motor.value.failsafe);
      }
      if msg.power.Some? {
        data := data.(power := data.power.(batteryVoltage := msg.power.value.batteryVoltage,
                                           batteryPercent := msg.power.value.batteryPercent));
      }
      if msg.rssi.Some? {
        data := data.(power := data.power.(rssi := msg.rssi.value));
      }
      if msg.system.Some? {
        data := data.(power := data.power.(uptimeMS := msg.system.value.uptimeMS,
                                           freeHeap := msg.system.value.freeHeap));
      }
      var _ := service.UpdateMotorTelemetry(data, now);
    }

    /** One tick of the connection timer, when nothing comes between its read and its write. */
    method CheckConnection(now: Time)
      modifies service`state
      ensures service.state == if Stale(old(service.state), motorTimeout, now)
                               then old(service.state).(motorConnected := false) else old(service.state)
    {
      var state := service.state;
      if state.lastTelemetryAt.None? {
        var _ := service.SetMotorConnected(false);
        return;
      }
      if now - state.lastTelemetryAt.value > motorTimeout {
        var _ := service.SetMotorConnected(false);
      }
    }
  }

  // ---- The timer against everything that can interleave with it

  /** `pending` is set between a timer's read that found telemetry stale and the write that follows. */
  datatype Timer = Timer(clock: Time, nextTick: Time, board: Board, pending: bool)

  datatype Move =
    | Wait(d: Time)
    | Read
    | Write
    | Send(cmd: Pair, failure: Option<string>, source: Source)
    | Hear(telemetry: MotorTelemetry)

  function Start(motorTimeout: nat): Timer {
    Timer(0, motorTimeout / 2, NEW_BOARD, false)
  }

  /** No time passes while the timer is due or between its read and its write. */
  predicate Possible(t: Timer, m: Move) {
    match m
    case Wait(d) => !t.pending && t.clock + d <= t.nextTick
    case Read => !t.pending && t.clock == t.nextTick
    case Write => t.pending
    case _ => true
  }

  function Make(motorTimeout: nat, t: Timer, m: Move): Timer {
    match m
    case Wait(d) => t.(clock := t.clock + d)
    case Read => t.(nextTick := t.nextTick + motorTimeout / 2, pending := Stale(t.board.state, motorTimeout, t.clock))
    case Write => t.(board := t.board.(state := t.board.state.(motorConnected := false)), pending := false)
    case Send(cmd, failure, source) => t.(board := Command(t.board, cmd, failure, t.clock, source))
    case Hear(data) => t.(board := t.board.(state := Observe(t.board.state, data, t.clock)))
  }

  function After(motorTimeout: nat, ms: seq<Move>): Timer {
    if ms == [] then Start(motorTimeout) else Make(motorTimeout, After(motorTimeout, ms[..|ms| - 1]), ms[|ms| - 1])
  }

  predicate Run(motorTimeout: nat, ms: seq<Move>) {
    ms == [] || (Run(motorTimeout, ms[..|ms| - 1]) && Possible(After(motorTimeout, ms[..|ms| - 1]), ms[|ms| - 1]))
  }

  /** A connected motor was heard or reached recently, counted from the last tick whose verdict is in. */
  predicate Justified(motorTimeout: nat, t: Timer) {
    var half := motorTimeout / 2;
    var verdict := t.nextTick - half - if t.pending then half else 0;
    var heard, sent := t.board.state.lastTelemetryAt, t.board.link.LastAt();
    && t.nextTick - half <= t.clock <= verdict + half
    && (t.board.state.motorConnected ==>
          || (heard.Some? && verdict - heard.value <= motorTimeout)
          || (sent.Some? && sent.value >= verdict))
  }

  lemma {:induction false} JustifiedRun(motorTimeout: nat, ms: seq<Move>)
    requires Run(motorTimeout, ms)
    ensures Justified(motorTimeout, After(motorTimeout, ms))
  {
    if ms == [] {
    } else {
      JustifiedRun(motorTimeout, ms[..|ms| - 1]);
    }
  }

  /** "Connected" is never older news than one and a half timeouts of telemetry, or half a timeout of a send. */
  lemma ConnectedIsRecent(motorTimeout: nat, ms: seq<Move>)
    requires Run(motorTimeout, ms) && After(motorTimeout, ms).board.state.motorConnected
    ensures var t := After(motorTimeout, ms);
            var heard, sent := t.board.state.lastTelemetryAt, t.board.link.LastAt();
            || (heard.Some? && t.clock - heard.value <= motorTimeout + motorTimeout / 2)
            || (sent.Some? && t.clock - sent.value <= motorTimeout / 2)
  {
    JustifiedRun(motorTimeout, ms);
  }

  /** The bound on telemetry is attained: heard at 0, connected three half timeouts later. */
  lemma BoundAttained(motorTimeout: nat, data: MotorTelemetry)
    requires motorTimeout > 1
    ensures var half := motorTimeout / 2;
            var ms := [Hear(data)] + [Wait(half)] + [Read] + [Wait(half)] + [Read] + [Wait(half)];
            var t := After(motorTimeout, ms);
            && Run(motorTimeout, ms) && t.board.state.motorConnected && t.board.link.wire == []
            && t.board.state.lastTelemetryAt == Some(0) && t.clock == 3 * half
  {
    var half := motorTimeout / 2;
    var ms := Then(motorTimeout, [], Hear(data));
    ms := Then(motorTimeout, ms, Wait(half));
    ms := Then(motorTimeout, ms, Read);
    ms := Then(motorTimeout, ms, Wait(half));
    ms := Then(motorTimeout, ms, Read);
    ms := Then(motorTimeout, ms, Wait(half));
  }

  lemma Then(motorTimeout: nat, ms: seq<Move>, m: Move) returns (ms': seq<Move>)
    requires Run(motorTimeout, ms) && Possible(After(motorTimeout, ms), m)
    ensures ms' == ms + [m] && Run(motorTimeout, ms')
    ensures After(motorTimeout, ms') == Make(motorTimeout, After(motorTimeout, ms), m)
  {
    ms' := ms + [m];
    assert ms'[..|ms|] == ms;
  }

  // ---- What the flag says, exactly

  /** An accepted packet, or a send that got out. */
  predicate Raises(m: Move) {
    m.Hear? || (m.Send? && m.failure.None?)
  }

  /** A verdict written, or a send that failed. */
  predicate Lowers(m: Move) {
    m.Write? || (m.Send? && m.failure.Some?)
  }

  predicate NothingLowers(ms: seq<Move>, from: nat) {
    forall i :: from <= i < |ms| ==> !Lowers(ms[i])
  }

  predicate RaisesLast(ms: seq<Move>, i: nat) {
    i < |ms| && Raises(ms[i]) && NothingLowers(ms, i + 1)
  }

  /** The flag is up exactly when the last move that wrote it was a packet or a successful send. */
  lemma {:induction false} FlagExact(motorTimeout: nat, ms: seq<Move>)
    ensures After(motorTimeout, ms).board.state.motorConnected <==> exists i: nat :: RaisesLast(ms, i)
  {
    if ms == [] {
    } else {
      var before, m := ms[..|ms| - 1], ms[|ms| - 1];
      FlagExact(motorTimeout, before);
      assert Raises(m) ==> RaisesLast(ms, |ms| - 1);
      if i: nat :| RaisesLast(before, i) {
        assert !Lowers(m) ==> RaisesLast(ms, i);
      }
      if i: nat :| RaisesLast(ms, i) {
        assert i < |before| ==> RaisesLast(before, i) && !Lowers(m);
      }
    }
  }

  /** The `h`-th move is the last packet. */
  predicate LastHeard(ms: seq<Move>, h: nat) {
    h < |ms| && ms[h].Hear? && forall i :: h < i < |ms| ==> !ms[i].Hear?
  }

  /** Telemetry is fresh all through: its last packet is no older than the timeout. */
  predicate Fresh(motorTimeout: nat, ms: seq<Move>, h: nat) {
    && Run(motorTimeout, ms) && LastHeard(ms, h)
    && After(motorTimeout, ms).clock - After(motorTimeout, ms[..h]).clock <= motorTimeout
  }

  predicate RaisedAfter(ms: seq<Move>, i: nat) {
    exists j :: i < j < |ms| && Raises(ms[j])
  }

  predicate NoWrites(ms: seq<Move>, m: nat, n: nat)
    requires n <= |ms|
  {
    forall i :: m <= i < n ==> !ms[i].Write?
  }

  lemma {:induction false} ClockForward(motorTimeout: nat, ms: seq<Move>, m: nat)
    requires m <= |ms|
    ensures After(motorTimeout, ms[..m]).clock <= After(motorTimeout, ms).clock
  {
    if m == |ms| {
      assert ms[..m] == ms;
    } else {
      var before := ms[..|ms| - 1];
      ClockForward(motorTimeout, before, m);
      assert before[..m] == ms[..m];
    }
  }

  lemma StillFresh(motorTimeout: nat, t: Timer, m: Move, heard: Time)
    requires Possible(t, m) && !m.Hear?
    requires t.board.state.lastTelemetryAt == Some(heard) && t.clock - heard <= motorTimeout
    ensures var t' := Make(motorTimeout, t, m);
            && t'.board.state.lastTelemetryAt == Some(heard) && (t'.pending ==> t.pending && !m.Write?)
            && (m.Write? ==> t.pending)
  {
  }

  /** While telemetry is fresh a read finds it so; the only verdict left is one that awaited its write at the packet. */
  lemma {:induction false} FreshVerdicts(motorTimeout: nat, ms: seq<Move>, h: nat)
    requires Fresh(motorTimeout, ms, h)
    ensures var t, t' := After(motorTimeout, ms[..h]), After(motorTimeout, ms);
            && t'.board.state.lastTelemetryAt == Some(t.clock)
            && (t'.pending ==> t.pending && NoWrites(ms, h, |ms|))
  {
    var before, m := ms[..|ms| - 1], ms[|ms| - 1];
    if h == |ms| - 1 {
    } else {
      assert before[..h] == ms[..h] && before[h] == ms[h];
      ClockForward(motorTimeout, ms, |ms| - 1);
      FreshVerdicts(motorTimeout, before, h);
      StillFresh(motorTimeout, After(motorTimeout, before), m, After(motorTimeout, ms[..h]).clock);
      assert NoWrites(before, h, |before|) ==> NoWrites(ms, h, |ms| - 1);
    }
  }

  lemma {:induction false} RunBefore(motorTimeout: nat, ms: seq<Move>, n: nat)
    requires Run(motorTimeout, ms) && n < |ms|
    ensures Run(motorTimeout, ms[..n]) && Possible(After(motorTimeout, ms[..n]), ms[n])
  {
    if n == |ms| - 1 {
    } else {
      var before := ms[..|ms| - 1];
      RunBefore(motorTimeout, before, n);
      assert before[..n] == ms[..n] && before[n] == ms[n];
    }
  }

  lemma WriteWasPending(motorTimeout: nat, ms: seq<Move>, h: nat, i: nat)
    requires Fresh(motorTimeout, ms, h) && h < i < |ms| && ms[i].Write?
    ensures After(motorTimeout, ms[..h]).pending && NoWrites(ms, h, i)
  {
    var before := ms[..i];
    assert before[..h] == ms[..h] && before[h] == ms[h];
    RunBefore(motorTimeout, ms, i);
    ClockForward(motorTimeout, ms, i);
    FreshVerdicts(motorTimeout, before, h);
    assert NoWrites(before, h, i) ==> NoWrites(ms, h, i);
  }

  /**
   With fresh telemetry the flag is up exactly when every failed send, and every verdict written, since the
   last packet was followed by a successful send; and the only such verdict is one reached before that packet.
   */
  lemma FreshFlag(motorTimeout: nat, ms: seq<Move>, h: nat)
    requires Fresh(motorTimeout, ms, h)
    ensures After(motorTimeout, ms).board.state.motorConnected <==>
            forall i :: h < i < |ms| && Lowers(ms[i]) ==> RaisedAfter(ms, i)
    ensures forall i :: h < i < |ms| && ms[i].Write? ==> After(motorTimeout, ms[..h]).pending && NoWrites(ms, h, i)
  {
    forall i | h < i < |ms| && ms[i].Write?
      ensures After(motorTimeout, ms[..h]).pending && NoWrites(ms, h, i)
    {
      WriteWasPending(motorTimeout, ms, h, i);
    }
    FlagExact(motorTimeout, ms);
    if i: nat :| RaisesLast(ms, i) {
      forall j | h < j < |ms| && Lowers(ms[j])
        ensures RaisedAfter(ms, j)
      {
        assert i > j;
      }
    }
    if forall i :: h < i < |ms| && Lowers(ms[i]) ==> RaisedAfter(ms, i) {
      var i := LastRaise(ms, |ms|, h);
      assert NothingLowers(ms, i + 1);
      assert RaisesLast(ms, i);
    }
  }

  lemma {:induction false} LastRaise(ms: seq<Move>, n: nat, h: nat) returns (i: nat)
    requires h < n <= |ms| && Raises(ms[h])
    requires forall j :: n <= j < |ms| ==> !Raises(ms[j])
    ensures h <= i < n && Raises(ms[i]) && forall j :: i < j < |ms| ==> !Raises(ms[j])
  {
    i := n - 1;
    if !Raises(ms[i]) { i := LastRaise(ms, n - 1, h); }
  }

  /** So regular telemetry does mean connected, unless a send fails or a verdict was pending when the packet came. */
  lemma RegularMeansConnected(motorTimeout: nat, ms: seq<Move>, h: nat)
    requires Fresh(motorTimeout, ms, h) && !After(motorTimeout, ms[..h]).pending
    requires forall i :: h < i < |ms| && ms[i].Send? ==> ms[i].failure.None?
    ensures After(motorTimeout, ms).board.state.motorConnected
  {
    FreshFlag(motorTimeout, ms, h);
  }

  // ---- Both directions fail

  lemma Snoc(motorTimeout: nat, ms: seq<Move>, m: Move)
    ensures After(motorTimeout, ms + [m]) == Make(motorTimeout, After(motorTimeout, ms), m)
    ensures Run(motorTimeout, ms + [m]) <==> Run(motorTimeout, ms) && Possible(After(motorTimeout, ms), m)
  {
    assert (ms + [m])[..|ms|] == ms;
  }

  /** One send, and a motor nobody ever heard of counts as connected. */
  lemma NeverHeardConnected(motorTimeout: nat, cmd: Pair, source: Source)
    ensures var ms := [Send(cmd, None, source)];
            var s := After(motorTimeout, ms).board.state;
            Run(motorTimeout, ms) && s.motorConnected && s.lastTelemetryAt.None?
  {
    Snoc(motorTimeout, [], Send(cmd, None, source));
    assert [] + [Send(cmd, None, source)] == [Send(cmd, None, source)];
  }

  /** A failed send hides a motor heard at that very instant. */
  lemma FailedSendHides(motorTimeout: nat, ms: seq<Move>, data: MotorTelemetry, cmd: Pair, text: string, source: Source)
    requires Run(motorTimeout, ms)
    ensures var end := ms + [Hear(data)] + [Send(cmd, Some(text), source)];
            var t := After(motorTimeout, end);
            && Run(motorTimeout, end)
            && !t.board.state.motorConnected && t.board.state.lastTelemetryAt == Some(t.clock)
  {
    Snoc(motorTimeout, ms, Hear(data));
    Snoc(motorTimeout, ms + [Hear(data)], Send(cmd, Some(text), source));
  }

  /** So does a verdict reached before the packet and written after it. */
  lemma LateVerdictHides(motorTimeout: nat, data: MotorTelemetry)
    ensures var end := [Wait(motorTimeout / 2)] + [Read] + [Hear(data)] + [Write];
            var t := After(motorTimeout, end);
            && Run(motorTimeout, end)
            && !t.board.state.motorConnected && t.board.state.lastTelemetryAt == Some(t.clock)
  {
    var one := [Wait(motorTimeout / 2)];
    var two := one + [Read];
    var three := two + [Hear(data)];
    assert [] + one == one;
    Snoc(motorTimeout, [], one[0]);
    Snoc(motorTimeout, one, Read);
    Snoc(motorTimeout, two, Hear(data));
    Snoc(motorTimeout, three, Write);
    VerdictStates(motorTimeout, data);
  }

  lemma VerdictStates(motorTimeout: nat, data: MotorTelemetry)
    ensures var one := Make(motorTimeout, Start(motorTimeout), Wait(motorTimeout / 2));
            var two := Make(motorTimeout, one, Read);
            var three := Make(motorTimeout, two, Hear(data));
            var four := Make(motorTimeout, three, Write);
            && Possible(Start(motorTimeout), Wait(motorTimeout / 2)) && Possible(one, Read) && three.pending
            && !four.board.state.motorConnected && four.board.state.lastTelemetryAt == Some(four.clock)
  {
  }
}
