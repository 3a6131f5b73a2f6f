/** The dead-man watchdog: `internal/safety/watchdog.go`. */
module Safety {
  import opened Basics
  import opened Motor
  import opened Control

  const FALLBACK_PERIOD: nat := 100_000_000  // 100 ms

  /** Two periods fit into a timeout and three do not, unless the timeout is too short to be halved. */
  function Period(timeout: nat): (period: nat)
    ensures period > 0
    ensures timeout > 1 ==> 2 * period <= timeout < 2 * period + 2
    ensures timeout <= 1 ==> period == 100_000_000
  {
    if timeout / 2 <= 0 then FALLBACK_PERIOD else timeout / 2
  }

  /** Whether a check at `now` sends a stop. */
  predicate Fires(s: State, timeout: nat, now: Time) {
    s.lastCommandAt.Some? && !s.pair.IsStop() && now - s.lastCommandAt.value > timeout
  }

  function Checked(b: Board, timeout: nat, failure: Option<string>, now: Time): Board {
    if Fires(b.state, timeout, now) then Command(b, STOP, failure, now, ByWatchdog) else b
  }

  class Watchdog {
    const control: Service
    const timeout: nat
    const period: nat

    constructor (control: Service, timeout: nat)
      ensures this.control == control && this.timeout == timeout && period == Period(timeout)
    {
      var p := timeout / 2;
      if p <= 0 { p := FALLBACK_PERIOD; }
      this.control := control;
      this.timeout := timeout;
      period := p;
    }

    method Check(failure: Option<string>, now: Time)
      modifies control, control.motor
      ensures control.Snapshot() == Checked(old(control.Snapshot()), timeout, failure, now)
    {
      var state := control.state;
      if state.lastCommandAt.None? { return; }
      if state.pair.left == 0 && state.pair.right == 0 { return; }
      var timeSinceLastCommand := now - state.lastCommandAt.value;
      if timeSinceLastCommand <= timeout { return; }
      var _ := control.Stop(failure, now, ByWatchdog);
    }
  }
}
