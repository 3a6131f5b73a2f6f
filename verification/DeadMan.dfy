/**
 A car that its driver abandons is stopped in bounded time, and nobody else is given control while it
 moves. Both rest on two timers that know nothing of each other, the watchdog and the lease, and both
 need telemetry that does not report a standstill while the car was told to move.
 */
module DeadMan {
  import opened Basics
  import opened Access
  import opened Motor
  import opened Control
  import opened Safety
  import opened Ws
  import opened LeaseRefinement
  import opened System
  import Telemetry

  predicate Truthful(w: World, e: Event) {
    e.Hear? && w.Link().Moving() ==> !e.telemetry.pair.IsStop()
  }

  /** Telemetry is truthful throughout, and at most `k` watchdog stops fail between two successful sends. */
  predicate Trusted(cfg: Config, k: nat, es: seq<Event>) {
    es == [] ||
    (Trusted(cfg, k, es[..|es| - 1]) && Truthful(Exec(cfg, es[..|es| - 1]), es[|es| - 1]) && Exec(cfg, es).misses <= k)
  }

  /** The longest the car can run on after the last successful send. */
  function Reach(cfg: Config, k: nat): nat {
    cfg.commandTimeout + (k + 1) * cfg.Tick()
  }

  function Sender(w: World): Source
    requires w.Link().wire != []
  {
    w.Link().wire[|w.Link().wire| - 1].source
  }

  /** While the server runs and the car moves, the watchdog sees it and has only missed ticks it failed to send on. */
  predicate Armed(cfg: Config, w: World) {
    w.phase.Running? && w.Link().Moving() ==>
      && !w.State().pair.IsStop()
      && w.nextTick - cfg.Tick() - w.Link().LastAt().value <= cfg.commandTimeout + w.misses * cfg.Tick()
  }

  lemma NextMultiple(m: nat, p: nat)
    ensures (m + 1) * p == m * p + p
  {
  }

  lemma {:induction false} MultiplesOrdered(m: nat, k: nat, p: nat)
    requires p > 0
    ensures m <= k <==> m * p <= k * p
    ensures m < k <==> m * p < k * p
    decreases m + k
  {
    if m > 0 && k > 0 {
      MultiplesOrdered(m - 1, k - 1, p);
      NextMultiple(m - 1, p);
      NextMultiple(k - 1, p);
    } else {
      MultiplePositive(m, p);
      MultiplePositive(k, p);
    }
  }

  lemma MultiplePositive(m: nat, p: nat)
    requires p > 0
    ensures m * p > 0 <==> m > 0
  {
  }

  lemma ArmedKept(cfg: Config, w: World, e: Event, w': World)
    requires Timed(cfg, w) && Possible(w, e) && Moves(cfg, w, e, w') && Truthful(w, e) && Armed(cfg, w)
    ensures Armed(cfg, w')
  {
    NextMultiple(w.misses, cfg.Tick());
    assert w.misses * cfg.Tick() >= 0;
  }

  lemma {:induction false} ArmedRun(cfg: Config, k: nat, es: seq<Event>)
    requires Run(cfg, es) && Trusted(cfg, k, es)
    ensures Armed(cfg, Exec(cfg, es)) && Exec(cfg, es).misses <= k
  {
    if es == [] {
    } else {
      ArmedRun(cfg, k, es[..|es| - 1]);
      TimedRun(cfg, es[..|es| - 1]);
      EventMoves(cfg, Exec(cfg, es[..|es| - 1]), es[|es| - 1]);
      ArmedKept(cfg, Exec(cfg, es[..|es| - 1]), es[|es| - 1], Exec(cfg, es));
    }
  }

  /**
   While the server runs, a pair that moves the car is replaced within `Reach` of being sent: a state at
   that very instant still has its tick to come. With no failed stop and a valid timeout that is one and a
   half timeouts.
   */
  lemma DeadManBound(cfg: Config, k: nat, es: seq<Event>)
    requires Run(cfg, es) && Trusted(cfg, k, es) && Exec(cfg, es).phase.Running? && Exec(cfg, es).Link().Moving()
    ensures var w := Exec(cfg, es);
            var age := w.clock - w.Link().LastAt().value;
            && age <= Reach(cfg, k)
            && (age == Reach(cfg, k) ==> w.clock == w.nextTick)
            && (k == 0 && cfg.commandTimeout > 1 ==> 2 * age <= 3 * cfg.commandTimeout)
  {
    ArmedRun(cfg, k, es);
    TimedRun(cfg, es);
    ArmedBound(cfg, k, Exec(cfg, es));
  }

  lemma ArmedBound(cfg: Config, k: nat, w: World)
    requires Timed(cfg, w) && Armed(cfg, w) && w.misses <= k && w.phase.Running? && w.Link().Moving()
    ensures var age := w.clock - w.Link().LastAt().value;
            && age <= Reach(cfg, k)
            && (age == Reach(cfg, k) ==> w.clock == w.nextTick)
            && (k == 0 && cfg.commandTimeout > 1 ==> 2 * age <= 3 * cfg.commandTimeout)
  {
    MultiplesOrdered(w.misses, k, cfg.Tick());
    NextMultiple(k, cfg.Tick());
  }

  lemma TrustedSnoc(cfg: Config, k: nat, es: seq<Event>, e: Event)
    ensures Exec(cfg, es + [e]) == Step(cfg, Exec(cfg, es), e)
    ensures Run(cfg, es + [e]) <==> Run(cfg, es) && Possible(Exec(cfg, es), e)
    ensures Trusted(cfg, k, es + [e]) <==>
            Trusted(cfg, k, es) && Truthful(Exec(cfg, es), e) && Step(cfg, Exec(cfg, es), e).misses <= k
  {
    ExecSnoc(cfg, es, e);
    assert (es + [e])[..|es|] == es;
  }

  // ---- The driver keeps the lease

  /** The client whose command is running is the client that holds the lease. */
  predicate DriverHolds(w: World) {
    w.Link().Moving() ==> Sender(w).ByClient? && w.Holder() == Some(Sender(w).client)
  }

  /** And its lease is at least as fresh as its command. */
  predicate Handed(w: World) {
    && DriverHolds(w)
    && (w.Link().Moving() ==>
          w.core.lease.commandMono.Some? && w.core.lease.commandMono.value >= w.Link().LastAt().value)
  }

  lemma HandedKept(cfg: Config, w: World, e: Event, w': World)
    requires Timed(cfg, w) && Moves(cfg, w, e, w') && Handed(w)
    requires w.Link().Moving() ==> w.clock - w.Link().LastAt().value <= cfg.controlTimeout
    ensures Handed(w')
  {
  }

  lemma {:induction false} HandedRun(cfg: Config, k: nat, es: seq<Event>)
    requires cfg.controlTimeout >= Reach(cfg, k)
    requires Run(cfg, es) && Trusted(cfg, k, es) && Exec(cfg, es).phase.Running?
    ensures Handed(Exec(cfg, es))
  {
    if es == [] {
    } else {
      var before := es[..|es| - 1];
      HandedRun(cfg, k, before);
      TimedRun(cfg, before);
      if Exec(cfg, before).Link().Moving() { DeadManBound(cfg, k, before); }
      EventMoves(cfg, Exec(cfg, before), es[|es| - 1]);
      HandedKept(cfg, Exec(cfg, before), es[|es| - 1], Exec(cfg, es));
    }
  }

  /** The driver of a moving car holds a lease that has not expired, so nobody else is let through. */
  lemma HandoverSafety(cfg: Config, k: nat, es: seq<Event>)
    requires cfg.controlTimeout >= Reach(cfg, k)
    requires Run(cfg, es) && Trusted(cfg, k, es) && Exec(cfg, es).phase.Running? && Exec(cfg, es).Link().Moving()
    ensures var w := Exec(cfg, es);
            && DriverHolds(w)
            && Live(w.core.lease, cfg.controlTimeout, w.clock).Holder() == Some(Sender(w).client)
            && forall who: Option<Client> {:trigger GrantControl(w.core.lease, cfg.controlTimeout, who, w.clock)} ::
                 GrantControl(w.core.lease, cfg.controlTimeout, who, w.clock).1.allowed <==> who == w.Holder()
  {
    HandedRun(cfg, k, es);
    DeadManBound(cfg, k, es);
    TimedRun(cfg, es);
  }

  /** When the driver of a moving car disconnects, a stop is attempted; if it gets through, it is the last pair sent. */
  lemma DriverLeavingStops(cfg: Config, k: nat, es: seq<Event>, addr: string, failure: Option<string>)
    requires cfg.controlTimeout >= Reach(cfg, k)
    requires Run(cfg, es) && Trusted(cfg, k, es) && Exec(cfg, es).phase.Running? && Exec(cfg, es).Link().Moving()
    requires cfg.dir.Resolve(addr).Some? && ByClient(cfg.dir.Resolve(addr).value) == Sender(Exec(cfg, es))
    ensures var link, link' := Exec(cfg, es).Link(), Exec(cfg, es + [Leave(addr, failure)]).Link();
            link'.attempts == link.attempts + 1 && (failure.None? ==> link'.LastPair() == STOP)
  {
    HandoverSafety(cfg, k, es);
    ExecSnoc(cfg, es, Leave(addr, failure));
  }

  // ---- Without the bound: a run in which control passes while the car moves

  const FORWARD := Message(1, ControlKind, Some(Pair(70, 70)), None)
  const TOO_FAST := Message(1, ControlKind, Some(Pair(101, 0)), None)

  /** The time of the `n`-th tick. */
  function TickTime(cfg: Config, n: nat): nat {
    if n == 0 then 0 else TickTime(cfg, n - 1) + cfg.Tick()
  }

  lemma {:induction false} TickTimes(cfg: Config, n: nat)
    ensures TickTime(cfg, n) == n * cfg.Tick()
  {
    if n == 0 {
    } else {
      TickTimes(cfg, n - 1);
      NextMultiple(n - 1, cfg.Tick());
    }
  }

  lemma {:induction false} TicksApart(cfg: Config, m: nat, n: nat)
    requires m < n
    ensures TickTime(cfg, m) + cfg.Tick() <= TickTime(cfg, n)
  {
    if m < n - 1 { TicksApart(cfg, m, n - 1); }
  }

  /** The first tick from the `n`-th on that is no earlier than one timeout after the start. */
  function FirstLate(cfg: Config, n: nat): (q: nat)
    requires n == 0 || TickTime(cfg, n - 1) < cfg.commandTimeout
    ensures TickTime(cfg, q) >= cfg.commandTimeout
    ensures q == 0 || TickTime(cfg, q - 1) < cfg.commandTimeout
    decreases cfg.commandTimeout + cfg.Tick() - TickTime(cfg, n)
  {
    if TickTime(cfg, n) >= cfg.commandTimeout then n else FirstLate(cfg, n + 1)
  }

  /** The tick on which the driver's timeout is spent but not yet exceeded, and when the driver must drive for that. */
  function SpentTick(cfg: Config): nat {
    FirstLate(cfg, 0)
  }

  function Lead(cfg: Config): (t: nat)
    ensures t < cfg.Tick() && TickTime(cfg, SpentTick(cfg)) == cfg.commandTimeout + t
  {
    TickTime(cfg, SpentTick(cfg)) - cfg.commandTimeout
  }

  /** `reach` holds at the start and is kept by every step with truthful telemetry and at most `k` stops missed. */
  ghost predicate Closed(cfg: Config, k: nat, reach: World -> bool) {
    reach(Start(cfg)) && forall w, e :: reach(w) && Allowed(cfg, k, w, e) ==> reach(Step(cfg, w, e))
  }

  predicate Allowed(cfg: Config, k: nat, w: World, e: Event) {
    Possible(w, e) && Truthful(w, e) && Step(cfg, w, e).misses <= k
  }

  /** After `n` ticks with the link down since the first command, the car still moves on that command. */
  predicate Drifting(cfg: Config, w: World, n: nat, driver: Client) {
    && w.phase.Running?
    && w.clock == (if n == 0 then Lead(cfg) else TickTime(cfg, n)) && w.nextTick == TickTime(cfg, n) + cfg.Tick()
    && w.Link().wire == [Sent(1, 1, Pair(70, 70), Lead(cfg), ByClient(driver))]
    && w.core.lease == Owned(driver, Lead(cfg))
    && w.State().pair == Pair(70, 70) && w.State().lastCommandAt == Some(Lead(cfg))
    && w.misses == (if n <= SpentTick(cfg) then 0 else n - SpentTick(cfg))
  }

  lemma OpeningDrifts(cfg: Config, k: nat, reach: World -> bool, addr: string, driver: Client) returns (w: World)
    requires Closed(cfg, k, reach) && cfg.dir.Resolve(addr) == Some(driver)
    ensures reach(w) && Drifting(cfg, w, 0, driver)
  {
    var waited := Step(cfg, Start(cfg), Wait(Lead(cfg)));
    assert Allowed(cfg, k, Start(cfg), Wait(Lead(cfg)));
    w := Step(cfg, waited, Receive(addr, FORWARD, None));
    assert Allowed(cfg, k, waited, Receive(addr, FORWARD, None));
  }

  /** One more tick with the motor link down. */
  lemma DriftOn(cfg: Config, k: nat, reach: World -> bool, w: World, n: nat, driver: Client) returns (w': World)
    requires Closed(cfg, k, reach) && reach(w) && Drifting(cfg, w, n, driver) && n + 1 <= SpentTick(cfg) + k
    ensures reach(w') && Drifting(cfg, w', n + 1, driver)
  {
    var wait := Wait(if n == 0 then cfg.Tick() - Lead(cfg) else cfg.Tick());
    var waited := Step(cfg, w, wait);
    assert Allowed(cfg, k, w, wait);
    w' := Step(cfg, waited, WatchdogTick(Some("down")));
    DriftStep(cfg, waited, w', n, driver);
    assert Allowed(cfg, k, waited, WatchdogTick(Some("down")));
  }

  lemma DriftStep(cfg: Config, waited: World, w': World, n: nat, driver: Client)
    requires waited.clock == waited.nextTick
    requires Drifting(cfg, waited.(clock := if n == 0 then Lead(cfg) else TickTime(cfg, n)), n, driver)
    requires w' == Step(cfg, waited, WatchdogTick(Some("down")))
    ensures Drifting(cfg, w', n + 1, driver)
  {
    if n + 1 > SpentTick(cfg) { TicksApart(cfg, SpentTick(cfg), n + 1); }
    if n + 1 < SpentTick(cfg) { TicksApart(cfg, n + 1, SpentTick(cfg)); }
  }

  lemma {:induction false} DriftAlong(cfg: Config, k: nat, reach: World -> bool, w: World, n: nat, driver: Client)
    returns (w': World)
    requires Closed(cfg, k, reach) && reach(w) && Drifting(cfg, w, 0, driver) && n <= SpentTick(cfg) + k
    ensures reach(w') && Drifting(cfg, w', n, driver)
  {
    w' := w;
    if n == 0 {
    } else {
      w' := DriftAlong(cfg, k, reach, w, n - 1, driver);
      w' := DriftOn(cfg, k, reach, w', n - 1, driver);
    }
  }

  /** A drives, the link fails `k` stops, and B, whose own command is refused, takes the lease of a moving car. */
  lemma TakeoverHappens(cfg: Config, k: nat, reach: World -> bool, addrA: string, addrB: string, a: Client, b: Client)
    returns (w: World)
    requires Closed(cfg, k, reach)
    requires cfg.dir.Resolve(addrA) == Some(a) && cfg.dir.Resolve(addrB) == Some(b) && a != b
    requires cfg.controlTimeout < Reach(cfg, k)
    ensures reach(w) && w.phase.Running? && w.Link().Moving() && Sender(w) == ByClient(a) && w.Holder() == Some(b)
  {
    var begun := OpeningDrifts(cfg, k, reach, addrA, a);
    var drifted := DriftAlong(cfg, k, reach, begun, SpentTick(cfg) + k, a);
    var waited := WaitOut(cfg, k, reach, drifted, a);
    w := Step(cfg, waited, Receive(addrB, TOO_FAST, None));
    LateRefusal(cfg, waited, addrB, a, b);
    assert Allowed(cfg, k, waited, Receive(addrB, TOO_FAST, None));
  }

  lemma WaitOut(cfg: Config, k: nat, reach: World -> bool, w: World, a: Client) returns (w': World)
    requires Closed(cfg, k, reach) && reach(w) && Drifting(cfg, w, SpentTick(cfg) + k, a)
    ensures reach(w') && w'.core == w.core && w'.misses <= k && w'.phase.Running?
    ensures w'.clock - Lead(cfg) == Reach(cfg, k)
  {
    TicksAdd(cfg, SpentTick(cfg), k);
    TickTimes(cfg, k);
    NextMultiple(k, cfg.Tick());
    w' := Step(cfg, w, Wait(cfg.Tick()));
    assert Allowed(cfg, k, w, Wait(cfg.Tick()));
  }

  lemma {:induction false} TicksAdd(cfg: Config, m: nat, k: nat)
    ensures TickTime(cfg, m + k) == TickTime(cfg, m) + TickTime(cfg, k)
  {
    if k == 0 {
    } else {
      TicksAdd(cfg, m, k - 1);
    }
  }

  /** A refused command from another operator takes a lease that has run out, and leaves the car moving. */
  lemma LateRefusal(cfg: Config, w: World, addrB: string, a: Client, b: Client)
    requires cfg.dir.Resolve(addrB) == Some(b) && w.core.lease == Owned(a, Lead(cfg))
    requires w.clock - Lead(cfg) > cfg.controlTimeout
    ensures var w' := Step(cfg, w, Receive(addrB, TOO_FAST, None));
            w'.Link() == w.Link() && w'.Holder() == Some(b) && w'.misses == w.misses && w'.phase == w.phase
  {
  }

  predicate Via(cfg: Config, k: nat, es: seq<Event>, w: World) {
    Run(cfg, es) && Trusted(cfg, k, es) && Exec(cfg, es) == w
  }

  lemma TrustedRunsClosed(cfg: Config, k: nat)
    ensures Closed(cfg, k, w => exists es :: Via(cfg, k, es, w))
  {
    assert Via(cfg, k, [], Start(cfg));
    forall w, e | (exists es :: Via(cfg, k, es, w)) && Allowed(cfg, k, w, e)
      ensures exists es :: Via(cfg, k, es, Step(cfg, w, e))
    {
      var es :| Via(cfg, k, es, w);
      TrustedSnoc(cfg, k, es, e);
      assert Via(cfg, k, es + [e], Step(cfg, w, e));
    }
  }

  lemma TakeoverRun(cfg: Config, k: nat, addrA: string, addrB: string) returns (es: seq<Event>)
    requires cfg.dir.Resolve(addrA).Some? && cfg.dir.Resolve(addrB).Some?
    requires cfg.dir.Resolve(addrA) != cfg.dir.Resolve(addrB) && cfg.controlTimeout < Reach(cfg, k)
    ensures Run(cfg, es) && Trusted(cfg, k, es) && Exec(cfg, es).phase.Running? && !DriverHolds(Exec(cfg, es))
  {
    var reach: World -> bool := w => exists es :: Via(cfg, k, es, w);
    TrustedRunsClosed(cfg, k);
    var w := TakeoverHappens(
      cfg, k, reach, addrA, addrB, cfg.dir.Resolve(addrA).value, cfg.dir.Resolve(addrB).value);
    es :| Via(cfg, k, es, w);
  }

  /**
   With two operators, the driver holds the lease as long as the server runs, in every run, exactly when the
   control timeout reaches far enough.
   */
  lemma HandoverExact(cfg: Config, k: nat, addrA: string, addrB: string)
    requires cfg.dir.Resolve(addrA).Some? && cfg.dir.Resolve(addrB).Some?
    requires cfg.dir.Resolve(addrA) != cfg.dir.Resolve(addrB)
    ensures (forall es :: Run(cfg, es) && Trusted(cfg, k, es) && Exec(cfg, es).phase.Running? ==>
                            DriverHolds(Exec(cfg, es)))
            <==> cfg.controlTimeout >= Reach(cfg, k)
  {
    if cfg.controlTimeout >= Reach(cfg, k) {
      forall es | Run(cfg, es) && Trusted(cfg, k, es) && Exec(cfg, es).phase.Running?
        ensures DriverHolds(Exec(cfg, es))
      {
        HandedRun(cfg, k, es);
      }
    } else {
      var es := TakeoverRun(cfg, k, addrA, addrB);
      assert Run(cfg, es) && Exec(cfg, es).phase.Running? && !DriverHolds(Exec(cfg, es));
    }
  }

  // ---- The same bound, in terms of packets

  /** What reaches the server: a telemetry packet, or anything else. */
  datatype Arrival = Datagram(packet: Telemetry.Packet) | Other(e: Event)

  /** Packets that are not accepted leave no event. */
  function Events(arrivals: seq<Arrival>): seq<Event> {
    if arrivals == [] then [] else
      var before, last := Events(arrivals[..|arrivals| - 1]), arrivals[|arrivals| - 1];
      match last
      case Other(e) => before + [e]
      case Datagram(p) => if Telemetry.Report(p).Some? then before + [Hear(Telemetry.Report(p).value)] else before
  }

  /** Telemetry comes in packets; each one accepted while the car moves has a motor block and reports motion. */
  predicate MotionReported(cfg: Config, k: nat, arrivals: seq<Arrival>) {
    arrivals == [] ||
    var before, last := arrivals[..|arrivals| - 1], arrivals[|arrivals| - 1];
    && MotionReported(cfg, k, before) && Exec(cfg, Events(arrivals)).misses <= k
    && match last
       case Other(e) => !e.Hear?
       case Datagram(p) =>
         p.version == 1 && p.kind == "telemetry" && Exec(cfg, Events(before)).Link().Moving() ==>
           p.motor.Some? && (p.motor.value.pair.left != 0 || p.motor.value.pair.right != 0)
  }

  lemma {:induction false} MotionReportedIsTrusted(cfg: Config, k: nat, arrivals: seq<Arrival>)
    requires MotionReported(cfg, k, arrivals)
    ensures Trusted(cfg, k, Events(arrivals))
  {
    if arrivals == [] {
    } else {
      var before, last := arrivals[..|arrivals| - 1], arrivals[|arrivals| - 1];
      MotionReportedIsTrusted(cfg, k, before);
      if last.Other? {
        TrustedSnoc(cfg, k, Events(before), last.e);
      } else if Telemetry.Report(last.packet).Some? {
        TrustedSnoc(cfg, k, Events(before), Hear(Telemetry.Report(last.packet).value));
      }
    }
  }

  /** Packets that report motion keep the watchdog armed: the car is stopped within `Reach`. */
  lemma PacketsKeepBound(cfg: Config, k: nat, arrivals: seq<Arrival>)
    requires Run(cfg, Events(arrivals)) && MotionReported(cfg, k, arrivals)
    requires Exec(cfg, Events(arrivals)).phase.Running? && Exec(cfg, Events(arrivals)).Link().Moving()
    ensures var w := Exec(cfg, Events(arrivals));
            && !w.State().pair.IsStop()
            && w.clock - w.Link().LastAt().value <= Reach(cfg, k)
  {
    MotionReportedIsTrusted(cfg, k, arrivals);
    ArmedRun(cfg, k, Events(arrivals));
    DeadManBound(cfg, k, Events(arrivals));
  }

  // ---- Without truthful telemetry

  predicate Idle(e: Event) {
    e.Wait? || e.WatchdogTick? || e.ReportMotor? || e.ReportCamera?
  }

  /** While the service believes the car stands, time and ticks alone never make it send anything. */
  lemma {:induction false} BelievedStandstill(cfg: Config, run: seq<Event>, n: nat)
    requires Run(cfg, run) && n <= |run| && Exec(cfg, run[..n]).State().pair.IsStop()
    requires forall i :: n <= i < |run| ==> Idle(run[i])
    ensures Exec(cfg, run).Link() == Exec(cfg, run[..n]).Link() && Exec(cfg, run).State().pair.IsStop()
  {
    if n == |run| {
      assert run[..n] == run;
    } else {
      var before := run[..|run| - 1];
      assert before[..n] == run[..n];
      BelievedStandstill(cfg, before, n);
      IdleStep(cfg, Exec(cfg, before), run[|run| - 1]);
    }
  }

  lemma IdleStep(cfg: Config, w: World, e: Event)
    requires Idle(e) && w.State().pair.IsStop()
    ensures Step(cfg, w, e).Link() == w.Link() && Step(cfg, w, e).State().pair.IsStop()
  {
  }

  /**
   Truthful telemetry cannot be dropped. An accepted packet without a motor block reads as a standstill;
   after it, however long the clients stay silent, the watchdog attempts nothing and a moving car moves on.
   */
  lemma PacketWithoutMotorDisarms(cfg: Config, run: seq<Event>, n: nat, packet: Telemetry.Packet)
    requires Telemetry.Report(packet).Some? && packet.motor.None?
    requires Run(cfg, run) && n < |run| && run[n] == Hear(Telemetry.Report(packet).value)
    requires forall i :: n < i < |run| ==> Idle(run[i])
    ensures Exec(cfg, run).Link() == Exec(cfg, run[..n]).Link()
  {
    DisarmsAt(cfg, run, n, packet);
    BelievedStandstill(cfg, run, n + 1);
  }

  lemma DisarmsAt(cfg: Config, run: seq<Event>, n: nat, packet: Telemetry.Packet)
    requires Telemetry.Report(packet).Some? && packet.motor.None?
    requires n < |run| && run[n] == Hear(Telemetry.Report(packet).value)
    ensures Exec(cfg, run[..n + 1]).Link() == Exec(cfg, run[..n]).Link()
    ensures Exec(cfg, run[..n + 1]).State().pair.IsStop()
  {
    assert run[..n + 1] == run[..n] + [run[n]];
    Disarms(cfg, run[..n], packet);
  }

  lemma Disarms(cfg: Config, es: seq<Event>, packet: Telemetry.Packet)
    requires Telemetry.Report(packet).Some? && packet.motor.None?
    ensures var after := Exec(cfg, es + [Hear(Telemetry.Report(packet).value)]);
            && after.Link() == Exec(cfg, es).Link() && after.clock == Exec(cfg, es).clock
            && after.phase == Exec(cfg, es).phase && after.State().pair.IsStop()
    ensures Run(cfg, es + [Hear(Telemetry.Report(packet).value)]) <==> Run(cfg, es)
  {
    ExecSnoc(cfg, es, Hear(Telemetry.Report(packet).value));
  }

  // ---- Such runs exist

  /** `run` goes on after `es` with `d` of idle time, at the end of which the service still believes the car stands. */
  predicate Lull(cfg: Config, es: seq<Event>, run: seq<Event>, d: Time) {
    && es <= run && (forall i :: |es| <= i < |run| ==> Idle(run[i]))
    && Run(cfg, run) && Exec(cfg, run).State().pair.IsStop() && Exec(cfg, run).clock == Exec(cfg, es).clock + d
  }

  lemma IdleOn(cfg: Config, es: seq<Event>, run: seq<Event>, d: Time, e: Event)
    requires Lull(cfg, es, run, d) && Idle(e) && Possible(Exec(cfg, run), e)
    ensures Lull(cfg, es, run + [e], d + if e.Wait? then e.d else 0)
    ensures Exec(cfg, run + [e]) == Step(cfg, Exec(cfg, run), e)
  {
    ExecSnoc(cfg, run, e);
    IdleStep(cfg, Exec(cfg, run), e);
  }

  lemma TickPasses(cfg: Config, w: World)
    requires w.clock == w.nextTick
    ensures Possible(Step(cfg, w, WatchdogTick(None)), Wait(1))
  {
  }

  lemma Nanosecond(cfg: Config, es: seq<Event>, run: seq<Event>, d: Time) returns (run': seq<Event>)
    requires Lull(cfg, es, run, d)
    ensures Lull(cfg, es, run', d + 1)
  {
    var w := Exec(cfg, run);
    run' := run;
    TimedRun(cfg, run);
    if w.phase.Running? && w.clock == w.nextTick {
      IdleOn(cfg, es, run, d, WatchdogTick(None));
      TickPasses(cfg, w);
      run' := run + [WatchdogTick(None)];
    }
    IdleOn(cfg, es, run', d, Wait(1));
    run' := run' + [Wait(1)];
  }

  lemma {:induction false} LullFor(cfg: Config, es: seq<Event>, d: Time) returns (run: seq<Event>)
    requires Run(cfg, es) && Exec(cfg, es).State().pair.IsStop()
    ensures Lull(cfg, es, run, d)
  {
    if d == 0 {
      run := es;
    } else {
      run := LullFor(cfg, es, d - 1);
      run := Nanosecond(cfg, es, run, d - 1);
    }
  }

  /** From any run that leaves the car moving, through any such packet, it can move on for any length of time. */
  lemma SilenceAfterPacket(cfg: Config, es: seq<Event>, packet: Telemetry.Packet, d: Time) returns (run: seq<Event>)
    requires Telemetry.Report(packet).Some? && packet.motor.None?
    requires Run(cfg, es) && Exec(cfg, es).Link().Moving()
    ensures es + [Hear(Telemetry.Report(packet).value)] <= run && Run(cfg, run)
    ensures forall i :: |es| < i < |run| ==> Idle(run[i])
    ensures Exec(cfg, run).Link() == Exec(cfg, es).Link() && Exec(cfg, run).Link().Moving()
    ensures Exec(cfg, run).clock == Exec(cfg, es).clock + d
  {
    var heard := es + [Hear(Telemetry.Report(packet).value)];
    Disarms(cfg, es, packet);
    run := LullFor(cfg, heard, d);
    assert run[..|heard|] == heard;
    BelievedStandstill(cfg, run, |heard|);
  }

  /** One command and one such packet, and `d` later the car still moves on its only datagram. */
  lemma OneCommandForever(cfg: Config, addr: string, packet: Telemetry.Packet, d: Time) returns (run: seq<Event>)
    requires Telemetry.Report(packet).Some? && packet.motor.None? && cfg.dir.Resolve(addr).Some?
    ensures [Receive(addr, FORWARD, None)] + [Hear(Telemetry.Report(packet).value)] <= run && Run(cfg, run)
    ensures forall i :: 2 <= i < |run| ==> Idle(run[i])
    ensures var w := Exec(cfg, run);
            w.Link().Moving() && w.Link().attempts == 1 && w.Link().LastAt() == Some(0) && w.clock == d
  {
    var opening := [Receive(addr, FORWARD, None)];
    ExecSnoc(cfg, [], opening[0]);
    assert [] + opening == opening;
    FirstCommand(cfg, addr);
    run := SilenceAfterPacket(cfg, opening, packet, d);
  }

  lemma FirstCommand(cfg: Config, addr: string)
    requires cfg.dir.Resolve(addr).Some?
    ensures var w := Step(cfg, Start(cfg), Receive(addr, FORWARD, None));
            w.Link().Moving() && w.Link().attempts == 1 && w.Link().LastAt() == Some(0) && w.clock == 0
  {
  }
}
