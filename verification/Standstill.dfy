/**
 When the car moves, told by the events alone: what makes it move, what makes it stand, and what that
 means for silence and for the end of the server.
 */
module Standstill {
  import opened Basics
  import opened Access
  import opened Motor
  import opened Control
  import opened Safety
  import opened Ws
  import opened LeaseRefinement
  import opened System
  import opened DeadMan
  import opened Inert

  /** A moving pair in range, let through by the lease and got out. */
  predicate Drives(cfg: Config, w: World, e: Event) {
    && e.Receive? && e.failure.None? && e.msg.kind.ControlKind? && !Denied(cfg, w, e)
    && InRange(e.msg.drive.value) && !e.msg.drive.value.IsStop()
  }

  /** A stop that got out, whoever sent it. */
  predicate Halts(cfg: Config, w: World, e: Event) {
    match e
    case WatchdogTick(failure) => failure.None? && Fires(w.State(), cfg.commandTimeout, w.clock)
    case ShutdownStop(failure) => failure.None?
    case Leave(addr, failure) =>
      var who := cfg.dir.Resolve(addr);
      failure.None? && who.Some? && Live(w.core.lease, cfg.controlTimeout, w.clock).Holder() == who
    case Receive(_, msg, failure) =>
      failure.None? && !Denied(cfg, w, e) && (msg.kind.SystemKind? || msg.drive == Some(STOP))
    case _ => false
  }

  /** The worlds a run goes through. */
  function Worlds(cfg: Config, es: seq<Event>): (ws: seq<World>)
    ensures |ws| == |es| + 1
  {
    if es == [] then [Start(cfg)] else Worlds(cfg, es[..|es| - 1]) + [Exec(cfg, es)]
  }

  /** Whoever holds a live lease, or else the one who asks. */
  function HolderOr(cfg: Config, w: World, who: Option<Client>): Option<Client> {
    var lease := Live(w.core.lease, cfg.controlTimeout, w.clock);
    if lease.Held? then Some(lease.client) else who
  }

  /** What one event means for motion, time and the lease. */
  predicate Hop(cfg: Config, w: World, e: Event, w': World) {
    && Timed(cfg, w)
    && (w'.Link().Moving() <==> Drives(cfg, w, e) || (w.Link().Moving() && !Halts(cfg, w, e)))
    && (!Drives(cfg, w, e) && !Halts(cfg, w, e) ==> w'.Link().wire == w.Link().wire)
    && w.clock <= w'.clock && LeaseFollows(cfg, w.core.lease, w'.core.lease, w.clock)
    && (e.Receive? && IsEmergencyStop(e.msg) && !Denied(cfg, w, e) ==>
          w'.core.lease == Owned(HolderOr(cfg, w, cfg.dir.Resolve(e.addr)).value, w.clock))
    && (!w.phase.Running? ==> !w'.phase.Running? && (Unattended(e) ==> w'.Link() == w.Link()))
  }

  /** Neither a client's doing nor the shutdown's stop. */
  predicate Unattended(e: Event) {
    !e.Receive? && !e.Leave? && !e.ShutdownStop?
  }

  predicate Hops(cfg: Config, es: seq<Event>, ws: seq<World>) {
    |ws| == |es| + 1 && forall i :: 0 <= i < |es| ==> Hop(cfg, ws[i], es[i], ws[i + 1])
  }

  lemma MotionStep(cfg: Config, w: World, e: Event)
    requires Timed(cfg, w)
    ensures Step(cfg, w, e).Link().Moving() <==> Drives(cfg, w, e) || (w.Link().Moving() && !Halts(cfg, w, e))
    ensures !Drives(cfg, w, e) && !Halts(cfg, w, e) ==> Step(cfg, w, e).Link().wire == w.Link().wire
  {
  }

  lemma StepHops(cfg: Config, w: World, e: Event)
    requires Timed(cfg, w) && Possible(w, e)
    ensures Hop(cfg, w, e, Step(cfg, w, e))
  {
    MotionStep(cfg, w, e);
    EventMoves(cfg, w, e);
    if e.Receive? && IsEmergencyStop(e.msg) && !Denied(cfg, w, e) { EmergencyLease(cfg, w, e); }
  }

  /** An emergency stop lets a live lease start anew, and gives a free one to its sender. */
  lemma EmergencyLease(cfg: Config, w: World, e: Event)
    requires Timed(cfg, w) && e.Receive? && IsEmergencyStop(e.msg) && !Denied(cfg, w, e)
    ensures Step(cfg, w, e).core.lease == Owned(HolderOr(cfg, w, cfg.dir.Resolve(e.addr)).value, w.clock)
  {
  }

  lemma {:induction false} RunHops(cfg: Config, es: seq<Event>)
    requires Run(cfg, es)
    ensures Hops(cfg, es, Worlds(cfg, es)) && Worlds(cfg, es)[|es|] == Exec(cfg, es)
  {
    if es == [] {
    } else {
      var before, e := es[..|es| - 1], es[|es| - 1];
      RunHops(cfg, before);
      TimedRun(cfg, before);
      StepHops(cfg, Exec(cfg, before), e);
      HopsSnoc(cfg, es, Worlds(cfg, before), Exec(cfg, es));
    }
  }

  lemma HopsSnoc(cfg: Config, es: seq<Event>, ws: seq<World>, w: World)
    requires es != [] && Hops(cfg, es[..|es| - 1], ws) && Hop(cfg, ws[|es| - 1], es[|es| - 1], w)
    ensures Hops(cfg, es, ws + [w])
  {
    forall i | 0 <= i < |es|
      ensures Hop(cfg, (ws + [w])[i], es[i], (ws + [w])[i + 1])
    {
      if i < |es| - 1 { assert es[..|es| - 1][i] == es[i]; }
    }
  }

  /** Each of them is the world of a shorter run. */
  lemma {:induction false} WorldsAre(cfg: Config, es: seq<Event>, i: nat)
    requires i <= |es|
    ensures Worlds(cfg, es)[i] == Exec(cfg, es[..i])
  {
    if i == |es| {
      assert es[..i] == es;
    } else {
      WorldsAre(cfg, es[..|es| - 1], i);
      assert es[..|es| - 1][..i] == es[..i];
    }
  }

  // ---- Motion

  predicate NeverDrives(cfg: Config, es: seq<Event>, ws: seq<World>, m: nat, n: nat)
    requires |ws| == |es| + 1 && n <= |es|
  {
    forall i :: m <= i < n ==> !Drives(cfg, ws[i], es[i])
  }

  predicate NeverHalts(cfg: Config, es: seq<Event>, ws: seq<World>, m: nat, n: nat)
    requires |ws| == |es| + 1 && n <= |es|
  {
    forall i :: m <= i < n ==> !Halts(cfg, ws[i], es[i])
  }

  predicate StandsThroughout(ws: seq<World>, m: nat, n: nat)
    requires n < |ws|
  {
    forall i :: m <= i <= n ==> !ws[i].Link().Moving()
  }

  /** The `i`-th event drives, and no stop gets out between it and the `n`-th. */
  predicate DrivesLast(cfg: Config, es: seq<Event>, ws: seq<World>, i: nat, n: nat)
    requires |ws| == |es| + 1 && i < n <= |es|
  {
    Drives(cfg, ws[i], es[i]) && NeverHalts(cfg, es, ws, i + 1, n)
  }

  lemma {:induction false} LastOneOut(cfg: Config, es: seq<Event>, ws: seq<World>, m: nat, n: nat)
    requires Hops(cfg, es, ws) && m <= n <= |es|
    ensures ws[n].Link().Moving() <==>
            || (exists i :: m <= i < n && DrivesLast(cfg, es, ws, i, n))
            || (ws[m].Link().Moving() && NeverHalts(cfg, es, ws, m, n))
  {
    if m == n {
    } else {
      var p := n - 1;
      LastOneOut(cfg, es, ws, m, p);
      assert Hop(cfg, ws[p], es[p], ws[n]);
      assert NeverHalts(cfg, es, ws, m, n) <==> NeverHalts(cfg, es, ws, m, p) && !Halts(cfg, ws[p], es[p]);
      assert Drives(cfg, ws[p], es[p]) <==> DrivesLast(cfg, es, ws, p, n);
      forall i | m <= i < p
        ensures DrivesLast(cfg, es, ws, i, n) <==> DrivesLast(cfg, es, ws, i, p) && !Halts(cfg, ws[p], es[p])
      {
        assert NeverHalts(cfg, es, ws, i + 1, n) <==> NeverHalts(cfg, es, ws, i + 1, p) && !Halts(cfg, ws[p], es[p]);
      }
      if i :| m <= i < n && DrivesLast(cfg, es, ws, i, n) {
        assert i < p ==> DrivesLast(cfg, es, ws, i, p);
      }
      if i :| m <= i < p && DrivesLast(cfg, es, ws, i, p) {
        assert DrivesLast(cfg, es, ws, i, n) || Halts(cfg, ws[p], es[p]);
      }
    }
  }

  /** The car moves exactly when a drive was the last to get out, or it moved and no stop got out since. */
  lemma MotionExact(cfg: Config, es: seq<Event>, m: nat, n: nat)
    requires Run(cfg, es) && m <= n <= |es|
    ensures var ws := Worlds(cfg, es);
            ws[n].Link().Moving() <==>
            || (exists i :: m <= i < n && DrivesLast(cfg, es, ws, i, n))
            || (ws[m].Link().Moving() && NeverHalts(cfg, es, ws, m, n))
  {
    RunHops(cfg, es);
    LastOneOut(cfg, es, Worlds(cfg, es), m, n);
  }

  lemma {:induction false} Stands(cfg: Config, es: seq<Event>, ws: seq<World>, m: nat, n: nat)
    requires Hops(cfg, es, ws) && m <= n <= |es| && !ws[m].Link().Moving()
    ensures StandsThroughout(ws, m, n) <==> NeverDrives(cfg, es, ws, m, n)
  {
    if m == n {
    } else {
      Stands(cfg, es, ws, m, n - 1);
      assert Hop(cfg, ws[n - 1], es[n - 1], ws[n]);
    }
  }

  /** A car that stands stays where it is until the next drive gets out, and no longer. */
  lemma StandsUntilDriven(cfg: Config, es: seq<Event>, m: nat, n: nat)
    requires Run(cfg, es) && m <= n <= |es| && !Worlds(cfg, es)[m].Link().Moving()
    ensures StandsThroughout(Worlds(cfg, es), m, n) <==> NeverDrives(cfg, es, Worlds(cfg, es), m, n)
  {
    RunHops(cfg, es);
    Stands(cfg, es, Worlds(cfg, es), m, n);
  }

  // ---- Silence

  /** A car that moves although nobody drove it since is on the datagram it was on before. */
  lemma {:induction false} Coasts(cfg: Config, es: seq<Event>, ws: seq<World>, m: nat, n: nat)
    requires Hops(cfg, es, ws) && m <= n <= |es|
    requires NeverDrives(cfg, es, ws, m, n) && ws[n].Link().Moving()
    ensures ws[n].Link().wire == ws[m].Link().wire
  {
    if m == n {
    } else {
      assert Hop(cfg, ws[n - 1], es[n - 1], ws[n]);
      Coasts(cfg, es, ws, m, n - 1);
    }
  }

  /**
   The dead-man's promise, about silence: when no drive has got out for longer than `Reach`, whatever else
   was received, the car stands.
   */
  lemma SilenceStops(cfg: Config, k: nat, es: seq<Event>, m: nat)
    requires Run(cfg, es) && Trusted(cfg, k, es) && Exec(cfg, es).phase.Running? && m < |es|
    requires NeverDrives(cfg, es, Worlds(cfg, es), m, |es|)
    requires Exec(cfg, es).clock - Worlds(cfg, es)[m].clock > Reach(cfg, k)
    ensures !Exec(cfg, es).Link().Moving()
  {
    if Exec(cfg, es).Link().Moving() {
      RunHops(cfg, es);
      SentBefore(cfg, es, Worlds(cfg, es), m);
      DeadManBound(cfg, k, es);
      assert false;
    }
  }

  lemma SentBefore(cfg: Config, es: seq<Event>, ws: seq<World>, m: nat)
    requires Hops(cfg, es, ws) && m < |es|
    requires NeverDrives(cfg, es, ws, m, |es|) && ws[|es|].Link().Moving()
    ensures ws[|es|].Link().LastAt().value <= ws[m].clock
  {
    Coasts(cfg, es, ws, m, |es|);
    assert Hop(cfg, ws[m], es[m], ws[m + 1]);
  }

  // ---- The end of the server

  /**
   From the shutdown's stop on the car stands exactly when it stood already or that stop got out, and no
   drive gets out after it.
   */
  lemma ShutdownExact(cfg: Config, es: seq<Event>, m: nat)
    requires Run(cfg, es) && m < |es| && es[m].ShutdownStop?
    ensures var ws := Worlds(cfg, es);
            StandsThroughout(ws, m + 1, |es|) <==>
            (!ws[m].Link().Moving() || es[m].failure.None?) && NeverDrives(cfg, es, ws, m + 1, |es|)
  {
    RunHops(cfg, es);
    StopsFrom(cfg, es, Worlds(cfg, es), m);
  }

  lemma StopsFrom(cfg: Config, es: seq<Event>, ws: seq<World>, m: nat)
    requires Hops(cfg, es, ws) && m < |es| && es[m].ShutdownStop?
    ensures StandsThroughout(ws, m + 1, |es|) <==>
            (!ws[m].Link().Moving() || es[m].failure.None?) && NeverDrives(cfg, es, ws, m + 1, |es|)
  {
    assert Hop(cfg, ws[m], es[m], ws[m + 1]);
    if !ws[m + 1].Link().Moving() { Stands(cfg, es, ws, m + 1, |es|); }
  }

  lemma {:induction false} Unwatched(cfg: Config, es: seq<Event>, ws: seq<World>, m: nat, n: nat)
    requires Hops(cfg, es, ws) && m <= n <= |es| && !ws[m].phase.Running?
    requires forall i :: m <= i < n ==> Unattended(es[i])
    ensures ws[n].Link() == ws[m].Link() && !ws[n].phase.Running?
  {
    if m == n {
    } else {
      Unwatched(cfg, es, ws, m, n - 1);
      assert Hop(cfg, ws[n - 1], es[n - 1], ws[n]);
    }
  }

  /** Once the server is told to end, by a signal or by an error, time and telemetry never stop the car. */
  lemma NobodyWatches(cfg: Config, es: seq<Event>, m: nat, n: nat)
    requires Run(cfg, es) && m <= n <= |es| && !Worlds(cfg, es)[m].phase.Running?
    requires forall i :: m <= i < n ==> Unattended(es[i])
    ensures Worlds(cfg, es)[n].Link() == Worlds(cfg, es)[m].Link()
  {
    RunHops(cfg, es);
    Unwatched(cfg, es, Worlds(cfg, es), m, n);
  }

  /**
   The documentation's promise of a stop at termination fails: in any state of the running server a drive
   that the lease lets through, handled just after the shutdown's own stop, moves the car for any time.
   */
  lemma DriveAfterShutdown(cfg: Config, es: seq<Event>, addr: string, d: Time)
    requires Run(cfg, es) && Exec(cfg, es).phase.Running?
    requires !Denied(cfg, Exec(cfg, es), Receive(addr, FORWARD, None))
    ensures var end := es + [Cancel] + [ShutdownStop(None)] + [Receive(addr, FORWARD, None)] + [Wait(d)];
            && Run(cfg, end) && Exec(cfg, end).Link().Moving()
            && Exec(cfg, end).clock - Exec(cfg, end).Link().LastAt().value == d
  {
    var w, e := Exec(cfg, es), Receive(addr, FORWARD, None);
    ExecSnoc(cfg, es, Cancel);
    ExecSnoc(cfg, es + [Cancel], ShutdownStop(None));
    ExecSnoc(cfg, es + [Cancel] + [ShutdownStop(None)], e);
    ExecSnoc(cfg, es + [Cancel] + [ShutdownStop(None)] + [e], Wait(d));
    TimedRun(cfg, es);
    LateDrive(cfg, w, e, d);
  }

  lemma LateDrive(cfg: Config, w: World, e: Event, d: Time)
    requires Timed(cfg, w) && w.phase.Running? && Drives(cfg, w, e)
    ensures var stopped := Step(cfg, Step(cfg, w, Cancel), ShutdownStop(None));
            var driven := Step(cfg, stopped, e);
            var end := Step(cfg, driven, Wait(d));
            && !driven.phase.Running? && stopped.phase.Stopped?
            && end.Link().Moving() && end.clock - end.Link().LastAt().value == d
  {
    var stopped := Step(cfg, Step(cfg, w, Cancel), ShutdownStop(None));
    assert stopped.core.lease == w.core.lease && stopped.clock == w.clock;
    var driven := Step(cfg, stopped, e);
    assert driven.Link().LastPair() == e.msg.drive.value && driven.Link().LastAt() == Some(w.clock);
    assert Step(cfg, driven, Wait(d)).core == driven.core;
  }

  /** An error ends the server without any stop: a moving car stays on its last datagram. */
  lemma ErrorSendsNothing(cfg: Config, es: seq<Event>, d: Time)
    requires Run(cfg, es) && Exec(cfg, es).phase.Running?
    ensures var end := es + [Cancel] + [Wait(d)];
            && Run(cfg, end) && Exec(cfg, end).Link() == Exec(cfg, es).Link()
            && Exec(cfg, end).clock == Exec(cfg, es).clock + d
  {
    ExecSnoc(cfg, es, Cancel);
    ExecSnoc(cfg, es + [Cancel], Wait(d));
  }
}
