/**
 The page's stop button against the running server: what it achieves, for how long, and who can undo it.
 The page's messages arrive in the order it sent them, some may be lost, and anything may come between.
 */
module StopButton {
  import opened Basics
  import opened Access
  import opened Motor
  import opened Control
  import opened Ws
  import opened LeaseRefinement
  import opened System
  import opened DeadMan
  import opened Inert
  import opened Standstill
  import opened Page

  /** The event `at[k]` handles the page's message `k`. */
  predicate Delivered(sent: seq<Outgoing>, addr: string, es: seq<Event>, at: map<nat, nat>) {
    && (forall k :: k in at ==> k < |sent| && at[k] < |es| && IsFrom(es[at[k]], addr, sent[k].msg))
    && (forall k, m :: k in at && m in at && k < m ==> at[k] < at[m])
  }

  predicate IsFrom(e: Event, addr: string, msg: Message) {
    e.Receive? && e.addr == addr && e.msg == msg
  }

  /** Everything the server receives from `client` is one of the page's messages. */
  predicate OnlyPage(cfg: Config, client: Client, es: seq<Event>, at: map<nat, nat>) {
    forall i :: 0 <= i < |es| && es[i].Receive? && cfg.dir.Resolve(es[i].addr) == Some(client) ==>
      exists k :: k in at && at[k] == i
  }

  /** The page after its stop button was pressed and then used some more. */
  function Pressed(inputs: seq<Input>, rest: seq<Input>): Browser {
    Use(React(Use(LOADED, inputs), Input.StopButton), rest)
  }

  /** The number of the emergency stop among the page's messages. */
  function Button(inputs: seq<Input>): nat {
    |Use(LOADED, inputs).sent| + 1
  }

  lemma {:induction false} SentStays(b: Browser, rest: seq<Input>)
    ensures b.sent <= Use(b, rest).sent
  {
    if rest == [] {
    } else {
      SentStays(b, rest[..|rest| - 1]);
      assert Use(b, rest[..|rest| - 1]).sent <= Use(b, rest).sent;
    }
  }

  lemma ButtonSent(inputs: seq<Input>, rest: seq<Input>)
    requires Use(LOADED, inputs).open
    ensures var e, sent := Button(inputs), Pressed(inputs, rest).sent;
            e < |sent| && sent[e - 1].msg == STOP_MESSAGE && sent[e].msg == EMERGENCY_MESSAGE
  {
    StopButtonSends(Use(LOADED, inputs));
    SentStays(React(Use(LOADED, inputs), Input.StopButton), rest);
  }

  // ---- One emergency stop in a run

  /** A known client's emergency stop, the `i`-th event, gets its datagram out. */
  predicate EmergencyOut(cfg: Config, es: seq<Event>, i: nat) {
    && i < |es| && es[i].Receive? && es[i].msg == EMERGENCY_MESSAGE && es[i].failure.None?
    && cfg.dir.Resolve(es[i].addr).Some?
  }

  /** The button was pressed on an open page, and the `i`-th event gets the emergency stop out. */
  predicate ButtonOut(
    cfg: Config, inputs: seq<Input>, rest: seq<Input>, addr: string, es: seq<Event>, at: map<nat, nat>, i: nat)
  {
    && Use(LOADED, inputs).open && cfg.dir.Resolve(addr).Some?
    && Delivered(Pressed(inputs, rest).sent, addr, es, at)
    && Button(inputs) in at && at[Button(inputs)] == i && i < |es| && es[i].Receive? && es[i].failure.None?
  }

  lemma ButtonIsEmergency(
    cfg: Config, inputs: seq<Input>, rest: seq<Input>, addr: string, es: seq<Event>, at: map<nat, nat>, i: nat)
    requires ButtonOut(cfg, inputs, rest, addr, es, at, i)
    ensures EmergencyOut(cfg, es, i) && es[i].addr == addr && Button(inputs) < |Pressed(inputs, rest).sent|
  {
    ButtonSent(inputs, rest);
    assert IsFrom(es[at[Button(inputs)]], addr, Pressed(inputs, rest).sent[Button(inputs)].msg);
  }

  /** A drive message with a moving pair in range, whose datagram would get out. */
  predicate WouldMove(e: Event) {
    && e.Receive? && e.failure.None? && Acceptable(e.msg) && e.msg.kind.ControlKind?
    && InRange(e.msg.drive.value) && !e.msg.drive.value.IsStop()
  }

  /** After it the car stands, and the lease starts anew for its live owner, or else for the one who pressed. */
  lemma StopsThere(cfg: Config, es: seq<Event>, ws: seq<World>, i: nat)
    requires Hops(cfg, es, ws) && EmergencyOut(cfg, es, i)
    ensures !ws[i + 1].Link().Moving()
    ensures ws[i + 1].core.lease == Owned(HolderOr(cfg, ws[i], cfg.dir.Resolve(es[i].addr)).value, ws[i].clock)
  {
    assert Hop(cfg, ws[i], es[i], ws[i + 1]);
  }

  lemma {:induction false} OwnerStays(cfg: Config, es: seq<Event>, ws: seq<World>, m: nat, n: nat)
    requires Hops(cfg, es, ws) && m <= n <= |es|
    requires ws[m].Holder().Some? && ws[m].core.lease.commandMono.Some?
    requires ws[n].clock - ws[m].core.lease.commandMono.value <= cfg.controlTimeout
    ensures ws[n].Holder() == ws[m].Holder() && ws[n].core.lease.commandMono.Some?
    ensures ws[n].core.lease.commandMono.value >= ws[m].core.lease.commandMono.value
  {
    if m == n {
    } else {
      assert Hop(cfg, ws[n - 1], es[n - 1], ws[n]);
      OwnerStays(cfg, es, ws, m, n - 1);
    }
  }

  lemma {:induction false} ClockForward(cfg: Config, es: seq<Event>, ws: seq<World>, m: nat, n: nat)
    requires Hops(cfg, es, ws) && m <= n <= |es|
    ensures ws[m].clock <= ws[n].clock
  {
    if m == n {
    } else {
      ClockForward(cfg, es, ws, m, n - 1);
      assert Hop(cfg, ws[n - 1], es[n - 1], ws[n]);
    }
  }

  /** While an owner's lease runs, a drive message moves the car exactly if it comes from that owner. */
  lemma OwnerDecides(cfg: Config, w: World, e: Event)
    requires Timed(cfg, w) && WouldMove(e)
    requires w.Holder().Some? && w.core.lease.commandMono.Some?
    requires w.clock - w.core.lease.commandMono.value <= cfg.controlTimeout
    ensures Drives(cfg, w, e) <==> cfg.dir.Resolve(e.addr) == w.Holder()
  {
  }

  // ---- The button

  /**
   Once the emergency stop's datagram is out, whatever became of the stop before it and whatever came
   between, the car stands until the next drive gets out, and no longer.
   */
  lemma ButtonHolds(
    cfg: Config, inputs: seq<Input>, rest: seq<Input>, addr: string, es: seq<Event>, at: map<nat, nat>, i: nat, n: nat)
    requires Run(cfg, es) && ButtonOut(cfg, inputs, rest, addr, es, at, i) && i < n <= |es|
    ensures StandsThroughout(Worlds(cfg, es), i + 1, n) <==> NeverDrives(cfg, es, Worlds(cfg, es), i + 1, n)
  {
    ButtonIsEmergency(cfg, inputs, rest, addr, es, at, i);
    RunHops(cfg, es);
    HoldsFrom(cfg, es, Worlds(cfg, es), i, n);
  }

  lemma HoldsFrom(cfg: Config, es: seq<Event>, ws: seq<World>, i: nat, n: nat)
    requires Hops(cfg, es, ws) && EmergencyOut(cfg, es, i) && i < n <= |es|
    ensures StandsThroughout(ws, i + 1, n) <==> NeverDrives(cfg, es, ws, i + 1, n)
  {
    StopsThere(cfg, es, ws, i);
    Stands(cfg, es, ws, i + 1, n);
  }

  /**
   Who can undo it. The live owner before the stop, or else the one who pressed, holds the lease after it,
   and for a whole control timeout a drive message moves the car again exactly if it comes from that holder.
   So a stop pressed by somebody else does not keep the owner's next repeat from moving the car.
   */
  lemma OnlyHolderUndoes(cfg: Config, es: seq<Event>, i: nat, j: nat)
    requires Run(cfg, es) && EmergencyOut(cfg, es, i) && i < j < |es| && WouldMove(es[j])
    requires Worlds(cfg, es)[j].clock - Worlds(cfg, es)[i].clock <= cfg.controlTimeout
    ensures Drives(cfg, Worlds(cfg, es)[j], es[j]) <==>
            cfg.dir.Resolve(es[j].addr) == HolderOr(cfg, Worlds(cfg, es)[i], cfg.dir.Resolve(es[i].addr))
  {
    RunHops(cfg, es);
    HolderUndoes(cfg, es, Worlds(cfg, es), i, j);
  }

  lemma HolderUndoes(cfg: Config, es: seq<Event>, ws: seq<World>, i: nat, j: nat)
    requires Hops(cfg, es, ws) && EmergencyOut(cfg, es, i) && i < j < |es| && WouldMove(es[j])
    requires ws[j].clock - ws[i].clock <= cfg.controlTimeout
    ensures Drives(cfg, ws[j], es[j]) <==>
            cfg.dir.Resolve(es[j].addr) == HolderOr(cfg, ws[i], cfg.dir.Resolve(es[i].addr))
  {
    StopsThere(cfg, es, ws, i);
    OwnerStays(cfg, es, ws, i + 1, j);
    assert Hop(cfg, ws[j], es[j], ws[j + 1]);
    OwnerDecides(cfg, ws[j], es[j]);
  }

  /** In any reachable state with a free lease: A drives, B stops the car, A's next repeat moves it again. */
  lemma StopUndone(cfg: Config, w: World, addrA: string, addrB: string)
    requires Timed(cfg, w) && Live(w.core.lease, cfg.controlTimeout, w.clock).Free?
    requires cfg.dir.Resolve(addrA).Some? && cfg.dir.Resolve(addrB).Some?
    ensures var driven := Step(cfg, w, Receive(addrA, FORWARD, None));
            var stopped := Step(cfg, driven, Receive(addrB, EMERGENCY_MESSAGE, None));
            && driven.Link().Moving() && !stopped.Link().Moving()
            && Step(cfg, stopped, Receive(addrA, FORWARD, None)).Link().Moving()
  {
    var driven := Step(cfg, w, Receive(addrA, FORWARD, None));
    assert driven.core.lease == Owned(cfg.dir.Resolve(addrA).value, w.clock);
    assert driven.Link().LastPair() == Pair(70, 70);
    var stopped := Step(cfg, driven, Receive(addrB, EMERGENCY_MESSAGE, None));
    assert stopped.core.lease == driven.core.lease && stopped.Link().LastPair() == STOP;
  }

  // ---- Letting go

  /** The page lets go of a button over an open socket, and the `i`-th event gets its stop out. */
  predicate ReleaseOut(
    cfg: Config, inputs: seq<Input>, rest: seq<Input>, addr: string, es: seq<Event>, at: map<nat, nat>, i: nat)
  {
    var b := Use(LOADED, inputs);
    && b.open && Delivered(Use(React(b, Release), rest).sent, addr, es, at)
    && |b.sent| in at && at[|b.sent|] == i && i < |es| && es[i].Receive? && es[i].failure.None?
  }

  lemma ReleaseIsStop(
    cfg: Config, inputs: seq<Input>, rest: seq<Input>, addr: string, es: seq<Event>, at: map<nat, nat>, i: nat)
    requires ReleaseOut(cfg, inputs, rest, addr, es, at, i)
    ensures es[i].msg.kind.SystemKind? && es[i].msg.version == 1 && es[i].msg.system == Some(StopCommand)
    ensures es[i].addr == addr
  {
    var b := Use(LOADED, inputs);
    ReleaseSendsStop(b);
    SentStays(React(b, Release), rest);
    assert IsFrom(es[at[|b.sent|]], addr, Use(React(b, Release), rest).sent[|b.sent|].msg);
  }

  lemma StandsFrom(cfg: Config, es: seq<Event>, ws: seq<World>, i: nat, n: nat)
    requires Hops(cfg, es, ws) && i < n <= |es| && Standstill.Halts(cfg, ws[i], es[i])
    ensures StandsThroughout(ws, i + 1, n) <==> NeverDrives(cfg, es, ws, i + 1, n)
  {
    assert Hop(cfg, ws[i], es[i], ws[i + 1]);
    Stands(cfg, es, ws, i + 1, n);
  }

  /**
   Letting go of a button, too, stops the car until the next drive gets out, unless the lease is live and
   somebody else's, or the sender is a stranger.
   */
  lemma ReleaseHolds(
    cfg: Config, inputs: seq<Input>, rest: seq<Input>, addr: string, es: seq<Event>, at: map<nat, nat>, i: nat, n: nat)
    requires Run(cfg, es) && ReleaseOut(cfg, inputs, rest, addr, es, at, i) && i < n <= |es|
    requires cfg.dir.Resolve(addr).Some?
    requires HolderOr(cfg, Worlds(cfg, es)[i], cfg.dir.Resolve(addr)) == cfg.dir.Resolve(addr)
    ensures StandsThroughout(Worlds(cfg, es), i + 1, n) <==> NeverDrives(cfg, es, Worlds(cfg, es), i + 1, n)
  {
    ReleaseIsStop(cfg, inputs, rest, addr, es, at, i);
    RunHops(cfg, es);
    StandsFrom(cfg, es, Worlds(cfg, es), i, n);
  }

  // ---- A page that is no longer pressed

  /** A page that has been quiet since its first `from` messages drives nothing with the later ones. */
  lemma QuietPageNeverDrives(
    cfg: Config, b: Browser, before: seq<Outgoing>, addr: string, client: Client, es: seq<Event>, at: map<nat, nat>,
    j: nat, w: World)
    requires Quiet(before, b) && Delivered(b.sent, addr, es, at) && OnlyPage(cfg, client, es, at)
    requires j < |es| && Drives(cfg, w, es[j]) && cfg.dir.Resolve(es[j].addr) == Some(client)
    ensures exists k :: k in at && at[k] == j && k < |before|
  {
    var k :| k in at && at[k] == j;
    assert IsFrom(es[at[k]], addr, b.sent[k].msg);
  }

  /**
   The presser's own lease: if the one who pressed holds the lease after the stop, sends only through this
   page, and presses no drive button again, the car stands for a whole control timeout.
   */
  lemma OwnStopHolds(
    cfg: Config, inputs: seq<Input>, rest: seq<Input>, addr: string, es: seq<Event>, at: map<nat, nat>, i: nat, n: nat)
    requires Run(cfg, es) && ButtonOut(cfg, inputs, rest, addr, es, at, i) && i < n <= |es|
    requires OnlyPage(cfg, cfg.dir.Resolve(addr).value, es, at) && forall k :: 0 <= k < |rest| ==> !rest[k].Press?
    requires var ws := Worlds(cfg, es);
             && HolderOr(cfg, ws[i], cfg.dir.Resolve(addr)) == cfg.dir.Resolve(addr)
             && ws[n].clock - ws[i].clock <= cfg.controlTimeout
    ensures StandsThroughout(Worlds(cfg, es), i + 1, n)
  {
    ButtonIsEmergency(cfg, inputs, rest, addr, es, at, i);
    NoDriveAfterStop(inputs, Input.StopButton, rest);
    RunHops(cfg, es);
    OwnStopIn(cfg, Pressed(inputs, rest), Use(LOADED, inputs).sent, addr, es, Worlds(cfg, es), at, Button(inputs), n);
  }

  lemma OwnStopIn(
    cfg: Config, b: Browser, before: seq<Outgoing>, addr: string, es: seq<Event>, ws: seq<World>,
    at: map<nat, nat>, button: nat, n: nat)
    requires Hops(cfg, es, ws) && Quiet(before, b) && Delivered(b.sent, addr, es, at)
    requires button in at && |before| <= button && EmergencyOut(cfg, es, at[button]) && at[button] < n <= |es|
    requires es[at[button]].addr == addr && OnlyPage(cfg, cfg.dir.Resolve(addr).value, es, at)
    requires HolderOr(cfg, ws[at[button]], cfg.dir.Resolve(addr)) == cfg.dir.Resolve(addr)
    requires ws[n].clock - ws[at[button]].clock <= cfg.controlTimeout
    ensures StandsThroughout(ws, at[button] + 1, n)
  {
    var i := at[button];
    HoldsFrom(cfg, es, ws, i, n);
    StopsThere(cfg, es, ws, i);
    forall j | i < j < n
      ensures !Drives(cfg, ws[j], es[j])
    {
      if Drives(cfg, ws[j], es[j]) {
        ClockForward(cfg, es, ws, j, n);
        assert WouldMove(es[j]);
        HolderUndoes(cfg, es, ws, i, j);
        QuietPageNeverDrives(cfg, b, before, addr, cfg.dir.Resolve(addr).value, es, at, j, ws[j]);
      }
    }
  }

  /**
   A page that stops sending, for whatever reason, stops the car: if only its client drives from the `m`-th
   event on, and the page was halted and its earlier messages handled by then, the car stands once `Reach`
   has passed.
   */
  lemma SilentPageStops(
    cfg: Config, reach: nat, inputs: seq<Input>, halt: Input, rest: seq<Input>, addr: string, client: Client,
    es: seq<Event>, at: map<nat, nat>, m: nat)
    requires Run(cfg, es) && Trusted(cfg, reach, es) && Exec(cfg, es).phase.Running? && m < |es|
    requires Page.Halts(halt) && forall k :: 0 <= k < |rest| ==> !rest[k].Press?
    requires Delivered(Use(React(Use(LOADED, inputs), halt), rest).sent, addr, es, at) && OnlyPage(cfg, client, es, at)
    requires forall k :: k in at && k < |Use(LOADED, inputs).sent| ==> at[k] < m
    requires forall j :: m <= j < |es| && Drives(cfg, Worlds(cfg, es)[j], es[j]) ==>
                           cfg.dir.Resolve(es[j].addr) == Some(client)
    requires Exec(cfg, es).clock - Worlds(cfg, es)[m].clock > Reach(cfg, reach)
    ensures !Exec(cfg, es).Link().Moving()
  {
    var ws := Worlds(cfg, es);
    NoDriveAfterStop(inputs, halt, rest);
    forall j | m <= j < |es|
      ensures !Drives(cfg, ws[j], es[j])
    {
      if Drives(cfg, ws[j], es[j]) {
        QuietPageNeverDrives(
          cfg, Use(React(Use(LOADED, inputs), halt), rest), Use(LOADED, inputs).sent, addr, client, es, at, j, ws[j]);
      }
    }
    SilenceStops(cfg, reach, es, m);
  }
}
