/**
 The running server: lease, service, link and watchdog over time, as one step system. While the server
 runs, the watchdog's ticker is urgent: the clock cannot pass a due tick. Once it is told to end, the
 watchdog is gone, and messages are still handled until the process exits. Handlers and checks are atomic
 here; SplitStep takes the send and its record apart.
 */
module System {
  import opened Basics
  import opened Access
  import opened Motor
  import opened Control
  import opened Safety
  import opened Ws
  import opened LeaseRefinement

  datatype Config = Config(dir: Directory, controlTimeout: nat, commandTimeout: nat) {
    function Tick(): (period: nat)
      ensures period > 0
    {
      Period(commandTimeout)
    }
  }

  /** `client` was allowed to control at `at`. */
  datatype Grant = Grant(client: Client, at: Time)

  /** The context is cancelled first, which ends the watchdog; the shutdown's own stop comes after that. */
  datatype Phase = Running | Cancelled | Stopped

  /**
   `grants` logs every drive or stop message the lease let through; `misses` counts the watchdog stops
   that failed since the last successful send.
   */
  datatype World = World(phase: Phase, clock: Time, nextTick: Time, core: Core, grants: seq<Grant>, misses: nat) {
    function Link(): Link { core.board.link }
    function State(): State { core.board.state }
    function Holder(): Option<Client> { core.lease.owner }
  }

  datatype Event =
    | Wait(d: Time)
    | WatchdogTick(failure: Option<string>)
    | Receive(addr: string, msg: Message, failure: Option<string>)
    | Leave(addr: string, failure: Option<string>)
    | Hear(telemetry: MotorTelemetry)
    | ReportMotor(connected: bool)
    | ReportCamera(connected: bool)
    | Cancel                                // a signal, or an error that ends the server
    | ShutdownStop(failure: Option<string>) // after a signal only

  function Start(cfg: Config): World {
    World(Running, 0, cfg.Tick(), NEW_CORE, [], 0)
  }

  predicate Possible(w: World, e: Event) {
    match e
    case Wait(d) => w.phase.Running? ==> w.clock + d <= w.nextTick
    case WatchdogTick(_) => w.phase.Running? && w.clock == w.nextTick
    case Cancel => w.phase.Running?
    case ShutdownStop(_) => w.phase.Cancelled?
    case _ => true
  }

  function Misses(w: World, e: Event, board: Board): nat {
    if |board.link.wire| > |w.Link().wire| then 0
    else if e.WatchdogTick? && board.link.attempts > w.Link().attempts then w.misses + 1
    else w.misses
  }

  function CoreAfter(cfg: Config, w: World, e: Event): Core {
    var board := w.core.board;
    match e
    case Wait(_) => w.core
    case Cancel => w.core
    case WatchdogTick(failure) => w.core.(board := Checked(board, cfg.commandTimeout, failure, w.clock))
    case Receive(addr, msg, failure) =>
      Handle(w.core, cfg.controlTimeout, cfg.dir.Resolve(addr), msg, failure, w.clock).0
    case Leave(addr, failure) => Disconnect(w.core, cfg.controlTimeout, cfg.dir.Resolve(addr), failure, w.clock)
    case Hear(t) => w.core.(board := board.(state := Observe(board.state, t, w.clock)))
    case ReportMotor(b) => w.core.(board := board.(state := board.state.(motorConnected := b)))
    case ReportCamera(b) => w.core.(board := board.(state := board.state.(cameraConnected := b)))
    case ShutdownStop(failure) => w.core.(board := Command(board, STOP, failure, w.clock, ByShutdown))
  }

  function GrantsAfter(cfg: Config, w: World, e: Event): seq<Grant> {
    if e.Receive? && Malformed(e.msg) == NoFault && !IsEmergencyStop(e.msg) then
      var who := cfg.dir.Resolve(e.addr);
      if GrantControl(w.core.lease, cfg.controlTimeout, who, w.clock).1.allowed && who.Some?
      then w.grants + [Grant(who.value, w.clock)] else w.grants
    else w.grants
  }

  function PhaseAfter(phase: Phase, e: Event): Phase {
    if e.Cancel? then Cancelled else if e.ShutdownStop? then Stopped else phase
  }

  function Step(cfg: Config, w: World, e: Event): World {
    var core := CoreAfter(cfg, w, e);
    World(
      PhaseAfter(w.phase, e),
      if e.Wait? then w.clock + e.d else w.clock,
      if e.WatchdogTick? then w.nextTick + cfg.Tick() else w.nextTick,
      core, GrantsAfter(cfg, w, e), Misses(w, e, core.board))
  }

  // ---- What one event does, told without its mechanics

  /** A command an event hands to the service. */
  datatype Order = Order(cmd: Pair, failure: Option<string>, source: Source)

  function Issued(cfg: Config, w: World, e: Event): Option<Order> {
    match e
    case WatchdogTick(failure) =>
      if Fires(w.State(), cfg.commandTimeout, w.clock) then Some(Order(STOP, failure, ByWatchdog)) else None
    case ShutdownStop(failure) => Some(Order(STOP, failure, ByShutdown))
    case Leave(addr, failure) =>
      var who := cfg.dir.Resolve(addr);
      if who.Some? && CheckOwner(w.core.lease, cfg.controlTimeout, who, w.clock).1.allowed
      then Some(Order(STOP, failure, ByClient(who.value))) else None
    case Receive(addr, msg, failure) =>
      var who := cfg.dir.Resolve(addr);
      if Malformed(msg) != NoFault || who.None? then None
      else if IsEmergencyStop(msg) then Some(Order(STOP, failure, ByClient(who.value)))
      else if !GrantControl(w.core.lease, cfg.controlTimeout, who, w.clock).1.allowed then None
      else if msg.kind.SystemKind? then Some(Order(STOP, failure, ByClient(who.value)))
      else if Validate(msg.drive.value) != NoFault then None
      else Some(Order(msg.drive.value, failure, ByClient(who.value)))
    case _ => None
  }

  /** The service after at most one command; only telemetry writes the recorded pair otherwise. */
  predicate Obeyed(b: Board, b': Board, order: Option<Order>, heard: Option<Pair>, now: Time) {
    if order.None? then
      && b'.link == b.link && b'.state.lastCommandAt == b.state.lastCommandAt
      && b'.state.pair == if heard.Some? then heard.value else b.state.pair
    else
      var o := order.value;
      && b'.link == Transmit(b.link, o.cmd, o.failure, now, o.source)
      && b'.state.pair == (if o.failure.None? then o.cmd else b.state.pair)
      && b'.state.lastCommandAt == if o.failure.None? then Some(now) else b.state.lastCommandAt
  }

  /** A live lease keeps its owner and is never shortened. */
  predicate LeaseFollows(cfg: Config, l: Lease, l': Lease, now: Time) {
    && WellFormed(cfg.dir, l', now)
    && (l.owner.Some? && l.commandMono.Some? && now - l.commandMono.value <= cfg.controlTimeout ==>
          l'.owner == l.owner && l'.commandMono.Some? && l'.commandMono.value >= l.commandMono.value)
  }

  predicate InRange(p: Pair) {
    -100 <= p.left <= 100 && -100 <= p.right <= 100
  }

  /** Only a client just let through can move the car, and only a silent service wakes the watchdog. */
  predicate Warranted(cfg: Config, w: World, w': World, o: Order) {
    && InRange(o.cmd)
    && (!o.cmd.IsStop() ==>
          && o.source.ByClient? && cfg.dir.IsOperator(o.source.client)
          && w'.grants == w.grants + [Grant(o.source.client, w.clock)])
    && (o.source.ByWatchdog? ==> Fires(w.State(), cfg.commandTimeout, w.clock))
  }

  predicate GrantsFollow(cfg: Config, w: World, w': World) {
    || w'.grants == w.grants
    || (&& |w'.grants| == |w.grants| + 1 && w.grants <= w'.grants
        && var g := w'.grants[|w.grants|];
           && g.at == w.clock && cfg.dir.IsOperator(g.client) && w'.core.lease == Owned(g.client, w.clock))
  }

  predicate Moves(cfg: Config, w: World, e: Event, w': World) {
    var order := Issued(cfg, w, e);
    && w'.phase == PhaseAfter(w.phase, e)
    && w'.clock == w.clock + (if e.Wait? then e.d else 0)
    && w'.nextTick == w.nextTick + (if e.WatchdogTick? then cfg.Tick() else 0)
    && LeaseFollows(cfg, w.core.lease, w'.core.lease, w.clock)
    && Obeyed(w.core.board, w'.core.board, order, if e.Hear? then Some(e.telemetry.pair) else None, w.clock)
    && (order.Some? ==> Warranted(cfg, w, w', order.value))
    && (e.WatchdogTick? && Fires(w.State(), cfg.commandTimeout, w.clock) ==>
          order == Some(Order(STOP, e.failure, ByWatchdog)))
    && (order.Some? && order.value.source.ByWatchdog? ==> e.WatchdogTick?)
    && GrantsFollow(cfg, w, w')
    && w'.misses ==
         (if order.Some? && order.value.failure.None? then 0
          else if order.Some? && e.WatchdogTick? then w.misses + 1 else w.misses)
  }

  lemma BoardMoves(cfg: Config, w: World, e: Event)
    ensures Obeyed(w.core.board, CoreAfter(cfg, w, e).board, Issued(cfg, w, e),
                   if e.Hear? then Some(e.telemetry.pair) else None, w.clock)
  {
  }

  lemma LeaseMoves(cfg: Config, w: World, e: Event)
    requires WellFormed(cfg.dir, w.core.lease, w.clock)
    ensures LeaseFollows(cfg, w.core.lease, CoreAfter(cfg, w, e).lease, w.clock)
  {
  }

  lemma GrantsMove(cfg: Config, w: World, e: Event)
    requires WellFormed(cfg.dir, w.core.lease, w.clock)
    ensures GrantsFollow(cfg, w, Step(cfg, w, e))
    ensures Issued(cfg, w, e).Some? ==> Warranted(cfg, w, Step(cfg, w, e), Issued(cfg, w, e).value)
  {
  }

  lemma EventMoves(cfg: Config, w: World, e: Event)
    requires WellFormed(cfg.dir, w.core.lease, w.clock)
    ensures Moves(cfg, w, e, Step(cfg, w, e))
  {
    BoardMoves(cfg, w, e);
    LeaseMoves(cfg, w, e);
    GrantsMove(cfg, w, e);
    MissesMove(cfg, w, e, CoreAfter(cfg, w, e).board);
  }

  lemma MissesMove(cfg: Config, w: World, e: Event, board: Board)
    requires Obeyed(w.core.board, board, Issued(cfg, w, e), if e.Hear? then Some(e.telemetry.pair) else None, w.clock)
    ensures Misses(w, e, board) ==
            if Issued(cfg, w, e).Some? && Issued(cfg, w, e).value.failure.None? then 0
            else if Issued(cfg, w, e).Some? && e.WatchdogTick? then w.misses + 1 else w.misses
  {
  }

  // ---- Runs

  function Exec(cfg: Config, es: seq<Event>): World {
    if es == [] then Start(cfg) else Step(cfg, Exec(cfg, es[..|es| - 1]), es[|es| - 1])
  }

  predicate Run(cfg: Config, es: seq<Event>) {
    es == [] || (Run(cfg, es[..|es| - 1]) && Possible(Exec(cfg, es[..|es| - 1]), es[|es| - 1]))
  }

  lemma ExecSnoc(cfg: Config, es: seq<Event>, e: Event)
    ensures Exec(cfg, es + [e]) == Step(cfg, Exec(cfg, es), e)
    ensures Run(cfg, es + [e]) <==> Run(cfg, es) && Possible(Exec(cfg, es), e)
  {
    assert (es + [e])[..|es|] == es;
  }

  // ---- What holds in every run, with no assumption on telemetry or the network

  /** While the server runs, the tick ahead is within a period; the service knows when it last sent. */
  predicate Timed(cfg: Config, w: World) {
    && (w.phase.Running? ==> w.nextTick - cfg.Tick() <= w.clock <= w.nextTick)
    && WellFormed(cfg.dir, w.core.lease, w.clock)
    && w.State().lastCommandAt == w.Link().LastAt()
    && (w.Link().LastAt().Some? ==> w.Link().LastAt().value <= w.clock)
  }

  lemma TimedKept(cfg: Config, w: World, e: Event, w': World)
    requires Timed(cfg, w) && Possible(w, e) && Moves(cfg, w, e, w')
    ensures Timed(cfg, w')
  {
  }

  lemma {:induction false} TimedRun(cfg: Config, es: seq<Event>)
    requires Run(cfg, es)
    ensures Timed(cfg, Exec(cfg, es))
  {
    if es == [] {
    } else {
      TimedRun(cfg, es[..|es| - 1]);
      EventMoves(cfg, Exec(cfg, es[..|es| - 1]), es[|es| - 1]);
      TimedKept(cfg, Exec(cfg, es[..|es| - 1]), es[|es| - 1], Exec(cfg, es));
    }
  }

  // ---- The wire

  predicate SentWell(cfg: Config, grants: seq<Grant>, s: Sent) {
    && InRange(s.pair)
    && (!s.pair.IsStop() ==>
          s.source.ByClient? && cfg.dir.IsOperator(s.source.client) && Grant(s.source.client, s.at) in grants)
  }

  predicate SentAfter(cfg: Config, s: Sent, t: Sent) {
    && s.attempt < t.attempt && s.at <= t.at
    && (t.source.ByWatchdog? ==> t.at - s.at > cfg.commandTimeout)
  }

  predicate WireSound(cfg: Config, w: World) {
    var wire := w.Link().wire;
    && w.Link().number == w.Link().attempts % TWO_64
    && (forall i :: 0 <= i < |wire| ==>
          && SentWell(cfg, w.grants, wire[i])
          && wire[i].attempt <= w.Link().attempts && wire[i].number == wire[i].attempt % TWO_64
          && wire[i].at <= w.clock)
    && (forall i, j :: 0 <= i < j < |wire| ==> SentAfter(cfg, wire[i], wire[j]))
    && (wire != [] ==> !wire[0].source.ByWatchdog?)
  }

  /** What an event may add to the wire. */
  predicate Grew(cfg: Config, w: World, w': World, s: Sent) {
    && w'.Link().wire == w.Link().wire + [s]
    && s.attempt == w.Link().attempts + 1 && s.number == s.attempt % TWO_64
    && s.at == w.clock && SentWell(cfg, w'.grants, s)
    && (s.source.ByWatchdog? ==> w.Link().LastAt().Some? && w.clock - w.Link().LastAt().value > cfg.commandTimeout)
  }

  lemma WireGrows(cfg: Config, w: World, e: Event, w': World)
    requires Timed(cfg, w) && Moves(cfg, w, e, w')
    requires w.Link().number == w.Link().attempts % TWO_64
    ensures w'.Link().attempts >= w.Link().attempts && w'.Link().number == w'.Link().attempts % TWO_64
    ensures w'.Link().wire == w.Link().wire ||
            (w'.Link().attempts == w.Link().attempts + 1 && w'.Link().wire != [] &&
             Grew(cfg, w, w', w'.Link().wire[|w'.Link().wire| - 1]))
  {
    if w'.Link().wire != w.Link().wire {
      var o := Issued(cfg, w, e).value;
      if !o.cmd.IsStop() { assert Grant(o.source.client, w.clock) == w'.grants[|w.grants|]; }
    }
  }

  lemma SentWellGrows(cfg: Config, w: World, grants: seq<Grant>, i: int)
    requires WireSound(cfg, w) && w.grants <= grants && 0 <= i < |w.Link().wire|
    ensures SentWell(cfg, grants, w.Link().wire[i])
  {
    var s := w.Link().wire[i];
    if !s.pair.IsStop() {
      var k :| 0 <= k < |w.grants| && w.grants[k] == Grant(s.source.client, s.at);
      assert grants[k] == w.grants[k];
    }
  }

  lemma WireExtends(cfg: Config, w: World, w': World)
    requires WireSound(cfg, w) && w.grants <= w'.grants && w.clock <= w'.clock
    requires w'.Link().number == w'.Link().attempts % TWO_64 && w.Link().attempts <= w'.Link().attempts
    requires w'.Link().wire == w.Link().wire ||
             (w'.Link().attempts == w.Link().attempts + 1 && w'.Link().wire != [] &&
              Grew(cfg, w, w', w'.Link().wire[|w'.Link().wire| - 1]))
    ensures WireSound(cfg, w')
  {
    var wire, wire' := w.Link().wire, w'.Link().wire;
    forall i | 0 <= i < |wire'|
      ensures SentWell(cfg, w'.grants, wire'[i])
    {
      if i < |wire| { SentWellGrows(cfg, w, w'.grants, i); }
    }
    forall i, j | 0 <= i < j < |wire'|
      ensures SentAfter(cfg, wire'[i], wire'[j])
    {
      if j < |wire| {
        assert SentAfter(cfg, wire[i], wire[j]);
      } else if i < |wire| - 1 {
        assert SentAfter(cfg, wire[i], wire[|wire| - 1]);
      }
    }
  }

  lemma {:induction false} WireRun(cfg: Config, es: seq<Event>)
    requires Run(cfg, es)
    ensures WireSound(cfg, Exec(cfg, es))
  {
    if es == [] {
    } else {
      TimedRun(cfg, es[..|es| - 1]);
      WireRun(cfg, es[..|es| - 1]);
      var w, e := Exec(cfg, es[..|es| - 1]), es[|es| - 1];
      EventMoves(cfg, w, e);
      WireGrows(cfg, w, e, Exec(cfg, es));
      WireExtends(cfg, w, Exec(cfg, es));
    }
  }

  lemma LastIsLatest(cfg: Config, w: World)
    requires WireSound(cfg, w) && w.Link().wire != []
    ensures forall i :: 0 <= i < |w.Link().wire| ==> w.Link().wire[i].at <= w.Link().LastAt().value
  {
    var wire := w.Link().wire;
    forall i | 0 <= i < |wire|
      ensures wire[i].at <= wire[|wire| - 1].at
    {
      if i < |wire| - 1 { assert SentAfter(cfg, wire[i], wire[|wire| - 1]); }
    }
  }

  /** Nothing was sent within the last command timeout. */
  predicate Silent(cfg: Config, w: World) {
    forall i :: 0 <= i < |w.Link().wire| ==> w.clock - w.Link().wire[i].at > cfg.commandTimeout
  }

  /**
   A tick attempts a stop exactly when something was sent before, the recorded pair is not a stop, and
   nothing was sent within the last timeout.
   */
  lemma WatchdogExact(cfg: Config, es: seq<Event>, failure: Option<string>)
    requires Run(cfg, es) && Possible(Exec(cfg, es), WatchdogTick(failure))
    ensures var w := Exec(cfg, es);
            var due := w.Link().wire != [] && !w.State().pair.IsStop() && Silent(cfg, w);
            var link' := Exec(cfg, es + [WatchdogTick(failure)]).Link();
            && link'.attempts == w.Link().attempts + (if due then 1 else 0)
            && (due && failure.None? ==>
                  |link'.wire| == |w.Link().wire| + 1 && w.Link().wire <= link'.wire && link'.LastPair() == STOP)
            && (!due || failure.Some? ==> link'.wire == w.Link().wire)
  {
    var w := Exec(cfg, es);
    ExecSnoc(cfg, es, WatchdogTick(failure));
    TimedRun(cfg, es);
    WireRun(cfg, es);
    if w.Link().wire != [] {
      LastIsLatest(cfg, w);
      assert Silent(cfg, w) <==> w.clock - w.Link().LastAt().value > cfg.commandTimeout;
    }
  }
}
