/** Messages the server refuses leave no trace: erase them from a run and nothing else changes. */
module Inert {
  import opened Basics
  import opened Access
  import opened Motor
  import opened Control
  import opened Ws
  import opened LeaseRefinement
  import opened System

  /** Version 1, and a drive, a stop or an emergency stop. */
  predicate Acceptable(msg: Message) {
    && msg.version == 1
    && (|| (msg.kind.ControlKind? && msg.drive.Some?)
        || (msg.kind.SystemKind? && (msg.system == Some(StopCommand) || msg.system == Some(EmergencyStopCommand))))
  }

  /** Malformed, from a stranger, or from an operator while another one holds a lease that has not run out. */
  predicate Denied(cfg: Config, w: World, e: Event) {
    && e.Receive?
    && var who := cfg.dir.Resolve(e.addr);
       var lease := Live(w.core.lease, cfg.controlTimeout, w.clock);
       || !Acceptable(e.msg)
       || who.None?
       || (!IsEmergencyStop(e.msg) && lease.Held? && Some(lease.client) != who)
  }

  function ReplyTo(cfg: Config, w: World, e: Event): State
    requires e.Receive?
  {
    Handle(w.core, cfg.controlTimeout, cfg.dir.Resolve(e.addr), e.msg, e.failure, w.clock).1
  }

  /** A message is denied exactly when it changes nothing. */
  lemma DeniedExactlyInert(cfg: Config, w: World, e: Event)
    requires Timed(cfg, w) && e.Receive?
    ensures Denied(cfg, w, e) <==> Step(cfg, w, e) == w
  {
    if !Denied(cfg, w, e) { LetThroughCounts(cfg, w, e); }
  }

  lemma LetThroughCounts(cfg: Config, w: World, e: Event)
    requires Timed(cfg, w) && e.Receive? && !Denied(cfg, w, e)
    ensures var w' := Step(cfg, w, e); |w'.grants| > |w.grants| || w'.Link().attempts > w.Link().attempts
  {
  }

  /** The sender of a denied message is shown the stored state, marked invalid and with the reason. */
  lemma DeniedReply(cfg: Config, w: World, e: Event)
    requires Timed(cfg, w) && Denied(cfg, w, e)
    ensures var reply := ReplyTo(cfg, w, e);
            && !reply.lastCommandValid && reply == w.State().(lastCommandValid := false, lastError := reply.lastError)
            && reply.lastError ==
               if e.msg.version != 1 then UnsupportedVersion
               else if e.msg.kind.OtherKind? then UnknownMessageType
               else if e.msg.kind.ControlKind? && e.msg.drive.None? then MissingDrivePayload
               else if e.msg.kind.SystemKind? && e.msg.system.None? then MissingSystemPayload
               else if !Acceptable(e.msg) then UnknownSystemCommand
               else if IsEmergencyStop(e.msg) then EmergencyStopDenied(UnknownClient)
               else ControlDenied(if cfg.dir.Resolve(e.addr).None? then UnknownClient else ControlBusy)
  {
  }

  /** The sender of any other message is shown the state as it is stored afterwards. */
  lemma AcceptedReply(cfg: Config, w: World, e: Event)
    requires Timed(cfg, w) && e.Receive? && !Denied(cfg, w, e)
    ensures ReplyTo(cfg, w, e) == Step(cfg, w, e).State()
  {
  }

  /** A speed out of range is refused too late to be inert: its sender has been given the lease. */
  lemma OutOfRangeTakesLease(cfg: Config, w: World, e: Event)
    requires Timed(cfg, w) && e.Receive? && !Denied(cfg, w, e)
    requires e.msg.kind.ControlKind? && !InRange(e.msg.drive.value)
    ensures var w', left := Step(cfg, w, e), e.msg.drive.value.left;
            && w'.Link() == w.Link()
            && w'.State() == w.State().(
                 lastCommandValid := false,
                 lastError := if -100 <= left <= 100 then InvalidRightSpeed else InvalidLeftSpeed)
            && w'.core.lease == Owned(cfg.dir.Resolve(e.addr).value, w.clock)
  {
  }

  /**
   A drive message in range that is let through reaches the wire as it was asked, and is recorded and shown
   to its sender as it was sent; if the send fails, the wire and the recorded pair stay as they were.
   */
  lemma AcceptedDriveObeyed(cfg: Config, w: World, e: Event)
    requires Timed(cfg, w) && e.Receive? && !Denied(cfg, w, e)
    requires e.msg.kind.ControlKind? && InRange(e.msg.drive.value)
    ensures var w' := Step(cfg, w, e);
            && ReplyTo(cfg, w, e) == w'.State()
            && w'.core.lease == Owned(cfg.dir.Resolve(e.addr).value, w.clock)
            && w'.Link().attempts == w.Link().attempts + 1
            && (e.failure.None? ==>
                  && w'.Link().LastPair() == w'.State().pair == e.msg.drive.value && w.Link().wire <= w'.Link().wire
                  && w'.State().motorConnected && w'.State().lastCommandValid
                  && w'.State().lastCommandAt == Some(w.clock))
            && (e.failure.Some? ==>
                  && w'.Link().wire == w.Link().wire && !w'.State().motorConnected
                  && w'.State() == w.State().(motorConnected := false, lastCommandValid := false,
                                              lastError := MotorFault(e.failure.value)))
  {
    if e.failure.None? {
      DriveGetsOut(cfg, w, e);
    } else {
      DriveFails(cfg, w, e);
    }
  }

  predicate InRangeDrive(cfg: Config, w: World, e: Event) {
    e.Receive? && !Denied(cfg, w, e) && e.msg.kind.ControlKind? && InRange(e.msg.drive.value)
  }

  lemma DriveGetsOut(cfg: Config, w: World, e: Event)
    requires Timed(cfg, w) && InRangeDrive(cfg, w, e) && e.failure.None?
    ensures var w' := Step(cfg, w, e);
            && ReplyTo(cfg, w, e) == w'.State()
            && w'.core.lease == Owned(cfg.dir.Resolve(e.addr).value, w.clock)
            && w'.Link().attempts == w.Link().attempts + 1
            && w'.Link().LastPair() == w'.State().pair == e.msg.drive.value && w.Link().wire <= w'.Link().wire
            && w'.State().motorConnected && w'.State().lastCommandValid && w'.State().lastCommandAt == Some(w.clock)
  {
  }

  lemma DriveFails(cfg: Config, w: World, e: Event)
    requires Timed(cfg, w) && InRangeDrive(cfg, w, e) && e.failure.Some?
    ensures var w' := Step(cfg, w, e);
            && ReplyTo(cfg, w, e) == w'.State()
            && w'.core.lease == Owned(cfg.dir.Resolve(e.addr).value, w.clock)
            && w'.Link().attempts == w.Link().attempts + 1 && w'.Link().wire == w.Link().wire
            && w'.State() == w.State().(motorConnected := false, lastCommandValid := false,
                                        lastError := MotorFault(e.failure.value))
  {
  }

  /** A disconnect attempts a stop exactly when the client that left holds a lease that has not run out. */
  lemma DisconnectStopsOwnerOnly(cfg: Config, w: World, addr: string, failure: Option<string>)
    requires Timed(cfg, w)
    ensures var w' := Step(cfg, w, Leave(addr, failure));
            var who := cfg.dir.Resolve(addr);
            var lease := Live(w.core.lease, cfg.controlTimeout, w.clock);
            && w'.Link().attempts == w.Link().attempts + (if who.Some? && lease.Holder() == who then 1 else 0)
            && (who.Some? && lease.Holder() == who && failure.None? ==> w'.Link().LastPair() == STOP)
            && (w'.Link().attempts == w.Link().attempts ==> w'.Link() == w.Link() && w'.State() == w.State())
  {
  }

  // ---- Runs

  function Erase(cfg: Config, es: seq<Event>): seq<Event> {
    if es == [] then [] else
      var before, e := es[..|es| - 1], es[|es| - 1];
      Erase(cfg, before) + if Denied(cfg, Exec(cfg, before), e) then [] else [e]
  }

  /** Every reply of a run, in order. */
  function Replies(cfg: Config, es: seq<Event>): seq<State> {
    if es == [] then [] else
      var before, e := es[..|es| - 1], es[|es| - 1];
      Replies(cfg, before) + if e.Receive? then [ReplyTo(cfg, Exec(cfg, before), e)] else []
  }

  /** The replies of a run to the messages that were not denied. */
  function RepliesKept(cfg: Config, es: seq<Event>): seq<State> {
    if es == [] then [] else
      var before, e := es[..|es| - 1], es[|es| - 1];
      RepliesKept(cfg, before) +
      if e.Receive? && !Denied(cfg, Exec(cfg, before), e) then [ReplyTo(cfg, Exec(cfg, before), e)] else []
  }

  /** The erased run is a run, ends in the same world and gives everybody else the same replies. */
  lemma {:induction false} DeniedErasable(cfg: Config, es: seq<Event>)
    requires Run(cfg, es)
    ensures Run(cfg, Erase(cfg, es))
    ensures Exec(cfg, Erase(cfg, es)) == Exec(cfg, es)
    ensures Replies(cfg, Erase(cfg, es)) == RepliesKept(cfg, es)
  {
    if es == [] {
    } else {
      var before, e := es[..|es| - 1], es[|es| - 1];
      DeniedErasable(cfg, before);
      TimedRun(cfg, before);
      if Denied(cfg, Exec(cfg, before), e) {
        DeniedExactlyInert(cfg, Exec(cfg, before), e);
        assert Erase(cfg, es) == Erase(cfg, before);
      } else {
        var kept := Erase(cfg, before);
        ExecSnoc(cfg, kept, e);
        assert (kept + [e])[..|kept|] == kept;
      }
    }
  }
}
