/** What every run puts on the wire, who may put it there, and who is granted control. */
module WireSafety {
  import opened Basics
  import opened Access
  import opened Motor
  import opened Control
  import opened Ws
  import opened LeaseRefinement
  import opened System

  /**
   Every pair sent is in range, and a pair that moves the car was sent for a known operator at the very
   moment the lease let that operator through.
   */
  lemma MotionIsGranted(cfg: Config, es: seq<Event>, i: nat)
    requires Run(cfg, es) && i < |Exec(cfg, es).Link().wire|
    ensures var w := Exec(cfg, es);
            var s := w.Link().wire[i];
            && InRange(s.pair)
            && (!s.pair.IsStop() ==>
                  && s.source.ByClient? && cfg.dir.IsOperator(s.source.client)
                  && Grant(s.source.client, s.at) in w.grants)
  {
    WireRun(cfg, es);
    assert SentWell(cfg, Exec(cfg, es).grants, Exec(cfg, es).Link().wire[i]);
  }

  /** Wire numbers count attempts, so failed sends leave gaps; they grow until the 64-bit counter wraps. */
  lemma WireNumbersGrow(cfg: Config, es: seq<Event>, i: nat, j: nat)
    requires Run(cfg, es) && i < j < |Exec(cfg, es).Link().wire|
    ensures var link := Exec(cfg, es).Link();
            var s, t := link.wire[i], link.wire[j];
            && s.attempt < t.attempt <= link.attempts && s.at <= t.at
            && s.number == s.attempt % TWO_64 && t.number == t.attempt % TWO_64
            && (link.attempts < TWO_64 ==> s.number < t.number)
  {
    WireRun(cfg, es);
    NumbersGrow(cfg, Exec(cfg, es), i, j);
  }

  lemma NumbersGrow(cfg: Config, w: World, i: nat, j: nat)
    requires WireSound(cfg, w) && i < j < |w.Link().wire|
    ensures var s, t := w.Link().wire[i], w.Link().wire[j];
            && s.attempt < t.attempt <= w.Link().attempts && s.at <= t.at
            && s.number == s.attempt % TWO_64 && t.number == t.attempt % TWO_64
            && (w.Link().attempts < TWO_64 ==> s.number < t.number)
  {
    assert SentAfter(cfg, w.Link().wire[i], w.Link().wire[j]);
  }

  /**
   The watchdog only ever sends stops, and never first, and never within its timeout of an earlier
   datagram: commands that succeed at gaps no longer than the timeout are not interrupted.
   */
  lemma WatchdogNeverInterrupts(cfg: Config, es: seq<Event>, j: nat)
    requires Run(cfg, es) && j < |Exec(cfg, es).Link().wire|
    requires Exec(cfg, es).Link().wire[j].source.ByWatchdog?
    ensures var wire := Exec(cfg, es).Link().wire;
            && j > 0 && wire[j].pair == STOP
            && forall i :: 0 <= i < j ==> wire[j].at - wire[i].at > cfg.commandTimeout
  {
    WireRun(cfg, es);
    var wire := Exec(cfg, es).Link().wire;
    assert SentWell(cfg, Exec(cfg, es).grants, wire[j]);
    forall i | 0 <= i < j
      ensures wire[j].at - wire[i].at > cfg.commandTimeout
    {
      assert SentAfter(cfg, wire[i], wire[j]);
    }
  }

  // ---- Grants

  /** Since a grant, its client still holds the lease or a whole timeout has gone by. */
  predicate Kept(cfg: Config, w: World, g: Grant) {
    && g.at <= w.clock && cfg.dir.IsOperator(g.client)
    && (w.clock - g.at > cfg.controlTimeout ||
        (w.Holder() == Some(g.client) && w.core.lease.commandMono.Some? && w.core.lease.commandMono.value >= g.at))
  }

  predicate Exclusive(cfg: Config, g: Grant, h: Grant) {
    g.at <= h.at && (g.client != h.client ==> h.at - g.at > cfg.controlTimeout)
  }

  predicate GrantsSound(cfg: Config, w: World) {
    && (forall i :: 0 <= i < |w.grants| ==> Kept(cfg, w, w.grants[i]))
    && (forall i, j :: 0 <= i < j < |w.grants| ==> Exclusive(cfg, w.grants[i], w.grants[j]))
  }

  lemma KeptOn(cfg: Config, w: World, e: Event, w': World, g: Grant)
    requires Timed(cfg, w) && Moves(cfg, w, e, w') && Kept(cfg, w, g)
    ensures Kept(cfg, w', g)
    ensures w'.grants != w.grants ==> Exclusive(cfg, g, w'.grants[|w.grants|])
  {
  }

  lemma GrantsKept(cfg: Config, w: World, e: Event, w': World)
    requires Timed(cfg, w) && Moves(cfg, w, e, w') && GrantsSound(cfg, w)
    ensures GrantsSound(cfg, w')
  {
    forall i | 0 <= i < |w.grants|
      ensures Kept(cfg, w', w.grants[i])
      ensures w'.grants != w.grants ==> Exclusive(cfg, w.grants[i], w'.grants[|w.grants|])
    {
      KeptOn(cfg, w, e, w', w.grants[i]);
    }
  }

  lemma {:induction false} GrantsExclusive(cfg: Config, es: seq<Event>)
    requires Run(cfg, es)
    ensures GrantsSound(cfg, Exec(cfg, es))
  {
    if es == [] {
    } else {
      var w, e := Exec(cfg, es[..|es| - 1]), es[|es| - 1];
      GrantsExclusive(cfg, es[..|es| - 1]);
      TimedRun(cfg, es[..|es| - 1]);
      EventMoves(cfg, w, e);
      GrantsKept(cfg, w, e, Exec(cfg, es));
    }
  }
}
