/**
 `Drive` and `Stop` send before they take the lock and record after they have it, and telemetry takes
 the same lock. Here a send and its record are separate steps of any number of calls.
 */
module SplitStep {
  import opened Basics
  import opened Motor
  import opened Control
  import opened Safety

  /** A call between its send and its record. */
  datatype Flying = Flying(cmd: Pair, failure: Option<string>)

  /** Where the recorded pair came from. */
  datatype Origin = Initially | Recorded(id: nat, cmd: Pair) | Heard(pair: Pair) {
    function Written(): Pair {
      match this
      case Initially => STOP
      case Recorded(_, cmd) => cmd
      case Heard(pair) => pair
    }
  }

  /** `lastSent` names the call whose datagram left last; `origin` the last write to the recorded pair. */
  datatype Shared = Shared(board: Board, flying: map<nat, Flying>, next: nat, lastSent: Option<nat>, origin: Origin)

  const QUIET := Shared(NEW_BOARD, map[], 0, None, Initially)

  datatype Move =
    | Send(cmd: Pair, failure: Option<string>, source: Source, now: Time)
    | Record(id: nat, now: Time)
    | Hear(telemetry: MotorTelemetry, now: Time)

  predicate Enabled(s: Shared, m: Move) {
    m.Record? ==> m.id in s.flying
  }

  function Make(s: Shared, m: Move): Shared
    requires Enabled(s, m)
  {
    var Board(state, link) := s.board;
    match m
    case Send(cmd, failure, source, now) =>
      Shared(
        Board(state, Transmit(link, cmd, failure, now, source)),
        s.flying[s.next := Flying(cmd, failure)], s.next + 1,
        if failure.None? then Some(s.next) else s.lastSent, s.origin)
    case Record(id, now) =>
      var call := s.flying[id];
      var board :=
        match call.failure
        case Some(text) => s.board.(state := Reject(state, MotorFault(text)).(motorConnected := false))
        case None =>
          s.board.(state := state.(motorConnected := true, pair := call.cmd, lastCommandValid := true,
                                   lastError := NoFault, lastCommandAt := Some(now)));
      var origin := if call.failure.None? then Recorded(id, call.cmd) else s.origin;
      Shared(board, s.flying - {id}, s.next, s.lastSent, origin)
    case Hear(t, now) =>
      s.(board := s.board.(state := Observe(state, t, now)), origin := Heard(t.pair))
  }

  /** With nothing between them, the two steps are the service's command as one. */
  lemma SendThenRecordIsCommand(s: Shared, cmd: Pair, failure: Option<string>, source: Source, now: Time)
    ensures var sent := Make(s, Send(cmd, failure, source, now));
            && Enabled(sent, Record(s.next, now))
            && Make(sent, Record(s.next, now)).board == Command(s.board, cmd, failure, now, source)
  {
    assert s.next in Make(s, Send(cmd, failure, source, now)).flying;
  }

  function After(ms: seq<Move>): Shared {
    if ms == [] then QUIET else
      var before := After(ms[..|ms| - 1]);
      if Enabled(before, ms[|ms| - 1]) then Make(before, ms[|ms| - 1]) else before
  }

  /** The moves `ms` are possible, one after the other, from a quiet service. */
  predicate Run(ms: seq<Move>) {
    ms == [] || (Run(ms[..|ms| - 1]) && Enabled(After(ms[..|ms| - 1]), ms[|ms| - 1]))
  }

  /** No call starts while another is in flight. */
  predicate Serial(ms: seq<Move>) {
    ms == [] ||
    (Serial(ms[..|ms| - 1]) && (ms[|ms| - 1].Send? ==> After(ms[..|ms| - 1]).flying == map[]))
  }

  /** No call that got its datagram out is still waiting when a later such call is recorded. */
  predicate InTurn(s: Shared, m: Move) {
    m.Record? && m.id in s.flying && s.flying[m.id].failure.None? ==>
      forall id :: id in s.flying && s.flying[id].failure.None? ==> m.id <= id
  }

  predicate Ordered(ms: seq<Move>) {
    ms == [] || (Ordered(ms[..|ms| - 1]) && InTurn(After(ms[..|ms| - 1]), ms[|ms| - 1]))
  }

  lemma Snoc(ms: seq<Move>, m: Move)
    ensures After(ms + [m]) == if Enabled(After(ms), m) then Make(After(ms), m) else After(ms)
    ensures Run(ms + [m]) <==> Run(ms) && Enabled(After(ms), m)
    ensures Serial(ms + [m]) <==> Serial(ms) && (m.Send? ==> After(ms).flying == map[])
    ensures Ordered(ms + [m]) <==> Ordered(ms) && InTurn(After(ms), m)
  {
    assert (ms + [m])[..|ms|] == ms;
  }

  // ---- When record and wire agree

  /** The calls made so far, in the order they sent; a call's place here is its id. */
  function Calls(ms: seq<Move>): seq<Flying> {
    if ms == [] then [] else
      var before, m := Calls(ms[..|ms| - 1]), ms[|ms| - 1];
      if m.Send? then before + [Flying(m.cmd, m.failure)] else before
  }

  /** `last` is the last call whose datagram got out. */
  predicate LastOut(calls: seq<Flying>, last: Option<nat>) {
    && (last.Some? ==> last.value < |calls| && calls[last.value].failure.None?)
    && forall id :: (if last.Some? then last.value + 1 else 0) <= id < |calls| ==> calls[id].failure.Some?
  }

  /** Every value on record or in flight is traced to its call. */
  predicate Traced(s: Shared, calls: seq<Flying>) {
    && s.next == |calls| && LastOut(calls, s.lastSent)
    && s.board.link.LastPair() == (if s.lastSent.Some? then calls[s.lastSent.value].cmd else STOP)
    && s.board.state.pair == s.origin.Written()
    && (forall id :: id in s.flying ==> id < |calls| && s.flying[id] == calls[id])
    && (s.origin.Recorded? ==>
          s.origin.id < |calls| && calls[s.origin.id] == Flying(s.origin.cmd, None) && s.origin.id !in s.flying)
  }

  lemma TracedMove(s: Shared, calls: seq<Flying>, m: Move)
    requires Enabled(s, m) && Traced(s, calls)
    ensures Traced(Make(s, m), if m.Send? then calls + [Flying(m.cmd, m.failure)] else calls)
  {
  }

  lemma {:induction false} TracedRun(ms: seq<Move>)
    requires Run(ms)
    ensures Traced(After(ms), Calls(ms))
  {
    if ms == [] {
    } else {
      var before := ms[..|ms| - 1];
      TracedRun(before);
      TracedMove(After(before), Calls(before), ms[|ms| - 1]);
    }
  }

  /**
   In every run, whatever is in flight and however calls and telemetry cross: the last pair sent is that of
   the last call that got out. The recorded pair agrees with it exactly when that call also wrote the record
   last, or the call (or the telemetry) that did wrote the same pair.
   */
  lemma AgreementExact(ms: seq<Move>)
    requires Run(ms)
    ensures var s, calls := After(ms), Calls(ms);
            && LastOut(calls, s.lastSent)
            && var sent := if s.lastSent.Some? then calls[s.lastSent.value].cmd else STOP;
            && s.board.link.LastPair() == sent
            && match s.origin
               case Initially => s.board.state.pair == STOP
               case Heard(pair) => s.board.state.pair == pair
               case Recorded(id, cmd) =>
                 && id < |calls| && calls[id] == Flying(cmd, None) && s.lastSent.Some? && id <= s.lastSent.value
                 && (s.board.state.pair == s.board.link.LastPair() <==> s.lastSent == Some(id) || calls[id].cmd == sent)
  {
    TracedRun(ms);
  }

  // ---- Orders that are enough

  /** Calls made one at a time are recorded in order. */
  lemma {:induction false} SerialIsOrdered(ms: seq<Move>)
    requires Run(ms) && Serial(ms)
    ensures Ordered(ms) && |After(ms).flying| <= 1
  {
    if ms == [] {
    } else {
      var s, m := After(ms[..|ms| - 1]), ms[|ms| - 1];
      SerialIsOrdered(ms[..|ms| - 1]);
      if m.Record? {
        var rest := s.flying.Keys - {m.id};
        assert |s.flying.Keys| == |rest| + 1;
        assert (s.flying - {m.id}).Keys == rest;
        assert forall id :: id in s.flying ==> id == m.id || id in rest;
      }
    }
  }

  /** What in-order recording keeps: the last datagram is still to be recorded, or was recorded last. */
  predicate InStep(s: Shared) {
    var wire := s.board.link.LastPair();
    && s.board.state.pair == s.origin.Written()
    && (forall id :: id in s.flying ==> id < s.next)
    && (forall id :: id in s.flying && s.flying[id].failure.None? ==> s.lastSent.Some? && id <= s.lastSent.value)
    && (s.lastSent.Some? ==> s.lastSent.value < s.next)
    && if s.lastSent.Some? && s.lastSent.value in s.flying
       then s.flying[s.lastSent.value] == Flying(wire, None)
       else
         && (s.origin.Heard? || wire == s.origin.Written())
         && (s.origin.Recorded? ==> s.lastSent == Some(s.origin.id))
         && (forall id :: id in s.flying ==> s.flying[id].failure.Some?)
  }

  lemma {:induction false} OrderedInStep(ms: seq<Move>)
    requires Run(ms) && Ordered(ms)
    ensures InStep(After(ms))
  {
    if ms == [] {
    } else {
      OrderedInStep(ms[..|ms| - 1]);
      InStepMove(After(ms[..|ms| - 1]), ms[|ms| - 1]);
    }
  }

  lemma InStepMove(s: Shared, m: Move)
    requires Enabled(s, m) && InStep(s) && InTurn(s, m)
    ensures InStep(Make(s, m))
  {
  }

  /**
   A corollary. When no call is in flight and calls were recorded in the order they sent, as they are when made one at
   a time, the recorded pair is what the car was last told, unless telemetry spoke after the last record;
   then it is what telemetry said.
   */
  lemma OrderedAgreement(ms: seq<Move>)
    requires Run(ms) && (Serial(ms) || Ordered(ms)) && After(ms).flying == map[]
    ensures var s := After(ms);
            && (s.origin.Recorded? ==> s.lastSent == Some(s.origin.id))
            && s.board.state.pair == if s.origin.Heard? then s.origin.pair else s.board.link.LastPair()
  {
    if Serial(ms) { SerialIsOrdered(ms); }
    OrderedInStep(ms);
  }

  /** Order is not needed for it: calls 0 and 1 may cross, as long as the last one sent records last. */
  lemma CrossedButAgreed(a: Pair, b: Pair, c: Pair, source: Source, now: Time)
    ensures var ms := [Send(a, None, source, now)] + [Send(b, None, source, now)] + [Send(c, None, source, now)] +
                      [Record(1, now)] + [Record(0, now)] + [Record(2, now)];
            var s := After(ms);
            Run(ms) && !Ordered(ms) && s.flying == map[] && s.board.state.pair == s.board.link.LastPair()
  {
    var one := [Send(a, None, source, now)];
    var two := one + [Send(b, None, source, now)];
    var three := two + [Send(c, None, source, now)];
    var four := three + [Record(1, now)];
    var five := four + [Record(0, now)];
    assert [] + one == one;
    Snoc([], one[0]);
    Snoc(one, Send(b, None, source, now));
    Snoc(two, Send(c, None, source, now));
    ThreeInFlight(a, b, c, source, now);
    ThreeRecorded(After(three), a, b, c, now);
    Snoc(three, Record(1, now));
    Snoc(four, Record(0, now));
    Snoc(five, Record(2, now));
  }

  lemma ThreeInFlight(a: Pair, b: Pair, c: Pair, source: Source, now: Time)
    ensures var s := Make(Make(Make(QUIET, Send(a, None, source, now)), Send(b, None, source, now)),
                          Send(c, None, source, now));
            s.flying == map[0 := Flying(a, None), 1 := Flying(b, None), 2 := Flying(c, None)]
            && s.board.link.LastPair() == c
  {
  }

  lemma ThreeRecorded(s: Shared, a: Pair, b: Pair, c: Pair, now: Time)
    requires s.flying == map[0 := Flying(a, None), 1 := Flying(b, None), 2 := Flying(c, None)]
    ensures Enabled(s, Record(1, now)) && !InTurn(s, Record(1, now))
    ensures var four := Make(s, Record(1, now));
            && four.flying == map[0 := Flying(a, None), 2 := Flying(c, None)]
            && var five := Make(four, Record(0, now));
               && five.flying == map[2 := Flying(c, None)]
               && var six := Make(five, Record(2, now));
                  six.flying == map[] && six.board.link == s.board.link && six.board.state.pair == c
  {
    assert 0 in s.flying;
    var four := Make(s, Record(1, now));
    assert four.flying == map[0 := Flying(a, None), 2 := Flying(c, None)];
    var five := Make(four, Record(0, now));
    assert five.flying == map[2 := Flying(c, None)];
  }

  /**
   Two calls recorded out of turn are enough to break it: the car obeys one and the service records the
   other. When the recorded one is a stop, no watchdog check will ever fire.
   */
  lemma CrossedCallsDisagree(a: Pair, b: Pair, source: Source, other: Source, now: Time)
    requires a != b
    ensures var ms := [Send(a, None, source, now)] + [Send(b, None, other, now)] + [Record(1, now)] + [Record(0, now)];
            var s := After(ms);
            && Run(ms) && !Ordered(ms) && s.flying == map[] && s.origin.Recorded?
            && s.board.link.LastPair() == b && s.board.state.pair == a
            && (a.IsStop() ==> forall timeout, later :: !Fires(s.board.state, timeout, later))
  {
    var one := [Send(a, None, source, now)];
    var two := one + [Send(b, None, other, now)];
    var three := two + [Record(1, now)];
    assert [] + one == one;
    Snoc([], one[0]);
    Snoc(one, Send(b, None, other, now));
    CrossedStates(a, b, source, other, now);
    Snoc(two, Record(1, now));
    Snoc(three, Record(0, now));
  }

  lemma CrossedStates(a: Pair, b: Pair, source: Source, other: Source, now: Time)
    ensures var two := Make(Make(QUIET, Send(a, None, source, now)), Send(b, None, other, now));
            && two.flying == map[0 := Flying(a, None), 1 := Flying(b, None)]
            && !InTurn(two, Record(1, now))
            && var three := Make(two, Record(1, now));
               && three.flying == map[0 := Flying(a, None)]
               && var four := Make(three, Record(0, now));
                  && four.flying == map[] && four.origin == Recorded(0, a)
                  && four.board.link.LastPair() == b && four.board.state.pair == a
  {
    var two := Make(Make(QUIET, Send(a, None, source, now)), Send(b, None, other, now));
    assert two.flying == map[0 := Flying(a, None), 1 := Flying(b, None)];
    assert 0 in two.flying;
    var three := Make(two, Record(1, now));
    assert three.flying == map[0 := Flying(a, None)];
  }
}
