/** The browser's hold-to-drive machine: `web/app.js`. */
module Page {
  import opened Basics
  import opened Ws

  const STOP_MESSAGE := Message(1, SystemKind, None, Some(StopCommand))
  const EMERGENCY_MESSAGE := Message(1, SystemKind, None, Some(EmergencyStopCommand))

  function DriveMessage(p: Pair): Message {
    Message(1, ControlKind, Some(p), None)
  }

  datatype Outgoing = Outgoing(seqNo: nat, msg: Message)

  /**
   The page's variables and what the browser holds for it: the intervals still live, the next interval
   id, whether the socket is open, and everything sent over it.
   */
  datatype Browser = Browser(
    active: Option<Pair>, timer: Option<nat>, wsSeq: nat, live: set<nat>, nextId: nat, open: bool, sent: seq<Outgoing>)

  const LOADED := Browser(None, None, 0, {}, 0, false, [])

  /** A message takes a number even when the socket is closed and it goes nowhere. */
  function Post(b: Browser, msg: Message): Browser {
    b.(wsSeq := b.wsSeq + 1, sent := if b.open then b.sent + [Outgoing(b.wsSeq + 1, msg)] else b.sent)
  }

  function ClearTimer(b: Browser): Browser {
    if b.timer.Some? then b.(live := b.live - {b.timer.value}, timer := None) else b
  }

  function BeginDrive(b: Browser, p: Pair): Browser {
    var c := ClearTimer(Post(b.(active := Some(p)), DriveMessage(p)));
    c.(timer := Some(c.nextId), live := c.live + {c.nextId}, nextId := c.nextId + 1)
  }

  function HaltDrive(b: Browser, send: bool): Browser {
    var c := ClearTimer(b.(active := None));
    if send then Post(c, STOP_MESSAGE) else c
  }

  /** An interval's callback; one that was cleared never runs. */
  function Fire(b: Browser, id: nat): Browser {
    if id in b.live && b.active.Some? then Post(b, DriveMessage(b.active.value)) else b
  }

  function PressStop(b: Browser): Browser {
    Post(HaltDrive(b, true), EMERGENCY_MESSAGE)
  }

  datatype Input =
    | Press(pair: Pair)   // a drive button or key goes down
    | Release             // it goes up, or the window loses focus
    | StopButton
    | IntervalFires(id: nat)
    | SocketOpens
    | SocketCloses

  function React(b: Browser, i: Input): Browser {
    match i
    case Press(p) => BeginDrive(b, p)
    case Release => HaltDrive(b, true)
    case StopButton => PressStop(b)
    case IntervalFires(id) => Fire(b, id)
    case SocketOpens => b.(open := true)
    case SocketCloses => HaltDrive(b.(open := false), false)
  }

  function Use(b: Browser, inputs: seq<Input>): Browser {
    if inputs == [] then b else React(Use(b, inputs[..|inputs| - 1]), inputs[|inputs| - 1])
  }

  /** At most one live interval, exactly one while a command is held; message numbers grow. */
  predicate Tidy(b: Browser) {
    && b.live == (if b.timer.Some? then {b.timer.value} else {})
    && (b.timer.Some? <==> b.active.Some?)
    && (forall id :: id in b.live ==> id < b.nextId)
    && (forall k :: 0 <= k < |b.sent| ==> b.sent[k].seqNo <= b.wsSeq)
    && (forall k, m :: 0 <= k < m < |b.sent| ==> b.sent[k].seqNo < b.sent[m].seqNo)
  }

  lemma TidyPost(b: Browser, msg: Message)
    requires Tidy(b)
    ensures Tidy(Post(b, msg))
  {
  }

  lemma TidyStays(b: Browser, i: Input)
    requires Tidy(b)
    ensures Tidy(React(b, i))
  {
    match i
    case Press(p) =>
      var c := ClearTimer(b.(active := None));
      assert Tidy(c);
      TidyPost(c, DriveMessage(p));
    case Release => TidyPost(ClearTimer(b.(active := None)), STOP_MESSAGE);
    case StopButton =>
      TidyPost(ClearTimer(b.(active := None)), STOP_MESSAGE);
      TidyPost(HaltDrive(b, true), EMERGENCY_MESSAGE);
    case IntervalFires(id) => if b.active.Some? { TidyPost(b, DriveMessage(b.active.value)); }
    case SocketOpens =>
    case SocketCloses =>
  }

  lemma {:induction false} AlwaysTidy(inputs: seq<Input>)
    ensures Tidy(Use(LOADED, inputs))
  {
    if inputs == [] {
    } else {
      AlwaysTidy(inputs[..|inputs| - 1]);
      TidyStays(Use(LOADED, inputs[..|inputs| - 1]), inputs[|inputs| - 1]);
    }
  }

  /** Nothing is held, nothing repeats, and of what was sent after `before` nothing is a drive message. */
  predicate Quiet(before: seq<Outgoing>, b: Browser) {
    && b.live == {} && b.active.None? && b.timer.None?
    && before <= b.sent && forall k :: |before| <= k < |b.sent| ==> b.sent[k].msg.drive.None?
  }

  predicate Halts(i: Input) {
    i.Release? || i.StopButton? || i.SocketCloses?
  }

  lemma HaltingIsQuiet(b: Browser, i: Input)
    requires Tidy(b) && Halts(i)
    ensures Quiet(b.sent, React(b, i))
  {
  }

  lemma QuietStays(before: seq<Outgoing>, b: Browser, i: Input)
    requires Quiet(before, b) && !i.Press?
    ensures Quiet(before, React(b, i))
  {
  }

  lemma {:induction false} QuietWhile(before: seq<Outgoing>, b: Browser, later: seq<Input>)
    requires Quiet(before, b)
    requires forall k :: 0 <= k < |later| ==> !later[k].Press?
    ensures Quiet(before, Use(b, later))
  {
    if later == [] {
    } else {
      QuietWhile(before, b, later[..|later| - 1]);
      QuietStays(before, Use(b, later[..|later| - 1]), later[|later| - 1]);
    }
  }

  /** Once a stop has been reacted to, no drive message leaves until the next press, whatever fires meanwhile. */
  lemma NoDriveAfterStop(inputs: seq<Input>, stop: Input, later: seq<Input>)
    requires Halts(stop) && forall k :: 0 <= k < |later| ==> !later[k].Press?
    ensures Quiet(Use(LOADED, inputs).sent, Use(React(Use(LOADED, inputs), stop), later))
  {
    AlwaysTidy(inputs);
    HaltingIsQuiet(Use(LOADED, inputs), stop);
    QuietWhile(Use(LOADED, inputs).sent, React(Use(LOADED, inputs), stop), later);
  }

  /** What a held button repeats is the command last pressed. */
  lemma RepeatsHeldCommand(inputs: seq<Input>, id: nat)
    requires id in Use(LOADED, inputs).live && Use(LOADED, inputs).open
    ensures var b := Use(LOADED, inputs);
            && b.active.Some?
            && React(b, IntervalFires(id)).sent == b.sent + [Outgoing(b.wsSeq + 1, DriveMessage(b.active.value))]
  {
    AlwaysTidy(inputs);
  }

  /** What runs by itself while a button is held. */
  predicate Passive(i: Input) {
    i.IntervalFires? || i.SocketOpens?
  }

  /** `p` is held, and everything sent after `before` is a version 1 control message with that pair. */
  predicate Holds(before: seq<Outgoing>, b: Browser, p: Pair) {
    && b.active == Some(p) && before <= b.sent
    && forall k :: |before| <= k < |b.sent| ==> Carries(b.sent[k].msg, p)
  }

  predicate Carries(msg: Message, p: Pair) {
    msg.version == 1 && msg.kind.ControlKind? && msg.drive == Some(p) && msg.system.None?
  }

  lemma PressHolds(b: Browser, p: Pair)
    ensures Holds(b.sent, React(b, Press(p)), p)
    ensures |React(b, Press(p)).sent| == |b.sent| + if b.open then 1 else 0
  {
  }

  lemma HoldsOn(before: seq<Outgoing>, b: Browser, p: Pair, i: Input)
    requires Holds(before, b, p) && Passive(i)
    ensures Holds(before, React(b, i), p)
  {
  }

  lemma {:induction false} HoldsWhile(before: seq<Outgoing>, b: Browser, p: Pair, later: seq<Input>)
    requires Holds(before, b, p) && forall k :: 0 <= k < |later| ==> Passive(later[k])
    ensures Holds(before, Use(b, later), p)
  {
    if later == [] {
    } else {
      HoldsWhile(before, b, p, later[..|later| - 1]);
      HoldsOn(before, Use(b, later[..|later| - 1]), p, later[|later| - 1]);
    }
  }

  /**
   From a press on, everything the page sends carries the pressed pair, until a button is touched again; the
   first message goes out at the press itself.
   */
  lemma PressCarries(inputs: seq<Input>, p: Pair, later: seq<Input>)
    requires forall k :: 0 <= k < |later| ==> Passive(later[k])
    ensures var b := Use(LOADED, inputs);
            var pressed := React(b, Press(p));
            && (b.open ==> |pressed.sent| == |b.sent| + 1 && Carries(pressed.sent[|b.sent|].msg, p))
            && Holds(b.sent, Use(pressed, later), p)
  {
    var b := Use(LOADED, inputs);
    PressHolds(b, p);
    HoldsWhile(b.sent, React(b, Press(p)), p, later);
  }

  /** Letting go of it over an open socket sends exactly one message, a stop. */
  lemma ReleaseSendsStop(b: Browser)
    requires b.open
    ensures var sent := React(b, Release).sent;
            && |sent| == |b.sent| + 1 && b.sent <= sent
            && sent[|b.sent|].msg.version == 1 && sent[|b.sent|].msg.kind.SystemKind?
            && sent[|b.sent|].msg.system == Some(StopCommand)
  {
  }

  /** Nothing is sent over a closed socket. */
  lemma {:induction false} ClosedSendsNothing(b: Browser, inputs: seq<Input>)
    requires !b.open && forall k :: 0 <= k < |inputs| ==> !inputs[k].SocketOpens?
    ensures Use(b, inputs).sent == b.sent && !Use(b, inputs).open
  {
    if inputs == [] {
    } else {
      ClosedSendsNothing(b, inputs[..|inputs| - 1]);
      ClosedStep(Use(b, inputs[..|inputs| - 1]), inputs[|inputs| - 1]);
    }
  }

  lemma ClosedStep(b: Browser, i: Input)
    requires !b.open && !i.SocketOpens?
    ensures React(b, i).sent == b.sent && !React(b, i).open
  {
  }

  /** Pressing stop on an open socket sends a stop and then an emergency stop. */
  lemma StopButtonSends(b: Browser)
    requires b.open
    ensures PressStop(b).sent ==
            b.sent + [Outgoing(b.wsSeq + 1, STOP_MESSAGE)] + [Outgoing(b.wsSeq + 2, EMERGENCY_MESSAGE)]
  {
  }

  class DrivePage {
    var socketOpen: bool
    var repeatTimer: Option<nat>
    var activeCommand: Option<Pair>
    var wsSeq: nat
    var nextId: nat
    ghost var live: set<nat>
    ghost var sent: seq<Outgoing>

    ghost function Snapshot(): Browser
      reads this
    {
      Browser(activeCommand, repeatTimer, wsSeq, live, nextId, socketOpen, sent)
    }

    constructor ()
      ensures Snapshot() == LOADED
    {
      socketOpen, repeatTimer, activeCommand, wsSeq, nextId := false, None, None, 0, 0;
      live, sent := {}, [];
    }

    method SendMessage(msg: Message) returns (ok: bool)
      modifies this`wsSeq, this`sent
      ensures Snapshot() == Post(old(Snapshot()), msg) && ok == socketOpen
    {
      wsSeq := wsSeq + 1;
      if !socketOpen { return false; }
      sent := sent + [Outgoing(wsSeq, msg)];
      return true;
    }

    method ClearRepeatTimer()
      modifies this`repeatTimer, this`live
      ensures Snapshot() == ClearTimer(old(Snapshot()))
    {
      if repeatTimer.Some? {
        live := live - {repeatTimer.value};
        repeatTimer := None;
      }
    }

    method StartDrive(p: Pair)
      modifies this
      ensures Snapshot() == BeginDrive(old(Snapshot()), p)
    {
      activeCommand := Some(p);
      var _ := SendMessage(DriveMessage(p));
      ClearRepeatTimer();
      repeatTimer := Some(nextId);
      live := live + {nextId};
      nextId := nextId + 1;
    }

    method StopDrive(sendStopCommand: bool)
      modifies this
      ensures Snapshot() == HaltDrive(old(Snapshot()), sendStopCommand)
    {
      activeCommand := None;
      ClearRepeatTimer();
      if sendStopCommand { var _ := SendMessage(STOP_MESSAGE); }
    }

    /** The interval's callback; the browser runs it only while the interval is live. */
    method Repeat(ghost id: nat)
      requires id in live
      modifies this
      ensures Snapshot() == Fire(old(Snapshot()), id)
    {
      if activeCommand.None? { return; }
      var _ := SendMessage(DriveMessage(activeCommand.value));
    }

    method OnStopButton()
      modifies this
      ensures Snapshot() == PressStop(old(Snapshot()))
    {
      StopDrive(true);
      var _ := SendMessage(EMERGENCY_MESSAGE);
    }

    method OnSocketClose()
      modifies this
      ensures Snapshot() == React(old(Snapshot()), SocketCloses)
    {
      socketOpen := false;
      StopDrive(false);
    }
  }
}
