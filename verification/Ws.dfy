/** What one websocket message or disconnect does: `internal/ws/handler.go`. */
module Ws {
  import opened Basics
  import opened Access
  import opened Motor
  import opened Control

  const PROTOCOL_VERSION := 1

  /** The `type` text of a message and the `command` text of a system block, told apart as the handler does. */
  datatype Kind = ControlKind | SystemKind | OtherKind(text: string)
  datatype SystemCommand = StopCommand | EmergencyStopCommand | OtherCommand(text: string)

  datatype Message = Message(version: int, kind: Kind, drive: Option<Pair>, system: Option<SystemCommand>)

  datatype Reply = Reply(number: nat, state: State)

  /** Everything a message can change: the lease and the service with its link. */
  datatype Core = Core(lease: Lease, board: Board)

  const NEW_CORE := Core(UNOWNED, NEW_BOARD)

  /** The faults found before the lease is consulted; NoFault when there is none. */
  function Malformed(msg: Message): Fault {
    if msg.version != PROTOCOL_VERSION then UnsupportedVersion
    else if msg.kind.ControlKind? then
      if msg.drive.None? then MissingDrivePayload else NoFault
    else if msg.kind.SystemKind? then
      if msg.system.None? then MissingSystemPayload
      else if msg.system.value.OtherCommand? then UnknownSystemCommand
      else NoFault
    else UnknownMessageType
  }

  predicate IsEmergencyStop(msg: Message) {
    msg.kind.SystemKind? && msg.system == Some(EmergencyStopCommand)
  }

  /** The new state, and the state the sender is shown. */
  function Handle(core: Core, timeout: nat, who: Option<Client>, msg: Message, failure: Option<string>, now: Time)
    : (Core, State)
  {
    var state := core.board.state;
    if Malformed(msg) != NoFault then (core, Reject(state, Malformed(msg)))
    else if IsEmergencyStop(msg) then
      var (lease, d) := GrantEmergencyStop(core.lease, timeout, who, now);
      if !d.allowed || who.None? then (Core(lease, core.board), Reject(state, EmergencyStopDenied(d.reason)))
      else
        var board := Command(core.board, STOP, failure, now, ByClient(who.value));
        (Core(lease, board), board.state)
    else
      var (lease, d) := GrantControl(core.lease, timeout, who, now);
      if !d.allowed || who.None? then (Core(lease, core.board), Reject(state, ControlDenied(d.reason)))
      else
        var board :=
          if msg.kind.ControlKind? then DriveCommand(core.board, msg.drive.value, failure, now, ByClient(who.value))
          else Command(core.board, STOP, failure, now, ByClient(who.value));
        (Core(lease, board), board.state)
  }

  /** A connection ended: its client's command is stopped if that client owns the lease. */
  function Disconnect(core: Core, timeout: nat, who: Option<Client>, failure: Option<string>, now: Time): Core {
    var (lease, d) := CheckOwner(core.lease, timeout, who, now);
    Core(lease,
         if d.allowed && who.Some? then Command(core.board, STOP, failure, now, ByClient(who.value))
         else core.board)
  }

  /** The `i`-th reply carries the number `i + 1`, as far as 64 bits can tell. */
  predicate Numbered(replies: seq<Reply>) {
    forall i :: 0 <= i < |replies| ==> replies[i].number == (i + 1) % TWO_64
  }

  /** Replies with the same number are at least 2^64 replies apart; before that, numbers grow. */
  lemma RepliesDistinct(replies: seq<Reply>, i: nat, j: nat)
    requires Numbered(replies) && i < j < |replies|
    ensures replies[i].number == replies[j].number ==> j - i >= TWO_64
    ensures |replies| < TWO_64 ==> replies[i].number < replies[j].number
  {
    var a, b := (i + 1) / TWO_64, (j + 1) / TWO_64;
    assert i + 1 == a * TWO_64 + replies[i].number && j + 1 == b * TWO_64 + replies[j].number;
  }

  class Handler {
    const control: Service
    const access: Manager
    var sequence: nat
    ghost var replies: seq<Reply>  // everything sent to anybody, in the order it was numbered

    ghost predicate Valid()
      reads this
    {
      sequence == |replies| % TWO_64 && Numbered(replies)
    }

    ghost function Snapshot(): Core
      reads control, control.motor, access
    {
      Core(access.Snapshot(), control.Snapshot())
    }

    constructor (control: Service, access: Manager)
      ensures Valid() && this.control == control && this.access == access && replies == []
    {
      this.control := control;
      this.access := access;
      sequence, replies := 0, [];
    }

    method InvalidState(fault: Fault) returns (s: State)
      ensures s == Reject(control.state, fault)
    {
      s := control.state;
      s := s.(lastCommandValid := false, lastError := fault);
    }

    method HandleControlMessage(remoteAddr: string, msg: Message, failure: Option<string>, now: Time)
      returns (s: State)
      requires msg.version == PROTOCOL_VERSION && msg.kind.ControlKind?
      modifies control, control.motor, access
      ensures (Snapshot(), s) ==
              Handle(old(Snapshot()), access.timeout, access.directory.Resolve(remoteAddr), msg, failure, now)
    {
      if msg.drive.None? {
        s := InvalidState(MissingDrivePayload);
        return;
      }
      var decision := access.CanControl(remoteAddr, now);
      if !decision.allowed {
        s := InvalidState(ControlDenied(decision.reason));
        return;
      }
      s := control.Drive(msg.drive.value, failure, now, ByClient(decision.client.value));
    }

    method HandleSystemMessage(remoteAddr: string, msg: Message, failure: Option<string>, now: Time)
      returns (s: State)
      requires msg.version == PROTOCOL_VERSION && msg.kind.SystemKind?
      modifies control, control.motor, access
      ensures (Snapshot(), s) ==
              Handle(old(Snapshot()), access.timeout, access.directory.Resolve(remoteAddr), msg, failure, now)
    {
      if msg.system.None? {
        s := InvalidState(MissingSystemPayload);
        return;
      }
      if msg.system.value.StopCommand? {
        var decision := access.CanControl(remoteAddr, now);
        if !decision.allowed {
          s := InvalidState(ControlDenied(decision.reason));
          return;
        }
        s := control.Stop(failure, now, ByClient(decision.client.value));
      } else if msg.system.value.EmergencyStopCommand? {
        var decision := access.AllowEmergencyStop(remoteAddr, now);
        if !decision.allowed {
          s := InvalidState(EmergencyStopDenied(decision.reason));
          return;
        }
        s := control.Stop(failure, now, ByClient(decision.client.value));
      } else {
        s := InvalidState(UnknownSystemCommand);
      }
    }

    method HandleMessage(remoteAddr: string, msg: Message, failure: Option<string>, now: Time) returns (s: State)
      modifies control, control.motor, access
      ensures (Snapshot(), s) ==
              Handle(old(Snapshot()), access.timeout, access.directory.Resolve(remoteAddr), msg, failure, now)
    {
      if msg.version != PROTOCOL_VERSION {
        s := InvalidState(UnsupportedVersion);
      } else if msg.kind.ControlKind? {
        s := HandleControlMessage(remoteAddr, msg, failure, now);
      } else if msg.kind.SystemKind? {
        s := HandleSystemMessage(remoteAddr, msg, failure, now);
      } else {
        s := InvalidState(UnknownMessageType);
      }
    }

    /** Every reply is numbered, whatever it says; see `RepliesDistinct` for what the numbers are good for. */
    method SendState(state: State) returns (reply: Reply)
      requires Valid()
      modifies this
      ensures Valid() && reply.state == state && replies == old(replies) + [reply]
    {
      sequence := (sequence + 1) % TWO_64;
      reply := Reply(sequence, state);
      replies := replies + [reply];
    }

    /** The branch of the read loop taken when a read fails. */
    method HandleDisconnect(remoteAddr: string, failure: Option<string>, now: Time)
      modifies control, control.motor, access
      ensures Snapshot() ==
              Disconnect(old(Snapshot()), access.timeout, access.directory.Resolve(remoteAddr), failure, now)
    {
      var decision := access.IsOwner(remoteAddr, now);
      if decision.allowed {
        var _ := control.Stop(failure, now, ByClient(decision.client.value));
      }
    }
  }
}
