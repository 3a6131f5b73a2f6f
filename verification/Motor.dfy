/** The UDP link to the car: `internal/motor/client.go`, with a log of what really left the socket. */
module Motor {
  import opened Basics
  import opened Access

  /** Who asked for a datagram. */
  datatype Source = ByClient(client: Client) | ByWatchdog | ByShutdown

  /** A datagram that was written: its wire number, which attempt it was, and when it left. */
  datatype Sent = Sent(number: nat, attempt: nat, pair: Pair, at: Time, source: Source)

  datatype Link = Link(number: nat, attempts: nat, wire: seq<Sent>) {
    /** The pair the car was last told to run; it stands still until told otherwise. */
    function LastPair(): Pair {
      if wire == [] then STOP else wire[|wire| - 1].pair
    }

    function LastAt(): Option<Time> {
      if wire == [] then None else Some(wire[|wire| - 1].at)
    }

    predicate Moving() {
      !LastPair().IsStop()
    }
  }

  const IDLE := Link(0, 0, [])

  /** One send: the counter advances even when the write fails. */
  function Transmit(link: Link, pair: Pair, failure: Option<string>, now: Time, source: Source): Link {
    var number := (link.number + 1) % TWO_64;
    var attempt := link.attempts + 1;
    Link(number, attempt, if failure.None? then link.wire + [Sent(number, attempt, pair, now, source)] else link.wire)
  }

  class MotorClient {
    var number: nat
    ghost var attempts: nat
    ghost var wire: seq<Sent>

    ghost function Snapshot(): Link
      reads this
    {
      Link(number, attempts, wire)
    }

    constructor ()
      ensures Snapshot() == IDLE
    {
      number, attempts, wire := 0, 0, [];
    }

    method NextSeq() returns (n: nat)
      modifies this`number
      ensures n == number == (old(number) + 1) % TWO_64
    {
      number := (number + 1) % TWO_64;
      n := number;
    }

    /** `failure` is what marshalling, the deadline or the write reported. */
    method Send(left: int, right: int, failure: Option<string>, ghost now: Time, ghost source: Source)
      returns (err: Option<string>)
      modifies this
      ensures err == failure
      ensures Snapshot() == Transmit(old(Snapshot()), Pair(left, right), failure, now, source)
    {
      var n := NextSeq();
      attempts := attempts + 1;
      err := failure;
      if err.None? {
        wire := wire + [Sent(n, attempts, Pair(left, right), now, source)];
      }
    }

    method Stop(failure: Option<string>, ghost now: Time, ghost source: Source) returns (err: Option<string>)
      modifies this
      ensures err == failure
      ensures Snapshot() == Transmit(old(Snapshot()), STOP, failure, now, source)
    {
      err := Send(0, 0, failure, now, source);
    }
  }
}
