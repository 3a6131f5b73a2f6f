/**
 The manager clears an expired owner only when somebody next asks. Here it is compared with a lease
 that a running timer takes away the moment it expires, over every sequence of timed calls.
 */
module LeaseRefinement {
  import opened Basics
  import opened Access

  datatype Call =
    | CanControl(addr: string)
    | AllowEmergencyStop(addr: string)
    | IsOwner(addr: string)
    | StateFor(addr: string)
    | ReleaseIfOwner(addr: string)

  datatype Answer = Decided(decision: Decision) | Viewed(view: View) | Done

  /** A call made `after` nanoseconds after the one before it. */
  datatype TimedCall = TimedCall(after: Time, call: Call)

  // ---- The manager as it is

  function LazyCall(dir: Directory, timeout: nat, l: Lease, call: Call, now: Time): (Lease, Answer) {
    var who := dir.Resolve(call.addr);
    match call
    case CanControl(_) => var (l', d) := GrantControl(l, timeout, who, now); (l', Decided(d))
    case AllowEmergencyStop(_) => var (l', d) := GrantEmergencyStop(l, timeout, who, now); (l', Decided(d))
    case IsOwner(_) => var (l', d) := CheckOwner(l, timeout, who, now); (l', Decided(d))
    case StateFor(_) => var (l', v) := ViewFor(l, timeout, who, now); (l', Viewed(v))
    case ReleaseIfOwner(_) => (Release(l, who), Done)
  }

  function Clock(h: seq<TimedCall>): Time {
    if h == [] then 0 else Clock(h[..|h| - 1]) + h[|h| - 1].after
  }

  function LazyAfter(dir: Directory, timeout: nat, h: seq<TimedCall>): Lease {
    if h == [] then UNOWNED
    else LazyCall(dir, timeout, LazyAfter(dir, timeout, h[..|h| - 1]), h[|h| - 1].call, Clock(h)).0
  }

  function LazyAnswer(dir: Directory, timeout: nat, h: seq<TimedCall>, i: nat): Answer
    requires i < |h|
  {
    LazyCall(dir, timeout, LazyAfter(dir, timeout, h[..i]), h[i].call, Clock(h[..i + 1])).1
  }

  // ---- The lease with a timer that takes it away

  /** Control is free, or held with `left` nanoseconds to run. */
  datatype Eager = Free | Held(client: Client, left: nat) {
    function Holder(): Option<Client> {
      if Held? then Some(client) else None
    }

    function Elapse(d: Time): Eager {
      if Held? && d <= left then Held(client, left - d) else Free
    }
  }

  function EagerCall(dir: Directory, timeout: nat, e: Eager, call: Call, now: Time): (Eager, Answer) {
    var who := dir.Resolve(call.addr);
    if call.StateFor? then
      (e, Viewed(View(e.Holder(), e.Free?, who, if e.Held? then Some(now - (timeout - e.left)) else None)))
    else if call.ReleaseIfOwner? then
      (if who.Some? && e.Holder() == who then Free else e, Done)
    else if who.None? then
      (e, Decided(Decision(false, UnknownClient, None, None)))
    else
      var mine := e.Holder() == who;
      match call
      case IsOwner(_) =>
        (e, Decided(Decision(mine, if mine then Owner else NotOwner, who, e.Holder())))
      case CanControl(_) =>
        if e.Free? || mine
        then (Held(who.value, timeout), Decided(Decision(true, if mine then Owner else OwnerAcquired, who, who)))
        else (e, Decided(Decision(false, ControlBusy, who, e.Holder())))
      case AllowEmergencyStop(_) =>
        var holder := if e.Free? then who.value else e.client;
        (Held(holder, timeout), Decided(Decision(true, EmergencyStopAllowed, who, Some(holder))))
  }

  /** The timer's lease just before the call that ends `h` is served, and after it. */
  function EagerBefore(dir: Directory, timeout: nat, h: seq<TimedCall>): Eager
    requires h != []
    decreases h, 0
  {
    EagerAfter(dir, timeout, h[..|h| - 1]).Elapse(h[|h| - 1].after)
  }

  function EagerAfter(dir: Directory, timeout: nat, h: seq<TimedCall>): Eager
    decreases h, 1
  {
    if h == [] then Free
    else EagerCall(dir, timeout, EagerBefore(dir, timeout, h), h[|h| - 1].call, Clock(h)).0
  }

  function EagerAnswer(dir: Directory, timeout: nat, h: seq<TimedCall>, i: nat): Answer
    requires i < |h|
  {
    EagerCall(dir, timeout, EagerBefore(dir, timeout, h[..i + 1]), h[i].call, Clock(h[..i + 1])).1
  }

  // ---- The refinement

  /** What holds of the manager's fields between any two calls. */
  predicate WellFormed(dir: Directory, l: Lease, now: Time) {
    && (l.owner.None? <==> l.commandAt.None?)
    && l.commandAt == l.commandMono
    && (l.owner.Some? ==> dir.IsOperator(l.owner.value) && l.commandMono.value <= now)
  }

  /** The lease as the timer would have it at `now`. */
  function Live(l: Lease, timeout: nat, now: Time): Eager {
    if l.owner.None? || l.commandMono.None? then Free
    else if now - l.commandMono.value > timeout || l.commandMono.value > now then Free
    else Held(l.owner.value, timeout - (now - l.commandMono.value))
  }

  /** One call: same answer, and afterwards the two leases again agree. */
  lemma CallRefines(dir: Directory, timeout: nat, l: Lease, call: Call, now: Time)
    requires WellFormed(dir, l, now)
    ensures var (l', a) := LazyCall(dir, timeout, l, call, now);
            && WellFormed(dir, l', now)
            && (Live(l', timeout, now), a) == EagerCall(dir, timeout, Live(l, timeout, now), call, now)
  {
  }

  lemma {:induction false} RunRefines(dir: Directory, timeout: nat, h: seq<TimedCall>)
    ensures WellFormed(dir, LazyAfter(dir, timeout, h), Clock(h))
    ensures Live(LazyAfter(dir, timeout, h), timeout, Clock(h)) == EagerAfter(dir, timeout, h)
  {
    if h == [] {
    } else {
      var before := h[..|h| - 1];
      RunRefines(dir, timeout, before);
      CallRefines(dir, timeout, LazyAfter(dir, timeout, before), h[|h| - 1].call, Clock(h));
    }
  }

  /** Whatever is asked and whenever, nobody can tell the manager from the timer. */
  lemma LazyExpiryRefinesTimer(dir: Directory, timeout: nat, h: seq<TimedCall>)
    ensures forall i :: 0 <= i < |h| ==> LazyAnswer(dir, timeout, h, i) == EagerAnswer(dir, timeout, h, i)
  {
    forall i | 0 <= i < |h|
      ensures LazyAnswer(dir, timeout, h, i) == EagerAnswer(dir, timeout, h, i)
    {
      var upTo := h[..i + 1];
      assert upTo[..i] == h[..i];
      RunRefines(dir, timeout, h[..i]);
      CallRefines(dir, timeout, LazyAfter(dir, timeout, h[..i]), h[i].call, Clock(upTo));
    }
  }

  // ---- Exclusivity over whole runs

  /** Call `i` was allowed and left `client` holding a lease that starts anew. */
  predicate Confirms(dir: Directory, timeout: nat, h: seq<TimedCall>, i: nat, client: Client)
    requires i < |h|
  {
    && (h[i].call.CanControl? || h[i].call.AllowEmergencyStop?)
    && LazyAnswer(dir, timeout, h, i).decision.allowed
    && LazyAnswer(dir, timeout, h, i).decision.owner == Some(client)
  }

  predicate Releases(dir: Directory, call: Call, client: Client) {
    call.ReleaseIfOwner? && dir.Resolve(call.addr) == Some(client)
  }

  /** Since `client` was confirmed by call `i`, it still holds the lease or a whole timeout has gone by. */
  lemma {:induction false} HeldOrTimedOut(
    dir: Directory, timeout: nat, h: seq<TimedCall>, i: nat, m: nat, client: Client)
    requires i < m <= |h| && Confirms(dir, timeout, h, i, client)
    requires forall k :: i < k < m ==> !Releases(dir, h[k].call, client)
    ensures Clock(h[..i + 1]) <= Clock(h[..m])
    ensures var l := LazyAfter(dir, timeout, h[..m]);
            || Clock(h[..m]) - Clock(h[..i + 1]) > timeout
            || (l.owner == Some(client) && l.commandMono.Some? && l.commandMono.value >= Clock(h[..i + 1]))
    decreases m
  {
    var upTo, before := h[..m], LazyAfter(dir, timeout, h[..m - 1]);
    assert upTo[..m - 1] == h[..m - 1];
    RunRefines(dir, timeout, h[..m - 1]);
    if m > i + 1 {
      HeldOrTimedOut(dir, timeout, h, i, m - 1, client);
      assert !Releases(dir, h[m - 1].call, client);
      CallKeeps(dir, timeout, before, h[m - 1].call, Clock(upTo), client, Clock(h[..i + 1]));
    } else {
      CallConfirms(dir, timeout, before, h[i].call, Clock(upTo), client);
    }
  }

  lemma CallConfirms(dir: Directory, timeout: nat, l: Lease, call: Call, now: Time, client: Client)
    requires call.CanControl? || call.AllowEmergencyStop?
    requires var d := LazyCall(dir, timeout, l, call, now).1.decision; d.allowed && d.owner == Some(client)
    ensures LazyCall(dir, timeout, l, call, now).0 == Owned(client, now)
  {
  }

  lemma CallKeeps(dir: Directory, timeout: nat, l: Lease, call: Call, now: Time, client: Client, since: Time)
    requires WellFormed(dir, l, now) && !Releases(dir, call, client)
    requires now - since > timeout || (l.owner == Some(client) && l.commandMono.Some? && l.commandMono.value >= since)
    ensures var l' := LazyCall(dir, timeout, l, call, now).0;
            now - since > timeout || (l'.owner == Some(client) && l'.commandMono.Some? && l'.commandMono.value >= since)
  {
  }

  /** Control passes from one client to another only after a full timeout, unless the first one gives it back. */
  lemma LeaseExclusive(dir: Directory, timeout: nat, h: seq<TimedCall>, i: nat, j: nat, a: Client, b: Client)
    requires i < j < |h| && a != b
    requires Confirms(dir, timeout, h, i, a) && Confirms(dir, timeout, h, j, b)
    requires forall k :: i < k < j ==> !Releases(dir, h[k].call, a)
    ensures Clock(h[..j + 1]) - Clock(h[..i + 1]) > timeout
  {
    HeldOrTimedOut(dir, timeout, h, i, j, a);
    assert h[..j + 1][..j] == h[..j];
  }

  /** An emergency stop never takes a live lease from its owner and never shortens it. */
  lemma EmergencyStopKeepsOwner(dir: Directory, timeout: nat, h: seq<TimedCall>, now: Time, addr: string)
    requires Clock(h) <= now
    ensures var l := LazyAfter(dir, timeout, h);
            var before := Live(l, timeout, now);
            var after := Live(GrantEmergencyStop(l, timeout, dir.Resolve(addr), now).0, timeout, now);
            before.Held? ==> after.Held? && after.client == before.client && after.left >= before.left
  {
    RunRefines(dir, timeout, h);
  }
}
