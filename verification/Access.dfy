/**
 The control lease: `internal/access/manager.go`. The values and functions come first; the class
 `Manager` updates its fields in place and is proved against them.
 */
module Access {
  import opened Basics

  /** The library calls the manager depends on. Every theorem holds for any behaviour of them. */
  datatype Net = Net(
    splitHostPort: string -> Option<string>,  // host part, None on error
    trimSpace: string -> string,
    parseIP: string -> Option<string>         // canonical text, None when it is no address
  ) {
    function ExtractIP(remoteAddr: string): string {
      if remoteAddr == "" then "" else
        match splitHostPort(remoteAddr)
        case Some(host) => host
        case None => remoteAddr
    }

    function NormalizeIP(value: string): string {
      var trimmed := trimSpace(value);
      if trimmed == "" then "" else
        match parseIP(trimmed)
        case Some(canonical) => canonical
        case None => trimmed
    }
  }

  datatype Operator = Operator(name: string, ips: seq<string>)
  datatype Client = Client(name: string, ip: string)

  /** The operator table: who may drive from which normalised address. */
  datatype Directory = Directory(net: Net, operatorsByIP: map<string, string>) {
    function Resolve(remoteAddr: string): Option<Client> {
      var ip := net.ExtractIP(remoteAddr);
      var normalized := net.NormalizeIP(ip);
      if ip == "" || normalized !in operatorsByIP then None
      else Some(Client(operatorsByIP[normalized], normalized))
    }

    predicate IsOperator(client: Client) {
      client.ip in operatorsByIP && operatorsByIP[client.ip] == client.name
    }
  }

  datatype Reason =
    UnknownClient | OwnerAcquired | Owner | ControlBusy | EmergencyStopAllowed | NotOwner

  datatype Decision = Decision(allowed: bool, reason: Reason, client: Option<Client>, owner: Option<Client>)

  const UNKNOWN := Decision(false, UnknownClient, None, None)

  datatype View = View(
    owner: Option<Client>, controlAvailable: bool, currentClient: Option<Client>, lastCommandAt: Option<int>)

  /** What the manager remembers. A zero `time.Time` is None. */
  datatype Lease = Lease(owner: Option<Client>, commandAt: Option<Time>, commandMono: Option<Time>)

  const UNOWNED := Lease(None, None, None)

  function Owned(client: Client, now: Time): Lease {
    Lease(Some(client), Some(now), Some(now))
  }

  function Expire(l: Lease, timeout: nat, now: Time): Lease {
    if l.owner.None? || l.commandMono.None? || now - l.commandMono.value <= timeout then l else UNOWNED
  }

  function GrantControl(l: Lease, timeout: nat, who: Option<Client>, now: Time): (Lease, Decision) {
    if who.None? then (l, UNKNOWN) else
      var e := Expire(l, timeout, now);
      if e.owner.None? then (Owned(who.value, now), Decision(true, OwnerAcquired, who, who))
      else if e.owner == who then (Owned(who.value, now), Decision(true, Owner, who, who))
      else (e, Decision(false, ControlBusy, who, e.owner))
  }

  function GrantEmergencyStop(l: Lease, timeout: nat, who: Option<Client>, now: Time): (Lease, Decision) {
    if who.None? then (l, UNKNOWN) else
      var e := Expire(l, timeout, now);
      var holder := if e.owner.None? then who.value else e.owner.value;
      (Owned(holder, now), Decision(true, EmergencyStopAllowed, who, Some(holder)))
  }

  function CheckOwner(l: Lease, timeout: nat, who: Option<Client>, now: Time): (Lease, Decision) {
    if who.None? then (l, UNKNOWN) else
      var e := Expire(l, timeout, now);
      (e, if e.owner == who then Decision(true, Owner, who, who) else Decision(false, NotOwner, who, e.owner))
  }

  function ViewFor(l: Lease, timeout: nat, who: Option<Client>, now: Time): (Lease, View) {
    var e := Expire(l, timeout, now);
    (e, View(e.owner, e.owner.None?, who, e.commandAt))
  }

  function Release(l: Lease, who: Option<Client>): Lease {
    if who.Some? && l.owner == who then UNOWNED else l
  }

  /** The operator table is filled operator by operator, address by address; a later entry replaces an earlier one. */
  function AddIPs(net: Net, table: map<string, string>, name: string, ips: seq<string>): map<string, string> {
    if ips == [] then table else
      var before := AddIPs(net, table, name, ips[..|ips| - 1]);
      var normalized := net.NormalizeIP(ips[|ips| - 1]);
      if normalized == "" then before else before[normalized := name]
  }

  function AddOperators(net: Net, operators: seq<Operator>): map<string, string> {
    if operators == [] then map[] else
      var last := operators[|operators| - 1];
      AddIPs(net, AddOperators(net, operators[..|operators| - 1]), last.name, last.ips)
  }

  predicate Lists(net: Net, operator: Operator, ip: string) {
    ip != "" && exists i :: 0 <= i < |operator.ips| && net.NormalizeIP(operator.ips[i]) == ip
  }

  predicate LastListing(net: Net, operators: seq<Operator>, ip: string, k: int) {
    && 0 <= k < |operators| && Lists(net, operators[k], ip)
    && forall m :: k < m < |operators| ==> !Lists(net, operators[m], ip)
  }

  lemma {:induction false} AddIPsLookup(
    net: Net, table: map<string, string>, name: string, ips: seq<string>, ip: string)
    ensures Lists(net, Operator(name, ips), ip) ==>
              ip in AddIPs(net, table, name, ips) && AddIPs(net, table, name, ips)[ip] == name
    ensures !Lists(net, Operator(name, ips), ip) ==>
              (ip in AddIPs(net, table, name, ips) <==> ip in table) &&
              (ip in table ==> AddIPs(net, table, name, ips)[ip] == table[ip])
  {
    if ips == [] {
    } else {
      var before, last := ips[..|ips| - 1], |ips| - 1;
      AddIPsLookup(net, table, name, before, ip);
      if Lists(net, Operator(name, ips), ip) && net.NormalizeIP(ips[last]) != ip {
        var i :| 0 <= i < |ips| && net.NormalizeIP(ips[i]) == ip;
        assert net.NormalizeIP(before[i]) == ip;
      }
      if Lists(net, Operator(name, before), ip) {
        var i :| 0 <= i < |before| && net.NormalizeIP(before[i]) == ip;
        assert net.NormalizeIP(ips[i]) == ip;
      }
    }
  }

  /** An address belongs to the last operator that lists it. */
  lemma {:induction false} LastListingWins(net: Net, operators: seq<Operator>, ip: string, k: int)
    requires LastListing(net, operators, ip, k)
    ensures ip in AddOperators(net, operators) && AddOperators(net, operators)[ip] == operators[k].name
  {
    var before, last := operators[..|operators| - 1], operators[|operators| - 1];
    AddIPsLookup(net, AddOperators(net, before), last.name, last.ips, ip);
    assert last == Operator(last.name, last.ips);
    if k < |before| {
      assert !Lists(net, last, ip);
      assert forall m :: 0 <= m < |before| ==> before[m] == operators[m];
      LastListingWins(net, before, ip, k);
    }
  }

  /** And to nobody when none does. */
  lemma {:induction false} UnlistedUnknown(net: Net, operators: seq<Operator>, ip: string)
    requires forall k :: 0 <= k < |operators| ==> !Lists(net, operators[k], ip)
    ensures ip !in AddOperators(net, operators)
  {
    if operators == [] {
    } else {
      var before, last := operators[..|operators| - 1], operators[|operators| - 1];
      UnlistedUnknown(net, before, ip);
      AddIPsLookup(net, AddOperators(net, before), last.name, last.ips, ip);
      assert last == Operator(last.name, last.ips);
    }
  }

  /** The canonical form of an address as it is written: trimmed, and rewritten if it parses. */
  predicate Canonical(net: Net, value: string, ip: string) {
    var trimmed := net.trimSpace(value);
    && trimmed != ""
    && (if net.parseIP(trimmed).Some? then net.parseIP(trimmed) == Some(ip) else ip == trimmed)
  }

  predicate Writes(net: Net, operator: Operator, ip: string) {
    exists i :: 0 <= i < |operator.ips| && Canonical(net, operator.ips[i], ip)
  }

  lemma WritesLists(net: Net, operator: Operator, ip: string)
    requires ip != ""
    ensures Writes(net, operator, ip) <==> Lists(net, operator, ip)
  {
    forall i | 0 <= i < |operator.ips|
      ensures Canonical(net, operator.ips[i], ip) <==> net.NormalizeIP(operator.ips[i]) == ip
    {
    }
  }

  /**
   A request resolves by its host, whatever its port: to the last operator that lists the host's canonical
   form, under that form, and to nobody if none does.
   */
  lemma ResolvesByHost(net: Net, operators: seq<Operator>, remoteAddr: string, host: string, ip: string, k: int)
    requires remoteAddr != "" && host != "" && ip != ""
    requires host == if net.splitHostPort(remoteAddr).Some? then net.splitHostPort(remoteAddr).value else remoteAddr
    requires Canonical(net, host, ip)
    ensures var who := Directory(net, AddOperators(net, operators)).Resolve(remoteAddr);
            && ((0 <= k < |operators| && Writes(net, operators[k], ip) &&
                 forall m :: k < m < |operators| ==> !Writes(net, operators[m], ip)) ==>
                  who == Some(Client(operators[k].name, ip)))
            && ((forall m :: 0 <= m < |operators| ==> !Writes(net, operators[m], ip)) ==> who.None?)
  {
    forall m | 0 <= m < |operators|
      ensures Writes(net, operators[m], ip) <==> Lists(net, operators[m], ip)
    {
      WritesLists(net, operators[m], ip);
    }
    if LastListing(net, operators, ip, k) { LastListingWins(net, operators, ip, k); }
    if forall m :: 0 <= m < |operators| ==> !Lists(net, operators[m], ip) { UnlistedUnknown(net, operators, ip); }
  }

  /** A host that is missing or blank belongs to nobody, whatever the operators list. */
  lemma BlankUnknown(net: Net, operators: seq<Operator>, remoteAddr: string, host: string)
    requires host == if remoteAddr != "" && net.splitHostPort(remoteAddr).Some?
                     then net.splitHostPort(remoteAddr).value else remoteAddr
    requires host == "" || net.trimSpace(host) == ""
    ensures Directory(net, AddOperators(net, operators)).Resolve(remoteAddr).None?
  {
    UnlistedUnknown(net, operators, "");
  }

  class Manager {
    const timeout: nat
    const directory: Directory
    var owner: Option<Client>
    var lastCommandAt: Option<Time>
    var lastCommandMono: Option<Time>

    ghost function Snapshot(): Lease
      reads this
    {
      Lease(owner, lastCommandAt, lastCommandMono)
    }

    constructor (net: Net, operators: seq<Operator>, timeout: nat)
      ensures this.timeout == timeout
      ensures directory == Directory(net, AddOperators(net, operators))
      ensures Snapshot() == UNOWNED
    {
      var table := map[];
      for k := 0 to |operators|
        invariant table == AddOperators(net, operators[..k])
      {
        var operator := operators[k];
        ghost var start := table;
        for i := 0 to |operator.ips|
          invariant table == AddIPs(net, start, operator.name, operator.ips[..i])
        {
          var normalized := net.NormalizeIP(operator.ips[i]);
          assert operator.ips[..i + 1][..i] == operator.ips[..i];
          if normalized == "" { continue; }
          table := table[normalized := operator.name];
        }
        assert operator.ips[..|operator.ips|] == operator.ips;
        assert operators[..k + 1][..k] == operators[..k];
      }
      assert operators[..|operators|] == operators;
      this.timeout := timeout;
      directory := Directory(net, table);
      owner, lastCommandAt, lastCommandMono := None, None, None;
    }

    method ReleaseExpired(now: Time)
      modifies this
      ensures Snapshot() == Expire(old(Snapshot()), timeout, now)
    {
      if owner.None? { return; }
      if lastCommandMono.None? { return; }
      if now - lastCommandMono.value <= timeout { return; }
      owner := None;
      lastCommandAt := None;
      lastCommandMono := None;
    }

    method CanControl(remoteAddr: string, now: Time) returns (d: Decision)
      modifies this
      ensures (Snapshot(), d) == GrantControl(old(Snapshot()), timeout, directory.Resolve(remoteAddr), now)
    {
      var client := directory.Resolve(remoteAddr);
      if client.None? { return UNKNOWN; }
      ReleaseExpired(now);
      if owner.None? {
        owner := client;
        lastCommandAt := Some(now);
        lastCommandMono := Some(now);
        return Decision(true, OwnerAcquired, client, owner);
      }
      if owner == client {
        lastCommandAt := Some(now);
        lastCommandMono := Some(now);
        return Decision(true, Reason.Owner, client, owner);
      }
      return Decision(false, ControlBusy, client, owner);
    }

    method AllowEmergencyStop(remoteAddr: string, now: Time) returns (d: Decision)
      modifies this
      ensures (Snapshot(), d) == GrantEmergencyStop(old(Snapshot()), timeout, directory.Resolve(remoteAddr), now)
    {
      var client := directory.Resolve(remoteAddr);
      if client.None? { return UNKNOWN; }
      ReleaseExpired(now);
      if owner.None? { owner := client; }
      lastCommandAt := Some(now);
      lastCommandMono := Some(now);
      return Decision(true, EmergencyStopAllowed, client, owner);
    }

    method IsOwner(remoteAddr: string, now: Time) returns (d: Decision)
      modifies this
      ensures (Snapshot(), d) == CheckOwner(old(Snapshot()), timeout, directory.Resolve(remoteAddr), now)
    {
      var client := directory.Resolve(remoteAddr);
      if client.None? { return UNKNOWN; }
      ReleaseExpired(now);
      if owner == client { return Decision(true, Reason.Owner, client, owner); }
      return Decision(false, NotOwner, client, owner);
    }

    method StateFor(remoteAddr: string, now: Time) returns (v: View)
      modifies this
      ensures (Snapshot(), v) == ViewFor(old(Snapshot()), timeout, directory.Resolve(remoteAddr), now)
    {
      var currentClient := directory.Resolve(remoteAddr);
      ReleaseExpired(now);
      v := View(owner, owner.None?, currentClient, lastCommandAt);
    }

    method ReleaseIfOwner(remoteAddr: string)
      modifies this
      ensures Snapshot() == Release(old(Snapshot()), directory.Resolve(remoteAddr))
    {
      var client := directory.Resolve(remoteAddr);
      if client.None? { return; }
      if owner == client {
        owner := None;
        lastCommandAt := None;
        lastCommandMono := None;
      }
    }
  }
}
