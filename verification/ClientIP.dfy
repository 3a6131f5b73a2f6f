/** Whose address a request is taken to come from: `internal/access/client_ip.go`. */
module ClientIP {
  import opened Basics
  import opened Access
  import opened Prefixes

  /** The library's parsers and printer; every theorem holds for any behaviour of them. */
  datatype Library = Library(
    net: Net,
    parsePrefix: string -> Option<Prefix>,
    parseAddr: string -> Option<Addr>,
    format: Addr -> string
  ) {
    function ParseAddr(value: string): Option<Addr> {
      match parseAddr(value)
      case None => None
      case Some(a) => Some(a.Unmap())
    }

    /** A configured proxy: a block, or else a single address. */
    function ParseProxy(value: string): Option<Prefix> {
      match parsePrefix(value)
      case Some(p) => Some(Normalize(p))
      case None =>
        match ParseAddr(value)
        case None => None
        case Some(a) => Some(PrefixFrom(a, a.Width()))
    }

    /** What the library promises of what it parses. */
    ghost predicate Sane() {
      && (forall s :: parsePrefix(s).Some? ==> parsePrefix(s).value.Valid())
      && (forall s :: parseAddr(s).Some? ==> parseAddr(s).value.Valid())
    }
  }

  predicate Trusts(trusted: seq<Prefix>, a: Addr) {
    exists i :: 0 <= i < |trusted| && trusted[i].Contains(a.Unmap())
  }

  // ---- Which proxies are trusted

  /** The configured entry `value` names the address `a`, judged in the entry's own terms. */
  predicate Names(lib: Library, value: string, a: Addr) {
    match lib.parsePrefix(value)
    case Some(p) =>
      if p.Prefix? && p.addr.Is4In6() then a.V4? && p.bits >= 96 && p.Contains(Mapped(a)) else p.Contains(a)
    case None =>
      lib.parseAddr(value).Some? && a == lib.parseAddr(value).value.Unmap().WithoutZone()
  }

  function Trimmed(lib: Library, values: seq<string>, i: nat): string
    requires i < |values|
  {
    lib.net.trimSpace(values[i])
  }

  /** All entries are parsed, or the first bad one fails the whole configuration. */
  method NewClientIPResolver(lib: Library, values: seq<string>) returns (r: Option<seq<Prefix>>)
    ensures r.Some? <==> forall i :: 0 <= i < |values| ==> lib.ParseProxy(Trimmed(lib, values, i)).Some?
    ensures r.Some? ==> |r.value| == |values|
    ensures r.Some? ==> forall i :: 0 <= i < |values| ==> Some(r.value[i]) == lib.ParseProxy(Trimmed(lib, values, i))
  {
    var prefixes := [];
    for k := 0 to |values|
      invariant |prefixes| == k
      invariant forall i :: 0 <= i < k ==> lib.ParseProxy(Trimmed(lib, values, i)) == Some(prefixes[i])
    {
      var prefix := lib.ParseProxy(Trimmed(lib, values, k));
      if prefix.None? { return None; }
      prefixes := prefixes + [prefix.value];
    }
    return Some(prefixes);
  }

  method IsTrusted(trusted: seq<Prefix>, addr: Addr) returns (found: bool)
    ensures found <==> Trusts(trusted, addr)
  {
    var a := addr.Unmap();
    for k := 0 to |trusted|
      invariant forall i :: 0 <= i < k ==> !trusted[i].Contains(a)
    {
      if trusted[k].Contains(a) { return true; }
    }
    return false;
  }

  lemma ProxyContains(lib: Library, value: string, a: Addr)
    requires lib.Sane() && a.Valid() && lib.ParseProxy(value).Some?
    ensures lib.ParseProxy(value).value.Contains(a) <==> Names(lib, value, a)
  {
    match lib.parsePrefix(value) {
      case Some(p) =>
        if p.addr.Is4In6() { NormalizeMapped(p, a); } else { NormalizePlain(p, a); }
      case None => SingleContains(lib.parseAddr(value).value.Unmap(), a);
    }
  }

  /** A peer is trusted exactly when some configured entry names its unmapped address. */
  lemma TrustIsConfigured(lib: Library, values: seq<string>, trusted: seq<Prefix>, peer: Addr)
    requires lib.Sane() && peer.Valid() && |trusted| == |values|
    requires forall i :: 0 <= i < |values| ==> lib.ParseProxy(Trimmed(lib, values, i)) == Some(trusted[i])
    ensures Trusts(trusted, peer) <==>
            exists i :: 0 <= i < |values| && Names(lib, Trimmed(lib, values, i), peer.Unmap())
  {
    var a := peer.Unmap();
    if peer.Is4In6() { MappedParts(peer); }
    forall i | 0 <= i < |values|
      ensures trusted[i].Contains(a) <==> Names(lib, Trimmed(lib, values, i), a)
    {
      ProxyContains(lib, Trimmed(lib, values, i), a);
    }
  }

  // ---- Which forwarded address counts

  /** The pieces of a text that starts with `c`, given the pieces of the rest. */
  function Prepend(c: char, parts: seq<string>): (pieces: seq<string>)
    requires parts != []
    ensures pieces != []
  {
    if c == ',' then [""] + parts else [[c] + parts[0]] + parts[1..]
  }

  function Split(s: string): (parts: seq<string>)
    ensures parts != []
  {
    if s == "" then [""] else Prepend(s[0], Split(s[1..]))
  }

  function Join(parts: seq<string>): string {
    if parts == [] then "" else if |parts| == 1 then parts[0] else parts[0] + "," + Join(parts[1..])
  }

  /** The pieces are what stands between the commas. */
  lemma {:induction false} SplitExact(s: string)
    ensures Join(Split(s)) == s
    ensures forall i :: 0 <= i < |Split(s)| ==> ',' !in Split(s)[i]
  {
    if s == "" {
    } else {
      SplitExact(s[1..]);
      PrependExact(s[0], Split(s[1..]));
      assert s == [s[0]] + s[1..];
    }
  }

  lemma PrependExact(c: char, parts: seq<string>)
    requires parts != [] && forall i :: 0 <= i < |parts| ==> ',' !in parts[i]
    ensures Join(Prepend(c, parts)) == [c] + Join(parts)
    ensures forall i :: 0 <= i < |Prepend(c, parts)| ==> ',' !in Prepend(c, parts)[i]
  {
    if c == ',' {
      assert Prepend(c, parts)[1..] == parts;
      assert "" + "," + Join(parts) == [c] + Join(parts);
    } else if |parts| > 1 {
      assert Prepend(c, parts)[1..] == parts[1..];
      assert [c] + parts[0] + "," + Join(parts[1..]) == [c] + (parts[0] + "," + Join(parts[1..]));
    }
  }

  function Entry(lib: Library, value: string): Option<Addr> {
    lib.ParseAddr(lib.net.trimSpace(value))
  }

  /** The right-most entry that is an address. */
  function RightMost(lib: Library, entries: seq<string>): Option<Addr> {
    if entries == [] then None else
      var last := Entry(lib, entries[|entries| - 1]);
      if last.Some? then last else RightMost(lib, entries[..|entries| - 1])
  }

  function ResolveFrom(lib: Library, trusted: seq<Prefix>, remoteAddr: string, forwardedFor: string): string {
    var peer := lib.ParseAddr(lib.net.ExtractIP(remoteAddr));
    var client := RightMost(lib, Split(forwardedFor));
    if peer.None? || !Trusts(trusted, peer.value) || client.None? then remoteAddr else lib.format(client.value)
  }

  method Resolve(lib: Library, trusted: seq<Prefix>, remoteAddr: string, forwardedFor: string) returns (r: string)
    ensures r == ResolveFrom(lib, trusted, remoteAddr, forwardedFor)
  {
    var peer := lib.ParseAddr(lib.net.ExtractIP(remoteAddr));
    if peer.None? { return remoteAddr; }
    var found := IsTrusted(trusted, peer.value);
    if !found { return remoteAddr; }
    var values := Split(forwardedFor);
    assert values[..|values|] == values;
    var i := |values| - 1;
    while i >= 0
      invariant -1 <= i < |values|
      invariant RightMost(lib, values) == RightMost(lib, values[..i + 1])
    {
      assert values[..i + 1][..i] == values[..i];
      var client := Entry(lib, values[i]);
      if client.Some? { return lib.format(client.value); }
      i := i - 1;
    }
    return remoteAddr;
  }

  /** Entry `i` is the answer exactly when it is an address and nothing right of it is. */
  lemma {:induction false} RightMostIs(lib: Library, entries: seq<string>, i: nat)
    requires i < |entries| && Entry(lib, entries[i]).Some?
    requires forall j :: i < j < |entries| ==> Entry(lib, entries[j]).None?
    ensures RightMost(lib, entries) == Entry(lib, entries[i])
  {
    if i < |entries| - 1 { RightMostIs(lib, entries[..|entries| - 1], i); }
  }

  lemma {:induction false} SplitJoined(p: string, s: string)
    ensures Split(p + "," + s) == Split(p) + Split(s)
  {
    if p == "" {
      assert ("," + s)[1..] == s && p + "," + s == "," + s;
    } else {
      SplitJoined(p[1..], s);
      var whole := p + "," + s;
      assert whole[1..] == p[1..] + "," + s && whole[0] == p[0];
      PrependJoined(p[0], Split(p[1..]), Split(s));
    }
  }

  lemma PrependJoined(c: char, front: seq<string>, back: seq<string>)
    requires front != []
    ensures Prepend(c, front + back) == Prepend(c, front) + back
  {
    assert (front + back)[1..] == front[1..] + back;
  }

  lemma {:induction false} RightMostJoined(lib: Library, a: seq<string>, b: seq<string>)
    ensures RightMost(lib, a + b) == if RightMost(lib, b).Some? then RightMost(lib, b) else RightMost(lib, a)
  {
    if b == [] {
      assert a + b == a;
    } else {
      RightMostJoined(lib, a, b[..|b| - 1]);
      assert (a + b)[..|a + b| - 1] == a + b[..|b| - 1];
    }
  }

  /**
   Text put in front of a header can matter only when the header holds no address of its own; then, and
   only then, is the text in front consulted.
   */
  lemma FrontCannotOverride(lib: Library, trusted: seq<Prefix>, remoteAddr: string, p: string, s: string)
    ensures ResolveFrom(lib, trusted, remoteAddr, p + "," + s) ==
            ResolveFrom(lib, trusted, remoteAddr, if RightMost(lib, Split(s)).Some? then s else p)
  {
    SplitJoined(p, s);
    RightMostJoined(lib, Split(p), Split(s));
  }

  // ---- The answer, from the configuration

  /** `trusted` is what the configuration `values` was parsed to. */
  predicate Configured(lib: Library, values: seq<string>, trusted: seq<Prefix>) {
    && |trusted| == |values|
    && forall i :: 0 <= i < |values| ==> lib.ParseProxy(Trimmed(lib, values, i)) == Some(trusted[i])
  }

  /** The peer's address, without its port. */
  function Host(lib: Library, remoteAddr: string): string {
    if remoteAddr != "" && lib.net.splitHostPort(remoteAddr).Some? then lib.net.splitHostPort(remoteAddr).value
    else remoteAddr
  }

  /** The peer is an address, and some configured entry names it. */
  predicate TrustedPeer(lib: Library, values: seq<string>, remoteAddr: string) {
    var peer := lib.parseAddr(Host(lib, remoteAddr));
    peer.Some? && exists i :: 0 <= i < |values| && Names(lib, lib.net.trimSpace(values[i]), peer.value.Unmap())
  }

  /** What the `i`-th entry of a header parses to. */
  function Forwarded(lib: Library, header: string, i: nat): Option<Addr>
    requires i < |Split(header)|
  {
    lib.parseAddr(lib.net.trimSpace(Split(header)[i]))
  }

  predicate LastForwarded(lib: Library, header: string, i: nat) {
    && i < |Split(header)| && Forwarded(lib, header, i).Some?
    && forall j :: i < j < |Split(header)| ==> Forwarded(lib, header, j).None?
  }

  predicate NoneForwarded(lib: Library, header: string) {
    forall j :: 0 <= j < |Split(header)| ==> Forwarded(lib, header, j).None?
  }

  lemma UnmapKeepsValid(a: Addr)
    requires a.Valid()
    ensures a.Unmap().Valid() && a.Unmap().Unmap() == a.Unmap()
  {
    if a.Is4In6() { MappedParts(a); }
  }

  lemma PeerTrusted(lib: Library, values: seq<string>, trusted: seq<Prefix>, remoteAddr: string)
    requires lib.Sane() && Configured(lib, values, trusted)
    ensures var peer := lib.ParseAddr(lib.net.ExtractIP(remoteAddr));
            peer.Some? && Trusts(trusted, peer.value) <==> TrustedPeer(lib, values, remoteAddr)
  {
    var raw := lib.parseAddr(Host(lib, remoteAddr));
    assert forall i :: 0 <= i < |values| ==> lib.net.trimSpace(values[i]) == Trimmed(lib, values, i);
    if raw.Some? {
      UnmapKeepsValid(raw.value);
      TrustIsConfigured(lib, values, trusted, raw.value.Unmap());
    }
  }

  lemma {:induction false} RightMostNone(lib: Library, entries: seq<string>)
    requires forall j :: 0 <= j < |entries| ==> Entry(lib, entries[j]).None?
    ensures RightMost(lib, entries).None?
  {
    if entries == [] {
    } else {
      RightMostNone(lib, entries[..|entries| - 1]);
    }
  }

  /**
   Whose address a request is taken to come from, told by the configured values and the header's entries. A
   peer that no value names is taken at its own address whatever the header says; behind a trusted one it is the
   header's last address that counts, if there is one.
   */
  lemma ResolveExact(
    lib: Library, values: seq<string>, trusted: seq<Prefix>, remoteAddr: string, header: string, i: nat)
    requires lib.Sane() && Configured(lib, values, trusted)
    ensures var r := ResolveFrom(lib, trusted, remoteAddr, header);
            && (!TrustedPeer(lib, values, remoteAddr) ==> r == remoteAddr)
            && (TrustedPeer(lib, values, remoteAddr) && NoneForwarded(lib, header) ==> r == remoteAddr)
            && (TrustedPeer(lib, values, remoteAddr) && LastForwarded(lib, header, i) ==>
                  r == lib.format(Forwarded(lib, header, i).value.Unmap()))
  {
    PeerTrusted(lib, values, trusted, remoteAddr);
    var entries := Split(header);
    assert forall j :: 0 <= j < |entries| ==> (Entry(lib, entries[j]).Some? <==> Forwarded(lib, header, j).Some?);
    if NoneForwarded(lib, header) {
      RightMostNone(lib, entries);
    } else if LastForwarded(lib, header, i) {
      RightMostIs(lib, entries, i);
    }
  }

  /** One of these cases always applies. */
  lemma ForwardedCases(lib: Library, header: string)
    ensures NoneForwarded(lib, header) || exists i: nat :: LastForwarded(lib, header, i)
  {
    CasesFrom(lib, header, |Split(header)|);
  }

  lemma {:induction false} CasesFrom(lib: Library, header: string, n: nat)
    requires n <= |Split(header)| && forall j :: n <= j < |Split(header)| ==> Forwarded(lib, header, j).None?
    ensures NoneForwarded(lib, header) || exists i: nat :: LastForwarded(lib, header, i)
  {
    if n == 0 {
    } else if Forwarded(lib, header, n - 1).Some? {
      assert LastForwarded(lib, header, n - 1);
    } else {
      CasesFrom(lib, header, n - 1);
    }
  }

  /** A stranger cannot choose its address: whatever two headers say, it gets the same answer, its own. */
  lemma StrangerCannotForge(
    lib: Library, values: seq<string>, trusted: seq<Prefix>, remoteAddr: string, header: string, other: string)
    requires lib.Sane() && Configured(lib, values, trusted) && !TrustedPeer(lib, values, remoteAddr)
    ensures ResolveFrom(lib, trusted, remoteAddr, header) == ResolveFrom(lib, trusted, remoteAddr, other) == remoteAddr
  {
    ResolveExact(lib, values, trusted, remoteAddr, header, 0);
    ResolveExact(lib, values, trusted, remoteAddr, other, 0);
  }

  /** The configuration and a request served with it, as one. */
  method ResolveConfigured(lib: Library, values: seq<string>, remoteAddr: string, header: string)
    returns (r: Option<string>)
    requires lib.Sane()
    ensures r.Some? <==>
            forall i :: 0 <= i < |values| ==>
              var value := lib.net.trimSpace(values[i]); lib.parsePrefix(value).Some? || lib.parseAddr(value).Some?
    ensures r.Some? && !TrustedPeer(lib, values, remoteAddr) ==> r.value == remoteAddr
    ensures r.Some? && NoneForwarded(lib, header) ==> r.value == remoteAddr
    ensures r.Some? && TrustedPeer(lib, values, remoteAddr) ==>
              forall i: nat :: LastForwarded(lib, header, i) ==>
                r.value == lib.format(Forwarded(lib, header, i).value.Unmap())
  {
    var trusted := NewClientIPResolver(lib, values);
    assert forall i :: 0 <= i < |values| ==> lib.net.trimSpace(values[i]) == Trimmed(lib, values, i);
    if trusted.None? { return None; }
    var answer := Resolve(lib, trusted.value, remoteAddr, header);
    forall i: nat
      ensures !TrustedPeer(lib, values, remoteAddr) || NoneForwarded(lib, header) ==> answer == remoteAddr
      ensures TrustedPeer(lib, values, remoteAddr) && LastForwarded(lib, header, i) ==>
                answer == lib.format(Forwarded(lib, header, i).value.Unmap())
    {
      ResolveExact(lib, values, trusted.value, remoteAddr, header, i);
    }
    ResolveExact(lib, values, trusted.value, remoteAddr, header, 0);
    r := Some(answer);
  }
}
