/** What the derived tunnels hold: every claimed host exactly once, in its account's tunnel, with its DNS owner. */
module DerivedTunnelFacts {
  import opened Text
  import opened Derivation
  import opened Zones
  import HostOrder
  import Sorting

  /** The places where a host is claimed on a cluster. */
  ghost function ClaimPlaces(cs: seq<Claim>, cluster: string, host: string): set<int> {
    set i | 0 <= i < |cs| && cs[i].host == host && cs[i].cluster == cluster
  }

  ghost predicate OwnedBy(input: Input, host: string, account: string) {
    exists z :: z in input.zones && z != "" && IsZoneOf(input.zones.Keys, host, z) && input.zones[z] == account
  }

  lemma OwnerIsKey(input: Input, c: Claim, k: Key)
    ensures KeyOf(input, c) == Some(k) <==> c.cluster == k.cluster && OwnedBy(input, c.host, k.account)
  {
    var zones := ZoneNames(input);
    ZoneOfIs(zones, c.host);
    assert AsSet(zones) == input.zones.Keys;
    var zone := ZoneOf(zones, c.host);
    forall z | z in input.zones && z != "" && IsZoneOf(input.zones.Keys, c.host, z) ensures z == zone {
      ZoneOfUnique(input.zones.Keys, c.host, z, zone);
    }
  }

  lemma PlacesStep(cs: seq<Claim>, cluster: string, host: string)
    requires cs != []
    ensures |ClaimPlaces(cs, cluster, host)| == |ClaimPlaces(cs[..|cs| - 1], cluster, host)| +
      (if cs[|cs| - 1].host == host && cs[|cs| - 1].cluster == cluster then 1 else 0)
  {
    var n := |cs| - 1;
    var hit := cs[n].host == host && cs[n].cluster == cluster;
    assert ClaimPlaces(cs, cluster, host) == ClaimPlaces(cs[..n], cluster, host) + (if hit then {n} else {});
  }

  lemma {:induction false} HostsOfCount(input: Input, cs: seq<Claim>, k: Key, host: string)
    ensures multiset(HostsOf(input, cs, k))[host] ==
      if OwnedBy(input, host, k.account) then |ClaimPlaces(cs, k.cluster, host)| else 0
  {
    if cs != [] {
      HostsOfCount(input, cs[..|cs| - 1], k, host);
      OwnerIsKey(input, cs[|cs| - 1], k);
      PlacesStep(cs, k.cluster, host);
    }
  }

  /** A derived tunnel serves a host as often as the catalog claims it on its cluster, in its account's zones only. */
  lemma HostsConserved(input: Input, tunnels: seq<Tunnel>, t: Tunnel, host: string)
    requires DerivedTunnels(input, tunnels) && t in tunnels
    ensures multiset(t.hosts)[host] ==
      if OwnedBy(input, host, t.account) then |ClaimPlaces(Claims(input), t.cluster, host)| else 0
  {
    HostOrder.OrderedIs(HostsOf(input, Claims(input), TunnelKey(t)));
    HostsOfCount(input, Claims(input), TunnelKey(t), host);
  }

  lemma {:induction false} HostsOfMembers(input: Input, cs: seq<Claim>, k: Key)
    ensures forall h :: h in HostsOf(input, cs, k) ==> exists c :: c in cs && c.host == h && KeyOf(input, c) == Some(k)
    ensures forall c :: c in cs && KeyOf(input, c) == Some(k) ==> c.host in HostsOf(input, cs, k)
  {
    if cs != [] {
      var front, last := cs[..|cs| - 1], cs[|cs| - 1];
      assert cs == front + [last];
      HostsOfMembers(input, front, k);
    }
  }

  /** A tunnel's hosts are those claimed under its key. */
  lemma TunnelMembers(input: Input, tunnels: seq<Tunnel>, t: Tunnel)
    requires DerivedTunnels(input, tunnels) && t in tunnels
    ensures forall h :: h in t.hosts <==>
      exists c :: c in Claims(input) && c.host == h && KeyOf(input, c) == Some(TunnelKey(t))
  {
    HostOrder.OrderedIs(HostsOf(input, Claims(input), TunnelKey(t)));
    HostsOfMembers(input, Claims(input), TunnelKey(t));
  }

  /** No claim is lost: each is served by exactly one tunnel, of its own cluster and its zone's account. */
  lemma ClaimServedOnce(input: Input, tunnels: seq<Tunnel>, c: Claim)
    requires Accepted(input) && DerivedTunnels(input, tunnels) && c in Claims(input)
    ensures exists i :: 0 <= i < |tunnels| && ServesClaim(input, tunnels[i], c)
    ensures forall i, j :: (0 <= i < |tunnels| && 0 <= j < |tunnels| &&
      ServesClaim(input, tunnels[i], c) && ServesClaim(input, tunnels[j], c)) ==> i == j
  {
    ClaimsPlaced(input, |input.exposures|);
    var k := KeyOf(input, c).value;
    HostsOfMembers(input, Claims(input), k);
    var t := TunnelFor(input, k);
    HostOrder.OrderedIs(HostsOf(input, Claims(input), k));
    assert t in tunnels;
    var i :| 0 <= i < |tunnels| && tunnels[i] == t;
    OwnerIsKey(input, c, k);
    assert ServesClaim(input, tunnels[i], c);
    forall a, b | 0 <= a < |tunnels| && 0 <= b < |tunnels| && ServesClaim(input, tunnels[a], c)
      && ServesClaim(input, tunnels[b], c)
      ensures a == b
    {
      OwnerIsKey(input, c, TunnelKey(tunnels[a]));
      OwnerIsKey(input, c, TunnelKey(tunnels[b]));
    }
  }

  ghost predicate ServesClaim(input: Input, t: Tunnel, c: Claim) {
    c.host in t.hosts && t.cluster == c.cluster && OwnedBy(input, c.host, t.account)
  }

  /** Every account a tunnel uses is listed by an exposure that claims one of its hosts. */
  lemma AccountsAreListed(input: Input, tunnels: seq<Tunnel>, t: Tunnel, host: string)
    requires Accepted(input) && DerivedTunnels(input, tunnels) && t in tunnels && host in t.hosts
    ensures exists c :: c in Claims(input) && c.host == host && c.cluster == t.cluster && t.account in c.accounts
    ensures OwnedBy(input, host, t.account)
  {
    var k := TunnelKey(t);
    HostOrder.OrderedIs(HostsOf(input, Claims(input), k));
    HostsOfMembers(input, Claims(input), k);
    var c :| c in Claims(input) && c.host == host && KeyOf(input, c) == Some(k);
    ClaimsPlaced(input, |input.exposures|);
    OwnerIsKey(input, c, k);
  }

  lemma DerivedAmong(input: Input, a: seq<Tunnel>, b: seq<Tunnel>)
    requires DerivedTunnels(input, a) && DerivedTunnels(input, b)
    ensures forall t :: t in a ==> t in b
    ensures Sorting.Distinct(a) && Sorting.TiesEqual(TunnelLeq, a)
  {
    TunnelLeqTotal();
    hide TunnelLeq;
    forall t | t in a ensures t in b {
      HostOrder.OrderedIs(HostsOf(input, Claims(input), TunnelKey(t)));
    }
    hide TunnelFor;
    forall i, j | 0 <= i < j < |a| ensures a[i] != a[j] {
      assert TunnelKey(a[i]) != TunnelKey(a[j]);
    }
  }

  /** The accepted input determines its tunnels. */
  lemma DerivedUnique(input: Input, a: seq<Tunnel>, b: seq<Tunnel>)
    requires DerivedTunnels(input, a) && DerivedTunnels(input, b)
    ensures a == b
  {
    DerivedAmong(input, a, b);
    DerivedAmong(input, b, a);
    TunnelLeqTotal();
    Sorting.DistinctMultiset(a);
    Sorting.DistinctMultiset(b);
    hide TunnelFor, TunnelLeq, HostsOf, Claims;
    assert multiset(a) == multiset(b);
    Sorting.SortedPermutationsEqual(TunnelLeq, a, b);
  }

  /** The keys under which something is claimed, each once. */
  ghost function ClaimedKeys(input: Input, cs: seq<Claim>): seq<Key> {
    if cs == [] then []
    else
      var front, k := ClaimedKeys(input, cs[..|cs| - 1]), KeyOf(input, cs[|cs| - 1]);
      if k.Some? && k.value !in front then front + [k.value] else front
  }

  lemma {:induction false} ClaimedKeysAre(input: Input, cs: seq<Claim>)
    ensures Sorting.Distinct(ClaimedKeys(input, cs))
    ensures forall k :: k in ClaimedKeys(input, cs) <==> HostsOf(input, cs, k) != []
  {
    if cs != [] {
      var front, k := ClaimedKeys(input, cs[..|cs| - 1]), KeyOf(input, cs[|cs| - 1]);
      ClaimedKeysAre(input, cs[..|cs| - 1]);
      hide KeyOf;
      if k.Some? {
        Sorting.DistinctSnoc(front, k.value);
      }
    }
  }

  ghost function TunnelsFor(input: Input, keys: seq<Key>): (r: seq<Tunnel>)
    ensures |r| == |keys| && forall i :: 0 <= i < |keys| ==> r[i] == TunnelFor(input, keys[i])
  {
    seq(|keys|, i requires 0 <= i < |keys| => TunnelFor(input, keys[i]))
  }

  /** Every input has its derived tunnels. */
  lemma DerivedExists(input: Input) returns (tunnels: seq<Tunnel>)
    ensures DerivedTunnels(input, tunnels)
  {
    var keys := ClaimedKeys(input, Claims(input));
    ClaimedKeysAre(input, Claims(input));
    hide ClaimedKeys, Claims, HostsOf, TunnelFor, DerivedTunnels;
    SortedTunnels(input, keys, TunnelsFor(input, keys));
    tunnels := Sorting.Sort(TunnelLeq, TunnelsFor(input, keys));
  }

  // ---------------------------------------------------------------------------
  // DNS ownership
  // ---------------------------------------------------------------------------

  /** The hosts a tunnel writes a CNAME for. */
  function DnsNames(hosts: seq<string>, elsewhere: seq<string>): seq<string> {
    if hosts == [] then []
    else
      var last := hosts[|hosts| - 1];
      DnsNames(hosts[..|hosts| - 1], elsewhere) + (if last in elsewhere then [] else [last])
  }

  method TunnelDnsNames(t: Tunnel) returns (out: seq<string>)
    ensures out == DnsNames(t.hosts, t.dnsElsewhere)
  {
    if |t.dnsElsewhere| == 0 {
      NothingElsewhere(t.hosts);
      return t.hosts;
    }
    out := [];
    for i := 0 to |t.hosts|
      invariant out == DnsNames(t.hosts[..i], t.dnsElsewhere)
    {
      assert t.hosts[..i + 1][..i] == t.hosts[..i];
      if t.hosts[i] !in t.dnsElsewhere {
        out := out + [t.hosts[i]];
      }
    }
    assert t.hosts[..|t.hosts|] == t.hosts;
  }

  lemma {:induction false} NothingElsewhere(hosts: seq<string>)
    ensures DnsNames(hosts, []) == hosts
  {
    if hosts != [] {
      NothingElsewhere(hosts[..|hosts| - 1]);
      assert hosts == hosts[..|hosts| - 1] + [hosts[|hosts| - 1]];
    }
  }

  lemma {:induction false} KeepSplits(hosts: seq<string>, wanted: set<string>, skipped: seq<string>)
    requires forall h :: h in hosts ==> (h in skipped <==> h in wanted)
    ensures multiset(hosts) == multiset(Keep(hosts, wanted)) + multiset(DnsNames(hosts, skipped))
  {
    if hosts != [] {
      var front, last := hosts[..|hosts| - 1], hosts[|hosts| - 1];
      assert hosts == front + [last];
      KeepSplits(front, wanted, skipped);
    }
  }

  lemma {:induction false} KeepMembers(hosts: seq<string>, wanted: set<string>)
    ensures forall h :: h in Keep(hosts, wanted) <==> h in hosts && h in wanted
  {
    if hosts != [] {
      var front, last := hosts[..|hosts| - 1], hosts[|hosts| - 1];
      assert hosts == front + [last];
      KeepMembers(front, wanted);
    }
  }

  lemma {:induction false} DnsNamesMembers(hosts: seq<string>, elsewhere: seq<string>)
    ensures forall h :: h in DnsNames(hosts, elsewhere) <==> h in hosts && h !in elsewhere
  {
    if hosts != [] {
      var front, last := hosts[..|hosts| - 1], hosts[|hosts| - 1];
      assert hosts == front + [last];
      DnsNamesMembers(front, elsewhere);
    }
  }

  /** The names a tunnel writes and the names written elsewhere split its hosts, none in both. */
  lemma DnsSplitsHosts(input: Input, tunnels: seq<Tunnel>, t: Tunnel)
    requires DerivedTunnels(input, tunnels) && t in tunnels
    ensures multiset(t.hosts) == multiset(DnsNames(t.hosts, t.dnsElsewhere)) + multiset(t.dnsElsewhere)
    ensures forall h :: h in t.dnsElsewhere ==> h !in DnsNames(t.hosts, t.dnsElsewhere)
    ensures forall h :: h in t.dnsElsewhere <==>
      exists c :: c in Claims(input) && c.elsewhere && c.host == h && KeyOf(input, c) == Some(TunnelKey(t))
  {
    var k := TunnelKey(t);
    var wanted := ElsewhereOf(input, Claims(input), k);
    KeepMembers(t.hosts, wanted);
    KeepSplits(t.hosts, wanted, t.dnsElsewhere);
    DnsNamesMembers(t.hosts, t.dnsElsewhere);
    HostsOfMembers(input, Claims(input), k);
    HostOrder.OrderedIs(HostsOf(input, Claims(input), k));
  }

  /** Against the tunnel's own zones a host resolves as against the whole registry, to a zone of the account. */
  lemma OwnZonesResolve(input: Input, tunnels: seq<Tunnel>, t: Tunnel, host: string)
    requires Accepted(input) && DerivedTunnels(input, tunnels) && t in tunnels && host in t.hosts
    ensures ZoneOf(t.zones, host) == ZoneOf(ZoneNames(input), host) != ""
    ensures ZoneOf(t.zones, host) in input.zones && input.zones[ZoneOf(t.zones, host)] == t.account
    ensures forall z :: z in t.zones ==> z in input.zones && input.zones[z] == t.account
    ensures t.zone in t.zones
  {
    forall h | h in t.hosts
      ensures ZoneOf(ZoneNames(input), h) != "" && ZoneOf(ZoneNames(input), h) in input.zones
      ensures input.zones[ZoneOf(ZoneNames(input), h)] == t.account
    {
      var k := TunnelKey(t);
      HostOrder.OrderedIs(HostsOf(input, Claims(input), k));
      HostsOfMembers(input, Claims(input), k);
      var c :| c in Claims(input) && c.host == h && KeyOf(input, c) == Some(k);
    }
    assert AsSet(t.zones) == ZonesOf(ZoneNames(input), t.hosts);
    ZoneOfPart(ZoneNames(input), t.zones, host);
  }
}
