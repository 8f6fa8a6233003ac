/**
 `Derive` (cloudflare/edgespec/derive.go): the hosts of every exposure, resolved to zones and
 accounts and grouped into one tunnel per (cluster, account).
 */
module Derivation {
  import opened Text
  import opened ZoneLists
  import opened Zones
  import HostOrder
  import Sorting

  datatype Group = Group(
    name: string, cluster: string, hosts: seq<string>, namespaces: seq<string>, dnsElsewhere: seq<string>,
    wafOff: seq<string>)

  datatype Exposure = Exposure(name: string, accounts: seq<string>, groups: seq<Group>)

  /** zones maps a zone to its account; the keys of legacyNames are the known accounts. */
  datatype Input = Input(
    exposures: seq<Exposure>, zones: map<string, string>, legacyNames: map<string, bool>, wafZones: seq<string>,
    business: set<string>, cacheZones: seq<string>)

  datatype Tunnel = Tunnel(
    name: string, cluster: string, account: string, zone: string, zones: seq<string>,
    hosts: seq<string>, dnsElsewhere: seq<string>)

  datatype Key = Key(cluster: string, account: string)

  datatype Refusal = NoAccounts | UnknownAccount | NoZone | AccountNotListed | ProxiedWildcard

  /** One host of one group, with what its exposure and group say about it. */
  datatype Claim = Claim(
    cluster: string, host: string, accounts: seq<string>, elsewhere: bool, wafOff: bool, namespaces: seq<string>)

  function ClaimOf(e: Exposure, g: Group, host: string): Claim {
    Claim(g.cluster, host, e.accounts, host in g.dnsElsewhere, host in g.wafOff, g.namespaces)
  }

  function GroupClaims(e: Exposure, g: Group): (cs: seq<Claim>)
    ensures |cs| == |g.hosts|
    ensures forall i :: 0 <= i < |cs| ==> cs[i] == ClaimOf(e, g, g.hosts[i])
  {
    seq(|g.hosts|, i requires 0 <= i < |g.hosts| => ClaimOf(e, g, g.hosts[i]))
  }

  /** The claims of the first n groups of an exposure, after the ones before it. */
  function ExposureClaims(before: seq<Claim>, e: Exposure, n: nat): seq<Claim>
    requires n <= |e.groups|
  {
    if n == 0 then before else ExposureClaims(before, e, n - 1) + GroupClaims(e, e.groups[n - 1])
  }

  /** The claims of the first n exposures. */
  function AllClaims(es: seq<Exposure>, n: nat): seq<Claim>
    requires n <= |es|
  {
    if n == 0 then [] else ExposureClaims(AllClaims(es, n - 1), es[n - 1], |es[n - 1].groups|)
  }

  function Claims(input: Input): seq<Claim> {
    AllClaims(input.exposures, |input.exposures|)
  }

  function ZoneNames(input: Input): seq<string> {
    Sorting.SortedKeys(input.zones.Keys)
  }

  function KeyOf(input: Input, c: Claim): Option<Key> {
    var z := ZoneOf(ZoneNames(input), c.host);
    if z != "" && z in input.zones then Some(Key(c.cluster, input.zones[z])) else None
  }

  predicate Placed(input: Input, c: Claim) {
    KeyOf(input, c).Some? && KeyOf(input, c).value.account in c.accounts
  }

  /** The hosts claimed under one key, in the order they are written. */
  ghost function HostsOf(input: Input, cs: seq<Claim>, k: Key): seq<string> {
    if cs == [] then []
    else
      var last := cs[|cs| - 1];
      HostsOf(input, cs[..|cs| - 1], k) + (if KeyOf(input, last) == Some(k) then [last.host] else [])
  }

  ghost function ElsewhereOf(input: Input, cs: seq<Claim>, k: Key): set<string> {
    set c | c in cs && c.elsewhere && KeyOf(input, c) == Some(k) :: c.host
  }

  predicate AccountsOk(input: Input, e: Exposure) {
    e.accounts != [] && forall a :: a in e.accounts ==> a in input.legacyNames
  }

  ghost predicate ExposureOk(input: Input, e: Exposure) {
    && AccountsOk(input, e)
    && (forall g :: g in e.groups ==> GroupOk(input, e, g))
  }

  ghost predicate GroupOk(input: Input, e: Exposure, g: Group) {
    forall h :: h in g.hosts ==> Placed(input, ClaimOf(e, g, h))
  }

  /** A claim the managed WAF refuses: a proxied wildcard in a WAF zone that is not opted out. */
  predicate WafRefused(input: Input, c: Claim) {
    var z := ZoneOf(ZoneNames(input), c.host);
    z != "" && z in input.wafZones && !c.wafOff && HostOrder.IsWildcard(c.host)
  }

  ghost predicate Accepted(input: Input) {
    && (forall e :: e in input.exposures ==> ExposureOk(input, e))
    && (forall c :: c in Claims(input) ==> !WafRefused(input, c))
  }

  lemma {:induction false} ClaimsPlaced(input: Input, n: nat)
    requires n <= |input.exposures| && forall e :: e in input.exposures ==> ExposureOk(input, e)
    ensures forall c :: c in AllClaims(input.exposures, n) ==> Placed(input, c)
  {
    if n > 0 {
      ClaimsPlaced(input, n - 1);
      var e := input.exposures[n - 1];
      assert e in input.exposures;
      ExposureClaimsPlaced(input, AllClaims(input.exposures, n - 1), e, |e.groups|);
    }
  }

  lemma {:induction false} ExposureClaimsPlaced(input: Input, before: seq<Claim>, e: Exposure, n: nat)
    requires n <= |e.groups| && ExposureOk(input, e) && forall c :: c in before ==> Placed(input, c)
    ensures forall c :: c in ExposureClaims(before, e, n) ==> Placed(input, c)
  {
    if n > 0 {
      ExposureClaimsPlaced(input, before, e, n - 1);
      var g := e.groups[n - 1];
      assert g in e.groups && GroupOk(input, e, g);
      forall c | c in GroupClaims(e, g) ensures Placed(input, c) {
        var i :| 0 <= i < |g.hosts| && c == ClaimOf(e, g, g.hosts[i]);
      }
    }
  }

  // ---------------------------------------------------------------------------
  // Gathering the hosts
  // ---------------------------------------------------------------------------

  ghost predicate HostsGathered(input: Input, cs: seq<Claim>, hosts: map<Key, seq<string>>) {
    && (forall k :: k in hosts <==> HostsOf(input, cs, k) != [])
    && (forall k :: k in hosts ==> hosts[k] == HostsOf(input, cs, k))
  }

  function SkipAt(elsewhere: map<Key, set<string>>, k: Key): set<string> {
    if k in elsewhere then elsewhere[k] else {}
  }

  ghost predicate ElsewhereGathered(input: Input, cs: seq<Claim>, elsewhere: map<Key, set<string>>) {
    forall k :: SkipAt(elsewhere, k) == ElsewhereOf(input, cs, k)
  }

  ghost predicate Gathered(input: Input, cs: seq<Claim>, hosts: map<Key, seq<string>>,
      elsewhere: map<Key, set<string>>)
  {
    HostsGathered(input, cs, hosts) && ElsewhereGathered(input, cs, elsewhere)
  }

  lemma GatherStep(input: Input, cs: seq<Claim>, c: Claim, k: Key)
    ensures HostsOf(input, cs + [c], k) == HostsOf(input, cs, k) + (if KeyOf(input, c) == Some(k) then [c.host] else [])
    ensures ElsewhereOf(input, cs + [c], k) ==
      ElsewhereOf(input, cs, k) + (if c.elsewhere && KeyOf(input, c) == Some(k) then {c.host} else {})
  {
    assert (cs + [c])[..|cs|] == cs;
  }

  lemma HostsOne(input: Input, cs: seq<Claim>, c: Claim, k: Key, hosts: map<Key, seq<string>>)
    requires HostsGathered(input, cs, hosts) && KeyOf(input, c) == Some(k)
    ensures HostsGathered(input, cs + [c], hosts[k := (if k in hosts then hosts[k] else []) + [c.host]])
  {
    hide HostsOf, KeyOf;
    forall key { GatherStep(input, cs, c, key); }
  }

  lemma ElsewhereOne(input: Input, cs: seq<Claim>, c: Claim, k: Key, elsewhere: map<Key, set<string>>)
    requires ElsewhereGathered(input, cs, elsewhere) && KeyOf(input, c) == Some(k)
    ensures ElsewhereGathered(input, cs + [c],
              if c.elsewhere then elsewhere[k := SkipAt(elsewhere, k) + {c.host}] else elsewhere)
  {
    hide ElsewhereOf, KeyOf;
    forall key { GatherStep(input, cs, c, key); }
  }

  /** Why a host cannot be placed: no zone holds it, or the zone's account is not listed. */
  predicate HostCause(input: Input, e: Exposure, host: string, why: Refusal) {
    var zone := ZoneOf(ZoneNames(input), host);
    if zone == "" then why == NoZone
    else why == AccountNotListed && zone in input.zones && input.zones[zone] !in e.accounts
  }

  /** Why an exposure is refused. */
  ghost predicate ExposureCause(input: Input, e: Exposure, why: Refusal) {
    match why
    case NoAccounts => e.accounts == []
    case UnknownAccount => exists a :: a in e.accounts && a !in input.legacyNames
    case _ => exists g, h :: g in e.groups && h in g.hosts && HostCause(input, e, h, why)
  }

  method GatherHost(input: Input, e: Exposure, g: Group, host: string, ghost cs: seq<Claim>,
      hosts0: map<Key, seq<string>>, elsewhere0: map<Key, set<string>>)
    returns (ok: bool, why: Refusal, hosts: map<Key, seq<string>>, elsewhere: map<Key, set<string>>)
    requires Gathered(input, cs, hosts0, elsewhere0)
    ensures ok <==> Placed(input, ClaimOf(e, g, host))
    ensures !ok ==> HostCause(input, e, host, why)
    ensures ok ==> Gathered(input, cs + [ClaimOf(e, g, host)], hosts, elsewhere)
  {
    hosts, elsewhere := hosts0, elsewhere0;
    var zones := Sorting.CollectKeys(input.zones.Keys);
    ghost var c := ClaimOf(e, g, host);
    var zone := FindZone(zones, host);
    if zone == "" {
      return false, NoZone, hosts, elsewhere;
    }
    ZoneOfListed(zones, host);
    var account := input.zones[zone];
    if account !in e.accounts {
      return false, AccountNotListed, hosts, elsewhere;
    }
    var k := Key(g.cluster, account);
    HostsOne(input, cs, c, k, hosts);
    ElsewhereOne(input, cs, c, k, elsewhere);
    hosts := hosts[k := (if k in hosts then hosts[k] else []) + [host]];
    if host in g.dnsElsewhere {
      elsewhere := elsewhere[k := SkipAt(elsewhere, k) + {host}];
    }
    ok, why := true, NoZone;
  }

  method GatherGroup(input: Input, e: Exposure, g: Group, ghost before: seq<Claim>,
      hosts0: map<Key, seq<string>>, elsewhere0: map<Key, set<string>>)
    returns (ok: bool, why: Refusal, hosts: map<Key, seq<string>>, elsewhere: map<Key, set<string>>)
    requires Gathered(input, before, hosts0, elsewhere0)
    ensures ok <==> GroupOk(input, e, g)
    ensures !ok ==> exists h :: h in g.hosts && HostCause(input, e, h, why)
    ensures ok ==> Gathered(input, before + GroupClaims(e, g), hosts, elsewhere)
  {
    hide Gathered, Placed, ClaimOf, HostCause;
    hosts, elsewhere, why, ok := hosts0, elsewhere0, NoZone, true;
    ghost var cs := GroupClaims(e, g);
    assert before + cs[..0] == before;
    for i := 0 to |g.hosts|
      invariant ok
      invariant forall j :: 0 <= j < i ==> Placed(input, ClaimOf(e, g, g.hosts[j]))
      invariant Gathered(input, before + cs[..i], hosts, elsewhere)
    {
      assert before + cs[..i + 1] == before + cs[..i] + [ClaimOf(e, g, g.hosts[i])];
      ok, why, hosts, elsewhere := GatherHost(input, e, g, g.hosts[i], before + cs[..i], hosts, elsewhere);
      if !ok {
        assert g.hosts[i] in g.hosts;
        return;
      }
    }
    assert cs[..|g.hosts|] == cs;
  }

  method CheckAccounts(input: Input, e: Exposure) returns (ok: bool, why: Refusal)
    ensures ok <==> AccountsOk(input, e)
    ensures !ok ==> ExposureCause(input, e, why)
  {
    if |e.accounts| == 0 {
      return false, NoAccounts;
    }
    for i := 0 to |e.accounts|
      invariant forall j :: 0 <= j < i ==> e.accounts[j] in input.legacyNames
    {
      if e.accounts[i] !in input.legacyNames {
        return false, UnknownAccount;
      }
    }
    return true, UnknownAccount;
  }

  method GatherExposure(input: Input, e: Exposure, ghost before: seq<Claim>,
      hosts0: map<Key, seq<string>>, elsewhere0: map<Key, set<string>>)
    returns (ok: bool, why: Refusal, hosts: map<Key, seq<string>>, elsewhere: map<Key, set<string>>)
    requires Gathered(input, before, hosts0, elsewhere0)
    ensures ok <==> ExposureOk(input, e)
    ensures !ok ==> ExposureCause(input, e, why)
    ensures ok ==> Gathered(input, ExposureClaims(before, e, |e.groups|), hosts, elsewhere)
  {
    hosts, elsewhere := hosts0, elsewhere0;
    ok, why := CheckAccounts(input, e);
    if !ok {
      return;
    }
    ghost var so := before;
    for j := 0 to |e.groups|
      invariant forall k :: 0 <= k < j ==> GroupOk(input, e, e.groups[k])
      invariant so == ExposureClaims(before, e, j)
      invariant Gathered(input, so, hosts, elsewhere)
    {
      ok, why, hosts, elsewhere := GatherGroup(input, e, e.groups[j], so, hosts, elsewhere);
      if !ok {
        assert e.groups[j] in e.groups;
        return;
      }
      so := so + GroupClaims(e, e.groups[j]);
    }
    ok := true;
  }

  // ---------------------------------------------------------------------------
  // The tunnels
  // ---------------------------------------------------------------------------

  /** A base name alone for an account with legacy names, else with the account after a dash. */
  function Suffixed(base: string, account: string, legacy: bool): string {
    if legacy then base else base + "-" + account
  }

  function TunnelName(cluster: string, account: string, legacy: bool): string {
    Suffixed(cluster, account, legacy)
  }

  function Keep(hosts: seq<string>, wanted: set<string>): seq<string> {
    if hosts == [] then []
    else Keep(hosts[..|hosts| - 1], wanted) + (if hosts[|hosts| - 1] in wanted then [hosts[|hosts| - 1]] else [])
  }

  /** The one tunnel of a key. */
  ghost function TunnelFor(input: Input, k: Key): Tunnel {
    var hosts := HostOrder.Ordered(HostsOf(input, Claims(input), k));
    Tunnel(
      TunnelName(k.cluster, k.account, k.account in input.legacyNames && input.legacyNames[k.account]),
      k.cluster, k.account,
      if hosts == [] then "" else ZoneOf(ZoneNames(input), hosts[0]),
      Sorting.SortedKeys(ZonesOf(ZoneNames(input), hosts)),
      hosts,
      Keep(hosts, ElsewhereOf(input, Claims(input), k)))
  }

  predicate TunnelLeq(a: Tunnel, b: Tunnel) {
    var d := Compare(a.cluster, b.cluster);
    if d != 0 then d < 0 else Compare(a.account, b.account) <= 0
  }

  lemma TunnelLeqTotal()
    ensures Sorting.TotalPreorder(TunnelLeq)
    ensures forall a, b :: Sorting.Tied(TunnelLeq, a, b) <==> a.cluster == b.cluster && a.account == b.account
  {
    forall a: Tunnel, b: Tunnel ensures TunnelLeq(a, b) || TunnelLeq(b, a)
      ensures Sorting.Tied(TunnelLeq, a, b) <==> a.cluster == b.cluster && a.account == b.account
    {
      CompareFlip(a.cluster, b.cluster);
      CompareFlip(a.account, b.account);
      CompareZero(a.cluster, b.cluster);
      CompareZero(a.account, b.account);
    }
    forall a, b, c | TunnelLeq(a, b) && TunnelLeq(b, c) ensures TunnelLeq(a, c) {
      CompareZero(a.cluster, b.cluster);
      CompareZero(b.cluster, c.cluster);
      CompareTransitive(a.cluster, b.cluster, c.cluster);
      if a.cluster == b.cluster == c.cluster {
        CompareTransitive(a.account, b.account, c.account);
      }
    }
  }

  method SortTunnels(list: seq<Tunnel>) returns (out: seq<Tunnel>)
    ensures out == Sorting.Sort(TunnelLeq, list)
  {
    var a := new Tunnel[|list|](i requires 0 <= i < |list| => list[i]);
    assert a[..] == list;
    Sorting.SortInPlace(TunnelLeq, a);
    out := a[..];
  }

  function TunnelKey(t: Tunnel): Key {
    Key(t.cluster, t.account)
  }

  /** One tunnel for every key that has a host, each the tunnel of its key, sorted by cluster then account. */
  ghost predicate DerivedTunnels(input: Input, tunnels: seq<Tunnel>) {
    && (forall t :: t in tunnels ==> t == TunnelFor(input, TunnelKey(t)) && t.hosts != [])
    && (forall k :: HostsOf(input, Claims(input), k) != [] ==> TunnelFor(input, k) in tunnels)
    && (forall i, j :: 0 <= i < j < |tunnels| ==> TunnelKey(tunnels[i]) != TunnelKey(tunnels[j]))
    && Sorting.Sorted(TunnelLeq, tunnels)
  }

  function ZonesOf(zones: seq<string>, hosts: seq<string>): set<string> {
    set h | h in hosts :: ZoneOf(zones, h)
  }

  method CollectZones(zones: seq<string>, hosts: seq<string>) returns (out: set<string>)
    ensures out == ZonesOf(zones, hosts)
  {
    out := {};
    for i := 0 to |hosts|
      invariant out == ZonesOf(zones, hosts[..i])
    {
      var zone := FindZone(zones, hosts[i]);
      assert hosts[..i + 1] == hosts[..i] + [hosts[i]];
      assert ZonesOf(zones, hosts[..i + 1]) == ZonesOf(zones, hosts[..i]) + {zone};
      out := out + {zone};
    }
    assert hosts[..|hosts|] == hosts;
  }

  method CollectSkipped(hosts: seq<string>, skip: set<string>) returns (out: seq<string>)
    ensures out == Keep(hosts, skip)
  {
    out := [];
    for i := 0 to |hosts|
      invariant out == Keep(hosts[..i], skip)
    {
      assert hosts[..i + 1][..i] == hosts[..i];
      if hosts[i] in skip {
        out := out + [hosts[i]];
      }
    }
    assert hosts[..|hosts|] == hosts;
  }

  method BuildTunnel(input: Input, k: Key, list: seq<string>, ghost all: seq<Claim>, skip: set<string>)
    returns (t: Tunnel)
    requires all == Claims(input) && list == HostsOf(input, all, k) && skip == ElsewhereOf(input, all, k)
    requires list != []
    ensures t == TunnelFor(input, k)
  {
    var zones := Sorting.CollectKeys(input.zones.Keys);
    var ordered := HostOrder.OrderHosts(list);
    assert ordered != [] by { assert |multiset(ordered)| == |multiset(list)|; }
    var inZone := CollectZones(zones, ordered);
    var skipped := CollectSkipped(ordered, skip);
    var first := FindZone(zones, ordered[0]);
    var sorted := Sorting.CollectKeys(inZone);
    var legacy := k.account in input.legacyNames && input.legacyNames[k.account];
    t := Tunnel(TunnelName(k.cluster, k.account, legacy), k.cluster, k.account, first, sorted, ordered, skipped);
  }

  ghost predicate Built(input: Input, keys: seq<Key>, list: seq<Tunnel>) {
    && |keys| == |list| && Sorting.Distinct(keys)
    && forall i :: 0 <= i < |keys| ==> list[i] == TunnelFor(input, keys[i])
  }

  lemma BuiltStep(input: Input, keys: seq<Key>, list: seq<Tunnel>, k: Key)
    requires Built(input, keys, list) && k !in keys
    ensures Built(input, keys + [k], list + [TunnelFor(input, k)])
  {
    hide TunnelFor;
    forall i | 0 <= i < |keys| ensures keys[i] != k {
      assert keys[i] in keys;
    }
  }

  method BuildTunnels(input: Input, hosts: map<Key, seq<string>>, elsewhere: map<Key, set<string>>)
    returns (tunnels: seq<Tunnel>)
    requires Gathered(input, Claims(input), hosts, elsewhere)
    ensures DerivedTunnels(input, tunnels)
  {
    var rest, list := hosts.Keys, [];
    ghost var keys: seq<Key> := [];
    while rest != {}
      invariant rest <= hosts.Keys
      invariant Built(input, keys, list)
      invariant forall k :: k in keys <==> k in hosts.Keys - rest
      decreases rest
    {
      var k :| k in rest;
      var t := BuildTunnel(input, k, hosts[k], Claims(input), SkipAt(elsewhere, k));
      BuiltStep(input, keys, list, k);
      list, keys := list + [t], keys + [k];
      rest := rest - {k};
    }
    tunnels := SortTunnels(list);
    SortedTunnels(input, keys, list);
  }

  lemma SortedTunnels(input: Input, keys: seq<Key>, list: seq<Tunnel>)
    requires forall k :: k in keys <==> HostsOf(input, Claims(input), k) != []
    requires Built(input, keys, list)
    ensures DerivedTunnels(input, Sorting.Sort(TunnelLeq, list))
  {
    var tunnels := Sorting.Sort(TunnelLeq, list);
    TunnelLeqTotal();
    Sorting.SortSorted(TunnelLeq, list);
    Sorting.SortMembers(TunnelLeq, list);
    Sorting.SortPermutes(TunnelLeq, list);
    forall i: nat, j: nat | i < j < |tunnels| ensures TunnelKey(tunnels[i]) != TunnelKey(tunnels[j]) {
      var c, d := Sorting.PlacesInPermutation(list, tunnels, i, j);
      assert TunnelKey(list[c]) == keys[c] && TunnelKey(list[d]) == keys[d];
    }
    forall t | t in tunnels ensures t == TunnelFor(input, TunnelKey(t)) && t.hosts != [] {
      var i :| 0 <= i < |list| && list[i] == t;
      assert keys[i] in keys;
      Sorting.SortPermutes(HostOrder.HostLeq, HostsOf(input, Claims(input), keys[i]));
    }
    forall k | HostsOf(input, Claims(input), k) != [] ensures TunnelFor(input, k) in tunnels {
      var i :| 0 <= i < |keys| && keys[i] == k;
      assert list[i] in list;
    }
  }

  // ---------------------------------------------------------------------------
  // The managed WAF
  // ---------------------------------------------------------------------------

  /** The exact hosts claimed in a zone and not opted out. */
  ghost function WafSet(input: Input, cs: seq<Claim>, zone: string): set<string> {
    set c | c in cs && !c.wafOff && ZoneOf(ZoneNames(input), c.host) == zone :: c.host
  }

  /** The same hosts in the order they are claimed, as often as they are. */
  ghost function WafHosts(input: Input, cs: seq<Claim>, zone: string): seq<string> {
    if cs == [] then []
    else
      var front, c := WafHosts(input, cs[..|cs| - 1], zone), cs[|cs| - 1];
      if !c.wafOff && ZoneOf(ZoneNames(input), c.host) == zone then front + [c.host] else front
  }

  lemma {:induction false} WafHostsAre(input: Input, cs: seq<Claim>, zone: string)
    ensures AsSet(WafHosts(input, cs, zone)) == WafSet(input, cs, zone)
  {
    if cs != [] {
      var front, c := cs[..|cs| - 1], cs[|cs| - 1];
      WafHostsAre(input, front, zone);
      hide ZoneOf, ZoneNames;
      assert cs == front + [c];
      assert forall h, hs: seq<string> :: AsSet(hs + [h]) == AsSet(hs) + {h};
    }
  }

  ghost predicate WafGathered(input: Input, cs: seq<Claim>, byZone: map<string, seq<string>>) {
    forall z :: z in input.wafZones && z != "" ==> ListAt(byZone, z) == WafHosts(input, cs, z)
  }

  lemma WafStep(input: Input, cs: seq<Claim>, c: Claim, z: string)
    ensures WafHosts(input, cs + [c], z) ==
      WafHosts(input, cs, z) + (if !c.wafOff && ZoneOf(ZoneNames(input), c.host) == z then [c.host] else [])
  {
    assert (cs + [c])[..|cs|] == cs;
  }

  lemma WafOne(input: Input, cs: seq<Claim>, c: Claim, zone: string, byZone: map<string, seq<string>>)
    requires WafGathered(input, cs, byZone) && zone == ZoneOf(ZoneNames(input), c.host)
    ensures zone == "" || zone !in input.wafZones || c.wafOff ==> WafGathered(input, cs + [c], byZone)
    ensures !c.wafOff ==> WafGathered(input, cs + [c], byZone[zone := ListAt(byZone, zone) + [c.host]])
  {
    hide WafHosts;
    forall z { WafStep(input, cs, c, z); }
  }

  method WafHost(input: Input, e: Exposure, g: Group, host: string, ghost cs: seq<Claim>,
      byZone0: map<string, seq<string>>)
    returns (ok: bool, byZone: map<string, seq<string>>)
    requires WafGathered(input, cs, byZone0)
    ensures ok <==> !WafRefused(input, ClaimOf(e, g, host))
    ensures ok ==> WafGathered(input, cs + [ClaimOf(e, g, host)], byZone)
  {
    byZone := byZone0;
    var zones := Sorting.CollectKeys(input.zones.Keys);
    var zone := FindZone(zones, host);
    WafOne(input, cs, ClaimOf(e, g, host), zone, byZone);
    if zone == "" || zone !in input.wafZones || host in g.wafOff {
      return true, byZone;
    }
    if HostOrder.IsWildcard(host) {
      return false, byZone;
    }
    return true, byZone[zone := ListAt(byZone, zone) + [host]];
  }

  method WafGroup(input: Input, e: Exposure, g: Group, ghost before: seq<Claim>, byZone0: map<string, seq<string>>)
    returns (ok: bool, byZone: map<string, seq<string>>)
    requires WafGathered(input, before, byZone0)
    ensures ok <==> forall c :: c in GroupClaims(e, g) ==> !WafRefused(input, c)
    ensures ok ==> WafGathered(input, before + GroupClaims(e, g), byZone)
  {
    hide WafGathered, WafRefused, ClaimOf;
    byZone, ok := byZone0, true;
    ghost var cs, so := GroupClaims(e, g), before;
    for i := 0 to |g.hosts|
      invariant ok && forall j :: 0 <= j < i ==> !WafRefused(input, cs[j])
      invariant so == before + cs[..i]
      invariant WafGathered(input, so, byZone)
    {
      ok, byZone := WafHost(input, e, g, g.hosts[i], so, byZone);
      if !ok {
        assert cs[i] in cs;
        return;
      }
      so := so + [cs[i]];
    }
    assert cs[..|g.hosts|] == cs;
  }

  method WafExposure(input: Input, e: Exposure, ghost before: seq<Claim>, byZone0: map<string, seq<string>>)
    returns (ok: bool, byZone: map<string, seq<string>>)
    requires WafGathered(input, before, byZone0) && forall c :: c in before ==> !WafRefused(input, c)
    ensures ok <==> forall c :: c in ExposureClaims(before, e, |e.groups|) ==> !WafRefused(input, c)
    ensures ok ==> WafGathered(input, ExposureClaims(before, e, |e.groups|), byZone)
  {
    ok, byZone := true, byZone0;
    ghost var so := before;
    for j := 0 to |e.groups|
      invariant ok && forall c :: c in so ==> !WafRefused(input, c)
      invariant so == ExposureClaims(before, e, j)
      invariant WafGathered(input, so, byZone)
    {
      ok, byZone := WafGroup(input, e, e.groups[j], so, byZone);
      if !ok {
        ExposureClaimsGrow(before, e, j + 1, |e.groups|);
        return;
      }
      so := so + GroupClaims(e, e.groups[j]);
    }
  }

  method WafAll(input: Input) returns (ok: bool, byZone: map<string, seq<string>>)
    ensures ok <==> forall c :: c in Claims(input) ==> !WafRefused(input, c)
    ensures ok ==> WafGathered(input, Claims(input), byZone)
  {
    byZone, ok := map[], true;
    ghost var es := input.exposures;
    hide WafRefused;
    for i := 0 to |input.exposures|
      invariant ok && forall c :: c in AllClaims(es, i) ==> !WafRefused(input, c)
      invariant WafGathered(input, AllClaims(es, i), byZone)
    {
      hide WafGathered;
      ok, byZone := WafExposure(input, input.exposures[i], AllClaims(es, i), byZone);
      if !ok {
        AllClaimsGrow(es, i + 1, |es|);
        return;
      }
    }
  }

  /** Each WAF zone's list as its last pass reads it off. */
  method DeriveWaf(input: Input) returns (ok: bool, out: map<string, seq<string>>)
    ensures ok <==> forall c :: c in Claims(input) ==> !WafRefused(input, c)
    ensures ok ==> out.Keys == AsSet(input.wafZones)
    ensures ok ==> forall z :: z in out && z != "" ==>
      multiset(input.wafZones)[z] > 0
      && out[z] == ListAfter(WafHosts(input, Claims(input), z), multiset(input.wafZones)[z])
  {
    hide Claims, WafHosts, WafRefused, ListAfter;
    var byZone;
    out := map[];
    ok, byZone := WafAll(input);
    if ok {
      out := SortLists(input.wafZones, byZone);
    }
  }

  /**
   The list of a WAF zone is the sorted set of its hosts exactly when the zone is listed once or no host of it is
   claimed twice.
   */
  lemma WafListIff(input: Input, zone: string)
    requires zone in input.wafZones && zone != ""
    ensures multiset(input.wafZones)[zone] > 0
    ensures ListAfter(WafHosts(input, Claims(input), zone), multiset(input.wafZones)[zone])
            == Sorting.SortedKeys(WafSet(input, Claims(input), zone))
       <==> multiset(input.wafZones)[zone] == 1 || Sorting.Distinct(WafHosts(input, Claims(input), zone))
  {
    WafHostsAre(input, Claims(input), zone);
    forall h | h in WafHosts(input, Claims(input), zone) ensures h != "" {
      assert h in WafSet(input, Claims(input), zone);
      HostNotEmpty(input, h);
    }
    hide *;
    ListRightIff(WafHosts(input, Claims(input), zone), multiset(input.wafZones)[zone]);
  }

  /** The empty name lies in no zone. */
  lemma HostNotEmpty(input: Input, host: string)
    ensures host == "" ==> ZoneOf(ZoneNames(input), host) == ""
  {
    if host == "" {
      ZoneOfListed(ZoneNames(input), host);
    }
  }

  lemma {:induction false} ExposureClaimsGrow(before: seq<Claim>, e: Exposure, m: nat, n: nat)
    requires m <= n <= |e.groups|
    ensures forall c :: c in ExposureClaims(before, e, m) ==> c in ExposureClaims(before, e, n)
  {
    if m < n {
      ExposureClaimsGrow(before, e, m, n - 1);
    }
  }

  lemma {:induction false} AllClaimsGrow(es: seq<Exposure>, m: nat, n: nat)
    requires m <= n <= |es|
    ensures forall c :: c in AllClaims(es, m) ==> c in AllClaims(es, n)
  {
    if m < n {
      AllClaimsGrow(es, m, n - 1);
      ExposureClaimsGrow(AllClaims(es, n - 1), es[n - 1], 0, |es[n - 1].groups|);
    }
  }

  // ---------------------------------------------------------------------------
  // Cache hosts
  // ---------------------------------------------------------------------------

  /** Every namespace the group admits routes from is a business project. */
  predicate BusinessGroup(namespaces: seq<string>, business: set<string>) {
    namespaces != [] && forall i :: 0 <= i < |namespaces| ==> namespaces[i] in business
  }

  predicate Cached(input: Input, c: Claim) {
    BusinessGroup(c.namespaces, input.business) && !HostOrder.IsWildcard(c.host)
  }

  /** The exact hosts that business groups claim in a zone. */
  ghost function CacheSet(input: Input, cs: seq<Claim>, zone: string): set<string> {
    set c | c in cs && Cached(input, c) && ZoneOf(ZoneNames(input), c.host) == zone :: c.host
  }

  /** The same hosts in the order they are claimed, as often as they are. */
  ghost function CacheHosts(input: Input, cs: seq<Claim>, zone: string): seq<string> {
    if cs == [] then []
    else
      var front, c := CacheHosts(input, cs[..|cs| - 1], zone), cs[|cs| - 1];
      if Cached(input, c) && ZoneOf(ZoneNames(input), c.host) == zone then front + [c.host] else front
  }

  lemma {:induction false} CacheHostsAre(input: Input, cs: seq<Claim>, zone: string)
    ensures AsSet(CacheHosts(input, cs, zone)) == CacheSet(input, cs, zone)
  {
    if cs != [] {
      var front, c := cs[..|cs| - 1], cs[|cs| - 1];
      CacheHostsAre(input, front, zone);
      hide ZoneOf, ZoneNames, Cached;
      assert cs == front + [c];
      assert forall h, hs: seq<string> :: AsSet(hs + [h]) == AsSet(hs) + {h};
    }
  }

  ghost predicate CacheGathered(input: Input, cs: seq<Claim>, byZone: map<string, seq<string>>) {
    forall z :: z != "" ==> ListAt(byZone, z) == CacheHosts(input, cs, z)
  }

  lemma CacheStep(input: Input, cs: seq<Claim>, c: Claim, z: string)
    ensures CacheHosts(input, cs + [c], z) ==
      CacheHosts(input, cs, z) + (if Cached(input, c) && ZoneOf(ZoneNames(input), c.host) == z then [c.host] else [])
  {
    hide Cached;
    assert (cs + [c])[..|cs|] == cs;
  }

  lemma CacheOne(input: Input, cs: seq<Claim>, c: Claim, zone: string, byZone: map<string, seq<string>>)
    requires CacheGathered(input, cs, byZone) && zone == ZoneOf(ZoneNames(input), c.host)
    ensures zone == "" || !Cached(input, c) ==> CacheGathered(input, cs + [c], byZone)
    ensures Cached(input, c) ==> CacheGathered(input, cs + [c], byZone[zone := ListAt(byZone, zone) + [c.host]])
  {
    hide Cached, CacheHosts;
    forall z { CacheStep(input, cs, c, z); }
  }

  method CacheHost(input: Input, e: Exposure, g: Group, host: string, business: bool, ghost cs: seq<Claim>,
      byZone0: map<string, seq<string>>)
    returns (byZone: map<string, seq<string>>)
    requires CacheGathered(input, cs, byZone0) && business == BusinessGroup(g.namespaces, input.business)
    ensures CacheGathered(input, cs + [ClaimOf(e, g, host)], byZone)
  {
    hide CacheGathered, BusinessGroup;
    byZone := byZone0;
    var zones := Sorting.CollectKeys(input.zones.Keys);
    var zone := FindZone(zones, host);
    CacheOne(input, cs, ClaimOf(e, g, host), zone, byZone);
    if business && !HostOrder.IsWildcard(host) && zone != "" {
      byZone := byZone[zone := ListAt(byZone, zone) + [host]];
    }
  }

  method CacheGroup(input: Input, e: Exposure, g: Group, ghost before: seq<Claim>, byZone0: map<string, seq<string>>)
    returns (byZone: map<string, seq<string>>)
    requires CacheGathered(input, before, byZone0)
    ensures CacheGathered(input, before + GroupClaims(e, g), byZone)
  {
    hide CacheGathered, ClaimOf, BusinessGroup;
    byZone := byZone0;
    var business := BusinessGroup(g.namespaces, input.business);
    ghost var cs, so := GroupClaims(e, g), before;
    for i := 0 to |g.hosts|
      invariant so == before + cs[..i]
      invariant CacheGathered(input, so, byZone)
    {
      byZone := CacheHost(input, e, g, g.hosts[i], business, so, byZone);
      so := so + [cs[i]];
    }
    assert cs[..|g.hosts|] == cs;
  }

  method CacheExposure(input: Input, e: Exposure, ghost before: seq<Claim>, byZone0: map<string, seq<string>>)
    returns (byZone: map<string, seq<string>>)
    requires CacheGathered(input, before, byZone0)
    ensures CacheGathered(input, ExposureClaims(before, e, |e.groups|), byZone)
  {
    byZone := byZone0;
    for j := 0 to |e.groups|
      invariant CacheGathered(input, ExposureClaims(before, e, j), byZone)
    {
      byZone := CacheGroup(input, e, e.groups[j], ExposureClaims(before, e, j), byZone);
    }
  }

  /** Each cache zone's list as its last pass reads it off. */
  method DeriveCache(input: Input) returns (out: map<string, seq<string>>)
    ensures out.Keys == AsSet(input.cacheZones)
    ensures forall z :: z in out && z != "" ==>
      multiset(input.cacheZones)[z] > 0
      && out[z] == ListAfter(CacheHosts(input, Claims(input), z), multiset(input.cacheZones)[z])
  {
    out := map[];
    if |input.cacheZones| == 0 {
      return;
    }
    var byZone: map<string, seq<string>> := map[];
    ghost var so: seq<Claim> := [];
    for i := 0 to |input.exposures|
      invariant so == AllClaims(input.exposures, i)
      invariant CacheGathered(input, so, byZone)
    {
      byZone := CacheExposure(input, input.exposures[i], so, byZone);
      so := ExposureClaims(so, input.exposures[i], |input.exposures[i].groups|);
    }
    hide AllClaims, CacheHosts, ListAfter;
    out := SortLists(input.cacheZones, byZone);
  }

  /**
   The list of a cache zone is the sorted set of its hosts exactly when the zone is listed once or no host of it is
   claimed twice by business groups.
   */
  lemma CacheListIff(input: Input, zone: string)
    requires zone in input.cacheZones && zone != ""
    ensures multiset(input.cacheZones)[zone] > 0
    ensures ListAfter(CacheHosts(input, Claims(input), zone), multiset(input.cacheZones)[zone])
            == Sorting.SortedKeys(CacheSet(input, Claims(input), zone))
       <==> multiset(input.cacheZones)[zone] == 1 || Sorting.Distinct(CacheHosts(input, Claims(input), zone))
  {
    CacheHostsAre(input, Claims(input), zone);
    forall h | h in CacheHosts(input, Claims(input), zone) ensures h != "" {
      assert h in CacheSet(input, Claims(input), zone);
      HostNotEmpty(input, h);
    }
    hide *;
    ListRightIff(CacheHosts(input, Claims(input), zone), multiset(input.cacheZones)[zone]);
  }

  // ---------------------------------------------------------------------------
  // Derive
  // ---------------------------------------------------------------------------

  datatype Derived = Derived(
    tunnels: seq<Tunnel>, cacheHosts: map<string, seq<string>>, wafHosts: map<string, seq<string>>)

  method GatherAll(input: Input)
    returns (ok: bool, why: Refusal, hosts: map<Key, seq<string>>, elsewhere: map<Key, set<string>>)
    ensures ok <==> forall e :: e in input.exposures ==> ExposureOk(input, e)
    ensures !ok ==> exists e :: e in input.exposures && ExposureCause(input, e, why)
    ensures ok ==> Gathered(input, Claims(input), hosts, elsewhere)
  {
    hosts, elsewhere, ok, why := map[], map[], true, NoAccounts;
    ghost var so: seq<Claim> := [];
    for i := 0 to |input.exposures|
      invariant ok && forall j :: 0 <= j < i ==> ExposureOk(input, input.exposures[j])
      invariant so == AllClaims(input.exposures, i)
      invariant Gathered(input, so, hosts, elsewhere)
    {
      var e := input.exposures[i];
      ok, why, hosts, elsewhere := GatherExposure(input, e, so, hosts, elsewhere);
      if !ok {
        assert e in input.exposures;
        return;
      }
      so := ExposureClaims(so, e, |e.groups|);
    }
  }

  /** Every listed zone with its hosts, as the last of its passes reads them off. */
  ghost predicate ListsDerived(input: Input, cache: map<string, seq<string>>, waf: map<string, seq<string>>) {
    && cache.Keys == AsSet(input.cacheZones) && waf.Keys == AsSet(input.wafZones)
    && (forall z :: z in cache && z != "" ==>
          multiset(input.cacheZones)[z] > 0
          && cache[z] == ListAfter(CacheHosts(input, Claims(input), z), multiset(input.cacheZones)[z]))
    && forall z :: z in waf && z != "" ==>
         multiset(input.wafZones)[z] > 0
         && waf[z] == ListAfter(WafHosts(input, Claims(input), z), multiset(input.wafZones)[z])
  }

  /** With every zone listed once, each list is the sorted set of its zone's hosts. */
  lemma ListsAreSets(input: Input, cache: map<string, seq<string>>, waf: map<string, seq<string>>)
    requires ListsDerived(input, cache, waf)
    requires Sorting.Distinct(input.cacheZones) && Sorting.Distinct(input.wafZones)
    ensures forall z :: z in cache && z != "" ==> cache[z] == Sorting.SortedKeys(CacheSet(input, Claims(input), z))
    ensures forall z :: z in waf && z != "" ==> waf[z] == Sorting.SortedKeys(WafSet(input, Claims(input), z))
  {
    Sorting.DistinctMultiset(input.cacheZones);
    Sorting.DistinctMultiset(input.wafZones);
    hide Claims, CacheHosts, WafHosts, CacheSet, WafSet, ListAfter, Sorting.Distinct;
    forall z | z in cache && z != "" ensures cache[z] == Sorting.SortedKeys(CacheSet(input, Claims(input), z)) {
      CacheListIff(input, z);
    }
    forall z | z in waf && z != "" ensures waf[z] == Sorting.SortedKeys(WafSet(input, Claims(input), z)) {
      WafListIff(input, z);
    }
  }

  /** Why the input is refused. */
  ghost predicate Caused(input: Input, why: Refusal) {
    if why.ProxiedWildcard? then exists c :: c in Claims(input) && WafRefused(input, c)
    else exists e :: e in input.exposures && ExposureCause(input, e, why)
  }

  /** Derive succeeds exactly on the accepted inputs, with the derived tunnels, cache hosts and WAF hosts. */
  method Derive(input: Input) returns (r: Result<Derived, Refusal>)
    ensures r.Ok? <==> Accepted(input)
    ensures r.Err? ==> Caused(input, r.error)
    ensures r.Ok? ==> DerivedTunnels(input, r.value.tunnels)
    ensures r.Ok? ==> ListsDerived(input, r.value.cacheHosts, r.value.wafHosts)
  {
    var ok, why, hosts, elsewhere := GatherAll(input);
    if !ok {
      return Err(why);
    }
    var covered, waf := DeriveWaf(input);
    if !covered {
      return Err(ProxiedWildcard);
    }
    var cache := DeriveCache(input);
    var tunnels := BuildTunnels(input, hosts, elsewhere);
    r := Ok(Derived(tunnels, cache, waf));
  }
}
