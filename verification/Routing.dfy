/**
 The ingress invariants: `ValidateRouting` (cloudflare/edgespec/derive.go) over all tunnels and
 `validateIngressOrder` (cloudflare/tunnel/tunnel.go) within one.
 */
module Routing {
  import opened Text
  import opened Derivation
  import opened DerivedTunnelFacts
  import HostOrder
  import Sorting

  function LowerAll(hosts: seq<string>): (low: seq<string>)
    ensures |low| == |hosts|
    ensures forall i :: 0 <= i < |hosts| ==> low[i] == ToLower(hosts[i])
  {
    seq(|hosts|, i requires 0 <= i < |hosts| => ToLower(hosts[i]))
  }

  function LowerHosts(t: Tunnel): set<string> {
    AsSet(LowerAll(t.hosts))
  }

  ghost predicate NoShadow(rules: seq<string>) {
    forall j :: 0 <= j < |rules| ==> !HostOrder.Shadowed(rules, j)
  }

  /** No hostname twice anywhere, case aside, and no rule caught by an earlier rule of its tunnel. */
  ghost predicate RoutingOk(tunnels: seq<Tunnel>) {
    && (forall t :: t in tunnels ==> Sorting.Distinct(LowerAll(t.hosts)) && NoShadow(LowerAll(t.hosts)))
    && (forall a, b :: 0 <= a < b < |tunnels| ==> LowerHosts(tunnels[a]) !! LowerHosts(tunnels[b]))
  }

  lemma RoutingOkOrder(tunnels: seq<Tunnel>, others: seq<Tunnel>)
    requires multiset(tunnels) == multiset(others) && RoutingOk(tunnels)
    ensures RoutingOk(others)
  {
    forall t | t in others ensures t in tunnels {
      assert t in multiset(others);
    }
    forall a: nat, b: nat | a < b < |others| ensures LowerHosts(others[a]) !! LowerHosts(others[b]) {
      var c, d := Sorting.PlacesInPermutation(tunnels, others, a, b);
      assert LowerHosts(tunnels[if c < d then c else d]) !! LowerHosts(tunnels[if c < d then d else c]);
    }
  }

  method CaughtEarlier(rules: seq<string>, i: nat) returns (caught: bool)
    requires i < |rules|
    ensures caught <==> HostOrder.Shadowed(rules, i)
  {
    for j := 0 to i
      invariant forall k :: 0 <= k < j ==> !HostOrder.Covers(rules[k], rules[i])
    {
      if HostOrder.Covers(rules[j], rules[i]) {
        return true;
      }
    }
    caught := false;
  }

  method CheckTunnel(t: Tunnel, seen0: set<string>) returns (ok: bool, seen: set<string>)
    ensures ok <==> Sorting.Distinct(LowerAll(t.hosts)) && NoShadow(LowerAll(t.hosts)) && LowerHosts(t) !! seen0
    ensures ok ==> seen == seen0 + LowerHosts(t)
  {
    seen := seen0;
    var low := LowerAll(t.hosts);
    for i := 0 to |low|
      invariant seen == seen0 + AsSet(low[..i])
      invariant AsSet(low[..i]) !! seen0
      invariant Sorting.Distinct(low[..i])
      invariant forall j :: 0 <= j < i ==> !HostOrder.Shadowed(low, j)
    {
      assert low[..i + 1] == low[..i] + [low[i]];
      if low[i] in seen {
        assert low[i] in LowerHosts(t);
        return false, seen;
      }
      seen := seen + {low[i]};
      var caught := CaughtEarlier(low, i);
      if caught {
        return false, seen;
      }
    }
    assert low[..|low|] == low;
    ok := true;
  }

  /** The tunnels so far are sound, and the names seen are theirs. */
  ghost predicate RoutedSoFar(tunnels: seq<Tunnel>, seen: set<string>) {
    RoutingOk(tunnels) && forall x :: x in seen <==> exists k :: 0 <= k < |tunnels| && x in LowerHosts(tunnels[k])
  }

  lemma RoutedStep(tunnels: seq<Tunnel>, seen: set<string>, t: Tunnel)
    requires RoutedSoFar(tunnels, seen)
    ensures RoutingOk(tunnels + [t])
       <==> Sorting.Distinct(LowerAll(t.hosts)) && NoShadow(LowerAll(t.hosts)) && LowerHosts(t) !! seen
    ensures RoutingOk(tunnels + [t]) ==> RoutedSoFar(tunnels + [t], seen + LowerHosts(t))
  {
    hide NoShadow, LowerAll, LowerHosts, Sorting.Distinct;
    var all, n := tunnels + [t], |tunnels|;
    assert all[n] == t && forall i :: 0 <= i < n ==> all[i] == tunnels[i];
    assert t in all && forall u :: u in all <==> u in tunnels || u == t;
    if x :| x in LowerHosts(t) && x in seen {
      var k :| 0 <= k < n && x in LowerHosts(tunnels[k]);
      assert !(LowerHosts(all[k]) !! LowerHosts(all[n]));
    }
  }

  lemma RoutedNone()
    ensures RoutedSoFar([], {})
  {
  }

  lemma RoutingOkPrefix(tunnels: seq<Tunnel>, n: nat)
    requires n <= |tunnels| && RoutingOk(tunnels)
    ensures RoutingOk(tunnels[..n])
  {
    hide NoShadow, LowerAll, LowerHosts, Sorting.Distinct;
  }

  method ValidateRouting(tunnels: seq<Tunnel>) returns (ok: bool)
    ensures ok <==> RoutingOk(tunnels)
  {
    hide *;
    var sorted := SortTunnels(tunnels);
    Sorting.SortPermutes(TunnelLeq, tunnels);
    RoutedNone();
    if RoutingOk(tunnels) {
      RoutingOkOrder(tunnels, sorted);
    }
    var seen: set<string> := {};
    for i := 0 to |sorted|
      invariant RoutedSoFar(sorted[..i], seen)
    {
      assert sorted[..i + 1] == sorted[..i] + [sorted[i]];
      RoutedStep(sorted[..i], seen, sorted[i]);
      var fine: bool;
      fine, seen := CheckTunnel(sorted[i], seen);
      if !fine {
        if RoutingOk(sorted) {
          RoutingOkPrefix(sorted, i + 1);
        }
        return false;
      }
    }
    assert sorted[..|sorted|] == sorted;
    AllRouted(sorted, seen);
    RoutingOkOrder(sorted, tunnels);
    ok := true;
  }

  lemma AllRouted(tunnels: seq<Tunnel>, seen: set<string>)
    requires RoutedSoFar(tunnels, seen)
    ensures RoutingOk(tunnels)
  {
  }

  method ValidateIngressOrder(hosts: seq<string>) returns (ok: bool)
    ensures ok <==> NoShadow(hosts)
  {
    for i := 0 to |hosts|
      invariant forall k, l :: 0 <= k < i && k < l < |hosts| ==> !HostOrder.Covers(hosts[k], hosts[l])
    {
      for j := i + 1 to |hosts|
        invariant forall l :: i < l < j ==> !HostOrder.Covers(hosts[i], hosts[l])
      {
        if HostOrder.Covers(hosts[i], hosts[j]) {
          assert HostOrder.Shadowed(hosts, j);
          return false;
        }
      }
    }
    ok := true;
  }

  // ---------------------------------------------------------------------------
  // Routing of derived tunnels
  // ---------------------------------------------------------------------------

  /** What the catalog's validation leaves to Derive: no host twice on a cluster, lower case, never the bare `*`. */
  ghost predicate CleanClaims(cs: seq<Claim>) {
    && (forall c :: c in cs ==> IsLower(c.host) && c.host != "*")
    && (forall i, j :: 0 <= i < j < |cs| && cs[i].cluster == cs[j].cluster ==> cs[i].host != cs[j].host)
  }

  ghost predicate OnTwoClusters(cs: seq<Claim>, host: string) {
    exists c, d :: c in cs && d in cs && c.host == d.host == host && c.cluster != d.cluster
  }

  lemma DerivedHost(input: Input, tunnels: seq<Tunnel>, t: Tunnel, h: string)
    requires DerivedTunnels(input, tunnels) && t in tunnels && h in t.hosts
    ensures exists c :: c in Claims(input) && c.host == h && c.cluster == t.cluster && OwnedBy(input, h, t.account)
  {
    var k := TunnelKey(t);
    HostOrder.OrderedIs(HostsOf(input, Claims(input), k));
    HostsOfMembers(input, Claims(input), k);
    var c :| c in Claims(input) && c.host == h && KeyOf(input, c) == Some(k);
    OwnerIsKey(input, c, k);
  }

  lemma DerivedHostsDistinct(input: Input, tunnels: seq<Tunnel>, t: Tunnel)
    requires DerivedTunnels(input, tunnels) && t in tunnels && CleanClaims(Claims(input))
    ensures Sorting.Distinct(t.hosts)
  {
    forall i, j | 0 <= i < j < |t.hosts| ensures t.hosts[i] != t.hosts[j] {
      if t.hosts[i] == t.hosts[j] {
        Sorting.RepeatedCount(t.hosts, i, j);
        HostsConserved(input, tunnels, t, t.hosts[i]);
        AtMostOnePlace(Claims(input), t.cluster, t.hosts[i]);
      }
    }
  }

  lemma AtMostOnePlace(cs: seq<Claim>, cluster: string, host: string)
    requires CleanClaims(cs)
    ensures |ClaimPlaces(cs, cluster, host)| <= 1
  {
    var places := ClaimPlaces(cs, cluster, host);
    if i :| i in places {
      assert places == {i};
    }
  }

  /** No derived tunnel holds a repeated or a shadowed rule. */
  lemma DerivedTunnelRoutes(input: Input, tunnels: seq<Tunnel>, t: Tunnel)
    requires DerivedTunnels(input, tunnels) && t in tunnels && CleanClaims(Claims(input))
    ensures Sorting.Distinct(LowerAll(t.hosts)) && NoShadow(LowerAll(t.hosts))
    ensures forall h :: h in t.hosts ==> ToLower(h) == h
  {
    DerivedHostsDistinct(input, tunnels, t);
    forall h | h in t.hosts ensures ToLower(h) == h && h != "*" {
      DerivedHost(input, tunnels, t, h);
    }
    var list := HostsOf(input, Claims(input), TunnelKey(t));
    HostOrder.OrderedIs(list);
    assert LowerAll(t.hosts) == t.hosts;
    forall i, j | 0 <= i < j < |t.hosts| ensures !HostOrder.Covers(t.hosts[i], t.hosts[j]) {
      HostOrder.OrderedNeverShadows(list, i, j);
    }
  }

  /** Routing validation of what Derive returns fails exactly when one hostname is claimed on two clusters. */
  lemma DerivedRouting(input: Input, tunnels: seq<Tunnel>)
    requires Accepted(input) && DerivedTunnels(input, tunnels) && CleanClaims(Claims(input))
    ensures RoutingOk(tunnels) <==> forall h :: !OnTwoClusters(Claims(input), h)
  {
    if forall h :: !OnTwoClusters(Claims(input), h) {
      RoutedIfOneCluster(input, tunnels);
    } else {
      var h :| OnTwoClusters(Claims(input), h);
      if RoutingOk(tunnels) {
        OneClusterIfRouted(input, tunnels, h);
      }
    }
  }

  lemma RoutedIfOneCluster(input: Input, tunnels: seq<Tunnel>)
    requires DerivedTunnels(input, tunnels) && CleanClaims(Claims(input))
    requires forall h :: !OnTwoClusters(Claims(input), h)
    ensures RoutingOk(tunnels)
  {
    forall t | t in tunnels ensures Sorting.Distinct(LowerAll(t.hosts)) && NoShadow(LowerAll(t.hosts)) {
      DerivedTunnelRoutes(input, tunnels, t);
    }
    forall a: nat, b: nat | a < b < |tunnels| ensures LowerHosts(tunnels[a]) !! LowerHosts(tunnels[b]) {
      DerivedTunnelRoutes(input, tunnels, tunnels[a]);
      DerivedTunnelRoutes(input, tunnels, tunnels[b]);
      if x :| x in LowerHosts(tunnels[a]) && x in LowerHosts(tunnels[b]) {
        TwoTunnelsTwoClusters(input, tunnels, a, b, x);
      }
    }
  }

  lemma TwoTunnelsTwoClusters(input: Input, tunnels: seq<Tunnel>, a: nat, b: nat, h: string)
    requires DerivedTunnels(input, tunnels) && a < b < |tunnels| && h in tunnels[a].hosts && h in tunnels[b].hosts
    ensures OnTwoClusters(Claims(input), h)
  {
    DerivedHost(input, tunnels, tunnels[a], h);
    DerivedHost(input, tunnels, tunnels[b], h);
    var c :| c in Claims(input) && c.host == h && c.cluster == tunnels[a].cluster;
    var d :| d in Claims(input) && d.host == h && d.cluster == tunnels[b].cluster;
    OneOwner(input, h, tunnels[a].account, tunnels[b].account);
    assert TunnelKey(tunnels[a]) != TunnelKey(tunnels[b]);
  }

  lemma OneOwner(input: Input, h: string, x: string, y: string)
    requires OwnedBy(input, h, x) && OwnedBy(input, h, y)
    ensures x == y
  {
    OwnerIsKey(input, Claim("", h, [], false, false, []), Key("", x));
    OwnerIsKey(input, Claim("", h, [], false, false, []), Key("", y));
  }

  lemma OneServer(tunnels: seq<Tunnel>, i: nat, j: nat, h: string)
    requires RoutingOk(tunnels) && i < |tunnels| && j < |tunnels|
    requires h in tunnels[i].hosts && h in tunnels[j].hosts
    ensures i == j
  {
    assert ToLower(h) in LowerHosts(tunnels[i]) && ToLower(h) in LowerHosts(tunnels[j]);
  }

  lemma OneClusterFor(input: Input, tunnels: seq<Tunnel>, c: Claim, d: Claim)
    requires Accepted(input) && DerivedTunnels(input, tunnels) && RoutingOk(tunnels)
    requires c in Claims(input) && d in Claims(input) && c.host == d.host
    ensures c.cluster == d.cluster
  {
    ClaimServedOnce(input, tunnels, c);
    ClaimServedOnce(input, tunnels, d);
    var i :| 0 <= i < |tunnels| && ServesClaim(input, tunnels[i], c);
    var j :| 0 <= j < |tunnels| && ServesClaim(input, tunnels[j], d);
    OneServer(tunnels, i, j, c.host);
  }

  lemma OneClusterIfRouted(input: Input, tunnels: seq<Tunnel>, h: string)
    requires Accepted(input) && DerivedTunnels(input, tunnels) && RoutingOk(tunnels)
    ensures !OnTwoClusters(Claims(input), h)
  {
    forall c, d | c in Claims(input) && d in Claims(input) && c.host == d.host == h ensures c.cluster == d.cluster {
      OneClusterFor(input, tunnels, c, d);
    }
  }
}
