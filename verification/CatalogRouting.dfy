/**
 From a validated catalog to routed tunnels: `Config.derive` (cloudflare/config/config.go) hands every
 cloudflare-tunnel exposure to Derive.
 */
module CatalogRouting {
  import opened Text
  import opened CatalogModel
  import D = Derivation
  import Facts = DerivedTunnelFacts
  import HostOrder
  import Routing
  import Sorting

  /** The exposures Derive reads: the cloudflare-tunnel ones, in name order. */
  function TunnelExposures(es: Exposures, names: seq<string>): seq<D.Exposure>
    requires forall n :: n in names ==> n in es
  {
    if names == [] then []
    else
      var last := names[|names| - 1];
      TunnelExposures(es, names[..|names| - 1]) +
      (if es[last].arrival.CloudflareTunnel? then [D.Exposure(last, es[last].accounts, GroupsOf(es[last]))] else [])
  }

  function CatalogExposures(es: Exposures): seq<D.Exposure> {
    TunnelExposures(es, Sorting.SortedKeys(es.Keys))
  }

  lemma TunnelExposuresStep(es: Exposures, names: seq<string>, i: nat)
    requires i < |names| && forall n :: n in names ==> n in es
    ensures names[i] in es
    ensures TunnelExposures(es, names[..i + 1]) == TunnelExposures(es, names[..i]) +
      (var e := es[names[i]];
       if e.arrival.CloudflareTunnel? then [D.Exposure(names[i], e.accounts, GroupsOf(e))] else [])
  {
    assert names[..i + 1][..i] == names[..i];
  }

  method ExposuresNamed(es: Exposures, names: seq<string>) returns (out: seq<D.Exposure>)
    requires forall n :: n in names ==> n in es
    ensures out == TunnelExposures(es, names)
  {
    out := [];
    assert names[..0] == [];
    for i := 0 to |names|
      invariant out == TunnelExposures(es, names[..i])
    {
      TunnelExposuresStep(es, names, i);
      hide *;
      var e := es[names[i]];
      if e.arrival.CloudflareTunnel? {
        var gs := CollectGroups(e);
        out := out + [D.Exposure(names[i], e.accounts, gs)];
      }
    }
    assert names[..|names|] == names;
  }

  lemma {:induction false} ExposureNames(es: Exposures, names: seq<string>)
    requires (forall n :: n in names ==> n in es) && Sorting.Sorted(StringLeq, names) && Sorting.Distinct(names)
    ensures forall x :: x in TunnelExposures(es, names) ==> x.name in names
    ensures forall i, j :: 0 <= i < j < |TunnelExposures(es, names)| ==>
      Compare(TunnelExposures(es, names)[i].name, TunnelExposures(es, names)[j].name) < 0
  {
    if names != [] {
      var front, last := names[..|names| - 1], names[|names| - 1];
      assert names == front + [last];
      ExposureNames(es, front);
      var xs := TunnelExposures(es, front);
      forall i | 0 <= i < |xs| ensures Compare(xs[i].name, last) < 0 {
        assert xs[i] in xs;
        var k :| 0 <= k < |front| && front[k] == xs[i].name;
        assert StringLeq(names[k], names[|names| - 1]);
        CompareZero(xs[i].name, last);
      }
    }
  }

  /** The exposures come by name, each name once. */
  lemma ExposuresInOrder(es: Exposures, i: nat, j: nat)
    requires i < j < |CatalogExposures(es)|
    ensures Compare(CatalogExposures(es)[i].name, CatalogExposures(es)[j].name) < 0
  {
    ExposureNames(es, Sorting.SortedKeys(es.Keys));
  }

  method CollectExposures(es: Exposures) returns (out: seq<D.Exposure>)
    ensures out == CatalogExposures(es)
  {
    var names := Sorting.CollectKeys(es.Keys);
    out := ExposuresNamed(es, names);
  }

  // ---------------------------------------------------------------------------
  // The claims of a valid catalog
  // ---------------------------------------------------------------------------

  function ClaimKeys(cs: seq<D.Claim>): (keys: seq<string>)
    ensures |keys| == |cs|
    ensures forall i :: 0 <= i < |cs| ==> keys[i] == SiteKey(cs[i].cluster, cs[i].host)
  {
    seq(|cs|, i requires 0 <= i < |cs| => SiteKey(cs[i].cluster, cs[i].host))
  }

  lemma {:induction false} ExposureClaimKeys(before: seq<D.Claim>, e: D.Exposure, n: nat)
    requires n <= |e.groups|
    ensures ClaimKeys(D.ExposureClaims(before, e, n)) == GroupKeys(ClaimKeys(before), e.groups[..n])
  {
    if n > 0 {
      ExposureClaimKeys(before, e, n - 1);
      assert e.groups[..n][..n - 1] == e.groups[..n - 1];
      var g := e.groups[n - 1];
      assert ClaimKeys(D.GroupClaims(e, g)) == HostKeys(g);
    }
  }

  lemma {:induction false} AllClaimsPrefix(xs: seq<D.Exposure>, x: D.Exposure, n: nat)
    requires n <= |xs|
    ensures D.AllClaims(xs + [x], n) == D.AllClaims(xs, n)
  {
    if n > 0 {
      AllClaimsPrefix(xs, x, n - 1);
      assert (xs + [x])[n - 1] == xs[n - 1];
    }
  }

  lemma {:induction false} GroupKeysBag(before: seq<string>, gs: seq<D.Group>)
    ensures multiset(GroupKeys(before, gs)) == multiset(before) + multiset(GroupKeys([], gs))
  {
    if gs != [] {
      GroupKeysBag(before, gs[..|gs| - 1]);
    }
  }

  ghost function ClaimBag(xs: seq<D.Exposure>): multiset<string> {
    multiset(ClaimKeys(D.AllClaims(xs, |xs|)))
  }

  lemma ClaimsStep(xs: seq<D.Exposure>, x: D.Exposure)
    ensures ClaimBag(xs + [x]) == ClaimBag(xs) + multiset(GroupKeys([], x.groups))
  {
    var before := D.AllClaims(xs, |xs|);
    AllClaimsPrefix(xs, x, |xs|);
    ExposureClaimKeys(before, x, |x.groups|);
    assert x.groups[..|x.groups|] == x.groups;
    GroupKeysBag(ClaimKeys(before), x.groups);
  }

  /** The sites Derive sees are among the sites the catalog's validation walked. */
  lemma {:induction false} ClaimsAreSites(es: Exposures, names: seq<string>)
    requires forall n :: n in names ==> n in es
    ensures ClaimBag(TunnelExposures(es, names)) <= multiset(SiteKeys(es, names))
  {
    if names == [] {
      assert ClaimKeys(D.AllClaims([], 0)) == [];
    } else {
      var front, last := names[..|names| - 1], names[|names| - 1];
      ClaimsAreSites(es, front);
      var xs, gs := TunnelExposures(es, front), GroupsOf(es[last]);
      GroupKeysBag(SiteKeys(es, front), gs);
      var x := D.Exposure(last, es[last].accounts, gs);
      ClaimsStep(xs, x);
      assert TunnelExposures(es, names) == if es[last].arrival.CloudflareTunnel? then xs + [x] else xs;
      var below, added := multiset(SiteKeys(es, front)), multiset(GroupKeys([], gs));
      assert multiset(SiteKeys(es, names)) == below + added;
      assert ClaimBag(xs) <= below;
      assert ClaimBag(TunnelExposures(es, names)) <= ClaimBag(xs) + added;
    }
  }

  lemma DistinctPart<T>(s: seq<T>, t: seq<T>)
    requires Sorting.Distinct(s) && multiset(t) <= multiset(s)
    ensures Sorting.Distinct(t)
  {
    Sorting.DistinctMultiset(s);
    forall i, j | 0 <= i < j < |t| ensures t[i] != t[j] {
      if t[i] == t[j] {
        Sorting.RepeatedCount(t, i, j);
      }
    }
  }

  lemma {:induction false} ClaimHosts(es: Exposures, names: seq<string>)
    requires forall n :: n in names ==> n in es
    ensures forall x :: x in TunnelExposures(es, names) <==>
      exists n :: n in names && es[n].arrival.CloudflareTunnel? && x == D.Exposure(n, es[n].accounts, GroupsOf(es[n]))
  {
    if names != [] {
      var front, last := names[..|names| - 1], names[|names| - 1];
      assert names == front + [last];
      ClaimHosts(es, front);
    }
  }

  lemma {:induction false} ClaimOrigins(xs: seq<D.Exposure>, n: nat)
    requires n <= |xs|
    ensures forall c :: c in D.AllClaims(xs, n) <==>
      exists x, g, h :: x in xs[..n] && g in x.groups && h in g.hosts && c == D.ClaimOf(x, g, h)
  {
    if n > 0 {
      ClaimOrigins(xs, n - 1);
      var x := xs[n - 1];
      ExposureClaimOrigins(D.AllClaims(xs, n - 1), x, |x.groups|);
      assert x.groups[..|x.groups|] == x.groups;
      assert xs[..n] == xs[..n - 1] + [x];
    }
  }

  lemma {:induction false} ExposureClaimOrigins(before: seq<D.Claim>, x: D.Exposure, n: nat)
    requires n <= |x.groups|
    ensures forall c :: c in D.ExposureClaims(before, x, n) <==>
      c in before || exists g, h :: g in x.groups[..n] && h in g.hosts && c == D.ClaimOf(x, g, h)
  {
    if n > 0 {
      ExposureClaimOrigins(before, x, n - 1);
      var g := x.groups[n - 1];
      assert x.groups[..n] == x.groups[..n - 1] + [g];
      GroupClaimOrigins(x, g);
    }
  }

  lemma GroupClaimOrigins(x: D.Exposure, g: D.Group)
    ensures forall c :: c in D.GroupClaims(x, g) <==> exists h :: h in g.hosts && c == D.ClaimOf(x, g, h)
  {
    var cs := D.GroupClaims(x, g);
    forall h | h in g.hosts ensures D.ClaimOf(x, g, h) in cs {
      var i :| 0 <= i < |g.hosts| && g.hosts[i] == h;
      assert cs[i] == D.ClaimOf(x, g, h);
    }
  }

  /** A cloudflare-tunnel exposure serves the name on the cluster. */
  ghost predicate ServedOn(es: Exposures, cluster: string, host: string) {
    exists n, g :: n in es && es[n].arrival.CloudflareTunnel? && cluster in es[n].clusters &&
      g in es[n].clusters[cluster].groups && host in HostsOf(es[n].clusters[cluster].groups[g].domains)
  }

  lemma ServedIsClaimed(input: D.Input, es: Exposures, cluster: string, host: string)
    requires input.exposures == CatalogExposures(es) && ServedOn(es, cluster, host)
    ensures exists c :: c in D.Claims(input) && c.cluster == cluster && c.host == host
  {
    var names, xs := Sorting.SortedKeys(es.Keys), input.exposures;
    ClaimHosts(es, names);
    ClaimOrigins(xs, |xs|);
    assert xs[..|xs|] == xs;
    var n, g :| n in es && es[n].arrival.CloudflareTunnel? && cluster in es[n].clusters &&
      g in es[n].clusters[cluster].groups && host in HostsOf(es[n].clusters[cluster].groups[g].domains);
    var x := D.Exposure(n, es[n].accounts, GroupsOf(es[n]));
    GroupsOfMembers(es[n]);
    assert n in names && x in xs;
    var dg := ToDerive(g, cluster, es[n].clusters[cluster].groups[g]);
    assert dg in x.groups;
    assert D.ClaimOf(x, dg, host) in D.Claims(input);
  }

  lemma ClaimedIsServed(input: D.Input, es: Exposures, c: D.Claim)
    requires input.exposures == CatalogExposures(es) && c in D.Claims(input)
    ensures ServedOn(es, c.cluster, c.host)
  {
    var names, xs := Sorting.SortedKeys(es.Keys), input.exposures;
    ClaimHosts(es, names);
    ClaimOrigins(xs, |xs|);
    assert xs[..|xs|] == xs;
    var x, dg, h :| x in xs && dg in x.groups && h in dg.hosts && c == D.ClaimOf(x, dg, h);
    var n :| n in names && es[n].arrival.CloudflareTunnel? && x == D.Exposure(n, es[n].accounts, GroupsOf(es[n]));
    GroupsOfMembers(es[n]);
    var cl, g :|
      cl in es[n].clusters && g in es[n].clusters[cl].groups && dg == ToDerive(g, cl, es[n].clusters[cl].groups[g]);
    assert cl == c.cluster;
  }

  /** Derive's claims are exactly the names the tunnel exposures serve, cluster by cluster. */
  lemma ClaimsAreServed(input: D.Input, es: Exposures, cluster: string, host: string)
    requires input.exposures == CatalogExposures(es)
    ensures ServedOn(es, cluster, host) <==> exists c :: c in D.Claims(input) && c.cluster == cluster && c.host == host
  {
    hide *;
    if ServedOn(es, cluster, host) {
      ServedIsClaimed(input, es, cluster, host);
    }
    if c :| c in D.Claims(input) && c.cluster == cluster && c.host == host {
      ClaimedIsServed(input, es, c);
    }
  }

  lemma CatalogClaimsDistinct(input: D.Input, version: int, es: Exposures)
    requires ValidCatalog(version, es) && input.exposures == CatalogExposures(es)
    ensures Sorting.Distinct(ClaimKeys(D.Claims(input)))
  {
    ClaimsAreSites(es, Sorting.SortedKeys(es.Keys));
    DistinctPart(AllSiteKeys(es), ClaimKeys(D.Claims(input)));
  }

  lemma DistinctKeysDistinctHosts(cs: seq<D.Claim>)
    requires Sorting.Distinct(ClaimKeys(cs))
    ensures forall i, j :: 0 <= i < j < |cs| && cs[i].cluster == cs[j].cluster ==> cs[i].host != cs[j].host
  {
    var keys := ClaimKeys(cs);
    forall i, j | 0 <= i < j < |cs| && cs[i].cluster == cs[j].cluster ensures cs[i].host != cs[j].host {
      assert keys[i] != keys[j];
    }
  }

  /** The claims of a valid catalog are lower case, not the bare `*`, and never repeat on a cluster. */
  lemma CatalogClaimsClean(input: D.Input, version: int, es: Exposures)
    requires ValidCatalog(version, es) && input.exposures == CatalogExposures(es)
    ensures Routing.CleanClaims(D.Claims(input))
  {
    hide D.Claims, ValidCatalog, ServedOn, DomainOk, IsLower, CatalogExposures;
    CatalogClaimsDistinct(input, version, es);
    DistinctKeysDistinctHosts(D.Claims(input));
    forall c | c in D.Claims(input) ensures IsLower(c.host) && c.host != "*" {
      ClaimsAreServed(input, es, c.cluster, c.host);
      ServedHostOk(version, es, c.cluster, c.host);
      DomainOkClean(c.host);
    }
  }

  lemma DomainOkClean(host: string)
    requires DomainOk(host)
    ensures IsLower(host) && host != "*"
  {
  }

  lemma ServedHostOk(version: int, es: Exposures, cluster: string, host: string)
    requires ValidCatalog(version, es) && ServedOn(es, cluster, host)
    ensures DomainOk(host)
  {
    var n, g :| n in es && es[n].arrival.CloudflareTunnel? && cluster in es[n].clusters &&
      g in es[n].clusters[cluster].groups && host in HostsOf(es[n].clusters[cluster].groups[g].domains);
    assert ExposureOk(es[n]) && ClusterOk(es[n], es[n].clusters[cluster]);
    var group := es[n].clusters[cluster].groups[g];
    assert GroupOk(group);
    var i :| 0 <= i < |group.domains| && HostsOf(group.domains)[i] == host;
    assert group.domains[i] in group.domains;
  }

  ghost predicate ServedTwice(es: Exposures, host: string) {
    exists c, d :: ServedOn(es, c, host) && ServedOn(es, d, host) && c != d
  }

  lemma TwoClustersServed(input: D.Input, es: Exposures, host: string)
    requires input.exposures == CatalogExposures(es)
    ensures Routing.OnTwoClusters(D.Claims(input), host) <==> ServedTwice(es, host)
  {
    if Routing.OnTwoClusters(D.Claims(input), host) {
      var c, d :| c in D.Claims(input) && d in D.Claims(input) && c.host == d.host == host && c.cluster != d.cluster;
      ClaimsAreServed(input, es, c.cluster, host);
      ClaimsAreServed(input, es, d.cluster, host);
    }
    if ServedTwice(es, host) {
      var x, y :| ServedOn(es, x, host) && ServedOn(es, y, host) && x != y;
      ClaimsAreServed(input, es, x, host);
      ClaimsAreServed(input, es, y, host);
    }
  }

  /** No tunnel derived from a valid catalog holds a repeated or a shadowed rule. */
  lemma CatalogTunnelRoutes(input: D.Input, version: int, es: Exposures, tunnels: seq<D.Tunnel>, t: D.Tunnel)
    requires ValidCatalog(version, es) && input.exposures == CatalogExposures(es)
    requires D.DerivedTunnels(input, tunnels) && t in tunnels
    ensures Sorting.Distinct(Routing.LowerAll(t.hosts)) && Routing.NoShadow(Routing.LowerAll(t.hosts))
  {
    CatalogClaimsClean(input, version, es);
    Routing.DerivedTunnelRoutes(input, tunnels, t);
  }

  lemma ServedTwiceEverywhere(input: D.Input, es: Exposures)
    requires input.exposures == CatalogExposures(es)
    ensures forall h :: Routing.OnTwoClusters(D.Claims(input), h) <==> ServedTwice(es, h)
  {
    hide *;
    forall h { TwoClustersServed(input, es, h); }
  }

  /** Routing validation of those tunnels fails exactly when one hostname is served on two clusters. */
  lemma CatalogRoutes(input: D.Input, version: int, es: Exposures, tunnels: seq<D.Tunnel>)
    requires ValidCatalog(version, es) && input.exposures == CatalogExposures(es)
    requires D.Accepted(input) && D.DerivedTunnels(input, tunnels)
    ensures Routing.RoutingOk(tunnels) <==> forall h :: !ServedTwice(es, h)
  {
    hide *;
    CatalogClaimsClean(input, version, es);
    Routing.DerivedRouting(input, tunnels);
    ServedTwiceEverywhere(input, es);
  }
}
