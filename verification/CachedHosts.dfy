/** What the derived cache hosts of a loaded configuration mean: nothing a platform group serves is ever cached. */
module CachedHosts {
  import opened Text
  import opened ConfigModel
  import opened ConfigObject
  import opened LoadedConfig
  import opened ManagedWaf
  import Assembly
  import AssemblyFacts
  import Bypass
  import CachePartition
  import CacheRules
  import CatalogModel
  import CatalogRouting
  import D = Derivation
  import Facts = DerivedTunnelFacts
  import FilterParse
  import HostFilter
  import HostOrder
  import Routing
  import RuleSpec
  import Sorting
  import Zones

  /** A group of a tunnel exposure serves the host. */
  ghost predicate Serves(es: CatalogModel.Exposures, n: string, cluster: string, g: string, host: string) {
    && n in es && es[n].arrival.CloudflareTunnel? && cluster in es[n].clusters && g in es[n].clusters[cluster].groups
    && host in CatalogModel.HostsOf(es[n].clusters[cluster].groups[g].domains)
  }

  /** Each served host of a group is a claim that carries the group's namespaces. */
  lemma ServingClaim(input: D.Input, es: CatalogModel.Exposures, n: string, cluster: string, g: string, host: string)
    returns (c: D.Claim)
    requires input.exposures == CatalogRouting.CatalogExposures(es) && Serves(es, n, cluster, g, host)
    ensures c in D.Claims(input) && c.host == host && c.cluster == cluster
    ensures c.namespaces == es[n].clusters[cluster].groups[g].routeNamespaces
  {
    var names, xs := Sorting.SortedKeys(es.Keys), input.exposures;
    CatalogRouting.ClaimHosts(es, names);
    CatalogRouting.ClaimOrigins(xs, |xs|);
    assert xs[..|xs|] == xs;
    CatalogModel.GroupsOfMembers(es[n]);
    var x := D.Exposure(n, es[n].accounts, CatalogModel.GroupsOf(es[n]));
    var dg := CatalogModel.ToDerive(g, cluster, es[n].clusters[cluster].groups[g]);
    assert n in names && x in xs && dg in x.groups;
    c := D.ClaimOf(x, dg, host);
  }

  /** In a loaded configuration a host is claimed once over all clusters. */
  lemma OneClaim(l: Loading, c: D.Claim, d: D.Claim)
    requires Done(l) && c in D.Claims(CatalogInput(l)) && d in D.Claims(CatalogInput(l)) && c.host == d.host
    ensures c == d
  {
    LoadedParts(l);
    var input := CatalogInput(l);
    LoadedRouting(l);
    RoutedIff(l.file.accounts, l.derived);
    hide *;
    CatalogRouting.CatalogClaimsClean(input, l.version, l.catalog);
    Routing.OneClusterFor(input, l.derived, c, d);
    OneClaimOnCluster(D.Claims(input), c, d);
  }

  lemma LoadedRouting(l: Loading)
    requires Valid(l.out) && l.out.tunnels == AllFromDerived(l.file.accounts, l.derived)
    ensures Routing.RoutingOk(AllRouted(AllFromDerived(l.file.accounts, l.derived)))
  {
    hide RegistryOk, TunnelOk, OriginsOk, RecordsFree, Routing.RoutingOk, Sorting.Distinct;
  }

  lemma CacheListIs(l: Loading, zone: string)
    requires Done(l) && zone in l.file.zones && zone in CacheZones(l.file.zones)
    ensures zone in l.out.zones && zone != ""
    ensures l.out.zones[zone].cacheHosts
      == Sorting.SortedKeys(D.CacheSet(CatalogInput(l), D.Claims(CatalogInput(l)), zone))
  {
    LoadedParts(l);
    NoEmptyZone(l.file);
    var input := CatalogInput(l);
    hide Done, CatalogInput, D.CacheSet, D.Claims, RegistryOk, Valid, D.Accepted, D.DerivedTunnels, WafFrom, WafList,
      CatalogModel.ValidCatalog;
    assert zone in input.cacheZones;
  }

  /**
   A cached host of a loaded configuration is an exact name of its zone, and every group that serves it, on any
   cluster, admits routes from business projects alone.
   */
  lemma CachedHostIsBusiness(l: Loading, zone: string, host: string, n: string, cluster: string, g: string)
    requires Done(l) && zone in l.file.zones && zone in CacheZones(l.file.zones)
    requires zone in l.out.zones && host in l.out.zones[zone].cacheHosts && Serves(l.catalog, n, cluster, g, host)
    ensures D.BusinessGroup(l.catalog[n].clusters[cluster].groups[g].routeNamespaces, l.business)
    ensures !HostOrder.IsWildcard(host) && Zones.Holds(zone, Zones.NameOf(host))
  {
    CacheListIs(l, zone);
    var input := CatalogInput(l);
    var cs := D.Claims(input);
    var c :| c in cs && D.Cached(input, c) && Zones.ZoneOf(D.ZoneNames(input), c.host) == zone && c.host == host;
    var d := ServingClaim(input, l.catalog, n, cluster, g, host);
    Zones.ZoneOfListed(D.ZoneNames(input), host);
    assert !HostOrder.IsWildcard(c.host) && D.BusinessGroup(c.namespaces, l.business);
    hide *;
    OneClaim(l, c, d);
  }

  lemma NotAWildcard(host: string)
    requires !HostOrder.IsWildcard(host) && host != "*"
    ensures forall name :: HostOrder.Matches(host, name) <==> name == host
  {
  }

  /** So the cacheable-hosts rule of the zone takes no request to a host that a platform group serves. */
  lemma PlatformHostsAreNotCached(l: Loading, zone: string, q: FilterParse.Request, n: string, cluster: string,
      g: string)
    requires Done(l) && zone in l.file.zones && zone in CacheZones(l.file.zones) && zone in l.out.zones
    requires Serves(l.catalog, n, cluster, g, q.host)
    requires !D.BusinessGroup(l.catalog[n].clusters[cluster].groups[g].routeNamespaces, l.business)
    ensures l.out.zones[zone].cacheHosts != [] ==>
      !FilterParse.Holds(HostFilter.HostText(l.out.zones[zone].cacheHosts), q)
  {
    var hosts := l.out.zones[zone].cacheHosts;
    CachedHostsExact(l, zone);
    hide Done, Serves, D.BusinessGroup, FilterParse.Holds, HostFilter.HostText;
    if hosts != [] {
      HostFilter.HostExpressionMeaning(hosts, q);
      forall h | h in hosts ensures !HostOrder.Matches(h, q.host) {
        NotAWildcard(h);
        if h == q.host {
          CachedHostIsBusiness(l, zone, q.host, n, cluster, g);
        }
      }
    }
  }

  lemma CachedHostsExact(l: Loading, zone: string)
    requires Done(l) && zone in l.file.zones && zone in CacheZones(l.file.zones)
    ensures zone in l.out.zones
    ensures forall h :: h in l.out.zones[zone].cacheHosts ==> !HostOrder.IsWildcard(h) && h != "*"
  {
    CacheListIs(l, zone);
    var input := CatalogInput(l);
    LoadedParts(l);
    var set_ := D.CacheSet(input, D.Claims(input), zone);
    assert forall h :: h in set_ ==> exists c :: c in D.Claims(input) && c.host == h && !HostOrder.IsWildcard(h);
    hide *;
    CatalogRouting.CatalogClaimsClean(input, l.version, l.catalog);
    ClaimsNotCatchAll(D.Claims(input));
  }

  lemma ClaimsNotCatchAll(cs: seq<D.Claim>)
    requires Routing.CleanClaims(cs)
    ensures forall c :: c in cs ==> c.host != "*"
  {
  }

  /**
   The hosts rule of the zone as a contribution makes no claim to a request for a host that a platform group serves.
   */
  lemma HostsClaimNothing(l: Loading, zone: string, q: FilterParse.Request, n: string, cluster: string, g: string)
    requires Done(l) && zone in l.file.zones && zone in CacheZones(l.file.zones) && zone in l.out.zones
    requires Serves(l.catalog, n, cluster, g, q.host)
    requires !D.BusinessGroup(l.catalog[n].clusters[cluster].groups[g].routeNamespaces, l.business)
    ensures !CachePartition.Taken(CacheRules.HostsContribution(l.out.zones[zone].cacheHosts), q)
    ensures CachePartition.Built(CacheRules.HostsContribution(l.out.zones[zone].cacheHosts))
  {
    var hosts := l.out.zones[zone].cacheHosts;
    CachedHostsExact(l, zone);
    PlatformHostsAreNotCached(l, zone, q, n, cluster, g);
    hide Done, Serves, D.BusinessGroup;
    assert "*" !in hosts;
    if hosts != [] {
      GroupedHosts(hosts, q);
    }
  }

  lemma GroupedHosts(hosts: seq<string>, q: FilterParse.Request)
    requires hosts != [] && "*" !in hosts
    ensures CachePartition.Built(CacheRules.HostsContribution(hosts))
    ensures CachePartition.Taken(CacheRules.HostsContribution(hosts), q) ==>
      FilterParse.Holds(HostFilter.HostText(hosts), q)
  {
    CacheRules.CacheHostsClaims(hosts);
    HostFilter.HostWhole(hosts);
    var e := HostFilter.Disjunction(HostFilter.HostExprs(hosts));
    hide FilterParse.Holds, HostFilter.HostText, HostFilter.HostExprs, HostFilter.OperandText, HostFilter.WholeText;
    Bypass.GroupMeans(CacheRules.HostsContribution(hosts).claim, e, q);
    HostFilter.WholeMeans(HostFilter.HostText(hosts), e, q);
  }

  /** Every cache contribution but the hosts rule is built and makes no claim to the request. */
  ghost predicate OthersLeave(cs: seq<RuleSpec.Contribution>, hosts: seq<string>, q: FilterParse.Request) {
    forall c :: c in cs && c.phase == RuleSpec.CACHE && c != CacheRules.HostsContribution(hosts) ==>
      CachePartition.Built(c) && !CachePartition.Taken(c, q)
  }

  /**
   In the cache phase assembled for a loaded zone, from its hosts rule and any other built contributions, a request
   to a host that a platform group serves meets the bypass and nothing else, unless another contribution claims it, and
   is kept out of the cache.
   */
  lemma PlatformRequestsBypass(l: Loading, zone: string, q: FilterParse.Request, n: string, cluster: string, g: string,
      cs: seq<RuleSpec.Contribution>)
    requires Done(l) && zone in l.file.zones && zone in CacheZones(l.file.zones) && zone in l.out.zones
    requires Serves(l.catalog, n, cluster, g, q.host)
    requires !D.BusinessGroup(l.catalog[n].clusters[cluster].groups[g].routeNamespaces, l.business)
    requires CacheRules.HostsContribution(l.out.zones[zone].cacheHosts) in cs && Assembly.Accepts(cs)
    requires OthersLeave(cs, l.out.zones[zone].cacheHosts, q)
    ensures RuleSpec.CACHE in Assembly.Assembled(cs)
      && RuleSpec.MatchCount(Assembly.Assembled(cs)[RuleSpec.CACHE], q) == 1
    ensures RuleSpec.Takes(AssemblyFacts.Added(cs, RuleSpec.CACHE)[0], q)
    ensures forall r :: r in Assembly.Assembled(cs)[RuleSpec.CACHE] && RuleSpec.Takes(r, q) ==>
      CacheRules.OnlyCache(r) && !r.params.cache.value.cache
  {
    var c := CacheRules.HostsContribution(l.out.zones[zone].cacheHosts);
    HostsClaimNothing(l, zone, q, n, cluster, g);
    assert c in cs && c.phase == RuleSpec.CACHE;
    forall d | d in cs && d.phase == RuleSpec.CACHE ensures CachePartition.Built(d) && !CachePartition.Taken(d, q) {
      hide CachePartition.Built, CachePartition.Taken, CacheRules.HostsContribution;
    }
    assert CachePartition.NoneClaims(cs, q) by {
      hide CachePartition.Taken, CachePartition.Built;
      assert forall i :: 0 <= i < |cs| ==> cs[i] in cs;
    }
    hide *;
    CachePartition.Partition(cs, q);
    CachePartition.AtMostOne(cs, q);
    CachePartition.CacheDecision(cs, q);
    CachePartition.ClaimedIff(cs, q);
  }
}
