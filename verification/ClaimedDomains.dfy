/**
 The claims, cache hosts and WAF hosts of a catalog, read off its domains (catalog/catalog.go,
 cloudflare/config/config.go, cloudflare/edgespec/derive.go).
 */
module ClaimedDomains {
  import opened Text
  import opened ConfigModel
  import opened ConfigObject
  import opened LoadedConfig
  import opened ManagedWaf
  import Cat = CatalogModel
  import CatalogRouting
  import CachedHosts
  import D = Derivation
  import Facts = DerivedTunnelFacts
  import HostOrder
  import Sorting
  import Zones
  import ZoneRecords

  /** A domain of a group of a tunnel exposure, on a cluster. */
  ghost predicate Claims(es: Cat.Exposures, n: string, cluster: string, g: string, d: Cat.Domain) {
    && n in es && es[n].arrival.CloudflareTunnel? && cluster in es[n].clusters && g in es[n].clusters[cluster].groups
    && d in es[n].clusters[cluster].groups[g].domains
  }

  function ClaimFrom(e: Cat.Exposure, cluster: string, g: Cat.Group, d: Cat.Domain): D.Claim {
    D.Claim(cluster, d.host, e.accounts, d.dnsElsewhere, d.waf == "off", g.routeNamespaces)
  }

  /** The claim comes from that domain. */
  ghost predicate ClaimedBy(es: Cat.Exposures, c: D.Claim, n: string, cluster: string, g: string, d: Cat.Domain) {
    Claims(es, n, cluster, g, d) && c == ClaimFrom(es[n], cluster, es[n].clusters[cluster].groups[g], d)
  }

  lemma {:induction false} ElsewhereAre(domains: seq<Cat.Domain>, h: string)
    ensures h in Cat.ElsewhereHosts(domains) <==> exists d :: d in domains && d.dnsElsewhere && d.host == h
    ensures h in Cat.WafOffHosts(domains) <==> exists d :: d in domains && d.waf == "off" && d.host == h
  {
    if domains != [] {
      var front, last := domains[..|domains| - 1], domains[|domains| - 1];
      assert domains == front + [last];
      ElsewhereAre(front, h);
    }
  }

  lemma HostOnce(domains: seq<Cat.Domain>, d: Cat.Domain, e: Cat.Domain)
    requires Sorting.Distinct(Cat.HostsOf(domains)) && d in domains && e in domains && d.host == e.host
    ensures d == e
  {
    var i :| 0 <= i < |domains| && domains[i] == d;
    var j :| 0 <= j < |domains| && domains[j] == e;
    assert Cat.HostsOf(domains)[i] == Cat.HostsOf(domains)[j];
  }

  /** In a group whose hosts are distinct a host's claim says what its domain says. */
  lemma DomainClaim(x: D.Exposure, e: Cat.Exposure, name: string, cluster: string, g: Cat.Group, d: Cat.Domain)
    requires x.accounts == e.accounts && Sorting.Distinct(Cat.HostsOf(g.domains)) && d in g.domains
    ensures D.ClaimOf(x, Cat.ToDerive(name, cluster, g), d.host) == ClaimFrom(e, cluster, g, d)
  {
    ElsewhereAre(g.domains, d.host);
    forall k | k in g.domains && k.host == d.host ensures k == d {
      HostOnce(g.domains, d, k);
    }
  }

  lemma GroupHostsDistinct(version: int, es: Cat.Exposures, n: string, cluster: string, g: string)
    requires Cat.ValidCatalog(version, es) && n in es
    requires cluster in es[n].clusters && g in es[n].clusters[cluster].groups
    ensures Sorting.Distinct(Cat.HostsOf(es[n].clusters[cluster].groups[g].domains))
  {
    assert Cat.ExposureOk(es[n]) && Cat.ClusterOk(es[n], es[n].clusters[cluster]);
    assert Cat.GroupOk(es[n].clusters[cluster].groups[g]);
  }

  lemma GroupIsRead(es: Cat.Exposures, n: string, cluster: string, g: string)
    returns (x: D.Exposure)
    requires n in es && es[n].arrival.CloudflareTunnel?
    requires cluster in es[n].clusters && g in es[n].clusters[cluster].groups
    ensures x in CatalogRouting.CatalogExposures(es) && x.accounts == es[n].accounts
    ensures Cat.ToDerive(g, cluster, es[n].clusters[cluster].groups[g]) in x.groups
  {
    var names := Sorting.SortedKeys(es.Keys);
    CatalogRouting.ClaimHosts(es, names);
    Cat.GroupsOfMembers(es[n]);
    hide Cat.GroupsOf, Cat.ToDerive, CatalogRouting.TunnelExposures;
    assert n in names;
    x := D.Exposure(n, es[n].accounts, Cat.GroupsOf(es[n]));
  }

  lemma HostIsClaimed(input: D.Input, x: D.Exposure, g: D.Group, h: string)
    requires x in input.exposures && g in x.groups && h in g.hosts
    ensures D.ClaimOf(x, g, h) in D.Claims(input)
  {
    var xs := input.exposures;
    CatalogRouting.ClaimOrigins(xs, |xs|);
    assert xs[..|xs|] == xs;
    hide D.ClaimOf;
  }

  lemma DomainClaims(input: D.Input, version: int, es: Cat.Exposures, n: string, cluster: string, g: string,
      d: Cat.Domain)
    requires Cat.ValidCatalog(version, es) && input.exposures == CatalogRouting.CatalogExposures(es)
    requires Claims(es, n, cluster, g, d)
    ensures ClaimFrom(es[n], cluster, es[n].clusters[cluster].groups[g], d) in D.Claims(input)
  {
    GroupHostsDistinct(version, es, n, cluster, g);
    var group := es[n].clusters[cluster].groups[g];
    var x := GroupIsRead(es, n, cluster, g);
    DomainClaim(x, es[n], g, cluster, group, d);
    var dg := Cat.ToDerive(g, cluster, group);
    var i :| 0 <= i < |group.domains| && group.domains[i] == d;
    assert dg.hosts[i] == d.host;
    hide Cat.ValidCatalog, Cat.ToDerive, CatalogRouting.CatalogExposures, D.Claims;
    HostIsClaimed(input, x, dg, d.host);
  }

  lemma ClaimedDomain(input: D.Input, version: int, es: Cat.Exposures, c: D.Claim)
    returns (n: string, cluster: string, g: string, d: Cat.Domain)
    requires Cat.ValidCatalog(version, es) && input.exposures == CatalogRouting.CatalogExposures(es)
    requires c in D.Claims(input)
    ensures ClaimedBy(es, c, n, cluster, g, d)
  {
    var names, xs := Sorting.SortedKeys(es.Keys), input.exposures;
    CatalogRouting.ClaimHosts(es, names);
    CatalogRouting.ClaimOrigins(xs, |xs|);
    assert xs[..|xs|] == xs;
    hide Cat.ValidCatalog, Cat.GroupsOf, CatalogRouting.CatalogExposures, CatalogRouting.TunnelExposures;
    var x, dg, h :| x in xs && dg in x.groups && h in dg.hosts && c == D.ClaimOf(x, dg, h);
    n :| n in names && es[n].arrival.CloudflareTunnel? && x == D.Exposure(n, es[n].accounts, Cat.GroupsOf(es[n]));
    Cat.GroupsOfMembers(es[n]);
    cluster, g :| cluster in es[n].clusters && g in es[n].clusters[cluster].groups
      && dg == Cat.ToDerive(g, cluster, es[n].clusters[cluster].groups[g]);
    var group := es[n].clusters[cluster].groups[g];
    var i :| 0 <= i < |dg.hosts| && dg.hosts[i] == h;
    d := group.domains[i];
    GroupHostsDistinct(version, es, n, cluster, g);
    DomainClaim(x, es[n], g, cluster, group, d);
  }

  /**
   Of a valid catalog Derive reads exactly the domains of its tunnel exposures: host, cluster, accounts, whether the
   record is elsewhere, whether the WAF is off, and the namespaces of the group.
   */
  lemma ClaimsAreDomains(input: D.Input, version: int, es: Cat.Exposures, c: D.Claim)
    requires Cat.ValidCatalog(version, es) && input.exposures == CatalogRouting.CatalogExposures(es)
    ensures c in D.Claims(input) <==> exists n, cluster, g, d :: ClaimedBy(es, c, n, cluster, g, d)
  {
    hide CatalogRouting.CatalogExposures, Cat.ValidCatalog, D.Claims, Claims;
    if c in D.Claims(input) {
      var n, cluster, g, d := ClaimedDomain(input, version, es, c);
    }
    if n, cluster, g, d :| ClaimedBy(es, c, n, cluster, g, d) {
      OneDomainClaims(input, version, es, c, n, cluster, g, d);
    }
  }

  lemma OneDomainClaims(input: D.Input, version: int, es: Cat.Exposures, c: D.Claim, n: string, cluster: string,
      g: string, d: Cat.Domain)
    requires Cat.ValidCatalog(version, es) && input.exposures == CatalogRouting.CatalogExposures(es)
    requires ClaimedBy(es, c, n, cluster, g, d)
    ensures c in D.Claims(input)
  {
    hide CatalogRouting.CatalogExposures, Cat.ValidCatalog, D.Claims;
    DomainClaims(input, version, es, n, cluster, g, d);
  }

  // ---------------------------------------------------------------------------
  // The lists of a loaded configuration
  // ---------------------------------------------------------------------------

  /** The zones managed for more than their security.txt. */
  function FullZones(r: Registry): set<string> {
    set n | n in r.zones && r.zones[n].manage != "security_txt"
  }

  /** The zone is the longest such zone of the file that holds the host. */
  ghost predicate LiesIn(r: Registry, host: string, zone: string) {
    Zones.IsZoneOf(FullZones(r), host, zone)
  }

  lemma InputNames(l: Loading)
    ensures AsSet(D.ZoneNames(CatalogInput(l))) == FullZones(l.file)
  {
    InputZones(l);
    hide CatalogInput, FullZones;
  }

  lemma LiesInIff(l: Loading, host: string, zone: string)
    ensures Zones.ZoneOf(D.ZoneNames(CatalogInput(l)), host) == zone <==> LiesIn(l.file, host, zone)
  {
    hide CatalogInput, D.ZoneNames, Zones.ZoneOf, Zones.IsZoneOf, FullZones;
    var names := D.ZoneNames(CatalogInput(l));
    InputNames(l);
    Zones.ZoneOfIs(names, host);
    if LiesIn(l.file, host, zone) {
      Zones.ZoneOfUnique(AsSet(names), host, zone, Zones.ZoneOf(names, host));
    }
  }

  /** Some namespace, and every one of them a business project. */
  ghost predicate OnlyBusiness(namespaces: seq<string>, business: set<string>) {
    namespaces != [] && forall ns :: ns in namespaces ==> ns in business
  }

  lemma OnlyBusinessIff(namespaces: seq<string>, business: set<string>)
    ensures OnlyBusiness(namespaces, business) <==> D.BusinessGroup(namespaces, business)
  {
  }

  /** A domain of the catalog under that host, in a group that admits routes from business projects alone. */
  ghost predicate ServedForBusiness(l: Loading, host: string) {
    exists n, cluster, g, d ::
      && Claims(l.catalog, n, cluster, g, d) && d.host == host
      && OnlyBusiness(l.catalog[n].clusters[cluster].groups[g].routeNamespaces, l.business)
  }

  /** A domain of the catalog under that host that has not opted out of the managed WAF. */
  ghost predicate ServedUnderWaf(l: Loading, host: string) {
    exists n, cluster, g, d :: Claims(l.catalog, n, cluster, g, d) && d.host == host && d.waf != "off"
  }

  lemma ServedForBusinessIff(l: Loading, host: string)
    requires Done(l)
    ensures ServedForBusiness(l, host) <==> exists c ::
      c in D.Claims(CatalogInput(l)) && c.host == host && D.BusinessGroup(c.namespaces, l.business)
  {
    LoadedParts(l);
    hide Done, CatalogInput, D.Claims, Cat.ValidCatalog, OnlyBusiness, D.BusinessGroup;
    if ServedForBusiness(l, host) {
      var n, cluster, g, d :|
        && Claims(l.catalog, n, cluster, g, d) && d.host == host
        && OnlyBusiness(l.catalog[n].clusters[cluster].groups[g].routeNamespaces, l.business);
      OnlyBusinessIff(l.catalog[n].clusters[cluster].groups[g].routeNamespaces, l.business);
      DomainClaims(CatalogInput(l), l.version, l.catalog, n, cluster, g, d);
    }
    if c :| c in D.Claims(CatalogInput(l)) && c.host == host && D.BusinessGroup(c.namespaces, l.business) {
      OnlyBusinessIff(c.namespaces, l.business);
      var n, cluster, g, d := ClaimedDomain(CatalogInput(l), l.version, l.catalog, c);
    }
  }

  lemma ServedUnderWafIff(l: Loading, host: string)
    requires Done(l)
    ensures ServedUnderWaf(l, host) <==> exists c ::
      c in D.Claims(CatalogInput(l)) && c.host == host && !c.wafOff
  {
    LoadedParts(l);
    hide Done, CatalogInput, D.Claims, Cat.ValidCatalog;
    if ServedUnderWaf(l, host) {
      var n, cluster, g, d :| Claims(l.catalog, n, cluster, g, d) && d.host == host && d.waf != "off";
      DomainClaims(CatalogInput(l), l.version, l.catalog, n, cluster, g, d);
    }
    if c :| c in D.Claims(CatalogInput(l)) && c.host == host && !c.wafOff {
      var n, cluster, g, d := ClaimedDomain(CatalogInput(l), l.version, l.catalog, c);
    }
  }

  lemma CacheZoneManaged(l: Loading, zone: string)
    requires Done(l) && zone in l.file.zones && l.file.zones[zone].cache
    ensures zone in ManagedZones(l.file.zones)
  {
    LoadedParts(l);
    assert ZoneOk(l.file.accounts, zone, l.file.zones[zone]);
    hide *;
    CacheIsManaged(l.file.accounts, l.file.zones, zone);
  }

  lemma CacheIsManaged(accounts: map<string, Account>, zones: map<string, Zone>, zone: string)
    requires zone in zones && ZoneOk(accounts, zone, zones[zone]) && zones[zone].cache
    ensures zone in ManagedZones(zones)
  {
  }

  /**
   A zone of a loaded configuration that declares a cache caches exactly the exact names that lie in it and that some
   group serves for business projects alone.
   */
  lemma CachedHostIff(l: Loading, zone: string, host: string)
    requires Done(l) && zone in l.file.zones && l.file.zones[zone].cache
    ensures zone in l.out.zones
    ensures host in l.out.zones[zone].cacheHosts <==>
      !HostOrder.IsWildcard(host) && LiesIn(l.file, host, zone) && ServedForBusiness(l, host)
  {
    CacheZoneManaged(l, zone);
    CachedHosts.CacheListIs(l, zone);
    LiesInIff(l, host, zone);
    ServedForBusinessIff(l, host);
    var input := CatalogInput(l);
    assert input.business == l.business;
    hide Done, CatalogInput, D.Claims, ServedForBusiness, LiesIn, Zones.ZoneOf, D.ZoneNames, D.BusinessGroup,
      ManagedZones;
  }

  /** The list of an enabled zone of a loaded configuration. */
  lemma WafListIs(l: Loading, zone: string)
    requires Done(l) && zone in l.file.zones && WafEnabled(l.file.zones[zone])
    ensures zone in l.out.zones
    ensures l.out.zones[zone].wafHosts
      == WafList(l.file.zones[zone], Sorting.SortedKeys(CatalogHosts(CatalogInput(l), zone)))
  {
    LoadedParts(l);
    WafZoneManaged(l.file, zone);
    var input := CatalogInput(l);
    WafListed(l.file.zones, CacheFrom(input), input, zone);
    assert l.out.zones[zone].records == l.file.zones[zone].records;
  }

  /** A record of the zone that the managed WAF covers. */
  ghost predicate CoveredRecord(z: Zone, host: string) {
    exists e: ZoneRecords.Record :: e in z.records && e.proxied && e.waf != Some(false) && e.name == host
  }

  /**
   The managed WAF of an enabled zone covers exactly the names that lie in it and that some domain serves without opting
   out, and the proxied records that have not opted out.
   */
  lemma WafHostIff(l: Loading, zone: string, host: string)
    requires Done(l) && zone in l.file.zones && l.file.zones[zone].waf == Some(true)
    ensures zone in l.out.zones
    ensures host in l.out.zones[zone].wafHosts <==>
      (LiesIn(l.file, host, zone) && ServedUnderWaf(l, host)) || CoveredRecord(l.file.zones[zone], host)
  {
    WafListIs(l, zone);
    LiesInIff(l, host, zone);
    ServedUnderWafIff(l, host);
    var input := CatalogInput(l);
    hide Done, CatalogInput, D.Claims, ServedUnderWaf, LiesIn, Zones.ZoneOf, D.ZoneNames;
    assert host in CatalogHosts(input, zone) <==> LiesIn(l.file, host, zone) && ServedUnderWaf(l, host);
    hide CatalogHosts;
    assert host in CoveredNames(l.file.zones[zone].records) <==> CoveredRecord(l.file.zones[zone], host);
  }

  /** A zone without a cache, or without the managed WAF, keeps its list as written. */
  lemma OtherListsKept(l: Loading, zone: string)
    requires Done(l) && zone in l.file.zones
    ensures zone in l.out.zones
    ensures !l.file.zones[zone].cache ==> l.out.zones[zone].cacheHosts == l.file.zones[zone].cacheHosts
    ensures l.file.zones[zone].waf != Some(true) ==> l.out.zones[zone].wafHosts == l.file.zones[zone].wafHosts
  {
    LoadedParts(l);
    var input := CatalogInput(l);
    assert !l.file.zones[zone].cache ==> zone !in input.cacheZones;
    hide D.WafSet, D.CacheSet, D.Claims, WafList, CatalogInput, Done;
  }

  // ---------------------------------------------------------------------------
  // The tunnels of a loaded configuration
  // ---------------------------------------------------------------------------

  /** The host lies in a zone of the account. */
  ghost predicate OwnedIn(r: Registry, host: string, account: string) {
    exists z :: z in r.zones && z != "" && LiesIn(r, host, z) && r.zones[z].account == account
  }

  lemma OwnedInIff(l: Loading, host: string, account: string)
    ensures Facts.OwnedBy(CatalogInput(l), host, account) <==> OwnedIn(l.file, host, account)
  {
    InputZones(l);
    hide CatalogInput, Zones.IsZoneOf;
    forall z | z in l.file.zones && z != "" && LiesIn(l.file, host, z) ensures z in FullZones(l.file) {
      ZoneIsListed(FullZones(l.file), host, z);
    }
  }

  lemma ZoneIsListed(zones: set<string>, host: string, z: string)
    requires Zones.IsZoneOf(zones, host, z) && z != ""
    ensures z in zones
  {
  }

  lemma InputZones(l: Loading)
    ensures CatalogInput(l).zones.Keys == FullZones(l.file)
    ensures forall z :: z in CatalogInput(l).zones ==> CatalogInput(l).zones[z] == l.file.zones[z].account
  {
    hide CatalogRouting.CatalogExposures, WafZones, CacheZones;
  }

  /** The domain is served on the cluster under the host, whose zone is of the account. */
  ghost predicate ServedFrom(l: Loading, cluster: string, account: string, host: string, d: Cat.Domain) {
    d.host == host && OwnedIn(l.file, host, account) && exists n, g :: Claims(l.catalog, n, cluster, g, d)
  }

  lemma ServedFromClaims(l: Loading, k: D.Key, host: string, d: Cat.Domain) returns (c: D.Claim)
    requires Done(l) && ServedFrom(l, k.cluster, k.account, host, d)
    ensures c in D.Claims(CatalogInput(l)) && D.KeyOf(CatalogInput(l), c) == Some(k)
    ensures c.elsewhere == d.dnsElsewhere && c.host == host
  {
    var n, g :| Claims(l.catalog, n, k.cluster, g, d);
    c := ClaimFrom(l.catalog[n], k.cluster, l.catalog[n].clusters[k.cluster].groups[g], d);
    assert d.host == host && OwnedIn(l.file, host, k.account) && c.host == host && c.cluster == k.cluster;
    LoadedParts(l);
    hide *;
    OwnedInIff(l, host, k.account);
    DomainClaims(CatalogInput(l), l.version, l.catalog, n, k.cluster, g, d);
    Facts.OwnerIsKey(CatalogInput(l), c, k);
  }

  lemma ClaimServedFrom(l: Loading, k: D.Key, c: D.Claim) returns (d: Cat.Domain)
    requires Done(l) && c in D.Claims(CatalogInput(l)) && D.KeyOf(CatalogInput(l), c) == Some(k)
    ensures ServedFrom(l, k.cluster, k.account, c.host, d) && d.dnsElsewhere == c.elsewhere
  {
    LoadedParts(l);
    hide Done, CatalogInput, D.Claims, Cat.ValidCatalog, D.KeyOf, Facts.OwnedBy, OwnedIn, Claims, D.Accepted, Valid,
      RegistryOk, D.DerivedTunnels;
    OwnedInIff(l, c.host, k.account);
    Facts.OwnerIsKey(CatalogInput(l), c, k);
    var n, cluster, g;
    n, cluster, g, d := ClaimedDomain(CatalogInput(l), l.version, l.catalog, c);
  }

  lemma ServedFromIff(l: Loading, k: D.Key, host: string)
    requires Done(l)
    ensures (exists d :: ServedFrom(l, k.cluster, k.account, host, d))
       <==> exists c :: c in D.Claims(CatalogInput(l)) && c.host == host && D.KeyOf(CatalogInput(l), c) == Some(k)
    ensures (exists d :: ServedFrom(l, k.cluster, k.account, host, d) && d.dnsElsewhere)
       <==> exists c ::
              c in D.Claims(CatalogInput(l)) && c.elsewhere && c.host == host && D.KeyOf(CatalogInput(l), c) == Some(k)
  {
    var input := CatalogInput(l);
    hide *;
    forall d: Cat.Domain | ServedFrom(l, k.cluster, k.account, host, d)
      ensures exists c ::
        c in D.Claims(input) && c.elsewhere == d.dnsElsewhere && c.host == host && D.KeyOf(input, c) == Some(k)
    {
      var c := ServedFromClaims(l, k, host, d);
    }
    forall c | c in D.Claims(input) && c.host == host && D.KeyOf(input, c) == Some(k)
      ensures exists d :: ServedFrom(l, k.cluster, k.account, host, d) && d.dnsElsewhere == c.elsewhere
    {
      var d := ClaimServedFrom(l, k, c);
    }
  }

  /**
   In a loaded configuration a tunnel carries exactly the names that the catalog serves on its cluster and that lie in a
   zone of its account, and leaves exactly those to another writer whose domain says so.
   */
  lemma TunnelHostIff(l: Loading, i: nat, host: string)
    requires Done(l) && i < |l.out.tunnels|
    ensures var t := l.out.tunnels[i];
      && (host in t.hosts <==> exists d :: ServedFrom(l, t.cluster, t.account, host, d))
      && (host in t.dnsElsewhere <==> exists d :: ServedFrom(l, t.cluster, t.account, host, d) && d.dnsElsewhere)
  {
    LoadedParts(l);
    var input, t := CatalogInput(l), l.derived[i];
    assert t in l.derived;
    hide Done, CatalogInput, D.Claims, D.KeyOf, Cat.ValidCatalog, ServedFrom, D.Accepted;
    ServedFromIff(l, D.TunnelKey(t), host);
    Facts.TunnelMembers(input, l.derived, t);
    Facts.DnsSplitsHosts(input, l.derived, t);
  }

  lemma TunnelsMatch(accounts: map<string, Account>, derived: seq<D.Tunnel>, i: nat)
    requires i < |derived|
    ensures AllFromDerived(accounts, derived)[i].hosts == derived[i].hosts
    ensures AllFromDerived(accounts, derived)[i].cluster == derived[i].cluster
  {
  }

  lemma ClaimCarried(l: Loading, c: D.Claim)
    requires Done(l) && c in D.Claims(CatalogInput(l))
    ensures exists i ::
      0 <= i < |l.out.tunnels| && l.out.tunnels[i].cluster == c.cluster && c.host in l.out.tunnels[i].hosts
  {
    LoadedParts(l);
    hide *;
    Facts.ClaimServedOnce(CatalogInput(l), l.derived, c);
    var i :| 0 <= i < |l.derived| && Facts.ServesClaim(CatalogInput(l), l.derived[i], c);
    ServedHost(CatalogInput(l), l.derived[i], c);
    TunnelsMatch(l.file.accounts, l.derived, i);
  }

  lemma ServedHost(input: D.Input, t: D.Tunnel, c: D.Claim)
    requires Facts.ServesClaim(input, t, c)
    ensures c.host in t.hosts && c.cluster == t.cluster
  {
  }

  /** Every name the catalog serves through a tunnel is carried by a tunnel of its cluster. */
  lemma EveryDomainCarried(l: Loading, n: string, cluster: string, g: string, d: Cat.Domain)
    requires Done(l) && Claims(l.catalog, n, cluster, g, d)
    ensures exists i ::
      0 <= i < |l.out.tunnels| && l.out.tunnels[i].cluster == cluster && d.host in l.out.tunnels[i].hosts
  {
    var c := ClaimFrom(l.catalog[n], cluster, l.catalog[n].clusters[cluster].groups[g], d);
    assert c.host == d.host && c.cluster == cluster;
    LoadedParts(l);
    hide *;
    DomainClaims(CatalogInput(l), l.version, l.catalog, n, cluster, g, d);
    ClaimCarried(l, c);
  }
}
