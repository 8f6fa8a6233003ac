/** What loading guarantees: one DNS writer per name, and WAF lists that only ever grow. */
module LoadedConfig {
  import opened Text
  import opened ZoneRecords
  import opened ConfigModel
  import opened ConfigObject
  import opened ManagedWaf
  import CatalogModel
  import CatalogRouting
  import D = Derivation
  import DnsWriters
  import HostOrder
  import Routing
  import Sorting
  import Zones

  /** One load: the checked file, the validated catalog with its business projects, and what came of them. */
  datatype Loading = Loading(
    file: Registry, version: int, catalog: CatalogModel.Exposures, business: set<string>, derived: seq<D.Tunnel>,
    out: Registry)

  ghost predicate Done(l: Loading) {
    CatalogModel.ValidCatalog(l.version, l.catalog) && Loaded(l.file, l.catalog, l.business, l.derived, l.out)
  }

  /** The input loading hands to Derive. */
  ghost function CatalogInput(l: Loading): (input: D.Input)
    ensures input.exposures == CatalogRouting.CatalogExposures(l.catalog)
    ensures input.wafZones == Sorting.SortedKeys(WafZones(l.file.zones))
    ensures input.cacheZones == Sorting.SortedKeys(CacheZones(l.file.zones))
    ensures input.business == l.business
  {
    InputOf(l.file, CatalogRouting.CatalogExposures(l.catalog), l.business)
  }

  lemma LoadedParts(l: Loading)
    requires Done(l)
    ensures CatalogModel.ValidCatalog(l.version, l.catalog)
    ensures RegistryOk(l.file) && forall n :: n in l.file.zones ==> ZoneWafOk(l.file.zones[n])
    ensures D.Accepted(CatalogInput(l)) && D.DerivedTunnels(CatalogInput(l), l.derived)
    ensures l.out.tunnels == AllFromDerived(l.file.accounts, l.derived)
    ensures l.out.zones == WithWaf(WithCache(l.file.zones, CacheFrom(CatalogInput(l))), WafFrom(CatalogInput(l)))
    ensures Valid(l.out)
  {
    hide RegistryOk, ZoneWafOk, D.Accepted, D.DerivedTunnels, Valid, WithWaf, WithCache, CacheFrom, WafFrom, InputOf,
      CatalogModel.ValidCatalog;
  }

  /** Of clean claims on one cluster at most one has a given host. */
  lemma OneClaimOnCluster(cs: seq<D.Claim>, c: D.Claim, d: D.Claim)
    requires Routing.CleanClaims(cs) && c in cs && d in cs && c.host == d.host && c.cluster == d.cluster
    ensures c == d
  {
    var i :| 0 <= i < |cs| && cs[i] == c;
    var j :| 0 <= j < |cs| && cs[j] == d;
    assert i == j;
  }

  /** Routing reads nothing of a tunnel but its hosts. */
  lemma RoutedAlike(rs: seq<D.Tunnel>, ts: seq<D.Tunnel>)
    requires |rs| == |ts| && forall i :: 0 <= i < |rs| ==> rs[i].hosts == ts[i].hosts
    requires Routing.RoutingOk(rs)
    ensures Routing.RoutingOk(ts)
  {
    hide Routing.NoShadow, Sorting.Distinct, Routing.LowerAll;
    forall t | t in ts
      ensures Sorting.Distinct(Routing.LowerAll(t.hosts)) && Routing.NoShadow(Routing.LowerAll(t.hosts))
    {
      var i :| 0 <= i < |ts| && ts[i] == t;
      assert rs[i] in rs;
    }
    forall a, b | 0 <= a < b < |ts| ensures Routing.LowerHosts(ts[a]) !! Routing.LowerHosts(ts[b]) {
      assert Routing.LowerHosts(rs[a]) !! Routing.LowerHosts(rs[b]);
    }
  }

  lemma RoutedIff(accounts: map<string, Account>, derived: seq<D.Tunnel>)
    ensures Routing.RoutingOk(AllRouted(AllFromDerived(accounts, derived))) <==> Routing.RoutingOk(derived)
  {
    var rs := AllRouted(AllFromDerived(accounts, derived));
    assert forall i :: 0 <= i < |derived| ==> rs[i].hosts == derived[i].hosts;
    hide Routing.RoutingOk;
    if Routing.RoutingOk(rs) {
      RoutedAlike(rs, derived);
    }
    if Routing.RoutingOk(derived) {
      RoutedAlike(derived, rs);
    }
  }

  lemma LoadedHostsLower(l: Loading)
    requires Done(l)
    ensures DnsWriters.LowerHosts(l.out)
  {
    LoadedParts(l);
    hide *;
    DerivedHostsLower(CatalogInput(l), l.version, l.catalog, l.derived);
    LowerAllHosts(l.file.accounts, l.derived, l.out);
  }

  lemma DerivedHostsLower(input: D.Input, version: int, es: CatalogModel.Exposures, derived: seq<D.Tunnel>)
    requires CatalogModel.ValidCatalog(version, es) && input.exposures == CatalogRouting.CatalogExposures(es)
    requires D.DerivedTunnels(input, derived)
    ensures forall i, h :: 0 <= i < |derived| && h in derived[i].hosts ==> ToLower(h) == h
  {
    hide *;
    CatalogRouting.CatalogClaimsClean(input, version, es);
    forall i | 0 <= i < |derived| ensures forall h :: h in derived[i].hosts ==> ToLower(h) == h {
      assert derived[i] in derived;
      Routing.DerivedTunnelRoutes(input, derived, derived[i]);
    }
  }

  lemma LowerAllHosts(accounts: map<string, Account>, derived: seq<D.Tunnel>, out: Registry)
    requires out.tunnels == AllFromDerived(accounts, derived)
    requires forall i, h :: 0 <= i < |derived| && h in derived[i].hosts ==> ToLower(h) == h
    ensures DnsWriters.LowerHosts(out)
  {
    forall t, h | t in out.tunnels && h in t.hosts ensures IsLower(h) {
      var i :| 0 <= i < |out.tunnels| && out.tunnels[i] == t;
      assert h in derived[i].hosts;
    }
  }

  /** In a loaded configuration a name of a zone has at most one CNAME writer among all tunnels and records. */
  lemma LoadedOneWriter(l: Loading, zone: string, name: string, v: DnsWriters.Writer, w: DnsWriters.Writer)
    requires Done(l) && DnsWriters.Writes(l.out, zone, name, v) && DnsWriters.Writes(l.out, zone, name, w)
    ensures v == w
  {
    LoadedHostsLower(l);
    LoadedParts(l);
    assert RegistryOk(l.out) by {
      hide RegistryOk;
    }
    hide *;
    DnsWriters.LowerHostsAgree(l.out);
    DnsWriters.OneCnameWriter(l.out, zone, name, v, w);
  }

  // ---------------------------------------------------------------------------
  // The managed WAF
  // ---------------------------------------------------------------------------

  lemma ClaimedHostOk(input: D.Input, version: int, es: CatalogModel.Exposures, c: D.Claim, name: string)
    requires CatalogModel.ValidCatalog(version, es) && input.exposures == CatalogRouting.CatalogExposures(es)
    requires c in D.Claims(input) && !HostOrder.IsWildcard(c.host) && name != ""
      && Zones.ZoneOf(D.ZoneNames(input), c.host) == name
    ensures HostOk(name, c.host)
  {
    hide CatalogModel.ValidCatalog;
    CatalogRouting.ClaimsAreServed(input, es, c.cluster, c.host);
    CatalogRouting.ServedHostOk(version, es, c.cluster, c.host);
    Zones.ZoneOfListed(D.ZoneNames(input), c.host);
    assert TrimPrefix(c.host, "*.") == c.host;
  }

  lemma RecordHostOk(zone: string, e: Record)
    requires EntryOk(zone, e) && !HasPrefix(e.name, "*.")
    ensures HostOk(zone, e.name)
  {
    hide IsLower, Zones.Holds, ContentOk;
    assert TrimPrefix(e.name, "*.") == e.name;
    forall i | 0 <= i < |e.name| ensures e.name[i] != '*' && e.name[i] != '/' && e.name[i] != ':' {
      assert e.name[i] !in "*/:\"\\ ";
      assert "*/:\"\\ "[0] == '*' && "*/:\"\\ "[1] == '/' && "*/:\"\\ "[2] == ':';
    }
  }

  lemma CoveredHostOk(r: Registry, name: string, e: Record)
    requires RegistryOk(r) && name in r.zones && e in r.zones[name].records && WafCovered(e) && RecordTaken(e)
    ensures HostOk(name, e.name)
  {
    assert ZoneOk(r.accounts, name, r.zones[name]);
    RecordHostOk(name, e);
  }

  lemma WafZoneManaged(r: Registry, name: string)
    requires RegistryOk(r) && name in r.zones && WafEnabled(r.zones[name])
    ensures name in WafZones(r.zones) && name != ""
  {
    assert ZoneOk(r.accounts, name, r.zones[name]);
  }

  lemma DerivedHostsOk(input: D.Input, version: int, es: CatalogModel.Exposures, name: string)
    requires CatalogModel.ValidCatalog(version, es) && input.exposures == CatalogRouting.CatalogExposures(es)
    requires D.Accepted(input) && name in input.wafZones && name != ""
    ensures forall h :: h in D.WafSet(input, D.Claims(input), name) ==> HostOk(name, h)
  {
    hide CatalogModel.ValidCatalog, HostOk;
    forall h | h in D.WafSet(input, D.Claims(input), name) ensures HostOk(name, h) {
      var c :| c in D.Claims(input) && !c.wafOff && Zones.ZoneOf(D.ZoneNames(input), c.host) == name && c.host == h;
      assert !D.WafRefused(input, c);
      ClaimedHostOk(input, version, es, c, name);
    }
  }

  /** The hosts the catalog claims in a zone and has not opted out. */
  ghost function CatalogHosts(input: D.Input, zone: string): set<string> {
    D.WafSet(input, D.Claims(input), zone)
  }

  ghost predicate CoversCatalog(input: D.Input, zones: map<string, Zone>) {
    forall n, h :: n in zones && WafEnabled(zones[n]) && h in CatalogHosts(input, n) ==> h in zones[n].wafHosts
  }

  ghost predicate CoversRecords(zones: map<string, Zone>) {
    forall n, e :: n in zones && WafEnabled(zones[n]) && e in zones[n].records && WafCovered(e) ==>
      e.name in zones[n].wafHosts
  }

  lemma LoadedListOk(l: Loading, name: string)
    requires Done(l) && name in l.file.zones && WafEnabled(l.file.zones[name])
    ensures name in l.out.zones && ListOk(name, l.out.zones[name])
    ensures forall h :: h in CatalogHosts(CatalogInput(l), name) ==> h in l.out.zones[name].wafHosts
    ensures forall e :: e in l.file.zones[name].records && WafCovered(e) ==> e.name in l.out.zones[name].wafHosts
  {
    LoadedParts(l);
    var input, z := CatalogInput(l), l.file.zones[name];
    WafZoneManaged(l.file, name);
    assert ZoneWafOk(z);
    assert forall e :: e in z.records && WafCovered(e) ==> RecordTaken(e);
    WafListed(l.file.zones, CacheFrom(input), input, name);
    hide *;
    DerivedHostsOk(input, l.version, l.catalog, name);
    forall e | e in z.records && WafCovered(e) ensures HostOk(name, e.name) {
      CoveredHostOk(l.file, name, e);
    }
    ListBuilt(name, l.out.zones[name], z.records, CatalogHosts(input, name));
  }

  /** What filling in both lists gives an enabled zone. */
  lemma WafListed(zones: map<string, Zone>, cached: map<string, seq<string>>, input: D.Input, name: string)
    requires name in zones && WafEnabled(zones[name]) && name in input.wafZones
    ensures name in WithWaf(WithCache(zones, cached), WafFrom(input))
    ensures var z := WithWaf(WithCache(zones, cached), WafFrom(input))[name];
      z.records == zones[name].records && WafEnabled(z)
        && z.wafHosts == WafList(zones[name], Sorting.SortedKeys(CatalogHosts(input, name)))
  {
    hide D.WafSet, D.Claims;
  }

  lemma ListBuilt(name: string, z: Zone, records: seq<Record>, fromCatalog: set<string>)
    requires WafEnabled(z) && z.records == records && z.wafHosts == WafList(z, Sorting.SortedKeys(fromCatalog))
    requires forall h :: h in fromCatalog ==> HostOk(name, h)
    requires forall e :: e in records && WafCovered(e) ==> HostOk(name, e.name)
    ensures ListOk(name, z)
    ensures forall h :: h in fromCatalog ==> h in z.wafHosts
    ensures forall e :: e in records && WafCovered(e) ==> e.name in z.wafHosts
  {
    hide HostOk, WafCovered;
  }

  /**
   After loading and any calls of AddWAFHosts, an enabled zone's list is sorted, without repetition or wildcard and
   inside the zone; it holds every host the catalog claims in the zone and has not opted out, and every covered
   record; nothing was taken away and nothing else of the zones changed.
   */
  lemma WafAfterCalls(l: Loading, calls: seq<Call>)
    requires Done(l)
    ensures ListsOk(AfterCalls(l.out.zones, calls)) && Grown(l.out.zones, AfterCalls(l.out.zones, calls))
    ensures CoversCatalog(CatalogInput(l), AfterCalls(l.out.zones, calls))
    ensures CoversRecords(AfterCalls(l.out.zones, calls))
  {
    var input := CatalogInput(l);
    LoadedZones(l);
    hide Done, HostOk, WafCovered, CatalogInput, CatalogHosts;
    forall name | name in l.out.zones && WafEnabled(l.out.zones[name])
      ensures ListOk(name, l.out.zones[name])
      ensures forall h :: h in CatalogHosts(input, name) ==> h in l.out.zones[name].wafHosts
      ensures forall e :: e in l.out.zones[name].records && WafCovered(e) ==> e.name in l.out.zones[name].wafHosts
    {
      LoadedListOk(l, name);
    }
    CallsKeep(l.out.zones, calls);
    hide AfterCalls, ListOk;
    GrownCovers(input, l.out.zones, AfterCalls(l.out.zones, calls));
  }

  /** Loading fills in the derived lists of a zone and leaves the rest of it as written. */
  lemma LoadedZones(l: Loading)
    requires Done(l)
    ensures l.out.zones.Keys == l.file.zones.Keys
    ensures forall n :: n in l.file.zones ==>
      l.out.zones[n] == l.file.zones[n].(cacheHosts := l.out.zones[n].cacheHosts, wafHosts := l.out.zones[n].wafHosts)
  {
    LoadedParts(l);
    hide *;
    ListsOnly(l.file.zones, CacheFrom(CatalogInput(l)), WafFrom(CatalogInput(l)));
  }

  lemma ListsOnly(zones: map<string, Zone>, cached: map<string, seq<string>>, byZone: map<string, seq<string>>)
    ensures WithWaf(WithCache(zones, cached), byZone).Keys == zones.Keys
    ensures forall n :: n in zones ==>
      var z := WithWaf(WithCache(zones, cached), byZone)[n];
      z == zones[n].(cacheHosts := z.cacheHosts, wafHosts := z.wafHosts)
  {
    hide WafList;
  }

  lemma GrownCovers(input: D.Input, before: map<string, Zone>, after: map<string, Zone>)
    requires CoversCatalog(input, before) && CoversRecords(before) && Grown(before, after)
    ensures CoversCatalog(input, after) && CoversRecords(after)
  {
    hide CatalogHosts, WafCovered;
    forall n | n in before ensures forall h :: h in before[n].wafHosts ==> h in after[n].wafHosts {
      assert forall h :: h in before[n].wafHosts ==> h in AsSet(before[n].wafHosts);
    }
  }
}
