/** When loading succeeds (cloudflare/config/config.go), read off the file, the catalog and the projects alone. */
module LoadOutcome {
  import opened Text
  import opened ConfigModel
  import opened ConfigObject
  import opened LoadedConfig
  import CatalogModel
  import CatalogRouting
  import D = Derivation
  import Dns = DnsPlacement
  import Facts = DerivedTunnelFacts
  import HostOrder
  import Routing
  import Sorting
  import Zones

  // ---------------------------------------------------------------------------
  // Derived tunnels in the registry
  // ---------------------------------------------------------------------------

  lemma SlashSplits(a: string, b: string, c: string, d: string)
    requires '/' !in b && '/' !in d && a + "/" + b == c + "/" + d
    ensures a == c && b == d
  {
    var s, t := a + "/" + b, c + "/" + d;
    assert s[|a|] == '/' && t[|c|] == '/';
    assert forall i :: |a| < i < |s| ==> s[i] == b[i - |a| - 1] != '/';
    assert forall i :: |c| < i < |t| ==> t[i] == d[i - |c| - 1] != '/';
    assert |a| == |c|;
    assert a == s[..|a|] == t[..|c|] == c;
    assert b == s[|a| + 1..] == t[|c| + 1..] == d;
  }

  lemma NoSlash(name: string)
    requires ObjectName(name)
    ensures '/' !in name
  {
    assert forall i :: 0 <= i < |name| ==> NameByte(name[i]);
  }

  /** Tunnels of different clusters or accounts have different sites. */
  lemma SitesDistinct(accounts: map<string, Account>, derived: seq<D.Tunnel>)
    requires forall t :: t in derived ==> ObjectName(t.account)
    requires forall i, j :: 0 <= i < j < |derived| ==> D.TunnelKey(derived[i]) != D.TunnelKey(derived[j])
    ensures Sorting.Distinct(Sites(AllFromDerived(accounts, derived)))
  {
    hide ObjectName;
    var sites := Sites(AllFromDerived(accounts, derived));
    forall i, j | 0 <= i < j < |sites| ensures sites[i] != sites[j] {
      var t, u := derived[i], derived[j];
      assert t in derived && u in derived && D.TunnelKey(t) != D.TunnelKey(u);
      NoSlash(t.account);
      NoSlash(u.account);
      if sites[i] == sites[j] {
        SlashSplits(t.cluster, t.account, u.cluster, u.account);
      }
    }
  }

  lemma FilledZones(r: Registry, input: D.Input, derived: seq<D.Tunnel>)
    ensures Filled(r, input, derived).zones.Keys == r.zones.Keys
    ensures forall n :: n in r.zones ==>
      var z := Filled(r, input, derived).zones[n];
      z == r.zones[n].(cacheHosts := z.cacheHosts, wafHosts := z.wafHosts)
  {
    hide CacheFrom, WafFrom;
    ListsOnly(r.zones, CacheFrom(input), WafFrom(input));
  }

  lemma ListsDoNotMatter(accounts: map<string, Account>, n: string, z: Zone, cached: seq<string>, covered: seq<string>)
    ensures ZoneOk(accounts, n, z.(cacheHosts := cached, wafHosts := covered)) <==> ZoneOk(accounts, n, z)
  {
  }

  lemma FilledRest(r: Registry, input: D.Input, derived: seq<D.Tunnel>)
    ensures var out := Filled(r, input, derived);
      && out.accounts == r.accounts && out.service == r.service && out.namespace == r.namespace && out.r2 == r.r2
      && out.tunnels == AllFromDerived(r.accounts, derived)
  {
    hide CacheFrom, WafFrom;
  }

  lemma SameRegistry(r: Registry, out: Registry)
    requires RegistryOk(r)
    requires out.accounts == r.accounts && out.service == r.service && out.namespace == r.namespace && out.r2 == r.r2
    requires out.zones.Keys == r.zones.Keys && forall n :: n in r.zones ==> ZoneOk(r.accounts, n, out.zones[n])
    ensures RegistryOk(out)
  {
    hide AccountOk, BucketOk, ZoneOk, OneLegacy;
    var n :| n in r.zones;
    assert n in out.zones;
  }

  lemma FilledRegistryOk(r: Registry, input: D.Input, derived: seq<D.Tunnel>)
    requires RegistryOk(r)
    ensures RegistryOk(Filled(r, input, derived))
    ensures ManagedZones(Filled(r, input, derived).zones) == ManagedZones(r.zones)
  {
    FilledZones(r, input, derived);
    FilledRest(r, input, derived);
    var out := Filled(r, input, derived);
    hide Filled, AccountOk, BucketOk, ZoneOk, OneLegacy;
    forall n | n in r.zones ensures ZoneOk(r.accounts, n, out.zones[n]) {
      ListsDoNotMatter(r.accounts, n, r.zones[n], out.zones[n].cacheHosts, out.zones[n].wafHosts);
    }
    hide RegistryOk;
    SameRegistry(r, out);
  }

  lemma HostHasText(host: string)
    requires '.' in host
    ensures CatalogModel.HasText(host)
  {
    var i :| 0 <= i < |host| && host[i] == '.';
  }

  /** What a derived tunnel takes from its input. */
  ghost predicate Placed(input: D.Input, t: D.Tunnel) {
    && t.zones != [] && t.hosts != [] && t.zone in t.zones
    && (forall z :: z in t.zones ==> z in input.zones && input.zones[z] == t.account)
    && forall h :: h in t.hosts ==> Zones.ZoneOf(D.ZoneNames(input), h) in t.zones
  }

  lemma TunnelHasHosts(input: D.Input, derived: seq<D.Tunnel>, t: D.Tunnel)
    requires D.DerivedTunnels(input, derived) && t in derived
    ensures t.hosts != []
  {
  }

  lemma DerivedIsPlaced(input: D.Input, derived: seq<D.Tunnel>, t: D.Tunnel)
    requires D.Accepted(input) && D.DerivedTunnels(input, derived) && t in derived
    ensures Placed(input, t)
  {
    hide D.Accepted, D.DerivedTunnels, D.ZoneNames, Zones.ZoneOf, Dns.TunnelZonesOk;
    TunnelHasHosts(input, derived, t);
    Dns.DerivedZonesOk(input, derived, t);
    forall h | h in t.hosts
      ensures Zones.ZoneOf(D.ZoneNames(input), h) in t.zones && t.zone in t.zones
      ensures forall z :: z in t.zones ==> z in input.zones && input.zones[z] == t.account
    {
      Facts.OwnZonesResolve(input, derived, t, h);
      Zones.ZoneOfListed(t.zones, h);
    }
    assert t.hosts[0] in t.hosts;
  }

  /** The registry holds the zones of the input, with their accounts. */
  ghost predicate Holds(out: Registry, input: D.Input) {
    && D.ZoneNames(input) == Sorting.SortedKeys(ManagedZones(out.zones))
    && forall n :: n in input.zones ==>
         n in out.zones && out.zones[n].account == input.zones[n] && input.zones[n] in out.accounts
  }

  /** The hosts, accounts and zones of a derived tunnel agree with the registry it came from. */
  lemma DerivedTunnelOk(out: Registry, input: D.Input, t: D.Tunnel)
    requires Placed(input, t) && Holds(out, input) && forall h :: h in t.hosts ==> '.' in h
    ensures TunnelOk(out, FromDerived(out.accounts, t)) && t.account in out.accounts
  {
    hide D.ZoneNames, ManagedZones, Zones.ZoneOf, CatalogModel.HasText;
    assert t.zone in input.zones;
    forall i | 0 <= i < |t.hosts| ensures CatalogModel.HasText(t.hosts[i]) && ZoneOf(out, t.hosts[i]) in t.zones {
      assert t.hosts[i] in t.hosts;
      HostHasText(t.hosts[i]);
    }
    hide ZoneOf;
  }

  // ---------------------------------------------------------------------------
  // Who writes a record
  // ---------------------------------------------------------------------------

  /** The catalog claims the name in the zone and leaves its record to the tunnel. */
  ghost predicate ClaimWrites(input: D.Input, zone: string, host: string) {
    (exists c :: c in D.Claims(input) && c.host == host && !c.elsewhere)
      && Zones.ZoneOf(D.ZoneNames(input), host) == zone
  }

  /** A host of a derived tunnel is claimed under the tunnel's key. */
  lemma TunnelHostClaimed(input: D.Input, derived: seq<D.Tunnel>, t: D.Tunnel, host: string)
    requires D.DerivedTunnels(input, derived) && t in derived && host in t.hosts
    ensures exists c :: c in D.Claims(input) && c.host == host && D.KeyOf(input, c) == Some(D.TunnelKey(t))
  {
    hide D.Claims, D.KeyOf, D.HostsOf;
    Facts.HostsOfMembers(input, D.Claims(input), D.TunnelKey(t));
    HostOrder.OrderedIs(D.HostsOf(input, D.Claims(input), D.TunnelKey(t)));
  }

  lemma OwnerIsClaim(input: D.Input, derived: seq<D.Tunnel>, t: D.Tunnel, u: Tunnel, zone: string, host: string)
    requires D.Accepted(input) && D.DerivedTunnels(input, derived) && t in derived
    requires u.zones == t.zones && u.hosts == t.hosts && u.dnsElsewhere == t.dnsElsewhere && OwnsRecord(u, zone, host)
    ensures ClaimWrites(input, zone, host)
  {
    hide D.Accepted, D.DerivedTunnels, D.Claims, D.KeyOf, Zones.ZoneOf, D.ZoneNames;
    DerivedIsPlaced(input, derived, t);
    Facts.OwnZonesResolve(input, derived, t, host);
    Facts.DnsSplitsHosts(input, derived, t);
    TunnelHostClaimed(input, derived, t, host);
    var c :| c in D.Claims(input) && c.host == host && D.KeyOf(input, c) == Some(D.TunnelKey(t));
    assert !c.elsewhere;
  }

  /** The tunnel that serves a claim owns its record, when the claim leaves it to the tunnel. */
  lemma ClaimIsOwned(input: D.Input, derived: seq<D.Tunnel>, t: D.Tunnel, u: Tunnel, zone: string, c: D.Claim)
    requires D.Accepted(input) && D.DerivedTunnels(input, derived) && Routing.CleanClaims(D.Claims(input))
    requires t in derived && c in D.Claims(input) && !c.elsewhere && Facts.ServesClaim(input, t, c)
    requires Zones.ZoneOf(D.ZoneNames(input), c.host) == zone
    requires u.zones == t.zones && u.hosts == t.hosts && u.dnsElsewhere == t.dnsElsewhere
    ensures OwnsRecord(u, zone, c.host)
  {
    Facts.OwnerIsKey(input, c, D.TunnelKey(t));
    hide D.Accepted, D.DerivedTunnels, D.Claims, Zones.ZoneOf, D.ZoneNames, Routing.CleanClaims;
    DerivedIsPlaced(input, derived, t);
    Facts.OwnZonesResolve(input, derived, t, c.host);
    Facts.DnsSplitsHosts(input, derived, t);
    if c.host in t.dnsElsewhere {
      var d :| d in D.Claims(input) && d.elsewhere && d.host == c.host && D.KeyOf(input, d) == Some(D.TunnelKey(t));
      OneClaimOnCluster(D.Claims(input), c, d);
    }
  }

  /**
   Some derived tunnel writes a name of a zone exactly when the catalog claims it there and leaves it to the tunnel.
   */
  lemma OwnerIff(input: D.Input, derived: seq<D.Tunnel>, accounts: map<string, Account>, zone: string, host: string)
    requires D.Accepted(input) && D.DerivedTunnels(input, derived) && Routing.CleanClaims(D.Claims(input))
    ensures SomeOwner(AllFromDerived(accounts, derived), zone, host) <==> ClaimWrites(input, zone, host)
  {
    var ts := AllFromDerived(accounts, derived);
    hide D.Accepted, D.DerivedTunnels, D.Claims, Zones.ZoneOf, D.ZoneNames, Routing.CleanClaims, OwnsRecord;
    if SomeOwner(ts, zone, host) {
      var i :| 0 <= i < |ts| && OwnsRecord(ts[i], zone, host);
      OwnerIsClaim(input, derived, derived[i], ts[i], zone, host);
    }
    if ClaimWrites(input, zone, host) {
      var c :| c in D.Claims(input) && c.host == host && !c.elsewhere;
      Facts.ClaimServedOnce(input, derived, c);
      var i :| 0 <= i < |derived| && Facts.ServesClaim(input, derived[i], c);
      ClaimIsOwned(input, derived, derived[i], ts[i], zone, c);
    }
  }

  // ---------------------------------------------------------------------------
  // When the filled registry is valid
  // ---------------------------------------------------------------------------

  /** Every origin switch of the file moves a record the catalog claims for a tunnel. */
  ghost predicate OriginsClaimed(r: Registry, input: D.Input) {
    forall n, h :: n in r.zones && h in r.zones[n].origins ==> ClaimWrites(input, n, h)
  }

  /** No record of the file lies on a name the catalog claims for a tunnel. */
  ghost predicate RecordsUnclaimed(r: Registry, input: D.Input) {
    forall n, e :: n in r.zones && e in r.zones[n].records ==> !ClaimWrites(input, n, e.name)
  }

  lemma OriginsIff(r: Registry, input: D.Input, out: Registry)
    requires out.zones.Keys == r.zones.Keys && forall n :: n in r.zones ==> out.zones[n].origins == r.zones[n].origins
    requires forall n, h :: SomeOwner(out.tunnels, n, h) <==> ClaimWrites(input, n, h)
    ensures OriginsOk(out) <==> OriginsClaimed(r, input)
  {
    hide SomeOwner, ClaimWrites;
    if OriginsOk(out) {
      forall n, h | n in r.zones && h in r.zones[n].origins ensures ClaimWrites(input, n, h) {
        assert ZoneOriginsOk(out.tunnels, n, out.zones[n]);
      }
    }
  }

  lemma RecordsIff(r: Registry, input: D.Input, out: Registry)
    requires out.zones.Keys == r.zones.Keys && forall n :: n in r.zones ==> out.zones[n].records == r.zones[n].records
    requires forall n, h :: SomeOwner(out.tunnels, n, h) <==> ClaimWrites(input, n, h)
    ensures RecordsFree(out) <==> RecordsUnclaimed(r, input)
  {
    hide SomeOwner, ClaimWrites;
    if RecordsFree(out) {
      forall n, e | n in r.zones && e in r.zones[n].records ensures !ClaimWrites(input, n, e.name) {
        assert ZoneRecordsFree(out.tunnels, n, out.zones[n]);
        var i :| 0 <= i < |out.zones[n].records| && out.zones[n].records[i] == e;
      }
    }
    if RecordsUnclaimed(r, input) {
      forall n | n in out.zones ensures ZoneRecordsFree(out.tunnels, n, out.zones[n]) {
        forall i | 0 <= i < |out.zones[n].records| ensures !SomeOwner(out.tunnels, n, out.zones[n].records[i].name) {
          assert out.zones[n].records[i] in r.zones[n].records;
        }
      }
    }
  }

  lemma AnyTunnel(input: D.Input, derived: seq<D.Tunnel>)
    requires D.Accepted(input) && D.DerivedTunnels(input, derived)
    ensures derived != [] <==> D.Claims(input) != []
  {
    hide D.Accepted, D.Claims, D.TunnelFor;
    if derived != [] {
      var t := derived[0];
      assert t in derived;
      TunnelHasHosts(input, derived, t);
      TunnelHostClaimed(input, derived, t, t.hosts[0]);
    }
    if D.Claims(input) != [] {
      var c := D.Claims(input)[0];
      assert c in D.Claims(input);
      Facts.ClaimServedOnce(input, derived, c);
    }
  }

  lemma TunnelsOk(out: Registry, input: D.Input, derived: seq<D.Tunnel>)
    requires D.Accepted(input) && D.DerivedTunnels(input, derived) && Holds(out, input)
    requires out.tunnels == AllFromDerived(out.accounts, derived) && RegistryOk(out)
    requires forall i, h :: 0 <= i < |derived| && h in derived[i].hosts ==> '.' in h
    ensures (forall t :: t in out.tunnels ==> TunnelOk(out, t)) && Sorting.Distinct(Sites(out.tunnels))
  {
    KeysDiffer(input, derived);
    AccountsNamed(out);
    hide D.Accepted, D.DerivedTunnels, Holds, RegistryOk, TunnelOk, Placed, ObjectName;
    forall i | 0 <= i < |derived|
      ensures TunnelOk(out, FromDerived(out.accounts, derived[i])) && ObjectName(derived[i].account)
    {
      assert derived[i] in derived;
      DerivedIsPlaced(input, derived, derived[i]);
      DerivedTunnelOk(out, input, derived[i]);
    }
    SitesDistinct(out.accounts, derived);
  }

  lemma KeysDiffer(input: D.Input, derived: seq<D.Tunnel>)
    requires D.DerivedTunnels(input, derived)
    ensures forall i, j :: 0 <= i < j < |derived| ==> D.TunnelKey(derived[i]) != D.TunnelKey(derived[j])
  {
  }

  lemma AccountsNamed(r: Registry)
    requires RegistryOk(r)
    ensures forall a :: a in r.accounts ==> ObjectName(a)
  {
    forall a | a in r.accounts ensures ObjectName(a) {
      assert AccountOk(a, r.accounts[a]);
      hide ObjectName;
    }
  }

  lemma FilledHolds(r: Registry, xs: seq<D.Exposure>, business: set<string>, out: Registry)
    requires RegistryOk(r) && ManagedZones(out.zones) == ManagedZones(r.zones) && out.accounts == r.accounts
    requires out.zones.Keys == r.zones.Keys && forall n :: n in r.zones ==> out.zones[n].account == r.zones[n].account
    ensures Holds(out, InputOf(r, xs, business))
  {
    var input := InputOf(r, xs, business);
    assert input.zones.Keys == ManagedZones(r.zones);
    forall n | n in input.zones ensures input.zones[n] in out.accounts {
      assert ZoneOk(r.accounts, n, r.zones[n]);
      hide ZoneOk;
    }
  }

  /** Each host a derived tunnel of a valid catalog serves has a dot. */
  lemma HostsHaveDots(input: D.Input, version: int, es: CatalogModel.Exposures, derived: seq<D.Tunnel>)
    requires CatalogModel.ValidCatalog(version, es) && input.exposures == CatalogRouting.CatalogExposures(es)
    requires D.DerivedTunnels(input, derived)
    ensures forall i, h :: 0 <= i < |derived| && h in derived[i].hosts ==> '.' in h
  {
    hide CatalogModel.ValidCatalog, D.DerivedTunnels, D.Claims, CatalogRouting.CatalogExposures,
      CatalogRouting.ServedOn,
      D.KeyOf;
    forall i, h | 0 <= i < |derived| && h in derived[i].hosts ensures '.' in h {
      assert derived[i] in derived;
      TunnelHostClaimed(input, derived, derived[i], h);
      var c :| c in D.Claims(input) && c.host == h && D.KeyOf(input, c) == Some(D.TunnelKey(derived[i]));
      CatalogRouting.ClaimsAreServed(input, es, c.cluster, h);
      CatalogRouting.ServedHostOk(version, es, c.cluster, h);
    }
  }

  /** The parts of the file and the catalog that decide whether the filled registry is valid. */
  ghost predicate Fits(r: Registry, es: CatalogModel.Exposures, input: D.Input) {
    && D.Claims(input) != [] && (forall h :: !CatalogRouting.ServedTwice(es, h))
    && OriginsClaimed(r, input) && RecordsUnclaimed(r, input)
  }

  /** The filled registry beside the file it came from. */
  ghost predicate FilledFrom(r: Registry, input: D.Input, derived: seq<D.Tunnel>, out: Registry) {
    && RegistryOk(out) && Holds(out, input) && out.tunnels == AllFromDerived(out.accounts, derived)
    && out.zones.Keys == r.zones.Keys
    && forall n :: n in r.zones ==>
         out.zones[n].origins == r.zones[n].origins && out.zones[n].records == r.zones[n].records
  }

  lemma FilledIsFrom(r: Registry, xs: seq<D.Exposure>, business: set<string>, derived: seq<D.Tunnel>)
    requires RegistryOk(r)
    ensures FilledFrom(r, InputOf(r, xs, business), derived, Filled(r, InputOf(r, xs, business), derived))
  {
    var input := InputOf(r, xs, business);
    FilledZones(r, input, derived);
    FilledRest(r, input, derived);
    hide InputOf, Filled, RegistryOk, ManagedZones, Holds;
    FilledRegistryOk(r, input, derived);
    FilledHolds(r, xs, business, Filled(r, input, derived));
  }

  lemma OwnersAreClaims(r: Registry, input: D.Input, derived: seq<D.Tunnel>, out: Registry)
    requires FilledFrom(r, input, derived, out)
    requires D.Accepted(input) && D.DerivedTunnels(input, derived) && Routing.CleanClaims(D.Claims(input))
    ensures OriginsOk(out) <==> OriginsClaimed(r, input)
    ensures RecordsFree(out) <==> RecordsUnclaimed(r, input)
  {
    hide RegistryOk, Holds, D.Accepted, D.DerivedTunnels, Routing.CleanClaims, SomeOwner, ClaimWrites, D.Claims,
      OriginsOk,
      RecordsFree, OriginsClaimed, RecordsUnclaimed;
    forall n, h ensures SomeOwner(out.tunnels, n, h) <==> ClaimWrites(input, n, h) {
      OwnerIff(input, derived, out.accounts, n, h);
    }
    OriginsIff(r, input, out);
    RecordsIff(r, input, out);
  }

  lemma FromTunnelsOk(r: Registry, input: D.Input, derived: seq<D.Tunnel>, out: Registry)
    requires FilledFrom(r, input, derived, out) && D.Accepted(input) && D.DerivedTunnels(input, derived)
    requires forall i, h :: 0 <= i < |derived| && h in derived[i].hosts ==> '.' in h
    ensures RegistryOk(out) && (forall t :: t in out.tunnels ==> TunnelOk(out, t))
      && Sorting.Distinct(Sites(out.tunnels))
    ensures out.tunnels == AllFromDerived(out.accounts, derived)
  {
    hide RegistryOk, Holds, D.Accepted, D.DerivedTunnels, TunnelOk, Sorting.Distinct;
    TunnelsOk(out, input, derived);
  }

  lemma ValidParts(out: Registry, derived: seq<D.Tunnel>)
    requires RegistryOk(out) && (forall t :: t in out.tunnels ==> TunnelOk(out, t))
      && Sorting.Distinct(Sites(out.tunnels))
    requires out.tunnels == AllFromDerived(out.accounts, derived)
    ensures Valid(out) <==> derived != [] && OriginsOk(out) && RecordsFree(out) && Routing.RoutingOk(derived)
  {
    hide RegistryOk, TunnelOk, OriginsOk, RecordsFree, Routing.RoutingOk, Sorting.Distinct;
    RoutedIff(out.accounts, derived);
  }

  lemma FromValidIff(r: Registry, version: int, es: CatalogModel.Exposures, input: D.Input, derived: seq<D.Tunnel>,
      out: Registry)
    requires FilledFrom(r, input, derived, out) && D.Accepted(input) && D.DerivedTunnels(input, derived)
    requires CatalogModel.ValidCatalog(version, es) && input.exposures == CatalogRouting.CatalogExposures(es)
    ensures Valid(out) <==> Fits(r, es, input)
  {
    hide *;
    HostsHaveDots(input, version, es, derived);
    FromTunnelsOk(r, input, derived, out);
    ValidParts(out, derived);
    CatalogRouting.CatalogClaimsClean(input, version, es);
    OwnersAreClaims(r, input, derived, out);
    CatalogRouting.CatalogRoutes(input, version, es, derived);
    AnyTunnel(input, derived);
    FitsIs(r, es, input);
  }

  lemma FitsIs(r: Registry, es: CatalogModel.Exposures, input: D.Input)
    ensures Fits(r, es, input)
       <==> D.Claims(input) != [] && (forall h :: !CatalogRouting.ServedTwice(es, h)) && OriginsClaimed(r, input)
            && RecordsUnclaimed(r, input)
  {
    hide D.Claims, CatalogRouting.ServedTwice, OriginsClaimed, RecordsUnclaimed;
  }

  /**
   The registry filled from a valid catalog is valid exactly when the catalog claims some host for a tunnel, no host is
   served on two clusters, every origin switch moves a claimed record and no declared record lies on one.
   */
  lemma FilledValidIff(r: Registry, version: int, es: CatalogModel.Exposures, business: set<string>,
      derived: seq<D.Tunnel>)
    requires RegistryOk(r) && CatalogModel.ValidCatalog(version, es)
    requires D.Accepted(InputOf(r, CatalogRouting.CatalogExposures(es), business))
    requires D.DerivedTunnels(InputOf(r, CatalogRouting.CatalogExposures(es), business), derived)
    ensures Valid(Filled(r, InputOf(r, CatalogRouting.CatalogExposures(es), business), derived))
       <==> Fits(r, es, InputOf(r, CatalogRouting.CatalogExposures(es), business))
  {
    var input := InputOf(r, CatalogRouting.CatalogExposures(es), business);
    assert input.exposures == CatalogRouting.CatalogExposures(es);
    hide *;
    FilledIsFrom(r, CatalogRouting.CatalogExposures(es), business, derived);
    FromValidIff(r, version, es, input, derived, Filled(r, input, derived));
  }

  /** Loading a file with a valid catalog succeeds exactly when these conditions on the two hold. */
  lemma LoadIff(r: Registry, version: int, es: CatalogModel.Exposures, projects: Option<set<string>>)
    requires CatalogModel.ValidCatalog(version, es)
    ensures var input := InputOf(r, CatalogRouting.CatalogExposures(es), Business(projects));
      LoadAccepts(r, es, projects) <==>
        && RegistryOk(r) && (projects.None? ==> !CachesAnything(r.zones))
        && DeriveAccepts(r, input) && Fits(r, es, input)
  {
    var input := InputOf(r, CatalogRouting.CatalogExposures(es), Business(projects));
    if RegistryOk(r) && DeriveAccepts(r, input) {
      assert D.Accepted(input);
      hide InputOf, RegistryOk, D.Accepted, D.DerivedTunnels, CatalogModel.ValidCatalog, Valid, Filled, Fits,
        FilledValid;
      var derived := Facts.DerivedExists(input);
      FilledDecides(r, input, derived);
      FilledValidIff(r, version, es, Business(projects), derived);
    }
  }
}
