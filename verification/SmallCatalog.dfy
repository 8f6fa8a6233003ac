/** Catalogs of one exposure with one group on one cluster, and what loading a registry against one gives. */
module SmallCatalog {
  import opened Text
  import opened CatalogModel
  import opened ConfigModel
  import opened ConfigObject
  import opened LoadedConfig
  import CatalogRouting
  import CatalogSites
  import D = Derivation
  import Facts = DerivedTunnelFacts
  import HostOrder
  import LoadOutcome
  import ManagedWaf
  import Sorting
  import Zones

  function Named(host: string): Domain {
    Domain(host, "", "", false, "", "")
  }

  function NamedAll(hosts: seq<string>): (domains: seq<Domain>)
    ensures |domains| == |hosts| && forall i :: 0 <= i < |hosts| ==> domains[i] == Named(hosts[i])
  {
    seq(|hosts|, i requires 0 <= i < |hosts| => Named(hosts[i]))
  }

  function GroupOf(hosts: seq<string>): Group {
    Group("", NamedAll(hosts), ["n"], false, false, false)
  }

  function ExposureOf(hosts: seq<string>): Exposure {
    Exposure("class", CloudflareTunnel, ["acc"], None, map["c" := Cluster("", map["g" := GroupOf(hosts)])])
  }

  function CatalogOf(hosts: seq<string>): Exposures {
    map["x" := ExposureOf(hosts)]
  }

  function DeriveGroup(hosts: seq<string>): D.Group {
    D.Group("g", "c", hosts, ["n"], [], [])
  }

  function DeriveExposure(hosts: seq<string>): D.Exposure {
    D.Exposure("x", ["acc"], [DeriveGroup(hosts)])
  }

  /** Hosts whose listeners and certificates have names of their own. */
  ghost predicate Apart(hosts: seq<string>) {
    && hosts != [] && (forall h :: h in hosts ==> DomainOk(h)) && Sorting.Distinct(hosts)
    && Sorting.Distinct(ListenersOf(NamedAll(hosts))) && Sorting.Distinct(SecretsOf(NamedAll(hosts)))
  }

  lemma OneApart(host: string)
    requires DomainOk(host)
    ensures Apart([host])
  {
    hide DomainOk, ListenersOf, SecretsOf;
    assert |ListenersOf(NamedAll([host]))| == 1 && |SecretsOf(NamedAll([host]))| == 1 by {
      PrintedLengths(NamedAll([host]));
    }
  }

  lemma PrintedLengths(domains: seq<Domain>)
    ensures |ListenersOf(domains)| == |domains| == |SecretsOf(domains)|
  {
  }

  lemma TwoApart(h: string, k: string)
    requires DomainOk(h) && DomainOk(k) && h != k && DomainSlug(h) != DomainSlug(k)
    ensures Apart([h, k])
  {
    var ds := NamedAll([h, k]);
    hide DomainOk, DomainSlug;
    assert ListenersOf(ds) == [DomainSlug(h), DomainSlug(k)];
    assert SecretsOf(ds) == [DomainSlug(h) + "-tls", DomainSlug(k) + "-tls"];
    TailsDiffer(DomainSlug(h), DomainSlug(k));
  }

  lemma TailsDiffer(s: string, t: string)
    requires s != t
    ensures s + "-tls" != t + "-tls"
  {
    assert s == (s + "-tls")[..|s|] && t == (t + "-tls")[..|t|];
    assert |s + "-tls"| == |s| + 4 && |t + "-tls"| == |t| + 4;
  }

  lemma GroupOfOk(hosts: seq<string>)
    requires Apart(hosts)
    ensures GroupOk(GroupOf(hosts))
  {
    var g := GroupOf(hosts);
    FirstRepeatIs(g.routeNamespaces);
    assert HostsOf(g.domains) == hosts;
    hide FirstRepeat, DomainOk, ListenersOf, SecretsOf;
    forall d | d in g.domains ensures DomainOk(d.host) && NamesOk(g, d) {
      var i :| 0 <= i < |hosts| && d == Named(hosts[i]);
      assert hosts[i] in hosts;
    }
  }

  lemma ExposureOfOk(hosts: seq<string>)
    requires Apart(hosts)
    ensures ExposureOk(ExposureOf(hosts))
  {
    var e := ExposureOf(hosts);
    GroupOfOk(hosts);
    FirstRepeatIs(e.accounts);
    assert "c" in e.clusters && "g" in e.clusters["c"].groups;
    hide GroupOk, FirstRepeat;
    assert ArrivalOk(e, GroupOf(hosts)) by {
      assert forall d :: d in NamedAll(hosts) ==> d.waf == "" && d.wafReason == "" && !d.dnsElsewhere;
    }
  }

  lemma {:induction false} NothingElsewhere(domains: seq<Domain>)
    requires forall d :: d in domains ==> !d.dnsElsewhere && d.waf == ""
    ensures ElsewhereHosts(domains) == [] && WafOffHosts(domains) == []
  {
    if domains != [] {
      NothingElsewhere(domains[..|domains| - 1]);
    }
  }

  lemma GroupsAre(hosts: seq<string>)
    ensures GroupsOf(ExposureOf(hosts)) == [DeriveGroup(hosts)]
  {
    var clusters := ExposureOf(hosts).clusters;
    var groups := clusters["c"].groups;
    NothingElsewhere(NamedAll(hosts));
    assert HostsOf(NamedAll(hosts)) == hosts;
    assert ToDerive("g", "c", GroupOf(hosts)) == DeriveGroup(hosts);
    assert clusters.Keys == {"c"} && groups.Keys == {"g"};
    CatalogSites.OneKey("c");
    CatalogSites.OneKey("g");
    hide ToDerive, GroupOf, Sorting.SortedKeys;
    assert ["g"][..0] == [] && ["c"][..0] == [];
    assert ClusterGroups([], "c", groups, ["g"]) == [DeriveGroup(hosts)];
    assert ExposureGroups(clusters, ["c"]) == ClusterGroups([], "c", groups, ["g"]);
  }

  lemma ExposuresAre(hosts: seq<string>)
    ensures CatalogRouting.CatalogExposures(CatalogOf(hosts)) == [DeriveExposure(hosts)]
  {
    var es := CatalogOf(hosts);
    GroupsAre(hosts);
    assert es.Keys == {"x"} && es["x"] == ExposureOf(hosts);
    CatalogSites.OneKey("x");
    hide GroupsOf, Sorting.SortedKeys, CatalogOf;
    assert ["x"][..0] == [] && CatalogRouting.TunnelExposures(es, []) == [];
  }

  lemma CatalogOfValid(hosts: seq<string>)
    requires Apart(hosts)
    ensures ValidCatalog(1, CatalogOf(hosts))
  {
    var es := CatalogOf(hosts);
    ExposureOfOk(hosts);
    SitesApart(hosts);
    NoBarIn(hosts);
    assert "x" in es && forall n :: n in es ==> es[n] == ExposureOf(hosts);
    hide ExposureOk, AllSiteKeys, CatalogOf, CatalogSites.AllSites, Apart, CatalogSites.NoBar;
    CatalogSites.UniqueWithoutBars(es);
  }

  lemma NoBarIn(hosts: seq<string>)
    ensures CatalogSites.NoBar(CatalogOf(hosts))
  {
  }

  lemma SitesApart(hosts: seq<string>)
    requires Sorting.Distinct(hosts)
    ensures Sorting.Distinct(CatalogSites.AllSites(CatalogOf(hosts)))
  {
    var g := DeriveGroup(hosts);
    GroupsAre(hosts);
    CatalogSites.OneExposureSites("x", ExposureOf(hosts));
    hide CatalogSites.AllSites, GroupsOf, ExposureOf;
    assert [g][..0] == [];
    assert CatalogSites.GroupSites([], [g]) == CatalogSites.HostSites(g);
  }

  // ---------------------------------------------------------------------------
  // Loading
  // ---------------------------------------------------------------------------

  function ClaimFor(host: string): D.Claim {
    D.Claim("c", host, ["acc"], false, false, ["n"])
  }

  function ClaimsFor(hosts: seq<string>): (cs: seq<D.Claim>)
    ensures |cs| == |hosts| && forall i :: 0 <= i < |hosts| ==> cs[i] == ClaimFor(hosts[i])
  {
    seq(|hosts|, i requires 0 <= i < |hosts| => ClaimFor(hosts[i]))
  }

  lemma ClaimsAre(input: D.Input, hosts: seq<string>)
    requires input.exposures == [DeriveExposure(hosts)]
    ensures D.Claims(input) == ClaimsFor(hosts)
  {
    var xs := input.exposures;
    var e := xs[0];
    assert D.GroupClaims(e, e.groups[0]) == ClaimsFor(hosts);
    assert D.ExposureClaims([], e, 0) == [] && D.AllClaims(xs, 0) == [];
    assert D.ExposureClaims([], e, 1) == [] + D.GroupClaims(e, e.groups[0]);
    assert D.AllClaims(xs, 1) == D.ExposureClaims([], e, 1);
  }

  /** Each host lies in a zone of the account and is no wildcard. */
  ghost predicate InAccount(input: D.Input, hosts: seq<string>) {
    && "acc" in input.legacyNames
    && forall h :: h in hosts ==>
         && D.KeyOf(input, ClaimFor(h)) == Some(D.Key("c", "acc")) && !HostOrder.IsWildcard(h)
  }

  lemma SmallAccepted(input: D.Input, hosts: seq<string>)
    requires input.exposures == [DeriveExposure(hosts)] && InAccount(input, hosts)
    ensures D.Accepted(input)
  {
    ClaimsAre(input, hosts);
    hide D.Claims, D.KeyOf, Zones.ZoneOf, D.ZoneNames;
    var e, g := DeriveExposure(hosts), DeriveGroup(hosts);
    forall h | h in hosts ensures D.Placed(input, D.ClaimOf(e, g, h)) {
      assert D.ClaimOf(e, g, h) == ClaimFor(h);
    }
    assert D.ExposureOk(input, e);
  }

  lemma OneCluster(hosts: seq<string>, host: string)
    ensures !CatalogRouting.ServedTwice(CatalogOf(hosts), host)
  {
    forall c | CatalogRouting.ServedOn(CatalogOf(hosts), c, host) ensures c == "c" {
    }
  }

  /** No records and no origin switches. */
  ghost predicate Plain(r: Registry) {
    forall n :: n in r.zones ==> r.zones[n].records == [] && r.zones[n].origins == map[]
  }

  ghost function InputFor(r: Registry, hosts: seq<string>): D.Input {
    InputOf(r, [DeriveExposure(hosts)], {})
  }

  ghost function LoadOf(r: Registry, hosts: seq<string>, derived: seq<D.Tunnel>): (l: Loading)
    ensures l.file == r && l.derived == derived
  {
    Loading(r, 1, CatalogOf(hosts), {}, derived, Filled(r, InputFor(r, hosts), derived))
  }

  lemma SmallFits(r: Registry, hosts: seq<string>, input: D.Input)
    requires Plain(r) && hosts != [] && input.exposures == [DeriveExposure(hosts)]
    ensures LoadOutcome.Fits(r, CatalogOf(hosts), input)
  {
    ClaimsAre(input, hosts);
    hide D.Claims, CatalogRouting.ServedTwice, CatalogOf, LoadOutcome.ClaimWrites;
    forall h { OneCluster(hosts, h); }
  }

  lemma InputHasOne(r: Registry, hosts: seq<string>)
    ensures InputFor(r, hosts).exposures == [DeriveExposure(hosts)]
  {
  }

  lemma PlainWafOk(r: Registry)
    requires Plain(r)
    ensures forall n :: n in r.zones ==> ManagedWaf.ZoneWafOk(r.zones[n])
  {
  }

  lemma SmallValid(r: Registry, hosts: seq<string>, derived: seq<D.Tunnel>)
    requires RegistryOk(r) && ValidCatalog(1, CatalogOf(hosts)) && D.Accepted(InputFor(r, hosts))
    requires CatalogRouting.CatalogExposures(CatalogOf(hosts)) == [DeriveExposure(hosts)]
    requires D.DerivedTunnels(InputFor(r, hosts), derived) && LoadOutcome.Fits(r, CatalogOf(hosts), InputFor(r, hosts))
    ensures Valid(Filled(r, InputFor(r, hosts), derived))
  {
    hide D.DerivedTunnels, CatalogOf, ValidCatalog, InputOf, RegistryOk, Valid, Filled, CatalogRouting.CatalogExposures,
      D.Accepted, LoadOutcome.Fits;
    LoadOutcome.FilledValidIff(r, 1, CatalogOf(hosts), {}, derived);
  }

  lemma SmallDone(r: Registry, hosts: seq<string>, derived: seq<D.Tunnel>)
    requires RegistryOk(r) && ValidCatalog(1, CatalogOf(hosts)) && D.Accepted(InputFor(r, hosts))
    requires CatalogRouting.CatalogExposures(CatalogOf(hosts)) == [DeriveExposure(hosts)]
    requires forall n :: n in r.zones ==> ManagedWaf.ZoneWafOk(r.zones[n])
    requires D.DerivedTunnels(InputFor(r, hosts), derived) && Valid(Filled(r, InputFor(r, hosts), derived))
    ensures Done(LoadOf(r, hosts, derived))
  {
    hide D.DerivedTunnels, CatalogOf, ValidCatalog, InputOf, RegistryOk, Valid, Filled, CatalogRouting.CatalogExposures,
      D.Accepted, ManagedWaf.ZoneWafOk;
  }

  /** Such a catalog loads against a registry without records and origin switches whose zones hold its hosts. */
  lemma SmallLoads(r: Registry, hosts: seq<string>, derived: seq<D.Tunnel>)
    requires RegistryOk(r) && Plain(r) && Apart(hosts) && InAccount(InputFor(r, hosts), hosts)
    requires D.DerivedTunnels(InputFor(r, hosts), derived)
    ensures Done(LoadOf(r, hosts, derived)) && CatalogInput(LoadOf(r, hosts, derived)) == InputFor(r, hosts)
  {
    ExposuresAre(hosts);
    CatalogOfValid(hosts);
    assert CatalogInput(LoadOf(r, hosts, derived)) == InputFor(r, hosts);
    assert hosts != [];
    var input := InputFor(r, hosts);
    hide *;
    InputHasOne(r, hosts);
    SmallAccepted(input, hosts);
    PlainWafOk(r);
    SmallFits(r, hosts, input);
    SmallValid(r, hosts, derived);
    SmallDone(r, hosts, derived);
  }

  // ---------------------------------------------------------------------------
  // One tunnel
  // ---------------------------------------------------------------------------

  /** Claims that all fall under one key give one tunnel, with every host and its zone. */
  lemma OneTunnel(input: D.Input, k: D.Key)
    requires D.Claims(input) != [] && forall c :: c in D.Claims(input) ==> D.KeyOf(input, c) == Some(k)
    ensures D.DerivedTunnels(input, [D.TunnelFor(input, k)])
    ensures forall c :: c in D.Claims(input) ==>
      c.host in D.TunnelFor(input, k).hosts && Zones.ZoneOf(D.ZoneNames(input), c.host) in D.TunnelFor(input, k).zones
    ensures D.TunnelKey(D.TunnelFor(input, k)) == k
  {
    hide D.Claims, D.KeyOf, D.HostsOf, D.ZoneNames, Zones.ZoneOf, D.TunnelFor;
    OneTunnelHosts(input, k);
    OneTunnelZones(input, k);
    assert D.Claims(input)[0] in D.Claims(input);
    forall key | D.HostsOf(input, D.Claims(input), key) != [] ensures key == k {
      OneKey(input, k, key);
    }
  }

  lemma OneTunnelZones(input: D.Input, k: D.Key)
    ensures forall h :: h in D.TunnelFor(input, k).hosts ==>
      Zones.ZoneOf(D.ZoneNames(input), h) in D.TunnelFor(input, k).zones
  {
    hide D.Claims, D.HostsOf, D.ZoneNames, Zones.ZoneOf;
  }

  lemma OneTunnelHosts(input: D.Input, k: D.Key)
    requires forall c :: c in D.Claims(input) ==> D.KeyOf(input, c) == Some(k)
    ensures forall c :: c in D.Claims(input) ==> c.host in D.TunnelFor(input, k).hosts
    ensures D.TunnelKey(D.TunnelFor(input, k)) == k
  {
    var cs := D.Claims(input);
    hide D.Claims, D.KeyOf, D.HostsOf, D.ZoneNames, Zones.ZoneOf, D.ZonesOf;
    Facts.HostsOfMembers(input, cs, k);
    HostOrder.OrderedIs(D.HostsOf(input, cs, k));
  }

  lemma OneKey(input: D.Input, k: D.Key, key: D.Key)
    requires forall c :: c in D.Claims(input) ==> D.KeyOf(input, c) == Some(k)
    requires D.HostsOf(input, D.Claims(input), key) != []
    ensures key == k
  {
    var cs := D.Claims(input);
    hide D.Claims, D.KeyOf, D.HostsOf;
    Facts.HostsOfMembers(input, cs, key);
    var h := D.HostsOf(input, cs, key)[0];
    assert h in D.HostsOf(input, cs, key);
    var c :| c in cs && c.host == h && D.KeyOf(input, c) == Some(key);
  }

  lemma Empty(s: seq<string>)
    ensures s == [] <==> forall h :: h !in s
  {
    assert s != [] ==> s[0] in s;
  }

  lemma SmallKeys(input: D.Input, hosts: seq<string>)
    requires input.exposures == [DeriveExposure(hosts)] && InAccount(input, hosts)
    ensures forall c :: c in D.Claims(input) ==> D.KeyOf(input, c) == Some(D.Key("c", "acc")) && !c.elsewhere
    ensures forall h :: h in hosts ==> exists c :: c in D.Claims(input) && c.host == h
    ensures hosts != [] ==> D.Claims(input) != []
  {
    ClaimsAre(input, hosts);
    hide D.KeyOf, D.Claims;
    forall c | c in D.Claims(input) ensures D.KeyOf(input, c) == Some(D.Key("c", "acc")) && !c.elsewhere {
      var i :| 0 <= i < |hosts| && c == ClaimFor(hosts[i]);
      assert hosts[i] in hosts;
    }
    forall h | h in hosts ensures exists c :: c in D.Claims(input) && c.host == h {
      var i :| 0 <= i < |hosts| && hosts[i] == h;
      assert ClaimsFor(hosts)[i] in D.Claims(input);
    }
  }

  lemma SmallElsewhere(input: D.Input, t: D.Tunnel)
    requires D.DerivedTunnels(input, [t]) && forall c :: c in D.Claims(input) ==> !c.elsewhere
    ensures t.dnsElsewhere == []
  {
    hide *;
    Facts.DnsSplitsHosts(input, [t], t);
    Empty(t.dnsElsewhere);
  }

  /** The hosts of such a catalog give one tunnel. */
  lemma SmallDerives(input: D.Input, hosts: seq<string>) returns (t: D.Tunnel)
    requires hosts != [] && input.exposures == [DeriveExposure(hosts)] && InAccount(input, hosts)
    ensures D.DerivedTunnels(input, [t]) && t.dnsElsewhere == []
    ensures forall h :: h in hosts ==> h in t.hosts && Zones.ZoneOf(D.ZoneNames(input), h) in t.zones
  {
    hide *;
    var k := D.Key("c", "acc");
    t := D.TunnelFor(input, k);
    SmallKeys(input, hosts);
    OneTunnel(input, k);
    SmallElsewhere(input, t);
  }
}
