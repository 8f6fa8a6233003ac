/** The DNS blocks of a loaded registry's tunnels, whose zone ids the registry's validation never compares. */
module RegistryDns {
  import opened Text
  import opened ConfigModel
  import opened ConfigObject
  import opened LoadedConfig
  import CatalogModel
  import CatalogRouting
  import D = Derivation
  import Dns = DnsPlacement
  import Facts = DerivedTunnelFacts
  import HostOrder
  import SmallCatalog
  import Zones

  /** The id of every zone, as the edge stack collects them. */
  function ZoneIds(r: Registry): map<string, string> {
    map n | n in r.zones :: r.zones[n].zoneID
  }

  lemma RegistryNamesZones(r: Registry, xs: seq<D.Exposure>, business: set<string>)
    requires RegistryOk(r)
    ensures Dns.NamedZones(InputOf(r, xs, business), ZoneIds(r))
  {
    forall n | n in ManagedZones(r.zones) ensures n != "" && IsLower(n) {
      assert ZoneOk(r.accounts, n, r.zones[n]);
    }
  }

  /**
   In a loaded configuration a tunnel's DNS block is refused exactly when two of its zones share an id, or one has
   none.
   */
  lemma LoadedDnsIff(l: Loading, t: D.Tunnel)
    requires Done(l) && t in l.derived
    ensures forall z :: z in Dns.InZones(t) || z in t.zones ==> z in ZoneIds(l.file)
    ensures Dns.DnsBlock(ZoneIds(l.file), t).Some? ==>
      (Dns.DnsOk(Dns.DnsBlock(ZoneIds(l.file), t).value) <==> Dns.OwnIds(t.zones, ZoneIds(l.file)))
  {
    LoadedParts(l);
    RegistryNamesZones(l.file, CatalogRouting.CatalogExposures(l.catalog), l.business);
    var input := CatalogInput(l);
    assert input == InputOf(l.file, CatalogRouting.CatalogExposures(l.catalog), l.business);
    hide *;
    CatalogRouting.CatalogClaimsClean(input, l.version, l.catalog);
    Dns.DerivedDnsOk(input, l.derived, t, ZoneIds(l.file));
  }

  // ---------------------------------------------------------------------------
  // Two zones with one id
  // ---------------------------------------------------------------------------

  function FullZone(id: string): Zone {
    Zone("acc", id, "full", false, "strict", [], map[], false, [], None, [], false, false, true)
  }

  /** Two zones of one account, both with the id "1". */
  function SharedIds(): Registry {
    Registry(
      map["acc" := Account("id", false, None, "")], map["a.com" := FullZone("1"), "b.com" := FullZone("1")],
      "service", "namespace", [], map[], Rotations("", "", "", ""))
  }

  const TWO_HOSTS := ["x.a.com", "x.b.com"]

  lemma SharedIdsOk()
    ensures RegistryOk(SharedIds())
  {
    var r := SharedIds();
    assert "acc" in r.accounts && "a.com" in r.zones;
    assert ObjectName("acc");
    hide ObjectName;
    FullZoneOk(r.accounts, "a.com");
    FullZoneOk(r.accounts, "b.com");
    hide ZoneOk, FullZone;
  }

  lemma FullZoneOk(accounts: map<string, Account>, name: string)
    requires "acc" in accounts && (name == "a.com" || name == "b.com")
    ensures ZoneOk(accounts, name, FullZone("1"))
  {
    assert '.' in name by {
      assert name[1] == '.';
    }
  }

  function SharedInput(): D.Input {
    InputOf(SharedIds(), [SmallCatalog.DeriveExposure(TWO_HOSTS)], {})
  }

  lemma SharedZones()
    ensures SharedInput().zones == map["a.com" := "acc", "b.com" := "acc"]
    ensures SharedInput().legacyNames == map["acc" := false]
    ensures SharedInput().exposures == [SmallCatalog.DeriveExposure(TWO_HOSTS)]
  {
  }

  /** Each host lies in the zone it is written under. */
  lemma HostZone(host: string, zone: string)
    requires (host == "x.a.com" && zone == "a.com") || (host == "x.b.com" && zone == "b.com")
    ensures Zones.ZoneOf(D.ZoneNames(SharedInput()), host) == zone
  {
    hide SharedInput, Zones.ZoneOf, Zones.Holds, Zones.NameOf, Zones.IsZoneOf;
    SharedZones();
    var names := D.ZoneNames(SharedInput());
    assert AsSet(names) == {"a.com", "b.com"};
    HoldsOne(host, zone);
    hide D.ZoneNames;
    Zones.ZoneOfIs(names, host);
    Zones.ZoneOfUnique(AsSet(names), host, zone, Zones.ZoneOf(names, host));
  }

  lemma HoldsOne(host: string, zone: string)
    requires (host == "x.a.com" && zone == "a.com") || (host == "x.b.com" && zone == "b.com")
    ensures Zones.IsZoneOf({"a.com", "b.com"}, host, zone)
  {
    assert TrimPrefix(host, "*.") == host by {
      assert host[0] == 'x';
    }
    assert Zones.NameOf(host) == host;
    assert host == "x" + "." + zone;
    assert host[1..] == "." + zone;
  }

  lemma SharedKeys(host: string)
    requires host in TWO_HOSTS
    ensures D.KeyOf(SharedInput(), SmallCatalog.ClaimFor(host)) == Some(D.Key("c", "acc"))
    ensures !HostOrder.IsWildcard(host)
  {
    hide SharedInput, Zones.ZoneOf, D.ZoneNames;
    SharedZones();
    assert host[0] == 'x';
    if host == "x.a.com" {
      HostZone("x.a.com", "a.com");
    } else {
      HostZone("x.b.com", "b.com");
    }
  }

  lemma TwoHostsApart()
    ensures SmallCatalog.Apart(TWO_HOSTS)
  {
    HostIsDomain("x.a.com");
    HostIsDomain("x.b.com");
    hide CatalogModel.DomainOk, CatalogModel.DomainSlug, SmallCatalog.Apart;
    SmallCatalog.TwoApart("x.a.com", "x.b.com");
  }

  lemma HostIsDomain(host: string)
    requires host == "x.a.com" || host == "x.b.com"
    ensures CatalogModel.DomainOk(host) && |CatalogModel.DomainSlug(host)| == 7
    ensures CatalogModel.DomainSlug(host)[2] == host[2]
  {
    assert host[0] == 'x' && host[1] == '.';
    assert TrimPrefix(host, "*.") == host;
  }

  lemma IdIsShared()
    ensures var ids := ZoneIds(SharedIds()); "a.com" in ids && "b.com" in ids && ids["a.com"] == ids["b.com"]
  {
  }

  lemma SharedInAccount()
    ensures SmallCatalog.InAccount(SharedInput(), TWO_HOSTS)
    ensures SharedInput().exposures == [SmallCatalog.DeriveExposure(TWO_HOSTS)]
  {
    SharedZones();
    hide SharedInput, D.KeyOf;
    forall h | h in TWO_HOSTS
      ensures D.KeyOf(SharedInput(), SmallCatalog.ClaimFor(h)) == Some(D.Key("c", "acc")) && !HostOrder.IsWildcard(h)
    {
      SharedKeys(h);
    }
  }

  lemma SharedInputIs()
    ensures SmallCatalog.InputFor(SharedIds(), TWO_HOSTS) == SharedInput() && SmallCatalog.Plain(SharedIds())
    ensures "x.a.com" in TWO_HOSTS && "x.b.com" in TWO_HOSTS && TWO_HOSTS != []
  {
  }

  lemma SharedLoads() returns (l: Loading, t: D.Tunnel)
    ensures Done(l) && t in l.derived && l.file == SharedIds()
    ensures "a.com" in t.zones && "b.com" in t.zones && "x.a.com" in t.hosts && t.dnsElsewhere == []
  {
    hide *;
    SharedIdsOk();
    SharedInputIs();
    TwoHostsApart();
    SharedInAccount();
    t := SmallCatalog.SmallDerives(SharedInput(), TWO_HOSTS);
    HostZone("x.a.com", "a.com");
    HostZone("x.b.com", "b.com");
    SmallCatalog.SmallLoads(SharedIds(), TWO_HOSTS, [t]);
    l := SmallCatalog.LoadOf(SharedIds(), TWO_HOSTS, [t]);
  }

  /**
   A registry with two zones of one id loads with a catalog of two hosts in them, and the one tunnel it gives has a DNS
   block its own validation refuses.
   */
  lemma SharedIdsRefused() returns (l: Loading, t: D.Tunnel)
    ensures Done(l) && t in l.derived
    ensures forall z :: z in Dns.InZones(t) ==> z in ZoneIds(l.file)
    ensures Dns.DnsBlock(ZoneIds(l.file), t).Some? && !Dns.DnsOk(Dns.DnsBlock(ZoneIds(l.file), t).value)
  {
    IdIsShared();
    l, t := SharedLoads();
    hide Done, D.Accepted, D.DerivedTunnels, Dns.DnsOk, CatalogInput, ZoneIds, SharedIds, Facts.DnsNames;
    LoadedDnsIff(l, t);
    Facts.DnsNamesMembers(t.hosts, t.dnsElsewhere);
  }
}
