/** Who writes a DNS name: tunnels and declared records of a valid registry never write one CNAME twice. */
module DnsWriters {
  import opened Text
  import opened ZoneRecords
  import opened ConfigModel
  import CatalogModel
  import Facts = DerivedTunnelFacts
  import HostOrder
  import Routing
  import Sorting
  import Zones

  datatype Writer = ByTunnel(tunnel: nat, host: string) | ByRecord(record: nat)

  /** The writer puts a CNAME on the name (DNS names compare without case) in the zone. */
  predicate Writes(r: Registry, zone: string, name: string, w: Writer) {
    match w
    case ByTunnel(i, host) =>
      && i < |r.tunnels| && host in Facts.DnsNames(r.tunnels[i].hosts, r.tunnels[i].dnsElsewhere)
      && Zones.ZoneOf(InZones(r.tunnels[i]), host) == zone && ToLower(host) == ToLower(name)
    case ByRecord(k) =>
      && zone in r.zones && k < |r.zones[zone].records|
      && r.zones[zone].records[k].kind == "CNAME" && ToLower(r.zones[zone].records[k].name) == ToLower(name)
  }

  /** Tunnel hosts are lower case, as every host a catalog names is. */
  ghost predicate LowerHosts(r: Registry) {
    forall t, h :: t in r.tunnels && h in t.hosts ==> IsLower(h)
  }

  /** The tunnel writes a name that the zone declares as a CNAME in another spelling. */
  predicate Clashes(r: Registry, zone: string, i: nat, host: string, k: nat) {
    && zone in r.zones && i < |r.tunnels| && k < |r.zones[zone].records|
    && OwnsRecord(r.tunnels[i], zone, host) && r.zones[zone].records[k].kind == "CNAME"
    && host != r.zones[zone].records[k].name && ToLower(host) == ToLower(r.zones[zone].records[k].name)
  }

  ghost predicate CaseClash(r: Registry) {
    exists zone, i: nat, host, k: nat :: Clashes(r, zone, i, host, k)
  }

  lemma WriterCarries(r: Registry, zone: string, name: string, i: nat, host: string)
    requires Writes(r, zone, name, ByTunnel(i, host))
    ensures OwnsRecord(r.tunnels[i], zone, host)
  {
    Facts.DnsNamesMembers(r.tunnels[i].hosts, r.tunnels[i].dnsElsewhere);
  }

  lemma SameHost(r: Registry, i: nat, j: nat, g: string, h: string)
    requires Routing.RoutingOk(AllRouted(r.tunnels)) && i < |r.tunnels| && j < |r.tunnels|
    requires g in r.tunnels[i].hosts && h in r.tunnels[j].hosts && ToLower(g) == ToLower(h)
    ensures i == j && g == h
  {
    var rs := AllRouted(r.tunnels);
    assert ToLower(g) in Routing.LowerHosts(rs[i]) && ToLower(h) in Routing.LowerHosts(rs[j]);
    assert i == j;
    var a :| 0 <= a < |r.tunnels[i].hosts| && r.tunnels[i].hosts[a] == g;
    var b :| 0 <= b < |r.tunnels[i].hosts| && r.tunnels[i].hosts[b] == h;
    assert rs[i] in rs;
    assert Routing.LowerAll(rs[i].hosts)[a] == Routing.LowerAll(rs[i].hosts)[b];
  }

  lemma RecordOk(r: Registry, zone: string, k: nat)
    requires RegistryOk(r) && zone in r.zones && k < |r.zones[zone].records|
    ensures EntryOk(zone, r.zones[zone].records[k])
    ensures forall l :: 0 <= l < |r.zones[zone].records| && l != k ==>
      Together(r.zones[zone].records[k], r.zones[zone].records[l])
  {
    hide EntryOk, OriginKeyOk;
    assert ZoneOk(r.accounts, zone, r.zones[zone]);
    var es := r.zones[zone].records;
    assert es[k] in es;
    forall l | 0 <= l < |es| && l != k ensures Together(es[k], es[l]) {
      if k < l {
        assert Together(es[k], es[l]);
      } else {
        assert Together(es[l], es[k]);
      }
    }
  }

  lemma RecordIsFree(r: Registry, zone: string, k: nat, i: nat)
    requires RecordsFree(r) && zone in r.zones && k < |r.zones[zone].records| && i < |r.tunnels|
    ensures !OwnsRecord(r.tunnels[i], zone, r.zones[zone].records[k].name)
  {
    assert ZoneRecordsFree(r.tunnels, zone, r.zones[zone]);
  }

  /** At most one tunnel or record writes the CNAME of a name in a zone, unless one is spelled in another case. */
  lemma OneCnameWriter(r: Registry, zone: string, name: string, v: Writer, w: Writer)
    requires Valid(r) && !CaseClash(r) && Writes(r, zone, name, v) && Writes(r, zone, name, w)
    ensures v == w
  {
    hide RegistryOk, TunnelOk, OriginsOk, RecordsFree, Routing.RoutingOk, EntryOk;
    match (v, w)
    case (ByTunnel(i, g), ByTunnel(j, h)) =>
      WriterCarries(r, zone, name, i, g);
      WriterCarries(r, zone, name, j, h);
      SameHost(r, i, j, g, h);
    case (ByTunnel(i, g), ByRecord(k)) => TunnelXorRecord(r, zone, name, i, g, k);
    case (ByRecord(k), ByTunnel(i, g)) => TunnelXorRecord(r, zone, name, i, g, k);
    case (ByRecord(k), ByRecord(l)) =>
      if k != l {
        RecordOk(r, zone, k);
        RecordOk(r, zone, l);
        EntryIsLower(zone, r.zones[zone].records[k]);
        EntryIsLower(zone, r.zones[zone].records[l]);
      }
  }

  ghost predicate OneWriter(r: Registry) {
    forall zone, name, v, w :: Writes(r, zone, name, v) && Writes(r, zone, name, w) ==> v == w
  }

  /**
   In a valid registry every name has at most one CNAME writer exactly when no tunnel writes a name that its zone
   declares as a CNAME in another spelling.
   */
  lemma OneWriterIff(r: Registry)
    requires Valid(r)
    ensures OneWriter(r) <==> !CaseClash(r)
  {
    hide Valid, Writes, Clashes;
    if CaseClash(r) {
      var zone, i: nat, host, k: nat :| Clashes(r, zone, i, host, k);
      ClashWrites(r, zone, i, host, k);
      assert ByTunnel(i, host) != ByRecord(k);
    } else {
      forall zone, name, v, w | Writes(r, zone, name, v) && Writes(r, zone, name, w) ensures v == w {
        OneCnameWriter(r, zone, name, v, w);
      }
    }
  }

  lemma ClashWrites(r: Registry, zone: string, i: nat, host: string, k: nat)
    requires Clashes(r, zone, i, host, k)
    ensures Writes(r, zone, host, ByTunnel(i, host)) && Writes(r, zone, host, ByRecord(k))
  {
    Facts.DnsNamesMembers(r.tunnels[i].hosts, r.tunnels[i].dnsElsewhere);
  }

  /** Lower-case tunnel hosts cannot differ from a declared name in case alone. */
  lemma LowerHostsAgree(r: Registry)
    requires RegistryOk(r) && LowerHosts(r)
    ensures !CaseClash(r)
  {
    hide RegistryOk, EntryOk;
    forall zone, i: nat, host, k: nat ensures !Clashes(r, zone, i, host, k) {
      if zone in r.zones && i < |r.tunnels| && k < |r.zones[zone].records| {
        RecordOk(r, zone, k);
        EntryIsLower(zone, r.zones[zone].records[k]);
        if host in r.tunnels[i].hosts {
          assert r.tunnels[i] in r.tunnels && IsLower(host);
        }
      }
    }
  }

  lemma EntryIsLower(zone: string, e: Record)
    requires EntryOk(zone, e)
    ensures IsLower(e.name)
  {
  }

  lemma TunnelXorRecord(r: Registry, zone: string, name: string, i: nat, host: string, k: nat)
    requires Valid(r) && !CaseClash(r) && Writes(r, zone, name, ByTunnel(i, host))
    ensures !Writes(r, zone, name, ByRecord(k))
  {
    hide RegistryOk, TunnelOk, OriginsOk, RecordsFree, Routing.RoutingOk, EntryOk, OwnsRecord;
    WriterCarries(r, zone, name, i, host);
    assert !Clashes(r, zone, i, host, k);
    if zone in r.zones && k < |r.zones[zone].records| {
      RecordIsFree(r, zone, k, i);
    }
  }

  /** Section 3.6.2 of RFC 1034: a name with a declared CNAME has no other declared record, and no tunnel writes it. */
  lemma CnameStandsAlone(r: Registry, zone: string, k: nat)
    requires Valid(r) && zone in r.zones && k < |r.zones[zone].records|
    ensures r.zones[zone].records[k].kind == "CNAME" ==>
      forall l :: 0 <= l < |r.zones[zone].records| && l != k ==>
        r.zones[zone].records[l].name != r.zones[zone].records[k].name
    ensures forall i :: 0 <= i < |r.tunnels| && CarriesIn(r.tunnels[i], zone, r.zones[zone].records[k].name) ==>
      r.zones[zone].records[k].name in r.tunnels[i].dnsElsewhere
  {
    RecordOk(r, zone, k);
    hide RegistryOk, TunnelOk, OriginsOk, RecordsFree, Routing.RoutingOk, EntryOk;
    forall i | 0 <= i < |r.tunnels| && CarriesIn(r.tunnels[i], zone, r.zones[zone].records[k].name)
      ensures r.zones[zone].records[k].name in r.tunnels[i].dnsElsewhere
    {
      RecordIsFree(r, zone, k, i);
    }
  }

  /** Every origin switch names a record that exactly one tunnel writes. */
  lemma OriginHasOneWriter(r: Registry, zone: string, host: string)
    requires Valid(r) && zone in r.zones && host in r.zones[zone].origins
    ensures exists i :: 0 <= i < |r.tunnels| && OwnsRecord(r.tunnels[i], zone, host)
    ensures forall i, j :: (0 <= i < |r.tunnels| && 0 <= j < |r.tunnels| &&
      OwnsRecord(r.tunnels[i], zone, host) && OwnsRecord(r.tunnels[j], zone, host)) ==> i == j
  {
    assert ZoneOriginsOk(r.tunnels, zone, r.zones[zone]);
    assert SomeOwner(r.tunnels, zone, host);
    hide RegistryOk, TunnelOk, OriginsOk, RecordsFree, Routing.RoutingOk;
    forall i, j | 0 <= i < |r.tunnels| && 0 <= j < |r.tunnels| && OwnsRecord(r.tunnels[i], zone, host)
      && OwnsRecord(r.tunnels[j], zone, host)
      ensures i == j
    {
      SameHost(r, i, j, host, host);
    }
  }

  // ---------------------------------------------------------------------------
  // A tunnel host in upper case
  // ---------------------------------------------------------------------------

  function Cname(name: string): Record {
    Record(name, "CNAME", "y.b.com", NotAddress, false, 0, None, "")
  }

  function OneZone(): Zone {
    Zone("acc", "1", "full", false, "strict", [Cname("x.a.com")], map[], false, [], None, [], false, false, true)
  }

  /** A registry built by hand: the zone declares x.a.com, and a tunnel carries X.a.com. */
  function UpperHost(): Registry {
    Registry(
      map["acc" := Account("id", false, None, "")], map["a.com" := OneZone()], "service", "namespace",
      [Tunnel("c", "acc", false, "a.com", [], ["X.a.com"], [])], map[], Rotations("", "", "", ""))
  }

  lemma InZone()
    ensures NameOk("a.com", "x.a.com") && "x.a.com" != "X.a.com" && ToLower("X.a.com") == "x.a.com"
    ensures Zones.NameOf("X.a.com") == "x.a.com" && Zones.Holds("a.com", "x.a.com")
  {
    var name := "x.a.com";
    assert name[0] != '*' && "X.a.com"[0] != '*';
    assert TrimPrefix(name, "*.") == name && TrimPrefix("X.a.com", "*.") == "X.a.com";
    assert name[1..] == "." + "a.com";
    assert name[|name| - 1] == 'm';
    assert name[0] != "X.a.com"[0];
    assert ToLower("X.a.com") == name;
  }

  lemma TargetOk()
    ensures ContentOk(Cname("x.a.com"))
  {
    var content := "y.b.com";
    assert content[|content| - 1] == 'm' && content[1] == '.';
  }

  lemma CnameOk()
    ensures RecordsOk("a.com", OneZone().records)
  {
    InZone();
    TargetOk();
    hide NameOk, ContentOk;
  }

  lemma UpperRegistryOk()
    ensures RegistryOk(UpperHost())
  {
    CnameOk();
    hide RecordsOk;
    var r := UpperHost();
    assert "acc" in r.accounts && "a.com" in r.zones;
    assert '.' in "a.com" by {
      assert "a.com"[1] == '.';
    }
  }

  lemma UpperZone(zones: seq<string>)
    requires AsSet(zones) == {"a.com"}
    ensures Zones.ZoneOf(zones, "X.a.com") == "a.com"
  {
    InZone();
    hide Zones.NameOf, Zones.Holds, Zones.ZoneOf;
    Zones.ZoneOfIs(zones, "X.a.com");
    Zones.ZoneOfUnique({"a.com"}, "X.a.com", "a.com", Zones.ZoneOf(zones, "X.a.com"));
  }

  lemma UpperTunnelOk()
    ensures TunnelOk(UpperHost(), UpperHost().tunnels[0])
  {
    var r := UpperHost();
    assert ManagedZones(r.zones) == {"a.com"};
    assert CatalogModel.HasText("X.a.com") by {
      assert "X.a.com"[0] == 'X';
    }
    UpperZone(Sorting.SortedKeys(ManagedZones(r.zones)));
    hide Zones.ZoneOf;
  }

  lemma UpperRoutingOk()
    ensures Routing.RoutingOk(AllRouted(UpperHost().tunnels))
  {
    var rs := AllRouted(UpperHost().tunnels);
    assert |rs| == 1 && rs[0].hosts == ["X.a.com"];
    hide HostOrder.Covers;
  }

  lemma UpperRecordsFree()
    ensures OriginsOk(UpperHost()) && RecordsFree(UpperHost())
  {
    InZone();
    var r := UpperHost();
    hide ToLower, NameOk, Zones.ZoneOf, Zones.NameOf, Zones.Holds;
    forall i | 0 <= i < |OneZone().records| ensures !SomeOwner(r.tunnels, "a.com", OneZone().records[i].name) {
      assert OneZone().records[i].name == "x.a.com" && "x.a.com" !in r.tunnels[0].hosts;
    }
    assert ZoneRecordsFree(r.tunnels, "a.com", OneZone());
  }

  lemma UpperClash()
    ensures Clashes(UpperHost(), "a.com", 0, "X.a.com", 0)
  {
    InZone();
    UpperZone(["a.com"]);
    hide Zones.ZoneOf, NameOk, Zones.Holds, Zones.NameOf;
    assert ToLower("x.a.com") == "x.a.com";
  }

  /** The registry is valid, and the tunnel and the record write one name. */
  lemma UpperHostClashes()
    ensures Valid(UpperHost()) && !OneWriter(UpperHost())
  {
    hide *;
    UpperValid();
    UpperClash();
    ClashIsClash(UpperHost(), "a.com", 0, "X.a.com", 0);
    OneWriterIff(UpperHost());
  }

  lemma UpperValid()
    ensures Valid(UpperHost())
  {
    var r := UpperHost();
    assert r.tunnels == [r.tunnels[0]] && Sorting.Distinct(Sites(r.tunnels));
    hide UpperHost, RegistryOk, TunnelOk, OriginsOk, RecordsFree, Routing.RoutingOk, Sorting.Distinct;
    UpperRegistryOk();
    UpperTunnelOk();
    UpperRoutingOk();
    UpperRecordsFree();
  }

  lemma ClashIsClash(r: Registry, zone: string, i: nat, host: string, k: nat)
    requires Clashes(r, zone, i, host, k)
    ensures CaseClash(r)
  {
    hide Clashes;
  }
}
