/**
 The managed WAF block each enabled zone deploys after loading (`ManagedWAFLibrary`, cloudflare/config/config.go), and
 when the zone's own validation (`ManagedWAF.validate`, cloudflare/zonespec/hardening.go) takes it.
 */
module WafBlocks {
  import opened Text
  import opened FilterParse
  import opened ZoneRecords
  import opened ConfigModel
  import opened ConfigObject
  import opened LoadedConfig
  import opened ManagedWaf
  import CatalogModel
  import CatalogSites
  import D = Derivation
  import HostFilter
  import HostOrder
  import ManagedRule
  import SmallCatalog
  import Sorting
  import Zones

  /** What the catalog's check of a name lets through and the block's does not. */
  predicate Plainly(host: string) {
    NoneOf(host, "\"\\ ") && !HasSuffix(host, ".")
  }

  lemma StarLeads(host: string)
    ensures HasPrefix(host, "*.") ==> '*' in host
  {
    if HasPrefix(host, "*.") {
      assert host[0] == host[..2][0] == '*';
    }
  }

  lemma BlockNameIff(zone: string, host: string)
    requires HostOk(zone, host) && zone != ""
    ensures NameOk(zone, host) <==> Plainly(host)
  {
    StarLeads(host);
    assert TrimPrefix(host, "*.") == host && host != "";
    hide IsLower, Zones.Holds, HasSuffix;
    RefusedSplit(host);
  }

  lemma RefusedSplit(host: string)
    ensures NoneOf(host, "*/:\"\\ ") <==> NoneOf(host, "\"\\ ") && '*' !in host && '/' !in host && ':' !in host
  {
    var all, some := "*/:\"\\ ", "\"\\ ";
    assert all == "*/:" + some;
    forall i | 0 <= i < |host|
      ensures host[i] !in all <==> host[i] !in some && host[i] != '*' && host[i] != '/' && host[i] != ':'
    {
    }
    assert NoneOf(host, all) ==> forall i :: 0 <= i < |host| ==> host[i] !in all;
  }

  /** Every host the catalog does not claim there passes the block's check of its characters. */
  ghost predicate OthersPlain(input: D.Input, zones: map<string, Zone>) {
    forall n, h :: n in zones && WafEnabled(zones[n]) && h in zones[n].wafHosts ==>
      h in CatalogHosts(input, n) || Plainly(h)
  }

  lemma ExactIsPlain(zone: string, host: string)
    requires ExactWafHost(zone, host)
    ensures Plainly(host)
  {
    hide Zones.Holds, IsLower, HasSuffix;
    RefusedSplit(host);
  }

  lemma CallKeepsPlain(input: D.Input, zones: map<string, Zone>, c: Call)
    requires OthersPlain(input, zones)
    ensures OthersPlain(input, AfterCall(zones, c))
  {
    hide CatalogHosts, Plainly, ExactWafHost;
    if Admits(zones, c) {
      forall h | h in c.hosts ensures Plainly(h) {
        var i :| 0 <= i < |c.hosts| && c.hosts[i] == h;
        ExactIsPlain(c.zone, c.hosts[i]);
      }
    }
  }

  lemma {:induction false} CallsKeepPlain(input: D.Input, zones: map<string, Zone>, calls: seq<Call>)
    requires OthersPlain(input, zones)
    ensures OthersPlain(input, AfterCalls(zones, calls))
  {
    hide OthersPlain, AfterCall;
    if calls != [] {
      CallsKeepPlain(input, zones, calls[..|calls| - 1]);
      CallKeepsPlain(input, AfterCalls(zones, calls[..|calls| - 1]), calls[|calls| - 1]);
    }
  }

  lemma CoveredIsPlain(r: Registry, name: string, e: Record)
    requires RegistryOk(r) && name in r.zones && e in r.zones[name].records && WafCovered(e) && RecordTaken(e)
    ensures Plainly(e.name)
  {
    assert ZoneOk(r.accounts, name, r.zones[name]);
    assert EntryOk(name, e) && !HasPrefix(e.name, "*.");
    hide *;
    EntryIsPlain(name, e);
  }

  lemma EntryIsPlain(zone: string, e: Record)
    requires EntryOk(zone, e) && !HasPrefix(e.name, "*.")
    ensures Plainly(e.name)
  {
    assert TrimPrefix(e.name, "*.") == e.name;
    hide Zones.Holds, IsLower, HasSuffix, ContentOk;
    RefusedSplit(e.name);
  }

  lemma ListPlain(z: Zone, name: string, input: D.Input, hosts: seq<string>, h: string)
    requires hosts == WafList(z, Sorting.SortedKeys(CatalogHosts(input, name))) && h in hosts
    requires forall e :: e in z.records && WafCovered(e) ==> Plainly(e.name)
    ensures h in CatalogHosts(input, name) || Plainly(h)
  {
    hide CatalogHosts, Plainly, WafCovered;
  }

  lemma LoadedHostPlain(l: Loading, name: string, h: string)
    requires Done(l) && name in l.file.zones && name in l.out.zones && WafEnabled(l.file.zones[name])
    requires h in l.out.zones[name].wafHosts
    ensures h in CatalogHosts(CatalogInput(l), name) || Plainly(h)
  {
    LoadedParts(l);
    var input, z := CatalogInput(l), l.file.zones[name];
    WafZoneManaged(l.file, name);
    assert ZoneWafOk(z);
    assert forall e :: e in z.records && WafCovered(e) ==> RecordTaken(e);
    WafListed(l.file.zones, CacheFrom(input), input, name);
    hide *;
    forall e | e in z.records && WafCovered(e) ensures Plainly(e.name) {
      CoveredIsPlain(l.file, name, e);
    }
    SameList(z, l.out.zones[name], input, name);
    ListPlain(z, name, input, l.out.zones[name].wafHosts, h);
  }

  lemma SameList(before: Zone, after: Zone, input: D.Input, name: string)
    requires before.records == after.records
    ensures WafList(before, Sorting.SortedKeys(CatalogHosts(input, name)))
         == WafList(after, Sorting.SortedKeys(CatalogHosts(input, name)))
  {
  }

  lemma LoadedPlain(l: Loading)
    requires Done(l)
    ensures OthersPlain(CatalogInput(l), l.out.zones)
  {
    LoadedZones(l);
    hide Done, CatalogInput, CatalogHosts, Plainly;
    forall n, h | n in l.out.zones && WafEnabled(l.out.zones[n]) && h in l.out.zones[n].wafHosts
      ensures h in CatalogHosts(CatalogInput(l), n) || Plainly(h)
    {
      LoadedHostPlain(l, n, h);
    }
  }

  /** Every name the catalog claims in the zone and has not opted out passes the block's check of its characters. */
  ghost predicate ClaimsPlain(l: Loading, zone: string) {
    forall h :: h in CatalogHosts(CatalogInput(l), zone) ==> Plainly(h)
  }

  /** The zone's validation takes the managed block of these lists. */
  ghost predicate BlockTaken(zones: map<string, Zone>, zone: string) {
    zone in zones && ManagedRule.BlockOk(zone, false, zones[zone].wafHosts)
  }

  /** The rule that runs on these hosts keeps to the length Cloudflare allows. */
  ghost predicate Short(hosts: seq<string>) {
    Bytes(HostFilter.ManagedText(false, hosts)) <= 4096
  }

  lemma BlockIff(zone: string, z: Zone, claimed: set<string>)
    requires WafEnabled(z) && ListOk(zone, z) && zone != "" && IsLower(zone)
    requires forall h :: h in claimed ==> h in z.wafHosts
    requires forall h :: h in z.wafHosts ==> h in claimed || Plainly(h)
    ensures ManagedRule.BlockOk(zone, false, z.wafHosts)
       <==> z.wafHosts != [] && Short(z.wafHosts)
            && forall h :: h in claimed ==> Plainly(h)
  {
    forall h | h in z.wafHosts ensures NameOk(zone, h) <==> Plainly(h) {
      BlockNameIff(zone, h);
    }
    hide NameOk, Plainly, HostOk, IsLower, Bytes, HostFilter.ManagedText, Sorting.Sorted;
  }

  lemma EnabledZoneName(l: Loading, name: string)
    requires Done(l) && name in l.file.zones && WafEnabled(l.file.zones[name])
    ensures name != "" && IsLower(name)
  {
    LoadedParts(l);
    assert ZoneOk(l.file.accounts, name, l.file.zones[name]);
    hide ZoneOk, IsLower;
    NamedZone(l.file.accounts, name, l.file.zones[name]);
  }

  lemma NamedZone(accounts: map<string, Account>, name: string, z: Zone)
    requires ZoneOk(accounts, name, z)
    ensures name != "" && IsLower(name)
  {
  }

  /**
   After loading and any calls of AddWAFHosts, the managed block of an enabled zone passes its validation exactly when
   the list is not empty, the rule's expression is short enough and every name the catalog claims there has none of the
   characters the catalog allows and the block refuses.
   */
  lemma LoadedBlockIff(l: Loading, calls: seq<Call>, zone: string)
    requires Done(l) && zone in l.file.zones && WafEnabled(l.file.zones[zone])
    ensures zone in AfterCalls(l.out.zones, calls)
    ensures var hosts := AfterCalls(l.out.zones, calls)[zone].wafHosts;
      BlockTaken(AfterCalls(l.out.zones, calls), zone) <==> hosts != [] && Short(hosts) && ClaimsPlain(l, zone)
  {
    var after, input := AfterCalls(l.out.zones, calls), CatalogInput(l);
    LoadedZones(l);
    LoadedPlain(l);
    EnabledZoneName(l, zone);
    WafAfterCalls(l, calls);
    CallsKeepPlain(input, l.out.zones, calls);
    hide Done, CatalogInput, AfterCalls, CatalogHosts, Plainly, ListOk, ManagedRule.BlockOk, Short, IsLower;
    BlockIff(zone, after[zone], CatalogHosts(input, zone));
  }

  lemma TakenMeaning(zone: string, z: Zone, q: Request)
    requires WafEnabled(z) && ListOk(zone, z) && ManagedRule.BlockOk(zone, false, z.wafHosts)
    ensures Holds(HostFilter.ManagedText(false, z.wafHosts), q) <==> q.host in z.wafHosts
  {
    ManagedRule.ValidBlockMeaning(zone, false, z.wafHosts, q);
    hide Holds, HostFilter.ManagedText, ManagedRule.BlockOk;
    forall h | h in z.wafHosts ensures HostOrder.Matches(h, q.host) <==> h == q.host {
      StarLeads(h);
      assert "*"[0] == '*';
    }
  }

  /**
   When the block is taken, the managed WAF runs on a request exactly when the list holds its host, and so on every
   request to a name the catalog claims in the zone and has not opted out.
   */
  lemma LoadedBlockMeaning(l: Loading, calls: seq<Call>, zone: string, q: Request)
    requires Done(l) && zone in l.file.zones && WafEnabled(l.file.zones[zone])
    requires BlockTaken(AfterCalls(l.out.zones, calls), zone)
    ensures var text := HostFilter.ManagedText(false, AfterCalls(l.out.zones, calls)[zone].wafHosts);
      && (Holds(text, q) <==> q.host in AfterCalls(l.out.zones, calls)[zone].wafHosts)
      && (q.host in CatalogHosts(CatalogInput(l), zone) ==> Holds(text, q))
  {
    var after := AfterCalls(l.out.zones, calls);
    LoadedZones(l);
    WafAfterCalls(l, calls);
    hide Done, CatalogInput, AfterCalls, CatalogHosts, ListOk, ManagedRule.BlockOk, HostFilter.ManagedText, Holds;
    TakenMeaning(zone, after[zone], q);
  }

  // ---------------------------------------------------------------------------
  // A block the zone refuses
  // ---------------------------------------------------------------------------

  const ODD_HOST := "x y.a.com"

  /** One zone with the managed WAF on. */
  function GuardedZone(): Registry {
    Registry(
      map["acc" := Account("id", false, None, "")],
      map["a.com" :=
        Zone("acc", "1", "full", false, "strict", [], map[], false, [], Some(true), [], false, false, true)],
      "service", "namespace", [], map[], Rotations("", "", "", ""))
  }

  lemma GuardedZoneOk()
    ensures RegistryOk(GuardedZone()) && SmallCatalog.Plain(GuardedZone())
  {
    var r := GuardedZone();
    assert "acc" in r.accounts && "a.com" in r.zones;
    assert ObjectName("acc");
    hide ObjectName;
    assert '.' in "a.com" by {
      assert "a.com"[1] == '.';
    }
  }

  lemma OddHostZone()
    ensures Zones.ZoneOf(["a.com"], ODD_HOST) == "a.com" && !HostOrder.IsWildcard(ODD_HOST)
    ensures CatalogModel.DomainOk(ODD_HOST) && !Plainly(ODD_HOST)
  {
    assert ODD_HOST[0] == 'x' && ODD_HOST[1] == ' ' && ODD_HOST[3] == '.' && "\"\\ "[2] == ' ';
    assert TrimPrefix(ODD_HOST, "*.") == ODD_HOST;
    assert ODD_HOST == "x y" + "." + "a.com" && ODD_HOST[3..] == "." + "a.com";
  }

  ghost function GuardedInput(): D.Input {
    SmallCatalog.InputFor(GuardedZone(), [ODD_HOST])
  }

  lemma GuardedInputIs()
    ensures GuardedInput().exposures == [SmallCatalog.DeriveExposure([ODD_HOST])]
    ensures GuardedInput().zones == map["a.com" := "acc"] && GuardedInput().legacyNames == map["acc" := false]
    ensures GuardedInput().wafZones == ["a.com"] && D.ZoneNames(GuardedInput()) == ["a.com"]
  {
    assert WafZones(GuardedZone().zones) == {"a.com"};
    CatalogSites.OneKey("a.com");
    assert GuardedInput().zones.Keys == {"a.com"};
  }

  lemma OddHostPlaced()
    ensures SmallCatalog.InAccount(GuardedInput(), [ODD_HOST])
    ensures ODD_HOST in CatalogHosts(GuardedInput(), "a.com")
  {
    GuardedInputIs();
    OddHostZone();
    hide GuardedInput, D.Claims, Zones.ZoneOf, D.ZoneNames;
    SmallCatalog.ClaimsAre(GuardedInput(), [ODD_HOST]);
    var c := SmallCatalog.ClaimsFor([ODD_HOST])[0];
    assert c in D.Claims(GuardedInput()) && !c.wafOff && c.host == ODD_HOST;
  }

  /**
   A file and a catalog that load, whose one enabled zone has a managed block that its validation refuses whatever is
   added to it: the catalog takes a name with a space in it.
   */
  lemma OddNameRefused() returns (l: Loading)
    ensures Done(l) && "a.com" in l.out.zones && WafEnabled(l.out.zones["a.com"])
    ensures forall calls :: !BlockTaken(AfterCalls(l.out.zones, calls), "a.com")
  {
    GuardedZoneOk();
    GuardedInputIs();
    OddHostZone();
    OddHostPlaced();
    assert "a.com" in GuardedZone().zones && WafEnabled(GuardedZone().zones["a.com"]);
    hide *;
    SmallCatalog.OneApart(ODD_HOST);
    var t := SmallCatalog.SmallDerives(GuardedInput(), [ODD_HOST]);
    SmallCatalog.SmallLoads(GuardedZone(), [ODD_HOST], [t]);
    l := SmallCatalog.LoadOf(GuardedZone(), [ODD_HOST], [t]);
    forall calls ensures !BlockTaken(AfterCalls(l.out.zones, calls), "a.com") {
      LoadedBlockIff(l, calls, "a.com");
    }
    LoadedZones(l);
  }
}
