/**
 The configuration an estate loads (cloudflare/config/config.go): authored accounts and zones, derived tunnels and WAF
 hosts.
 */
module ConfigObject {
  import opened Text
  import opened ZoneRecords
  import opened ConfigModel
  import opened ManagedWaf
  import CatalogModel
  import CatalogRouting
  import ConfigChecks
  import D = Derivation
  import Facts = DerivedTunnelFacts
  import HostOrder
  import Routing
  import Sorting
  import Zones

  /** What Derive is handed: the managed zones, the accounts, the zones whose WAF and cache hosts are derived. */
  function InputOf(r: Registry, xs: seq<D.Exposure>, business: set<string>): D.Input {
    D.Input(
      xs,
      map n | n in ManagedZones(r.zones) :: r.zones[n].account,
      map a | a in r.accounts :: r.accounts[a].legacyNames,
      Sorting.SortedKeys(WafZones(r.zones)),
      business,
      Sorting.SortedKeys(CacheZones(r.zones)))
  }

  function WafZones(zones: map<string, Zone>): set<string> {
    set n | n in ManagedZones(zones) && WafEnabled(zones[n])
  }

  function CacheZones(zones: map<string, Zone>): set<string> {
    set n | n in ManagedZones(zones) && zones[n].cache
  }

  function FromDerived(accounts: map<string, Account>, t: D.Tunnel): Tunnel {
    var legacy := t.account in accounts && accounts[t.account].legacyNames;
    Tunnel(t.cluster, t.account, legacy, t.zone, t.zones, t.hosts, t.dnsElsewhere)
  }

  function AllFromDerived(accounts: map<string, Account>, ts: seq<D.Tunnel>): (out: seq<Tunnel>)
    ensures |out| == |ts| && forall i :: 0 <= i < |out| ==> out[i] == FromDerived(accounts, ts[i])
  {
    seq(|ts|, i requires 0 <= i < |ts| => FromDerived(accounts, ts[i]))
  }

  ghost function WafFrom(input: D.Input): map<string, seq<string>> {
    map z | z in input.wafZones :: Sorting.SortedKeys(D.WafSet(input, D.Claims(input), z))
  }

  ghost function CacheFrom(input: D.Input): map<string, seq<string>> {
    map z | z in input.cacheZones :: Sorting.SortedKeys(D.CacheSet(input, D.Claims(input), z))
  }

  function WithCache(zones: map<string, Zone>, byZone: map<string, seq<string>>): map<string, Zone> {
    map n | n in zones :: if n in byZone then zones[n].(cacheHosts := byZone[n]) else zones[n]
  }

  /** The registry with the derived tunnels, cache hosts and WAF hosts filled in. */
  ghost function Filled(r: Registry, input: D.Input, derived: seq<D.Tunnel>): Registry {
    r.(tunnels := AllFromDerived(r.accounts, derived),
      zones := WithWaf(WithCache(r.zones, CacheFrom(input)), WafFrom(input)))
  }

  /** One registry is what loading another against a catalog and its business projects gives. */
  ghost predicate Loaded(r: Registry, es: CatalogModel.Exposures, business: set<string>, derived: seq<D.Tunnel>,
      out: Registry)
  {
    var input := InputOf(r, CatalogRouting.CatalogExposures(es), business);
    && RegistryOk(r) && (forall n :: n in r.zones ==> ZoneWafOk(r.zones[n]))
    && D.Accepted(input) && D.DerivedTunnels(input, derived)
    && out == Filled(r, input, derived) && Valid(out)
  }

  predicate CachesAnything(zones: map<string, Zone>) {
    exists n :: n in zones && zones[n].cache
  }

  function Business(projects: Option<set<string>>): set<string> {
    if projects.Some? then projects.value else {}
  }

  /** The derivation goes through. */
  ghost predicate DeriveAccepts(r: Registry, input: D.Input) {
    D.Accepted(input) && forall n :: n in r.zones ==> ZoneWafOk(r.zones[n])
  }

  /** The registry with the derived parts filled in is valid. */
  ghost predicate FilledValid(r: Registry, input: D.Input) {
    exists derived :: D.DerivedTunnels(input, derived) && Valid(Filled(r, input, derived))
  }

  ghost predicate LoadAccepts(r: Registry, es: CatalogModel.Exposures, projects: Option<set<string>>) {
    var input := InputOf(r, CatalogRouting.CatalogExposures(es), Business(projects));
    && RegistryOk(r) && (projects.None? ==> !CachesAnything(r.zones))
    && DeriveAccepts(r, input) && FilledValid(r, input)
  }

  lemma FilledDecides(r: Registry, input: D.Input, derived: seq<D.Tunnel>)
    requires D.DerivedTunnels(input, derived)
    ensures Valid(Filled(r, input, derived)) <==> FilledValid(r, input)
  {
    hide D.DerivedTunnels, Valid, Filled;
    if others :| D.DerivedTunnels(input, others) && Valid(Filled(r, input, others)) {
      Facts.DerivedUnique(input, derived, others);
    }
  }

  class Config {
    var accounts: map<string, Account>
    var zones: map<string, Zone>
    var service: string
    var namespace: string
    var tunnels: seq<Tunnel>
    var r2: map<string, Bucket>
    var root: Rotations

    function Snapshot(): Registry
      reads this
    {
      Registry(accounts, zones, service, namespace, tunnels, r2, root)
    }

    /** A decoded file: nothing derived yet. */
    constructor (r: Registry)
      ensures Snapshot() == r
    {
      accounts, zones, service, namespace := r.accounts, r.zones, r.service, r.namespace;
      tunnels, r2, root := r.tunnels, r.r2, r.root;
    }

    method Validate() returns (ok: bool)
      ensures ok <==> Valid(Snapshot())
    {
      ok := ConfigChecks.Validate(Snapshot());
    }

    method ListWafZones() returns (names: seq<string>)
      ensures names == Sorting.SortedKeys(WafZones(zones))
    {
      names := Sorting.CollectKeys(WafZones(zones));
    }

    /** Fills each enabled zone's WAF hosts in name order, up to the first refused opt-out or wildcard record. */
    method DeriveWAF(fromCatalog: map<string, seq<string>>) returns (ok: bool)
      modifies this`zones
      ensures ok <==> forall n :: n in old(zones) ==> ZoneWafOk(old(zones)[n])
      ensures zones == WafFilled(old(zones), fromCatalog)
      ensures ok ==> zones == WithWaf(old(zones), fromCatalog)
    {
      var names := Sorting.CollectKeys(zones.Keys);
      hide ZoneWafOk, WithWaf, WafFilled, Sorting.Sorted, Sorting.Distinct;
      ok := FillZones(names, fromCatalog);
      if ok {
        WafAllFilled(old(zones), fromCatalog);
      }
    }

    method FillZones(names: seq<string>, fromCatalog: map<string, seq<string>>) returns (ok: bool)
      requires Sorting.Sorted(StringLeq, names) && Sorting.Distinct(names) && forall n :: n in names <==> n in zones
      modifies this`zones
      ensures ok <==> forall n :: n in old(zones) ==> ZoneWafOk(old(zones)[n])
      ensures ok ==> zones == WithWaf(old(zones), fromCatalog)
      ensures !ok ==> zones == WafFilled(old(zones), fromCatalog)
    {
      ghost var before := zones;
      assert FilledSoFar(before, zones, [], fromCatalog);
      hide *;
      for i := 0 to |names|
        invariant FilledSoFar(before, zones, names[..i], fromCatalog)
      {
        NextName(names, i);
        ok := FillNext(before, names[..i], names[i], fromCatalog);
        if !ok {
          FilledUpTo(before, zones, names, i, fromCatalog);
          return;
        }
      }
      assert names[..|names|] == names;
      FilledAll(before, zones, names, fromCatalog);
      ok := true;
    }

    method FillNext(ghost before: map<string, Zone>, ghost done: seq<string>, name: string,
        byZone: map<string, seq<string>>)
      returns (ok: bool)
      requires FilledSoFar(before, zones, done, byZone) && name in before && name !in done
      modifies this`zones
      ensures ok <==> ZoneWafOk(before[name])
      ensures ok ==> FilledSoFar(before, zones, done + [name], byZone)
      ensures !ok ==> zones == old(zones)
    {
      ghost var now := zones;
      assert name in now && now[name] == before[name];
      hide FilledSoFar, ZoneWafOk, WithWafAt;
      ok := FillZone(name, ListAt(byZone, name));
      if ok {
        FillStep(before, now, done, byZone, name);
      }
    }

    method FillZone(name: string, fromCatalog: seq<string>) returns (ok: bool)
      requires name in zones
      modifies this`zones
      ensures ok <==> ZoneWafOk(old(zones)[name])
      ensures zones == if ok then old(zones)[name := WithWafAt(old(zones)[name], fromCatalog)] else old(zones)
    {
      var z := zones[name];
      if !WafEnabled(z) {
        return true;
      }
      var hosts: seq<string>;
      ok, hosts := ZoneWafHosts(z, fromCatalog);
      if ok {
        zones := zones[name := z.(wafHosts := hosts)];
      }
    }

    /** Adds exact hosts to an enabled zone's list; a refused call changes nothing. */
    method AddWAFHosts(zone: string, hosts: seq<string>) returns (ok: bool)
      modifies this`zones
      ensures ok <==> Admits(old(zones), Call(zone, hosts))
      ensures zones == AfterCall(old(zones), Call(zone, hosts))
    {
      if zone !in zones || !WafEnabled(zones[zone]) {
        return false;
      }
      for i := 0 to |hosts|
        invariant zones == old(zones)
        invariant forall k :: 0 <= k < i ==> ExactWafHost(zone, hosts[k])
      {
        if !ExactWafHost(zone, hosts[i]) {
          return false;
        }
      }
      var list := Sorting.SortedUnique(zones[zone].wafHosts + hosts);
      zones := zones[zone := zones[zone].(wafHosts := list)];
      ok := true;
    }

    /** Fills the cache hosts of each zone that has a list, in any order. */
    method FillCache(byZone: map<string, seq<string>>)
      requires byZone.Keys <= zones.Keys
      modifies this`zones
      ensures zones == WithCache(old(zones), byZone)
    {
      ghost var before := zones;
      var rest := byZone.Keys;
      while rest != {}
        invariant rest <= byZone.Keys && zones.Keys == before.Keys
        invariant forall n :: n in before && n in byZone && n !in rest ==>
          zones[n] == before[n].(cacheHosts := byZone[n])
        invariant forall n :: n in before && (n !in byZone || n in rest) ==> zones[n] == before[n]
        decreases rest
      {
        var name :| name in rest;
        zones := zones[name := zones[name].(cacheHosts := byZone[name])];
        rest := rest - {name};
      }
    }

    /** Derives the tunnels, the cache hosts and the WAF hosts from the catalog; no tunnel is authored. */
    method Derive(es: CatalogModel.Exposures, business: set<string>) returns (ok: bool, ghost derived: seq<D.Tunnel>)
      requires RegistryOk(Snapshot())
      modifies this`tunnels, this`zones
      ensures ok <==> D.Accepted(InputOf(old(Snapshot()), CatalogRouting.CatalogExposures(es), business))
                      && forall n :: n in old(zones) ==> ZoneWafOk(old(zones)[n])
      ensures ok ==> D.DerivedTunnels(InputOf(old(Snapshot()), CatalogRouting.CatalogExposures(es), business), derived)
      ensures ok ==>
        Snapshot()
          == Filled(old(Snapshot()), InputOf(old(Snapshot()), CatalogRouting.CatalogExposures(es), business), derived)
    {
      var input := BuildInput(es, business);
      NoEmptyZone(Snapshot());
      hide D.Accepted, D.DerivedTunnels, D.WafSet, D.CacheSet, RegistryOk, ZoneWafOk, D.Claims,
        CatalogRouting.CatalogExposures;
      var result := D.Derive(input);
      if result.Err? {
        return false, [];
      }
      derived := result.value.tunnels;
      D.ListsAreSets(input, result.value.cacheHosts, result.value.wafHosts);
      var list := Convert(result.value.tunnels);
      WafFromIs(input, result.value.wafHosts);
      CacheFromIs(input, result.value.cacheHosts);
      CacheKeysAreZones(zones, result.value.cacheHosts);
      ok := FillIn(input, list, result.value);
    }

    method FillIn(input: D.Input, list: seq<Tunnel>, derived: D.Derived) returns (ok: bool)
      requires list == AllFromDerived(accounts, derived.tunnels)
      requires derived.cacheHosts == CacheFrom(input) && derived.wafHosts == WafFrom(input)
      requires derived.cacheHosts.Keys <= zones.Keys
      modifies this`tunnels, this`zones
      ensures ok <==> forall n :: n in old(zones) ==> ZoneWafOk(old(zones)[n])
      ensures ok ==> Snapshot() == Filled(old(Snapshot()), input, derived.tunnels)
    {
      hide WafFrom, CacheFrom, WithWaf, WithCache, ZoneWafOk, D.Claims;
      ghost var before := zones;
      tunnels := list;
      FillCache(derived.cacheHosts);
      CacheKeepsWaf(before, derived.cacheHosts);
      ok := DeriveWAF(derived.wafHosts);
    }

    method BuildInput(es: CatalogModel.Exposures, business: set<string>) returns (input: D.Input)
      ensures input == InputOf(Snapshot(), CatalogRouting.CatalogExposures(es), business)
    {
      var xs := CatalogRouting.CollectExposures(es);
      var wafZones := ListWafZones();
      var cacheZones := Sorting.CollectKeys(CacheZones(zones));
      input := D.Input(xs, map n | n in ManagedZones(zones) :: zones[n].account,
        map a | a in accounts :: accounts[a].legacyNames, wafZones, business, cacheZones);
    }

    method Convert(ts: seq<D.Tunnel>) returns (list: seq<Tunnel>)
      ensures list == AllFromDerived(accounts, ts)
    {
      list := [];
      for i := 0 to |ts|
        invariant list == AllFromDerived(accounts, ts[..i])
      {
        list := list + [FromDerived(accounts, ts[i])];
      }
      assert ts[..|ts|] == ts;
    }

    /**
     Checks the file, derives from the catalog and the projects it was generated from, and validates both together.
     */
    method Load(catalog: Option<CatalogModel.Exposures>, projects: Option<set<string>>)
      returns (ok: bool, ghost derived: seq<D.Tunnel>)
      modifies this`tunnels, this`zones
      ensures ok <==> catalog.Some? && LoadAccepts(old(Snapshot()), catalog.value, projects)
      ensures ok ==> Loaded(old(Snapshot()), catalog.value, Business(projects), derived, Snapshot())
    {
      derived := [];
      ok := ConfigChecks.ValidateRegistry(Snapshot());
      if !ok {
        return;
      }
      if catalog.None? || (projects.None? && CachesAnything(zones)) {
        return false, [];
      }
      hide RegistryOk, Valid, DeriveAccepts, FilledValid, D.DerivedTunnels, D.Accepted, Filled, CachesAnything,
        ZoneWafOk;
      ok, derived := DeriveChecked(catalog.value, Business(projects));
    }

    method DeriveChecked(es: CatalogModel.Exposures, business: set<string>)
      returns (ok: bool, ghost derived: seq<D.Tunnel>)
      requires RegistryOk(Snapshot())
      modifies this`tunnels, this`zones
      ensures var input := InputOf(old(Snapshot()), CatalogRouting.CatalogExposures(es), business);
        ok <==> DeriveAccepts(old(Snapshot()), input) && FilledValid(old(Snapshot()), input)
      ensures ok ==> Loaded(old(Snapshot()), es, business, derived, Snapshot())
    {
      ghost var input := InputOf(Snapshot(), CatalogRouting.CatalogExposures(es), business);
      hide RegistryOk, Valid, D.Accepted, D.DerivedTunnels, Filled, FilledValid, InputOf, ZoneWafOk;
      ok, derived := Derive(es, business);
      if !ok {
        return;
      }
      ok := Validate();
      FilledDecides(old(Snapshot()), input, derived);
    }
  }

  lemma WafFromIs(input: D.Input, byZone: map<string, seq<string>>)
    requires "" !in input.wafZones && byZone.Keys == AsSet(input.wafZones)
    requires forall z :: z in byZone && z != "" ==> byZone[z] == Sorting.SortedKeys(D.WafSet(input, D.Claims(input), z))
    ensures byZone == WafFrom(input)
  {
  }

  lemma CacheFromIs(input: D.Input, byZone: map<string, seq<string>>)
    requires "" !in input.cacheZones && byZone.Keys == AsSet(input.cacheZones)
    requires forall z :: z in byZone && z != "" ==>
      byZone[z] == Sorting.SortedKeys(D.CacheSet(input, D.Claims(input), z))
    ensures byZone == CacheFrom(input)
  {
    hide D.CacheSet;
  }

  lemma CacheKeysAreZones(zones: map<string, Zone>, byZone: map<string, seq<string>>)
    requires byZone.Keys == AsSet(Sorting.SortedKeys(CacheZones(zones)))
    ensures byZone.Keys <= zones.Keys
  {
  }

  /** Cache hosts change nothing that the WAF derivation reads. */
  lemma CacheKeepsWaf(zones: map<string, Zone>, byZone: map<string, seq<string>>)
    ensures WithCache(zones, byZone).Keys == zones.Keys
    ensures forall n :: n in zones ==>
      WithCache(zones, byZone)[n] == zones[n].(cacheHosts := WithCache(zones, byZone)[n].cacheHosts)
    ensures forall n :: n in zones ==> (ZoneWafOk(WithCache(zones, byZone)[n]) <==> ZoneWafOk(zones[n]))
  {
    hide RecordTaken;
  }

  lemma NoEmptyZone(r: Registry)
    requires RegistryOk(r)
    ensures "" !in WafZones(r.zones) && "" !in CacheZones(r.zones)
  {
    assert "" in r.zones ==> ZoneOk(r.accounts, "", r.zones[""]);
  }
}
