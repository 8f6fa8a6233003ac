/** `Validate` (cloudflare/config/config.go): the loops over accounts, zones, buckets and tunnels. */
module ConfigChecks {
  import opened Text
  import opened ZoneRecords
  import opened ConfigModel
  import CatalogModel
  import Routing
  import Sorting
  import Zones

  ghost predicate LegacyListed(accounts: map<string, Account>, names: seq<string>, legacy: seq<string>) {
    && Sorting.Distinct(legacy)
    && forall n :: n in legacy <==> n in names && n in accounts && accounts[n].legacyNames
  }

  lemma LegacyStep(accounts: map<string, Account>, names: seq<string>, legacy: seq<string>, n: string)
    requires LegacyListed(accounts, names, legacy) && n !in names && n in accounts
    ensures LegacyListed(accounts, names + [n], if accounts[n].legacyNames then legacy + [n] else legacy)
  {
  }

  lemma LegacyCount(accounts: map<string, Account>, names: seq<string>, legacy: seq<string>)
    requires LegacyListed(accounts, names, legacy) && forall n :: n in accounts ==> n in names
    ensures |legacy| <= 1 <==> OneLegacy(accounts)
  {
    if |legacy| > 1 {
      assert legacy[0] in legacy && legacy[1] in legacy;
    }
  }

  method ValidateAccounts(accounts: map<string, Account>) returns (ok: bool)
    ensures ok <==> (forall n :: n in accounts ==> AccountOk(n, accounts[n])) && OneLegacy(accounts)
  {
    hide AccountOk, LegacyListed, OneLegacy, Sorting.Sorted;
    var names := Sorting.CollectKeys(accounts.Keys);
    var legacy: seq<string> := [];
    LegacyNone(accounts);
    for i := 0 to |names|
      invariant forall k :: 0 <= k < i ==> AccountOk(names[k], accounts[names[k]])
      invariant LegacyListed(accounts, names[..i], legacy)
    {
      var n := names[i];
      assert n in names && n !in names[..i];
      if !AccountOk(n, accounts[n]) {
        return false;
      }
      LegacyStep(accounts, names[..i], legacy, n);
      assert names[..i + 1] == names[..i] + [n];
      if accounts[n].legacyNames {
        legacy := legacy + [n];
      }
    }
    assert names[..|names|] == names;
    LegacyCount(accounts, names, legacy);
    forall n | n in accounts ensures AccountOk(n, accounts[n]) {
      assert n in names;
    }
    ok := |legacy| <= 1;
  }

  lemma LegacyNone(accounts: map<string, Account>)
    ensures LegacyListed(accounts, [], [])
  {
  }

  method ValidateZone(accounts: map<string, Account>, name: string, z: Zone) returns (ok: bool)
    ensures ok <==> ZoneOk(accounts, name, z)
  {
    if !IsLower(name) || '.' !in name || '*' in name || z.account !in accounts || !ManageOk(z) {
      return false;
    }
    if SecurityTxtOnly(z) {
      return z.blocksOk;
    }
    if (z.pending && z.zoneID != "") || (z.pending && accounts[z.account].legacyNames)
      || (!z.pending && z.zoneID == "") {
      return false;
    }
    if z.sslMode !in ["full", "strict"] || !z.blocksOk {
      return false;
    }
    var records := ValidateRecords(name, z.records);
    if !records {
      return false;
    }
    var hosts := Sorting.CollectKeys(z.origins.Keys);
    for i := 0 to |hosts|
      invariant forall k :: 0 <= k < i ==> OriginKeyOk(name, hosts[k])
    {
      assert hosts[i] in z.origins;
      if !OriginKeyOk(name, hosts[i]) {
        return false;
      }
    }
    forall h | h in z.origins ensures OriginKeyOk(name, h) {
      assert h in hosts;
    }
    ok := true;
  }

  method ValidateZones(accounts: map<string, Account>, zones: map<string, Zone>) returns (ok: bool)
    ensures ok <==> forall n :: n in zones ==> ZoneOk(accounts, n, zones[n])
  {
    hide ZoneOk, Sorting.Sorted, Sorting.Distinct;
    var names := Sorting.CollectKeys(zones.Keys);
    for i := 0 to |names|
      invariant forall k :: 0 <= k < i ==> ZoneOk(accounts, names[k], zones[names[k]])
    {
      assert names[i] in zones;
      var fine := ValidateZone(accounts, names[i], zones[names[i]]);
      if !fine {
        return false;
      }
    }
    forall n | n in zones ensures ZoneOk(accounts, n, zones[n]) {
      assert n in names;
    }
    ok := true;
  }

  method ValidateR2(accounts: map<string, Account>, r2: map<string, Bucket>) returns (ok: bool)
    ensures ok <==> forall n :: n in r2 ==> BucketOk(accounts, n, r2[n])
  {
    hide Sorting.Sorted, Sorting.Distinct, ObjectName;
    var names := Sorting.CollectKeys(r2.Keys);
    for i := 0 to |names|
      invariant forall k :: 0 <= k < i ==> BucketOk(accounts, names[k], r2[names[k]])
    {
      assert names[i] in r2;
      var b := r2[names[i]];
      if !ObjectName(names[i]) {
        return false;
      }
      if b.enabled && (b.account !in accounts || b.bucket == "" || !b.settingsOk) {
        return false;
      }
    }
    forall n | n in r2 ensures BucketOk(accounts, n, r2[n]) {
      assert n in names;
    }
    ok := true;
  }

  method ValidateRegistry(r: Registry) returns (ok: bool)
    ensures ok <==> RegistryOk(r)
  {
    hide AccountOk, OneLegacy, ZoneOk, BucketOk;
    if r.accounts == map[] {
      return false;
    }
    var accounts := ValidateAccounts(r.accounts);
    if !accounts || r.zones == map[] {
      return false;
    }
    var zones := ValidateZones(r.accounts, r.zones);
    if !zones || r.service == "" || r.namespace == "" {
      return false;
    }
    ok := ValidateR2(r.accounts, r.r2);
  }

  method ZoneFor(r: Registry, host: string) returns (zone: string)
    ensures zone == ZoneOf(r, host)
  {
    var names := Sorting.CollectKeys(ManagedZones(r.zones));
    zone := Zones.FindZone(names, host);
  }

  method ValidateTunnel(r: Registry, t: Tunnel) returns (ok: bool)
    ensures ok <==> TunnelOk(r, t)
  {
    if t.account !in r.accounts || t.legacyNames != r.accounts[t.account].legacyNames || t.zone !in InZones(t) {
      return false;
    }
    var zones := InZones(t);
    for i := 0 to |zones|
      invariant forall k :: 0 <= k < i ==> zones[k] in r.zones && r.zones[zones[k]].account == t.account
    {
      if zones[i] !in r.zones || r.zones[zones[i]].account != t.account {
        return false;
      }
    }
    if |t.hosts| == 0 {
      return false;
    }
    for i := 0 to |t.hosts|
      invariant forall k :: 0 <= k < i ==> CatalogModel.HasText(t.hosts[k]) && ZoneOf(r, t.hosts[k]) in zones
    {
      if !CatalogModel.HasText(t.hosts[i]) {
        return false;
      }
      var got := ZoneFor(r, t.hosts[i]);
      if got !in zones {
        return false;
      }
    }
    ok := true;
  }

  method ValidateTunnels(r: Registry) returns (ok: bool)
    ensures ok <==> Sorting.Distinct(Sites(r.tunnels)) && forall t :: t in r.tunnels ==> TunnelOk(r, t)
  {
    hide TunnelOk;
    var seen: set<string> := {};
    for i := 0 to |r.tunnels|
      invariant seen == AsSet(Sites(r.tunnels)[..i]) && Sorting.Distinct(Sites(r.tunnels)[..i])
      invariant forall k :: 0 <= k < i ==> TunnelOk(r, r.tunnels[k])
    {
      var t := r.tunnels[i];
      ghost var sites := Sites(r.tunnels);
      assert sites[..i + 1] == sites[..i] + [SiteOf(t)];
      if SiteOf(t) in seen {
        ghost var k :| 0 <= k < i && sites[..i][k] == SiteOf(t);
        assert sites[k] == sites[i];
        return false;
      }
      seen := seen + {SiteOf(t)};
      var fine := ValidateTunnel(r, t);
      if !fine {
        assert t in r.tunnels;
        return false;
      }
    }
    assert Sites(r.tunnels)[..|r.tunnels|] == Sites(r.tunnels);
    ok := true;
  }

  method FindOwner(ts: seq<Tunnel>, zone: string, host: string) returns (found: bool)
    ensures found <==> SomeOwner(ts, zone, host)
  {
    found := false;
    for i := 0 to |ts|
      invariant found <==> exists k :: 0 <= k < i && OwnsRecord(ts[k], zone, host)
    {
      if OwnsRecord(ts[i], zone, host) {
        found := true;
      }
    }
  }

  method ValidateZoneOrigins(ts: seq<Tunnel>, name: string, z: Zone) returns (ok: bool)
    ensures ok <==> ZoneOriginsOk(ts, name, z)
  {
    hide SomeOwner, Sorting.Sorted, Sorting.Distinct;
    var hosts := Sorting.CollectKeys(z.origins.Keys);
    for j := 0 to |hosts|
      invariant forall k :: 0 <= k < j ==> SomeOwner(ts, name, hosts[k])
    {
      assert hosts[j] in z.origins;
      var found := FindOwner(ts, name, hosts[j]);
      if !found {
        return false;
      }
    }
    forall h | h in z.origins ensures SomeOwner(ts, name, h) {
      assert h in hosts;
    }
    ok := true;
  }

  method ValidateOriginTunnels(r: Registry) returns (ok: bool)
    ensures ok <==> OriginsOk(r)
  {
    hide ZoneOriginsOk, Sorting.Sorted, Sorting.Distinct;
    var names := Sorting.CollectKeys(r.zones.Keys);
    for i := 0 to |names|
      invariant forall k :: 0 <= k < i ==> ZoneOriginsOk(r.tunnels, names[k], r.zones[names[k]])
    {
      assert names[i] in r.zones;
      var fine := ValidateZoneOrigins(r.tunnels, names[i], r.zones[names[i]]);
      if !fine {
        return false;
      }
    }
    forall n | n in r.zones ensures ZoneOriginsOk(r.tunnels, n, r.zones[n]) {
      assert n in names;
    }
    ok := true;
  }

  method ValidateZoneRecords(ts: seq<Tunnel>, name: string, z: Zone) returns (ok: bool)
    ensures ok <==> ZoneRecordsFree(ts, name, z)
  {
    hide SomeOwner;
    for j := 0 to |z.records|
      invariant forall k :: 0 <= k < j ==> !SomeOwner(ts, name, z.records[k].name)
    {
      var owned := FindOwner(ts, name, z.records[j].name);
      if owned {
        return false;
      }
    }
    ok := true;
  }

  method ValidateRecordTunnels(r: Registry) returns (ok: bool)
    ensures ok <==> RecordsFree(r)
  {
    hide ZoneRecordsFree, Sorting.Sorted, Sorting.Distinct;
    var names := Sorting.CollectKeys(r.zones.Keys);
    for i := 0 to |names|
      invariant forall k :: 0 <= k < i ==> ZoneRecordsFree(r.tunnels, names[k], r.zones[names[k]])
    {
      assert names[i] in r.zones;
      var fine := ValidateZoneRecords(r.tunnels, names[i], r.zones[names[i]]);
      if !fine {
        return false;
      }
    }
    forall n | n in r.zones ensures ZoneRecordsFree(r.tunnels, n, r.zones[n]) {
      assert n in names;
    }
    ok := true;
  }

  /** Accepts exactly the valid registries; tunnels are checked as given. */
  method Validate(r: Registry) returns (ok: bool)
    ensures ok <==> Valid(r)
  {
    hide RegistryOk, TunnelOk, OriginsOk, RecordsFree, Routing.RoutingOk, Sorting.Distinct;
    var registry := ValidateRegistry(r);
    if !registry || |r.tunnels| == 0 {
      return false;
    }
    var tunnels := ValidateTunnels(r);
    if !tunnels {
      return false;
    }
    var origins := ValidateOriginTunnels(r);
    if !origins {
      return false;
    }
    var records := ValidateRecordTunnels(r);
    if !records {
      return false;
    }
    ok := Routing.ValidateRouting(AllRouted(r.tunnels));
  }
}
