/**
 Which zone each CNAME is created in: `DNS.validate` and `ZoneIDOf` (cloudflare/tunnel/tunnel.go), fed by
 `TunnelArgsInZones` and guarded by `checkTunnelZones` (cloudflare/edge/edge.go).
 */
module DnsPlacement {
  import opened Text
  import opened Zones
  import opened Derivation
  import opened DerivedTunnelFacts
  import HostOrder
  import Routing
  import Sorting

  datatype DnsZone = DnsZone(zoneID: string, name: string)

  /** One zone for every name (zoneID), or several to choose from (zones). */
  datatype Dns = Dns(zoneID: string, zones: seq<DnsZone>, names: seq<string>)

  function LowerNames(zones: seq<DnsZone>): (names: seq<string>)
    ensures |names| == |zones|
    ensures forall i :: 0 <= i < |zones| ==> names[i] == ToLower(zones[i].name)
  {
    seq(|zones|, i requires 0 <= i < |zones| => ToLower(zones[i].name))
  }

  /** The id the last zone of a lower-cased name carries. */
  function IdOf(zones: seq<DnsZone>, name: string): Option<string> {
    if zones == [] then None
    else if ToLower(zones[|zones| - 1].name) == name then Some(zones[|zones| - 1].zoneID)
    else IdOf(zones[..|zones| - 1], name)
  }

  lemma {:induction false} IdOfListed(zones: seq<DnsZone>, name: string)
    ensures IdOf(zones, name).Some? <==> name in LowerNames(zones)
    ensures IdOf(zones, name).Some? ==>
      exists z :: z in zones && ToLower(z.name) == name && IdOf(zones, name) == Some(z.zoneID)
  {
    if zones != [] {
      var front, last := zones[..|zones| - 1], zones[|zones| - 1];
      IdOfListed(front, name);
      assert zones == front + [last];
      assert LowerNames(zones) == LowerNames(front) + [ToLower(last.name)];
    }
  }

  function ZoneIdFor(d: Dns, host: string): Option<string> {
    if d.zoneID != "" then Some(d.zoneID)
    else
      var zone := ZoneOf(LowerNames(d.zones), host);
      if zone == "" then None else IdOf(d.zones, zone)
  }

  method ZoneIDOf(d: Dns, host: string) returns (id: Option<string>)
    ensures id == ZoneIdFor(d, host)
  {
    if d.zoneID != "" {
      return Some(d.zoneID);
    }
    var names: seq<string>, ids: map<string, string> := [], map[];
    for i := 0 to |d.zones|
      invariant names == LowerNames(d.zones[..i])
      invariant forall n :: n in ids <==> IdOf(d.zones[..i], n).Some?
      invariant forall n :: n in ids ==> IdOf(d.zones[..i], n) == Some(ids[n])
    {
      var z := d.zones[i];
      assert d.zones[..i + 1][..i] == d.zones[..i];
      names := names + [ToLower(z.name)];
      ids := ids[ToLower(z.name) := z.zoneID];
    }
    assert d.zones[..|d.zones|] == d.zones;
    var zone := FindZone(names, host);
    if zone == "" {
      return None;
    }
    ZoneOfListed(names, host);
    IdOfListed(d.zones, zone);
    return Some(ids[zone]);
  }

  ghost predicate ZonesDistinct(zones: seq<DnsZone>) {
    && (forall z :: z in zones ==> z.zoneID != "" && z.name != "")
    && (forall i, j :: 0 <= i < j < |zones| ==> ToLower(zones[i].name) != ToLower(zones[j].name))
    && (forall i, j :: 0 <= i < j < |zones| ==> zones[i].zoneID != zones[j].zoneID)
  }

  /** One way of naming zones, every zone once, every name once and in a zone. */
  ghost predicate DnsOk(d: Dns) {
    && (d.zoneID == "" <==> d.zones != [])
    && d.names != []
    && ZonesDistinct(d.zones)
    && Sorting.Distinct(Routing.LowerAll(d.names))
    && forall h :: h in d.names ==> ZoneIdFor(d, h).Some?
  }

  method CheckZones(zones: seq<DnsZone>) returns (ok: bool)
    ensures ok <==> ZonesDistinct(zones)
  {
    var names: set<string>, ids: set<string> := {}, {};
    for i := 0 to |zones|
      invariant names == set k | 0 <= k < i :: ToLower(zones[k].name)
      invariant ids == set k | 0 <= k < i :: zones[k].zoneID
      invariant ZonesDistinct(zones[..i])
    {
      var z := zones[i];
      assert zones[..i + 1] == zones[..i] + [z];
      if z.zoneID == "" || z.name == "" || ToLower(z.name) in names || z.zoneID in ids {
        assert z in zones;
        return false;
      }
      names, ids := names + {ToLower(z.name)}, ids + {z.zoneID};
    }
    assert zones[..|zones|] == zones;
    ok := true;
  }

  method CheckNames(d: Dns) returns (ok: bool)
    ensures ok <==> Sorting.Distinct(Routing.LowerAll(d.names)) && forall h :: h in d.names ==> ZoneIdFor(d, h).Some?
  {
    var names: set<string>, low := {}, Routing.LowerAll(d.names);
    for i := 0 to |d.names|
      invariant names == AsSet(low[..i])
      invariant Sorting.Distinct(low[..i])
      invariant forall k :: 0 <= k < i ==> ZoneIdFor(d, d.names[k]).Some?
    {
      assert low[..i + 1] == low[..i] + [low[i]];
      if low[i] in names {
        return false;
      }
      names := names + {low[i]};
      var id := ZoneIDOf(d, d.names[i]);
      if id.None? {
        assert d.names[i] in d.names;
        return false;
      }
    }
    assert low[..|low|] == low;
    ok := true;
  }

  method ValidateDns(d: Dns) returns (ok: bool)
    ensures ok <==> DnsOk(d)
  {
    if (d.zoneID == "" && |d.zones| == 0) || (d.zoneID != "" && |d.zones| > 0) || |d.names| == 0 {
      return false;
    }
    var zones := CheckZones(d.zones);
    if !zones {
      return false;
    }
    ok := CheckNames(d);
  }

  // ---------------------------------------------------------------------------
  // From a tunnel to its DNS block
  // ---------------------------------------------------------------------------

  function InZones(t: Tunnel): seq<string> {
    if |t.zones| > 0 then t.zones else [t.zone]
  }

  function ZonesWithIds(zones: seq<string>, ids: map<string, string>): (out: seq<DnsZone>)
    requires forall z :: z in zones ==> z in ids
    ensures |out| == |zones|
    ensures forall i :: 0 <= i < |zones| ==> out[i] == DnsZone(ids[zones[i]], zones[i])
  {
    seq(|zones|, i requires 0 <= i < |zones| => DnsZone(ids[zones[i]], zones[i]))
  }

  /** The DNS block of a tunnel; nothing when every record is written elsewhere. Err: a zone has no id. */
  method TunnelArgsInZones(ids: map<string, string>, t: Tunnel) returns (r: Result<Option<Dns>, string>)
    ensures r.Ok? <==> forall z :: z in InZones(t) ==> z in ids
    ensures r.Err? ==> r.error in InZones(t) && r.error !in ids
    ensures r.Ok? ==> r.value == DnsBlock(ids, t)
  {
    var zones := InZones(t);
    var names := TunnelDnsNames(t);
    if |zones| == 1 {
      if zones[0] !in ids {
        return Err(zones[0]);
      }
      return Ok(if |names| == 0 then None else Some(Dns(ids[zones[0]], [], names)));
    }
    var list: seq<DnsZone> := [];
    for i := 0 to |zones|
      invariant forall k :: 0 <= k < i ==> zones[k] in ids
      invariant list == ZonesWithIds(zones[..i], ids)
    {
      if zones[i] !in ids {
        return Err(zones[i]);
      }
      assert zones[..i + 1] == zones[..i] + [zones[i]];
      list := list + [DnsZone(ids[zones[i]], zones[i])];
    }
    assert zones[..|zones|] == zones;
    r := Ok(if |names| == 0 then None else Some(Dns("", list, names)));
  }

  function DnsBlock(ids: map<string, string>, t: Tunnel): Option<Dns>
    requires forall z :: z in InZones(t) ==> z in ids
  {
    var names := DnsNames(t.hosts, t.dnsElsewhere);
    var zones := InZones(t);
    if names == [] then None
    else if |zones| == 1 then Some(Dns(ids[zones[0]], [], names))
    else Some(Dns("", ZonesWithIds(zones, ids), names))
  }

  /** A tunnel the edge stack deploys: its zones are declared and of its account, and hold its hosts. */
  ghost predicate TunnelZonesOk(t: Tunnel, owners: map<string, string>) {
    && (|t.zones| > 0 && t.zone != "" ==> t.zone in t.zones)
    && (forall z :: z in InZones(t) ==> z in owners && owners[z] == t.account)
    && (forall h :: h in t.hosts ==> ZoneOf(InZones(t), h) != "")
  }

  method CheckTunnelZones(t: Tunnel, owners: map<string, string>) returns (ok: bool)
    ensures ok <==> TunnelZonesOk(t, owners)
  {
    var zones := InZones(t);
    if |t.zones| > 0 && t.zone != "" && t.zone !in t.zones {
      return false;
    }
    for i := 0 to |zones|
      invariant forall k :: 0 <= k < i ==> zones[k] in owners && owners[zones[k]] == t.account
    {
      if zones[i] !in owners || owners[zones[i]] != t.account {
        return false;
      }
    }
    for i := 0 to |t.hosts|
      invariant forall k :: 0 <= k < i ==> ZoneOf(zones, t.hosts[k]) != ""
    {
      var zone := FindZone(zones, t.hosts[i]);
      if zone == "" {
        assert t.hosts[i] in t.hosts;
        return false;
      }
    }
    ok := true;
  }

  /** What the registry's validation leaves: lower-case zone names, each with an id that may be empty or shared. */
  ghost predicate NamedZones(input: Input, ids: map<string, string>) {
    forall z :: z in input.zones ==> z != "" && IsLower(z) && z in ids
  }

  /** Derive's tunnels pass the edge stack's guard. */
  lemma DerivedZonesOk(input: Input, tunnels: seq<Tunnel>, t: Tunnel)
    requires Accepted(input) && DerivedTunnels(input, tunnels) && t in tunnels
    ensures TunnelZonesOk(t, input.zones)
    ensures |t.zones| > 0
  {
    forall h | h in t.hosts
      ensures ZoneOf(t.zones, h) != "" && t.zone in t.zones
      ensures forall z :: z in t.zones ==> z in input.zones && input.zones[z] == t.account
    {
      OwnZonesResolve(input, tunnels, t, h);
    }
    assert t.hosts[0] in t.hosts;
  }

  /** Zones a DNS block can be built from: distinct lower-case names with an id. */
  ghost predicate UsableZones(zones: seq<string>, ids: map<string, string>) {
    zones != [] && Sorting.Distinct(zones) && forall z :: z in zones ==> z != "" && IsLower(z) && z in ids
  }

  /** Every zone has an id of its own. */
  ghost predicate OwnIds(zones: seq<string>, ids: map<string, string>)
    requires forall z :: z in zones ==> z in ids
  {
    && (forall z :: z in zones ==> ids[z] != "")
    && forall y, z :: y in zones && z in zones && ids[y] == ids[z] ==> y == z
  }

  lemma BlockPlaces(t: Tunnel, ids: map<string, string>, host: string)
    requires UsableZones(t.zones, ids) && host in DnsNames(t.hosts, t.dnsElsewhere)
    requires ZoneOf(t.zones, host) != ""
    ensures DnsBlock(ids, t).Some? && ZoneOf(t.zones, host) in ids
    ensures |t.zones| > 1 || ids[ZoneOf(t.zones, host)] != "" ==>
      ZoneIdFor(DnsBlock(ids, t).value, host) == Some(ids[ZoneOf(t.zones, host)])
  {
    ZoneOfListed(t.zones, host);
    var zone := ZoneOf(t.zones, host);
    if |t.zones| > 1 {
      var list := ZonesWithIds(t.zones, ids);
      forall i | 0 <= i < |list| ensures LowerNames(list)[i] == t.zones[i] {
        assert t.zones[i] in t.zones;
      }
      assert LowerNames(list) == t.zones;
      IdOfListed(list, zone);
    }
  }

  lemma ZonesWithIdsDistinct(zones: seq<string>, ids: map<string, string>)
    requires UsableZones(zones, ids)
    ensures ZonesDistinct(ZonesWithIds(zones, ids)) <==> OwnIds(zones, ids)
  {
    var list := ZonesWithIds(zones, ids);
    forall i | 0 <= i < |list|
      ensures ToLower(list[i].name) == zones[i] && list[i].zoneID == ids[zones[i]] && zones[i] != ""
    {
      assert zones[i] in zones;
    }
    if ZonesDistinct(list) {
      forall z | z in zones ensures ids[z] != "" {
        var i :| 0 <= i < |zones| && zones[i] == z;
        assert list[i] in list;
      }
      forall y, z | y in zones && z in zones && ids[y] == ids[z] ensures y == z {
        var i :| 0 <= i < |zones| && zones[i] == y;
        var j :| 0 <= j < |zones| && zones[j] == z;
        assert list[i].zoneID == list[j].zoneID;
      }
    }
  }

  /** The block's names pass, so the block does exactly when its zones do. */
  lemma BlockOk(t: Tunnel, ids: map<string, string>)
    requires UsableZones(t.zones, ids) && forall h :: h in t.hosts ==> IsLower(h) && ZoneOf(t.zones, h) != ""
    requires Sorting.Distinct(t.hosts)
    ensures DnsBlock(ids, t).Some? ==> (DnsOk(DnsBlock(ids, t).value) <==> OwnIds(t.zones, ids))
  {
    if DnsBlock(ids, t).Some? {
      var d := DnsBlock(ids, t).value;
      DnsNamesMembers(t.hosts, t.dnsElsewhere);
      assert t.zones[0] in t.zones;
      forall h | h in d.names && OwnIds(t.zones, ids) ensures ZoneIdFor(d, h).Some? {
        ZoneOfListed(t.zones, h);
        BlockPlaces(t, ids, h);
      }
      DnsNamesDistinct(t.hosts, t.dnsElsewhere);
      forall i | 0 <= i < |d.names| ensures ToLower(d.names[i]) == d.names[i] {
        assert d.names[i] in d.names;
      }
      assert Routing.LowerAll(d.names) == d.names;
      ZonesWithIdsDistinct(t.zones, ids);
    }
  }

  lemma DnsNamesDistinct(hosts: seq<string>, elsewhere: seq<string>)
    requires Sorting.Distinct(hosts)
    ensures Sorting.Distinct(DnsNames(hosts, elsewhere))
  {
    if hosts != [] {
      var front, last := hosts[..|hosts| - 1], hosts[|hosts| - 1];
      DnsNamesDistinct(front, elsewhere);
      DnsNamesMembers(front, elsewhere);
      assert last !in front;
    }
  }

  lemma DerivedZonesUsable(input: Input, tunnels: seq<Tunnel>, t: Tunnel, ids: map<string, string>)
    requires Accepted(input) && DerivedTunnels(input, tunnels) && t in tunnels && NamedZones(input, ids)
    ensures UsableZones(t.zones, ids)
  {
    DerivedZonesOk(input, tunnels, t);
    forall z | z in t.zones ensures z in input.zones {
    }
  }

  /**
   Every CNAME of a derived tunnel is created in the host's longest-suffix zone of the whole registry. A tunnel in
   one zone without an id has no place to create it.
   */
  lemma CnamePlacement(input: Input, tunnels: seq<Tunnel>, t: Tunnel, ids: map<string, string>, host: string)
    requires Accepted(input) && DerivedTunnels(input, tunnels) && t in tunnels && NamedZones(input, ids)
    requires host in DnsNames(t.hosts, t.dnsElsewhere)
    ensures forall z :: z in InZones(t) ==> z in ids
    ensures ZoneOf(ZoneNames(input), host) in ids && DnsBlock(ids, t).Some?
    ensures |t.zones| > 1 || ids[ZoneOf(ZoneNames(input), host)] != "" ==>
      ZoneIdFor(DnsBlock(ids, t).value, host) == Some(ids[ZoneOf(ZoneNames(input), host)])
  {
    DnsNamesMembers(t.hosts, t.dnsElsewhere);
    DerivedZonesUsable(input, tunnels, t, ids);
    OwnZonesResolve(input, tunnels, t, host);
    BlockPlaces(t, ids, host);
  }

  /**
   The DNS block of a derived tunnel passes the tunnel's own validation exactly when each of its zones has its own id.
   */
  lemma DerivedDnsOk(input: Input, tunnels: seq<Tunnel>, t: Tunnel, ids: map<string, string>)
    requires Accepted(input) && DerivedTunnels(input, tunnels) && t in tunnels && NamedZones(input, ids)
    requires Routing.CleanClaims(Claims(input))
    ensures forall z :: z in InZones(t) || z in t.zones ==> z in ids
    ensures DnsBlock(ids, t).Some? ==> (DnsOk(DnsBlock(ids, t).value) <==> OwnIds(t.zones, ids))
  {
    DerivedZonesUsable(input, tunnels, t, ids);
    forall h | h in t.hosts ensures IsLower(h) && ZoneOf(t.zones, h) != "" {
      OwnZonesResolve(input, tunnels, t, h);
      Routing.DerivedHost(input, tunnels, t, h);
    }
    Routing.DerivedHostsDistinct(input, tunnels, t);
    BlockOk(t, ids);
  }
}
