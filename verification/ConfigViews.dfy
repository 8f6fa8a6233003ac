/**
 The registry as one account's stacks see it (`ForAccount`, `StackName`, `StackAccount`, cloudflare/config/stacks.go).
 */
module ConfigViews {
  import opened Text
  import opened ZoneRecords
  import opened ConfigModel
  import D = Derivation
  import Routing
  import Sorting
  import Zones

  const DEFAULT_ROTATIONS := Rotations("1", "1", "1", "1")

  function RootFor(r: Registry, account: string): Rotations {
    if account !in r.accounts then DEFAULT_ROTATIONS
    else if r.accounts[account].legacyNames then r.root
    else if r.accounts[account].root.Some? then r.accounts[account].root.value
    else DEFAULT_ROTATIONS
  }

  function TunnelsOf(ts: seq<Tunnel>, account: string): seq<Tunnel> {
    if ts == [] then []
    else
      var front, t := TunnelsOf(ts[..|ts| - 1], account), ts[|ts| - 1];
      if t.account == account then front + [t] else front
  }

  /** The entries that pass a test. */
  function Part<V>(all: map<string, V>, mine: V -> bool): map<string, V> {
    map n | n in all && mine(all[n]) :: all[n]
  }

  function ZonesOf(zones: map<string, Zone>, account: string): map<string, Zone> {
    Part(zones, (z: Zone) => z.account == account)
  }

  function BucketsOf(r2: map<string, Bucket>, account: string): map<string, Bucket> {
    Part(r2, (b: Bucket) => b.account == account)
  }

  function ViewOf(r: Registry, account: string): Registry
    requires account in r.accounts
  {
    Registry(map[account := r.accounts[account]], ZonesOf(r.zones, account), r.service, r.namespace,
             TunnelsOf(r.tunnels, account), BucketsOf(r.r2, account), RootFor(r, account))
  }

  /** The account is known and none of its zones still waits for its id. */
  predicate HasView(r: Registry, account: string) {
    account in r.accounts && forall n :: n in r.zones && r.zones[n].account == account ==> !r.zones[n].pending
  }

  ghost predicate Picked<V>(out: map<string, V>, all: map<string, V>, seen: seq<string>, mine: V -> bool) {
    && (forall n :: n in out <==> n in seen && n in all && mine(all[n]))
    && forall n :: n in out ==> out[n] == all[n]
  }

  lemma PickStep<V>(out: map<string, V>, all: map<string, V>, seen: seq<string>, mine: V -> bool, n: string)
    requires Picked(out, all, seen, mine) && n in all
    ensures Picked(if mine(all[n]) then out[n := all[n]] else out, all, seen + [n], mine)
  {
  }

  lemma PickedAll<V>(out: map<string, V>, all: map<string, V>, seen: seq<string>, mine: V -> bool)
    requires Picked(out, all, seen, mine) && forall n :: n in all ==> n in seen
    ensures out == Part(all, mine)
  {
  }

  ghost predicate NoneRefused<V>(all: map<string, V>, seen: seq<string>, mine: V -> bool, refused: V -> bool) {
    forall n :: n in seen && n in all && mine(all[n]) ==> !refused(all[n])
  }

  lemma NoneRefusedStep<V>(all: map<string, V>, seen: seq<string>, mine: V -> bool, refused: V -> bool, n: string)
    requires n in all
    ensures NoneRefused(all, seen + [n], mine, refused)
       <==> (NoneRefused(all, seen, mine, refused) && !(mine(all[n]) && refused(all[n])))
  {
  }

  lemma RefusedStays<V>(all: map<string, V>, names: seq<string>, k: nat, mine: V -> bool, refused: V -> bool)
    requires k <= |names| && !NoneRefused(all, names[..k], mine, refused)
    ensures !NoneRefused(all, names, mine, refused)
  {
  }

  /** The entries that pass, read in the order given, unless one of them is refused. */
  method Pick<V>(all: map<string, V>, names: seq<string>, mine: V -> bool, refused: V -> bool)
    returns (out: Option<map<string, V>>)
    requires forall n :: n in all <==> n in names
    ensures out == if NoneRefused(all, names, mine, refused) then Some(Part(all, mine)) else None
  {
    var part: map<string, V> := map[];
    assert Picked(part, all, [], mine) && NoneRefused(all, [], mine, refused);
    hide *;
    for i := 0 to |names|
      invariant NoneRefused(all, names[..i], mine, refused)
      invariant Picked(part, all, names[..i], mine)
    {
      var n := names[i];
      assert n in names && names[..i + 1] == names[..i] + [n];
      PickStep(part, all, names[..i], mine, n);
      NoneRefusedStep(all, names[..i], mine, refused, n);
      if mine(all[n]) {
        if refused(all[n]) {
          RefusedStays(all, names, i + 1, mine, refused);
          return None;
        }
        part := part[n := all[n]];
      }
    }
    assert names[..|names|] == names;
    PickedAll(part, all, names, mine);
    out := Some(part);
  }

  method ForAccount(r: Registry, account: string) returns (view: Option<Registry>)
    ensures view == if HasView(r, account) then Some(ViewOf(r, account)) else None
  {
    if account !in r.accounts {
      return None;
    }
    hide Part;
    var names := Sorting.CollectKeys(r.zones.Keys);
    var zones := Pick(r.zones, names, (z: Zone) => z.account == account, (z: Zone) => z.pending);
    if zones.None? {
      return None;
    }
    var tunnels := PickTunnels(r.tunnels, account);
    var bucketNames := Sorting.CollectKeys(r.r2.Keys);
    var buckets := Pick(r.r2, bucketNames, (b: Bucket) => b.account == account, (b: Bucket) => false);
    view := Some(
      Registry(map[account := r.accounts[account]], zones.value, r.service, r.namespace, tunnels, buckets.value,
               RootFor(r, account)));
  }

  /**
   A view has its one account as the registry has it, the fleet of the registry and exactly the account's buckets; its
   rotations are the registry's own for the account with legacy names, else the account's, else the default.
   */
  lemma ViewKeeps(r: Registry, account: string)
    requires account in r.accounts
    ensures var v := ViewOf(r, account);
      && v.accounts == map[account := r.accounts[account]] && v.service == r.service && v.namespace == r.namespace
      && (forall n :: n in v.r2 <==> n in r.r2 && r.r2[n].account == account)
      && (forall n :: n in v.r2 ==> v.r2[n] == r.r2[n])
      && (r.accounts[account].legacyNames ==> v.root == r.root)
      && (!r.accounts[account].legacyNames && r.accounts[account].root.Some? ==>
            v.root == r.accounts[account].root.value)
      && (!r.accounts[account].legacyNames && r.accounts[account].root.None? ==>
            v.root == Rotations("1", "1", "1", "1"))
  {
    hide TunnelsOf, ZonesOf;
  }

  method PickTunnels(ts: seq<Tunnel>, account: string) returns (out: seq<Tunnel>)
    ensures out == TunnelsOf(ts, account)
  {
    out := [];
    for i := 0 to |ts|
      invariant out == TunnelsOf(ts[..i], account)
    {
      assert ts[..i + 1][..i] == ts[..i];
      if ts[i].account == account {
        out := out + [ts[i]];
      }
    }
    assert ts[..|ts|] == ts;
  }

  // ---------------------------------------------------------------------------
  // Views are valid
  // ---------------------------------------------------------------------------

  lemma {:induction false} TunnelsOfMembers(ts: seq<Tunnel>, account: string)
    ensures forall t :: t in TunnelsOf(ts, account) <==> t in ts && t.account == account
  {
    if ts != [] {
      TunnelsOfMembers(ts[..|ts| - 1], account);
      assert ts == ts[..|ts| - 1] + [ts[|ts| - 1]];
    }
  }

  lemma {:induction false} TunnelsOfSites(ts: seq<Tunnel>, account: string)
    requires Sorting.Distinct(Sites(ts))
    ensures Sorting.Distinct(Sites(TunnelsOf(ts, account)))
  {
    if ts != [] {
      var front, last := ts[..|ts| - 1], ts[|ts| - 1];
      assert Sites(front) == Sites(ts)[..|front|];
      TunnelsOfSites(front, account);
      TunnelsOfMembers(front, account);
      var part := TunnelsOf(front, account);
      if last.account == account {
        var sites := Sites(part + [last]);
        forall i, j | 0 <= i < j < |sites| ensures sites[i] != sites[j] {
          if j < |part| {
            assert Sites(part)[i] != Sites(part)[j];
          } else {
            assert part[i] in front;
            var k :| 0 <= k < |front| && front[k] == part[i];
            assert Sites(ts)[k] != Sites(ts)[|front|];
          }
        }
      }
    }
  }

  lemma {:induction false} TunnelsOfRouting(ts: seq<Tunnel>, account: string)
    requires Routing.RoutingOk(AllRouted(ts))
    ensures Routing.RoutingOk(AllRouted(TunnelsOf(ts, account)))
  {
    if ts != [] {
      var front, last := ts[..|ts| - 1], ts[|ts| - 1];
      assert AllRouted(front) == AllRouted(ts)[..|front|];
      TunnelsOfRouting(front, account);
      TunnelsOfMembers(front, account);
      if last.account == account {
        RoutingAdd(ts, TunnelsOf(front, account));
      }
    } else {
      assert AllRouted(TunnelsOf(ts, account)) == AllRouted(ts);
    }
  }

  lemma RoutingAdd(ts: seq<Tunnel>, part: seq<Tunnel>)
    requires ts != [] && Routing.RoutingOk(AllRouted(ts)) && Routing.RoutingOk(AllRouted(part))
    requires forall t :: t in part ==> t in ts[..|ts| - 1]
    ensures Routing.RoutingOk(AllRouted(part + [ts[|ts| - 1]]))
  {
    var n := |ts| - 1;
    var rs, more := AllRouted(ts), AllRouted(part + [ts[n]]);
    hide Routing.NoShadow, Sorting.Distinct, Routing.LowerHosts;
    assert more == AllRouted(part) + [rs[n]];
    forall a, b | 0 <= a < b < |more| ensures Routing.LowerHosts(more[a]) !! Routing.LowerHosts(more[b]) {
      if b < |part| {
        assert Routing.LowerHosts(AllRouted(part)[a]) !! Routing.LowerHosts(AllRouted(part)[b]);
      } else {
        assert part[a] in part;
        var k :| 0 <= k < n && ts[..n][k] == part[a];
        assert Routing.LowerHosts(rs[k]) !! Routing.LowerHosts(rs[n]);
      }
    }
    assert rs[n] in rs;
  }

  lemma ZoneSeen(r: Registry, account: string, n: string)
    requires account in r.accounts && n in r.zones && r.zones[n].account == account && ZoneOk(r.accounts, n, r.zones[n])
    ensures ZoneOk(map[account := r.accounts[account]], n, r.zones[n])
  {
    hide EdgeOk, ManageOk, IsLower;
  }

  lemma BucketSeen(r: Registry, account: string, n: string)
    requires account in r.accounts && n in r.r2 && r.r2[n].account == account && BucketOk(r.accounts, n, r.r2[n])
    ensures BucketOk(map[account := r.accounts[account]], n, r.r2[n])
  {
    hide ObjectName;
  }

  lemma PartMembers<V>(all: map<string, V>, mine: V -> bool)
    ensures forall n :: n in Part(all, mine) <==> n in all && mine(all[n])
    ensures forall n :: n in Part(all, mine) ==> Part(all, mine)[n] == all[n]
  {
  }

  lemma ZonesSeen(r: Registry, account: string)
    requires account in r.accounts && forall n :: n in r.zones ==> ZoneOk(r.accounts, n, r.zones[n])
    ensures forall n :: n in ZonesOf(r.zones, account) ==>
      ZoneOk(map[account := r.accounts[account]], n, ZonesOf(r.zones, account)[n])
  {
    hide ZoneOk;
    forall n | n in ZonesOf(r.zones, account) ensures ZoneOk(map[account := r.accounts[account]], n, r.zones[n]) {
      ZoneSeen(r, account, n);
    }
  }

  lemma BucketsSeen(r: Registry, account: string)
    requires account in r.accounts && forall n :: n in r.r2 ==> BucketOk(r.accounts, n, r.r2[n])
    ensures forall n :: n in BucketsOf(r.r2, account) ==>
      BucketOk(map[account := r.accounts[account]], n, BucketsOf(r.r2, account)[n])
  {
    hide BucketOk;
    forall n | n in BucketsOf(r.r2, account) ensures BucketOk(map[account := r.accounts[account]], n, r.r2[n]) {
      BucketSeen(r, account, n);
    }
  }

  lemma OneAccount(account: string, a: Account)
    ensures OneLegacy(map[account := a])
    ensures map[account := a] != map[]
  {
    assert account in map[account := a];
  }

  lemma ViewRegistry(r: Registry, account: string)
    requires RegistryOk(r) && account in r.accounts && ZonesOf(r.zones, account) != map[]
    ensures RegistryOk(ViewOf(r, account))
  {
    hide AccountOk, OneLegacy, ZoneOk, BucketOk, RootFor, TunnelsOf, ZonesOf, BucketsOf;
    OneAccount(account, r.accounts[account]);
    ZonesSeen(r, account);
    BucketsSeen(r, account);
  }

  lemma ZonesNamed(r: Registry)
    requires RegistryOk(r)
    ensures "" !in r.zones
  {
    assert "" in r.zones ==> ZoneOk(r.accounts, "", r.zones[""]);
  }

  /** A host of one of the account's tunnels lies in the same zone seen from the account as seen from the registry. */
  lemma ViewZoneOf(r: Registry, account: string, t: Tunnel, host: string)
    requires RegistryOk(r) && account in r.accounts && TunnelOk(r, t) && t.account == account && host in t.hosts
    ensures ZoneOf(ViewOf(r, account), host) == ZoneOf(r, host)
  {
    ZonesNamed(r);
    var zones := ZonesOf(r.zones, account);
    PartMembers(r.zones, (z: Zone) => z.account == account);
    hide RegistryOk, Part, SecurityTxtOnly;
    assert forall n :: n in ManagedZones(zones) <==> n in ManagedZones(r.zones) && r.zones[n].account == account;
    var all, mine := Sorting.SortedKeys(ManagedZones(r.zones)), Sorting.SortedKeys(ManagedZones(zones));
    Zones.ZoneOfListed(all, host);
    hide Zones.ZoneOf, Zones.Holds, Zones.NameOf, ManagedZones;
    var i :| 0 <= i < |t.hosts| && t.hosts[i] == host;
    assert ZoneOf(r, t.hosts[i]) in InZones(t);
    Zones.ZoneOfPart(all, mine, host);
  }

  lemma ViewTunnel(r: Registry, account: string, t: Tunnel)
    requires RegistryOk(r) && account in r.accounts && TunnelOk(r, t) && t.account == account
    ensures TunnelOk(ViewOf(r, account), t)
  {
    hide RegistryOk;
    forall i | 0 <= i < |t.hosts| ensures ZoneOf(ViewOf(r, account), t.hosts[i]) == ZoneOf(r, t.hosts[i]) {
      ViewZoneOf(r, account, t, t.hosts[i]);
    }
    hide ZoneOf;
  }

  lemma OwnerIsOfZone(r: Registry, t: Tunnel, zone: string, host: string)
    requires "" !in r.zones && zone in r.zones && TunnelOk(r, t) && OwnsRecord(t, zone, host)
    ensures r.zones[zone].account == t.account
  {
    Zones.ZoneOfListed(InZones(t), host);
  }

  lemma ViewOwners(r: Registry, account: string, zone: string, host: string)
    requires "" !in r.zones && zone in r.zones && r.zones[zone].account == account
    requires forall t :: t in r.tunnels ==> TunnelOk(r, t)
    ensures SomeOwner(TunnelsOf(r.tunnels, account), zone, host) <==> SomeOwner(r.tunnels, zone, host)
  {
    TunnelsOfMembers(r.tunnels, account);
    var mine := TunnelsOf(r.tunnels, account);
    hide OwnsRecord, TunnelOk, TunnelsOf;
    if i :| 0 <= i < |mine| && OwnsRecord(mine[i], zone, host) {
      assert mine[i] in r.tunnels;
      var k :| 0 <= k < |r.tunnels| && r.tunnels[k] == mine[i];
      assert OwnsRecord(r.tunnels[k], zone, host);
    }
    if i :| 0 <= i < |r.tunnels| && OwnsRecord(r.tunnels[i], zone, host) {
      assert r.tunnels[i] in r.tunnels;
      OwnerIsOfZone(r, r.tunnels[i], zone, host);
      assert r.tunnels[i] in mine;
      var k :| 0 <= k < |mine| && mine[k] == r.tunnels[i];
      assert OwnsRecord(mine[k], zone, host);
    }
  }

  lemma ViewWriters(r: Registry, account: string)
    requires "" !in r.zones && account in r.accounts && OriginsOk(r) && RecordsFree(r)
    requires forall t :: t in r.tunnels ==> TunnelOk(r, t)
    ensures OriginsOk(ViewOf(r, account)) && RecordsFree(ViewOf(r, account))
  {
    hide SomeOwner, TunnelOk;
    var v := ViewOf(r, account);
    forall n | n in v.zones
      ensures ZoneOriginsOk(v.tunnels, n, v.zones[n]) && ZoneRecordsFree(v.tunnels, n, v.zones[n])
    {
      assert ZoneOriginsOk(r.tunnels, n, r.zones[n]) && ZoneRecordsFree(r.tunnels, n, r.zones[n]);
      forall h ensures SomeOwner(v.tunnels, n, h) <==> SomeOwner(r.tunnels, n, h) {
        ViewOwners(r, account, n, h);
      }
    }
  }

  lemma TunnelHasZone(r: Registry, t: Tunnel)
    requires TunnelOk(r, t)
    ensures ZonesOf(r.zones, t.account) != map[]
  {
    assert t.zone in ZonesOf(r.zones, t.account);
  }

  /** The view of a valid registry is itself valid exactly when it keeps a tunnel; it then keeps a zone. */
  lemma ViewValid(r: Registry, account: string)
    requires Valid(r) && account in r.accounts
    ensures Valid(ViewOf(r, account)) <==> ViewOf(r, account).tunnels != []
    ensures Valid(ViewOf(r, account)) ==> ViewOf(r, account).zones != map[]
  {
    var v := ViewOf(r, account);
    TunnelsOfMembers(r.tunnels, account);
    if v.tunnels != [] {
      assert v.tunnels[0] in v.tunnels;
      TunnelHasZone(r, v.tunnels[0]);
      ViewRegistry(r, account);
      ZonesNamed(r);
      TunnelsOfSites(r.tunnels, account);
      TunnelsOfRouting(r.tunnels, account);
      ViewWriters(r, account);
      hide RegistryOk, TunnelOk, OriginsOk, RecordsFree, TunnelsOf, Sorting.Distinct, Routing.RoutingOk;
      forall t | t in v.tunnels ensures TunnelOk(v, t) {
        ViewTunnel(r, account, t);
      }
    }
  }

  // ---------------------------------------------------------------------------
  // Views partition the registry
  // ---------------------------------------------------------------------------

  lemma {:induction false} TunnelsOfCount(ts: seq<Tunnel>, account: string, t: Tunnel)
    ensures multiset(TunnelsOf(ts, account))[t] == if t.account == account then multiset(ts)[t] else 0
  {
    if ts != [] {
      TunnelsOfCount(ts[..|ts| - 1], account, t);
      assert ts == ts[..|ts| - 1] + [ts[|ts| - 1]];
    }
  }

  /**
   Every zone and every tunnel is in one account's view, unchanged and as often as in the registry, and in no other.
   */
  lemma ViewsPartition(r: Registry, account: string)
    requires Valid(r) && account in r.accounts
    ensures forall n :: n in ViewOf(r, account).zones <==> n in r.zones && r.zones[n].account == account
    ensures forall n :: n in ViewOf(r, account).zones ==> ViewOf(r, account).zones[n] == r.zones[n]
    ensures forall t ::
      multiset(ViewOf(r, account).tunnels)[t] == if t.account == account then multiset(r.tunnels)[t] else 0
    ensures forall n :: n in r.zones ==> r.zones[n].account in r.accounts
    ensures forall t :: t in r.tunnels ==> t.account in r.accounts
  {
    forall t
      ensures multiset(ViewOf(r, account).tunnels)[t] == if t.account == account then multiset(r.tunnels)[t] else 0
    {
      TunnelsOfCount(r.tunnels, account, t);
    }
    forall n | n in r.zones ensures r.zones[n].account in r.accounts {
      assert ZoneOk(r.accounts, n, r.zones[n]);
    }
    forall t | t in r.tunnels ensures t.account in r.accounts {
      assert TunnelOk(r, t);
    }
  }

  // ---------------------------------------------------------------------------
  // Stack names
  // ---------------------------------------------------------------------------

  const STACK_PREFIX := "cloudflare-"

  predicate IsLegacy(r: Registry, account: string) {
    account in r.accounts && r.accounts[account].legacyNames
  }

  function StackName(r: Registry, kind: string, account: string): string {
    if IsLegacy(r, account) then STACK_PREFIX + kind else STACK_PREFIX + kind + ("-" + account)
  }

  method LegacyAccount(r: Registry) returns (name: Option<string>)
    ensures name.None? ==> forall a :: !IsLegacy(r, a)
    ensures name.Some? ==> IsLegacy(r, name.value)
  {
    var names := Sorting.CollectKeys(r.accounts.Keys);
    for i := 0 to |names|
      invariant forall k :: 0 <= k < i ==> !IsLegacy(r, names[k])
    {
      assert names[i] in r.accounts;
      if r.accounts[names[i]].legacyNames {
        return Some(names[i]);
      }
    }
    forall a | a in r.accounts ensures !IsLegacy(r, a) {
      assert a in names;
    }
    name := None;
  }

  /** An account's stack is the kind's after a fixed prefix, with the account after a dash unless it is legacy. */
  lemma StackNamed(r: Registry, kind: string, account: string)
    requires account in r.accounts
    ensures r.accounts[account].legacyNames ==> StackName(r, kind, account) == "cloudflare-" + kind
    ensures !r.accounts[account].legacyNames ==> StackName(r, kind, account) == "cloudflare-" + kind + "-" + account
  {
    assert STACK_PREFIX + kind + ("-" + account) == STACK_PREFIX + kind + "-" + account;
  }

  /** The account a stack serves: the one whose stack of that kind has this name. */
  method StackAccount(r: Registry, stack: string, kind: string) returns (account: Option<string>)
    ensures account.Some? ==> account.value in r.accounts && StackName(r, kind, account.value) == stack
    ensures account.None? ==> forall a :: a in r.accounts ==> StackName(r, kind, a) != stack
  {
    var base := STACK_PREFIX + kind;
    if stack == base {
      account := LegacyAccount(r);
      forall a | a in r.accounts && !IsLegacy(r, a) ensures StackName(r, kind, a) != stack {
        assert |StackName(r, kind, a)| > |base|;
      }
      return;
    }
    if !HasPrefix(stack, base + "-") {
      forall a | a in r.accounts ensures StackName(r, kind, a) != stack {
        SuffixedStack(base, a);
      }
      return None;
    }
    var name := stack[|base| + 1..];
    assert stack == base + "-" + name;
    assert stack == base + ("-" + name);
    if name !in r.accounts || r.accounts[name].legacyNames {
      forall a | a in r.accounts ensures StackName(r, kind, a) != stack {
        if !IsLegacy(r, a) {
          assert (base + ("-" + a))[|base| + 1..] == a;
        }
      }
      return None;
    }
    account := Some(name);
  }

  lemma SuffixedStack(base: string, a: string)
    ensures HasPrefix(base + ("-" + a), base + "-")
  {
    assert base + ("-" + a) == base + "-" + a;
  }

  /** No two accounts share a stack name of one kind. */
  lemma StackNamesDiffer(r: Registry, kind: string, a: string, b: string)
    requires OneLegacy(r.accounts) && a in r.accounts && b in r.accounts
      && StackName(r, kind, a) == StackName(r, kind, b)
    ensures a == b
  {
    var base := STACK_PREFIX + kind;
    assert (base + ("-" + a))[|base|..] == "-" + a && (base + ("-" + b))[|base|..] == "-" + b;
    assert ("-" + a)[1..] == a && ("-" + b)[1..] == b;
  }
}
