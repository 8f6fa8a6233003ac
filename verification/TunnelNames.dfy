/** What a derived tunnel is called and how its fields are filled (cloudflare/edgespec/derive.go, its name methods). */
module TunnelNames {
  import opened Text
  import opened Derivation
  import opened DerivedTunnelFacts
  import Config = ConfigModel
  import CatalogRouting
  import ConfigObject
  import HostOrder
  import Loads = LoadedConfig
  import Sorting
  import Zones

  ghost predicate Legacy(input: Input, account: string) {
    account in input.legacyNames && input.legacyNames[account]
  }

  /** The tunnel of an account with legacy names is called as its cluster, any other as cluster, dash and account. */
  lemma TunnelNamed(input: Input, tunnels: seq<Tunnel>, t: Tunnel)
    requires DerivedTunnels(input, tunnels) && t in tunnels
    ensures Legacy(input, t.account) ==> t.name == t.cluster
    ensures !Legacy(input, t.account) ==> t.name == t.cluster + "-" + t.account
  {
    hide HostsOf, Claims, ElsewhereOf, Zones.ZoneOf, ZoneNames;
  }

  /** Of one base, two accounts that are not both legacy have different names. */
  lemma OtherAccount(base: string, a: string, b: string, legacyA: bool, legacyB: bool)
    requires a != b && !(legacyA && legacyB)
    ensures Suffixed(base, a, legacyA) != Suffixed(base, b, legacyB)
  {
    DashSplits(base, a, b);
    DashSplits(base, b, a);
  }

  /** Of one account, two bases have different names. */
  lemma OtherBase(base: string, other: string, a: string, legacy: bool)
    requires base != other
    ensures Suffixed(base, a, legacy) != Suffixed(other, a, legacy)
  {
    SameEnd(base, other, "-" + a);
    assert base + "-" + a == base + ("-" + a) && other + "-" + a == other + ("-" + a);
  }

  /**
   Derived tunnels of one account never share a name, and neither do those of one cluster where at most one account has
   legacy names.
   */
  lemma NamesDiffer(input: Input, tunnels: seq<Tunnel>, i: nat, j: nat)
    requires DerivedTunnels(input, tunnels) && i < j < |tunnels|
    requires forall a, b :: Legacy(input, a) && Legacy(input, b) ==> a == b
    requires tunnels[i].cluster == tunnels[j].cluster || tunnels[i].account == tunnels[j].account
    ensures tunnels[i].name != tunnels[j].name
  {
    var t, u := tunnels[i], tunnels[j];
    assert TunnelKey(t) != TunnelKey(u) && t in tunnels && u in tunnels;
    hide DerivedTunnels, Legacy;
    TunnelNamed(input, tunnels, t);
    TunnelNamed(input, tunnels, u);
    if t.account == u.account {
      OtherBase(t.cluster, u.cluster, t.account, Legacy(input, t.account));
    } else {
      OtherAccount(t.cluster, t.account, u.account, Legacy(input, t.account), Legacy(input, u.account));
    }
  }

  lemma DashSplits(base: string, a: string, b: string)
    ensures base + "-" + a == base + "-" + b <==> a == b
    ensures base + "-" + a != base
  {
    assert (base + "-" + a)[|base| + 1..] == a && (base + "-" + b)[|base| + 1..] == b;
    assert |base + "-" + a| > |base|;
  }

  lemma SameEnd(s: string, t: string, end: string)
    ensures s + end == t + end <==> s == t
  {
    if s + end == t + end {
      assert |s| == |t|;
      assert s == (s + end)[..|s|] == (t + end)[..|t|] == t;
    }
  }

  // ---------------------------------------------------------------------------
  // Order and zones
  // ---------------------------------------------------------------------------

  /** The tunnels by cluster, and on one cluster by account. */
  lemma TunnelsOrdered(input: Input, tunnels: seq<Tunnel>, i: nat, j: nat)
    requires DerivedTunnels(input, tunnels) && i < j < |tunnels|
    ensures Compare(tunnels[i].cluster, tunnels[j].cluster) < 0
      || (tunnels[i].cluster == tunnels[j].cluster && Compare(tunnels[i].account, tunnels[j].account) < 0)
  {
    var t, u := tunnels[i], tunnels[j];
    assert TunnelLeq(t, u) && TunnelKey(t) != TunnelKey(u);
    CompareZero(t.cluster, u.cluster);
    CompareZero(t.account, u.account);
  }

  lemma {:induction false} KeepInOrder(hosts: seq<string>, wanted: set<string>)
    requires HostOrder.IngressOrder(hosts)
    ensures HostOrder.IngressOrder(Keep(hosts, wanted))
  {
    hide HostOrder.InOrder;
    if hosts != [] {
      KeepInOrder(hosts[..|hosts| - 1], wanted);
      KeepMembers(hosts[..|hosts| - 1], wanted);
      var kept, last := Keep(hosts[..|hosts| - 1], wanted), hosts[|hosts| - 1];
      forall k | 0 <= k < |kept| ensures HostOrder.InOrder(kept[k], last) {
        assert kept[k] in hosts[..|hosts| - 1];
      }
    }
  }

  /**
   A tunnel's hosts and the elsewhere ones among them are in ingress order; its zone is that of its first host, and its
   zones are those of its hosts, sorted, each once.
   */
  lemma TunnelFilled(input: Input, tunnels: seq<Tunnel>, t: Tunnel)
    requires DerivedTunnels(input, tunnels) && t in tunnels
    ensures HostOrder.IngressOrder(t.hosts) && HostOrder.IngressOrder(t.dnsElsewhere)
    ensures t.hosts != [] && t.zone == Zones.ZoneOf(ZoneNames(input), t.hosts[0])
    ensures Sorting.Sorted(StringLeq, t.zones) && Sorting.Distinct(t.zones)
    ensures forall z :: z in t.zones <==> exists h :: h in t.hosts && Zones.ZoneOf(ZoneNames(input), h) == z
  {
    var k := TunnelKey(t);
    HostOrder.OrderedIs(HostsOf(input, Claims(input), k));
    hide HostsOf, Claims, Zones.ZoneOf, ZoneNames, HostOrder.IngressOrder, HostOrder.Ordered, ElsewhereOf;
    KeepInOrder(t.hosts, ElsewhereOf(input, Claims(input), k));
  }

  // ---------------------------------------------------------------------------
  // A valid registry and a loaded one
  // ---------------------------------------------------------------------------

  ghost predicate OnceOnCluster(t: Config.Tunnel, u: Config.Tunnel) {
    && Config.TunnelName(t) != Config.TunnelName(u) && Config.Release(t) != Config.Release(u)
    && Config.SecretName(t) != Config.SecretName(u)
  }

  lemma ConfigNamesDiffer(t: Config.Tunnel, u: Config.Tunnel)
    requires t.cluster != u.cluster || t.account != u.account
    requires t.account == u.account ==> t.legacyNames == u.legacyNames
    requires t.account != u.account ==> !(t.legacyNames && u.legacyNames)
    ensures t.cluster == u.cluster ==> OnceOnCluster(t, u)
    ensures t.account == u.account ==> Config.TunnelName(t) != Config.TunnelName(u)
  {
    if t.account == u.account {
      OtherBase(t.cluster, u.cluster, t.account, t.legacyNames);
    } else {
      OtherAccount(t.cluster, t.account, u.account, t.legacyNames, u.legacyNames);
      OtherAccount("cloudflared", t.account, u.account, t.legacyNames, u.legacyNames);
      SameEnd(Config.Release(t), Config.Release(u), "-tunnel-token");
    }
  }

  /**
   In a valid registry, so in every loaded one, a tunnel is called by its cluster alone exactly when its account has
   legacy names, and else by its cluster, a dash and the account; its release likewise.
   */
  lemma ValidTunnel(r: Config.Registry, i: nat)
    requires Config.Valid(r) && i < |r.tunnels|
    ensures r.tunnels[i].account in r.accounts
    ensures var t := r.tunnels[i];
      var legacy := r.accounts[t.account].legacyNames;
      && t.legacyNames == legacy
      && Config.TunnelName(t) == (if legacy then t.cluster else t.cluster + "-" + t.account)
      && Config.Release(t) == (if legacy then "cloudflared" else "cloudflared" + "-" + t.account)
  {
    assert Config.TunnelOk(r, r.tunnels[i]);
  }

  lemma ValidKeys(r: Config.Registry, i: nat, j: nat)
    requires Config.Valid(r) && i < j < |r.tunnels|
    ensures r.tunnels[i].cluster != r.tunnels[j].cluster || r.tunnels[i].account != r.tunnels[j].account
  {
    hide Config.RegistryOk, Config.TunnelOk, Config.OriginsOk, Config.RecordsFree;
    assert Config.Sites(r.tunnels)[i] != Config.Sites(r.tunnels)[j];
  }

  lemma ValidLegacy(r: Config.Registry)
    requires Config.Valid(r)
    ensures Config.OneLegacy(r.accounts)
  {
  }

  /**
   In a valid registry no two tunnels of one cluster share a name, a release or a token secret, and no two of one
   account share a name.
   */
  lemma ValidNames(r: Config.Registry, i: nat, j: nat)
    requires Config.Valid(r) && i < j < |r.tunnels|
    ensures r.tunnels[i].cluster == r.tunnels[j].cluster ==> OnceOnCluster(r.tunnels[i], r.tunnels[j])
    ensures r.tunnels[i].account == r.tunnels[j].account ==>
      Config.TunnelName(r.tunnels[i]) != Config.TunnelName(r.tunnels[j])
  {
    ValidTunnel(r, i);
    ValidTunnel(r, j);
    ValidKeys(r, i, j);
    ValidLegacy(r);
    hide Config.Valid, OnceOnCluster;
    ConfigNamesDiffer(r.tunnels[i], r.tunnels[j]);
  }

  lemma LegacyIs(l: Loads.Loading, account: string)
    requires account in l.file.accounts
    ensures Legacy(Loads.CatalogInput(l), account) <==> l.file.accounts[account].legacyNames
  {
    hide CatalogRouting.CatalogExposures, ConfigObject.WafZones, ConfigObject.CacheZones, Config.ManagedZones;
  }

  /** The name Derive gives a tunnel is the one the loaded configuration's own rule gives it. */
  lemma NamesAgree(l: Loads.Loading, i: nat)
    requires Loads.Done(l) && i < |l.derived|
    ensures |l.out.tunnels| == |l.derived| && l.out.tunnels[i].account in l.file.accounts
    ensures l.derived[i].name == Config.TunnelName(l.out.tunnels[i])
  {
    Loads.LoadedParts(l);
    var t := l.derived[i];
    assert t in l.derived && l.out.tunnels[i] == ConfigObject.FromDerived(l.file.accounts, t);
    assert l.out.accounts == l.file.accounts;
    hide Loads.Done, Loads.CatalogInput, Legacy, Config.Valid, DerivedTunnels, Accepted;
    ValidTunnel(l.out, i);
    LegacyIs(l, t.account);
    TunnelNamed(Loads.CatalogInput(l), l.derived, t);
  }
}
