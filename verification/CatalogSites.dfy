/**
 The keys by which the catalog finds a name claimed twice (`validateDomainsAreUnique`, catalog/catalog.go), and
 the (cluster, name) sites they stand for.
 */
module CatalogSites {
  import opened Text
  import opened CatalogModel
  import D = Derivation
  import Sorting

  datatype Site = Site(cluster: string, host: string)

  function HostSites(g: D.Group): (sites: seq<Site>)
    ensures |sites| == |g.hosts|
    ensures forall i :: 0 <= i < |sites| ==> sites[i] == Site(g.cluster, g.hosts[i])
  {
    seq(|g.hosts|, i requires 0 <= i < |g.hosts| => Site(g.cluster, g.hosts[i]))
  }

  function GroupSites(before: seq<Site>, gs: seq<D.Group>): seq<Site> {
    if gs == [] then before else GroupSites(before, gs[..|gs| - 1]) + HostSites(gs[|gs| - 1])
  }

  function SitesOf(es: Exposures, names: seq<string>): seq<Site>
    requires forall n :: n in names ==> n in es
  {
    if names == [] then [] else GroupSites(SitesOf(es, names[..|names| - 1]), GroupsOf(es[names[|names| - 1]]))
  }

  /** Every (cluster, name) the catalog claims, as often as it does. */
  function AllSites(es: Exposures): seq<Site> {
    SitesOf(es, Sorting.SortedKeys(es.Keys))
  }

  function KeyOf(s: Site): string {
    SiteKey(s.cluster, s.host)
  }

  function KeysOf(sites: seq<Site>): (keys: seq<string>)
    ensures |keys| == |sites| && forall i :: 0 <= i < |keys| ==> keys[i] == KeyOf(sites[i])
  {
    seq(|sites|, i requires 0 <= i < |sites| => KeyOf(sites[i]))
  }

  lemma {:induction false} GroupKeysOf(before: seq<Site>, gs: seq<D.Group>)
    ensures GroupKeys(KeysOf(before), gs) == KeysOf(GroupSites(before, gs))
  {
    if gs != [] {
      GroupKeysOf(before, gs[..|gs| - 1]);
      assert HostKeys(gs[|gs| - 1]) == KeysOf(HostSites(gs[|gs| - 1]));
    }
  }

  lemma {:induction false} SiteKeysOf(es: Exposures, names: seq<string>)
    requires forall n :: n in names ==> n in es
    ensures SiteKeys(es, names) == KeysOf(SitesOf(es, names))
  {
    if names != [] {
      var front, last := names[..|names| - 1], names[|names| - 1];
      SiteKeysOf(es, front);
      GroupKeysOf(SitesOf(es, front), GroupsOf(es[last]));
    } else {
      assert KeysOf([]) == [];
    }
  }

  /** The cluster name of the first holds, after a bar, what the host of the second begins with. */
  ghost predicate Overlap(a: Site, b: Site) {
    exists w :: a.cluster == b.cluster + "|" + w && b.host == w + "|" + a.host
  }

  /** Two sites have one key exactly when they are one site or one of them overlaps the other. */
  lemma KeysMeet(a: Site, b: Site)
    ensures KeyOf(a) == KeyOf(b) <==> a == b || Overlap(a, b) || Overlap(b, a)
  {
    if KeyOf(a) == KeyOf(b) {
      if |a.cluster| < |b.cluster| {
        LongerCluster(b, a);
      } else if |b.cluster| < |a.cluster| {
        LongerCluster(a, b);
      } else {
        assert a.cluster == KeyOf(a)[..|a.cluster|] && b.cluster == KeyOf(b)[..|b.cluster|];
        assert a.host == KeyOf(a)[|a.cluster| + 1..] && b.host == KeyOf(b)[|b.cluster| + 1..];
      }
    }
    if Overlap(a, b) {
      OverlapMeets(a, b);
    }
    if Overlap(b, a) {
      OverlapMeets(b, a);
    }
  }

  lemma LongerCluster(a: Site, b: Site)
    requires KeyOf(a) == KeyOf(b) && |b.cluster| < |a.cluster|
    ensures Overlap(a, b)
  {
    var key, m, n := KeyOf(a), |b.cluster|, |a.cluster|;
    var w := a.cluster[m + 1..];
    assert a.cluster == key[..n] && b.cluster == key[..m];
    assert b.host == key[m + 1..] && a.host == key[n + 1..];
    assert key[m] == '|' && key[n] == '|';
    assert a.cluster == b.cluster + "|" + w;
    assert b.host == w + "|" + a.host;
  }

  lemma OverlapMeets(a: Site, b: Site)
    requires Overlap(a, b)
    ensures KeyOf(a) == KeyOf(b)
  {
    var w :| a.cluster == b.cluster + "|" + w && b.host == w + "|" + a.host;
    assert b.cluster + "|" + w + "|" + a.host == b.cluster + "|" + (w + "|" + a.host);
  }

  lemma KeysDistinct(sites: seq<Site>)
    ensures Sorting.Distinct(KeysOf(sites))
       <==> Sorting.Distinct(sites) && forall a, b :: a in sites && b in sites ==> !Overlap(a, b)
  {
    var keys := KeysOf(sites);
    forall a: Site, b: Site
      ensures KeyOf(a) == KeyOf(b) <==> a == b || Overlap(a, b) || Overlap(b, a)
      ensures !Overlap(a, a)
    {
      KeysMeet(a, b);
      OverlapIsStrict(a);
    }
    hide Overlap, KeyOf;
    if Sorting.Distinct(keys) {
      forall i, j | 0 <= i < j < |sites| ensures sites[i] != sites[j] {
        assert keys[i] != keys[j];
      }
      forall a, b | a in sites && b in sites ensures !Overlap(a, b) {
        var i :| 0 <= i < |sites| && sites[i] == a;
        var j :| 0 <= j < |sites| && sites[j] == b;
        assert i < j ==> keys[i] != keys[j];
        assert j < i ==> keys[j] != keys[i];
      }
    }
  }

  /** The check accepts a catalog exactly when it claims no site twice and no site overlaps another. */
  lemma UniqueIff(es: Exposures)
    ensures Sorting.Distinct(AllSiteKeys(es))
       <==> Sorting.Distinct(AllSites(es)) && forall a, b :: a in AllSites(es) && b in AllSites(es) ==> !Overlap(a, b)
  {
    SiteKeysOf(es, Sorting.SortedKeys(es.Keys));
    hide SiteKeys, SitesOf, KeysOf, Overlap, Sorting.Distinct;
    KeysDistinct(AllSites(es));
  }

  lemma OverlapIsStrict(a: Site)
    ensures !Overlap(a, a)
  {
  }

  // ---------------------------------------------------------------------------
  // Cluster names without a bar
  // ---------------------------------------------------------------------------

  ghost predicate NoBar(es: Exposures) {
    forall n, c :: n in es && c in es[n].clusters ==> '|' !in c
  }

  lemma {:induction false} GroupSitesFrom(before: seq<Site>, gs: seq<D.Group>)
    ensures forall s :: s in GroupSites(before, gs) <==>
      s in before || exists g :: g in gs && s.cluster == g.cluster && s.host in g.hosts
  {
    if gs != [] {
      var front, last := gs[..|gs| - 1], gs[|gs| - 1];
      assert gs == front + [last];
      GroupSitesFrom(before, front);
      forall s: Site | s.cluster == last.cluster && s.host in last.hosts ensures s in HostSites(last) {
        var i :| 0 <= i < |last.hosts| && last.hosts[i] == s.host;
        assert HostSites(last)[i] == s;
      }
    }
  }

  lemma {:induction false} SitesFrom(es: Exposures, names: seq<string>)
    requires forall n :: n in names ==> n in es
    ensures forall s :: s in SitesOf(es, names) ==> exists n :: n in names && s.cluster in es[n].clusters
  {
    if names != [] {
      var front, last := names[..|names| - 1], names[|names| - 1];
      assert names == front + [last];
      SitesFrom(es, front);
      GroupSitesFrom(SitesOf(es, front), GroupsOf(es[last]));
      GroupsOfMembers(es[last]);
    }
  }

  lemma NoOverlap(a: Site, b: Site)
    requires '|' !in a.cluster
    ensures !Overlap(a, b)
  {
    forall w: string ensures a.cluster != b.cluster + "|" + w {
      assert (b.cluster + "|" + w)[|b.cluster|] == '|';
    }
  }

  /** Where no cluster name holds a bar, the check accepts exactly the catalogs that claim no site twice. */
  lemma UniqueWithoutBars(es: Exposures)
    requires NoBar(es)
    ensures Sorting.Distinct(AllSiteKeys(es)) <==> Sorting.Distinct(AllSites(es))
  {
    UniqueIff(es);
    SitesFrom(es, Sorting.SortedKeys(es.Keys));
    hide AllSiteKeys, Sorting.Distinct, Overlap, SitesOf;
    forall a, b | a in AllSites(es) && b in AllSites(es) ensures !Overlap(a, b) {
      NoOverlap(a, b);
    }
  }

  // ---------------------------------------------------------------------------
  // A catalog that repeats nothing and is refused
  // ---------------------------------------------------------------------------

  function OneName(host: string): Group {
    Group("", [Domain(host, "", "", false, "", "")], ["n"], false, false, false)
  }

  function OneGroup(host: string): Cluster {
    Cluster("", map["g" := OneName(host)])
  }

  function TwoClusters(c: string, h: string, d: string, k: string): Exposure {
    Exposure("class", CloudflareTunnel, [], None, map[c := OneGroup(h), d := OneGroup(k)])
  }

  lemma OneNameOk(host: string)
    requires DomainOk(host)
    ensures GroupOk(OneName(host))
  {
    var g := OneName(host);
    assert HostsOf(g.domains) == [host];
    FirstRepeatIs(g.routeNamespaces);
    hide FirstRepeat, DomainOk;
  }

  lemma OneGroupOk(e: Exposure, host: string)
    requires DomainOk(host) && e.arrival.CloudflareTunnel?
    ensures ClusterOk(e, OneGroup(host))
  {
    var g := OneName(host);
    OneNameOk(host);
    hide GroupOk, DomainOk;
    forall d | d in g.domains ensures WafOk(d, e.arrival) {
    }
    assert ArrivalOk(e, g);
    assert "g" in OneGroup(host).groups;
  }

  lemma TwoClustersOk(c: string, h: string, d: string, k: string)
    requires DomainOk(h) && DomainOk(k)
    ensures ExposureOk(TwoClusters(c, h, d, k))
  {
    var e := TwoClusters(c, h, d, k);
    OneGroupOk(e, h);
    OneGroupOk(e, k);
    hide ClusterOk, DomainOk, OneGroup;
    assert c in e.clusters;
  }

  lemma OneKey(x: string)
    ensures Sorting.SortedKeys({x}) == [x]
  {
    CompareZero(x, x);
    Sorting.SortedDistinctEqual(Sorting.SortedKeys({x}), [x]);
  }

  lemma ClusterSites(before: seq<D.Group>, cluster: string, host: string)
    ensures ClusterGroups(before, cluster, OneGroup(host).groups, Sorting.SortedKeys(OneGroup(host).groups.Keys))
         == before + [ToDerive("g", cluster, OneName(host))]
  {
    assert OneGroup(host).groups.Keys == {"g"};
    OneKey("g");
    assert ["g"][..0] == [];
  }

  lemma TwoKeys(c: string, d: string)
    requires Compare(c, d) == -1
    ensures Sorting.SortedKeys({c, d}) == [c, d]
  {
    CompareZero(c, d);
    Sorting.SortedDistinctEqual(Sorting.SortedKeys({c, d}), [c, d]);
  }

  lemma TwoClustersGroups(c: string, h: string, d: string, k: string)
    requires Compare(c, d) == -1
    ensures GroupsOf(TwoClusters(c, h, d, k)) == [ToDerive("g", c, OneName(h)), ToDerive("g", d, OneName(k))]
  {
    var clusters := TwoClusters(c, h, d, k).clusters;
    var first, second := ToDerive("g", c, OneName(h)), ToDerive("g", d, OneName(k));
    CompareZero(c, d);
    assert clusters.Keys == {c, d} && clusters[c] == OneGroup(h) && clusters[d] == OneGroup(k);
    TwoKeys(c, d);
    ClusterSites([], c, h);
    ClusterSites([first], d, k);
    hide ToDerive, ClusterGroups, OneGroup, OneName, Sorting.SortedKeys, Compare;
    assert [c, d][..1] == [c] && [c][..0] == [];
    assert ExposureGroups(clusters, [c]) == [first];
    assert ExposureGroups(clusters, [c, d]) == [first] + [second];
  }

  lemma TwoSites(c: string, h: string, d: string, k: string)
    requires Compare(c, d) == -1
    ensures AllSites(map["x" := TwoClusters(c, h, d, k)]) == [Site(c, h), Site(d, k)]
  {
    OneExposureSites("x", TwoClusters(c, h, d, k));
    TwoClustersGroups(c, h, d, k);
    var g, i := ToDerive("g", c, OneName(h)), ToDerive("g", d, OneName(k));
    assert HostSites(g) == [Site(c, h)] && HostSites(i) == [Site(d, k)];
    hide TwoClusters, GroupsOf, ToDerive, AllSites, Compare;
    TwoGroupSites(g, i);
  }

  lemma OneExposureSites(n: string, e: Exposure)
    ensures AllSites(map[n := e]) == GroupSites([], GroupsOf(e))
  {
    hide GroupsOf, GroupSites;
    var es := map[n := e];
    assert es.Keys == {n};
    OneKey(n);
    assert [n][..0] == [] && SitesOf(es, []) == [];
  }

  lemma TwoGroupSites(g: D.Group, h: D.Group)
    ensures GroupSites([], [g, h]) == HostSites(g) + HostSites(h)
  {
    assert [g, h][..1] == [g] && [g][..0] == [];
    assert GroupSites([], [g]) == [] + HostSites(g);
  }

  /** Whatever else it says, a catalog with overlapping sites is refused. */
  lemma OverlapIsRefused(version: int, es: Exposures, a: Site, b: Site)
    requires a in AllSites(es) && b in AllSites(es) && Overlap(a, b)
    ensures !ValidCatalog(version, es)
  {
    hide Overlap, AllSites, AllSiteKeys, ExposureOk;
    UniqueIff(es);
  }

  lemma PairDistinct(c: string, h: string, d: string, k: string)
    requires Compare(c, d) == -1
    ensures Sorting.Distinct([Site(c, h), Site(d, k)])
  {
    CompareZero(c, d);
  }

  lemma OneSitePair(c: string, h: string, d: string, k: string)
    requires Compare(c, d) == -1 && DomainOk(h) && DomainOk(k) && Overlap(Site(d, k), Site(c, h))
    ensures ExposureOk(TwoClusters(c, h, d, k)) && Sorting.Distinct(AllSites(map["x" := TwoClusters(c, h, d, k)]))
    ensures !ValidCatalog(1, map["x" := TwoClusters(c, h, d, k)])
  {
    hide *;
    TwoClustersOk(c, h, d, k);
    TwoSites(c, h, d, k);
    PairDistinct(c, h, d, k);
    assert Site(d, k) in [Site(c, h), Site(d, k)] && Site(c, h) in [Site(c, h), Site(d, k)];
    OverlapIsRefused(1, map["x" := TwoClusters(c, h, d, k)], Site(d, k), Site(c, h));
  }

  /** Every exposure passes its checks and no name is claimed twice on a cluster, yet two sites share a key. */
  lemma BarIsRefused() returns (es: Exposures)
    ensures es != map[] && (forall n :: n in es ==> ExposureOk(es[n])) && Sorting.Distinct(AllSites(es))
    ensures !ValidCatalog(1, es)
  {
    BarHosts();
    hide *;
    OneSitePair("a", "b|c.d", "a|b", "c.d");
    es := map["x" := TwoClusters("a", "b|c.d", "a|b", "c.d")];
    assert "x" in es;
  }

  lemma BarHosts()
    ensures Compare("a", "a|b") == -1 && DomainOk("b|c.d") && DomainOk("c.d")
    ensures Overlap(Site("a|b", "c.d"), Site("a", "b|c.d"))
  {
    assert Compare("a", "a|b") == Compare("a"[1..], "a|b"[1..]);
    assert "a"[1..] == "" && "a|b"[1..] == "|b";
    assert "a|b" == "a" + "|" + "b" && "b|c.d" == "b" + "|" + "c.d";
    hide Overlap, Compare;
    assert DomainOk("b|c.d") by {
      assert "b|c.d"[3] == '.';
    }
    assert DomainOk("c.d") by {
      assert "c.d"[1] == '.';
    }
  }
}
