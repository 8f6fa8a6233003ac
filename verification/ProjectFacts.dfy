/** What a caller of WithProjects can rely on. */
module ProjectFacts {
  import opened Text
  import opened CatalogModel
  import opened Projects
  import opened CatalogObject
  import D = Derivation
  import Sorting

  /** The project's hostnames on a cluster, as it lists them. */
  function HostnamesOn(endpoints: seq<Endpoint>, cluster: string): seq<string> {
    if endpoints == [] then []
    else if endpoints[0].environment == cluster then [endpoints[0].hostname] + HostnamesOn(endpoints[1..], cluster)
    else HostnamesOn(endpoints[1..], cluster)
  }

  lemma {:induction false} HostnamesOnLast(endpoints: seq<Endpoint>, e: Endpoint, cluster: string)
    ensures HostnamesOn(endpoints + [e], cluster) ==
      HostnamesOn(endpoints, cluster) + (if e.environment == cluster then [e.hostname] else [])
  {
    if endpoints == [] {
      assert (endpoints + [e])[1..] == [];
    } else {
      assert (endpoints + [e])[1..] == endpoints[1..] + [e];
      HostnamesOnLast(endpoints[1..], e, cluster);
    }
  }

  lemma {:induction false} DomainsHoldHostnames(o: Override, cluster: string, endpoints: seq<Endpoint>)
    ensures HostsOf(DomainsFor(o, cluster, endpoints)) == HostnamesOn(endpoints, cluster)
  {
    if endpoints != [] {
      var front, last := endpoints[..|endpoints| - 1], endpoints[|endpoints| - 1];
      assert endpoints == front + [last];
      DomainsHoldHostnames(o, cluster, front);
      HostnamesOnLast(front, last, cluster);
    }
  }

  /**
   The new group of a project: its hostnames in order, its own namespace and no other, served from its ListenerSet.
   */
  ghost predicate OwnGroup(p: Project, cluster: string, g: Group) {
    && HostsOf(g.domains) == HostnamesOn(p.endpoints, cluster)
    && g.routeNamespaces == [p.name]
    && g.listenerSet && !g.crossCluster && !g.recordElsewhere
  }

  /** A served project gains exactly one group on each cluster of an exposure that generates. */
  lemma ProjectGainsOneGroup(es: Exposures, ps: seq<Project>, after: Exposures, n: string, c: string, i: nat)
    requires CatalogGenerated(es, ps, after) && n in es && es[n].projectGroups.Some? && c in es[n].clusters
    requires i < |ps| && Served(ps[i], c)
    ensures n in after && c in after[n].clusters
    ensures exists g ::
      && g in after[n].clusters[c].groups && g !in es[n].clusters[c].groups
      && Generates(es[n].projectGroups.value, c, ps, i, g) && OwnGroup(ps[i], c, after[n].clusters[c].groups[g])
    ensures forall g, h ::
      Generates(es[n].projectGroups.value, c, ps, i, g) && Generates(es[n].projectGroups.value, c, ps, i, h) ==> g == h
  {
    var pg := es[n].projectGroups.value;
    var o := OverrideFor(pg, c, ps[i].name);
    var g := NameFor(ps[i], o);
    assert ExposureGenerated(es[n], ps, after[n]);
    assert ClusterDone(pg, c, ps, es[n].clusters[c], after[n].clusters[c]);
    assert Generates(pg, c, ps, i, g);
    DomainsHoldHostnames(o, c, ps[i].endpoints);
  }

  /** Nothing else appears: a group that was not written belongs to exactly one served project. */
  lemma NewGroupHasOneProject(es: Exposures, ps: seq<Project>, after: Exposures, n: string, c: string, g: string)
    requires CatalogGenerated(es, ps, after) && n in es && c in es[n].clusters
    requires c in after[n].clusters && g in after[n].clusters[c].groups && g !in es[n].clusters[c].groups
    ensures es[n].projectGroups.Some?
    ensures exists i: nat ::
      Generates(es[n].projectGroups.value, c, ps, i, g) && OwnGroup(ps[i], c, after[n].clusters[c].groups[g])
    ensures forall i: nat, j: nat ::
      Generates(es[n].projectGroups.value, c, ps, i, g) && Generates(es[n].projectGroups.value, c, ps, j, g) ==> i == j
  {
    assert ExposureGenerated(es[n], ps, after[n]);
    var pg := es[n].projectGroups.value;
    assert ClusterDone(pg, c, ps, es[n].clusters[c], after[n].clusters[c]);
    var i: nat :| i < |ps| && Generates(pg, c, ps, i, g);
    DomainsHoldHostnames(OverrideFor(pg, c, ps[i].name), c, ps[i].endpoints);
  }

  /** How the WAF treats a generated domain: as the override says, if it says anything, else as the endpoint does. */
  ghost predicate WafAsSaid(e: Endpoint, names: Option<DomainNames>, d: Domain) {
    if names.Some? && (names.value.waf != "" || names.value.wafReason != "")
    then d.waf == names.value.waf && d.wafReason == names.value.wafReason
    else if e.wafOff != "" then d.waf == "off" && d.wafReason == e.wafOff
    else d.waf == "" && d.wafReason == ""
  }

  /** A generated domain: the endpoint's host, with the names and the WAF setting of the override for that host. */
  ghost predicate DomainAsSaid(e: Endpoint, names: Option<DomainNames>, d: Domain) {
    && d.host == e.hostname && !d.dnsElsewhere && WafAsSaid(e, names, d)
    && d.listenerName == (if names.Some? then names.value.listenerName else "")
    && d.secretName == (if names.Some? then names.value.secretName else "")
  }

  /** The names an exposure overrides for a host of a project on a cluster. */
  function NamesFor(pg: ProjectGroups, cluster: string, project: string, host: string): Option<DomainNames> {
    if cluster in pg.overrides && project in pg.overrides[cluster] && host in pg.overrides[cluster][project].names
    then Some(pg.overrides[cluster][project].names[host]) else None
  }

  function GroupName(pg: ProjectGroups, cluster: string, project: string): string {
    if cluster in pg.overrides && project in pg.overrides[cluster] && pg.overrides[cluster][project].group != ""
    then pg.overrides[cluster][project].group else project
  }

  function Description(pg: ProjectGroups, cluster: string, project: string): string {
    if cluster in pg.overrides && project in pg.overrides[cluster]
    then pg.overrides[cluster][project].description else ""
  }

  lemma {:induction false} DomainsAsSaid(pg: ProjectGroups, cluster: string, project: string, endpoints: seq<Endpoint>)
    ensures forall d :: d in DomainsFor(OverrideFor(pg, cluster, project), cluster, endpoints) ==> exists e ::
      e in endpoints && e.environment == cluster && DomainAsSaid(e, NamesFor(pg, cluster, project, e.hostname), d)
  {
    if endpoints != [] {
      var front, last := endpoints[..|endpoints| - 1], endpoints[|endpoints| - 1];
      assert endpoints == front + [last];
      DomainsAsSaid(pg, cluster, project, front);
      assert DomainAsSaid(last, NamesFor(pg, cluster, project, last.hostname),
        DomainFor(OverrideFor(pg, cluster, project), last));
      hide DomainAsSaid, NamesFor, DomainFor;
    }
  }

  /**
   A project's new group bears the overriding name, or else the project's, with the override's description; each of its
   domains is one of the project's endpoints on the cluster under the override's names and WAF setting for its host.
   */
  lemma GeneratedAsSaid(es: Exposures, ps: seq<Project>, after: Exposures, n: string, c: string, i: nat)
    requires CatalogGenerated(es, ps, after) && n in es && es[n].projectGroups.Some? && c in es[n].clusters
    requires i < |ps| && Served(ps[i], c)
    ensures n in after && c in after[n].clusters
    ensures var pg, p, groups := es[n].projectGroups.value, ps[i], after[n].clusters[c].groups;
      && GroupName(pg, c, p.name) in groups
      && groups[GroupName(pg, c, p.name)].description == Description(pg, c, p.name)
      && forall d :: d in groups[GroupName(pg, c, p.name)].domains ==> exists e ::
           e in p.endpoints && e.environment == c && DomainAsSaid(e, NamesFor(pg, c, p.name, e.hostname), d)
  {
    var pg, p := es[n].projectGroups.value, ps[i];
    assert ExposureGenerated(es[n], ps, after[n]);
    assert ClusterDone(pg, c, ps, es[n].clusters[c], after[n].clusters[c]);
    assert Generates(pg, c, ps, i, GroupName(pg, c, p.name));
    DomainsAsSaid(pg, c, p.name, p.endpoints);
    hide DomainAsSaid, NamesFor;
  }

  lemma GeneratedAlike(pg: ProjectGroups, c: string, ps: seq<Project>, qs: seq<Project>, before: map<string, Group>,
      x: map<string, Group>, y: map<string, Group>, g: string)
    requires GroupsGenerated(pg, c, ps, |ps|, before, x) && GroupsGenerated(pg, c, qs, |qs|, before, y)
    requires multiset(ps) == multiset(qs) && g in x
    ensures g in y && y[g] == x[g]
  {
    if g !in before {
      var i: nat :| i < |ps| && Generates(pg, c, ps, i, g);
      assert ps[i] in multiset(qs);
      var j: nat :| j < |qs| && qs[j] == ps[i];
      assert Generates(pg, c, qs, j, g);
      hide Generates, GroupFor, OverrideFor;
    }
  }

  lemma ClustersAlike(pg: ProjectGroups, c: string, ps: seq<Project>, qs: seq<Project>, from: Cluster, x: Cluster,
      y: Cluster)
    requires ClusterDone(pg, c, ps, from, x) && ClusterDone(pg, c, qs, from, y) && multiset(ps) == multiset(qs)
    ensures x == y
  {
    hide GroupsGenerated, NameTaken;
    forall g | g in x.groups ensures g in y.groups && y.groups[g] == x.groups[g] {
      GeneratedAlike(pg, c, ps, qs, from.groups, x.groups, y.groups, g);
    }
    forall g | g in y.groups ensures g in x.groups {
      GeneratedAlike(pg, c, qs, ps, from.groups, y.groups, x.groups, g);
    }
    assert x.groups == y.groups;
  }

  lemma ExposuresAlike(ps: seq<Project>, qs: seq<Project>, e: Exposure, x: Exposure, y: Exposure)
    requires ExposureGenerated(e, ps, x) && ExposureGenerated(e, qs, y) && multiset(ps) == multiset(qs)
    ensures x == y
  {
    hide ClusterDone;
    if e.projectGroups.Some? {
      forall c | c in e.clusters ensures x.clusters[c] == y.clusters[c] {
        ClustersAlike(e.projectGroups.value, c, ps, qs, e.clusters[c], x.clusters[c], y.clusters[c]);
      }
      assert x.clusters == y.clusters;
    }
  }

  /** The generated catalog is determined by the written one and the projects, in whatever order they are listed. */
  lemma ProjectOrder(es: Exposures, ps: seq<Project>, qs: seq<Project>, a: Exposures, b: Exposures)
    requires multiset(ps) == multiset(qs) && CatalogGenerated(es, ps, a) && CatalogGenerated(es, qs, b)
    ensures a == b
  {
    hide ExposureGenerated;
    forall n | n in es ensures a[n] == b[n] {
      ExposuresAlike(ps, qs, es[n], a[n], b[n]);
    }
  }

  // ---------------------------------------------------------------------------
  // One claim per cluster and name
  // ---------------------------------------------------------------------------

  lemma {:induction false} KeyInBag(before: seq<string>, gs: seq<D.Group>, g: D.Group, key: string)
    requires g in gs && key in HostKeys(g)
    ensures key in GroupKeys(before, gs)
  {
    var front, last := gs[..|gs| - 1], gs[|gs| - 1];
    assert gs == front + [last];
    if g != last {
      KeyInBag(before, front, g, key);
    }
  }

  lemma {:induction false} BeforeStays(before: seq<string>, gs: seq<D.Group>, key: string)
    requires key in before
    ensures key in GroupKeys(before, gs)
  {
    if gs != [] {
      BeforeStays(before, gs[..|gs| - 1], key);
    }
  }

  lemma SharedKeyRepeats(s: seq<string>, t: seq<string>, key: string)
    requires key in s && key in t
    ensures !Sorting.Distinct(s + t)
  {
    var i :| 0 <= i < |s| && s[i] == key;
    var j :| 0 <= j < |t| && t[j] == key;
    assert (s + t)[i] == key && (s + t)[|s| + j] == key;
  }

  lemma {:induction false} TwoGroupsRepeat(before: seq<string>, gs: seq<D.Group>, g: D.Group, h: D.Group, key: string)
    requires g in gs && h in gs && g != h && key in HostKeys(g) && key in HostKeys(h)
    ensures !Sorting.Distinct(GroupKeys(before, gs))
  {
    var front, last := gs[..|gs| - 1], gs[|gs| - 1];
    assert gs == front + [last];
    if g != last && h != last {
      TwoGroupsRepeat(before, front, g, h, key);
      if Sorting.Distinct(GroupKeys(before, gs)) {
        DistinctPrefix(GroupKeys(before, front), HostKeys(last));
      }
    } else {
      KeyInBag(before, front, if g == last then h else g, key);
      SharedKeyRepeats(GroupKeys(before, front), HostKeys(last), key);
    }
  }

  lemma {:induction false} BeforeRepeats(before: seq<string>, gs: seq<D.Group>, g: D.Group, key: string)
    requires key in before && g in gs && key in HostKeys(g)
    ensures !Sorting.Distinct(GroupKeys(before, gs))
  {
    var front, last := gs[..|gs| - 1], gs[|gs| - 1];
    assert gs == front + [last];
    if g != last {
      BeforeRepeats(before, front, g, key);
      if Sorting.Distinct(GroupKeys(before, gs)) {
        DistinctPrefix(GroupKeys(before, front), HostKeys(last));
      }
    } else {
      BeforeStays(before, front, key);
      SharedKeyRepeats(GroupKeys(before, front), HostKeys(last), key);
    }
  }

  lemma {:induction false} SiteListed(es: Exposures, names: seq<string>, n: string, g: D.Group, key: string)
    requires forall m :: m in names ==> m in es
    requires n in names && g in GroupsOf(es[n]) && key in HostKeys(g)
    ensures key in SiteKeys(es, names)
  {
    var front, last := names[..|names| - 1], names[|names| - 1];
    assert names == front + [last];
    if n == last {
      KeyInBag(SiteKeys(es, front), GroupsOf(es[last]), g, key);
    } else {
      SiteListed(es, front, n, g, key);
      BeforeStays(SiteKeys(es, front), GroupsOf(es[last]), key);
    }
  }

  lemma DistinctFront(front: seq<string>, last: string)
    requires Sorting.Distinct(front + [last])
    ensures Sorting.Distinct(front) && last !in front
  {
    Sorting.DistinctSnoc(front, last);
  }

  lemma NamesSplit(names: seq<string>)
    requires Sorting.Distinct(names) && names != []
    ensures var front, last := names[..|names| - 1], names[|names| - 1];
      && Sorting.Distinct(front) && last in names && last !in front
      && forall x :: x in names <==> x in front || x == last
  {
    var front, last := names[..|names| - 1], names[|names| - 1];
    assert names == front + [last];
    DistinctFront(front, last);
  }

  lemma SiteKeysLast(es: Exposures, names: seq<string>)
    requires names != [] && forall x :: x in names ==> x in es
    ensures forall x :: x in names[..|names| - 1] ==> x in es
    ensures SiteKeys(es, names)
         == GroupKeys(SiteKeys(es, names[..|names| - 1]), GroupsOf(es[names[|names| - 1]]))
  {
    hide GroupsOf, GroupKeys;
  }

  lemma RepeatGrows(before: seq<string>, gs: seq<D.Group>)
    requires !Sorting.Distinct(before)
    ensures !Sorting.Distinct(GroupKeys(before, gs))
  {
    hide Sorting.Distinct;
    if Sorting.Distinct(GroupKeys(before, gs)) {
      GroupKeysGrow(before, gs, 0);
    }
  }

  lemma {:induction false} TwoSitesRepeat(es: Exposures, names: seq<string>, m: string, n: string, g: D.Group,
      h: D.Group, key: string)
    requires forall x :: x in names ==> x in es
    requires Sorting.Distinct(names) && m in names && n in names
    requires g in GroupsOf(es[m]) && h in GroupsOf(es[n]) && key in HostKeys(g) && key in HostKeys(h)
    requires m != n || g != h
    ensures !Sorting.Distinct(SiteKeys(es, names))
  {
    hide *;
    var front, last := names[..|names| - 1], names[|names| - 1];
    NamesSplit(names);
    var before, gs := SiteKeys(es, front), GroupsOf(es[last]);
    SiteKeysLast(es, names);
    if m == last && n == last {
      TwoGroupsRepeat(before, gs, g, h, key);
    } else if m != last && n != last {
      TwoSitesRepeat(es, front, m, n, g, h, key);
      RepeatGrows(before, gs);
    } else if m == last {
      SiteListed(es, front, n, h, key);
      BeforeRepeats(before, gs, g, key);
    } else {
      SiteListed(es, front, m, g, key);
      BeforeRepeats(before, gs, h, key);
    }
  }

  ghost predicate Claims(es: Exposures, n: string, c: string, g: string, host: string) {
    n in es && c in es[n].clusters && g in es[n].clusters[c].groups
      && host in HostsOf(es[n].clusters[c].groups[g].domains)
  }

  /** In a valid catalog a name is claimed on a cluster by one group of one exposure. */
  lemma OneClaimPerCluster(version: int, es: Exposures, m: string, n: string, c: string, g: string, h: string,
      host: string)
    requires ValidCatalog(version, es) && Claims(es, m, c, g, host) && Claims(es, n, c, h, host)
    ensures m == n && g == h
  {
    var x := ToDerive(g, c, es[m].clusters[c].groups[g]);
    var y := ToDerive(h, c, es[n].clusters[c].groups[h]);
    GroupsOfMembers(es[m]);
    GroupsOfMembers(es[n]);
    HasKey(x, host);
    HasKey(y, host);
    if m != n || g != h {
      TwoSitesRepeat(es, Sorting.SortedKeys(es.Keys), m, n, x, y, SiteKey(c, host));
    }
  }

  lemma HasKey(g: D.Group, host: string)
    requires host in g.hosts
    ensures SiteKey(g.cluster, host) in HostKeys(g)
  {
    var i :| 0 <= i < |g.hosts| && g.hosts[i] == host;
    assert HostKeys(g)[i] == SiteKey(g.cluster, host);
  }
}
