/** The catalog object, which WithProjects fills in place (catalog/projects.go). */
module CatalogObject {
  import opened Text
  import opened CatalogModel
  import opened Projects
  import D = Derivation
  import Sorting

  /** An override that names a project with an endpoint on that cluster. */
  ghost predicate InUse(e: Exposure, ps: seq<Project>, key: string) {
    exists c: string, i: nat :: c in e.clusters && i < |ps| && Served(ps[i], c) && key == UsedKey(c, ps[i].name)
  }

  ghost predicate OverridesUsed(pg: ProjectGroups, e: Exposure, ps: seq<Project>) {
    forall c, n :: c in pg.overrides && n in pg.overrides[c] ==> InUse(e, ps, UsedKey(c, n))
  }

  /** The generation on one exposure goes through. */
  ghost predicate ExposureAccepts(e: Exposure, ps: seq<Project>) {
    e.projectGroups.Some? ==>
      && ProjectGroupsOk(e.projectGroups, e)
      && (forall c :: c in e.clusters ==> !NameTaken(e.projectGroups.value, c, ps, e.clusters[c].groups))
      && OverridesUsed(e.projectGroups.value, e, ps)
  }

  /** One cluster with its generated groups. */
  ghost predicate ClusterDone(pg: ProjectGroups, name: string, ps: seq<Project>, c: Cluster, after: Cluster) {
    && !NameTaken(pg, name, ps, c.groups)
    && after.class_ == c.class_
    && GroupsGenerated(pg, name, ps, |ps|, c.groups, after.groups)
  }

  ghost predicate ClusterKept(c: Cluster, after: Cluster) {
    after.class_ == c.class_ && Keeps(c.groups, after.groups)
  }

  /** The exposure with its generated groups: nothing else changes. */
  ghost predicate ExposureGenerated(e: Exposure, ps: seq<Project>, after: Exposure) {
    if e.projectGroups.None? then after == e
    else
      && after == e.(clusters := after.clusters)
      && after.clusters.Keys == e.clusters.Keys
      && forall c :: c in e.clusters ==> ClusterDone(e.projectGroups.value, c, ps, e.clusters[c], after.clusters[c])
  }

  /** Written groups stay as written, whatever else happened. */
  ghost predicate ExposureKeeps(e: Exposure, after: Exposure) {
    after == e.(clusters := after.clusters) && ClustersKept(e.clusters, after.clusters)
  }

  ghost predicate CatalogKeeps(es: Exposures, after: Exposures) {
    after.Keys == es.Keys && forall n :: n in es ==> ExposureKeeps(es[n], after[n])
  }

  ghost predicate CatalogAccepts(es: Exposures, ps: seq<Project>) {
    (forall p :: p in ps ==> ProjectOk(p)) && forall n :: n in es ==> ExposureAccepts(es[n], ps)
  }

  ghost predicate CatalogGenerated(es: Exposures, ps: seq<Project>, after: Exposures) {
    after.Keys == es.Keys && forall n :: n in es ==> ExposureGenerated(es[n], ps, after[n])
  }

  ghost predicate UsedIn(ps: seq<Project>, names: seq<string>, used: set<string>) {
    forall key :: key in used <==>
      exists j: nat, i: nat ::
        j < |names| && i < |ps| && Served(ps[i], names[j]) && key == UsedKey(names[j], ps[i].name)
  }

  lemma UsedInStep(ps: seq<Project>, names: seq<string>, name: string, used: set<string>)
    requires UsedIn(ps, names, used)
    ensures UsedIn(ps, names + [name], used + UsedOn(name, ps, |ps|))
  {
    var more, all := names + [name], used + UsedOn(name, ps, |ps|);
    forall key | key in all
      ensures exists j: nat, i: nat ::
        j < |more| && i < |ps| && Served(ps[i], more[j]) && key == UsedKey(more[j], ps[i].name)
    {
      if key in used {
        var j: nat, i: nat :| j < |names| && i < |ps| && Served(ps[i], names[j])
          && key == UsedKey(names[j], ps[i].name);
        assert more[j] == names[j];
      } else {
        var i :| 0 <= i < |ps| && Served(ps[i], name) && key == UsedKey(name, ps[i].name);
        assert more[|names|] == name;
      }
    }
  }

  lemma NothingUsed(ps: seq<Project>)
    ensures UsedIn(ps, [], {})
  {
  }

  method AllOverridesUsed(pg: ProjectGroups, used: set<string>) returns (ok: bool)
    ensures ok <==> forall c, n :: c in pg.overrides && n in pg.overrides[c] ==> UsedKey(c, n) in used
  {
    ok := forall c :: c in pg.overrides ==> forall n :: n in pg.overrides[c] ==> UsedKey(c, n) in used;
  }

  method GenerateCluster(pg: ProjectGroups, name: string, c: Cluster, ps: seq<Project>, used0: set<string>,
      ghost before: seq<string>)
    returns (ok: bool, after: Cluster, used: set<string>)
    requires UsedIn(ps, before, used0)
    ensures ok <==> !NameTaken(pg, name, ps, c.groups)
    ensures ok ==> ClusterDone(pg, name, ps, c, after) && UsedIn(ps, before + [name], used)
    ensures ClusterKept(c, after)
  {
    hide NameTaken, GroupsGenerated, UsedIn;
    var groups;
    UsedInStep(ps, before, name, used0);
    ok, groups, used := AddProjectGroups(pg, name, ps, c.groups, used0);
    after := c.(groups := groups);
  }

  ghost predicate ClustersKept(before: map<string, Cluster>, after: map<string, Cluster>) {
    after.Keys == before.Keys && forall c :: c in before ==> ClusterKept(before[c], after[c])
  }

  ghost predicate ClustersProgress(pg: ProjectGroups, ps: seq<Project>, before: map<string, Cluster>,
      current: map<string, Cluster>, done: set<string>) {
    && ClustersKept(before, current)
    && (forall c :: c in before && c in done ==> ClusterDone(pg, c, ps, before[c], current[c]))
    && (forall c :: c in before && c !in done ==> current[c] == before[c])
  }

  lemma ClustersStart(pg: ProjectGroups, ps: seq<Project>, before: map<string, Cluster>)
    ensures ClustersProgress(pg, ps, before, before, {})
  {
    hide ClusterDone;
    forall c | c in before { ClusterKeptSelf(before[c]); }
  }

  lemma ClustersStep(pg: ProjectGroups, ps: seq<Project>, before: map<string, Cluster>,
      current: map<string, Cluster>, done: set<string>, name: string, after: Cluster)
    requires ClustersProgress(pg, ps, before, current, done) && name in before && ClusterKept(before[name], after)
    ensures ClustersKept(before, current[name := after])
    ensures ClusterDone(pg, name, ps, before[name], after) ==>
      ClustersProgress(pg, ps, before, current[name := after], done + {name})
  {
    hide ClusterDone, ClusterKept;
  }

  lemma ClustersAllDone(pg: ProjectGroups, ps: seq<Project>, before: map<string, Cluster>,
      current: map<string, Cluster>, done: set<string>)
    requires ClustersProgress(pg, ps, before, current, done) && forall c :: c in before ==> c in done
    ensures ClustersKept(before, current)
    ensures forall c :: c in before ==> ClusterDone(pg, c, ps, before[c], current[c])
  {
  }

  /** Every cluster of one exposure, in name order. */
  method GenerateClusters(pg: ProjectGroups, e: Exposure, ps: seq<Project>)
    returns (ok: bool, clusters: map<string, Cluster>, used: set<string>)
    ensures ok <==> forall c :: c in e.clusters ==> !NameTaken(pg, c, ps, e.clusters[c].groups)
    ensures ok ==> forall key :: key in used <==> InUse(e, ps, key)
    ensures ClustersKept(e.clusters, clusters)
    ensures ok ==> forall c :: c in e.clusters ==> ClusterDone(pg, c, ps, e.clusters[c], clusters[c])
  {
    NothingUsed(ps);
    ClustersStart(pg, ps, e.clusters);
    DoneIsFree(pg, ps);
    hide NameTaken, UsedIn, InUse, ClusterDone, ClusterKept, ClustersKept, ClustersProgress, Sorting.Sorted;
    var names := Sorting.CollectKeys(e.clusters.Keys);
    clusters, used := e.clusters, {};
    ghost var done: set<string>, walked: seq<string> := {}, [];
    for j := 0 to |names|
      invariant walked == names[..j] && UsedIn(ps, walked, used)
      invariant forall k :: 0 <= k < |names| ==> (k < j <==> names[k] in done)
      invariant ClustersProgress(pg, ps, e.clusters, clusters, done)
    {
      var name := names[j];
      assert name in names;
      var free, after;
      free, after, used := GenerateCluster(pg, name, e.clusters[name], ps, used, walked);
      ClustersStep(pg, ps, e.clusters, clusters, done, name, after);
      clusters := clusters[name := after];
      if !free {
        return false, clusters, used;
      }
      done, walked := done + {name}, walked + [name];
    }
    assert walked == names;
    forall c | c in e.clusters ensures c in done {
      assert c in names;
    }
    ClustersAllDone(pg, ps, e.clusters, clusters, done);
    UsedIsInUse(e, ps, walked, used);
    ok := true;
  }

  lemma DoneIsFree(pg: ProjectGroups, ps: seq<Project>)
    ensures forall name: string, c: Cluster, after: Cluster ::
      ClusterDone(pg, name, ps, c, after) ==> !NameTaken(pg, name, ps, c.groups)
  {
    hide NameTaken, GroupsGenerated;
  }

  lemma ClusterKeptSelf(c: Cluster)
    ensures ClusterKept(c, c)
  {
  }

  lemma UsedIsInUse(e: Exposure, ps: seq<Project>, names: seq<string>, used: set<string>)
    requires UsedIn(ps, names, used) && forall c :: c in names <==> c in e.clusters
    ensures forall key :: key in used <==> InUse(e, ps, key)
  {
    forall key | InUse(e, ps, key) ensures key in used {
      var c, i: nat :| c in e.clusters && i < |ps| && Served(ps[i], c) && key == UsedKey(c, ps[i].name);
      var j :| 0 <= j < |names| && names[j] == c;
    }
    forall key | key in used ensures InUse(e, ps, key) {
      var j: nat, i: nat :| j < |names| && i < |ps| && Served(ps[i], names[j]) && key == UsedKey(names[j], ps[i].name);
      assert names[j] in names;
    }
  }

  method GenerateExposure(e: Exposure, ps: seq<Project>) returns (ok: bool, after: Exposure)
    ensures ok <==> ExposureAccepts(e, ps)
    ensures ok ==> ExposureGenerated(e, ps, after)
    ensures ExposureKeeps(e, after)
  {
    if e.projectGroups.None? {
      return true, e;
    }
    if !ProjectGroupsOk(e.projectGroups, e) {
      return false, e;
    }
    var free, clusters, used := GenerateClusters(e.projectGroups.value, e, ps);
    after := e.(clusters := clusters);
    if !free {
      return false, after;
    }
    ok := AllOverridesUsed(e.projectGroups.value, used);
  }

  method CheckEndpoints(ps: seq<Project>) returns (ok: bool)
    ensures ok <==> forall p :: p in ps ==> ProjectOk(p)
  {
    for i := 0 to |ps|
      invariant forall k :: 0 <= k < i ==> ProjectOk(ps[k])
    {
      if !ProjectOk(ps[i]) {
        assert ps[i] in ps;
        return false;
      }
    }
    ok := true;
  }

  lemma ExposureKeepsSelf(e: Exposure)
    ensures ExposureKeeps(e, e)
  {
    forall c | c in e.clusters { ClusterKeptSelf(e.clusters[c]); }
  }

  /** The exposures named in done are generated; the others are as written. */
  ghost predicate Progress(es: Exposures, ps: seq<Project>, current: Exposures, done: set<string>) {
    && CatalogKeeps(es, current)
    && (forall n :: n in es && n in done ==> ExposureAccepts(es[n], ps) && ExposureGenerated(es[n], ps, current[n]))
    && (forall n :: n in es && n !in done ==> current[n] == es[n])
  }

  lemma ProgressStep(es: Exposures, ps: seq<Project>, current: Exposures, done: set<string>, name: string,
      after: Exposure)
    requires Progress(es, ps, current, done) && name in es && name !in done && ExposureKeeps(es[name], after)
    ensures CatalogKeeps(es, current[name := after])
    ensures ExposureAccepts(es[name], ps) && ExposureGenerated(es[name], ps, after) ==>
      Progress(es, ps, current[name := after], done + {name})
  {
    hide ExposureAccepts, ExposureGenerated, ExposureKeeps;
  }

  lemma ProgressStart(es: Exposures, ps: seq<Project>)
    ensures Progress(es, ps, es, {})
  {
    hide ExposureAccepts, ExposureGenerated, ExposureKeeps;
    forall n | n in es { ExposureKeepsSelf(es[n]); }
  }

  class Catalog {
    var version: int
    var exposures: Exposures

    constructor (version: int, exposures: Exposures)
      ensures this.version == version && this.exposures == exposures
    {
      this.version, this.exposures := version, exposures;
    }

    method Validate() returns (ok: bool)
      ensures ok <==> ValidCatalog(version, exposures)
    {
      ok := ValidateCatalog(version, exposures);
    }

    /** The generation loop over the exposures, in name order; it stops at the first refusal. */
    method Generate(ps: seq<Project>) returns (ok: bool)
      modifies this`exposures
      ensures ok <==> forall n :: n in old(exposures) ==> ExposureAccepts(old(exposures)[n], ps)
      ensures CatalogKeeps(old(exposures), exposures)
      ensures ok ==> CatalogGenerated(old(exposures), ps, exposures)
    {
      ghost var es, done: set<string> := exposures, {};
      ProgressStart(es, ps);
      hide ExposureAccepts, ExposureGenerated, ExposureKeeps, Sorting.Sorted;
      var names := Sorting.CollectKeys(exposures.Keys);
      for i := 0 to |names|
        invariant Progress(es, ps, exposures, done)
        invariant forall k :: 0 <= k < |names| ==> (k < i <==> names[k] in done)
      {
        var name := names[i];
        assert name in names;
        var accepted, after := GenerateExposure(exposures[name], ps);
        ProgressStep(es, ps, exposures, done, name, after);
        exposures, done := exposures[name := after], done + {name};
        if !accepted {
          return false;
        }
      }
      forall n | n in es ensures n in done {
        assert n in names;
      }
      ok := true;
    }

    /**
     Adds the generated groups and validates the result. Where every exposure accepts its projects the generated
     catalog is left behind, and the call goes through exactly when that catalog is valid; any other call is
     refused. No call replaces a written group.
     */
    method WithProjects(ps: seq<Project>) returns (ok: bool)
      modifies this`exposures
      ensures CatalogKeeps(old(exposures), exposures)
      ensures ok <==> CatalogAccepts(old(exposures), ps) && ValidCatalog(version, exposures)
      ensures CatalogAccepts(old(exposures), ps) ==> CatalogGenerated(old(exposures), ps, exposures)
    {
      forall n | n in exposures { ExposureKeepsSelf(exposures[n]); }
      hide ExposureAccepts, ExposureGenerated, ExposureKeeps, ValidCatalog, ProjectOk;
      ok := CheckEndpoints(ps);
      if !ok {
        return;
      }
      ok := Generate(ps);
      if !ok {
        return;
      }
      ok := ValidateCatalog(version, exposures);
    }
  }
}
