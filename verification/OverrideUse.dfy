/**
 When WithProjects takes an override for one that a project uses (catalog/projects.go): by the key that joins cluster
 and project, so a bar in a cluster name can hide an unused override.
 */
module OverrideUse {
  import opened Text
  import opened CatalogModel
  import opened CatalogObject
  import opened CatalogSites
  import opened Projects

  /** A project of that name has an endpoint on that cluster of the exposure. */
  ghost predicate ServesOn(e: Exposure, ps: seq<Project>, c: string, n: string) {
    c in e.clusters && exists i :: 0 <= i < |ps| && Served(ps[i], c) && ps[i].name == n
  }

  /** Another served cluster and project share the key across a bar. */
  ghost predicate Shadowed(e: Exposure, ps: seq<Project>, c: string, n: string) {
    exists d, m :: ServesOn(e, ps, d, m) && (Overlap(Site(c, n), Site(d, m)) || Overlap(Site(d, m), Site(c, n)))
  }

  lemma InUseIff(e: Exposure, ps: seq<Project>, c: string, n: string)
    ensures InUse(e, ps, UsedKey(c, n)) <==> ServesOn(e, ps, c, n) || Shadowed(e, ps, c, n)
  {
    hide Served, Overlap;
    if InUse(e, ps, UsedKey(c, n)) {
      var d: string, i: nat :| d in e.clusters && i < |ps| && Served(ps[i], d)
        && UsedKey(c, n) == UsedKey(d, ps[i].name);
      KeysMeet(Site(c, n), Site(d, ps[i].name));
      assert ServesOn(e, ps, d, ps[i].name);
    }
    if ServesOn(e, ps, c, n) {
      ServedInUse(e, ps, c, n, c, n);
    }
    if Shadowed(e, ps, c, n) {
      var d, m :| ServesOn(e, ps, d, m) && (Overlap(Site(c, n), Site(d, m)) || Overlap(Site(d, m), Site(c, n)));
      KeysMeet(Site(c, n), Site(d, m));
      ServedInUse(e, ps, c, n, d, m);
    }
  }

  lemma ServedInUse(e: Exposure, ps: seq<Project>, c: string, n: string, d: string, m: string)
    requires ServesOn(e, ps, d, m) && UsedKey(c, n) == UsedKey(d, m)
    ensures InUse(e, ps, UsedKey(c, n))
  {
    hide Served;
    var i :| 0 <= i < |ps| && Served(ps[i], d) && ps[i].name == m;
    var k: nat := i;
    assert d in e.clusters && k < |ps| && Served(ps[k], d) && UsedKey(c, n) == UsedKey(d, ps[k].name);
  }

  /** Every override names a project with an endpoint on its cluster. */
  ghost predicate AllServed(pg: ProjectGroups, e: Exposure, ps: seq<Project>) {
    forall c, n :: c in pg.overrides && n in pg.overrides[c] ==> ServesOn(e, ps, c, n)
  }

  /** The overrides pass exactly when each one is served or shares its key with a served one. */
  lemma OverridesUsedIff(pg: ProjectGroups, e: Exposure, ps: seq<Project>)
    ensures OverridesUsed(pg, e, ps)
       <==> forall c, n :: c in pg.overrides && n in pg.overrides[c] ==> ServesOn(e, ps, c, n) || Shadowed(e, ps, c, n)
  {
    forall c, n ensures InUse(e, ps, UsedKey(c, n)) <==> ServesOn(e, ps, c, n) || Shadowed(e, ps, c, n) {
      InUseIff(e, ps, c, n);
    }
    hide InUse, ServesOn, Shadowed, UsedKey;
  }

  /** Where no cluster name holds a bar, the overrides pass exactly when each one is served. */
  lemma OverridesUsedWithoutBars(pg: ProjectGroups, e: Exposure, ps: seq<Project>)
    requires ProjectGroupsOk(Some(pg), e) && forall c :: c in e.clusters ==> '|' !in c
    ensures OverridesUsed(pg, e, ps) <==> AllServed(pg, e, ps)
  {
    OverridesUsedIff(pg, e, ps);
    forall c, n | c in pg.overrides && n in pg.overrides[c] ensures !Shadowed(e, ps, c, n) {
      forall d, m | ServesOn(e, ps, d, m) ensures !Overlap(Site(c, n), Site(d, m)) && !Overlap(Site(d, m), Site(c, n)) {
        NoOverlap(Site(c, n), Site(d, m));
        NoOverlap(Site(d, m), Site(c, n));
      }
    }
    hide OverridesUsed, ServesOn, Shadowed;
  }

  // ---------------------------------------------------------------------------
  // An override of no project
  // ---------------------------------------------------------------------------

  const LEFTOVER := ProjectGroups(map["a" := map["b|p" := Override("", "moved", map[])]])

  /** Clusters a and a|b; the override on a names the project b|p, which does not exist. */
  function BarredExposure(): Exposure {
    TwoClusters("a", "x.c.d", "a|b", "y.c.d").(projectGroups := Some(LEFTOVER))
  }

  function OneProject(): seq<Project> {
    [Project("p", [Endpoint("a|b", "p.c.d", "")])]
  }

  lemma OnlyGroupG(c: string)
    requires c in BarredExposure().clusters
    ensures forall n :: n in BarredExposure().clusters[c].groups <==> n == "g"
    ensures c == "a" || c == "a|b"
  {
  }

  lemma ProjectServed()
    ensures Served(OneProject()[0], "a|b") && !Served(OneProject()[0], "a")
  {
    var es := OneProject()[0].endpoints;
    assert es[0].environment == "a|b" && |"a|b"| != |"a"|;
  }

  lemma NothingIsTaken(c: string)
    requires c in BarredExposure().clusters
    ensures !NameTaken(LEFTOVER, c, OneProject(), BarredExposure().clusters[c].groups)
  {
    OnlyGroupG(c);
    assert "p"[0] != "g"[0];
    hide BarredExposure, Served;
    forall i: nat, n: string ensures Generates(LEFTOVER, c, OneProject(), i, n) ==> i == 0 && n == "p" {
      if Generates(LEFTOVER, c, OneProject(), i, n) {
        assert OverrideFor(LEFTOVER, c, "p") == NO_OVERRIDE by {
          assert |"b|p"| != |"p"|;
        }
      }
    }
    hide Generates;
  }

  /** The exposure accepts its projects although its override names no project at all. */
  lemma LeftoverIsAccepted()
    ensures ExposureAccepts(BarredExposure(), OneProject())
    ensures "b|p" in LEFTOVER.overrides["a"] && forall p :: p in OneProject() ==> p.name != "b|p"
  {
    var e, ps := BarredExposure(), OneProject();
    assert |"b|p"| != |"p"|;
    ProjectServed();
    assert ProjectGroupsOk(e.projectGroups, e) by {
      assert "a" in e.clusters;
    }
    forall c | c in e.clusters ensures !NameTaken(LEFTOVER, c, ps, e.clusters[c].groups) {
      NothingIsTaken(c);
    }
    assert InUse(e, ps, UsedKey("a", "b|p")) by {
      assert "a|b" in e.clusters && 0 < |ps| && Served(ps[0], "a|b");
      assert UsedKey("a", "b|p") == UsedKey("a|b", ps[0].name);
    }
    hide NameTaken, InUse, UsedKey, ProjectGroupsOk, Served, BarredExposure;
    assert OverridesUsed(LEFTOVER, e, ps);
    assert e.projectGroups == Some(LEFTOVER) by {
      BarredGroups();
    }
  }

  lemma BarredGroups()
    ensures BarredExposure().projectGroups == Some(LEFTOVER)
  {
  }
}
