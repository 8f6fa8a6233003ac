/** Per-project groups (catalog/projects.go): the catalog, and `WithProjects` adding to it in place. */
module Projects {
  import opened Text
  import opened CatalogModel
  import HostOrder
  import Sorting

  datatype Endpoint = Endpoint(environment: string, hostname: string, wafOff: string)

  datatype Project = Project(name: string, endpoints: seq<Endpoint>)

  // ---------------------------------------------------------------------------
  // Endpoint hostnames
  // ---------------------------------------------------------------------------

  predicate Digits(s: string) {
    1 <= |s| <= 3 && (forall i :: 0 <= i < |s| ==> '0' <= s[i] <= '9') && (|s| > 1 ==> s[0] != '0')
  }

  function Octet(s: string): nat
    requires Digits(s)
  {
    (s[|s| - 1] as int - '0' as int) +
    (if |s| > 1 then 10 * (s[|s| - 2] as int - '0' as int) else 0) +
    (if |s| > 2 then 100 * (s[0] as int - '0' as int) else 0)
  }

  /** A dotted IPv4 address, the only kind of IP address made of DNS labels. */
  predicate IsIPv4(name: string) {
    var labels := HostOrder.Split(name);
    |labels| == 4 && forall i :: 0 <= i < 4 ==> Digits(labels[i]) && Octet(labels[i]) <= 255
  }

  /** `IsDNSClaim`: a lower-case DNS name of two labels or more, no wildcard, no address. */
  predicate IsDnsClaim(name: string) {
    && '*' !in name && 1 <= |name| <= 253 && IsLower(name) && !IsIPv4(name) && !HasSuffix(name, ".")
    && |HostOrder.Split(name)| >= 2
    && forall lab :: lab in HostOrder.Split(name) ==> DnsLabel(lab)
  }

  predicate ProjectOk(p: Project) {
    forall e :: e in p.endpoints ==> IsDnsClaim(e.hostname)
  }

  // ---------------------------------------------------------------------------
  // One generated group
  // ---------------------------------------------------------------------------

  const NO_OVERRIDE := Override("", "", map[])

  function OverrideFor(pg: ProjectGroups, cluster: string, project: string): Override {
    if cluster in pg.overrides && project in pg.overrides[cluster] then pg.overrides[cluster][project] else NO_OVERRIDE
  }

  function DomainFor(o: Override, e: Endpoint): Domain {
    var off := e.wafOff != "";
    var d := Domain(e.hostname, "", "", false, if off then WAF_OFF else "", if off then e.wafOff else "");
    if e.hostname in o.names then
      var n := o.names[e.hostname];
      var named := d.(listenerName := n.listenerName, secretName := n.secretName);
      if n.waf != "" || n.wafReason != "" then named.(waf := n.waf, wafReason := n.wafReason) else named
    else d
  }

  /** The project's hostnames on the cluster, in the project's order. */
  function DomainsFor(o: Override, cluster: string, endpoints: seq<Endpoint>): seq<Domain> {
    if endpoints == [] then []
    else
      var last := endpoints[|endpoints| - 1];
      DomainsFor(o, cluster, endpoints[..|endpoints| - 1])
        + (if last.environment == cluster then [DomainFor(o, last)] else [])
  }

  function NameFor(p: Project, o: Override): string {
    if o.group != "" then o.group else p.name
  }

  function GroupFor(p: Project, cluster: string, o: Override): Group {
    Group(o.description, DomainsFor(o, cluster, p.endpoints), [p.name], false, false, true)
  }

  predicate Served(p: Project, cluster: string) {
    exists i :: 0 <= i < |p.endpoints| && p.endpoints[i].environment == cluster
  }

  lemma {:induction false} ServedHasDomains(o: Override, cluster: string, endpoints: seq<Endpoint>)
    ensures DomainsFor(o, cluster, endpoints) != [] <==>
      exists i :: 0 <= i < |endpoints| && endpoints[i].environment == cluster
  {
    if endpoints != [] {
      ServedHasDomains(o, cluster, endpoints[..|endpoints| - 1]);
    }
  }

  method CollectDomains(o: Override, cluster: string, p: Project) returns (domains: seq<Domain>)
    ensures domains == DomainsFor(o, cluster, p.endpoints)
  {
    domains := [];
    for i := 0 to |p.endpoints|
      invariant domains == DomainsFor(o, cluster, p.endpoints[..i])
    {
      assert p.endpoints[..i + 1][..i] == p.endpoints[..i];
      if p.endpoints[i].environment == cluster {
        domains := domains + [DomainFor(o, p.endpoints[i])];
      }
    }
    assert p.endpoints[..|p.endpoints|] == p.endpoints;
  }

  // ---------------------------------------------------------------------------
  // What generation means, independently of how the catalog is filled in
  // ---------------------------------------------------------------------------

  /** Group i of the list is generated on the cluster under this name. */
  ghost predicate Generates(pg: ProjectGroups, cluster: string, ps: seq<Project>, i: nat, name: string) {
    i < |ps| && Served(ps[i], cluster) && name == NameFor(ps[i], OverrideFor(pg, cluster, ps[i].name))
  }

  /** after is before plus exactly one group for every served project among the first m, each under its own new name. */
  ghost predicate GroupsGenerated(pg: ProjectGroups, cluster: string, ps: seq<Project>, m: nat,
      before: map<string, Group>, after: map<string, Group>) {
    && (forall n :: n in before ==> n in after && after[n] == before[n])
    && (forall n :: n in after && n !in before ==> exists i: nat :: i < m && Generates(pg, cluster, ps, i, n))
    && (forall i: nat, n: string :: i < m && Generates(pg, cluster, ps, i, n) ==>
      n !in before && n in after && after[n] == GroupFor(ps[i], cluster, OverrideFor(pg, cluster, ps[i].name)))
    && (forall i: nat, j: nat, n: string ::
          i < j < m && Generates(pg, cluster, ps, i, n) ==> !Generates(pg, cluster, ps, j, n))
  }

  ghost predicate Keeps(before: map<string, Group>, after: map<string, Group>) {
    forall n :: n in before ==> n in after && after[n] == before[n]
  }

  /** Two served projects, or a served project and a written group, want one name. */
  ghost predicate NameTaken(pg: ProjectGroups, cluster: string, ps: seq<Project>, before: map<string, Group>) {
    || (exists i: nat, n: string :: Generates(pg, cluster, ps, i, n) && n in before)
    || (exists i: nat, j: nat, n: string ::
          i < j && Generates(pg, cluster, ps, i, n) && Generates(pg, cluster, ps, j, n))
  }

  function UsedKey(cluster: string, project: string): string {
    cluster + "|" + project
  }

  ghost function UsedOn(cluster: string, ps: seq<Project>, m: nat): set<string>
    requires m <= |ps|
  {
    set i | 0 <= i < m && Served(ps[i], cluster) :: UsedKey(cluster, ps[i].name)
  }

  method AddProject(pg: ProjectGroups, cluster: string, ps: seq<Project>, i: nat, ghost before: map<string, Group>,
      after0: map<string, Group>, used0: set<string>)
    returns (ok: bool, after: map<string, Group>, used: set<string>)
    requires i < |ps| && GroupsGenerated(pg, cluster, ps, i, before, after0)
    ensures ok ==> GroupsGenerated(pg, cluster, ps, i + 1, before, after)
    ensures ok ==> used == used0 + (if Served(ps[i], cluster) then {UsedKey(cluster, ps[i].name)} else {})
    ensures !ok ==> after == after0 && NameTaken(pg, cluster, ps, before)
  {
    var p := ps[i];
    var o := OverrideFor(pg, cluster, p.name);
    var domains := CollectDomains(o, cluster, p);
    ServedHasDomains(o, cluster, p.endpoints);
    AddStep(pg, cluster, ps, i, before, after0);
    if |domains| == 0 {
      return true, after0, used0;
    }
    used := used0 + {UsedKey(cluster, p.name)};
    var name := NameFor(p, o);
    if name in after0 {
      return false, after0, used;
    }
    return true, after0[name := Group(o.description, domains, [p.name], false, false, true)], used;
  }

  /** One cluster's groups: each served project's group added, or a name found taken. */
  method AddProjectGroups(pg: ProjectGroups, cluster: string, ps: seq<Project>, before: map<string, Group>,
      used0: set<string>)
    returns (ok: bool, after: map<string, Group>, used: set<string>)
    ensures ok <==> !NameTaken(pg, cluster, ps, before)
    ensures ok ==> GroupsGenerated(pg, cluster, ps, |ps|, before, after)
    ensures Keeps(before, after)
    ensures ok ==> used == used0 + UsedOn(cluster, ps, |ps|)
  {
    after, used, ok := before, used0, true;
    for i := 0 to |ps|
      invariant ok && GroupsGenerated(pg, cluster, ps, i, before, after)
      invariant used == used0 + UsedOn(cluster, ps, i)
    {
      UsedStep(cluster, ps, i);
      ok, after, used := AddProject(pg, cluster, ps, i, before, after, used);
      if !ok {
        return;
      }
    }
    NothingTaken(pg, cluster, ps, before, after);
  }

  lemma UsedStep(cluster: string, ps: seq<Project>, m: nat)
    requires m < |ps|
    ensures UsedOn(cluster, ps, m + 1) ==
      UsedOn(cluster, ps, m) + (if Served(ps[m], cluster) then {UsedKey(cluster, ps[m].name)} else {})
  {
    forall x | x in UsedOn(cluster, ps, m + 1)
      ensures x in UsedOn(cluster, ps, m) || (Served(ps[m], cluster) && x == UsedKey(cluster, ps[m].name))
    {
      var i :| 0 <= i < m + 1 && Served(ps[i], cluster) && x == UsedKey(cluster, ps[i].name);
    }
  }

  lemma TakenName(pg: ProjectGroups, cluster: string, ps: seq<Project>, m: nat, name: string,
      before: map<string, Group>, after: map<string, Group>)
    requires m < |ps| && Generates(pg, cluster, ps, m, name) && name in after
    requires GroupsGenerated(pg, cluster, ps, m, before, after)
    ensures NameTaken(pg, cluster, ps, before)
  {
    if name !in before {
      var i: nat :| i < m && Generates(pg, cluster, ps, i, name);
      assert Generates(pg, cluster, ps, m, name);
    }
  }

  lemma AddStep(pg: ProjectGroups, cluster: string, ps: seq<Project>, m: nat, before: map<string, Group>,
      after: map<string, Group>)
    requires m < |ps| && GroupsGenerated(pg, cluster, ps, m, before, after)
    ensures !Served(ps[m], cluster) ==> GroupsGenerated(pg, cluster, ps, m + 1, before, after)
    ensures Served(ps[m], cluster) ==>
      var o := OverrideFor(pg, cluster, ps[m].name);
      var name := NameFor(ps[m], o);
      if name in after then NameTaken(pg, cluster, ps, before)
      else GroupsGenerated(pg, cluster, ps, m + 1, before, after[name := GroupFor(ps[m], cluster, o)])
  {
    hide NameTaken;
    if Served(ps[m], cluster) {
      var o := OverrideFor(pg, cluster, ps[m].name);
      var name := NameFor(ps[m], o);
      if name in after {
        TakenName(pg, cluster, ps, m, name, before, after);
      } else {
        GeneratedStep(pg, cluster, ps, m, before, after, name);
      }
    }
  }

  lemma NothingTaken(pg: ProjectGroups, cluster: string, ps: seq<Project>, before: map<string, Group>,
      after: map<string, Group>)
    requires GroupsGenerated(pg, cluster, ps, |ps|, before, after)
    ensures !NameTaken(pg, cluster, ps, before)
  {
  }

  lemma GeneratedStep(pg: ProjectGroups, cluster: string, ps: seq<Project>, m: nat,
      before: map<string, Group>, after: map<string, Group>, name: string)
    requires m < |ps| && GroupsGenerated(pg, cluster, ps, m, before, after)
    requires Generates(pg, cluster, ps, m, name) && name !in after
    ensures GroupsGenerated(pg, cluster, ps, m + 1, before,
      after[name := GroupFor(ps[m], cluster, OverrideFor(pg, cluster, ps[m].name))])
  {
    hide GroupFor, OverrideFor, Served, NameFor;
    assert name == NameFor(ps[m], OverrideFor(pg, cluster, ps[m].name));
  }
}
