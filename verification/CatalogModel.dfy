/** The edge catalog (catalog/catalog.go): which names are served, on which way in, on which cluster. */
module CatalogModel {
  import opened Text
  import D = Derivation
  import HostOrder
  import Sorting

  datatype Domain = Domain(
    host: string, listenerName: string, secretName: string, dnsElsewhere: bool, waf: string, wafReason: string)

  datatype Group = Group(
    description: string, domains: seq<Domain>, routeNamespaces: seq<string>,
    crossCluster: bool, recordElsewhere: bool, listenerSet: bool)

  datatype Cluster = Cluster(class_: string, groups: map<string, Group>)

  datatype DomainNames = DomainNames(listenerName: string, secretName: string, waf: string, wafReason: string)

  datatype Override = Override(group: string, description: string, names: map<string, DomainNames>)

  datatype ProjectGroups = ProjectGroups(overrides: map<string, map<string, Override>>)

  datatype Arrival = CloudflareTunnel | PrivateClusterIP | Nlb | OtherArrival

  datatype Exposure = Exposure(
    class_: string, arrival: Arrival, accounts: seq<string>, projectGroups: Option<ProjectGroups>,
    clusters: map<string, Cluster>)

  type Exposures = map<string, Exposure>

  // ---------------------------------------------------------------------------
  // Single-group validation
  // ---------------------------------------------------------------------------

  /** The first value that repeats an earlier one. */
  function FirstRepeat(values: seq<string>): Option<string> {
    if values == [] then None
    else
      var front, last := values[..|values| - 1], values[|values| - 1];
      if FirstRepeat(front).Some? then FirstRepeat(front) else if last in front then Some(last) else None
  }

  /** A repeated empty value ends the search of `firstDuplicate` with the answer for "none". */
  predicate RepeatFound(values: seq<string>) {
    FirstRepeat(values).Some? && FirstRepeat(values).value != ""
  }

  method FirstDuplicate(values: seq<string>) returns (dup: string)
    ensures dup == if FirstRepeat(values).Some? then FirstRepeat(values).value else ""
  {
    var seen: set<string> := {};
    for i := 0 to |values|
      invariant seen == AsSet(values[..i])
      invariant FirstRepeat(values[..i]).None?
    {
      assert values[..i + 1] == values[..i] + [values[i]];
      if values[i] in seen {
        FirstRepeatKept(values, i + 1);
        return values[i];
      }
      seen := seen + {values[i]};
    }
    assert values[..|values|] == values;
    dup := "";
  }

  lemma {:induction false} FirstRepeatKept(values: seq<string>, n: nat)
    requires n <= |values| && FirstRepeat(values[..n]).Some?
    ensures FirstRepeat(values) == FirstRepeat(values[..n])
    decreases |values|
  {
    if n < |values| {
      var front := values[..|values| - 1];
      assert front[..n] == values[..n];
      FirstRepeatKept(front, n);
    } else {
      assert values[..n] == values;
    }
  }

  /** It finds a repetition exactly when there is one and the first is not of the empty value. */
  lemma {:induction false} FirstRepeatIs(values: seq<string>)
    ensures FirstRepeat(values).None? <==> Sorting.Distinct(values)
    ensures FirstRepeat(values).Some? ==> FirstRepeat(values).value in values
  {
    if values != [] {
      var front, last := values[..|values| - 1], values[|values| - 1];
      FirstRepeatIs(front);
      assert values == front + [last];
      Sorting.DistinctSnoc(front, last);
    }
  }

  /** So the search is right about a list exactly when its first repetition is not of the empty value. */
  lemma RepeatFoundIff(values: seq<string>)
    ensures (RepeatFound(values) <==> !Sorting.Distinct(values)) <==> FirstRepeat(values) != Some("")
  {
    FirstRepeatIs(values);
  }

  /** A repeated empty value hides the repetition behind it. */
  lemma EmptyEndsSearch()
    ensures !RepeatFound(["", "", "a", "a"]) && !Sorting.Distinct(["", "", "a", "a"])
  {
    var values := ["", "", "a", "a"];
    assert values[..2] == ["", ""] && ["", ""][..1] == [""] && [""][..0] == [];
    assert FirstRepeat([""]) == None;
    assert FirstRepeat(["", ""]) == Some("");
    FirstRepeatKept(values, 2);
    assert values[0] == values[1];
  }

  function DashDots(s: string): (r: string)
    ensures |r| == |s|
  {
    seq(|s|, i requires 0 <= i < |s| => if s[i] == '.' then '-' else s[i])
  }

  function DomainSlug(host: string): string {
    var slug := DashDots(TrimPrefix(host, "*."));
    if HostOrder.IsWildcard(host) then "wildcard-" + slug else slug
  }

  function ListenerName(d: Domain): string {
    if d.listenerName != "" then d.listenerName else DomainSlug(d.host)
  }

  function SecretName(d: Domain): string {
    if d.secretName != "" then d.secretName else DomainSlug(d.host) + "-tls"
  }

  predicate LowerAlnum(c: char) {
    'a' <= c <= 'z' || '0' <= c <= '9'
  }

  predicate DnsLabel(s: string) {
    && 1 <= |s| <= 63 && LowerAlnum(s[0]) && LowerAlnum(s[|s| - 1])
    && forall i :: 0 <= i < |s| ==> LowerAlnum(s[i]) || s[i] == '-'
  }

  /** `validateDomain`: a lower-case hostname, its only `*` a leading label. */
  predicate DomainOk(host: string) {
    host != "" && '/' !in host && ':' !in host && IsLower(host) && '*' !in TrimPrefix(host, "*.") && '.' in host
  }

  predicate NamesOk(g: Group, d: Domain) {
    || (d.listenerName == "" && d.secretName == "")
    || (g.listenerSet && (d.listenerName == "" || DnsLabel(d.listenerName))
        && (d.secretName == "" || DnsLabel(d.secretName)))
  }

  predicate HasText(s: string) {
    exists i :: 0 <= i < |s| && !IsSpace(s[i])
  }

  const WAF_OFF := "off"

  predicate WafOk(d: Domain, arrival: Arrival) {
    && (d.waf == "" || d.waf == WAF_OFF)
    && (d.waf == WAF_OFF ==> HasText(d.wafReason) && arrival.CloudflareTunnel?)
    && (d.waf == "" ==> d.wafReason == "")
  }

  function HostsOf(domains: seq<Domain>): (hosts: seq<string>)
    ensures |hosts| == |domains|
    ensures forall i :: 0 <= i < |domains| ==> hosts[i] == domains[i].host
  {
    seq(|domains|, i requires 0 <= i < |domains| => domains[i].host)
  }

  function ListenersOf(domains: seq<Domain>): seq<string> {
    seq(|domains|, i requires 0 <= i < |domains| => ListenerName(domains[i]))
  }

  function SecretsOf(domains: seq<Domain>): seq<string> {
    seq(|domains|, i requires 0 <= i < |domains| => SecretName(domains[i]))
  }

  ghost predicate GroupOk(g: Group) {
    && g.domains != [] && g.routeNamespaces != []
    && (forall d :: d in g.domains ==> DomainOk(d.host) && NamesOk(g, d))
    && Sorting.Distinct(HostsOf(g.domains))
    && Sorting.Distinct(ListenersOf(g.domains)) && Sorting.Distinct(SecretsOf(g.domains))
    && !RepeatFound(g.routeNamespaces)
  }

  /** No name printed for a domain is empty, so a repeated one is found. */
  lemma PrintedNamesFound(g: Group)
    requires forall d :: d in g.domains ==> DomainOk(d.host)
    ensures RepeatFound(HostsOf(g.domains)) <==> !Sorting.Distinct(HostsOf(g.domains))
    ensures RepeatFound(ListenersOf(g.domains)) <==> !Sorting.Distinct(ListenersOf(g.domains))
    ensures RepeatFound(SecretsOf(g.domains)) <==> !Sorting.Distinct(SecretsOf(g.domains))
  {
    FirstRepeatIs(HostsOf(g.domains));
    FirstRepeatIs(ListenersOf(g.domains));
    FirstRepeatIs(SecretsOf(g.domains));
    hide FirstRepeat, Sorting.Distinct;
    forall i | 0 <= i < |g.domains|
      ensures HostsOf(g.domains)[i] != "" && ListenersOf(g.domains)[i] != "" && SecretsOf(g.domains)[i] != ""
    {
      assert g.domains[i] in g.domains;
      assert |SecretName(g.domains[i])| > 0 && |ListenerName(g.domains[i])| > 0;
    }
  }

  method ValidateGroup(g: Group) returns (ok: bool)
    ensures ok <==> GroupOk(g)
  {
    if |g.domains| == 0 || |g.routeNamespaces| == 0 {
      return false;
    }
    for i := 0 to |g.domains|
      invariant forall k :: 0 <= k < i ==> DomainOk(g.domains[k].host) && NamesOk(g, g.domains[k])
    {
      if !DomainOk(g.domains[i].host) || !NamesOk(g, g.domains[i]) {
        return false;
      }
    }
    PrintedNamesFound(g);
    hide DomainOk, NamesOk, FirstRepeat, HostsOf, ListenersOf, SecretsOf;
    var host := FirstDuplicate(HostsOf(g.domains));
    var listener := FirstDuplicate(ListenersOf(g.domains));
    var secret := FirstDuplicate(SecretsOf(g.domains));
    var namespace := FirstDuplicate(g.routeNamespaces);
    ok := host == "" && listener == "" && secret == "" && namespace == "";
  }

  // ---------------------------------------------------------------------------
  // Exposures
  // ---------------------------------------------------------------------------

  predicate OverrideOk(o: Override) {
    (o.group != "" || o.description != "" || o.names != map[]) && (o.group != "" ==> DnsLabel(o.group))
  }

  predicate ProjectGroupsOk(p: Option<ProjectGroups>, e: Exposure) {
    p.Some? ==> forall c :: c in p.value.overrides ==>
      c in e.clusters && forall n :: n in p.value.overrides[c] ==> OverrideOk(p.value.overrides[c][n])
  }

  /** What an exposure allows of a group, by how its traffic arrives. */
  predicate ArrivalOk(e: Exposure, g: Group) {
    && (e.arrival.CloudflareTunnel? ==> !g.crossCluster && !g.recordElsewhere)
    && (forall d :: d in g.domains ==> (d.dnsElsewhere ==> e.arrival.CloudflareTunnel?) && WafOk(d, e.arrival))
  }

  ghost predicate ClusterOk(e: Exposure, c: Cluster) {
    && (c.class_ != "" ==> c.class_ != e.class_)
    && c.groups != map[]
    && forall n :: n in c.groups ==> GroupOk(c.groups[n]) && ArrivalOk(e, c.groups[n])
  }

  ghost predicate ExposureOk(e: Exposure) {
    && !e.arrival.OtherArrival?
    && (e.accounts != [] ==> e.arrival.CloudflareTunnel?)
    && !RepeatFound(e.accounts)
    && e.class_ != "" && e.clusters != map[]
    && ProjectGroupsOk(e.projectGroups, e)
    && forall c :: c in e.clusters ==> ClusterOk(e, e.clusters[c])
  }

  method ValidateCluster(e: Exposure, c: Cluster) returns (ok: bool)
    ensures ok <==> ClusterOk(e, c)
  {
    if (c.class_ != "" && c.class_ == e.class_) || c.groups == map[] {
      return false;
    }
    var names := Sorting.CollectKeys(c.groups.Keys);
    for i := 0 to |names|
      invariant forall k :: 0 <= k < i ==> GroupOk(c.groups[names[k]]) && ArrivalOk(e, c.groups[names[k]])
    {
      assert names[i] in c.groups;
      var fine := ValidateGroup(c.groups[names[i]]);
      if !fine || !ArrivalOk(e, c.groups[names[i]]) {
        return false;
      }
    }
    forall n | n in c.groups ensures GroupOk(c.groups[n]) && ArrivalOk(e, c.groups[n]) {
      assert n in names;
    }
    ok := true;
  }

  method ValidateClusters(e: Exposure) returns (ok: bool)
    ensures ok <==> forall c :: c in e.clusters ==> ClusterOk(e, e.clusters[c])
  {
    hide ClusterOk, Sorting.Sorted, Sorting.Distinct;
    var names := Sorting.CollectKeys(e.clusters.Keys);
    for i := 0 to |names|
      invariant forall k :: 0 <= k < i ==> ClusterOk(e, e.clusters[names[k]])
    {
      assert names[i] in names;
      var fine := ValidateCluster(e, e.clusters[names[i]]);
      if !fine {
        return false;
      }
    }
    forall c | c in e.clusters ensures ClusterOk(e, e.clusters[c]) {
      assert c in names;
    }
    ok := true;
  }

  method ValidateExposure(e: Exposure) returns (ok: bool)
    ensures ok <==> ExposureOk(e)
  {
    hide FirstRepeat, ClusterOk, ProjectGroupsOk;
    if e.arrival.OtherArrival? || (|e.accounts| > 0 && !e.arrival.CloudflareTunnel?) {
      return false;
    }
    var dup := FirstDuplicate(e.accounts);
    if dup != "" || e.class_ == "" || e.clusters == map[] || !ProjectGroupsOk(e.projectGroups, e) {
      return false;
    }
    ok := ValidateClusters(e);
  }

  // ---------------------------------------------------------------------------
  // The groups of an exposure, in traversal order
  // ---------------------------------------------------------------------------

  function ElsewhereHosts(domains: seq<Domain>): seq<string> {
    if domains == [] then []
    else
      var last := domains[|domains| - 1];
      ElsewhereHosts(domains[..|domains| - 1]) + (if last.dnsElsewhere then [last.host] else [])
  }

  function WafOffHosts(domains: seq<Domain>): seq<string> {
    if domains == [] then []
    else
      var last := domains[|domains| - 1];
      WafOffHosts(domains[..|domains| - 1]) + (if last.waf == WAF_OFF then [last.host] else [])
  }

  /** A group as Derive reads it. */
  function ToDerive(name: string, cluster: string, g: Group): D.Group {
    D.Group(name, cluster, HostsOf(g.domains), g.routeNamespaces, ElsewhereHosts(g.domains), WafOffHosts(g.domains))
  }

  function ClusterGroups(before: seq<D.Group>, cluster: string, groups: map<string, Group>,
      names: seq<string>): seq<D.Group>
    requires forall n :: n in names ==> n in groups
  {
    if names == [] then before
    else
      var last := names[|names| - 1];
      ClusterGroups(before, cluster, groups, names[..|names| - 1]) + [ToDerive(last, cluster, groups[last])]
  }

  function ExposureGroups(clusters: map<string, Cluster>, names: seq<string>): seq<D.Group>
    requires forall n :: n in names ==> n in clusters
  {
    if names == [] then []
    else
      var last := names[|names| - 1];
      ClusterGroups(ExposureGroups(clusters, names[..|names| - 1]), last, clusters[last].groups,
        Sorting.SortedKeys(clusters[last].groups.Keys))
  }

  function GroupsOf(e: Exposure): seq<D.Group> {
    ExposureGroups(e.clusters, Sorting.SortedKeys(e.clusters.Keys))
  }

  method CollectClusterGroups(before: seq<D.Group>, cluster: string, groups: map<string, Group>)
    returns (out: seq<D.Group>)
    ensures out == ClusterGroups(before, cluster, groups, Sorting.SortedKeys(groups.Keys))
  {
    var names := Sorting.CollectKeys(groups.Keys);
    out := before;
    for i := 0 to |names|
      invariant out == ClusterGroups(before, cluster, groups, names[..i])
    {
      assert names[..i + 1][..i] == names[..i] && names[i] in names;
      out := out + [ToDerive(names[i], cluster, groups[names[i]])];
    }
    assert names[..|names|] == names;
  }

  lemma ExposureGroupsStep(clusters: map<string, Cluster>, names: seq<string>, i: nat)
    requires i < |names| && forall n :: n in names ==> n in clusters
    ensures names[i] in clusters
    ensures ExposureGroups(clusters, names[..i + 1])
         == ClusterGroups(ExposureGroups(clusters, names[..i]), names[i], clusters[names[i]].groups,
              Sorting.SortedKeys(clusters[names[i]].groups.Keys))
  {
    assert names[..i + 1][..i] == names[..i] && names[i] in names;
  }

  method CollectGroups(e: Exposure) returns (out: seq<D.Group>)
    ensures out == GroupsOf(e)
  {
    var names := Sorting.CollectKeys(e.clusters.Keys);
    out := [];
    assert names[..0] == [] && names[..|names|] == names;
    hide ClusterGroups, Sorting.Sorted, Sorting.Distinct;
    for i := 0 to |names|
      invariant out == ExposureGroups(e.clusters, names[..i])
    {
      ExposureGroupsStep(e.clusters, names, i);
      hide *;
      out := CollectClusterGroups(out, names[i], e.clusters[names[i]].groups);
    }
  }

  lemma {:induction false} ClusterGroupsMembers(before: seq<D.Group>, cluster: string, groups: map<string, Group>,
      names: seq<string>)
    requires forall n :: n in names ==> n in groups
    ensures forall g :: g in ClusterGroups(before, cluster, groups, names) <==>
      g in before || exists n :: n in names && g == ToDerive(n, cluster, groups[n])
  {
    if names != [] {
      var front, last := names[..|names| - 1], names[|names| - 1];
      assert names == front + [last];
      ClusterGroupsMembers(before, cluster, groups, front);
    }
  }

  lemma {:induction false} ExposureGroupsMembers(clusters: map<string, Cluster>, names: seq<string>)
    requires forall n :: n in names ==> n in clusters
    ensures forall g :: g in ExposureGroups(clusters, names) <==>
      exists c, n :: c in names && n in clusters[c].groups && g == ToDerive(n, c, clusters[c].groups[n])
  {
    if names != [] {
      var front, last := names[..|names| - 1], names[|names| - 1];
      assert names == front + [last];
      ExposureGroupsMembers(clusters, front);
      ClusterGroupsMembers(ExposureGroups(clusters, front), last, clusters[last].groups,
        Sorting.SortedKeys(clusters[last].groups.Keys));
    }
  }

  lemma GroupsOfMembers(e: Exposure)
    ensures forall g :: g in GroupsOf(e) <==>
      exists c, n :: c in e.clusters && n in e.clusters[c].groups && g == ToDerive(n, c, e.clusters[c].groups[n])
  {
    ExposureGroupsMembers(e.clusters, Sorting.SortedKeys(e.clusters.Keys));
  }

  // ---------------------------------------------------------------------------
  // One claim per cluster and name
  // ---------------------------------------------------------------------------

  function SiteKey(cluster: string, host: string): string {
    cluster + "|" + host
  }

  function HostKeys(g: D.Group): (keys: seq<string>)
    ensures |keys| == |g.hosts|
    ensures forall i :: 0 <= i < |keys| ==> keys[i] == SiteKey(g.cluster, g.hosts[i])
  {
    seq(|g.hosts|, i requires 0 <= i < |g.hosts| => SiteKey(g.cluster, g.hosts[i]))
  }

  function GroupKeys(before: seq<string>, gs: seq<D.Group>): seq<string> {
    if gs == [] then before else GroupKeys(before, gs[..|gs| - 1]) + HostKeys(gs[|gs| - 1])
  }

  /** Every (cluster, name) site of the catalog, in the order it is walked. */
  function SiteKeys(es: Exposures, names: seq<string>): seq<string>
    requires forall n :: n in names ==> n in es
  {
    if names == [] then [] else GroupKeys(SiteKeys(es, names[..|names| - 1]), GroupsOf(es[names[|names| - 1]]))
  }

  function AllSiteKeys(es: Exposures): seq<string> {
    SiteKeys(es, Sorting.SortedKeys(es.Keys))
  }

  lemma DistinctPrefix<T>(s: seq<T>, t: seq<T>)
    requires Sorting.Distinct(s + t)
    ensures Sorting.Distinct(s)
  {
    forall i, j | 0 <= i < j < |s| ensures s[i] != s[j] {
      assert (s + t)[i] == s[i] && (s + t)[j] == s[j];
    }
  }

  method ClaimHosts(g: D.Group, seen0: set<string>, ghost before: seq<string>) returns (ok: bool, seen: set<string>)
    requires seen0 == AsSet(before) && Sorting.Distinct(before)
    ensures ok <==> Sorting.Distinct(before + HostKeys(g))
    ensures ok ==> seen == AsSet(before + HostKeys(g))
  {
    seen := seen0;
    ghost var keys, acc := HostKeys(g), before;
    for i := 0 to |g.hosts|
      invariant acc == before + keys[..i]
      invariant seen == AsSet(acc) && Sorting.Distinct(acc)
    {
      var key := SiteKey(g.cluster, g.hosts[i]);
      if key in seen {
        ghost var at :| 0 <= at < |acc| && acc[at] == key;
        assert (before + keys)[at] == acc[at] && (before + keys)[|before| + i] == key;
        return false, seen;
      }
      seen := seen + {key};
      acc := acc + [key];
    }
    assert keys[..|g.hosts|] == keys;
    ok := true;
  }

  lemma {:induction false} GroupKeysGrow(before: seq<string>, gs: seq<D.Group>, n: nat)
    requires n <= |gs| && Sorting.Distinct(GroupKeys(before, gs))
    ensures Sorting.Distinct(GroupKeys(before, gs[..n]))
    decreases |gs|
  {
    if n < |gs| {
      var front := gs[..|gs| - 1];
      DistinctPrefix(GroupKeys(before, front), HostKeys(gs[|gs| - 1]));
      GroupKeysGrow(before, front, n);
      assert front[..n] == gs[..n];
    } else {
      assert gs[..n] == gs;
    }
  }

  method ClaimGroups(gs: seq<D.Group>, seen0: set<string>, ghost before: seq<string>)
    returns (ok: bool, seen: set<string>)
    requires seen0 == AsSet(before) && Sorting.Distinct(before)
    ensures ok <==> Sorting.Distinct(GroupKeys(before, gs))
    ensures ok ==> seen == AsSet(GroupKeys(before, gs))
  {
    seen, ok := seen0, true;
    ghost var acc := before;
    for i := 0 to |gs|
      invariant ok && acc == GroupKeys(before, gs[..i])
      invariant seen == AsSet(acc) && Sorting.Distinct(acc)
    {
      assert gs[..i + 1][..i] == gs[..i];
      ok, seen := ClaimHosts(gs[i], seen, acc);
      acc := acc + HostKeys(gs[i]);
      if !ok {
        if Sorting.Distinct(GroupKeys(before, gs)) {
          GroupKeysGrow(before, gs, i + 1);
        }
        return;
      }
    }
    assert gs[..|gs|] == gs;
  }

  lemma {:induction false} SiteKeysGrow(es: Exposures, names: seq<string>, n: nat)
    requires forall m :: m in names ==> m in es
    requires n <= |names| && Sorting.Distinct(SiteKeys(es, names))
    ensures Sorting.Distinct(SiteKeys(es, names[..n]))
    decreases |names|
  {
    if n < |names| {
      var front := names[..|names| - 1];
      var gs := GroupsOf(es[names[|names| - 1]]);
      GroupKeysGrow(SiteKeys(es, front), gs, 0);
      SiteKeysGrow(es, front, n);
      assert front[..n] == names[..n];
    } else {
      assert names[..n] == names;
    }
  }

  lemma SiteKeysStep(es: Exposures, names: seq<string>, i: nat)
    requires i < |names| && forall n :: n in names ==> n in es
    ensures names[i] in es
    ensures SiteKeys(es, names[..i + 1]) == GroupKeys(SiteKeys(es, names[..i]), GroupsOf(es[names[i]]))
  {
    assert names[..i + 1][..i] == names[..i] && names[i] in names;
  }

  /** `validateDomainsAreUnique`: no (cluster, name) key twice. */
  method ValidateDomainsAreUnique(es: Exposures) returns (ok: bool)
    ensures ok <==> Sorting.Distinct(AllSiteKeys(es))
  {
    var names := Sorting.CollectKeys(es.Keys);
    var seen: set<string> := {};
    ghost var acc: seq<string> := [];
    hide GroupsOf, GroupKeys, Sorting.Sorted;
    for i := 0 to |names|
      invariant acc == SiteKeys(es, names[..i])
      invariant seen == AsSet(acc) && Sorting.Distinct(acc)
    {
      SiteKeysStep(es, names, i);
      var gs := CollectGroups(es[names[i]]);
      ok, seen := ClaimGroups(gs, seen, acc);
      acc := GroupKeys(acc, gs);
      if !ok {
        if Sorting.Distinct(AllSiteKeys(es)) {
          SiteKeysGrow(es, names, i + 1);
        }
        return;
      }
    }
    assert names[..|names|] == names;
    ok := true;
  }

  ghost predicate ValidCatalog(version: int, es: Exposures) {
    && version == 1 && es != map[]
    && (forall n :: n in es ==> ExposureOk(es[n]))
    && Sorting.Distinct(AllSiteKeys(es))
  }

  method ValidateCatalog(version: int, es: Exposures) returns (ok: bool)
    ensures ok <==> ValidCatalog(version, es)
  {
    if version != 1 || es == map[] {
      return false;
    }
    hide ExposureOk, AllSiteKeys, Sorting.Sorted, Sorting.Distinct;
    var names := Sorting.CollectKeys(es.Keys);
    for i := 0 to |names|
      invariant forall k :: 0 <= k < i ==> ExposureOk(es[names[k]])
    {
      assert names[i] in names;
      var fine := ValidateExposure(es[names[i]]);
      if !fine {
        return false;
      }
    }
    forall n | n in es ensures ExposureOk(es[n]) {
      assert n in names;
    }
    ok := ValidateDomainsAreUnique(es);
  }
}
