/** The derived managed WAF (`deriveWAF`, `AddWAFHosts`, cloudflare/config/config.go): which exact hosts it covers. */
module ManagedWaf {
  import opened Text
  import opened ZoneRecords
  import opened ConfigModel
  import CatalogModel
  import Sorting
  import Zones

  predicate WafEnabled(z: Zone) {
    z.waf == Some(true)
  }

  predicate WafCovered(e: Record) {
    e.proxied && (e.waf.None? || e.waf.value)
  }

  /** An opt-out gives its reason, and only an opt-out gives one. */
  predicate OptOutOk(e: Record) {
    && !(e.proxied && e.waf == Some(false) && !CatalogModel.HasText(e.wafReason))
    && !(e.wafReason != "" && (e.waf.None? || e.waf.value))
  }

  predicate RecordTaken(e: Record) {
    OptOutOk(e) && (WafCovered(e) ==> !HasPrefix(e.name, "*."))
  }

  function CoveredNames(records: seq<Record>): (r: seq<string>)
    ensures forall n :: n in r <==> exists e :: e in records && WafCovered(e) && e.name == n
  {
    if records == [] then []
    else
      var front, e := CoveredNames(records[..|records| - 1]), records[|records| - 1];
      assert records == records[..|records| - 1] + [e];
      if WafCovered(e) then front + [e.name] else front
  }

  function ListAt(byZone: map<string, seq<string>>, name: string): seq<string> {
    if name in byZone then byZone[name] else []
  }

  function WafList(z: Zone, fromCatalog: seq<string>): seq<string> {
    Sorting.SortedKeys(AsSet(fromCatalog + CoveredNames(z.records)))
  }

  ghost predicate ZoneWafOk(z: Zone) {
    WafEnabled(z) ==> forall e :: e in z.records ==> RecordTaken(e)
  }

  function WithWafAt(z: Zone, fromCatalog: seq<string>): Zone {
    if WafEnabled(z) then z.(wafHosts := WafList(z, fromCatalog)) else z
  }

  function WithWaf(zones: map<string, Zone>, byZone: map<string, seq<string>>): map<string, Zone> {
    map n | n in zones :: WithWafAt(zones[n], ListAt(byZone, n))
  }

  /** The zones after filling them in name order up to the first one that is refused. */
  ghost function WafFilled(zones: map<string, Zone>, byZone: map<string, seq<string>>): map<string, Zone> {
    map n | n in zones :: if AllOkUpTo(zones, n) then WithWafAt(zones[n], ListAt(byZone, n)) else zones[n]
  }

  ghost predicate AllOkUpTo(zones: map<string, Zone>, n: string) {
    forall m :: m in zones && StringLeq(m, n) ==> ZoneWafOk(zones[m])
  }

  lemma WafAllFilled(zones: map<string, Zone>, byZone: map<string, seq<string>>)
    requires forall n :: n in zones ==> ZoneWafOk(zones[n])
    ensures WafFilled(zones, byZone) == WithWaf(zones, byZone)
  {
    hide ZoneWafOk, WithWafAt;
  }

  /** The zones named so far have been filled, the others not. */
  ghost predicate FilledSoFar(before: map<string, Zone>, now: map<string, Zone>, done: seq<string>,
      byZone: map<string, seq<string>>)
  {
    && now.Keys == before.Keys
    && (forall n :: n in done && n in before ==> ZoneWafOk(before[n]))
    && forall n :: n in before ==> now[n] == if n in done then WithWafAt(before[n], ListAt(byZone, n)) else before[n]
  }

  lemma FillStep(before: map<string, Zone>, now: map<string, Zone>, done: seq<string>,
      byZone: map<string, seq<string>>, n: string)
    requires FilledSoFar(before, now, done, byZone) && n in before && n !in done && ZoneWafOk(before[n])
    ensures FilledSoFar(before, now[n := WithWafAt(now[n], ListAt(byZone, n))], done + [n], byZone)
  {
    hide ZoneWafOk, WithWafAt;
  }

  lemma FilledAll(before: map<string, Zone>, now: map<string, Zone>, done: seq<string>,
      byZone: map<string, seq<string>>)
    requires FilledSoFar(before, now, done, byZone) && forall n :: n in before ==> n in done
    ensures now == WithWaf(before, byZone) && forall n :: n in before ==> ZoneWafOk(before[n])
  {
    hide ZoneWafOk, WithWafAt;
  }

  lemma NameOrder(names: seq<string>, j: nat, k: nat)
    requires Sorting.Sorted(StringLeq, names) && Sorting.Distinct(names) && j < |names| && k < |names|
    ensures StringLeq(names[j], names[k]) <==> j <= k
  {
    Sorting.StringLeqTotal();
    hide StringLeq;
    if j > k {
      assert StringLeq(names[k], names[j]) && names[k] != names[j];
    }
  }

  lemma NextName(names: seq<string>, i: nat)
    requires Sorting.Distinct(names) && i < |names|
    ensures names[i] in names && names[i] !in names[..i] && names[..i + 1] == names[..i] + [names[i]]
  {
  }

  lemma NamesBefore(names: seq<string>, i: nat, n: string)
    requires Sorting.Sorted(StringLeq, names) && Sorting.Distinct(names) && i < |names| && n in names
    ensures n in names[..i] <==> !StringLeq(names[i], n)
  {
    var k :| 0 <= k < |names| && names[k] == n;
    NameOrder(names, i, k);
    hide StringLeq, Sorting.Sorted;
    if k < i {
      assert names[..i][k] == n;
    }
  }

  /** A zone has been filled exactly when no zone up to it in name order is refused. */
  lemma FilledBefore(before: map<string, Zone>, now: map<string, Zone>, done: seq<string>, stop: string,
      byZone: map<string, seq<string>>, n: string)
    requires FilledSoFar(before, now, done, byZone) && stop in before && !ZoneWafOk(before[stop]) && n in before
    requires forall m :: m in before ==> (m in done <==> !StringLeq(stop, m))
    ensures n in done <==> AllOkUpTo(before, n)
  {
    hide ZoneWafOk, WithWafAt;
    if n in done {
      forall m | m in before && StringLeq(m, n) ensures ZoneWafOk(before[m]) {
        if StringLeq(stop, m) {
          CompareTransitive(stop, m, n);
        }
      }
    }
  }

  lemma FilledIs(before: map<string, Zone>, now: map<string, Zone>, done: seq<string>, byZone: map<string, seq<string>>)
    requires FilledSoFar(before, now, done, byZone) && forall n :: n in before ==> (n in done <==> AllOkUpTo(before, n))
    ensures now == WafFilled(before, byZone)
  {
    hide AllOkUpTo, ZoneWafOk, WithWafAt;
  }

  lemma FilledUpTo(before: map<string, Zone>, now: map<string, Zone>, names: seq<string>, i: nat,
      byZone: map<string, seq<string>>)
    requires Sorting.Sorted(StringLeq, names) && Sorting.Distinct(names) && forall n :: n in names <==> n in before
    requires i < |names| && FilledSoFar(before, now, names[..i], byZone) && !ZoneWafOk(before[names[i]])
    ensures now == WafFilled(before, byZone)
  {
    hide *;
    var stop, done := names[i], names[..i];
    assert stop in before;
    forall m | m in before ensures m in done <==> !StringLeq(stop, m) {
      NamesBefore(names, i, m);
    }
    forall n | n in before ensures n in done <==> AllOkUpTo(before, n) {
      FilledBefore(before, now, done, stop, byZone, n);
    }
    FilledIs(before, now, done, byZone);
  }

  /** One zone's list, or a refused record. */
  method ZoneWafHosts(z: Zone, fromCatalog: seq<string>) returns (ok: bool, hosts: seq<string>)
    ensures ok <==> forall e :: e in z.records ==> RecordTaken(e)
    ensures ok ==> hosts == WafList(z, fromCatalog)
  {
    hosts := fromCatalog;
    for i := 0 to |z.records|
      invariant forall k :: 0 <= k < i ==> RecordTaken(z.records[k])
      invariant hosts == fromCatalog + CoveredNames(z.records[..i])
    {
      var e := z.records[i];
      assert e in z.records;
      assert z.records[..i + 1][..i] == z.records[..i];
      if !OptOutOk(e) {
        return false, hosts;
      }
      if WafCovered(e) {
        if HasPrefix(e.name, "*.") {
          return false, hosts;
        }
        hosts := hosts + [e.name];
      }
    }
    assert z.records[..|z.records|] == z.records;
    hosts := Sorting.SortedUnique(hosts);
    ok := true;
  }

  // ---------------------------------------------------------------------------
  // AddWAFHosts
  // ---------------------------------------------------------------------------

  /** `validateExactWAFHost`. */
  predicate ExactWafHost(zone: string, host: string) {
    host != "" && IsLower(host) && NoneOf(host, "*/:\"\\ ") && !HasSuffix(host, ".") && Zones.Holds(zone, host)
  }

  datatype Call = Call(zone: string, hosts: seq<string>)

  predicate Admits(zones: map<string, Zone>, c: Call) {
    c.zone in zones && WafEnabled(zones[c.zone]) && forall i :: 0 <= i < |c.hosts| ==> ExactWafHost(c.zone, c.hosts[i])
  }

  function WithHosts(z: Zone, hosts: seq<string>): Zone {
    z.(wafHosts := Sorting.SortedKeys(AsSet(z.wafHosts + hosts)))
  }

  /** The zones after one call; a refused call changes nothing. */
  function AfterCall(zones: map<string, Zone>, c: Call): map<string, Zone> {
    if Admits(zones, c) then zones[c.zone := WithHosts(zones[c.zone], c.hosts)] else zones
  }

  function AfterCalls(zones: map<string, Zone>, calls: seq<Call>): map<string, Zone> {
    if calls == [] then zones else AfterCall(AfterCalls(zones, calls[..|calls| - 1]), calls[|calls| - 1])
  }

  /** What an enabled zone's list promises: sorted, no repetition, no wildcard, all of it inside the zone. */
  ghost predicate ListOk(name: string, z: Zone) {
    WafEnabled(z) ==>
      && Sorting.Sorted(StringLeq, z.wafHosts) && Sorting.Distinct(z.wafHosts)
      && forall h :: h in z.wafHosts ==> HostOk(name, h)
  }

  predicate HostOk(zone: string, host: string) {
    IsLower(host) && '*' !in host && '/' !in host && ':' !in host && Zones.Holds(zone, host)
  }

  ghost predicate ListsOk(zones: map<string, Zone>) {
    forall n :: n in zones ==> ListOk(n, zones[n])
  }

  /** The later zones are the earlier ones with nothing but WAF hosts added. */
  ghost predicate Grown(before: map<string, Zone>, after: map<string, Zone>) {
    && after.Keys == before.Keys
    && forall n :: n in before ==>
        && after[n] == before[n].(wafHosts := after[n].wafHosts)
        && AsSet(before[n].wafHosts) <= AsSet(after[n].wafHosts)
  }

  lemma ExactIsOk(zone: string, host: string)
    requires ExactWafHost(zone, host)
    ensures HostOk(zone, host)
  {
    hide IsLower, Zones.Holds;
    forall i | 0 <= i < |host| ensures host[i] != '*' && host[i] != '/' && host[i] != ':' {
      assert host[i] !in "*/:\"\\ ";
      assert "*/:\"\\ "[0] == '*' && "*/:\"\\ "[1] == '/' && "*/:\"\\ "[2] == ':';
    }
  }

  lemma AddedList(zone: string, z: Zone, hosts: seq<string>)
    requires ListOk(zone, z) && forall i :: 0 <= i < |hosts| ==> ExactWafHost(zone, hosts[i])
    ensures ListOk(zone, WithHosts(z, hosts))
    ensures AsSet(z.wafHosts) <= AsSet(WithHosts(z, hosts).wafHosts)
    ensures forall h :: h in hosts ==> h in WithHosts(z, hosts).wafHosts
  {
    forall h | h in hosts ensures HostOk(zone, h) {
      var i :| 0 <= i < |hosts| && hosts[i] == h;
      ExactIsOk(zone, hosts[i]);
    }
    hide HostOk, ExactWafHost;
  }

  lemma CallKeeps(zones: map<string, Zone>, c: Call)
    requires ListsOk(zones)
    ensures ListsOk(AfterCall(zones, c)) && Grown(zones, AfterCall(zones, c))
    ensures Admits(zones, c) ==> forall h :: h in c.hosts ==> h in AfterCall(zones, c)[c.zone].wafHosts
  {
    hide ListOk, ExactWafHost, WafEnabled;
    if Admits(zones, c) {
      AddedList(c.zone, zones[c.zone], c.hosts);
    }
  }

  lemma GrownTransitive(a: map<string, Zone>, b: map<string, Zone>, c: map<string, Zone>)
    requires Grown(a, b) && Grown(b, c)
    ensures Grown(a, c)
  {
    forall n | n in a
      ensures c[n] == a[n].(wafHosts := c[n].wafHosts) && AsSet(a[n].wafHosts) <= AsSet(c[n].wafHosts)
    {
      assert n in b && b[n] == a[n].(wafHosts := b[n].wafHosts) && c[n] == b[n].(wafHosts := c[n].wafHosts);
    }
  }

  /** Over any calls the lists keep their promise and never shrink, and nothing else of a zone changes. */
  lemma {:induction false} CallsKeep(zones: map<string, Zone>, calls: seq<Call>)
    requires ListsOk(zones)
    ensures ListsOk(AfterCalls(zones, calls)) && Grown(zones, AfterCalls(zones, calls))
  {
    hide ListsOk, AfterCall;
    if calls == [] {
      GrownSelf(zones);
    } else {
      hide Grown;
      var front := AfterCalls(zones, calls[..|calls| - 1]);
      CallsKeep(zones, calls[..|calls| - 1]);
      CallKeeps(front, calls[|calls| - 1]);
      GrownTransitive(zones, front, AfterCalls(zones, calls));
    }
  }

  lemma GrownSelf(zones: map<string, Zone>)
    ensures Grown(zones, zones)
  {
  }
}
