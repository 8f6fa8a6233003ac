/**
 The managed WAF rule of a zone (`ManagedWAF.validate`, cloudflare/zonespec/hardening.go): what a valid block prints.
 */
module ManagedRule {
  import opened Text
  import opened FilterParse
  import opened HostFilter
  import opened Sorting
  import HostOrder
  import ZoneRecords

  const MAX_EXPRESSION := 4096

  /** The whole zone and no host, or distinct lower-case hosts inside the zone whose expression is not too long. */
  ghost predicate BlockOk(zone: string, wholeZone: bool, hosts: seq<string>) {
    if wholeZone then hosts == []
    else
      && hosts != [] && zone != "" && IsLower(zone)
      && (forall h :: h in hosts ==> ZoneRecords.NameOk(zone, h)) && Distinct(hosts)
      && Bytes(ManagedText(wholeZone, hosts)) <= MAX_EXPRESSION
  }

  method ValidateBlock(zone: string, wholeZone: bool, hosts: seq<string>) returns (ok: bool)
    ensures ok <==> BlockOk(zone, wholeZone, hosts)
  {
    if wholeZone {
      return |hosts| == 0;
    }
    if |hosts| == 0 || zone == "" || !IsLower(zone) {
      return false;
    }
    hide ZoneRecords.NameOk, IsLower, ManagedText;
    var seen: set<string> := {};
    for i := 0 to |hosts|
      invariant seen == AsSet(hosts[..i]) && Distinct(hosts[..i])
      invariant forall k :: 0 <= k < i ==> ZoneRecords.NameOk(zone, hosts[k])
    {
      assert hosts[..i + 1] == hosts[..i] + [hosts[i]];
      DistinctSnoc(hosts[..i], hosts[i]);
      if !ZoneRecords.NameOk(zone, hosts[i]) || hosts[i] in seen {
        return false;
      }
      seen := seen + {hosts[i]};
    }
    assert hosts[..|hosts|] == hosts;
    var text := ManagedWafExpression(wholeZone, hosts);
    ok := Bytes(text) <= MAX_EXPRESSION;
  }

  lemma NoCatchAll(zone: string, host: string)
    requires ZoneRecords.NameOk(zone, host)
    ensures host != "*"
  {
    if host == "*" {
      assert TrimPrefix(host, "*.") == "*";
      assert "*"[0] in "*/:\"\\ " by {
        assert "*/:\"\\ "[0] == '*';
      }
    }
  }

  /**
   The rule of a valid block runs on every request of a whole zone, else on exactly those to a host the list matches.
   */
  lemma ValidBlockMeaning(zone: string, wholeZone: bool, hosts: seq<string>, q: Request)
    requires BlockOk(zone, wholeZone, hosts)
    ensures Holds(ManagedText(wholeZone, hosts), q) <==>
      wholeZone || exists h :: h in hosts && HostOrder.Matches(h, q.host)
  {
    hide Holds, ZoneRecords.NameOk;
    forall h | h in hosts && !wholeZone ensures h != "*" {
      NoCatchAll(zone, h);
    }
    ManagedMeaning(wholeZone, hosts, q);
  }
}
