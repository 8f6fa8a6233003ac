/** Zone lookup (`ZoneOf`, cloudflare/edgespec/derive.go): the longest zone that is the name or a parent of it. */
module Zones {
  import opened Text

  predicate Holds(zone: string, name: string) {
    name == zone || HasSuffix(name, "." + zone)
  }

  function NameOf(host: string): string {
    ToLower(TrimPrefix(host, "*."))
  }

  function ZoneOf(zones: seq<string>, host: string): string {
    if zones == [] then ""
    else
      var best, zone := ZoneOf(zones[..|zones| - 1], host), zones[|zones| - 1];
      if Holds(zone, NameOf(host)) && |zone| > |best| then zone else best
  }

  method FindZone(zones: seq<string>, host: string) returns (best: string)
    ensures best == ZoneOf(zones, host)
  {
    var name := NameOf(host);
    best := "";
    for i := 0 to |zones|
      invariant best == ZoneOf(zones[..i], host)
    {
      assert zones[..i + 1][..i] == zones[..i];
      if Holds(zones[i], name) && |zones[i]| > |best| {
        best := zones[i];
      }
    }
    assert zones[..|zones|] == zones;
  }

  /** The zone of a name among a set of zones: the longest that holds it, or "" when none does. */
  ghost predicate IsZoneOf(zones: set<string>, host: string, zone: string) {
    if zone == "" then forall z :: z in zones && Holds(z, NameOf(host)) ==> z == ""
    else zone in zones && Holds(zone, NameOf(host)) && forall z :: z in zones && Holds(z, NameOf(host)) ==>
      |z| <= |zone|
  }

  lemma {:induction false} ZoneOfIs(zones: seq<string>, host: string)
    ensures IsZoneOf(AsSet(zones), host, ZoneOf(zones, host))
  {
    if zones != [] {
      var front, last := zones[..|zones| - 1], zones[|zones| - 1];
      ZoneOfIs(front, host);
      assert zones == front + [last];
      assert AsSet(zones) == AsSet(front) + {last};
    }
  }

  lemma ZoneOfUnique(zones: set<string>, host: string, y: string, z: string)
    requires IsZoneOf(zones, host, y) && IsZoneOf(zones, host, z)
    ensures y == z
  {
    if y != "" && z != "" {
      var name := NameOf(host);
      assert |y| == |z|;
      if name != y && name != z {
        SuffixesNest(name, "." + y, "." + z);
        assert ("." + y)[1..] == y && ("." + z)[1..] == z;
      }
    }
  }

  /** The zone does not depend on the order in which zones are listed, nor on repetition. */
  lemma ZoneOfOrder(zones: seq<string>, others: seq<string>, host: string)
    requires AsSet(zones) == AsSet(others)
    ensures ZoneOf(zones, host) == ZoneOf(others, host)
  {
    ZoneOfIs(zones, host);
    ZoneOfIs(others, host);
    ZoneOfUnique(AsSet(zones), host, ZoneOf(zones, host), ZoneOf(others, host));
  }

  /** A part of the zones that still holds the name's zone resolves the name the same way. */
  lemma ZoneOfPart(zones: seq<string>, part: seq<string>, host: string)
    requires forall z :: z in part ==> z in zones
    requires ZoneOf(zones, host) in part
    ensures ZoneOf(part, host) == ZoneOf(zones, host)
  {
    ZoneOfIs(zones, host);
    ZoneOfIs(part, host);
    ZoneOfUnique(AsSet(part), host, ZoneOf(part, host), ZoneOf(zones, host));
  }

  lemma ZoneOfListed(zones: seq<string>, host: string)
    ensures ZoneOf(zones, host) != "" ==> ZoneOf(zones, host) in zones && Holds(ZoneOf(zones, host), NameOf(host))
  {
    ZoneOfIs(zones, host);
  }
}
