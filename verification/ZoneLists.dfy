/**
 The last step of the derived cache and WAF lists (cloudflare/edgespec/derive.go): each listed zone's hosts are sorted
 and compacted in place, so a zone that is listed again meets what the first pass left of them.
 */
module ZoneLists {
  import opened Text
  import opened Sorting

  function Blanks(n: nat): (r: seq<string>)
    ensures |r| == n && forall i :: 0 <= i < n ==> r[i] == ""
  {
    seq(n, i => "")
  }

  /** What one pass leaves in the list: the sorted values without repetition, the rest of the places cleared. */
  function Swept(list: seq<string>): seq<string> {
    CompactLength(Sort(StringLeq, list));
    SortPermutes(StringLeq, list);
    var kept := Compact(Sort(StringLeq, list));
    kept + Blanks(|list| - |kept|)
  }

  function Passed(list: seq<string>, n: nat): seq<string> {
    if n == 0 then list else Swept(Passed(list, n - 1))
  }

  /** The hosts read off at pass n. */
  function ListAfter(list: seq<string>, n: nat): seq<string>
    requires n > 0
  {
    Compact(Sort(StringLeq, Passed(list, n - 1)))
  }

  function ListAt(byZone: map<string, seq<string>>, zone: string): seq<string> {
    if zone in byZone then byZone[zone] else []
  }

  /** The lists of the zones, each as its last pass leaves it. */
  ghost predicate Listed(zones: seq<string>, byZone: map<string, seq<string>>, out: map<string, seq<string>>) {
    && out.Keys == AsSet(zones)
    && forall z :: z in out ==> multiset(zones)[z] > 0 && out[z] == ListAfter(ListAt(byZone, z), multiset(zones)[z])
  }

  lemma PassedStep(zones: seq<string>, z: string, before: map<string, seq<string>>, now: map<string, seq<string>>)
    requires forall y :: ListAt(now, y) == Passed(ListAt(before, y), multiset(zones)[y])
    ensures var next := now[z := Swept(ListAt(now, z))];
      forall y :: ListAt(next, y) == Passed(ListAt(before, y), multiset(zones + [z])[y])
  {
    var next := now[z := Swept(ListAt(now, z))];
    hide Swept, ListAt;
    assert multiset(zones + [z]) == multiset(zones) + multiset{z};
    forall y ensures ListAt(next, y) == Passed(ListAt(before, y), multiset(zones + [z])[y]) {
      ListAtUpdate(now, z, Swept(ListAt(now, z)), y);
    }
  }

  lemma ListedStep(zones: seq<string>, z: string, before: map<string, seq<string>>, now: map<string, seq<string>>,
      out: map<string, seq<string>>)
    requires Listed(zones, before, out)
    requires ListAt(now, z) == Passed(ListAt(before, z), multiset(zones)[z])
    ensures Listed(zones + [z], before, out[z := Compact(Sort(StringLeq, ListAt(now, z)))])
  {
    hide Compact, Sort, Passed, ListAt;
    assert multiset(zones + [z]) == multiset(zones) + multiset{z};
  }

  lemma ListAtUpdate(byZone: map<string, seq<string>>, z: string, list: seq<string>, y: string)
    ensures ListAt(byZone[z := list], y) == if y == z then list else ListAt(byZone, y)
  {
  }

  /** The loop over the listed zones. */
  method SortLists(zones: seq<string>, byZone0: map<string, seq<string>>) returns (out: map<string, seq<string>>)
    ensures Listed(zones, byZone0, out)
  {
    out := map[];
    var byZone := byZone0;
    hide ListAt, Swept, Compact, Sort;
    for i := 0 to |zones|
      invariant Listed(zones[..i], byZone0, out)
      invariant forall y :: ListAt(byZone, y) == Passed(ListAt(byZone0, y), multiset(zones[..i])[y])
    {
      assert zones[..i + 1] == zones[..i] + [zones[i]];
      ListedStep(zones[..i], zones[i], byZone0, byZone, out);
      PassedStep(zones[..i], zones[i], byZone0, byZone);
      hide *;
      var kept, left := SweepList(ListAt(byZone, zones[i]));
      out := out[zones[i] := kept];
      byZone := byZone[zones[i] := left];
    }
    assert zones[..|zones|] == zones;
  }

  /** Sort and compact in place: what is read off, and what the list then holds. */
  method SweepList(list: seq<string>) returns (kept: seq<string>, left: seq<string>)
    ensures kept == Compact(Sort(StringLeq, list)) && left == Swept(list)
  {
    var sorted := SortStrings(list);
    CompactLength(sorted);
    SortPermutes(StringLeq, list);
    kept := Compact(sorted);
    left := kept + Blanks(|list| - |kept|);
  }

  // ---------------------------------------------------------------------------
  // What the passes read off
  // ---------------------------------------------------------------------------

  lemma KeptIs(list: seq<string>)
    ensures var kept := Compact(Sort(StringLeq, list));
      && |kept| <= |list| && Distinct(kept) && (forall x :: x in kept <==> x in list)
      && (|kept| == |list| <==> Distinct(list))
  {
    StringLeqTotal();
    SortSorted(StringLeq, list);
    SortPermutes(StringLeq, list);
    SortMembers(StringLeq, list);
    CompactLength(Sort(StringLeq, list));
    CompactSorted(Sort(StringLeq, list));
    hide *;
    RepeatsAreNeighbours(list);
  }

  lemma SweptIs(list: seq<string>)
    ensures |Compact(Sort(StringLeq, list))| <= |list|
    ensures Swept(list) == Compact(Sort(StringLeq, list)) + Blanks(|list| - |Compact(Sort(StringLeq, list))|)
  {
    KeptIs(list);
    hide Compact, Sort, StringLeq, Distinct;
  }

  lemma SweptHolds(list: seq<string>)
    ensures AsSet(Swept(list)) == AsSet(list) + if Distinct(list) then {} else {""}
    ensures Distinct(list) ==> Distinct(Swept(list))
  {
    KeptIs(list);
    SweptIs(list);
    hide Compact, Sort, StringLeq, Swept, Distinct;
    var kept := Compact(Sort(StringLeq, list));
    var blanks := Blanks(|list| - |kept|);
    if |blanks| > 0 {
      assert blanks[0] in blanks && forall x :: x in kept + blanks <==> x in kept || x == "";
    } else {
      assert kept + blanks == kept;
    }
  }

  lemma {:induction false} PassedHolds(list: seq<string>, n: nat)
    ensures AsSet(Passed(list, n)) == AsSet(list) + if n == 0 || Distinct(list) then {} else {""}
    ensures Distinct(list) ==> Distinct(Passed(list, n))
  {
    hide Swept, Distinct;
    if n > 0 {
      PassedHolds(list, n - 1);
      SweptHolds(Passed(list, n - 1));
    }
  }

  /** A zone listed more than once, with a repeated host, gets the empty string among its hosts. */
  lemma ListIs(list: seq<string>, n: nat)
    requires n > 0
    ensures ListAfter(list, n) == SortedKeys(AsSet(list) + if n == 1 || Distinct(list) then {} else {""})
  {
    hide Compact, Sort, Passed, Distinct, AsSet;
    PassedHolds(list, n - 1);
    SortedUniqueIsSet(Passed(list, n - 1));
  }

  /** Of hosts that are not empty the list is the sorted set exactly when the zone is listed once or no host repeats. */
  lemma ListRightIff(list: seq<string>, n: nat)
    requires n > 0 && "" !in list
    ensures ListAfter(list, n) == SortedKeys(AsSet(list)) <==> n == 1 || Distinct(list)
  {
    ListIs(list, n);
    hide ListAfter, Distinct;
    assert AsSet(list) + {} == AsSet(list);
    assert "" !in SortedKeys(AsSet(list)) && "" in SortedKeys(AsSet(list) + {""});
  }
}
