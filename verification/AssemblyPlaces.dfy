/** Where each contribution's rules stand in an assembled phase (`Assemble`, cloudflare/rules/rules.go). */
module AssemblyPlaces {
  import opened Text
  import opened RuleSpec
  import opened Sorting
  import opened Assembly
  import opened AssemblyFacts
  import CacheRules

  /** By Order, and of one Order by Source. */
  ghost predicate InPlace(a: Contribution, b: Contribution) {
    a.order < b.order || (a.order == b.order && NotAfter(a.source, b.source))
  }

  lemma LeqIs(a: Contribution, b: Contribution)
    ensures Leq(a, b) <==> InPlace(a, b)
  {
    StringLeqIs(a.source, b.source);
  }

  /** The contributions of one Order and Source, in the order they are listed. */
  function AtSpot(cs: seq<Contribution>, order: int, source: string): seq<Contribution> {
    if cs == [] then []
    else
      var front, c := AtSpot(cs[..|cs| - 1], order, source), cs[|cs| - 1];
      if c.order == order && c.source == source then front + [c] else front
  }

  lemma {:induction false} SpotIsClass(cs: seq<Contribution>, x: Contribution)
    ensures AtSpot(cs, x.order, x.source) == Class(Leq, x, cs)
  {
    if cs != [] {
      var front, last := cs[..|cs| - 1], cs[|cs| - 1];
      SpotIsClass(front, x);
      LeqTotal();
      hide Leq;
      ClassConcat(Leq, x, front, [last]);
      assert cs == front + [last] && [last][1..] == [];
    }
  }

  lemma {:induction false} SpotOfPhase(cs: seq<Contribution>, p: string, order: int, source: string)
    ensures AtSpot(OfPhase(cs, p), order, source) == OfPhase(AtSpot(cs, order, source), p)
  {
    if cs != [] {
      var front, last := cs[..|cs| - 1], cs[|cs| - 1];
      SpotOfPhase(front, p, order, source);
      SpotSnoc(OfPhase(front, p), last, order, source);
      OfPhaseSnoc(AtSpot(front, order, source), last, p);
    }
  }

  lemma SpotSnoc(cs: seq<Contribution>, c: Contribution, order: int, source: string)
    ensures AtSpot(cs + [c], order, source)
         == AtSpot(cs, order, source) + if c.order == order && c.source == source then [c] else []
  {
    assert (cs + [c])[..|cs|] == cs;
  }

  /** Sorting keeps the contributions of one Order and Source as they were listed. */
  lemma SpotSorted(cs: seq<Contribution>, order: int, source: string)
    ensures AtSpot(Sort(Leq, cs), order, source) == AtSpot(cs, order, source)
  {
    var x := Contribution(source, "", order, [], "");
    LeqTotal();
    SortStable(Leq, cs, x);
    SpotIsClass(cs, x);
    SpotIsClass(Sort(Leq, cs), x);
  }

  /** What the assembler adds to a phase. */
  function AddedTo(cs: seq<Contribution>, p: string): seq<Contribution> {
    if p == CACHE then [BypassOf(ClaimsOf(OfPhase(Sort(Leq, cs), CACHE)))] else []
  }

  lemma SpotsKept(cs: seq<Contribution>, p: string, order: int, source: string)
    ensures AtSpot(PhaseList(cs, p), order, source) == AtSpot(OfPhase(cs, p) + AddedTo(cs, p), order, source)
  {
    var list := OfPhase(Sort(Leq, cs), p);
    SpotSorted(cs, order, source);
    SpotOfPhase(Sort(Leq, cs), p, order, source);
    SpotOfPhase(cs, p, order, source);
    hide OfPhase, Leq, Sort, BypassOf, ClaimsOf, AtSpot;
    if p == CACHE {
      var b := AddedTo(cs, p)[0];
      SpotSorted(list + [b], order, source);
      SpotSnoc(list, b, order, source);
      SpotSnoc(OfPhase(cs, p), b, order, source);
    } else {
      assert OfPhase(cs, p) + [] == OfPhase(cs, p);
    }
  }

  lemma PlacesPermute(cs: seq<Contribution>, p: string)
    ensures multiset(PhaseList(cs, p)) == multiset(OfPhase(cs, p) + AddedTo(cs, p))
  {
    var list := OfPhase(Sort(Leq, cs), p);
    SortPermutes(Leq, cs);
    OfPhasePermutes(Sort(Leq, cs), cs, p);
    hide OfPhase, Leq, BypassOf, ClaimsOf;
    if p == CACHE {
      SortPermutes(Leq, list + AddedTo(cs, p));
    }
  }

  /**
   An assembled phase runs through its contributions and, in the cache phase, the bypass: by Order, then by Source, then
   as they were passed in, the bypass last of its Order and Source. The rules of each stand together as it lists them.
   */
  lemma PhaseInPlace(cs: seq<Contribution>, p: string)
    requires Accepts(cs) && p in Assembled(cs)
    ensures Assembled(cs)[p] == RulesOf(PhaseList(cs, p))
    ensures multiset(PhaseList(cs, p)) == multiset(OfPhase(cs, p) + AddedTo(cs, p))
    ensures forall i, j :: 0 <= i < j < |PhaseList(cs, p)| ==> InPlace(PhaseList(cs, p)[i], PhaseList(cs, p)[j])
    ensures forall order, source ::
      AtSpot(PhaseList(cs, p), order, source) == AtSpot(OfPhase(cs, p) + AddedTo(cs, p), order, source)
  {
    EveryRuleOnce(cs, p);
    PlacesPermute(cs, p);
    hide Accepts, Assembled, PhaseList, OfPhase, InPlace, AddedTo, AtSpot, RulesOf, Leq;
    forall i, j | 0 <= i < j < |PhaseList(cs, p)| ensures InPlace(PhaseList(cs, p)[i], PhaseList(cs, p)[j]) {
      LeqIs(PhaseList(cs, p)[i], PhaseList(cs, p)[j]);
    }
    forall order, source
      ensures AtSpot(PhaseList(cs, p), order, source) == AtSpot(OfPhase(cs, p) + AddedTo(cs, p), order, source)
    {
      SpotsKept(cs, p, order, source);
    }
  }

  /** The bypass comes after the cacheable hosts and before the rules that cache part of a host. */
  lemma BypassBetween(claims: seq<string>, hosts: seq<string>, r: CacheRules.CacheRule, host: string, prefix: string,
      edge: int, html: int)
    ensures CacheRules.HostsContribution(hosts).order < BypassOf(claims).order < CacheRules.PublicContribution(r).order
    ensures CacheRules.StaticContribution(host, prefix, edge, html).Ok? ==>
      BypassOf(claims).order < CacheRules.StaticContribution(host, prefix, edge, html).value.order
  {
    hide CacheRules.StaticRules, CacheRules.DomainName, BypassOf, CacheRules.HostIsText;
    assert BypassOf(claims).order == BYPASS_ORDER by {
      OrderOfBypass(claims);
    }
  }

  lemma OrderOfBypass(claims: seq<string>)
    ensures BypassOf(claims).order == BYPASS_ORDER
  {
  }
}
