/** The cache phase as a partition of the requests (cloudflare/rules/rules.go, cloudflare/rules/cache.go). */
module CachePartition {
  import opened Text
  import opened FilterParse
  import opened HostFilter
  import opened RuleSpec
  import opened Sorting
  import opened Bypass
  import opened Assembly
  import opened AssemblyFacts
  import CacheRules

  /** A contribution as the builders make them: no claim and no rules, or rules that share out what one group claims. */
  ghost predicate Built(c: Contribution) {
    (c.claim == "" && c.rules == []) || exists e :: CacheRules.Claims(c, e)
  }

  /** The contribution's claim takes the request. */
  predicate Taken(c: Contribution, q: Request) {
    c.claim != "" && Holds(c.claim, q)
  }

  function TakenTally(q: Request): Contribution -> nat {
    (c: Contribution) => if Taken(c, q) then 1 else 0
  }

  /** How many contributions claim the request. */
  function Claimants(cs: seq<Contribution>, q: Request): nat {
    Sum(OfPhase(cs, CACHE), TakenTally(q))
  }

  lemma EmptyOperand(e: Expr)
    ensures !OperandText("", e)
  {
  }

  lemma BuiltCount(c: Contribution, q: Request)
    requires Built(c)
    ensures MatchCount(c.rules, q) == if Taken(c, q) then 1 else 0
  {
    if c.claim != "" || c.rules != [] {
      var e :| CacheRules.Claims(c, e);
      EmptyOperand(Paren(e));
      GroupMeans(c.claim, e, q);
    }
  }

  lemma {:induction false} BuiltRules(list: seq<Contribution>, q: Request)
    requires forall c :: c in list ==> Built(c)
    ensures MatchCount(RulesOf(list), q) == Sum(list, TakenTally(q))
  {
    if list != [] {
      var front, last := list[..|list| - 1], list[|list| - 1];
      hide Built, Taken, Takes, MatchCount;
      BuiltRules(front, q);
      BuiltCount(last, q);
      MatchCountConcat(RulesOf(front), last.rules, q);
    } else {
      assert RulesOf(list) == [];
    }
  }

  /** The expressions of the groups the claims are. */
  lemma {:induction false} ClaimsAreGroups(list: seq<Contribution>) returns (es: seq<Expr>)
    requires forall c :: c in list ==> Built(c)
    ensures Groups(ClaimsOf(list), es)
  {
    if list == [] {
      es := [];
    } else {
      var front, last := list[..|list| - 1], list[|list| - 1];
      es := ClaimsAreGroups(front);
      assert last in list;
      if last.claim != "" {
        var e :| CacheRules.Claims(last, e);
        hide OperandText;
        var claims := ClaimsOf(list);
        assert claims == ClaimsOf(front) + [last.claim];
        es := es + [e];
        assert forall i :: 0 <= i < |es| ==> OperandText(claims[i], Paren(es[i]));
      }
    }
  }

  lemma {:induction false} NoClaimant(list: seq<Contribution>, q: Request)
    ensures (forall i :: 0 <= i < |ClaimsOf(list)| ==> !Holds(ClaimsOf(list)[i], q)) <==> Sum(list, TakenTally(q)) == 0
  {
    if list != [] {
      hide Holds;
      var front, last := list[..|list| - 1], list[|list| - 1];
      NoClaimant(front, q);
      var claims, before := ClaimsOf(list), ClaimsOf(front);
      if last.claim != "" {
        assert claims[|claims| - 1] == last.claim;
        assert forall i :: 0 <= i < |before| ==> claims[i] == before[i];
      }
    }
  }

  lemma {:induction false} InsertCount(list: seq<Contribution>, b: Contribution, q: Request)
    ensures MatchCount(RulesOf(InsertLast(Leq, list, b)), q) == MatchCount(RulesOf(list), q) + MatchCount(b.rules, q)
  {
    hide Takes, MatchCount;
    if list == [] {
      assert RulesOf([]) == [];
      RulesOfSnoc([], b);
      MatchCountConcat([], b.rules, q);
      MatchCountNone(q);
    } else {
      var front, last := list[..|list| - 1], list[|list| - 1];
      MatchCountConcat(RulesOf(front), last.rules, q);
      if Leq(last, b) {
        RulesOfSnoc(list, b);
        MatchCountConcat(RulesOf(list), b.rules, q);
      } else {
        InsertCount(front, b, q);
        RulesOfSnoc(InsertLast(Leq, front, b), last);
        MatchCountConcat(RulesOf(InsertLast(Leq, front, b)), last.rules, q);
      }
    }
  }

  lemma MatchCountNone(q: Request)
    ensures MatchCount([], q) == 0
  {
  }

  lemma ClaimantsAnyOrder(cs: seq<Contribution>, ds: seq<Contribution>, q: Request)
    requires multiset(cs) == multiset(ds)
    ensures Claimants(cs, q) == Claimants(ds, q)
  {
    OfPhasePermutes(cs, ds, CACHE);
    SumPermutes(OfPhase(cs, CACHE), OfPhase(ds, CACHE), TakenTally(q));
  }

  lemma BypassTakes(list: seq<Contribution>, q: Request)
    requires forall c :: c in list ==> Built(c)
    ensures MatchCount(BypassOf(ClaimsOf(list)).rules, q) == if Sum(list, TakenTally(q)) == 0 then 1 else 0
    ensures Takes(BypassOf(ClaimsOf(list)).rules[0], q) <==> Sum(list, TakenTally(q)) == 0
  {
    var es := ClaimsAreGroups(list);
    BypassMeaning(ClaimsOf(list), es, q);
    NoClaimant(list, q);
    hide Holds, BypassText, Built, ClaimsOf;
    MatchCountOne(BypassOf(ClaimsOf(list)).rules[0], q);
  }

  /**
   Assembled from built contributions, the cache phase matches every request: one rule for each contribution that
   claims it, or the bypass alone when none does, and never the bypass beside a claimed rule.
   */
  lemma Partition(cs: seq<Contribution>, q: Request)
    requires Accepts(cs) && forall c :: c in cs && c.phase == CACHE ==> Built(c)
    requires exists c :: c in cs && c.phase == CACHE
    ensures CACHE in Assembled(cs)
    ensures MatchCount(Assembled(cs)[CACHE], q) == if Claimants(cs, q) == 0 then 1 else Claimants(cs, q)
    ensures Takes(Added(cs, CACHE)[0], q) <==> Claimants(cs, q) == 0
  {
    var sorted := Sort(Leq, cs);
    var list := OfPhase(sorted, CACHE);
    EveryRuleOnce(cs, CACHE);
    SortMembers(Leq, cs);
    SortPermutes(Leq, cs);
    OfPhaseMembers(sorted, CACHE);
    CacheList(cs);
    ClaimantsAnyOrder(sorted, cs, q);
    hide Built, Takes, Sort, Leq, OfPhase, TakenTally, ClaimsOf, MatchCount, Accepts, BypassOf;
    BuiltRules(list, q);
    InsertCount(list, BypassOf(ClaimsOf(list)), q);
    BypassTakes(list, q);
  }

  /** A request matches exactly one rule exactly when no two claims take it. */
  lemma ExactlyOneRule(cs: seq<Contribution>, q: Request)
    requires Accepts(cs) && forall c :: c in cs && c.phase == CACHE ==> Built(c)
    requires exists c :: c in cs && c.phase == CACHE
    ensures CACHE in Assembled(cs)
    ensures MatchCount(Assembled(cs)[CACHE], q) == 1 <==> Disjoint(cs, q)
  {
    Partition(cs, q);
    AtMostOne(cs, q);
  }

  lemma ClaimantsSnoc(cs: seq<Contribution>, c: Contribution, q: Request)
    ensures Claimants(cs + [c], q) == Claimants(cs, q) + if ClaimsIt(c, q) then 1 else 0
  {
    hide Taken;
    OfPhaseSnoc(cs, c, CACHE);
    SumConcat(OfPhase(cs, CACHE), [c], TakenTally(q));
    SumOne(c, TakenTally(q));
  }

  predicate ClaimsIt(c: Contribution, q: Request) {
    c.phase == CACHE && Taken(c, q)
  }

  /** No contribution claims the request. */
  ghost predicate NoneClaims(cs: seq<Contribution>, q: Request) {
    forall i :: 0 <= i < |cs| ==> !ClaimsIt(cs[i], q)
  }

  /** No two contributions claim the request. */
  ghost predicate Disjoint(cs: seq<Contribution>, q: Request) {
    forall i, j :: 0 <= i < j < |cs| ==> !ClaimsIt(cs[i], q) || !ClaimsIt(cs[j], q)
  }

  lemma DisjointSnoc(cs: seq<Contribution>, c: Contribution, q: Request)
    ensures NoneClaims(cs + [c], q) <==> NoneClaims(cs, q) && !ClaimsIt(c, q)
    ensures Disjoint(cs + [c], q) <==> Disjoint(cs, q) && (NoneClaims(cs, q) || !ClaimsIt(c, q))
  {
    hide ClaimsIt;
    var all, n := cs + [c], |cs|;
    assert all[n] == c && forall i :: 0 <= i < n ==> all[i] == cs[i];
  }

  lemma {:induction false} AtMostOne(cs: seq<Contribution>, q: Request)
    ensures Claimants(cs, q) == 0 <==> NoneClaims(cs, q)
    ensures Claimants(cs, q) <= 1 <==> Disjoint(cs, q)
  {
    if cs != [] {
      hide *;
      var front, last := cs[..|cs| - 1], cs[|cs| - 1];
      assert cs == front + [last];
      AtMostOne(front, q);
      ClaimantsSnoc(front, last, q);
      DisjointSnoc(front, last, q);
    }
  }

  // ---------------------------------------------------------------------------
  // What the matching rule does
  // ---------------------------------------------------------------------------

  ghost predicate Claimed(cs: seq<Contribution>, q: Request) {
    exists c :: c in cs && ClaimsIt(c, q)
  }

  lemma {:induction false} RulesOfMembers(list: seq<Contribution>)
    ensures forall r :: r in RulesOf(list) <==> exists c :: c in list && r in c.rules
  {
    if list != [] {
      var front, last := list[..|list| - 1], list[|list| - 1];
      assert list == front + [last];
      RulesOfMembers(front);
    }
  }

  lemma {:induction false} NoMatch(rules: seq<Rule>, q: Request)
    ensures MatchCount(rules, q) == 0 <==> forall r :: r in rules ==> !Takes(r, q)
  {
    if rules != [] {
      hide Takes;
      NoMatch(rules[1..], q);
    }
  }

  lemma ClaimedIff(cs: seq<Contribution>, q: Request)
    ensures Claimants(cs, q) == 0 <==> !Claimed(cs, q)
  {
    AtMostOne(cs, q);
    hide ClaimsIt, Claimants;
    assert forall c :: c in cs <==> exists i :: 0 <= i < |cs| && cs[i] == c;
  }

  /** Where the rules of the cache phase come from. */
  lemma CacheRuleFrom(cs: seq<Contribution>, r: Rule)
    requires Accepts(cs) && CACHE in Assembled(cs) && r in Assembled(cs)[CACHE]
    ensures r == Added(cs, CACHE)[0] || exists c :: c in cs && c.phase == CACHE && r in c.rules
  {
    EveryRuleOnce(cs, CACHE);
    RulesOfMembers(OfPhase(cs, CACHE));
    OfPhaseMembers(cs, CACHE);
    hide OfPhase, RulesOf, Added, Assembled, Accepts, PhaseList;
    var all := RulesOf(OfPhase(cs, CACHE)) + Added(cs, CACHE);
    assert r in multiset(Assembled(cs)[CACHE]) && r in multiset(all);
    assert r in all;
  }

  lemma BuiltRule(c: Contribution, r: Rule, q: Request)
    requires Built(c) && r in c.rules && c.phase == CACHE
    ensures CacheRules.Caches(r) && (Takes(r, q) ==> ClaimsIt(c, q))
  {
    BuiltCount(c, q);
    NoMatch(c.rules, q);
    hide Takes, Taken, MatchCount;
  }

  /** The bypass rule keeps what it takes out of the cache. */
  lemma BypassRule(cs: seq<Contribution>)
    ensures |Added(cs, CACHE)| == 1 && CacheRules.OnlyCache(Added(cs, CACHE)[0])
    ensures Added(cs, CACHE)[0].params.cache.value == CacheParams(false, None, None, false)
  {
    hide ClaimsOf, OfPhase, Sort, BypassText;
  }

  /**
   In a cache phase assembled from built contributions some rule takes each request, and every rule that takes it
   caches the request exactly when a claim takes it; unclaimed, the request is kept out of the cache.
   */
  lemma CacheDecision(cs: seq<Contribution>, q: Request)
    requires Accepts(cs) && forall c :: c in cs && c.phase == CACHE ==> Built(c)
    requires exists c :: c in cs && c.phase == CACHE
    ensures CACHE in Assembled(cs) && exists r :: r in Assembled(cs)[CACHE] && Takes(r, q)
    ensures forall r :: r in Assembled(cs)[CACHE] && Takes(r, q) ==>
      CacheRules.OnlyCache(r) && (r.params.cache.value.cache <==> Claimed(cs, q))
  {
    Partition(cs, q);
    ClaimedIff(cs, q);
    NoMatch(Assembled(cs)[CACHE], q);
    BypassRule(cs);
    hide Accepts, Assembled, Added, Claimants, Claimed, Takes, MatchCount, Built;
    forall r | r in Assembled(cs)[CACHE] && Takes(r, q)
      ensures CacheRules.OnlyCache(r) && (r.params.cache.value.cache <==> Claimed(cs, q))
    {
      CacheRuleFrom(cs, r);
      if r != Added(cs, CACHE)[0] {
        var c :| c in cs && c.phase == CACHE && r in c.rules;
        BuiltRule(c, r, q);
        ClaimedBy(cs, c, q);
      }
    }
  }

  lemma ClaimedBy(cs: seq<Contribution>, c: Contribution, q: Request)
    requires c in cs && ClaimsIt(c, q)
    ensures Claimed(cs, q)
  {
  }

  /** The three builders make such contributions, so whatever mix of them Assemble accepts is partitioned this way. */
  lemma BuildersBuild(hosts: seq<string>, host: string, ttl: int, paths: seq<string>, prefix: string, edge: int,
      html: int)
    ensures "*" !in hosts ==> Built(CacheRules.HostsContribution(hosts))
    ensures CacheRules.PublicRule(host, ttl, paths).Ok?
       ==> Built(CacheRules.PublicContribution(CacheRules.PublicRule(host, ttl, paths).value))
    ensures CacheRules.StaticContribution(host, prefix, edge, html).Ok?
       ==> Built(CacheRules.StaticContribution(host, prefix, edge, html).value)
  {
    hide CacheRules.PublicRule, CacheRules.StaticContribution, CacheRules.Claims;
    if "*" !in hosts && hosts != [] {
      CacheRules.CacheHostsClaims(hosts);
    }
    if CacheRules.PublicRule(host, ttl, paths).Ok? {
      CacheRules.PublicPathsClaims(host, ttl, paths);
    }
    if CacheRules.StaticContribution(host, prefix, edge, html).Ok? {
      CacheRules.StaticSiteClaims(host, prefix, edge, html);
    }
  }
}
