/** Contributions Assemble accepts on which its documented guarantees fail (cloudflare/rules/rules.go). */
module AssemblyCases {
  import opened Text
  import opened FilterText
  import opened FilterParse
  import opened HostFilter
  import opened RuleSpec
  import opened Sorting
  import opened Bypass
  import opened Assembly
  import opened AssemblyFacts
  import opened AssemblyOrder
  import opened CachePartition
  import opened ClaimFold
  import CacheRules
  import HostOrder

  // ---------------------------------------------------------------------------
  // One or two contributions
  // ---------------------------------------------------------------------------

  /** The contribution is in order and writes each of its refs once, none of them the reserved one. */
  ghost predicate Alone(c: Contribution) {
    Admissible(c) && Distinct(Refs(c.rules)) && BYPASS_REF !in Refs(c.rules)
  }

  lemma NothingGood()
    ensures Good([])
  {
    RecordedNothing();
  }

  lemma OneGood(x: Contribution)
    requires Alone(x)
    ensures Good([x]) && RulesOf(OfPhase([x], x.phase)) == x.rules
  {
    NothingGood();
    GoodSnoc([], x);
    assert [] + [x] == [x] && [x][..0] == [];
    assert RulesOf(OfPhase([], x.phase)) == [];
    OfPhaseSnoc([], x, x.phase);
    RulesOfSnoc([], x);
    hide Admissible;
  }

  lemma OneAccepted(x: Contribution)
    requires Alone(x) && x.phase == CACHE
    ensures Accepts([x])
  {
    OneGood(x);
    hide Good, OfPhase, RulesOf, Leq;
    assert [x][..0] == [] && Sort(Leq, [x]) == [x];
  }

  lemma PairAccepted(x: Contribution, y: Contribution)
    requires Alone(x) && Alone(y) && Leq(x, y) && x.phase == y.phase
    requires forall r :: r in Refs(x.rules) ==> r !in Refs(y.rules)
    ensures Accepts([x, y])
  {
    OneGood(x);
    GoodSnoc([x], y);
    SortPair(x, y);
    OfPhaseSnoc([x], y, x.phase);
    RulesOfSnoc(OfPhase([x], x.phase), y);
    RefsConcat(x.rules, y.rules);
    assert [x] + [y] == [x, y];
    hide Good, Leq, Sort, Refs, Admissible, Distinct;
    if x.phase != CACHE {
      OtherPhaseEmpty(x, y);
    }
  }

  lemma OtherPhaseEmpty(x: Contribution, y: Contribution)
    requires x.phase != CACHE && y.phase != CACHE
    ensures Refs(RulesOf(OfPhase([x, y], CACHE))) == []
  {
    OfPhaseSnoc([], x, CACHE);
    OfPhaseSnoc([x], y, CACHE);
    assert [] + [x] == [x] && [x] + [y] == [x, y];
  }

  // ---------------------------------------------------------------------------
  // The input order
  // ---------------------------------------------------------------------------

  function Skip(ref: string): Rule {
    Rule(ref, "skip", "true", false, Params(None, None, None, None), None, false)
  }

  function WithRule(ref: string): Contribution {
    Contribution("s", "http_config_settings", 1, [Skip(ref)], "")
  }

  lemma WithRuleAlone(ref: string)
    requires ref != "" && ref != BYPASS_REF
    ensures Alone(WithRule(ref)) && Refs(WithRule(ref).rules) == [ref]
  {
  }

  /** Two contributions with a rule each that share a phase, an Order and a Source: their order is the rules' order. */
  lemma TiedRules()
    ensures Accepts([WithRule("a"), WithRule("b")])
    ensures Assembled([WithRule("a"), WithRule("b")]) != Assembled([WithRule("b"), WithRule("a")])
  {
    var x, y := WithRule("a"), WithRule("b");
    assert |"a"| != |BYPASS_REF| && |"b"| != |BYPASS_REF| && "a"[0] != "b"[0];
    WithRuleAlone("a");
    WithRuleAlone("b");
    LeqTotal();
    assert x.rules[0].ref != y.rules[0].ref;
    assert Tied(Leq, x, y);
    hide Alone, Leq, Accepts, Assembled;
    PairAccepted(x, y);
    PairAccepted(y, x);
    assert [x, y] + [] == [x, y] && [y, x] + [] == [y, x];
    RulesExchange(x, y, []);
  }

  function OnlyClaim(claim: string): Contribution {
    Contribution("s", CACHE, 1, [], claim)
  }

  lemma OnlyClaimAlone(claim: string)
    requires LooksGrouped(claim)
    ensures Alone(OnlyClaim(claim))
  {
    assert CACHE in PHASES by {
      assert PHASES[0] == CACHE;
    }
  }

  /** Two different claims without rules that share them: their order is the bypass's order. */
  lemma TiedClaims()
    ensures Accepts([OnlyClaim("(true)"), OnlyClaim("(not true)")])
    ensures Assembled([OnlyClaim("(true)"), OnlyClaim("(not true)")])
         != Assembled([OnlyClaim("(not true)"), OnlyClaim("(true)")])
  {
    var u, v := "(true)", "(not true)";
    var x, y := OnlyClaim(u), OnlyClaim(v);
    assert !Swaps(u, v) by {
      assert (u + JOIN + v)[1] == 't' && (v + JOIN + u)[1] == 'n';
    }
    assert LooksGrouped(u) && LooksGrouped(v);
    OnlyClaimAlone(u);
    OnlyClaimAlone(v);
    LeqTotal();
    assert Tied(Leq, x, y);
    assert Refs(x.rules) == [] && Refs(y.rules) == [];
    hide Alone, Leq, Accepts, Assembled, Swaps, LooksGrouped;
    PairAccepted(x, y);
    PairAccepted(y, x);
    assert [x, y] + [] == [x, y] && [y, x] + [] == [y, x];
    ClaimsExchange(x, y, []);
  }

  // ---------------------------------------------------------------------------
  // Claims that are not one group
  // ---------------------------------------------------------------------------

  const TWO :=
    Contribution("s", CACHE, 1, [CacheRuleOf("r", TWO_GROUPS, CacheParams(true, None, None, false))], TWO_GROUPS)

  lemma TwoAlone()
    ensures Alone(TWO)
  {
    assert CACHE in PHASES by {
      assert PHASES[0] == CACHE;
    }
    assert |"r"| != |BYPASS_REF|;
    assert Refs(TWO.rules) == ["r"];
    assert LooksGrouped(TWO_GROUPS) && TWO_GROUPS != "";
  }

  /** Assemble accepts the claim `(true) or (true)`, and every request then meets its rule and the bypass. */
  lemma TwoGroupsAccepted(q: Request)
    ensures Accepts([TWO]) && Takes(TWO.rules[0], q) && Takes(Added([TWO], CACHE)[0], q)
  {
    TwoAlone();
    LooksGroupedIsNotEnough(q);
    hide Alone, Holds, BypassText, Leq;
    OneAccepted(TWO);
    hide Accepts;
    assert [TWO][..0] == [] && Sort(Leq, [TWO]) == [TWO];
    assert OfPhase([TWO], CACHE) == [TWO] && ClaimsOf([TWO]) == [TWO_GROUPS];
  }

  // ---------------------------------------------------------------------------
  // Claims that overlap
  // ---------------------------------------------------------------------------

  lemma EmptyIsNoExpression(e: Expr)
    ensures !WholeText("", e) && !OperandText("", e)
  {
  }

  lemma HostsAlone(host: string)
    requires host != "*"
    ensures Alone(CacheRules.HostsContribution([host]))
    ensures Refs(CacheRules.HostsContribution([host]).rules) == ["cacheable-hosts"]
  {
    var c := CacheRules.HostsContribution([host]);
    HostWhole([host]);
    EmptyIsNoExpression(Disjunction(HostExprs([host])));
    hide HostText, HostExprs, WholeText;
    assert CACHE in PHASES by {
      assert PHASES[0] == CACHE;
    }
    assert |"cacheable-hosts"| != |BYPASS_REF|;
    assert c.claim[0] == '(' && c.claim[|c.claim| - 1] == ')';
  }

  lemma SiteAlone(host: string, c: Contribution)
    requires CacheRules.StaticContribution(host, "", 0, 0) == Ok(c)
    ensures Alone(c) && Refs(c.rules) == ["static-site-" + host]
  {
    CacheRules.StaticTexts(host, "");
    EmptyIsNoExpression(HostIs(host));
    hide CacheRules.HostIsText, WholeText, OperandText, CacheRules.DomainName;
    assert CACHE in PHASES by {
      assert PHASES[0] == CACHE;
    }
    assert ("static-site-" + host)[0] != BYPASS_REF[0];
    assert c.claim[0] == '(' && c.claim[|c.claim| - 1] == ')';
  }

  /**
   A cacheable host that is also a static site: both builders' contributions are accepted, and its requests meet two
   rules.
   */
  lemma OverlappingBuilders(host: string, q: Request)
    requires CacheRules.DomainName(host) && host != "*" && q.host == host
    ensures CacheRules.StaticContribution(host, "", 0, 0).Ok?
    ensures var cs := [CacheRules.HostsContribution([host]), CacheRules.StaticContribution(host, "", 0, 0).value];
      Accepts(cs) && CACHE in Assembled(cs) && MatchCount(Assembled(cs)[CACHE], q) == 2
  {
    var x, y := CacheRules.HostsContribution([host]), CacheRules.StaticContribution(host, "", 0, 0).value;
    HostsAlone(host);
    SiteAlone(host, y);
    BothTaken(host, q);
    BuildersBuild([host], host, 0, [], "", 0, 0);
    assert "static-site-"[0] != "cacheable-hosts"[0];
    assert Leq(x, y) && x.phase == y.phase == CACHE;
    hide Alone, Leq, CacheRules.StaticContribution, CacheRules.HostsContribution, Built, Taken, MatchCount;
    PairAccepted(x, y);
    assert x in [x, y];
    hide Accepts;
    Partition([x, y], q);
    TwoClaimants(x, y, q);
  }

  lemma BothTaken(host: string, q: Request)
    requires CacheRules.StaticContribution(host, "", 0, 0).Ok? && host != "*" && q.host == host
    ensures Taken(CacheRules.HostsContribution([host]), q)
      && Taken(CacheRules.StaticContribution(host, "", 0, 0).value, q)
  {
    var x, y := CacheRules.HostsContribution([host]), CacheRules.StaticContribution(host, "", 0, 0).value;
    CacheRules.CacheHostsClaims([host]);
    CacheRules.StaticSiteClaims(host, "", 0, 0);
    assert x.claim != "" && y.claim != "";
    var e := Disjunction(HostExprs([host]));
    hide CacheRules.StaticContribution, CacheRules.HostsContribution, HostExprs, OperandText, Holds;
    GroupMeans(x.claim, e, q);
    GroupMeans(y.claim, HostIs(host), q);
    assert host in [host] && HostOrder.Matches(host, q.host);
  }

  lemma TwoClaimants(x: Contribution, y: Contribution, q: Request)
    requires x.phase == y.phase == CACHE && Taken(x, q) && Taken(y, q)
    ensures Claimants([x, y], q) == 2
  {
    hide Taken;
    OfPhaseSnoc([], x, CACHE);
    OfPhaseSnoc([x], y, CACHE);
    assert [] + [x] == [x] && [x] + [y] == [x, y];
    var f := TakenTally(q);
    SumConcat([x], [y], f);
    SumOne(x, f);
    SumOne(y, f);
  }

  lemma ADomainName()
    ensures CacheRules.DomainName("a.b") && "a.b" != "*"
  {
    assert "a.b"[1..] == ".b" && ".b"[1..] == "b" && "b"[1..] == "";
    OneChar('b');
    assert HostOrder.Split(".b") == [[]] + ["b"];
    assert ["", "b"][1..] == ["b"] && ['a'] + "" == "a";
    assert HostOrder.Split("a.b") == [['a'] + ""] + ["", "b"][1..];
    assert HostOrder.Split("a.b") == ["a", "b"];
    assert |"a.b"| != |"*"|;
  }

  lemma OneChar(c: char)
    requires c != '.'
    ensures HostOrder.Split([c]) == [[c]]
  {
    assert [c][1..] == [] && HostOrder.Split([]) == [[]];
    assert [""][1..] == [] && [c] + "" == [c];
    assert HostOrder.Split([c]) == [[c] + ""] + HostOrder.Split([])[1..];
  }

  /** Two of the library's own contributions that assemble, and a request two of their cache rules match. */
  lemma TwoRulesMatch() returns (cs: seq<Contribution>, q: Request)
    ensures Accepts(cs) && CACHE in Assembled(cs) && MatchCount(Assembled(cs)[CACHE], q) == 2
  {
    hide *;
    ADomainName();
    q := Request("a.b", "/", "GET", [], {});
    OverlappingBuilders("a.b", q);
    cs := [CacheRules.HostsContribution(["a.b"]), CacheRules.StaticContribution("a.b", "", 0, 0).value];
  }
}
