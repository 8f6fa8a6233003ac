/** One ruleset per phase from every contribution (`Assemble`, cloudflare/rules/rules.go). */
module Assembly {
  import opened Text
  import opened RuleSpec
  import opened Sorting
  import opened Bypass

  const PHASES :=
    [CACHE, "http_config_settings", "http_request_firewall_custom", "http_request_firewall_managed", "http_ratelimit"]
  const BYPASS_REF := "cache-bypass"
  const BYPASS_SOURCE := "assembler"
  const BYPASS_ORDER := 500

  /** By (Order, Source). */
  predicate Leq(a: Contribution, b: Contribution) {
    a.order < b.order || (a.order == b.order && StringLeq(a.source, b.source))
  }

  lemma LeqTotal()
    ensures TotalPreorder(Leq)
    ensures forall x, y :: Tied(Leq, x, y) <==> x.order == y.order && x.source == y.source
  {
    StringLeqTotal();
    hide StringLeq;
    forall x, y ensures Tied(Leq, x, y) <==> x.order == y.order && x.source == y.source {
      assert StringLeq(x.source, x.source);
    }
  }

  predicate RuleOk(r: Rule) {
    r.ref != "" && r.action != "" && r.expression != ""
  }

  predicate Admissible(c: Contribution) {
    && c.phase in PHASES && c.source != ""
    && (c.claim != "" ==> c.phase == CACHE && LooksGrouped(c.claim))
    && forall i :: 0 <= i < |c.rules| ==> RuleOk(c.rules[i])
  }

  function OfPhase(cs: seq<Contribution>, p: string): seq<Contribution> {
    if cs == [] then []
    else
      var front, c := OfPhase(cs[..|cs| - 1], p), cs[|cs| - 1];
      if c.phase == p then front + [c] else front
  }

  function RulesOf(cs: seq<Contribution>): seq<Rule> {
    if cs == [] then [] else RulesOf(cs[..|cs| - 1]) + cs[|cs| - 1].rules
  }

  function Refs(rules: seq<Rule>): (r: seq<string>)
    ensures |r| == |rules| && forall i :: 0 <= i < |r| ==> r[i] == rules[i].ref
  {
    seq(|rules|, i requires 0 <= i < |rules| => rules[i].ref)
  }

  function ClaimsOf(cs: seq<Contribution>): seq<string> {
    if cs == [] then []
    else
      var front, c := ClaimsOf(cs[..|cs| - 1]), cs[|cs| - 1];
      if c.claim == "" then front else front + [c.claim]
  }

  function BypassOf(claims: seq<string>): Contribution {
    Contribution(BYPASS_SOURCE, CACHE, BYPASS_ORDER,
      [CacheRuleOf(BYPASS_REF, BypassText(claims), CacheParams(false, None, None, false))], "")
  }

  /** One phase's contributions in (Order, Source) order, the bypass among them in the cache phase. */
  function PhaseList(cs: seq<Contribution>, p: string): seq<Contribution> {
    var list := OfPhase(Sort(Leq, cs), p);
    if p == CACHE then Sort(Leq, list + [BypassOf(ClaimsOf(list))]) else list
  }

  function Assembled(cs: seq<Contribution>): map<string, seq<Rule>> {
    map p | p in PHASES && OfPhase(Sort(Leq, cs), p) != [] :: RulesOf(PhaseList(cs, p))
  }

  /** Every contribution is in order and no ref has two writers in one phase. */
  ghost predicate Good(cs: seq<Contribution>) {
    && (forall c :: c in cs ==> Admissible(c))
    && forall p :: Distinct(Refs(RulesOf(OfPhase(cs, p))))
  }

  ghost predicate Accepts(cs: seq<Contribution>) {
    Good(Sort(Leq, cs)) && BYPASS_REF !in Refs(RulesOf(OfPhase(Sort(Leq, cs), CACHE)))
  }

  // ---------------------------------------------------------------------------
  // Assemble
  // ---------------------------------------------------------------------------

  lemma DistinctConcat<T>(s: seq<T>, t: seq<T>)
    ensures Distinct(s + t) <==> (Distinct(s) && Distinct(t) && forall x :: x in s ==> x !in t)
  {
    var u := s + t;
    assert u[..|s|] == s && u[|s|..] == t;
    if Distinct(u) {
      forall i, j | 0 <= i < j < |t| ensures t[i] != t[j] {
        assert u[|s| + i] != u[|s| + j];
      }
      forall x | x in s ensures x !in t {
        var i :| 0 <= i < |s| && s[i] == x;
        forall j | 0 <= j < |t| ensures t[j] != x {
          assert u[i] != u[|s| + j];
        }
      }
    } else {
      var i, j :| 0 <= i < j < |u| && u[i] == u[j];
      if j < |s| {
        assert s[i] == s[j];
      } else if i < |s| {
        assert s[i] in s && s[i] == t[j - |s|];
      } else {
        assert t[i - |s|] == t[j - |s|];
      }
    }
  }

  lemma RefsConcat(a: seq<Rule>, b: seq<Rule>)
    ensures Refs(a + b) == Refs(a) + Refs(b)
    ensures Distinct(Refs(a + b)) <==>
      (Distinct(Refs(a)) && Distinct(Refs(b)) && forall x :: x in Refs(a) ==> x !in Refs(b))
  {
    assert Refs(a + b) == Refs(a) + Refs(b);
    DistinctConcat(Refs(a), Refs(b));
  }

  /** One contribution's rules against the refs already written in its phase. */
  method CheckRules(c: Contribution, written: map<string, string>) returns (ok: bool, refs: map<string, string>)
    ensures ok <==> (forall i :: 0 <= i < |c.rules| ==> RuleOk(c.rules[i])) && Distinct(Refs(c.rules))
                    && forall x :: x in written ==> x !in Refs(c.rules)
    ensures ok ==> refs.Keys == written.Keys + AsSet(Refs(c.rules))
  {
    ok, refs := true, written;
    for i := 0 to |c.rules|
      invariant ok <==> (forall k :: 0 <= k < i ==> RuleOk(c.rules[k])) && Distinct(Refs(c.rules[..i]))
                        && forall x :: x in written ==> x !in Refs(c.rules[..i])
      invariant ok ==> refs.Keys == written.Keys + AsSet(Refs(c.rules[..i]))
    {
      var r := c.rules[i];
      assert c.rules[..i + 1] == c.rules[..i] + [r] && Refs([r]) == [r.ref];
      RefsConcat(c.rules[..i], [r]);
      if !RuleOk(r) {
        ok := false;
      } else if r.ref in refs {
        ok := false;
      } else {
        refs := refs[r.ref := c.source];
      }
    }
    assert c.rules[..|c.rules|] == c.rules;
  }

  ghost predicate RefsRecorded(done: seq<Contribution>, refs: map<string, map<string, string>>) {
    forall p :: Written(refs, p) == AsSet(Refs(RulesOf(OfPhase(done, p))))
  }

  ghost function Written(refs: map<string, map<string, string>>, p: string): set<string> {
    if p in refs then refs[p].Keys else {}
  }

  function ListOf(byPhase: map<string, seq<Contribution>>, p: string): seq<Contribution> {
    if p in byPhase then byPhase[p] else []
  }

  ghost predicate ListsRecorded(done: seq<Contribution>, byPhase: map<string, seq<Contribution>>) {
    forall p :: ListOf(byPhase, p) == OfPhase(done, p) && (p in byPhase <==> OfPhase(done, p) != [])
  }

  /** What the loop over the sorted contributions has recorded; only an accepted prefix matters. */
  ghost predicate Recorded(done: seq<Contribution>, failed: bool, refs: map<string, map<string, string>>,
                           claims: seq<string>, cacheSeen: bool, byPhase: map<string, seq<Contribution>>) {
    && failed == !Good(done)
    && (!failed ==>
          && RefsRecorded(done, refs)
          && claims == ClaimsOf(OfPhase(done, CACHE))
          && (cacheSeen <==> OfPhase(done, CACHE) != [])
          && ListsRecorded(done, byPhase))
  }

  lemma OfPhaseSnoc(done: seq<Contribution>, c: Contribution, p: string)
    ensures OfPhase(done + [c], p) == if c.phase == p then OfPhase(done, p) + [c] else OfPhase(done, p)
  {
    assert (done + [c])[..|done|] == done;
  }

  lemma RulesOfSnoc(cs: seq<Contribution>, c: Contribution)
    ensures RulesOf(cs + [c]) == RulesOf(cs) + c.rules
    ensures ClaimsOf(cs + [c]) == if c.claim == "" then ClaimsOf(cs) else ClaimsOf(cs) + [c.claim]
  {
    assert (cs + [c])[..|cs|] == cs;
  }

  lemma GoodSnoc(done: seq<Contribution>, c: Contribution)
    ensures Good(done + [c])
       <==> (Good(done) && Admissible(c) && Distinct(Refs(c.rules))
             && forall x :: x in Refs(RulesOf(OfPhase(done, c.phase))) ==> x !in Refs(c.rules))
  {
    var before := RulesOf(OfPhase(done, c.phase));
    forall p
      ensures RulesOf(OfPhase(done + [c], p)) == if c.phase == p then before + c.rules else RulesOf(OfPhase(done, p))
    {
      OfPhaseSnoc(done, c, p);
      RulesOfSnoc(OfPhase(done, p), c);
    }
    RefsConcat(before, c.rules);
    hide OfPhase, RulesOf, Admissible, Refs, Distinct;
    assert forall x :: x in done + [c] <==> x in done || x == c;
    if Good(done + [c]) {
      assert Distinct(Refs(RulesOf(OfPhase(done + [c], c.phase))));
      forall p ensures Distinct(Refs(RulesOf(OfPhase(done, p)))) {
        assert Distinct(Refs(RulesOf(OfPhase(done + [c], p))));
      }
    }
  }

  method Record(c: Contribution, refs: map<string, map<string, string>>, claims: seq<string>, cacheSeen: bool,
                byPhase: map<string, seq<Contribution>>, failed: bool, ghost done: seq<Contribution>)
    returns (refs': map<string, map<string, string>>, claims': seq<string>, cacheSeen': bool,
             byPhase': map<string, seq<Contribution>>, failed': bool)
    requires Recorded(done, failed, refs, claims, cacheSeen, byPhase)
    ensures Recorded(done + [c], failed', refs', claims', cacheSeen', byPhase')
  {
    refs', claims', cacheSeen', byPhase', failed' := refs, claims, cacheSeen, byPhase, failed;
    GoodSnoc(done, c);
    if c.phase !in PHASES {
      failed' := true;
      return;
    }
    if c.source == "" || (c.claim != "" && c.phase != CACHE) {
      failed' := true;
    }
    if c.phase == CACHE {
      cacheSeen' := true;
      if c.claim != "" {
        if !HasPrefix(c.claim, "(") || !HasSuffix(c.claim, ")") {
          failed' := true;
        }
        claims' := claims + [c.claim];
      }
    }
    var written: map<string, string> := if c.phase in refs then refs[c.phase] else map[];
    hide Good, OfPhase, RulesOf, ClaimsOf, Refs, Distinct;
    var ok, added := CheckRules(c, written);
    if !ok {
      failed' := true;
    }
    refs' := refs[c.phase := added];
    byPhase' := byPhase[c.phase := ListOf(byPhase, c.phase) + [c]];
    assert !failed ==> written.Keys == Written(refs, c.phase) == AsSet(Refs(RulesOf(OfPhase(done, c.phase))));
    assert failed' == !Good(done + [c]);
    if !failed' {
      RefsStep(c, done, refs, added);
      ListsStep(c, done, byPhase);
      OfPhaseSnoc(done, c, CACHE);
      RulesOfSnoc(OfPhase(done, CACHE), c);
    }
  }

  lemma RefsStep(c: Contribution, done: seq<Contribution>, refs: map<string, map<string, string>>,
                 added: map<string, string>)
    requires RefsRecorded(done, refs)
    requires added.Keys == AsSet(Refs(RulesOf(OfPhase(done, c.phase)))) + AsSet(Refs(c.rules))
    ensures RefsRecorded(done + [c], refs[c.phase := added])
  {
    var after := refs[c.phase := added];
    forall p ensures Written(after, p) == AsSet(Refs(RulesOf(OfPhase(done + [c], p)))) {
      OfPhaseSnoc(done, c, p);
      if p == c.phase {
        RulesOfSnoc(OfPhase(done, p), c);
        RefsConcat(RulesOf(OfPhase(done, p)), c.rules);
        hide OfPhase, RulesOf, Refs, Distinct;
      } else {
        assert Written(after, p) == Written(refs, p);
      }
    }
  }

  lemma ListsStep(c: Contribution, done: seq<Contribution>, byPhase: map<string, seq<Contribution>>)
    requires ListsRecorded(done, byPhase)
    ensures ListsRecorded(done + [c], byPhase[c.phase := ListOf(byPhase, c.phase) + [c]])
  {
    var after := byPhase[c.phase := ListOf(byPhase, c.phase) + [c]];
    forall p ensures ListOf(after, p) == OfPhase(done + [c], p) && (p in after <==> OfPhase(done + [c], p) != []) {
      OfPhaseSnoc(done, c, p);
      hide OfPhase;
      assert ListOf(byPhase, p) == OfPhase(done, p);
    }
  }

  method Flatten(list: seq<Contribution>) returns (rules: seq<Rule>)
    ensures rules == RulesOf(list)
  {
    rules := [];
    for i := 0 to |list|
      invariant rules == RulesOf(list[..i])
    {
      assert list[..i + 1][..i] == list[..i];
      rules := rules + list[i].rules;
    }
    assert list[..|list|] == list;
  }

  method SortContributions(cs: seq<Contribution>) returns (sorted: seq<Contribution>)
    ensures sorted == Sort(Leq, cs)
  {
    var a := new Contribution[|cs|](i requires 0 <= i < |cs| => cs[i]);
    assert a[..] == cs;
    SortInPlace(Leq, a);
    sorted := a[..];
  }

  method Output(byPhase: map<string, seq<Contribution>>) returns (out: map<string, seq<Rule>>)
    ensures out.Keys == byPhase.Keys
    ensures forall p :: p in out ==> out[p] == RulesOf(byPhase[p])
  {
    out := map[];
    var rest := byPhase.Keys;
    while rest != {}
      invariant rest <= byPhase.Keys && out.Keys == byPhase.Keys - rest
      invariant forall p :: p in out ==> out[p] == RulesOf(byPhase[p])
      decreases rest
    {
      var p :| p in rest;
      var rules := Flatten(byPhase[p]);
      out := out[p := rules];
      rest := rest - {p};
    }
  }

  lemma GoodPhases(done: seq<Contribution>, p: string)
    requires Good(done) && OfPhase(done, p) != []
    ensures p in PHASES
  {
    var list := OfPhase(done, p);
    OfPhaseMembers(done, p);
    assert list[0] in list;
  }

  lemma {:induction false} OfPhaseMembers(cs: seq<Contribution>, p: string)
    ensures forall c :: c in OfPhase(cs, p) <==> c in cs && c.phase == p
  {
    if cs != [] {
      OfPhaseMembers(cs[..|cs| - 1], p);
      assert cs == cs[..|cs| - 1] + [cs[|cs| - 1]];
    }
  }

  lemma RecordedNothing()
    ensures Recorded([], false, map[], [], false, map[])
  {
    forall p ensures OfPhase([], p) == [] && RulesOf(OfPhase([], p)) == [] && Refs(RulesOf(OfPhase([], p))) == [] {
    }
    assert Distinct(Refs([]));
    assert Good([]);
    assert RefsRecorded([], map[]) by {
      assert AsSet(Refs([])) == {};
    }
    assert ListsRecorded([], map[]);
  }

  /** Refuses a conflicting writer; otherwise one ordered rule list for each phase that has a contribution. */
  method Assemble(cs: seq<Contribution>) returns (r: Option<map<string, seq<Rule>>>)
    ensures r == if Accepts(cs) then Some(Assembled(cs)) else None
  {
    var sorted := SortContributions(cs);
    var refs: map<string, map<string, string>>, claims: seq<string> := map[], [];
    var byPhase: map<string, seq<Contribution>> := map[];
    var cacheSeen, failed := false, false;
    RecordedNothing();
    hide Recorded, Assembled, Accepts, Sort, BypassOf;
    for i := 0 to |sorted|
      invariant Recorded(sorted[..i], failed, refs, claims, cacheSeen, byPhase)
    {
      assert sorted[..i + 1] == sorted[..i] + [sorted[i]];
      refs, claims, cacheSeen, byPhase, failed :=
        Record(sorted[i], refs, claims, cacheSeen, byPhase, failed, sorted[..i]);
    }
    assert sorted[..|sorted|] == sorted;
    var lists := byPhase;
    var reserved := cacheSeen && CACHE in refs && BYPASS_REF in refs[CACHE];
    if cacheSeen {
      var bypass := BypassContribution(claims);
      var list := SortContributions(ListOf(byPhase, CACHE) + [bypass]);
      lists := byPhase[CACHE := list];
    }
    Finished(cs, failed, refs, claims, cacheSeen, byPhase, lists);
    if failed || reserved {
      return None;
    }
    var out := Output(lists);
    assert out == Assembled(cs) by {
      assert out.Keys == Assembled(cs).Keys;
      assert forall p :: p in out ==> out[p] == Assembled(cs)[p];
    }
    r := Some(out);
  }

  method BypassContribution(claims: seq<string>) returns (c: Contribution)
    ensures c == BypassOf(claims)
  {
    var expr := BypassExpression(claims);
    c := Contribution(BYPASS_SOURCE, CACHE, BYPASS_ORDER,
      [CacheRuleOf(BYPASS_REF, expr, CacheParams(false, None, None, false))], "");
  }

  lemma Finished(cs: seq<Contribution>, failed: bool, refs: map<string, map<string, string>>, claims: seq<string>,
                 cacheSeen: bool, byPhase: map<string, seq<Contribution>>, lists: map<string, seq<Contribution>>)
    requires Recorded(Sort(Leq, cs), failed, refs, claims, cacheSeen, byPhase)
    requires lists == if cacheSeen
                      then byPhase[CACHE := Sort(Leq, ListOf(byPhase, CACHE) + [BypassOf(claims)])]
                      else byPhase
    ensures Accepts(cs) <==> !failed && !(cacheSeen && CACHE in refs && BYPASS_REF in refs[CACHE])
    ensures Accepts(cs) ==> lists.Keys == Assembled(cs).Keys && forall p :: p in lists ==>
      Assembled(cs)[p] == RulesOf(lists[p])
  {
    RefsFinished(cs, failed, refs, claims, cacheSeen, byPhase);
    if Accepts(cs) {
      PhasesAreKnown(Sort(Leq, cs));
      hide Good, Sort, OfPhase, RulesOf, ClaimsOf, Refs, BypassOf, ListsRecorded, RefsRecorded;
      ListsFinished(cs, byPhase, lists, cacheSeen);
    }
  }

  lemma RefsFinished(cs: seq<Contribution>, failed: bool, refs: map<string, map<string, string>>, claims: seq<string>,
                     cacheSeen: bool, byPhase: map<string, seq<Contribution>>)
    requires Recorded(Sort(Leq, cs), failed, refs, claims, cacheSeen, byPhase)
    ensures Accepts(cs) <==> !failed && !(cacheSeen && CACHE in refs && BYPASS_REF in refs[CACHE])
  {
    hide ListsRecorded, Good, Sort, ClaimsOf;
    var sorted := Sort(Leq, cs);
    if !failed {
      assert Written(refs, CACHE) == AsSet(Refs(RulesOf(OfPhase(sorted, CACHE))));
      assert BYPASS_REF in Written(refs, CACHE) <==> BYPASS_REF in Refs(RulesOf(OfPhase(sorted, CACHE)));
      if !cacheSeen {
        assert RulesOf(OfPhase(sorted, CACHE)) == [] && Refs([]) == [];
      }
    }
  }

  lemma PhasesAreKnown(sorted: seq<Contribution>)
    requires Good(sorted)
    ensures forall p :: OfPhase(sorted, p) != [] ==> p in PHASES
  {
    forall p | OfPhase(sorted, p) != [] ensures p in PHASES {
      GoodPhases(sorted, p);
    }
  }

  lemma ListsFinished(cs: seq<Contribution>, byPhase: map<string, seq<Contribution>>,
                      lists: map<string, seq<Contribution>>, cacheSeen: bool)
    requires ListsRecorded(Sort(Leq, cs), byPhase) && (cacheSeen <==> OfPhase(Sort(Leq, cs), CACHE) != [])
    requires forall p :: OfPhase(Sort(Leq, cs), p) != [] ==> p in PHASES
    requires lists == if cacheSeen
                      then byPhase[CACHE := Sort(Leq,
                             ListOf(byPhase, CACHE) + [BypassOf(ClaimsOf(OfPhase(Sort(Leq, cs), CACHE)))])]
                      else byPhase
    ensures lists.Keys == Assembled(cs).Keys && forall p :: p in lists ==> Assembled(cs)[p] == RulesOf(lists[p])
  {
    hide Sort, Leq, BypassOf, OfPhase, RulesOf, ClaimsOf;
    var sorted := Sort(Leq, cs);
    forall p ensures p in lists <==> p in Assembled(cs) {
      assert ListOf(byPhase, p) == OfPhase(sorted, p);
    }
    forall p | p in lists ensures Assembled(cs)[p] == RulesOf(lists[p]) {
      assert ListOf(byPhase, p) == OfPhase(sorted, p);
      assert lists[p] == PhaseList(cs, p);
    }
  }
}
