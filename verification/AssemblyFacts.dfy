/** What an assembled ruleset is: every rule once, in order, whatever order the contributions came in. */
module AssemblyFacts {
  import opened Text
  import opened RuleSpec
  import opened Sorting
  import opened Assembly

  // ---------------------------------------------------------------------------
  // Rearrangements
  // ---------------------------------------------------------------------------

  function Sum<T>(s: seq<T>, f: T -> nat): nat {
    if s == [] then 0 else Sum(s[..|s| - 1], f) + f(s[|s| - 1])
  }

  lemma {:induction false} SumConcat<T>(s: seq<T>, t: seq<T>, f: T -> nat)
    ensures Sum(s + t, f) == Sum(s, f) + Sum(t, f)
  {
    if t == [] {
      assert s + t == s;
    } else {
      var front, last := t[..|t| - 1], t[|t| - 1];
      assert (s + t)[..|s + t| - 1] == s + front && (s + t)[|s + t| - 1] == last;
      SumConcat(s, front, f);
    }
  }

  lemma SumOne<T>(x: T, f: T -> nat)
    ensures Sum([x], f) == f(x)
  {
    assert [x][..0] == [];
  }

  /** A list taken apart around one of its elements. */
  lemma TakeOut<T>(t: seq<T>, x: T) returns (a: seq<T>, b: seq<T>)
    requires x in t
    ensures t == a + [x] + b && multiset(t) == multiset(a + b) + multiset{x}
  {
    var i :| 0 <= i < |t| && t[i] == x;
    a, b := t[..i], t[i + 1..];
    assert t == a + [x] + b;
  }

  lemma {:induction false} SumPermutes<T>(s: seq<T>, t: seq<T>, f: T -> nat)
    requires multiset(s) == multiset(t)
    ensures Sum(s, f) == Sum(t, f)
    decreases |s|
  {
    if s == [] {
      assert |multiset(t)| == 0;
    } else {
      var front, x := s[..|s| - 1], s[|s| - 1];
      assert s == front + [x];
      assert x in multiset(s);
      var a, b := TakeOut(t, x);
      assert multiset(front) == multiset(s) - multiset{x} == multiset(t) - multiset{x} == multiset(a + b);
      SumPermutes(front, a + b, f);
      SumConcat(a, b, f);
      SumConcat(a + [x], b, f);
      SumConcat(a, [x], f);
      SumOne(x, f);
    }
  }

  function RuleTally(r: Rule): Contribution -> nat {
    (c: Contribution) => multiset(c.rules)[r]
  }

  function RefTally(ref: string): Rule -> nat {
    (r: Rule) => if r.ref == ref then 1 else 0
  }

  lemma {:induction false} RulesTallied(cs: seq<Contribution>, r: Rule)
    ensures multiset(RulesOf(cs))[r] == Sum(cs, RuleTally(r))
  {
    if cs != [] {
      RulesTallied(cs[..|cs| - 1], r);
    }
  }

  lemma {:induction false} RefsTallied(rules: seq<Rule>, ref: string)
    ensures multiset(Refs(rules))[ref] == Sum(rules, RefTally(ref))
  {
    if rules == [] {
      assert Refs(rules) == [];
    } else {
      var front, last := rules[..|rules| - 1], rules[|rules| - 1];
      RefsTallied(front, ref);
      assert Refs(rules) == Refs(front) + [last.ref];
    }
  }

  lemma RulesPermute(a: seq<Contribution>, b: seq<Contribution>)
    requires multiset(a) == multiset(b)
    ensures multiset(RulesOf(a)) == multiset(RulesOf(b))
    ensures multiset(Refs(RulesOf(a))) == multiset(Refs(RulesOf(b)))
  {
    forall r ensures multiset(RulesOf(a))[r] == multiset(RulesOf(b))[r] {
      RulesTallied(a, r);
      RulesTallied(b, r);
      SumPermutes(a, b, RuleTally(r));
    }
    forall x ensures multiset(Refs(RulesOf(a)))[x] == multiset(Refs(RulesOf(b)))[x] {
      RefsTallied(RulesOf(a), x);
      RefsTallied(RulesOf(b), x);
      SumPermutes(RulesOf(a), RulesOf(b), RefTally(x));
    }
  }

  lemma {:induction false} OfPhaseTally(cs: seq<Contribution>, p: string, c: Contribution)
    ensures multiset(OfPhase(cs, p))[c] == if c.phase == p then multiset(cs)[c] else 0
  {
    if cs != [] {
      var front, last := cs[..|cs| - 1], cs[|cs| - 1];
      OfPhaseTally(front, p, c);
      assert cs == front + [last];
    }
  }

  lemma OfPhasePermutes(a: seq<Contribution>, b: seq<Contribution>, p: string)
    requires multiset(a) == multiset(b)
    ensures multiset(OfPhase(a, p)) == multiset(OfPhase(b, p))
  {
    forall c ensures multiset(OfPhase(a, p))[c] == multiset(OfPhase(b, p))[c] {
      OfPhaseTally(a, p, c);
      OfPhaseTally(b, p, c);
    }
  }

  lemma DistinctPermutes<T>(s: seq<T>, t: seq<T>)
    requires multiset(s) == multiset(t) && Distinct(s)
    ensures Distinct(t)
  {
    DistinctMultiset(s);
    forall i, j | 0 <= i < j < |t| ensures t[i] != t[j] {
      if t[i] == t[j] {
        RepeatedCount(t, i, j);
      }
    }
  }

  /** Whether contributions are accepted does not depend on their order. */
  lemma AcceptsAnyOrder(cs: seq<Contribution>, ds: seq<Contribution>)
    requires multiset(cs) == multiset(ds) && Accepts(cs)
    ensures Accepts(ds)
  {
    var a, b := Sort(Leq, cs), Sort(Leq, ds);
    SortPermutes(Leq, cs);
    SortPermutes(Leq, ds);
    hide Sort, Admissible, OfPhase, RulesOf, Refs;
    forall p
      ensures Distinct(Refs(RulesOf(OfPhase(b, p))))
      ensures multiset(Refs(RulesOf(OfPhase(a, p)))) == multiset(Refs(RulesOf(OfPhase(b, p))))
    {
      OfPhasePermutes(a, b, p);
      RulesPermute(OfPhase(a, p), OfPhase(b, p));
      DistinctPermutes(Refs(RulesOf(OfPhase(a, p))), Refs(RulesOf(OfPhase(b, p))));
    }
    forall c | c in b ensures Admissible(c) {
      assert c in multiset(a);
    }
    assert BYPASS_REF !in multiset(Refs(RulesOf(OfPhase(a, CACHE))));
  }

  // ---------------------------------------------------------------------------
  // Every rule once, in order
  // ---------------------------------------------------------------------------

  lemma {:induction false} OfPhaseSorted(cs: seq<Contribution>, p: string)
    requires Sorted(Leq, cs)
    ensures Sorted(Leq, OfPhase(cs, p))
  {
    if cs != [] {
      var front, last := cs[..|cs| - 1], cs[|cs| - 1];
      OfPhaseSorted(front, p);
      OfPhaseMembers(front, p);
      hide Leq;
      forall c | c in OfPhase(front, p) ensures Leq(c, last) {
        var i :| 0 <= i < |front| && front[i] == c;
        assert cs[i] == c;
      }
    }
  }

  lemma SortedIsSort(s: seq<Contribution>)
    requires Sorted(Leq, s)
    ensures Sort(Leq, s) == s
  {
    LeqTotal();
    SortUnique(Leq, s, s);
  }

  /** The cache phase's list is the sorted contributions with the bypass placed after every one that is not later. */
  lemma CacheList(cs: seq<Contribution>)
    ensures Sorted(Leq, OfPhase(Sort(Leq, cs), CACHE))
    ensures PhaseList(cs, CACHE)
         == InsertLast(Leq, OfPhase(Sort(Leq, cs), CACHE), BypassOf(ClaimsOf(OfPhase(Sort(Leq, cs), CACHE))))
  {
    LeqTotal();
    SortSorted(Leq, cs);
    OfPhaseSorted(Sort(Leq, cs), CACHE);
    var list := OfPhase(Sort(Leq, cs), CACHE);
    var bypass := BypassOf(ClaimsOf(list));
    SortedIsSort(list);
    assert (list + [bypass])[..|list|] == list;
  }

  /** The rules the assembler adds to a phase. */
  function Added(cs: seq<Contribution>, p: string): seq<Rule> {
    if p == CACHE then BypassOf(ClaimsOf(OfPhase(Sort(Leq, cs), CACHE))).rules else []
  }

  lemma PhaseListPermutes(cs: seq<Contribution>, p: string)
    ensures Sorted(Leq, PhaseList(cs, p))
    ensures multiset(RulesOf(PhaseList(cs, p))) == multiset(RulesOf(OfPhase(cs, p)) + Added(cs, p))
    ensures multiset(Refs(RulesOf(PhaseList(cs, p)))) == multiset(Refs(RulesOf(OfPhase(cs, p)) + Added(cs, p)))
  {
    LeqTotal();
    SortSorted(Leq, cs);
    SortPermutes(Leq, cs);
    OfPhaseSorted(Sort(Leq, cs), p);
    OfPhasePermutes(Sort(Leq, cs), cs, p);
    var list := OfPhase(Sort(Leq, cs), p);
    hide Leq, OfPhase, ClaimsOf, Refs;
    if p == CACHE {
      var bypass := BypassOf(ClaimsOf(list));
      SortSorted(Leq, list + [bypass]);
      SortPermutes(Leq, list + [bypass]);
      hide Sort, BypassOf;
      RulesPermute(PhaseList(cs, p), OfPhase(cs, p) + [bypass]);
      RulesOfSnoc(OfPhase(cs, p), bypass);
    } else {
      RulesPermute(PhaseList(cs, p), OfPhase(cs, p));
      assert RulesOf(OfPhase(cs, p)) + [] == RulesOf(OfPhase(cs, p));
    }
  }

  lemma AddedRefs(cs: seq<Contribution>, p: string)
    ensures Refs(Added(cs, p)) == if p == CACHE then [BYPASS_REF] else []
    ensures Distinct(Refs(Added(cs, p)))
  {
    hide ClaimsOf, OfPhase, Sort;
  }

  lemma PhaseNamed(cs: seq<Contribution>, p: string)
    requires Accepts(cs)
    ensures p in Assembled(cs) <==> exists c :: c in cs && c.phase == p
    ensures p in Assembled(cs) ==> Assembled(cs)[p] == RulesOf(PhaseList(cs, p))
  {
    var sorted := Sort(Leq, cs);
    SortMembers(Leq, cs);
    OfPhaseMembers(sorted, p);
    PhasesAreKnown(sorted);
    hide Sort, Leq, PhaseList, RulesOf, OfPhase, Good;
    if OfPhase(sorted, p) != [] {
      assert OfPhase(sorted, p)[0] in OfPhase(sorted, p);
    }
  }

  lemma RefsOncePerPhase(cs: seq<Contribution>, p: string)
    requires Accepts(cs)
    ensures Distinct(Refs(RulesOf(PhaseList(cs, p))))
  {
    var sorted := Sort(Leq, cs);
    var given, all := OfPhase(sorted, p), RulesOf(OfPhase(cs, p)) + Added(cs, p);
    PhaseListPermutes(cs, p);
    SortPermutes(Leq, cs);
    OfPhasePermutes(sorted, cs, p);
    RulesPermute(given, OfPhase(cs, p));
    DistinctPermutes(Refs(RulesOf(given)), Refs(RulesOf(OfPhase(cs, p))));
    RefsConcat(RulesOf(OfPhase(cs, p)), Added(cs, p));
    AddedRefs(cs, p);
    SameMembers(Refs(RulesOf(given)), Refs(RulesOf(OfPhase(cs, p))));
    hide OfPhase, RulesOf, Refs, Added, Sort, Leq, PhaseList, Distinct;
    DistinctPermutes(Refs(all), Refs(RulesOf(PhaseList(cs, p))));
  }

  lemma SameMembers<T>(s: seq<T>, t: seq<T>)
    requires multiset(s) == multiset(t)
    ensures forall x :: x in s <==> x in t
  {
    assert forall x :: x in s <==> x in multiset(s);
  }

  /**
   A phase is assembled exactly when a contribution names it. Its rules are those contributed to it, each once,
   by (Order, Source), and in the cache phase one bypass; no two have one ref.
   */
  lemma EveryRuleOnce(cs: seq<Contribution>, p: string)
    requires Accepts(cs)
    ensures p in Assembled(cs) <==> exists c :: c in cs && c.phase == p
    ensures p in Assembled(cs) ==> Assembled(cs)[p] == RulesOf(PhaseList(cs, p)) && Sorted(Leq, PhaseList(cs, p))
    ensures p in Assembled(cs) ==> multiset(Assembled(cs)[p]) == multiset(RulesOf(OfPhase(cs, p)) + Added(cs, p))
    ensures p in Assembled(cs) ==> Distinct(Refs(Assembled(cs)[p]))
    ensures |Added(cs, p)| == if p == CACHE then 1 else 0
  {
    PhaseNamed(cs, p);
    PhaseListPermutes(cs, p);
    RefsOncePerPhase(cs, p);
    AddedRefs(cs, p);
  }
}
