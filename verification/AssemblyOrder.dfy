/** When the assembled rulesets do not depend on the order the contributions came in. */
module AssemblyOrder {
  import opened Text
  import opened FilterParse
  import opened HostFilter
  import opened RuleSpec
  import opened Sorting
  import opened Assembly
  import opened AssemblyFacts
  import opened Bypass
  import opened ClaimFold

  predicate Ruled(c: Contribution) {
    c.rules != []
  }

  predicate Claiming(c: Contribution) {
    c.claim != ""
  }

  function Filter(f: Contribution -> bool, cs: seq<Contribution>): seq<Contribution> {
    if cs == [] then []
    else
      var front, c := Filter(f, cs[..|cs| - 1]), cs[|cs| - 1];
      if f(c) then front + [c] else front
  }

  lemma {:induction false} FilterMembers(f: Contribution -> bool, cs: seq<Contribution>)
    ensures forall c :: c in Filter(f, cs) <==> c in cs && f(c)
  {
    if cs != [] {
      FilterMembers(f, cs[..|cs| - 1]);
      assert cs == cs[..|cs| - 1] + [cs[|cs| - 1]];
    }
  }

  lemma {:induction false} FilterTally(f: Contribution -> bool, cs: seq<Contribution>, c: Contribution)
    ensures multiset(Filter(f, cs))[c] == if f(c) then multiset(cs)[c] else 0
  {
    if cs != [] {
      var front, last := cs[..|cs| - 1], cs[|cs| - 1];
      FilterTally(f, front, c);
      assert cs == front + [last];
    }
  }

  lemma {:induction false} FilterSorted(f: Contribution -> bool, cs: seq<Contribution>)
    requires Sorted(Leq, cs)
    ensures Sorted(Leq, Filter(f, cs))
  {
    if cs != [] {
      var front, last := cs[..|cs| - 1], cs[|cs| - 1];
      FilterSorted(f, front);
      FilterMembers(f, front);
      hide Leq;
      forall c | c in Filter(f, front) ensures Leq(c, last) {
        var i :| 0 <= i < |front| && front[i] == c;
        assert cs[i] == c;
      }
    }
  }

  lemma FilterPermutes(f: Contribution -> bool, a: seq<Contribution>, b: seq<Contribution>)
    requires multiset(a) == multiset(b)
    ensures multiset(Filter(f, a)) == multiset(Filter(f, b))
  {
    forall c ensures multiset(Filter(f, a))[c] == multiset(Filter(f, b))[c] {
      FilterTally(f, a, c);
      FilterTally(f, b, c);
    }
  }

  /** Rules come from the contributions with rules, claims from those with a claim. */
  lemma {:induction false} FilterBearsAll(cs: seq<Contribution>)
    ensures RulesOf(Filter(Ruled, cs)) == RulesOf(cs)
    ensures ClaimsOf(Filter(Claiming, cs)) == ClaimsOf(cs)
  {
    if cs != [] {
      var front, last := cs[..|cs| - 1], cs[|cs| - 1];
      FilterBearsAll(front);
      RulesOfSnoc(Filter(Ruled, front), last);
      RulesOfSnoc(Filter(Claiming, front), last);
    }
  }

  lemma {:induction false} InsertRuled(list: seq<Contribution>, b: Contribution)
    requires Sorted(Leq, list)
    ensures RulesOf(InsertLast(Leq, list, b)) == RulesOf(InsertLast(Leq, Filter(Ruled, list), b))
  {
    if list != [] {
      var front, last := list[..|list| - 1], list[|list| - 1];
      var some := Filter(Ruled, list);
      if Leq(last, b) {
        FilterMembers(Ruled, list);
        FilterBearsAll(list);
        LeqTotal();
        if some != [] {
          var c := some[|some| - 1];
          assert c in some;
          var i :| 0 <= i < |list| && list[i] == c;
          assert Leq(c, last);
          assert Leq(c, b);
        }
        RulesOfSnoc(list, b);
        RulesOfSnoc(some, b);
      } else {
        InsertRuled(front, b);
        hide Leq;
        RulesOfSnoc(InsertLast(Leq, front, b), last);
        if Ruled(last) {
          assert some[..|some| - 1] == Filter(Ruled, front);
          RulesOfSnoc(InsertLast(Leq, Filter(Ruled, front), b), last);
        }
      }
    }
  }

  // ---------------------------------------------------------------------------
  // Ties that do not matter
  // ---------------------------------------------------------------------------

  /** Two contributions of one phase, Order and Source that both have rules, or claims that do not swap. */
  ghost predicate Matter(x: Contribution, y: Contribution) {
    x.phase == y.phase && Tied(Leq, x, y)
      && ((Ruled(x) && Ruled(y)) || (Claiming(x) && Claiming(y) && !Swaps(x.claim, y.claim)))
  }

  ghost predicate TiesMatter(cs: seq<Contribution>) {
    exists x, y :: x in cs && y in cs && x != y && Matter(x, y)
  }

  lemma {:induction false} ClaimsConcat(a: seq<Contribution>, b: seq<Contribution>)
    ensures ClaimsOf(a + b) == ClaimsOf(a) + ClaimsOf(b)
  {
    if b == [] {
      assert a + b == a;
    } else {
      var front, last := b[..|b| - 1], b[|b| - 1];
      ClaimsConcat(a, front);
      assert a + b == (a + front) + [last];
      RulesOfSnoc(a + front, last);
    }
  }

  lemma {:induction false} ClaimsAre(cs: seq<Contribution>)
    requires forall c :: c in cs ==> Claiming(c)
    ensures |ClaimsOf(cs)| == |cs|
    ensures forall v :: v in ClaimsOf(cs) <==> exists c :: c in cs && c.claim == v
  {
    if cs != [] {
      var front, last := cs[..|cs| - 1], cs[|cs| - 1];
      assert cs == front + [last];
      ClaimsAre(front);
      assert last in cs && Claiming(last);
      assert ClaimsOf(cs) == ClaimsOf(front) + [last.claim];
      assert forall v :: v in ClaimsOf(cs) <==> v in ClaimsOf(front) || v == last.claim;
    }
  }

  /** In a sorted list, what follows the last element of another sorted arrangement ties with it. */
  lemma BehindTies(a: seq<Contribution>, b: seq<Contribution>, k: nat, y: Contribution)
    requires a != [] && Sorted(Leq, a) && Sorted(Leq, b) && multiset(a) == multiset(b)
    requires k < |b| && b[k] == a[|a| - 1] && y in b[k + 1..]
    ensures y in a && Tied(Leq, b[k], y)
  {
    var j :| k + 1 <= j < |b| && b[j] == y;
    assert y in multiset(b);
    LeqTotal();
    hide Leq;
    var i :| 0 <= i < |a| && a[i] == y;
  }

  lemma SplitAround(b: seq<Contribution>, x: Contribution) returns (k: nat)
    requires x in b
    ensures k < |b| && b[k] == x && b == b[..k] + [x] + b[k + 1..]
    ensures multiset(b[..k] + b[k + 1..]) == multiset(b) - multiset{x}
  {
    k :| 0 <= k < |b| && b[k] == x;
    assert b == b[..k] + [x] + b[k + 1..];
  }

  lemma {:induction false} SortedWithout(b: seq<Contribution>, k: nat)
    requires k < |b| && Sorted(Leq, b)
    ensures Sorted(Leq, b[..k] + b[k + 1..])
  {
    hide Leq;
    var c := b[..k] + b[k + 1..];
    forall i, j | 0 <= i < j < |c| ensures Leq(c[i], c[j]) {
      var m, n := if i < k then i else i + 1, if j < k then j else j + 1;
      assert c[i] == b[m] && c[j] == b[n];
    }
  }

  lemma FoldClaim(cs: seq<Contribution>, ds: seq<Contribution>, x: Contribution)
    requires Claiming(x) && |ClaimsOf(cs)| == |ClaimsOf(ds)| && BypassText(ClaimsOf(cs)) == BypassText(ClaimsOf(ds))
    ensures BypassText(ClaimsOf(cs + [x])) == BypassText(ClaimsOf(ds + [x]))
  {
    RulesOfSnoc(cs, x);
    RulesOfSnoc(ds, x);
    FoldSnoc(ClaimsOf(cs), x.claim);
    FoldSnoc(ClaimsOf(ds), x.claim);
    hide BypassText, ClaimsOf;
  }

  ghost predicate ClaimsSwap(a: seq<Contribution>) {
    && (forall c :: c in a ==> Claiming(c))
    && forall x, y :: x in a && y in a && Tied(Leq, x, y) ==> Swaps(x.claim, y.claim)
  }

  lemma ClaimsSwapPart(a: seq<Contribution>, b: seq<Contribution>)
    requires ClaimsSwap(a) && forall c :: c in b ==> c in a
    ensures ClaimsSwap(b)
  {
    hide Claiming, Swaps, Leq;
  }

  lemma BehindSwaps(a: seq<Contribution>, b: seq<Contribution>, k: nat)
    requires a != [] && Sorted(Leq, a) && Sorted(Leq, b) && multiset(a) == multiset(b) && ClaimsSwap(a)
    requires k < |b| && b[k] == a[|a| - 1]
    ensures forall y :: y in b[k + 1..] ==> Claiming(y) && Swaps(b[k].claim, y.claim)
  {
    assert b[k] in a;
    hide Leq, Claiming, Swaps;
    forall y | y in b[k + 1..] ensures Claiming(y) && Swaps(b[k].claim, y.claim) {
      BehindTies(a, b, k, y);
    }
  }

  /** Sorted arrangements of the same claims print one bypass when tied claims swap. */
  lemma {:induction false} FoldAnyOrder(a: seq<Contribution>, b: seq<Contribution>)
    requires Sorted(Leq, a) && Sorted(Leq, b) && multiset(a) == multiset(b) && ClaimsSwap(a)
    ensures BypassText(ClaimsOf(a)) == BypassText(ClaimsOf(b))
    decreases |a|
  {
    SameSize(a, b);
    if a == [] {
      assert b == [];
    } else {
      var front, x := a[..|a| - 1], a[|a| - 1];
      assert a == front + [x];
      assert x in multiset(b) && Claiming(x);
      var k := SplitAround(b, x);
      var others := b[..k] + b[k + 1..];
      assert multiset(front) == multiset(others);
      SameMembers(front, others);
      assert forall i :: 0 <= i < |front| ==> front[i] == a[i];
      assert Sorted(Leq, front);
      hide *;
      SortedWithout(b, k);
      BehindSwaps(a, b, k);
      ClaimsSwapPart(a, front);
      FoldAnyOrder(front, others);
      SameClaimCount(front, others);
      FoldClaim(front, others, x);
      MoveClaim(b[..k], x, b[k + 1..]);
    }
  }

  lemma SameClaimCount(a: seq<Contribution>, b: seq<Contribution>)
    requires multiset(a) == multiset(b) && ClaimsSwap(a)
    ensures |ClaimsOf(a)| == |ClaimsOf(b)|
  {
    hide Claiming, Swaps, Leq;
    SameSize(a, b);
    SameMembers(a, b);
    ClaimsAre(a);
    ClaimsAre(b);
  }

  lemma MoveClaim(before: seq<Contribution>, x: Contribution, after: seq<Contribution>)
    requires Claiming(x) && forall y :: y in after ==> Claiming(y) && Swaps(x.claim, y.claim)
    ensures BypassText(ClaimsOf(before + [x] + after)) == BypassText(ClaimsOf(before + after + [x]))
  {
    ClaimsAre(after);
    RulesOfSnoc(before, x);
    RulesOfSnoc(before + after, x);
    ClaimsConcat(before + [x], after);
    ClaimsConcat(before, after);
    hide BypassText, ClaimsOf, Swaps;
    MoveBehind(ClaimsOf(before), x.claim, ClaimsOf(after));
  }

  /** The sorted contributions of one phase, from two input orders. */
  lemma PhaseOrders(cs: seq<Contribution>, ds: seq<Contribution>, p: string)
    requires multiset(cs) == multiset(ds)
    ensures var a, b := OfPhase(Sort(Leq, cs), p), OfPhase(Sort(Leq, ds), p);
      && multiset(a) == multiset(b) && Sorted(Leq, a) && Sorted(Leq, b) && |a| == |b|
      && forall c :: c in a ==> c in cs && c.phase == p
  {
    var a, b := OfPhase(Sort(Leq, cs), p), OfPhase(Sort(Leq, ds), p);
    LeqTotal();
    SortSorted(Leq, cs);
    SortSorted(Leq, ds);
    SortPermutes(Leq, cs);
    SortPermutes(Leq, ds);
    SortMembers(Leq, cs);
    OfPhaseSorted(Sort(Leq, cs), p);
    OfPhaseSorted(Sort(Leq, ds), p);
    OfPhasePermutes(Sort(Leq, cs), Sort(Leq, ds), p);
    OfPhaseMembers(Sort(Leq, cs), p);
    SameSize(a, b);
  }

  lemma OrdersAgree(cs: seq<Contribution>, ds: seq<Contribution>, p: string)
    requires multiset(cs) == multiset(ds) && !TiesMatter(cs)
    ensures var a, b := OfPhase(Sort(Leq, cs), p), OfPhase(Sort(Leq, ds), p);
      Filter(Ruled, a) == Filter(Ruled, b) && BypassText(ClaimsOf(a)) == BypassText(ClaimsOf(b))
        && (a != [] <==> b != [])
  {
    var a, b := OfPhase(Sort(Leq, cs), p), OfPhase(Sort(Leq, ds), p);
    PhaseOrders(cs, ds, p);
    hide OfPhase, Sort, Leq, BypassText, ClaimsOf, Filter;
    forall x, y | x in a && y in a && x != y ensures x.phase == y.phase && !Matter(x, y) {
      assert x in cs && y in cs;
    }
    assert Untied(a);
    hide *;
    RuledAgree(a, b);
    ClaimsAgree(a, b);
  }

  /** No two different contributions of the list make a tie that matters. */
  ghost predicate Untied(a: seq<Contribution>) {
    forall x, y :: x in a && y in a && x != y ==> x.phase == y.phase && !Matter(x, y)
  }

  lemma RuledTiesEqual(a: seq<Contribution>)
    requires Untied(a)
    ensures TiesEqual(Leq, Filter(Ruled, a))
  {
    FilterMembers(Ruled, a);
    hide Leq, Filter, Swaps;
    forall x, y | x in Filter(Ruled, a) && y in Filter(Ruled, a) && Tied(Leq, x, y) ensures x == y {
      assert x in a && y in a && Ruled(x) && Ruled(y);
    }
  }

  lemma RuledAgree(a: seq<Contribution>, b: seq<Contribution>)
    requires multiset(a) == multiset(b) && Sorted(Leq, a) && Sorted(Leq, b) && Untied(a)
    ensures Filter(Ruled, a) == Filter(Ruled, b)
  {
    hide *;
    LeqTotal();
    FilterSorted(Ruled, a);
    FilterSorted(Ruled, b);
    FilterPermutes(Ruled, a, b);
    RuledTiesEqual(a);
    SortedPermutationsEqual(Leq, Filter(Ruled, a), Filter(Ruled, b));
  }

  lemma ClaimTiesSwap(a: seq<Contribution>)
    requires Untied(a)
    ensures ClaimsSwap(Filter(Claiming, a))
  {
    FilterMembers(Claiming, a);
    forall c: Contribution ensures Swaps(c.claim, c.claim) {
    }
    hide Leq, Filter, Swaps;
    forall x, y | x in Filter(Claiming, a) && y in Filter(Claiming, a) && Tied(Leq, x, y)
      ensures Swaps(x.claim, y.claim)
    {
      assert x in a && y in a && Claiming(x) && Claiming(y);
    }
  }

  lemma ClaimsAgree(a: seq<Contribution>, b: seq<Contribution>)
    requires multiset(a) == multiset(b) && Sorted(Leq, a) && Sorted(Leq, b) && Untied(a)
    ensures BypassText(ClaimsOf(a)) == BypassText(ClaimsOf(b))
  {
    hide *;
    FilterSorted(Claiming, a);
    FilterSorted(Claiming, b);
    FilterPermutes(Claiming, a, b);
    FilterBearsAll(a);
    FilterBearsAll(b);
    ClaimTiesSwap(a);
    FoldAnyOrder(Filter(Claiming, a), Filter(Claiming, b));
  }

  /** Rearranging contributions changes neither acceptance nor a single rule, when no tie matters. */
  lemma AnyOrder(cs: seq<Contribution>, ds: seq<Contribution>)
    requires multiset(cs) == multiset(ds) && !TiesMatter(cs)
    ensures Accepts(cs) ==> Accepts(ds)
    ensures Assembled(cs) == Assembled(ds)
  {
    if Accepts(cs) {
      AcceptsAnyOrder(cs, ds);
    }
    hide TiesMatter, OfPhase, Sort, RulesOf, Filter, ClaimsOf, BypassText, Leq, Accepts;
    forall p
      ensures OfPhase(Sort(Leq, cs), p) != [] <==> OfPhase(Sort(Leq, ds), p) != []
      ensures RulesOf(PhaseList(cs, p)) == RulesOf(PhaseList(ds, p))
    {
      var a, b := OfPhase(Sort(Leq, cs), p), OfPhase(Sort(Leq, ds), p);
      OrdersAgree(cs, ds, p);
      FilterBearsAll(a);
      FilterBearsAll(b);
      if p == CACHE {
        CacheList(cs);
        CacheList(ds);
        InsertRuled(a, BypassOf(ClaimsOf(a)));
        InsertRuled(b, BypassOf(ClaimsOf(b)));
      }
    }
    hide PhaseList;
    assert Assembled(cs).Keys == Assembled(ds).Keys;
  }

  // ---------------------------------------------------------------------------
  // Ties that matter
  // ---------------------------------------------------------------------------

  ghost predicate Before<T>(x: T, y: T, s: seq<T>) {
    exists i, j :: 0 <= i < j < |s| && s[i] == x && s[j] == y
  }

  lemma BeforeSnoc<T>(x: T, y: T, s: seq<T>, z: T)
    requires Before(x, y, s)
    ensures Before(x, y, s + [z])
  {
    var i, j :| 0 <= i < j < |s| && s[i] == x && s[j] == y;
    assert (s + [z])[i] == x && (s + [z])[j] == y;
  }

  lemma BeforeLast<T>(x: T, y: T, s: seq<T>)
    requires s != [] && Before(x, y, s)
    ensures Before(x, y, s[..|s| - 1]) || (x in s[..|s| - 1] && y == s[|s| - 1])
  {
    var i, j :| 0 <= i < j < |s| && s[i] == x && s[j] == y;
    var front := s[..|s| - 1];
    assert front[i] == x;
    if j < |front| {
      assert front[j] == y;
    }
  }

  lemma BeforeEnd<T>(x: T, y: T, s: seq<T>)
    requires x in s
    ensures Before(x, y, s + [y])
  {
    var i :| 0 <= i < |s| && s[i] == x;
    assert (s + [y])[i] == x && (s + [y])[|s|] == y;
  }

  lemma {:induction false} InsertMembers(s: seq<Contribution>, z: Contribution)
    ensures forall c :: c in s ==> c in InsertLast(Leq, s, z)
  {
    InsertPermutes(Leq, s, z);
    forall c | c in s ensures c in InsertLast(Leq, s, z) {
      assert c in multiset(InsertLast(Leq, s, z));
    }
  }

  lemma {:induction false} InsertBefore(x: Contribution, y: Contribution, s: seq<Contribution>, z: Contribution)
    requires Before(x, y, s)
    ensures Before(x, y, InsertLast(Leq, s, z))
  {
    var front, last := s[..|s| - 1], s[|s| - 1];
    hide Leq;
    if Leq(last, z) {
      BeforeSnoc(x, y, s, z);
    } else {
      BeforeLast(x, y, s);
      if Before(x, y, front) {
        InsertBefore(x, y, front, z);
        BeforeSnoc(x, y, InsertLast(Leq, front, z), last);
      } else {
        InsertMembers(front, z);
        BeforeEnd(x, y, InsertLast(Leq, front, z));
      }
    }
  }

  /** A stable sort keeps two tied contributions in the order they came. */
  lemma {:induction false} SortBefore(x: Contribution, y: Contribution, others: seq<Contribution>)
    requires Tied(Leq, x, y)
    ensures Before(x, y, Sort(Leq, [x, y] + others))
  {
    var all := [x, y] + others;
    if others == [] {
      assert all == [x, y] && all[..1] == [x] && [x][..0] == [];
      assert Sort(Leq, []) == [] && Sort(Leq, [x]) == [x] && Sort(Leq, [x, y]) == [x] + [y];
      BeforeEnd(x, y, [x]);
    } else {
      var n := |others| - 1;
      assert all[..|all| - 1] == [x, y] + others[..n];
      SortBefore(x, y, others[..n]);
      hide Before;
      InsertBefore(x, y, Sort(Leq, [x, y] + others[..n]), others[n]);
    }
  }

  lemma {:induction false} OfPhaseBefore(x: Contribution, y: Contribution, s: seq<Contribution>)
    requires Before(x, y, s) && x.phase == y.phase
    ensures Before(x, y, OfPhase(s, x.phase))
  {
    var front, last := s[..|s| - 1], s[|s| - 1];
    BeforeLast(x, y, s);
    hide Before;
    if Before(x, y, front) {
      OfPhaseBefore(x, y, front);
      BeforeSnoc(x, y, OfPhase(front, x.phase), last);
    } else {
      OfPhaseMembers(front, x.phase);
      BeforeEnd(x, y, OfPhase(front, x.phase));
    }
  }

  lemma BeforeConcat<T>(x: T, y: T, s: seq<T>, t: seq<T>)
    requires Before(x, y, s) || (x in s && y in t)
    ensures Before(x, y, s + t)
  {
    if Before(x, y, s) {
      var i, j :| 0 <= i < j < |s| && s[i] == x && s[j] == y;
      assert (s + t)[i] == x && (s + t)[j] == y;
    } else {
      var i :| 0 <= i < |s| && s[i] == x;
      var j :| 0 <= j < |t| && t[j] == y;
      assert (s + t)[i] == x && (s + t)[|s| + j] == y;
    }
  }

  lemma {:induction false} RulesOfMember(x: Contribution, s: seq<Contribution>)
    requires x in s && x.rules != []
    ensures x.rules[0] in RulesOf(s)
  {
    if x != s[|s| - 1] {
      RulesOfMember(x, s[..|s| - 1]);
    }
  }

  lemma {:induction false} RulesBefore(x: Contribution, y: Contribution, s: seq<Contribution>)
    requires Before(x, y, s) && x.rules != [] && y.rules != []
    ensures Before(x.rules[0], y.rules[0], RulesOf(s))
  {
    var front, last := s[..|s| - 1], s[|s| - 1];
    BeforeLast(x, y, s);
    if Before(x, y, front) {
      RulesBefore(x, y, front);
    } else {
      RulesOfMember(x, front);
    }
    hide Before;
    BeforeConcat(x.rules[0], y.rules[0], RulesOf(front), last.rules);
  }

  /** Of two tied contributions with rules, the one that came first has its rules first. */
  lemma FirstComeFirst(x: Contribution, y: Contribution, others: seq<Contribution>)
    requires Tied(Leq, x, y) && x.phase == y.phase && x.rules != [] && y.rules != []
    ensures Before(x.rules[0], y.rules[0], RulesOf(PhaseList([x, y] + others, x.phase)))
  {
    var cs := [x, y] + others;
    SortBefore(x, y, others);
    hide Before;
    OfPhaseBefore(x, y, Sort(Leq, cs));
    if x.phase == CACHE {
      CacheList(cs);
      var list := OfPhase(Sort(Leq, cs), CACHE);
      InsertBefore(x, y, list, BypassOf(ClaimsOf(list)));
    }
    RulesBefore(x, y, PhaseList(cs, x.phase));
  }

  lemma NotBothWays(a: Rule, b: Rule, rules: seq<Rule>)
    requires Before(a, b, rules) && Before(b, a, rules)
    ensures !Distinct(Refs(rules))
  {
    var i, j :| 0 <= i < j < |rules| && rules[i] == a && rules[j] == b;
    var k, l :| 0 <= k < l < |rules| && rules[k] == b && rules[l] == a;
    assert Refs(rules)[i] == Refs(rules)[l] && Refs(rules)[j] == Refs(rules)[k];
  }

  lemma TakeTwo<T>(cs: seq<T>, x: T, y: T) returns (others: seq<T>)
    requires x in cs && y in cs && x != y
    ensures multiset([x, y] + others) == multiset(cs) && multiset([y, x] + others) == multiset(cs)
  {
    var a, b := TakeOut(cs, x);
    assert y in a + b;
    var c, d := TakeOut(a + b, y);
    others := c + d;
    assert multiset([x, y] + others) == multiset{x} + multiset{y} + multiset(c + d);
    assert multiset([y, x] + others) == multiset{x} + multiset{y} + multiset(c + d);
  }

  /** Two tied contributions with rules at the head of the input: exchanging them gives other rulesets. */
  lemma RulesExchange(x: Contribution, y: Contribution, others: seq<Contribution>)
    requires Accepts([x, y] + others) && Accepts([y, x] + others)
    requires x != y && x.phase == y.phase && Tied(Leq, x, y) && Ruled(x) && Ruled(y)
    ensures Assembled([x, y] + others) != Assembled([y, x] + others)
  {
    var first, second := [x, y] + others, [y, x] + others;
    var p := x.phase;
    FirstComeFirst(x, y, others);
    FirstComeFirst(y, x, others);
    assert first[0] in first && second[0] in second;
    hide Accepts, Before, PhaseList, RulesOf, Assembled, Refs, Leq;
    EveryRuleOnce(first, p);
    EveryRuleOnce(second, p);
    if Assembled(first) == Assembled(second) {
      NotBothWays(x.rules[0], y.rules[0], Assembled(first)[p]);
    }
  }

  // ---------------------------------------------------------------------------
  // Claims that do not swap
  // ---------------------------------------------------------------------------

  /** Wherever a contribution is inserted, two tied neighbours stay neighbours in their order. */
  lemma {:induction false} InsertAround(a: seq<Contribution>, x: Contribution, y: Contribution, b: seq<Contribution>,
      z: Contribution)
    returns (a': seq<Contribution>, b': seq<Contribution>)
    requires Tied(Leq, x, y)
    ensures InsertLast(Leq, a + [x, y] + b, z) == a' + [x, y] + b'
    ensures InsertLast(Leq, a + [y, x] + b, z) == a' + [y, x] + b'
    decreases |b|
  {
    LeqTotal();
    hide Leq;
    if b == [] {
      var s, t := a + [x, y] + b, a + [y, x] + b;
      assert s[..|s| - 1] == a + [x] && t[..|t| - 1] == a + [y];
      assert (a + [x])[..|a|] == a && (a + [y])[..|a|] == a;
      a', b' := if Leq(y, z) then a else InsertLast(Leq, a, z), if Leq(y, z) then [z] else [];
    } else {
      var front, last := b[..|b| - 1], b[|b| - 1];
      var s, t := a + [x, y] + b, a + [y, x] + b;
      assert s[..|s| - 1] == a + [x, y] + front && t[..|t| - 1] == a + [y, x] + front;
      if Leq(last, z) {
        a', b' := a, b + [z];
      } else {
        a', b' := InsertAround(a, x, y, front, z);
        b' := b' + [last];
      }
    }
  }

  lemma {:induction false} SortAround(x: Contribution, y: Contribution, others: seq<Contribution>)
    returns (a: seq<Contribution>, b: seq<Contribution>)
    requires Tied(Leq, x, y)
    ensures Sort(Leq, [x, y] + others) == a + [x, y] + b
    ensures Sort(Leq, [y, x] + others) == a + [y, x] + b
  {
    if others == [] {
      SortPair(x, y);
      SortPair(y, x);
      a, b := [], [];
      assert [x, y] + [] == [] + [x, y] + [] && [y, x] + [] == [] + [y, x] + [];
    } else {
      var n := |others| - 1;
      SortLast([x, y], others);
      SortLast([y, x], others);
      hide *;
      a, b := SortAround(x, y, others[..n]);
      a, b := InsertAround(a, x, y, b, others[n]);
    }
  }

  lemma SortLast(two: seq<Contribution>, others: seq<Contribution>)
    requires others != []
    ensures Sort(Leq, two + others) == InsertLast(Leq, Sort(Leq, two + others[..|others| - 1]), others[|others| - 1])
  {
    hide Leq, InsertLast;
    var all := two + others;
    assert all[..|all| - 1] == two + others[..|others| - 1] && all[|all| - 1] == others[|others| - 1];
  }

  lemma SortPair(x: Contribution, y: Contribution)
    requires Leq(x, y)
    ensures Sort(Leq, [x, y]) == [x, y]
  {
    hide Leq;
    assert [x, y][..1] == [x] && [x][..0] == [];
    assert Sort(Leq, [x]) == InsertLast(Leq, Sort(Leq, []), x);
  }

  lemma {:induction false} OfPhaseConcat(a: seq<Contribution>, b: seq<Contribution>, p: string)
    ensures OfPhase(a + b, p) == OfPhase(a, p) + OfPhase(b, p)
  {
    if b == [] {
      assert a + b == a;
    } else {
      var front, last := b[..|b| - 1], b[|b| - 1];
      OfPhaseConcat(a, front, p);
      OfPhaseSnoc(a + front, last, p);
      OfPhaseSnoc(front, last, p);
      hide OfPhase;
      assert a + b == (a + front) + [last] && b == front + [last];
    }
  }

  /** The claims of a phase that holds x and y as neighbours. */
  lemma ClaimsAround(a: seq<Contribution>, x: Contribution, y: Contribution, b: seq<Contribution>)
    requires x.phase == y.phase == CACHE && Claiming(x) && Claiming(y)
    ensures ClaimsOf(OfPhase(a + [x, y] + b, CACHE))
         == ClaimsOf(OfPhase(a, CACHE)) + [x.claim, y.claim] + ClaimsOf(OfPhase(b, CACHE))
  {
    OfPhaseConcat(a + [x, y], b, CACHE);
    OfPhaseSnoc(a, x, CACHE);
    OfPhaseSnoc(a + [x], y, CACHE);
    var list, rest := OfPhase(a, CACHE), OfPhase(b, CACHE);
    ClaimsConcat((list + [x]) + [y], rest);
    RulesOfSnoc(list, x);
    RulesOfSnoc(list + [x], y);
    hide OfPhase, ClaimsOf;
    assert a + [x, y] == (a + [x]) + [y];
    assert ClaimsOf(list) + [x.claim] + [y.claim] == ClaimsOf(list) + [x.claim, y.claim];
  }

  lemma OneRef(r: Rule, s: Rule, rules: seq<Rule>)
    requires Distinct(Refs(rules)) && r in rules && s in rules && r.ref == s.ref
    ensures r == s
  {
    var i :| 0 <= i < |rules| && rules[i] == r;
    var j :| 0 <= j < |rules| && rules[j] == s;
    assert Refs(rules)[i] == Refs(rules)[j];
  }

  lemma BypassIsIn(cs: seq<Contribution>, c: Contribution)
    requires Accepts(cs) && c in cs && c.phase == CACHE
    ensures CACHE in Assembled(cs) && Distinct(Refs(Assembled(cs)[CACHE]))
    ensures BypassOf(ClaimsOf(OfPhase(Sort(Leq, cs), CACHE))).rules[0] in Assembled(cs)[CACHE]
  {
    EveryRuleOnce(cs, CACHE);
    var rule := BypassOf(ClaimsOf(OfPhase(Sort(Leq, cs), CACHE))).rules[0];
    var given := RulesOf(OfPhase(cs, CACHE));
    assert Added(cs, CACHE) == [rule];
    hide *;
    assert (given + [rule])[|given|] == rule;
    assert rule in multiset(given + [rule]);
  }

  /** Two tied contributions whose claims do not swap at the head of the input: exchanging them changes the bypass. */
  lemma ClaimsExchange(x: Contribution, y: Contribution, others: seq<Contribution>)
    requires Accepts([x, y] + others) && Accepts([y, x] + others)
    requires x.phase == y.phase == CACHE && Tied(Leq, x, y) && Claiming(x) && Claiming(y) && !Swaps(x.claim, y.claim)
    ensures Assembled([x, y] + others) != Assembled([y, x] + others)
  {
    var first, second := [x, y] + others, [y, x] + others;
    var a, b := SortAround(x, y, others);
    ClaimsAround(a, x, y, b);
    ClaimsAround(a, y, x, b);
    assert first[0] == x && second[0] == y;
    hide Accepts, Sort, OfPhase, ClaimsOf, Leq, Refs, Assembled, BypassText, Swaps;
    FoldSwap(ClaimsOf(OfPhase(a, CACHE)), x.claim, y.claim, ClaimsOf(OfPhase(b, CACHE)));
    BypassIsIn(first, x);
    BypassIsIn(second, y);
    var r := BypassOf(ClaimsOf(OfPhase(Sort(Leq, first), CACHE))).rules[0];
    var s := BypassOf(ClaimsOf(OfPhase(Sort(Leq, second), CACHE))).rules[0];
    if Assembled(first) == Assembled(second) {
      OneRef(r, s, Assembled(first)[CACHE]);
    }
  }

  // ---------------------------------------------------------------------------
  // Exactly when the order matters
  // ---------------------------------------------------------------------------

  /** A tie that matters: some other input order gives other rulesets. */
  lemma TiesThatMatter(cs: seq<Contribution>, x: Contribution, y: Contribution) returns (ds: seq<Contribution>)
    requires Accepts(cs) && x in cs && y in cs && x != y && Matter(x, y)
    ensures multiset(ds) == multiset(cs) && Assembled(ds) != Assembled(cs)
  {
    var others := TakeTwo(cs, x, y);
    var first, second := [x, y] + others, [y, x] + others;
    AcceptsAnyOrder(cs, first);
    AcceptsAnyOrder(cs, second);
    hide Accepts, Assembled, Leq, Swaps;
    if Ruled(x) && Ruled(y) {
      RulesExchange(x, y, others);
    } else {
      ClaimIsCache(cs, x);
      ClaimsExchange(x, y, others);
    }
    ds := if Assembled(first) != Assembled(cs) then first else second;
  }

  lemma ClaimIsCache(cs: seq<Contribution>, x: Contribution)
    requires Accepts(cs) && x in cs && Claiming(x)
    ensures x.phase == CACHE
  {
    SortMembers(Leq, cs);
    assert x in Sort(Leq, cs);
    hide Sort, LooksGrouped, RuleOk;
    assert Admissible(x);
  }

  /**
   The rulesets are the same for every input order exactly when no two contributions of one phase, Order and Source
   both have rules or have claims that do not swap.
   */
  lemma InputOrderIff(cs: seq<Contribution>)
    requires Accepts(cs)
    ensures (forall ds :: multiset(ds) == multiset(cs) ==> Assembled(ds) == Assembled(cs)) <==> !TiesMatter(cs)
  {
    hide Accepts, Assembled, Matter;
    if TiesMatter(cs) {
      var x, y :| x in cs && y in cs && x != y && Matter(x, y);
      var ds := TiesThatMatter(cs, x, y);
    } else {
      forall ds | multiset(ds) == multiset(cs) ensures Assembled(ds) == Assembled(cs) {
        AnyOrder(cs, ds);
      }
    }
  }

  /**
   Claims that are groups swap only when they are one claim: a tie then matters when both have rules or different
   claims.
   */
  lemma GroupTiesMatter(x: Contribution, y: Contribution, d: Expr, e: Expr)
    requires Claiming(x) ==> OperandText(x.claim, Paren(d))
    requires Claiming(y) ==> OperandText(y.claim, Paren(e))
    ensures Matter(x, y)
       <==> (x.phase == y.phase && Tied(Leq, x, y)
             && ((Ruled(x) && Ruled(y)) || (Claiming(x) && Claiming(y) && x.claim != y.claim)))
  {
    hide Leq, OperandText, Swaps;
    if Claiming(x) && Claiming(y) {
      GroupsSwap(x.claim, y.claim, d, e);
    }
  }
}
