/**
 Tunnel ingress order (cloudflare/edgespec/order.go): cloudflared takes the first
 rule that matches, and its `*` spans dots.
 */
module HostOrder {
  import opened Text
  import Sorting

  // ---------------------------------------------------------------------------
  // Names and patterns
  // ---------------------------------------------------------------------------

  predicate IsWildcard(host: string) {
    HasPrefix(host, "*.")
  }

  function LabelCount(host: string): nat {
    Count(host, '.') + 1
  }

  /** `strings.Split(s, ".")`. */
  function Split(s: string): (labels: seq<string>)
    ensures |labels| >= 1
  {
    if s == [] then [[]]
    else
      var rest := Split(s[1..]);
      if s[0] == '.' then [[]] + rest else [[s[0]] + rest[0]] + rest[1..]
  }

  function Join(labels: seq<string>): string
    requires |labels| >= 1
  {
    if |labels| == 1 then labels[0] else labels[0] + "." + Join(labels[1..])
  }

  lemma {:induction false} JoinSplit(s: string)
    ensures Join(Split(s)) == s
    ensures |Split(s)| == LabelCount(s)
  {
    if s != [] {
      JoinSplit(s[1..]);
      var rest := Split(s[1..]);
      if s[0] == '.' {
        assert Split(s) == [[]] + rest;
        hide Split, LabelCount;
        assert ([[]] + rest)[1..] == rest;
        assert Join([[]] + rest) == [] + "." + Join(rest);
      } else {
        var labels := [[s[0]] + rest[0]] + rest[1..];
        assert labels[1..] == rest[1..];
        assert Join(labels) == [s[0]] + Join(rest);
      }
    }
  }

  predicate NameChar(c: char) {
    'a' <= c <= 'z' || 'A' <= c <= 'Z' || '0' <= c <= '9' || c == '-' || c == '_'
  }

  /** A name a request can carry: labels that are not empty, of host characters. */
  predicate Concrete(name: string) {
    forall lab :: lab in Split(name) ==> lab != [] && forall i :: 0 <= i < |lab| ==> NameChar(lab[i])
  }

  predicate WellFormed(pattern: string) {
    pattern == "*" || Concrete(pattern) || (IsWildcard(pattern) && Concrete(pattern[2..]))
  }

  /** cloudflared's matching of one rule: `*.S` takes every name that ends in `.S`. */
  predicate Matches(pattern: string, name: string) {
    if pattern == "*" then true
    else if IsWildcard(pattern) then HasSuffix(name, pattern[1..])
    else pattern == name
  }

  lemma {:induction false} ConcreteChars(name: string)
    requires Concrete(name)
    ensures name != [] && name[0] != '.'
    ensures forall i :: 0 <= i < |name| ==> NameChar(name[i]) || name[i] == '.'
  {
    ConcreteCharsOf(name);
    assert Split(name)[0] in Split(name);
  }

  lemma {:induction false} ConcreteCharsOf(s: string)
    requires forall k, i :: 0 <= k < |Split(s)| && 0 <= i < |Split(s)[k]| ==> NameChar(Split(s)[k][i])
    ensures forall i :: 0 <= i < |s| ==> NameChar(s[i]) || s[i] == '.'
  {
    if s != [] {
      var rest := Split(s[1..]);
      forall k, i | 0 <= k < |rest| && 0 <= i < |rest[k]| ensures NameChar(rest[k][i]) {
        if s[0] == '.' {
          assert Split(s)[k + 1] == rest[k];
        } else if k == 0 {
          assert Split(s)[0][i + 1] == rest[0][i];
        } else {
          assert Split(s)[k] == rest[k];
        }
      }
      ConcreteCharsOf(s[1..]);
      if s[0] != '.' {
        assert Split(s)[0][0] == s[0];
      }
    }
  }

  lemma {:induction false} SplitPrepend(lab: string, s: string)
    requires '.' !in lab
    ensures Split(lab + "." + s) == [lab] + Split(s)
  {
    if lab == [] {
      assert lab + "." + s == "." + s;
      assert ("." + s)[1..] == s;
    } else {
      var t := lab + "." + s;
      assert t[1..] == lab[1..] + "." + s;
      SplitPrepend(lab[1..], s);
      assert [t[0]] + lab[1..] == lab;
    }
  }

  lemma SplitOne(c: char)
    requires c != '.'
    ensures Split([c]) == [[c]]
  {
    var rest := Split([]);
    assert [c][1..] == [] && rest == [[]];
    assert [c] + rest[0] == [c] && rest[1..] == [];
  }

  // ---------------------------------------------------------------------------
  // The comparator
  // ---------------------------------------------------------------------------

  /** The i-th label from the right, from 1. */
  function Right(labels: seq<string>, i: nat): string
    requires 1 <= i <= |labels|
  {
    labels[|labels| - i]
  }

  /** The comparison of labels from the i-th on, counted from the right. */
  function CompareFrom(al: seq<string>, bl: seq<string>, i: nat): int
    requires i >= 1
    decreases |al| - i
  {
    if i > |al| || i > |bl| then |al| - |bl|
    else
      var d := Compare(Right(al, i), Right(bl, i));
      if d != 0 then d else CompareFrom(al, bl, i + 1)
  }

  function Labels(name: string): (labels: seq<string>)
    ensures |labels| >= 1
  {
    Split(ToLower(name))
  }

  function CanonicalOrder(a: string, b: string): int {
    CompareFrom(Labels(a), Labels(b), 1)
  }

  method CanonicalCompare(a: string, b: string) returns (d: int)
    ensures d == CanonicalOrder(a, b)
  {
    var al := Labels(a);
    var bl := Labels(b);
    var i := 1;
    while i <= |al| && i <= |bl|
      invariant 1 <= i
      invariant CompareFrom(al, bl, i) == CompareFrom(al, bl, 1)
      decreases |al| - i
    {
      d := Compare(Right(al, i), Right(bl, i));
      if d != 0 {
        return;
      }
      i := i + 1;
    }
    return |al| - |bl|;
  }

  /** Section 6.1 of RFC 4034: the last k labels agree, and there a is absent or smaller. */
  ghost predicate AgreeThenBefore(al: seq<string>, bl: seq<string>, k: nat) {
    && k <= |al| && k <= |bl|
    && (forall i :: 1 <= i <= k ==> Right(al, i) == Right(bl, i))
    && (k < |bl|)
    && (k == |al| || (Compare(Right(al, k + 1), Right(bl, k + 1)) < 0))
  }

  lemma {:induction false} CompareFromIsRfc4034(al: seq<string>, bl: seq<string>, i: nat)
    requires 1 <= i <= |al| + 1 && i <= |bl| + 1
    requires forall j :: 1 <= j < i ==> Right(al, j) == Right(bl, j)
    ensures CompareFrom(al, bl, i) < 0 <==> exists k: nat :: AgreeThenBefore(al, bl, k)
    decreases |al| - i
  {
    if i <= |al| && i <= |bl| && Right(al, i) == Right(bl, i) {
      CompareZero(Right(al, i), Right(bl, i));
      CompareFromIsRfc4034(al, bl, i + 1);
    } else {
      if i <= |al| && i <= |bl| {
        CompareZero(Right(al, i), Right(bl, i));
      }
      if CompareFrom(al, bl, i) < 0 {
        assert AgreeThenBefore(al, bl, i - 1);
      }
      forall k: nat | AgreeThenBefore(al, bl, k) ensures CompareFrom(al, bl, i) < 0 {
        if k < i - 1 {
          CompareZero(Right(al, k + 1), Right(bl, k + 1));
        }
      }
    }
  }

  /** The comparator is the canonical DNS name order of section 6.1 of RFC 4034. */
  lemma CanonicalIsRfc4034(a: string, b: string)
    ensures CanonicalOrder(a, b) < 0 <==>
      exists k: nat :: AgreeThenBefore(Labels(a), Labels(b), k)
  {
    CompareFromIsRfc4034(Labels(a), Labels(b), 1);
  }

  lemma {:induction false} CompareFromFlip(al: seq<string>, bl: seq<string>, i: nat)
    requires i >= 1
    ensures CompareFrom(bl, al, i) == -CompareFrom(al, bl, i)
    decreases |al| - i
  {
    if i <= |al| && i <= |bl| {
      CompareFlip(Right(al, i), Right(bl, i));
      CompareFromFlip(al, bl, i + 1);
    }
  }

  lemma {:induction false} CompareFromTransitive(al: seq<string>, bl: seq<string>, cl: seq<string>, i: nat)
    requires 1 <= i <= |al| + 1 && i <= |bl| + 1 && i <= |cl| + 1
    requires CompareFrom(al, bl, i) <= 0 && CompareFrom(bl, cl, i) <= 0
    ensures CompareFrom(al, cl, i) <= 0
    decreases |al| - i
  {
    if i <= |al| && i <= |bl| && i <= |cl| {
      var a, b, c := Right(al, i), Right(bl, i), Right(cl, i);
      CompareTransitive(a, b, c);
      CompareZero(a, b);
      CompareZero(b, c);
      CompareZero(a, c);
      if a == b == c {
        CompareFromTransitive(al, bl, cl, i + 1);
      }
    }
  }

  lemma {:induction false} CompareFromZero(al: seq<string>, bl: seq<string>, i: nat)
    requires 1 <= i <= |al| + 1 && i <= |bl| + 1
    requires forall j :: 1 <= j < i ==> Right(al, j) == Right(bl, j)
    ensures CompareFrom(al, bl, i) == 0 <==> al == bl
    decreases |al| - i
  {
    if i <= |al| && i <= |bl| {
      CompareZero(Right(al, i), Right(bl, i));
      if Right(al, i) == Right(bl, i) {
        CompareFromZero(al, bl, i + 1);
      }
    } else if |al| == |bl| {
      forall k | 0 <= k < |al| ensures al[k] == bl[k] {
        assert Right(al, |al| - k) == Right(bl, |al| - k);
      }
    }
  }

  lemma CanonicalTies(a: string, b: string)
    ensures CanonicalOrder(a, b) == 0 <==> ToLower(a) == ToLower(b)
  {
    CompareFromZero(Labels(a), Labels(b), 1);
    JoinSplit(ToLower(a));
    JoinSplit(ToLower(b));
  }

  /** The comparator OrderHosts sorts by. */
  function HostCompare(a: string, b: string): int {
    if IsWildcard(a) != IsWildcard(b) then (if IsWildcard(a) then 1 else -1)
    else if IsWildcard(a) && LabelCount(b) != LabelCount(a) then LabelCount(b) - LabelCount(a)
    else CanonicalOrder(a, b)
  }

  predicate HostLeq(a: string, b: string) {
    HostCompare(a, b) <= 0
  }

  lemma LowerKeepsShape(a: string, b: string)
    requires ToLower(a) == ToLower(b)
    ensures IsWildcard(a) == IsWildcard(b) && LabelCount(a) == LabelCount(b)
  {
    LowerKeepsDots(a, b);
    assert forall i :: 0 <= i < |a| ==> LowerChar(a[i]) == ToLower(a)[i] == LowerChar(b[i]);
    if |a| >= 2 {
      assert LowerChar(a[0]) == LowerChar(b[0]) && LowerChar(a[1]) == LowerChar(b[1]);
      assert a[..2] == "*." <==> a[0] == '*' && a[1] == '.';
      assert b[..2] == "*." <==> b[0] == '*' && b[1] == '.';
    }
  }

  lemma {:induction false} LowerKeepsDots(a: string, b: string)
    requires ToLower(a) == ToLower(b)
    ensures Count(a, '.') == Count(b, '.')
  {
    assert |a| == |ToLower(a)| == |b|;
    if a != [] {
      assert LowerChar(a[0]) == ToLower(a)[0] == LowerChar(b[0]);
      assert ToLower(a[1..]) == ToLower(a)[1..] == ToLower(b)[1..] == ToLower(b[1..]);
      LowerKeepsDots(a[1..], b[1..]);
    }
  }

  /** The comparator is a total preorder, and its ties are exactly the names equal up to ASCII case. */
  lemma HostOrderTotal()
    ensures Sorting.TotalPreorder(HostLeq)
    ensures forall a, b :: Sorting.Tied(HostLeq, a, b) <==> ToLower(a) == ToLower(b)
  {
    forall a, b ensures HostLeq(a, b) || HostLeq(b, a)
      ensures Sorting.Tied(HostLeq, a, b) <==> ToLower(a) == ToLower(b)
    {
      CompareFromFlip(Labels(a), Labels(b), 1);
      CanonicalTies(a, b);
      if ToLower(a) == ToLower(b) {
        LowerKeepsShape(a, b);
      }
    }
    forall a, b, c | HostLeq(a, b) && HostLeq(b, c) ensures HostLeq(a, c) {
      if IsWildcard(a) == IsWildcard(b) == IsWildcard(c) &&
         (!IsWildcard(a) || LabelCount(a) == LabelCount(b) == LabelCount(c)) {
        CompareFromTransitive(Labels(a), Labels(b), Labels(c), 1);
      }
    }
  }

  /**
   One host may stand before another: no wildcard before an exact host, no wildcard of fewer labels before one of more,
   and within one part no name before one that the canonical order puts first.
   */
  ghost predicate InOrder(a: string, b: string) {
    if IsWildcard(a) != IsWildcard(b) then !IsWildcard(a)
    else if IsWildcard(a) && LabelCount(a) != LabelCount(b) then LabelCount(a) > LabelCount(b)
    else !exists k: nat :: AgreeThenBefore(Labels(b), Labels(a), k)
  }

  /** Exact hosts, then wildcards with more labels first, each part in the canonical DNS order. */
  ghost predicate IngressOrder(hosts: seq<string>) {
    forall i, j :: 0 <= i < j < |hosts| ==> InOrder(hosts[i], hosts[j])
  }

  lemma HostLeqIs(a: string, b: string)
    ensures HostLeq(a, b) <==> InOrder(a, b)
  {
    CanonicalIsRfc4034(b, a);
    CompareFromFlip(Labels(a), Labels(b), 1);
  }

  /** The comparator's sorted lists are exactly the lists in ingress order. */
  lemma IngressOrderIff(hosts: seq<string>)
    ensures Sorting.Sorted(HostLeq, hosts) <==> IngressOrder(hosts)
  {
    forall a, b ensures HostLeq(a, b) <==> InOrder(a, b) {
      HostLeqIs(a, b);
    }
    hide HostLeq, InOrder;
  }

  // ---------------------------------------------------------------------------
  // OrderHosts
  // ---------------------------------------------------------------------------

  function Ordered(hosts: seq<string>): seq<string> {
    Sorting.Sort(HostLeq, hosts)
  }

  /** OrderHosts: a stable sort of a copy. */
  method OrderHosts(hosts: seq<string>) returns (out: seq<string>)
    ensures out == Ordered(hosts)
    ensures multiset(out) == multiset(hosts) && IngressOrder(out)
  {
    var a := new string[|hosts|](i requires 0 <= i < |hosts| => hosts[i]);
    assert a[..] == hosts;
    Sorting.SortInPlace(HostLeq, a);
    out := a[..];
    OrderedIs(hosts);
  }

  lemma OrderedIs(hosts: seq<string>)
    ensures Sorting.Sorted(HostLeq, Ordered(hosts)) && IngressOrder(Ordered(hosts))
    ensures forall h :: h in Ordered(hosts) <==> h in hosts
    ensures multiset(Ordered(hosts)) == multiset(hosts)
  {
    HostOrderTotal();
    Sorting.SortSorted(HostLeq, hosts);
    Sorting.SortMembers(HostLeq, hosts);
    Sorting.SortPermutes(HostLeq, hosts);
    IngressOrderIff(Ordered(hosts));
  }

  ghost predicate CaseDistinct(hosts: seq<string>) {
    forall x, y :: x in hosts && y in hosts && ToLower(x) == ToLower(y) ==> x == y
  }

  ghost predicate OrderIndependent(hosts: seq<string>) {
    forall other: seq<string> :: multiset(other) == multiset(hosts) ==> Ordered(other) == Ordered(hosts)
  }

  /** The ingress order is independent of authoring order exactly when no two hosts differ only in case. */
  lemma OrderIndependence(hosts: seq<string>)
    ensures OrderIndependent(hosts) <==> CaseDistinct(hosts)
  {
    HostOrderTotal();
    if CaseDistinct(hosts) {
      forall other: seq<string> | multiset(other) == multiset(hosts) ensures Ordered(other) == Ordered(hosts) {
        assert Sorting.TiesEqual(HostLeq, hosts);
        Sorting.SortOfPermutation(HostLeq, hosts, other);
      }
    } else {
      var x, y :| x in hosts && y in hosts && ToLower(x) == ToLower(y) && x != y;
      TiedHostsDependOnOrder(hosts, x, y);
    }
  }

  lemma MoveToFront(s: seq<string>, x: string) returns (rest: seq<string>)
    requires x in s
    ensures multiset([x] + rest) == multiset(s)
    ensures forall y :: y in s && y != x ==> y in rest
  {
    var i :| 0 <= i < |s| && s[i] == x;
    rest := s[..i] + s[i + 1..];
    assert s == s[..i] + [x] + s[i + 1..];
  }

  lemma FirstOfTies(x: string, y: string, others: seq<string>)
    requires x != y && ToLower(x) == ToLower(y)
    ensures Ordered([x, y] + others) != Ordered([y, x] + others)
  {
    HostOrderTotal();
    var one, two := [x, y] + others, [y, x] + others;
    assert Sorting.Tied(HostLeq, x, x) && Sorting.Tied(HostLeq, x, y);
    Sorting.SortStable(HostLeq, one, x);
    Sorting.SortStable(HostLeq, two, x);
    assert Sorting.Class(HostLeq, x, one)[0] == x;
    assert Sorting.Class(HostLeq, x, two)[0] == y;
  }

  lemma TiedHostsDependOnOrder(hosts: seq<string>, x: string, y: string)
    requires x in hosts && y in hosts && x != y && ToLower(x) == ToLower(y)
    ensures !OrderIndependent(hosts)
  {
    var rest := MoveToFront(hosts, x);
    var others := MoveToFront(rest, y);
    FirstOfTies(x, y, others);
    assert multiset([x, y] + others) == multiset([x] + ([y] + others)) == multiset([x] + rest);
    assert multiset([y, x] + others) == multiset([x, y] + others);
  }

  // ---------------------------------------------------------------------------
  // First match
  // ---------------------------------------------------------------------------

  /** The rule cloudflared serves a name by. */
  function FirstMatch(rules: seq<string>, name: string): Option<string> {
    if rules == [] then None
    else if Matches(rules[0], name) then Some(rules[0])
    else FirstMatch(rules[1..], name)
  }

  lemma {:induction false} FirstMatchIs(rules: seq<string>, name: string)
    ensures FirstMatch(rules, name).None? ==> forall i :: 0 <= i < |rules| ==> !Matches(rules[i], name)
    ensures FirstMatch(rules, name).Some? ==>
      exists i :: 0 <= i < |rules| && IsFirst(rules, name, i) && FirstMatch(rules, name).value == rules[i]
  {
    if rules != [] {
      FirstMatchIs(rules[1..], name);
      if Matches(rules[0], name) {
        assert IsFirst(rules, name, 0);
      } else if FirstMatch(rules[1..], name).Some? {
        var i :| 0 <= i < |rules[1..]| && IsFirst(rules[1..], name, i)
          && FirstMatch(rules[1..], name).value == rules[1..][i];
        assert IsFirst(rules, name, i + 1) by {
          forall j | 0 <= j < i + 1 ensures !Matches(rules[j], name) {
            assert j == 0 || rules[j] == rules[1..][j - 1];
          }
        }
      }
    }
  }

  ghost predicate IsFirst(rules: seq<string>, name: string, i: nat) {
    i < |rules| && Matches(rules[i], name) && forall j :: 0 <= j < i ==> !Matches(rules[j], name)
  }

  /** The wildcard with the longest suffix that matches the name. */
  function LongestWildcard(hosts: seq<string>, name: string): (r: Option<string>)
    ensures r.None? ==> forall h :: h in hosts && IsWildcard(h) ==> !Matches(h, name)
    ensures r.Some? ==> r.value in hosts && IsWildcard(r.value) && Matches(r.value, name)
    ensures r.Some? ==> forall h :: h in hosts && IsWildcard(h) && Matches(h, name) ==> |h| <= |r.value|
  {
    if hosts == [] then None
    else
      var r := LongestWildcard(hosts[1..], name);
      var h := hosts[0];
      if IsWildcard(h) && Matches(h, name) && (r.None? || |r.value| < |h|) then Some(h) else r
  }

  /** What the order is for: the exact rule, else the longest suffix, else the catch-all. */
  function BestRule(hosts: seq<string>, name: string): Option<string> {
    if name in hosts then Some(name)
    else if LongestWildcard(hosts, name).Some? then LongestWildcard(hosts, name)
    else if "*" in hosts then Some("*")
    else None
  }

  /** Label-count order refines longest-suffix order among the wildcards one name matches. */
  lemma MoreLabelsIsLonger(v: string, w: string, name: string)
    requires IsWildcard(v) && IsWildcard(w) && Matches(v, name) && Matches(w, name)
    ensures |v| == |w| ==> v == w
    ensures |v| < |w| ==> LabelCount(v) < LabelCount(w)
  {
    assert v == "*" + v[1..] && w == "*" + w[1..];
    if |v| == |w| {
      SuffixesNest(name, v[1..], w[1..]);
    } else if |v| < |w| {
      SuffixesNest(name, v[1..], w[1..]);
      var front := w[..|w| - |v| + 1];
      assert w == front + v[1..];
      CountConcat("*", v[1..], '.');
      CountConcat(front, v[1..], '.');
      assert front[1] == '.';
      CountConcat(front[..1], front[1..], '.');
      assert front == front[..1] + front[1..];
    }
  }

  /** Every name is served by its exact rule, else by the wildcard with the longest matching suffix. */
  lemma MostSpecificFirst(hosts: seq<string>, name: string)
    requires "*" !in hosts && '*' !in name
    ensures FirstMatch(Ordered(hosts), name) == BestRule(hosts, name)
  {
    var out := Ordered(hosts);
    OrderedIs(hosts);
    FirstMatchIs(out, name);
    var f := FirstMatch(out, name);
    assert !IsWildcard(name);
    if name in hosts {
      var k :| 0 <= k < |out| && out[k] == name;
      assert Matches(out[k], name);
      var i :| 0 <= i < |out| && IsFirst(out, name, i) && f.value == out[i];
      assert i <= k;
      assert i < k ==> HostLeq(out[i], out[k]);
    } else {
      var best := LongestWildcard(hosts, name);
      if f.Some? {
        var i :| 0 <= i < |out| && IsFirst(out, name, i) && f.value == out[i];
        var w := out[i];
        assert w in hosts && IsWildcard(w);
        var k :| 0 <= k < |out| && out[k] == best.value;
        assert i <= k;
        MoreLabelsIsLonger(w, best.value, name);
        assert i < k ==> HostLeq(w, best.value);
      }
    }
  }

  lemma CatchAllSortsFirst(hosts: seq<string>)
    requires "*" in hosts && forall h :: h in hosts ==> WellFormed(h)
    ensures Ordered(hosts) != [] && Ordered(hosts)[0] == "*"
  {
    var out := Ordered(hosts);
    OrderedIs(hosts);
    var k :| 0 <= k < |out| && out[k] == "*";
    var h := out[0];
    if h != "*" {
      assert HostLeq(h, "*");
      assert h in hosts;
      if !IsWildcard(h) {
        AfterCatchAll(h);
      }
    }
  }

  lemma AfterCatchAll(h: string)
    requires Concrete(h)
    ensures CanonicalOrder(h, "*") > 0
  {
    var labels := Labels(h);
    SplitOne('*');
    assert ToLower("*") == "*";
    SplitLower(h);
    var last := Split(h)[|labels| - 1];
    assert last in Split(h);
    assert labels[|labels| - 1] == ToLower(last);
    assert NameChar(last[0]);
    assert Compare(ToLower(last), "*") == 1;
  }

  lemma {:induction false} SplitLower(s: string)
    ensures |Split(ToLower(s))| == |Split(s)|
    ensures forall i :: 0 <= i < |Split(s)| ==> Split(ToLower(s))[i] == ToLower(Split(s)[i])
  {
    if s != [] {
      var t := ToLower(s);
      assert t[1..] == ToLower(s[1..]);
      SplitLower(s[1..]);
      var rest, low := Split(s[1..]), Split(t[1..]);
      if s[0] == '.' {
        assert Split(s) == [[]] + rest && Split(t) == [[]] + low;
      } else {
        assert Split(s) == [[s[0]] + rest[0]] + rest[1..] && Split(t) == [[t[0]] + low[0]] + low[1..];
        assert ToLower([s[0]] + rest[0]) == [t[0]] + low[0];
      }
    }
  }

  lemma NotBoth(pattern: string)
    requires Concrete(pattern)
    ensures !IsWildcard(pattern) && pattern != "*"
  {
    ConcreteChars(pattern);
    assert NameChar(pattern[0]);
  }

  lemma ConcreteBelow(c: char, s: string)
    requires Concrete(s) && NameChar(c)
    ensures Concrete([c] + ("." + s))
    ensures HasSuffix([c] + ("." + s), "." + s)
  {
    var name := [c] + ("." + s);
    SplitPrepend([c], s);
    assert name == [c] + "." + s;
    assert Split(name) == [[c]] + Split(s);
    assert name[1..] == "." + s;
  }

  /** A name that a well-formed pattern other than the catch-all matches. */
  lemma Sample(pattern: string) returns (name: string)
    requires WellFormed(pattern) && pattern != "*"
    ensures Matches(pattern, name) && Concrete(name)
  {
    if Concrete(pattern) {
      NotBoth(pattern);
      name := pattern;
    } else {
      var tail := pattern[2..];
      assert Concrete(tail);
      hide Concrete;
      ConcreteBelow('a', tail);
      assert pattern[1..] == "." + tail;
      name := ['a'] + ("." + tail);
    }
  }

  /**
   OrderHosts treats the bare `*` as an exact host, so it shadows every other rule.
   The order serves every name by its most specific rule exactly when `*` is absent or alone.
   */
  lemma MostSpecificIff(hosts: seq<string>)
    requires forall h :: h in hosts ==> WellFormed(h)
    ensures (forall name :: Concrete(name) ==> FirstMatch(Ordered(hosts), name) == BestRule(hosts, name))
       <==> ("*" !in hosts || forall h :: h in hosts ==> h == "*")
  {
    if "*" !in hosts {
      forall name | Concrete(name) ensures FirstMatch(Ordered(hosts), name) == BestRule(hosts, name) {
        ConcreteChars(name);
        MostSpecificFirst(hosts, name);
      }
    } else {
      CatchAllSortsFirst(hosts);
      if h :| h in hosts && h != "*" {
        var name := Sample(h);
        ConcreteChars(name);
        assert FirstMatch(Ordered(hosts), name) == Some("*");
        assert BestRule(hosts, name) != Some("*");
      } else {
        forall name | Concrete(name) ensures FirstMatch(Ordered(hosts), name) == BestRule(hosts, name) {
          ConcreteChars(name);
          assert BestRule(hosts, name) == Some("*");
        }
      }
    }
  }

  // ---------------------------------------------------------------------------
  // Covers
  // ---------------------------------------------------------------------------

  predicate Covers(pattern: string, candidate: string) {
    if pattern == candidate then true
    else if !IsWildcard(pattern) then pattern == "*"
    else HasSuffix(TrimPrefix(candidate, "*."), pattern[1..])
  }

  ghost predicate Included(candidate: string, pattern: string) {
    forall name :: Concrete(name) && Matches(candidate, name) ==> Matches(pattern, name)
  }

  lemma CoversSound(pattern: string, candidate: string, name: string)
    requires WellFormed(pattern) && WellFormed(candidate)
    requires Covers(pattern, candidate) && Concrete(name) && Matches(candidate, name)
    ensures Matches(pattern, name)
  {
    if pattern != candidate && pattern != "*" {
      var tail := TrimPrefix(candidate, "*.");
      if IsWildcard(candidate) {
        assert candidate[1..] == "." + tail;
        assert candidate[1..][|candidate[1..]| - |tail|..] == tail;
        SuffixTransitive(candidate[1..], tail, pattern[1..]);
        SuffixTransitive(name, candidate[1..], pattern[1..]);
      }
    }
  }

  /** A suffix of c.tail that starts with a dot is `.tail` or lies inside tail. */
  lemma SuffixBelow(c: char, tail: string, suffix: string)
    requires c != '.' && suffix != [] && suffix[0] == '.' && HasSuffix([c] + ("." + tail), suffix)
    ensures suffix == "." + tail || HasSuffix(tail, suffix)
  {
    var name := [c] + ("." + tail);
    if |suffix| <= |tail| {
      assert name[2..] == tail;
      SuffixesNest(name, suffix, tail);
    } else if |suffix| < |name| {
      assert suffix == name[1..] == "." + tail;
    }
  }

  /** A name one label below a wildcard's suffix that an uncovering wildcard does not take. */
  lemma WitnessBelow(pattern: string, tail: string, c: char)
    requires IsWildcard(pattern) && c != '.'
    requires !Covers(pattern, "*." + tail)
    ensures !HasSuffix([c] + ("." + tail), pattern[1..])
  {
    assert ("*." + tail)[2..] == tail;
    assert pattern == "*" + pattern[1..] && "*." + tail == "*" + ("." + tail);
    if HasSuffix([c] + ("." + tail), pattern[1..]) {
      SuffixBelow(c, tail, pattern[1..]);
    }
  }

  lemma ExactWitness(pattern: string, candidate: string)
    requires Concrete(candidate) && !Covers(pattern, candidate)
    ensures Matches(candidate, candidate) && !Matches(pattern, candidate)
  {
    NotBoth(candidate);
    hide Concrete;
  }

  lemma CatchAllWitness(pattern: string) returns (name: string)
    requires pattern != "*"
    ensures Concrete(name) && !Matches(pattern, name)
  {
    SplitOne('a');
    SplitOne('b');
    hide Split;
    assert Concrete("a") && Concrete("b");
    name := if pattern == "a" then "b" else "a";
  }

  /** The witness that a pattern does not take everything the candidate does. */
  lemma CoversComplete(pattern: string, candidate: string) returns (name: string)
    requires WellFormed(pattern) && WellFormed(candidate) && !Covers(pattern, candidate)
    ensures Concrete(name) && Matches(candidate, name) && !Matches(pattern, name)
  {
    hide Concrete, Matches, Covers;
    if Concrete(candidate) {
      ExactWitness(pattern, candidate);
      name := candidate;
    } else if candidate == "*" {
      CatchAllTakes(pattern);
      name := CatchAllWitness(pattern);
    } else {
      name := BelowWildcard(pattern, candidate);
    }
  }

  lemma CatchAllTakes(pattern: string)
    ensures Covers("*", pattern)
    ensures forall name :: Matches("*", name)
  {
  }

  lemma BelowWildcard(pattern: string, candidate: string) returns (name: string)
    requires WellFormed(pattern) && IsWildcard(candidate) && Concrete(candidate[2..]) && !Covers(pattern, candidate)
    ensures Concrete(name) && Matches(candidate, name) && !Matches(pattern, name)
  {
    var tail := candidate[2..];
    assert candidate == "*." + tail && candidate[1..] == "." + tail;
    var c := if pattern == ['a'] + ("." + tail) then 'b' else 'a';
    ConcreteBelow(c, tail);
    name := [c] + ("." + tail);
    assert name[0] == c;
    if IsWildcard(pattern) {
      WitnessBelow(pattern, tail, c);
    }
  }

  /** Covers decides language inclusion. */
  lemma CoversIsInclusion(pattern: string, candidate: string)
    requires WellFormed(pattern) && WellFormed(candidate)
    ensures Covers(pattern, candidate) <==> Included(candidate, pattern)
  {
    if Covers(pattern, candidate) {
      forall name | Concrete(name) && Matches(candidate, name) ensures Matches(pattern, name) {
        CoversSound(pattern, candidate, name);
      }
    } else {
      var name := CoversComplete(pattern, candidate);
    }
  }

  ghost predicate Shadowed(rules: seq<string>, j: nat)
    requires j < |rules|
  {
    exists i :: 0 <= i < j && Covers(rules[i], rules[j])
  }

  lemma WildcardCoversFewerLabels(v: string, w: string)
    requires IsWildcard(v) && IsWildcard(w) && v != w && Covers(v, w)
    ensures LabelCount(v) < LabelCount(w)
  {
    var tail := w[2..];
    assert w == "*." + tail && v == "*" + v[1..];
    var front := tail[..|tail| - |v[1..]|];
    assert tail == front + v[1..];
    CountConcat("*", v[1..], '.');
    CountConcat("*.", tail, '.');
    CountConcat(front, v[1..], '.');
    assert Count("*.", '.') == 1 by { assert "*."[1..] == "."; }
  }

  /** No rule of the derived order is caught by an earlier, different rule. */
  lemma OrderedNeverShadows(hosts: seq<string>, i: nat, j: nat)
    requires "*" !in hosts && i < j < |Ordered(hosts)|
    requires Ordered(hosts)[i] != Ordered(hosts)[j]
    ensures !Covers(Ordered(hosts)[i], Ordered(hosts)[j])
  {
    OrderedIs(hosts);
    var v, w := Ordered(hosts)[i], Ordered(hosts)[j];
    assert v in hosts && w in hosts;
    assert HostLeq(v, w);
    if Covers(v, w) {
      assert IsWildcard(v) && IsWildcard(w);
      WildcardCoversFewerLabels(v, w);
    }
  }
}
