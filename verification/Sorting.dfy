/**
 Go's library sorts, as a stable insertion sort. Nothing depends on the algorithm:
 `SortUnique` shows that every sorted, stable rearrangement is this one.
 */
module Sorting {
  import opened Text

  ghost predicate TotalPreorder<T(!new)>(leq: (T, T) -> bool) {
    && (forall x, y :: leq(x, y) || leq(y, x))
    && (forall x, y, z :: leq(x, y) && leq(y, z) ==> leq(x, z))
  }

  ghost predicate Sorted<T>(leq: (T, T) -> bool, s: seq<T>) {
    forall i, j :: 0 <= i < j < |s| ==> leq(s[i], s[j])
  }

  predicate Tied<T>(leq: (T, T) -> bool, x: T, y: T) {
    leq(x, y) && leq(y, x)
  }

  /** The elements of s tied with x, in the order s lists them. */
  ghost function Class<T>(leq: (T, T) -> bool, x: T, s: seq<T>): seq<T> {
    if s == [] then []
    else (if Tied(leq, x, s[0]) then [s[0]] else []) + Class(leq, x, s[1..])
  }

  /** x placed in a sorted s after every element that is not greater. */
  function InsertLast<T>(leq: (T, T) -> bool, s: seq<T>, x: T): seq<T> {
    if s == [] then [x]
    else if leq(s[|s| - 1], x) then s + [x]
    else InsertLast(leq, s[..|s| - 1], x) + [s[|s| - 1]]
  }

  function Sort<T>(leq: (T, T) -> bool, s: seq<T>): seq<T> {
    if s == [] then [] else InsertLast(leq, Sort(leq, s[..|s| - 1]), s[|s| - 1])
  }

  lemma {:induction false} InsertPermutes<T>(leq: (T, T) -> bool, s: seq<T>, x: T)
    ensures multiset(InsertLast(leq, s, x)) == multiset(s) + multiset{x}
  {
    if s != [] && !leq(s[|s| - 1], x) {
      InsertPermutes(leq, s[..|s| - 1], x);
      assert s == s[..|s| - 1] + [s[|s| - 1]];
    }
  }

  lemma SameSize<T>(s: seq<T>, t: seq<T>)
    requires multiset(s) == multiset(t)
    ensures |s| == |t|
  {
    assert |multiset(s)| == |s| && |multiset(t)| == |t|;
  }

  lemma {:induction false} SortPermutes<T>(leq: (T, T) -> bool, s: seq<T>)
    ensures multiset(Sort(leq, s)) == multiset(s)
    ensures |Sort(leq, s)| == |s|
  {
    if s != [] {
      var front, last := s[..|s| - 1], s[|s| - 1];
      SortPermutes(leq, front);
      InsertPermutes(leq, Sort(leq, front), last);
      assert s == front + [last];
      assert multiset(s) == multiset(front) + multiset{last};
    }
    hide Sort, InsertLast;
    SameSize(Sort(leq, s), s);
  }

  lemma SortMembers<T>(leq: (T, T) -> bool, s: seq<T>)
    ensures forall x :: x in Sort(leq, s) <==> x in s
  {
    SortPermutes(leq, s);
    assert forall x :: x in s <==> x in multiset(s);
    assert forall x :: x in Sort(leq, s) <==> x in multiset(Sort(leq, s));
  }

  lemma {:induction false} InsertSorted<T(!new)>(leq: (T, T) -> bool, s: seq<T>, x: T)
    requires TotalPreorder(leq) && Sorted(leq, s)
    ensures Sorted(leq, InsertLast(leq, s, x))
    ensures forall y :: y in InsertLast(leq, s, x) ==> y in s || y == x
  {
    if s != [] {
      var last := s[|s| - 1];
      if leq(last, x) {
        forall i | 0 <= i < |s| ensures leq(s[i], x) {
          assert i == |s| - 1 || leq(s[i], last);
        }
      } else {
        InsertSorted(leq, s[..|s| - 1], x);
        forall y | y in InsertLast(leq, s[..|s| - 1], x) ensures leq(y, last) {
        }
      }
    }
  }

  lemma {:induction false} SortSorted<T(!new)>(leq: (T, T) -> bool, s: seq<T>)
    requires TotalPreorder(leq)
    ensures Sorted(leq, Sort(leq, s))
  {
    if s != [] {
      SortSorted(leq, s[..|s| - 1]);
      InsertSorted(leq, Sort(leq, s[..|s| - 1]), s[|s| - 1]);
    }
  }

  lemma {:induction false} ClassConcat<T>(leq: (T, T) -> bool, x: T, s: seq<T>, t: seq<T>)
    ensures Class(leq, x, s + t) == Class(leq, x, s) + Class(leq, x, t)
  {
    if s == [] {
      assert s + t == t;
    } else {
      assert (s + t)[0] == s[0] && (s + t)[1..] == s[1..] + t;
      ClassConcat(leq, x, s[1..], t);
      var head := if Tied(leq, x, s[0]) then [s[0]] else [];
      assert Class(leq, x, s) == head + Class(leq, x, s[1..]);
      assert Class(leq, x, s + t) == head + Class(leq, x, s[1..] + t);
    }
  }

  lemma {:induction false} InsertStable<T(!new)>(leq: (T, T) -> bool, s: seq<T>, x: T, k: T)
    requires TotalPreorder(leq)
    ensures Class(leq, k, InsertLast(leq, s, x)) == Class(leq, k, s) + Class(leq, k, [x])
  {
    if s != [] {
      var front, last := s[..|s| - 1], s[|s| - 1];
      assert s == front + [last];
      ClassConcat(leq, k, front, [last]);
      ClassConcat(leq, k, s, [x]);
      if !leq(last, x) {
        InsertStable(leq, front, x, k);
        ClassConcat(leq, k, InsertLast(leq, front, x), [last]);
        // k is not tied with both
        assert Class(leq, k, [x]) == [] || Class(leq, k, [last]) == [];
      }
    }
  }

  lemma {:induction false} SortStable<T(!new)>(leq: (T, T) -> bool, s: seq<T>, k: T)
    requires TotalPreorder(leq)
    ensures Class(leq, k, Sort(leq, s)) == Class(leq, k, s)
  {
    if s != [] {
      var front, last := s[..|s| - 1], s[|s| - 1];
      assert s == front + [last];
      SortStable(leq, front, k);
      InsertStable(leq, Sort(leq, front), last, k);
      ClassConcat(leq, k, front, [last]);
    }
  }

  lemma {:induction false} ClassNonEmpty<T>(leq: (T, T) -> bool, x: T, s: seq<T>)
    ensures Class(leq, x, s) != [] <==> exists i :: 0 <= i < |s| && Tied(leq, x, s[i])
    ensures forall y :: y in Class(leq, x, s) ==> y in s
  {
    if s != [] {
      ClassNonEmpty(leq, x, s[1..]);
      if Class(leq, x, s[1..]) != [] {
        var i :| 0 <= i < |s[1..]| && Tied(leq, x, s[1..][i]);
        assert Tied(leq, x, s[i + 1]);
      }
      forall i | 0 <= i < |s| && Tied(leq, x, s[i]) ensures Class(leq, x, s) != [] {
        if i > 0 { assert s[1..][i - 1] == s[i]; }
      }
    }
  }

  lemma HeadClass<T(!new)>(leq: (T, T) -> bool, s: seq<T>)
    requires TotalPreorder(leq)
    ensures s != [] ==> Class(leq, s[0], s) != []
  {
  }

  /** A sorted list with the same tie classes, each in the same order, is the sorted form. */
  lemma {:induction false} SortedSameClasses<T(!new)>(leq: (T, T) -> bool, s: seq<T>, t: seq<T>)
    requires TotalPreorder(leq) && Sorted(leq, s) && Sorted(leq, t)
    requires forall k :: Class(leq, k, s) == Class(leq, k, t)
    ensures s == t
    decreases |s|
  {
    if s == [] {
      HeadClass(leq, t);
    } else {
      var x := s[0];
      assert Class(leq, x, s)[0] == x;
      assert Class(leq, x, t) == Class(leq, x, s);
      ClassNonEmpty(leq, x, t);
      var i :| 0 <= i < |t| && Tied(leq, x, t[i]);
      var y := t[0];
      assert i == 0 || leq(y, t[i]);
      ClassNonEmpty(leq, y, s);
      assert Class(leq, y, t)[0] == y;
      assert Class(leq, y, s) == Class(leq, y, t);
      var j :| 0 <= j < |s| && Tied(leq, y, s[j]);
      assert j == 0 || leq(x, s[j]);
      assert Tied(leq, x, y);
      assert Class(leq, x, t)[0] == y;
      forall k ensures Class(leq, k, s[1..]) == Class(leq, k, t[1..]) {
        assert Class(leq, k, s) == Class(leq, k, t);
        var a := if Tied(leq, k, x) then [x] else [];
        assert Class(leq, k, s) == a + Class(leq, k, s[1..]);
        assert Class(leq, k, t) == a + Class(leq, k, t[1..]);
        assert Class(leq, k, s[1..]) == Class(leq, k, s)[|a|..];
      }
      SortedSameClasses(leq, s[1..], t[1..]);
      assert s == [x] + s[1..] && t == [x] + t[1..];
    }
  }

  /** Any sorted and stable rearrangement of s is Sort(leq, s): the result of a stable sort is unique. */
  lemma SortUnique<T(!new)>(leq: (T, T) -> bool, s: seq<T>, t: seq<T>)
    requires TotalPreorder(leq) && Sorted(leq, t)
    requires forall k :: Class(leq, k, t) == Class(leq, k, s)
    ensures t == Sort(leq, s)
  {
    SortSorted(leq, s);
    forall k ensures Class(leq, k, t) == Class(leq, k, Sort(leq, s)) {
      SortStable(leq, s, k);
    }
    SortedSameClasses(leq, t, Sort(leq, s));
  }

  ghost predicate TiesEqual<T>(leq: (T, T) -> bool, s: seq<T>) {
    forall x, y :: x in s && y in s && Tied(leq, x, y) ==> x == y
  }

  lemma SortedHeadsEqual<T(!new)>(leq: (T, T) -> bool, s: seq<T>, t: seq<T>)
    requires TotalPreorder(leq) && Sorted(leq, s) && Sorted(leq, t)
    requires multiset(s) == multiset(t) && TiesEqual(leq, s) && s != []
    ensures t != [] && s[0] == t[0]
  {
    assert |t| == |multiset(t)| == |multiset(s)| == |s|;
    assert t[0] in multiset(s) && s[0] in multiset(t);
    var i :| 0 <= i < |s| && s[i] == t[0];
    var j :| 0 <= j < |t| && t[j] == s[0];
    assert leq(s[0], s[i]) && leq(t[0], t[j]);
    assert Tied(leq, s[0], s[i]);
  }

  lemma TailsPermute<T>(s: seq<T>, t: seq<T>)
    requires multiset(s) == multiset(t) && s != [] && t != [] && s[0] == t[0]
    ensures multiset(s[1..]) == multiset(t[1..])
  {
    assert s == [s[0]] + s[1..] && t == [t[0]] + t[1..];
    assert multiset(s[1..]) == multiset(s) - multiset{s[0]};
    assert multiset(t[1..]) == multiset(t) - multiset{s[0]};
  }

  /** Sorted rearrangements of one list whose ties are all equal elements coincide. */
  lemma {:induction false} SortedPermutationsEqual<T(!new)>(leq: (T, T) -> bool, s: seq<T>, t: seq<T>)
    requires TotalPreorder(leq) && Sorted(leq, s) && Sorted(leq, t)
    requires multiset(s) == multiset(t) && TiesEqual(leq, s)
    ensures s == t
    decreases |s|
  {
    if s == [] {
      assert |t| == |multiset(t)|;
    } else {
      SortedHeadsEqual(leq, s, t);
      TailsPermute(s, t);
      assert forall x :: x in s[1..] ==> x in s;
      SortedPermutationsEqual(leq, s[1..], t[1..]);
      assert s == [s[0]] + s[1..] && t == [t[0]] + t[1..];
    }
  }

  lemma SortOfPermutation<T(!new)>(leq: (T, T) -> bool, s: seq<T>, t: seq<T>)
    requires TotalPreorder(leq) && multiset(s) == multiset(t) && TiesEqual(leq, s)
    ensures Sort(leq, s) == Sort(leq, t)
  {
    SortPermutes(leq, s);
    SortPermutes(leq, t);
    SortSorted(leq, s);
    SortSorted(leq, t);
    SortMembers(leq, s);
    SortedPermutationsEqual(leq, Sort(leq, s), Sort(leq, t));
  }

  lemma StringLeqTotal()
    ensures TotalPreorder(StringLeq)
    ensures forall x, y :: StringLeq(x, y) && StringLeq(y, x) ==> x == y
  {
    forall x, y ensures StringLeq(x, y) || StringLeq(y, x)
      ensures StringLeq(x, y) && StringLeq(y, x) ==> x == y
    {
      CompareFlip(x, y);
      CompareZero(x, y);
    }
    forall x, y, z | StringLeq(x, y) && StringLeq(y, z) ensures StringLeq(x, z) {
      CompareTransitive(x, y, z);
    }
  }

  lemma {:induction false} InsertPoint<T>(leq: (T, T) -> bool, s: seq<T>, x: T, j: nat)
    requires j <= |s| && (j == 0 || leq(s[j - 1], x))
    requires forall k :: j <= k < |s| ==> !leq(s[k], x)
    ensures InsertLast(leq, s, x) == s[..j] + [x] + s[j..]
  {
    if j < |s| {
      var front := s[..|s| - 1];
      InsertPoint(leq, front, x, j);
      assert front[..j] == s[..j] && front[j..] + [s[|s| - 1]] == s[j..];
    } else {
      assert s[..j] == s && s[j..] == [];
    }
  }

  /** One insertion: the element at i moves left past every greater element. */
  method InsertInPlace<T>(leq: (T, T) -> bool, a: array<T>, i: nat)
    requires i < a.Length
    modifies a
    ensures a[..i + 1] == InsertLast(leq, old(a[..i]), old(a[i]))
    ensures a[i + 1..] == old(a[i + 1..])
  {
    var j := i;
    ghost var x, s := a[i], a[..i];
    while 0 < j && !leq(a[j - 1], a[j])
      invariant 0 <= j <= i && a[j] == x
      invariant forall k :: 0 <= k < j ==> a[k] == s[k]
      invariant forall k :: j < k <= i ==> a[k] == s[k - 1]
      invariant forall k :: i < k < a.Length ==> a[k] == old(a[k])
      invariant forall k :: j <= k < i ==> !leq(s[k], x)
    {
      a[j - 1], a[j] := a[j], a[j - 1];
      j := j - 1;
    }
    assert j == 0 || leq(s[j - 1], x);
    InsertPoint(leq, s, x, j);
    ghost var t := s[..j] + [x] + s[j..];
    assert forall k :: 0 <= k <= i ==> a[k] == t[k];
    assert a[..i + 1] == t;
    assert |a[i + 1..]| == |old(a[i + 1..])|;
    assert a[i + 1..] == old(a[i + 1..]);
  }

  /** A stable sort in place, as `slices.SortStableFunc` does it. */
  method SortInPlace<T>(leq: (T, T) -> bool, a: array<T>)
    modifies a
    ensures a[..] == Sort(leq, old(a[..]))
  {
    ghost var s := a[..];
    var i := 0;
    while i < a.Length
      invariant 0 <= i <= a.Length
      invariant a[..i] == Sort(leq, s[..i])
      invariant a[i..] == s[i..]
    {
      assert s[..i + 1][..i] == s[..i];
      assert a[i] == a[i..][0] == s[i] && a[i + 1..] == a[i..][1..];
      InsertInPlace(leq, a, i);
      i := i + 1;
    }
    assert s[..i] == s && a[..i] == a[..];
  }

  // ---------------------------------------------------------------------------
  // Map keys and sets of strings
  // ---------------------------------------------------------------------------

  ghost predicate Distinct<T>(s: seq<T>) {
    forall i, j :: 0 <= i < j < |s| ==> s[i] != s[j]
  }

  lemma {:induction false} LeastString(s: set<string>) returns (m: string)
    requires s != {}
    ensures m in s && forall y :: y in s ==> StringLeq(m, y)
  {
    StringLeqTotal();
    m :| m in s;
    if s != {m} {
      assert s - {m} != {};
      var n := LeastString(s - {m});
      m := if StringLeq(m, n) then m else n;
    }
  }

  predicate IsLeast(m: string, s: set<string>) {
    m in s && forall y :: y in s ==> StringLeq(m, y)
  }

  lemma LeastExists(s: set<string>)
    requires s != {}
    ensures exists m :: IsLeast(m, s)
    ensures forall m, n :: IsLeast(m, s) && IsLeast(n, s) ==> m == n
  {
    var m := LeastString(s);
    assert IsLeast(m, s);
    StringLeqTotal();
  }

  /** The keys of a map in the order `sortedKeys` lists them. */
  function SortedKeys(s: set<string>): (r: seq<string>)
    ensures forall x :: x in r <==> x in s
    ensures Sorted(StringLeq, r)
    ensures Distinct(r)
  {
    if s == {} then []
    else
      LeastExists(s);
      var m :| IsLeast(m, s);
      [m] + SortedKeys(s - {m})
  }

  lemma DistinctSnoc<T>(s: seq<T>, x: T)
    ensures Distinct(s + [x]) <==> (Distinct(s) && x !in s)
  {
    var t := s + [x];
    if Distinct(t) {
      assert forall i :: 0 <= i < |s| ==> t[i] == s[i] && t[i] != t[|s|];
    }
  }

  lemma {:induction false} DistinctMultiset<T>(s: seq<T>)
    requires Distinct(s)
    ensures forall x :: multiset(s)[x] == if x in s then 1 else 0
  {
    if s != [] {
      var front, last := s[..|s| - 1], s[|s| - 1];
      DistinctMultiset(front);
      assert s == front + [last];
      assert multiset(s) == multiset(front) + multiset{last};
    }
  }

  /** Strictly sorted lists are determined by their elements. */
  lemma SortedDistinctEqual(s: seq<string>, t: seq<string>)
    requires Sorted(StringLeq, s) && Sorted(StringLeq, t) && Distinct(s) && Distinct(t)
    requires forall x :: x in s <==> x in t
    ensures s == t
  {
    StringLeqTotal();
    DistinctMultiset(s);
    DistinctMultiset(t);
    assert multiset(s) == multiset(t);
    SortedPermutationsEqual(StringLeq, s, t);
  }

  /** `sortedKeys`: keys in any iteration order, then `sort.Strings`. */
  method CollectKeys(s: set<string>) returns (out: seq<string>)
    ensures out == SortedKeys(s)
  {
    var rest, list := s, [];
    while rest != {}
      invariant rest <= s
      invariant Distinct(list)
      invariant forall x :: x in list <==> x in s - rest
      decreases rest
    {
      var k :| k in rest;
      assert forall i :: 0 <= i < |list| ==> list[i] in list && list[i] != k;
      list := list + [k];
      rest := rest - {k};
    }
    out := SortStrings(list);
    StringLeqTotal();
    SortSorted(StringLeq, list);
    SortMembers(StringLeq, list);
    SortDistinct(list);
    SortedDistinctEqual(out, SortedKeys(s));
  }

  lemma SortDistinct(list: seq<string>)
    requires Distinct(list)
    ensures Distinct(Sort(StringLeq, list))
  {
    SortPermutes(StringLeq, list);
    DistinctMultiset(list);
    var out := Sort(StringLeq, list);
    forall i, j | 0 <= i < j < |out| ensures out[i] != out[j] {
      if out[i] == out[j] {
        RepeatedCount(out, i, j);
      }
    }
  }

  lemma RepeatedCount<T>(s: seq<T>, i: nat, j: nat)
    requires i < j < |s| && s[i] == s[j]
    ensures multiset(s)[s[i]] >= 2
  {
    assert s == s[..j] + [s[j]] + s[j + 1..];
    assert s[i] in s[..j];
    assert multiset(s) == multiset(s[..j]) + multiset{s[j]} + multiset(s[j + 1..]);
  }

  method SortStrings(list: seq<string>) returns (out: seq<string>)
    ensures out == Sort(StringLeq, list)
  {
    var a := new string[|list|](i requires 0 <= i < |list| => list[i]);
    assert a[..] == list;
    SortInPlace(StringLeq, a);
    out := a[..];
  }

  /** `slices.Compact`: each run of equal elements kept once. */
  function Compact(s: seq<string>): seq<string> {
    if |s| <= 1 then s
    else if s[0] == s[1] then Compact(s[1..])
    else [s[0]] + Compact(s[1..])
  }

  lemma {:induction false} CompactSorted(s: seq<string>)
    requires Sorted(StringLeq, s)
    ensures Sorted(StringLeq, Compact(s)) && Distinct(Compact(s))
    ensures forall x :: x in Compact(s) <==> x in s
  {
    StringLeqTotal();
    if |s| >= 2 {
      CompactSorted(s[1..]);
      assert s == [s[0]] + s[1..];
      if s[0] != s[1] {
        forall x | x in s[1..] ensures StringLeq(s[0], x) && s[0] != x {
          var i :| 1 <= i < |s| && s[i] == x;
          assert StringLeq(s[1], s[i]);
        }
      }
    }
  }

  /** Sort and compact is the sorted set of the elements, whatever their order and repetition. */
  lemma SortedUniqueIsSet(s: seq<string>)
    ensures Compact(Sort(StringLeq, s)) == SortedKeys(AsSet(s))
  {
    StringLeqTotal();
    SortSorted(StringLeq, s);
    SortMembers(StringLeq, s);
    CompactSorted(Sort(StringLeq, s));
    SortedDistinctEqual(Compact(Sort(StringLeq, s)), SortedKeys(AsSet(s)));
  }

  method SortedUnique(s: seq<string>) returns (out: seq<string>)
    ensures out == SortedKeys(AsSet(s))
  {
    var sorted := SortStrings(s);
    SortedUniqueIsSet(s);
    out := Compact(sorted);
  }

  lemma {:induction false} IndexInPermutation<T>(s: seq<T>, x: T)
    requires multiset(s)[x] >= 2
    ensures exists c, d :: 0 <= c < d < |s| && s[c] == x && s[d] == x
  {
    var front, last := s[..|s| - 1], s[|s| - 1];
    assert s == front + [last];
    assert multiset(s) == multiset(front) + multiset{last};
    if last == x {
      assert x in front;
      var c :| 0 <= c < |front| && front[c] == x;
      assert s[c] == x && s[|s| - 1] == x;
    } else {
      IndexInPermutation(front, x);
      var c, d :| 0 <= c < d < |front| && front[c] == x && front[d] == x;
      assert s[c] == x && s[d] == x;
    }
  }

  /** Two places of a list have two places in any rearrangement of it. */
  lemma PlacesInPermutation<T>(s: seq<T>, t: seq<T>, a: nat, b: nat) returns (c: nat, d: nat)
    requires multiset(s) == multiset(t) && a < |t| && b < |t| && a != b
    ensures c < |s| && d < |s| && c != d && s[c] == t[a] && s[d] == t[b]
  {
    if t[a] == t[b] {
      RepeatedCount(t, if a < b then a else b, if a < b then b else a);
      IndexInPermutation(s, t[a]);
      c, d :| 0 <= c < d < |s| && s[c] == t[a] && s[d] == t[a];
    } else {
      assert t[a] in multiset(s) && t[b] in multiset(s);
      c :| 0 <= c < |s| && s[c] == t[a];
      d :| 0 <= d < |s| && s[d] == t[b];
    }
  }

  lemma {:induction false} CompactLength(s: seq<string>)
    ensures |Compact(s)| <= |s|
    ensures |Compact(s)| == |s| <==> forall i :: 0 <= i < |s| - 1 ==> s[i] != s[i + 1]
  {
    if |s| >= 2 {
      CompactLength(s[1..]);
      assert forall i :: 1 <= i < |s| - 1 ==> s[i] == s[1..][i - 1] && s[i + 1] == s[1..][i];
      if s[0] != s[1] && |Compact(s)| == |s| {
        forall i | 0 <= i < |s| - 1 ensures s[i] != s[i + 1] {
          if i > 0 { assert s[1..][i - 1] != s[1..][i]; }
        }
      }
    }
  }

  /** Sorting brings repeated values together, so comparing neighbours finds every repetition. */
  lemma RepeatsAreNeighbours(list: seq<string>)
    ensures Distinct(list) <==> |Compact(Sort(StringLeq, list))| == |Sort(StringLeq, list)|
  {
    var sorted := Sort(StringLeq, list);
    StringLeqTotal();
    SortSorted(StringLeq, list);
    SortPermutes(StringLeq, list);
    CompactLength(sorted);
    if Distinct(list) {
      SortDistinct(list);
    } else {
      var i, j :| 0 <= i < j < |list| && list[i] == list[j];
      var a, b := PlacesInPermutation(sorted, list, i, j);
      var lo, hi := if a < b then a else b, if a < b then b else a;
      assert StringLeq(sorted[lo], sorted[lo + 1]) && (lo + 1 == hi || StringLeq(sorted[lo + 1], sorted[hi]));
    }
  }
}
