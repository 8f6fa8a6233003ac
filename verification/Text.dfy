/** Strings as the rest of the model uses them: Go's `strings` package on sequences of code points. */
module Text {

  datatype Option<+T> = None | Some(value: T)

  datatype Result<+T, +E> = Ok(value: T) | Err(error: E)

  function AsSet<T(==)>(s: seq<T>): set<T> {
    set x | x in s
  }

  /** ASCII lower-casing of one character. */
  function LowerChar(c: char): char {
    if 'A' <= c <= 'Z' then (c as int + 32) as char else c
  }

  function ToLower(s: string): (r: string)
    ensures |r| == |s|
    ensures forall i :: 0 <= i < |s| ==> r[i] == LowerChar(s[i])
  {
    seq(|s|, i requires 0 <= i < |s| => LowerChar(s[i]))
  }

  predicate IsLower(s: string) {
    ToLower(s) == s
  }

  /** A string is lower case exactly when it holds no ASCII capital, and a lower-cased string always is. */
  lemma IsLowerIff(s: string)
    ensures IsLower(s) <==> forall i :: 0 <= i < |s| ==> !('A' <= s[i] <= 'Z')
    ensures IsLower(ToLower(s))
  {
    if IsLower(s) {
      forall i | 0 <= i < |s| ensures !('A' <= s[i] <= 'Z') {
        assert ToLower(s)[i] == LowerChar(s[i]);
      }
    }
  }

  /** Two characters have one lower case exactly when they are one letter in either case, or one character. */
  lemma LowerAlike(a: char, b: char)
    ensures LowerChar(a) == LowerChar(b) <==>
      || a == b
      || ('A' <= a <= 'Z' && b as int == a as int + 32)
      || ('A' <= b <= 'Z' && a as int == b as int + 32)
  {
  }

  /** Unicode white space, as `strings.TrimSpace` trims it. */
  predicate IsSpace(c: char) {
    var n := c as int;
    || 9 <= n <= 13 || n == 0x20 || n == 0x85 || n == 0xA0 || n == 0x1680 || 0x2000 <= n <= 0x200A
    || n == 0x2028 || n == 0x2029 || n == 0x202F || n == 0x205F || n == 0x3000
  }

  predicate HasPrefix(s: string, p: string) {
    p <= s
  }

  predicate HasSuffix(s: string, t: string) {
    |t| <= |s| && s[|s| - |t|..] == t
  }

  function TrimPrefix(s: string, p: string): string {
    if HasPrefix(s, p) then s[|p|..] else s
  }

  /** The bytes of a character in UTF-8. */
  function Utf8Size(c: char): nat {
    if c as int < 0x80 then 1 else if c as int < 0x800 then 2 else if c as int < 0x1_0000 then 3 else 4
  }

  /** Go's `len` of a string. */
  function Bytes(s: string): nat {
    if s == [] then 0 else Bytes(s[..|s| - 1]) + Utf8Size(s[|s| - 1])
  }

  lemma {:induction false} BytesConcat(a: string, b: string)
    ensures Bytes(a + b) == Bytes(a) + Bytes(b)
  {
    if b == [] {
      assert a + b == a;
    } else {
      assert (a + b)[..|a + b| - 1] == a + b[..|b| - 1];
      BytesConcat(a, b[..|b| - 1]);
    }
  }

  /** A string has as many bytes as characters exactly when it is ASCII, and never more than four for each. */
  lemma {:induction false} BytesAscii(s: string)
    ensures |s| <= Bytes(s) <= 4 * |s|
    ensures Bytes(s) == |s| <==> forall i :: 0 <= i < |s| ==> s[i] as int < 0x80
  {
    if s != [] {
      BytesAscii(s[..|s| - 1]);
    }
  }

  function Count(s: string, c: char): nat {
    if s == [] then 0 else (if s[0] == c then 1 else 0) + Count(s[1..], c)
  }

  lemma {:induction false} CountConcat(a: string, b: string, c: char)
    ensures Count(a + b, c) == Count(a, c) + Count(b, c)
  {
    if a == [] {
      assert a + b == b;
    } else {
      assert (a + b)[1..] == a[1..] + b;
      CountConcat(a[1..], b, c);
    }
  }

  /** Two suffixes of one string: the shorter is a suffix of the longer. */
  lemma SuffixesNest(s: string, t: string, u: string)
    requires HasSuffix(s, t) && HasSuffix(s, u) && |t| <= |u|
    ensures HasSuffix(u, t)
  {
    assert u[|u| - |t|..] == s[|s| - |u|..][|u| - |t|..] == s[|s| - |t|..];
  }

  lemma SuffixTransitive(s: string, t: string, u: string)
    requires HasSuffix(s, t) && HasSuffix(t, u)
    ensures HasSuffix(s, u)
  {
    assert s[|s| - |u|..] == s[|s| - |t|..][|t| - |u|..];
  }

  /** `strings.Compare`: the sign of the lexicographic comparison. */
  function Compare(a: string, b: string): (r: int)
    ensures r == -1 || r == 0 || r == 1
  {
    if a == [] && b == [] then 0
    else if a == [] then -1
    else if b == [] then 1
    else if a[0] < b[0] then -1
    else if a[0] > b[0] then 1
    else Compare(a[1..], b[1..])
  }

  lemma {:induction false} CompareFlip(a: string, b: string)
    ensures Compare(b, a) == -Compare(a, b)
  {
    if a != [] && b != [] && a[0] == b[0] {
      CompareFlip(a[1..], b[1..]);
    }
  }

  lemma {:induction false} CompareZero(a: string, b: string)
    ensures Compare(a, b) == 0 <==> a == b
  {
    if a != [] && b != [] && a[0] == b[0] {
      CompareZero(a[1..], b[1..]);
      assert a == [a[0]] + a[1..] && b == [b[0]] + b[1..];
    }
  }

  lemma {:induction false} CompareTransitive(a: string, b: string, c: string)
    requires Compare(a, b) <= 0 && Compare(b, c) <= 0
    ensures Compare(a, c) <= 0
    ensures Compare(a, b) < 0 || Compare(b, c) < 0 ==> Compare(a, c) < 0
  {
    if a != [] && b != [] && c != [] && a[0] == b[0] == c[0] {
      CompareTransitive(a[1..], b[1..], c[1..]);
    }
  }

  /** After k equal characters the first string ends or has the smaller character. */
  predicate LessAt(a: string, b: string, k: nat) {
    k <= |a| && k < |b| && a[..k] == b[..k] && (k == |a| || a[k] < b[k])
  }

  /** Lexicographic order: negative exactly for a proper prefix or a smaller character at the first difference. */
  lemma {:induction false} CompareIs(a: string, b: string)
    ensures Compare(a, b) < 0 <==> exists k: nat :: LessAt(a, b, k)
    ensures Compare(a, b) > 0 <==> exists k: nat :: LessAt(b, a, k)
  {
    CompareLess(a, b);
    CompareLess(b, a);
    CompareFlip(a, b);
  }

  lemma {:induction false} CompareLess(a: string, b: string)
    ensures Compare(a, b) < 0 <==> exists k: nat :: LessAt(a, b, k)
  {
    if a == [] || b == [] || a[0] != b[0] {
      assert Compare(a, b) < 0 ==> LessAt(a, b, 0);
      forall k: nat | LessAt(a, b, k) ensures Compare(a, b) < 0 {
        if k > 0 {
          FirstAgrees(a, b, k);
        }
      }
    } else {
      CompareLess(a[1..], b[1..]);
      if Compare(a, b) < 0 {
        var k: nat :| LessAt(a[1..], b[1..], k);
        LessStep(a, b, k);
      }
      forall k: nat | LessAt(a, b, k) ensures Compare(a, b) < 0 {
        LessStep(a, b, k - 1);
      }
    }
  }

  lemma FirstAgrees(a: string, b: string, k: nat)
    requires LessAt(a, b, k) && k > 0
    ensures a != [] && b != [] && a[0] == b[0]
  {
    assert a[0] == a[..k][0] && b[0] == b[..k][0];
  }

  lemma LessStep(a: string, b: string, k: nat)
    requires a != [] && b != [] && a[0] == b[0]
    ensures LessAt(a, b, k + 1) <==> LessAt(a[1..], b[1..], k)
  {
    if k < |a| && k < |b| {
      assert a[..k + 1] == [a[0]] + a[1..][..k] && b[..k + 1] == [b[0]] + b[1..][..k];
      assert a[1..][..k] == a[..k + 1][1..] && b[1..][..k] == b[..k + 1][1..];
    }
  }

  /** The order of `sort.Strings`. */
  predicate StringLeq(a: string, b: string) {
    Compare(a, b) <= 0
  }

  ghost predicate NotAfter(a: string, b: string) {
    !exists k: nat :: LessAt(b, a, k)
  }

  lemma StringLeqIs(a: string, b: string)
    ensures StringLeq(a, b) <==> NotAfter(a, b)
  {
    CompareIs(a, b);
  }
}
