/**
 The escapers for values substituted into JavaScript and CSS (internal/staticsite/placeholders.go), and readers that
 undo them.
 */
module Escapes {
  import opened Text

  // ---------------------------------------------------------------------------
  // Hexadecimal
  // ---------------------------------------------------------------------------

  function HexDigit(n: nat): char
    requires n < 16
  {
    if n < 10 then ('0' as int + n) as char else ('a' as int + n - 10) as char
  }

  predicate IsHex(c: char) {
    '0' <= c <= '9' || 'a' <= c <= 'f' || 'A' <= c <= 'F'
  }

  function DigitValue(c: char): nat {
    if '0' <= c <= '9' then c as int - '0' as int
    else if 'a' <= c <= 'f' then c as int - 'a' as int + 10
    else if 'A' <= c <= 'F' then c as int - 'A' as int + 10
    else 0
  }

  function HexValue(digits: string): nat {
    if digits == [] then 0 else 16 * HexValue(digits[..|digits| - 1]) + DigitValue(digits[|digits| - 1])
  }

  /** `%x`. */
  function Hex(n: nat): (digits: string)
    ensures digits != [] && forall i :: 0 <= i < |digits| ==> IsHex(digits[i])
  {
    if n < 16 then [HexDigit(n)] else Hex(n / 16) + [HexDigit(n % 16)]
  }

  /** `%02x` and `%04x`: zeros in front. */
  function Padded(n: nat, width: nat): string {
    Zeros(width - |Hex(n)|) + Hex(n)
  }

  function Zeros(n: int): string {
    seq(if n > 0 then n else 0, _ => '0')
  }

  lemma {:induction false} HexRoundTrip(n: nat)
    ensures HexValue(Hex(n)) == n
  {
    if n < 16 {
      assert Hex(n)[..0] == [];
    } else {
      HexRoundTrip(n / 16);
      assert Hex(n)[..|Hex(n)| - 1] == Hex(n / 16);
    }
  }

  lemma {:induction false} ZerosInFront(k: nat, digits: string)
    ensures HexValue(Zeros(k) + digits) == HexValue(digits)
    decreases |digits|, k
  {
    if digits == [] {
      if k > 0 {
        assert (Zeros(k) + digits)[..k - 1] == Zeros(k - 1) + [];
        ZerosInFront(k - 1, []);
        assert (Zeros(k) + digits)[k - 1] == '0';
      } else {
        assert Zeros(k) + digits == [];
      }
    } else {
      var front := digits[..|digits| - 1];
      ZerosInFront(k, front);
      assert (Zeros(k) + digits)[..|Zeros(k) + digits| - 1] == Zeros(k) + front;
    }
  }

  lemma HexWidths(n: nat)
    ensures n < 0x100 ==> |Hex(n)| <= 2
    ensures n < 0x10000 ==> |Hex(n)| <= 4
    ensures n < 0x1000000 ==> |Hex(n)| <= 6
  {
    HexWidth(n, 1);
    HexWidth(n, 3);
    HexWidth(n, 5);
  }

  function Pow16(k: nat): nat {
    if k == 0 then 1 else 16 * Pow16(k - 1)
  }

  lemma {:induction false} HexWidth(n: nat, k: nat)
    ensures n < Pow16(k + 1) ==> |Hex(n)| <= k + 1
  {
    assert Pow16(k + 1) == 16 * Pow16(k);
    if n >= 16 && k > 0 {
      HexWidth(n / 16, k - 1);
    }
  }

  // ---------------------------------------------------------------------------
  // JavaScript
  // ---------------------------------------------------------------------------

  const JS_MARKS := "\\'\"`<>&$="

  predicate Unprintable(c: char) {
    c < ' ' || c == '\U{7f}' || c == '\U{2028}' || c == '\U{2029}'
  }

  function JsPiece(c: char): string {
    if c in JS_MARKS then "\\x" + Padded(c as int, 2)
    else if Unprintable(c) then "\\u" + Padded(c as int, 4)
    else [c]
  }

  function JsText(v: string): string {
    if v == [] then [] else JsPiece(v[0]) + JsText(v[1..])
  }

  lemma JsTextStep(v: string, i: nat)
    requires i < |v|
    ensures JsText(v[i..]) == JsPiece(v[i]) + JsText(v[i + 1..])
  {
    assert v[i..][1..] == v[i + 1..];
  }

  method JsEscape(v: string) returns (b: string)
    ensures b == JsText(v)
  {
    b := "";
    assert v[0..] == v && b + JsText(v) == JsText(v);
    for i := 0 to |v|
      invariant b + JsText(v[i..]) == JsText(v)
    {
      var c := v[i];
      JsTextStep(v, i);
      var piece := [c];
      if c in JS_MARKS {
        piece := "\\x" + Padded(c as int, 2);
      } else if Unprintable(c) {
        piece := "\\u" + Padded(c as int, 4);
      }
      assert piece == JsPiece(c);
      hide *;
      Reassociate(b, piece, JsText(v[i + 1..]));
      b := b + piece;
    }
    assert v[|v|..] == [] && b + [] == b;
  }

  predicate Scalar(n: int) {
    0 <= n < 0xD800 || 0xE000 <= n < 0x110000
  }

  function Joined(c: char, rest: Option<string>): Option<string> {
    if rest.None? then None else Some([c] + rest.value)
  }

  predicate AllHex(s: string) {
    forall i :: 0 <= i < |s| ==> IsHex(s[i])
  }

  function IndexOf(s: string, c: char): (i: nat)
    requires c in s
    ensures i < |s| && s[i] == c
  {
    if s[0] == c then 0 else 1 + IndexOf(s[1..], c)
  }

  const SINGLE_ESCAPES := "'\"\\bfnrtv"
  const SINGLE_VALUES := "'\"\\\U{8}\U{c}\n\r\t\U{b}"

  /**
   The characters of a string literal (section 12.9.4 of ECMA-262): `\xHH`, `\uHHHH` and the single-character
   escapes. A quote of any kind or a line break ends or breaks the literal.
   */
  function JsRead(s: string): Option<string>
    decreases |s|
  {
    if s == [] then Some([])
    else if s[0] in "'\"`\n\r" then None
    else if s[0] != '\\' then Joined(s[0], JsRead(s[1..]))
    else if |s| >= 4 && s[1] == 'x' && AllHex(s[2..4]) && Scalar(HexValue(s[2..4]))
      then Joined(HexValue(s[2..4]) as char, JsRead(s[4..]))
    else if |s| >= 6 && s[1] == 'u' && AllHex(s[2..6]) && Scalar(HexValue(s[2..6])) then
      Joined(HexValue(s[2..6]) as char, JsRead(s[6..]))
    else if |s| >= 2 && s[1] in SINGLE_ESCAPES then
      Joined(SINGLE_VALUES[IndexOf(SINGLE_ESCAPES, s[1])], JsRead(s[2..]))
    else None
  }

  lemma PaddedReads(n: nat, width: nat)
    requires |Hex(n)| <= width
    ensures |Padded(n, width)| == width && AllHex(Padded(n, width)) && HexValue(Padded(n, width)) == n
  {
    ZerosInFront(width - |Hex(n)|, Hex(n));
    HexRoundTrip(n);
  }

  lemma MarksAreAscii(c: char)
    ensures c in JS_MARKS ==> 0x10 <= c as int < 0x80
    ensures c in "'\"`\n\r\\" ==> c in JS_MARKS || c < ' '
  {
  }

  lemma ReadX(hh: string, t: string)
    requires |hh| == 2 && AllHex(hh) && Scalar(HexValue(hh))
    ensures JsRead("\\x" + hh + t) == Joined(HexValue(hh) as char, JsRead(t))
  {
    var s := "\\x" + hh + t;
    assert s[0] == '\\' && s[1] == 'x' && s[2..4] == hh && s[4..] == t;
  }

  lemma ReadU(hhhh: string, t: string)
    requires |hhhh| == 4 && AllHex(hhhh) && Scalar(HexValue(hhhh))
    ensures JsRead("\\u" + hhhh + t) == Joined(HexValue(hhhh) as char, JsRead(t))
  {
    var s := "\\u" + hhhh + t;
    assert s[0] == '\\' && s[1] == 'u' && s[2..6] == hhhh && s[6..] == t;
  }

  lemma JsReadPiece(c: char, t: string)
    ensures JsRead(JsPiece(c) + t) == Joined(c, JsRead(t))
  {
    MarksAreAscii(c);
    HexWidths(c as int);
    if c in JS_MARKS {
      PaddedReads(c as int, 2);
      ReadX(Padded(c as int, 2), t);
    } else if Unprintable(c) {
      PaddedReads(c as int, 4);
      ReadU(Padded(c as int, 4), t);
    } else {
      assert ([c] + t)[0] == c && ([c] + t)[1..] == t;
    }
  }

  /** Reading the literal gives the value back, for every string and whatever quotes it stands in. */
  lemma {:induction false} JsRoundTrip(v: string)
    ensures JsRead(JsText(v)) == Some(v)
  {
    if v != [] {
      JsRoundTrip(v[1..]);
      JsReadPiece(v[0], JsText(v[1..]));
      assert [v[0]] + v[1..] == v;
    }
  }

  /** Nothing in the escaped value can end the literal, open a tag or a template, or break the line. */
  lemma {:induction false} JsTextIsInert(v: string)
    ensures forall c :: c in JsText(v) ==> !Unprintable(c) && (c in JS_MARKS ==> c == '\\')
  {
    if v != [] {
      JsTextIsInert(v[1..]);
      JsPieceIsInert(v[0]);
    }
  }

  lemma JsPieceIsInert(c: char)
    ensures forall d :: d in JsPiece(c) ==> !Unprintable(d) && (d in JS_MARKS ==> d == '\\')
  {
    MarksAreAscii(c);
    HexWidths(c as int);
    PaddedReads(c as int, if c in JS_MARKS then 2 else if Unprintable(c) then 4 else 6);
    HexIsInert();
    hide IsHex;
  }

  lemma HexIsInert()
    ensures forall d :: IsHex(d) ==> d !in JS_MARKS && !Unprintable(d)
  {
  }

  // ---------------------------------------------------------------------------
  // CSS
  // ---------------------------------------------------------------------------

  predicate CssPlain(c: char) {
    'a' <= c <= 'z' || 'A' <= c <= 'Z' || '0' <= c <= '9' || c == '-' || c == '_'
  }

  function CssPiece(c: char): string {
    if CssPlain(c) then [c] else "\\" + (Hex(c as int) + " ")
  }

  function CssText(v: string): string {
    if v == [] then [] else CssPiece(v[0]) + CssText(v[1..])
  }

  lemma CssTextStep(v: string, i: nat)
    requires i < |v|
    ensures CssText(v[i..]) == CssPiece(v[i]) + CssText(v[i + 1..])
  {
    assert v[i..][1..] == v[i + 1..];
  }

  method CssEscape(v: string) returns (b: string)
    ensures b == CssText(v)
  {
    b := "";
    assert v[0..] == v && b + CssText(v) == CssText(v);
    for i := 0 to |v|
      invariant b + CssText(v[i..]) == CssText(v)
    {
      var c := v[i];
      CssTextStep(v, i);
      var piece := if CssPlain(c) then [c] else "\\" + (Hex(c as int) + " ");
      assert piece == CssPiece(c);
      hide *;
      Reassociate(b, piece, CssText(v[i + 1..]));
      b := b + piece;
    }
    assert v[|v|..] == [] && b + [] == b;
  }

  lemma Reassociate(a: string, b: string, c: string)
    ensures a + (b + c) == a + b + c
  {
  }

  /** How many hexadecimal digits come first, up to a limit. */
  function HexRun(s: string, limit: nat): (n: nat)
    ensures n <= |s| && n <= limit
  {
    if limit == 0 || s == [] || !IsHex(s[0]) then 0 else 1 + HexRun(s[1..], limit - 1)
  }

  predicate CssSpace(c: char) {
    c == ' ' || c == '\t' || c == '\n'
  }

  const REPLACEMENT := '\U{fffd}'

  /** The code point of an escape: zero, surrogates and values out of range become the replacement character. */
  function CssPoint(n: nat): char {
    if n == 0 || !Scalar(n) then REPLACEMENT else n as char
  }

  /** Escaped text read as section 4.3.7 of CSS Syntax Module Level 3 says: up to six digits and one white space. */
  function CssRead(s: string): Option<string>
    decreases |s|
  {
    if s == [] then Some([])
    else if s[0] != '\\' then (if s[0] in "'\"\n" then None else Joined(s[0], CssRead(s[1..])))
    else if |s| < 2 || s[1] == '\n' then None
    else if !IsHex(s[1]) then Joined(s[1], CssRead(s[2..]))
    else
      var n := HexRun(s[1..], 6);
      var rest := s[1 + n..];
      Joined(CssPoint(HexValue(s[1..1 + n])), CssRead(if rest != [] && CssSpace(rest[0]) then rest[1..] else rest))
  }

  lemma {:induction false} RunOfDigits(digits: string, t: string, limit: nat)
    requires AllHex(digits) && |digits| <= limit && t != [] && !IsHex(t[0])
    ensures HexRun(digits + t, limit) == |digits|
  {
    if digits == [] {
      assert digits + t == t;
    } else {
      assert (digits + t)[1..] == digits[1..] + t;
      RunOfDigits(digits[1..], t, limit - 1);
    }
  }

  lemma CssReadEscaped(d: string, t: string)
    requires AllHex(d) && 1 <= |d| <= 6
    ensures CssRead("\\" + (d + " ") + t) == Joined(CssPoint(HexValue(d)), CssRead(t))
  {
    hide HexValue;
    var s := "\\" + (d + " ") + t;
    assert s[1..] == d + (" " + t);
    RunOfDigits(d, " " + t, 6);
    assert s[0] == '\\' && s[1] == d[0];
    assert s[1..1 + |d|] == d && s[1 + |d|..] == " " + t && (" " + t)[1..] == t;
  }

  lemma CssReadPiece(c: char, t: string)
    ensures CssRead(CssPiece(c) + t) == Joined(if c as int == 0 then REPLACEMENT else c, CssRead(t))
  {
    if CssPlain(c) {
      assert ([c] + t)[0] == c && ([c] + t)[1..] == t;
    } else {
      HexWidths(c as int);
      HexRoundTrip(c as int);
      CssReadEscaped(Hex(c as int), t);
      hide Hex, HexValue, CssRead;
    }
  }

  /** A NUL as a CSS reader sees it. */
  function NoNul(v: string): (r: string)
    ensures |r| == |v| && forall i :: 0 <= i < |v| ==> r[i] == if v[i] as int == 0 then REPLACEMENT else v[i]
  {
    seq(|v|, i requires 0 <= i < |v| => if v[i] as int == 0 then REPLACEMENT else v[i])
  }

  lemma {:induction false} CssReads(v: string)
    ensures CssRead(CssText(v)) == Some(NoNul(v))
  {
    if v == [] {
      assert NoNul(v) == [];
    } else {
      CssReads(v[1..]);
      CssReadPiece(v[0], CssText(v[1..]));
      assert NoNul(v) == [NoNul(v)[0]] + NoNul(v[1..]);
    }
  }

  /** Reading gives the value back exactly when it holds no NUL, which CSS cannot escape. */
  lemma CssRoundTripIff(v: string)
    ensures CssRead(CssText(v)) == Some(v) <==> forall i :: 0 <= i < |v| ==> v[i] as int != 0
  {
    CssReads(v);
    var r := NoNul(v);
    if r == v {
      forall i | 0 <= i < |v| ensures v[i] as int != 0 {
        assert r[i] == v[i];
      }
    }
  }

  /**
   The escaped value is made of name characters, backslashes and spaces: no quote, bracket, semicolon or line break.
   */
  lemma {:induction false} CssTextIsInert(v: string)
    ensures forall c :: c in CssText(v) ==> CssPlain(c) || c == '\\' || c == ' '
  {
    if v != [] {
      CssTextIsInert(v[1..]);
      forall c | c in CssPiece(v[0]) ensures CssPlain(c) || c == '\\' || c == ' ' {
        assert forall d :: IsHex(d) ==> CssPlain(d);
      }
    }
  }
}
