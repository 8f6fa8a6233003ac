/** When the bypass expression does not depend on the order of its claims (cloudflare/rules/rules.go). */
module ClaimFold {
  import opened Text
  import opened FilterText
  import opened FilterParse
  import opened HostFilter
  import opened Bypass

  const JOIN := ") and not "

  /** Two claims that follow one another print alike in either order. */
  predicate Swaps(u: string, v: string) {
    u + JOIN + v == v + JOIN + u
  }

  /** What the fold prints before a claim that follows these. */
  function Lead(claims: seq<string>): string {
    if claims == [] then "not " else "(" + BypassText(claims) + JOIN
  }

  lemma FoldSnoc(claims: seq<string>, u: string)
    ensures BypassText(claims + [u]) == Lead(claims) + u
  {
    assert (claims + [u])[..|claims|] == claims;
  }

  lemma FoldTwo(claims: seq<string>, u: string, v: string)
    ensures BypassText(claims + [u, v]) == "(" + Lead(claims) + (u + JOIN + v)
  {
    assert claims + [u, v] == (claims + [u]) + [v];
    FoldSnoc(claims, u);
    FoldSnoc(claims + [u], v);
    hide BypassText, Lead;
    assert "(" + (Lead(claims) + u) + JOIN + v == "(" + Lead(claims) + (u + JOIN + v);
  }

  lemma SameTail(s: string, t: string, u: string, v: string)
    requires |s| == |t|
    ensures s + u == t + v <==> s == t && u == v
  {
    if s + u == t + v {
      assert s == (s + u)[..|s|] && t == (t + v)[..|t|];
      assert u == (s + u)[|s|..] && v == (t + v)[|t|..];
    }
  }

  lemma SameInside(lead: string, s: string, t: string, mid: string, tail: string)
    ensures lead + s + mid + tail == lead + t + mid + tail <==> s == t
  {
    if lead + s + mid + tail == lead + t + mid + tail {
      assert |lead + s + mid + tail| == |lead| + |s| + |mid| + |tail|;
      assert |lead + t + mid + tail| == |lead| + |t| + |mid| + |tail|;
      SameTail(lead + s + mid, lead + t + mid, tail, tail);
      SameTail(lead + s, lead + t, mid, mid);
      SameTail(lead, lead, s, t);
    }
  }

  lemma FoldGrows(a: seq<string>, b: seq<string>, u: string)
    requires a != [] && b != []
    ensures BypassText(a + [u]) == BypassText(b + [u]) <==> BypassText(a) == BypassText(b)
  {
    FoldSnoc(a, u);
    FoldSnoc(b, u);
    hide BypassText;
    SameInside("(", BypassText(a), BypassText(b), JOIN, u);
  }

  /** Exchanging two neighbours changes the printed fold exactly when the two do not swap. */
  lemma {:induction false} FoldSwap(before: seq<string>, u: string, v: string, after: seq<string>)
    ensures BypassText(before + [u, v] + after) == BypassText(before + [v, u] + after) <==> Swaps(u, v)
    decreases |after|
  {
    if after == [] {
      assert before + [u, v] + [] == before + [u, v] && before + [v, u] + [] == before + [v, u];
      FoldTwo(before, u, v);
      FoldTwo(before, v, u);
      var lead := "(" + Lead(before);
      SameTail(lead, lead, u + JOIN + v, v + JOIN + u);
    } else {
      var front, last := after[..|after| - 1], after[|after| - 1];
      FoldSwap(before, u, v, front);
      assert before + [u, v] + after == (before + [u, v] + front) + [last];
      assert before + [v, u] + after == (before + [v, u] + front) + [last];
      FoldGrows(before + [u, v] + front, before + [v, u] + front, last);
    }
  }

  /** A claim can be moved behind claims it swaps with. */
  lemma {:induction false} MoveBehind(before: seq<string>, u: string, after: seq<string>)
    requires forall v :: v in after ==> Swaps(u, v)
    ensures BypassText(before + [u] + after) == BypassText(before + after + [u])
    decreases |after|
  {
    if after == [] {
      assert before + [u] + [] == before + [] + [u];
    } else {
      var v, rest := after[0], after[1..];
      FoldSwap(before, u, v, rest);
      MoveBehind(before + [v], u, rest);
      assert before + [u] + after == before + [u, v] + rest;
      assert before + [v, u] + rest == (before + [v]) + [u] + rest;
      assert (before + [v]) + rest + [u] == before + after + [u];
    }
  }

  // ---------------------------------------------------------------------------
  // Claims that are groups
  // ---------------------------------------------------------------------------

  /** A group is not the beginning of another group that goes on with a closing parenthesis. */
  lemma GroupsDoNotNest(u: string, rest: string, v: string, d: Expr, e: Expr)
    requires v == u + (")" + rest) && OperandText(u, Paren(d))
    ensures !OperandText(v, Paren(e))
  {
    if Lex(v).Some? {
      LexAppend(u, ")" + rest);
      var us := Lex(u).value;
      assert Lex(")" + rest).Some?;
      assert (")" + rest)[1..] == rest;
      var more := Lex(")" + rest).value;
      assert more[0] == Close;
      FramePrimary(us, more);
    }
  }

  lemma LongerGroup(u: string, v: string, d: Expr, e: Expr)
    requires OperandText(u, Paren(d)) && OperandText(v, Paren(e)) && Swaps(u, v)
    ensures |v| <= |u|
  {
    if |u| < |v| {
      var text := v + JOIN + u;
      assert text[..|v|] == v && text[..|u|] == u && text[|u|] == JOIN[0] == ')';
      assert v == u + (")" + v[|u| + 1..]);
      GroupsDoNotNest(u, v[|u| + 1..], v, d, e);
    }
  }

  /** Two claims that are groups swap exactly when they are one text. */
  lemma GroupsSwap(u: string, v: string, d: Expr, e: Expr)
    requires OperandText(u, Paren(d)) && OperandText(v, Paren(e))
    ensures Swaps(u, v) <==> u == v
  {
    if Swaps(u, v) {
      LongerGroup(u, v, d, e);
      LongerGroup(v, u, e, d);
      hide OperandText;
      SameTail(u + JOIN, v + JOIN, v, u);
    }
  }

  /** Claims that only look like groups can swap and differ: the second begins with the first. */
  lemma DifferentClaimsSwap()
    ensures LooksGrouped("(true)") && LooksGrouped("(true)" + JOIN + "(true)")
    ensures Swaps("(true)", "(true)" + JOIN + "(true)") && "(true)" != "(true)" + JOIN + "(true)"
  {
    assert "(true)" + JOIN + ("(true)" + JOIN + "(true)") == ("(true)" + JOIN + "(true)") + JOIN + "(true)";
    assert |"(true)" + JOIN + "(true)"| > |"(true)"|;
  }
}
