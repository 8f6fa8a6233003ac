/** The cache phase's catch-all expression (`BypassExpression`, cloudflare/rules/rules.go). */
module Bypass {
  import opened Text
  import opened FilterText
  import opened FilterParse
  import opened HostFilter

  /** The fold over the claims in the order given. */
  function BypassText(claims: seq<string>): string {
    if claims == [] then "true"
    else if |claims| == 1 then "not " + claims[0]
    else "(" + BypassText(claims[..|claims| - 1]) + ") and not " + claims[|claims| - 1]
  }

  method BypassExpression(claims: seq<string>) returns (expr: string)
    ensures expr == BypassText(claims)
  {
    if |claims| == 0 {
      return "true";
    }
    expr := "not " + claims[0];
    for i := 1 to |claims|
      invariant expr == BypassText(claims[..i])
    {
      assert claims[..i + 1][..i] == claims[..i];
      expr := "(" + expr + ") and not " + claims[i];
    }
    assert claims[..|claims|] == claims;
  }

  function BypassExpr(es: seq<Expr>): Expr {
    if es == [] then True
    else if |es| == 1 then Not(Paren(es[0]))
    else And(Paren(BypassExpr(es[..|es| - 1])), Not(Paren(es[|es| - 1])))
  }

  /** Every claim is one parenthesised group. */
  ghost predicate Groups(claims: seq<string>, es: seq<Expr>) {
    |claims| == |es| && forall i :: 0 <= i < |es| ==> OperandText(claims[i], Paren(es[i]))
  }

  lemma FoldConcat(expr: string, claim: string)
    ensures "(" + expr + ") and not " + claim == "(" + expr + ")" + " and " + ("not " + claim)
  {
    assert ") and not " == ")" + " and " + "not ";
  }

  lemma {:induction false} BypassWhole(claims: seq<string>, es: seq<Expr>)
    requires Groups(claims, es)
    ensures WholeText(BypassText(claims), BypassExpr(es))
  {
    hide OperandText, WholeText, TermText, AllText;
    if claims == [] {
      TrueWhole();
    } else if |claims| == 1 {
      NotTerm(claims[0], Paren(es[0]));
    } else {
      var n := |claims| - 1;
      BypassWhole(claims[..n], es[..n]);
      var expr, e := BypassText(claims[..n]), BypassExpr(es[..n]);
      GroupText(expr, e);
      OperandTerm("(" + expr + ")", Paren(e));
      NotTerm(claims[n], Paren(es[n]));
      AndText("(" + expr + ")", Paren(e), "not " + claims[n], Not(Paren(es[n])));
      FoldConcat(expr, claims[n]);
    }
  }

  lemma TrueWhole()
    ensures WholeText("true", True)
  {
    LexWord("true");
  }

  lemma NotParenMeans(e: Expr, q: Request)
    ensures Eval(Not(Paren(e)), q) == !Eval(e, q)
  {
    assert Eval(Paren(e), q) == Eval(e, q);
  }

  lemma ParenAndMeans(e: Expr, f: Expr, q: Request)
    ensures Eval(And(Paren(e), f), q) == (Eval(e, q) && Eval(f, q))
  {
    assert Eval(Paren(e), q) == Eval(e, q);
  }

  lemma {:induction false} BypassEval(es: seq<Expr>, q: Request)
    ensures Eval(BypassExpr(es), q) <==> forall i :: 0 <= i < |es| ==> !Eval(es[i], q)
  {
    if es != [] {
      hide Eval;
      var n := |es| - 1;
      NotParenMeans(es[n], q);
      if n > 0 {
        BypassEval(es[..n], q);
        ParenAndMeans(BypassExpr(es[..n]), Not(Paren(es[n])), q);
        assert forall i :: 0 <= i < n ==> es[..n][i] == es[i];
      }
    }
  }

  lemma GroupMeans(claim: string, e: Expr, q: Request)
    requires OperandText(claim, Paren(e))
    ensures Holds(claim, q) <==> Eval(e, q)
  {
    OperandIsWhole(claim, Paren(e));
    hide OperandText, Holds, WholeText;
    WholeMeans(claim, Paren(e), q);
  }

  /** Read with the language's precedence, the printed bypass is true of a request exactly when no claim is. */
  lemma BypassMeaning(claims: seq<string>, es: seq<Expr>, q: Request)
    requires Groups(claims, es)
    ensures Holds(BypassText(claims), q) <==> forall i :: 0 <= i < |claims| ==> !Holds(claims[i], q)
  {
    BypassWhole(claims, es);
    BypassEval(es, q);
    hide OperandText, WholeText, Holds, BypassText, BypassExpr, Eval;
    WholeMeans(BypassText(claims), BypassExpr(es), q);
    forall i | 0 <= i < |claims| ensures Holds(claims[i], q) <==> Eval(es[i], q) {
      GroupMeans(claims[i], es[i], q);
    }
  }

  // ---------------------------------------------------------------------------
  // Claims that only look like groups
  // ---------------------------------------------------------------------------

  /** The test a claim must pass: its first and last characters. */
  predicate LooksGrouped(claim: string) {
    HasPrefix(claim, "(") && HasSuffix(claim, ")")
  }

  /** The expression with its first operand negated. */
  function NegateFirst(e: Expr): Expr {
    match e
    case And(l, r) => And(NegateFirst(l), r)
    case Or(l, r) => Or(NegateFirst(l), r)
    case _ => Not(e)
  }

  /** The expression read after `p and not`, which takes its first operand alone. */
  function AndNotFirst(p: Expr, e: Expr): Expr {
    match e
    case Or(l, r) => Or(AndNotFirst(p, l), r)
    case _ => And(p, NegateFirst(e))
  }

  /**
   With `not` before it, the claim's text takes the request: every conjunct after the first operand is met, or an
   alternative.
   */
  predicate Passes(e: Expr, q: Request) {
    match e
    case And(l, r) => Passes(l, q) && Eval(r, q)
    case Or(l, r) => Passes(l, q) || Eval(r, q)
    case _ => !Eval(e, q)
  }

  /** An alternative of the claim takes the request, whatever stands before the claim. */
  predicate Reopens(e: Expr, q: Request) {
    match e
    case And(l, r) => Reopens(l, q) && Eval(r, q)
    case Or(l, r) => Reopens(l, q) || Eval(r, q)
    case _ => false
  }

  lemma {:induction false} NegateFirstMeans(e: Expr, q: Request)
    ensures Eval(NegateFirst(e), q) == Passes(e, q)
    ensures Reopens(e, q) ==> Passes(e, q) && Eval(e, q)
    ensures Passes(e, q) && Eval(e, q) ==> Reopens(e, q)
  {
    match e
    case And(l, r) => NegateFirstMeans(l, q);
    case Or(l, r) => NegateFirstMeans(l, q);
    case _ =>
  }

  /** An operand is a group or an atom. */
  lemma PrimaryShape(ts: seq<Token>)
    requires ParsePrimary(ts).Some?
    ensures !ParsePrimary(ts).value.e.And? && !ParsePrimary(ts).value.e.Or?
  {
  }

  lemma NegatedNot(ts: seq<Token>)
    requires ts != [] && ts[0] == Open && ParseNot(ts).Some?
    ensures ParseNot([NOT] + ts) == Some(Parsed(NegateFirst(ParseNot(ts).value.e), ParseNot(ts).value.rest))
    ensures !ParseNot(ts).value.e.And? && !ParseNot(ts).value.e.Or?
  {
    PrimaryShape(ts);
    hide ParsePrimary;
    assert ([NOT] + ts)[1..] == ts;
  }

  lemma NegatedAnd(ts: seq<Token>)
    requires ts != [] && ts[0] == Open && ParseAnd(ts).Some?
    ensures ParseAnd([NOT] + ts) == Some(Parsed(NegateFirst(ParseAnd(ts).value.e), ParseAnd(ts).value.rest))
    ensures !ParseAnd(ts).value.e.Or?
  {
    NegatedNot(ts);
    hide ParseNot, ParsePrimary;
  }

  /** `not` before an expression that opens with a parenthesis negates its first operand alone. */
  lemma NotNegatesFirst(ts: seq<Token>, e: Expr)
    requires ts != [] && ts[0] == Open && Whole(ts, e)
    ensures Whole([NOT] + ts, NegateFirst(e))
  {
    NegatedAnd(ts);
    hide ParseNot, ParseAnd;
  }

  lemma AfterAnd(us: seq<Token>, p: Expr, ts: seq<Token>)
    requires Operand(us, p) && ts != [] && ts[0] == Open && ParseAnd(ts).Some?
    ensures ParseAnd(us + ([AND] + ([NOT] + ts)))
         == Some(Parsed(And(p, NegateFirst(ParseAnd(ts).value.e)), ParseAnd(ts).value.rest))
  {
    OperandWhole(us, p);
    FrameNot(us, [AND] + ([NOT] + ts));
    NegatedAnd(ts);
    hide ParseNot, ParsePrimary;
    var more := [AND] + ([NOT] + ts);
    assert [] + more == more && more[1..] == [NOT] + ts;
  }

  /** The same after `and`: what the conjunction adds ends where the claim's first alternative begins. */
  lemma AndNotTakesFirst(us: seq<Token>, p: Expr, ts: seq<Token>, e: Expr)
    requires Operand(us, p) && ts != [] && ts[0] == Open && Whole(ts, e)
    ensures Whole(us + ([AND] + ([NOT] + ts)), AndNotFirst(p, e))
  {
    NegatedAnd(ts);
    AfterAnd(us, p, ts);
    hide ParseNot, ParseAnd, ParsePrimary;
  }

  lemma OpensWith(claim: string)
    requires claim != [] && claim[0] == '(' && Lex(claim).Some?
    ensures Lex(claim).value != [] && Lex(claim).value[0] == Open
  {
  }

  lemma NotText(claim: string, e: Expr)
    requires LooksGrouped(claim) && WholeText(claim, e)
    ensures WholeText("not " + claim, NegateFirst(e))
  {
    var ts := Lex(claim).value;
    OpensWith(claim);
    NotNegatesFirst(ts, e);
    LexWord("not");
    ReadsSpaced("not", [NOT], claim, ts);
    assert "not" + " " + claim == "not " + claim;
  }

  lemma AndNotTokens(text: string, us: seq<Token>, claim: string, ts: seq<Token>)
    requires Reads(text, us) && Reads(claim, ts)
    ensures Reads(text + " and " + ("not " + claim), us + ([AND] + ([NOT] + ts)))
  {
    LexWord("not");
    LexWord("and");
    assert Reads("not", [NOT]) && Reads("and", [AND]);
    hide *;
    ReadsSpaced("not", [NOT], claim, ts);
    ReadsSpaced(text, us, "and", [AND]);
    ReadsSpaced(text + " " + "and", us + [AND], "not" + " " + claim, [NOT] + ts);
    AndNotSpaced(text, claim);
    assert us + [AND] + ([NOT] + ts) == us + ([AND] + ([NOT] + ts));
  }

  lemma AndNotSpaced(text: string, claim: string)
    ensures text + " " + "and" + " " + ("not" + " " + claim) == text + " and " + ("not " + claim)
  {
    assert " " + "and" + " " == " and " && "not" + " " == "not ";
  }

  lemma AndNotText(text: string, p: Expr, claim: string, e: Expr)
    requires OperandText(text, p) && LooksGrouped(claim) && WholeText(claim, e)
    ensures WholeText(text + " and " + ("not " + claim), AndNotFirst(p, e))
  {
    OpensWith(claim);
    hide Lex, Operand, Whole, LooksGrouped, AndNotFirst;
    var us, ts := Lex(text).value, Lex(claim).value;
    AndNotTakesFirst(us, p, ts, e);
    AndNotTokens(text, us, claim, ts);
  }

  /** Every claim is an expression that begins and ends with a parenthesis, as Assemble asks. */
  ghost predicate Grouped(claims: seq<string>, es: seq<Expr>) {
    |claims| == |es| && forall i :: 0 <= i < |es| ==> LooksGrouped(claims[i]) && WholeText(claims[i], es[i])
  }

  /** The first operand of the expression stands alone, as in every expression that opens with a parenthesis. */
  predicate FirstIsOperand(e: Expr) {
    match e
    case And(l, _) => !l.And? && !l.Or?
    case Or(l, _) => !l.Or? && FirstIsOperand(l)
    case _ => true
  }

  lemma ClaimShape(claim: string, e: Expr)
    requires LooksGrouped(claim) && WholeText(claim, e)
    ensures FirstIsOperand(e)
  {
    var ts := Lex(claim).value;
    OpensWith(claim);
    hide Lex, ParsePrimary, ParseNot;
    assert ParseAnd(ts).Some? && ParseNot(ts).Some?;
    NegatedNot(ts);
    NegatedAnd(ts);
    assert FirstIsOperand(ParseAnd(ts).value.e);
  }

  /** What the fold is read as. */
  function BypassRead(es: seq<Expr>): Expr {
    if es == [] then True
    else if |es| == 1 then NegateFirst(es[0])
    else AndNotFirst(Paren(BypassRead(es[..|es| - 1])), es[|es| - 1])
  }

  lemma {:induction false} BypassReads(claims: seq<string>, es: seq<Expr>)
    requires Grouped(claims, es)
    ensures WholeText(BypassText(claims), BypassRead(es))
  {
    hide OperandText, WholeText, LooksGrouped, NegateFirst, AndNotFirst;
    if claims == [] {
      TrueWhole();
    } else if |claims| == 1 {
      NotText(claims[0], es[0]);
    } else {
      var n := |claims| - 1;
      BypassReads(claims[..n], es[..n]);
      var expr, e := BypassText(claims[..n]), BypassRead(es[..n]);
      GroupText(expr, e);
      AndNotText("(" + expr + ")", Paren(e), claims[n], es[n]);
      FoldConcat(expr, claims[n]);
    }
  }

  // ---------------------------------------------------------------------------
  // What the fold says of a request
  // ---------------------------------------------------------------------------

  /** From claim k on, none stops the request. */
  ghost predicate PassesFrom(es: seq<Expr>, k: nat, q: Request) {
    forall j :: k <= j < |es| ==> Passes(es[j], q)
  }

  /** Some claim's alternative takes the request and no later claim stops it. */
  ghost predicate Reopened(es: seq<Expr>, q: Request) {
    exists i :: 0 <= i < |es| && Reopens(es[i], q) && PassesFrom(es, i + 1, q)
  }

  lemma {:induction false} AndNotMeans(p: Expr, e: Expr, q: Request)
    requires FirstIsOperand(e)
    ensures Eval(AndNotFirst(p, e), q) <==> if Eval(p, q) then Passes(e, q) else Reopens(e, q)
  {
    if e.Or? {
      AndNotMeans(p, e.left, q);
      assert Eval(Or(AndNotFirst(p, e.left), e.right), q) <==> Eval(AndNotFirst(p, e.left), q) || Eval(e.right, q);
    } else {
      NegateFirstMeans(e, q);
      hide NegateFirst;
      assert Eval(And(p, NegateFirst(e)), q) <==> Eval(p, q) && Eval(NegateFirst(e), q);
      hide Eval, Passes;
    }
  }

  lemma ReopenedSnoc(es: seq<Expr>, e: Expr, q: Request)
    ensures PassesFrom(es + [e], 0, q) <==> PassesFrom(es, 0, q) && Passes(e, q)
    ensures Reopened(es + [e], q) <==> Reopens(e, q) || (Reopened(es, q) && Passes(e, q))
  {
    hide Passes, Reopens;
    var all, n := es + [e], |es|;
    assert all[n] == e && forall j :: 0 <= j < n ==> all[j] == es[j];
    if Reopens(e, q) {
      assert Reopens(all[n], q) && PassesFrom(all, n + 1, q);
    }
    if Reopened(es, q) && Passes(e, q) {
      var i :| 0 <= i < n && Reopens(es[i], q) && PassesFrom(es, i + 1, q);
      assert Reopens(all[i], q) && PassesFrom(all, i + 1, q);
    }
    if Reopened(all, q) && !Reopens(e, q) {
      var i :| 0 <= i < |all| && Reopens(all[i], q) && PassesFrom(all, i + 1, q);
      assert i < n && Passes(all[n], q);
      assert Reopens(es[i], q) && PassesFrom(es, i + 1, q);
    }
  }

  lemma {:induction false} BypassReadMeans(es: seq<Expr>, q: Request)
    requires forall i :: 0 <= i < |es| ==> FirstIsOperand(es[i])
    ensures Eval(BypassRead(es), q) <==> PassesFrom(es, 0, q) || Reopened(es, q)
  {
    if es != [] {
      var front, last := es[..|es| - 1], es[|es| - 1];
      assert es == front + [last];
      ReopenedSnoc(front, last, q);
      NegateFirstMeans(last, q);
      if |es| > 1 {
        BypassReadMeans(front, q);
        AndNotMeans(Paren(BypassRead(front)), last, q);
        assert Eval(Paren(BypassRead(front)), q) == Eval(BypassRead(front), q);
      }
    }
  }

  /**
   The answer is right unless a claim stops a request no claim takes, or one opened to a claimed request stays open.
   */
  ghost predicate RightAbout(es: seq<Expr>, q: Request) {
    && ((forall i :: 0 <= i < |es| ==> !Eval(es[i], q)) ==> PassesFrom(es, 0, q))
    && !Reopened(es, q)
  }

  lemma RightIff(es: seq<Expr>, q: Request)
    ensures RightAbout(es, q)
       <==> (PassesFrom(es, 0, q) || Reopened(es, q) <==> forall i :: 0 <= i < |es| ==> !Eval(es[i], q))
  {
    forall e ensures (Reopens(e, q) ==> Passes(e, q) && Eval(e, q)) && (Passes(e, q) && Eval(e, q) ==> Reopens(e, q)) {
      NegateFirstMeans(e, q);
    }
    hide Passes, Reopens, Eval;
    if i :| 0 <= i < |es| && Eval(es[i], q) {
      if PassesFrom(es, 0, q) {
        assert Reopens(es[i], q) && PassesFrom(es, i + 1, q);
      }
    }
  }

  /**
   For any number of claims that pass Assemble's test: what the printed bypass says of a request, and that it is
   right about the request (true exactly when no claim is) exactly when RightAbout says so of the parsed claims.
   */
  lemma BypassOfClaims(claims: seq<string>, es: seq<Expr>, q: Request)
    requires Grouped(claims, es)
    ensures Holds(BypassText(claims), q) <==> PassesFrom(es, 0, q) || Reopened(es, q)
    ensures (Holds(BypassText(claims), q) <==> forall i :: 0 <= i < |claims| ==> !Holds(claims[i], q)) <==>
      RightAbout(es, q)
  {
    BypassReads(claims, es);
    forall i | 0 <= i < |es| ensures FirstIsOperand(es[i]) && (Holds(claims[i], q) <==> Eval(es[i], q)) {
      ClaimShape(claims[i], es[i]);
      WholeMeans(claims[i], es[i], q);
    }
    hide WholeText, LooksGrouped, Holds, Eval, FirstIsOperand, BypassRead, BypassText, PassesFrom, Reopened, RightAbout;
    WholeMeans(BypassText(claims), BypassRead(es), q);
    BypassReadMeans(es, q);
    RightIff(es, q);
  }

  /** A claim read as one pair of parentheses is one operand. */
  lemma OneParenIsGroup(claim: string, x: Expr)
    ensures WholeText(claim, Paren(x)) <==> OperandText(claim, Paren(x))
  {
    if OperandText(claim, Paren(x)) {
      OperandIsWhole(claim, Paren(x));
    }
    if WholeText(claim, Paren(x)) {
      var ts := Lex(claim).value;
      assert ParseAnd(ts) == Some(Parsed(Paren(x), []));
      assert ParseNot(ts) == Some(Parsed(Paren(x), []));
    }
  }

  /**
   Claims that are each read as one pair of parentheses, which a caller can check beforehand: the bypass is right about
   every request.
   */
  lemma BypassOfParens(claims: seq<string>, es: seq<Expr>, q: Request)
    requires |claims| == |es| && forall i :: 0 <= i < |es| ==> WholeText(claims[i], Paren(es[i]))
    ensures Holds(BypassText(claims), q) <==> forall i :: 0 <= i < |claims| ==> !Holds(claims[i], q)
  {
    hide OperandText, WholeText, Holds, BypassText;
    forall i | 0 <= i < |es| ensures OperandText(claims[i], Paren(es[i])) {
      OneParenIsGroup(claims[i], es[i]);
    }
    BypassMeaning(claims, es, q);
  }

  /** The claim `(true) or (true)` passes the test, yet its bypass takes the requests the claim takes. */
  lemma LooksGroupedIsNotEnough(q: Request)
    ensures LooksGrouped(TWO_GROUPS)
    ensures Holds(TWO_GROUPS, q) && Holds(BypassText([TWO_GROUPS]), q)
  {
    TrueWhole();
    GroupText("true", True);
    assert "(" + "true" + ")" == "(true)";
    OperandIsWhole("(true)", Paren(True));
    var e := Or(Paren(True), Paren(True));
    OrText("(true)", Paren(True), "(true)", Paren(True));
    WholeMeans(TWO_GROUPS, e, q);
    assert Eval(Paren(True), q);
    BypassOfClaims([TWO_GROUPS], [e], q);
    assert Reopens([e][0], q) && PassesFrom([e], 1, q);
  }

  const TWO_GROUPS := "(true)" + " or " + "(true)"
}
