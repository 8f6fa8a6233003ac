/**
 Host filters (cloudflare/zonespec/zonespec.go, cloudflare/zonespec/hardening.go): the text printed for a list
 of hosts, read back with the language's own precedence, takes the hosts the list matches.
 */
module HostFilter {
  import opened Text
  import opened FilterText
  import opened FilterParse
  import opened Sorting
  import HostOrder

  /** `strings.Join`. */
  function JoinWith(parts: seq<string>, sep: string): string {
    if parts == [] then "" else if |parts| == 1 then parts[0] else parts[0] + sep + JoinWith(parts[1..], sep)
  }

  function Quotes(items: seq<string>): (r: seq<string>)
    ensures |r| == |items| && forall i :: 0 <= i < |r| ==> r[i] == Quote(items[i])
  {
    seq(|items|, i requires 0 <= i < |items| => Quote(items[i]))
  }

  function ItemToken(item: string, quoted: bool): Token {
    if quoted then Quoted(item) else Word(item)
  }

  function Items(items: seq<string>, quoted: bool): (r: seq<Token>)
    ensures |r| == |items| && forall i :: 0 <= i < |r| ==> r[i] == ItemToken(items[i], quoted)
  {
    seq(|items|, i requires 0 <= i < |items| => ItemToken(items[i], quoted))
  }

  // ---------------------------------------------------------------------------
  // Set literals
  // ---------------------------------------------------------------------------

  /** The items as a set literal's body prints them. */
  predicate Bare(items: seq<string>) {
    forall i :: 0 <= i < |items| ==> IsWord(items[i])
  }

  predicate IsWord(w: string) {
    w != [] && forall i :: 0 <= i < |w| ==> WordChar(w[i])
  }

  function Printed(items: seq<string>, quoted: bool): (r: seq<string>)
    ensures |r| == |items| && forall i :: 0 <= i < |r| ==> r[i] == if quoted then Quote(items[i]) else items[i]
  {
    if quoted then Quotes(items) else items
  }

  lemma ReadsItem(item: string, quoted: bool)
    requires quoted || IsWord(item)
    ensures Reads(if quoted then Quote(item) else item, [ItemToken(item, quoted)])
  {
    if quoted {
      LexQuote(item);
    } else {
      LexWord(item);
    }
  }

  lemma ItemsTail(items: seq<string>, quoted: bool)
    requires items != []
    ensures Printed(items, quoted)[1..] == Printed(items[1..], quoted)
    ensures Items(items, quoted) == [Items(items, quoted)[0]] + Items(items[1..], quoted)
  {
    hide *;
  }

  lemma {:induction false} ReadsItems(items: seq<string>, quoted: bool)
    requires quoted || Bare(items)
    ensures Reads(JoinWith(Printed(items, quoted), " "), Items(items, quoted))
  {
    if items == [] {
      assert JoinWith(Printed(items, quoted), " ") == [] && Items(items, quoted) == [];
    } else {
      hide Lex;
      ReadsItem(items[0], quoted);
      ItemsTail(items, quoted);
      var text, token := Printed(items, quoted)[0], Items(items, quoted)[0];
      if |items| == 1 {
        assert Items(items, quoted) == [token];
      } else {
        ReadsItems(items[1..], quoted);
        ReadsSpaced(text, [token], JoinWith(Printed(items[1..], quoted), " "), Items(items[1..], quoted));
      }
    }
  }

  lemma {:induction false} ParseItems(items: seq<string>, quoted: bool)
    ensures ParseSet(Items(items, quoted) + [RightBrace], quoted) == Some(ParsedSet(items, []))
  {
    var ts := Items(items, quoted) + [RightBrace];
    if items == [] {
      assert ts == [RightBrace];
    } else {
      ParseItems(items[1..], quoted);
      assert ts[1..] == Items(items[1..], quoted) + [RightBrace];
      assert [items[0]] + items[1..] == items;
    }
  }

  /** `field in {items}`. */
  function InText(field: string, items: seq<string>, quoted: bool): string {
    field + " in {" + JoinWith(Printed(items, quoted), " ") + "}"
  }

  function InTokens(field: string, items: seq<string>, quoted: bool): seq<Token> {
    [Word(field)] + [Word("in"), LeftBrace] + Items(items, quoted) + [RightBrace]
  }

  lemma ReadsInBrace()
    ensures Reads(" in {", [Word("in"), LeftBrace])
  {
    LexWord("in");
    assert Reads([], []);
    ReadsMark('{', [], []);
    ReadsSpaced("in", [Word("in")], ['{'] + [], [LeftBrace] + []);
    assert "in" + " " + (['{'] + []) == "in {" && [Word("in")] + ([LeftBrace] + []) == [Word("in"), LeftBrace];
    ReadsSpace("in {", [Word("in"), LeftBrace]);
    assert " " + "in {" == " in {";
  }

  lemma ReadsIn(field: string, items: seq<string>, quoted: bool)
    requires IsWord(field) && (quoted || Bare(items))
    ensures Reads(InText(field, items, quoted), InTokens(field, items, quoted))
  {
    hide Items, Printed, JoinWith, Lex;
    var body, ts := JoinWith(Printed(items, quoted), " "), Items(items, quoted);
    ReadsItems(items, quoted);
    ReadsInBrace();
    LexWord(field);
    ReadsAppend(field, [Word(field)], " in {", [Word("in"), LeftBrace]);
    ReadsAppend(field + " in {", [Word(field)] + [Word("in"), LeftBrace], body, ts);
    ReadsMarkAfter(field + " in {" + body, [Word(field)] + [Word("in"), LeftBrace] + ts, '}');
  }

  lemma InParses(field: string, items: seq<string>, quoted: bool)
    ensures ParseIn(InTokens(field, items, quoted)[1..], quoted) == Some(ParsedSet(items, []))
    ensures |InTokens(field, items, quoted)| >= 4
    ensures InTokens(field, items, quoted)[0] == Word(field) && InTokens(field, items, quoted)[1] == Word("in")
  {
    ParseItems(items, quoted);
    assert InTokens(field, items, quoted)[1..] == [Word("in"), LeftBrace] + (Items(items, quoted) + [RightBrace]);
    assert ([Word("in"), LeftBrace] + (Items(items, quoted) + [RightBrace]))[2..]
        == Items(items, quoted) + [RightBrace];
  }

  // ---------------------------------------------------------------------------
  // Operands
  // ---------------------------------------------------------------------------

  /** The text is one operand: an atom or one pair of parentheses. */
  ghost predicate OperandText(text: string, e: Expr) {
    Lex(text).Some? && Operand(Lex(text).value, e)
  }

  /** The text is one expression. */
  ghost predicate WholeText(text: string, e: Expr) {
    Lex(text).Some? && Whole(Lex(text).value, e)
  }

  /** An atom that starts with a word other than `not` is an operand. */
  lemma AtomOperand(ts: seq<Token>, w: string, e: Expr)
    requires ts != [] && ts[0] == Word(w) && w != "not" && ParseAtom(ts) == Some(Parsed(e, []))
    ensures Operand(ts, e)
  {
    hide ParseAtom;
  }

  /** A set test whose tokens parse as an atom is an operand. */
  lemma InOperand(field: string, items: seq<string>, quoted: bool, e: Expr)
    requires IsWord(field) && field[0] != 'n'
    requires quoted || Bare(items)
    requires ParseAtom(InTokens(field, items, quoted)) == Some(Parsed(e, []))
    ensures OperandText(InText(field, items, quoted), e)
  {
    assert "not"[0] == 'n';
    hide InTokens, InText, Lex, ParseAtom, Operand, Bare, IsWord;
    ReadsIn(field, items, quoted);
    InParses(field, items, quoted);
    AtomOperand(InTokens(field, items, quoted), field, e);
  }

  lemma HostInAtom(hosts: seq<string>)
    ensures ParseAtom(InTokens("http.host", hosts, true)) == Some(Parsed(HostIn(hosts), []))
  {
    hide InTokens, ParseIn, ParseCall, ParseHeader;
    InParses("http.host", hosts, true);
  }

  lemma HostInOperand(hosts: seq<string>)
    ensures OperandText(InText("http.host", hosts, true), HostIn(hosts))
  {
    HostInAtom(hosts);
    InOperand("http.host", hosts, true, HostIn(hosts));
  }

  lemma VerbInAtom(verbs: seq<string>)
    ensures ParseAtom(InTokens("http.request.method", verbs, true)) == Some(Parsed(MethodIn(verbs), []))
  {
    hide InTokens, ParseIn, ParseCall, ParseHeader;
    InParses("http.request.method", verbs, true);
  }

  lemma VerbInOperand(verbs: seq<string>)
    ensures OperandText(InText("http.request.method", verbs, true), MethodIn(verbs))
  {
    VerbInAtom(verbs);
    InOperand("http.request.method", verbs, true, MethodIn(verbs));
  }

  lemma PathInAtom(paths: seq<string>)
    ensures ParseAtom(InTokens("http.request.uri.path", paths, true)) == Some(Parsed(PathIn(paths), []))
  {
    hide InTokens, ParseIn, ParseCall, ParseHeader;
    InParses("http.request.uri.path", paths, true);
  }

  lemma PathWord()
    ensures IsWord("http.request.uri.path")
  {
  }

  lemma PathInOperand(paths: seq<string>)
    ensures OperandText(InText("http.request.uri.path", paths, true), PathIn(paths))
  {
    PathWord();
    PathInAtom(paths);
    hide *;
    InOperand("http.request.uri.path", paths, true, PathIn(paths));
  }

  lemma SourceInAtom(ranges: seq<string>)
    ensures ParseAtom(InTokens("ip.src", ranges, false)) == Some(Parsed(SourceIn(ranges), []))
  {
    hide InTokens, ParseIn, ParseCall, ParseHeader;
    InParses("ip.src", ranges, false);
  }

  lemma SourceInOperand(ranges: seq<string>)
    requires Bare(ranges)
    ensures OperandText(InText("ip.src", ranges, false), SourceIn(ranges))
  {
    SourceInAtom(ranges);
    InOperand("ip.src", ranges, false, SourceIn(ranges));
  }

  /** `name(field, "text")`. */
  function CallText(name: string, field: string, text: string): string {
    name + "(" + (field + "," + (" " + Quote(text))) + ")"
  }

  function CallTokens(name: string, field: string, text: string): seq<Token> {
    [Word(name)] + [Open] + ([Word(field)] + [Comma] + [Quoted(text)]) + [Close]
  }

  lemma ReadsCall(name: string, field: string, text: string)
    requires IsWord(name) && IsWord(field)
    ensures Reads(CallText(name, field, text), CallTokens(name, field, text))
  {
    LexQuote(text);
    LexWord(name);
    LexWord(field);
    hide Lex, Quote;
    ReadsSpace(Quote(text), [Quoted(text)]);
    ReadsMarked(field, [Word(field)], ',', " " + Quote(text), [Quoted(text)]);
    ReadsMarked(name, [Word(name)], '(', field + "," + (" " + Quote(text)), [Word(field)] + [Comma] + [Quoted(text)]);
    ReadsMarkAfter(name + "(" + (field + "," + (" " + Quote(text))),
      [Word(name)] + [Open] + ([Word(field)] + [Comma] + [Quoted(text)]), ')');
  }

  lemma CallParses(name: string, field: string, text: string)
    ensures CallTokens(name, field, text) != [] && CallTokens(name, field, text)[0] == Word(name)
    ensures ParseCall(Word(field), CallTokens(name, field, text)[1..]) == Some(ParsedSet([text], []))
  {
    assert CallTokens(name, field, text) == [Word(name), Open, Word(field), Comma, Quoted(text), Close];
    assert CallTokens(name, field, text)[1..] == [Open, Word(field), Comma, Quoted(text), Close];
  }

  lemma EndsWithAtom(suffix: string)
    ensures ParseAtom(CallTokens("ends_with", "http.host", suffix)) == Some(Parsed(EndsWith(suffix), []))
  {
    CallParses("ends_with", "http.host", suffix);
    hide CallTokens, ParseCall, ParseIn, ParseHeader;
  }

  lemma StartsWithAtom(prefix: string)
    ensures ParseAtom(CallTokens("starts_with", "http.request.uri.path", prefix))
      == Some(Parsed(StartsWith(prefix), []))
  {
    CallParses("starts_with", "http.request.uri.path", prefix);
    hide CallTokens, ParseCall, ParseIn, ParseHeader;
  }

  lemma EndsWithOperand(suffix: string)
    ensures OperandText(CallText("ends_with", "http.host", suffix), EndsWith(suffix))
  {
    ReadsCall("ends_with", "http.host", suffix);
    CallParses("ends_with", "http.host", suffix);
    EndsWithAtom(suffix);
    assert "ends_with"[0] != "not"[0];
    hide CallText, CallTokens, Lex, ParseAtom, Operand;
    AtomOperand(CallTokens("ends_with", "http.host", suffix), "ends_with", EndsWith(suffix));
  }

  lemma StartsWithOperand(prefix: string)
    ensures OperandText(CallText("starts_with", "http.request.uri.path", prefix), StartsWith(prefix))
  {
    PathWord();
    StartsWithWord();
    hide CallText, CallTokens, Lex, ParseAtom, Operand, IsWord;
    ReadsCall("starts_with", "http.request.uri.path", prefix);
    CallParses("starts_with", "http.request.uri.path", prefix);
    StartsWithAtom(prefix);
    AtomOperand(CallTokens("starts_with", "http.request.uri.path", prefix), "starts_with", StartsWith(prefix));
  }

  lemma StartsWithWord()
    ensures IsWord("starts_with") && "starts_with" != "not"
  {
    assert "starts_with"[0] != "not"[0];
  }

  lemma GroupText(text: string, e: Expr)
    requires WholeText(text, e)
    ensures OperandText("(" + text + ")", Paren(e))
  {
    ReadsGroup(text, Lex(text).value);
    GroupOperand(Lex(text).value, e);
  }

  lemma OperandIsWhole(text: string, e: Expr)
    requires OperandText(text, e)
    ensures WholeText(text, e)
  {
    OperandWhole(Lex(text).value, e);
  }

  lemma WholeMeans(text: string, e: Expr, q: Request)
    requires WholeText(text, e)
    ensures Holds(text, q) <==> Eval(e, q)
  {
    WholeSays(text, Lex(text).value, e);
  }

  /** A term of a conjunction: an operand or a negated one. */
  ghost predicate TermText(text: string, e: Expr) {
    Lex(text).Some? && ParseNot(Lex(text).value) == Some(Parsed(e, []))
  }

  /** A conjunction of terms. */
  ghost predicate AllText(text: string, e: Expr) {
    Lex(text).Some? && ParseAnd(Lex(text).value) == Some(Parsed(e, []))
  }

  lemma OperandTerm(text: string, e: Expr)
    requires OperandText(text, e)
    ensures TermText(text, e) && AllText(text, e)
  {
    OperandWhole(Lex(text).value, e);
  }

  lemma NotTerm(text: string, e: Expr)
    requires OperandText(text, e)
    ensures TermText("not " + text, Not(e)) && AllText("not " + text, Not(e)) && WholeText("not " + text, Not(e))
  {
    LexWord("not");
    ReadsSpaced("not", [NOT], text, Lex(text).value);
    NotOperand(Lex(text).value, e);
    hide *;
    assert "not" + " " + text == "not " + text;
  }

  lemma AndText(s: string, e: Expr, t: string, f: Expr)
    requires TermText(s, e) && AllText(t, f)
    ensures AllText(s + " and " + t, And(e, f)) && WholeText(s + " and " + t, And(e, f))
  {
    LexWord("and");
    ReadsSpaced(s, Lex(s).value, "and", [AND]);
    ReadsSpaced(s + " " + "and", Lex(s).value + [AND], t, Lex(t).value);
    AndThen(Lex(s).value, e, Lex(t).value, f);
    assert s + " " + "and" + " " + t == s + " and " + t;
  }

  lemma OrText(s: string, e: Expr, t: string, f: Expr)
    requires OperandText(s, e) && WholeText(t, f)
    ensures WholeText(s + " or " + t, Or(e, f))
  {
    LexWord("or");
    ReadsSpaced(s, Lex(s).value, "or", [OR]);
    ReadsSpaced(s + " " + "or", Lex(s).value + [OR], t, Lex(t).value);
    OrThen(Lex(s).value, e, Lex(t).value, f);
    assert s + " " + "or" + " " + t == s + " or " + t;
  }

  // ---------------------------------------------------------------------------
  // HostExpression
  // ---------------------------------------------------------------------------

  function Exacts(hosts: seq<string>): (r: seq<string>)
    ensures forall h :: h in r <==> h in hosts && !HostOrder.IsWildcard(h)
  {
    if hosts == [] then []
    else
      var front, h := Exacts(hosts[..|hosts| - 1]), hosts[|hosts| - 1];
      assert hosts == hosts[..|hosts| - 1] + [h];
      if HostOrder.IsWildcard(h) then front else front + [h]
  }

  /** The suffix tests of the wildcards, each with its leading dot. */
  function Suffixes(hosts: seq<string>): (r: seq<string>)
    ensures forall t :: t in r <==> exists h :: h in hosts && HostOrder.IsWildcard(h) && t == h[1..]
  {
    if hosts == [] then []
    else
      var front, h := Suffixes(hosts[..|hosts| - 1]), hosts[|hosts| - 1];
      assert hosts == hosts[..|hosts| - 1] + [h];
      if HostOrder.IsWildcard(h) then front + [h[1..]] else front
  }

  function SuffixTests(suffixes: seq<string>): (r: seq<string>)
    ensures |r| == |suffixes| && forall i :: 0 <= i < |r| ==> r[i] == CallText("ends_with", "http.host", suffixes[i])
  {
    seq(|suffixes|, i requires 0 <= i < |suffixes| => CallText("ends_with", "http.host", suffixes[i]))
  }

  function HostTerms(hosts: seq<string>): seq<string> {
    (if Exacts(hosts) == [] then [] else [InText("http.host", Exacts(hosts), true)]) + SuffixTests(Suffixes(hosts))
  }

  function HostText(hosts: seq<string>): string {
    JoinWith(HostTerms(hosts), " or ")
  }

  method HostExpression(hosts: seq<string>) returns (text: string)
    ensures text == HostText(hosts)
  {
    var exact: seq<string>, terms: seq<string> := [], [];
    for i := 0 to |hosts|
      invariant exact == Quotes(Exacts(hosts[..i]))
      invariant terms == SuffixTests(Suffixes(hosts[..i]))
    {
      assert hosts[..i + 1][..i] == hosts[..i];
      var host := hosts[i];
      if HasPrefix(host, "*.") {
        assert host[1..] == "." + host[2..];
        terms := terms + [CallText("ends_with", "http.host", "." + host[2..])];
      } else {
        exact := exact + [Quote(host)];
      }
    }
    assert hosts[..|hosts|] == hosts;
    if |exact| > 0 {
      terms := ["http.host" + " in {" + JoinWith(exact, " ") + "}"] + terms;
    } else {
      assert [] + terms == terms;
    }
    text := JoinWith(terms, " or ");
  }

  function Disjunction(es: seq<Expr>): Expr
    requires es != []
  {
    if |es| == 1 then es[0] else Or(es[0], Disjunction(es[1..]))
  }

  lemma {:induction false} DisjunctionMeans(es: seq<Expr>, q: Request)
    requires es != []
    ensures Eval(Disjunction(es), q) <==> exists i :: 0 <= i < |es| && Eval(es[i], q)
  {
    if |es| > 1 {
      DisjunctionMeans(es[1..], q);
      assert forall i :: 1 <= i < |es| ==> es[i] == es[1..][i - 1];
    }
  }

  lemma {:induction false} OrList(terms: seq<string>, es: seq<Expr>)
    requires |terms| == |es| > 0 && forall i :: 0 <= i < |es| ==> OperandText(terms[i], es[i])
    ensures WholeText(JoinWith(terms, " or "), Disjunction(es))
  {
    hide OperandText, WholeText;
    if |es| == 1 {
      OperandIsWhole(terms[0], es[0]);
    } else {
      OrList(terms[1..], es[1..]);
      OrText(terms[0], es[0], JoinWith(terms[1..], " or "), Disjunction(es[1..]));
    }
  }

  function SuffixExprs(suffixes: seq<string>): (r: seq<Expr>)
    ensures |r| == |suffixes| && forall i :: 0 <= i < |r| ==> r[i] == EndsWith(suffixes[i])
  {
    seq(|suffixes|, i requires 0 <= i < |suffixes| => EndsWith(suffixes[i]))
  }

  function HostExprs(hosts: seq<string>): seq<Expr> {
    (if Exacts(hosts) == [] then [] else [HostIn(Exacts(hosts))]) + SuffixExprs(Suffixes(hosts))
  }

  lemma SomeTerm(hosts: seq<string>)
    requires hosts != []
    ensures Exacts(hosts) != [] || Suffixes(hosts) != []
  {
    var h := hosts[0];
    assert HostOrder.IsWildcard(h) ==> h[1..] in Suffixes(hosts);
    assert !HostOrder.IsWildcard(h) ==> h in Exacts(hosts);
  }

  lemma HostTermsOperands(hosts: seq<string>)
    requires hosts != []
    ensures |HostTerms(hosts)| == |HostExprs(hosts)| > 0
    ensures forall i :: 0 <= i < |HostTerms(hosts)| ==> OperandText(HostTerms(hosts)[i], HostExprs(hosts)[i])
  {
    hide OperandText, CallText, InText, Exacts, Suffixes;
    SomeTerm(hosts);
    var skip := if Exacts(hosts) == [] then 0 else 1;
    forall i | 0 <= i < |HostTerms(hosts)| ensures OperandText(HostTerms(hosts)[i], HostExprs(hosts)[i]) {
      if i < skip {
        HostInOperand(Exacts(hosts));
      } else {
        EndsWithOperand(Suffixes(hosts)[i - skip]);
      }
    }
  }

  lemma HostExprsMean(hosts: seq<string>, q: Request)
    requires "*" !in hosts
    ensures (exists i :: 0 <= i < |HostExprs(hosts)| && Eval(HostExprs(hosts)[i], q))
       <==> (exists h :: h in hosts && HostOrder.Matches(h, q.host))
  {
    hide Exacts, Suffixes;
    if i :| 0 <= i < |HostExprs(hosts)| && Eval(HostExprs(hosts)[i], q) {
      TermIsHost(hosts, i, q);
    }
    if h :| h in hosts && HostOrder.Matches(h, q.host) {
      HostIsTerm(hosts, h, q);
    }
  }

  lemma TermIsHost(hosts: seq<string>, i: nat, q: Request)
    requires "*" !in hosts && i < |HostExprs(hosts)| && Eval(HostExprs(hosts)[i], q)
    ensures exists h :: h in hosts && HostOrder.Matches(h, q.host)
  {
    hide Exacts, Suffixes;
    var suffixes := Suffixes(hosts);
    var skip := if Exacts(hosts) == [] then 0 else 1;
    if i < skip {
      assert q.host in hosts && HostOrder.Matches(q.host, q.host);
    } else {
      var t := suffixes[i - skip];
      assert t in suffixes;
      var h :| h in hosts && HostOrder.IsWildcard(h) && t == h[1..];
      assert HostOrder.Matches(h, q.host);
    }
  }

  lemma HostIsTerm(hosts: seq<string>, h: string, q: Request)
    requires h in hosts && h != "*" && HostOrder.Matches(h, q.host)
    ensures exists i :: 0 <= i < |HostExprs(hosts)| && Eval(HostExprs(hosts)[i], q)
  {
    hide Exacts, Suffixes;
    var es, suffixes := HostExprs(hosts), Suffixes(hosts);
    var skip := if Exacts(hosts) == [] then 0 else 1;
    if HostOrder.IsWildcard(h) {
      assert h[1..] in suffixes;
      var k :| 0 <= k < |suffixes| && suffixes[k] == h[1..];
      assert Eval(es[skip + k], q);
    } else {
      assert h in Exacts(hosts) && Eval(es[0], q);
    }
  }

  lemma HostWhole(hosts: seq<string>)
    requires hosts != []
    ensures HostExprs(hosts) != [] && WholeText(HostText(hosts), Disjunction(HostExprs(hosts)))
  {
    HostTermsOperands(hosts);
    OrList(HostTerms(hosts), HostExprs(hosts));
  }

  /** The printed expression takes exactly the hosts that a listed host matches, as tunnel rules match. */
  lemma HostExpressionMeaning(hosts: seq<string>, q: Request)
    requires hosts != [] && "*" !in hosts
    ensures Holds(HostText(hosts), q) <==> exists h :: h in hosts && HostOrder.Matches(h, q.host)
  {
    HostWhole(hosts);
    WholeMeans(HostText(hosts), Disjunction(HostExprs(hosts)), q);
    DisjunctionMeans(HostExprs(hosts), q);
    HostExprsMean(hosts, q);
  }

  /** A host list that covers another (as `Covers` decides) prints an expression that takes all of its requests. */
  lemma CoveringHostsTakeMore(hosts: seq<string>, others: seq<string>, q: Request)
    requires hosts != [] && others != [] && "*" !in hosts && "*" !in others
    requires forall h :: h in hosts || h in others ==> HostOrder.WellFormed(h)
    requires forall o :: o in others ==> exists h :: h in hosts && HostOrder.Covers(h, o)
    requires HostOrder.Concrete(q.host) && Holds(HostText(others), q)
    ensures Holds(HostText(hosts), q)
  {
    HostExpressionMeaning(others, q);
    HostExpressionMeaning(hosts, q);
    var o :| o in others && HostOrder.Matches(o, q.host);
    var h :| h in hosts && HostOrder.Covers(h, o);
    HostOrder.CoversSound(h, o, q.host);
  }

  // ---------------------------------------------------------------------------
  // Trusted clients and the managed WAF
  // ---------------------------------------------------------------------------

  method SortedSet(values: seq<string>, quote: bool) returns (text: string)
    ensures text == JoinWith(Printed(Sort(StringLeq, values), quote), " ")
  {
    var sorted := SortStrings(values);
    var out := sorted;
    for i := 0 to |sorted|
      invariant |out| == |sorted|
      invariant forall k :: i <= k < |out| ==> out[k] == sorted[k]
      invariant forall k :: 0 <= k < i ==> out[k] == Printed(sorted, quote)[k]
    {
      if quote {
        out := out[i := Quote(sorted[i])];
      }
    }
    assert out == Printed(sorted, quote);
    text := JoinWith(out, " ");
  }

  function TrustedText(hosts: seq<string>, ranges: seq<string>): string {
    "(" + InText("http.host", Sort(StringLeq, hosts), true) + ") and ("
      + InText("ip.src", Sort(StringLeq, ranges), false) + ")"
  }

  method TrustedExpression(hosts: seq<string>, ranges: seq<string>) returns (text: string)
    ensures text == TrustedText(hosts, ranges)
  {
    var h := SortedSet(hosts, true);
    var r := SortedSet(ranges, false);
    text := "(http.host in {" + h + "}) and (ip.src in {" + r + "})";
    TrustedJoined(h, r);
  }

  lemma TrustedJoined(h: string, r: string)
    ensures "(http.host in {" + h + "}) and (ip.src in {" + r + "})"
      == "(" + ("http.host" + " in {" + h + "}") + ") and (" + ("ip.src" + " in {" + r + "}") + ")"
  {
    assert "(http.host in {" == "(" + ("http.host" + " in {");
    assert "}) and (ip.src in {" == "}" + ") and (" + ("ip.src" + " in {");
  }

  lemma TrustedWhole(hosts: seq<string>, ranges: seq<string>)
    requires Bare(ranges)
    ensures WholeText("(" + InText("http.host", hosts, true) + ") and (" + InText("ip.src", ranges, false) + ")",
              And(Paren(HostIn(hosts)), Paren(SourceIn(ranges))))
  {
    HostInOperand(hosts);
    SourceInOperand(ranges);
    var h, r := InText("http.host", hosts, true), InText("ip.src", ranges, false);
    hide OperandText, WholeText, InText, Bare;
    OperandIsWhole(h, HostIn(hosts));
    OperandIsWhole(r, SourceIn(ranges));
    GroupText(h, HostIn(hosts));
    GroupText(r, SourceIn(ranges));
    OperandTerm("(" + h + ")", Paren(HostIn(hosts)));
    OperandTerm("(" + r + ")", Paren(SourceIn(ranges)));
    AndText("(" + h + ")", Paren(HostIn(hosts)), "(" + r + ")", Paren(SourceIn(ranges)));
    hide *;
    assert "(" + h + ") and (" + r + ")" == "(" + h + ")" + " and " + ("(" + r + ")");
  }

  lemma TrustedEval(hosts: seq<string>, ranges: seq<string>, q: Request)
    ensures Eval(And(Paren(HostIn(hosts)), Paren(SourceIn(ranges))), q)
       <==> q.host in hosts && exists r :: r in ranges && r in q.ranges
  {
    assert Eval(Paren(HostIn(hosts)), q) == (q.host in hosts);
    assert Eval(Paren(SourceIn(ranges)), q) == Eval(SourceIn(ranges), q);
    if r :| r in ranges && r in q.ranges {
      var i :| 0 <= i < |ranges| && ranges[i] == r;
    }
  }

  lemma BareSorted(ranges: seq<string>)
    requires Bare(ranges)
    ensures Bare(Sort(StringLeq, ranges))
  {
    var rs := Sort(StringLeq, ranges);
    SortMembers(StringLeq, ranges);
    forall i | 0 <= i < |rs| ensures IsWord(rs[i]) {
      assert rs[i] in rs;
      var k :| 0 <= k < |ranges| && ranges[k] == rs[i];
    }
  }

  /** The trusted-clients filter takes a request to a listed host from an address in a listed range, and no other. */
  lemma TrustedMeaning(hosts: seq<string>, ranges: seq<string>, q: Request)
    requires Bare(ranges)
    ensures Holds(TrustedText(hosts, ranges), q) <==> q.host in hosts && exists r :: r in ranges && r in q.ranges
  {
    var hs, rs := Sort(StringLeq, hosts), Sort(StringLeq, ranges);
    SortMembers(StringLeq, hosts);
    SortMembers(StringLeq, ranges);
    BareSorted(ranges);
    TrustedWhole(hs, rs);
    WholeMeans(TrustedText(hosts, ranges), And(Paren(HostIn(hs)), Paren(SourceIn(rs))), q);
    TrustedEval(hs, rs, q);
  }

  function ManagedText(wholeZone: bool, hosts: seq<string>): string {
    if wholeZone then "true" else HostText(Sort(StringLeq, hosts))
  }

  method ManagedWafExpression(wholeZone: bool, hosts: seq<string>) returns (text: string)
    ensures text == ManagedText(wholeZone, hosts)
  {
    if wholeZone {
      return "true";
    }
    var sorted := SortStrings(hosts);
    text := HostExpression(sorted);
  }

  /** The managed ruleset runs on every request of a whole zone, else on those to a host the list matches. */
  lemma ManagedMeaning(wholeZone: bool, hosts: seq<string>, q: Request)
    requires wholeZone || (hosts != [] && "*" !in hosts)
    ensures Holds(ManagedText(wholeZone, hosts), q) <==>
      wholeZone || exists h :: h in hosts && HostOrder.Matches(h, q.host)
  {
    if wholeZone {
      LexWord("true");
      WholeMeans("true", True, q);
    } else {
      SortMembers(StringLeq, hosts);
      assert hosts[0] in Sort(StringLeq, hosts);
      HostExpressionMeaning(Sort(StringLeq, hosts), q);
    }
  }

  /** Neither filter depends on the order its lists were written in. */
  lemma AuthoringOrder(hosts: seq<string>, others: seq<string>, ranges: seq<string>, moved: seq<string>,
      wholeZone: bool)
    requires multiset(hosts) == multiset(others) && multiset(ranges) == multiset(moved)
    ensures TrustedText(hosts, ranges) == TrustedText(others, moved)
    ensures ManagedText(wholeZone, hosts) == ManagedText(wholeZone, others)
  {
    StringLeqTotal();
    SortOfPermutation(StringLeq, hosts, others);
    SortOfPermutation(StringLeq, ranges, moved);
  }
}
