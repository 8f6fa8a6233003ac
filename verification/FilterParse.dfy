/**
 Cloudflare filter expressions: the part of the language the builders print, its precedence (`not` binds
 tighter than `and`, `and` tighter than `or`), and what an expression says of a request.
 */
module FilterParse {
  import opened Text
  import opened FilterText

  /** What the expressions read of a request; `ranges` are the address ranges that hold its source address. */
  datatype Request = Request(host: string, path: string, verb: string, headers: seq<string>, ranges: set<string>)

  datatype Expr =
    | True
    | HostIs(host: string)
    | HostIn(hosts: seq<string>)
    | EndsWith(suffix: string)
    | MethodIn(methods: seq<string>)
    | PathIn(paths: seq<string>)
    | StartsWith(prefix: string)
    | HasHeader(header: string)
    | SourceIn(ranges: seq<string>)
    | Paren(inner: Expr)
    | Not(negated: Expr)
    | And(left: Expr, right: Expr)
    | Or(left: Expr, right: Expr)

  predicate Eval(e: Expr, q: Request) {
    match e
    case True => true
    case HostIs(h) => q.host == h
    case HostIn(hs) => q.host in hs
    case EndsWith(t) => HasSuffix(q.host, t)
    case MethodIn(ms) => q.verb in ms
    case PathIn(ps) => q.path in ps
    case StartsWith(p) => HasPrefix(q.path, p)
    case HasHeader(h) => exists i :: 0 <= i < |q.headers| && ToLower(q.headers[i]) == h
    case SourceIn(rs) => exists i :: 0 <= i < |rs| && rs[i] in q.ranges
    case Paren(x) => Eval(x, q)
    case Not(x) => !Eval(x, q)
    case And(x, y) => Eval(x, q) && Eval(y, q)
    case Or(x, y) => Eval(x, q) || Eval(y, q)
  }

  // ---------------------------------------------------------------------------
  // The parser
  // ---------------------------------------------------------------------------

  const AND := Word("and")
  const OR := Word("or")
  const NOT := Word("not")
  const HOST := Word("http.host")
  const METHOD := Word("http.request.method")
  const PATH := Word("http.request.uri.path")
  const SOURCE := Word("ip.src")

  datatype Parsed = Parsed(e: Expr, rest: seq<Token>)

  datatype ParsedSet = ParsedSet(items: seq<string>, rest: seq<Token>)

  /** A set item: a quoted string, or a bare address range. */
  function Item(t: Token, quoted: bool): Option<string> {
    if t.Quoted? && quoted then Some(t.s) else if t.Word? && !quoted then Some(t.w) else None
  }

  /** The items of a set literal after its opening brace. */
  function ParseSet(ts: seq<Token>, quoted: bool): (r: Option<ParsedSet>)
    ensures r.Some? ==> |r.value.rest| < |ts|
  {
    if ts == [] then None
    else if ts[0] == RightBrace then Some(ParsedSet([], ts[1..]))
    else if Item(ts[0], quoted).Some? then
      var r := ParseSet(ts[1..], quoted);
      if r.None? then None else Some(ParsedSet([Item(ts[0], quoted).value] + r.value.items, r.value.rest))
    else None
  }

  /** `field in {...}`, read from its second token. */
  function ParseIn(ts: seq<Token>, quoted: bool): (r: Option<ParsedSet>)
    ensures r.Some? ==> |r.value.rest| < |ts|
  {
    if |ts| >= 2 && ts[0] == Word("in") && ts[1] == LeftBrace then ParseSet(ts[2..], quoted) else None
  }

  /** `function(field, "text")`, read from its second token: the text and what follows. */
  function ParseCall(field: Token, ts: seq<Token>): (r: Option<ParsedSet>)
    ensures r.Some? ==> |r.value.rest| < |ts| && |r.value.items| == 1
  {
    if |ts| >= 5 && ts[0] == Open && ts[1] == field && ts[2] == Comma && ts[3].Quoted? && ts[4] == Close
    then Some(ParsedSet([ts[3].s], ts[5..])) else None
  }

  /** `any(lower(http.request.headers.names[*])[*] eq "name")`, read from its second token. */
  function ParseHeader(ts: seq<Token>): (r: Option<ParsedSet>)
    ensures r.Some? ==> |r.value.rest| < |ts| && |r.value.items| == 1
  {
    if |ts| >= 9 && ts[..7] == HEADER_TEST && ts[7].Quoted? && ts[8] == Close
    then Some(ParsedSet([ts[7].s], ts[9..])) else None
  }

  const HEADER_TEST :=
    [Open, Word("lower"), Open, Word("http.request.headers.names[*]"), Close, Word("[*]"), Word("eq")]

  function ParseAtom(ts: seq<Token>): (r: Option<Parsed>)
    ensures r.Some? ==> |r.value.rest| < |ts|
  {
    if ts == [] then None
    else
      var t, more := ts[0], ts[1..];
      if t == Word("true") then Some(Parsed(True, more))
      else if t == HOST && |more| >= 2 && more[0] == Word("eq") && more[1].Quoted? then
        Some(Parsed(HostIs(more[1].s), more[2..]))
      else if t == HOST then
        var r := ParseIn(more, true);
        if r.None? then None else Some(Parsed(HostIn(r.value.items), r.value.rest))
      else if t == METHOD then
        var r := ParseIn(more, true);
        if r.None? then None else Some(Parsed(MethodIn(r.value.items), r.value.rest))
      else if t == PATH then
        var r := ParseIn(more, true);
        if r.None? then None else Some(Parsed(PathIn(r.value.items), r.value.rest))
      else if t == SOURCE then
        var r := ParseIn(more, false);
        if r.None? then None else Some(Parsed(SourceIn(r.value.items), r.value.rest))
      else if t == Word("ends_with") then
        var r := ParseCall(HOST, more);
        if r.None? then None else Some(Parsed(EndsWith(r.value.items[0]), r.value.rest))
      else if t == Word("starts_with") then
        var r := ParseCall(PATH, more);
        if r.None? then None else Some(Parsed(StartsWith(r.value.items[0]), r.value.rest))
      else if t == Word("any") then
        var r := ParseHeader(more);
        if r.None? then None else Some(Parsed(HasHeader(r.value.items[0]), r.value.rest))
      else None
  }

  function ParsePrimary(ts: seq<Token>): (r: Option<Parsed>)
    ensures r.Some? ==> |r.value.rest| < |ts|
    decreases |ts|, 0
  {
    if ts != [] && ts[0] == Open then
      var r := ParseOr(ts[1..]);
      if r.None? || r.value.rest == [] || r.value.rest[0] != Close then None
      else Some(Parsed(Paren(r.value.e), r.value.rest[1..]))
    else ParseAtom(ts)
  }

  function ParseNot(ts: seq<Token>): (r: Option<Parsed>)
    ensures r.Some? ==> |r.value.rest| < |ts|
    decreases |ts|, 1
  {
    if ts != [] && ts[0] == NOT then
      var r := ParseNot(ts[1..]);
      if r.None? then None else Some(Parsed(Not(r.value.e), r.value.rest))
    else ParsePrimary(ts)
  }

  function ParseAnd(ts: seq<Token>): (r: Option<Parsed>)
    ensures r.Some? ==> |r.value.rest| < |ts|
    decreases |ts|, 2
  {
    var l := ParseNot(ts);
    if l.None? || l.value.rest == [] || l.value.rest[0] != AND then l
    else
      var r := ParseAnd(l.value.rest[1..]);
      if r.None? then None else Some(Parsed(And(l.value.e, r.value.e), r.value.rest))
  }

  function ParseOr(ts: seq<Token>): (r: Option<Parsed>)
    ensures r.Some? ==> |r.value.rest| < |ts|
    decreases |ts|, 3
  {
    var l := ParseAnd(ts);
    if l.None? || l.value.rest == [] || l.value.rest[0] != OR then l
    else
      var r := ParseOr(l.value.rest[1..]);
      if r.None? then None else Some(Parsed(Or(l.value.e, r.value.e), r.value.rest))
  }

  /** A whole expression. */
  function Parse(text: string): Option<Expr> {
    var ts := Lex(text);
    if ts.None? then None
    else
      var r := ParseOr(ts.value);
      if r.None? || r.value.rest != [] then None else Some(r.value.e)
  }

  /** The expression is well formed and true of the request. */
  predicate Holds(text: string, q: Request) {
    Parse(text).Some? && Eval(Parse(text).value, q)
  }

  // ---------------------------------------------------------------------------
  // What follows an expression does not change how it is read
  // ---------------------------------------------------------------------------

  function Then(p: Parsed, u: seq<Token>): Parsed {
    Parsed(p.e, p.rest + u)
  }

  lemma {:induction false} FrameSet(ts: seq<Token>, quoted: bool, u: seq<Token>)
    requires ParseSet(ts, quoted).Some?
    ensures ParseSet(ts + u, quoted)
      == Some(ParsedSet(ParseSet(ts, quoted).value.items, ParseSet(ts, quoted).value.rest + u))
  {
    assert (ts + u)[0] == ts[0] && (ts + u)[1..] == ts[1..] + u;
    if ts[0] != RightBrace {
      FrameSet(ts[1..], quoted, u);
    }
  }

  lemma FrameIn(ts: seq<Token>, quoted: bool, u: seq<Token>)
    requires ParseIn(ts, quoted).Some?
    ensures ParseIn(ts + u, quoted)
      == Some(ParsedSet(ParseIn(ts, quoted).value.items, ParseIn(ts, quoted).value.rest + u))
  {
    assert (ts + u)[0] == ts[0] && (ts + u)[1] == ts[1] && (ts + u)[2..] == ts[2..] + u;
    FrameSet(ts[2..], quoted, u);
  }

  lemma FrameCall(field: Token, ts: seq<Token>, u: seq<Token>)
    requires ParseCall(field, ts).Some?
    ensures ParseCall(field, ts + u)
      == Some(ParsedSet(ParseCall(field, ts).value.items, ParseCall(field, ts).value.rest + u))
  {
    assert (ts + u)[5..] == ts[5..] + u;
  }

  lemma FrameHeader(ts: seq<Token>, u: seq<Token>)
    requires ParseHeader(ts).Some?
    ensures ParseHeader(ts + u) == Some(ParsedSet(ParseHeader(ts).value.items, ParseHeader(ts).value.rest + u))
  {
    assert (ts + u)[..7] == ts[..7] && (ts + u)[9..] == ts[9..] + u;
  }

  lemma FrameAtom(ts: seq<Token>, u: seq<Token>)
    requires ParseAtom(ts).Some?
    ensures ParseAtom(ts + u) == Some(Then(ParseAtom(ts).value, u))
  {
    var t, more := ts[0], ts[1..];
    assert (ts + u)[0] == t && (ts + u)[1..] == more + u;
    if t == HOST && |more| >= 2 && more[0] == Word("eq") && more[1].Quoted? {
      assert (more + u)[0] == more[0] && (more + u)[1] == more[1] && (more + u)[2..] == more[2..] + u;
    } else if t == HOST || t == METHOD || t == PATH {
      FrameIn(more, true, u);
    } else if t == SOURCE {
      FrameIn(more, false, u);
    } else if t == Word("ends_with") {
      FrameCall(HOST, more, u);
    } else if t == Word("starts_with") {
      FrameCall(PATH, more, u);
    } else if t == Word("any") {
      FrameHeader(more, u);
    }
  }

  lemma {:induction false} FramePrimary(ts: seq<Token>, u: seq<Token>)
    requires ParsePrimary(ts).Some?
    ensures ParsePrimary(ts + u) == Some(Then(ParsePrimary(ts).value, u))
    decreases |ts|, 0
  {
    if ts != [] && ts[0] == Open {
      assert (ts + u)[0] == Open && (ts + u)[1..] == ts[1..] + u;
      FrameOr(ts[1..], u);
      var rest := ParseOr(ts[1..]).value.rest;
      assert (rest + u)[0] == rest[0] && (rest + u)[1..] == rest[1..] + u;
    } else {
      FrameAtom(ts, u);
      assert (ts + u)[0] == ts[0];
    }
  }

  lemma {:induction false} FrameNot(ts: seq<Token>, u: seq<Token>)
    requires ParseNot(ts).Some?
    ensures ParseNot(ts + u) == Some(Then(ParseNot(ts).value, u))
    decreases |ts|, 1
  {
    if ts != [] && ts[0] == NOT {
      assert (ts + u)[0] == NOT && (ts + u)[1..] == ts[1..] + u;
      FrameNot(ts[1..], u);
    } else {
      FramePrimary(ts, u);
      assert (ts + u)[0] == ts[0];
    }
  }

  lemma {:induction false} FrameAnd(ts: seq<Token>, u: seq<Token>)
    requires ParseAnd(ts).Some? && (ParseAnd(ts).value.rest != [] || u == [] || u[0] != AND)
    ensures ParseAnd(ts + u) == Some(Then(ParseAnd(ts).value, u))
    decreases |ts|, 2
  {
    FrameNot(ts, u);
    var rest := ParseNot(ts).value.rest;
    if rest != [] {
      assert (rest + u)[0] == rest[0] && (rest + u)[1..] == rest[1..] + u;
      if rest[0] == AND {
        FrameAnd(rest[1..], u);
      }
    } else {
      assert rest + u == u;
    }
  }

  lemma {:induction false} FrameOr(ts: seq<Token>, u: seq<Token>)
    requires ParseOr(ts).Some? && (ParseOr(ts).value.rest != [] || u == [] || (u[0] != AND && u[0] != OR))
    ensures ParseOr(ts + u) == Some(Then(ParseOr(ts).value, u))
    decreases |ts|, 3
  {
    FrameAnd(ts, u);
    var rest := ParseAnd(ts).value.rest;
    if rest != [] {
      assert (rest + u)[0] == rest[0] && (rest + u)[1..] == rest[1..] + u;
      if rest[0] == OR {
        FrameOr(rest[1..], u);
      }
    } else {
      assert rest + u == u;
    }
  }

  // ---------------------------------------------------------------------------
  // Building expressions
  // ---------------------------------------------------------------------------

  /** All of the tokens are one operand: an atom or one pair of parentheses. */
  ghost predicate Operand(ts: seq<Token>, e: Expr) {
    ParsePrimary(ts) == Some(Parsed(e, [])) && ts != [] && ts[0] != NOT
  }

  /** All of the tokens are one expression. */
  ghost predicate Whole(ts: seq<Token>, e: Expr) {
    ParseOr(ts) == Some(Parsed(e, []))
  }

  lemma OperandWhole(ts: seq<Token>, e: Expr)
    requires Operand(ts, e)
    ensures ParseNot(ts) == ParseAnd(ts) == ParseOr(ts) == Some(Parsed(e, []))
  {
  }

  lemma GroupOperand(ts: seq<Token>, e: Expr)
    requires Whole(ts, e)
    ensures Operand([Open] + ts + [Close], Paren(e))
  {
    FrameOr(ts, [Close]);
    var all := [Open] + ts + [Close];
    assert all[1..] == ts + [Close] && [] + [Close] == [Close] && [Close][1..] == [];
  }

  lemma NotOperand(ts: seq<Token>, e: Expr)
    requires Operand(ts, e)
    ensures ParseNot([NOT] + ts) == ParseAnd([NOT] + ts) == ParseOr([NOT] + ts) == Some(Parsed(Not(e), []))
  {
    OperandWhole(ts, e);
    assert ([NOT] + ts)[1..] == ts;
  }

  lemma AndStep(ts: seq<Token>, e: Expr, us: seq<Token>, f: Expr)
    requires ParseNot(ts) == Some(Parsed(e, [AND] + us)) && ParseAnd(us) == Some(Parsed(f, []))
    ensures ParseAnd(ts) == Some(Parsed(And(e, f), []))
  {
    hide ParseNot;
    assert ([AND] + us)[1..] == us;
  }

  /** An operand, `and`, and a conjunction. */
  lemma AndThen(ts: seq<Token>, e: Expr, us: seq<Token>, f: Expr)
    requires ParseNot(ts) == Some(Parsed(e, [])) && ParseAnd(us) == Some(Parsed(f, []))
    ensures ParseAnd(ts + [AND] + us) == ParseOr(ts + [AND] + us) == Some(Parsed(And(e, f), []))
  {
    hide ParseNot, ParseAnd;
    FrameNot(ts, [AND] + us);
    assert ts + [AND] + us == ts + ([AND] + us) && [] + ([AND] + us) == [AND] + us;
    AndStep(ts + [AND] + us, e, us, f);
  }

  /** An operand, `or`, and a disjunction. */
  lemma OrThen(ts: seq<Token>, e: Expr, us: seq<Token>, f: Expr)
    requires Operand(ts, e) && Whole(us, f)
    ensures Whole(ts + [OR] + us, Or(e, f))
  {
    OperandWhole(ts, e);
    hide ParsePrimary, ParseNot, ParseAnd;
    FrameAnd(ts, [OR] + us);
    assert ts + [OR] + us == ts + ([OR] + us) && [] + ([OR] + us) == [OR] + us;
    assert ([OR] + us)[1..] == us;
  }

  /** The text is read whole as the expression. */
  ghost predicate Says(text: string, e: Expr) {
    Parse(text) == Some(e)
  }

  lemma WholeSays(text: string, ts: seq<Token>, e: Expr)
    requires Reads(text, ts) && Whole(ts, e)
    ensures Says(text, e)
  {
  }
}
