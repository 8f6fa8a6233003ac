/** The cache-phase builders (cloudflare/rules/cache.go): what each caches, and the claim that says so. */
module CacheRules {
  import opened Text
  import opened FilterText
  import opened FilterParse
  import opened HostFilter
  import opened RuleSpec
  import opened Sorting
  import HostOrder

  const ORDER_HOSTS := 100
  const ORDER_PATHS := 900
  const SECOND := 1_000_000_000
  const DEFAULT_PUBLIC_TTL := 300 * SECOND
  const MAX_PUBLIC_TTL := 3600 * SECOND
  const MAX_STATIC_TTL := 365 * 24 * 3600 * SECOND
  const DEFAULT_PATHS := ["/keys", "/.well-known/openid-configuration", "/.well-known/oauth-authorization-server"]

  datatype Refusal = BadHost | BadTtl | BadPath | RepeatedPath | BadPrefix

  /** The rule decides about the cache and nothing else. */
  predicate OnlyCache(r: Rule) {
    && r.action == "set_cache_settings" && r.params.cache.Some?
    && r.params.ssl.None? && r.params.skip.None? && r.params.execute.None? && r.rateLimit.None?
  }

  /** The rule makes what it takes eligible for the cache. */
  predicate Caches(r: Rule) {
    OnlyCache(r) && r.params.cache.value.cache
  }

  /**
   A contribution that caches exactly the requests its claim takes, each by one rule; the claim is one
   parenthesised group.
   */
  ghost predicate Claims(c: Contribution, e: Expr) {
    && c.phase == CACHE && (forall r :: r in c.rules ==> Caches(r))
    && OperandText(c.claim, Paren(e))
    && forall q :: MatchCount(c.rules, q) == if Eval(e, q) then 1 else 0
  }

  /** The edge keeps a response for the duration, in whole seconds, whatever the origin says. */
  predicate KeptFor(t: Option<Ttl>, duration: int) {
    t.Some? && t.value.mode == "override_origin" && t.value.seconds * SECOND == duration
  }

  predicate FollowsOrigin(t: Option<Ttl>) {
    t.Some? && t.value.mode == "respect_origin"
  }

  lemma OneRule(rule: Rule, e: Expr, q: Request)
    requires WholeText(rule.expression, e) && !rule.disabled
    ensures MatchCount([rule], q) == if Eval(e, q) then 1 else 0
  {
    WholeMeans(rule.expression, e, q);
    hide Holds, Eval, WholeText;
    MatchCountOne(rule, q);
  }

  // ---------------------------------------------------------------------------
  // Cacheable hosts
  // ---------------------------------------------------------------------------

  const HOSTS_PARAMS := CacheParams(true, Some(Ttl("bypass_by_default", 0)), Some(Ttl("respect_origin", 0)), false)

  function HostsContribution(hosts: seq<string>): Contribution {
    if hosts == [] then Contribution("cache-hosts", CACHE, ORDER_HOSTS, [], "")
    else
      Contribution("cache-hosts", CACHE, ORDER_HOSTS,
        [CacheRuleOf("cacheable-hosts", HostText(hosts), HOSTS_PARAMS)], "(" + HostText(hosts) + ")")
  }

  /** The hosts rule caches what the origin lets it cache, and browsers follow the origin. */
  lemma HostsTtl(hosts: seq<string>, r: Rule)
    requires r in HostsContribution(hosts).rules
    ensures Caches(r) && !r.params.cache.value.strongETags && FollowsOrigin(r.params.cache.value.browser)
    ensures r.params.cache.value.edge.Some? && r.params.cache.value.edge.value.mode == "bypass_by_default"
  {
  }

  method CacheHosts(hosts: seq<string>) returns (c: Contribution)
    ensures c == HostsContribution(hosts)
  {
    c := Contribution("cache-hosts", CACHE, ORDER_HOSTS, [], "");
    if |hosts| == 0 {
      return;
    }
    var expr := HostExpression(hosts);
    c := c.(claim := "(" + expr + ")", rules := [CacheRuleOf("cacheable-hosts", expr, HOSTS_PARAMS)]);
  }

  /** The hosts rule caches the requests to a host that the list matches, and claims exactly those. */
  lemma CacheHostsClaims(hosts: seq<string>)
    requires hosts != [] && "*" !in hosts
    ensures HostExprs(hosts) != [] && Claims(HostsContribution(hosts), Disjunction(HostExprs(hosts)))
    ensures forall q :: Eval(Disjunction(HostExprs(hosts)), q) <==>
      exists h :: h in hosts && HostOrder.Matches(h, q.host)
  {
    HostWhole(hosts);
    var text, e := HostText(hosts), Disjunction(HostExprs(hosts));
    GroupText(text, e);
    var c := HostsContribution(hosts);
    forall q
      ensures MatchCount(c.rules, q) == if Eval(e, q) then 1 else 0
      ensures Eval(e, q) <==> exists h :: h in hosts && HostOrder.Matches(h, q.host)
    {
      WholeMeans(text, e, q);
      OneRule(c.rules[0], e, q);
      HostExpressionMeaning(hosts, q);
    }
  }

  // ---------------------------------------------------------------------------
  // Names and paths that need no quoting
  // ---------------------------------------------------------------------------

  predicate Alphanumeric(c: char) {
    'A' <= c <= 'Z' || 'a' <= c <= 'z' || '0' <= c <= '9'
  }

  predicate DomainLabel(lab: string) {
    && lab != [] && Alphanumeric(lab[0]) && Alphanumeric(lab[|lab| - 1])
    && forall i :: 0 <= i < |lab| ==> Alphanumeric(lab[i]) || lab[i] == '-'
  }

  /** hostPattern: two labels or more. */
  predicate DomainName(host: string) {
    && |HostOrder.Split(host)| >= 2
    && forall i :: 0 <= i < |HostOrder.Split(host)| ==> DomainLabel(HostOrder.Split(host)[i])
  }

  /** pathPattern. */
  predicate PlainPath(p: string) {
    && p != [] && p[0] == '/'
    && forall i :: 1 <= i < |p| ==> Alphanumeric(p[i]) || p[i] in "._~/-"
  }

  /** A `"%s"` of a format string. */
  function Plain(s: string): string {
    ['"'] + (s + ['"'])
  }

  lemma DomainNamePlain(host: string)
    requires DomainName(host)
    ensures HostOrder.Concrete(host)
    ensures Quote(host) == Plain(host)
  {
    var labels := HostOrder.Split(host);
    forall i, k | 0 <= k < |labels| && 0 <= i < |labels[k]| ensures HostOrder.NameChar(labels[k][i]) {
      assert DomainLabel(labels[k]);
    }
    HostOrder.ConcreteCharsOf(host);
    forall lab | lab in labels ensures lab != [] && forall i :: 0 <= i < |lab| ==> HostOrder.NameChar(lab[i]) {
      var k :| 0 <= k < |labels| && labels[k] == lab;
      assert DomainLabel(labels[k]);
    }
    EscapePlain(host);
  }

  lemma PlainPathQuoted(p: string)
    requires PlainPath(p)
    ensures Quote(p) == Plain(p)
  {
    EscapePlain(p);
  }

  // ---------------------------------------------------------------------------
  // Public documents
  // ---------------------------------------------------------------------------

  datatype CacheRule = CacheRule(expression: string, edgeSeconds: int, host: string, paths: seq<string>)

  function PathsOf(paths: seq<string>): seq<string> {
    if paths == [] then DEFAULT_PATHS else paths
  }

  function HeaderText(name: string): string {
    "any" + "(" + ("lower" + "(" + NAMES) + ")" + "[*]" + " " + "eq" + " " + Quote(name) + ")"
  }

  function HostIsText(host: string): string {
    "http.host" + " " + "eq" + " " + Quote(host)
  }

  function PublicText(host: string, paths: seq<string>): string {
    HostIsText(host) + " and " + (InText("http.request.method", ["GET", "HEAD"], true) + " and "
    + (InText("http.request.uri.path", paths, true) + " and " + ("not " + HeaderText("origin"))))
  }

  /** What PublicPathsCache answers: the first refusal, or the rule over the sorted paths. */
  function PublicRule(host: string, ttl: int, paths: seq<string>): Result<CacheRule, Refusal> {
    var t := if ttl == 0 then DEFAULT_PUBLIC_TTL else ttl;
    if !DomainName(host) then Err(BadHost)
    else if t < SECOND || t > MAX_PUBLIC_TTL || t % SECOND != 0 then Err(BadTtl)
    else if exists i :: 0 <= i < |PathsOf(paths)| && !PlainPath(PathsOf(paths)[i]) then Err(BadPath)
    else if exists i, j :: 0 <= i < j < |PathsOf(paths)| && PathsOf(paths)[i] == PathsOf(paths)[j]
      then Err(RepeatedPath)
    else
      var sorted := Sort(StringLeq, PathsOf(paths));
      Ok(CacheRule("(" + PublicText(host, sorted) + ")", t / SECOND, host, sorted))
  }

  method PublicPathsCache(host: string, ttl: int, paths: seq<string>) returns (r: Result<CacheRule, Refusal>)
    ensures r == PublicRule(host, ttl, paths)
  {
    hide DomainName, PlainPath, PublicText, Sort, Compact;
    if !DomainName(host) {
      return Err(BadHost);
    }
    var t := ttl;
    if t == 0 {
      t := DEFAULT_PUBLIC_TTL;
    }
    if t < SECOND || t > MAX_PUBLIC_TTL || t % SECOND != 0 {
      return Err(BadTtl);
    }
    var chosen := paths;
    if |chosen| == 0 {
      chosen := DEFAULT_PATHS;
    }
    for i := 0 to |chosen|
      invariant forall k :: 0 <= k < i ==> PlainPath(chosen[k])
    {
      if !PlainPath(chosen[i]) {
        return Err(BadPath);
      }
    }
    var sorted := SortStrings(chosen);
    RepeatsAreNeighbours(chosen);
    if |Compact(sorted)| != |sorted| {
      return Err(RepeatedPath);
    }
    SortedPlain(chosen);
    var quoted := QuotePaths(sorted);
    DomainNamePlain(host);
    hide *;
    var hostText := "http.host" + " " + "eq" + " " + Plain(host);
    var pathText := "http.request.uri.path" + " in {" + JoinWith(quoted, " ") + "}";
    var expr := "(" + (hostText + " and " + (InText("http.request.method", ["GET", "HEAD"], true) + " and "
      + (pathText + " and " + ("not " + HeaderText("origin"))))) + ")";
    PublicPieces(host, sorted, hostText, pathText);
    PublicOk(host, ttl, t, paths, sorted);
    r := Ok(CacheRule(expr, t / SECOND, host, sorted));
  }

  lemma PublicPieces(host: string, sorted: seq<string>, hostText: string, pathText: string)
    requires hostText == "http.host" + " " + "eq" + " " + Plain(host) && Quote(host) == Plain(host)
    requires pathText == "http.request.uri.path" + " in {" + JoinWith(Quotes(sorted), " ") + "}"
    ensures hostText == HostIsText(host)
    ensures pathText == InText("http.request.uri.path", sorted, true)
    ensures PublicText(host, sorted) == hostText + " and "
      + (InText("http.request.method", ["GET", "HEAD"], true) + " and "
      + (pathText + " and " + ("not " + HeaderText("origin"))))
  {
    hide Plain, Quote, Quotes, JoinWith, HeaderText;
  }

  lemma PublicOk(host: string, ttl: int, t: int, paths: seq<string>, sorted: seq<string>)
    requires DomainName(host) && t == if ttl == 0 then DEFAULT_PUBLIC_TTL else ttl
    requires SECOND <= t <= MAX_PUBLIC_TTL && t % SECOND == 0
    requires forall i :: 0 <= i < |PathsOf(paths)| ==> PlainPath(PathsOf(paths)[i])
    requires Distinct(PathsOf(paths)) && sorted == Sort(StringLeq, PathsOf(paths))
    ensures PublicRule(host, ttl, paths)
      == Ok(CacheRule("(" + PublicText(host, sorted) + ")", t / SECOND, host, sorted))
  {
    hide PublicText, DomainName, PlainPath, Sort;
  }

  lemma SortedPlain(paths: seq<string>)
    requires forall i :: 0 <= i < |paths| ==> PlainPath(paths[i])
    ensures forall i :: 0 <= i < |Sort(StringLeq, paths)| ==> PlainPath(Sort(StringLeq, paths)[i])
  {
    SortMembers(StringLeq, paths);
    var sorted := Sort(StringLeq, paths);
    forall i | 0 <= i < |sorted| ensures PlainPath(sorted[i]) {
      assert sorted[i] in sorted;
      var k :| 0 <= k < |paths| && paths[k] == sorted[i];
    }
  }

  /** Each path in its quotes. */
  method QuotePaths(sorted: seq<string>) returns (quoted: seq<string>)
    requires forall i :: 0 <= i < |sorted| ==> PlainPath(sorted[i])
    ensures quoted == Quotes(sorted)
  {
    quoted := sorted;
    for i := 0 to |sorted|
      invariant |quoted| == |sorted|
      invariant forall k :: i <= k < |quoted| ==> quoted[k] == sorted[k]
      invariant forall k :: 0 <= k < i ==> quoted[k] == Quote(sorted[k])
    {
      PlainPathQuoted(sorted[i]);
      quoted := quoted[i := Plain(sorted[i])];
    }
  }

  function PublicExpr(host: string, paths: seq<string>): Expr {
    And(HostIs(host), And(MethodIn(["GET", "HEAD"]), And(PathIn(paths), Not(HasHeader("origin")))))
  }

  lemma HostIsReads(host: string)
    ensures Reads(HostIsText(host), [HOST, Word("eq"), Quoted(host)])
  {
    LexQuote(host);
    LexWord("http.host");
    LexWord("eq");
    hide Lex, Quote;
    ReadsSpaced("http.host", [HOST], "eq", [Word("eq")]);
    ReadsSpaced("http.host" + " " + "eq", [HOST] + [Word("eq")], Quote(host), [Quoted(host)]);
    assert [HOST] + [Word("eq")] + [Quoted(host)] == [HOST, Word("eq"), Quoted(host)];
  }

  lemma HostIsOperand(host: string)
    ensures OperandText(HostIsText(host), HostIs(host))
  {
    HostIsReads(host);
    var ts := [HOST, Word("eq"), Quoted(host)];
    assert ts[1..] == [Word("eq"), Quoted(host)] && ts[1..][2..] == [];
    hide Lex, HostIsText;
  }

  const NAMES := "http.request.headers.names[*]"

  lemma NamesRead()
    ensures Reads(NAMES, [Word(NAMES)])
  {
    LexWord(NAMES);
  }

  lemma CallsRead()
    ensures Reads("any", [Word("any")]) && Reads("lower", [Word("lower")])
  {
    LexWord("any");
    LexWord("lower");
  }

  lemma ReadsNested(f: string, a: seq<Token>, g: string, b: seq<Token>, t: string, c: seq<Token>)
    requires Reads(f, a) && Reads(g, b) && Reads(t, c)
    ensures Reads(f + "(" + (g + "(" + t), a + [Open] + (b + [Open] + c))
  {
    hide Lex, Reads;
    ReadsMarked(g, b, '(', t, c);
    ReadsMarked(f, a, '(', g + "(" + t, b + [Open] + c);
  }

  lemma HeaderHead()
    ensures Reads("any" + "(" + ("lower" + "(" + NAMES),
              [Word("any")] + [Open] + ([Word("lower")] + [Open] + [Word(NAMES)]))
  {
    hide *;
    NamesRead();
    CallsRead();
    ReadsNested("any", [Word("any")], "lower", [Word("lower")], NAMES, [Word(NAMES)]);
  }

  lemma HeaderTokens(t: Token)
    ensures [Word("any")] + [Open] + ([Word("lower")] + [Open] + [Word(NAMES)]) + [Close] + [Word("[*]")]
      + [Word("eq")] + [t] + [Close]
         == [Word("any")] + (HEADER_TEST + [t, Close])
  {
  }

  lemma HeaderReads(name: string)
    ensures Reads(HeaderText(name), [Word("any")] + (HEADER_TEST + [Quoted(name), Close]))
  {
    HeaderHead();
    HeaderTail("any" + "(" + ("lower" + "(" + NAMES),
      [Word("any")] + [Open] + ([Word("lower")] + [Open] + [Word(NAMES)]), name);
    HeaderTokens(Quoted(name));
    hide Reads, Quote;
  }

  lemma HeaderTail(s: string, a: seq<Token>, name: string)
    requires Reads(s, a)
    ensures Reads(s + ")" + "[*]" + " " + "eq" + " " + Quote(name) + ")",
              a + [Close] + [Word("[*]")] + [Word("eq")] + [Quoted(name)] + [Close])
  {
    LexWord("[*]");
    LexWord("eq");
    LexQuote(name);
    hide Lex, Quote;
    ReadsMarked(s, a, ')', "[*]", [Word("[*]")]);
    ReadsSpaced(s + ")" + "[*]", a + [Close] + [Word("[*]")], "eq", [Word("eq")]);
    ReadsSpaced(s + ")" + "[*]" + " " + "eq", a + [Close] + [Word("[*]")] + [Word("eq")], Quote(name), [Quoted(name)]);
    ReadsMarkAfter(s + ")" + "[*]" + " " + "eq" + " " + Quote(name),
      a + [Close] + [Word("[*]")] + [Word("eq")] + [Quoted(name)], ')');
  }

  lemma HeaderParses(name: string)
    ensures ParseHeader(([Word("any")] + (HEADER_TEST + [Quoted(name), Close]))[1..]) == Some(ParsedSet([name], []))
  {
    var ts := HEADER_TEST + [Quoted(name), Close];
    assert ([Word("any")] + ts)[1..] == ts;
    assert ts[..7] == HEADER_TEST && ts[7] == Quoted(name) && ts[8] == Close && ts[9..] == [];
  }

  lemma HeaderOperand(name: string)
    ensures OperandText(HeaderText(name), HasHeader(name))
  {
    HeaderReads(name);
    HeaderParses(name);
    var ts := [Word("any")] + (HEADER_TEST + [Quoted(name), Close]);
    assert ts != [] && ts[0] == Word("any");
    hide Lex, HeaderText, ParseIn, ParseCall, ParseHeader;
  }

  lemma PublicWhole(host: string, paths: seq<string>)
    ensures OperandText("(" + PublicText(host, paths) + ")", Paren(PublicExpr(host, paths)))
  {
    HostIsOperand(host);
    VerbInOperand(["GET", "HEAD"]);
    PathInOperand(paths);
    HeaderOperand("origin");
    var h, v, p := HostIsText(host), InText("http.request.method", ["GET", "HEAD"], true),
      InText("http.request.uri.path", paths, true);
    hide OperandText, TermText, AllText, WholeText, InText, HostIsText, HeaderText;
    var o := "not " + HeaderText("origin");
    NotTerm(HeaderText("origin"), HasHeader("origin"));
    OperandTerm(h, HostIs(host));
    OperandTerm(v, MethodIn(["GET", "HEAD"]));
    OperandTerm(p, PathIn(paths));
    var e1 := And(PathIn(paths), Not(HasHeader("origin")));
    var e2 := And(MethodIn(["GET", "HEAD"]), e1);
    AndText(p, PathIn(paths), o, Not(HasHeader("origin")));
    AndText(v, MethodIn(["GET", "HEAD"]), p + " and " + o, e1);
    AndText(h, HostIs(host), v + " and " + (p + " and " + o), e2);
    GroupText(PublicText(host, paths), And(HostIs(host), e2));
  }

  function PublicContribution(r: CacheRule): Contribution {
    Contribution("public-paths:" + r.host, CACHE, ORDER_PATHS,
      [CacheRuleOf("public-paths-" + r.host, r.expression,
         CacheParams(true, Some(Ttl("override_origin", r.edgeSeconds)), Some(Ttl("respect_origin", 0)), false))],
      r.expression)
  }

  /** No request header is named `origin` in any case. */
  predicate NoOrigin(q: Request) {
    forall i :: 0 <= i < |q.headers| ==> ToLower(q.headers[i]) != "origin"
  }

  lemma PublicEval(host: string, paths: seq<string>, q: Request)
    ensures Eval(PublicExpr(host, paths), q)
       <==> q.host == host && (q.verb == "GET" || q.verb == "HEAD") && q.path in paths && NoOrigin(q)
  {
    assert Eval(Not(HasHeader("origin")), q) <==> NoOrigin(q);
    assert Eval(And(PathIn(paths), Not(HasHeader("origin"))), q) <==> q.path in paths && NoOrigin(q);
    assert Eval(MethodIn(["GET", "HEAD"]), q) <==> (q.verb == "GET" || q.verb == "HEAD");
  }

  lemma PublicRuleIs(host: string, ttl: int, paths: seq<string>)
    requires PublicRule(host, ttl, paths).Ok?
    ensures PublicRule(host, ttl, paths).value.paths == Sort(StringLeq, PathsOf(paths))
    ensures PublicRule(host, ttl, paths).value.expression
         == "(" + PublicText(host, Sort(StringLeq, PathsOf(paths))) + ")"
  {
    hide PublicText, Sort, DomainName, PlainPath;
  }

  lemma PublicContributionClaims(r: CacheRule, host: string)
    requires r.expression == "(" + PublicText(host, r.paths) + ")"
    ensures Claims(PublicContribution(r), PublicExpr(host, r.paths))
  {
    hide OperandText, WholeText, PublicText, PublicExpr, MatchCount, Eval;
    var e := PublicExpr(host, r.paths);
    PublicWhole(host, r.paths);
    OperandIsWhole(r.expression, Paren(e));
    var c := PublicContribution(r);
    forall q ensures MatchCount(c.rules, q) == if Eval(e, q) then 1 else 0 {
      OneRule(c.rules[0], Paren(e), q);
      ParenMeans(e, q);
    }
  }

  lemma ParenMeans(e: Expr, q: Request)
    ensures Eval(Paren(e), q) == Eval(e, q)
  {
  }

  /**
   The rule keeps what it takes at the edge for the TTL, five minutes by default and an hour at most; browsers follow
   the origin.
   */
  lemma PublicTtl(host: string, ttl: int, paths: seq<string>, r: Rule)
    requires PublicRule(host, ttl, paths).Ok?
    requires r in PublicContribution(PublicRule(host, ttl, paths).value).rules
    ensures Caches(r) && !r.params.cache.value.strongETags && FollowsOrigin(r.params.cache.value.browser)
    ensures KeptFor(r.params.cache.value.edge, if ttl == 0 then 5 * 60 * SECOND else ttl)
    ensures 1 <= r.params.cache.value.edge.value.seconds <= 60 * 60
    ensures PublicRule(host, ttl, paths).value.host == host
  {
    hide PublicText, Sort, DomainName, PlainPath;
  }

  /**
   The public-documents rule caches GET and HEAD requests without an Origin header for the listed paths of the
   host, in whatever order they were listed, and claims exactly those.
   */
  lemma PublicPathsClaims(host: string, ttl: int, paths: seq<string>)
    requires PublicRule(host, ttl, paths).Ok?
    ensures Claims(PublicContribution(PublicRule(host, ttl, paths).value),
      PublicExpr(host, PublicRule(host, ttl, paths).value.paths))
    ensures forall q :: (Eval(PublicExpr(host, PublicRule(host, ttl, paths).value.paths), q)
       <==> q.host == host && (q.verb == "GET" || q.verb == "HEAD") && q.path in PathsOf(paths) && NoOrigin(q))
  {
    PublicRuleIs(host, ttl, paths);
    SortMembers(StringLeq, PathsOf(paths));
    hide *;
    PublicContributionClaims(PublicRule(host, ttl, paths).value, host);
    forall q
      ensures Eval(PublicExpr(host, PublicRule(host, ttl, paths).value.paths), q)
         <==> q.host == host && (q.verb == "GET" || q.verb == "HEAD") && q.path in PathsOf(paths) && NoOrigin(q)
    {
      PublicEval(host, PublicRule(host, ttl, paths).value.paths, q);
    }
  }

  // ---------------------------------------------------------------------------
  // Static sites
  // ---------------------------------------------------------------------------

  function StaticParams(edge: Ttl): CacheParams {
    CacheParams(true, Some(edge), Some(Ttl("respect_origin", 0)), true)
  }

  predicate TtlOk(d: int) {
    0 <= d <= MAX_STATIC_TTL && d % SECOND == 0
  }

  function HashedText(prefix: string): string {
    CallText("starts_with", "http.request.uri.path", prefix)
  }

  function StaticRules(host: string, prefix: string, edge: int, html: int): seq<Rule> {
    var rest := if html > 0 then Ttl("override_origin", html / SECOND) else Ttl("respect_origin", 0);
    if prefix == "" then [CacheRuleOf("static-site-" + host, HostIsText(host), StaticParams(rest))]
    else
      [CacheRuleOf("static-hashed-" + host, HostIsText(host) + " and " + HashedText(prefix),
         StaticParams(Ttl("override_origin", edge / SECOND)))]
      + [CacheRuleOf("static-site-" + host, HostIsText(host) + " and " + ("not " + HashedText(prefix)),
        StaticParams(rest))]
  }

  /** What StaticSiteCache answers; an edge TTL of zero is the default, the longest. */
  function StaticContribution(host: string, prefix: string, edge: int, html: int): Result<Contribution, Refusal> {
    var e := if edge == 0 then MAX_STATIC_TTL else edge;
    if !DomainName(host) then Err(BadHost)
    else if prefix != "" && (!PlainPath(prefix) || !HasSuffix(prefix, "/")) then Err(BadPrefix)
    else if !TtlOk(e) || !TtlOk(html) then Err(BadTtl)
    else
      Ok(Contribution("static-site:" + host, CACHE, ORDER_PATHS, StaticRules(host, prefix, e, html),
        "(" + HostIsText(host) + ")"))
  }

  method StaticSiteCache(host: string, prefix: string, edgeTtl: int, htmlTtl: int)
    returns (r: Result<Contribution, Refusal>)
    ensures r == StaticContribution(host, prefix, edgeTtl, htmlTtl)
  {
    if !DomainName(host) {
      return Err(BadHost);
    }
    if prefix != "" && (!PlainPath(prefix) || !HasSuffix(prefix, "/")) {
      return Err(BadPrefix);
    }
    var edge := edgeTtl;
    if edge == 0 {
      edge := MAX_STATIC_TTL;
    }
    var ttls := [edge, htmlTtl];
    for i := 0 to |ttls|
      invariant forall k :: 0 <= k < i ==> TtlOk(ttls[k])
    {
      if ttls[i] < 0 || ttls[i] > MAX_STATIC_TTL || ttls[i] % SECOND != 0 {
        return Err(BadTtl);
      }
    }
    assert TtlOk(ttls[0]) && TtlOk(ttls[1]);
    DomainNamePlain(host);
    hide Plain, Quote, DomainName, PlainPath, HasSuffix, TtlOk;
    var rules := BuildStatic(host, prefix, edge, htmlTtl);
    r := Ok(Contribution("static-site:" + host, CACHE, ORDER_PATHS, rules,
      "(" + ("http.host" + " " + "eq" + " " + Plain(host)) + ")"));
  }

  method BuildStatic(host: string, prefix: string, edge: int, htmlTtl: int) returns (rules: seq<Rule>)
    requires DomainName(host) && (prefix == "" || PlainPath(prefix))
    ensures rules == StaticRules(host, prefix, edge, htmlTtl)
  {
    DomainNamePlain(host);
    var hostExpr := "http.host" + " " + "eq" + " " + Plain(host);
    assert hostExpr == HostIsText(host);
    hide Plain, Quote, DomainName, PlainPath, HostIsText;
    var rest := Ttl("respect_origin", 0);
    if htmlTtl > 0 {
      rest := Ttl("override_origin", htmlTtl / SECOND);
    }
    rules := [];
    var restExpr := hostExpr;
    if prefix != "" {
      PlainPathQuoted(prefix);
      var hashed := "starts_with" + "(" + ("http.request.uri.path" + "," + (" " + Plain(prefix))) + ")";
      assert hashed == HashedText(prefix);
      hide HashedText;
      restExpr := hostExpr + " and " + ("not " + hashed);
      rules := [CacheRuleOf("static-hashed-" + host, hostExpr + " and " + hashed,
        StaticParams(Ttl("override_origin", edge / SECOND)))];
    }
    rules := rules + [CacheRuleOf("static-site-" + host, restExpr, StaticParams(rest))];
  }

  lemma StaticTexts(host: string, prefix: string)
    ensures OperandText("(" + HostIsText(host) + ")", Paren(HostIs(host)))
    ensures WholeText(HostIsText(host), HostIs(host))
    ensures WholeText(HostIsText(host) + " and " + HashedText(prefix), And(HostIs(host), StartsWith(prefix)))
    ensures WholeText(HostIsText(host) + " and " + ("not " + HashedText(prefix)),
      And(HostIs(host), Not(StartsWith(prefix))))
  {
    HostIsOperand(host);
    StartsWithOperand(prefix);
    hide OperandText, TermText, AllText, WholeText, HostIsText, CallText;
    OperandIsWhole(HostIsText(host), HostIs(host));
    GroupText(HostIsText(host), HostIs(host));
    OperandTerm(HostIsText(host), HostIs(host));
    OperandTerm(HashedText(prefix), StartsWith(prefix));
    NotTerm(HashedText(prefix), StartsWith(prefix));
    AndText(HostIsText(host), HostIs(host), HashedText(prefix), StartsWith(prefix));
    AndText(HostIsText(host), HostIs(host), "not " + HashedText(prefix), Not(StartsWith(prefix)));
  }

  lemma StaticRulesShare(host: string, prefix: string, edge: int, html: int, q: Request)
    ensures MatchCount(StaticRules(host, prefix, edge, html), q) == if q.host == host then 1 else 0
  {
    StaticTexts(host, prefix);
    hide OperandText, WholeText, HostIsText, HashedText, MatchCount, StaticParams;
    var rules := StaticRules(host, prefix, edge, html);
    if prefix == "" {
      OneRule(rules[0], HostIs(host), q);
    } else {
      OneRule(rules[0], And(HostIs(host), StartsWith(prefix)), q);
      OneRule(rules[1], And(HostIs(host), Not(StartsWith(prefix))), q);
      MatchCountConcat([rules[0]], [rules[1]], q);
    }
  }

  /** A static site's rules share out the requests to its host, each to one rule, and claim the whole host. */
  lemma StaticSiteClaims(host: string, prefix: string, edge: int, html: int)
    requires StaticContribution(host, prefix, edge, html).Ok?
    ensures Claims(StaticContribution(host, prefix, edge, html).value, HostIs(host))
  {
    var c := StaticContribution(host, prefix, edge, html).value;
    StaticTexts(host, prefix);
    hide OperandText, WholeText, HostIsText, DomainName, StaticRules, MatchCount;
    forall q ensures MatchCount(c.rules, q) == if Eval(HostIs(host), q) then 1 else 0 {
      StaticRulesShare(host, prefix, if edge == 0 then MAX_STATIC_TTL else edge, html, q);
    }
  }

  lemma HashedPrefixTakes(host: string, prefix: string, edge: int, html: int, q: Request)
    requires StaticContribution(host, prefix, edge, html).Ok? && prefix != "" && q.host == host
    ensures |StaticContribution(host, prefix, edge, html).value.rules| == 2
    ensures Takes(StaticContribution(host, prefix, edge, html).value.rules[0], q) <==> HasPrefix(q.path, prefix)
    ensures Takes(StaticContribution(host, prefix, edge, html).value.rules[1], q) <==> !HasPrefix(q.path, prefix)
  {
    StaticTexts(host, prefix);
    hide OperandText, WholeText, HostIsText, HashedText, DomainName;
    WholeMeans(HostIsText(host) + " and " + HashedText(prefix), And(HostIs(host), StartsWith(prefix)), q);
    WholeMeans(HostIsText(host) + " and " + ("not " + HashedText(prefix)),
      And(HostIs(host), Not(StartsWith(prefix))), q);
  }

  lemma WholeSeconds(d: int)
    requires TtlOk(d)
    ensures d / SECOND * SECOND == d
  {
  }

  /**
   Of the rules of a static site the one that takes a request to the host keeps it at the edge for the edge TTL, a year
   by default, under the hashed prefix; elsewhere for the HTML TTL, or as the origin says exactly when that is zero.
   */
  lemma HashedPrefixTtl(host: string, prefix: string, edge: int, html: int, q: Request, r: Rule)
    requires StaticContribution(host, prefix, edge, html).Ok? && q.host == host
    requires r in StaticContribution(host, prefix, edge, html).value.rules && Takes(r, q)
    ensures Caches(r) && r.params.cache.value.strongETags && FollowsOrigin(r.params.cache.value.browser)
    ensures var hashed, kept := prefix != "" && HasPrefix(q.path, prefix), r.params.cache.value.edge;
      && (hashed ==> KeptFor(kept, if edge == 0 then 365 * 24 * 3600 * SECOND else edge))
      && (!hashed && html != 0 ==> KeptFor(kept, html))
      && (!hashed ==> (FollowsOrigin(kept) <==> html == 0))
      && 0 <= kept.value.seconds <= 365 * 24 * 60 * 60
  {
    if prefix != "" {
      HashedPrefixTakes(host, prefix, edge, html, q);
    }
    WholeSeconds(html);
    WholeSeconds(if edge == 0 then MAX_STATIC_TTL else edge);
    hide Takes, HostIsText, HashedText, DomainName;
  }
}
