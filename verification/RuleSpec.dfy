/** Ruleset rules and contributions (cloudflare/rulespec): the rules one source wants in one phase. */
module RuleSpec {
  import opened Text
  import opened FilterParse

  datatype Ttl = Ttl(mode: string, seconds: int)

  datatype CacheParams = CacheParams(cache: bool, edge: Option<Ttl>, browser: Option<Ttl>, strongETags: bool)

  datatype Params = Params(
    cache: Option<CacheParams>,
    ssl: Option<string>,
    skip: Option<(string, seq<string>, seq<string>)>,
    execute: Option<string>)

  datatype RateLimit = RateLimit(
    characteristics: seq<string>, period: int, requests: int, timeout: int, counting: string)

  datatype Rule = Rule(
    ref: string, action: string, expression: string, disabled: bool, params: Params, rateLimit: Option<RateLimit>,
    logging: bool)

  /** `claim` is the expression a cache contribution serves; "" when it makes no claim. */
  datatype Contribution = Contribution(source: string, phase: string, order: int, rules: seq<Rule>, claim: string)

  const CACHE := "http_request_cache_settings"
  const SET_CACHE := "set_cache_settings"

  function CacheRuleOf(ref: string, expression: string, params: CacheParams): Rule {
    Rule(ref, SET_CACHE, expression, false, Params(Some(params), None, None, None), None, false)
  }

  /** The rule is enabled and its expression is true of the request. */
  predicate Takes(r: Rule, q: Request) {
    !r.disabled && Holds(r.expression, q)
  }

  function MatchCount(rules: seq<Rule>, q: Request): nat {
    if rules == [] then 0 else (if Takes(rules[0], q) then 1 else 0) + MatchCount(rules[1..], q)
  }

  lemma {:induction false} MatchCountConcat(a: seq<Rule>, b: seq<Rule>, q: Request)
    ensures MatchCount(a + b, q) == MatchCount(a, q) + MatchCount(b, q)
  {
    if a == [] {
      assert a + b == b;
    } else {
      hide Takes;
      assert (a + b)[1..] == a[1..] + b;
      MatchCountConcat(a[1..], b, q);
    }
  }

  lemma MatchCountOne(r: Rule, q: Request)
    ensures MatchCount([r], q) == if Takes(r, q) then 1 else 0
  {
    hide Takes;
    assert [r][1..] == [];
  }
}
