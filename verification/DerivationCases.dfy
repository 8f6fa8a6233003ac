/** An input Derive accepts in which a zone listed twice gets an empty host (cloudflare/edgespec/derive.go). */
module DerivationCases {
  import opened Text
  import opened Derivation
  import opened ZoneLists
  import opened Zones
  import HostOrder
  import Sorting

  const HOST := "x.a.com"

  function GroupOn(cluster: string): Group {
    Group("g", cluster, [HOST], ["p"], [], [])
  }

  function OneExposure(): Exposure {
    Exposure("x", ["acc"], [GroupOn("c"), GroupOn("d")])
  }

  /** One host claimed on two clusters by groups of the business project p, and its zone listed twice in both lists. */
  function TwiceListed(): Input {
    Input([OneExposure()], map["a.com" := "acc"], map["acc" := false], ["a.com", "a.com"], {"p"}, ["a.com", "a.com"])
  }

  function ClaimOn(cluster: string): Claim {
    Claim(cluster, HOST, ["acc"], false, false, ["p"])
  }

  lemma TheClaims()
    ensures Claims(TwiceListed()) == [ClaimOn("c"), ClaimOn("d")]
  {
    var e := OneExposure();
    assert GroupClaims(e, GroupOn("c")) == [ClaimOn("c")] && GroupClaims(e, GroupOn("d")) == [ClaimOn("d")];
    assert ExposureClaims([], e, 0) == [];
    assert ExposureClaims([], e, 1) == [] + GroupClaims(e, GroupOn("c"));
    assert ExposureClaims([], e, 2) == ExposureClaims([], e, 1) + GroupClaims(e, GroupOn("d"));
    assert AllClaims([e], 0) == [];
    assert AllClaims([e], 1) == ExposureClaims([], e, 2);
  }

  lemma TheHost()
    ensures Holds("a.com", NameOf(HOST)) && !HostOrder.IsWildcard(HOST)
  {
    assert HOST[0] != '*';
    assert TrimPrefix(HOST, "*.") == HOST && NameOf(HOST) == HOST;
    assert HOST[1..] == "." + "a.com";
  }

  lemma TheZone()
    ensures ZoneOf(ZoneNames(TwiceListed()), HOST) == "a.com"
  {
    TheHost();
    var names := ZoneNames(TwiceListed());
    assert AsSet(names) == {"a.com"};
    hide ZoneNames, ZoneOf, Holds, NameOf;
    ZoneOfIs(names, HOST);
    ZoneOfUnique({"a.com"}, HOST, "a.com", ZoneOf(names, HOST));
  }

  lemma TheHosts(cs: seq<Claim>)
    requires cs == [ClaimOn("c"), ClaimOn("d")]
    ensures WafHosts(TwiceListed(), cs, "a.com") == [HOST, HOST] == CacheHosts(TwiceListed(), cs, "a.com")
  {
    TheZone();
    TheHost();
    assert Cached(TwiceListed(), ClaimOn("c")) && Cached(TwiceListed(), ClaimOn("d"));
    hide ZoneOf, ZoneNames, Cached;
    assert cs[..1] == [ClaimOn("c")] && cs[..1][..0] == [];
    assert WafHosts(TwiceListed(), cs[..1], "a.com") == [HOST] == CacheHosts(TwiceListed(), cs[..1], "a.com");
  }

  lemma TheList()
    ensures ListAfter([HOST, HOST], 2) == ["", HOST]
  {
    ListIs([HOST, HOST], 2);
    assert [HOST, HOST][0] == [HOST, HOST][1];
    hide ListAfter;
    assert AsSet([HOST, HOST]) + {""} == {"", HOST};
    Sorting.SortedDistinctEqual(Sorting.SortedKeys({"", HOST}), ["", HOST]);
  }

  lemma TwiceListedAccepted()
    ensures Accepted(TwiceListed())
  {
    TheClaims();
    TheZone();
    TheHost();
    hide ZoneOf, ZoneNames, Claims, HostOrder.IsWildcard;
    forall g | g in OneExposure().groups ensures GroupOk(TwiceListed(), OneExposure(), g) {
    }
    assert ExposureOk(TwiceListed(), OneExposure());
  }

  /** Derive accepts the input, and the cache list and the WAF list of the zone hold the empty string. */
  lemma EmptyHostListed(cache: map<string, seq<string>>, waf: map<string, seq<string>>)
    requires ListsDerived(TwiceListed(), cache, waf)
    ensures Accepted(TwiceListed())
    ensures "a.com" in cache && cache["a.com"] == ["", "x.a.com"]
    ensures "a.com" in waf && waf["a.com"] == ["", "x.a.com"]
  {
    TwiceListedAccepted();
    TheClaims();
    TheHosts(Claims(TwiceListed()));
    TheList();
    assert multiset(["a.com", "a.com"])["a.com"] == 2;
    hide Accepted, Claims, WafHosts, CacheHosts, ListAfter;
  }
}
