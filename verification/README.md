# Edge derivation, verified

A Dafny model of the part of this repository that needs no cloud SDK: it turns a catalog of hostnames into
ordered tunnel rules, DNS placement, one ruleset per phase, per-account views and credential presets. Two small
cores beside it are the cached registry token and the escapers of the static-site server.

`dafny verify dfyconfig.toml` checks the whole project.

## How it is laid out

| files | what they model |
|---|---|
| `Text`, `Sorting` | Go's string helpers and sorts: a stable insertion sort in place, with the proof that a stable sort has one result |
| `HostOrder`, `Zones` | the ingress order of tunnel rules, wildcard matching and covering, the zone a host lies in |
| `Derivation`, `ZoneLists`, `DerivationCases`, `DerivedTunnels`, `TunnelNames`, `Routing`, `DnsPlacement`, `RegistryDns` | `Derive`, its cache and WAF lists, what its tunnels hold and are called, the routing checks, where each CNAME goes |
| `CatalogModel`, `CatalogSites`, `CatalogClass`, `CatalogRouting`, `ListenerNames`, `Projects`, `ProjectFacts`, `OverrideUse` | the catalog, its validation, the sites it claims, generated project groups and their overrides |
| `FilterText`, `FilterParse`, `HostFilter`, `ManagedRule` | the filter language: a reader for its tokens, a parser with its precedence, the printed host filters and what they mean |
| `RuleSpec`, `CacheRules`, `Bypass`, `ClaimFold`, `Assembly`, `AssemblyFacts`, `AssemblyPlaces`, `AssemblyOrder`, `AssemblyCases`, `CachePartition` | the cache builders and `Assemble` |
| `ZoneRecords`, `ConfigModel`, `ConfigChecks`, `ConfigViews`, `ConfigClass`, `ManagedWaf`, `DnsWriters`, `LoadedConfig`, `LoadOutcome`, `SmallCatalog`, `CachedHosts`, `ClaimedDomains`, `WafBlocks` | the registry: validation, loading and when it succeeds, views, DNS writers, the derived WAF and cache hosts |
| `Presets`, `PresetBuild`, `PresetFacts`, `PresetGrants`, `PresetSharedIds`, `PresetIsolation` | credential presets, what they grant and what they cannot do |
| `EcrToken`, `Escapes` | the token cache over any run of calls, the two escapers and the readers that undo them |

Code that loops or updates state is a method with its loop, proved against a function or predicate; the catalog, the
configuration and the token source are classes. The lemmas are about those functions, over all inputs and runs.

## What came out

- The bare `*` is an exact host to `OrderHosts`, so it sorts first and shadows every other rule. The order serves
  names by their most specific rule exactly when `*` is absent or alone (`HostOrder.MostSpecificIff`). The catalog
  refuses `*`.
- Hosts that differ only in case tie, so their order follows the input (`HostOrder.OrderIndependence`).
- `Assemble` asks only that a claim begins with `(` and ends with `)`. For any number of expressions that pass, the bypass
  is right about a request exactly when no claim stops a request that no claim takes and no alternative of a claim
  reopens it (`Bypass.BypassOfClaims`). Claims that are each one pair of parentheses are always folded rightly
  (`Bypass.BypassOfParens`, `Bypass.BypassMeaning`), and the builders' claims are. `Assemble` accepts the claim
  `(true) or (true)`, and every request then meets its rule and the bypass (`AssemblyCases.TwoGroupsAccepted`).
- The package documentation says that the assembled order does not depend on the order contributions were passed in.
  It does exactly when two contributions that share a phase, an Order and a Source both have rules, or have claims
  that do not swap in the fold (`AssemblyOrder.InputOrderIff`; `AssemblyCases.TiedRules`, `AssemblyCases.TiedClaims`).
  Claims that are groups swap only when they are one text (`ClaimFold.GroupsSwap`).
- The package documentation calls the cache phase a partition. It is one exactly where claims do not overlap, which
  `Assemble` does not check (`CachePartition.ExactlyOneRule`); a cacheable host that is also a static site is accepted
  and meets two rules (`AssemblyCases.OverlappingBuilders`).
- The registry's validation does not compare zone ids. The DNS block of a derived tunnel passes the tunnel's own
  validation exactly when each of its zones has an id of its own (`DnsPlacement.DerivedDnsOk`,
  `RegistryDns.LoadedDnsIff`; `RegistryDns.SharedIdsRefused` is a loaded configuration where it does not).
- The catalog looks for a name claimed twice by a key that joins cluster and name with `|`. A catalog that repeats
  nothing is refused when one site overlaps another across the bar (`CatalogSites.UniqueIff`,
  `CatalogSites.BarIsRefused`), which needs a bar in a cluster name (`CatalogSites.UniqueWithoutBars`).
- `Derive` sorts and compacts each zone's cache and WAF hosts in place, and compacting clears the tail of the list that a
  second pass over the same zone sorts again. A zone's list is right exactly when the zone is listed once or no gathered
  host repeats (`Derivation.WafListIff`, `Derivation.CacheListIff`); `Derive` accepts an input whose zone is listed twice
  and gives it an empty host (`DerivationCases.EmptyHostListed`). A configuration lists each of its zones once.
- `WithProjects` finds an unused override by a key that joins cluster and project with `|`. Its check is right where no
  cluster name holds a bar; otherwise a served key can hide an override that no project uses
  (`OverrideUse.OverridesUsedIff`, `OverrideUse.OverridesUsedWithoutBars`, `OverrideUse.LeftoverIsAccepted`).
- The catalog's check of a name lets a quote, a backslash, a space and a dot at the end through. The managed block of an
  enabled zone passes the zone's validation exactly when its list is not empty, its expression is short enough and no
  name the catalog claims there holds one of these (`WafBlocks.LoadedBlockIff`); a file and a catalog load whose block
  never passes (`WafBlocks.OddNameRefused`).
- A registry token is judged at the instant a call starts. It is unexpired when the call returns exactly when the call
  took less than the token's life (`EcrToken.LiveAtReturn`). After a refused pull `refused` drops the cached token, which
  is the refused one exactly when no call dropped or fetched a token in between (`EcrToken.DroppedIsRefused`,
  `EcrToken.NewerIsDropped`).
- The default listener name writes dots as dashes and a leading star as `wildcard`, so `*.a` and `wildcard.a` cannot be in
  one group without names of their own (`ListenerNames.SlugsMeet`, `ListenerNames.WildcardMeets`).
- `firstDuplicate` answers a repeated empty value with the empty string, which its callers read as none: a group may
  list an empty namespace twice, and then any other twice. The search is right exactly when the first repetition is not
  of the empty value (`CatalogModel.RepeatFoundIff`, `CatalogModel.EmptyEndsSearch`).
- A registry built by hand may carry a tunnel host in upper case beside a CNAME record of the same name; a name has one
  CNAME writer exactly when no such pair exists (`DnsWriters.OneWriterIff`, `DnsWriters.UpperHostClashes`). Every
  loaded configuration has lower-case hosts.
- `ForAccount` of the presets is documented to fail only for the account's own problems. It answers as it would without
  any other account exactly when the whole registry is sound or the account is refused for what is its own
  (`PresetIsolation.OwnProblemsIff`); another account without an id stops it (`PresetIsolation.OthersFaultStops`).
- Two zones with one id share their grants: the registry of the presets does not require distinct ids, so the least
  privilege of a security.txt-only zone holds exactly when no managed zone has its id (`PresetFacts.LeastPrivilegeIff`,
  `PresetSharedIds.SharedIdGetsMore`).
- `cssEscape` cannot carry a NUL: CSS reads its escape as U+FFFD (`Escapes.CssRoundTripIff`).

## Model

| member | source | states |
|---|---|---|
| HostOrder.CanonicalCompare | cloudflare/edgespec/order.go:59-70 | the loop over labels from the right returns the sign and the length difference that the recursive label order defines |
| HostOrder.CanonicalIsRfc4034 | cloudflare/edgespec/order.go:57-70 | a name sorts before another exactly when, after equal labels from the right (case aside), its next label is smaller or it has no more labels: the canonical order of section 6.1 of RFC 4034 |
| HostOrder.CanonicalTies | cloudflare/edgespec/order.go:59-70 | two names tie exactly when they are equal up to ASCII case |
| Text.CompareIs | cloudflare/edgespec/order.go:63-67 | the comparison of two labels is negative exactly when the first is a proper prefix of the second or smaller at their first difference |
| HostOrder.HostOrderTotal | cloudflare/edgespec/order.go:31-48 | the ingress comparator is a total preorder, and its ties are exactly the names equal up to case |
| HostOrder.OrderHosts | cloudflare/edgespec/order.go:28-51 | the in-place sort of a cloned list gives the one list that is sorted and stable; it is a rearrangement in ingress order |
| HostOrder.OrderedIs | cloudflare/edgespec/order.go:28-51 | the output is a rearrangement of the input in which no rule comes before one the comparator puts first |
| HostOrder.IngressOrderIff | cloudflare/edgespec/order.go:37-48 | the comparator's sorted lists are exactly those with exact hosts first, then wildcards with more labels first, and within each part no name after one that the canonical order puts behind it |
| HostOrder.OrderIndependence | cloudflare/edgespec/order.go:28-48 | every permutation of a host list gives the same order if and only if no two different hosts of the list are equal up to case |
| HostOrder.MoreLabelsIsLonger | cloudflare/edgespec/order.go:37-44 | among the wildcards one name matches, a longer suffix has more labels: label-count order refines longest-suffix order |
| HostOrder.MostSpecificFirst | cloudflare/edgespec/order.go:28-48 | without the bare `*`, the first rule that matches a name is its exact rule if listed, else the wildcard with the longest matching suffix |
| HostOrder.MostSpecificIff | cloudflare/edgespec/order.go:28-48 | for well-formed hosts every name is served by its most specific rule if and only if the bare `*` is absent or alone; otherwise it sorts as an exact host and shadows the rest |
| HostOrder.CoversComplete | cloudflare/edgespec/order.go:82-95 | when Covers says no, it yields a concrete name that the candidate matches and the pattern does not |
| HostOrder.CoversIsInclusion | cloudflare/edgespec/order.go:82-95 | on well-formed patterns Covers is exactly inclusion of the matched names |
| HostOrder.OrderedNeverShadows | cloudflare/edgespec/order.go:28-48 | in the derived order no rule is covered by an earlier, different rule |
| Zones.FindZone | cloudflare/edgespec/derive.go:55-66 | the loop keeps the longest zone that is the name or a parent of it |
| Zones.ZoneOfIs | cloudflare/edgespec/derive.go:55-66 | the result is listed, holds the name and is the longest that does, or is empty when none holds it |
| Zones.ZoneOfOrder | cloudflare/edgespec/derive.go:55-66 | the zone of a host does not depend on the order or repetition of the zones |
| Zones.ZoneOfPart | cloudflare/edgespec/derive.go:55-66 | a part of the zones that still holds the answer gives the same answer |
| Derivation.Derive | cloudflare/edgespec/derive.go:166-256 | succeeds exactly on the accepted inputs, names a cause that holds when it refuses, and else returns one tunnel per (cluster, account) that claims a host, sorted, and the cache and WAF lists of the listed zones, each as its last pass reads it off the gathered hosts |
| Derivation.BuildTunnels | cloudflare/edgespec/derive.go:224-253 | one tunnel per gathered key in any iteration order of the map, then sorted by cluster and account |
| Derivation.DeriveWaf | cloudflare/edgespec/derive.go:432-475 | refuses exactly when a proxied wildcard in a WAF zone has not opted out; else each zone's list is what its last pass over the claimed hosts that have not opted out reads off |
| Derivation.WafListIff | cloudflare/edgespec/derive.go:466-474 | a zone's WAF list is the sorted set of those hosts if and only if the zone is listed once or none of them repeats |
| Derivation.DeriveCache | cloudflare/edgespec/derive.go:314-351 | each cache zone's list is what its last pass over the exact hosts that groups admitting business projects alone claim in it reads off |
| Derivation.CacheListIff | cloudflare/edgespec/derive.go:341-350 | a zone's cache list is the sorted set of those hosts if and only if the zone is listed once or none of them repeats |
| Derivation.ListsAreSets | cloudflare/config/config.go:717-804 | zones listed once each, as a configuration lists its own, get the sorted sets |
| DerivationCases.EmptyHostListed | cloudflare/edgespec/derive.go:341-350 | an accepted input with a zone listed twice, whose cache and WAF lists hold the empty string |
| ZoneLists.SortLists | cloudflare/edgespec/derive.go:341-350 | the loop over the listed zones that sorts and compacts in place: every zone's list after as many passes as it is listed |
| ZoneLists.ListIs | cloudflare/edgespec/derive.go:341-350 | after any number of passes the list is the sorted set, with the empty string added when there were several and a host repeats |
| DerivedTunnelFacts.HostsConserved | cloudflare/edgespec/derive.go:200-253 | a derived tunnel holds a host exactly as often as the groups of its cluster claim it when its account owns the host's zone, and not at all otherwise |
| DerivedTunnelFacts.ClaimServedOnce | cloudflare/edgespec/derive.go:200-253 | every claim is served by exactly one tunnel of its cluster |
| DerivedTunnelFacts.DerivedUnique | cloudflare/edgespec/derive.go:224-253 | an input has one list of derived tunnels: two lists that meet the specification are equal |
| DerivedTunnelFacts.AccountsAreListed | cloudflare/edgespec/derive.go:185-222 | the account of a tunnel is listed by an exposure that claims the host |
| DerivedTunnelFacts.TunnelDnsNames | cloudflare/edgespec/derive.go:261-275 | the hosts without the elsewhere ones, in ingress order |
| DerivedTunnelFacts.DnsSplitsHosts | cloudflare/edgespec/derive.go:229-275 | the names a tunnel writes and the elsewhere names split its hosts, with none in both; elsewhere are exactly those claimed so |
| DerivedTunnelFacts.OwnZonesResolve | cloudflare/edgespec/derive.go:229-250 | a tunnel's own zones resolve its hosts as the whole registry does, to zones of the tunnel's account |
| TunnelNames.TunnelNamed | cloudflare/edgespec/derive.go:25-50 | a derived tunnel of a legacy account is called as its cluster, any other as cluster, dash and account |
| TunnelNames.NamesDiffer | cloudflare/edgespec/derive.go:25-50 | two derived tunnels of one account never share a name, nor do two of one cluster when at most one account is legacy |
| TunnelNames.TunnelsOrdered | cloudflare/edgespec/derive.go:252-253 | the tunnels come by cluster, and on one cluster by account |
| TunnelNames.TunnelFilled | cloudflare/edgespec/derive.go:224-251 | a tunnel's hosts and elsewhere names are in ingress order, its zone is that of its first host, its zones are those of its hosts, sorted, each once |
| TunnelNames.ValidTunnel | cloudflare/config/config.go:539-566 | in a valid registry a tunnel is called by its cluster alone exactly when its account is legacy, and its release likewise |
| TunnelNames.ValidNames | cloudflare/config/config.go:539-566 | in a valid registry no two tunnels of one cluster share a name, a release or a token secret, and no two of one account share a name |
| TunnelNames.NamesAgree | cloudflare/config/config.go:539-542 | the name Derive gives a tunnel is the one the loaded configuration's own method gives it |
| Routing.ValidateRouting | cloudflare/edgespec/derive.go:379-410 | accepts exactly the tunnels in which no name repeats, case aside, and no rule is caught by an earlier one |
| Routing.ValidateIngressOrder | cloudflare/tunnel/tunnel.go:292-315 | accepts exactly the rule lists in which no rule is covered by an earlier one |
| Routing.DerivedTunnelRoutes | cloudflare/edgespec/derive.go:224-251 | no tunnel derived from clean claims holds a repeated or a shadowed rule |
| Routing.DerivedRouting | cloudflare/edgespec/derive.go:379-410 | routing validation of derived tunnels fails exactly when one host is claimed on two clusters |
| CatalogRouting.CollectExposures | cloudflare/config/config.go:751-780 | the cloudflare-tunnel exposures with their groups, in name order |
| CatalogRouting.ExposuresInOrder | cloudflare/config/config.go:751-780 | the exposures come by name, each once |
| CatalogRouting.ClaimsAreServed | cloudflare/config/config.go:751-780 | the claims Derive sees are exactly the names the tunnel exposures of the catalog serve, cluster by cluster |
| ClaimedDomains.ClaimsAreDomains | cloudflare/config/config.go:751-780 | of a valid catalog the claims are exactly the domains of the tunnel exposures, each with its cluster, accounts, namespaces and its own record and WAF settings |
| CatalogRouting.CatalogTunnelRoutes | catalog/catalog.go:575-635 | for every catalog Validate accepts, no derived tunnel holds a repeated or shadowed rule |
| CatalogRouting.CatalogRoutes | catalog/catalog.go:603-635 | for every catalog Validate accepts, routing validation of the derived tunnels fails if and only if a hostname is served on two clusters |
| DnsPlacement.ZoneIDOf | cloudflare/tunnel/tunnel.go:254-273 | the id of the longest listed zone that holds the host, or a refusal when none does |
| DnsPlacement.ValidateDns | cloudflare/tunnel/tunnel.go:200-249 | accepts exactly the blocks whose zones are distinct, identified and hold every name, each name once |
| DnsPlacement.TunnelArgsInZones | cloudflare/edge/edge.go:242-266 | one zone id for a one-zone tunnel, else the list of zones with their ids; nothing when an id is missing |
| DnsPlacement.CheckTunnelZones | cloudflare/edge/edge.go:282-309 | accepts exactly the tunnels whose zones are known, of the tunnel's account, and include the zone of every host |
| DnsPlacement.DerivedZonesOk | cloudflare/edge/edge.go:282-309 | every derived tunnel passes that check |
| DnsPlacement.CnamePlacement | cloudflare/edge/edge.go:242-266 | every CNAME is placed in the host's longest-suffix zone of the whole registry, on the several-zone path and on the one-zone path when that zone has an id |
| DnsPlacement.DerivedDnsOk | cloudflare/tunnel/tunnel.go:200-249 | the DNS block of a derived tunnel passes the tunnel's own validation if and only if each of its zones has an id and no two share one |
| RegistryDns.LoadedDnsIff | cloudflare/config/config.go:901-1007 | the same for every tunnel of every loaded configuration, with the ids of its registry |
| RegistryDns.SharedIdsRefused | cloudflare/config/config.go:901-1007 | a loaded configuration with two zones of one id, whose one derived tunnel has a DNS block the tunnel refuses |
| CatalogModel.FirstDuplicate | catalog/catalog.go:844-856 | the first value that repeats an earlier one, or the empty string |
| CatalogModel.RepeatFoundIff | catalog/catalog.go:844-856 | what the callers read as a repetition is one exactly when the first repeated value is not the empty string |
| CatalogModel.EmptyEndsSearch | catalog/catalog.go:844-856 | a list with two repetitions in which none is found |
| CatalogModel.ValidateGroup | catalog/catalog.go:486-596 | accepts exactly the groups with hosts and namespaces, lower-case names whose only `*` is a leading label, no repeated name and no repetition of namespaces that `firstDuplicate` finds |
| ListenerNames.SlugsMeet | catalog/catalog.go:820-831 | two hosts have one default listener and certificate name exactly when they print alike with dots as dashes and `wildcard` for a leading star |
| ListenerNames.SlugsDiffer | catalog/catalog.go:820-831 | hosts without dashes and without a first label `wildcard` have different default names exactly when they differ |
| ListenerNames.WildcardMeets | catalog/catalog.go:486-536 | two hosts that each pass, refused in one group because they share a default name |
| CatalogModel.ValidateExposure | catalog/catalog.go:375-484 | accepts exactly the exposures whose arrival, accounts, clusters and groups are consistent |
| CatalogModel.ValidateDomainsAreUnique | catalog/catalog.go:603-635 | accepts exactly when no printed key, cluster and name joined by a bar, occurs twice over the whole catalog |
| CatalogSites.KeysMeet | catalog/catalog.go:622-631 | two sites have one key exactly when they are one site or one overlaps the other across the bar |
| CatalogSites.UniqueIff | catalog/catalog.go:603-635 | the check accepts a catalog if and only if no (cluster, name) is claimed twice and no site overlaps another |
| CatalogSites.UniqueWithoutBars | catalog/catalog.go:603-635 | where no cluster name holds a bar, it accepts exactly the catalogs that claim no (cluster, name) twice |
| CatalogSites.BarIsRefused | catalog/catalog.go:603-635 | a catalog that passes every other check and claims nothing twice, yet is refused |
| CatalogModel.ValidateCatalog | catalog/catalog.go:357-373 | accepts exactly the valid catalogs |
| CatalogObject.Catalog.WithProjects | catalog/projects.go:106-203 | where every exposure accepts its projects the generated catalog is left behind, and the call succeeds exactly when that catalog is valid; every other call is refused; no call replaces a written group |
| CatalogObject.GenerateExposure | catalog/projects.go:116-200 | one exposure's generated groups, or a refusal for a taken name or an unused override |
| Projects.AddProject | catalog/projects.go:134-185 | one project on one cluster: its group is added under a free name, or the name is taken |
| ProjectFacts.ProjectGainsOneGroup | catalog/projects.go:134-185 | each project with an endpoint on a cluster of a generating exposure gains exactly one new group, with its hostnames in order and its namespace alone |
| ProjectFacts.NewGroupHasOneProject | catalog/projects.go:134-185 | every group that was not written belongs to exactly one served project |
| ProjectFacts.GeneratedAsSaid | catalog/projects.go:134-185 | the group bears the overriding name or the project's, and each of its domains is an endpoint on the cluster under the override's listener, certificate and WAF settings for that host, else the endpoint's own |
| ProjectFacts.ProjectOrder | catalog/projects.go:116-188 | the written catalog and the projects, in whatever order they are listed, determine the generated catalog |
| OverrideUse.OverridesUsedIff | catalog/projects.go:165-199 | the overrides of an exposure pass if and only if each one's project has an endpoint on its cluster or the key is shared across the bar with one that has |
| OverrideUse.OverridesUsedWithoutBars | catalog/projects.go:165-199 | where no cluster name holds a bar, they pass exactly when each one's project has an endpoint on its cluster |
| OverrideUse.LeftoverIsAccepted | catalog/projects.go:189-199 | an exposure that accepts its projects with an override that names none of them |
| ProjectFacts.OneClaimPerCluster | catalog/catalog.go:603-635 | in a valid catalog a name is claimed on a cluster by one group of one exposure |
| FilterText.LexQuote | cloudflare/zonespec/zonespec.go:630-651 | the reader of the filter language gets back every string the builders quote |
| FilterText.LexAppend | cloudflare/zonespec/zonespec.go:643-650 | texts that meet between tokens are read one after the other |
| FilterParse.FrameOr | cloudflare/rules/rules.go:211-225 | what follows an expression does not change how the expression is read |
| FilterParse.AndThen | cloudflare/rules/rules.go:211-225 | a term, `and` and a conjunction are read as their conjunction, tighter than `or` |
| HostFilter.HostExpression | cloudflare/zonespec/zonespec.go:630-651 | the loop that splits exact hosts from wildcards prints the set literal first and one suffix test for each wildcard |
| HostFilter.HostExpressionMeaning | cloudflare/zonespec/zonespec.go:627-651 | the printed expression, parsed, holds of a request exactly when some listed host matches the request's host as tunnel rules match |
| HostFilter.CoveringHostsTakeMore | cloudflare/zonespec/zonespec.go:627-651 | a list whose patterns cover another list's prints an expression that takes all of its requests |
| HostFilter.SortedSet | cloudflare/zonespec/zonespec.go:612-625 | the body of a set literal over the sorted values |
| HostFilter.TrustedExpression | cloudflare/zonespec/zonespec.go:605-610 | the trusted-clients text from its two sorted sets |
| HostFilter.TrustedMeaning | cloudflare/zonespec/zonespec.go:605-610 | it holds of a request exactly when the host is listed and the address lies in a listed range |
| HostFilter.ManagedWafExpression | cloudflare/zonespec/hardening.go:157-169 | `true` for the whole zone, else the expression of the sorted hosts |
| HostFilter.AuthoringOrder | cloudflare/zonespec/hardening.go:157-169 | both expressions are the same for every permutation of their lists |
| ManagedRule.ValidateBlock | cloudflare/zonespec/hardening.go:111-152 | accepts exactly a whole-zone block without hosts, or distinct lower-case hosts inside the zone whose expression has at most 4096 bytes |
| ManagedRule.ValidBlockMeaning | cloudflare/zonespec/hardening.go:111-169 | the rule of a valid block holds of every request of a whole zone, else of exactly those to a host its list matches |
| CacheRules.CacheHosts | cloudflare/rules/cache.go:20-41 | the cacheable-hosts contribution, empty and without claim for no hosts |
| CacheRules.CacheHostsClaims | cloudflare/rules/cache.go:14-41 | its rule caches exactly what its claim takes, the requests to a matching host, and the claim is one group |
| CacheRules.HostsTtl | cloudflare/rules/cache.go:26-39 | the rule caches what the origin lets it cache, in browsers too |
| Sorting.RepeatsAreNeighbours | cloudflare/rules/cache.go:136-140 | comparing neighbours of the sorted paths finds every repeated path |
| CacheRules.PublicPathsCache | cloudflare/rules/cache.go:109-157 | refuses host, TTL, path and repetition in that order, or gives the rule over the sorted paths |
| CacheRules.PublicPathsClaims | cloudflare/rules/cache.go:106-181 | the rule takes GET and HEAD requests without an Origin header for the listed paths of the host, whatever their order, and claims exactly those as one group |
| CacheRules.PublicTtl | cloudflare/rules/cache.go:109-181 | the rule keeps what it takes at the edge for the TTL, five minutes by default, and leaves browsers to the origin |
| CacheRules.StaticSiteCache | cloudflare/rules/cache.go:209-275 | refuses host, prefix and TTLs in that order, or gives one rule, or two when there is a hashed prefix |
| CacheRules.StaticRulesShare | cloudflare/rules/cache.go:230-274 | every request to the host matches exactly one of the rules, every other request none |
| CacheRules.StaticSiteClaims | cloudflare/rules/cache.go:206-275 | the claim is one group and takes the whole host |
| CacheRules.HashedPrefixTtl | cloudflare/rules/cache.go:217-274 | of an accepted site, the rule that takes a request caches it: under the prefix for the caller's edge TTL, a year by default, elsewhere for the HTML TTL, or as the origin says exactly when that is zero |
| Bypass.BypassExpression | cloudflare/rules/rules.go:214-225 | the loop prints the fold over the claims |
| Bypass.BypassMeaning | cloudflare/rules/rules.go:199-225 | for any number of claims that are each one group, the printed text, parsed, holds of a request exactly when no claim does |
| Bypass.BypassOfClaims | cloudflare/rules/rules.go:128-225 | for any number of claims that are expressions and pass the first-and-last-character test: what the printed bypass says of a request, and the exact condition on the parsed claims under which it is true exactly when no claim is |
| Bypass.BypassOfParens | cloudflare/rules/rules.go:128-225 | claims that are each read as one pair of parentheses, a test to make beforehand: the bypass is right about every request |
| Bypass.LooksGroupedIsNotEnough | cloudflare/rules/rules.go:128-136 | the claim `(true) or (true)` passes that test and its bypass takes the claimed requests too |
| AssemblyCases.TwoGroupsAccepted | cloudflare/rules/rules.go:91-197 | Assemble accepts that claim, and every request meets its rule and the bypass |
| ClaimFold.FoldSwap | cloudflare/rules/rules.go:214-225 | exchanging two neighbouring claims changes the printed fold if and only if the two do not swap |
| ClaimFold.GroupsSwap | cloudflare/rules/rules.go:214-225 | two claims that are groups swap exactly when they are one text |
| ClaimFold.DifferentClaimsSwap | cloudflare/rules/rules.go:128-136 | two different claims that pass the first-and-last-character test and swap |
| Assembly.Assemble | cloudflare/rules/rules.go:91-197 | refuses exactly when a contribution is out of order, a ref is written twice in a phase or the reserved ref is used; else gives each named phase its ordered rules |
| Assembly.CheckRules | cloudflare/rules/rules.go:142-156 | one contribution's rules pass exactly when each is complete and no ref repeats or was written before |
| AssemblyFacts.AcceptsAnyOrder | cloudflare/rules/rules.go:91-197 | acceptance does not depend on the order of the contributions |
| AssemblyFacts.EveryRuleOnce | cloudflare/rules/rules.go:161-197 | a phase is present exactly when a contribution names it; its rules are the contributed ones, each once, by (Order, Source), plus one bypass in the cache phase; refs are unique |
| AssemblyPlaces.PhaseInPlace | cloudflare/rules/rules.go:86-197 | an assembled phase runs through its contributions by Order, then by Source, then as they were passed in, with the bypass last of its place |
| AssemblyPlaces.BypassBetween | cloudflare/rules/rules.go:52-61 | the bypass comes after the cacheable hosts and before the rules that cache part of a host |
| AssemblyOrder.AnyOrder | cloudflare/rules/rules.go:86-100 | contributions may be permuted freely when no two of one phase, Order and Source both have rules or have claims that do not swap |
| AssemblyOrder.TiesThatMatter | cloudflare/rules/rules.go:91-100 | two contributions of that kind: some other input order gives other rulesets |
| AssemblyOrder.InputOrderIff | cloudflare/rules/rules.go:86-197 | for every accepted list, the rulesets are the same for every input order if and only if no two contributions of one phase, Order and Source both have rules or have claims that do not swap |
| AssemblyOrder.GroupTiesMatter | cloudflare/rules/rules.go:86-197 | when claims are groups, such a tie is one where both have rules or the claims differ |
| AssemblyCases.TiedRules | cloudflare/rules/rules.go:91-100 | an accepted pair with rules whose two input orders give different rulesets |
| AssemblyCases.TiedClaims | cloudflare/rules/rules.go:91-100 | an accepted pair with claims alone whose two input orders give different bypass rules |
| CachePartition.Partition | cloudflare/rules/rules.go:161-179 | from built contributions the cache phase matches every request: one rule for each claim that takes it, or the bypass alone |
| CachePartition.ExactlyOneRule | cloudflare/rules/rules.go:161-179 | a request matches exactly one cache rule if and only if at most one claim takes it |
| CachePartition.CacheDecision | cloudflare/rules/rules.go:161-208 | in a cache phase of built contributions some rule takes each request, and a rule that takes it turns the cache on exactly when a claim takes the request |
| CachePartition.BypassRule | cloudflare/rules/rules.go:199-208 | the bypass rule turns the cache off and does nothing else |
| AssemblyCases.OverlappingBuilders | cloudflare/rules/cache.go:20-275 | a cacheable host that is also a static site: both contributions are accepted and a request to the host meets two rules |
| AssemblyCases.TwoRulesMatch | cloudflare/rules/cache.go:20-275 | two contributions of the builders that assemble, and a request that two of their rules match |
| CachePartition.BuildersBuild | cloudflare/rules/cache.go:20-275 | what the three builders return is built in that sense |
| ZoneRecords.KeyIsAlike | cloudflare/zonespec/zonespec.go:384-389 | the printed key of two valid entries is equal exactly when name, type and content are |
| ZoneRecords.ValidateRecords | cloudflare/zonespec/zonespec.go:345-400 | accepts exactly the lists of valid entries without repetition in which no CNAME shares its name |
| ConfigChecks.ValidateRegistry | cloudflare/config/config.go:901-1007 | accepts exactly the registries whose accounts, zones, fleet and buckets are valid, with at most one legacy account |
| ConfigChecks.ValidateTunnel | cloudflare/config/config.go:1095-1131 | accepts exactly the tunnels whose account, zones and hosts agree with the registry |
| ConfigChecks.ValidateOriginTunnels | cloudflare/config/config.go:1471-1492 | accepts exactly when every origin switch names a record some tunnel writes |
| ConfigChecks.ValidateRecordTunnels | cloudflare/config/config.go:1450-1465 | accepts exactly when no declared record lies on a name a tunnel writes |
| ConfigChecks.Validate | cloudflare/config/config.go:1073-1143 | accepts exactly the valid registries |
| ConfigViews.ForAccount | cloudflare/config/stacks.go:139-186 | the account's part of the registry, or a refusal for an unknown account or a zone that waits for its id |
| ConfigViews.ViewValid | cloudflare/config/stacks.go:139-186 | the view of a valid registry is valid if and only if it keeps a tunnel, and it then keeps a zone |
| ConfigViews.ViewsPartition | cloudflare/config/stacks.go:149-172 | every zone and tunnel is in its own account's view, unchanged and as often as in the registry, and in no other |
| ConfigViews.ViewKeeps | cloudflare/config/stacks.go:118-186 | a view has its one account, the registry's fleet and exactly the account's buckets; its rotations are the registry's for a legacy account, else the account's own, else the default |
| ConfigViews.StackAccount | cloudflare/config/stacks.go:86-113 | the account whose stack of that kind has the name, or a refusal when there is none |
| ConfigViews.StackNamed | cloudflare/config/stacks.go:72-80 | a stack is named after its kind alone exactly for a legacy account, else after kind and account |
| ConfigViews.StackNamesDiffer | cloudflare/config/stacks.go:74-80 | no two accounts share a stack name of one kind |
| DnsWriters.OneWriterIff | cloudflare/config/config.go:546-578 | in a valid registry every name of every zone has at most one CNAME writer among tunnels and records if and only if no tunnel writes a name that its zone declares as a CNAME in another spelling |
| DnsWriters.UpperHostClashes | cloudflare/config/config.go:1450-1465 | a valid registry with such a pair |
| DnsWriters.CnameStandsAlone | cloudflare/config/config.go:1450-1465 | a name with a declared CNAME has no other declared record, and a tunnel that carries a recorded name leaves it to dns_elsewhere (section 3.6.2 of RFC 1034) |
| DnsWriters.OriginHasOneWriter | cloudflare/config/config.go:1471-1492 | every origin switch names a record that exactly one tunnel writes |
| LoadedConfig.LoadedOneWriter | cloudflare/config/config.go:620-648 | in every loaded configuration a name has at most one CNAME writer among all tunnels and records |
| ConfigObject.Config.Derive | cloudflare/config/config.go:717-804 | succeeds exactly when the derivation and every record's WAF setting are accepted, and then fills in the derived tunnels, cache hosts and WAF hosts and changes nothing else |
| CachedHosts.CachedHostIsBusiness | cloudflare/edgespec/derive.go:286-367 | in a loaded configuration a cached host is an exact name of its zone, and every group that serves it on any cluster admits business projects alone |
| ClaimedDomains.CachedHostIff | cloudflare/edgespec/derive.go:286-367 | a zone that declares a cache lists exactly the exact names that lie in it and that some group serves for business projects alone |
| ClaimedDomains.WafHostIff | cloudflare/config/config.go:809-844 | an enabled zone lists exactly the names that lie in it and that some domain serves without opting out, and the proxied records that have not opted out |
| ClaimedDomains.OtherListsKept | cloudflare/config/config.go:717-844 | a zone without a cache or without the managed WAF keeps its list as written |
| ClaimedDomains.TunnelHostIff | cloudflare/config/config.go:717-804 | a loaded tunnel carries exactly the names that the catalog serves on its cluster and that lie in a zone of its account, and leaves exactly those elsewhere whose domain says so |
| ClaimedDomains.EveryDomainCarried | cloudflare/config/config.go:717-804 | every name the catalog serves through a tunnel is carried by a tunnel of its cluster |
| CachedHosts.PlatformHostsAreNotCached | cloudflare/edgespec/derive.go:286-312 | the cacheable-hosts rule of a zone takes no request to a host that a platform group serves |
| CachedHosts.PlatformRequestsBypass | cloudflare/rules/rules.go:161-179 | in the cache phase assembled for a loaded zone, a request to a host that a platform group serves meets the bypass and nothing else unless another contribution claims it, and is then kept out of the cache |
| ConfigObject.Config.DeriveWAF | cloudflare/config/config.go:809-844 | refuses exactly on a bad opt-out or a proxied wildcard; each enabled zone's list becomes the sorted set of catalog hosts and covered records, on a refusal for exactly the zones before the first refused one in name order |
| ConfigObject.Config.AddWAFHosts | cloudflare/config/config.go:862-882 | succeeds exactly for exact hosts inside an enabled zone, whose list becomes the sorted union; a refused call changes nothing |
| ConfigObject.Config.Load | cloudflare/config/config.go:620-648 | succeeds exactly when the file is sound, a catalog is given, a project list is given if any zone caches, the derivation goes through and the filled registry is valid; it then is the checked file with the derived tunnels and lists filled in |
| LoadOutcome.OwnerIff | cloudflare/config/config.go:546-578 | a derived tunnel writes a name of a zone exactly when the catalog claims it there and leaves it to the tunnel |
| LoadOutcome.FilledValidIff | cloudflare/config/config.go:1073-1143 | the filled registry is valid if and only if some host is claimed, no host is served on two clusters, every origin switch moves a claimed record and no declared record lies on one |
| LoadOutcome.LoadIff | cloudflare/config/config.go:620-648 | for every valid catalog, loading succeeds if and only if the file is sound, a project list is given if any zone caches, the derivation goes through and those conditions on file and catalog hold |
| ManagedWaf.CallsKeep | cloudflare/config/config.go:853-882 | over any sequence of calls every list stays sorted, without repetition or wildcard and inside its zone, never shrinks, and nothing else of a zone changes |
| LoadedConfig.WafAfterCalls | cloudflare/config/config.go:717-882 | after loading and any calls, an enabled zone's list keeps that promise and holds every host the catalog claims in the zone and has not opted out, and every covered record |
| WafBlocks.LoadedBlockIff | cloudflare/zonespec/hardening.go:111-152 | after loading and any calls, the managed block of an enabled zone passes if and only if its list is not empty, its expression has at most 4096 bytes and no name the catalog claims there holds a quote, a backslash or a space or ends with a dot |
| WafBlocks.LoadedBlockMeaning | cloudflare/config/config.go:1526-1533 | when it passes, the managed WAF runs on a request exactly when the list holds its host, and so on every request to a name the catalog claims there and has not opted out |
| WafBlocks.OddNameRefused | cloudflare/zonespec/hardening.go:128-146 | a file and a catalog that load, whose enabled zone has a block that is refused whatever is added to it |
| PresetBuild.ValidateRow | cloudflare/presets/presets.go:359-500 | accepts exactly the rows whose name, kind, account, lists, bucket, grants and lifetimes are consistent |
| PresetBuild.Validate | cloudflare/presets/presets.go:306-357 | accepts exactly a sound registry with distinctly named, valid rows |
| PresetBuild.BuildRow | cloudflare/presets/presets.go:605-727 | the preset of a row, or a refusal for a pending zone or a policy that may not be granted |
| PresetBuild.Build | cloudflare/presets/presets.go:512-529 | the presets of all rows in order when every row can be built, else a refusal |
| PresetBuild.BuildReady | cloudflare/presets/presets.go:535-556 | the same for the rows of accounts without a pending zone |
| PresetBuild.ForAccount | cloudflare/presets/presets.go:560-578 | the presets of one account's rows, judged on those rows and the registry alone |
| PresetBuild.CheckToken | cloudflare/account/childtoken.go:256-307 | accepts exactly policy lists that grant something, never an API-token group, on valid scopes |
| PresetFacts.GrantsAre | cloudflare/presets/presets.go:622-727 | the groups a credential gets on a zone id are exactly those of the lists the id is on |
| PresetGrants.ZoneGrants | cloudflare/presets/presets.go:605-727 | on a zone id a valid row grants exactly what its kind and lists say about the zones of its account with that id |
| PresetGrants.WiderGrants | cloudflare/presets/presets.go:622-727 | beyond zones a row grants its whole account or its own bucket exactly what its kind says, and never another bucket |
| PresetGrants.BucketRowAlone | cloudflare/presets/presets.go:705-719 | a bucket row has one policy, on its own bucket and jurisdiction, and a write-only row may read nothing |
| PresetGrants.PresetFields | cloudflare/presets/presets.go:637-720 | a preset has its row's name, kind and grants, the id of its account, the row's lifetime or an hour, and asks for an R2 credential exactly for a bucket row |
| PresetFacts.ZonePoliciesStayInAccount | cloudflare/presets/presets.go:605-727 | every zone a valid row's credential reaches is a zone of the row's account |
| PresetFacts.NoAccountWideGrant | cloudflare/presets/presets.go:651-688 | a zone or dns preset has no policy on the account or a bucket |
| PresetFacts.LeastPrivilegeIff | cloudflare/presets/presets.go:622-697 | a zone row grants an id nothing but Zone Settings Write, and a services, status or dns row nothing, if and only if no zone the row manages has that id |
| PresetFacts.TxtOnlyLeastPrivilege | cloudflare/presets/presets.go:622-697 | with distinct zone ids a security.txt-only zone gets at most Zone Settings Write from a zone row and nothing from services, status or dns rows |
| PresetSharedIds.SharedIdGetsMore | cloudflare/presets/presets.go:605-727 | an accepted registry and row with a security.txt-only zone that shares a managed zone's id and gets all of its grants |
| PresetFacts.ForAccountIsFilteredBuild | cloudflare/presets/presets.go:558-578 | for rows Build accepts, ForAccount of a known account is Build filtered to it |
| PresetFacts.ForAccountIsFilteredBuildReady | cloudflare/presets/presets.go:531-578 | when BuildReady answers, an account without a pending zone gets the same presets from ForAccount |
| PresetIsolation.OwnProblemsIff | cloudflare/presets/presets.go:558-578 | ForAccount answers as it would if the registry and the table held nothing of any other account, if and only if the whole registry is sound or the account is refused for what is its own |
| PresetIsolation.PoliciesOwn | cloudflare/presets/presets.go:605-727 | a valid row's policies are those read off its account's own part of the registry |
| PresetIsolation.OthersFaultStops | cloudflare/presets/presets.go:558-578 | an account that can be built alone is refused because another account has no id |
| EcrToken.EcrTokenSource.Get | internal/staticsite/registryauth.go:96-113 | the cached token before its half-life, else a fetched one, else the old one while it lives |
| EcrToken.RegistryAuth.Refused | internal/staticsite/registryauth.go:287-303 | drops the token and advises a retry exactly for an ECR pull answered 401 with a source |
| EcrToken.GivenIsLive | internal/staticsite/registryauth.go:96-113 | over any run every token given out is unexpired then, and one given without a fetch has over half its life left |
| EcrToken.FetchedLogin | internal/staticsite/registryauth.go:121-142 | a fetch succeeds exactly when the answer decodes to two texts around a first colon, neither empty, and these are the login |
| EcrToken.FetchedLife | internal/staticsite/registryauth.go:138-142 | a token lives until the instant the answer names, if that is still to come, else for twelve hours |
| EcrToken.GivenLogin | internal/staticsite/registryauth.go:96-142 | every login given out over a run is that of a text some call up to then decoded |
| EcrToken.AsksIff | internal/staticsite/registryauth.go:77-103 | a call asks the API exactly when no token is kept or half of the kept one's life, rounded down, is over |
| EcrToken.FailedRefreshKeeps | internal/staticsite/registryauth.go:103-110 | a failed refresh keeps the token there was and gives it out as long as it has not expired |
| EcrToken.Provenance | internal/staticsite/registryauth.go:96-120 | the token kept was fetched by one call, and nothing since has dropped or replaced it |
| EcrToken.NothingDroppedComesBack | internal/staticsite/registryauth.go:115-120 | after an invalidation every token given out was fetched by a later call |
| EcrToken.LiveAtReturn | internal/staticsite/registryauth.go:96-142 | a token fetched by a call is unexpired at its return if and only if the call took less than the token's life; one given without a fetch, whenever the call took at most half of it |
| EcrToken.DroppedIsRefused | internal/staticsite/registryauth.go:115-120 | when each call starts later than the ones before, an invalidation drops the token an earlier call gave out if and only if no token was dropped or fetched in between |
| EcrToken.NewerIsDropped | internal/staticsite/registryauth.go:282-303 | a run in which one pull's refusal drops the token another pull has fetched since |
| EcrToken.CutAtIs | internal/staticsite/registryauth.go:134-137 | the login is cut at the first colon |
| Escapes.JsEscape | internal/staticsite/placeholders.go:101-114 | the loop prints each character or its escape |
| Escapes.JsRoundTrip | internal/staticsite/placeholders.go:101-114 | reading a string literal (section 12.9.4 of ECMA-262) gives back every escaped value |
| Escapes.JsTextIsInert | internal/staticsite/placeholders.go:101-114 | nothing in the escaped value can end the literal, open markup or a template, or break the line |
| Escapes.CssEscape | internal/staticsite/placeholders.go:116-127 | the loop prints each name character or its escape |
| Escapes.CssRoundTripIff | internal/staticsite/placeholders.go:116-127 | reading escapes (section 4.3.7 of CSS Syntax Module Level 3) gives the value back if and only if it holds no NUL |
| Escapes.CssTextIsInert | internal/staticsite/placeholders.go:116-127 | the escaped value is made of name characters, backslashes and spaces |
| Sorting.SortInPlace | cloudflare/edgespec/order.go:31-48 | the sort in place gives the sorted, stable rearrangement |
| Sorting.SortUnique | cloudflare/edgespec/order.go:31-48 | a sorted, stable rearrangement is unique, so nothing depends on the sort algorithm |
| Sorting.SortedUnique | cloudflare/config/config.go:846-851 | sort and compact is the sorted list of the set of values |

## Left out

- Pulumi resources, Cloudflare and AWS clients, files, YAML decoding, HTTP serving and metrics: calls into code that
  is not part of this model. What they answer is a parameter (the API answer and the clock of the token source).
- Error texts: a refusal is a Boolean, a `None` or a small enumeration.
- Rule and preset descriptions: sentences for people that no decision reads.
- Blocks of a zone that only their own validator reads (trusted clients, rate limits, HSTS, SSL mode rules, public
  cache, bot management, the target of an origin switch): one Boolean field, `blocksOk`. A bucket's jurisdiction,
  lifecycle and permission are `settingsOk`. A nil and an empty list are one value.
- Address and CIDR parsing: a record carries what the address parser makes of its content, and a request carries the
  listed ranges that hold its source.
- Regular expressions and Unicode: character classes are written out, lower-casing is ASCII, and strings are
  sequences of code points, whose order is that of their UTF-8 bytes.
- The HTML and JSON escapers and the file kinds that choose among the four.
- Health hostnames, classes, private entry, sign-in rows and company stacks: queries and checks without a property
  that spans functions.
- FilterText.LexQuote: `Quote` escapes quotes and backslashes and leaves every other character as it is, where Go's `%q`
  also escapes unprintable characters. The host validators let a tab through, and how the filter language reads such an
  escape is not part of this model.
- ConfigChecks.ValidateRegistry: the checks of the blocks named above are the Boolean fields.
- EcrToken.EcrTokenSource.Get: the lock makes each call one step, so a run is a sequence of calls; waiting for the lock
  is not modelled. `now` is the instant the call starts, as in the code; how long a fetch takes is a parameter of
  `EcrToken.LiveAtReturn` alone. A token's life is not cut off at the largest duration Go can hold (about 292 years).
- HostFilter.HostExpressionMeaning: asks for a list without the bare `*`, which every validator of these lists refuses.
- CachePartition.Partition: asks for contributions as the builders make them; a contribution with rules and no claim is the
  contributor's own decision and is not excluded from the bypass.
