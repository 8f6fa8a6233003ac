/** The table of credential presets (cloudflare/presets/presets.go): what each row's credential may do. */
module Presets {
  import opened Text
  import opened Sorting

  datatype Account = Account(name: string, id: string)

  datatype Zone = Zone(name: string, id: string, account: string, txtOnly: bool)

  datatype Registry = Registry(accounts: seq<Account>, zones: seq<Zone>)

  datatype Kind =
    ZoneKind | Services | Status | Dns | Insights | InsightsAdmin | R2Admin | BucketRW | BucketWrite | NoKind

  datatype Store = Unset | Nowhere | External | OtherStore

  /** One preset as an estate states it; durations are in nanoseconds. */
  datatype Row = Row(
    name: string, kind: Kind, account: string, zones: seq<string>, wafZones: seq<string>, botZones: seq<string>,
    connectorZones: seq<string>, dnsOnlyZones: seq<string>, bucket: string, jurisdiction: string,
    grants: seq<string>, lifetime: int, rotation: int, store: Store)

  datatype Scope = WholeAccount | ZoneScope(id: string) | BucketScope(jurisdiction: string, bucket: string)

  datatype Policy = Policy(groups: seq<string>, scope: Scope)

  datatype Preset = Preset(
    name: string, kind: Kind, account: string, accountID: string, policies: seq<Policy>, r2: bool,
    lifetime: int, rotation: int, store: Store, grants: seq<string>)

  const DEFAULT_LIFETIME := 3600 * 1_000_000_000

  // ---------------------------------------------------------------------------
  // Names
  // ---------------------------------------------------------------------------

  predicate Hex32(s: string) {
    |s| == 32 && forall i :: 0 <= i < |s| ==> '0' <= s[i] <= '9' || 'a' <= s[i] <= 'f'
  }

  predicate LowerOrDigit(c: char) {
    'a' <= c <= 'z' || '0' <= c <= '9'
  }

  predicate PresetName(s: string) {
    1 <= |s| <= 63 && LowerOrDigit(s[0]) && forall i :: 0 <= i < |s| ==> LowerOrDigit(s[i]) || s[i] == '-'
  }

  predicate BucketName(s: string) {
    && 3 <= |s| <= 63 && s[0] != '-' && s[|s| - 1] != '-'
    && forall i :: 0 <= i < |s| ==> LowerOrDigit(s[i]) || s[i] == '-'
  }

  predicate JurisdictionOk(s: string) {
    s in ["", "default", "eu", "fedramp", "us"]
  }

  predicate GrantChar(c: char) {
    LowerOrDigit(c) || 'A' <= c <= 'Z'
  }

  predicate GrantName(s: string) {
    s != "" && GrantChar(s[0]) && forall i :: 0 <= i < |s| ==> GrantChar(s[i]) || s[i] in ":._-"
  }

  // ---------------------------------------------------------------------------
  // Lookups
  // ---------------------------------------------------------------------------

  predicate Known(reg: Registry, account: string) {
    exists i :: 0 <= i < |reg.accounts| && reg.accounts[i].name == account
  }

  function AccountID(accounts: seq<Account>, name: string): string {
    if accounts == [] then "" else if accounts[0].name == name then accounts[0].id else AccountID(accounts[1..], name)
  }

  /** The first zone of that name, or an empty one. */
  function ZoneNamed(zones: seq<Zone>, name: string): Zone {
    if zones == [] then Zone("", "", "", false) else if zones[0].name == name then zones[0]
      else ZoneNamed(zones[1..], name)
  }

  predicate ByName(a: Zone, b: Zone) {
    StringLeq(a.name, b.name)
  }

  function OfAccount(zones: seq<Zone>, account: string): seq<Zone> {
    if zones == [] then []
    else
      var front, z := OfAccount(zones[..|zones| - 1], account), zones[|zones| - 1];
      if z.account == account then front + [z] else front
  }

  /** The zones of an account by name. */
  function ZonesOf(reg: Registry, account: string): seq<Zone> {
    Sort(ByName, OfAccount(reg.zones, account))
  }

  function Kept(zones: seq<Zone>, txtOnly: bool): seq<Zone> {
    if zones == [] then []
    else
      var front, z := Kept(zones[..|zones| - 1], txtOnly), zones[|zones| - 1];
      if z.txtOnly == txtOnly then front + [z] else front
  }

  function AllNamed(reg: Registry, names: seq<string>): (r: seq<Zone>)
    ensures |r| == |names| && forall i :: 0 <= i < |r| ==> r[i] == ZoneNamed(reg.zones, names[i])
  {
    seq(|names|, i requires 0 <= i < |names| => ZoneNamed(reg.zones, names[i]))
  }

  /** The zones a row covers: those it lists, else every zone of its account. */
  function RowZones(reg: Registry, row: Row): seq<Zone> {
    if row.zones != [] then AllNamed(reg, row.zones) else ZonesOf(reg, row.account)
  }

  function Ids(zones: seq<Zone>): (r: seq<string>)
    ensures |r| == |zones| && forall i :: 0 <= i < |r| ==> r[i] == zones[i].id
  {
    seq(|zones|, i requires 0 <= i < |zones| => zones[i].id)
  }

  // ---------------------------------------------------------------------------
  // Rows
  // ---------------------------------------------------------------------------

  predicate Zoned(k: Kind) {
    k in [ZoneKind, Services, Status, Dns, Insights, InsightsAdmin]
  }

  predicate WritesDns(k: Kind) {
    k in [Services, Status, Dns]
  }

  predicate Bucketed(k: Kind) {
    k == BucketRW || k == BucketWrite
  }

  predicate InAccount(reg: Registry, account: string, name: string) {
    exists i :: 0 <= i < |reg.zones| && reg.zones[i].account == account && reg.zones[i].name == name
  }

  /** Which zones a list may name: any, only those the row covers, or only those it does not. */
  datatype Allowed = Any | OnlyCovered | OnlyUncovered

  predicate Allows(row: Row, allowed: Allowed, name: string) {
    match allowed
    case Any => true
    case OnlyCovered => row.zones == [] || name in row.zones
    case OnlyUncovered => row.zones != [] && name !in row.zones
  }

  ghost predicate ListOk(reg: Registry, row: Row, names: seq<string>, allowed: Allowed) {
    Distinct(names) && forall n :: n in names ==> InAccount(reg, row.account, n) && Allows(row, allowed, n)
  }

  ghost predicate NoneTxtOnly(reg: Registry, names: seq<string>) {
    forall n :: n in names ==> !ZoneNamed(reg.zones, n).txtOnly
  }

  ghost predicate ZonesListed(reg: Registry, row: Row) {
    && (!Zoned(row.kind) ==> row.zones == [])
    && (Zoned(row.kind) ==>
      ListOk(reg, row, row.zones, Any) && (row.zones == [] ==> OfAccount(reg.zones, row.account) != []))
    && (WritesDns(row.kind) ==>
          NoneTxtOnly(reg, row.zones) && (row.zones == [] ==> Kept(OfAccount(reg.zones, row.account), false) != []))
  }

  ghost predicate AddOnsOk(reg: Registry, row: Row) {
    if row.kind.ZoneKind? then
      && ListOk(reg, row, row.wafZones, OnlyCovered) && ListOk(reg, row, row.botZones, OnlyCovered)
      && ListOk(reg, row, row.connectorZones, Any) && ListOk(reg, row, row.dnsOnlyZones, OnlyUncovered)
      && NoneTxtOnly(reg, row.wafZones) && NoneTxtOnly(reg, row.botZones)
      && NoneTxtOnly(reg, row.connectorZones) && NoneTxtOnly(reg, row.dnsOnlyZones)
    else row.wafZones == [] && row.botZones == [] && row.connectorZones == [] && row.dnsOnlyZones == []
  }

  function Lifetime(row: Row): int {
    if row.lifetime > 0 then row.lifetime else DEFAULT_LIFETIME
  }

  predicate CredentialOk(row: Row) {
    && (if Bucketed(row.kind) then BucketName(row.bucket) && JurisdictionOk(row.jurisdiction)
        else row.bucket == "" && row.jurisdiction == "")
    && (forall i :: 0 <= i < |row.grants| ==> GrantName(row.grants[i]))
    && row.lifetime >= 0
    && match row.store
       case Unset => row.rotation == 0
       case Nowhere => row.rotation == 0
       case External => 0 < row.rotation < Lifetime(row)
       case OtherStore => false
  }

  ghost predicate RowOk(reg: Registry, row: Row) {
    && PresetName(row.name) && !row.kind.NoKind? && Known(reg, row.account)
    && ZonesListed(reg, row) && AddOnsOk(reg, row) && CredentialOk(row)
  }

  function AccountNames(accounts: seq<Account>): (r: seq<string>)
    ensures |r| == |accounts| && forall i :: 0 <= i < |r| ==> r[i] == accounts[i].name
  {
    seq(|accounts|, i requires 0 <= i < |accounts| => accounts[i].name)
  }

  function ZoneNames(zones: seq<Zone>): (r: seq<string>)
    ensures |r| == |zones| && forall i :: 0 <= i < |r| ==> r[i] == zones[i].name
  {
    seq(|zones|, i requires 0 <= i < |zones| => zones[i].name)
  }

  function RowNames(rows: seq<Row>): (r: seq<string>)
    ensures |r| == |rows| && forall i :: 0 <= i < |r| ==> r[i] == rows[i].name
  {
    seq(|rows|, i requires 0 <= i < |rows| => rows[i].name)
  }

  ghost predicate RegistryOk(reg: Registry) {
    && (forall a :: a in reg.accounts ==> a.name != "" && Hex32(a.id)) && Distinct(AccountNames(reg.accounts))
    && (forall z :: z in reg.zones ==> z.name != "" && Known(reg, z.account)) && Distinct(ZoneNames(reg.zones))
  }

  ghost predicate RowsOk(reg: Registry, rows: seq<Row>) {
    RegistryOk(reg) && Distinct(RowNames(rows)) && forall r :: r in rows ==> RowOk(reg, r)
  }

  // ---------------------------------------------------------------------------
  // Policies
  // ---------------------------------------------------------------------------

  const ZONE_GROUPS :=
    ["DNS Write", "SSL and Certificates Write", "Zone Settings Write", "Cache Settings Write", "Config Settings Write"]
  const DNS_WRITE := ["DNS Write"]
  const SETTINGS_WRITE := ["Zone Settings Write"]

  /** One policy for each zone id, in order. */
  function OnZones(groups: seq<string>, ids: seq<string>): (r: seq<Policy>)
    ensures |r| == |ids| && forall i :: 0 <= i < |r| ==> r[i] == Policy(groups, ZoneScope(ids[i]))
  {
    seq(|ids|, i requires 0 <= i < |ids| => Policy(groups, ZoneScope(ids[i])))
  }

  function NamedIds(reg: Registry, names: seq<string>): seq<string> {
    Ids(AllNamed(reg, names))
  }

  function PoliciesFor(reg: Registry, row: Row): seq<Policy> {
    var zones := RowZones(reg, row);
    var managed := Ids(Kept(zones, false));
    match row.kind
    case ZoneKind =>
      OnZones(ZONE_GROUPS, managed) + OnZones(["Zone WAF Write"], NamedIds(reg, row.wafZones))
      + OnZones(["Bot Management Write"], NamedIds(reg, row.botZones))
      + OnZones(["Cloud Connector Write"], NamedIds(reg, row.connectorZones))
      + OnZones(DNS_WRITE, NamedIds(reg, row.dnsOnlyZones)) + OnZones(SETTINGS_WRITE, Ids(Kept(zones, true)))
    case Services => [Policy(["Cloudflare Tunnel Write"], WholeAccount)] + OnZones(DNS_WRITE, managed)
    case Status => [Policy(["Cloudflare Tunnel Write"], WholeAccount)] + OnZones(DNS_WRITE, managed)
    case Dns => OnZones(DNS_WRITE, managed)
    case Insights =>
      [Policy(["Account Security Center Insights Read"], WholeAccount)]
      + OnZones(["Zone Security Center Insights Read", "Bot Management Read", "Analytics Read", "Zone WAF Read"],
        Ids(zones))
    case InsightsAdmin =>
      [Policy(["Account Security Center Insights Write", "Account Security Center Insights Read"], WholeAccount)]
      + OnZones(["Zone Security Center Insights Write", "Zone Security Center Insights Read"], Ids(zones))
    case R2Admin => [Policy(["Workers R2 Storage Write"], WholeAccount)]
    case BucketRW =>
      [Policy(["Workers R2 Storage Bucket Item Read", "Workers R2 Storage Bucket Item Write"],
        BucketScope(row.jurisdiction, row.bucket))]
    case BucketWrite => [Policy(["Workers R2 Storage Bucket Item Write"], BucketScope(row.jurisdiction, row.bucket))]
    case NoKind => []
  }

  const TOKEN_GROUPS := ["Account API Tokens Read", "Account API Tokens Write"]

  predicate ScopeOk(s: Scope) {
    match s
    case WholeAccount => true
    case ZoneScope(id) => Hex32(id)
    case BucketScope(j, b) => BucketName(b) && JurisdictionOk(j)
  }

  predicate PolicyOk(p: Policy) {
    p.groups != [] && (forall i :: 0 <= i < |p.groups| ==> p.groups[i] != "" && p.groups[i] !in TOKEN_GROUPS)
      && ScopeOk(p.scope)
  }

  predicate TokenOk(policies: seq<Policy>) {
    policies != [] && forall i :: 0 <= i < |policies| ==> PolicyOk(policies[i])
  }

  predicate Pending(reg: Registry, account: string) {
    exists i :: 0 <= i < |reg.zones| && reg.zones[i].account == account && reg.zones[i].id == ""
  }

  predicate Buildable(reg: Registry, row: Row) {
    !Pending(reg, row.account) && TokenOk(PoliciesFor(reg, row))
  }

  function PresetOf(reg: Registry, row: Row): Preset {
    Preset(row.name, row.kind, row.account, AccountID(reg.accounts, row.account), PoliciesFor(reg, row),
           Bucketed(row.kind), Lifetime(row), row.rotation, if row.store.Unset? then Nowhere else row.store, row.grants)
  }

  function PresetsOf(reg: Registry, rows: seq<Row>): (r: seq<Preset>)
    ensures |r| == |rows| && forall i :: 0 <= i < |r| ==> r[i] == PresetOf(reg, rows[i])
  {
    seq(|rows|, i requires 0 <= i < |rows| => PresetOf(reg, rows[i]))
  }

  ghost predicate Accepted(reg: Registry, rows: seq<Row>) {
    RowsOk(reg, rows) && forall r :: r in rows ==> Buildable(reg, r)
  }

  function RowsOf(rows: seq<Row>, account: string): seq<Row> {
    if rows == [] then []
    else
      var front, r := RowsOf(rows[..|rows| - 1], account), rows[|rows| - 1];
      if r.account == account then front + [r] else front
  }

  function ReadyRows(reg: Registry, rows: seq<Row>): seq<Row> {
    if rows == [] then []
    else
      var front, r := ReadyRows(reg, rows[..|rows| - 1]), rows[|rows| - 1];
      if Pending(reg, r.account) then front else front + [r]
  }

  /** What ForAccount answers: its own rows' presets, when they can be built. */
  ghost function AccountPresets(reg: Registry, rows: seq<Row>, account: string): Option<seq<Preset>> {
    if Known(reg, account) && !Pending(reg, account) && Accepted(reg, RowsOf(rows, account))
    then Some(PresetsOf(reg, RowsOf(rows, account))) else None
  }
}
