/** The registry (cloudflare/config/config.go): accounts, zones and the tunnels between them, and what Validate asks. */
module ConfigModel {
  import opened Text
  import opened ZoneRecords
  import CatalogModel
  import D = Derivation
  import Routing
  import Sorting
  import Zones

  datatype Rotations = Rotations(edge: string, status: string, r2Admin: string, r2Parent: string)

  datatype Account = Account(accountID: string, legacyNames: bool, root: Option<Rotations>, company: string)

  /**
   `waf` is the managed_waf block (its enabled flag), `cache` whether there is a cache block, `bare` says that no other
   block is set, and `blocksOk` that the blocks not modelled here pass their own checks, which read nothing but the
   zone.
   */
  datatype Zone = Zone(
    account: string, zoneID: string, manage: string, pending: bool, sslMode: string, records: seq<Record>,
    origins: map<string, string>, cache: bool, cacheHosts: seq<string>, waf: Option<bool>, wafHosts: seq<string>,
    securityTxt: bool, bare: bool, blocksOk: bool)

  datatype Bucket = Bucket(enabled: bool, account: string, bucket: string, settingsOk: bool)

  datatype Tunnel = Tunnel(
    cluster: string, account: string, legacyNames: bool, zone: string, zones: seq<string>,
    hosts: seq<string>, dnsElsewhere: seq<string>)

  datatype Registry = Registry(
    accounts: map<string, Account>, zones: map<string, Zone>, service: string, namespace: string,
    tunnels: seq<Tunnel>, r2: map<string, Bucket>, root: Rotations)

  // ---------------------------------------------------------------------------
  // Accounts, zones and buckets
  // ---------------------------------------------------------------------------

  predicate LowerLetter(c: char) {
    'a' <= c <= 'z'
  }

  predicate NameByte(c: char) {
    LowerLetter(c) || '0' <= c <= '9' || c == '-'
  }

  /** objectName: 2 to 32 characters, a letter first, no dash last. */
  predicate ObjectName(s: string) {
    && 2 <= |s| <= 32 && LowerLetter(s[0]) && s[|s| - 1] != '-'
    && forall i :: 0 <= i < |s| ==> NameByte(s[i])
  }

  predicate CompanyName(s: string) {
    s != [] && LowerLetter(s[0]) && forall i :: 0 <= i < |s| ==> NameByte(s[i])
  }

  predicate AccountOk(name: string, a: Account) {
    && ObjectName(name) && a.accountID != "" && !(a.legacyNames && a.root.Some?)
    && (a.company != "" ==> CompanyName(a.company))
  }

  predicate SecurityTxtOnly(z: Zone) {
    z.manage == "security_txt"
  }

  /** A known mode; the security.txt mode allows no other block. */
  predicate ManageOk(z: Zone) {
    if z.manage == "" || z.manage == "full" then true
    else
      && SecurityTxtOnly(z) && z.account != "" && z.zoneID != "" && z.securityTxt
      && !z.pending && z.sslMode == "" && z.records == [] && z.origins == map[] && !z.cache && z.waf.None? && z.bare
  }

  predicate OriginKeyOk(zone: string, host: string) {
    IsLower(host) && NoneOf(host, "*/:\" ") && HasSuffix(host, "." + zone)
  }

  ghost predicate EdgeOk(name: string, z: Zone) {
    RecordsOk(name, z.records) && forall h :: h in z.origins ==> OriginKeyOk(name, h)
  }

  ghost predicate ZoneOk(accounts: map<string, Account>, name: string, z: Zone) {
    && IsLower(name) && '.' in name && '*' !in name
    && z.account in accounts && ManageOk(z) && z.blocksOk
    && (!SecurityTxtOnly(z) ==>
          && (z.pending ==> z.zoneID == "" && !accounts[z.account].legacyNames)
          && (!z.pending ==> z.zoneID != "")
          && z.sslMode in ["full", "strict"]
          && EdgeOk(name, z))
  }

  predicate BucketOk(accounts: map<string, Account>, name: string, b: Bucket) {
    ObjectName(name) && (b.enabled ==> b.account in accounts && b.bucket != "" && b.settingsOk)
  }

  ghost predicate OneLegacy(accounts: map<string, Account>) {
    forall a, b :: a in accounts && b in accounts && accounts[a].legacyNames && accounts[b].legacyNames ==> a == b
  }

  /** Everything authored in the file. */
  ghost predicate RegistryOk(r: Registry) {
    && r.accounts != map[] && (forall n :: n in r.accounts ==> AccountOk(n, r.accounts[n])) && OneLegacy(r.accounts)
    && r.zones != map[] && (forall n :: n in r.zones ==> ZoneOk(r.accounts, n, r.zones[n]))
    && r.service != "" && r.namespace != ""
    && forall n :: n in r.r2 ==> BucketOk(r.accounts, n, r.r2[n])
  }

  // ---------------------------------------------------------------------------
  // Tunnels
  // ---------------------------------------------------------------------------

  function InZones(t: Tunnel): seq<string> {
    if t.zones != [] then t.zones else [t.zone]
  }

  predicate CarriesIn(t: Tunnel, zone: string, host: string) {
    host in t.hosts && Zones.ZoneOf(InZones(t), host) == zone
  }

  predicate OwnsRecord(t: Tunnel, zone: string, host: string) {
    CarriesIn(t, zone, host) && host !in t.dnsElsewhere
  }

  /** The tunnel's name in Cloudflare. */
  function TunnelName(t: Tunnel): string {
    D.TunnelName(t.cluster, t.account, t.legacyNames)
  }

  /** The name of the release that serves the tunnel on its cluster. */
  function Release(t: Tunnel): string {
    D.Suffixed("cloudflared", t.account, t.legacyNames)
  }

  /** The secret on the cluster that holds the tunnel's token. */
  function SecretName(t: Tunnel): string {
    Release(t) + "-tunnel-token"
  }

  /** The zones managed beyond their security.txt. */
  function ManagedZones(zones: map<string, Zone>): set<string> {
    set n | n in zones && !SecurityTxtOnly(zones[n])
  }

  function ZoneOf(r: Registry, host: string): string {
    Zones.ZoneOf(Sorting.SortedKeys(ManagedZones(r.zones)), host)
  }

  predicate TunnelOk(r: Registry, t: Tunnel) {
    && t.account in r.accounts && t.legacyNames == r.accounts[t.account].legacyNames
    && t.zone in InZones(t)
    && (forall n :: n in InZones(t) ==> n in r.zones && r.zones[n].account == t.account)
    && t.hosts != []
    && forall i :: 0 <= i < |t.hosts| ==> CatalogModel.HasText(t.hosts[i]) && ZoneOf(r, t.hosts[i]) in InZones(t)
  }

  function SiteOf(t: Tunnel): string {
    t.cluster + "/" + t.account
  }

  function Sites(ts: seq<Tunnel>): (keys: seq<string>)
    ensures |keys| == |ts| && forall i :: 0 <= i < |keys| ==> keys[i] == SiteOf(ts[i])
  {
    seq(|ts|, i requires 0 <= i < |ts| => SiteOf(ts[i]))
  }

  function Routed(t: Tunnel): D.Tunnel {
    D.Tunnel("", t.cluster, t.account, "", [], t.hosts, [])
  }

  function AllRouted(ts: seq<Tunnel>): (rs: seq<D.Tunnel>)
    ensures |rs| == |ts| && forall i :: 0 <= i < |rs| ==> rs[i] == Routed(ts[i])
  {
    seq(|ts|, i requires 0 <= i < |ts| => Routed(ts[i]))
  }

  predicate SomeOwner(ts: seq<Tunnel>, zone: string, host: string) {
    exists i :: 0 <= i < |ts| && OwnsRecord(ts[i], zone, host)
  }

  ghost predicate ZoneOriginsOk(ts: seq<Tunnel>, name: string, z: Zone) {
    forall h :: h in z.origins ==> SomeOwner(ts, name, h)
  }

  ghost predicate ZoneRecordsFree(ts: seq<Tunnel>, name: string, z: Zone) {
    forall i :: 0 <= i < |z.records| ==> !SomeOwner(ts, name, z.records[i].name)
  }

  /** Every origin switch moves a record some tunnel writes. */
  ghost predicate OriginsOk(r: Registry) {
    forall n :: n in r.zones ==> ZoneOriginsOk(r.tunnels, n, r.zones[n])
  }

  /** No declared record lies on a name a tunnel writes. */
  ghost predicate RecordsFree(r: Registry) {
    forall n :: n in r.zones ==> ZoneRecordsFree(r.tunnels, n, r.zones[n])
  }

  /** What Validate accepts. */
  ghost predicate Valid(r: Registry) {
    && RegistryOk(r)
    && r.tunnels != [] && Sorting.Distinct(Sites(r.tunnels)) && (forall t :: t in r.tunnels ==> TunnelOk(r, t))
    && OriginsOk(r) && RecordsFree(r)
    && Routing.RoutingOk(AllRouted(r.tunnels))
  }
}
