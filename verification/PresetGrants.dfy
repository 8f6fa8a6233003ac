/**
 Everything a row's credential may do (`build`, cloudflare/presets/presets.go), read off the row and the registry alone.
 */
module PresetGrants {
  import opened Text
  import opened Sorting
  import opened Presets
  import PresetBuild
  import PresetFacts

  /** The row lists the zone, or lists none. */
  predicate Covers(row: Row, z: Zone) {
    row.zones == [] || z.name in row.zones
  }

  /** What a row grants on a zone of its account. */
  predicate ZoneGrant(row: Row, z: Zone, groups: seq<string>) {
    match row.kind
    case ZoneKind =>
      || (Covers(row, z) && !z.txtOnly && groups ==
           ["DNS Write", "SSL and Certificates Write", "Zone Settings Write", "Cache Settings Write",
            "Config Settings Write"])
      || (Covers(row, z) && z.txtOnly && groups == ["Zone Settings Write"])
      || (z.name in row.wafZones && groups == ["Zone WAF Write"])
      || (z.name in row.botZones && groups == ["Bot Management Write"])
      || (z.name in row.connectorZones && groups == ["Cloud Connector Write"])
      || (z.name in row.dnsOnlyZones && groups == ["DNS Write"])
    case Services => Covers(row, z) && !z.txtOnly && groups == ["DNS Write"]
    case Status => Covers(row, z) && !z.txtOnly && groups == ["DNS Write"]
    case Dns => Covers(row, z) && !z.txtOnly && groups == ["DNS Write"]
    case Insights =>
      Covers(row, z) && groups ==
        ["Zone Security Center Insights Read", "Bot Management Read", "Analytics Read", "Zone WAF Read"]
    case InsightsAdmin =>
      Covers(row, z) && groups == ["Zone Security Center Insights Write", "Zone Security Center Insights Read"]
    case _ => false
  }

  /** What a row grants on its whole account. */
  predicate AccountGrant(kind: Kind, groups: seq<string>) {
    match kind
    case Services => groups == ["Cloudflare Tunnel Write"]
    case Status => groups == ["Cloudflare Tunnel Write"]
    case Insights => groups == ["Account Security Center Insights Read"]
    case InsightsAdmin => groups == ["Account Security Center Insights Write", "Account Security Center Insights Read"]
    case R2Admin => groups == ["Workers R2 Storage Write"]
    case _ => false
  }

  /** What a row grants on its bucket. */
  predicate BucketGrant(kind: Kind, groups: seq<string>) {
    match kind
    case BucketRW => groups == ["Workers R2 Storage Bucket Item Read", "Workers R2 Storage Bucket Item Write"]
    case BucketWrite => groups == ["Workers R2 Storage Bucket Item Write"]
    case _ => false
  }

  lemma NoZonePolicy(groups: seq<string>, zones: seq<Zone>, p: Policy)
    requires !p.scope.ZoneScope?
    ensures p !in OnZones(groups, Ids(zones))
  {
    PresetFacts.FromZones(groups, zones, p);
  }

  /**
   Beyond zones a row grants its account or a bucket exactly what its kind says, and never a bucket but its own.
   */
  lemma WiderGrants(reg: Registry, row: Row, p: Policy)
    requires !p.scope.ZoneScope?
    ensures p in PoliciesFor(reg, row) <==>
      || (p.scope == WholeAccount && AccountGrant(row.kind, p.groups))
      || (p.scope == BucketScope(row.jurisdiction, row.bucket) && BucketGrant(row.kind, p.groups))
  {
    var zones := RowZones(reg, row);
    NoZonePolicy(ZONE_GROUPS, Kept(zones, false), p);
    NoZonePolicy(["Zone WAF Write"], AllNamed(reg, row.wafZones), p);
    NoZonePolicy(["Bot Management Write"], AllNamed(reg, row.botZones), p);
    NoZonePolicy(["Cloud Connector Write"], AllNamed(reg, row.connectorZones), p);
    NoZonePolicy(DNS_WRITE, AllNamed(reg, row.dnsOnlyZones), p);
    NoZonePolicy(SETTINGS_WRITE, Kept(zones, true), p);
    NoZonePolicy(DNS_WRITE, Kept(zones, false), p);
    NoZonePolicy(["Zone Security Center Insights Read", "Bot Management Read", "Analytics Read", "Zone WAF Read"],
      zones, p);
    NoZonePolicy(["Zone Security Center Insights Write", "Zone Security Center Insights Read"], zones, p);
    hide OnZones, Ids, Kept, AllNamed, RowZones;
  }

  /** A bucket row has one policy, on its own bucket; a write-only row may read nothing. */
  lemma BucketRowAlone(reg: Registry, row: Row)
    requires row.kind.BucketRW? || row.kind.BucketWrite?
    ensures |PoliciesFor(reg, row)| == 1
    ensures PoliciesFor(reg, row)[0].scope == BucketScope(row.jurisdiction, row.bucket)
    ensures row.kind.BucketWrite? ==> forall g :: g in PoliciesFor(reg, row)[0].groups ==> HasSuffix(g, " Write")
  {
    assert "Workers R2 Storage Bucket Item Write"[30..] == " Write";
    hide RowZones, Kept, Ids;
  }

  // ---------------------------------------------------------------------------
  // Zones
  // ---------------------------------------------------------------------------

  /** A list of names stands for the account's zones of these names. */
  lemma NamedAre(reg: Registry, row: Row, names: seq<string>, allowed: Allowed, z: Zone)
    requires RegistryOk(reg) && ListOk(reg, row, names, allowed)
    ensures z in AllNamed(reg, names) <==> z in reg.zones && z.account == row.account && z.name in names
  {
    hide Known, Hex32, Allows;
    if z in AllNamed(reg, names) {
      var i :| 0 <= i < |names| && AllNamed(reg, names)[i] == z;
      NamedHasName(reg, row.account, names[i]);
    }
    if z in reg.zones && z.name in names {
      var i :| 0 <= i < |names| && names[i] == z.name;
      var k :| 0 <= k < |reg.zones| && reg.zones[k] == z;
      PresetFacts.NamedIsFound(reg.zones, z.name, k);
      assert AllNamed(reg, names)[i] == z;
    }
  }

  lemma NamedHasName(reg: Registry, account: string, name: string)
    requires Distinct(ZoneNames(reg.zones)) && InAccount(reg, account, name)
    ensures var z := ZoneNamed(reg.zones, name); z in reg.zones && z.account == account && z.name == name
  {
    var i :| 0 <= i < |reg.zones| && reg.zones[i].account == account && reg.zones[i].name == name;
    PresetFacts.NamedIsFound(reg.zones, name, i);
  }

  /** The zones a row covers. */
  lemma CoveredAre(reg: Registry, row: Row, z: Zone)
    requires RegistryOk(reg) && RowOk(reg, row) && Zoned(row.kind)
    ensures z in RowZones(reg, row) <==> z in reg.zones && z.account == row.account && Covers(row, z)
  {
    if row.zones != [] {
      NamedAre(reg, row, row.zones, Any, z);
    } else {
      PresetBuild.ZonesOfMembers(reg, row.account);
    }
  }

  /** The zone lists of a row, zone by zone. */
  lemma ListsAre(reg: Registry, row: Row, z: Zone)
    requires RegistryOk(reg) && RowOk(reg, row)
    ensures Zoned(row.kind) ==> forall txtOnly :: z in Kept(RowZones(reg, row), txtOnly) <==>
      z in reg.zones && z.account == row.account && Covers(row, z) && z.txtOnly == txtOnly
    ensures Zoned(row.kind) ==>
      (z in RowZones(reg, row) <==> z in reg.zones && z.account == row.account && Covers(row, z))
    ensures row.kind.ZoneKind? ==> forall names ::
      names in [row.wafZones, row.botZones, row.connectorZones, row.dnsOnlyZones] ==>
      (z in AllNamed(reg, names) <==> z in reg.zones && z.account == row.account && z.name in names)
  {
    if Zoned(row.kind) {
      CoveredAre(reg, row, z);
      PresetBuild.KeptMembers(RowZones(reg, row), true);
      PresetBuild.KeptMembers(RowZones(reg, row), false);
    }
    if row.kind.ZoneKind? {
      NamedAre(reg, row, row.wafZones, OnlyCovered, z);
      NamedAre(reg, row, row.botZones, OnlyCovered, z);
      NamedAre(reg, row, row.connectorZones, Any, z);
      NamedAre(reg, row, row.dnsOnlyZones, OnlyUncovered, z);
    }
  }

  /** The account has a zone of that id on which the row grants the groups. */
  ghost predicate GrantsOn(reg: Registry, row: Row, groups: seq<string>, id: string) {
    exists z :: z in reg.zones && z.account == row.account && z.id == id && ZoneGrant(row, z, groups)
  }

  /** The list that a grant on a zone id comes from. */
  ghost function GrantList(reg: Registry, row: Row, groups: seq<string>, id: string): seq<Zone> {
    var zones := RowZones(reg, row);
    match row.kind
    case ZoneKind =>
      if groups == ZONE_GROUPS && PresetFacts.HasId(Kept(zones, false), id) then Kept(zones, false)
      else if groups == ["Zone WAF Write"] && PresetFacts.HasId(AllNamed(reg, row.wafZones), id)
        then AllNamed(reg, row.wafZones)
      else if groups == ["Bot Management Write"] && PresetFacts.HasId(AllNamed(reg, row.botZones), id)
        then AllNamed(reg, row.botZones)
      else if groups == ["Cloud Connector Write"] && PresetFacts.HasId(AllNamed(reg, row.connectorZones), id)
        then AllNamed(reg, row.connectorZones)
      else if groups == DNS_WRITE && PresetFacts.HasId(AllNamed(reg, row.dnsOnlyZones), id)
        then AllNamed(reg, row.dnsOnlyZones)
      else Kept(zones, true)
    case Insights => zones
    case InsightsAdmin => zones
    case _ => Kept(zones, false)
  }

  lemma GrantFound(reg: Registry, row: Row, groups: seq<string>, id: string)
    requires RegistryOk(reg) && RowOk(reg, row) && PresetFacts.Grants(reg, row, groups, id)
    ensures GrantsOn(reg, row, groups, id)
  {
    var list := GrantList(reg, row, groups, id);
    assert PresetFacts.HasId(list, id) by {
      hide RegistryOk, RowOk, PresetFacts.HasId;
    }
    var z :| z in list && z.id == id;
    GrantOfMember(reg, row, groups, id, z);
  }

  lemma GrantOfMember(reg: Registry, row: Row, groups: seq<string>, id: string, z: Zone)
    requires RegistryOk(reg) && RowOk(reg, row) && PresetFacts.Grants(reg, row, groups, id)
    requires z in GrantList(reg, row, groups, id)
    ensures z in reg.zones && z.account == row.account && ZoneGrant(row, z, groups)
  {
    ListsAre(reg, row, z);
    hide RegistryOk, RowOk, RowZones, Kept, AllNamed, PresetFacts.HasId;
  }

  lemma GrantHeld(reg: Registry, row: Row, groups: seq<string>, z: Zone)
    requires RegistryOk(reg) && RowOk(reg, row) && z in reg.zones && z.account == row.account
    requires ZoneGrant(row, z, groups)
    ensures PresetFacts.Grants(reg, row, groups, z.id)
  {
    ListsAre(reg, row, z);
    HasMember(z);
    hide RegistryOk, RowOk, RowZones, Kept, AllNamed, PresetFacts.HasId;
  }

  lemma HasMember(z: Zone)
    ensures forall zones :: z in zones ==> PresetFacts.HasId(zones, z.id)
  {
  }

  /** On zone ids a valid row grants exactly what its kind and lists say about the account's zones of that id. */
  lemma ZoneGrants(reg: Registry, row: Row, groups: seq<string>, id: string)
    requires RegistryOk(reg) && RowOk(reg, row)
    ensures Policy(groups, ZoneScope(id)) in PoliciesFor(reg, row) <==> GrantsOn(reg, row, groups, id)
  {
    hide RegistryOk, RowOk, PoliciesFor, ZoneGrant;
    PresetFacts.GrantsAre(reg, row, groups, id);
    hide PresetFacts.Grants;
    if PresetFacts.Grants(reg, row, groups, id) {
      GrantFound(reg, row, groups, id);
    }
    if GrantsOn(reg, row, groups, id) {
      var z :| z in reg.zones && z.account == row.account && z.id == id && ZoneGrant(row, z, groups);
      GrantHeld(reg, row, groups, z);
    }
  }

  // ---------------------------------------------------------------------------
  // The rest of a preset
  // ---------------------------------------------------------------------------

  lemma {:induction false} AccountFound(accounts: seq<Account>, name: string, i: nat)
    requires i < |accounts| && accounts[i].name == name
    ensures exists a :: a in accounts && a.name == name && a.id == AccountID(accounts, name)
  {
    if accounts[0].name == name {
      assert accounts[0] in accounts;
    } else {
      AccountFound(accounts[1..], name, i - 1);
    }
  }

  /**
   The preset of a valid row names the row, its account and that account's id; it lives as long as the row says, an hour
   by default, and asks for an R2 credential exactly for a bucket row.
   */
  lemma PresetFields(reg: Registry, row: Row)
    requires RegistryOk(reg) && RowOk(reg, row)
    ensures var p := PresetOf(reg, row);
      && p.name == row.name && p.kind == row.kind && p.account == row.account && p.grants == row.grants
      && (exists a :: a in reg.accounts && a.name == row.account && a.id == p.accountID)
      && p.policies == PoliciesFor(reg, row)
      && (p.r2 <==> row.kind.BucketRW? || row.kind.BucketWrite?)
      && p.lifetime == (if row.lifetime == 0 then 60 * 60 * 1_000_000_000 else row.lifetime)
      && p.rotation == row.rotation && (p.store.External? ==> 0 < p.rotation < p.lifetime)
      && p.store == (if row.store.External? then External else Nowhere)
  {
    assert Known(reg, row.account);
    var i :| 0 <= i < |reg.accounts| && reg.accounts[i].name == row.account;
    AccountFound(reg.accounts, row.account, i);
    hide RegistryOk, PoliciesFor, ZonesListed, AddOnsOk, PresetName;
  }
}
