/** What a preset's credential can never do (cloudflare/presets/presets.go). */
module PresetFacts {
  import opened Text
  import opened Sorting
  import opened Presets
  import opened PresetBuild

  // ---------------------------------------------------------------------------
  // Where the policies of a row come from
  // ---------------------------------------------------------------------------

  lemma {:induction false} NamedIsFound(zones: seq<Zone>, name: string, i: nat)
    requires i < |zones| && zones[i].name == name && Distinct(ZoneNames(zones))
    ensures ZoneNamed(zones, name) == zones[i]
  {
    if zones[0].name != name {
      assert ZoneNames(zones[1..]) == ZoneNames(zones)[1..];
      NamedIsFound(zones[1..], name, i - 1);
    }
  }

  /** A zone listed for an account is that account's zone. */
  lemma NamedInAccount(reg: Registry, account: string, name: string)
    requires Distinct(ZoneNames(reg.zones)) && InAccount(reg, account, name)
    ensures ZoneNamed(reg.zones, name) in reg.zones && ZoneNamed(reg.zones, name).account == account
  {
    var i :| 0 <= i < |reg.zones| && reg.zones[i].account == account && reg.zones[i].name == name;
    NamedIsFound(reg.zones, name, i);
  }

  /** All of these zones are the account's. */
  ghost predicate OwnZones(reg: Registry, account: string, zones: seq<Zone>) {
    forall z :: z in zones ==> z in reg.zones && z.account == account
  }

  lemma ListedOwn(reg: Registry, row: Row, names: seq<string>, allowed: Allowed)
    requires Distinct(ZoneNames(reg.zones)) && ListOk(reg, row, names, allowed)
    ensures OwnZones(reg, row.account, AllNamed(reg, names))
  {
    var zones := AllNamed(reg, names);
    forall z | z in zones ensures z in reg.zones && z.account == row.account {
      var i :| 0 <= i < |zones| && zones[i] == z;
      assert names[i] in names;
      NamedInAccount(reg, row.account, names[i]);
    }
  }

  lemma RowZonesOwn(reg: Registry, row: Row)
    requires RegistryOk(reg) && RowOk(reg, row) && Zoned(row.kind)
    ensures OwnZones(reg, row.account, RowZones(reg, row))
  {
    if row.zones != [] {
      ListedOwn(reg, row, row.zones, Any);
    } else {
      ZonesOfMembers(reg, row.account);
    }
  }

  /** The policies on a list of zones grant the groups on the ids of those zones and on no other. */
  lemma FromZones(groups: seq<string>, zones: seq<Zone>, p: Policy)
    ensures p in OnZones(groups, Ids(zones)) <==>
      p.groups == groups && p.scope.ZoneScope? && exists z :: z in zones && z.id == p.scope.id
  {
    var ps := OnZones(groups, Ids(zones));
    if p in ps {
      var i :| 0 <= i < |ps| && ps[i] == p;
      assert zones[i] in zones;
    }
    if z :| p.groups == groups && p.scope.ZoneScope? && z in zones && z.id == p.scope.id {
      var i :| 0 <= i < |zones| && zones[i] == z;
      assert ps[i] == p;
    }
  }

  /** Some zone of the list has the id. */
  ghost predicate HasId(zones: seq<Zone>, id: string) {
    exists z :: z in zones && z.id == id
  }

  /** The groups a row's credential gets on a zone id: exactly what the lists the id is on say. */
  ghost predicate Grants(reg: Registry, row: Row, groups: seq<string>, id: string) {
    var zones := RowZones(reg, row);
    match row.kind
    case ZoneKind =>
      || (groups == ZONE_GROUPS && HasId(Kept(zones, false), id))
      || (groups == ["Zone WAF Write"] && HasId(AllNamed(reg, row.wafZones), id))
      || (groups == ["Bot Management Write"] && HasId(AllNamed(reg, row.botZones), id))
      || (groups == ["Cloud Connector Write"] && HasId(AllNamed(reg, row.connectorZones), id))
      || (groups == DNS_WRITE && HasId(AllNamed(reg, row.dnsOnlyZones), id))
      || (groups == SETTINGS_WRITE && HasId(Kept(zones, true), id))
    case Insights =>
      groups == ["Zone Security Center Insights Read", "Bot Management Read", "Analytics Read", "Zone WAF Read"]
        && HasId(zones, id)
    case InsightsAdmin => groups == ["Zone Security Center Insights Write", "Zone Security Center Insights Read"]
      && HasId(zones, id)
    case _ => WritesDns(row.kind) && groups == DNS_WRITE && HasId(Kept(zones, false), id)
  }

  lemma GrantsAre(reg: Registry, row: Row, groups: seq<string>, id: string)
    ensures Policy(groups, ZoneScope(id)) in PoliciesFor(reg, row) <==> Grants(reg, row, groups, id)
  {
    var p, zones := Policy(groups, ZoneScope(id)), RowZones(reg, row);
    FromZones(ZONE_GROUPS, Kept(zones, false), p);
    FromZones(["Zone WAF Write"], AllNamed(reg, row.wafZones), p);
    FromZones(["Bot Management Write"], AllNamed(reg, row.botZones), p);
    FromZones(["Cloud Connector Write"], AllNamed(reg, row.connectorZones), p);
    FromZones(DNS_WRITE, AllNamed(reg, row.dnsOnlyZones), p);
    FromZones(SETTINGS_WRITE, Kept(zones, true), p);
    FromZones(DNS_WRITE, Kept(zones, false), p);
    FromZones(["Zone Security Center Insights Read", "Bot Management Read", "Analytics Read", "Zone WAF Read"],
      zones, p);
    FromZones(["Zone Security Center Insights Write", "Zone Security Center Insights Read"], zones, p);
    hide OnZones, Ids, Kept, AllNamed, RowZones;
  }

  lemma KeptOwn(reg: Registry, account: string, zones: seq<Zone>, txtOnly: bool)
    requires OwnZones(reg, account, zones)
    ensures OwnZones(reg, account, Kept(zones, txtOnly))
  {
    KeptMembers(zones, txtOnly);
  }

  /** Every zone a row's credential reaches is a zone of the row's account. */
  lemma ZonePoliciesStayInAccount(reg: Registry, row: Row, groups: seq<string>, id: string)
    requires RegistryOk(reg) && RowOk(reg, row) && Policy(groups, ZoneScope(id)) in PoliciesFor(reg, row)
    ensures exists z :: z in reg.zones && z.account == row.account && z.id == id
  {
    hide Kept, AllNamed, RowZones, PoliciesFor, NoneTxtOnly, CredentialOk, PresetName, Known;
    GrantsAre(reg, row, groups, id);
    assert Zoned(row.kind);
    RowZonesOwn(reg, row);
    KeptOwn(reg, row.account, RowZones(reg, row), false);
    KeptOwn(reg, row.account, RowZones(reg, row), true);
    if row.kind.ZoneKind? {
      ListedOwn(reg, row, row.wafZones, OnlyCovered);
      ListedOwn(reg, row, row.botZones, OnlyCovered);
      ListedOwn(reg, row, row.connectorZones, Any);
      ListedOwn(reg, row, row.dnsOnlyZones, OnlyUncovered);
    }
    hide RegistryOk, RowOk;
  }

  /** A zone preset and a DNS preset reach zones only: no policy covers the account or a bucket. */
  lemma NoAccountWideGrant(reg: Registry, row: Row, p: Policy)
    requires row.kind.ZoneKind? || row.kind.Dns?
    requires p in PoliciesFor(reg, row)
    ensures p.scope.ZoneScope?
  {
    var zones := RowZones(reg, row);
    FromZones(ZONE_GROUPS, Kept(zones, false), p);
    FromZones(["Zone WAF Write"], AllNamed(reg, row.wafZones), p);
    FromZones(["Bot Management Write"], AllNamed(reg, row.botZones), p);
    FromZones(["Cloud Connector Write"], AllNamed(reg, row.connectorZones), p);
    FromZones(DNS_WRITE, AllNamed(reg, row.dnsOnlyZones), p);
    FromZones(SETTINGS_WRITE, Kept(zones, true), p);
    FromZones(DNS_WRITE, Kept(zones, false), p);
    hide OnZones, Ids, Kept, AllNamed, RowZones;
  }

  // ---------------------------------------------------------------------------
  // Zones managed for their security.txt only
  // ---------------------------------------------------------------------------

  /** The zones a DNS-writing or zone row manages beyond their security.txt. */
  ghost predicate ManagedBy(reg: Registry, row: Row, id: string) {
    || HasId(Kept(RowZones(reg, row), false), id)
    || (row.kind.ZoneKind? && (HasId(AllNamed(reg, row.wafZones), id) || HasId(AllNamed(reg, row.botZones), id)
                               || HasId(AllNamed(reg, row.connectorZones), id)
                               || HasId(AllNamed(reg, row.dnsOnlyZones), id)))
  }

  /** No zone of the registry has the same id as another. */
  ghost predicate DistinctIds(reg: Registry) {
    forall y, z :: y in reg.zones && z in reg.zones && y.id == z.id ==> y == z
  }

  lemma NamedAreManaged(reg: Registry, row: Row, names: seq<string>, allowed: Allowed, z: Zone)
    requires Distinct(ZoneNames(reg.zones)) && ListOk(reg, row, names, allowed) && NoneTxtOnly(reg, names)
    requires z in AllNamed(reg, names)
    ensures z in reg.zones && !z.txtOnly
  {
    ListedOwn(reg, row, names, allowed);
    var zones := AllNamed(reg, names);
    var i :| 0 <= i < |zones| && zones[i] == z;
    assert names[i] in names;
  }

  /** With distinct ids no zone managed for its security.txt only is among those a row manages. */
  lemma TxtOnlyNotManaged(reg: Registry, row: Row, z: Zone)
    requires RegistryOk(reg) && DistinctIds(reg) && RowOk(reg, row) && Zoned(row.kind)
    requires z in reg.zones && z.txtOnly
    ensures !ManagedBy(reg, row, z.id)
  {
    RowZonesOwn(reg, row);
    KeptMembers(RowZones(reg, row), false);
    forall y | y in Kept(RowZones(reg, row), false) ensures y.id != z.id {
      assert y in reg.zones;
    }
    if row.kind.ZoneKind? {
      forall y | y in AllNamed(reg, row.wafZones) ensures y.id != z.id {
        NamedAreManaged(reg, row, row.wafZones, OnlyCovered, y);
      }
      forall y | y in AllNamed(reg, row.botZones) ensures y.id != z.id {
        NamedAreManaged(reg, row, row.botZones, OnlyCovered, y);
      }
      forall y | y in AllNamed(reg, row.connectorZones) ensures y.id != z.id {
        NamedAreManaged(reg, row, row.connectorZones, Any, y);
      }
      forall y | y in AllNamed(reg, row.dnsOnlyZones) ensures y.id != z.id {
        NamedAreManaged(reg, row, row.dnsOnlyZones, OnlyUncovered, y);
      }
    }
  }

  /**
   A zone row gives a zone id nothing but Zone Settings Write, and a services, status or dns row gives it nothing,
   exactly when no zone the row manages has that id.
   */
  lemma LeastPrivilegeIff(reg: Registry, row: Row, id: string)
    requires row.kind.ZoneKind? || WritesDns(row.kind)
    ensures (forall groups ::
              Policy(groups, ZoneScope(id)) in PoliciesFor(reg, row) ==> row.kind.ZoneKind? && groups == SETTINGS_WRITE)
       <==> !ManagedBy(reg, row, id)
  {
    forall groups ensures Policy(groups, ZoneScope(id)) in PoliciesFor(reg, row) <==> Grants(reg, row, groups, id) {
      GrantsAre(reg, row, groups, id);
    }
    hide PoliciesFor, HasId, Kept, RowZones, AllNamed;
    if ManagedBy(reg, row, id) {
      DifferentGroups();
      var zones := RowZones(reg, row);
      var groups := if row.kind.ZoneKind? then
        (if HasId(Kept(zones, false), id) then ZONE_GROUPS
         else if HasId(AllNamed(reg, row.wafZones), id) then ["Zone WAF Write"]
         else if HasId(AllNamed(reg, row.botZones), id) then ["Bot Management Write"]
         else if HasId(AllNamed(reg, row.connectorZones), id) then ["Cloud Connector Write"]
         else DNS_WRITE) else DNS_WRITE;
      assert Grants(reg, row, groups, id);
      assert Policy(groups, ZoneScope(id)) in PoliciesFor(reg, row);
    }
  }

  lemma DifferentGroups()
    ensures ZONE_GROUPS != SETTINGS_WRITE && DNS_WRITE != SETTINGS_WRITE
    ensures ["Zone WAF Write"] != SETTINGS_WRITE && ["Bot Management Write"] != SETTINGS_WRITE
      && ["Cloud Connector Write"] != SETTINGS_WRITE
  {
    assert |ZONE_GROUPS| == 5;
    assert DNS_WRITE[0] != SETTINGS_WRITE[0];
    assert |"Zone WAF Write"| != |"Zone Settings Write"|;
    assert "Bot Management Write"[0] != "Zone Settings Write"[0];
    assert "Cloud Connector Write"[0] != "Zone Settings Write"[0];
  }

  /** So with distinct zone ids a security.txt-only zone gets at most Zone Settings Write. */
  lemma TxtOnlyLeastPrivilege(reg: Registry, row: Row, z: Zone, groups: seq<string>)
    requires RegistryOk(reg) && DistinctIds(reg) && RowOk(reg, row) && (row.kind.ZoneKind? || WritesDns(row.kind))
    requires z in reg.zones && z.txtOnly
    ensures Policy(groups, ZoneScope(z.id)) in PoliciesFor(reg, row) ==> row.kind.ZoneKind? && groups == SETTINGS_WRITE
  {
    TxtOnlyNotManaged(reg, row, z);
    LeastPrivilegeIff(reg, row, z.id);
  }

  // ---------------------------------------------------------------------------
  // One account's presets
  // ---------------------------------------------------------------------------

  function PresetsIn(ps: seq<Preset>, account: string): seq<Preset> {
    if ps == [] then []
    else
      var front, p := PresetsIn(ps[..|ps| - 1], account), ps[|ps| - 1];
      if p.account == account then front + [p] else front
  }

  lemma PresetsSnoc(reg: Registry, rows: seq<Row>, row: Row)
    ensures PresetsOf(reg, rows + [row]) == PresetsOf(reg, rows) + [PresetOf(reg, row)]
  {
    hide PresetOf;
  }

  lemma PresetsInSnoc(ps: seq<Preset>, p: Preset, account: string)
    ensures PresetsIn(ps + [p], account) == PresetsIn(ps, account) + if p.account == account then [p] else []
  {
    assert (ps + [p])[..|ps|] == ps;
  }

  lemma RowsOfSnoc(rows: seq<Row>, row: Row, account: string)
    ensures RowsOf(rows + [row], account) == RowsOf(rows, account) + if row.account == account then [row] else []
  {
    assert (rows + [row])[..|rows|] == rows;
  }

  lemma {:induction false} PresetsFilter(reg: Registry, rows: seq<Row>, account: string)
    ensures PresetsIn(PresetsOf(reg, rows), account) == PresetsOf(reg, RowsOf(rows, account))
  {
    hide *;
    if rows == [] {
      PresetsFilterNone(reg, account);
    } else {
      var front, last := rows[..|rows| - 1], rows[|rows| - 1];
      PresetsFilter(reg, front, account);
      PresetsFilterStep(reg, front, last, account);
      assert rows == front + [last];
    }
  }

  lemma PresetsFilterNone(reg: Registry, account: string)
    ensures PresetsIn(PresetsOf(reg, []), account) == PresetsOf(reg, RowsOf([], account))
  {
    hide PresetOf;
    assert PresetsOf(reg, []) == [];
  }

  lemma PresetsFilterStep(reg: Registry, front: seq<Row>, last: Row, account: string)
    requires PresetsIn(PresetsOf(reg, front), account) == PresetsOf(reg, RowsOf(front, account))
    ensures PresetsIn(PresetsOf(reg, front + [last]), account) == PresetsOf(reg, RowsOf(front + [last], account))
  {
    hide *;
    AccountOfPreset(reg, last);
    RowsOfSnoc(front, last, account);
    PresetsSnoc(reg, front, last);
    PresetsInSnoc(PresetsOf(reg, front), PresetOf(reg, last), account);
    if last.account == account {
      PresetsSnoc(reg, RowsOf(front, account), last);
    }
  }

  lemma AccountOfPreset(reg: Registry, row: Row)
    ensures PresetOf(reg, row).account == row.account
  {
  }

  lemma {:induction false} RowsOfMembers(rows: seq<Row>, account: string)
    ensures forall r :: r in RowsOf(rows, account) <==> r in rows && r.account == account
  {
    if rows != [] {
      RowsOfMembers(rows[..|rows| - 1], account);
      assert rows == rows[..|rows| - 1] + [rows[|rows| - 1]];
    }
  }

  lemma {:induction false} RowsOfNames(rows: seq<Row>, account: string)
    requires Distinct(RowNames(rows))
    ensures Distinct(RowNames(RowsOf(rows, account)))
  {
    if rows != [] {
      var front, last := rows[..|rows| - 1], rows[|rows| - 1];
      assert RowNames(rows) == RowNames(front) + [last.name];
      DistinctSnoc(RowNames(front), last.name);
      RowsOfNames(front, account);
      RowsOfMembers(front, account);
      var mine := RowsOf(front, account);
      if last.account == account {
        assert RowNames(mine + [last]) == RowNames(mine) + [last.name];
        forall i | 0 <= i < |mine| ensures mine[i].name != last.name {
          assert mine[i] in front;
          var k :| 0 <= k < |front| && front[k] == mine[i];
          assert RowNames(front)[k] in RowNames(front);
        }
        DistinctSnoc(RowNames(mine), last.name);
      }
    }
  }

  /** The rows of one account are accepted whenever all rows are. */
  lemma OwnRowsAccepted(reg: Registry, rows: seq<Row>, account: string)
    requires Accepted(reg, rows)
    ensures Accepted(reg, RowsOf(rows, account))
  {
    RowsOfMembers(rows, account);
    RowsOfNames(rows, account);
    hide RegistryOk, RowOk, Buildable, Distinct, RowsOf;
  }

  /**
   For rows that Build accepts, ForAccount of a known account is Build filtered to that account, as soon as none of
   its zones is pending; an account with a row has none.
   */
  lemma ForAccountIsFilteredBuild(reg: Registry, rows: seq<Row>, account: string)
    requires Accepted(reg, rows) && Known(reg, account)
    ensures RowsOf(rows, account) != [] ==> !Pending(reg, account)
    ensures AccountPresets(reg, rows, account)
         == if Pending(reg, account) then None else Some(PresetsIn(PresetsOf(reg, rows), account))
  {
    OwnRowsAccepted(reg, rows, account);
    PresetsFilter(reg, rows, account);
    RowsOfMembers(rows, account);
    if RowsOf(rows, account) != [] {
      var r := RowsOf(rows, account)[0];
      assert r in RowsOf(rows, account) && Buildable(reg, r);
    }
  }

  lemma {:induction false} ReadyRowsOf(reg: Registry, rows: seq<Row>, account: string)
    requires !Pending(reg, account)
    ensures RowsOf(ReadyRows(reg, rows), account) == RowsOf(rows, account)
  {
    if rows != [] {
      var front, last := rows[..|rows| - 1], rows[|rows| - 1];
      hide Pending;
      ReadyRowsOf(reg, front, account);
      if !Pending(reg, last.account) {
        assert (ReadyRows(reg, front) + [last])[..|ReadyRows(reg, front)|] == ReadyRows(reg, front);
      }
    }
  }

  /**
   When BuildReady answers, an account without a pending zone has the presets ForAccount builds, whatever other
   accounts wait for.
   */
  lemma ForAccountIsFilteredBuildReady(reg: Registry, rows: seq<Row>, account: string)
    requires RowsOk(reg, rows) && forall r :: r in ReadyRows(reg, rows) ==> Buildable(reg, r)
    requires Known(reg, account) && !Pending(reg, account)
    ensures AccountPresets(reg, rows, account) == Some(PresetsIn(PresetsOf(reg, ReadyRows(reg, rows)), account))
  {
    ReadyRowsOf(reg, rows, account);
    PresetsFilter(reg, ReadyRows(reg, rows), account);
    RowsOfMembers(ReadyRows(reg, rows), account);
    RowsOfMembers(rows, account);
    RowsOfNames(rows, account);
    hide RegistryOk, RowOk, Buildable, Distinct, RowsOf, PresetsOf, PresetsIn, ReadyRows;
  }
}
