/** Validating rows and building their presets (cloudflare/presets/presets.go). */
module PresetBuild {
  import opened Text
  import opened Sorting
  import opened Presets

  // ---------------------------------------------------------------------------
  // Lookups
  // ---------------------------------------------------------------------------

  method FindAccount(reg: Registry, name: string) returns (found: bool, id: string)
    ensures found <==> Known(reg, name)
    ensures id == AccountID(reg.accounts, name)
  {
    for i := 0 to |reg.accounts|
      invariant forall k :: 0 <= k < i ==> reg.accounts[k].name != name
      invariant AccountID(reg.accounts, name) == AccountID(reg.accounts[i..], name)
    {
      if reg.accounts[i].name == name {
        return true, reg.accounts[i].id;
      }
      assert reg.accounts[i..][1..] == reg.accounts[i + 1..];
    }
    found, id := false, "";
  }

  method FindZone(reg: Registry, name: string) returns (z: Zone)
    ensures z == ZoneNamed(reg.zones, name)
  {
    for i := 0 to |reg.zones|
      invariant ZoneNamed(reg.zones, name) == ZoneNamed(reg.zones[i..], name)
    {
      if reg.zones[i].name == name {
        return reg.zones[i];
      }
      assert reg.zones[i..][1..] == reg.zones[i + 1..];
    }
    z := Zone("", "", "", false);
  }

  method ListZones(reg: Registry, account: string) returns (out: seq<Zone>)
    ensures out == ZonesOf(reg, account)
  {
    var list: seq<Zone> := [];
    for i := 0 to |reg.zones|
      invariant list == OfAccount(reg.zones[..i], account)
    {
      assert reg.zones[..i + 1][..i] == reg.zones[..i];
      if reg.zones[i].account == account {
        list := list + [reg.zones[i]];
      }
    }
    assert reg.zones[..|reg.zones|] == reg.zones;
    var a := new Zone[|list|](i requires 0 <= i < |list| => list[i]);
    assert a[..] == list;
    SortInPlace(ByName, a);
    out := a[..];
  }

  method PendingZone(reg: Registry, account: string) returns (pending: bool)
    ensures pending <==> Pending(reg, account)
  {
    var zones := ListZones(reg, account);
    PendingIsListed(reg, account);
    for i := 0 to |zones|
      invariant forall k :: 0 <= k < i ==> zones[k].id != ""
    {
      if zones[i].id == "" {
        return true;
      }
    }
    pending := false;
  }

  lemma {:induction false} OfAccountMembers(zones: seq<Zone>, account: string)
    ensures forall z :: z in OfAccount(zones, account) <==> z in zones && z.account == account
  {
    if zones != [] {
      OfAccountMembers(zones[..|zones| - 1], account);
      assert zones == zones[..|zones| - 1] + [zones[|zones| - 1]];
    }
  }

  lemma ZonesOfMembers(reg: Registry, account: string)
    ensures forall z :: z in ZonesOf(reg, account) <==> z in reg.zones && z.account == account
    ensures |ZonesOf(reg, account)| == |OfAccount(reg.zones, account)|
  {
    OfAccountMembers(reg.zones, account);
    SortMembers(ByName, OfAccount(reg.zones, account));
    SortPermutes(ByName, OfAccount(reg.zones, account));
  }

  lemma PendingIsListed(reg: Registry, account: string)
    ensures Pending(reg, account) <==> exists i :: 0 <= i < |ZonesOf(reg, account)| && ZonesOf(reg, account)[i].id == ""
  {
    ZonesOfMembers(reg, account);
    var zones := ZonesOf(reg, account);
    hide Sort, OfAccount, ByName;
    if i :| 0 <= i < |zones| && zones[i].id == "" {
      assert zones[i] in zones;
      var k :| 0 <= k < |reg.zones| && reg.zones[k] == zones[i];
    }
    if i :| 0 <= i < |reg.zones| && reg.zones[i].account == account && reg.zones[i].id == "" {
      assert reg.zones[i] in zones;
      var k :| 0 <= k < |zones| && zones[k] == reg.zones[i];
    }
  }

  // ---------------------------------------------------------------------------
  // Validate
  // ---------------------------------------------------------------------------

  method HasZone(zones: seq<Zone>, name: string) returns (found: bool)
    ensures found <==> exists i :: 0 <= i < |zones| && zones[i].name == name
  {
    found := false;
    for i := 0 to |zones|
      invariant found <==> exists k :: 0 <= k < i && zones[k].name == name
    {
      if zones[i].name == name {
        found := true;
      }
    }
  }

  lemma ListedIsInAccount(reg: Registry, account: string, name: string)
    ensures (exists i :: 0 <= i < |ZonesOf(reg, account)| && ZonesOf(reg, account)[i].name == name) <==>
      InAccount(reg, account, name)
  {
    ZonesOfMembers(reg, account);
    var zones := ZonesOf(reg, account);
    hide Sort, OfAccount, ByName;
    if i :| 0 <= i < |zones| && zones[i].name == name {
      assert zones[i] in zones;
      var k :| 0 <= k < |reg.zones| && reg.zones[k] == zones[i];
    }
    if i :| 0 <= i < |reg.zones| && reg.zones[i].account == account && reg.zones[i].name == name {
      assert reg.zones[i] in zones;
      var k :| 0 <= k < |zones| && zones[k] == reg.zones[i];
    }
  }

  method CheckList(reg: Registry, row: Row, names: seq<string>, allowed: Allowed) returns (ok: bool)
    ensures ok <==> ListOk(reg, row, names, allowed)
  {
    var zones := ListZones(reg, row.account);
    var seen: set<string> := {};
    ok := true;
    hide Sort, OfAccount, ByName, InAccount, ZonesOf, Distinct;
    assert Distinct<string>([]) by { DistinctNone(); }
    for i := 0 to |names|
      invariant seen == AsSet(names[..i])
      invariant ok <==> ListOk(reg, row, names[..i], allowed)
    {
      var n := names[i];
      assert names[..i + 1] == names[..i] + [n];
      DistinctSnoc(names[..i], n);
      ListedIsInAccount(reg, row.account, n);
      var inAccount := HasZone(zones, n);
      if !inAccount {
        ok := false;
      } else if n in seen {
        ok := false;
      } else if !Allows(row, allowed, n) {
        ok := false;
      }
      seen := seen + {n};
    }
    assert names[..|names|] == names;
  }

  lemma DistinctNone()
    ensures Distinct<string>([])
  {
  }

  method CheckManaged(reg: Registry, names: seq<string>) returns (ok: bool)
    ensures ok <==> NoneTxtOnly(reg, names)
  {
    ok := true;
    for i := 0 to |names|
      invariant ok <==> NoneTxtOnly(reg, names[..i])
    {
      assert names[..i + 1] == names[..i] + [names[i]];
      var z := FindZone(reg, names[i]);
      if z.txtOnly {
        ok := false;
      }
    }
    assert names[..|names|] == names;
  }

  method ManagedCount(reg: Registry, account: string) returns (managed: nat)
    ensures managed > 0 <==> Kept(OfAccount(reg.zones, account), false) != []
  {
    var zones := ListZones(reg, account);
    managed := 0;
    for i := 0 to |zones|
      invariant managed > 0 <==> exists k :: 0 <= k < i && !zones[k].txtOnly
    {
      if !zones[i].txtOnly {
        managed := managed + 1;
      }
    }
    SomeManaged(reg, account);
  }

  lemma {:induction false} KeptMembers(zones: seq<Zone>, txtOnly: bool)
    ensures forall z :: z in Kept(zones, txtOnly) <==> z in zones && z.txtOnly == txtOnly
  {
    if zones != [] {
      KeptMembers(zones[..|zones| - 1], txtOnly);
      assert zones == zones[..|zones| - 1] + [zones[|zones| - 1]];
    }
  }

  lemma SomeManaged(reg: Registry, account: string)
    ensures (exists k :: 0 <= k < |ZonesOf(reg, account)| && !ZonesOf(reg, account)[k].txtOnly)
       <==> Kept(OfAccount(reg.zones, account), false) != []
  {
    var zones, list := ZonesOf(reg, account), OfAccount(reg.zones, account);
    SortMembers(ByName, list);
    KeptMembers(list, false);
    hide Sort, OfAccount, ByName, Kept;
    if k :| 0 <= k < |zones| && !zones[k].txtOnly {
      assert zones[k] in zones && zones[k] in Kept(list, false);
    }
    if Kept(list, false) != [] {
      var z := Kept(list, false)[0];
      assert z in Kept(list, false) && z in zones;
      var k :| 0 <= k < |zones| && zones[k] == z;
    }
  }

  method CheckZones(reg: Registry, row: Row) returns (ok: bool)
    ensures ok <==> ZonesListed(reg, row)
  {
    hide ListOk, NoneTxtOnly, Kept, OfAccount;
    ok := Zoned(row.kind) || row.zones == [];
    if Zoned(row.kind) {
      var listed := CheckList(reg, row, row.zones, Any);
      var zones := ListZones(reg, row.account);
      ZonesOfMembers(reg, row.account);
      if !listed || (row.zones == [] && |zones| == 0) {
        ok := false;
      }
    }
    if WritesDns(row.kind) {
      var managed := ManagedCount(reg, row.account);
      var free := CheckManaged(reg, row.zones);
      if !free || (row.zones == [] && managed == 0) {
        ok := false;
      }
    }
  }

  method CheckAddOns(reg: Registry, row: Row) returns (ok: bool)
    ensures ok <==> AddOnsOk(reg, row)
  {
    hide ListOk, NoneTxtOnly;
    if !row.kind.ZoneKind? {
      return row.wafZones == [] && row.botZones == [] && row.connectorZones == [] && row.dnsOnlyZones == [];
    }
    var waf := CheckList(reg, row, row.wafZones, OnlyCovered);
    var bot := CheckList(reg, row, row.botZones, OnlyCovered);
    var connector := CheckList(reg, row, row.connectorZones, Any);
    var dnsOnly := CheckList(reg, row, row.dnsOnlyZones, OnlyUncovered);
    var a := CheckManaged(reg, row.wafZones);
    var b := CheckManaged(reg, row.botZones);
    var c := CheckManaged(reg, row.connectorZones);
    var d := CheckManaged(reg, row.dnsOnlyZones);
    ok := waf && bot && connector && dnsOnly && a && b && c && d;
  }

  method ValidateRow(reg: Registry, row: Row) returns (ok: bool)
    ensures ok <==> RowOk(reg, row)
  {
    hide ZonesListed, AddOnsOk, Known;
    var known, id := FindAccount(reg, row.account);
    if !known {
      return false;
    }
    var zones := CheckZones(reg, row);
    var addOns := CheckAddOns(reg, row);
    ok := PresetName(row.name) && !row.kind.NoKind? && zones && addOns && CredentialOk(row);
  }

  method NoRepeats(names: seq<string>) returns (ok: bool)
    ensures ok <==> Distinct(names)
  {
    var seen: set<string> := {};
    ok := true;
    for i := 0 to |names|
      invariant seen == AsSet(names[..i]) && (ok <==> Distinct(names[..i]))
    {
      assert names[..i + 1] == names[..i] + [names[i]];
      DistinctSnoc(names[..i], names[i]);
      if names[i] in seen {
        ok := false;
      }
      seen := seen + {names[i]};
    }
    assert names[..|names|] == names;
  }

  method ValidateRegistry(reg: Registry) returns (ok: bool)
    ensures ok <==> RegistryOk(reg)
  {
    hide Distinct, Known, Hex32;
    ok := true;
    for i := 0 to |reg.accounts|
      invariant ok <==> forall k :: 0 <= k < i ==> reg.accounts[k].name != "" && Hex32(reg.accounts[k].id)
    {
      if reg.accounts[i].name == "" || !Hex32(reg.accounts[i].id) {
        ok := false;
      }
    }
    var zones := true;
    for i := 0 to |reg.zones|
      invariant zones <==> forall k :: 0 <= k < i ==> reg.zones[k].name != "" && Known(reg, reg.zones[k].account)
    {
      var known, id := FindAccount(reg, reg.zones[i].account);
      if reg.zones[i].name == "" || !known {
        zones := false;
      }
    }
    var accountNames := NoRepeats(AccountNames(reg.accounts));
    var zoneNames := NoRepeats(ZoneNames(reg.zones));
    ok := ok && zones && accountNames && zoneNames;
  }

  method Validate(reg: Registry, rows: seq<Row>) returns (ok: bool)
    ensures ok <==> RowsOk(reg, rows)
  {
    hide RegistryOk, RowOk, Distinct;
    ok := ValidateRegistry(reg);
    var names := NoRepeats(RowNames(rows));
    var all := true;
    for i := 0 to |rows|
      invariant all <==> forall k :: 0 <= k < i ==> RowOk(reg, rows[k])
    {
      var fine := ValidateRow(reg, rows[i]);
      all := all && fine;
    }
    ok := ok && names && all;
  }

  // ---------------------------------------------------------------------------
  // Build
  // ---------------------------------------------------------------------------

  method NameZones(reg: Registry, names: seq<string>) returns (out: seq<Zone>)
    ensures out == AllNamed(reg, names)
  {
    out := [];
    for i := 0 to |names|
      invariant out == AllNamed(reg, names[..i])
    {
      var z := FindZone(reg, names[i]);
      out := out + [z];
    }
    assert names[..|names|] == names;
  }

  method Split(zones: seq<Zone>) returns (managed: seq<Zone>, txtOnly: seq<Zone>)
    ensures managed == Kept(zones, false) && txtOnly == Kept(zones, true)
  {
    managed, txtOnly := [], [];
    for i := 0 to |zones|
      invariant managed == Kept(zones[..i], false) && txtOnly == Kept(zones[..i], true)
    {
      assert zones[..i + 1][..i] == zones[..i];
      if zones[i].txtOnly {
        txtOnly := txtOnly + [zones[i]];
      } else {
        managed := managed + [zones[i]];
      }
    }
    assert zones[..|zones|] == zones;
  }

  method Grant(before: seq<Policy>, groups: seq<string>, ids: seq<string>) returns (out: seq<Policy>)
    ensures out == before + OnZones(groups, ids)
  {
    out := before;
    for i := 0 to |ids|
      invariant out == before + OnZones(groups, ids[..i])
    {
      out := out + [Policy(groups, ZoneScope(ids[i]))];
    }
    assert ids[..|ids|] == ids;
  }

  method ZonePolicies(reg: Registry, row: Row, managed: seq<string>, txtOnly: seq<string>) returns (out: seq<Policy>)
    ensures out ==
      OnZones(ZONE_GROUPS, managed) + OnZones(["Zone WAF Write"], NamedIds(reg, row.wafZones))
      + OnZones(["Bot Management Write"], NamedIds(reg, row.botZones))
      + OnZones(["Cloud Connector Write"], NamedIds(reg, row.connectorZones))
      + OnZones(DNS_WRITE, NamedIds(reg, row.dnsOnlyZones)) + OnZones(SETTINGS_WRITE, txtOnly)
  {
    var waf := NameZones(reg, row.wafZones);
    var bots := NameZones(reg, row.botZones);
    var connectors := NameZones(reg, row.connectorZones);
    var dnsOnly := NameZones(reg, row.dnsOnlyZones);
    out := Grant([], ZONE_GROUPS, managed);
    assert out == OnZones(ZONE_GROUPS, managed);
    hide *;
    out := Grant(out, ["Zone WAF Write"], Ids(waf));
    out := Grant(out, ["Bot Management Write"], Ids(bots));
    out := Grant(out, ["Cloud Connector Write"], Ids(connectors));
    out := Grant(out, DNS_WRITE, Ids(dnsOnly));
    out := Grant(out, SETTINGS_WRITE, txtOnly);
    NamedIdsAre(reg, row.wafZones);
    NamedIdsAre(reg, row.botZones);
    NamedIdsAre(reg, row.connectorZones);
    NamedIdsAre(reg, row.dnsOnlyZones);
  }

  lemma NamedIdsAre(reg: Registry, names: seq<string>)
    ensures NamedIds(reg, names) == Ids(AllNamed(reg, names))
  {
  }

  method BuildPolicies(reg: Registry, row: Row) returns (out: seq<Policy>)
    ensures out == PoliciesFor(reg, row)
  {
    var zones := ListZones(reg, row.account);
    if |row.zones| > 0 {
      zones := NameZones(reg, row.zones);
    }
    var managed, txtOnly := Split(zones);
    hide AllNamed, ZonesOf, Kept, OnZones, Ids;
    match row.kind {
      case ZoneKind => out := ZonePolicies(reg, row, Ids(managed), Ids(txtOnly));
      case Services => out := Grant([Policy(["Cloudflare Tunnel Write"], WholeAccount)], DNS_WRITE, Ids(managed));
      case Status => out := Grant([Policy(["Cloudflare Tunnel Write"], WholeAccount)], DNS_WRITE, Ids(managed));
      case Dns =>
        out := Grant([], DNS_WRITE, Ids(managed));
        assert [] + OnZones(DNS_WRITE, Ids(managed)) == OnZones(DNS_WRITE, Ids(managed));
      case Insights =>
        out := Grant([Policy(["Account Security Center Insights Read"], WholeAccount)],
          ["Zone Security Center Insights Read", "Bot Management Read", "Analytics Read", "Zone WAF Read"], Ids(zones));
      case InsightsAdmin =>
        out := Grant(
          [Policy(["Account Security Center Insights Write", "Account Security Center Insights Read"], WholeAccount)],
          ["Zone Security Center Insights Write", "Zone Security Center Insights Read"], Ids(zones));
      case R2Admin => out := [Policy(["Workers R2 Storage Write"], WholeAccount)];
      case BucketRW =>
        out := [Policy(["Workers R2 Storage Bucket Item Read", "Workers R2 Storage Bucket Item Write"],
          BucketScope(row.jurisdiction, row.bucket))];
      case BucketWrite =>
        out := [Policy(["Workers R2 Storage Bucket Item Write"], BucketScope(row.jurisdiction, row.bucket))];
      case NoKind => out := [];
    }
  }

  method CheckToken(policies: seq<Policy>) returns (ok: bool)
    ensures ok <==> TokenOk(policies)
  {
    if |policies| == 0 {
      return false;
    }
    for i := 0 to |policies|
      invariant forall k :: 0 <= k < i ==> PolicyOk(policies[k])
    {
      if !PolicyOk(policies[i]) {
        return false;
      }
    }
    ok := true;
  }

  method BuildRow(reg: Registry, row: Row) returns (p: Option<Preset>)
    ensures p == if Buildable(reg, row) then Some(PresetOf(reg, row)) else None
  {
    hide PoliciesFor, TokenOk, Pending;
    var known, id := FindAccount(reg, row.account);
    var pending := PendingZone(reg, row.account);
    if pending {
      return None;
    }
    var policies := BuildPolicies(reg, row);
    var fine := CheckToken(policies);
    if !fine {
      return None;
    }
    p := Some(Preset(row.name, row.kind, row.account, id, policies, row.kind == BucketRW || row.kind == BucketWrite,
      Lifetime(row), row.rotation, if row.store.Unset? then Nowhere else row.store, row.grants));
  }

  method Build(reg: Registry, rows: seq<Row>) returns (out: Option<seq<Preset>>)
    ensures out == if Accepted(reg, rows) then Some(PresetsOf(reg, rows)) else None
  {
    hide RowsOk, Buildable, PresetOf;
    var ok := Validate(reg, rows);
    if !ok {
      return None;
    }
    var list: seq<Preset> := [];
    for i := 0 to |rows|
      invariant forall k :: 0 <= k < i ==> Buildable(reg, rows[k])
      invariant list == PresetsOf(reg, rows[..i])
    {
      assert rows[i] in rows;
      var p := BuildRow(reg, rows[i]);
      if p.None? {
        return None;
      }
      list := list + [p.value];
    }
    assert rows[..|rows|] == rows;
    out := Some(list);
  }

  method BuildReady(reg: Registry, rows: seq<Row>) returns (out: Option<seq<Preset>>)
    ensures out == if RowsOk(reg, rows) && (forall r :: r in ReadyRows(reg, rows) ==> Buildable(reg, r))
                   then Some(PresetsOf(reg, ReadyRows(reg, rows))) else None
  {
    hide RowsOk, Buildable, PresetOf, Pending;
    var ok := Validate(reg, rows);
    if !ok {
      return None;
    }
    var list: seq<Preset> := [];
    ghost var ready: seq<Row> := [];
    for i := 0 to |rows|
      invariant ready == ReadyRows(reg, rows[..i])
      invariant forall r :: r in ready ==> Buildable(reg, r)
      invariant list == PresetsOf(reg, ready)
    {
      assert rows[..i + 1][..i] == rows[..i];
      var pending := PendingZone(reg, rows[i].account);
      if !pending {
        var p := BuildRow(reg, rows[i]);
        ready := ready + [rows[i]];
        if p.None? {
          ReadyGrow(reg, rows, i + 1);
          assert rows[i] in ready;
          return None;
        }
        list := list + [p.value];
      }
    }
    assert rows[..|rows|] == rows;
    out := Some(list);
  }

  lemma {:induction false} ReadyGrow(reg: Registry, rows: seq<Row>, n: nat)
    requires n <= |rows|
    ensures forall r :: r in ReadyRows(reg, rows[..n]) ==> r in ReadyRows(reg, rows)
    decreases |rows|
  {
    if n < |rows| {
      assert rows[..|rows| - 1][..n] == rows[..n];
      ReadyGrow(reg, rows[..|rows| - 1], n);
    } else {
      assert rows[..n] == rows;
    }
  }

  method ForAccount(reg: Registry, rows: seq<Row>, account: string) returns (out: Option<seq<Preset>>)
    ensures out == AccountPresets(reg, rows, account)
  {
    hide Accepted, Pending, Known, PresetsOf;
    var known, id := FindAccount(reg, account);
    if !known {
      return None;
    }
    var pending := PendingZone(reg, account);
    if pending {
      return None;
    }
    var mine: seq<Row> := [];
    for i := 0 to |rows|
      invariant mine == RowsOf(rows[..i], account)
    {
      assert rows[..i + 1][..i] == rows[..i];
      if rows[i].account == account {
        mine := mine + [rows[i]];
      }
    }
    assert rows[..|rows|] == rows;
    out := Build(reg, mine);
  }
}
