/** A registry the presets accept in which a security.txt-only zone shares the id of a managed one. */
module PresetSharedIds {
  import opened Text
  import opened Sorting
  import opened Presets
  import opened PresetBuild
  import opened PresetFacts

  const ID := "0123456789abcdef0123456789abcdef"

  function Managed(): Zone {
    Zone("a.com", ID, "a", false)
  }

  function TxtOnly(): Zone {
    Zone("b.com", ID, "a", true)
  }

  function Shared(): Registry {
    Registry([Account("a", ID)], [Managed(), TxtOnly()])
  }

  function EdgeRow(): Row {
    Row("p", ZoneKind, "a", ["a.com", "b.com"], [], [], [], [], "", "", [], 0, 0, Nowhere)
  }

  lemma IdOk()
    ensures Hex32(ID)
  {
  }

  lemma SharedOk()
    ensures RegistryOk(Shared())
  {
    IdOk();
    hide Hex32;
    var reg := Shared();
    assert reg.accounts[0].name == "a" && Known(reg, "a");
    assert "a.com"[0] != "b.com"[0];
  }

  lemma SharedZonesListed(reg: Registry, row: Row)
    requires reg == Shared() && row == EdgeRow()
    ensures ListOk(reg, row, row.zones, Any) && AllNamed(reg, row.zones) == [Managed(), TxtOnly()]
  {
    assert "a.com"[0] != "b.com"[0];
    assert reg.zones[0].name == "a.com" && reg.zones[1].name == "b.com";
    assert InAccount(reg, "a", "a.com") && InAccount(reg, "a", "b.com");
    assert reg.zones[1..] == [TxtOnly()];
  }

  lemma NothingListed(reg: Registry, row: Row, allowed: Allowed)
    ensures ListOk(reg, row, [], allowed) && NoneTxtOnly(reg, [])
  {
  }

  lemma EdgeRowOk()
    ensures RowOk(Shared(), EdgeRow())
  {
    var reg, row := Shared(), EdgeRow();
    assert reg.accounts[0].name == "a" && Known(reg, "a");
    assert PresetName("p") && CredentialOk(row);
    SharedZonesListed(reg, row);
    hide ListOk, NoneTxtOnly, Shared, Known, PresetName, CredentialOk;
    NothingListed(reg, row, OnlyCovered);
    NothingListed(reg, row, Any);
    NothingListed(reg, row, OnlyUncovered);
  }

  lemma SharedKept()
    ensures Kept([Managed(), TxtOnly()], false) == [Managed()] && Kept([Managed(), TxtOnly()], true) == [TxtOnly()]
  {
    assert [Managed(), TxtOnly()][..1] == [Managed()] && [Managed()][..0] == [];
  }

  /** What the row is granted on an id: everything a managed zone has, and the settings of a security.txt-only one. */
  lemma EdgeGrants(groups: seq<string>, id: string)
    ensures Policy(groups, ZoneScope(id)) in PoliciesFor(Shared(), EdgeRow())
       <==> id == ID && (groups == ZONE_GROUPS || groups == SETTINGS_WRITE)
  {
    var reg, row := Shared(), EdgeRow();
    hide Shared, PoliciesFor, Kept, ListOk;
    GrantsAre(reg, row, groups, id);
    SharedZonesListed(reg, row);
    SharedKept();
    assert AllNamed(reg, []) == [];
    assert Managed() in [Managed()] && TxtOnly() in [TxtOnly()];
  }

  lemma GroupsOk()
    ensures forall i :: 0 <= i < |ZONE_GROUPS| ==> ZONE_GROUPS[i] != "" && ZONE_GROUPS[i] !in TOKEN_GROUPS
    ensures SETTINGS_WRITE[0] != "" && SETTINGS_WRITE[0] !in TOKEN_GROUPS
  {
    var a := 'A';
    forall i | 0 <= i < |ZONE_GROUPS| ensures ZONE_GROUPS[i][0] != a {
    }
    assert TOKEN_GROUPS[0][0] == a && TOKEN_GROUPS[1][0] == a;
  }

  lemma EdgeBuildable()
    ensures Buildable(Shared(), EdgeRow())
  {
    var reg, row := Shared(), EdgeRow();
    var ps := PoliciesFor(reg, row);
    assert !Pending(reg, "a");
    hide Shared, PoliciesFor, EdgeRow, Pending;
    IdOk();
    GroupsOk();
    EdgeGrants(ZONE_GROUPS, ID);
    hide Hex32;
    forall i | 0 <= i < |ps| ensures PolicyOk(ps[i]) {
      EdgePolicyOk(ps[i]);
    }
  }

  lemma EdgePolicyOk(p: Policy)
    requires p in PoliciesFor(Shared(), EdgeRow())
    ensures PolicyOk(p)
  {
    IdOk();
    GroupsOk();
    hide Shared, PoliciesFor, Hex32;
    NoAccountWideGrant(Shared(), EdgeRow(), p);
    EdgeGrants(p.groups, p.scope.id);
  }

  /** Everything is accepted, and the credential may write the whole edge of the zone kept for its security.txt. */
  lemma SharedIdGetsMore()
    ensures RegistryOk(Shared()) && RowOk(Shared(), EdgeRow()) && Buildable(Shared(), EdgeRow())
    ensures TxtOnly() in Shared().zones && TxtOnly().txtOnly
    ensures Policy(ZONE_GROUPS, ZoneScope(TxtOnly().id)) in PoliciesFor(Shared(), EdgeRow())
  {
    SharedOk();
    EdgeRowOk();
    EdgeBuildable();
    EdgeGrants(ZONE_GROUPS, ID);
    hide RegistryOk, RowOk, Buildable, PoliciesFor;
    assert Shared().zones[1] == TxtOnly();
  }
}
