/** How far one account's presets depend on other accounts (`ForAccount`, cloudflare/presets/presets.go). */
module PresetIsolation {
  import opened Text
  import opened Sorting
  import opened Presets
  import opened PresetBuild
  import opened PresetFacts

  function AccountsNamed(accounts: seq<Account>, name: string): seq<Account> {
    if accounts == [] then []
    else (if accounts[0].name == name then [accounts[0]] else []) + AccountsNamed(accounts[1..], name)
  }

  /** What the registry says of one account: its entry and its zones. */
  function OwnPart(reg: Registry, account: string): Registry {
    Registry(AccountsNamed(reg.accounts, account), OfAccount(reg.zones, account))
  }

  // ---------------------------------------------------------------------------
  // Lookups
  // ---------------------------------------------------------------------------

  lemma {:induction false} AccountsNamedIs(accounts: seq<Account>, name: string)
    ensures forall a :: a in AccountsNamed(accounts, name) <==> a in accounts && a.name == name
    ensures AccountID(AccountsNamed(accounts, name), name) == AccountID(accounts, name)
  {
    if accounts != [] {
      AccountsNamedIs(accounts[1..], name);
      assert accounts == [accounts[0]] + accounts[1..];
    }
  }

  lemma {:induction false} AccountsNamedOnce(accounts: seq<Account>, name: string)
    requires Distinct(AccountNames(accounts))
    ensures |AccountsNamed(accounts, name)| <= 1
  {
    if accounts != [] {
      var names := AccountNames(accounts);
      assert AccountNames(accounts[1..]) == names[1..];
      AccountsNamedOnce(accounts[1..], name);
      AccountsNamedIs(accounts[1..], name);
      var others := AccountsNamed(accounts[1..], name);
      assert forall i :: 0 <= i < |others| ==> others[i] in others;
      if accounts[0].name == name {
        forall i | 0 <= i < |accounts[1..]| ensures accounts[1..][i].name != name {
          assert names[0] != names[i + 1];
        }
      }
    }
  }

  lemma KnownOwn(reg: Registry, account: string)
    ensures Known(OwnPart(reg, account), account) <==> Known(reg, account)
  {
    var own := OwnPart(reg, account).accounts;
    AccountsNamedIs(reg.accounts, account);
    if i :| 0 <= i < |own| && own[i].name == account {
      assert own[i] in reg.accounts;
    }
    if i :| 0 <= i < |reg.accounts| && reg.accounts[i].name == account {
      assert reg.accounts[i] in own;
    }
  }

  lemma ZonesOwn(reg: Registry, account: string)
    ensures forall name :: InAccount(OwnPart(reg, account), account, name) <==> InAccount(reg, account, name)
    ensures Pending(OwnPart(reg, account), account) <==> Pending(reg, account)
  {
    var own := OwnPart(reg, account).zones;
    OfAccountMembers(reg.zones, account);
    forall i | 0 <= i < |own| ensures own[i] in reg.zones && own[i].account == account {
      assert own[i] in own;
    }
    forall i | 0 <= i < |reg.zones| && reg.zones[i].account == account ensures reg.zones[i] in own {
      assert reg.zones[i] in reg.zones;
    }
  }

  lemma {:induction false} OfAccountAgain(zones: seq<Zone>, account: string)
    ensures OfAccount(OfAccount(zones, account), account) == OfAccount(zones, account)
  {
    if zones != [] {
      var front, z := zones[..|zones| - 1], zones[|zones| - 1];
      OfAccountAgain(front, account);
      if z.account == account {
        var own := OfAccount(zones, account);
        assert own[..|own| - 1] == OfAccount(front, account);
      }
    }
  }

  lemma {:induction false} OfAccountNames(zones: seq<Zone>, account: string)
    requires Distinct(ZoneNames(zones))
    ensures Distinct(ZoneNames(OfAccount(zones, account)))
  {
    if zones != [] {
      var front, z := zones[..|zones| - 1], zones[|zones| - 1];
      assert ZoneNames(zones) == ZoneNames(front) + [z.name];
      DistinctSnoc(ZoneNames(front), z.name);
      OfAccountNames(front, account);
      OfAccountMembers(front, account);
      var own := OfAccount(front, account);
      if z.account == account {
        assert ZoneNames(own + [z]) == ZoneNames(own) + [z.name];
        forall i | 0 <= i < |own| ensures own[i].name != z.name {
          assert own[i] in front;
          var k :| 0 <= k < |front| && front[k] == own[i];
          assert ZoneNames(front)[k] in ZoneNames(front);
        }
        DistinctSnoc(ZoneNames(own), z.name);
      }
    }
  }

  /** A zone of the account is looked up alike in the whole registry and in the account's part. */
  lemma NamedOwn(reg: Registry, account: string, name: string)
    requires Distinct(ZoneNames(reg.zones)) && InAccount(reg, account, name)
    ensures ZoneNamed(OwnPart(reg, account).zones, name) == ZoneNamed(reg.zones, name)
  {
    var own := OwnPart(reg, account);
    OfAccountNames(reg.zones, account);
    OfAccountMembers(reg.zones, account);
    ZonesOwn(reg, account);
    var i :| 0 <= i < |own.zones| && own.zones[i].account == account && own.zones[i].name == name;
    NamedIsFound(own.zones, name, i);
    assert own.zones[i] in reg.zones;
    var j :| 0 <= j < |reg.zones| && reg.zones[j] == own.zones[i];
    NamedIsFound(reg.zones, name, j);
  }

  lemma RegistryOwn(reg: Registry, account: string)
    requires RegistryOk(reg) && Known(reg, account)
    ensures RegistryOk(OwnPart(reg, account))
  {
    var own := OwnPart(reg, account);
    AccountsNamedIs(reg.accounts, account);
    AccountsNamedOnce(reg.accounts, account);
    KnownOwn(reg, account);
    OfAccountMembers(reg.zones, account);
    OfAccountNames(reg.zones, account);
  }

  // ---------------------------------------------------------------------------
  // Rows
  // ---------------------------------------------------------------------------

  lemma ListOwn(reg: Registry, row: Row, names: seq<string>, allowed: Allowed)
    requires Distinct(ZoneNames(reg.zones))
    ensures ListOk(OwnPart(reg, row.account), row, names, allowed) <==> ListOk(reg, row, names, allowed)
    ensures ListOk(reg, row, names, allowed) ==>
      && AllNamed(OwnPart(reg, row.account), names) == AllNamed(reg, names)
      && (NoneTxtOnly(OwnPart(reg, row.account), names) <==> NoneTxtOnly(reg, names))
  {
    ZonesOwn(reg, row.account);
    hide InAccount, OwnPart, Allows;
    if ListOk(reg, row, names, allowed) {
      forall n | n in names ensures ZoneNamed(OwnPart(reg, row.account).zones, n) == ZoneNamed(reg.zones, n) {
        NamedOwn(reg, row.account, n);
      }
      hide ZoneNamed;
      assert forall i :: 0 <= i < |names| ==> names[i] in names;
    }
  }

  lemma ZonesListedOwn(reg: Registry, row: Row)
    requires Distinct(ZoneNames(reg.zones))
    ensures ZonesListed(OwnPart(reg, row.account), row) <==> ZonesListed(reg, row)
  {
    ListOwn(reg, row, row.zones, Any);
    OfAccountAgain(reg.zones, row.account);
    hide ListOk, NoneTxtOnly, Kept, OfAccount, AllNamed;
  }

  lemma AddOnsOwn(reg: Registry, row: Row)
    requires Distinct(ZoneNames(reg.zones))
    ensures AddOnsOk(OwnPart(reg, row.account), row) <==> AddOnsOk(reg, row)
  {
    hide OwnPart, ListOk, NoneTxtOnly, AllNamed, Distinct;
    ListOwn(reg, row, row.wafZones, OnlyCovered);
    ListOwn(reg, row, row.botZones, OnlyCovered);
    ListOwn(reg, row, row.connectorZones, Any);
    ListOwn(reg, row, row.dnsOnlyZones, OnlyUncovered);
  }

  lemma RowOwn(reg: Registry, row: Row)
    requires Distinct(ZoneNames(reg.zones))
    ensures RowOk(OwnPart(reg, row.account), row) <==> RowOk(reg, row)
  {
    hide OwnPart, ZonesListed, AddOnsOk, Known, CredentialOk, PresetName;
    KnownOwn(reg, row.account);
    ZonesListedOwn(reg, row);
    AddOnsOwn(reg, row);
  }

  lemma RowZonesOwnPart(reg: Registry, row: Row)
    requires Distinct(ZoneNames(reg.zones)) && (row.zones != [] ==> ListOk(reg, row, row.zones, Any))
    ensures RowZones(OwnPart(reg, row.account), row) == RowZones(reg, row)
  {
    ListOwn(reg, row, row.zones, Any);
    OfAccountAgain(reg.zones, row.account);
    hide ListOk, AllNamed, Sort, OfAccount;
  }

  lemma ExtraZonesOwn(reg: Registry, row: Row)
    requires Distinct(ZoneNames(reg.zones)) && row.kind.ZoneKind? && AddOnsOk(reg, row)
    ensures NamedIds(OwnPart(reg, row.account), row.wafZones) == NamedIds(reg, row.wafZones)
    ensures NamedIds(OwnPart(reg, row.account), row.botZones) == NamedIds(reg, row.botZones)
    ensures NamedIds(OwnPart(reg, row.account), row.connectorZones) == NamedIds(reg, row.connectorZones)
    ensures NamedIds(OwnPart(reg, row.account), row.dnsOnlyZones) == NamedIds(reg, row.dnsOnlyZones)
  {
    hide OwnPart, ListOk, NoneTxtOnly, AllNamed, Distinct, Ids;
    ListOwn(reg, row, row.wafZones, OnlyCovered);
    ListOwn(reg, row, row.botZones, OnlyCovered);
    ListOwn(reg, row, row.connectorZones, Any);
    ListOwn(reg, row, row.dnsOnlyZones, OnlyUncovered);
  }

  /** A valid row's policies are read off the account's own part. */
  lemma PoliciesOwn(reg: Registry, row: Row)
    requires RegistryOk(reg) && RowOk(reg, row)
    ensures PoliciesFor(OwnPart(reg, row.account), row) == PoliciesFor(reg, row)
  {
    hide OwnPart, ListOk, NoneTxtOnly, NamedIds, RowZones, OnZones, Kept, Ids, Distinct, Known, CredentialOk,
      PresetName;
    RowZonesOwnPart(reg, row);
    if row.kind.ZoneKind? {
      ExtraZonesOwn(reg, row);
    }
  }

  /** One row is accepted and built alike from the whole registry and from its account's part. */
  lemma PresetOwn(reg: Registry, row: Row)
    requires RegistryOk(reg)
    ensures RowOk(OwnPart(reg, row.account), row) <==> RowOk(reg, row)
    ensures RowOk(reg, row) ==>
      && (Buildable(OwnPart(reg, row.account), row) <==> Buildable(reg, row))
      && PresetOf(OwnPart(reg, row.account), row) == PresetOf(reg, row)
  {
    RowOwn(reg, row);
    hide RowOk, RegistryOk, Pending, TokenOk, PoliciesFor, AccountID, Lifetime;
    if RowOk(reg, row) {
      PoliciesOwn(reg, row);
      ZonesOwn(reg, row.account);
      AccountsNamedIs(reg.accounts, row.account);
    }
  }

  lemma AcceptedOwn(reg: Registry, rows: seq<Row>, account: string)
    requires RegistryOk(reg) && Known(reg, account) && forall r :: r in rows ==> r.account == account
    ensures Accepted(OwnPart(reg, account), rows) <==> Accepted(reg, rows)
    ensures Accepted(reg, rows) ==> PresetsOf(OwnPart(reg, account), rows) == PresetsOf(reg, rows)
  {
    RegistryOwn(reg, account);
    hide RegistryOk, RowOk, Buildable, PresetOf, OwnPart, Distinct;
    forall r | r in rows
      ensures RowOk(OwnPart(reg, account), r) <==> RowOk(reg, r)
      ensures RowOk(reg, r) ==> (Buildable(OwnPart(reg, account), r) <==> Buildable(reg, r))
      ensures RowOk(reg, r) ==> PresetOf(OwnPart(reg, account), r) == PresetOf(reg, r)
    {
      PresetOwn(reg, r);
    }
    assert forall i :: 0 <= i < |rows| ==> rows[i] in rows;
  }

  lemma {:induction false} RowsOfAgain(rows: seq<Row>, account: string)
    ensures RowsOf(RowsOf(rows, account), account) == RowsOf(rows, account)
  {
    if rows != [] {
      var front, r := rows[..|rows| - 1], rows[|rows| - 1];
      RowsOfAgain(front, account);
      if r.account == account {
        RowsOfSnoc(RowsOf(front, account), r, account);
      }
    }
  }

  /**
   ForAccount answers as it would if the registry and the table held nothing of any other account, exactly when the
   whole registry is sound or the account is refused for what is its own.
   */
  lemma OwnProblemsIff(reg: Registry, rows: seq<Row>, account: string)
    ensures AccountPresets(reg, rows, account) == AccountPresets(OwnPart(reg, account), RowsOf(rows, account), account)
       <==> RegistryOk(reg) || AccountPresets(OwnPart(reg, account), RowsOf(rows, account), account).None?
  {
    KnownOwn(reg, account);
    ZonesOwn(reg, account);
    RowsOfAgain(rows, account);
    RowsOfMembers(rows, account);
    hide Known, Pending, OwnPart, RegistryOk, RowOk, Buildable, RowsOf, PresetOf;
    if RegistryOk(reg) && Known(reg, account) {
      AcceptedOwn(reg, RowsOf(rows, account), account);
    }
  }

  // ---------------------------------------------------------------------------
  // Another account's fault
  // ---------------------------------------------------------------------------

  function GoodId(): string {
    "0123456789abcdef0123456789abcdef"
  }

  function AdminRow(): Row {
    Row("p", R2Admin, "a", [], [], [], [], [], "", "", [], 0, 0, Nowhere)
  }

  lemma AdminRowOk(reg: Registry)
    requires RegistryOk(reg) && Known(reg, "a") && reg.zones == []
    ensures Accepted(reg, [AdminRow()])
  {
    var r := AdminRow();
    assert |"Workers R2 Storage Write"| != |"Account API Tokens Read"|;
    assert "Workers R2 Storage Write"[0] != "Account API Tokens Write"[0];
    hide RegistryOk, Known;
    assert PresetName("p") && CredentialOk(r) && ZonesListed(reg, r) && AddOnsOk(reg, r);
    assert TokenOk(PoliciesFor(reg, r)) && !Pending(reg, "a");
    assert RowNames([r]) == ["p"];
  }

  function FaultyOther(): Registry {
    Registry([Account("a", GoodId()), Account("b", "")], [])
  }

  lemma OwnIsOne()
    ensures OwnPart(FaultyOther(), "a") == Registry([Account("a", GoodId())], [])
  {
    hide GoodId;
    var accounts := FaultyOther().accounts;
    assert accounts[1..] == [Account("b", "")] && [Account("b", "")][1..] == [];
    assert AccountsNamed([Account("b", "")], "a") == [] + AccountsNamed([], "a");
  }

  lemma OneAccountOk(a: Account)
    requires a.name == "a" && Hex32(a.id)
    ensures RegistryOk(Registry([a], [])) && Known(Registry([a], []), "a")
  {
    hide Hex32;
    assert Registry([a], []).accounts[0].name == "a";
  }

  lemma NoIdNotOk(reg: Registry, a: Account)
    requires a in reg.accounts && a.id == ""
    ensures !RegistryOk(reg)
  {
    assert !Hex32(a.id);
    hide Hex32, Distinct;
  }

  lemma OneRowBuilds(reg: Registry)
    requires RegistryOk(reg) && Known(reg, "a") && reg.zones == []
    ensures AccountPresets(reg, [AdminRow()], "a").Some?
  {
    hide Known, RegistryOk, Accepted;
    AdminRowOk(reg);
    assert [AdminRow()][..0] == [] && RowsOf([AdminRow()], "a") == [AdminRow()];
  }

  lemma GoodIdOk()
    ensures Hex32(GoodId())
  {
  }

  /** Account a can be built, and an account b without an id stops it. */
  lemma OthersFaultStops()
    ensures AccountPresets(OwnPart(FaultyOther(), "a"), [AdminRow()], "a").Some?
    ensures AccountPresets(FaultyOther(), [AdminRow()], "a").None?
  {
    assert FaultyOther().accounts[1] in FaultyOther().accounts;
    NoIdNotOk(FaultyOther(), Account("b", ""));
    OwnIsOne();
    GoodIdOk();
    hide OwnPart, RegistryOk, RowOk, Buildable, Known, FaultyOther, AdminRow, GoodId, Hex32;
    OneAccountOk(Account("a", GoodId()));
    OneRowBuilds(Registry([Account("a", GoodId())], []));
  }
}
