/** DNS records a zone declares (`Records.validate`, cloudflare/zonespec/zonespec.go). */
module ZoneRecords {
  import opened Text
  import Sorting
  import Zones

  /** What the address parser makes of a record's content. */
  datatype Address = NotAddress | V4 | V6 | Scoped

  datatype Record = Record(
    name: string, kind: string, content: string, address: Address, proxied: bool, ttl: int,
    waf: Option<bool>, wafReason: string)

  predicate NoneOf(s: string, refused: string) {
    forall i :: 0 <= i < |s| ==> s[i] !in refused
  }

  /** A lower-case hostname inside the zone; a leading `*.` makes it a wildcard. */
  predicate NameOk(zone: string, name: string) {
    var bare := TrimPrefix(name, "*.");
    && IsLower(name) && bare != "" && NoneOf(bare, "*/:\"\\ ") && !HasSuffix(name, ".")
    && Zones.Holds(zone, bare)
  }

  predicate ContentOk(r: Record) {
    match r.kind
    case "A" => r.address.V4?
    case "AAAA" => r.address.V6?
    case _ =>
      && r.content != "" && IsLower(r.content) && !HasSuffix(r.content, ".") && NoneOf(r.content, "*/:\"\\ ")
      && '.' in r.content
  }

  predicate EntryOk(zone: string, r: Record) {
    && NameOk(zone, r.name) && r.kind in ["A", "AAAA", "CNAME"] && ContentOk(r)
    && (r.proxied ==> r.ttl == 0) && (r.ttl != 0 ==> 60 <= r.ttl <= 86400)
  }

  predicate Alike(a: Record, b: Record) {
    a.name == b.name && a.kind == b.kind && a.content == b.content
  }

  /** Two records can be held together: not the same one twice, and no CNAME beside another record of its name. */
  predicate Together(a: Record, b: Record) {
    !Alike(a, b) && (a.name == b.name ==> a.kind != "CNAME" && b.kind != "CNAME")
  }

  ghost predicate RecordsOk(zone: string, entries: seq<Record>) {
    entries != [] ==>
      && zone != "" && IsLower(zone)
      && (forall e :: e in entries ==> EntryOk(zone, e))
      && forall i, j :: 0 <= i < j < |entries| ==> Together(entries[i], entries[j])
  }

  function Key(e: Record): string {
    e.name + " " + e.kind + " " + e.content
  }

  lemma SpaceSplits(a: string, b: string, c: string, d: string)
    requires ' ' !in a && ' ' !in c && a + " " + b == c + " " + d
    ensures a == c && b == d
  {
    var s, t := a + " " + b, c + " " + d;
    assert s[|a|] == ' ' && t[|c|] == ' ';
    assert forall i :: 0 <= i < |a| ==> s[i] == a[i] != ' ';
    assert forall i :: 0 <= i < |c| ==> t[i] == c[i] != ' ';
    assert |a| == |c|;
    assert a == s[..|a|] == t[..|c|] == c;
    assert b == s[|a| + 1..] == t[|c| + 1..] == d;
  }

  lemma NoSpaceInName(zone: string, name: string)
    requires NameOk(zone, name)
    ensures ' ' !in name
  {
    hide IsLower, Zones.Holds, HasSuffix;
    var bare := TrimPrefix(name, "*.");
    if HasPrefix(name, "*.") {
      forall i | 0 <= i < |name| ensures name[i] != ' ' {
        if i < 2 {
          assert name[i] == "*."[i];
        } else {
          assert bare[i - 2] == name[i];
        }
      }
    } else {
      assert bare == name;
    }
  }

  lemma NoSpaceInKind(kind: string)
    requires kind in ["A", "AAAA", "CNAME"]
    ensures ' ' !in kind
  {
  }

  /** The printed key of an entry determines its name, type and content. */
  lemma KeyIsAlike(zone: string, a: Record, b: Record)
    requires EntryOk(zone, a) && EntryOk(zone, b)
    ensures Key(a) == Key(b) <==> Alike(a, b)
  {
    NoSpaceInName(zone, a.name);
    NoSpaceInName(zone, b.name);
    NoSpaceInKind(a.kind);
    NoSpaceInKind(b.kind);
    hide EntryOk;
    KeyParts(a);
    KeyParts(b);
    hide Key;
    if Key(a) == Key(b) {
      SpaceSplits(a.name, a.kind + " " + a.content, b.name, b.kind + " " + b.content);
      SpaceSplits(a.kind, a.content, b.kind, b.content);
    }
  }

  lemma KeyParts(e: Record)
    ensures Key(e) == e.name + " " + (e.kind + " " + e.content)
  {
  }

  function KeySet(entries: seq<Record>): set<string> {
    if entries == [] then {} else KeySet(entries[..|entries| - 1]) + {Key(entries[|entries| - 1])}
  }

  function NameSet(entries: seq<Record>): set<string> {
    if entries == [] then {} else NameSet(entries[..|entries| - 1]) + {entries[|entries| - 1].name}
  }

  function CnameSet(entries: seq<Record>): set<string> {
    if entries == [] then {}
    else
      var front, last := CnameSet(entries[..|entries| - 1]), entries[|entries| - 1];
      if last.kind == "CNAME" then front + {last.name} else front
  }

  lemma {:induction false} SetsHold(entries: seq<Record>)
    ensures forall k :: k in KeySet(entries) <==> exists i :: 0 <= i < |entries| && Key(entries[i]) == k
    ensures forall n :: n in NameSet(entries) <==> exists i :: 0 <= i < |entries| && entries[i].name == n
    ensures forall n :: n in CnameSet(entries) <==>
      exists i :: 0 <= i < |entries| && entries[i].name == n && entries[i].kind == "CNAME"
  {
    hide Key;
    if entries != [] {
      var n := |entries| - 1;
      SetsHold(entries[..n]);
      assert forall i :: 0 <= i < n ==> entries[..n][i] == entries[i];
    }
  }

  ghost predicate Noted(entries: seq<Record>, seen: set<string>, cname: map<string, bool>, named: map<string, bool>) {
    && seen == KeySet(entries) && named.Keys == NameSet(entries)
    && forall n :: (n in cname && cname[n]) <==> n in CnameSet(entries)
  }

  function WithName(cname: map<string, bool>, e: Record): map<string, bool> {
    cname[e.name := (e.name in cname && cname[e.name]) || e.kind == "CNAME"]
  }

  /** The entry repeats an earlier one, or a CNAME would share its name. */
  predicate Clash(e: Record, seen: set<string>, cname: map<string, bool>, named: map<string, bool>) {
    Key(e) in seen || (e.name in cname && cname[e.name]) || (e.kind == "CNAME" && e.name in named)
  }

  lemma NotedStep(entries: seq<Record>, e: Record, seen: set<string>, cname: map<string, bool>,
      named: map<string, bool>)
    requires Noted(entries, seen, cname, named)
    ensures Noted(entries + [e], seen + {Key(e)}, WithName(cname, e), named[e.name := true])
  {
    hide Key;
    assert (entries + [e])[..|entries|] == entries;
  }

  ghost predicate Checked(zone: string, entries: seq<Record>, i: nat)
    requires i <= |entries|
  {
    && (forall k :: 0 <= k < i ==> EntryOk(zone, entries[k]))
    && forall k, l :: 0 <= k < l < i ==> Together(entries[k], entries[l])
  }

  lemma CheckedStep(zone: string, entries: seq<Record>, i: nat, clash: bool)
    requires i < |entries| && Checked(zone, entries, i)
    requires EntryOk(zone, entries[i]) ==> (clash <==> exists k :: 0 <= k < i && !Together(entries[k], entries[i]))
    ensures EntryOk(zone, entries[i]) && !clash ==> Checked(zone, entries, i + 1)
    ensures !EntryOk(zone, entries[i]) || clash ==> !RecordsOk(zone, entries)
  {
    hide EntryOk, Together, IsLower;
  }

  lemma ClashMeans(zone: string, entries: seq<Record>, i: nat, seen: set<string>, cname: map<string, bool>,
      named: map<string, bool>)
    requires i < |entries| && Checked(zone, entries, i) && Noted(entries[..i], seen, cname, named)
    requires EntryOk(zone, entries[i])
    ensures Clash(entries[i], seen, cname, named) <==> exists k :: 0 <= k < i && !Together(entries[k], entries[i])
  {
    hide *;
    KeysBefore(zone, entries, i);
    ClashIs(entries, i, seen, cname, named);
  }

  lemma EntryChecked(zone: string, entries: seq<Record>, i: nat, seen: set<string>, cname: map<string, bool>,
      named: map<string, bool>)
    requires i < |entries| && Checked(zone, entries, i) && Noted(entries[..i], seen, cname, named)
    requires EntryOk(zone, entries[i])
    ensures Clash(entries[i], seen, cname, named) ==> !RecordsOk(zone, entries)
    ensures !Clash(entries[i], seen, cname, named) ==> Checked(zone, entries, i + 1)
    ensures Noted(entries[..i + 1], seen + {Key(entries[i])}, WithName(cname, entries[i]),
      named[entries[i].name := true])
  {
    hide *;
    var e := entries[i];
    var clash := Clash(e, seen, cname, named);
    ClashMeans(zone, entries, i, seen, cname, named);
    CheckedStep(zone, entries, i, clash);
    NotedStep(entries[..i], e, seen, cname, named);
    assert entries[..i + 1] == entries[..i] + [e];
  }

  method ValidateRecords(zone: string, entries: seq<Record>) returns (ok: bool)
    ensures ok <==> RecordsOk(zone, entries)
  {
    if |entries| == 0 {
      return true;
    }
    if zone == "" || !IsLower(zone) {
      return false;
    }
    AllChecked(zone, entries);
    NotedNothing();
    hide *;
    var seen: set<string>, cname: map<string, bool>, named: map<string, bool> := {}, map[], map[];
    for i := 0 to |entries|
      invariant Checked(zone, entries, i)
      invariant Noted(entries[..i], seen, cname, named)
    {
      var e := entries[i];
      if !EntryOk(zone, e) {
        CheckedStep(zone, entries, i, false);
        return false;
      }
      EntryChecked(zone, entries, i, seen, cname, named);
      if Clash(e, seen, cname, named) {
        return false;
      }
      seen := seen + {Key(e)};
      cname := WithName(cname, e);
      named := named[e.name := true];
    }
    ok := true;
  }

  lemma AllChecked(zone: string, entries: seq<Record>)
    requires entries != [] && zone != "" && IsLower(zone)
    ensures Checked(zone, entries, 0)
    ensures Checked(zone, entries, |entries|) ==> RecordsOk(zone, entries)
  {
    hide EntryOk, Together, IsLower;
  }

  lemma NotedNothing()
    ensures Noted([], {}, map[], map[])
  {
  }

  lemma KeysBefore(zone: string, entries: seq<Record>, i: nat)
    requires i < |entries| && Checked(zone, entries, i) && EntryOk(zone, entries[i])
    ensures forall k :: 0 <= k < i ==> (Key(entries[k]) == Key(entries[i]) <==> Alike(entries[k], entries[i]))
  {
    forall k | 0 <= k < i ensures Key(entries[k]) == Key(entries[i]) <==> Alike(entries[k], entries[i]) {
      KeyIsAlike(zone, entries[k], entries[i]);
    }
  }

  lemma ClashIs(entries: seq<Record>, i: nat, seen: set<string>, cname: map<string, bool>, named: map<string, bool>)
    requires i < |entries| && Noted(entries[..i], seen, cname, named)
    requires forall k :: 0 <= k < i ==> (Key(entries[k]) == Key(entries[i]) <==> Alike(entries[k], entries[i]))
    ensures Clash(entries[i], seen, cname, named) <==> exists k :: 0 <= k < i && !Together(entries[k], entries[i])
  {
    hide Key;
    var e, before := entries[i], entries[..i];
    SetsHold(before);
    assert forall k :: 0 <= k < i ==> before[k] == entries[k];
    if k :| 0 <= k < i && !Together(entries[k], e) {
      assert before[k] == entries[k];
    }
    if Key(e) in seen {
      var k :| 0 <= k < |before| && Key(before[k]) == Key(e);
      assert !Together(entries[k], e);
    }
    if e.name in cname && cname[e.name] {
      var k :| 0 <= k < |before| && before[k].name == e.name && before[k].kind == "CNAME";
      assert !Together(entries[k], e);
    }
    if e.kind == "CNAME" && e.name in named {
      var k :| 0 <= k < |before| && before[k].name == e.name;
      assert !Together(entries[k], e);
    }
  }
}
