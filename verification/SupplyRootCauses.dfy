/** Supply-chain findings regrouped into root causes: one per package, version, fix and package URL. */
module SupplyRootCauses {
  import opened Findings
  import opened Grouping
  import opened Lists

  const MAX_SUPPLY_ROOT_CAUSES: nat := 8

  datatype SupplyKey = SupplyKey(package: string, version: string, fix: string, purl: string)

  datatype SupplyCause = SupplyCause(cve: string, cves: seq<string>, severity: Severity, package: string, count: int)

  type Upgrade = Entry<SupplyKey, SupplyCause>

  function PackageOf(f: SupplyFinding): string { if f.package == "" then "unknown-package" else f.package }

  function KeyOf(f: SupplyFinding): SupplyKey {
    SupplyKey(if f.package == "" then "unknown-package" else f.folded, f.version, f.fix, f.purl)
  }

  function Considered(findings: seq<SupplyFinding>, allowed: set<Severity>): seq<SupplyFinding> {
    if findings == [] then [] else
      var f := findings[|findings| - 1];
      Considered(findings[..|findings| - 1], allowed) + if f.severity in allowed then [f] else []
  }

  // ---------- the dictionary of root causes ----------

  function NewUpgrade(f: SupplyFinding): SupplyCause {
    SupplyCause(f.cve, if f.cve == "" then [] else [f.cve], f.severity, PackageOf(f), 1)
  }

  function AddToUpgrade(c: SupplyCause, f: SupplyFinding): SupplyCause {
    c.(count := c.count + 1,
       severity := if Rank(f.severity) > Rank(c.severity) then f.severity else c.severity,
       cves := if f.cve != "" && f.cve !in c.cves then c.cves + [f.cve] else c.cves,
       cve := if c.cve == "" && f.cve != "" then f.cve else c.cve)
  }

  function Upgrades(findings: seq<SupplyFinding>, allowed: set<Severity>): seq<Upgrade> {
    Grouped(Considered(findings, allowed), KeyOf, NewUpgrade, AddToUpgrade)
  }

  // ---------- what a root cause should say about its members ----------

  function CveOf(f: SupplyFinding): string { f.cve }

  function Identified(members: seq<SupplyFinding>): seq<SupplyFinding> {
    if members == [] then [] else
      var f := members[|members| - 1];
      Identified(members[..|members| - 1]) + if f.cve == "" then [] else [f]
  }

  /** The distinct vulnerability identifiers of the members, in the order they are met. */
  function CveIds(members: seq<SupplyFinding>): seq<string> { Keys(Identified(members), CveOf) }

  /** The first severity of the highest rank among the members. */
  function Worst(first: SupplyFinding, rest: seq<SupplyFinding>): Severity {
    if rest == [] then first.severity else
      var w := Worst(first, rest[..|rest| - 1]);
      if Rank(rest[|rest| - 1].severity) > Rank(w) then rest[|rest| - 1].severity else w
  }

  function UpgradeOf(first: SupplyFinding, rest: seq<SupplyFinding>): SupplyCause {
    var ids := CveIds([first] + rest);
    SupplyCause(if ids == [] then "" else ids[0], ids, Worst(first, rest), PackageOf(first), 1 + |rest|)
  }

  lemma IdentifiedOneMore(members: seq<SupplyFinding>, f: SupplyFinding)
    ensures Identified(members + [f]) == Identified(members) + if f.cve == "" then [] else [f]
    ensures CveIds(members + [f])
         == if f.cve == "" || f.cve in CveIds(members) then CveIds(members) else CveIds(members) + [f.cve]
  {
    assert (members + [f])[..|members|] == members;
    var named := Identified(members);
    assert named + [] == named;
    assert (named + [f])[..|named|] == named;
  }

  lemma {:induction false} IdentifiedMembers(members: seq<SupplyFinding>)
    ensures forall f :: f in Identified(members) <==> f in members && f.cve != ""
  {
    if members != [] {
      IdentifiedMembers(members[..|members| - 1]);
      assert members == members[..|members| - 1] + [members[|members| - 1]];
    }
  }

  lemma CveIdsAreTheMembers(members: seq<SupplyFinding>)
    ensures Distinct(CveIds(members))
    ensures forall id :: id in CveIds(members) <==> id != "" && exists f :: f in members && f.cve == id
  {
    var named := Identified(members);
    KeysAreDistinct(named, CveOf);
    IdentifiedMembers(members);
    forall id ensures id in CveIds(members) <==> id != "" && exists f :: f in members && f.cve == id {
      KeyHasMembers(named, CveOf, id);
      MembersHaveTheKey(named, CveOf, id);
      if id in CveIds(members) {
        var f := Members(named, CveOf, id)[0];
        assert f in Members(named, CveOf, id);
        assert f in members && f.cve == id;
      }
    }
  }

  lemma {:induction false} WorstIsMaximal(first: SupplyFinding, rest: seq<SupplyFinding>)
    ensures forall f :: f in [first] + rest ==> Rank(f.severity) <= Rank(Worst(first, rest))
    ensures exists f :: f in [first] + rest && f.severity == Worst(first, rest)
  {
    var all := [first] + rest;
    if rest == [] {
      assert first in all;
    } else {
      var before, last := rest[..|rest| - 1], rest[|rest| - 1];
      WorstIsMaximal(first, before);
      assert all == ([first] + before) + [last];
      var f :| f in [first] + before && f.severity == Worst(first, before);
      assert f in all && last in all;
    }
  }

  lemma FirstJoins(f: SupplyFinding)
    ensures NewUpgrade(f) == UpgradeOf(f, [])
  {
    IdentifiedOneMore([], f);
    assert [f] + [] == [] + [f];
  }

  lemma CveIdsAreNamed(members: seq<SupplyFinding>, i: nat)
    requires i < |CveIds(members)|
    ensures CveIds(members)[i] != ""
  {
    CveIdsAreTheMembers(members);
    assert CveIds(members)[i] in CveIds(members);
  }

  lemma FirstIdOneMore(members: seq<SupplyFinding>, f: SupplyFinding)
    ensures var before, after := CveIds(members), CveIds(members + [f]);
      && (before == [] ==> after == if f.cve == "" then [] else [f.cve])
      && (before != [] ==> before[0] != "" && after != [] && after[0] == before[0])
  {
    IdentifiedOneMore(members, f);
    if CveIds(members) != [] { CveIdsAreNamed(members, 0); }
  }

  lemma WorstOneMore(first: SupplyFinding, rest: seq<SupplyFinding>, f: SupplyFinding)
    ensures Worst(first, rest + [f])
         == if Rank(f.severity) > Rank(Worst(first, rest)) then f.severity else Worst(first, rest)
  {
    assert (rest + [f])[..|rest + [f]| - 1] == rest;
  }

  lemma OneMoreJoins(first: SupplyFinding, rest: seq<SupplyFinding>, f: SupplyFinding)
    ensures AddToUpgrade(UpgradeOf(first, rest), f) == UpgradeOf(first, rest + [f])
  {
    var members := [first] + rest;
    assert [first] + (rest + [f]) == members + [f];
    FirstIdOneMore(members, f);
    WorstOneMore(first, rest, f);
    var c, d := AddToUpgrade(UpgradeOf(first, rest), f), UpgradeOf(first, rest + [f]);
    assert c.cves == d.cves by { IdentifiedOneMore(members, f); }
  }

  lemma UpgradesAccumulate()
    ensures Accumulates(NewUpgrade, AddToUpgrade, UpgradeOf)
  {
    forall f ensures NewUpgrade(f) == UpgradeOf(f, []) { FirstJoins(f); }
    forall first, rest, f ensures AddToUpgrade(UpgradeOf(first, rest), f) == UpgradeOf(first, rest + [f]) {
      OneMoreJoins(first, rest, f);
    }
  }

  lemma UpgradesAreRecords(findings: seq<SupplyFinding>, allowed: set<Severity>)
    ensures GroupsAreRecords(Upgrades(findings, allowed), Considered(findings, allowed), KeyOf, UpgradeOf)
  {
    UpgradesAccumulate();
    GroupedIsRecords(Considered(findings, allowed), KeyOf, NewUpgrade, AddToUpgrade, UpgradeOf);
  }

  /** Every root cause counts its members, carries their highest severity and lists exactly their identifiers. */
  lemma UpgradeDescribesItsMembers(findings: seq<SupplyFinding>, allowed: set<Severity>, i: nat)
    requires i < |Upgrades(findings, allowed)|
    ensures var u := Upgrades(findings, allowed)[i];
      var members := Members(Considered(findings, allowed), KeyOf, u.key);
      && u.value.count == |members| > 0
      && u.value.package == (if members[0].package == "" then "unknown-package" else members[0].package)
      && (forall f :: f in members ==> Rank(f.severity) <= Rank(u.value.severity))
      && (exists f :: f in members && f.severity == u.value.severity)
      && Distinct(u.value.cves)
      && (forall id :: id in u.value.cves <==> id != "" && exists f :: f in members && f.cve == id)
      && u.value.cve == if u.value.cves == [] then "" else u.value.cves[0]
  {
    var items := Considered(findings, allowed);
    UpgradesAreRecords(findings, allowed);
    var u := Upgrades(findings, allowed)[i];
    var members := Members(items, KeyOf, Keys(items, KeyOf)[i]);
    assert EntryIsRecord(u, Keys(items, KeyOf)[i], members, UpgradeOf);
    assert members == [members[0]] + members[1..];
    CveIdsAreTheMembers(members);
    WorstIsMaximal(members[0], members[1..]);
  }

  function One(f: SupplyFinding): int { 1 }

  function UpgradeCount(u: Upgrade): int { u.value.count }

  lemma {:induction false} TotalOfOnes(s: seq<SupplyFinding>)
    ensures Total(s, One) == |s|
  {
    if s != [] { TotalOfOnes(s[..|s| - 1]); }
  }

  /** The counts of the root causes add up to exactly the number of findings in scope. */
  lemma GroupingConservesFindings(findings: seq<SupplyFinding>, allowed: set<Severity>)
    ensures Total(Upgrades(findings, allowed), UpgradeCount) == |Considered(findings, allowed)|
  {
    var items := Considered(findings, allowed);
    UpgradesAreRecords(findings, allowed);
    forall k, members: seq<SupplyFinding>, u | EntryIsRecord(u, k, members, UpgradeOf)
      ensures UpgradeCount(u) == Total(members, One)
    {
      TotalOfOnes(members);
    }
    EntriesConserveTotals(Upgrades(findings, allowed), items, KeyOf, UpgradeOf, One, UpgradeCount);
    TotalOfOnes(items);
  }

  // ---------- the loop ----------

  function SupplySortKey(u: Upgrade): SortKey {
    SortKey(Rank(u.value.severity), u.value.count, u.value.package, u.key.fix)
  }

  method MergeUpgrade(grouped: seq<Upgrade>, f: SupplyFinding) returns (after: seq<Upgrade>)
    ensures after == Upsert(grouped, KeyOf(f), f, NewUpgrade, AddToUpgrade)
  {
    var key := KeyOf(f);
    var at := Find(grouped, key);
    if at == |grouped| {
      var related := if f.cve == "" then [] else [f.cve];
      after := grouped + [Entry(key, SupplyCause(f.cve, related, f.severity, PackageOf(f), 1))];
      return;
    }
    var existing := grouped[at].value;
    existing := existing.(count := existing.count + 1);
    if Rank(f.severity) > Rank(existing.severity) { existing := existing.(severity := f.severity); }
    if f.cve != "" && f.cve !in existing.cves { existing := existing.(cves := existing.cves + [f.cve]); }
    if existing.cve == "" && f.cve != "" { existing := existing.(cve := f.cve); }
    after := grouped[at := Entry(key, existing)];
  }

  method BuildSupplyRootCauses(findings: seq<SupplyFinding>, allowed: set<Severity>)
    returns (selected: seq<Upgrade>, rawTotal: nat, available: nat)
    ensures selected == Top(Upgrades(findings, allowed), SupplySortKey, 8)
    ensures rawTotal == |Considered(findings, allowed)| && available == |Upgrades(findings, allowed)|
  {
    var grouped: seq<Upgrade> := [];
    rawTotal := 0;
    for i := 0 to |findings|
      invariant grouped == Upgrades(findings[..i], allowed) && rawTotal == |Considered(findings[..i], allowed)|
    {
      var f := findings[i];
      assert findings[..i + 1][..i] == findings[..i];
      ghost var before := Considered(findings[..i], allowed);
      assert before + [] == before;
      if f.severity in allowed {
        rawTotal := rawTotal + 1;
        grouped := MergeUpgrade(grouped, f);
      }
    }
    assert findings[..|findings|] == findings;
    available := |grouped|;
    selected := Top(grouped, SupplySortKey, MAX_SUPPLY_ROOT_CAUSES);
  }
}
