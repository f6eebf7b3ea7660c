/** Which root causes are taken up first, and which findings make one root cause. */
module RootCauseOrder {
  import opened Findings
  import opened Ordering
  import opened Grouping
  import C = CodeRootCauses
  import S = SupplyRootCauses

  /** Critical before high, high before medium, medium before low, low before anything else. */
  predicate AtLeastAsSevere(a: Severity, b: Severity) {
    && (b.Critical? ==> a.Critical?)
    && (b.High? ==> a.Critical? || a.High?)
    && (b.Medium? ==> a.Critical? || a.High? || a.Medium?)
    && (b.Low? ==> !a.Other?)
  }

  /** Worse first; of the same severity, the one with more occurrences first; then by name, and by what comes after it. */
  predicate TakenBefore(a: Severity, aCount: int, aNames: (string, string), b: Severity, bCount: int, bNames: (string, string)) {
    && AtLeastAsSevere(a, b)
    && (AtLeastAsSevere(b, a) ==>
          && aCount >= bCount
          && (aCount == bCount ==>
                if aNames.0 == bNames.0 then StrLe(aNames.1, bNames.1) else StrLe(aNames.0, bNames.0)))
  }

  predicate CodeBefore(a: C.Cause, b: C.Cause) {
    TakenBefore(a.value.severity, a.value.count, (a.value.cwe, a.value.path),
                b.value.severity, b.value.count, (b.value.cwe, b.value.path))
  }

  predicate SupplyBefore(a: S.Upgrade, b: S.Upgrade) {
    TakenBefore(a.value.severity, a.value.count, (a.value.package, a.key.fix),
                b.value.severity, b.value.count, (b.value.package, b.key.fix))
  }

  lemma PrecedingIsTakenBefore(a: SortKey, b: SortKey, s: Severity, t: Severity)
    requires Precedes(a, b) && a.rank == Rank(s) && b.rank == Rank(t)
    ensures TakenBefore(s, a.count, (a.name, a.detail), t, b.count, (b.name, b.detail))
  {
  }

  lemma TopIsOrdered<T(!new)>(items: seq<T>, key: T -> SortKey, limit: nat, i: nat, j: nat)
    requires i < j < |Top(items, key, limit)|
    ensures Precedes(key(Top(items, key, limit)[i]), key(Top(items, key, limit)[j]))
  {
    var le := (a: T, b: T) => KeyedLe(key, a, b);
    var ranked := Ranked(items, key);
    KeyedLeIsTotalPreorder(key);
    SortSorts(items, le);
    assert le(ranked[i], ranked[j]);
  }

  /** Of the code root causes, none left out comes before one selected. */
  lemma WorstCodeFirst(findings: seq<CodeFinding>, allowed: set<Severity>, taken: C.Cause, left: C.Cause)
    requires taken in Top(C.Causes(findings, allowed), C.CodeSortKey, 10)
    requires left in Dropped(C.Causes(findings, allowed), C.CodeSortKey, 10)
    ensures CodeBefore(taken, left)
  {
    NothingDroppedOutranks(C.Causes(findings, allowed), C.CodeSortKey, 10);
    PrecedingIsTakenBefore(C.CodeSortKey(taken), C.CodeSortKey(left), taken.value.severity, left.value.severity);
  }

  /** And the selected ones stand in that order. */
  lemma CodeIsInOrder(findings: seq<CodeFinding>, allowed: set<Severity>, i: nat, j: nat)
    requires i < j < |Top(C.Causes(findings, allowed), C.CodeSortKey, 10)|
    ensures var top := Top(C.Causes(findings, allowed), C.CodeSortKey, 10); CodeBefore(top[i], top[j])
  {
    var causes := C.Causes(findings, allowed);
    var a, b := Top(causes, C.CodeSortKey, 10)[i], Top(causes, C.CodeSortKey, 10)[j];
    TopIsOrdered(causes, C.CodeSortKey, 10, i, j);
    PrecedingIsTakenBefore(C.CodeSortKey(a), C.CodeSortKey(b), a.value.severity, b.value.severity);
  }

  lemma WorstSupplyFirst(findings: seq<SupplyFinding>, allowed: set<Severity>, taken: S.Upgrade, left: S.Upgrade)
    requires taken in Top(S.Upgrades(findings, allowed), S.SupplySortKey, 8)
    requires left in Dropped(S.Upgrades(findings, allowed), S.SupplySortKey, 8)
    ensures SupplyBefore(taken, left)
  {
    NothingDroppedOutranks(S.Upgrades(findings, allowed), S.SupplySortKey, 8);
    PrecedingIsTakenBefore(S.SupplySortKey(taken), S.SupplySortKey(left), taken.value.severity, left.value.severity);
  }

  lemma SupplyIsInOrder(findings: seq<SupplyFinding>, allowed: set<Severity>, i: nat, j: nat)
    requires i < j < |Top(S.Upgrades(findings, allowed), S.SupplySortKey, 8)|
    ensures var top := Top(S.Upgrades(findings, allowed), S.SupplySortKey, 8); SupplyBefore(top[i], top[j])
  {
    var upgrades := S.Upgrades(findings, allowed);
    var a, b := Top(upgrades, S.SupplySortKey, 8)[i], Top(upgrades, S.SupplySortKey, 8)[j];
    TopIsOrdered(upgrades, S.SupplySortKey, 8, i, j);
    PrecedingIsTakenBefore(S.SupplySortKey(a), S.SupplySortKey(b), a.value.severity, b.value.severity);
  }

  // ---------- which findings make one root cause ----------

  /** A finding without a weakness counts among those whose weakness is called unknown. */
  function WeaknessName(f: CodeFinding): string { if f.cwe == "" then "unknown" else f.cwe }

  function FolderName(path: string): string { if path == "" then "__repo__" else path }

  /** The finding has an occurrence in the file; or it has none at all and is itself about the file. */
  predicate InFile(f: CodeFinding, path: string) {
    if f.occurrences == [] then path == FolderName(f.path)
    else exists o :: o in f.occurrences && path == FolderName(o.path)
  }

  ghost predicate KeyAmong<K(!new), G(!new)>(entries: seq<Entry<K, G>>, k: K) { exists e :: e in entries && e.key == k }

  ghost predicate ItemAmong<K(!new), E(!new)>(items: seq<E>, key: E -> K, k: K) { exists x :: x in items && key(x) == k }

  lemma EntriesHaveTheKeys<K(!new), E(!new), G(!new)>(
      entries: seq<Entry<K, G>>, items: seq<E>, key: E -> K, record: (E, seq<E>) -> G, k: K)
    requires GroupsAreRecords(entries, items, key, record)
    ensures KeyAmong(entries, k) <==> ItemAmong(items, key, k)
  {
    FindsTheKey(entries, items, key, record, k);
    KeyHasMembers(items, key, k);
    MembersHaveTheKey(items, key, k);
    if KeyAmong(entries, k) {
      var e :| e in entries && e.key == k;
      assert Find(entries, k) < |entries|;
      assert Members(items, key, k)[0] in Members(items, key, k);
    }
    if ItemAmong(items, key, k) {
      var x :| x in items && key(x) == k;
      assert x in Members(items, key, k);
      assert entries[Find(entries, k)] in entries;
    }
  }

  lemma PartsAreItsFiles(f: CodeFinding, path: string)
    ensures KeyAmong(C.Parts(f), path) <==> InFile(f, path)
  {
    if f.occurrences == [] {
      assert C.Parts(f)[0] in C.Parts(f);
    } else {
      C.PartsHoldEveryOccurrence(f);
      EntriesHaveTheKeys(C.Parts(f), f.occurrences, C.Folder, C.PartRecord, path);
      if ItemAmong(f.occurrences, C.Folder, path) {
        var o :| o in f.occurrences && C.Folder(o) == path;
        assert path == FolderName(o.path);
      }
      if InFile(f, path) {
        var o :| o in f.occurrences && path == FolderName(o.path);
        assert C.Folder(o) == path;
      }
    }
  }

  lemma AmongTwo<K(!new), E(!new)>(a: seq<E>, b: seq<E>, key: E -> K, k: K)
    ensures ItemAmong(a + b, key, k) <==> ItemAmong(a, key, k) || ItemAmong(b, key, k)
  {
    if ItemAmong(a, key, k) {
      var x :| x in a && key(x) == k;
      assert x in a + b;
    }
    if ItemAmong(b, key, k) {
      var x :| x in b && key(x) == k;
      assert x in a + b;
    }
  }

  /** The finding makes up, alone or with others, the root cause of this weakness, severity and file. */
  predicate Feeds(f: CodeFinding, k: C.CodeKey) {
    WeaknessName(f) == k.cwe && f.severity == k.severity && InFile(f, k.path)
  }

  lemma {:induction false} SlicesOfParts(f: CodeFinding, parts: seq<Entry<string, seq<Occurrence>>>, k: C.CodeKey)
    ensures ItemAmong(C.ToSlices(f, parts), C.SliceKey, k)
       <==> WeaknessName(f) == k.cwe && f.severity == k.severity && KeyAmong(parts, k.path)
  {
    if parts != [] {
      var before, part := parts[..|parts| - 1], parts[|parts| - 1];
      SlicesOfParts(f, before, k);
      AmongTwo(C.ToSlices(f, before), [C.ToSlice(f, part)], C.SliceKey, k);
      assert parts == before + [part];
      assert C.ToSlice(f, part) in [C.ToSlice(f, part)];
      if KeyAmong(before, k.path) {
        var e :| e in before && e.key == k.path;
        assert e in parts;
      }
      if part.key == k.path { assert part in parts; }
    }
  }

  lemma {:induction false} SlicesOfFindings(findings: seq<CodeFinding>, allowed: set<Severity>, k: C.CodeKey)
    ensures ItemAmong(C.AllSlices(findings, allowed), C.SliceKey, k)
       <==> exists f :: f in findings && f.severity in allowed && Feeds(f, k)
  {
    if findings != [] {
      var before, f := findings[..|findings| - 1], findings[|findings| - 1];
      SlicesOfFindings(before, allowed, k);
      assert findings == before + [f];
      AmongTwo(C.AllSlices(before, allowed), if f.severity in allowed then C.ToSlices(f, C.Parts(f)) else [], C.SliceKey, k);
      SlicesOfParts(f, C.Parts(f), k);
      PartsAreItsFiles(f, k.path);
      if f.severity in allowed && Feeds(f, k) { assert f in findings; }
      if g :| g in before && g.severity in allowed && Feeds(g, k) { assert g in findings; }
    }
  }

  /**
   * There is a root cause for exactly those weaknesses, severities and files that some finding in scope has
   * together, and only one for each.
   */
  lemma OneCausePerWeaknessSeverityAndFile(findings: seq<CodeFinding>, allowed: set<Severity>, k: C.CodeKey)
    ensures KeyAmong(C.Causes(findings, allowed), k)
       <==> exists f :: f in findings && f.severity in allowed && Feeds(f, k)
    ensures forall i, j :: 0 <= i < j < |C.Causes(findings, allowed)| ==>
      C.Causes(findings, allowed)[i].key != C.Causes(findings, allowed)[j].key
  {
    var causes, slices := C.Causes(findings, allowed), C.AllSlices(findings, allowed);
    C.CausesAreRecords(findings, allowed);
    EntriesHaveTheKeys(causes, slices, C.SliceKey, C.CauseOf, k);
    SlicesOfFindings(findings, allowed, k);
    KeysAreDistinct(slices, C.SliceKey);
    assert forall i :: 0 <= i < |causes| ==> causes[i].key == Keys(slices, C.SliceKey)[i];
  }

  lemma {:induction false} ConsideredAre(findings: seq<SupplyFinding>, allowed: set<Severity>)
    ensures forall f :: f in S.Considered(findings, allowed) <==> f in findings && f.severity in allowed
  {
    if findings != [] {
      ConsideredAre(findings[..|findings| - 1], allowed);
      assert findings == findings[..|findings| - 1] + [findings[|findings| - 1]];
    }
  }

  /** The finding asks for this upgrade: a nameless package is called unknown, and case does not tell packages apart. */
  predicate Asks(f: SupplyFinding, k: S.SupplyKey) {
    && k.version == f.version && k.fix == f.fix && k.purl == f.purl
    && k.package == (if f.package == "" then "unknown-package" else f.folded)
  }

  /** The same for dependencies: one root cause for each package, version, fix and package URL. */
  lemma OneCausePerUpgrade(findings: seq<SupplyFinding>, allowed: set<Severity>, k: S.SupplyKey)
    ensures KeyAmong(S.Upgrades(findings, allowed), k)
       <==> exists f :: f in findings && f.severity in allowed && Asks(f, k)
    ensures forall i, j :: 0 <= i < j < |S.Upgrades(findings, allowed)| ==>
      S.Upgrades(findings, allowed)[i].key != S.Upgrades(findings, allowed)[j].key
  {
    var upgrades, items := S.Upgrades(findings, allowed), S.Considered(findings, allowed);
    S.UpgradesAreRecords(findings, allowed);
    EntriesHaveTheKeys(upgrades, items, S.KeyOf, S.UpgradeOf, k);
    ConsideredAre(findings, allowed);
    KeysAreDistinct(items, S.KeyOf);
    assert forall i :: 0 <= i < |upgrades| ==> upgrades[i].key == Keys(items, S.KeyOf)[i];
    if f :| f in findings && f.severity in allowed && Asks(f, k) { assert f in items && S.KeyOf(f) == k; }
    if ItemAmong(items, S.KeyOf, k) {
      var f :| f in items && S.KeyOf(f) == k;
      assert Asks(f, k);
    }
  }

  /** Critical and high findings are always in scope, medium and low ones only in a scan of all severities. */
  lemma WhatIsInScope(code: seq<CodeFinding>, scope: Scope, k: C.CodeKey)
    ensures KeyAmong(C.Causes(code, InScope(scope)), k)
       <==> (k.severity.Critical? || k.severity.High? || (scope == All && (k.severity.Medium? || k.severity.Low?)))
            && exists f :: f in code && Feeds(f, k)
  {
    OneCausePerWeaknessSeverityAndFile(code, InScope(scope), k);
    if f :| f in code && Feeds(f, k) { assert f.severity == k.severity; }
  }
}
