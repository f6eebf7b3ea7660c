/** What a cycle's batches hold, with the default limits. */
module BatchPlan {
  import opened Findings
  import opened Grouping
  import opened RemediationBatches
  import C = CodeRootCauses
  import S = SupplyRootCauses

  // ---------- what is counted ----------

  /** A code finding counts as much as it states, one when it states nothing or zero; the others count one each. */
  lemma {:induction false} CountsAreStated(code: seq<CodeFinding>, severities: set<Severity>)
    ensures CodeCount(code, severities) == Total(code, (f: CodeFinding) =>
      if f.severity !in severities then 0 else if f.count == Missing || f.count == Stated(0) then 1 else f.count.n)
  {
    if code != [] { CountsAreStated(code[..|code| - 1], severities); }
  }

  // ---------- what is selected ----------

  predicate Listed(s: Severity, scope: Scope) {
    s.Critical? || s.High? || (scope == All && (s.Medium? || s.Low?))
  }

  lemma ListedIffInScope(s: Severity, scope: Scope)
    ensures s in InScope(scope) <==> Listed(s, scope)
  {
  }

  function First<T>(s: seq<T>, n: nat): seq<T> { if |s| < n then s else s[..n] }

  lemma NoCausesIff(code: seq<CodeFinding>, scope: Scope)
    ensures Top(C.Causes(code, InScope(scope)), C.CodeSortKey, 10) == [] <==> forall f :: f in code ==> !Listed(f.severity, scope)
  {
    var allowed := InScope(scope);
    SlicesIffInScope(code, allowed);
    GroupedIsEmpty(C.AllSlices(code, allowed), C.SliceKey, C.NewCause, C.AddToCause);
    TopIsEmptyIffNothing(C.Causes(code, allowed), C.CodeSortKey, 10);
    forall f | f in code ensures f.severity in allowed <==> Listed(f.severity, scope) { ListedIffInScope(f.severity, scope); }
  }

  lemma NoUpgradesIff(supply: seq<SupplyFinding>, scope: Scope)
    ensures Top(S.Upgrades(supply, InScope(scope)), S.SupplySortKey, 8) == []
       <==> forall f :: f in supply ==> !Listed(f.severity, scope)
  {
    var allowed := InScope(scope);
    var items := S.Considered(supply, allowed);
    ConsideredKeeps(supply, allowed);
    GroupedIsEmpty(items, S.KeyOf, S.NewUpgrade, S.AddToUpgrade);
    TopIsEmptyIffNothing(S.Upgrades(supply, allowed), S.SupplySortKey, 8);
    forall f | f in supply ensures f.severity in allowed <==> Listed(f.severity, scope) { ListedIffInScope(f.severity, scope); }
    assert items != [] ==> items[0] in items;
  }

  /**
   * What is worked on: the ten first root causes of the severities in scope; only in a scan of all severities in
   * which no finding has one of the four, the first ten findings as they are.
   */
  lemma WhichCodeIsSelected(code: seq<CodeFinding>, scope: Scope)
    ensures SelectedCode(code, scope) ==
      if scope == All && forall f :: f in code ==> !Listed(f.severity, All) then Map(First(code, 10), f => RawCode(f))
      else Map(Top(C.Causes(code, InScope(scope)), C.CodeSortKey, 10), c => Cause(c))
  {
    NoCausesIff(code, scope);
    assert FirstN(code, 10) == First(code, 10);
  }

  /** The same for dependencies, of which eight are taken. */
  lemma WhichSupplyIsSelected(supply: seq<SupplyFinding>, scope: Scope)
    ensures SelectedSupply(supply, scope) ==
      if scope == All && forall f :: f in supply ==> !Listed(f.severity, All) then Map(First(supply, 8), f => RawSupply(f))
      else Map(Top(S.Upgrades(supply, InScope(scope)), S.SupplySortKey, 8), u => Upgrade(u))
  {
    NoUpgradesIff(supply, scope);
    assert FirstN(supply, 8) == First(supply, 8);
  }

  // ---------- what is batched ----------

  function CodeOf(batches: seq<Batch>): seq<CodeItem> {
    if batches == [] then [] else CodeOf(batches[..|batches| - 1]) + batches[|batches| - 1].code
  }

  function SupplyOf(batches: seq<Batch>): seq<SupplyItem> {
    if batches == [] then [] else SupplyOf(batches[..|batches| - 1]) + batches[|batches| - 1].supply
  }

  /** The batches pair these chunks. */
  ghost predicate Pairs(batches: seq<Batch>, code: seq<seq<CodeItem>>, supply: seq<seq<SupplyItem>>) {
    forall i :: 0 <= i < |batches| ==> batches[i] == Batch(ChunkAt(code, i), ChunkAt(supply, i))
  }

  lemma {:induction false} BatchesRejoin(batches: seq<Batch>, code: seq<seq<CodeItem>>, supply: seq<seq<SupplyItem>>)
    requires Pairs(batches, code, supply)
    ensures CodeOf(batches) == Rejoined(code, |batches|) && SupplyOf(batches) == Rejoined(supply, |batches|)
  {
    if batches != [] { BatchesRejoin(batches[..|batches| - 1], code, supply); }
  }

  lemma TopIsShort<T(!new)>(items: seq<T>, key: T -> SortKey, limit: nat)
    ensures |Top(items, key, limit)| <= limit
  {
    NothingDroppedOutranks(items, key, limit);
  }

  lemma SelectionIsShort(scan: Scan, scope: Scope)
    ensures |SelectedCode(scan.code, scope)| <= 10 && |SelectedSupply(scan.supply, scope)| <= 8
  {
    WhichCodeIsSelected(scan.code, scope);
    WhichSupplyIsSelected(scan.supply, scope);
    TopIsShort(C.Causes(scan.code, InScope(scope)), C.CodeSortKey, 10);
    TopIsShort(S.Upgrades(scan.supply, InScope(scope)), S.SupplySortKey, 8);
  }

  lemma ShortItemsRejoin<T>(items: seq<T>, size: nat, limit: nat, n: nat)
    requires size > 0 && limit > 0 && |items| <= limit * size && |Pieces(items, size)| <= n
    ensures |Pieces(items, size)| <= limit && Rejoined(Pieces(items, size), n) == items
  {
    PieceCount(items, size, limit);
    BatchesAreAPrefix(items, size, n);
    PieceCount(items, size, n);
  }

  lemma ChunkIsShort<T>(items: seq<T>, size: nat, i: nat)
    requires size > 0
    ensures |ChunkAt(Pieces(items, size), i)| <= size
  {
    PieceAt(items, size, i);
  }

  /**
   * With the default limits nothing selected is left out: whatever the scan, there are one to three batches of at
   * most four code and four dependency items each, and together they hold the selection, in order.
   */
  lemma EverythingSelectedIsBatched(scan: Scan, scope: Scope, batches: seq<Batch>)
    requires var code := Pieces(SelectedCode(scan.code, scope), CODE_PER_BATCH);
      var supply := Pieces(SelectedSupply(scan.supply, scope), SUPPLY_PER_BATCH);
      Pairs(batches, code, supply) && |batches| == BatchCount(|code|, |supply|, MAX_BATCHES)
    ensures 1 <= |batches| <= 3
    ensures CodeOf(batches) == SelectedCode(scan.code, scope) && SupplyOf(batches) == SelectedSupply(scan.supply, scope)
    ensures forall i :: 0 <= i < |batches| ==> |batches[i].code| <= 4 && |batches[i].supply| <= 4
  {
    var code, supply := SelectedCode(scan.code, scope), SelectedSupply(scan.supply, scope);
    SelectionIsShort(scan, scope);
    PieceCount(code, 4, 3);
    PieceCount(supply, 4, 3);
    BatchesRejoin(batches, Pieces(code, 4), Pieces(supply, 4));
    ShortItemsRejoin(code, 4, 3, |batches|);
    ShortItemsRejoin(supply, 4, 3, |batches|);
    forall i | 0 <= i < |batches| ensures |batches[i].code| <= 4 && |batches[i].supply| <= 4 {
      ChunkIsShort(code, 4, i);
      ChunkIsShort(supply, 4, i);
    }
  }
}
