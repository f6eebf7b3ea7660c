/** Which findings a remediation cycle works on, and how the selected root causes are cut into batches. */
module RemediationBatches {
  import opened Ordering
  import opened Findings
  import opened Grouping
  import C = CodeRootCauses
  import S = SupplyRootCauses

  const LARGE_FINDING_THRESHOLD: int := 1000
  const CODE_PER_BATCH: nat := 4
  const SUPPLY_PER_BATCH: nat := 4
  const MAX_BATCHES: nat := 4
  const STAGES: seq<Severity> := [Critical, High]

  datatype Scan = Scan(code: seq<CodeFinding>, supply: seq<SupplyFinding>)

  datatype Mode = Default | MajorComplete | Staged(severity: Severity, count: int) | FellThrough

  datatype Strategy = Strategy(scan: Scan, mode: Mode)

  // ---------- counting and filtering by severity ----------

  function StatedCount(f: CodeFinding): int {
    match f.count
    case Missing => 1
    case Stated(n) => C.AtLeastOne(n)
  }

  function CodeCount(code: seq<CodeFinding>, severities: set<Severity>): int {
    if code == [] then 0 else
      var f := code[|code| - 1];
      CodeCount(code[..|code| - 1], severities) + if f.severity in severities then StatedCount(f) else 0
  }

  function FindingCount(scan: Scan, severities: set<Severity>): int {
    CodeCount(scan.code, severities) + |S.Considered(scan.supply, severities)|
  }

  function OnlyCode(code: seq<CodeFinding>, severities: set<Severity>): seq<CodeFinding> {
    if code == [] then [] else
      var f := code[|code| - 1];
      OnlyCode(code[..|code| - 1], severities) + if f.severity in severities then [f] else []
  }

  function Only(scan: Scan, severities: set<Severity>): Scan {
    Scan(OnlyCode(scan.code, severities), S.Considered(scan.supply, severities))
  }

  lemma {:induction false} OnlyCodeKeeps(code: seq<CodeFinding>, severities: set<Severity>)
    ensures forall f :: f in OnlyCode(code, severities) <==> f in code && f.severity in severities
  {
    if code != [] {
      OnlyCodeKeeps(code[..|code| - 1], severities);
      assert code == code[..|code| - 1] + [code[|code| - 1]];
    }
  }

  lemma {:induction false} ConsideredKeeps(supply: seq<SupplyFinding>, severities: set<Severity>)
    ensures forall f :: f in S.Considered(supply, severities) <==> f in supply && f.severity in severities
  {
    if supply != [] {
      ConsideredKeeps(supply[..|supply| - 1], severities);
      assert supply == supply[..|supply| - 1] + [supply[|supply| - 1]];
    }
  }

  lemma {:induction false} CodeCountSplits(code: seq<CodeFinding>)
    ensures CodeCount(code, MAJOR) == CodeCount(code, {Critical}) + CodeCount(code, {High})
  {
    if code != [] { CodeCountSplits(code[..|code| - 1]); }
  }

  lemma {:induction false} SupplyCountSplits(supply: seq<SupplyFinding>)
    ensures |S.Considered(supply, MAJOR)| == |S.Considered(supply, {Critical})| + |S.Considered(supply, {High})|
  {
    if supply != [] { SupplyCountSplits(supply[..|supply| - 1]); }
  }

  // ---------- the stage of a cycle ----------

  /** Try the stages in order; the last line is what runs when none has anything left. */
  function Stage(scan: Scan, allowed: set<Severity>, stages: seq<Severity>): Strategy {
    if stages == [] then Strategy(scan, FellThrough)
    else if stages[0] in allowed && FindingCount(scan, {stages[0]}) > 0
    then Strategy(Only(scan, {stages[0]}), Staged(stages[0], FindingCount(scan, {stages[0]})))
    else Stage(scan, allowed, stages[1..])
  }

  function Select(scan: Scan, scope: Scope): Strategy {
    if FindingCount(scan, InScope(scope)) <= LARGE_FINDING_THRESHOLD then Strategy(scan, Default)
    else if FindingCount(scan, MAJOR) <= 0 then Strategy(Only(scan, {}), MajorComplete)
    else Stage(scan, InScope(scope), STAGES)
  }

  method SelectCycleScanStrategy(scan: Scan, scope: Scope) returns (strategy: Strategy)
    ensures strategy == Select(scan, scope)
  {
    var totalInScope := FindingCount(scan, InScope(scope));
    var majorRemaining := FindingCount(scan, MAJOR);
    if totalInScope <= LARGE_FINDING_THRESHOLD { return Strategy(scan, Default); }
    if majorRemaining <= 0 { return Strategy(Only(scan, {}), MajorComplete); }
    var allowed := InScope(scope);
    for i := 0 to |STAGES|
      invariant Stage(scan, allowed, STAGES) == Stage(scan, allowed, STAGES[i..])
    {
      var severity := STAGES[i];
      assert STAGES[i..][1..] == STAGES[i + 1..];
      if severity !in allowed { continue; }
      var count := FindingCount(scan, {severity});
      if count <= 0 { continue; }
      return Strategy(Only(scan, {severity}), Staged(severity, count));
    }
    return Strategy(scan, FellThrough);
  }

  /**
   * Exactly when each branch is taken. The return after the loop never is, whatever the counts say:
   * a positive number of major findings leaves one of the two stages with a positive count.
   */
  lemma StageIsDecided(scan: Scan, scope: Scope)
    ensures var m := Select(scan, scope).mode;
      var large := FindingCount(scan, InScope(scope)) > 1000 && FindingCount(scan, MAJOR) > 0;
      && m != FellThrough
      && (m.Staged? <==> large)
      && (m.Staged? ==> m.count > 0 && Select(scan, scope).scan == Only(scan, {m.severity}))
      && (m.Staged? && m.severity == Critical <==> large && FindingCount(scan, {Critical}) > 0)
      && (m.Staged? && m.severity == High <==> large && FindingCount(scan, {Critical}) <= 0)
  {
    CodeCountSplits(scan.code);
    SupplyCountSplits(scan.supply);
    var tail := STAGES[1..];
    assert tail[0] == High && tail[1..] == [] && STAGES[0] == Critical;
    var allowed := InScope(scope);
    assert Stage(scan, allowed, tail).mode
        == if FindingCount(scan, {High}) > 0 then Staged(High, FindingCount(scan, {High})) else FellThrough;
  }

  lemma {:induction false} NoCodeIsLeft(code: seq<CodeFinding>)
    ensures OnlyCode(code, {}) == []
  {
    if code != [] { NoCodeIsLeft(code[..|code| - 1]); }
  }

  lemma {:induction false} NoSupplyIsLeft(supply: seq<SupplyFinding>)
    ensures S.Considered(supply, {}) == []
  {
    if supply != [] { NoSupplyIsLeft(supply[..|supply| - 1]); }
  }

  /** Below the threshold the scan is taken as it is; above it, with no major finding left, nothing is. */
  lemma UnstagedScans(scan: Scan, scope: Scope)
    ensures var s := Select(scan, scope);
      && (s.mode.Default? <==> FindingCount(scan, InScope(scope)) <= 1000)
      && (s.mode.Default? ==> s.scan == scan)
      && (s.mode.MajorComplete? ==> s.scan == Scan([], []) && FindingCount(scan, MAJOR) <= 0)
  {
    StageIsDecided(scan, scope);
    NoCodeIsLeft(scan.code);
    NoSupplyIsLeft(scan.supply);
  }

  ghost predicate CountsPositive(scan: Scan) {
    forall f :: f in scan.code ==> StatedCount(f) > 0
  }

  lemma {:induction false} PositiveCountsShow(code: seq<CodeFinding>, s: Severity, f: CodeFinding)
    requires forall g :: g in code ==> StatedCount(g) > 0
    ensures CodeCount(code, {s}) >= 0
    ensures f in code && f.severity == s ==> CodeCount(code, {s}) > 0
  {
    if code != [] {
      var before := code[..|code| - 1];
      assert code == before + [code[|code| - 1]];
      PositiveCountsShow(before, s, f);
    }
  }

  /** With positive counts, high findings are staged only when no critical finding of either kind remains. */
  lemma HighWaitsForCritical(scan: Scan, scope: Scope)
    requires CountsPositive(scan)
    requires Select(scan, scope).mode.Staged? && Select(scan, scope).mode.severity == High
    ensures forall f :: f in scan.code ==> f.severity != Critical
    ensures forall f :: f in scan.supply ==> f.severity != Critical
  {
    StageIsDecided(scan, scope);
    forall f | f in scan.code ensures f.severity != Critical { PositiveCountsShow(scan.code, Critical, f); }
    forall f | f in scan.supply ensures f.severity != Critical {
      ConsideredKeeps(scan.supply, {Critical});
      if f.severity == Critical {
        assert f in S.Considered(scan.supply, {Critical});
        PositiveCountsShow(scan.code, Critical, CodeFinding("", High, "", "", "", [], Missing));
      }
    }
  }

  lemma CodeCountOneMore(code: seq<CodeFinding>, f: CodeFinding, severities: set<Severity>)
    ensures CodeCount(code + [f], severities)
         == CodeCount(code, severities) + if f.severity in severities then StatedCount(f) else 0
  {
    assert (code + [f])[..|code + [f]| - 1] == code;
  }

  /** Without positive counts it is not so: a negative count hides a critical finding behind a high one. */
  lemma NegativeCountHidesCritical()
    ensures exists scan: Scan ::
      && Select(scan, Major).mode.Staged? && Select(scan, Major).mode.severity == High
      && exists f :: f in scan.code && f.severity == Critical
  {
    var hidden := CodeFinding("CWE-78", Critical, "", "", "a.py", [], Stated(-1));
    var loud := CodeFinding("CWE-79", High, "", "", "b.py", [], Stated(1002));
    var scan := Scan([hidden, loud], []);
    assert scan.code == ([] + [hidden]) + [loud];
    forall severities ensures CodeCount(scan.code, severities)
      == (if Critical in severities then -1 else 0) + (if High in severities then 1002 else 0)
    {
      CodeCountOneMore([], hidden, severities);
      CodeCountOneMore([] + [hidden], loud, severities);
    }
    StageIsDecided(scan, Major);
    assert hidden in scan.code;
  }

  // ---------- what a batch holds ----------

  datatype CodeItem = Cause(cause: C.Cause) | RawCode(finding: CodeFinding) {
    function Severity(): Severity { if Cause? then cause.value.severity else finding.severity }
  }

  datatype SupplyItem = Upgrade(upgrade: S.Upgrade) | RawSupply(finding: SupplyFinding) {
    function Severity(): Severity { if Upgrade? then upgrade.value.severity else finding.severity }
  }

  datatype Batch = Batch(code: seq<CodeItem>, supply: seq<SupplyItem>)

  function Map<A, B>(s: seq<A>, f: A -> B): (r: seq<B>)
    ensures |r| == |s| && forall i :: 0 <= i < |s| ==> r[i] == f(s[i])
  {
    if s == [] then [] else [f(s[0])] + Map(s[1..], f)
  }

  function FirstN<T>(s: seq<T>, n: nat): seq<T> { if |s| <= n then s else s[..n] }

  /** The ranked root causes; in a scan of all severities with none ranked, the raw findings instead. */
  function SelectedCode(code: seq<CodeFinding>, scope: Scope): seq<CodeItem> {
    var causes := Top(C.Causes(code, InScope(scope)), C.CodeSortKey, C.MAX_CODE_ROOT_CAUSES);
    if scope == All && causes == [] then Map(FirstN(code, C.MAX_CODE_ROOT_CAUSES), f => RawCode(f))
    else Map(causes, c => Cause(c))
  }

  function SelectedSupply(supply: seq<SupplyFinding>, scope: Scope): seq<SupplyItem> {
    var upgrades := Top(S.Upgrades(supply, InScope(scope)), S.SupplySortKey, S.MAX_SUPPLY_ROOT_CAUSES);
    if scope == All && upgrades == [] then Map(FirstN(supply, S.MAX_SUPPLY_ROOT_CAUSES), f => RawSupply(f))
    else Map(upgrades, u => Upgrade(u))
  }

  lemma {:induction false} SlicesIffInScope(code: seq<CodeFinding>, allowed: set<Severity>)
    ensures C.AllSlices(code, allowed) == [] <==> forall f :: f in code ==> f.severity !in allowed
  {
    if code != [] {
      var before, f := code[..|code| - 1], code[|code| - 1];
      assert code == before + [f];
      SlicesIffInScope(before, allowed);
      GroupedIsEmpty(f.occurrences, C.Folder, C.StartPart, C.AddToPart);
      assert |C.ToSlices(f, C.Parts(f))| > 0;
    }
  }

  lemma TopIsEmptyIffNothing<T>(items: seq<T>, key: T -> SortKey, limit: nat)
    requires limit > 0
    ensures Top(items, key, limit) == [] <==> items == []
  {
    SortPermutes(items, (a: T, b: T) => KeyedLe(key, a, b));
  }

  /** There is nothing to work on exactly when no finding is in scope; in a scan of all severities, when there is none. */
  lemma CodeSelectionIsEmptyIff(code: seq<CodeFinding>, scope: Scope)
    ensures SelectedCode(code, scope) == []
       <==> if scope == All then code == [] else forall f :: f in code ==> f.severity !in MAJOR
  {
    var allowed := InScope(scope);
    SlicesIffInScope(code, allowed);
    GroupedIsEmpty(C.AllSlices(code, allowed), C.SliceKey, C.NewCause, C.AddToCause);
    TopIsEmptyIffNothing(C.Causes(code, allowed), C.CodeSortKey, C.MAX_CODE_ROOT_CAUSES);
    if code == [] { assert C.AllSlices(code, allowed) == []; }
  }

  lemma SupplySelectionIsEmptyIff(supply: seq<SupplyFinding>, scope: Scope)
    ensures SelectedSupply(supply, scope) == []
       <==> if scope == All then supply == [] else forall f :: f in supply ==> f.severity !in MAJOR
  {
    var allowed := InScope(scope);
    var items := S.Considered(supply, allowed);
    ConsideredKeeps(supply, allowed);
    GroupedIsEmpty(items, S.KeyOf, S.NewUpgrade, S.AddToUpgrade);
    TopIsEmptyIffNothing(S.Upgrades(supply, allowed), S.SupplySortKey, S.MAX_SUPPLY_ROOT_CAUSES);
    assert |items| > 0 ==> items[0] in items;
  }

  // ---------- cutting into batches ----------

  function Pieces<T>(items: seq<T>, size: nat): seq<seq<T>>
    requires size > 0
    decreases |items|
  {
    if |items| <= size then [items] else [items[..size]] + Pieces(items[size..], size)
  }

  method ChunkRootCauses<T>(items: seq<T>, size: nat) returns (chunks: seq<seq<T>>)
    requires size > 0
    ensures chunks == Pieces(items, size)
  {
    if items == [] { return [[]]; }
    chunks := [];
    var index := 0;
    while index < |items|
      invariant 0 <= index
      invariant index < |items| ==> Pieces(items, size) == chunks + Pieces(items[index..], size)
      invariant index >= |items| ==> Pieces(items, size) == chunks
      decreases |items| - index
    {
      if index + size < |items| {
        assert items[index..][..size] == items[index..index + size];
        assert items[index..][size..] == items[index + size..];
        chunks := chunks + [items[index..index + size]];
      } else {
        chunks := chunks + [items[index..]];
      }
      index := index + size;
    }
  }

  function Min(a: nat, b: nat): nat { if a <= b then a else b }

  function ChunkAt<T>(chunks: seq<seq<T>>, i: nat): seq<T> { if i < |chunks| then chunks[i] else [] }

  function BatchCount(code: nat, supply: nat, limit: nat): nat {
    Min(if code >= supply then code else supply, limit)
  }

  /** The ranked root causes of both kinds; with all severities in scope, raw findings stand in for missing ones. */
  method SelectRootCauses(scan: Scan, scope: Scope) returns (code: seq<CodeItem>, supply: seq<SupplyItem>)
    ensures code == SelectedCode(scan.code, scope) && supply == SelectedSupply(scan.supply, scope)
  {
    var causes, _, _ := C.BuildCodeRootCauses(scan.code, InScope(scope));
    var upgrades, _, _ := S.BuildSupplyRootCauses(scan.supply, InScope(scope));
    code := Map(causes, c => Cause(c));
    supply := Map(upgrades, u => Upgrade(u));
    if scope == All {
      if |code| == 0 && |scan.code| > 0 { code := Map(FirstN(scan.code, C.MAX_CODE_ROOT_CAUSES), f => RawCode(f)); }
      if |supply| == 0 && |scan.supply| > 0 {
        supply := Map(FirstN(scan.supply, S.MAX_SUPPLY_ROOT_CAUSES), f => RawSupply(f));
      }
    }
  }

  method BuildRemediationBatches(scan: Scan, scope: Scope) returns (batches: seq<Batch>)
    ensures var code := Pieces(SelectedCode(scan.code, scope), CODE_PER_BATCH);
      var supply := Pieces(SelectedSupply(scan.supply, scope), SUPPLY_PER_BATCH);
      && |batches| == BatchCount(|code|, |supply|, MAX_BATCHES)
      && forall i :: 0 <= i < |batches| ==> batches[i] == Batch(ChunkAt(code, i), ChunkAt(supply, i))
  {
    var code, supply := SelectRootCauses(scan, scope);
    var codeChunks := ChunkRootCauses(code, CODE_PER_BATCH);
    var supplyChunks := ChunkRootCauses(supply, SUPPLY_PER_BATCH);
    batches := PairChunks(codeChunks, supplyChunks);
  }

  method PairChunks(code: seq<seq<CodeItem>>, supply: seq<seq<SupplyItem>>) returns (batches: seq<Batch>)
    ensures |batches| == BatchCount(|code|, |supply|, MAX_BATCHES)
    ensures forall i :: 0 <= i < |batches| ==> batches[i] == Batch(ChunkAt(code, i), ChunkAt(supply, i))
  {
    batches := [];
    for i := 0 to BatchCount(|code|, |supply|, MAX_BATCHES)
      invariant |batches| == i
      invariant forall j :: 0 <= j < i ==> batches[j] == Batch(ChunkAt(code, j), ChunkAt(supply, j))
    {
      batches := batches + [Batch(ChunkAt(code, i), ChunkAt(supply, i))];
    }
  }

  /** The first `n` chunks, put back together; a chunk that is not there adds nothing. */
  function Rejoined<T>(chunks: seq<seq<T>>, n: nat): seq<T> {
    if n == 0 then [] else Rejoined(chunks, n - 1) + ChunkAt(chunks, n - 1)
  }

  lemma OneTimeMore(i: nat, size: nat)
    requires i > 0
    ensures i * size == (i - 1) * size + size
  {
  }

  lemma LaterPiece<T>(items: seq<T>, size: nat, i: nat)
    requires 0 < size < |items| && i > 0
    ensures ChunkAt(Pieces(items, size), i) == ChunkAt(Pieces(items[size..], size), i - 1)
  {
  }

  lemma {:induction false} PieceFrom<T>(items: seq<T>, size: nat, i: nat, k: nat)
    requires size > 0 && k == i * size
    ensures ChunkAt(Pieces(items, size), i) == if k <= |items| then FirstN(items[k..], size) else []
    decreases |items|
  {
    if i > 0 {
      OneTimeMore(i, size);
      if |items| > size {
        PieceFrom(items[size..], size, i - 1, k - size);
        LaterPiece(items, size, i);
        if k <= |items| { assert items[size..][k - size..] == items[k..]; }
      } else {
        NoTimesLess(i, size);
        if k <= |items| { assert items[k..] == []; }
      }
    }
  }

  lemma NoTimesLess(i: nat, size: nat)
    requires i > 0
    ensures i * size >= size
  {
  }

  lemma PieceAt<T>(items: seq<T>, size: nat, i: nat)
    requires size > 0
    ensures ChunkAt(Pieces(items, size), i) == if i * size <= |items| then FirstN(items[i * size..], size) else []
  {
    PieceFrom(items, size, i, i * size);
  }

  lemma NextPiece<T>(items: seq<T>, size: nat, k: nat)
    ensures FirstN(items, k) + (if k <= |items| then FirstN(items[k..], size) else []) == FirstN(items, k + size)
  {
    if k <= |items| {
      if k + size <= |items| { assert items[..k] + items[k..][..size] == items[..k + size]; }
      else { assert items[..k] + items[k..] == items; }
    }
  }

  /** The batches, in order, are exactly a prefix of the selection: nothing reordered, repeated or skipped. */
  lemma {:induction false} BatchesAreAPrefix<T>(items: seq<T>, size: nat, n: nat)
    requires size > 0
    ensures Rejoined(Pieces(items, size), n) == FirstN(items, n * size)
  {
    if n > 0 {
      BatchesAreAPrefix(items, size, n - 1);
      PieceAt(items, size, n - 1);
      OneTimeMore(n, size);
      NextPiece(items, size, (n - 1) * size);
    }
  }

  lemma {:induction false} PieceCount<T>(items: seq<T>, size: nat, n: nat)
    requires size > 0 && n > 0
    ensures |Pieces(items, size)| <= n <==> |items| <= n * size
    decreases |items|
  {
    assert n * size >= size;
    if |items| > size {
      if n > 1 {
        PieceCount(items[size..], size, n - 1);
        assert n * size == (n - 1) * size + size;
      }
    }
  }

  /** The whole selection is batched exactly when its chunks fit the limit on batches. */
  lemma WholeSelectionIffItFits<T>(items: seq<T>, size: nat, others: nat, limit: nat)
    requires size > 0 && limit > 0
    ensures Rejoined(Pieces(items, size), BatchCount(|Pieces(items, size)|, others, limit)) == items
       <==> |Pieces(items, size)| <= limit
  {
    var n := BatchCount(|Pieces(items, size)|, others, limit);
    assert n > 0;
    BatchesAreAPrefix(items, size, n);
    PieceCount(items, size, n);
    PieceCount(items, size, limit);
  }

  // ---------- every batch is on stage ----------

  lemma {:induction false} SliceSeverities(code: seq<CodeFinding>, allowed: set<Severity>, s: Severity)
    requires forall f :: f in code ==> f.severity == s
    ensures forall slice :: slice in C.AllSlices(code, allowed) ==> slice.key.severity == s
  {
    if code != [] {
      var f := code[|code| - 1];
      assert code == code[..|code| - 1] + [f];
      SliceSeverities(code[..|code| - 1], allowed, s);
      PartSlices(f, C.Parts(f));
    }
  }

  lemma {:induction false} PartSlices(f: CodeFinding, parts: seq<Entry<string, seq<Occurrence>>>)
    ensures forall slice :: slice in C.ToSlices(f, parts) ==> slice.key.severity == f.severity
  {
    if parts != [] { PartSlices(f, parts[..|parts| - 1]); }
  }

  lemma CauseSeverities(code: seq<CodeFinding>, allowed: set<Severity>, s: Severity)
    requires forall f :: f in code ==> f.severity == s
    ensures forall c :: c in C.Causes(code, allowed) ==> c.value.severity == s
  {
    var causes, slices := C.Causes(code, allowed), C.AllSlices(code, allowed);
    SliceSeverities(code, allowed, s);
    C.CausesAreRecords(code, allowed);
    forall c | c in causes ensures c.value.severity == s {
      var i :| 0 <= i < |causes| && causes[i] == c;
      var k := Keys(slices, C.SliceKey)[i];
      var members := Members(slices, C.SliceKey, k);
      assert EntryIsRecord(c, k, members, C.CauseOf);
      MembersHaveTheKey(slices, C.SliceKey, k);
      assert members[0] in slices;
    }
  }

  lemma UpgradeSeverities(supply: seq<SupplyFinding>, allowed: set<Severity>, s: Severity)
    requires forall f :: f in supply ==> f.severity == s
    ensures forall u :: u in S.Upgrades(supply, allowed) ==> u.value.severity == s
  {
    var upgrades := S.Upgrades(supply, allowed);
    ConsideredKeeps(supply, allowed);
    forall u | u in upgrades ensures u.value.severity == s {
      var i :| 0 <= i < |upgrades| && upgrades[i] == u;
      S.UpgradeDescribesItsMembers(supply, allowed, i);
      var f :| f in Members(S.Considered(supply, allowed), S.KeyOf, u.key) && f.severity == u.value.severity;
      MembersHaveTheKey(S.Considered(supply, allowed), S.KeyOf, u.key);
    }
  }

  lemma TopIsFromItems<T(!new)>(items: seq<T>, key: T -> SortKey, limit: nat)
    ensures forall t :: t in Top(items, key, limit) ==> t in items
  {
    NothingDroppedOutranks(items, key, limit);
    forall t | t in Top(items, key, limit) ensures t in items {
      assert t in multiset(Top(items, key, limit));
      assert t in multiset(items);
    }
  }

  lemma SelectedCodeHasTheSeverity(code: seq<CodeFinding>, scope: Scope, s: Severity)
    requires forall f :: f in code ==> f.severity == s
    ensures forall x :: x in SelectedCode(code, scope) ==> x.Severity() == s
  {
    var causes := C.Causes(code, InScope(scope));
    CauseSeverities(code, InScope(scope), s);
    TopIsFromItems(causes, C.CodeSortKey, C.MAX_CODE_ROOT_CAUSES);
  }

  lemma SelectedSupplyHasTheSeverity(supply: seq<SupplyFinding>, scope: Scope, s: Severity)
    requires forall f :: f in supply ==> f.severity == s
    ensures forall x :: x in SelectedSupply(supply, scope) ==> x.Severity() == s
  {
    var upgrades := S.Upgrades(supply, InScope(scope));
    UpgradeSeverities(supply, InScope(scope), s);
    TopIsFromItems(upgrades, S.SupplySortKey, S.MAX_SUPPLY_ROOT_CAUSES);
  }

  /** In a staged cycle every selected item, of either kind, has exactly the stage's severity. */
  lemma StagedSelectionHasTheSeverity(scan: Scan, scope: Scope)
    requires Select(scan, scope).mode.Staged?
    ensures var staged := Select(scan, scope);
      && (forall x :: x in SelectedCode(staged.scan.code, scope) ==> x.Severity() == staged.mode.severity)
      && (forall x :: x in SelectedSupply(staged.scan.supply, scope) ==> x.Severity() == staged.mode.severity)
  {
    StageIsDecided(scan, scope);
    var s := Select(scan, scope).mode.severity;
    OnlyCodeKeeps(scan.code, {s});
    ConsideredKeeps(scan.supply, {s});
    SelectedCodeHasTheSeverity(OnlyCode(scan.code, {s}), scope, s);
    SelectedSupplyHasTheSeverity(S.Considered(scan.supply, {s}), scope, s);
  }

  lemma {:induction false} PiecesAreFromItems<T>(items: seq<T>, size: nat, i: nat, x: T)
    requires size > 0 && x in ChunkAt(Pieces(items, size), i)
    ensures x in items
  {
    PieceAt(items, size, i);
  }

  /** Hence every root cause of every batch of a staged cycle has exactly the stage's severity. */
  lemma EveryBatchIsOnStage(scan: Scan, scope: Scope, i: nat)
    requires Select(scan, scope).mode.Staged?
    ensures var staged := Select(scan, scope);
      var code := ChunkAt(Pieces(SelectedCode(staged.scan.code, scope), CODE_PER_BATCH), i);
      var supply := ChunkAt(Pieces(SelectedSupply(staged.scan.supply, scope), SUPPLY_PER_BATCH), i);
      && (forall x :: x in code ==> x.Severity() == staged.mode.severity)
      && (forall x :: x in supply ==> x.Severity() == staged.mode.severity)
  {
    var staged := Select(scan, scope);
    StagedSelectionHasTheSeverity(scan, scope);
    var code, supply := SelectedCode(staged.scan.code, scope), SelectedSupply(staged.scan.supply, scope);
    forall x | x in ChunkAt(Pieces(code, CODE_PER_BATCH), i) ensures x.Severity() == staged.mode.severity {
      PiecesAreFromItems(code, CODE_PER_BATCH, i, x);
    }
    forall x | x in ChunkAt(Pieces(supply, SUPPLY_PER_BATCH), i) ensures x.Severity() == staged.mode.severity {
      PiecesAreFromItems(supply, SUPPLY_PER_BATCH, i, x);
    }
  }
}
