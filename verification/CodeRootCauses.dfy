/** Code findings regrouped into root causes: one per weakness, severity and file. */
module CodeRootCauses {
  import opened Findings
  import opened Grouping

  const OCCURRENCES_PER_ROOT_CAUSE: nat := 3
  const MAX_CODE_ROOT_CAUSES: nat := 10

  /** The part of one finding that lies in one file. */
  datatype Slice = Slice(key: CodeKey, cwe: string, title: string, description: string, occurrences: seq<Occurrence>)

  datatype CodeKey = CodeKey(cwe: string, severity: Severity, path: string)

  datatype CodeCause = CodeCause(
    cwe: string, severity: Severity, path: string, title: string, description: string,
    count: int, kept: seq<Occurrence>)

  type Cause = Entry<CodeKey, CodeCause>

  // ---------- one finding, file by file ----------

  function Folder(o: Occurrence): string { if o.path == "" then "__repo__" else o.path }

  function StartPart(o: Occurrence): seq<Occurrence> { [o] }

  function AddToPart(part: seq<Occurrence>, o: Occurrence): seq<Occurrence> { part + [o] }

  function PartRecord(o: Occurrence, rest: seq<Occurrence>): seq<Occurrence> { [o] + rest }

  lemma PartsAccumulate()
    ensures Accumulates(StartPart, AddToPart, PartRecord)
  {
    forall e ensures StartPart(e) == PartRecord(e, []) { assert [e] + [] == [e]; }
    forall first, rest, e ensures AddToPart(PartRecord(first, rest), e) == PartRecord(first, rest + [e]) {
      assert ([first] + rest) + [e] == [first] + (rest + [e]);
    }
  }

  function Parts(f: CodeFinding): seq<Entry<string, seq<Occurrence>>> {
    if f.occurrences == []
    then [Entry(if f.path == "" then "__repo__" else f.path, [])]
    else Grouped(f.occurrences, Folder, StartPart, AddToPart)
  }

  function KeyIn(f: CodeFinding, path: string): CodeKey {
    CodeKey(if f.cwe == "" then "unknown" else f.cwe, f.severity, path)
  }

  function ToSlice(f: CodeFinding, part: Entry<string, seq<Occurrence>>): Slice {
    Slice(KeyIn(f, part.key), f.cwe, f.title, f.description, part.value)
  }

  function ToSlices(f: CodeFinding, parts: seq<Entry<string, seq<Occurrence>>>): (slices: seq<Slice>)
    ensures |slices| == |parts|
  {
    if parts == [] then [] else ToSlices(f, parts[..|parts| - 1]) + [ToSlice(f, parts[|parts| - 1])]
  }

  function AllSlices(findings: seq<CodeFinding>, allowed: set<Severity>): seq<Slice> {
    if findings == [] then [] else
      var f := findings[|findings| - 1];
      AllSlices(findings[..|findings| - 1], allowed) + if f.severity in allowed then ToSlices(f, Parts(f)) else []
  }

  // ---------- the dictionary of root causes ----------

  function AtLeastOne(n: int): int { if n == 0 then 1 else n }

  function Weight(s: Slice): int { AtLeastOne(|s.occurrences|) }

  function FirstFew(s: seq<Occurrence>): seq<Occurrence> {
    if |s| <= OCCURRENCES_PER_ROOT_CAUSE then s else s[..OCCURRENCES_PER_ROOT_CAUSE]
  }

  function TopUp(kept: seq<Occurrence>, more: seq<Occurrence>): seq<Occurrence>
    decreases |more|
  {
    if more == [] || |kept| >= OCCURRENCES_PER_ROOT_CAUSE then kept else TopUp(kept + [more[0]], more[1..])
  }

  function SliceKey(s: Slice): CodeKey { s.key }

  function NewCause(s: Slice): CodeCause {
    CodeCause(s.cwe, s.key.severity, if s.key.path == "__repo__" then "" else s.key.path, s.title, s.description,
              Weight(s), FirstFew(s.occurrences))
  }

  function AddToCause(c: CodeCause, s: Slice): CodeCause {
    c.(count := c.count + Weight(s),
       description := if c.description == "" then s.description else c.description,
       kept := TopUp(c.kept, s.occurrences))
  }

  function Causes(findings: seq<CodeFinding>, allowed: set<Severity>): seq<Cause> {
    Grouped(AllSlices(findings, allowed), SliceKey, NewCause, AddToCause)
  }

  function Flat(slices: seq<Slice>): seq<Occurrence> {
    if slices == [] then [] else Flat(slices[..|slices| - 1]) + slices[|slices| - 1].occurrences
  }

  function FirstDescription(slices: seq<Slice>): string {
    if slices == [] then "" else
      var d := FirstDescription(slices[..|slices| - 1]);
      if d == "" then slices[|slices| - 1].description else d
  }

  /** What a root cause should hold, given all the slices with its key. */
  function CauseOf(first: Slice, rest: seq<Slice>): CodeCause {
    CodeCause(first.cwe, first.key.severity, if first.key.path == "__repo__" then "" else first.key.path, first.title,
              FirstDescription([first] + rest), Total([first] + rest, Weight), FirstFew(Flat([first] + rest)))
  }

  lemma {:induction false} TopUpTakesTheFirst(all: seq<Occurrence>, more: seq<Occurrence>)
    ensures TopUp(FirstFew(all), more) == FirstFew(all + more)
    decreases |more|
  {
    if more != [] && |all| < OCCURRENCES_PER_ROOT_CAUSE {
      TopUpTakesTheFirst(all + [more[0]], more[1..]);
      assert (all + [more[0]]) + more[1..] == all + more;
    }
  }

  lemma OneSlice(s: Slice)
    ensures FirstDescription([s]) == s.description && Total([s], Weight) == Weight(s) && Flat([s]) == s.occurrences
  {
    assert [s][..|[s]| - 1] == [];
  }

  lemma CausesAccumulate()
    ensures Accumulates(NewCause, AddToCause, CauseOf)
  {
    forall e ensures NewCause(e) == CauseOf(e, []) {
      assert [e] + [] == [e];
      OneSlice(e);
    }
    forall first, rest, e ensures AddToCause(CauseOf(first, rest), e) == CauseOf(first, rest + [e]) {
      var members := [first] + rest;
      assert [first] + (rest + [e]) == members + [e];
      assert (members + [e])[..|members|] == members;
      TopUpTakesTheFirst(Flat(members), e.occurrences);
    }
  }

  // ---------- conservation ----------

  function Declared(f: CodeFinding): int {
    match f.count
    case Missing => AtLeastOne(|f.occurrences|)
    case Stated(n) => AtLeastOne(n)
  }

  function Max(a: int, b: int): int { if a >= b then a else b }

  function RawTotal(findings: seq<CodeFinding>, allowed: set<Severity>): int {
    if findings == [] then 0 else
      var f := findings[|findings| - 1];
      RawTotal(findings[..|findings| - 1], allowed)
        + if f.severity in allowed then Max(Declared(f), AtLeastOne(|f.occurrences|)) else 0
  }

  /** The occurrences actually listed by the findings in scope, a finding that lists none counting as one. */
  function ListedTotal(findings: seq<CodeFinding>, allowed: set<Severity>): int {
    if findings == [] then 0 else
      var f := findings[|findings| - 1];
      ListedTotal(findings[..|findings| - 1], allowed)
        + if f.severity !in allowed then 0 else if f.occurrences == [] then 1 else |f.occurrences|
  }

  function One(o: Occurrence): int { 1 }

  function PartSize(part: Entry<string, seq<Occurrence>>): int { |part.value| }

  function CauseCount(c: Cause): int { c.value.count }

  lemma {:induction false} TotalOfOnes(s: seq<Occurrence>)
    ensures Total(s, One) == |s|
  {
    if s != [] { TotalOfOnes(s[..|s| - 1]); }
  }

  lemma {:induction false} SlicesWeighTheirParts(f: CodeFinding, parts: seq<Entry<string, seq<Occurrence>>>)
    requires forall p :: p in parts ==> p.value != []
    ensures Total(ToSlices(f, parts), Weight) == Total(parts, PartSize)
  {
    if parts != [] {
      SlicesWeighTheirParts(f, parts[..|parts| - 1]);
      assert ToSlices(f, parts)[..|parts| - 1] == ToSlices(f, parts[..|parts| - 1]);
    }
  }

  lemma PartsHoldEveryOccurrence(f: CodeFinding)
    requires f.occurrences != []
    ensures GroupsAreRecords(Parts(f), f.occurrences, Folder, PartRecord)
    ensures forall p :: p in Parts(f) ==> p.value == Members(f.occurrences, Folder, p.key) != []
  {
    PartsAccumulate();
    GroupedIsRecords(f.occurrences, Folder, StartPart, AddToPart, PartRecord);
    forall p | p in Parts(f) ensures p.value == Members(f.occurrences, Folder, p.key) != [] {
      var i :| 0 <= i < |Parts(f)| && Parts(f)[i] == p;
      var k := Keys(f.occurrences, Folder)[i];
      var members := Members(f.occurrences, Folder, k);
      assert EntryIsRecord(p, k, members, PartRecord);
      assert members == [members[0]] + members[1..];
    }
  }

  lemma SlicesConserve(f: CodeFinding)
    ensures Total(ToSlices(f, Parts(f)), Weight) == AtLeastOne(|f.occurrences|)
  {
    if f.occurrences != [] {
      PartsHoldEveryOccurrence(f);
      SlicesWeighTheirParts(f, Parts(f));
      forall k, members: seq<Occurrence>, part | EntryIsRecord(part, k, members, PartRecord)
        ensures PartSize(part) == Total(members, One)
      {
        TotalOfOnes(members);
      }
      EntriesConserveTotals(Parts(f), f.occurrences, Folder, PartRecord, One, PartSize);
      TotalOfOnes(f.occurrences);
    } else {
      var part := Parts(f)[0];
      assert Parts(f) == [part] && Parts(f)[..0] == [];
      assert ToSlices(f, Parts(f)) == [] + [ToSlice(f, part)] == [ToSlice(f, part)];
      assert [ToSlice(f, part)][..0] == [];
    }
  }

  /** What one more finding adds to the slices, to what is listed and to the raw total. */
  lemma SlicesOfOneMore(before: seq<CodeFinding>, f: CodeFinding, allowed: set<Severity>)
    ensures var slices := AllSlices(before, allowed);
      Total(AllSlices(before + [f], allowed), Weight)
         == Total(slices, Weight) + if f.severity in allowed then AtLeastOne(|f.occurrences|) else 0
  {
    var slices := AllSlices(before, allowed);
    assert (before + [f])[..|before|] == before;
    if f.severity in allowed {
      SlicesConserve(f);
      TotalOfConcat(slices, ToSlices(f, Parts(f)), Weight);
    } else {
      assert AllSlices(before + [f], allowed) == slices;
    }
  }

  lemma {:induction false} AllSlicesConserve(findings: seq<CodeFinding>, allowed: set<Severity>)
    ensures Total(AllSlices(findings, allowed), Weight) == ListedTotal(findings, allowed) <= RawTotal(findings, allowed)
  {
    if findings != [] {
      var before, f := findings[..|findings| - 1], findings[|findings| - 1];
      AllSlicesConserve(before, allowed);
      SlicesOfOneMore(before, f, allowed);
      assert findings == before + [f];
    }
  }

  lemma CausesAreRecords(findings: seq<CodeFinding>, allowed: set<Severity>)
    ensures GroupsAreRecords(Causes(findings, allowed), AllSlices(findings, allowed), SliceKey, CauseOf)
  {
    CausesAccumulate();
    GroupedIsRecords(AllSlices(findings, allowed), SliceKey, NewCause, AddToCause, CauseOf);
  }

  /** What a finding in scope says it amounts to: the larger of its stated count and what it lists, never nothing. */
  function Amount(f: CodeFinding): int {
    var listed := if f.occurrences == [] then 1 else |f.occurrences|;
    match f.count
    case Missing => listed
    case Stated(n) => if n > listed then n else listed
  }

  /** The reported raw total is the sum of these. */
  lemma {:induction false} RawTotalIsTheSum(findings: seq<CodeFinding>, allowed: set<Severity>)
    ensures RawTotal(findings, allowed) == Total(findings, (f: CodeFinding) => if f.severity in allowed then Amount(f) else 0)
  {
    if findings != [] { RawTotalIsTheSum(findings[..|findings| - 1], allowed); }
  }

  /** The counts of the root causes add up to the occurrences in scope, and never exceed the reported raw total. */
  lemma GroupingConservesOccurrences(findings: seq<CodeFinding>, allowed: set<Severity>)
    ensures Total(Causes(findings, allowed), CauseCount) == ListedTotal(findings, allowed) <= RawTotal(findings, allowed)
  {
    var slices := AllSlices(findings, allowed);
    CausesAreRecords(findings, allowed);
    forall k, members: seq<Slice>, cause | EntryIsRecord(cause, k, members, CauseOf)
      ensures CauseCount(cause) == Total(members, Weight)
    {
      assert members == [members[0]] + members[1..];
    }
    EntriesConserveTotals(Causes(findings, allowed), slices, SliceKey, CauseOf, Weight, CauseCount);
    AllSlicesConserve(findings, allowed);
  }

  // ---------- what a root cause keeps ----------

  /** The occurrences of one weakness, severity and file over all findings in scope, in the order they are met. */
  function Gathered(findings: seq<CodeFinding>, allowed: set<Severity>, k: CodeKey): seq<Occurrence> {
    if findings == [] then [] else
      var f := findings[|findings| - 1];
      Gathered(findings[..|findings| - 1], allowed, k)
        + if f.severity in allowed && KeyIn(f, k.path) == k then Members(f.occurrences, Folder, k.path) else []
  }

  lemma FlatOfOneMore(a: seq<Slice>, s: Slice)
    ensures Flat(a + [s]) == Flat(a) + s.occurrences
  {
    assert (a + [s])[..|a + [s]| - 1] == a;
  }

  lemma LastOfTwo(a: seq<Slice>, b: seq<Slice>)
    requires b != []
    ensures b == b[..|b| - 1] + [b[|b| - 1]] && a + b == (a + b[..|b| - 1]) + [b[|b| - 1]]
  {
  }

  lemma {:induction false} FlatOfConcat(a: seq<Slice>, b: seq<Slice>)
    ensures Flat(a + b) == Flat(a) + Flat(b)
  {
    if b == [] {
      assert a + b == a;
    } else {
      var before, last := b[..|b| - 1], b[|b| - 1];
      FlatOfConcat(a, before);
      FlatOfOneMore(a + before, last);
      FlatOfOneMore(before, last);
      LastOfTwo(a, b);
    }
  }

  function PartAt(parts: seq<Entry<string, seq<Occurrence>>>, path: string): seq<Occurrence> {
    if parts == [] then [] else
      PartAt(parts[..|parts| - 1], path) + if parts[|parts| - 1].key == path then parts[|parts| - 1].value else []
  }

  lemma {:induction false} SlicesAtAreParts(f: CodeFinding, parts: seq<Entry<string, seq<Occurrence>>>, k: CodeKey)
    ensures Flat(Members(ToSlices(f, parts), SliceKey, k)) == if KeyIn(f, k.path) == k then PartAt(parts, k.path) else []
  {
    if parts != [] {
      var before, part := parts[..|parts| - 1], parts[|parts| - 1];
      SlicesAtAreParts(f, before, k);
      var slice := ToSlice(f, part);
      assert ToSlices(f, parts) == ToSlices(f, before) + [slice];
      assert ToSlices(f, parts)[..|before|] == ToSlices(f, before);
      var sofar := Members(ToSlices(f, before), SliceKey, k);
      assert (sofar + [slice])[..|sofar|] == sofar;
      assert SliceKey(slice) == k <==> KeyIn(f, k.path) == k && part.key == k.path;
    }
  }

  lemma {:induction false} OnlyOnePartAt(parts: seq<Entry<string, seq<Occurrence>>>, path: string, i: nat)
    requires forall a, b :: 0 <= a < b < |parts| ==> parts[a].key != parts[b].key
    requires i < |parts| ==> parts[i].key == path
    requires i >= |parts| ==> forall a :: 0 <= a < |parts| ==> parts[a].key != path
    ensures PartAt(parts, path) == if i < |parts| then parts[i].value else []
  {
    if parts != [] {
      var before := parts[..|parts| - 1];
      if i == |before| {
        OnlyOnePartAt(before, path, i);
      } else {
        OnlyOnePartAt(before, path, i);
        assert parts[|before|].key != path;
      }
    }
  }

  lemma PartAtIsMembers(f: CodeFinding, path: string)
    ensures PartAt(Parts(f), path) == Members(f.occurrences, Folder, path)
  {
    var parts := Parts(f);
    if f.occurrences == [] {
      assert parts[..0] == [];
    } else {
      PartsHoldEveryOccurrence(f);
      var keys := Keys(f.occurrences, Folder);
      KeysAreDistinct(f.occurrences, Folder);
      KeyHasMembers(f.occurrences, Folder, path);
      assert forall a :: 0 <= a < |parts| ==> parts[a].key == keys[a];
      var i := Find(parts, path);
      if i < |parts| { assert parts[i] in parts; }
      OnlyOnePartAt(parts, path, i);
    }
  }

  lemma {:induction false} SlicesGather(findings: seq<CodeFinding>, allowed: set<Severity>, k: CodeKey)
    ensures Flat(Members(AllSlices(findings, allowed), SliceKey, k)) == Gathered(findings, allowed, k)
  {
    if findings != [] {
      var before, f := findings[..|findings| - 1], findings[|findings| - 1];
      SlicesGather(before, allowed, k);
      var old_, new_ := AllSlices(before, allowed), ToSlices(f, Parts(f));
      MembersOfConcat(old_, new_, SliceKey, k);
      FlatOfConcat(Members(old_, SliceKey, k), Members(new_, SliceKey, k));
      SlicesAtAreParts(f, Parts(f), k);
      PartAtIsMembers(f, k.path);
      assert f.severity !in allowed ==> AllSlices(findings, allowed) == old_;
    }
  }

  /** Each root cause keeps exactly the first few of its occurrences, in the order the findings list them. */
  lemma KeptAreTheFirst(findings: seq<CodeFinding>, allowed: set<Severity>, i: nat)
    requires i < |Causes(findings, allowed)|
    ensures var c := Causes(findings, allowed)[i];
      var all := Gathered(findings, allowed, c.key);
      && c.value.kept == (if |all| <= 3 then all else all[..3])
      && c.value.severity == c.key.severity && c.value.path == (if c.key.path == "__repo__" then "" else c.key.path)
      && c.value.count == Total(Members(AllSlices(findings, allowed), SliceKey, c.key), Weight) >= |c.value.kept|
  {
    var slices := AllSlices(findings, allowed);
    CausesAreRecords(findings, allowed);
    var c := Causes(findings, allowed)[i];
    var k := Keys(slices, SliceKey)[i];
    var members := Members(slices, SliceKey, k);
    assert EntryIsRecord(c, k, members, CauseOf);
    assert members == [members[0]] + members[1..];
    MembersHaveTheKey(slices, SliceKey, k);
    assert members[0] in members;
    SlicesGather(findings, allowed, k);
    WeightCoversOccurrences(members);
  }

  lemma {:induction false} WeightCoversOccurrences(slices: seq<Slice>)
    ensures Total(slices, Weight) >= |Flat(slices)|
  {
    if slices != [] { WeightCoversOccurrences(slices[..|slices| - 1]); }
  }

  // ---------- the loops ----------

  method SplitByPath(occurrences: seq<Occurrence>) returns (parts: seq<Entry<string, seq<Occurrence>>>)
    ensures parts == Grouped(occurrences, Folder, StartPart, AddToPart)
  {
    parts := [];
    for i := 0 to |occurrences|
      invariant parts == Grouped(occurrences[..i], Folder, StartPart, AddToPart)
    {
      var o := occurrences[i];
      assert occurrences[..i + 1] == occurrences[..i] + [o];
      var path := if o.path == "" then "__repo__" else o.path;
      var at := Find(parts, path);
      if at < |parts| {
        parts := parts[at := Entry(path, parts[at].value + [o])];
      } else {
        parts := parts + [Entry(path, [o])];
      }
    }
    assert occurrences[..|occurrences|] == occurrences;
  }

  method MergeOccurrences(kept: seq<Occurrence>, more: seq<Occurrence>) returns (merged: seq<Occurrence>)
    ensures merged == TopUp(kept, more)
  {
    merged := kept;
    for i := 0 to |more|
      invariant TopUp(kept, more) == TopUp(merged, more[i..])
    {
      if |merged| >= OCCURRENCES_PER_ROOT_CAUSE { return; }
      assert more[i..][1..] == more[i + 1..];
      merged := merged + [more[i]];
    }
  }

  /** Fold the slice of one path into the dictionary. */
  method MergeSlice(grouped: seq<Cause>, s: Slice) returns (after: seq<Cause>)
    ensures after == Upsert(grouped, SliceKey(s), s, NewCause, AddToCause)
  {
    var at := Find(grouped, s.key);
    if at == |grouped| {
      after := grouped + [Entry(s.key, CodeCause(
        s.cwe, s.key.severity, if s.key.path == "__repo__" then "" else s.key.path, s.title, s.description,
        AtLeastOne(|s.occurrences|), FirstFew(s.occurrences)))];
      return;
    }
    var existing := grouped[at].value;
    var count := existing.count + AtLeastOne(|s.occurrences|);
    var description := existing.description;
    if description == "" && s.description != "" { description := s.description; }
    var kept := MergeOccurrences(existing.kept, s.occurrences);
    after := grouped[at := Entry(s.key, existing.(count := count, description := description, kept := kept))];
  }

  method FindingParts(f: CodeFinding) returns (parts: seq<Entry<string, seq<Occurrence>>>)
    ensures parts == Parts(f)
  {
    parts := SplitByPath(f.occurrences);
    if |parts| == 0 {
      parts := [Entry(if f.path == "" then "__repo__" else f.path, [])];
    }
  }

  lemma SlicesOneMore(slices: seq<Slice>, f: CodeFinding, parts: seq<Entry<string, seq<Occurrence>>>, i: nat)
    requires i < |parts|
    ensures slices + ToSlices(f, parts[..i + 1]) == (slices + ToSlices(f, parts[..i])) + [ToSlice(f, parts[i])]
  {
    assert parts[..i + 1][..i] == parts[..i];
  }

  lemma GroupedOneMore(slices: seq<Slice>, s: Slice)
    ensures Grouped(slices + [s], SliceKey, NewCause, AddToCause)
         == Upsert(Grouped(slices, SliceKey, NewCause, AddToCause), SliceKey(s), s, NewCause, AddToCause)
  {
    assert (slices + [s])[..|slices + [s]| - 1] == slices;
  }

  method MergeFinding(grouped: seq<Cause>, f: CodeFinding, ghost slices: seq<Slice>) returns (after: seq<Cause>)
    requires grouped == Grouped(slices, SliceKey, NewCause, AddToCause)
    ensures after == Grouped(slices + ToSlices(f, Parts(f)), SliceKey, NewCause, AddToCause)
  {
    var parts := FindingParts(f);
    after := grouped;
    assert slices + ToSlices(f, parts[..0]) == slices;
    for i := 0 to |parts|
      invariant after == Grouped(slices + ToSlices(f, parts[..i]), SliceKey, NewCause, AddToCause)
    {
      ghost var done := slices + ToSlices(f, parts[..i]);
      GroupedOneMore(done, ToSlice(f, parts[i]));
      SlicesOneMore(slices, f, parts, i);
      after := MergeSlice(after, ToSlice(f, parts[i]));
    }
    assert parts[..|parts|] == parts;
  }

  function CodeSortKey(c: Cause): SortKey { SortKey(Rank(c.value.severity), c.value.count, c.value.cwe, c.value.path) }

  lemma OneFindingMore(findings: seq<CodeFinding>, i: nat, allowed: set<Severity>)
    requires i < |findings|
    ensures var f := findings[i];
      && AllSlices(findings[..i + 1], allowed)
         == AllSlices(findings[..i], allowed) + (if f.severity in allowed then ToSlices(f, Parts(f)) else [])
      && RawTotal(findings[..i + 1], allowed)
         == RawTotal(findings[..i], allowed)
            + if f.severity in allowed then Max(Declared(f), AtLeastOne(|f.occurrences|)) else 0
  {
    assert findings[..i + 1][..i] == findings[..i];
  }

  /** The root causes to work on, the raw total reported for them, and how many root causes there were. */
  method BuildCodeRootCauses(findings: seq<CodeFinding>, allowed: set<Severity>)
    returns (selected: seq<Cause>, rawTotal: int, available: nat)
    ensures selected == Top(Causes(findings, allowed), CodeSortKey, 10)
    ensures rawTotal == RawTotal(findings, allowed) && available == |Causes(findings, allowed)|
  {
    var grouped: seq<Cause> := [];
    rawTotal := 0;
    for i := 0 to |findings|
      invariant grouped == Causes(findings[..i], allowed) && rawTotal == RawTotal(findings[..i], allowed)
    {
      var f := findings[i];
      OneFindingMore(findings, i, allowed);
      ghost var slices := AllSlices(findings[..i], allowed);
      assert slices + [] == slices;
      if f.severity in allowed {
        rawTotal := rawTotal + Max(Declared(f), AtLeastOne(|f.occurrences|));
        grouped := MergeFinding(grouped, f, slices);
      }
    }
    assert findings[..|findings|] == findings;
    available := |grouped|;
    selected := Top(grouped, CodeSortKey, MAX_CODE_ROOT_CAUSES);
  }
}
