/** Planning and assembling the Terraform bundle, whatever the workers reply. */
module TerraformBundle {
  import opened Text
  import opened Lists
  import opened Wrappers
  import opened Ordering

  datatype File = File(path: string, content: string)

  /** A worker either raises or answers with files, in its own words and order. */
  datatype Reply = Raises | Answer(files: seq<File>)

  datatype Group = Group(id: string, owned: seq<string>)

  datatype Plan = Plan(groups: seq<Group>, ordering: seq<string>)

  const TF: string := "terraform/"
  const CRITICAL: seq<string> := [TF + "main.tf", TF + "providers.tf", TF + "outputs.tf", TF + "variables.tf"]
  const GOLDEN: set<string> := {"compute", "networking", "iam", "data", "storage"}

  ghost predicate DistinctPaths(files: seq<File>) {
    forall i, j :: 0 <= i < j < |files| ==> files[i].path != files[j].path
  }

  // ---------- lists of names ----------

  /** Trimmed, without blanks and without repeats, in order. */
  function StringList(raw: seq<string>): seq<string> {
    if raw == [] then [] else
      var before := StringList(raw[..|raw| - 1]);
      var text := Strip(raw[|raw| - 1]);
      if text == "" || text in before then before else before + [text]
  }

  method BuildStringList(raw: seq<string>) returns (items: seq<string>)
    ensures items == StringList(raw)
  {
    items := [];
    var seen: set<string> := {};
    for i := 0 to |raw|
      invariant items == StringList(raw[..i]) && forall t :: t in seen <==> t in items
    {
      assert raw[..i + 1][..i] == raw[..i];
      var text := Strip(raw[i]);
      if text == "" || text in seen { continue; }
      seen := seen + {text};
      items := items + [text];
    }
    assert raw[..|raw|] == raw;
  }

  lemma {:induction false} StringListIsDistinct(raw: seq<string>)
    ensures Distinct(StringList(raw))
    ensures forall t :: t in StringList(raw) <==> t != "" && exists i :: 0 <= i < |raw| && Strip(raw[i]) == t
  {
    if raw != [] {
      var n := |raw| - 1;
      StringListIsDistinct(raw[..n]);
      forall t ensures t in StringList(raw) <==> t != "" && exists i :: 0 <= i < |raw| && Strip(raw[i]) == t {
        if t in StringList(raw[..n]) {
          var i :| 0 <= i < n && Strip(raw[..n][i]) == t;
          assert Strip(raw[i]) == t;
        }
        if i :| 0 <= i < |raw| && Strip(raw[i]) == t && t != "" {
          assert i < n ==> Strip(raw[..n][i]) == t;
          assert t in StringList(raw);
        }
      }
    }
  }

  ghost predicate Clean(names: seq<string>) {
    Distinct(names) && forall t :: t in names ==> t != "" && Strip(t) == t
  }

  lemma {:induction false} StringListOfClean(names: seq<string>)
    requires Clean(names)
    ensures StringList(names) == names
  {
    if names != [] {
      var n := |names| - 1;
      assert names == names[..n] + [names[n]];
      assert names[n] in names && forall t :: t in names[..n] ==> t in names;
      StringListOfClean(names[..n]);
      assert names[n] !in names[..n];
    }
  }

  // ---------- what a group contributes ----------

  /** The curated bundle is a dictionary: its paths are distinct. */
  function Lookup(bundle: seq<File>, path: string): (content: string)
    ensures content != "" ==> File(path, content) in bundle
  {
    if bundle == [] then "" else if bundle[0].path == path then bundle[0].content else Lookup(bundle[1..], path)
  }

  predicate IsBlank(s: string) { Strip(s) == "" }

  function CuratedAt(bundle: seq<File>, path: string): seq<File> {
    if IsBlank(Lookup(bundle, path)) then [] else [File(path, Lookup(bundle, path))]
  }

  /** The curated files of these paths that are not blank, in the order of the paths. */
  function Curated(bundle: seq<File>, paths: seq<string>): seq<File> { FlatMap(paths, p => CuratedAt(bundle, p)) }

  function SelectGroupFiles(bundle: seq<File>, group: Group): seq<File> { Curated(bundle, StringList(group.owned)) }

  /** Of a worker's answer: the files the group owns that are not blank. */
  function Usable(answer: seq<File>, owned: seq<string>): seq<File> {
    if answer == [] then [] else
      Usable(answer[..|answer| - 1], owned) + NewlyUsable(answer[|answer| - 1], owned)
  }

  function NewlyUsable(f: File, owned: seq<string>): seq<File> {
    if Strip(f.path) in owned && !IsBlank(f.content) then [File(Strip(f.path), f.content)] else []
  }

  predicate HasPath(files: seq<File>, path: string) {
    exists i :: 0 <= i < |files| && files[i].path == path
  }

  /** The curated files whose paths the usable files do not cover. */
  function Rescued(curated: seq<File>, usable: seq<File>): seq<File> {
    if curated == [] then [] else
      var f := curated[|curated| - 1];
      Rescued(curated[..|curated| - 1], usable) + if HasPath(usable, f.path) then [] else [f]
  }

  /** A group keeps its snippets when its trimmed name says so; a group without a name is called `group`. */
  predicate Golden(group: Group) { OrElse(Strip(OrElse(group.id, "group")), "group") in GOLDEN }

  lemma GoldenNameIsGolden(group: Group)
    requires group.id in GOLDEN
    ensures Golden(group)
  {
    StripNothing(group.id);
  }

  function GroupFiles(bundle: seq<File>, group: Group, enabled: bool, reply: Reply): seq<File> {
    var curated := SelectGroupFiles(bundle, group);
    if Golden(group) || !enabled || reply.Raises? then curated
    else
      var usable := Usable(reply.files, StringList(group.owned));
      if usable == [] then curated else usable + Rescued(curated, usable)
  }

  lemma {:induction false} CuratedPaths(bundle: seq<File>, paths: seq<string>)
    ensures forall f :: f in Curated(bundle, paths) ==> f.path in paths && !IsBlank(f.content)
    ensures Distinct(paths) ==> DistinctPaths(Curated(bundle, paths))
  {
    if paths != [] {
      CuratedPaths(bundle, paths[..|paths| - 1]);
      assert paths == paths[..|paths| - 1] + [paths[|paths| - 1]];
    }
  }

  lemma {:induction false} UsablePaths(answer: seq<File>, owned: seq<string>)
    ensures forall f :: f in Usable(answer, owned) ==> f.path in owned && !IsBlank(f.content)
    ensures forall f :: f in Usable(answer, owned) ==> exists a :: a in answer && f == File(Strip(a.path), a.content)
  {
    if answer != [] {
      var before, last := answer[..|answer| - 1], answer[|answer| - 1];
      UsablePaths(before, owned);
      assert answer == before + [last];
      forall f | f in Usable(answer, owned) ensures exists a :: a in answer && f == File(Strip(a.path), a.content) {
        if f in Usable(before, owned) {
          var a :| a in before && f == File(Strip(a.path), a.content);
          assert a in answer;
        } else {
          assert last in answer && f == File(Strip(last.path), last.content);
        }
      }
    }
  }

  lemma {:induction false} RescuedPaths(curated: seq<File>, usable: seq<File>)
    ensures forall f :: f in Rescued(curated, usable) ==> f in curated && !HasPath(usable, f.path)
    ensures DistinctPaths(curated) ==> DistinctPaths(Rescued(curated, usable))
  {
    if curated != [] {
      RescuedPaths(curated[..|curated| - 1], usable);
      assert curated == curated[..|curated| - 1] + [curated[|curated| - 1]];
    }
  }

  /** Whatever the worker replies, a group contributes only files it owns, none of them blank. */
  lemma GroupsStayWithinTheirFiles(bundle: seq<File>, group: Group, enabled: bool, reply: Reply)
    ensures forall f :: f in GroupFiles(bundle, group, enabled, reply) ==>
      f.path in StringList(group.owned) && !IsBlank(f.content)
  {
    CuratedPaths(bundle, StringList(group.owned));
    if reply.Answer? {
      var usable := Usable(reply.files, StringList(group.owned));
      UsablePaths(reply.files, StringList(group.owned));
      RescuedPaths(SelectGroupFiles(bundle, group), usable);
    }
  }

  /** Repeats inside a group can only come from the worker's own answer. */
  lemma RepeatsComeFromTheAnswer(bundle: seq<File>, group: Group, enabled: bool, reply: Reply)
    requires reply.Answer? ==> DistinctPaths(Usable(reply.files, StringList(group.owned)))
    ensures DistinctPaths(GroupFiles(bundle, group, enabled, reply))
  {
    CuratedIsDistinct(bundle, group);
    if reply.Answer? {
      CompletedRepeatsIff(SelectGroupFiles(bundle, group), Usable(reply.files, StringList(group.owned)));
    }
  }

  /** The owned file an item names, when it has content. */
  function OwnedName(owned: seq<string>): File -> Option<string> {
    (f: File) => if Strip(f.path) in owned && !IsBlank(f.content) then Some(Strip(f.path)) else None
  }

  /** The answer names some owned file twice, with content each time. */
  ghost predicate NamesAFileTwice(answer: seq<File>, owned: seq<string>) { Twice(answer, OwnedName(owned)) }

  function Paths(files: seq<File>): (paths: seq<string>)
    ensures |paths| == |files| && forall i :: 0 <= i < |files| ==> paths[i] == files[i].path
  {
    seq(|files|, i requires 0 <= i < |files| => files[i].path)
  }

  lemma {:induction false} UsablePathsAreTheNames(answer: seq<File>, owned: seq<string>)
    ensures Paths(Usable(answer, owned)) == KeysOf(answer, OwnedName(owned))
  {
    if answer != [] {
      UsablePathsAreTheNames(answer[..|answer| - 1], owned);
      PathsOfConcat(Usable(answer[..|answer| - 1], owned), NewlyUsable(answer[|answer| - 1], owned));
    }
  }

  lemma PathsOfConcat(a: seq<File>, b: seq<File>)
    ensures Paths(a + b) == Paths(a) + Paths(b)
  {
  }

  lemma UsableIsDistinctIff(answer: seq<File>, owned: seq<string>)
    ensures DistinctPaths(Usable(answer, owned)) <==> !NamesAFileTwice(answer, owned)
  {
    UsablePathsAreTheNames(answer, owned);
    KeysDifferIff(answer, OwnedName(owned));
    var files := Usable(answer, owned);
    assert Distinct(Paths(files)) <==> DistinctPaths(files);
  }

  lemma DistinctPathsOfPrefix(a: seq<File>, b: seq<File>)
    requires DistinctPaths(a + b)
    ensures DistinctPaths(a)
  {
    forall i, j | 0 <= i < j < |a| ensures a[i].path != a[j].path { assert (a + b)[i].path != (a + b)[j].path; }
  }

  lemma CuratedIsDistinct(bundle: seq<File>, group: Group)
    ensures DistinctPaths(SelectGroupFiles(bundle, group))
  {
    StringListIsDistinct(group.owned);
    CuratedPaths(bundle, StringList(group.owned));
  }

  lemma CompletedRepeatsIff(curated: seq<File>, usable: seq<File>)
    requires DistinctPaths(curated)
    ensures DistinctPaths(usable + Rescued(curated, usable)) <==> DistinctPaths(usable)
  {
    var rescued := Rescued(curated, usable);
    RescuedPaths(curated, usable);
    if DistinctPaths(usable) {
      forall i, j | 0 <= i < |usable| && 0 <= j < |rescued| ensures usable[i].path != rescued[j].path {
        assert rescued[j] in rescued;
      }
    }
    if DistinctPaths(usable + rescued) { DistinctPathsOfPrefix(usable, rescued); }
  }

  /** What a group delivers repeats a path exactly when its worker is asked, answers, and names an owned file twice. */
  lemma GroupRepeatsIff(bundle: seq<File>, group: Group, enabled: bool, reply: Reply)
    ensures DistinctPaths(GroupFiles(bundle, group, enabled, reply))
       <==> !(!Golden(group) && enabled && reply.Answer? && NamesAFileTwice(reply.files, StringList(group.owned)))
  {
    CuratedIsDistinct(bundle, group);
    if reply.Answer? {
      UsableIsDistinctIff(reply.files, StringList(group.owned));
      CompletedRepeatsIff(SelectGroupFiles(bundle, group), Usable(reply.files, StringList(group.owned)));
    }
  }

  lemma HasPathOfConcat(a: seq<File>, b: seq<File>, path: string)
    ensures HasPath(a + b, path) <==> HasPath(a, path) || HasPath(b, path)
  {
    var all := a + b;
    if HasPath(a, path) {
      var i :| 0 <= i < |a| && a[i].path == path;
      assert all[i].path == path;
    }
    if HasPath(b, path) {
      var i :| 0 <= i < |b| && b[i].path == path;
      assert all[|a| + i].path == path;
    }
  }

  lemma {:induction false} CuratedHas(bundle: seq<File>, paths: seq<string>, path: string)
    requires path in paths && !IsBlank(Lookup(bundle, path))
    ensures HasPath(Curated(bundle, paths), path)
  {
    var before, last := paths[..|paths| - 1], paths[|paths| - 1];
    var c, d := Curated(bundle, before), CuratedAt(bundle, last);
    assert paths == before + [last] && Curated(bundle, paths) == c + d;
    if path == last {
      var all := c + d;
      assert all[|c|].path == path;
    } else {
      CuratedHas(bundle, before, path);
      var i :| 0 <= i < |c| && c[i].path == path;
      var all := c + d;
      assert all[i].path == path;
    }
  }

  lemma {:induction false} RescuedHas(curated: seq<File>, usable: seq<File>, path: string)
    requires HasPath(curated, path) && !HasPath(usable, path)
    ensures HasPath(Rescued(curated, usable), path)
  {
    var before, last := curated[..|curated| - 1], curated[|curated| - 1];
    var r := Rescued(before, usable);
    var all := Rescued(curated, usable);
    if last.path == path {
      assert all[|r|].path == path;
    } else {
      var i :| 0 <= i < |curated| && curated[i].path == path;
      assert before[i].path == path;
      RescuedHas(before, usable, path);
      var j :| 0 <= j < |r| && r[j].path == path;
      assert all[j].path == path;
    }
  }

  /** Whatever the worker omits or spoils, a group delivers every owned file that the curated bundle has. */
  lemma OwnedFilesAreRescued(bundle: seq<File>, group: Group, enabled: bool, reply: Reply, path: string)
    requires path in StringList(group.owned) && !IsBlank(Lookup(bundle, path))
    ensures HasPath(GroupFiles(bundle, group, enabled, reply), path)
  {
    var curated := SelectGroupFiles(bundle, group);
    CuratedHas(bundle, StringList(group.owned), path);
    if reply.Answer? {
      var usable := Usable(reply.files, StringList(group.owned));
      if !HasPath(usable, path) {
        RescuedHas(curated, usable, path);
      }
      HasPathOfConcat(usable, Rescued(curated, usable), path);
    }
  }

  // ---------- assembling ----------

  datatype Assembly = Assembly(files: seq<File>, duplicates: seq<string>)

  /** The first file of each path is kept; every later one is only noted. Files without a path are passed over. */
  function AddItem(a: Assembly, item: File): Assembly {
    var path := Strip(item.path);
    if path == "" then a
    else if HasPath(a.files, path) then a.(duplicates := a.duplicates + [path])
    else a.(files := a.files + [File(path, item.content)])
  }

  function Assembled(items: seq<File>): Assembly {
    if items == [] then Assembly([], []) else AddItem(Assembled(items[..|items| - 1]), items[|items| - 1])
  }

  function Named(items: seq<File>): seq<File> {
    if items == [] then [] else
      Named(items[..|items| - 1]) + if Strip(items[|items| - 1].path) == "" then [] else [items[|items| - 1]]
  }

  function Flatten(groups: seq<seq<File>>): seq<File> {
    if groups == [] then [] else Flatten(groups[..|groups| - 1]) + groups[|groups| - 1]
  }

  lemma AssembledOneMore(items: seq<File>, item: File)
    ensures Assembled(items + [item]) == AddItem(Assembled(items), item)
  {
    assert (items + [item])[..|items + [item]| - 1] == items;
  }

  method AssembleGroup(start: Assembly, items: seq<File>, ghost before: seq<File>) returns (a: Assembly)
    requires start == Assembled(before)
    ensures a == Assembled(before + items)
  {
    a := start;
    assert before + items[..0] == before;
    for i := 0 to |items|
      invariant a == Assembled(before + items[..i])
    {
      ghost var done := before + items[..i];
      assert before + items[..i + 1] == done + [items[i]];
      AssembledOneMore(done, items[i]);
      var path := Strip(items[i].path);
      if path == "" { continue; }
      if HasPath(a.files, path) {
        a := a.(duplicates := a.duplicates + [path]);
        continue;
      }
      a := a.(files := a.files + [File(path, items[i].content)]);
    }
    assert items[..|items|] == items;
  }

  method AssembleGeneratedFiles(groups: seq<seq<File>>) returns (a: Assembly)
    ensures a == Assembled(Flatten(groups))
  {
    a := Assembly([], []);
    for i := 0 to |groups|
      invariant a == Assembled(Flatten(groups[..i]))
    {
      assert groups[..i + 1][..i] == groups[..i];
      a := AssembleGroup(a, groups[i], Flatten(groups[..i]));
    }
    assert groups[..|groups|] == groups;
  }

  lemma HasPathOneMore(files: seq<File>, f: File, path: string)
    ensures HasPath(files + [f], path) <==> HasPath(files, path) || f.path == path
  {
    var all := files + [f];
    if HasPath(files, path) {
      var i :| 0 <= i < |files| && files[i].path == path;
      assert all[i].path == path;
    }
    if f.path == path { assert all[|files|].path == path; }
  }

  /** Nothing disappears: every item with a path is either surfaced or noted as a duplicate; surfaced paths differ. */
  lemma {:induction false} AssemblyConservesItems(items: seq<File>)
    ensures |Assembled(items).files| + |Assembled(items).duplicates| == |Named(items)|
    ensures DistinctPaths(Assembled(items).files)
  {
    if items != [] { AssemblyConservesItems(items[..|items| - 1]); }
  }

  ghost predicate FirstAtPath(items: seq<File>, i: int, f: File) {
    && 0 <= i < |items| && f == File(Strip(items[i].path), items[i].content) && f.path != ""
    && forall j :: 0 <= j < i ==> Strip(items[j].path) != f.path
  }

  ghost predicate SurfacedFrom(items: seq<File>, f: File) { exists i :: FirstAtPath(items, i, f) }

  lemma SurfacedOneMore(items: seq<File>, item: File, f: File)
    ensures SurfacedFrom(items + [item], f) <==>
      || SurfacedFrom(items, f)
      || (f == File(Strip(item.path), item.content) && f.path != ""
          && forall j :: 0 <= j < |items| ==> Strip(items[j].path) != f.path)
  {
    var all := items + [item];
    if SurfacedFrom(items, f) {
      var i :| FirstAtPath(items, i, f);
      assert forall j :: 0 <= j <= i ==> all[j] == items[j];
      assert FirstAtPath(all, i, f);
    }
    if SurfacedFrom(all, f) {
      var i :| FirstAtPath(all, i, f);
      assert forall j :: 0 <= j < |items| ==> all[j] == items[j];
      assert i < |items| ==> FirstAtPath(items, i, f);
    }
    if f == File(Strip(item.path), item.content) && f.path != "" {
      if forall j :: 0 <= j < |items| ==> Strip(items[j].path) != f.path {
        assert forall j :: 0 <= j < |items| ==> all[j] == items[j];
        assert FirstAtPath(all, |items|, f);
      }
    }
  }

  /** Some item names the path. */
  ghost predicate NamesPath(items: seq<File>, path: string) {
    exists j :: 0 <= j < |items| && Strip(items[j].path) == path
  }

  lemma NamesPathOneMore(items: seq<File>, n: nat, path: string)
    requires n == |items| - 1
    ensures NamesPath(items, path) <==> NamesPath(items[..n], path) || Strip(items[n].path) == path
  {
    var before := items[..n];
    if NamesPath(before, path) {
      var j :| 0 <= j < |before| && Strip(before[j].path) == path;
      assert items[j] == before[j];
    }
    if NamesPath(items, path) {
      var j :| 0 <= j < |items| && Strip(items[j].path) == path;
      assert j < n ==> before[j] == items[j];
    }
  }

  lemma {:induction false} PathIsCovered(items: seq<File>, path: string)
    ensures HasPath(Assembled(items).files, path) <==> path != "" && NamesPath(items, path)
  {
    if items != [] {
      var n := |items| - 1;
      var before, item := Assembled(items[..n]), items[n];
      PathIsCovered(items[..n], path);
      HasPathOneMore(before.files, File(Strip(item.path), item.content), path);
      NamesPathOneMore(items, n, path);
    }
  }

  /** What is surfaced is exactly the first file of every path. */
  lemma {:induction false} FirstFileWins(items: seq<File>, f: File)
    ensures f in Assembled(items).files <==> SurfacedFrom(items, f)
  {
    if items != [] {
      var before, item := items[..|items| - 1], items[|items| - 1];
      FirstFileWins(before, f);
      assert items == before + [item];
      SurfacedOneMore(before, item, f);
      PathIsCovered(before, f.path);
    }
  }

  ghost predicate NamesDiffer(items: seq<File>) {
    forall i, j :: 0 <= i < j < |items| && Strip(items[i].path) != "" ==> Strip(items[i].path) != Strip(items[j].path)
  }

  ghost predicate Names(items: seq<File>, path: string) {
    exists j :: 0 <= j < |items| && Strip(items[j].path) == path
  }

  lemma NamesDifferOneMore(items: seq<File>, item: File)
    ensures NamesDiffer(items + [item])
       <==> NamesDiffer(items) && (Strip(item.path) == "" || !Names(items, Strip(item.path)))
  {
    var all := items + [item];
    assert forall j :: 0 <= j < |items| ==> all[j] == items[j];
    if Strip(item.path) != "" && Names(items, Strip(item.path)) {
      var j :| 0 <= j < |items| && Strip(items[j].path) == Strip(item.path);
      assert Strip(all[j].path) == Strip(all[|items|].path) != "";
    }
  }

  /** There are no duplicates exactly when no two items name the same path. */
  lemma {:induction false} NoDuplicatesIffNamesDiffer(items: seq<File>)
    ensures Assembled(items).duplicates == [] <==> NamesDiffer(items)
  {
    if items != [] {
      var before, item := items[..|items| - 1], items[|items| - 1];
      NoDuplicatesIffNamesDiffer(before);
      PathIsCovered(before, Strip(item.path));
      assert items == before + [item];
      NamesDifferOneMore(before, item);
    }
  }

  // ---------- the surface order ----------

  /** Where a path stands in the preferred order, with the paths that are not in it all after the end. */
  function Position(order: seq<string>, path: string): (p: nat)
    ensures p < |order| ==> order[p] == path
    ensures p >= |order| ==> p == |order| + 1 && path !in order
    decreases |order|
  {
    if order == [] then 1
    else if order[|order| - 1] == path then |order| - 1
    else
      var p := Position(order[..|order| - 1], path);
      if p < |order| - 1 then p else |order| + 1
  }

  predicate FileLe(order: seq<string>, a: File, b: File) {
    var p, q := Position(order, a.path), Position(order, b.path);
    p < q || (p == q && StrLe(a.path, b.path))
  }

  function SurfaceOrder(files: seq<File>, order: seq<string>): seq<File> {
    Sort(files, (a: File, b: File) => FileLe(order, a, b))
  }

  lemma FileLeIsTotalPreorder(order: seq<string>)
    ensures TotalPreorder((a: File, b: File) => FileLe(order, a, b))
  {
    forall a: File, b: File ensures FileLe(order, a, b) || FileLe(order, b, a) { StrLeTotal(a.path, b.path); }
    forall a: File, b: File, c: File | FileLe(order, a, b) && FileLe(order, b, c) ensures FileLe(order, a, c) {
      if StrLe(a.path, b.path) && StrLe(b.path, c.path) { StrLeTransitive(a.path, b.path, c.path); }
    }
  }

  lemma TiesAreEqual(files: seq<File>, order: seq<string>, a: File, b: File)
    requires DistinctPaths(files) && a in files && b in files
    requires FileLe(order, a, b) && FileLe(order, b, a)
    ensures a == b
  {
    StrLeAntisymmetric(a.path, b.path);
  }

  /** The order of surfaced files does not depend on the order they were generated in, and only reorders them. */
  lemma SurfaceOrderIsCanonical(files: seq<File>, others: seq<File>, order: seq<string>)
    requires DistinctPaths(files) && multiset(files) == multiset(others)
    ensures SurfaceOrder(files, order) == SurfaceOrder(others, order)
    ensures multiset(SurfaceOrder(files, order)) == multiset(files)
  {
    var le := (a: File, b: File) => FileLe(order, a, b);
    FileLeIsTotalPreorder(order);
    SortSorts(files, le);
    SortSorts(others, le);
    SortPermutes(files, le);
    SortPermutes(others, le);
    var sorted := SurfaceOrder(files, order);
    forall a, b | a in sorted && b in sorted && le(a, b) && le(b, a) ensures a == b {
      assert a in multiset(sorted) && b in multiset(sorted);
      TiesAreEqual(files, order, a, b);
    }
    SortedUnique(sorted, SurfaceOrder(others, order), le);
  }

  // ---------- the bundle that is returned ----------

  /** `replies[i]` is what the worker of the i-th group would answer. */
  function GroupLists(plan: seq<Group>, bundle: seq<File>, enabled: bool, replies: seq<Reply>): seq<seq<File>>
    requires |plan| == |replies|
  {
    if plan == [] then [] else
      var n := |plan| - 1;
      GroupLists(plan[..n], bundle, enabled, replies[..n]) + [GroupFiles(bundle, plan[n], enabled, replies[n])]
  }

  /** The curated files shown to the operator: the README and everything under `terraform/`. */
  function Shown(bundle: seq<File>): seq<File> {
    if bundle == [] then [] else
      var f := bundle[|bundle| - 1];
      Shown(bundle[..|bundle| - 1]) + if f.path == "README.md" || StartsWith(f.path, TF) then [f] else []
  }

  predicate HasAll(files: seq<File>, paths: seq<string>) {
    forall p :: p in paths ==> HasPath(files, p)
  }

  function Surfaced(plan: Plan, bundle: seq<File>, enabled: bool, replies: seq<Reply>): seq<File>
    requires |plan.groups| == |replies|
  {
    var order := StringList(plan.ordering);
    var assembled := Assembled(Flatten(GroupLists(plan.groups, bundle, enabled, replies))).files;
    SurfaceOrder(if HasAll(assembled, CRITICAL) then assembled else Shown(bundle), order)
  }

  method GenerateBundle(plan: Plan, bundle: seq<File>, enabled: bool, replies: seq<Reply>) returns (files: seq<File>)
    requires |plan.groups| == |replies|
    ensures files == Surfaced(plan, bundle, enabled, replies)
  {
    var generated: seq<seq<File>> := [];
    for i := 0 to |plan.groups|
      invariant generated == GroupLists(plan.groups[..i], bundle, enabled, replies[..i])
    {
      assert plan.groups[..i + 1][..i] == plan.groups[..i] && replies[..i + 1][..i] == replies[..i];
      var group, group_files := plan.groups[i], SelectGroupFiles(bundle, plan.groups[i]);
      if !Golden(group) && enabled && replies[i].Answer? {
        var usable := Usable(replies[i].files, StringList(group.owned));
        if |usable| > 0 { group_files := usable + Rescued(group_files, usable); }
      }
      generated := generated + [group_files];
    }
    assert plan.groups[..|plan.groups|] == plan.groups && replies[..|replies|] == replies;
    var assembly := AssembleGeneratedFiles(generated);
    var order := BuildStringList(plan.ordering);
    if HasAll(assembly.files, CRITICAL) { return SurfaceOrder(assembly.files, order); }
    files := SurfaceOrder(Shown(bundle), order);
  }

  lemma {:induction false} ShownFiles(bundle: seq<File>)
    ensures forall f :: f in Shown(bundle) <==>
      f in bundle && (f.path == "README.md" || StartsWith(f.path, TF))
    ensures DistinctPaths(bundle) ==> DistinctPaths(Shown(bundle))
  {
    if bundle != [] {
      ShownFiles(bundle[..|bundle| - 1]);
      assert bundle == bundle[..|bundle| - 1] + [bundle[|bundle| - 1]];
    }
  }

  lemma SurfaceOrderKeepsPaths(files: seq<File>, order: seq<string>)
    requires DistinctPaths(files)
    ensures DistinctPaths(SurfaceOrder(files, order))
    ensures forall f :: f in SurfaceOrder(files, order) <==> f in files
    ensures forall p :: HasPath(SurfaceOrder(files, order), p) <==> HasPath(files, p)
  {
    var sorted := SurfaceOrder(files, order);
    SurfaceOrderIsCanonical(files, files, order);
    forall f ensures f in sorted <==> f in files {
      assert f in multiset(sorted) <==> f in multiset(files);
    }
    SamePathsSameFiles(files, sorted);
    SamePathsSameFiles(sorted, files);
    MultisetKeepsDistinctPaths(files, sorted);
  }

  lemma SamePathsSameFiles(files: seq<File>, others: seq<File>)
    requires forall f :: f in files ==> f in others
    ensures forall p :: HasPath(files, p) ==> HasPath(others, p)
  {
    forall p | HasPath(files, p) ensures HasPath(others, p) {
      var i :| 0 <= i < |files| && files[i].path == p;
      assert files[i] in files;
      var j :| 0 <= j < |others| && others[j] == files[i];
      assert others[j].path == p;
    }
  }

  lemma {:induction false} DistinctPathsCountOnce(files: seq<File>, f: File)
    requires DistinctPaths(files)
    ensures multiset(files)[f] <= 1
  {
    if files != [] {
      assert files == [files[0]] + files[1..];
      DistinctPathsCountOnce(files[1..], f);
      if files[0] == f { assert f !in files[1..]; }
    }
  }

  lemma TwiceThere<T>(s: seq<T>, i: nat, j: nat)
    requires i < j < |s| && s[i] == s[j]
    ensures multiset(s)[s[i]] >= 2
  {
    assert s == s[..i] + [s[i]] + s[i + 1..j] + [s[j]] + s[j + 1..];
  }

  lemma MultisetKeepsDistinctPaths(files: seq<File>, others: seq<File>)
    requires DistinctPaths(files) && multiset(files) == multiset(others)
    ensures DistinctPaths(others)
  {
    forall i, j | 0 <= i < j < |others| ensures others[i].path != others[j].path {
      var f, g := others[i], others[j];
      assert f in multiset(others) && g in multiset(others);
      DistinctPathsCountOnce(files, f);
      assert f.path == g.path ==> f == g;
      if f == g { TwiceThere(others, i, j); }
    }
  }

  /**
   * Whatever the workers reply, the surfaced paths differ, and the four critical files are all there exactly
   * when the generated files have them or the curated bundle does.
   */
  lemma BundleIsWellFormed(plan: Plan, bundle: seq<File>, enabled: bool, replies: seq<Reply>)
    requires |plan.groups| == |replies| && DistinctPaths(bundle)
    ensures DistinctPaths(Surfaced(plan, bundle, enabled, replies))
    ensures HasAll(Surfaced(plan, bundle, enabled, replies), CRITICAL)
       <==> (|| HasAll(bundle, CRITICAL)
             || HasAll(Assembled(Flatten(GroupLists(plan.groups, bundle, enabled, replies))).files, CRITICAL))
  {
    var items := Flatten(GroupLists(plan.groups, bundle, enabled, replies));
    var order := StringList(plan.ordering);
    AssemblyConservesItems(items);
    ShownFiles(bundle);
    SurfaceOrderKeepsPaths(Assembled(items).files, order);
    SurfaceOrderKeepsPaths(Shown(bundle), order);
    ShownHasTheCriticalFiles(bundle);
  }

  lemma ShownHasTheCriticalFiles(bundle: seq<File>)
    ensures HasAll(Shown(bundle), CRITICAL) <==> HasAll(bundle, CRITICAL)
  {
    ShownFiles(bundle);
    SamePathsSameFiles(Shown(bundle), bundle);
    forall p | p in CRITICAL && HasPath(bundle, p) ensures HasPath(Shown(bundle), p) {
      var i :| 0 <= i < |bundle| && bundle[i].path == p;
      var j :| 0 <= j < |Shown(bundle)| && Shown(bundle)[j] == bundle[i];
      assert Shown(bundle)[j].path == p;
    }
  }

  ghost predicate OwnedBySome(groups: seq<Group>, path: string) {
    exists i :: 0 <= i < |groups| && path in StringList(groups[i].owned)
  }

  lemma {:induction false} GeneratedFilesAreOwned(
      groups: seq<Group>, bundle: seq<File>, enabled: bool, replies: seq<Reply>, f: File)
    requires |groups| == |replies| && f in Flatten(GroupLists(groups, bundle, enabled, replies))
    ensures OwnedBySome(groups, f.path) && !IsBlank(f.content)
  {
    if groups != [] {
      var n := |groups| - 1;
      GroupsStayWithinTheirFiles(bundle, groups[n], enabled, replies[n]);
      if f in Flatten(GroupLists(groups[..n], bundle, enabled, replies[..n])) {
        GeneratedFilesAreOwned(groups[..n], bundle, enabled, replies[..n], f);
        var i :| 0 <= i < n && f.path in StringList(groups[..n][i].owned);
        assert f.path in StringList(groups[i].owned);
      }
    }
  }

  lemma {:induction false} GeneratedHas(
      groups: seq<Group>, bundle: seq<File>, enabled: bool, replies: seq<Reply>, i: nat, path: string)
    requires |groups| == |replies| && i < |groups|
    requires path in StringList(groups[i].owned) && !IsBlank(Lookup(bundle, path))
    ensures HasPath(Flatten(GroupLists(groups, bundle, enabled, replies)), path)
  {
    var n := |groups| - 1;
    var before := Flatten(GroupLists(groups[..n], bundle, enabled, replies[..n]));
    var mine := GroupFiles(bundle, groups[n], enabled, replies[n]);
    var lists := GroupLists(groups, bundle, enabled, replies);
    assert lists[..|lists| - 1] == GroupLists(groups[..n], bundle, enabled, replies[..n]);
    HasPathOfConcat(before, mine, path);
    if i == n {
      OwnedFilesAreRescued(bundle, groups[n], enabled, replies[n], path);
    } else {
      GeneratedHas(groups[..n], bundle, enabled, replies[..n], i, path);
    }
  }

  /** Every file that some group owns and the curated bundle has is surfaced, whatever the workers reply. */
  lemma OwnedFilesAreSurfaced(
      plan: Plan, bundle: seq<File>, enabled: bool, replies: seq<Reply>, i: nat, path: string)
    requires |plan.groups| == |replies| && i < |plan.groups|
    requires path in StringList(plan.groups[i].owned) && !IsBlank(Lookup(bundle, path))
    ensures HasPath(Assembled(Flatten(GroupLists(plan.groups, bundle, enabled, replies))).files, path)
  {
    var items := Flatten(GroupLists(plan.groups, bundle, enabled, replies));
    GeneratedHas(plan.groups, bundle, enabled, replies, i, path);
    PathIsCovered(items, path);
    StringListIsDistinct(plan.groups[i].owned);
    var j :| 0 <= j < |items| && items[j].path == path;
    var k :| 0 <= k < |plan.groups[i].owned| && Strip(plan.groups[i].owned[k]) == path;
    StripIsIdempotent(plan.groups[i].owned[k]);
    assert Strip(items[j].path) == path;
  }
}
