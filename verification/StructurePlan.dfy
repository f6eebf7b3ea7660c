/** The deterministic structure plan, and how a plan proposed by a worker is merged with it. */
module StructurePlan {
  import opened Text
  import opened Lists
  import opened Wrappers
  import opened Ordering
  import opened TerraformBundle

  const ROOT_LEAVES: seq<string> :=
    ["versions.tf", "providers.tf", "backend.tf", "variables.tf", "locals.tf", "main.tf", "outputs.tf", "terraform.tfvars"]
  const MODULE_LEAVES: seq<string> := ["main.tf", "variables.tf", "outputs.tf"]

  function Under(prefix: string, leaves: seq<string>): (paths: seq<string>)
    ensures |paths| == |leaves| && forall i :: 0 <= i < |leaves| ==> paths[i] == prefix + leaves[i]
  {
    if leaves == [] then [] else [prefix + leaves[0]] + Under(prefix, leaves[1..])
  }

  function RootFiles(): seq<string> { ["README.md"] + Under(TF, ROOT_LEAVES) }

  function ModulePaths(m: string): seq<string> { Under(TF, Under("modules/", Under(m + "/", MODULE_LEAVES))) }

  function ModuleNames(strategy: string): seq<string> {
    if strategy == "s3_cloudfront" then ["storage"] else ["networking", "iam", "compute", "data"]
  }

  function ModuleGroups(names: seq<string>): seq<Group> {
    if names == [] then [] else
      ModuleGroups(names[..|names| - 1]) + [Group(names[|names| - 1], ModulePaths(names[|names| - 1]))]
  }

  function FallbackGroups(strategy: string): seq<Group> {
    [Group("root", RootFiles())] + ModuleGroups(ModuleNames(strategy))
  }

  function ModuleTree(names: seq<string>): seq<string> {
    if names == [] then [] else ModuleTree(names[..|names| - 1]) + ModulePaths(names[|names| - 1])
  }

  function FileTree(strategy: string): seq<string> { RootFiles() + ModuleTree(ModuleNames(strategy)) }

  function FallbackPlan(strategy: string): Plan { Plan(FallbackGroups(strategy), FileTree(strategy)) }

  // ---------- the file tree names every file once ----------

  lemma UnderIsInjective(prefix: string, a: string, b: string)
    requires prefix + a == prefix + b
    ensures a == b
  {
    assert a == (prefix + a)[|prefix|..] && b == (prefix + b)[|prefix|..];
  }

  lemma UnderIsDistinct(prefix: string, leaves: seq<string>)
    requires Distinct(leaves)
    ensures Distinct(Under(prefix, leaves))
  {
    forall i, j | 0 <= i < j < |leaves| ensures Under(prefix, leaves)[i] != Under(prefix, leaves)[j] {
      if prefix + leaves[i] == prefix + leaves[j] { UnderIsInjective(prefix, leaves[i], leaves[j]); }
    }
  }

  ghost predicate Disjoint(a: seq<string>, b: seq<string>) { forall x :: x in a ==> x !in b }

  lemma UnderIsDisjoint(prefix: string, a: seq<string>, b: seq<string>)
    requires Disjoint(a, b)
    ensures Disjoint(Under(prefix, a), Under(prefix, b))
  {
    forall x | x in Under(prefix, a) ensures x !in Under(prefix, b) {
      var i :| 0 <= i < |a| && Under(prefix, a)[i] == x;
      assert a[i] in a;
      if j :| 0 <= j < |b| && Under(prefix, b)[j] == x { UnderIsInjective(prefix, a[i], b[j]); }
    }
  }

  lemma DistinctConcat(a: seq<string>, b: seq<string>)
    requires Distinct(a) && Distinct(b) && Disjoint(a, b)
    ensures Distinct(a + b)
  {
    forall i, j | 0 <= i < j < |a + b| ensures (a + b)[i] != (a + b)[j] {
      if i < |a| <= j { assert a[i] in a && b[j - |a|] in b; }
    }
  }

  lemma RootLeavesAreDistinct()
    ensures Distinct(ROOT_LEAVES) && Distinct(MODULE_LEAVES)
  {
    var s := ROOT_LEAVES;
    assert s[0][0] == 'v' && s[1][0] == 'p' && s[2][0] == 'b' && s[3][0] == 'v' && s[4][0] == 'l';
    assert s[5][0] == 'm' && s[6][0] == 'o' && s[7][0] == 't' && s[0][1] == 'e' && s[3][1] == 'a';
  }

  lemma LeavesHaveNoSlash()
    ensures forall x :: x in ROOT_LEAVES || x in MODULE_LEAVES ==> '/' !in x
  {
  }

  ghost predicate SlashFree(names: seq<string>) { forall n :: n in names ==> '/' !in n }

  lemma FirstSegment(a: string, b: string, leaf: string, other: string)
    requires '/' !in a && '/' !in b && (a + "/") + leaf == (b + "/") + other
    ensures a == b
  {
    SplitAtSeparator(a, leaf, '/');
    SplitAtSeparator(b, other, '/');
    assert a + ['/'] + leaf == (a + "/") + leaf && b + ['/'] + other == (b + "/") + other;
    assert Split((a + "/") + leaf, '/')[0] == a;
  }

  lemma LeavesUnderDiffer(a: string, b: string, leaves: seq<string>)
    requires a != b && '/' !in a && '/' !in b
    ensures Disjoint(Under(a + "/", leaves), Under(b + "/", leaves))
  {
    var x, y := Under(a + "/", leaves), Under(b + "/", leaves);
    forall p | p in x ensures p !in y {
      var i :| 0 <= i < |x| && x[i] == p;
      if j :| 0 <= j < |y| && y[j] == p { FirstSegment(a, b, leaves[i], leaves[j]); }
    }
  }

  lemma ModulesDiffer(a: string, b: string)
    requires a != b && '/' !in a && '/' !in b
    ensures Disjoint(ModulePaths(a), ModulePaths(b))
  {
    var x, y := Under(a + "/", MODULE_LEAVES), Under(b + "/", MODULE_LEAVES);
    LeavesUnderDiffer(a, b, MODULE_LEAVES);
    UnderIsDisjoint("modules/", x, y);
    UnderIsDisjoint(TF, Under("modules/", x), Under("modules/", y));
  }

  lemma ModulePathsAreDistinct(m: string)
    ensures Distinct(ModulePaths(m))
  {
    RootLeavesAreDistinct();
    UnderIsDistinct(m + "/", MODULE_LEAVES);
    UnderIsDistinct("modules/", Under(m + "/", MODULE_LEAVES));
    UnderIsDistinct(TF, Under("modules/", Under(m + "/", MODULE_LEAVES)));
  }

  lemma {:induction false} ModuleIsNew(names: seq<string>, m: string)
    requires SlashFree(names) && '/' !in m && m !in names
    ensures Disjoint(ModuleTree(names), ModulePaths(m))
  {
    if names != [] {
      var before := names[..|names| - 1];
      assert names == before + [names[|names| - 1]];
      ModuleIsNew(before, m);
      ModulesDiffer(names[|names| - 1], m);
    }
  }

  lemma {:induction false} ModuleTreeIsDistinct(names: seq<string>)
    requires SlashFree(names) && Distinct(names)
    ensures Distinct(ModuleTree(names))
  {
    if names != [] {
      var before, m := names[..|names| - 1], names[|names| - 1];
      assert names == before + [m] && m in names && m !in before;
      ModuleTreeIsDistinct(before);
      ModulePathsAreDistinct(m);
      ModuleIsNew(before, m);
      DistinctConcat(ModuleTree(before), ModulePaths(m));
    }
  }

  lemma UnderHas(prefix: string, leaves: seq<string>, c: char)
    requires c in prefix
    ensures forall p :: p in Under(prefix, leaves) ==> c in p
  {
  }

  lemma UnderBegins(prefix: string, leaves: seq<string>)
    requires prefix != ""
    ensures forall p :: p in Under(prefix, leaves) ==> p != "" && p[0] == prefix[0]
  {
  }

  lemma RootHasNoModules(m: string)
    ensures Disjoint(RootFiles(), ModulePaths(m))
  {
    var x := Under("modules/", Under(m + "/", MODULE_LEAVES));
    LeavesHaveNoSlash();
    UnderHas("modules/", Under(m + "/", MODULE_LEAVES), '/');
    UnderIsDisjoint(TF, ROOT_LEAVES, x);
    UnderBegins(TF, x);
  }

  lemma {:induction false} RootIsApart(names: seq<string>)
    ensures Disjoint(RootFiles(), ModuleTree(names))
  {
    if names != [] {
      RootIsApart(names[..|names| - 1]);
      RootHasNoModules(names[|names| - 1]);
    }
  }

  lemma NamesAreDistinct(strategy: string)
    ensures Distinct(ModuleNames(strategy)) && SlashFree(ModuleNames(strategy))
  {
  }

  lemma RootFilesAreDistinct()
    ensures Distinct(RootFiles())
  {
    RootLeavesAreDistinct();
    UnderIsDistinct(TF, ROOT_LEAVES);
    UnderBegins(TF, ROOT_LEAVES);
    DistinctConcat(["README.md"], Under(TF, ROOT_LEAVES));
  }

  lemma TreeIsDistinct(strategy: string)
    ensures Distinct(FileTree(strategy))
  {
    NamesAreDistinct(strategy);
    RootFilesAreDistinct();
    ModuleTreeIsDistinct(ModuleNames(strategy));
    RootIsApart(ModuleNames(strategy));
    DistinctConcat(RootFiles(), ModuleTree(ModuleNames(strategy)));
  }

  predicate Tidy(s: string) { s != "" && !IsSpace(s[0]) && !IsSpace(s[|s| - 1]) }

  ghost predicate AllTidy(names: seq<string>) { forall n :: n in names ==> Tidy(n) }

  lemma UnderIsTidy(prefix: string, leaves: seq<string>)
    requires prefix != "" && !IsSpace(prefix[0]) && AllTidy(leaves)
    ensures AllTidy(Under(prefix, leaves))
  {
    forall p | p in Under(prefix, leaves) ensures Tidy(p) {
      var i :| 0 <= i < |leaves| && Under(prefix, leaves)[i] == p;
      assert leaves[i] in leaves;
    }
  }

  lemma LeavesAreTidy()
    ensures AllTidy(ROOT_LEAVES) && AllTidy(MODULE_LEAVES) && Tidy("README.md")
  {
  }

  lemma ModulePathsAreTidy(m: string)
    requires Tidy(m)
    ensures AllTidy(ModulePaths(m))
  {
    LeavesAreTidy();
    UnderIsTidy(m + "/", MODULE_LEAVES);
    UnderIsTidy("modules/", Under(m + "/", MODULE_LEAVES));
    UnderIsTidy(TF, Under("modules/", Under(m + "/", MODULE_LEAVES)));
  }

  lemma {:induction false} ModuleTreeIsTidy(names: seq<string>)
    requires AllTidy(names)
    ensures AllTidy(ModuleTree(names))
  {
    if names != [] {
      assert names == names[..|names| - 1] + [names[|names| - 1]];
      ModuleTreeIsTidy(names[..|names| - 1]);
      ModulePathsAreTidy(names[|names| - 1]);
    }
  }

  lemma RootFilesAreTidy()
    ensures AllTidy(RootFiles())
  {
    LeavesAreTidy();
    UnderIsTidy(TF, ROOT_LEAVES);
  }

  lemma NamesAreTidy(strategy: string)
    ensures AllTidy(ModuleNames(strategy))
  {
  }

  lemma TidyIsClean(names: seq<string>)
    requires Distinct(names) && AllTidy(names)
    ensures Clean(names) && StringList(names) == names
  {
    forall t | t in names ensures t != "" && Strip(t) == t { StripNothing(t); }
    StringListOfClean(names);
  }

  function Owned(groups: seq<Group>): seq<string> {
    if groups == [] then [] else Owned(groups[..|groups| - 1]) + groups[|groups| - 1].owned
  }

  lemma OwnedOneMore(groups: seq<Group>, g: Group)
    ensures Owned(groups + [g]) == Owned(groups) + g.owned
  {
    assert (groups + [g])[..|groups + [g]| - 1] == groups;
  }

  /** The groups of a deterministic plan up to one more module. */
  lemma ModuleGroupsOneMore(root: Group, names: seq<string>)
    requires names != []
    ensures var before, m := names[..|names| - 1], names[|names| - 1];
      [root] + ModuleGroups(names) == ([root] + ModuleGroups(before)) + [Group(m, ModulePaths(m))]
  {
  }

  lemma {:induction false} OwnedByModules(root: Group, names: seq<string>)
    ensures Owned([root] + ModuleGroups(names)) == root.owned + ModuleTree(names)
  {
    if names == [] {
      OwnedOneMore([], root);
      assert [root] + ModuleGroups(names) == [] + [root];
    } else {
      var before, m := names[..|names| - 1], names[|names| - 1];
      OwnedByModules(root, before);
      ModuleGroupsOneMore(root, names);
      OwnedOneMore([root] + ModuleGroups(before), Group(m, ModulePaths(m)));
      Associative(root.owned, ModuleTree(before), ModulePaths(m));
    }
  }

  /** The groups of the deterministic plan divide its file tree: every file has exactly one owner. */
  lemma OwnershipPartitionsTheTree(strategy: string)
    ensures Owned(FallbackGroups(strategy)) == FileTree(strategy) && Clean(FileTree(strategy))
  {
    OwnedByModules(Group("root", RootFiles()), ModuleNames(strategy));
    TreeIsDistinct(strategy);
    RootFilesAreTidy();
    NamesAreTidy(strategy);
    ModuleTreeIsTidy(ModuleNames(strategy));
    TidyIsClean(FileTree(strategy));
  }

  // ---------- rendering the deterministic plan ----------

  lemma CuratedOneMore(bundle: seq<File>, paths: seq<string>, path: string)
    ensures Curated(bundle, paths + [path]) == Curated(bundle, paths) + CuratedAt(bundle, path)
  {
    FlatMapOneMore(paths, path, p => CuratedAt(bundle, p));
  }

  lemma CuratedOfConcat(bundle: seq<File>, a: seq<string>, b: seq<string>)
    ensures Curated(bundle, a + b) == Curated(bundle, a) + Curated(bundle, b)
  {
    FlatMapOfConcat(a, b, p => CuratedAt(bundle, p));
  }

  lemma ModuleRenders(bundle: seq<File>, m: string, enabled: bool, reply: Reply)
    requires Tidy(m) && m in GOLDEN
    ensures GroupFiles(bundle, Group(m, ModulePaths(m)), enabled, reply) == Curated(bundle, ModulePaths(m))
  {
    ModulePathsAreTidy(m);
    ModulePathsAreDistinct(m);
    TidyIsClean(ModulePaths(m));
    GoldenNameIsGolden(Group(m, ModulePaths(m)));
  }

  lemma OneModuleMore(root: Group, names: seq<string>, bundle: seq<File>, enabled: bool, replies: seq<Reply>, mine: seq<File>)
    requires names != [] && |replies| == 1 + |names| && Tidy(names[|names| - 1]) && names[|names| - 1] in GOLDEN
    requires |ModuleGroups(names)| == |names| && |ModuleGroups(names[..|names| - 1])| == |names| - 1
    requires Flatten(GroupLists([root] + ModuleGroups(names[..|names| - 1]), bundle, enabled, replies[..|names|]))
          == mine + Curated(bundle, ModuleTree(names[..|names| - 1]))
    ensures Flatten(GroupLists([root] + ModuleGroups(names), bundle, enabled, replies))
         == mine + Curated(bundle, ModuleTree(names))
  {
    var n := |names| - 1;
    var before, m := names[..n], names[n];
    ModuleGroupsOneMore(root, names);
    LastGroupRenders([root] + ModuleGroups(before), Group(m, ModulePaths(m)), bundle, enabled, replies);
    ModuleRenders(bundle, m, enabled, replies[n + 1]);
    CuratedOfConcat(bundle, ModuleTree(before), ModulePaths(m));
    Associative(mine, Curated(bundle, ModuleTree(before)), Curated(bundle, ModulePaths(m)));
  }

  lemma {:induction false} ModulesRenderTheirTree(
      root: Group, names: seq<string>, bundle: seq<File>, enabled: bool, replies: seq<Reply>)
    requires |replies| == 1 + |names| && AllTidy(names) && forall n :: n in names ==> n in GOLDEN
    ensures |[root] + ModuleGroups(names)| == |replies|
    ensures Flatten(GroupLists([root] + ModuleGroups(names), bundle, enabled, replies))
         == GroupFiles(bundle, root, enabled, replies[0]) + Curated(bundle, ModuleTree(names))
  {
    ModuleGroupCount(names);
    var mine := GroupFiles(bundle, root, enabled, replies[0]);
    if names == [] {
      LastGroupRenders([], root, bundle, enabled, replies);
      assert [root] + ModuleGroups(names) == [] + [root];
      assert Flatten(GroupLists([], bundle, enabled, replies[..0])) == [];
    } else {
      var n := |names| - 1;
      assert names == names[..n] + [names[n]] && names[n] in names;
      ModulesRenderTheirTree(root, names[..n], bundle, enabled, replies[..n + 1]);
      ModuleGroupCount(names[..n]);
      OneModuleMore(root, names, bundle, enabled, replies, mine);
    }
  }

  lemma LastGroupRenders(groups: seq<Group>, last: Group, bundle: seq<File>, enabled: bool, replies: seq<Reply>)
    requires |replies| == |groups| + 1
    ensures Flatten(GroupLists(groups + [last], bundle, enabled, replies))
         == Flatten(GroupLists(groups, bundle, enabled, replies[..|groups|]))
            + GroupFiles(bundle, last, enabled, replies[|groups|])
  {
    assert (groups + [last])[..|groups|] == groups;
    var lists := GroupLists(groups, bundle, enabled, replies[..|groups|]);
    var mine := GroupFiles(bundle, last, enabled, replies[|groups|]);
    assert (lists + [mine])[..|lists|] == lists;
  }

  lemma {:induction false} CleanItemsAssemble(items: seq<File>)
    requires DistinctPaths(items) && forall f :: f in items ==> f.path != "" && Strip(f.path) == f.path
    ensures Assembled(items) == Assembly(items, [])
  {
    if items != [] {
      var before, item := items[..|items| - 1], items[|items| - 1];
      assert items == before + [item];
      CleanItemsAssemble(before);
    }
  }

  lemma {:induction false} PositionOfDistinct(order: seq<string>, i: nat)
    requires Distinct(order) && i < |order|
    ensures Position(order, order[i]) == i
    decreases |order|
  {
    if i < |order| - 1 { PositionOfDistinct(order[..|order| - 1], i); }
  }

  lemma {:induction false} CuratedIsInOrder(bundle: seq<File>, order: seq<string>, n: nat)
    requires Distinct(order) && n <= |order|
    ensures var c := Curated(bundle, order[..n]);
      && (forall i :: 0 <= i < |c| ==> Position(order, c[i].path) < n)
      && (forall i, j :: 0 <= i < j < |c| ==> Position(order, c[i].path) < Position(order, c[j].path))
  {
    if n > 0 {
      CuratedIsInOrder(bundle, order, n - 1);
      assert order[..n] == order[..n - 1] + [order[n - 1]];
      CuratedOneMore(bundle, order[..n - 1], order[n - 1]);
      PositionOfDistinct(order, n - 1);
    }
  }

  lemma CuratedKeepsItsOrder(bundle: seq<File>, order: seq<string>)
    requires Distinct(order)
    ensures SurfaceOrder(Curated(bundle, order), order) == Curated(bundle, order)
  {
    CuratedIsInOrder(bundle, order, |order|);
    assert order[..|order|] == order;
    SortOfSorted(Curated(bundle, order), (a: File, b: File) => FileLe(order, a, b));
  }

  lemma GoldenNames(strategy: string)
    ensures forall n :: n in ModuleNames(strategy) ==> n in GOLDEN
  {
  }

  /**
   * With the deterministic plan only the root group is left to a worker: the assembly reports duplicates exactly
   * when that worker is asked, answers, and names one of the root's files twice, with content.
   */
  lemma OnlyTheRootCanRepeat(strategy: string, bundle: seq<File>, enabled: bool, replies: seq<Reply>)
    requires |replies| == |FallbackGroups(strategy)|
    ensures Assembled(Flatten(GroupLists(FallbackGroups(strategy), bundle, enabled, replies))).duplicates == []
       <==> !(enabled && replies[0].Answer? && NamesAFileTwice(replies[0].files, RootFiles()))
  {
    var root := Group("root", RootFiles());
    RepeatsAreTheRoots(strategy, bundle, enabled, replies);
    RootFilesAreTidy();
    RootFilesAreDistinct();
    TidyIsClean(RootFiles());
    StringListOfClean(RootFiles());
    RootIsNotGolden();
    GroupRepeatsIff(bundle, root, enabled, replies[0]);
  }

  lemma RootIsNotGolden()
    ensures !Golden(Group("root", RootFiles()))
  {
    StripNothing("root");
  }

  /** A worker that gives two versions of the readme is reported, for every strategy and bundle. */
  lemma RepeatedReadmeIsReported(strategy: string, bundle: seq<File>, replies: seq<Reply>)
    requires |replies| == |FallbackGroups(strategy)|
    requires replies[0] == Answer([File("README.md", "a"), File("README.md", "b")])
    ensures Assembled(Flatten(GroupLists(FallbackGroups(strategy), bundle, true, replies))).duplicates != []
  {
    assert RootFiles()[0] == "README.md";
    ReadmeIsNamedTwice(RootFiles());
    OnlyTheRootCanRepeat(strategy, bundle, true, replies);
  }

  lemma ReadmeIsNamedTwice(owned: seq<string>)
    requires "README.md" in owned
    ensures NamesAFileTwice([File("README.md", "a"), File("README.md", "b")], owned)
  {
    var files, name := [File("README.md", "a"), File("README.md", "b")], OwnedName(owned);
    StripNothing("README.md");
    StripNothing("a");
    StripNothing("b");
    assert name(files[0]) == Some("README.md") == name(files[1]);
  }

  lemma RepeatsAreTheRoots(strategy: string, bundle: seq<File>, enabled: bool, replies: seq<Reply>)
    requires |replies| == |FallbackGroups(strategy)|
    ensures Assembled(Flatten(GroupLists(FallbackGroups(strategy), bundle, enabled, replies))).duplicates == []
       <==> DistinctPaths(GroupFiles(bundle, Group("root", RootFiles()), enabled, replies[0]))
  {
    var root, names := Group("root", RootFiles()), ModuleNames(strategy);
    ModuleGroupCount(names);
    NamesAreTidy(strategy);
    GoldenNames(strategy);
    ModulesRenderTheirTree(root, names, bundle, enabled, replies);
    var mine, others := GroupFiles(bundle, root, enabled, replies[0]), Curated(bundle, ModuleTree(names));
    NoDuplicatesIffNamesDiffer(mine + others);
    OwnershipPartitionsTheTree(strategy);
    RootGroupIsTidy(bundle, enabled, replies[0]);
    ModuleFilesAreTidy(bundle, names, strategy);
    RootIsApart(names);
    NamesOfTidyConcat(mine, others);
  }

  lemma {:induction false} ModuleGroupCount(names: seq<string>)
    ensures |ModuleGroups(names)| == |names|
  {
    if names != [] { ModuleGroupCount(names[..|names| - 1]); }
  }

  ghost predicate TidyPaths(files: seq<File>) { forall f :: f in files ==> f.path != "" && Strip(f.path) == f.path }

  lemma RootGroupIsTidy(bundle: seq<File>, enabled: bool, reply: Reply)
    ensures var files := GroupFiles(bundle, Group("root", RootFiles()), enabled, reply);
      TidyPaths(files) && forall f :: f in files ==> f.path in RootFiles()
  {
    RootFilesAreTidy();
    RootFilesAreDistinct();
    TidyIsClean(RootFiles());
    GroupsStayWithinTheirFiles(bundle, Group("root", RootFiles()), enabled, reply);
  }

  lemma ModuleFilesAreTidy(bundle: seq<File>, names: seq<string>, strategy: string)
    requires names == ModuleNames(strategy)
    ensures var files := Curated(bundle, ModuleTree(names));
      TidyPaths(files) && DistinctPaths(files) && forall f :: f in files ==> f.path in ModuleTree(names)
  {
    NamesAreTidy(strategy);
    NamesAreDistinct(strategy);
    ModuleTreeIsTidy(names);
    ModuleTreeIsDistinct(names);
    TidyIsClean(ModuleTree(names));
    CuratedPaths(bundle, ModuleTree(names));
  }

  lemma NamesOfTidyConcat(mine: seq<File>, others: seq<File>)
    requires TidyPaths(mine) && TidyPaths(others) && DistinctPaths(others)
    requires forall f, g :: f in mine && g in others ==> f.path != g.path
    ensures NamesDiffer(mine + others) <==> DistinctPaths(mine)
  {
    var all := mine + others;
    assert forall i :: 0 <= i < |mine| ==> all[i] == mine[i] && all[i] in mine;
    assert forall j :: |mine| <= j < |all| ==> all[j] == others[j - |mine|] && all[j] in others;
    if NamesDiffer(all) {
      forall i, j | 0 <= i < j < |mine| ensures mine[i].path != mine[j].path {
        assert Strip(all[i].path) != Strip(all[j].path);
      }
    }
  }

  /**
   * With no worker for the root group, the deterministic plan renders every file of its tree that the curated
   * bundle has, once, in the order of the plan, and that is the whole bundle when the critical files are there.
   */
  lemma DeterministicBundle(strategy: string, bundle: seq<File>, enabled: bool, replies: seq<Reply>)
    requires |replies| == |FallbackGroups(strategy)| && (!enabled || replies[0].Raises?)
    ensures var files := Curated(bundle, FileTree(strategy));
      && Assembled(Flatten(GroupLists(FallbackGroups(strategy), bundle, enabled, replies))) == Assembly(files, [])
      && (HasAll(files, CRITICAL) ==> Surfaced(FallbackPlan(strategy), bundle, enabled, replies) == files)
  {
    var root, names, tree := Group("root", RootFiles()), ModuleNames(strategy), FileTree(strategy);
    ModuleGroupCount(names);
    NamesAreTidy(strategy);
    GoldenNames(strategy);
    ModulesRenderTheirTree(root, names, bundle, enabled, replies);
    RootFilesAreTidy();
    RootFilesAreDistinct();
    TidyIsClean(RootFiles());
    CuratedOfConcat(bundle, RootFiles(), ModuleTree(names));
    OwnershipPartitionsTheTree(strategy);
    StringListOfClean(tree);
    CuratedPaths(bundle, tree);
    CleanItemsAssemble(Curated(bundle, tree));
    CuratedKeepsItsOrder(bundle, tree);
  }

  // ---------- a plan proposed by a worker ----------

  /** The parts of a proposed plan that shape the bundle; both are empty when they are missing or of another type. */
  datatype Proposal = NoPlan | Proposal(ownership: seq<Group>, ordering: seq<string>)

  function NamedGroups(ownership: seq<Group>): seq<Group> {
    if ownership == [] then [] else
      var g := ownership[|ownership| - 1];
      NamedGroups(ownership[..|ownership| - 1]) + if StringList(g.owned) == [] then [] else [Group(g.id, StringList(g.owned))]
  }

  function OwnedInFallback(groups: seq<Group>, id: string): seq<string> {
    if groups == [] then [] else if groups[0].id == id then groups[0].owned else OwnedInFallback(groups[1..], id)
  }

  function Regrouped(ownership: seq<Group>, fallback: seq<Group>): seq<Group> {
    if ownership == [] then [] else
      var g := ownership[|ownership| - 1];
      Regrouped(ownership[..|ownership| - 1], fallback)
        + [Group(g.id, if StringList(g.owned) != [] then StringList(g.owned) else OwnedInFallback(fallback, g.id))]
  }

  function Coerce(raw: Proposal, strategy: string): Plan {
    var fallback := FallbackPlan(strategy);
    match raw
    case NoPlan => fallback
    case Proposal(ownership, ordering) =>
      var owners := if ownership == [] then fallback.groups else NamedGroups(ownership);
      var groups := Regrouped(owners, fallback.groups);
      Plan(if groups == [] then fallback.groups else groups,
           if StringList(ordering) == [] then fallback.ordering else StringList(ordering))
  }

  ghost predicate UsableGroups(groups: seq<Group>) {
    forall g :: g in groups ==> g.owned != [] && Clean(g.owned) && StringList(g.owned) == g.owned
  }

  lemma StringListIsClean(raw: seq<string>)
    ensures Clean(StringList(raw)) && StringList(StringList(raw)) == StringList(raw)
  {
    StringListIsDistinct(raw);
    forall t | t in StringList(raw) ensures t != "" && Strip(t) == t {
      var i :| 0 <= i < |raw| && Strip(raw[i]) == t;
      StripIsIdempotent(raw[i]);
    }
    StringListOfClean(StringList(raw));
  }

  lemma {:induction false} NamedGroupsAreUsable(ownership: seq<Group>)
    ensures UsableGroups(NamedGroups(ownership))
  {
    if ownership != [] {
      NamedGroupsAreUsable(ownership[..|ownership| - 1]);
      StringListIsClean(ownership[|ownership| - 1].owned);
    }
  }

  lemma {:induction false} RegroupingUsable(groups: seq<Group>, fallback: seq<Group>)
    requires UsableGroups(groups)
    ensures Regrouped(groups, fallback) == groups
  {
    if groups != [] {
      var before, g := groups[..|groups| - 1], groups[|groups| - 1];
      assert groups == before + [g];
      RegroupingUsable(before, fallback);
    }
  }

  lemma {:induction false} ModuleGroupsAreUsable(names: seq<string>)
    requires AllTidy(names)
    ensures UsableGroups(ModuleGroups(names))
  {
    if names != [] {
      var m := names[|names| - 1];
      assert names == names[..|names| - 1] + [m];
      ModuleGroupsAreUsable(names[..|names| - 1]);
      ModulePathsAreTidy(m);
      ModulePathsAreDistinct(m);
      TidyIsClean(ModulePaths(m));
    }
  }

  lemma FallbackGroupsAreUsable(strategy: string)
    ensures UsableGroups(FallbackGroups(strategy))
  {
    NamesAreTidy(strategy);
    ModuleGroupsAreUsable(ModuleNames(strategy));
    RootFilesAreTidy();
    RootFilesAreDistinct();
    TidyIsClean(RootFiles());
  }

  /** Whatever a worker proposes, the plan that is used has groups, each owning some distinct, trimmed, named files. */
  lemma CoercedPlanIsUsable(raw: Proposal, strategy: string)
    ensures var plan := Coerce(raw, strategy);
      && plan.groups != [] && UsableGroups(plan.groups)
      && plan.ordering != [] && Clean(plan.ordering)
  {
    FallbackGroupsAreUsable(strategy);
    OwnershipPartitionsTheTree(strategy);
    if raw.Proposal? {
      NamedGroupsAreUsable(raw.ownership);
      RegroupingUsable(NamedGroups(raw.ownership), FallbackGroups(strategy));
      RegroupingUsable(FallbackGroups(strategy), FallbackGroups(strategy));
      StringListIsClean(raw.ordering);
    }
  }

  lemma {:induction false} NamingUsable(groups: seq<Group>)
    requires UsableGroups(groups)
    ensures NamedGroups(groups) == groups
  {
    if groups != [] {
      var before, g := groups[..|groups| - 1], groups[|groups| - 1];
      assert groups == before + [g];
      NamingUsable(before);
    }
  }

  /** Merging a plan that already went through changes nothing, so the deterministic plan survives its own merge. */
  lemma CoercingAgainChangesNothing(raw: Proposal, strategy: string)
    ensures var plan := Coerce(raw, strategy); Coerce(Proposal(plan.groups, plan.ordering), strategy) == plan
  {
    var plan := Coerce(raw, strategy);
    CoercedPlanIsUsable(raw, strategy);
    NamingUsable(plan.groups);
    RegroupingUsable(plan.groups, FallbackGroups(strategy));
    StringListOfClean(plan.ordering);
  }
}
