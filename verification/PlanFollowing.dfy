/** Which files a plan asks for, and whose version of a file a group delivers. */
module PlanFollowing {
  import opened Text
  import opened Lists
  import opened Ordering
  import opened TerraformBundle
  import opened StructurePlan

  // ---------- the deterministic plan ----------

  /** A static site needs storage only; everything else gets the four modules of a running service. */
  function ExpectedModules(strategy: string): seq<string> {
    if strategy == "s3_cloudfront" then ["storage"] else ["networking", "iam", "compute", "data"]
  }

  lemma UnderNames(prefix: string, leaves: seq<string>, path: string)
    ensures path in Under(prefix, leaves) <==> exists leaf :: leaf in leaves && path == prefix + leaf
  {
    var all := Under(prefix, leaves);
    if path in all {
      var i :| 0 <= i < |all| && all[i] == path;
      assert leaves[i] in leaves;
    }
    if leaf :| leaf in leaves && path == prefix + leaf {
      var i :| 0 <= i < |leaves| && leaves[i] == leaf;
      assert all[i] == path;
    }
  }

  /** One of the three files of the module `m`. */
  ghost predicate ModuleFile(m: string, path: string) {
    exists leaf :: leaf in ["main.tf", "variables.tf", "outputs.tf"] && path == ("terraform/modules/" + m + "/") + leaf
  }

  ghost predicate RootFile(path: string) {
    || path == "README.md"
    || exists leaf :: leaf in ["versions.tf", "providers.tf", "backend.tf", "variables.tf", "locals.tf", "main.tf",
                               "outputs.tf", "terraform.tfvars"]
                      && path == "terraform/" + leaf
  }

  lemma NestedAt(outer: string, inner: string, leaves: seq<string>, i: nat)
    requires i < |leaves|
    ensures Under(outer, Under(inner, leaves))[i] == Under(outer + inner, leaves)[i]
  {
    Associative(outer, inner, leaves[i]);
  }

  lemma Nested(outer: string, inner: string, leaves: seq<string>)
    ensures Under(outer, Under(inner, leaves)) == Under(outer + inner, leaves)
  {
    var a, b := Under(outer, Under(inner, leaves)), Under(outer + inner, leaves);
    forall i | 0 <= i < |leaves| ensures a[i] == b[i] { NestedAt(outer, inner, leaves, i); }
  }

  lemma ModuleHasThreeFiles(m: string, path: string)
    ensures path in ModulePaths(m) <==> ModuleFile(m, path)
  {
    Nested("modules/", m + "/", MODULE_LEAVES);
    Nested(TF, "modules/" + (m + "/"), MODULE_LEAVES);
    var prefix := TF + ("modules/" + (m + "/"));
    UnderNames(prefix, MODULE_LEAVES, path);
    assert prefix == "terraform/modules/" + m + "/";
  }

  lemma RootHasNineFiles(path: string)
    ensures path in RootFiles() <==> RootFile(path)
  {
    UnderNames(TF, ROOT_LEAVES, path);
  }

  /** A file of one of these modules. */
  ghost predicate FileOfSome(modules: seq<string>, path: string) { exists m :: m in modules && ModuleFile(m, path) }

  lemma FileOfOneMore(before: seq<string>, m: string, path: string)
    ensures FileOfSome(before + [m], path) <==> FileOfSome(before, path) || ModuleFile(m, path)
  {
    if FileOfSome(before, path) {
      var n :| n in before && ModuleFile(n, path);
      assert n in before + [m];
    }
    if ModuleFile(m, path) { assert m in before + [m]; }
  }

  lemma {:induction false} TreeOfModules(names: seq<string>, path: string)
    ensures path in ModuleTree(names) <==> FileOfSome(names, path)
  {
    if names != [] {
      var before, m := names[..|names| - 1], names[|names| - 1];
      TreeOfModules(before, path);
      ModuleHasThreeFiles(m, path);
      assert names == before + [m];
      FileOfOneMore(before, m, path);
    }
  }

  /** These groups are the root with its nine files, and one group for each module with the module's three. */
  ghost predicate AreRootAndModules(groups: seq<Group>, modules: seq<string>, path: string) {
    && |groups| == 1 + |modules|
    && groups[0].id == "root" && (path in groups[0].owned <==> RootFile(path))
    && forall i :: 0 <= i < |modules| ==>
         groups[i + 1].id == modules[i] && (path in groups[i + 1].owned <==> ModuleFile(modules[i], path))
  }

  lemma RootAndModules(root: Group, names: seq<string>, path: string)
    requires root.id == "root" && (path in root.owned <==> RootFile(path))
    ensures AreRootAndModules([root] + ModuleGroups(names), names, path)
  {
    GroupsAreModules(names, path);
  }

  /** The groups of the deterministic plan, for every strategy, and which files they own. */
  lemma GroupsOfAStrategy(strategy: string, path: string)
    ensures AreRootAndModules(FallbackPlan(strategy).groups, ExpectedModules(strategy), path)
  {
    RootHasNineFiles(path);
    AsExpected(strategy);
    RootAndModules(Group("root", RootFiles()), ModuleNames(strategy), path);
  }

  lemma AsExpected(strategy: string)
    ensures ModuleNames(strategy) == ExpectedModules(strategy)
  {
  }

  /** And its order lists exactly these files. */
  lemma OrderOfAStrategy(strategy: string, path: string)
    ensures path in FallbackPlan(strategy).ordering <==> RootFile(path) || FileOfSome(ExpectedModules(strategy), path)
  {
    RootHasNineFiles(path);
    TreeOfModules(ModuleNames(strategy), path);
    AsExpected(strategy);
  }

  lemma {:induction false} GroupsAreModules(names: seq<string>, path: string)
    ensures |ModuleGroups(names)| == |names|
    ensures forall i :: 0 <= i < |names| ==>
      ModuleGroups(names)[i].id == names[i] && (path in ModuleGroups(names)[i].owned <==> ModuleFile(names[i], path))
  {
    if names != [] {
      GroupsAreModules(names[..|names| - 1], path);
      ModuleHasThreeFiles(names[|names| - 1], path);
    }
  }

  // ---------- a plan proposed by a worker ----------

  ghost predicate NamesSomething(raw: seq<string>) { exists i :: 0 <= i < |raw| && Strip(raw[i]) != "" }

  /** `tidy` has the trimmed names of `raw` that are not blank, each once. */
  ghost predicate TidiedFrom(tidy: seq<string>, raw: seq<string>) {
    && Distinct(tidy)
    && (forall t :: t in tidy ==> t != "" && exists i :: 0 <= i < |raw| && Strip(raw[i]) == t)
    && (forall i :: 0 <= i < |raw| && Strip(raw[i]) != "" ==> Strip(raw[i]) in tidy)
  }

  ghost predicate Follows(g: Group, proposed: Group) { g.id == proposed.id && TidiedFrom(g.owned, proposed.owned) }

  /** The group is one that the ownership proposes with some file. */
  ghost predicate ProposedBy(ownership: seq<Group>, g: Group) {
    exists p :: p in ownership && NamesSomething(p.owned) && Follows(g, p)
  }

  /** The proposed group is among the groups that are used. */
  ghost predicate IsTaken(groups: seq<Group>, p: Group) { exists g :: g in groups && Follows(g, p) }

  lemma ListIsTidied(raw: seq<string>)
    ensures TidiedFrom(StringList(raw), raw) && (StringList(raw) != [] <==> NamesSomething(raw))
  {
    StringListIsDistinct(raw);
    if StringList(raw) != [] { assert StringList(raw)[0] in StringList(raw); }
    if NamesSomething(raw) {
      var i :| 0 <= i < |raw| && Strip(raw[i]) != "";
      assert Strip(raw[i]) in StringList(raw);
    }
  }

  lemma ProposedByMore(before: seq<Group>, last: Group, g: Group)
    requires ProposedBy(before, g) || (NamesSomething(last.owned) && Follows(g, last))
    ensures ProposedBy(before + [last], g)
  {
    if ProposedBy(before, g) {
      var p :| p in before && NamesSomething(p.owned) && Follows(g, p);
      assert p in before + [last];
    } else {
      assert last in before + [last];
    }
  }

  lemma TakenByMore(groups: seq<Group>, more: seq<Group>, p: Group)
    requires IsTaken(groups, p) || IsTaken(more, p)
    ensures IsTaken(groups + more, p)
  {
    var g :| (g in groups || g in more) && Follows(g, p);
    assert g in groups + more;
  }

  lemma TakenAlone(g: Group, p: Group)
    requires Follows(g, p)
    ensures IsTaken([g], p)
  {
    assert g in [g];
  }

  /** What one more proposed group adds. */
  function NewlyNamed(p: Group): seq<Group> { if StringList(p.owned) == [] then [] else [Group(p.id, StringList(p.owned))] }

  lemma NewlyNamedFollows(p: Group)
    ensures forall g :: g in NewlyNamed(p) ==> NamesSomething(p.owned) && Follows(g, p)
    ensures NamesSomething(p.owned) ==> IsTaken(NewlyNamed(p), p)
  {
    ListIsTidied(p.owned);
    if NamesSomething(p.owned) { TakenAlone(Group(p.id, StringList(p.owned)), p); }
  }

  lemma NamedOneMore(before: seq<Group>, last: Group)
    ensures NamedGroups(before + [last]) == NamedGroups(before) + NewlyNamed(last)
  {
    assert (before + [last])[..|before|] == before;
  }

  lemma {:induction false} NamedGroupsAreProposed(ownership: seq<Group>, g: Group)
    requires g in NamedGroups(ownership)
    ensures ProposedBy(ownership, g)
  {
    if ownership != [] {
      var before, last := ownership[..|ownership| - 1], ownership[|ownership| - 1];
      assert ownership == before + [last];
      NamedOneMore(before, last);
      NewlyNamedFollows(last);
      if g in NamedGroups(before) { NamedGroupsAreProposed(before, g); }
      ProposedByMore(before, last, g);
    }
  }

  lemma {:induction false} ProposedGroupsAreNamed(ownership: seq<Group>, p: Group)
    requires p in ownership && NamesSomething(p.owned)
    ensures IsTaken(NamedGroups(ownership), p)
  {
    var before, last := ownership[..|ownership| - 1], ownership[|ownership| - 1];
    assert ownership == before + [last];
    NamedOneMore(before, last);
    NewlyNamedFollows(last);
    if p in before { ProposedGroupsAreNamed(before, p); }
    TakenByMore(NamedGroups(before), NewlyNamed(last), p);
  }

  lemma NamedGroupsFollow(ownership: seq<Group>)
    ensures forall g :: g in NamedGroups(ownership) ==> ProposedBy(ownership, g)
    ensures forall p :: p in ownership && NamesSomething(p.owned) ==> IsTaken(NamedGroups(ownership), p)
  {
    forall g | g in NamedGroups(ownership) ensures ProposedBy(ownership, g) { NamedGroupsAreProposed(ownership, g); }
    forall p | p in ownership && NamesSomething(p.owned) ensures IsTaken(NamedGroups(ownership), p) {
      ProposedGroupsAreNamed(ownership, p);
    }
  }

  ghost predicate Useful(raw: Proposal) {
    raw.Proposal? && exists p :: p in raw.ownership && NamesSomething(p.owned)
  }

  /**
   * The groups that are used follow the proposal: they are the proposed ones that name a file, with those files;
   * only when there are none are they the deterministic ones.
   */
  lemma GroupsFollowTheProposal(raw: Proposal, strategy: string)
    ensures var groups := Coerce(raw, strategy).groups;
      if Useful(raw)
      then (forall g :: g in groups ==> ProposedBy(raw.ownership, g))
           && (forall p :: p in raw.ownership && NamesSomething(p.owned) ==> IsTaken(groups, p))
      else groups == FallbackGroups(strategy)
  {
    var fallback := FallbackGroups(strategy);
    FallbackGroupsAreUsable(strategy);
    RegroupingUsable(fallback, fallback);
    if raw.Proposal? {
      var named := NamedGroups(raw.ownership);
      NamedGroupsFollow(raw.ownership);
      NamedGroupsAreUsable(raw.ownership);
      RegroupingUsable(named, fallback);
      UsefulIffNamed(raw, named);
    }
  }

  lemma UsefulIffNamed(raw: Proposal, named: seq<Group>)
    requires raw.Proposal?
    requires forall g :: g in named ==> ProposedBy(raw.ownership, g)
    requires forall p :: p in raw.ownership && NamesSomething(p.owned) ==> IsTaken(named, p)
    ensures Useful(raw) <==> named != []
  {
    if named != [] { ProposingIsUseful(raw, named[0]); }
    if p :| p in raw.ownership && NamesSomething(p.owned) { assert IsTaken(named, p); }
  }

  lemma ProposingIsUseful(raw: Proposal, g: Group)
    requires raw.Proposal? && ProposedBy(raw.ownership, g)
    ensures Useful(raw)
  {
    var p :| p in raw.ownership && NamesSomething(p.owned) && Follows(g, p);
  }

  /** The order that is used is the proposed one, trimmed; only when that names nothing is it the file tree. */
  lemma OrderFollowsTheProposal(raw: Proposal, strategy: string)
    ensures var order := Coerce(raw, strategy).ordering;
      if raw.Proposal? && NamesSomething(raw.ordering) then TidiedFrom(order, raw.ordering) else order == FileTree(strategy)
  {
    if raw.Proposal? { ListIsTidied(raw.ordering); }
  }

  // ---------- whose version a group delivers ----------

  /** The first file of this path has this content. */
  ghost predicate FirstOf(files: seq<File>, path: string, content: string) {
    exists i :: 0 <= i < |files| && files[i] == File(path, content) && forall j :: 0 <= j < i ==> files[j].path != path
  }

  /** The first version in the answer that is not blank. */
  ghost predicate WorkersFirst(answer: seq<File>, path: string, content: string) {
    exists i :: 0 <= i < |answer| && Strip(answer[i].path) == path && answer[i].content == content && Strip(content) != ""
                && forall j :: 0 <= j < i && Strip(answer[j].path) == path ==> Strip(answer[j].content) == ""
  }

  ghost predicate WorkerGives(answer: seq<File>, path: string) {
    exists i :: 0 <= i < |answer| && Strip(answer[i].path) == path && Strip(answer[i].content) != ""
  }

  lemma FirstOfTwo(a: seq<File>, b: seq<File>, path: string, content: string)
    ensures FirstOf(a + b, path, content) <==> FirstOf(a, path, content) || (!HasPath(a, path) && FirstOf(b, path, content))
  {
    var all := a + b;
    if FirstOf(a, path, content) {
      var i :| 0 <= i < |a| && a[i] == File(path, content) && forall j :: 0 <= j < i ==> a[j].path != path;
      assert all[i] == a[i] && forall j :: 0 <= j < i ==> all[j] == a[j];
    }
    if !HasPath(a, path) && FirstOf(b, path, content) {
      var i :| 0 <= i < |b| && b[i] == File(path, content) && forall j :: 0 <= j < i ==> b[j].path != path;
      var k := |a| + i;
      assert all[k] == b[i] && forall j :: 0 <= j < k ==> all[j] == if j < |a| then a[j] else b[j - |a|];
    }
    if FirstOf(all, path, content) {
      var i :| 0 <= i < |all| && all[i] == File(path, content) && forall j :: 0 <= j < i ==> all[j].path != path;
      if i < |a| {
        assert a[i] == all[i] && forall j :: 0 <= j < i ==> a[j] == all[j];
      } else {
        assert forall j :: 0 <= j < |a| ==> a[j] == all[j];
        assert b[i - |a|] == all[i] && forall j :: 0 <= j < i - |a| ==> b[j] == all[|a| + j];
      }
    }
  }

  lemma FirstOfOne(f: File, path: string, content: string)
    ensures FirstOf([f], path, content) <==> f == File(path, content)
  {
    assert [f][0] == f;
  }

  lemma NewlyUsableIs(f: File, owned: seq<string>, path: string, content: string)
    requires path in owned
    ensures HasPath(NewlyUsable(f, owned), path) <==> Strip(f.path) == path && Strip(f.content) != ""
    ensures FirstOf(NewlyUsable(f, owned), path, content)
       <==> Strip(f.path) == path && f.content == content && Strip(content) != ""
  {
    var new_ := NewlyUsable(f, owned);
    FirstOfOne(File(Strip(f.path), f.content), path, content);
    if Strip(f.path) == path && Strip(f.content) != "" { assert new_[0].path == path; }
  }

  lemma {:induction false} FirstUsable(answer: seq<File>, owned: seq<string>, path: string, content: string)
    requires path in owned
    ensures FirstOf(Usable(answer, owned), path, content) <==> WorkersFirst(answer, path, content)
    ensures HasPath(Usable(answer, owned), path) <==> WorkerGives(answer, path)
  {
    if answer != [] {
      var before, last := answer[..|answer| - 1], answer[|answer| - 1];
      FirstUsable(before, owned, path, content);
      var usable, more := Usable(before, owned), NewlyUsable(last, owned);
      FirstOfTwo(usable, more, path, content);
      HasPathOfConcat(usable, more, path);
      NewlyUsableIs(last, owned, path, content);
      assert answer == before + [last];
      WorkersFirstOneMore(before, last, path, content);
    }
  }

  lemma WorkersFirstOneMore(before: seq<File>, last: File, path: string, content: string)
    ensures WorkersFirst(before + [last], path, content) <==>
      || WorkersFirst(before, path, content)
      || (!WorkerGives(before, path) && Strip(last.path) == path && last.content == content && Strip(content) != "")
    ensures WorkerGives(before + [last], path) <==>
      WorkerGives(before, path) || (Strip(last.path) == path && Strip(last.content) != "")
  {
    var all, n := before + [last], |before|;
    assert forall j :: 0 <= j < n ==> all[j] == before[j];
    assert all[n] == last;
    if WorkersFirst(before, path, content) {
      var i :| 0 <= i < n && Strip(before[i].path) == path && before[i].content == content && Strip(content) != ""
               && forall j :: 0 <= j < i && Strip(before[j].path) == path ==> Strip(before[j].content) == "";
      assert Strip(all[i].path) == path;
    }
    if WorkerGives(before, path) {
      var i :| 0 <= i < n && Strip(before[i].path) == path && Strip(before[i].content) != "";
      assert Strip(all[i].path) == path;
    }
  }

  lemma {:induction false} FirstCurated(bundle: seq<File>, paths: seq<string>, path: string, content: string)
    ensures FirstOf(Curated(bundle, paths), path, content)
       <==> path in paths && content == Lookup(bundle, path) && Strip(content) != ""
  {
    if paths != [] {
      var before, last := paths[..|paths| - 1], paths[|paths| - 1];
      FirstCurated(bundle, before, path, content);
      FirstOfTwo(Curated(bundle, before), CuratedAt(bundle, last), path, content);
      FirstOfOne(File(last, Lookup(bundle, last)), path, content);
      assert paths == before + [last];
      CuratedPaths(bundle, before);
      if path in before && content == Lookup(bundle, path) && Strip(content) != "" { CuratedHas(bundle, before, path); }
    }
  }

  lemma {:induction false} FirstRescued(curated: seq<File>, usable: seq<File>, path: string, content: string)
    ensures FirstOf(Rescued(curated, usable), path, content)
       <==> !HasPath(usable, path) && FirstOf(curated, path, content)
    ensures HasPath(Rescued(curated, usable), path) <==> !HasPath(usable, path) && HasPath(curated, path)
  {
    if curated != [] {
      var before, last := curated[..|curated| - 1], curated[|curated| - 1];
      FirstRescued(before, usable, path, content);
      var more := if HasPath(usable, last.path) then [] else [last];
      FirstOfTwo(Rescued(before, usable), more, path, content);
      FirstOfTwo(before, [last], path, content);
      FirstOfOne(last, path, content);
      assert curated == before + [last];
      HasPathOneMore(before, last, path);
      HasPathOfConcat(Rescued(before, usable), more, path);
      assert HasPath(more, path) <==> !HasPath(usable, last.path) && last.path == path by {
        if !HasPath(usable, last.path) { assert more[0] == last; }
      }
    }
  }

  /** The groups whose snippets are kept, by their trimmed names. */
  ghost predicate KeepsSnippets(g: Group) { Strip(g.id) in {"compute", "networking", "iam", "data", "storage"} }

  lemma GoldenIffKept(g: Group)
    ensures Golden(g) <==> KeepsSnippets(g)
  {
    StripNothing("group");
  }

  /**
   * The version of an owned file that comes first in what a group delivers: the worker's first one that is not
   * blank, when the worker is asked and gives one; otherwise the curated one, when that is not blank.
   */
  lemma WhoseVersionIsDelivered(bundle: seq<File>, g: Group, enabled: bool, reply: Reply, path: string, content: string)
    requires path in StringList(g.owned)
    ensures var asked := !KeepsSnippets(g) && enabled && reply.Answer?;
      FirstOf(GroupFiles(bundle, g, enabled, reply), path, content)
      <==> if asked && WorkerGives(reply.files, path) then WorkersFirst(reply.files, path, content)
           else content == Lookup(bundle, path) && Strip(content) != ""
  {
    var owned, curated := StringList(g.owned), SelectGroupFiles(bundle, g);
    GoldenIffKept(g);
    FirstCurated(bundle, owned, path, content);
    if reply.Answer? {
      var usable := Usable(reply.files, owned);
      FirstUsable(reply.files, owned, path, content);
      FirstRescued(curated, usable, path, content);
      FirstOfTwo(usable, Rescued(curated, usable), path, content);
    }
  }

  // ---------- the bundle that is returned ----------

  /**
   * The order that is shown: files of the plan's order come first and in that order, the others follow by name.
   */
  lemma SurfaceOrderFollows(files: seq<File>, order: seq<string>, i: nat, j: nat)
    requires i < j < |files|
    ensures var shown := SurfaceOrder(files, order);
      && |shown| == |files|
      && (shown[j].path in order ==> shown[i].path in order)
      && (shown[j].path in order ==> exists a, b :: 0 <= a <= b < |order| && order[a] == shown[i].path && order[b] == shown[j].path)
      && (shown[i].path !in order ==> shown[j].path !in order && StrLe(shown[i].path, shown[j].path))
  {
    var le := (a: File, b: File) => FileLe(order, a, b);
    var shown := SurfaceOrder(files, order);
    FileLeIsTotalPreorder(order);
    SortSorts(files, le);
    SortPermutes(files, le);
    assert le(shown[i], shown[j]);
    var p, q := Position(order, shown[i].path), Position(order, shown[j].path);
    if shown[j].path in order { assert p <= q < |order| && order[p] == shown[i].path && order[q] == shown[j].path; }
  }

  /**
   * What the bundle holds: when the generated files include the four critical ones, the first file of every path
   * they name; otherwise the readme and the Terraform files of the curated bundle.
   */
  lemma WhatTheBundleHolds(plan: Plan, bundle: seq<File>, enabled: bool, replies: seq<Reply>, f: File)
    requires |plan.groups| == |replies| && DistinctPaths(bundle)
    ensures var items := Flatten(GroupLists(plan.groups, bundle, enabled, replies));
      f in Surfaced(plan, bundle, enabled, replies) <==>
        if && NamesPath(items, "terraform/main.tf") && NamesPath(items, "terraform/providers.tf")
           && NamesPath(items, "terraform/outputs.tf") && NamesPath(items, "terraform/variables.tf")
        then SurfacedFrom(items, f)
        else f in bundle && (f.path == "README.md" || "terraform/" <= f.path)
  {
    var items := Flatten(GroupLists(plan.groups, bundle, enabled, replies));
    var assembled, order := Assembled(items).files, StringList(plan.ordering);
    CriticalIffNamed(items);
    FirstFileWins(items, f);
    AssemblyConservesItems(items);
    ShownFiles(bundle);
    SurfaceOrderKeepsPaths(assembled, order);
    SurfaceOrderKeepsPaths(Shown(bundle), order);
  }

  lemma TheCriticalFiles()
    ensures CRITICAL == ["terraform/main.tf", "terraform/providers.tf", "terraform/outputs.tf", "terraform/variables.tf"]
  {
    assert TF + "main.tf" == "terraform/main.tf" && TF + "providers.tf" == "terraform/providers.tf";
    assert TF + "outputs.tf" == "terraform/outputs.tf" && TF + "variables.tf" == "terraform/variables.tf";
  }

  lemma FourAreNamed(items: seq<File>, a: string, b: string, c: string, d: string)
    requires a != "" && b != "" && c != "" && d != ""
    ensures HasAll(Assembled(items).files, [a, b, c, d])
       <==> NamesPath(items, a) && NamesPath(items, b) && NamesPath(items, c) && NamesPath(items, d)
  {
    PathIsCovered(items, a);
    PathIsCovered(items, b);
    PathIsCovered(items, c);
    PathIsCovered(items, d);
    AllOfFour(Assembled(items).files, a, b, c, d);
  }

  lemma CriticalIffNamed(items: seq<File>)
    ensures HasAll(Assembled(items).files, CRITICAL) <==>
      && NamesPath(items, "terraform/main.tf") && NamesPath(items, "terraform/providers.tf")
      && NamesPath(items, "terraform/outputs.tf") && NamesPath(items, "terraform/variables.tf")
  {
    TheCriticalFiles();
    FourAreNamed(items, "terraform/main.tf", "terraform/providers.tf", "terraform/outputs.tf", "terraform/variables.tf");
  }

  lemma AllOfFour(files: seq<File>, a: string, b: string, c: string, d: string)
    ensures HasAll(files, [a, b, c, d]) <==> HasPath(files, a) && HasPath(files, b) && HasPath(files, c) && HasPath(files, d)
  {
    var all := [a, b, c, d];
    assert all[0] in all && all[1] in all && all[2] in all && all[3] in all;
  }
}
