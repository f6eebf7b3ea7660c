/** Caching resolved manifests under a fingerprint of the files that can affect them. */
module ManifestCache {
  import opened Text
  import opened Wrappers
  import opened Ordering
  import opened ManifestValidation

  /** The regular files of a repository, by relative path. */
  type Tree = map<string, string>

  datatype FileEntry = FileEntry(path: string, content: string)

  const NUL: string := "\0"
  const HEADER: string := "deplai-manifest-v2\0"

  const MANIFEST_NAMES: seq<string> := ["deplai.yaml", "deplai.yml"]
  const APP_ROOTS: seq<string> := [".", "frontend", "web", "client", "app", "backend", "server", "api"]
  const DOCKER_NAMES: seq<string> :=
    ["Dockerfile", "dockerfile", "docker-compose.yml", "docker-compose.yaml", "compose.yml", "compose.yaml"]
  const NODE_NAMES: seq<string> := ["package.json", "package-lock.json", "pnpm-lock.yaml", "yarn.lock"]
  const PYTHON_NAMES: seq<string> := ["requirements.txt", "pyproject.toml", "Pipfile", "poetry.lock"]
  const ENTRY_NAMES: seq<string> := [
    "app.py", "main.py", "server.py", "manage.py", "wsgi.py", "asgi.py", "application.py", "run.py", "api.py"]
  const OTHER_NAMES: seq<string> := ["pom.xml", "build.gradle", "build.gradle.kts", "go.mod", "Gemfile", "Procfile"]
  const STATIC_NAMES: seq<string> := ["dist/index.html", "build/index.html", "out/index.html"]
  const FILE_NAMES: seq<string> :=
    DOCKER_NAMES + NODE_NAMES + PYTHON_NAMES + ENTRY_NAMES + OTHER_NAMES + STATIC_NAMES

  function At(root: string, name: string): string { if root == "." then name else root + "/" + name }

  function InRoot(root: string, names: seq<string>): seq<string> {
    if names == [] then [] else [At(root, names[0])] + InRoot(root, names[1..])
  }

  function InRoots(roots: seq<string>, names: seq<string>): seq<string> {
    if roots == [] then [] else InRoot(roots[0], names) + InRoots(roots[1..], names)
  }

  /** Every path the fingerprint looks for. */
  function Fingerprinted(): seq<string> { MANIFEST_NAMES + InRoots(APP_ROOTS, FILE_NAMES) }

  // ---------- the fingerprint ----------

  /** The names that are files of the tree, each once. */
  function Present(names: seq<string>, tree: Tree): seq<string> {
    if names == [] then [] else
      var before, last := Present(names[..|names| - 1], tree), names[|names| - 1];
      if last in tree && last !in before then before + [last] else before
  }

  function Entries(paths: seq<string>, tree: Tree): seq<FileEntry> {
    if paths == [] then [] else
      [FileEntry(paths[0], if paths[0] in tree then tree[paths[0]] else "")] + Entries(paths[1..], tree)
  }

  /** The fingerprinted files and their contents, sorted by path. */
  function Listing(names: seq<string>, tree: Tree): seq<FileEntry> {
    Entries(Sort(Present(names, tree), StrLe), tree)
  }

  /** What is fed to the digest: every path and content, each ended by a NUL. */
  function Encode(entries: seq<FileEntry>): string {
    if entries == [] then "" else entries[0].path + NUL + entries[0].content + NUL + Encode(entries[1..])
  }

  function Stream(names: seq<string>, tree: Tree): string { HEADER + Encode(Listing(names, tree)) }

  method Fingerprint(names: seq<string>, tree: Tree) returns (stream: string)
    ensures stream == Stream(names, tree)
  {
    var relevant: seq<string> := [];
    for i := 0 to |names|
      invariant relevant == Present(names[..i], tree)
    {
      assert names[..i + 1][..i] == names[..i];
      if names[i] in tree && names[i] !in relevant { relevant := relevant + [names[i]]; }
    }
    assert names[..|names|] == names;
    var paths := Sort(relevant, StrLe);
    stream := HEADER;
    EntriesMatch(paths, tree);
    for i := 0 to |paths|
      invariant stream + Encode(Entries(paths, tree)[i..]) == Stream(names, tree)
    {
      ghost var rest := Entries(paths, tree)[i..];
      var content := if paths[i] in tree then tree[paths[i]] else "";
      assert rest[0] == FileEntry(paths[i], content) && rest[1..] == Entries(paths, tree)[i + 1..];
      EncodeAppends(stream, rest);
      stream := stream + paths[i] + NUL + content + NUL;
    }
  }

  lemma EncodeAppends(stream: string, rest: seq<FileEntry>)
    requires rest != []
    ensures stream + Encode(rest) == (stream + rest[0].path + NUL + rest[0].content + NUL) + Encode(rest[1..])
  {
    MovesLeft(stream, rest[0].path, rest[0].content, Encode(rest[1..]));
  }

  lemma MovesLeft(a: string, b: string, c: string, d: string)
    ensures a + (b + NUL + c + NUL + d) == (a + b + NUL + c + NUL) + d
  {
  }

  lemma {:induction false} EntriesMatch(paths: seq<string>, tree: Tree)
    ensures |Entries(paths, tree)| == |paths|
    ensures forall i :: 0 <= i < |paths| ==>
      Entries(paths, tree)[i] == FileEntry(paths[i], if paths[i] in tree then tree[paths[i]] else "")
  {
    if paths != [] { EntriesMatch(paths[1..], tree); }
  }

  // ---------- what the fingerprint determines ----------

  ghost predicate NulFree(s: string) { '\0' !in s }

  ghost predicate NulFreeEntries(entries: seq<FileEntry>) {
    forall e :: e in entries ==> NulFree(e.path) && NulFree(e.content)
  }

  lemma HeadIsDetermined(a: string, x: string, b: string, y: string)
    requires NulFree(a) && NulFree(b) && a + NUL + x == b + NUL + y
    ensures a == b && x == y
  {
    SplitAtSeparator(a, x, '\0');
    SplitAtSeparator(b, y, '\0');
    assert a + NUL + x == a + ['\0'] + x && b + NUL + y == b + ['\0'] + y;
    assert Split(a + NUL + x, '\0')[0] == a && Split(b + NUL + y, '\0')[0] == b;
    assert x == (a + NUL + x)[|a| + 1..];
  }

  lemma Regroup(a: string, b: string, c: string, d: string, e: string)
    ensures a + b + c + d + e == a + b + (c + d + e)
  {
  }

  lemma EncodeShape(entries: seq<FileEntry>)
    requires entries != []
    ensures Encode(entries) == entries[0].path + NUL + (entries[0].content + NUL + Encode(entries[1..]))
    ensures Encode(entries) != ""
  {
    Regroup(entries[0].path, NUL, entries[0].content, NUL, Encode(entries[1..]));
  }

  /** Without NULs the stream determines the listing. */
  lemma {:induction false} EncodeIsInjective(a: seq<FileEntry>, b: seq<FileEntry>)
    requires NulFreeEntries(a) && NulFreeEntries(b) && Encode(a) == Encode(b)
    ensures a == b
  {
    if a != [] { EncodeShape(a); }
    if b != [] { EncodeShape(b); }
    if a != [] && b != [] {
      HeadIsDetermined(a[0].path, a[0].content + NUL + Encode(a[1..]), b[0].path, b[0].content + NUL + Encode(b[1..]));
      HeadIsDetermined(a[0].content, Encode(a[1..]), b[0].content, Encode(b[1..]));
      EncodeIsInjective(a[1..], b[1..]);
      assert a == [a[0]] + a[1..] && b == [b[0]] + b[1..];
    }
  }

  lemma {:induction false} PresentNames(names: seq<string>, tree: Tree)
    ensures forall n :: n in Present(names, tree) <==> n in names && n in tree
  {
    if names != [] {
      PresentNames(names[..|names| - 1], tree);
      assert names == names[..|names| - 1] + [names[|names| - 1]];
    }
  }

  predicate Lists(entries: seq<FileEntry>, path: string) {
    exists i :: 0 <= i < |entries| && entries[i].path == path
  }

  lemma ListedNames(names: seq<string>, tree: Tree)
    ensures forall n :: Lists(Listing(names, tree), n) <==> n in names && n in tree
    ensures forall e :: e in Listing(names, tree) ==> e.path in names && e.path in tree && tree[e.path] == e.content
  {
    var present := Present(names, tree);
    PresentNames(names, tree);
    SortKeepsElements(present);
    EntriesList(Sort(present, StrLe), tree);
  }

  lemma EntriesList(paths: seq<string>, tree: Tree)
    ensures forall n :: Lists(Entries(paths, tree), n) <==> n in paths
    ensures forall e :: e in Entries(paths, tree) ==> e.path in paths && (e.path in tree ==> tree[e.path] == e.content)
  {
    var entries := Entries(paths, tree);
    EntriesMatch(paths, tree);
    forall n | n in paths ensures Lists(entries, n) {
      var i :| 0 <= i < |paths| && paths[i] == n;
      assert entries[i].path == n;
    }
  }

  lemma SortKeepsElements(s: seq<string>)
    ensures forall x :: x in Sort(s, StrLe) <==> x in s
  {
    SortPermutes(s, StrLe);
    forall x ensures x in Sort(s, StrLe) <==> x in s {
      assert x in multiset(Sort(s, StrLe)) <==> x in multiset(s);
    }
  }

  ghost predicate SameOn(names: seq<string>, a: Tree, b: Tree) {
    forall n :: n in names ==> (n in a <==> n in b) && (n in a ==> a[n] == b[n])
  }

  ghost predicate NulFreeTree(names: seq<string>, tree: Tree) {
    forall n :: n in names && n in tree ==> NulFree(n) && NulFree(tree[n])
  }

  ghost predicate AllNulFree(names: seq<string>) { forall n :: n in names ==> NulFree(n) }

  lemma RootsAreNulFree()
    ensures AllNulFree(MANIFEST_NAMES) && AllNulFree(APP_ROOTS)
  {
  }

  lemma DockerNamesAreNulFree()
    ensures AllNulFree(DOCKER_NAMES) && AllNulFree(STATIC_NAMES)
  {
  }

  lemma LanguageNamesAreNulFree()
    ensures AllNulFree(NODE_NAMES) && AllNulFree(PYTHON_NAMES)
  {
  }

  lemma EntryNamesAreNulFree()
    ensures AllNulFree(ENTRY_NAMES)
  {
  }

  lemma OtherNamesAreNulFree()
    ensures AllNulFree(OTHER_NAMES)
  {
  }

  lemma NulFreeConcat(a: string, b: string, c: string)
    requires NulFree(a) && NulFree(b) && NulFree(c)
    ensures NulFree(a + b + c)
  {
  }

  lemma {:induction false} InRootIsNulFree(root: string, names: seq<string>)
    requires NulFree(root) && AllNulFree(names)
    ensures AllNulFree(InRoot(root, names))
  {
    if names != [] {
      InRootIsNulFree(root, names[1..]);
      NulFreeConcat(root, "/", names[0]);
      assert NulFree(names[0]) && NulFree(At(root, names[0]));
    }
  }

  lemma {:induction false} InRootsIsNulFree(roots: seq<string>, names: seq<string>)
    requires AllNulFree(roots) && AllNulFree(names)
    ensures AllNulFree(InRoots(roots, names))
  {
    if roots != [] {
      InRootIsNulFree(roots[0], names);
      InRootsIsNulFree(roots[1..], names);
    }
  }

  /** For the files the fingerprint looks for, only the contents need to be NUL-free. */
  lemma NulFreeContentsSuffice(tree: Tree)
    requires forall n :: n in Fingerprinted() && n in tree ==> NulFree(tree[n])
    ensures NulFreeTree(Fingerprinted(), tree)
  {
    RootsAreNulFree();
    DockerNamesAreNulFree();
    LanguageNamesAreNulFree();
    EntryNamesAreNulFree();
    OtherNamesAreNulFree();
    InRootsIsNulFree(APP_ROOTS, FILE_NAMES);
  }

  /** For NUL-free files the stream determines which fingerprinted files there are and what they hold. */
  lemma StreamDeterminesFiles(names: seq<string>, a: Tree, b: Tree)
    requires NulFreeTree(names, a) && NulFreeTree(names, b) && Stream(names, a) == Stream(names, b)
    ensures SameOn(names, a, b)
  {
    var x, y := Listing(names, a), Listing(names, b);
    ListedNames(names, a);
    ListedNames(names, b);
    assert Encode(x) == Stream(names, a)[|HEADER|..] && Encode(y) == Stream(names, b)[|HEADER|..];
    EncodeIsInjective(x, y);
    forall n | n in names ensures (n in a <==> n in b) && (n in a ==> a[n] == b[n]) {
      if n in a {
        assert Lists(x, n);
        var i :| 0 <= i < |x| && x[i].path == n;
        assert x[i] in x && y[i] in y;
      }
    }
  }

  // ---------- resolving through the cache ----------

  datatype Stored = Stored(payload: Payload, origin: string, signals: seq<string>)

  type Cache = map<string, Stored>

  /** Resolution without a cache, of a tree under a project name: the user's manifest, or detection. */
  type Plain = (Tree, string) -> Option<Manifest>

  /** Reading a stored manifest back under a project name. */
  type Loader = (Stored, string) -> Option<Manifest>

  function StoredForm(m: Manifest): Stored { Stored(AsDict(m), m.origin, m.signals) }

  function Revalidating(lib: Library): Loader {
    (s: Stored, name: string) => Validate(lib, s.payload, s.origin, name, s.signals)
  }

  datatype Resolution = Resolution(manifest: Option<Manifest>, hit: bool, cache: Cache)

  function Resolve(load: Loader, plain: Plain, names: seq<string>, cache: Cache, tree: Tree, name: string): Resolution {
    var key := Stream(names, tree);
    if key in cache && load(cache[key], name).Some? then Resolution(load(cache[key], name), true, cache)
    else
      var m := plain(tree, name);
      Resolution(m, false, if m.Some? then cache[key := StoredForm(m.value)] else cache)
  }

  /** Under this name, plain resolution only looks at the fingerprinted files. */
  ghost predicate OnlySees(plain: Plain, names: seq<string>, name: string) {
    forall a, b :: SameOn(names, a, b) ==> plain(a, name) == plain(b, name)
  }

  /** What plain resolution returns went through validation. */
  ghost predicate Validating(lib: Library, plain: Plain, name: string) {
    forall t :: plain(t, name).Some? ==> Produced(lib, plain(t, name).value)
  }

  /** What plain resolution returns is read back unchanged, under any name. */
  ghost predicate ReadsBack(load: Loader, plain: Plain, name: string) {
    forall t, other :: plain(t, name).Some? ==> load(StoredForm(plain(t, name).value), other) == plain(t, name)
  }

  lemma ValidatedReadsBack(lib: Library, plain: Plain, name: string)
    requires LowerKeepsWords(lib) && Validating(lib, plain, name)
    ensures ReadsBack(Revalidating(lib), plain, name)
  {
    forall t, other | plain(t, name).Some?
      ensures Revalidating(lib)(StoredForm(plain(t, name).value), other) == plain(t, name)
    {
      StoredManifestReadsBack(lib, plain(t, name).value, other);
    }
  }

  ghost predicate CachedFrom(plain: Plain, names: seq<string>, name: string, key: string, stored: Stored, tree: Tree) {
    && NulFreeTree(names, tree) && Stream(names, tree) == key
    && plain(tree, name).Some? && stored == StoredForm(plain(tree, name).value)
  }

  ghost predicate Faithful(plain: Plain, names: seq<string>, name: string, cache: Cache) {
    forall key :: key in cache ==> exists tree :: CachedFrom(plain, names, name, key, cache[key], tree)
  }

  lemma HitIsFresh(load: Loader, plain: Plain, names: seq<string>, name: string, cache: Cache, tree: Tree)
    requires OnlySees(plain, names, name) && ReadsBack(load, plain, name)
    requires Faithful(plain, names, name, cache) && NulFreeTree(names, tree) && Stream(names, tree) in cache
    ensures plain(tree, name).Some? && load(cache[Stream(names, tree)], name) == plain(tree, name)
  {
    var key := Stream(names, tree);
    var before :| CachedFrom(plain, names, name, key, cache[key], before);
    StreamDeterminesFiles(names, before, tree);
  }

  lemma StoringStaysFaithful(plain: Plain, names: seq<string>, name: string, cache: Cache, tree: Tree)
    requires Faithful(plain, names, name, cache) && NulFreeTree(names, tree) && plain(tree, name).Some?
    ensures Faithful(plain, names, name, cache[Stream(names, tree) := StoredForm(plain(tree, name).value)])
  {
    var key := Stream(names, tree);
    var after := cache[key := StoredForm(plain(tree, name).value)];
    assert CachedFrom(plain, names, name, key, after[key], tree);
    forall k | k in after ensures exists t :: CachedFrom(plain, names, name, k, after[k], t) {
      if k != key {
        var t :| CachedFrom(plain, names, name, k, cache[k], t);
        assert CachedFrom(plain, names, name, k, after[k], t);
      }
    }
  }

  /** One resolution through a faithful cache gives what plain resolution gives, and keeps the cache faithful. */
  lemma ResolveIsFresh(load: Loader, plain: Plain, names: seq<string>, name: string, cache: Cache, tree: Tree)
    requires OnlySees(plain, names, name) && ReadsBack(load, plain, name)
    requires Faithful(plain, names, name, cache) && NulFreeTree(names, tree)
    ensures var r := Resolve(load, plain, names, cache, tree, name);
      r.manifest == plain(tree, name) && Faithful(plain, names, name, r.cache)
  {
    if Stream(names, tree) in cache {
      HitIsFresh(load, plain, names, name, cache, tree);
    } else if plain(tree, name).Some? {
      StoringStaysFaithful(plain, names, name, cache, tree);
    }
  }

  /** The cache after resolving the trees one after the other, starting from an empty one. */
  function CacheAfter(load: Loader, plain: Plain, names: seq<string>, trees: seq<Tree>, name: string): Cache {
    if trees == [] then map[] else
      var n := |trees| - 1;
      Resolve(load, plain, names, CacheAfter(load, plain, names, trees[..n], name), trees[n], name).cache
  }

  lemma {:induction false} CacheStaysFaithful(load: Loader, plain: Plain, names: seq<string>, trees: seq<Tree>, name: string)
    requires OnlySees(plain, names, name) && ReadsBack(load, plain, name)
    requires forall t :: t in trees ==> NulFreeTree(names, t)
    ensures Faithful(plain, names, name, CacheAfter(load, plain, names, trees, name))
    decreases |trees|
  {
    if trees != [] {
      var n := |trees| - 1;
      assert trees[n] in trees && forall t :: t in trees[..n] ==> t in trees;
      CacheStaysFaithful(load, plain, names, trees[..n], name);
      ResolveIsFresh(load, plain, names, name, CacheAfter(load, plain, names, trees[..n], name), trees[n]);
    }
  }

  // ---------- plain resolution of a repository ----------

  /** What the user's manifest file, or else detection, proposes before validation. */
  datatype Draft = Draft(payload: Payload, origin: string, signals: seq<string>)

  type Chooser = (Tree, string) -> Option<Draft>

  /** A repository whose fingerprinted files are those of `tree` and whose other files are those of `rest`. */
  function Repository(names: seq<string>, tree: Tree, rest: Tree): Tree {
    map p | p in tree.Keys + rest.Keys && (if p in names then p in tree else p in rest) ::
      if p in names && p in tree then tree[p] else if p in rest then rest[p] else ""
  }

  /** Whatever is chosen, validation has the last word. */
  function ResolvePlainly(lib: Library, choose: Chooser, names: seq<string>, rest: Tree): Plain {
    (tree: Tree, name: string) =>
      var draft := choose(Repository(names, tree, rest), name);
      if draft == None then None
      else Validate(lib, draft.value.payload, draft.value.origin, name, draft.value.signals)
  }

  lemma RepositoriesAgree(names: seq<string>, a: Tree, b: Tree, rest: Tree)
    requires SameOn(names, a, b)
    ensures Repository(names, a, rest) == Repository(names, b, rest)
  {
  }

  lemma PlainSeesOnlyTheFingerprinted(lib: Library, choose: Chooser, names: seq<string>, rest: Tree, name: string)
    ensures OnlySees(ResolvePlainly(lib, choose, names, rest), names, name)
  {
    var plain := ResolvePlainly(lib, choose, names, rest);
    forall a, b | SameOn(names, a, b) ensures plain(a, name) == plain(b, name) { RepositoriesAgree(names, a, b, rest); }
  }

  lemma PlainIsValidating(lib: Library, choose: Chooser, names: seq<string>, rest: Tree, name: string)
    ensures Validating(lib, ResolvePlainly(lib, choose, names, rest), name)
  {
    var plain := ResolvePlainly(lib, choose, names, rest);
    forall t | plain(t, name).Some? ensures Produced(lib, plain(t, name).value) {
      var draft := choose(Repository(names, t, rest), name).value;
      assert Validate(lib, draft.payload, draft.origin, name, draft.signals) == plain(t, name);
    }
  }

  /**
   * However manifests are chosen, and whatever the other files are as long as they stay: after any sequence of
   * resolutions under one project name, the cache answers every tree exactly as plain resolution does.
   */
  lemma CachedEqualsFresh(
      lib: Library, choose: Chooser, names: seq<string>, rest: Tree, trees: seq<Tree>, tree: Tree, name: string)
    requires LowerKeepsWords(lib) && forall t :: t in trees + [tree] ==> NulFreeTree(names, t)
    ensures var load, plain := Revalidating(lib), ResolvePlainly(lib, choose, names, rest);
      Resolve(load, plain, names, CacheAfter(load, plain, names, trees, name), tree, name).manifest == plain(tree, name)
  {
    var load, plain := Revalidating(lib), ResolvePlainly(lib, choose, names, rest);
    PlainSeesOnlyTheFingerprinted(lib, choose, names, rest, name);
    PlainIsValidating(lib, choose, names, rest, name);
    ValidatedReadsBack(lib, plain, name);
    assert forall t :: t in trees ==> t in trees + [tree];
    assert tree in trees + [tree];
    CacheStaysFaithful(load, plain, names, trees, name);
    ResolveIsFresh(load, plain, names, name, CacheAfter(load, plain, names, trees, name), tree);
  }

  // ---------- a second project name ----------

  /** What is proposed before the project's name is filled in: `named` when the payload brings its own name field. */
  datatype Pick = Pick(payload: Payload, named: bool, origin: string, signals: seq<string>)

  type Picker = Tree -> Option<Pick>

  /** A manifest that detection writes is named after the project. */
  function Drafted(pick: Picker): Chooser {
    (t: Tree, name: string) =>
      var p := pick(t);
      if p == None then None
      else Some(Draft(if p.value.named then p.value.payload else p.value.payload.(name := Text(name)), p.value.origin, p.value.signals))
  }

  /** The pick is named by itself: its own name field is not blank. */
  predicate OwnName(lib: Library, p: Pick) { p.named && Strip(StrOr(lib, p.payload.name, "")) != "" }

  /** Validation of a pick under a name. */
  function ValidatePick(lib: Library, p: Pick, name: string): Option<Manifest> {
    Validate(lib, if p.named then p.payload else p.payload.(name := Text(name)), p.origin, name, p.signals)
  }

  /** Under another name, validation gives the same manifest exactly when the pick is named by itself or the names agree. */
  lemma SameManifestIff(lib: Library, p: Pick, first: string, second: string)
    requires ValidatePick(lib, p, first).Some?
    ensures ValidatePick(lib, p, first) == ValidatePick(lib, p, second) <==> OwnName(lib, p) || Strip(first) == Strip(second)
  {
    NameOfPick(lib, p, first);
    NameOfPick(lib, p, second);
    ValidationNeedsTheName(lib, p, first, second);
  }

  /** The name that validation settles on. */
  function PickName(lib: Library, p: Pick, name: string): Option<string> {
    NameOf(lib, if p.named then p.payload else p.payload.(name := Text(name)), name)
  }

  lemma NameOfPick(lib: Library, p: Pick, name: string)
    ensures PickName(lib, p, name)
         == if OwnName(lib, p) then SafeName(lib, p.payload.name) else SafeName(lib, Text(name))
    ensures SafeName(lib, Text(name)) == Some(Strip(name)) || (SafeName(lib, Text(name)) == None && Strip(name) != "")
  {
  }

  /** Two names give the same manifest exactly when they settle on the same one. */
  lemma ValidationNeedsTheName(lib: Library, p: Pick, first: string, second: string)
    requires ValidatePick(lib, p, first).Some?
    ensures PickName(lib, p, first) == Some(ValidatePick(lib, p, first).value.name)
    ensures ValidatePick(lib, p, first) == ValidatePick(lib, p, second) <==> PickName(lib, p, first) == PickName(lib, p, second)
  {
  }

  /**
   * A repository resolved under one project name and then under a second: the second answer is a cache hit when
   * the first succeeded, and it is what plain resolution gives exactly when the first failed, the repository's
   * own manifest has a name of its own, or the two names agree.
   */
  lemma SecondNameIsFreshIff(
      lib: Library, pick: Picker, names: seq<string>, rest: Tree, tree: Tree, first: string, second: string)
    requires LowerKeepsWords(lib)
    ensures var load, plain := Revalidating(lib), ResolvePlainly(lib, Drafted(pick), names, rest);
      var cache := Resolve(load, plain, names, map[], tree, first).cache;
      var again := Resolve(load, plain, names, cache, tree, second);
      var p := pick(Repository(names, tree, rest));
      && (again.hit <==> plain(tree, first).Some?)
      && (again.hit ==> again.manifest == plain(tree, first))
      && (again.manifest == plain(tree, second)
          <==> plain(tree, first) == None || OwnName(lib, p.value) || Strip(first) == Strip(second))
  {
    var load, plain := Revalidating(lib), ResolvePlainly(lib, Drafted(pick), names, rest);
    if plain(tree, first).Some? {
      PlainIsValidating(lib, Drafted(pick), names, rest, first);
      ValidatedReadsBack(lib, plain, first);
      PlainOfPick(lib, pick, names, rest, tree, first);
      PlainOfPick(lib, pick, names, rest, tree, second);
      SameManifestIff(lib, pick(Repository(names, tree, rest)).value, first, second);
    }
  }

  lemma PlainOfPick(lib: Library, pick: Picker, names: seq<string>, rest: Tree, tree: Tree, name: string)
    ensures var p := pick(Repository(names, tree, rest));
      ResolvePlainly(lib, Drafted(pick), names, rest)(tree, name)
         == if p == None then None else ValidatePick(lib, p.value, name)
  {
  }

  /** The last thing detection looks for: a finished static artifact, in the first of three directories that has one. */
  function StaticRoot(tree: Tree): Option<string> {
    if "dist" + "/index.html" in tree then Some("dist")
    else if "build" + "/index.html" in tree then Some("build")
    else if "out" + "/index.html" in tree then Some("out")
    else None
  }

  function PickStatic(tree: Tree): Option<Pick> {
    var root := StaticRoot(tree);
    if root == None then None
    else Some(Pick(
      Payload(Null, Text("static"), Null, Null, Null, Int(80), Text("/"), Null, Text("cloud_init"), Text(root.value)),
      false, "detected", [root.value + "/index.html"]))
  }

  /** Validation puts together what the normalisers give. */
  lemma FieldsMakeTheManifest(lib: Library, p: Payload, defaultName: string, m: Manifest)
    requires Runtime(lib, p) == m.runtime && StrategyOf(lib, p) == m.strategy && Certified(m.strategy, m.runtime)
    requires NameOf(lib, p, defaultName) == Some(m.name) && m.name != "" && Strip(StrOr(lib, p.version, "")) == m.version
    requires Strip(StrOr(lib, p.build, "")) == m.build && Strip(StrOr(lib, p.start, "")) == m.start
    requires CommandsFit(m.runtime, m.origin, m.build, m.start)
    requires NormalisePort(lib, p.port) == Some(m.port) && NormalisePath(lib, p.health) == Some(m.health)
    requires NormaliseEnv(p.env) == Some(m.env) && NormaliseAppRoot(lib, p.root) == Some(m.root)
    ensures Validate(lib, p, m.origin, defaultName, m.signals) == Some(m)
  {
  }

  lemma StaticRootFits(tree: Tree)
    requires StaticRoot(tree).Some?
    ensures RootFits(StaticRoot(tree).value)
  {
    var root := StaticRoot(tree).value;
    assert root == "dist" || root == "build" || root == "out";
    assert RootText(root) && '/' !in root;
    NoSlashNoClimb(root);
  }

  lemma NoSlashNoClimb(root: string)
    requires root != "" && '/' !in root
    ensures !StartsWith(root, "../") && !Contains(root, "/../")
  {
    var front, inner := "../", "/../";
    assert front[2] == '/' && inner[0] == '/' && forall i :: 0 <= i < |root| ==> root[i] != '/';
    forall i | 0 <= i <= |root| ensures !StartsWith(root[i..], inner) {
      assert i < |root| ==> root[i..][0] == root[i];
    }
  }

  lemma StaticExecutor(lib: Library, q: Payload)
    requires LowerKeepsWords(lib) && q.runtime == Text("static") && q.strategy == Text("cloud_init")
    ensures Runtime(lib, q) == "static" && StrategyOf(lib, q) == "cloud_init"
  {
    WordsStay(lib, "static");
    WordsStay(lib, "cloud_init");
  }

  lemma StaticFields(lib: Library, q: Payload, root: string)
    requires q.port == Int(80) && q.health == Text("/") && q.env == Null && q.root == Text(root) && RootFits(root)
    ensures NormalisePort(lib, q.port) == Some(Some(80)) && NormalisePath(lib, q.health) == Some("/")
    ensures NormaliseEnv(q.env) == Some([]) && NormaliseAppRoot(lib, q.root) == Some(root)
  {
    PathStays(lib, "/");
    RootStays(lib, root);
  }

  lemma BlankText(lib: Library)
    ensures Strip(StrOr(lib, Null, "")) == "" && OneLine("")
  {
  }

  lemma StaticIsAccepted(lib: Library, name: string, root: string, q: Payload, signals: seq<string>)
    requires LowerKeepsWords(lib) && NameText(name) && RootFits(root)
    requires q == Payload(
      Text(name), Text("static"), Null, Null, Null, Int(80), Text("/"), Null, Text("cloud_init"), Text(root))
    ensures Validate(lib, q, "detected", name, signals)
         == Some(Manifest(name, "static", "cloud_init", "", "", "", Some(80), "/", [], root, "detected", signals))
  {
    NameStays(lib, name);
    StaticExecutor(lib, q);
    StaticFields(lib, q, root);
    BlankText(lib);
    FieldsMakeTheManifest(lib, q, name,
      Manifest(name, "static", "cloud_init", "", "", "", Some(80), "/", [], root, "detected", signals));
  }

  /** The artifacts are fingerprinted. */
  predicate SeesArtifacts(names: seq<string>) {
    "dist" + "/index.html" in names && "build" + "/index.html" in names && "out" + "/index.html" in names
  }

  lemma SameStaticRoot(names: seq<string>, tree: Tree, rest: Tree)
    requires SeesArtifacts(names)
    ensures StaticRoot(Repository(names, tree, rest)) == StaticRoot(tree)
  {
  }

  /** Plain resolution serves the first artifact there is, as a static site named after the project. */
  lemma StaticIsNamedAfterTheProject(lib: Library, names: seq<string>, tree: Tree, rest: Tree, name: string)
    requires LowerKeepsWords(lib) && NameText(name) && SeesArtifacts(names) && StaticRoot(tree).Some?
    ensures var root := StaticRoot(tree).value;
      ResolvePlainly(lib, Drafted(PickStatic), names, rest)(tree, name)
         == Some(Manifest(name, "static", "cloud_init", "", "", "", Some(80), "/", [], root, "detected", [root + "/index.html"]))
         && (root == "dist" <==> "dist/index.html" in tree)
         && (root == "build" <==> "dist/index.html" !in tree && "build/index.html" in tree)
         && (root == "out" <==> "dist/index.html" !in tree && "build/index.html" !in tree)
  {
    assert "dist" + "/index.html" == "dist/index.html" && "build" + "/index.html" == "build/index.html";
    SameStaticRoot(names, tree, rest);
    StaticRootFits(tree);
    var p := PickStatic(tree).value;
    PlainOfPick(lib, PickStatic, names, rest, tree, name);
    StaticIsAccepted(lib, name, StaticRoot(tree).value, p.payload.(name := Text(name)), p.signals);
  }

  lemma {:induction false} InRootHas(root: string, names: seq<string>, n: string)
    requires n in names
    ensures At(root, n) in InRoot(root, names)
  {
    if names[0] != n { InRootHas(root, names[1..], n); }
  }

  lemma ArtifactIsFingerprinted(i: nat)
    requires i < |STATIC_NAMES|
    ensures STATIC_NAMES[i] in Fingerprinted()
  {
    InRootHas(".", FILE_NAMES, STATIC_NAMES[i]);
    assert APP_ROOTS[0] == ".";
    assert At(".", STATIC_NAMES[i]) in InRoots(APP_ROOTS, FILE_NAMES);
  }

  lemma ArtifactsAreFingerprinted()
    ensures SeesArtifacts(Fingerprinted())
  {
    ArtifactIsFingerprinted(0);
    ArtifactIsFingerprinted(1);
    ArtifactIsFingerprinted(2);
    assert STATIC_NAMES[0] == "dist" + "/index.html" && STATIC_NAMES[1] == "build" + "/index.html";
    assert STATIC_NAMES[2] == "out" + "/index.html";
  }

  /** A finished static artifact, resolved under one valid name and then under another, comes back with the first. */
  lemma SecondNameGetsTheFirst(lib: Library, tree: Tree, rest: Tree, first: string, second: string)
    requires LowerKeepsWords(lib) && NameText(first) && NameText(second) && first != second && StaticRoot(tree).Some?
    ensures var names := Fingerprinted();
      var load, plain := Revalidating(lib), ResolvePlainly(lib, Drafted(PickStatic), names, rest);
      var cache := Resolve(load, plain, names, map[], tree, first).cache;
      var again := Resolve(load, plain, names, cache, tree, second);
      && again.hit && again.manifest.Some? && again.manifest.value.name == first
      && plain(tree, second).Some? && plain(tree, second).value.name == second
  {
    ArtifactsAreFingerprinted();
    StaticComesBack(lib, Fingerprinted(), tree, rest, first, second);
  }

  lemma StaticComesBack(lib: Library, names: seq<string>, tree: Tree, rest: Tree, first: string, second: string)
    requires LowerKeepsWords(lib) && NameText(first) && NameText(second) && SeesArtifacts(names) && StaticRoot(tree).Some?
    ensures var load, plain := Revalidating(lib), ResolvePlainly(lib, Drafted(PickStatic), names, rest);
      var cache := Resolve(load, plain, names, map[], tree, first).cache;
      var again := Resolve(load, plain, names, cache, tree, second);
      && again.hit && again.manifest.Some? && again.manifest.value.name == first
      && plain(tree, second).Some? && plain(tree, second).value.name == second
  {
    StaticIsNamedAfterTheProject(lib, names, tree, rest, first);
    StaticIsNamedAfterTheProject(lib, names, tree, rest, second);
    SecondNameIsFreshIff(lib, PickStatic, names, rest, tree, first, second);
  }

  /**
   * A stored entry that cannot be read back does not count: the tree is resolved afresh, and the result replaces
   * the entry. A readable one is returned as it is, and nothing is stored.
   */
  lemma UnreadableEntriesAreReplaced(load: Loader, plain: Plain, names: seq<string>, cache: Cache, tree: Tree, name: string)
    ensures var r, key := Resolve(load, plain, names, cache, tree, name), Stream(names, tree);
      && (r.hit <==> key in cache && load(cache[key], name).Some?)
      && (r.hit ==> r.manifest == load(cache[key], name) && r.cache == cache)
      && (!r.hit ==> r.manifest == plain(tree, name))
      && (!r.hit && plain(tree, name).Some? ==> r.cache == cache[key := StoredForm(plain(tree, name).value)])
      && (!r.hit && plain(tree, name) == None ==> r.cache == cache)
  {
  }

  class ManifestStore {
    var cache: Cache

    constructor ()
      ensures cache == map[]
    {
      cache := map[];
    }

    method ResolveManifest(lib: Library, plain: Plain, names: seq<string>, tree: Tree, name: string)
      returns (manifest: Option<Manifest>, hit: bool)
      modifies this
      ensures Resolution(manifest, hit, cache) == Resolve(Revalidating(lib), plain, names, old(cache), tree, name)
    {
      var load := Revalidating(lib);
      var key := Fingerprint(names, tree);
      if key in cache {
        var cached := load(cache[key], name);
        if cached.Some? { return cached, true; }
      }
      manifest, hit := plain(tree, name), false;
      if manifest.Some? { cache := cache[key := StoredForm(manifest.value)]; }
    }
  }
}
