/** Detection looks at files that the fingerprint does not, so the cache can answer with a manifest of other files. */
module StaleManifests {
  import opened Text
  import opened Wrappers
  import opened ManifestValidation
  import opened ManifestCache

  // ---------- detecting a Ruby repository ----------

  const RAILS_COMMAND: string := "bundle exec " + "rails server " + "-b 0.0.0.0 " + "-p $APP_PORT"
  const PUMA_COMMAND: string := "bundle exec " + "puma -b " + "tcp://0.0.0.0" + ":$APP_PORT"

  /** The first of the roots with a Gemfile. */
  function GemfileRoot(tree: Tree, roots: seq<string>): (root: Option<string>)
    ensures root.Some? ==> root.value in roots && At(root.value, "Gemfile") in tree
  {
    if roots == [] then None
    else if At(roots[0], "Gemfile") in tree then Some(roots[0])
    else GemfileRoot(tree, roots[1..])
  }

  function RubyStart(tree: Tree, root: string): string {
    if At(root, "bin/rails") in tree then RAILS_COMMAND else PUMA_COMMAND
  }

  function RubyPayload(root: string, start: string): Payload {
    Payload(Null, Text("ruby"), Null, Text("bundle install"), Text(start), Null, Null, Null, Text("buildpack"), Text(root))
  }

  /** What detection makes of a repository with a Gemfile, when it has no file that an earlier branch looks for. */
  function PickRuby(tree: Tree): Option<Pick> {
    var root := GemfileRoot(tree, APP_ROOTS);
    if root == None then None
    else Some(Pick(RubyPayload(root.value, RubyStart(tree, root.value)), false, "detected", [root.value + "/ruby"]))
  }

  // ---------- it is accepted ----------

  predicate Simple(root: string) {
    root != "" && forall i :: 0 <= i < |root| ==> IsAlnum(root[i])
  }

  lemma RootsAreSimple()
    ensures forall root :: root in APP_ROOTS ==> root == "." || Simple(root)
  {
  }

  lemma SimpleFits(root: string)
    requires root == "." || Simple(root)
    ensures RootFits(root)
  {
    if root != "." {
      assert '/' !in root;
      NoSlashNoClimb(root);
    }
  }

  predicate Command(s: string) { s != "" && Strip(s) == s && OneLine(s) }

  lemma LineOfFour(a: string, b: string, c: string, d: string)
    requires OneLine(a) && OneLine(b) && OneLine(c) && OneLine(d) && a != "" && d != ""
    requires !IsSpace(a[0]) && !IsSpace(d[|d| - 1])
    ensures Command(a + b + c + d)
  {
    StripNothing(a + b + c + d);
  }

  lemma BundleIsOneLine()
    ensures OneLine("bundle exec ") && OneLine("-p $APP_PORT")
  {
  }

  lemma RailsIsOneLine()
    ensures OneLine("rails server ") && OneLine("-b 0.0.0.0 ")
  {
  }

  lemma PumaIsOneLine()
    ensures OneLine("puma -b ") && OneLine("tcp://0.0.0.0") && OneLine(":$APP_PORT")
  {
  }

  lemma RailsIsACommand()
    ensures Command(RAILS_COMMAND)
  {
    BundleIsOneLine();
    RailsIsOneLine();
    LineOfFour("bundle exec ", "rails server ", "-b 0.0.0.0 ", "-p $APP_PORT");
  }

  lemma PumaIsACommand()
    ensures Command(PUMA_COMMAND)
  {
    BundleIsOneLine();
    PumaIsOneLine();
    LineOfFour("bundle exec ", "puma -b ", "tcp://0.0.0.0", ":$APP_PORT");
  }

  lemma BuildIsACommand()
    ensures Command("bundle install")
  {
    StripNothing("bundle install");
  }

  lemma CommandIsKept(lib: Library, s: string)
    requires Command(s)
    ensures Strip(StrOr(lib, Text(s), "")) == s
  {
  }

  lemma CommandsMakeTheManifest(
      lib: Library, name: string, runtime: string, build: string, start: string, root: string, q: Payload, m: Manifest)
    requires LowerKeepsWords(lib) && NameText(name) && RootFits(root) && Command(build) && Command(start)
    requires runtime in BUILDPACKS
    requires q == Payload(Text(name), Text(runtime), Null, Text(build), Text(start), Null, Null, Null, Text("buildpack"), Text(root))
    requires m == Manifest(name, runtime, "buildpack", "", build, start, None, "/", [], root, "detected", m.signals)
    ensures Validate(lib, q, "detected", name, m.signals) == Some(m)
  {
    NameStays(lib, name);
    WordsStay(lib, runtime);
    WordsStay(lib, "buildpack");
    CommandIsKept(lib, build);
    CommandIsKept(lib, start);
    HealthOfNothing(lib);
    RootStays(lib, root);
    BlankText(lib);
    FieldsMakeTheManifest(lib, q, name, m);
  }

  lemma HealthOfNothing(lib: Library)
    ensures NormalisePath(lib, Null) == Some("/")
  {
    StripNothing("/");
  }

  lemma RubyIsAccepted(lib: Library, name: string, root: string, start: string, signals: seq<string>)
    requires LowerKeepsWords(lib) && NameText(name) && RootFits(root) && Command(start)
    ensures Validate(lib, RubyPayload(root, start).(name := Text(name)), "detected", name, signals)
         == Some(Manifest(name, "ruby", "buildpack", "", "bundle install", start, None, "/", [], root, "detected", signals))
  {
    BuildIsACommand();
    CommandsMakeTheManifest(lib, name, "ruby", "bundle install", start, root, RubyPayload(root, start).(name := Text(name)),
      Manifest(name, "ruby", "buildpack", "", "bundle install", start, None, "/", [], root, "detected", signals));
  }

  // ---------- what the fingerprint sees of it ----------

  /** The Gemfiles are fingerprinted. */
  ghost predicate SeesGemfiles(names: seq<string>) { forall root :: root in APP_ROOTS ==> At(root, "Gemfile") in names }

  lemma {:induction false} SameGemfileRoot(names: seq<string>, tree: Tree, rest: Tree, roots: seq<string>)
    requires forall root :: root in roots ==> At(root, "Gemfile") in names
    ensures GemfileRoot(Repository(names, tree, rest), roots) == GemfileRoot(tree, roots)
  {
    if roots != [] {
      assert roots[0] in roots && forall root :: root in roots[1..] ==> root in roots;
      SameGemfileRoot(names, tree, rest, roots[1..]);
    }
  }

  lemma {:induction false} InRootsHas(roots: seq<string>, names: seq<string>, root: string, n: string)
    requires root in roots && n in names
    ensures At(root, n) in InRoots(roots, names)
  {
    if roots[0] == root { InRootHas(root, names, n); } else { InRootsHas(roots[1..], names, root, n); }
  }

  lemma GemfilesAreSeen()
    ensures SeesGemfiles(Fingerprinted())
  {
    assert OTHER_NAMES[4] == "Gemfile";
    forall root | root in APP_ROOTS ensures At(root, "Gemfile") in Fingerprinted() {
      InRootsHas(APP_ROOTS, FILE_NAMES, root, "Gemfile");
    }
  }

  /** The last two letters of a file that is named like `bin/rails`. */
  predicate LikeRails(s: string) { |s| >= 2 && s[|s| - 1] == 's' && s[|s| - 2] == 'l' }

  ghost predicate NoneLikeRails(names: seq<string>) { forall n :: n in names ==> |n| >= 2 && !LikeRails(n) }

  lemma RootNamesAreUnlikeRails()
    ensures NoneLikeRails(MANIFEST_NAMES) && NoneLikeRails(STATIC_NAMES)
  {
  }

  lemma DockerNamesAreUnlikeRails()
    ensures NoneLikeRails(DOCKER_NAMES)
  {
  }

  lemma NodeNamesAreUnlikeRails()
    ensures NoneLikeRails(NODE_NAMES)
  {
  }

  lemma PythonNamesAreUnlikeRails()
    ensures NoneLikeRails(PYTHON_NAMES)
  {
  }

  ghost predicate AllEndInY(names: seq<string>) { forall n :: n in names ==> |n| >= 2 && n[|n| - 1] == 'y' }

  lemma EntryNamesEndInY()
    ensures AllEndInY(ENTRY_NAMES)
  {
  }

  lemma EntryNamesAreUnlikeRails()
    ensures NoneLikeRails(ENTRY_NAMES)
  {
    EntryNamesEndInY();
    EndInYUnlikeRails(ENTRY_NAMES);
  }

  lemma EndInYUnlikeRails(names: seq<string>)
    requires AllEndInY(names)
    ensures NoneLikeRails(names)
  {
  }

  lemma OtherNamesAreUnlikeRails()
    ensures NoneLikeRails(OTHER_NAMES)
  {
  }

  lemma SixLists(a: seq<string>, b: seq<string>, c: seq<string>, d: seq<string>, e: seq<string>, f: seq<string>)
    requires NoneLikeRails(a) && NoneLikeRails(b) && NoneLikeRails(c)
    requires NoneLikeRails(d) && NoneLikeRails(e) && NoneLikeRails(f)
    ensures NoneLikeRails(a + b + c + d + e + f)
  {
  }

  lemma FileNamesAreUnlikeRails()
    ensures NoneLikeRails(FILE_NAMES)
  {
    RootNamesAreUnlikeRails();
    DockerNamesAreUnlikeRails();
    NodeNamesAreUnlikeRails();
    PythonNamesAreUnlikeRails();
    EntryNamesAreUnlikeRails();
    OtherNamesAreUnlikeRails();
    SixLists(DOCKER_NAMES, NODE_NAMES, PYTHON_NAMES, ENTRY_NAMES, OTHER_NAMES, STATIC_NAMES);
  }

  lemma EndsAlike(root: string, n: string)
    requires |n| >= 2
    ensures LikeRails(At(root, n)) <==> LikeRails(n)
  {
    var whole := At(root, n);
    assert whole[|whole| - 1] == n[|n| - 1] && whole[|whole| - 2] == n[|n| - 2];
  }

  lemma {:induction false} NoRailsInRoot(root: string, names: seq<string>)
    requires NoneLikeRails(names)
    ensures forall p :: p in InRoot(root, names) ==> !LikeRails(p)
  {
    if names != [] {
      assert names[0] in names && forall n :: n in names[1..] ==> n in names;
      EndsAlike(root, names[0]);
      NoRailsInRoot(root, names[1..]);
    }
  }

  lemma {:induction false} NoRailsInRoots(roots: seq<string>, names: seq<string>)
    requires NoneLikeRails(names)
    ensures forall p :: p in InRoots(roots, names) ==> !LikeRails(p)
  {
    if roots != [] {
      NoRailsInRoot(roots[0], names);
      NoRailsInRoots(roots[1..], names);
    }
  }

  lemma NotAmong(manifests: seq<string>, roots: seq<string>, names: seq<string>, p: string)
    requires NoneLikeRails(manifests) && NoneLikeRails(names) && LikeRails(p)
    ensures p !in manifests + InRoots(roots, names)
  {
    NoRailsInRoots(roots, names);
  }

  lemma RailsIsLikeRails(root: string)
    ensures LikeRails(At(root, "bin/rails"))
  {
    EndsAlike(root, "bin/rails");
  }

  lemma NamesAreNotLike(p: string)
    requires LikeRails(p)
    ensures p !in Fingerprinted()
  {
    RootNamesAreUnlikeRails();
    FileNamesAreUnlikeRails();
    NotAmong(MANIFEST_NAMES, APP_ROOTS, FILE_NAMES, p);
  }

  lemma RailsIsNotSeen(root: string)
    ensures At(root, "bin/rails") !in Fingerprinted()
  {
    RailsIsLikeRails(root);
    NamesAreNotLike(At(root, "bin/rails"));
  }

  /** The files that matter below a root: containers, Node, Python, Python entries, other languages, static sites. */
  ghost predicate Matters(name: string) {
    || name in ["Dockerfile", "dockerfile", "docker-compose.yml", "docker-compose.yaml", "compose.yml", "compose.yaml"]
    || name in ["package.json", "package-lock.json", "pnpm-lock.yaml", "yarn.lock"]
    || name in ["requirements.txt", "pyproject.toml", "Pipfile", "poetry.lock"]
    || name in ["app.py", "main.py", "server.py", "manage.py", "wsgi.py", "asgi.py", "application.py", "run.py", "api.py"]
    || name in ["pom.xml", "build.gradle", "build.gradle.kts", "go.mod", "Gemfile", "Procfile"]
    || name in ["dist/index.html", "build/index.html", "out/index.html"]
  }

  lemma MattersIff(name: string)
    ensures Matters(name) <==> name in FILE_NAMES
  {
  }

  lemma {:induction false} InRootIff(root: string, names: seq<string>, path: string)
    ensures path in InRoot(root, names) <==> exists n :: n in names && path == At(root, n)
  {
    if names != [] {
      InRootIff(root, names[1..], path);
      if n :| n in names[1..] && path == At(root, n) { assert n in names; }
      if path == At(root, names[0]) { assert names[0] in names; }
    }
  }

  /** The path is one of these names below one of these roots. */
  ghost predicate Below(roots: seq<string>, names: seq<string>, path: string) {
    exists root, n :: root in roots && n in names && path == At(root, n)
  }

  lemma {:induction false} InRootsIff(roots: seq<string>, names: seq<string>, path: string)
    ensures path in InRoots(roots, names) <==> Below(roots, names, path)
  {
    if roots != [] {
      InRootsIff(roots[1..], names, path);
      InRootIff(roots[0], names, path);
      assert roots[0] in roots;
      if Below(roots[1..], names, path) {
        var root, n :| root in roots[1..] && n in names && path == At(root, n);
        assert root in roots;
      }
    }
  }

  /** The fingerprint covers the two manifest files, and in eight directories the files that matter there; no others. */
  lemma FingerprintCovers(path: string)
    ensures path in Fingerprinted() <==>
      || path == "deplai.yaml" || path == "deplai.yml"
      || exists root, n :: root in [".", "frontend", "web", "client", "app", "backend", "server", "api"] && Matters(n)
                           && path == if root == "." then n else root + "/" + n
  {
    var names := FILE_NAMES;
    InRootsIff(APP_ROOTS, names, path);
    forall n ensures Matters(n) <==> n in names { MattersIff(n); }
    if Below(APP_ROOTS, names, path) {
      var root, n :| root in APP_ROOTS && n in names && path == At(root, n);
      assert Matters(n);
    }
    if root, n :| root in [".", "frontend", "web", "client", "app", "backend", "server", "api"] && Matters(n)
                  && path == (if root == "." then n else root + "/" + n) {
      assert root in APP_ROOTS && n in names && path == At(root, n);
    }
  }

  // ---------- the stale answer ----------

  /** The second of two resolutions of the same fingerprinted files under one name, with other files around them. */
  function Again(lib: Library, pick: Picker, names: seq<string>, tree: Tree, before: Tree, after: Tree, name: string): Resolution {
    var load := Revalidating(lib);
    var cache := Resolve(load, ResolvePlainly(lib, Drafted(pick), names, before), names, map[], tree, name).cache;
    Resolve(load, ResolvePlainly(lib, Drafted(pick), names, after), names, cache, tree, name)
  }

  /** The second answer is the first one, if there was one; so it is fresh exactly when nothing changed for detection. */
  lemma AgainIsTheFirst(lib: Library, pick: Picker, names: seq<string>, tree: Tree, before: Tree, after: Tree, name: string)
    requires LowerKeepsWords(lib)
    ensures var was := ResolvePlainly(lib, Drafted(pick), names, before)(tree, name);
      var again := Again(lib, pick, names, tree, before, after, name);
      if was.Some? then again.hit && again.manifest == was
      else !again.hit && again.manifest == ResolvePlainly(lib, Drafted(pick), names, after)(tree, name)
  {
    PlainIsValidating(lib, Drafted(pick), names, before, name);
    ValidatedReadsBack(lib, ResolvePlainly(lib, Drafted(pick), names, before), name);
  }

  lemma RubyResolves(lib: Library, names: seq<string>, tree: Tree, rest: Tree, name: string, root: string)
    requires LowerKeepsWords(lib) && NameText(name) && SeesGemfiles(names) && At(root, "bin/rails") !in names
    requires GemfileRoot(tree, APP_ROOTS) == Some(root)
    ensures ResolvePlainly(lib, Drafted(PickRuby), names, rest)(tree, name)
         == Some(Manifest(name, "ruby", "buildpack", "", "bundle install", RubyStart(rest, root), None, "/", [], root,
                          "detected", [root + "/ruby"]))
  {
    SameGemfileRoot(names, tree, rest, APP_ROOTS);
    PlainOfPick(lib, PickRuby, names, rest, tree, name);
    assert At(root, "bin/rails") in Repository(names, tree, rest) <==> At(root, "bin/rails") in rest;
    RootsAreSimple();
    SimpleFits(root);
    RailsIsACommand();
    PumaIsACommand();
    RubyIsAccepted(lib, name, root, RubyStart(rest, root), [root + "/ruby"]);
  }

  lemma TwoCommands()
    ensures RAILS_COMMAND != PUMA_COMMAND
  {
    assert RAILS_COMMAND[12] == 'r' && PUMA_COMMAND[12] == 'p';
  }

  /**
   * A Ruby repository whose fingerprinted files stay is answered from the cache, and that is what detection would
   * say exactly when `bin/rails`, which detection looks for and the fingerprint does not, has neither come nor gone.
   */
  lemma RailsGoesStaleIff(lib: Library, tree: Tree, before: Tree, after: Tree, name: string, root: string)
    requires LowerKeepsWords(lib) && NameText(name) && GemfileRoot(tree, APP_ROOTS) == Some(root)
    ensures var names := Fingerprinted();
      var again := Again(lib, PickRuby, names, tree, before, after, name);
      && again.hit
      && (again.manifest == ResolvePlainly(lib, Drafted(PickRuby), names, after)(tree, name)
          <==> (At(root, "bin/rails") in before <==> At(root, "bin/rails") in after))
  {
    var names := Fingerprinted();
    GemfilesAreSeen();
    RailsIsNotSeen(root);
    AgainIsTheFirst(lib, PickRuby, names, tree, before, after, name);
    RubyResolves(lib, names, tree, before, name, root);
    RubyResolves(lib, names, tree, after, name, root);
    TwoCommands();
  }
}
