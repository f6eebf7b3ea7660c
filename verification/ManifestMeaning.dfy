/** What a validated manifest says of the payload it came from, and which payloads are refused. */
module ManifestMeaning {
  import opened Text
  import opened Wrappers
  import opened Lists
  import opened ManifestValidation

  // ---------- the environment ----------

  /** `front`, at most one character, `back`, somewhere in the text. */
  ghost predicate OccursSplit(front: string, back: string, s: string) {
    exists before: string, middle: string, after: string ::
      |middle| <= 1 && s == before + (front + (middle + (back + after)))
  }

  lemma SplitOccurs(s: string, front: string, back: string)
    requires ContainsSplit(s, front, back)
    ensures OccursSplit(front, back, s)
  {
    if Contains(s, front + back) {
      ContainsIffOccurs(s, front + back);
      var before, after :| s == before + (front + back) + after;
      assert s == before + (front + ("" + (back + after)));
    } else {
      var i :| 0 <= i <= |s| && StartsWith(s[i..], front) && StartsWith(Drop(s, i + |front| + 1), back);
      CutAt(s, i, front, back);
    }
  }

  lemma CutAt(s: string, i: nat, front: string, back: string)
    requires i <= |s| && StartsWith(s[i..], front) && StartsWith(Drop(s, i + |front| + 1), back)
    ensures OccursSplit(front, back, s)
  {
    var at := i + |front|;
    assert s[i..at] == front;
    if at + 1 <= |s| {
      var rest := s[at + 1..];
      assert rest == back + rest[|back|..];
      assert s == s[..i] + (front + ([s[at]] + (back + rest[|back|..])));
    } else {
      assert s == s[..i] + (front + ("" + (back + "")));
    }
  }

  lemma OccursSplitAt(s: string, front: string, back: string)
    requires OccursSplit(front, back, s)
    ensures ContainsSplit(s, front, back)
  {
    var before, middle, after :| |middle| <= 1 && s == before + (front + (middle + (back + after)));
    if middle == "" {
      assert s == before + (front + back) + after;
      ContainsIffOccurs(s, front + back);
    } else {
      var i := |before|;
      assert s[i..] == front + (middle + (back + after));
      assert s[i..][|front|..] == s[i + |front|..] == middle + (back + after);
      assert s[i + |front|..][1..] == s[i + |front| + 1..] == back + after;
      assert StartsWith(Drop(s, i + |front| + 1), back);
    }
  }

  /** A name that speaks of a secret, in any case. */
  ghost predicate SpeaksOfSecret(key: string) {
    var k := LowerAscii(key);
    || Occurs("secret", k) || Occurs("password", k) || Occurs("token", k)
    || OccursSplit("private", "key", k) || OccursSplit("api", "key", k)
  }

  lemma SecretNameIff(key: string)
    ensures SecretName(key) <==> SpeaksOfSecret(key)
  {
    var k := LowerAscii(key);
    ContainsIffOccurs(k, "secret");
    ContainsIffOccurs(k, "password");
    ContainsIffOccurs(k, "token");
    if ContainsSplit(k, "private", "key") { SplitOccurs(k, "private", "key"); }
    if ContainsSplit(k, "api", "key") { SplitOccurs(k, "api", "key"); }
    if OccursSplit("private", "key", k) { OccursSplitAt(k, "private", "key"); }
    if OccursSplit("api", "key", k) { OccursSplitAt(k, "api", "key"); }
  }

  /** A variable: letters, digits and underscores, not a digit first, nothing secret, and a value on one line. */
  ghost predicate Variable(key: string, value: string) {
    && key != "" && !('0' <= key[0] <= '9')
    && (forall c :: c in key ==> 'a' <= c <= 'z' || 'A' <= c <= 'Z' || '0' <= c <= '9' || c == '_')
    && !SpeaksOfSecret(key) && '\0' !in value && '\n' !in value && '\r' !in value
  }

  /** The item is text whose first equals sign parts this variable from its value; blanks around the name are dropped. */
  ghost predicate Gives(v: Value, e: string) {
    exists name: string, value: string ::
      v == Text(name + "=" + value) && '=' !in name && Variable(Strip(name), value) && e == Strip(name) + "=" + value
  }

  lemma NameBeforeEquals(s: string)
    requires '=' in s
    ensures var at := FirstAt(s, "="); s == Before(s, at) + "=" + After(s, at) && '=' !in Before(s, at)
  {
    FirstEqualsIsFirst(s);
    var at := FirstAt(s, "=");
    assert s[at] == '=';
  }

  lemma {:induction false} FirstEqualsIsFirst(s: string)
    requires '=' in s
    ensures FirstAt(s, "=") < |s| && s[FirstAt(s, "=")] == '=' && '=' !in s[..FirstAt(s, "=")]
  {
    if !StartsWith(s, "=") {
      assert s[0] != '=';
      FirstEqualsIsFirst(s[1..]);
      var i := FirstAt(s[1..], "=");
      assert s[..i + 1] == [s[0]] + s[1..][..i];
    }
  }

  lemma CutsAt(name: string, value: string)
    requires '=' !in name
    ensures var s := name + "=" + value; Before(s, FirstAt(s, "=")) == name && After(s, FirstAt(s, "=")) == value
  {
    FirstEquals(name, value);
  }

  lemma VariableIff(key: string, value: string)
    ensures Variable(key, value) <==>
      EnvKey(key) && !SecretName(key) && '\0' !in value && '\n' !in value && '\r' !in value
  {
    SecretNameIff(key);
    if EnvKey(key) {
      forall c | c in key ensures 'a' <= c <= 'z' || 'A' <= c <= 'Z' || '0' <= c <= '9' || c == '_' {
        var i :| 0 <= i < |key| && key[i] == c;
        assert IsAlnum(key[i]) || key[i] == '_';
      }
    }
    if Variable(key, value) {
      forall i | 0 <= i < |key| ensures IsAlnum(key[i]) || key[i] == '_' { assert key[i] in key; }
    }
  }

  lemma EntryGives(v: Value, e: string)
    ensures EnvEntry(v) == Some(e) <==> Gives(v, e)
  {
    if v.Text? && '=' in v.s {
      var at := FirstAt(v.s, "=");
      NameBeforeEquals(v.s);
      VariableIff(Strip(Before(v.s, at)), After(v.s, at));
      if EnvEntry(v) == Some(e) { assert v == Text(Before(v.s, at) + "=" + After(v.s, at)); }
    }
    if Gives(v, e) {
      var name, value :| v == Text(name + "=" + value) && '=' !in name && Variable(Strip(name), value)
                         && e == Strip(name) + "=" + value;
      assert (name + "=" + value)[|name|] == '=';
      CutsAt(name, value);
      VariableIff(Strip(name), value);
    }
  }

  lemma {:induction false} ResultsAreTheItems<A(!new)>(items: seq<A>, convert: A -> Option<string>)
    ensures var r := DistinctResults(items, convert);
      && (r.Some? <==> forall x :: x in items ==> convert(x).Some?)
      && (r.Some? ==> forall e :: e in r.value <==> exists x :: x in items && convert(x) == Some(e))
  {
    if items != [] {
      var n := |items| - 1;
      ResultsAreTheItems(items[..n], convert);
      assert items == items[..n] + [items[n]];
    }
  }

  /**
   * The environment is taken exactly when it is absent or empty or a list of which every item gives a variable;
   * then it has those, each once.
   */
  lemma EnvironmentIsItsItems(v: Value)
    ensures var env := NormaliseEnv(v);
      && (env.Some? <==> v == Null || v == Text("") || (v.List? && forall x :: x in v.items ==> exists e :: Gives(x, e)))
      && (env.Some? ==> Distinct(env.value)
                        && forall e :: e in env.value <==> v.List? && exists x :: x in v.items && Gives(x, e))
  {
    EnvIsSettled(v);
    if v.List? {
      ResultsAreTheItems(v.items, EnvEntry);
      forall x ensures EnvEntry(x).Some? <==> exists e :: Gives(x, e) {
        if EnvEntry(x).Some? { EntryGives(x, EnvEntry(x).value); }
        if e :| Gives(x, e) { EntryGives(x, e); }
      }
      forall x, e ensures EnvEntry(x) == Some(e) <==> Gives(x, e) { EntryGives(x, e); }
    }
  }

  // ---------- the whole payload ----------

  function Trimmed(lib: Library, v: Value, default_: string): string { Strip(StrOr(lib, v, default_)) }

  /** A field's text, trimmed: an absent, empty or zero field stands for the default, and a text for itself. */
  lemma TrimmedFields(lib: Library, v: Value, default_: string)
    ensures Trimmed(lib, v, default_) == Strip(
      match v
      case Null => default_
      case Text(s) => if s == "" then default_ else s
      case Int(n) => if n == 0 then default_ else lib.shown(v)
      case List(items) => if items == [] then default_ else lib.shown(v)
      case Other(truthy, _) => if truthy then lib.shown(v) else default_)
  {
  }

  ghost predicate LetterOrDigit(c: char) { 'a' <= c <= 'z' || 'A' <= c <= 'Z' || '0' <= c <= '9' }

  /** One to eighty letters, digits, dots, underscores and hyphens, with a letter or a digit first. */
  ghost predicate IsName(s: string) {
    && 1 <= |s| <= 80 && LetterOrDigit(s[0])
    && forall c :: c in s ==> LetterOrDigit(c) || c in {'.', '_', '-'}
  }

  /** A slash, then characters that a path and a query may have. */
  ghost predicate IsHealthPath(s: string) {
    && "/" <= s
    && forall c :: c in s ==> LetterOrDigit(c) || c in {
         '.', '_', '~', '!', '$', '&', '\'', '(', ')', '*', '+', ',', ';', '=', ':', '@', '%', '/', '?', '-'}
  }

  lemma NameIff(s: string)
    ensures NameText(s) <==> IsName(s)
  {
    if NameText(s) {
      forall c | c in s ensures LetterOrDigit(c) || c in {'.', '_', '-'} {
        var i :| 0 <= i < |s| && s[i] == c;
      }
    }
    if IsName(s) { assert forall i :: 0 <= i < |s| ==> s[i] in s; }
  }

  lemma HealthIff(s: string)
    ensures HealthText(s) <==> IsHealthPath(s)
  {
    if HealthText(s) {
      forall c | c in s ensures LetterOrDigit(c) || c in "._~!$&'()*+,;=:@%/?-" {
        var i :| 0 <= i < |s| && s[i] == c;
      }
    }
    if IsHealthPath(s) {
      forall i | 0 < i < |s| ensures IsAlnum(s[i]) || s[i] in "._~!$&'()*+,;=:@%/?-" { assert s[i] in s; }
    }
  }

  function RuntimeOf(lib: Library, p: Payload): string { lib.lower(Trimmed(lib, p.runtime, "")) }

  /** The strategy that is named, or the one the runtime calls for. */
  function StrategyFor(lib: Library, p: Payload): string {
    var named := lib.lower(Trimmed(lib, p.strategy, ""));
    if named != "" then named
    else match RuntimeOf(lib, p)
      case "docker" => "docker"
      case "static" => "cloud_init"
      case _ => "buildpack"
  }

  /** Containers run as such; the five languages are built or set up on the machine; static sites are set up only. */
  ghost predicate Runs(strategy: string, runtime: string) {
    (strategy, runtime) in {
      ("docker", "docker"),
      ("buildpack", "node"), ("buildpack", "python"), ("buildpack", "java"), ("buildpack", "go"), ("buildpack", "ruby"),
      ("cloud_init", "node"), ("cloud_init", "python"), ("cloud_init", "java"), ("cloud_init", "go"), ("cloud_init", "ruby"),
      ("cloud_init", "static")}
  }

  function NameFor(lib: Library, p: Payload, defaultName: string): string {
    if Trimmed(lib, p.name, "") != "" then Trimmed(lib, p.name, "") else Strip(defaultName)
  }

  /** The port as a number, if any is given; what is not a number stands for zero, which is out of range. */
  function PortFor(lib: Library, v: Value): Option<int> {
    match v
    case Null => None
    case Text(s) => if s == "" then None else if lib.parse(s).Some? then lib.parse(s) else Some(0)
    case Int(n) => Some(n)
    case List(_) => Some(0)
    case Other(_, asInt) => if asInt.Some? then asInt else Some(0)
  }

  function HealthFor(lib: Library, v: Value): string {
    var path := Trimmed(lib, v, "/");
    if path == "" then "/" else if path[0] == '/' then path else "/" + path
  }

  /** Docker and static need no command; the rest need one to start, and one to build when a user wrote the manifest. */
  ghost predicate Startable(runtime: string, origin: string, build: string, start: string) {
    && (forall c :: c in build + start ==> c != '\0' && c != '\n' && c != '\r')
    && (runtime !in {"docker", "static"} ==> start != "" && (origin == "user" ==> build != ""))
  }

  lemma RunsIffCertified(strategy: string, runtime: string)
    ensures Runs(strategy, runtime) <==> Certified(strategy, runtime)
    ensures Runs(strategy, runtime) ==> runtime in RUNTIMES
  {
  }

  lemma StartableIffFit(runtime: string, origin: string, build: string, start: string)
    ensures Startable(runtime, origin, build, start) <==> CommandsFit(runtime, origin, build, start)
  {
    var both := build + start;
    if CommandsFit(runtime, origin, build, start) {
      assert forall c :: c in both ==> c in build || c in start;
    } else if Startable(runtime, origin, build, start) {
      assert forall c :: c in build || c in start ==> c in both;
    }
  }

  lemma NameIsFor(lib: Library, p: Payload, defaultName: string)
    ensures var name := NameOf(lib, p, defaultName);
      && (name.Some? && name.value != "" <==> NameText(NameFor(lib, p, defaultName)))
      && (name.Some? && name.value != "" ==> name.value == NameFor(lib, p, defaultName))
  {
  }

  lemma PortIsFor(lib: Library, v: Value)
    ensures var port := NormalisePort(lib, v);
      && (port.Some? <==> PortFor(lib, v).Some? ==> 1 <= PortFor(lib, v).value <= 65535)
      && (port.Some? ==> port.value == PortFor(lib, v))
  {
  }

  lemma HealthIsFor(lib: Library, v: Value)
    ensures NormalisePath(lib, v) == if HealthText(HealthFor(lib, v)) then Some(HealthFor(lib, v)) else None
  {
  }

  /** Which payloads are accepted. */
  lemma AcceptedIff(lib: Library, p: Payload, origin: string, defaultName: string, signals: seq<string>)
    ensures Validate(lib, p, origin, defaultName, signals).Some? <==>
      && Runs(StrategyFor(lib, p), RuntimeOf(lib, p))
      && IsName(NameFor(lib, p, defaultName))
      && Startable(RuntimeOf(lib, p), origin, Trimmed(lib, p.build, ""), Trimmed(lib, p.start, ""))
      && (PortFor(lib, p.port).Some? ==> 1 <= PortFor(lib, p.port).value <= 65535)
      && IsHealthPath(HealthFor(lib, p.health))
      && NormaliseEnv(p.env).Some? && NormaliseAppRoot(lib, p.root).Some?
  {
    RunsIffCertified(StrategyFor(lib, p), RuntimeOf(lib, p));
    StartableIffFit(RuntimeOf(lib, p), origin, Trimmed(lib, p.build, ""), Trimmed(lib, p.start, ""));
    NameIsFor(lib, p, defaultName);
    PortIsFor(lib, p.port);
    HealthIsFor(lib, p.health);
    NameIff(NameFor(lib, p, defaultName));
    HealthIff(HealthFor(lib, p.health));
  }

  lemma StrategyIsFor(lib: Library, p: Payload)
    ensures Runtime(lib, p) == RuntimeOf(lib, p) && StrategyOf(lib, p) == StrategyFor(lib, p)
  {
  }

  /** Validation puts the fields together as the normalisers give them. */
  lemma ValidatedIsPutTogether(lib: Library, p: Payload, origin: string, defaultName: string, signals: seq<string>)
    requires Validate(lib, p, origin, defaultName, signals).Some?
    ensures var m := Validate(lib, p, origin, defaultName, signals).value;
      && m.runtime == Runtime(lib, p) && m.strategy == StrategyOf(lib, p) && m.origin == origin && m.signals == signals
      && m.version == Trimmed(lib, p.version, "") && m.build == Trimmed(lib, p.build, "") && m.start == Trimmed(lib, p.start, "")
      && NormaliseEnv(p.env) == Some(m.env)
  {
  }

  /** And what the manifest of an accepted one says. */
  lemma ManifestSaysThePayload(lib: Library, p: Payload, origin: string, defaultName: string, signals: seq<string>)
    requires Validate(lib, p, origin, defaultName, signals).Some?
    ensures var m := Validate(lib, p, origin, defaultName, signals).value;
      && m.runtime == RuntimeOf(lib, p) && m.strategy == StrategyFor(lib, p) && m.name == NameFor(lib, p, defaultName)
      && m.version == Trimmed(lib, p.version, "") && m.build == Trimmed(lib, p.build, "") && m.start == Trimmed(lib, p.start, "")
      && m.port == PortFor(lib, p.port) && m.health == HealthFor(lib, p.health)
      && NormaliseEnv(p.env) == Some(m.env) && NormaliseAppRoot(lib, p.root) == Some(m.root)
      && m.origin == origin && m.signals == signals
  {
    var m := Validate(lib, p, origin, defaultName, signals).value;
    ValidatedIsPutTogether(lib, p, origin, defaultName, signals);
    ValidatedFields(lib, p, origin, defaultName, signals);
    SaysTheFields(lib, p, defaultName, m);
  }

  lemma SaysTheFields(lib: Library, p: Payload, defaultName: string, m: Manifest)
    requires NameOf(lib, p, defaultName) == Some(m.name) && m.name != ""
    requires NormalisePath(lib, p.health) == Some(m.health) && NormalisePort(lib, p.port) == Some(m.port)
    ensures m.name == NameFor(lib, p, defaultName) && m.port == PortFor(lib, p.port) && m.health == HealthFor(lib, p.health)
    ensures Runtime(lib, p) == RuntimeOf(lib, p) && StrategyOf(lib, p) == StrategyFor(lib, p)
  {
    StrategyIsFor(lib, p);
    NameIsFor(lib, p, defaultName);
    PortIsFor(lib, p.port);
    HealthIsFor(lib, p.health);
  }

  // ---------- the application root ----------

  ghost predicate OnlySlashes(s: string) { forall i :: 0 <= i < |s| ==> s[i] == '/' }

  lemma {:induction false} TrimmingSlashes(a: string, r: string, b: string)
    requires OnlySlashes(a) && OnlySlashes(b) && (r == "" || (r[0] != '/' && r[|r| - 1] != '/'))
    ensures TrimSlashes(a + r + b) == r
    decreases |a| + |b|
  {
    var s := a + r + b;
    if a != "" {
      assert s[1..] == a[1..] + r + b;
      TrimmingSlashes(a[1..], r, b);
    } else if b != "" {
      var n := |b| - 1;
      if r == "" {
        assert s == b && s[1..] == "" + r + b[1..];
        TrimmingSlashes("", r, b[1..]);
      } else {
        assert s[..|s| - 1] == "" + r + b[..n] && s[0] == r[0];
        TrimmingSlashes("", r, b[..n]);
      }
    } else {
      assert s == r;
    }
  }

  /** Plain characters, and no climbing in front or in the middle. */
  ghost predicate PlainRoot(r: string) {
    && (forall c :: c in r ==> LetterOrDigit(c) || c in {'.', '_', '/', '-'})
    && !("../" <= r) && !Occurs("/../", r)
  }

  lemma PlainRootIff(r: string)
    requires r != ""
    ensures PlainRoot(r) <==> !StartsWith(r, "../") && !Contains(r, "/../") && RootText(r)
  {
    ContainsIffOccurs(r, "/../");
    assert forall i :: 0 <= i < |r| ==> r[i] in r;
  }

  lemma NoRootIsADot(lib: Library, v: Value, given: string)
    requires given == Replace(Trimmed(lib, v, "."), '\\', '/') && TrimSlashes(given) == ""
    ensures NormaliseAppRoot(lib, v) == Some(".")
  {
    TrimmingSlashes("", ".", "");
    assert "" + "." + "" == ".";
  }

  lemma SomeRootIsChecked(lib: Library, v: Value, given: string, r: string)
    requires given == Replace(Trimmed(lib, v, "."), '\\', '/') && TrimSlashes(given) == r != ""
    ensures NormaliseAppRoot(lib, v)
         == if r == "." || (!StartsWith(r, "../") && !Contains(r, "/../") && RootText(r)) then Some(r) else None
  {
  }

  /**
   * The root is the given text, with slashes for backslashes, without the slashes around it, and a dot when nothing
   * is left. Anything but a dot needs plain characters and must not climb in front or in the middle.
   */
  lemma AppRootIsTheMiddle(lib: Library, v: Value, a: string, r: string, b: string)
    requires Replace(Trimmed(lib, v, "."), '\\', '/') == a + r + b && OnlySlashes(a) && OnlySlashes(b)
    requires r == "" || (r[0] != '/' && r[|r| - 1] != '/')
    ensures NormaliseAppRoot(lib, v) == if r == "" || r == "." then Some(".") else if PlainRoot(r) then Some(r) else None
  {
    TrimmingSlashes(a, r, b);
    if r == "" {
      NoRootIsADot(lib, v, a + r + b);
    } else {
      SomeRootIsChecked(lib, v, a + r + b, r);
      PlainRootIff(r);
    }
  }
}
