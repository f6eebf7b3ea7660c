/** Validating a deployment manifest, and why storing a validated manifest loses nothing. */
module ManifestValidation {
  import opened Text
  import opened Wrappers
  import opened Lists

  /** A YAML or JSON value. `asInt` is what converting it to an integer gives, if that works. */
  datatype Value =
    | Null
    | Text(s: string)
    | Int(n: int)
    | List(items: seq<Value>)
    | Other(truthy: bool, asInt: Option<int>)

  /** The fields of a manifest payload; a field that is not there is `Null`. */
  datatype Payload = Payload(
    name: Value, runtime: Value, version: Value, build: Value, start: Value, port: Value,
    health: Value, env: Value, strategy: Value, root: Value)

  datatype Manifest = Manifest(
    name: string, runtime: string, strategy: string, version: string, build: string, start: string,
    port: Option<int>, health: string, env: seq<string>, root: string, origin: string, signals: seq<string>)

  /** What comes from the language: how other values print, how text reads as an integer, and lower case. */
  datatype Library = Library(
    shown: Value -> string,
    parse: string -> Option<int>,
    lower: string -> string)

  const RUNTIMES: set<string> := {"docker", "node", "python", "java", "go", "ruby", "static"}
  const BUILDPACKS: set<string> := {"node", "python", "java", "go", "ruby"}

  /** Lower case leaves the words of the registry as they are. */
  ghost predicate LowerKeepsWords(lib: Library) {
    forall w :: w in RUNTIMES || w in {"buildpack", "cloud_init"} ==> lib.lower(w) == w
  }

  /** The runtimes each executor is certified for. */
  predicate Certified(strategy: string, runtime: string) {
    || (strategy == "docker" && runtime == "docker")
    || (strategy == "buildpack" && runtime in BUILDPACKS)
    || (strategy == "cloud_init" && (runtime in BUILDPACKS || runtime == "static"))
  }

  // ---------- single fields ----------

  predicate Truthy(v: Value) {
    match v
    case Null => false
    case Text(s) => s != ""
    case Int(n) => n != 0
    case List(items) => items != []
    case Other(truthy, _) => truthy
  }

  /** `str(v or default)`. */
  function StrOr(lib: Library, v: Value, default_: string): string {
    if !Truthy(v) then default_ else if v.Text? then v.s else lib.shown(v)
  }

  predicate IsAlnum(c: char) { 'a' <= c <= 'z' || 'A' <= c <= 'Z' || '0' <= c <= '9' }

  predicate NameText(s: string) {
    && 1 <= |s| <= 80 && IsAlnum(s[0])
    && forall i :: 0 < i < |s| ==> IsAlnum(s[i]) || s[i] in "._-"
  }

  function SafeName(lib: Library, v: Value): Option<string> {
    var name := Strip(StrOr(lib, v, ""));
    if name == "" || NameText(name) then Some(name) else None
  }

  predicate HealthText(s: string) {
    && s != "" && s[0] == '/'
    && forall i :: 0 < i < |s| ==> IsAlnum(s[i]) || s[i] in "._~!$&'()*+,;=:@%/?-"
  }

  function NormalisePath(lib: Library, v: Value): Option<string> {
    var path := OrElse(Strip(StrOr(lib, v, "/")), "/");
    var rooted := if path[0] == '/' then path else "/" + path;
    if HealthText(rooted) then Some(rooted) else None
  }

  function InPortRange(port: Option<int>): Option<Option<int>> {
    if port.Some? && 1 <= port.value <= 65535 then Some(port) else None
  }

  /** No port at all, or one in range; `None` is the error. */
  function NormalisePort(lib: Library, v: Value): Option<Option<int>> {
    match v
    case Null => Some(None)
    case Text(s) => if s == "" then Some(None) else InPortRange(lib.parse(s))
    case Int(n) => InPortRange(Some(n))
    case List(_) => None
    case Other(_, asInt) => InPortRange(asInt)
  }

  predicate EnvKey(s: string) {
    && s != "" && !('0' <= s[0] <= '9')
    && forall i :: 0 <= i < |s| ==> IsAlnum(s[i]) || s[i] == '_'
  }

  function Drop(s: string, n: nat): string { if n <= |s| then s[n..] else "" }

  /** `first`, then at most one other character, then `second`. */
  predicate ContainsSplit(s: string, first: string, second: string) {
    || Contains(s, first + second)
    || exists i :: 0 <= i <= |s| && StartsWith(s[i..], first) && StartsWith(Drop(s, i + |first| + 1), second)
  }

  predicate SecretName(key: string) {
    var k := LowerAscii(key);
    || Contains(k, "secret") || Contains(k, "password") || Contains(k, "token")
    || ContainsSplit(k, "private", "key") || ContainsSplit(k, "api", "key")
  }

  function Before(s: string, i: nat): string { if i <= |s| then s[..i] else s }

  function After(s: string, i: nat): string { if i < |s| then s[i + 1..] else "" }

  /** One `KEY=value` entry, with the key trimmed. */
  function EnvEntry(v: Value): Option<string> {
    if !v.Text? || '=' !in v.s then None
    else
      var at := FirstAt(v.s, "=");
      var key, value := Strip(Before(v.s, at)), After(v.s, at);
      if !EnvKey(key) || SecretName(key) || '\0' in value || '\n' in value || '\r' in value then None
      else Some(key + "=" + value)
  }

  /** Convert every item, keep each result once; one failure fails all. */
  function DistinctResults<A>(items: seq<A>, convert: A -> Option<string>): Option<seq<string>> {
    if items == [] then Some([]) else
      var before, last := DistinctResults(items[..|items| - 1], convert), convert(items[|items| - 1]);
      if before == None || last == None then None
      else if last.value in before.value then before
      else Some(before.value + [last.value])
  }

  function NormaliseEnv(v: Value): Option<seq<string>> {
    if v == Null || v == Text("") then Some([]) else if v.List? then DistinctResults(v.items, EnvEntry) else None
  }

  method BuildEnv(items: seq<Value>) returns (r: Option<seq<string>>)
    ensures r == DistinctResults(items, EnvEntry)
  {
    var result: seq<string> := [];
    for i := 0 to |items|
      invariant DistinctResults(items[..i], EnvEntry) == Some(result)
    {
      assert items[..i + 1][..i] == items[..i];
      var entry := EnvEntry(items[i]);
      if entry == None {
        FailureStays(items, i + 1, EnvEntry);
        return None;
      }
      if entry.value !in result { result := result + [entry.value]; }
    }
    assert items[..|items|] == items;
    return Some(result);
  }

  lemma {:induction false} FailureStays<A>(items: seq<A>, n: nat, convert: A -> Option<string>)
    requires n <= |items| && DistinctResults(items[..n], convert) == None
    ensures DistinctResults(items, convert) == None
    decreases |items|
  {
    if n < |items| {
      assert items[..|items| - 1][..n] == items[..n];
      FailureStays(items[..|items| - 1], n, convert);
    } else {
      assert items[..n] == items;
    }
  }

  function TrimSlashes(s: string): string {
    if s == "" then s
    else if s[0] == '/' then TrimSlashes(s[1..])
    else if s[|s| - 1] == '/' then TrimSlashes(s[..|s| - 1])
    else s
  }

  predicate RootText(s: string) {
    s != "" && forall i :: 0 <= i < |s| ==> IsAlnum(s[i]) || s[i] in "._/-"
  }

  function NormaliseAppRoot(lib: Library, v: Value): Option<string> {
    var root := OrElse(TrimSlashes(OrElse(Replace(Strip(StrOr(lib, v, ".")), '\\', '/'), ".")), ".");
    if root == "." then Some(root)
    else if StartsWith(root, "../") || Contains(root, "/../") || !RootText(root) then None
    else Some(root)
  }

  predicate OneLine(s: string) { '\0' !in s && '\n' !in s && '\r' !in s }

  // ---------- the manifest ----------

  function DefaultStrategy(runtime: string): string {
    if runtime == "docker" then "docker" else if runtime == "static" then "cloud_init" else "buildpack"
  }

  function Runtime(lib: Library, p: Payload): string { lib.lower(Strip(StrOr(lib, p.runtime, ""))) }

  function StrategyOf(lib: Library, p: Payload): string {
    OrElse(lib.lower(Strip(StrOr(lib, p.strategy, ""))), DefaultStrategy(Runtime(lib, p)))
  }

  function NameOf(lib: Library, p: Payload, defaultName: string): Option<string> {
    var name := SafeName(lib, p.name);
    if name == Some("") then SafeName(lib, Text(defaultName)) else name
  }

  predicate CommandsFit(runtime: string, origin: string, build: string, start: string) {
    && OneLine(build) && OneLine(start)
    && (runtime == "docker" || runtime == "static" || (start != "" && (origin == "user" ==> build != "")))
  }

  function Validate(lib: Library, p: Payload, origin: string, defaultName: string, signals: seq<string>): Option<Manifest> {
    var runtime, strategy := Runtime(lib, p), StrategyOf(lib, p);
    var name := NameOf(lib, p, defaultName);
    var build, start := Strip(StrOr(lib, p.build, "")), Strip(StrOr(lib, p.start, ""));
    var port, health := NormalisePort(lib, p.port), NormalisePath(lib, p.health);
    var env, root := NormaliseEnv(p.env), NormaliseAppRoot(lib, p.root);
    if runtime !in RUNTIMES || !Certified(strategy, runtime) then None
    else if name == None || name == Some("") || !CommandsFit(runtime, origin, build, start) then None
    else if port == None || health == None || env == None || root == None then None
    else Some(Manifest(name.value, runtime, strategy, Strip(StrOr(lib, p.version, "")), build, start,
                       port.value, health.value, env.value, root.value, origin, signals))
  }

  function TextValues(items: seq<string>): (values: seq<Value>)
    ensures |values| == |items| && forall i :: 0 <= i < |items| ==> values[i] == Text(items[i])
  {
    if items == [] then [] else [Text(items[0])] + TextValues(items[1..])
  }

  /** The dictionary a manifest is stored as. */
  function AsDict(m: Manifest): Payload {
    Payload(
      Text(m.name), Text(m.runtime), if m.version == "" then Null else Text(m.version), Text(m.build), Text(m.start),
      if m.port == None then Null else Int(m.port.value),
      Text(m.health), List(TextValues(m.env)), Text(m.strategy), Text(m.root))
  }

  // ---------- every normaliser keeps its own output ----------

  lemma NameAgain(lib: Library, v: Value)
    ensures var name := SafeName(lib, v);
      name.Some? ==> SafeName(lib, Text(name.value)) == name
  {
    StripIsIdempotent(StrOr(lib, v, ""));
  }

  lemma HealthHasNoBlanks(s: string)
    requires HealthText(s)
    ensures Strip(s) == s
  {
    StripNothing(s);
  }

  lemma PathAgain(lib: Library, v: Value)
    ensures var path := NormalisePath(lib, v);
      path.Some? ==> NormalisePath(lib, Text(path.value)) == path
  {
    var path := NormalisePath(lib, v);
    if path.Some? { HealthHasNoBlanks(path.value); }
  }

  lemma {:induction false} FirstEquals(key: string, value: string)
    requires '=' !in key
    ensures FirstAt(key + "=" + value, "=") == |key|
  {
    var s := key + "=" + value;
    if key != "" {
      assert s[1..] == key[1..] + "=" + value;
      assert s[0] == key[0];
      FirstEquals(key[1..], value);
    }
  }

  lemma EntryAgain(v: Value)
    ensures var e := EnvEntry(v); e.Some? ==> EnvEntry(Text(e.value)) == e
  {
    var e := EnvEntry(v);
    if e.Some? {
      var at := FirstAt(v.s, "=");
      var key, value := Strip(Before(v.s, at)), After(v.s, at);
      assert EnvKey(key) && '=' !in key;
      FirstEquals(key, value);
      var s := key + "=" + value;
      assert Before(s, |key|) == key && After(s, |key|) == value;
      StripIsIdempotent(Before(v.s, at));
    }
  }

  /** The entry comes out of some item. */
  ghost predicate ComesOut<A(!new)>(e: string, convert: A -> Option<string>) { exists x :: convert(x) == Some(e) }

  lemma {:induction false} ResultsAreDistinct<A(!new)>(items: seq<A>, convert: A -> Option<string>)
    ensures var r := DistinctResults(items, convert);
      r.Some? ==> Distinct(r.value) && forall i :: 0 <= i < |r.value| ==> ComesOut(r.value[i], convert)
  {
    if items != [] {
      ResultsAreDistinct(items[..|items| - 1], convert);
      assert convert(items[|items| - 1]).Some? ==> ComesOut(convert(items[|items| - 1]).value, convert);
    }
  }

  lemma {:induction false} DistinctStay<A>(items: seq<A>, results: seq<string>, convert: A -> Option<string>)
    requires |items| == |results| && Distinct(results)
    requires forall i :: 0 <= i < |items| ==> convert(items[i]) == Some(results[i])
    ensures DistinctResults(items, convert) == Some(results)
  {
    if items != [] {
      var n := |items| - 1;
      DistinctStay(items[..n], results[..n], convert);
      assert results == results[..n] + [results[n]] && results[n] !in results[..n];
    }
  }

  /** Distinct entries, each of which is its own normal form. */
  ghost predicate Settled(env: seq<string>) {
    Distinct(env) && forall i :: 0 <= i < |env| ==> EnvEntry(Text(env[i])) == Some(env[i])
  }

  lemma ComingOutSettles(e: string)
    requires ComesOut(e, EnvEntry)
    ensures EnvEntry(Text(e)) == Some(e)
  {
    var v :| EnvEntry(v) == Some(e);
    EntryAgain(v);
  }

  lemma EntriesAreSettled(items: seq<Value>)
    ensures DistinctResults(items, EnvEntry).Some? ==> Settled(DistinctResults(items, EnvEntry).value)
  {
    ResultsAreDistinct(items, EnvEntry);
    var r := DistinctResults(items, EnvEntry);
    if r.Some? {
      forall i | 0 <= i < |r.value| ensures EnvEntry(Text(r.value[i])) == Some(r.value[i]) {
        ComingOutSettles(r.value[i]);
      }
    }
  }

  lemma SettledStays(env: seq<string>)
    requires Settled(env)
    ensures DistinctResults(TextValues(env), EnvEntry) == Some(env)
  {
    DistinctStay(TextValues(env), env, EnvEntry);
  }

  lemma EnvAgain(v: Value)
    ensures var env := NormaliseEnv(v); env.Some? ==> NormaliseEnv(List(TextValues(env.value))) == env
  {
    if v.List? { EntriesAreSettled(v.items); }
    var env := NormaliseEnv(v);
    if env.Some? { SettledStays(env.value); }
  }

  lemma {:induction false} TrimmedEnds(s: string)
    ensures var t := TrimSlashes(s); t == "" || (t[0] != '/' && t[|t| - 1] != '/')
  {
    if s != "" {
      if s[0] == '/' { TrimmedEnds(s[1..]); }
      else if s[|s| - 1] == '/' { TrimmedEnds(s[..|s| - 1]); }
    }
  }

  lemma RootTextStays(lib: Library, root: string)
    requires RootText(root) && root[0] != '/' && root[|root| - 1] != '/'
    requires root == "." || !(StartsWith(root, "../") || Contains(root, "/../"))
    ensures NormaliseAppRoot(lib, Text(root)) == Some(root)
  {
    StripNothing(root);
    assert '\\' !in root;
    ReplaceNothing(root, '\\', '/');
  }

  lemma AppRootAgain(lib: Library, v: Value)
    ensures var root := NormaliseAppRoot(lib, v);
      root.Some? ==> NormaliseAppRoot(lib, Text(root.value)) == root
  {
    var slashed := OrElse(Replace(Strip(StrOr(lib, v, ".")), '\\', '/'), ".");
    TrimmedEnds(slashed);
    var root := NormaliseAppRoot(lib, v);
    if root.Some? { RootTextStays(lib, root.value); }
  }

  // ---------- the main results ----------

  lemma WordsStay(lib: Library, w: string)
    requires LowerKeepsWords(lib) && (w in RUNTIMES || w in {"buildpack", "cloud_init"})
    ensures w != "" && lib.lower(Strip(StrOr(lib, Text(w), ""))) == w
  {
    StripNothing(w);
  }

  lemma CommandAgain(lib: Library, v: Value)
    ensures var s := Strip(StrOr(lib, v, ""));
      Strip(StrOr(lib, Text(s), "")) == s && Strip(StrOr(lib, if s == "" then Null else Text(s), "")) == s
  {
    StripIsIdempotent(StrOr(lib, v, ""));
  }

  predicate NoSecret(entry: string) { '=' in entry && !SecretName(Before(entry, FirstAt(entry, "="))) }

  predicate Executable(m: Manifest) {
    Certified(m.strategy, m.runtime) && (m.start != "" || m.runtime in {"docker", "static"})
  }

  predicate WellFormed(m: Manifest) {
    && NameText(m.name) && HealthText(m.health) && RootText(m.root)
    && (m.port.Some? ==> 1 <= m.port.value <= 65535)
  }

  ghost predicate PublicEnv(m: Manifest) {
    Distinct(m.env) && forall i :: 0 <= i < |m.env| ==> NoSecret(m.env[i])
  }

  lemma ValidatedIsExecutable(lib: Library, p: Payload, origin: string, defaultName: string, signals: seq<string>)
    ensures var m := Validate(lib, p, origin, defaultName, signals); m.Some? ==> Executable(m.value)
  {
  }

  lemma NameIsText(lib: Library, p: Payload, defaultName: string)
    ensures var name := NameOf(lib, p, defaultName); name.Some? && name.value != "" ==> NameText(name.value)
  {
  }

  lemma PathIsText(lib: Library, v: Value)
    ensures var path := NormalisePath(lib, v); path.Some? ==> HealthText(path.value)
  {
  }

  lemma PortIsInRange(lib: Library, v: Value)
    ensures var port := NormalisePort(lib, v);
      port.Some? && port.value.Some? ==> 1 <= port.value.value <= 65535
  {
  }

  /** The fields of a validated manifest are what the normalisers gave. */
  lemma ValidatedFields(lib: Library, p: Payload, origin: string, defaultName: string, signals: seq<string>)
    ensures var m := Validate(lib, p, origin, defaultName, signals);
      m.Some? ==>
        && NameOf(lib, p, defaultName) == Some(m.value.name) && m.value.name != ""
        && NormalisePath(lib, p.health) == Some(m.value.health)
        && NormalisePort(lib, p.port) == Some(m.value.port)
        && NormaliseAppRoot(lib, p.root) == Some(m.value.root)
  {
  }

  lemma ValidatedIsWellFormed(lib: Library, p: Payload, origin: string, defaultName: string, signals: seq<string>, m: Manifest)
    requires NameOf(lib, p, defaultName) == Some(m.name) && m.name != ""
    requires NormalisePath(lib, p.health) == Some(m.health) && NormalisePort(lib, p.port) == Some(m.port)
    requires NormaliseAppRoot(lib, p.root) == Some(m.root)
    ensures WellFormed(m)
  {
    NameIsText(lib, p, defaultName);
    PathIsText(lib, p.health);
    PortIsInRange(lib, p.port);
    RootIsText(lib, p.root);
  }

  /** Every validated manifest names a certified executor, can be started, is well formed, and stores no secret. */
  lemma ValidatedIsDeployable(lib: Library, p: Payload, origin: string, defaultName: string, signals: seq<string>)
    ensures var m := Validate(lib, p, origin, defaultName, signals);
      m.Some? ==> Executable(m.value) && WellFormed(m.value) && PublicEnv(m.value)
  {
    ValidatedIsExecutable(lib, p, origin, defaultName, signals);
    ValidatedFields(lib, p, origin, defaultName, signals);
    var m := Validate(lib, p, origin, defaultName, signals);
    if m.Some? { ValidatedIsWellFormed(lib, p, origin, defaultName, signals, m.value); }
    EnvIsPublic(p.env);
  }

  lemma RootIsText(lib: Library, v: Value)
    ensures var root := NormaliseAppRoot(lib, v); root.Some? ==> RootText(root.value)
  {
  }

  lemma EnvIsPublic(v: Value)
    ensures var env := NormaliseEnv(v);
      env.Some? ==> Distinct(env.value) && forall i :: 0 <= i < |env.value| ==> NoSecret(env.value[i])
  {
    EnvIsSettled(v);
    var env := NormaliseEnv(v);
    if env.Some? {
      forall i | 0 <= i < |env.value| ensures NoSecret(env.value[i]) { EntryIsPublic(env.value[i]); }
    }
  }

  lemma EnvIsSettled(v: Value)
    ensures NormaliseEnv(v).Some? ==> Settled(NormaliseEnv(v).value)
  {
    if v.List? { EntriesAreSettled(v.items); }
  }

  lemma EntryIsPublic(e: string)
    requires EnvEntry(Text(e)) == Some(e)
    ensures NoSecret(e)
  {
    var at := FirstAt(e, "=");
    var key, value := Strip(Before(e, at)), After(e, at);
    assert '=' !in key;
    FirstEquals(key, value);
    assert Before(key + "=" + value, |key|) == key;
  }

  predicate RootFits(root: string) {
    root == "." || (RootText(root) && root[0] != '/' && root[|root| - 1] != '/'
                    && !StartsWith(root, "../") && !Contains(root, "/../"))
  }

  /** The manifests that validation can produce, said without it. */
  ghost predicate Storable(m: Manifest) {
    && Certified(m.strategy, m.runtime) && CommandsFit(m.runtime, m.origin, m.build, m.start)
    && Strip(m.version) == m.version && Strip(m.build) == m.build && Strip(m.start) == m.start
    && NameText(m.name) && HealthText(m.health) && RootFits(m.root)
    && (m.port.Some? ==> 1 <= m.port.value <= 65535) && Settled(m.env)
  }

  lemma NameStays(lib: Library, name: string)
    requires NameText(name)
    ensures SafeName(lib, Text(name)) == Some(name)
  {
    StripNothing(name);
  }

  lemma PathStays(lib: Library, path: string)
    requires HealthText(path)
    ensures NormalisePath(lib, Text(path)) == Some(path)
  {
    HealthHasNoBlanks(path);
  }

  lemma RootStays(lib: Library, root: string)
    requires RootFits(root)
    ensures NormaliseAppRoot(lib, Text(root)) == Some(root)
  {
    RootTextStays(lib, root);
  }

  /** Every normaliser gives the stored field back. */
  predicate FieldsReadBack(lib: Library, m: Manifest) {
    var q := AsDict(m);
    && SafeName(lib, q.name) == Some(m.name)
    && Strip(StrOr(lib, q.version, "")) == m.version
    && Strip(StrOr(lib, q.build, "")) == m.build && Strip(StrOr(lib, q.start, "")) == m.start
    && NormalisePort(lib, q.port) == Some(m.port) && NormalisePath(lib, q.health) == Some(m.health)
    && NormaliseEnv(q.env) == Some(m.env) && NormaliseAppRoot(lib, q.root) == Some(m.root)
  }

  lemma CommandStays(lib: Library, s: string)
    requires Strip(s) == s
    ensures Strip(StrOr(lib, Text(s), "")) == s && Strip(StrOr(lib, if s == "" then Null else Text(s), "")) == s
  {
  }

  lemma PortStays(lib: Library, port: Option<int>)
    requires port.Some? ==> 1 <= port.value <= 65535
    ensures NormalisePort(lib, if port == None then Null else Int(port.value)) == Some(port)
  {
  }

  lemma EnvStays(env: seq<string>)
    requires Settled(env)
    ensures NormaliseEnv(List(TextValues(env))) == Some(env)
  {
    SettledStays(env);
  }

  lemma StorableReadsBack(lib: Library, m: Manifest)
    requires Storable(m)
    ensures FieldsReadBack(lib, m) && m.name != ""
  {
    NameStays(lib, m.name);
    CommandStays(lib, m.version);
    CommandStays(lib, m.build);
    CommandStays(lib, m.start);
    PortStays(lib, m.port);
    PathStays(lib, m.health);
    EnvStays(m.env);
    RootStays(lib, m.root);
  }

  lemma ReadsBackWhole(lib: Library, m: Manifest, defaultName: string)
    requires LowerKeepsWords(lib) && FieldsReadBack(lib, m) && m.name != ""
    requires Certified(m.strategy, m.runtime) && CommandsFit(m.runtime, m.origin, m.build, m.start)
    ensures Validate(lib, AsDict(m), m.origin, defaultName, m.signals) == Some(m)
  {
    var q := AsDict(m);
    assert Runtime(lib, q) == m.runtime && StrategyOf(lib, q) == m.strategy by {
      WordsStay(lib, m.runtime);
      WordsStay(lib, m.strategy);
    }
  }

  /** The stored form of such a manifest is accepted and gives it back, whatever default name is offered. */
  lemma StorableIsAccepted(lib: Library, m: Manifest, defaultName: string)
    requires LowerKeepsWords(lib) && Storable(m)
    ensures Validate(lib, AsDict(m), m.origin, defaultName, m.signals) == Some(m)
  {
    StorableReadsBack(lib, m);
    ReadsBackWhole(lib, m, defaultName);
  }

  lemma RootIsFit(lib: Library, v: Value)
    ensures var root := NormaliseAppRoot(lib, v); root.Some? ==> RootFits(root.value)
  {
    TrimmedEnds(OrElse(Replace(Strip(StrOr(lib, v, ".")), '\\', '/'), "."));
  }

  lemma ValidatedTexts(lib: Library, p: Payload, origin: string, defaultName: string, signals: seq<string>)
    ensures var m := Validate(lib, p, origin, defaultName, signals);
      m.Some? ==>
        && Strip(m.value.version) == m.value.version && Strip(m.value.build) == m.value.build
        && Strip(m.value.start) == m.value.start
        && Certified(m.value.strategy, m.value.runtime)
        && CommandsFit(m.value.runtime, m.value.origin, m.value.build, m.value.start)
        && NormaliseEnv(p.env) == Some(m.value.env)
  {
    CommandAgain(lib, p.version);
    CommandAgain(lib, p.build);
    CommandAgain(lib, p.start);
  }

  lemma ValidatedIsStorable(lib: Library, p: Payload, origin: string, defaultName: string, signals: seq<string>)
    ensures var m := Validate(lib, p, origin, defaultName, signals); m.Some? ==> Storable(m.value)
  {
    ValidatedFields(lib, p, origin, defaultName, signals);
    ValidatedTexts(lib, p, origin, defaultName, signals);
    NameIsText(lib, p, defaultName);
    PathIsText(lib, p.health);
    PortIsInRange(lib, p.port);
    RootIsFit(lib, p.root);
    EnvIsSettled(p.env);
  }

  ghost predicate Produced(lib: Library, m: Manifest) {
    exists p, origin, defaultName, signals :: Validate(lib, p, origin, defaultName, signals) == Some(m)
  }

  /** Validation produces exactly the storable manifests. */
  lemma ProducedIffStorable(lib: Library, m: Manifest)
    requires LowerKeepsWords(lib)
    ensures Produced(lib, m) <==> Storable(m)
  {
    if Produced(lib, m) {
      var p, origin, defaultName, signals :| Validate(lib, p, origin, defaultName, signals) == Some(m);
      ValidatedIsStorable(lib, p, origin, defaultName, signals);
    }
    if Storable(m) {
      StorableIsAccepted(lib, m, "");
      assert Validate(lib, AsDict(m), m.origin, "", m.signals) == Some(m);
    }
  }

  /** Storing a validated manifest and validating it again gives the manifest back, whatever name is offered. */
  lemma StoredManifestReadsBack(lib: Library, m: Manifest, otherName: string)
    requires LowerKeepsWords(lib) && Produced(lib, m)
    ensures Validate(lib, AsDict(m), m.origin, otherName, m.signals) == Some(m)
  {
    ProducedIffStorable(lib, m);
    StorableIsAccepted(lib, m, otherName);
  }
}
