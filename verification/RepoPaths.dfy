/** Resolving a path an LLM or a scanner wrote to one of the files that may be edited. */
module RepoPaths {
  import opened Text
  import opened Wrappers

  // ---------- normalising ----------

  function DropDotSlash(s: string): string
    decreases |s|
  {
    if StartsWith(s, "./") then DropDotSlash(s[2..]) else s
  }

  function DropSlashes(s: string): string {
    if s != "" && s[0] == '/' then DropSlashes(s[1..]) else s
  }

  function Proper(parts: seq<string>): seq<string> {
    if parts == [] then [] else (if parts[0] == "" || parts[0] == "." then [] else [parts[0]]) + Proper(parts[1..])
  }

  function Normalize(path: string): string {
    Join(Proper(Split(DropSlashes(DropDotSlash(Replace(Strip(path), '\\', '/'))), '/')), '/')
  }

  predicate IsSafe(path: string) {
    && path != "" && path[0] != '/' && '\\' !in path
    && forall part :: part in Split(path, '/') ==> part !in ["", ".", ".."]
  }

  lemma {:induction false} ProperParts(parts: seq<string>)
    ensures forall p :: p in Proper(parts) <==> p in parts && p != "" && p != "."
  {
    if parts != [] { ProperParts(parts[1..]); }
  }

  lemma {:induction false} ReplaceRemoves(s: string, from: char, to: char)
    requires from != to
    ensures from !in Replace(s, from, to)
  {
    if s != "" { ReplaceRemoves(s[1..], from, to); }
  }

  lemma {:induction false} DropsKeepFree(s: string, c: char)
    requires c !in s
    ensures c !in DropDotSlash(s) && c !in DropSlashes(s)
    decreases |s|
  {
    if StartsWith(s, "./") { DropsKeepFree(s[2..], c); }
    if s != "" && s[0] == '/' { DropsKeepFree(s[1..], c); }
  }

  lemma {:induction false} SplitKeepsFree(s: string, sep: char, c: char)
    requires c !in s
    ensures forall p :: p in Split(s, sep) ==> c !in p
  {
    if s != "" { SplitKeepsFree(s[1..], sep, c); }
  }

  lemma {:induction false} JoinKeepsFree(parts: seq<string>, sep: char, c: char)
    requires c != sep && forall p :: p in parts ==> c !in p
    ensures c !in Join(parts, sep)
  {
    if |parts| > 1 { JoinKeepsFree(parts[1..], sep, c); }
  }

  function Segments(path: string): seq<string> {
    Proper(Split(DropSlashes(DropDotSlash(Replace(Strip(path), '\\', '/'))), '/'))
  }

  lemma SegmentsAreClean(path: string)
    ensures forall p :: p in Segments(path) ==> p != "" && p != "." && '/' !in p && '\\' !in p
  {
    var s := Replace(Strip(path), '\\', '/');
    var t := DropSlashes(DropDotSlash(s));
    ReplaceRemoves(Strip(path), '\\', '/');
    DropsKeepFree(s, '\\');
    DropsKeepFree(DropDotSlash(s), '\\');
    SplitKeepsFree(t, '/', '\\');
    SplitPartsHaveNoSeparator(t, '/');
    ProperParts(Split(t, '/'));
  }

  /** Normalising leaves only two ways for a path to be unsafe: to be empty, or to climb with `..`. */
  lemma UnsafeMeansEmptyOrClimbing(path: string)
    ensures IsSafe(Normalize(path)) <==> Normalize(path) != "" && ".." !in Split(Normalize(path), '/')
  {
    var parts := Segments(path);
    SegmentsAreClean(path);
    if parts != [] {
      assert parts[0] in parts;
      SplitOfJoin(parts, '/');
      JoinKeepsFree(parts, '/', '\\');
    }
  }

  // ---------- candidates ----------

  function Adding(candidates: seq<string>, c: string): seq<string> {
    if Normalize(c) != "" && Normalize(c) !in candidates then candidates + [Normalize(c)] else candidates
  }

  /** What is left after the prefix, if the path starts with it. */
  function AfterPrefix(raw: string, prefix: string): string {
    if StartsWith(raw, prefix) then raw[|prefix|..] else ""
  }

  /** What is left after the first occurrence of the marker, if there is one. */
  function AfterFirst(raw: string, marker: string): string
    requires marker != ""
  {
    if FirstAt(raw, marker) < |raw| then raw[FirstAt(raw, marker) + |marker|..] else ""
  }

  function Shortened(raw: string, pid: string): seq<string> {
    [AfterPrefix(raw, "tmp/scan/"), AfterPrefix(raw, "repo/"), AfterFirst(raw, "tmp/scan/"), AfterFirst(raw, "repo/"),
     if pid == "" then "" else AfterPrefix(raw, pid + "/")]
  }

  function AddAll(candidates: seq<string>, more: seq<string>): seq<string>
    decreases |more|
  {
    if more == [] then candidates else AddAll(Adding(candidates, more[0]), more[1..])
  }

  /** The normalised path first, then the shorter forms it might stand for. */
  function Candidates(path: string, pid: string): seq<string> {
    AddAll([Normalize(path)], Shortened(Normalize(path), pid))
  }

  ghost predicate Matches(value: string, allowed: string) {
    EndsWith(value, "/" + allowed) || EndsWith(allowed, "/" + value)
  }

  ghost predicate MatchesSome(candidates: seq<string>, a: string) {
    exists i :: 0 <= i < |candidates| && Matches(candidates[i], a)
  }

  ghost function SuffixMatches(candidates: seq<string>, allowed: set<string>): set<string> {
    set a | a in allowed && MatchesSome(candidates, a)
  }

  /** The first candidate that is allowed. */
  function Exact(candidates: seq<string>, allowed: set<string>): Option<string> {
    if candidates == [] then None
    else if candidates[0] in allowed then Some(candidates[0]) else Exact(candidates[1..], allowed)
  }

  // ---------- resolving ----------

  method MatchingSuffixes(value: string, allowed: set<string>) returns (matches: set<string>)
    ensures matches == set a | a in allowed && Matches(value, a)
  {
    matches := {};
    var rest := allowed;
    while rest != {}
      invariant rest <= allowed && matches == set a | a in allowed - rest && Matches(value, a)
      decreases |rest|
    {
      var a :| a in rest;
      rest := rest - {a};
      if EndsWith(value, "/" + a) || EndsWith(a, "/" + value) { matches := matches + {a}; }
    }
  }

  /**
   * A candidate that is itself allowed wins, in the order of the candidates; otherwise the one allowed
   * path that matches a candidate by suffix, and nothing when there are several or none.
   */
  method Resolve(path: string, pid: string, allowed: set<string>) returns (r: Option<string>)
    ensures r == Resolved(path, pid, allowed)
    ensures Normalize(path) == "" ==> r == None
    ensures Normalize(path) != "" ==> ResolvesTo(Candidates(path, pid), allowed, r)
  {
    var raw := Normalize(path);
    if raw == "" { return None; }
    var candidates := Candidates(path, pid);
    for i := 0 to |candidates|
      invariant Exact(candidates, allowed) == Exact(candidates[i..], allowed)
    {
      if candidates[i] in allowed {
        ResolvesToOne(candidates, allowed, Some(candidates[i]), Resolved(path, pid, allowed));
        return Some(candidates[i]);
      }
      assert candidates[i..][1..] == candidates[i + 1..];
    }
    var matches: set<string> := {};
    for i := 0 to |candidates|
      invariant matches == SuffixMatches(candidates[..i], allowed)
    {
      var found := MatchingSuffixes(candidates[i], allowed);
      OneMoreCandidate(candidates, i, allowed);
      matches := matches + found;
    }
    assert candidates[..|candidates|] == candidates;
    if |matches| == 1 {
      var a :| a in matches;
      OnlyElement(matches, a);
      ResolvesToOne(candidates, allowed, Some(a), Resolved(path, pid, allowed));
      return Some(a);
    }
    ResolvesToOne(candidates, allowed, None, Resolved(path, pid, allowed));
    return None;
  }

  /** There is only one answer. */
  lemma ResolvesToOne(candidates: seq<string>, allowed: set<string>, r: Option<string>, q: Option<string>)
    requires ResolvesTo(candidates, allowed, r) && ResolvesTo(candidates, allowed, q)
    ensures r == q
  {
    if Exact(candidates, allowed) == None {
      var matches := SuffixMatches(candidates, allowed);
      if r.Some? && q.Some? { assert r.value in matches && q.value in matches; }
    }
  }

  ghost predicate ResolvesTo(candidates: seq<string>, allowed: set<string>, r: Option<string>) {
    match r
    case Some(p) =>
      || Exact(candidates, allowed) == Some(p)
      || (Exact(candidates, allowed) == None && SuffixMatches(candidates, allowed) == {p})
    case None =>
      Exact(candidates, allowed) == None && |SuffixMatches(candidates, allowed)| != 1
  }

  lemma OnlyElement<T>(s: set<T>, x: T)
    requires |s| == 1 && x in s
    ensures s == {x}
  {
    assert |s - {x}| == 0;
  }

  lemma OneMoreCandidate(candidates: seq<string>, i: nat, allowed: set<string>)
    requires i < |candidates|
    ensures SuffixMatches(candidates[..i + 1], allowed)
         == SuffixMatches(candidates[..i], allowed) + set a | a in allowed && Matches(candidates[i], a)
  {
    var before, after := candidates[..i], candidates[..i + 1];
    forall a | a in allowed ensures MatchesSome(after, a) <==> MatchesSome(before, a) || Matches(candidates[i], a) {
      if MatchesSome(before, a) {
        var j :| 0 <= j < |before| && Matches(before[j], a);
        assert after[j] == before[j];
      }
      if Matches(candidates[i], a) { assert after[i] == candidates[i]; }
      if MatchesSome(after, a) {
        var j :| 0 <= j < |after| && Matches(after[j], a);
        assert j < i ==> before[j] == after[j];
      }
    }
  }

  ghost function TheElement<T>(s: set<T>): (x: T)
    requires |s| == 1
    ensures s == {x}
  {
    var x :| x in s;
    OnlyElement(s, x);
    x
  }

  /** The path that `Resolve` finds. */
  ghost function Resolved(path: string, pid: string, allowed: set<string>): (r: Option<string>)
    ensures Normalize(path) == "" ==> r == None
    ensures Normalize(path) != "" ==> ResolvesTo(Candidates(path, pid), allowed, r)
  {
    if Normalize(path) == "" then None else
      var candidates := Candidates(path, pid);
      if Exact(candidates, allowed).Some? then Exact(candidates, allowed)
      else if |SuffixMatches(candidates, allowed)| == 1 then Some(TheElement(SuffixMatches(candidates, allowed)))
      else None
  }

  // ---------- what resolving guarantees ----------

  lemma {:induction false} ExactIsAllowed(candidates: seq<string>, allowed: set<string>)
    ensures Exact(candidates, allowed).Some? ==> Exact(candidates, allowed).value in allowed
    ensures Exact(candidates, allowed).Some? ==> Exact(candidates, allowed).value in candidates
    ensures Exact(candidates, allowed).Some? <==> exists c :: c in candidates && c in allowed
  {
    if candidates != [] { ExactIsAllowed(candidates[1..], allowed); }
  }

  /** Only an allowed path is ever returned, and an allowed path resolves to itself. */
  lemma ResolvedIsAllowed(path: string, pid: string, allowed: set<string>, r: Option<string>)
    requires ResolvesTo(Candidates(path, pid), allowed, r)
    ensures r.Some? ==> r.value in allowed
    ensures Normalize(path) in allowed ==> r == Some(Normalize(path))
  {
    var candidates := Candidates(path, pid);
    ExactIsAllowed(candidates, allowed);
    AddAllKeepsFirst([Normalize(path)], Shortened(Normalize(path), pid));
    if r.Some? && r.value !in candidates { assert r.value in SuffixMatches(candidates, allowed); }
  }

  lemma {:induction false} AddAllKeepsFirst(candidates: seq<string>, more: seq<string>)
    requires candidates != []
    ensures AddAll(candidates, more) != [] && AddAll(candidates, more)[0] == candidates[0]
    decreases |more|
  {
    if more != [] { AddAllKeepsFirst(Adding(candidates, more[0]), more[1..]); }
  }

  lemma {:induction false} AddAllKeeps(candidates: seq<string>, more: seq<string>, c: string)
    requires c in candidates
    ensures c in AddAll(candidates, more)
    decreases |more|
  {
    if more != [] { AddAllKeeps(Adding(candidates, more[0]), more[1..], c); }
  }

  lemma {:induction false} AddAllHas(candidates: seq<string>, more: seq<string>, c: string)
    requires c in more && Normalize(c) != ""
    ensures Normalize(c) in AddAll(candidates, more)
    decreases |more|
  {
    if c == more[0] {
      AddAllKeeps(Adding(candidates, c), more[1..], Normalize(c));
    } else {
      AddAllHas(Adding(candidates, more[0]), more[1..], c);
    }
  }

  /** A path written with one of the known prefixes in front of an allowed path always resolves. */
  lemma KnownPrefixesResolve(path: string, pid: string, allowed: set<string>, prefix: string, p: string, r: Option<string>)
    requires prefix == "tmp/scan/" || prefix == "repo/" || (pid != "" && prefix == pid + "/")
    requires Normalize(path) == prefix + p && p in allowed && p != "" && Normalize(p) == p
    requires ResolvesTo(Candidates(path, pid), allowed, r)
    ensures r.Some? && r.value in Candidates(path, pid)
  {
    var raw, candidates := Normalize(path), Candidates(path, pid);
    assert AfterPrefix(raw, prefix) == p;
    var k := if prefix == "tmp/scan/" then 0 else if prefix == "repo/" then 1 else 4;
    assert Shortened(raw, pid)[k] == p;
    AddAllHas([raw], Shortened(raw, pid), p);
    ExactIsAllowed(candidates, allowed);
  }

  // ---------- the file name is kept ----------

  /** The part after the last slash. */
  function Name(s: string): string {
    if s == "" then "" else if '/' in s[1..] then Name(s[1..]) else if s[0] == '/' then s[1..] else s
  }

  lemma {:induction false} NameAfterSlash(u: string, t: string)
    ensures Name(u + "/" + t) == Name(t)
  {
    var whole := u + "/" + t;
    if u == "" {
      assert whole[1..] == t;
      NameSlashFree(t);
    } else {
      NameAfterSlash(u[1..], t);
      assert whole[1..] == u[1..] + "/" + t;
      assert whole[1..][|u| - 1] == '/';
    }
  }

  lemma NameSlashFree(t: string)
    ensures '/' !in t ==> Name(t) == t
    ensures t != "" && t[0] == '/' && '/' !in t[1..] ==> Name(t) == t[1..]
  {
    if t != "" { assert t == [t[0]] + t[1..]; }
  }

  lemma NameIgnoresTheFront(s: string, i: nat)
    requires 0 < i <= |s| && s[i - 1] == '/'
    ensures Name(s) == Name(s[i..])
  {
    SlashAt(s, i);
    NameAfterSlash(s[..i - 1], s[i..]);
  }

  lemma SlashAt(s: string, i: nat)
    requires 0 < i <= |s| && s[i - 1] == '/'
    ensures s == s[..i - 1] + "/" + s[i..]
  {
  }

  lemma SuffixHasTheSameName(long: string, short: string)
    requires EndsWith(long, "/" + short)
    ensures Name(long) == Name(short)
  {
    var i := |long| - |short|;
    assert long[i - 1..][0] == '/' && long[i..] == long[i - 1..][1..];
    NameIgnoresTheFront(long, i);
  }

  lemma {:induction false} NameOfJoin(parts: seq<string>)
    requires parts != [] && forall p :: p in parts ==> '/' !in p
    ensures Name(Join(parts, '/')) == parts[|parts| - 1]
  {
    if |parts| == 1 {
      NameSlashFree(parts[0]);
    } else {
      NameOfJoin(parts[1..]);
      NameAfterSlash(parts[0], Join(parts[1..], '/'));
    }
  }

  lemma {:induction false} LastPartIsTheName(s: string)
    ensures Split(s, '/')[|Split(s, '/')| - 1] == Name(s)
  {
    if s != "" {
      LastPartIsTheName(s[1..]);
      if '/' !in s[1..] {
        SplitSeparatorFree(s[1..], '/');
        NameSlashFree(s[1..]);
        assert s == [s[0]] + s[1..];
      } else {
        NoSlashNoSplit(s[1..]);
      }
    }
  }

  lemma {:induction false} NoSlashNoSplit(s: string)
    requires '/' in s
    ensures |Split(s, '/')| > 1
  {
    if s[0] != '/' { NoSlashNoSplit(s[1..]); }
  }

  lemma {:induction false} ProperKeepsLast(parts: seq<string>)
    requires parts != [] && parts[|parts| - 1] != "" && parts[|parts| - 1] != "."
    ensures Proper(parts) != [] && Proper(parts)[|Proper(parts)| - 1] == parts[|parts| - 1]
  {
    if |parts| > 1 { ProperKeepsLast(parts[1..]); }
  }

  lemma {:induction false} DropsKeepName(s: string)
    requires Name(s) != "" && Name(s) != "."
    ensures Name(DropDotSlash(s)) == Name(s) && Name(DropSlashes(s)) == Name(s)
    decreases |s|
  {
    if StartsWith(s, "./") { NameIgnoresTheFront(s, 2); DropsKeepName(s[2..]); }
    if s != "" && s[0] == '/' { NameIgnoresTheFront(s, 1); DropsKeepName(s[1..]); }
  }

  lemma {:induction false} StripKeepsName(s: string)
    requires Name(s) != "" && Strip(Name(s)) == Name(s)
    ensures Name(Strip(s)) == Name(s)
  {
    StripEnds(Name(s));
    NameHasTheLastChar(s);
    LStripKeepsName(s);
    LStripKeepsLast(s);
  }

  lemma {:induction false} StripEnds(n: string)
    requires n != "" && Strip(n) == n
    ensures !IsSpace(n[0]) && !IsSpace(n[|n| - 1])
  {
    LStripShortens(n);
    RStripShortens(LStrip(n));
  }

  lemma {:induction false} LStripShortens(s: string)
    ensures |LStrip(s)| <= |s| && (s != "" && IsSpace(s[0]) ==> |LStrip(s)| < |s|)
  {
    if s != "" { LStripShortens(s[1..]); }
  }

  lemma {:induction false} RStripShortens(s: string)
    ensures |RStrip(s)| <= |s| && (s != "" && IsSpace(s[|s| - 1]) ==> |RStrip(s)| < |s|)
  {
    if s != "" { RStripShortens(s[..|s| - 1]); }
  }

  lemma {:induction false} NameHasTheLastChar(s: string)
    requires Name(s) != ""
    ensures s != "" && s[|s| - 1] == Name(s)[|Name(s)| - 1]
  {
    if '/' in s[1..] { NameHasTheLastChar(s[1..]); }
  }

  lemma {:induction false} LStripKeepsName(s: string)
    requires Name(s) != "" && !IsSpace(Name(s)[0])
    ensures Name(LStrip(s)) == Name(s)
  {
    if s != "" && IsSpace(s[0]) {
      if '/' in s[1..] {
        LStripKeepsName(s[1..]);
      } else {
        NameSlashFree(s);
      }
    }
  }

  lemma {:induction false} LStripKeepsLast(s: string)
    requires s != "" && !IsSpace(s[|s| - 1])
    ensures LStrip(s) != "" && LStrip(s)[|LStrip(s)| - 1] == s[|s| - 1]
    ensures Strip(s) == LStrip(s)
  {
    if IsSpace(s[0]) { LStripKeepsLast(s[1..]); }
  }

  /** Cutting a normalised path after a slash and normalising again keeps a file name without outer blanks. */
  lemma CoreKeepsName(t: string)
    requires '\\' !in t
    requires var n := Name(t); n != "" && n != "." && Strip(n) == n
    ensures Name(DropSlashes(DropDotSlash(Replace(Strip(t), '\\', '/')))) == Name(t)
  {
    var s := Strip(t);
    StripKeepsName(t);
    StripKeepsFree(t, '\\');
    ReplaceNothing(s, '\\', '/');
    DropsKeepName(s);
    DropsKeepName(DropDotSlash(s));
  }

  lemma JoinKeepsName(core: string, n: string)
    requires Name(core) == n != "" && n != "."
    ensures var joined := Join(Proper(Split(core, '/')), '/'); joined != "" && Name(joined) == n
  {
    var parts := Split(core, '/');
    LastPartIsTheName(core);
    ProperKeepsLast(parts);
    ProperParts(parts);
    SplitPartsHaveNoSeparator(core, '/');
    NameOfJoin(Proper(parts));
    NameOfEmpty();
  }

  lemma NameOfEmpty()
    ensures Name("") == ""
  {
  }

  lemma NormalizeKeepsName(t: string)
    requires '\\' !in t
    requires var n := Name(t); n != "" && n != "." && Strip(n) == n
    ensures Normalize(t) != "" && Name(Normalize(t)) == Name(t)
  {
    CoreKeepsName(t);
    JoinKeepsName(DropSlashes(DropDotSlash(Replace(Strip(t), '\\', '/'))), Name(t));
  }

  lemma {:induction false} StripKeepsFree(s: string, c: char)
    requires c !in s
    ensures c !in Strip(s)
  {
    LStripKeepsFree(s, c);
    RStripKeepsFree(LStrip(s), c);
  }

  lemma {:induction false} LStripKeepsFree(s: string, c: char)
    requires c !in s
    ensures c !in LStrip(s)
  {
    if s != "" { LStripKeepsFree(s[1..], c); }
  }

  lemma {:induction false} RStripKeepsFree(s: string, c: char)
    requires c !in s
    ensures c !in RStrip(s)
  {
    if s != "" { RStripKeepsFree(s[..|s| - 1], c); }
  }

  /** A normalised path, cut after one of its slashes. */
  predicate CutOf(raw: string, t: string) {
    t == "" || exists i :: 0 < i <= |raw| && raw[i - 1] == '/' && t == raw[i..]
  }

  ghost predicate AllNamed(candidates: seq<string>, name: string) {
    forall c :: c in candidates ==> Name(c) == name
  }

  lemma AddingKeepsName(candidates: seq<string>, raw: string, t: string)
    requires AllNamed(candidates, Name(raw)) && '\\' !in raw && CutOf(raw, t)
    requires var n := Name(raw); n != "" && n != "." && Strip(n) == n
    ensures AllNamed(Adding(candidates, t), Name(raw))
  {
    if t != "" {
      var i :| 0 < i <= |raw| && raw[i - 1] == '/' && t == raw[i..];
      NameIgnoresTheFront(raw, i);
      NormalizeKeepsName(t);
    }
  }

  lemma {:induction false} AddAllKeepsName(candidates: seq<string>, raw: string, more: seq<string>)
    requires AllNamed(candidates, Name(raw)) && '\\' !in raw && forall t :: t in more ==> CutOf(raw, t)
    requires var n := Name(raw); n != "" && n != "." && Strip(n) == n
    ensures AllNamed(AddAll(candidates, more), Name(raw))
    decreases |more|
  {
    if more != [] {
      AddingKeepsName(candidates, raw, more[0]);
      AddAllKeepsName(Adding(candidates, more[0]), raw, more[1..]);
    }
  }

  lemma PrefixesAreCuts(raw: string, pid: string)
    ensures CutOf(raw, Shortened(raw, pid)[0]) && CutOf(raw, Shortened(raw, pid)[1])
  {
    PrefixIsACut(raw, "tmp/scan/");
    PrefixIsACut(raw, "repo/");
  }

  lemma PrefixIsACut(raw: string, prefix: string)
    requires prefix != "" && prefix[|prefix| - 1] == '/'
    ensures CutOf(raw, AfterPrefix(raw, prefix))
  {
    if StartsWith(raw, prefix) { assert raw[|prefix| - 1] == '/'; }
  }

  lemma MarkersAreCuts(raw: string, pid: string)
    ensures CutOf(raw, Shortened(raw, pid)[2]) && CutOf(raw, Shortened(raw, pid)[3])
  {
    FirstIsACut(raw, "tmp/scan/");
    FirstIsACut(raw, "repo/");
  }

  lemma FirstIsACut(raw: string, marker: string)
    requires marker != "" && marker[|marker| - 1] == '/'
    ensures CutOf(raw, AfterFirst(raw, marker))
  {
    var i := FirstAt(raw, marker);
    if i < |raw| {
      assert raw[i..][|marker| - 1] == '/';
      assert raw[i + |marker| - 1] == '/';
    }
  }

  lemma ShortenedAreCuts(raw: string, pid: string)
    ensures forall t :: t in Shortened(raw, pid) ==> CutOf(raw, t)
  {
    PrefixesAreCuts(raw, pid);
    MarkersAreCuts(raw, pid);
    var all := Shortened(raw, pid);
    forall t | t in all ensures CutOf(raw, t) {
      var k :| 0 <= k < 5 && all[k] == t;
    }
  }

  lemma NormalizedName(path: string)
    requires Normalize(path) != ""
    ensures '\\' !in Normalize(path) && Name(Normalize(path)) != "" && Name(Normalize(path)) != "."
  {
    var parts := Segments(path);
    SegmentsAreClean(path);
    JoinKeepsFree(parts, '/', '\\');
    NameOfJoin(parts);
    assert parts[|parts| - 1] in parts;
  }

  /** An edit is never redirected to a file of another name: only the directories in front may differ. */
  lemma ResolvingKeepsTheFileName(path: string, pid: string, allowed: set<string>, r: Option<string>)
    requires Normalize(path) != "" && ResolvesTo(Candidates(path, pid), allowed, r) && r.Some?
    requires Strip(Name(Normalize(path))) == Name(Normalize(path))
    ensures Name(r.value) == Name(Normalize(path))
  {
    var raw := Normalize(path);
    var candidates := Candidates(path, pid);
    NormalizedName(path);
    ShortenedAreCuts(raw, pid);
    AddAllKeepsName([raw], raw, Shortened(raw, pid));
    ExactIsAllowed(candidates, allowed);
    if r.value !in candidates {
      assert r.value in SuffixMatches(candidates, allowed);
      var i :| 0 <= i < |candidates| && Matches(candidates[i], r.value);
      if EndsWith(candidates[i], "/" + r.value) {
        SuffixHasTheSameName(candidates[i], r.value);
      } else {
        SuffixHasTheSameName(r.value, candidates[i]);
      }
    }
  }

  // ---------- where the file name is lost ----------

  predicate Ordinary(part: string) { part != "" && part != "." && '/' !in part && '\\' !in part }

  lemma NormalizeOrdinary(part: string)
    requires Ordinary(Strip(part))
    requires !StartsWith(Strip(part), "./")
    ensures Normalize(part) == Strip(part)
  {
    var s := Strip(part);
    ReplaceNothing(s, '\\', '/');
    SplitSeparatorFree(s, '/');
    assert s[0] in s;
    assert Proper([s]) == [s] + Proper([]);
  }

  lemma NormalizePair(a: string, b: string)
    requires Ordinary(a) && Ordinary(b) && !IsSpace(a[0]) && !IsSpace(b[|b| - 1])
    ensures Normalize(a + "/" + b) == a + "/" + b
  {
    var s := a + "/" + b;
    assert s[0] == a[0] && s[|s| - 1] == b[|b| - 1];
    StripNothing(s);
    ReplaceNothing(s, '\\', '/');
    assert a[0] in a && s[|a|] == '/' && (|a| > 1 ==> s[1] == a[1] && a[1] in a);
    assert s == a + ['/'] + b;
    SplitAtSeparator(a, b, '/');
    SplitSeparatorFree(b, '/');
    assert Split(s, '/') == [a, b];
    ProperOfTwo(a, b);
    assert Join([a, b], '/') == a + ['/'] + Join([a, b][1..], '/');
  }

  lemma ProperOfTwo(a: string, b: string)
    requires Ordinary(a) && Ordinary(b)
    ensures Proper([a, b]) == [a, b]
  {
    assert [a, b][1..] == [b] && [b][1..] == [];
    assert Proper([b]) == [b] + Proper([]);
    assert Proper([a, b]) == [a] + Proper([b]);
  }

  lemma ShortenedNameResolves(path: string, name: string, short: string)
    requires Normalize(path) == path == "repo/" + name && Normalize(name) == short != ""
    ensures Resolved(path, "", {short}) == Some(short)
  {
    var more, r := Shortened(path, ""), Resolved(path, "", {short});
    assert more[1] == AfterPrefix(path, "repo/") == name;
    AddAllHas([path], more, name);
    ExactIsAllowed(Candidates(path, ""), {short});
    ResolvedIsAllowed(path, "", {short}, r);
  }

  /** A name with a blank in front: the path resolves to a file of another name. */
  lemma BlankIsLostInFrontOfAName(path: string, name: string)
    requires path == "repo/ x" && name == " x"
    ensures Resolved(path, "", {"x"}) == Some("x") && Name(path) == name
  {
    BlankNormalizes(path, name);
    ShortenedNameResolves(path, name, "x");
    NameAfterSlash("repo", name);
    NameOfPlain(name);
  }

  lemma BlankNormalizes(path: string, name: string)
    requires path == "repo/ x" && name == " x"
    ensures Normalize(path) == path == "repo" + "/" + name && Normalize(name) == "x"
  {
    assert path == "repo" + "/" + name;
    NormalizePair("repo", name);
    BlankIsStripped(name);
    NormalizeOrdinary(name);
  }

  lemma BlankIsStripped(name: string)
    requires name == " x"
    ensures Strip(name) == "x" && Ordinary("x")
  {
    assert name[1..] == "x";
    assert LStrip("x") == "x";
  }

  lemma {:induction false} NameOfPlain(s: string)
    requires '/' !in s
    ensures Name(s) == s
  {
  }
}
