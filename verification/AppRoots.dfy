/** Where an accepted application root leads, seen from the repository. */
module AppRoots {
  import opened Text
  import opened Wrappers
  import opened ManifestValidation

  function Segments(root: string): (parts: seq<string>)
    ensures |parts| > 0
  {
    Split(root, '/')
  }

  /** How deep below the repository the segments lead; below zero is outside. */
  function Level(parts: seq<string>): int {
    if parts == [] then 0 else
      var last := parts[|parts| - 1];
      Level(parts[..|parts| - 1]) + if last == ".." then -1 else if last == "" || last == "." then 0 else 1
  }

  ghost predicate Leaves(root: string) { exists k :: 0 <= k <= |Segments(root)| && Level(Segments(root)[..k]) < 0 }

  predicate EndsClimbing(root: string) { root == ".." || EndsWith(root, "/..") }

  /** Nothing before the last segment leads anywhere. */
  predicate StaysUntilTheLast(root: string) {
    var parts := Segments(root);
    forall i :: 0 <= i < |parts| - 1 ==> parts[i] == "" || parts[i] == "."
  }

  // ---------- segments ----------

  lemma {:induction false} SegmentsOfConcat(a: string, b: string)
    ensures Segments(a + "/" + b) == Segments(a) + Segments(b)
  {
    var s := a + "/" + b;
    if a == "" {
      assert s[1..] == b;
    } else {
      assert s[1..] == a[1..] + "/" + b;
      SegmentsOfConcat(a[1..], b);
    }
  }

  lemma ContainsAfter(s: string, n: nat, part: string)
    requires n <= |s| && Contains(s[n..], part)
    ensures Contains(s, part)
  {
    var t := s[n..];
    var i :| 0 <= i <= |t| && StartsWith(t[i..], part);
    assert s[n + i..] == t[i..];
  }

  lemma ClimbsFurtherOn(s: string, n: nat)
    requires 0 < n <= |s| && s[n - 1] == '/'
    ensures EndsClimbing(s[n..]) ==> EndsClimbing(s)
    ensures StartsWith(s[n..], "../") || Contains(s[n..], "/../") ==> Contains(s, "/../")
  {
    var rest, inner := s[n..], s[n - 1..];
    assert inner == "/" + rest;
    if rest == ".." { assert s[|s| - 3..] == inner; }
    if EndsWith(rest, "/..") { assert rest[|rest| - 3..] == s[|s| - 3..]; }
    if StartsWith(rest, "../") { assert StartsWith(inner, "/../"); }
    if Contains(rest, "/../") { ContainsAfter(s, n, "/../"); }
  }

  /** A `..` segment stands in front, at the end, or between two slashes. */
  lemma {:induction false} ClimbingSegment(s: string, i: nat)
    requires i < |Segments(s)| && Segments(s)[i] == ".."
    ensures i == |Segments(s)| - 1 ==> EndsClimbing(s)
    ensures i < |Segments(s)| - 1 ==> StartsWith(s, "../") || Contains(s, "/../")
    decreases i
  {
    var p := Segments(s);
    FirstPart(s, '/');
    if i > 0 {
      ClimbingSegment(s[|p[0]| + 1..], i - 1);
      ClimbsFurtherOn(s, |p[0]| + 1);
    }
  }

  lemma EndsClimbingAt(root: string)
    requires EndsClimbing(root)
    ensures Segments(root)[|Segments(root)| - 1] == ".."
  {
    SplitSeparatorFree("..", '/');
    if root != ".." {
      var a := root[..|root| - 3];
      assert root == a + "/" + "..";
      SegmentsOfConcat(a, "..");
    }
  }

  // ---------- accepted roots ----------

  /** An accepted root climbs exactly when it is `..` or ends in it. */
  lemma AcceptedRootClimbs(lib: Library, v: Value)
    ensures var root := NormaliseAppRoot(lib, v);
      root.Some? ==> (".." in Segments(root.value) <==> EndsClimbing(root.value))
  {
    RootIsFit(lib, v);
    var root := NormaliseAppRoot(lib, v);
    if root.Some? {
      if ".." in Segments(root.value) { OnlyTheLastClimbs(root.value); }
      if EndsClimbing(root.value) { EndsClimbingAt(root.value); }
    }
  }

  lemma OnlyTheLastClimbs(root: string)
    requires RootFits(root)
    ensures forall i :: 0 <= i < |Segments(root)| - 1 ==> Segments(root)[i] != ".."
    ensures ".." in Segments(root) ==> EndsClimbing(root)
  {
    var parts := Segments(root);
    if root == "." {
      SplitSeparatorFree(".", '/');
    } else {
      forall i | 0 <= i < |parts| && parts[i] == ".." ensures i == |parts| - 1 && EndsClimbing(root) {
        ClimbingSegment(root, i);
      }
    }
  }

  lemma {:induction false} LevelWithoutClimbing(parts: seq<string>)
    requires forall i :: 0 <= i < |parts| ==> parts[i] != ".."
    ensures Level(parts) >= 0
    ensures Level(parts) == 0 <==> forall i :: 0 <= i < |parts| ==> parts[i] == "" || parts[i] == "."
  {
    if parts != [] {
      LevelWithoutClimbing(parts[..|parts| - 1]);
    }
  }

  /** An accepted root leads out of the repository exactly when it ends in `..` and nothing before that leads down. */
  lemma AcceptedRootLeaves(lib: Library, v: Value)
    ensures var root := NormaliseAppRoot(lib, v);
      root.Some? ==> (Leaves(root.value) <==> EndsClimbing(root.value) && StaysUntilTheLast(root.value))
  {
    RootIsFit(lib, v);
    var root := NormaliseAppRoot(lib, v);
    if root.Some? { FittingRootLeaves(root.value); }
  }

  lemma FittingRootLeaves(root: string)
    requires RootFits(root)
    ensures Leaves(root) <==> EndsClimbing(root) && StaysUntilTheLast(root)
  {
    var parts := Segments(root);
    var n := |parts| - 1;
    OnlyTheLastClimbs(root);
    OnlyTheEndCanLeave(parts);
    if EndsClimbing(root) { EndsClimbingAt(root); } else { assert parts[n] in parts; }
  }

  lemma OnlyTheEndCanLeave(parts: seq<string>)
    requires parts != [] && forall i :: 0 <= i < |parts| - 1 ==> parts[i] != ".."
    ensures (exists k :: 0 <= k <= |parts| && Level(parts[..k]) < 0)
       <==> parts[|parts| - 1] == ".." && forall i :: 0 <= i < |parts| - 1 ==> parts[i] == "" || parts[i] == "."
  {
    var n := |parts| - 1;
    LevelWithoutClimbing(parts[..n]);
    forall k | 0 <= k <= n ensures Level(parts[..k]) >= 0 { LevelWithoutClimbing(parts[..k]); }
    assert parts[..|parts|] == parts;
    LevelOneMore(parts, n);
    if Level(parts) < 0 { assert Level(parts[..n + 1]) < 0; }
  }

  lemma LevelOneMore(parts: seq<string>, n: nat)
    requires n == |parts| - 1
    ensures Level(parts)
         == Level(parts[..n]) + if parts[n] == ".." then -1 else if parts[n] == "" || parts[n] == "." then 0 else 1
  {
  }

  /** The parent of the repository is accepted as a root in it. */
  lemma ParentIsAccepted(lib: Library)
    ensures NormaliseAppRoot(lib, Text("..")) == Some("..") && Leaves("..")
  {
    StripNothing("..");
    ReplaceNothing("..", '\\', '/');
    SplitSeparatorFree("..", '/');
    assert [".."][..1] == [".."] && [".."][..0] == [];
    assert Level([".."]) == -1;
    assert Leaves("..") by { assert Level(Segments("..")[..1]) < 0; }
    assert !StartsWith("..", "../");
    assert !Contains("..", "/../");
  }
}
