/** Normalised paths and suffix matches, said segment by segment. */
module PathSegments {
  import opened Text
  import opened RepoPaths

  /** One more character in front of a text with these segments. */
  function InFront(c: char, segments: seq<string>, sep: char): seq<string>
    requires segments != []
  {
    if c == sep then [""] + segments else [[c] + segments[0]] + segments[1..]
  }

  lemma SplitOneMore(s: string, sep: char)
    requires s != ""
    ensures Split(s, sep) == InFront(s[0], Split(s[1..], sep), sep)
  {
  }

  lemma InFrontOfTwo(c: char, a: seq<string>, b: seq<string>, sep: char)
    requires a != []
    ensures InFront(c, a + b, sep) == InFront(c, a, sep) + b
  {
    assert (a + b)[1..] == a[1..] + b;
  }

  lemma {:induction false} SplitOfTwo(a: string, b: string, sep: char)
    ensures Split(a + [sep] + b, sep) == Split(a, sep) + Split(b, sep)
  {
    var whole := a + [sep] + b;
    SplitOneMore(whole, sep);
    if a == "" {
      assert whole[1..] == b;
    } else {
      SplitOfTwo(a[1..], b, sep);
      assert whole[1..] == a[1..] + [sep] + b;
      SplitOneMore(a, sep);
      InFrontOfTwo(a[0], Split(a[1..], sep), Split(b, sep), sep);
    }
  }

  lemma {:induction false} JoinOfSplit(s: string, sep: char)
    ensures Join(Split(s, sep), sep) == s
  {
    if s != "" {
      JoinOfSplit(s[1..], sep);
      var rest := Split(s[1..], sep);
      if s[0] == sep {
        assert ([""] + rest)[1..] == rest && s == "" + [sep] + s[1..];
      } else {
        var first := [s[0]] + rest[0];
        assert ([first] + rest[1..])[1..] == rest[1..];
        assert s == [s[0]] + s[1..];
      }
    }
  }

  lemma {:induction false} JoinOfTwo(a: seq<string>, b: seq<string>, sep: char)
    requires a != [] && b != []
    ensures Join(a + b, sep) == Join(a, sep) + [sep] + Join(b, sep)
  {
    if |a| == 1 {
      assert (a + b)[1..] == b;
    } else {
      JoinOfTwo(a[1..], b, sep);
      assert (a + b)[1..] == a[1..] + b;
    }
  }

  /** `long` has the segments of `short` at its end, and some before them. */
  ghost predicate EndsWithSegments(long: string, short: string) {
    exists front: seq<string> :: front != [] && Split(long, '/') == front + Split(short, '/')
  }

  lemma SuffixGivesSegments(long: string, short: string)
    requires EndsWith(long, "/" + short)
    ensures EndsWithSegments(long, short)
  {
    var front := long[..|long| - |short| - 1];
    assert long == front + ['/'] + short;
    SplitOfTwo(front, short, '/');
  }

  lemma EndsWithIts(front: string, back: string)
    ensures EndsWith(front + ['/'] + back, "/" + back)
  {
    var tail := "/" + back;
    assert front + ['/'] + back == front + tail;
    assert (front + tail)[|front|..] == tail;
  }

  lemma SegmentsGiveSuffix(long: string, short: string)
    requires EndsWithSegments(long, short)
    ensures EndsWith(long, "/" + short)
  {
    var front: seq<string> :| front != [] && Split(long, '/') == front + Split(short, '/');
    JoinOfTwo(front, Split(short, '/'), '/');
    JoinOfSplit(long, '/');
    JoinOfSplit(short, '/');
    EndsWithIts(Join(front, '/'), short);
  }

  lemma SuffixIffSegments(long: string, short: string)
    ensures EndsWith(long, "/" + short) <==> EndsWithSegments(long, short)
  {
    if EndsWith(long, "/" + short) { SuffixGivesSegments(long, short); }
    if EndsWithSegments(long, short) { SegmentsGiveSuffix(long, short); }
  }

  /** Two paths match when the segments of one are the last segments of the other, which is longer; either way round. */
  lemma MatchesIff(value: string, allowed: string)
    ensures Matches(value, allowed) <==> EndsWithSegments(value, allowed) || EndsWithSegments(allowed, value)
  {
    SuffixIffSegments(value, allowed);
    SuffixIffSegments(allowed, value);
  }

  // ---------- normalising ----------

  predicate IsProper(segment: string) { segment != "" && segment != "." }

  /** The segments that are neither empty nor a dot, in order. */
  function Kept(segments: seq<string>): seq<string> {
    if segments == [] then [] else
      Kept(segments[..|segments| - 1]) + if IsProper(segments[|segments| - 1]) then [segments[|segments| - 1]] else []
  }

  lemma {:induction false} KeptOfTwo(a: seq<string>, b: seq<string>)
    ensures Kept(a + b) == Kept(a) + Kept(b)
  {
    if b == [] {
      assert a + b == a;
    } else {
      KeptOfTwo(a, b[..|b| - 1]);
      assert (a + b)[..|a + b| - 1] == a + b[..|b| - 1];
    }
  }

  lemma {:induction false} ProperIsKept(segments: seq<string>)
    ensures Proper(segments) == Kept(segments)
  {
    if segments != [] {
      ProperIsKept(segments[1..]);
      KeptOfTwo([segments[0]], segments[1..]);
      assert [segments[0]] + segments[1..] == segments;
      assert [segments[0]][..0] == [];
    }
  }

  lemma DroppingOne(front: string, rest: string)
    requires '/' !in front && !IsProper(front)
    ensures Kept(Split(front + ['/'] + rest, '/')) == Kept(Split(rest, '/'))
  {
    SplitAtSeparator(front, rest, '/');
    KeptOfTwo([front], Split(rest, '/'));
    assert [front][..0] == [];
  }

  lemma LeadingDotSlash(s: string)
    requires StartsWith(s, "./")
    ensures Kept(Split(s, '/')) == Kept(Split(s[2..], '/'))
  {
    DroppingOne(".", s[2..]);
    assert s == "." + ['/'] + s[2..];
  }

  lemma LeadingSlash(s: string)
    requires s != "" && s[0] == '/'
    ensures Kept(Split(s, '/')) == Kept(Split(s[1..], '/'))
  {
    DroppingOne("", s[1..]);
    assert s == "" + ['/'] + s[1..];
  }

  lemma {:induction false} DotSlashesDoNotCount(s: string)
    ensures Kept(Split(DropDotSlash(s), '/')) == Kept(Split(s, '/'))
    decreases |s|
  {
    if StartsWith(s, "./") {
      LeadingDotSlash(s);
      DotSlashesDoNotCount(s[2..]);
    }
  }

  lemma {:induction false} SlashesDoNotCount(s: string)
    ensures Kept(Split(DropSlashes(s), '/')) == Kept(Split(s, '/'))
  {
    if s != "" && s[0] == '/' {
      LeadingSlash(s);
      SlashesDoNotCount(s[1..]);
    }
  }

  /**
   * A normalised path is what its trimmed text names between slashes of either kind, without empty segments and
   * dots; it is empty exactly when nothing is left.
   */
  lemma NormalizeKeepsTheSegments(path: string)
    ensures var kept := Kept(Split(Replace(Strip(path), '\\', '/'), '/'));
      if kept == [] then Normalize(path) == "" else Split(Normalize(path), '/') == kept
  {
    var s := Replace(Strip(path), '\\', '/');
    DotSlashesDoNotCount(s);
    SlashesDoNotCount(DropDotSlash(s));
    ProperIsKept(Split(DropSlashes(DropDotSlash(s)), '/'));
    SegmentsAreClean(path);
    if Segments(path) != [] { SplitOfJoin(Segments(path), '/'); }
  }
}
