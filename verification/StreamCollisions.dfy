/** When two repositories share a fingerprint because of NUL characters in a file. */
module StreamCollisions {
  import opened Text
  import opened Ordering
  import opened ManifestCache
  import L = Lists

  // ---------- a listing is known by its entries ----------

  function PathsOf(entries: seq<FileEntry>): (paths: seq<string>)
    ensures |paths| == |entries| && forall i :: 0 <= i < |paths| ==> paths[i] == entries[i].path
  {
    seq(|entries|, i requires 0 <= i < |entries| => entries[i].path)
  }

  /** Strictly increasing in the order of strings. */
  ghost predicate Ascending(paths: seq<string>) { L.Distinct(paths) && Sorted(paths, StrLe) }

  lemma {:induction false} PresentIsDistinct(names: seq<string>, tree: Tree)
    ensures L.Distinct(Present(names, tree))
  {
    if names != [] {
      PresentIsDistinct(names[..|names| - 1], tree);
      L.DistinctOneMore(Present(names[..|names| - 1], tree), names[|names| - 1]);
    }
  }

  lemma {:induction false} DistinctCounts(s: seq<string>, x: string)
    requires L.Distinct(s)
    ensures multiset(s)[x] == if x in s then 1 else 0
  {
    if s != [] {
      var before, last := s[..|s| - 1], s[|s| - 1];
      assert s == before + [last];
      L.DistinctOneMore(before, last);
      DistinctCounts(before, x);
    }
  }

  lemma SameMembersPermute(a: seq<string>, b: seq<string>)
    requires L.Distinct(a) && L.Distinct(b) && forall x :: x in a <==> x in b
    ensures multiset(a) == multiset(b)
  {
    forall x ensures multiset(a)[x] == multiset(b)[x] {
      DistinctCounts(a, x);
      DistinctCounts(b, x);
    }
  }

  lemma StringOrder()
    ensures TotalPreorder(StrLe)
  {
    forall x, y ensures StrLe(x, y) || StrLe(y, x) { StrLeTotal(x, y); }
    forall x, y, z | StrLe(x, y) && StrLe(y, z) ensures StrLe(x, z) { StrLeTransitive(x, y, z); }
  }

  lemma ListedPathsAscend(names: seq<string>, tree: Tree)
    ensures PathsOf(Listing(names, tree)) == Sort(Present(names, tree), StrLe)
    ensures Ascending(PathsOf(Listing(names, tree)))
    ensures forall n :: n in PathsOf(Listing(names, tree)) <==> n in names && n in tree
  {
    var present := Present(names, tree);
    StringOrder();
    SortSorts(present, StrLe);
    SortPermutes(present, StrLe);
    SortKeepsElements(present);
    PresentNames(names, tree);
    PresentIsDistinct(names, tree);
    PermutedStaysDistinct(present, Sort(present, StrLe));
    EntriesMatch(Sort(present, StrLe), tree);
  }

  lemma PermutedStaysDistinct(a: seq<string>, b: seq<string>)
    requires L.Distinct(a) && multiset(a) == multiset(b)
    ensures L.Distinct(b)
  {
    forall i, j | 0 <= i < j < |b| ensures b[i] != b[j] {
      DistinctCounts(a, b[i]);
      if b[i] == b[j] { TwicePlacedCountsTwice(b, i, j); }
    }
  }

  lemma TwicePlacedCountsTwice(s: seq<string>, i: nat, j: nat)
    requires i < j < |s| && s[i] == s[j]
    ensures multiset(s)[s[i]] >= 2
  {
    assert s == s[..j] + [s[j]] + s[j + 1..];
    assert s[..j][i] == s[j];
  }

  /** Ascending entries that are exactly the tree's files of these names are its listing. */
  lemma ListingIs(names: seq<string>, tree: Tree, entries: seq<FileEntry>)
    requires Ascending(PathsOf(entries))
    requires forall n :: n in PathsOf(entries) <==> n in names && n in tree
    requires forall e :: e in entries ==> e.path in tree && tree[e.path] == e.content
    ensures Listing(names, tree) == entries
  {
    var paths, listed := PathsOf(entries), PathsOf(Listing(names, tree));
    ListedPathsAscend(names, tree);
    SameMembersPermute(paths, listed);
    StringOrder();
    forall x, y | StrLe(x, y) && StrLe(y, x) ensures x == y { StrLeAntisymmetric(x, y); }
    SortedUnique(paths, listed, StrLe);
    EntriesMatch(paths, tree);
    forall i | 0 <= i < |entries| ensures Listing(names, tree)[i] == entries[i] { assert entries[i] in entries; }
  }

  // ---------- the fields of a stream ----------

  /** The NUL-ended fields of a text. */
  function Fields(s: string): seq<string> { var parts := Split(s, '\0'); parts[..|parts| - 1] }

  predicate Ended(s: string) { s == "" || s[|s| - 1] == '\0' }

  function Paired(fields: seq<string>): seq<FileEntry> {
    if |fields| < 2 then [] else [FileEntry(fields[0], fields[1])] + Paired(fields[2..])
  }

  lemma FirstField(s: string) returns (field: string, rest: string)
    requires s != "" && Ended(s)
    ensures s == field + NUL + rest && NulFree(field) && Ended(rest) && Fields(s) == [field] + Fields(rest)
  {
    var parts := Split(s, '\0');
    SplitPartsHaveNoSeparator(s, '\0');
    FirstPart(s, '\0');
    assert s[|s| - 1] in s;
    field, rest := parts[0], s[|parts[0]| + 1..];
    assert field in parts;
    assert s == field + NUL + rest;
    assert rest == "" || rest[|rest| - 1] == s[|s| - 1];
    assert Split(rest, '\0') == parts[1..];
  }

  /** A text of an even number of fields encodes the entries they make. */
  lemma {:induction false} EncodeOfPaired(s: string)
    requires Ended(s) && |Fields(s)| % 2 == 0
    ensures Encode(Paired(Fields(s))) == s && NulFreeEntries(Paired(Fields(s)))
    decreases |s|
  {
    if s == "" {
      assert Fields(s) == [];
    } else {
      var path, rest := FirstField(s);
      assert Fields("") == [];
      assert rest != "";
      var content, more := FirstField(rest);
      assert Fields(s) == [path, content] + Fields(more);
      EncodeOfPaired(more);
      PairedMore(path, content, Fields(more));
      EncodeMore(path, content, Paired(Fields(more)));
      assert s == path + NUL + (content + NUL + more);
    }
  }

  lemma PairedMore(path: string, content: string, fields: seq<string>)
    ensures Paired([path, content] + fields) == [FileEntry(path, content)] + Paired(fields)
  {
    assert ([path, content] + fields)[2..] == fields;
  }

  lemma EncodeMore(path: string, content: string, entries: seq<FileEntry>)
    ensures Encode([FileEntry(path, content)] + entries) == path + NUL + (content + NUL + Encode(entries))
  {
    var all := [FileEntry(path, content)] + entries;
    assert all[1..] == entries;
    EncodeShape(all);
  }

  lemma EndsInNul(a: string, b: string)
    requires Ended(b)
    ensures Ended(a + NUL + b)
  {
    var s := a + NUL + b;
    if b == "" { assert s[|s| - 1] == '\0'; } else { assert s[|s| - 1] == b[|b| - 1]; }
  }

  lemma {:induction false} EncodeIsEnded(entries: seq<FileEntry>)
    ensures Ended(Encode(entries))
  {
    if entries != [] {
      EncodeIsEnded(entries[1..]);
      EncodeShape(entries);
      EndsInNul(entries[0].content, Encode(entries[1..]));
      EndsInNul(entries[0].path, entries[0].content + NUL + Encode(entries[1..]));
    }
  }

  lemma FieldsAfter(a: string, rest: string)
    requires NulFree(a)
    ensures Fields(a + NUL + rest) == [a] + Fields(rest)
  {
    SplitAtSeparator(a, rest, '\0');
    assert a + NUL + rest == a + ['\0'] + rest;
  }

  predicate Decodes(s: string, entries: seq<FileEntry>) { |Fields(s)| % 2 == 0 && Paired(Fields(s)) == entries }

  lemma DecodesMore(path: string, content: string, rest: string, entries: seq<FileEntry>)
    requires NulFree(path) && NulFree(content) && Decodes(rest, entries)
    ensures Decodes(path + NUL + (content + NUL + rest), [FileEntry(path, content)] + entries)
  {
    FieldsOfEntry(path, content, rest);
    PairedMore(path, content, Fields(rest));
  }

  lemma NothingDecodes()
    ensures Decodes("", [])
  {
    assert Fields("") == [];
  }

  /** The fields of an encoding without inner NULs are its paths and contents. */
  lemma {:induction false} FieldsOfEncode(entries: seq<FileEntry>)
    requires NulFreeEntries(entries)
    ensures Decodes(Encode(entries), entries)
  {
    if entries == [] {
      NothingDecodes();
    } else {
      FieldsOfEncode(entries[1..]);
      EncodeShape(entries);
      DecodesMore(entries[0].path, entries[0].content, Encode(entries[1..]), entries[1..]);
      assert entries == [FileEntry(entries[0].path, entries[0].content)] + entries[1..];
    }
  }

  lemma FieldsOfEntry(path: string, content: string, rest: string)
    requires NulFree(path) && NulFree(content)
    ensures Fields(path + NUL + (content + NUL + rest)) == [path, content] + Fields(rest)
  {
    FieldsAfter(content, rest);
    FieldsAfter(path, content + NUL + rest);
  }

  // ---------- the tree that a stream spells out ----------

  function TreeOf(entries: seq<FileEntry>): Tree {
    if entries == [] then map[] else TreeOf(entries[1..])[entries[0].path := entries[0].content]
  }

  lemma {:induction false} TreeOfHolds(entries: seq<FileEntry>)
    requires L.Distinct(PathsOf(entries))
    ensures forall n :: n in TreeOf(entries) <==> n in PathsOf(entries)
    ensures forall e :: e in entries ==> e.path in TreeOf(entries) && TreeOf(entries)[e.path] == e.content
  {
    if entries != [] {
      assert PathsOf(entries) == [entries[0].path] + PathsOf(entries[1..]);
      TreeOfHolds(entries[1..]);
      forall e | e in entries ensures e.path in TreeOf(entries) && TreeOf(entries)[e.path] == e.content {
        if e in entries[1..] {
          var i :| 0 < i < |entries| && entries[i] == e;
          assert PathsOf(entries)[0] != PathsOf(entries)[i];
        }
      }
    }
  }

  /** The fields alternate between ascending names of the list and contents. */
  ghost predicate Alternates(names: seq<string>, s: string) {
    && |Fields(s)| % 2 == 0 && Ascending(PathsOf(Paired(Fields(s))))
    && forall n :: n in PathsOf(Paired(Fields(s))) ==> n in names
  }

  lemma AlternatingSpellsATree(names: seq<string>, s: string) returns (u: Tree)
    requires Ended(s) && Alternates(names, s)
    ensures NulFreeTree(names, u) && Stream(names, u) == HEADER + s
  {
    var entries := Paired(Fields(s));
    u := TreeOf(entries);
    EncodeOfPaired(s);
    TreeOfHolds(entries);
    ListingIs(names, u, entries);
    TreeOfIsNulFree(names, entries, u);
  }

  lemma TreeOfIsNulFree(names: seq<string>, entries: seq<FileEntry>, u: Tree)
    requires NulFreeEntries(entries) && forall n :: n in u <==> n in PathsOf(entries)
    requires forall e :: e in entries ==> e.path in u && u[e.path] == e.content
    ensures NulFreeTree(names, u)
  {
    forall n | n in u ensures NulFree(n) && NulFree(u[n]) {
      var i :| 0 <= i < |entries| && PathsOf(entries)[i] == n;
      assert entries[i] in entries;
    }
  }

  lemma NulFreeListing(names: seq<string>, u: Tree)
    requires NulFreeTree(names, u)
    ensures NulFreeEntries(Listing(names, u))
  {
    ListedNames(names, u);
  }

  /**
   * A tree shares its stream with some tree of NUL-free files exactly when the fields of its own stream
   * alternate between ascending names of the list and contents.
   */
  lemma SharesWithNulFreeIff(names: seq<string>, t: Tree)
    ensures (exists u :: NulFreeTree(names, u) && Stream(names, u) == Stream(names, t))
       <==> Alternates(names, Encode(Listing(names, t)))
  {
    var s := Encode(Listing(names, t));
    EncodeIsEnded(Listing(names, t));
    if Alternates(names, s) { var u := AlternatingSpellsATree(names, s); }
    if u :| NulFreeTree(names, u) && Stream(names, u) == Stream(names, t) {
      SharedStreamAlternates(names, t, u);
    }
  }

  lemma SharedStreamAlternates(names: seq<string>, t: Tree, u: Tree)
    requires NulFreeTree(names, u) && Stream(names, u) == Stream(names, t)
    ensures Alternates(names, Encode(Listing(names, t)))
  {
    SameEncoding(names, t, u);
    NulFreeListing(names, u);
    FieldsOfEncode(Listing(names, u));
    ListedPathsAscend(names, u);
  }

  lemma SameEncoding(names: seq<string>, t: Tree, u: Tree)
    requires Stream(names, u) == Stream(names, t)
    ensures Encode(Listing(names, u)) == Encode(Listing(names, t))
  {
    assert Encode(Listing(names, u)) == Stream(names, u)[|HEADER|..];
    assert Encode(Listing(names, t)) == Stream(names, t)[|HEADER|..];
  }

  lemma SameFilesAreNulFree(names: seq<string>, t: Tree, u: Tree)
    requires SameOn(names, u, t) && NulFreeTree(names, u)
    ensures NulFreeTree(names, t)
  {
  }

  /**
   * A tree shares its fingerprint with a different tree of NUL-free files exactly when it is not NUL-free itself
   * and its stream alternates.
   */
  lemma CollidesIff(names: seq<string>, t: Tree)
    ensures (exists u :: NulFreeTree(names, u) && Stream(names, u) == Stream(names, t) && !SameOn(names, u, t))
       <==> !NulFreeTree(names, t) && Alternates(names, Encode(Listing(names, t)))
  {
    SharesWithNulFreeIff(names, t);
    forall u | NulFreeTree(names, u) && Stream(names, u) == Stream(names, t)
      ensures SameOn(names, u, t) <==> NulFreeTree(names, t)
    {
      if NulFreeTree(names, t) { StreamDeterminesFiles(names, u, t); }
      if SameOn(names, u, t) { SameFilesAreNulFree(names, t, u); }
    }
  }

  // ---------- a collision ----------

  lemma OneEntry(names: seq<string>, p: string, c: string)
    requires p in names
    ensures Listing(names, map[p := c]) == [FileEntry(p, c)]
  {
    assert PathsOf([FileEntry(p, c)]) == [p];
    ListingIs(names, map[p := c], [FileEntry(p, c)]);
  }

  lemma TwoEntries(names: seq<string>, p: string, q: string, c: string, d: string)
    requires p in names && q in names && StrLe(p, q) && p != q
    ensures Listing(names, map[p := c, q := d]) == [FileEntry(p, c), FileEntry(q, d)]
  {
    var entries := [FileEntry(p, c), FileEntry(q, d)];
    assert PathsOf(entries) == [p, q];
    ListingIs(names, map[p := c, q := d], entries);
  }

  /** A content that spells out a second file looks like that second file. */
  lemma NulHidesAFile(names: seq<string>, p: string, q: string, c: string, d: string)
    requires p in names && q in names && StrLe(p, q) && p != q
    ensures var one: Tree := map[p := c + NUL + q + NUL + d];
      var two: Tree := map[p := c, q := d];
      Stream(names, one) == Stream(names, two) && !SameOn(names, one, two)
  {
    OneEntry(names, p, c + NUL + q + NUL + d);
    TwoEntries(names, p, q, c, d);
    EncodeOfTwo(p, q, c, d);
    var one: Tree := map[p := c + NUL + q + NUL + d];
    assert q !in one;
  }

  lemma EncodeOfTwo(p: string, q: string, c: string, d: string)
    ensures Encode([FileEntry(p, c + NUL + q + NUL + d)]) == Encode([FileEntry(p, c), FileEntry(q, d)])
  {
    var l, m := [FileEntry(p, c + NUL + q + NUL + d)], [FileEntry(p, c), FileEntry(q, d)];
    assert l[1..] == [] && m[1..] == [FileEntry(q, d)] && m[1..][1..] == [];
    assert Encode(l) == p + NUL + (c + NUL + q + NUL + d) + NUL + "";
    assert Encode(m) == p + NUL + c + NUL + (q + NUL + d + NUL + "");
  }

  lemma RootFilesAreFingerprinted()
    ensures "Dockerfile" in Fingerprinted() && "package.json" in Fingerprinted()
  {
    assert DOCKER_NAMES[0] == "Dockerfile" && NODE_NAMES[0] == "package.json" && APP_ROOTS[0] == ".";
    InRootHas(".", FILE_NAMES, DOCKER_NAMES[0]);
    InRootHas(".", FILE_NAMES, NODE_NAMES[0]);
    assert At(".", DOCKER_NAMES[0]) in InRoots(APP_ROOTS, FILE_NAMES);
    assert At(".", NODE_NAMES[0]) in InRoots(APP_ROOTS, FILE_NAMES);
  }

  /** With the program's own list of names: one Dockerfile with NULs has the fingerprint of two files. */
  lemma DockerfileHidesAPackage(c: string, d: string)
    ensures var one: Tree := map["Dockerfile" := c + NUL + "package.json" + NUL + d];
      var two: Tree := map["Dockerfile" := c, "package.json" := d];
      Stream(Fingerprinted(), one) == Stream(Fingerprinted(), two) && !SameOn(Fingerprinted(), one, two)
  {
    RootFilesAreFingerprinted();
    assert StrLe("Dockerfile", "package.json");
    NulHidesAFile(Fingerprinted(), "Dockerfile", "package.json", c, d);
  }
}
