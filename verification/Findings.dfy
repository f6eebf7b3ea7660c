/** Scan findings as the remediation planner reads them, and the order in which root causes are taken up. */
module Findings {
  import opened Ordering

  /** A severity, already trimmed and in lower case. */
  datatype Severity = Critical | High | Medium | Low | Other(text: string)

  datatype Scope = Major | All

  function Rank(s: Severity): nat {
    match s
    case Critical => 4
    case High => 3
    case Medium => 2
    case Low => 1
    case Other(_) => 0
  }

  const MAJOR: set<Severity> := {Critical, High}
  const RANKED: set<Severity> := {Critical, High, Medium, Low}

  function InScope(scope: Scope): set<Severity> {
    if scope == Major then MAJOR else RANKED
  }

  /** The place of an occurrence: its normalised path (empty when it has none) and its line. */
  datatype Occurrence = Occurrence(path: string, line: int)

  /** The `count` field of a finding: not there, or there with a number (null reads as 0). */
  datatype Count = Missing | Stated(n: int)

  datatype CodeFinding = CodeFinding(
    cwe: string, severity: Severity, title: string, description: string,
    path: string, occurrences: seq<Occurrence>, count: Count)

  /** `folded` is the lower-case form of `package`, by which packages are compared. */
  datatype SupplyFinding = SupplyFinding(
    cve: string, severity: Severity, package: string, folded: string, version: string, fix: string, purl: string)

  // ---------- the order of root causes ----------

  datatype SortKey = SortKey(rank: int, count: int, name: string, detail: string)

  /** Higher rank first, then higher count, then by name and detail. */
  predicate Precedes(a: SortKey, b: SortKey) {
    a.rank > b.rank || (a.rank == b.rank && (
      a.count > b.count || (a.count == b.count && (
        if a.name != b.name then StrLe(a.name, b.name) else StrLe(a.detail, b.detail)))))
  }

  lemma PrecedesTotal(a: SortKey, b: SortKey)
    ensures Precedes(a, b) || Precedes(b, a)
  {
    StrLeTotal(a.name, b.name);
    StrLeTotal(a.detail, b.detail);
  }

  lemma PrecedesTransitive(a: SortKey, b: SortKey, c: SortKey)
    requires Precedes(a, b) && Precedes(b, c)
    ensures Precedes(a, c)
  {
    if a.rank == c.rank && a.count == c.count {
      if StrLe(a.name, b.name) && StrLe(b.name, c.name) {
        StrLeTransitive(a.name, b.name, c.name);
        if a.name == c.name { StrLeAntisymmetric(a.name, b.name); }
      }
      if StrLe(a.detail, b.detail) && StrLe(b.detail, c.detail) { StrLeTransitive(a.detail, b.detail, c.detail); }
    }
  }

  predicate KeyedLe<T>(key: T -> SortKey, a: T, b: T) { Precedes(key(a), key(b)) }

  lemma KeyedLeIsTotalPreorder<T(!new)>(key: T -> SortKey)
    ensures TotalPreorder((a: T, b: T) => KeyedLe(key, a, b))
  {
    forall x: T, y: T ensures KeyedLe(key, x, y) || KeyedLe(key, y, x) { PrecedesTotal(key(x), key(y)); }
    forall x: T, y: T, z: T | KeyedLe(key, x, y) && KeyedLe(key, y, z) ensures KeyedLe(key, x, z) {
      PrecedesTransitive(key(x), key(y), key(z));
    }
  }

  function Ranked<T>(items: seq<T>, key: T -> SortKey): seq<T> {
    Sort(items, (a: T, b: T) => KeyedLe(key, a, b))
  }

  function Top<T>(items: seq<T>, key: T -> SortKey, limit: nat): seq<T> {
    var ranked := Ranked(items, key);
    if |ranked| <= limit then ranked else ranked[..limit]
  }

  function Dropped<T>(items: seq<T>, key: T -> SortKey, limit: nat): seq<T> {
    var ranked := Ranked(items, key);
    if |ranked| <= limit then [] else ranked[limit..]
  }

  /**
   * The selection is a cut through the whole ranked list: what is selected and what is dropped make up
   * exactly the root causes found, at most `limit` are selected, something is dropped only when the limit
   * is reached, and nothing dropped ranks before anything selected.
   */
  lemma NothingDroppedOutranks<T(!new)>(items: seq<T>, key: T -> SortKey, limit: nat)
    ensures multiset(Top(items, key, limit)) + multiset(Dropped(items, key, limit)) == multiset(items)
    ensures |Top(items, key, limit)| <= limit
    ensures Dropped(items, key, limit) != [] ==> |Top(items, key, limit)| == limit
    ensures forall s, d :: s in Top(items, key, limit) && d in Dropped(items, key, limit) ==> Precedes(key(s), key(d))
  {
    var le := (a: T, b: T) => KeyedLe(key, a, b);
    var ranked := Ranked(items, key);
    var top, dropped := Top(items, key, limit), Dropped(items, key, limit);
    KeyedLeIsTotalPreorder(key);
    SortSorts(items, le);
    SortPermutes(items, le);
    assert ranked == top + dropped;
    forall s, d | s in top && d in dropped ensures Precedes(key(s), key(d)) {
      var i :| 0 <= i < |top| && top[i] == s;
      var j :| 0 <= j < |dropped| && dropped[j] == d;
      assert le(ranked[i], ranked[|top| + j]);
    }
  }
}
