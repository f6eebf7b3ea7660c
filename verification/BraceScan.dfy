/** `_extract_json_object` in claude_deployment_pipeline.py: find the JSON object in a model's
    reply by counting braces. */
module BraceScan {

  /** What json.loads makes of a text: an exception, an object, or some other value. */
  datatype Parsed = Broken | Object(text: string) | Other

  datatype Extracted = EmptyContent | NotJson | NotAnObject | Extracted(text: string)

  /** Opening minus closing braces among the first k characters. */
  function Depth(t: string, k: int): int
    decreases k
  {
    if k <= 0 then 0
    else Depth(t, k - 1) + if k > |t| then 0 else if t[k - 1] == '{' then 1 else if t[k - 1] == '}' then -1 else 0
  }

  /** t[i..j] runs from an opening brace to the brace that closes it. */
  ghost predicate Balanced(t: string, i: int, j: int) {
    && 0 <= i < j <= |t| && t[i] == '{' && Depth(t, j) == Depth(t, i)
    && forall k :: i < k < j ==> Depth(t, k) > Depth(t, i)
  }

  /** A balanced piece at depth zero: what the scan tries to parse. */
  ghost predicate Candidate(t: string, i: int, j: int) {
    Balanced(t, i, j) && Depth(t, i) == 0
  }

  /** The piece lies in no other balanced piece. */
  ghost predicate Outermost(t: string, i: int, j: int) {
    Balanced(t, i, j) && forall a, b :: Balanced(t, a, b) && a <= i && j <= b ==> a == i
  }

  ghost predicate NeverNegative(t: string) {
    forall k :: 0 <= k <= |t| ==> Depth(t, k) >= 0
  }

  /** A brace opened before `i` that nothing closes. */
  ghost predicate OpenBefore(t: string, i: int) {
    exists a :: 0 <= a < i && a < |t| && t[a] == '{' && forall k :: a < k <= |t| ==> Depth(t, k) > Depth(t, a)
  }

  // ---------- the scan ----------

  ghost predicate Hit(t: string, parse: string -> Parsed, i: int, j: int) {
    Candidate(t, i, j) && parse(t[i..j]).Object?
  }

  /** No candidate to the left of t[i..j] parses to an object. */
  ghost predicate FirstHit(t: string, parse: string -> Parsed, i: int, j: int) {
    Hit(t, parse, i, j) && forall a, b :: Hit(t, parse, a, b) ==> i <= a && j <= b
  }

  function Whole(t: string, parsed: Parsed): Extracted {
    match parsed
    case Broken => NotJson
    case Other => NotAnObject
    case Object(_) => Extracted(t)
  }

  /** The scan tries the candidates from left to right, returns the first that parses to an object,
      and falls back to the whole text exactly when none does. */
  method ExtractJsonObject(raw: string, parse: string -> Parsed) returns (result: Extracted)
    ensures raw == "" ==> result == EmptyContent
    ensures raw != "" && (exists i, j :: Hit(raw, parse, i, j)) ==>
              exists i, j :: FirstHit(raw, parse, i, j) && result == Extracted(raw[i..j])
    ensures raw != "" && !(exists i, j :: Hit(raw, parse, i, j)) ==>
              result == (match parse(raw) case Broken => NotJson case Other => NotAnObject case Object(_) => Extracted(raw))
  {
    if raw == "" { return EmptyContent; }
    var depth, start := 0, -1;
    var index := 0;
    while index < |raw|
      invariant 0 <= index <= |raw| && depth == Depth(raw, index)
      invariant depth > 0 ==> OpenAt(raw, start, index)
      invariant forall i, j :: Hit(raw, parse, i, j) ==> j > index
    {
      var ch := raw[index];
      OneCandidatePerEnd(raw, start, index + 1);
      if ch == '{' {
        if depth == 0 { start := index; }
        depth := depth + 1;
      } else if ch == '}' {
        depth := depth - 1;
        if depth == 0 && start != -1 {
          var candidate := raw[start..index + 1];
          match parse(candidate) {
            case Object(_) =>
              LeftmostFirst(raw, parse, start, index + 1);
              return Extracted(candidate);
            case Broken => start := -1;
            case Other =>
          }
        }
      }
      index := index + 1;
    }
    return Whole(raw, parse(raw));
  }

  /** The scan stands inside the piece that opened at `start`. */
  ghost predicate OpenAt(t: string, start: int, index: int) {
    && 0 <= start < index <= |t| && t[start] == '{' && Depth(t, start) == 0
    && forall k :: start < k <= index ==> Depth(t, k) > 0
  }

  /** A candidate that ends with the character before `end` is the one that opened at `start`. */
  lemma OneCandidatePerEnd(t: string, start: int, end: int)
    requires 0 < end <= |t| && (Depth(t, end - 1) > 0 ==> OpenAt(t, start, end - 1))
    ensures forall i :: Candidate(t, i, end) ==> t[end - 1] == '}' && Depth(t, end - 1) == 1 && i == start
    ensures t[end - 1] == '}' && Depth(t, end - 1) == 1 ==> Candidate(t, start, end)
  {
    forall i | Candidate(t, i, end) ensures t[end - 1] == '}' && Depth(t, end - 1) == 1 && i == start {
      assert i < start < end ==> Depth(t, start) > 0;
      assert start < i < end - 1 ==> Depth(t, i) > 0;
    }
  }

  lemma LeftmostFirst(t: string, parse: string -> Parsed, i: int, j: int)
    requires Hit(t, parse, i, j) && forall a, b :: Hit(t, parse, a, b) ==> b >= j
    ensures FirstHit(t, parse, i, j)
  {
    forall a, b | Hit(t, parse, a, b) ensures i <= a {
      assert a < i ==> Depth(t, i) > 0;
    }
  }

  // ---------- which pieces are tried ----------

  /** The last place before `i` where the depth is lower. */
  lemma {:induction false} LastBelow(t: string, i: nat, from: nat) returns (a: nat)
    requires 0 < from <= i <= |t| && Depth(t, 0) < Depth(t, i)
    requires forall k :: from <= k <= i ==> Depth(t, k) >= Depth(t, i)
    ensures a < i && Depth(t, a) == Depth(t, i) - 1 && t[a] == '{'
    ensures forall k :: a < k <= i ==> Depth(t, k) >= Depth(t, i)
    decreases from
  {
    assert Depth(t, from) >= Depth(t, i);
    if Depth(t, from - 1) < Depth(t, i) { a := from - 1; }
    else { a := LastBelow(t, i, from - 1); }
  }

  /** The first place after `i` where the depth is back down to `level`. */
  lemma {:induction false} FirstAt(t: string, i: nat, to: nat, level: int, last: nat) returns (b: nat)
    requires i <= to <= last <= |t| && Depth(t, i) > level >= Depth(t, last)
    requires forall k :: i <= k < to ==> Depth(t, k) > level
    ensures to <= b <= last && Depth(t, b) == level
    ensures forall k :: i <= k < b ==> Depth(t, k) > level
    decreases last - to
  {
    if Depth(t, to) <= level { b := to; }
    else { b := FirstAt(t, i, to + 1, level, last); }
  }

  /** An open brace in front of a balanced piece encloses it once the depth comes back down. */
  lemma Encloses(t: string, i: nat, j: nat, a: nat, k: nat)
    requires Balanced(t, i, j) && a < i && t[a] == '{' && Depth(t, a) == Depth(t, i) - 1
    requires forall x :: a < x <= i ==> Depth(t, x) >= Depth(t, i)
    requires i < k <= |t| && Depth(t, k) <= Depth(t, a)
    ensures exists b :: Balanced(t, a, b) && j <= b
  {
    var b := FirstAt(t, i, i, Depth(t, a), k);
    assert Balanced(t, a, b);
    assert b < j ==> b > i && Depth(t, b) > Depth(t, i);
  }

  /** In a text whose depth never goes negative the scan tries only outermost balanced pieces, and
      it tries one of them exactly when no brace before it is left open. */
  lemma TriedIffNothingOpen(t: string, i: int, j: int)
    requires NeverNegative(t)
    ensures Candidate(t, i, j) ==> Outermost(t, i, j)
    ensures Outermost(t, i, j) ==> (Candidate(t, i, j) <==> !OpenBefore(t, i))
  {
    if Candidate(t, i, j) {
      assert forall a, b :: Balanced(t, a, b) && a < i && j <= b ==> Depth(t, i) > Depth(t, a);
      assert forall a :: 0 <= a < i && (forall k :: a < k <= |t| ==> Depth(t, k) > Depth(t, a)) ==>
               Depth(t, i) > Depth(t, a);
    } else if Outermost(t, i, j) {
      var a := LastBelow(t, i, i);
      forall k | a < k <= |t| ensures Depth(t, k) > Depth(t, a) {
        if k > i && Depth(t, k) <= Depth(t, a) {
          Encloses(t, i, j, a, k);
        }
      }
      assert OpenBefore(t, i);
    }
  }

  /** With an unmatched closing brace in front, a balanced object is never tried. */
  lemma NegativeDepthHidesObjects()
    ensures var t := "}{}"; Outermost(t, 1, 3) && !OpenBefore(t, 1) && forall i, j :: !Candidate(t, i, j)
  {
    var t := "}{}";
    assert Depth(t, 1) == -1 && Depth(t, 2) == 0 && Depth(t, 3) == -1;
  }

  /** So does an open brace in front that nothing closes, even though no closing brace is unmatched. */
  lemma OpenBraceHidesObjects()
    ensures var t := "{{}"; NeverNegative(t) && Outermost(t, 1, 3) && OpenBefore(t, 1) && forall i, j :: !Candidate(t, i, j)
  {
    var t := "{{}";
    assert Depth(t, 0) == 0 && Depth(t, 1) == 1;
    assert Depth(t, 2) == 2 && Depth(t, 3) == 1;
  }
}
