/** Trying the accepted changes one by one: each is checked against the file as it is, and only then written. */
module GuardedEdits {
  import opened Text
  import opened Wrappers
  import opened RepoPaths
  import opened ChangeNormalizer

  // ---------- the destructive-rewrite guard ----------

  const GUARD_MIN_LINES: nat := 220
  const LARGE_FILE_LINES: nat := 600
  const MAX_DELETED_LINES: nat := 280
  const DELETE_TO_ADD_LIMIT: nat := 6
  const DELETE_TO_ADD_LIMIT_LARGE: nat := 12

  function AtLeastOne(n: nat): nat { if n == 0 then 1 else n }

  /** More than 35 % of the lines are deleted, or 50 % in a large file. */
  predicate TooMuchDeleted(lines: nat, deleted: nat) {
    if lines >= LARGE_FILE_LINES then 2 * deleted > lines else 20 * deleted > 7 * lines
  }

  /**
   * `lines` and `final` are the line counts before and after, `shared` the lines the diff keeps. The
   * thresholds are the defaults: 280 deletions, ratio 6 (12 in large files), 55 % retained.
   */
  predicate Destructive(lines: nat, final: nat, shared: nat)
    requires shared <= lines && shared <= final
  {
    var deleted, added := lines - shared, final - shared;
    var limit := if lines >= LARGE_FILE_LINES then DELETE_TO_ADD_LIMIT_LARGE else DELETE_TO_ADD_LIMIT;
    lines >= GUARD_MIN_LINES && (
      || (added == 0 && deleted > 0)
      || (deleted > MAX_DELETED_LINES && deleted > limit * AtLeastOne(added) && TooMuchDeleted(lines, deleted))
      || (20 * final < 11 * lines && deleted > MAX_DELETED_LINES))
  }

  /** The guard lets some rewrite to `final` lines through. */
  ghost predicate SizePasses(lines: nat, final: nat) {
    exists shared: nat :: shared <= lines && shared <= final && !Destructive(lines, final, shared)
  }

  lemma PassingKeepsEnough(lines: nat, final: nat, shared: nat)
    requires lines >= GUARD_MIN_LINES && shared <= lines && shared <= final && !Destructive(lines, final, shared)
    ensures final > 0 && (20 * final >= 11 * lines || final >= lines - 279)
  {
  }

  /**
   * Exactly the sizes a guarded file can be rewritten to: at least 55 % of its lines, or at most 279 fewer,
   * and at least one. No larger bound holds of every accepted rewrite.
   */
  lemma ExactlyTheseSizesPass(lines: nat, final: nat)
    requires lines >= GUARD_MIN_LINES
    ensures SizePasses(lines, final) <==> final > 0 && (20 * final >= 11 * lines || final >= lines - 279)
  {
    if SizePasses(lines, final) {
      var shared: nat :| shared <= lines && shared <= final && !Destructive(lines, final, shared);
      PassingKeepsEnough(lines, final, shared);
    }
    if final > 0 {
      if final >= lines {
        assert !Destructive(lines, final, lines);
      } else if final >= lines - 279 {
        assert !Destructive(lines, final, final - 1);
      } else if 20 * final >= 11 * lines {
        assert !Destructive(lines, final, 0);
      }
    }
  }

  // ---------- validating one change ----------

  predicate IsLineBreak(c: char) {
    '\n' <= c <= '\r' || '\U{1C}' <= c <= '\U{1E}' || c == '\U{85}' || c == '\U{2028}' || c == '\U{2029}'
  }

  /** The lines of a text; `open` says whether the current line has begun. */
  function Lines(s: string, open: bool): nat
    decreases |s|
  {
    if s == "" then if open then 1 else 0
    else if s[0] == '\r' && |s| > 1 && s[1] == '\n' then 1 + Lines(s[2..], false)
    else if IsLineBreak(s[0]) then 1 + Lines(s[1..], false)
    else Lines(s[1..], true)
  }

  function LineCount(s: string): nat { Lines(s, false) }

  /** What becomes of the attempt on one file: reading, checking or writing may raise. */
  datatype Fate = Works | ReadRaises | CheckRaises | WriteRaises(left: Option<string>)

  /**
   * What lies outside: how much of a file is read, how many lines a diff keeps, whether the added lines look
   * harmless, whether a text parses as its file type wants, and which attempts raise. A write that raises
   * may leave something behind.
   */
  datatype World = World(
    head: string -> string,
    shared: (string, string) -> nat,
    harmless: (string, string) -> bool,
    parses: (string, string) -> bool,
    fate: string -> Fate)

  ghost predicate DiffIsSound(w: World) {
    forall before, after :: w.shared(before, after) <= LineCount(before) && w.shared(before, after) <= LineCount(after)
  }

  predicate Validated(w: World, path: string, before: string, after: string)
    requires w.shared(before, after) <= LineCount(before) && w.shared(before, after) <= LineCount(after)
  {
    && Strip(after) != "" && '\0' !in after && w.harmless(before, after)
    && !Destructive(LineCount(before), LineCount(after), w.shared(before, after))
    && w.parses(path, after)
  }

  // ---------- the files ----------

  type Files = map<string, string>

  function ReadFrom(w: World, files: Files, path: string): string {
    w.head(if path in files then files[path] else "")
  }

  datatype Outcome = Outcome(files: Files, changed: seq<Change>, refused: seq<Change>, failed: bool)

  ghost function Try(w: World, o: Outcome, c: Change): Outcome
    requires DiffIsSound(w)
  {
    var before, fate := ReadFrom(w, o.files, c.path), w.fate(c.path);
    if fate == ReadRaises then o.(failed := true)
    else if before == c.content then o.(refused := o.refused + [c])
    else if fate == CheckRaises then o.(failed := true)
    else if !Validated(w, c.path, before, c.content) then o.(refused := o.refused + [c])
    else if fate == Works then o.(files := o.files[c.path := c.content], changed := o.changed + [c])
    else if fate.left == None then o.(failed := true)
    else o.(files := o.files[c.path := fate.left.value], failed := true)
  }

  /** The first failure ends the run; nothing is rolled back. */
  ghost function Applied(w: World, files: Files, changes: seq<Change>): Outcome
    requires DiffIsSound(w)
  {
    if changes == [] then Outcome(files, [], [], false) else
      var o := Applied(w, files, changes[..|changes| - 1]);
      if o.failed then o else Try(w, o, changes[|changes| - 1])
  }

  class CodebaseVolume {
    var files: Files

    /** The write loop. */
    method Apply(w: World, changes: seq<Change>) returns (changed: seq<Change>, refused: seq<Change>, failed: bool)
      requires DiffIsSound(w)
      modifies this
      ensures Outcome(files, changed, refused, failed) == Applied(w, old(files), changes)
    {
      changed, refused, failed := [], [], false;
      for i := 0 to |changes|
        invariant !failed && Outcome(files, changed, refused, failed) == Applied(w, old(files), changes[..i])
      {
        var c := changes[i];
        assert changes[..i + 1][..i] == changes[..i];
        ghost var soFar := Applied(w, old(files), changes[..i]);
        assert Applied(w, old(files), changes[..i + 1]) == Try(w, soFar, c);
        FailureEndsTheRun(w, old(files), changes, i + 1);
        var fate := w.fate(c.path);
        if fate == ReadRaises { return changed, refused, true; }
        var before := ReadFrom(w, files, c.path);
        if before == c.content {
          refused := refused + [c];
          continue;
        }
        if fate == CheckRaises { return changed, refused, true; }
        if !Validated(w, c.path, before, c.content) {
          refused := refused + [c];
          continue;
        }
        if fate != Works {
          if fate.left != None { files := files[c.path := fate.left.value]; }
          return changed, refused, true;
        }
        files := files[c.path := c.content];
        changed := changed + [c];
      }
      assert changes[..|changes|] == changes;
    }
  }

  lemma {:induction false} FailureEndsTheRun(w: World, files: Files, changes: seq<Change>, n: nat)
    requires DiffIsSound(w) && n <= |changes|
    ensures Applied(w, files, changes[..n]).failed ==> Applied(w, files, changes) == Applied(w, files, changes[..n])
    decreases |changes|
  {
    if n < |changes| {
      var before := changes[..|changes| - 1];
      assert before[..n] == changes[..n];
      FailureEndsTheRun(w, files, before, n);
    } else {
      assert changes[..n] == changes;
    }
  }

  // ---------- what a run guarantees ----------

  ghost predicate SameAt(a: Files, b: Files, path: string) {
    (path in a <==> path in b) && (path in a ==> a[path] == b[path])
  }

  /** The change is in place and was checked against the file as it was before the run. */
  ghost predicate WellWritten(w: World, files: Files, o: Outcome, c: Change)
    requires DiffIsSound(w)
  {
    && c.path in o.files && o.files[c.path] == c.content
    && c.content != ReadFrom(w, files, c.path)
    && Validated(w, c.path, ReadFrom(w, files, c.path), c.content)
  }

  ghost predicate ChangedAreWritten(w: World, files: Files, changes: seq<Change>, o: Outcome)
    requires DiffIsSound(w)
  {
    forall c :: c in o.changed ==> c in changes && WellWritten(w, files, o, c)
  }

  ghost predicate RefusedAreUntouched(files: Files, changes: seq<Change>, o: Outcome) {
    forall c :: c in o.refused ==> c in changes && SameAt(files, o.files, c.path)
  }

  ghost predicate OthersAreUntouched(files: Files, changes: seq<Change>, o: Outcome) {
    forall path :: !Taken(changes, path) ==> SameAt(files, o.files, path)
  }

  ghost predicate AllAccountedFor(files: Files, changes: seq<Change>, o: Outcome) {
    !o.failed ==>
      && |o.changed| + |o.refused| == |changes|
      && forall path :: !SameAt(files, o.files, path) ==> Taken(o.changed, path)
  }

  ghost predicate SafeOutcome(w: World, files: Files, changes: seq<Change>, o: Outcome)
    requires DiffIsSound(w)
  {
    && ChangedAreWritten(w, files, changes, o)
    && RefusedAreUntouched(files, changes, o)
    && OthersAreUntouched(files, changes, o)
    && AllAccountedFor(files, changes, o)
  }

  lemma MentionedIn(changes: seq<Change>, c: Change)
    requires c in changes
    ensures Taken(changes, c.path)
  {
    var i :| 0 <= i < |changes| && changes[i] == c;
    assert changes[i].path == c.path;
  }

  /** The three ways an attempt ends. */
  ghost predicate Attempt(w: World, o: Outcome, after: Outcome, c: Change)
    requires DiffIsSound(w)
  {
    && (forall path :: path != c.path ==> SameAt(o.files, after.files, path))
    && (|| (!after.failed && after.changed == o.changed + [c] && after.refused == o.refused
            && after.files == o.files[c.path := c.content] && c.content != ReadFrom(w, o.files, c.path)
            && Validated(w, c.path, ReadFrom(w, o.files, c.path), c.content))
        || (!after.failed && after.refused == o.refused + [c] && after.changed == o.changed && after.files == o.files)
        || (after.failed && after.changed == o.changed && after.refused == o.refused))
  }

  lemma TryIsAnAttempt(w: World, o: Outcome, c: Change)
    requires DiffIsSound(w) && !o.failed
    ensures Attempt(w, o, Try(w, o, c), c)
  {
  }

  lemma ChangedStayWritten(w: World, files: Files, changes: seq<Change>, o: Outcome, after: Outcome, c: Change)
    requires DiffIsSound(w) && Attempt(w, o, after, c) && !Taken(changes, c.path)
    requires ChangedAreWritten(w, files, changes, o) && SameAt(files, o.files, c.path)
    ensures ChangedAreWritten(w, files, changes + [c], after)
  {
    forall d | d in after.changed ensures d in changes + [c] && WellWritten(w, files, after, d) {
      if d in o.changed {
        MentionedIn(changes, d);
        assert SameAt(o.files, after.files, d.path);
      }
    }
  }

  lemma RefusedStayUntouched(w: World, files: Files, changes: seq<Change>, o: Outcome, after: Outcome, c: Change)
    requires DiffIsSound(w) && Attempt(w, o, after, c) && !Taken(changes, c.path)
    requires RefusedAreUntouched(files, changes, o) && SameAt(files, o.files, c.path)
    ensures RefusedAreUntouched(files, changes + [c], after)
  {
    forall d | d in after.refused ensures d in changes + [c] && SameAt(files, after.files, d.path) {
      if d in o.refused {
        MentionedIn(changes, d);
        assert SameAt(o.files, after.files, d.path);
      }
    }
  }

  lemma OthersStayUntouched(w: World, files: Files, changes: seq<Change>, o: Outcome, after: Outcome, c: Change)
    requires DiffIsSound(w) && Attempt(w, o, after, c) && OthersAreUntouched(files, changes, o)
    ensures OthersAreUntouched(files, changes + [c], after)
  {
    forall path | !Taken(changes + [c], path) ensures SameAt(files, after.files, path) {
      TakenOneMore(changes, c, path);
      assert SameAt(o.files, after.files, path);
    }
  }

  lemma StillAccountedFor(w: World, files: Files, changes: seq<Change>, o: Outcome, after: Outcome, c: Change)
    requires DiffIsSound(w) && !o.failed && Attempt(w, o, after, c) && AllAccountedFor(files, changes, o)
    ensures AllAccountedFor(files, changes + [c], after)
  {
    if !after.failed {
      forall path | !SameAt(files, after.files, path) ensures Taken(after.changed, path) {
        TakenOneMore(o.changed, c, path);
        assert path != c.path ==> SameAt(o.files, after.files, path);
      }
    }
  }

  /** The next change, for a path not mentioned yet, meets the file as it was before the run. */
  lemma TryIsSafe(w: World, files: Files, changes: seq<Change>, o: Outcome, c: Change)
    requires DiffIsSound(w) && !o.failed && SafeOutcome(w, files, changes, o) && !Taken(changes, c.path)
    ensures SafeOutcome(w, files, changes + [c], Try(w, o, c))
  {
    var after := Try(w, o, c);
    TryIsAnAttempt(w, o, c);
    assert SameAt(files, o.files, c.path);
    ChangedStayWritten(w, files, changes, o, after, c);
    RefusedStayUntouched(w, files, changes, o, after, c);
    OthersStayUntouched(w, files, changes, o, after, c);
    StillAccountedFor(w, files, changes, o, after, c);
  }

  lemma {:induction false} AppliedIsSafe(w: World, files: Files, changes: seq<Change>)
    requires DiffIsSound(w) && DistinctPaths(changes)
    ensures SafeOutcome(w, files, changes, Applied(w, files, changes))
  {
    if changes != [] {
      var n := |changes| - 1;
      var before, c := changes[..n], changes[n];
      AppliedIsSafe(w, files, before);
      var o := Applied(w, files, before);
      assert changes == before + [c];
      if o.failed {
        FailedStaysSafe(w, files, before, o, c);
      } else {
        assert !Taken(before, c.path);
        TryIsSafe(w, files, before, o, c);
      }
    }
  }

  lemma FailedStaysSafe(w: World, files: Files, changes: seq<Change>, o: Outcome, c: Change)
    requires DiffIsSound(w) && o.failed && SafeOutcome(w, files, changes, o)
    ensures SafeOutcome(w, files, changes + [c], o)
  {
    forall path | !Taken(changes + [c], path) ensures SameAt(files, o.files, path) {
      TakenOneMore(changes, c, path);
    }
  }

  predicate GuardKept(lines: nat, final: nat) {
    lines >= GUARD_MIN_LINES ==> 20 * final >= 11 * lines || final >= lines - 279
  }

  lemma ValidatedKeepsEnough(w: World, path: string, before: string, after: string)
    requires DiffIsSound(w) && Validated(w, path, before, after)
    ensures GuardKept(LineCount(before), LineCount(after))
  {
    if LineCount(before) >= GUARD_MIN_LINES {
      PassingKeepsEnough(LineCount(before), LineCount(after), w.shared(before, after));
    }
  }

  ghost predicate ProperlyChanged(w: World, files: Files, o: Outcome, path: string)
    requires DiffIsSound(w)
  {
    && path in o.files
    && (exists c :: c in o.changed && c == Change(path, c.reason, o.files[path]))
    && Validated(w, path, ReadFrom(w, files, path), o.files[path])
    && GuardKept(LineCount(ReadFrom(w, files, path)), LineCount(o.files[path]))
  }

  lemma ChangedProperly(w: World, files: Files, changes: seq<Change>, o: Outcome, path: string)
    requires DiffIsSound(w) && SafeOutcome(w, files, changes, o) && !o.failed && !SameAt(files, o.files, path)
    ensures ProperlyChanged(w, files, o, path)
  {
    var k :| 0 <= k < |o.changed| && o.changed[k].path == path;
    var c := o.changed[k];
    assert c in o.changed && WellWritten(w, files, o, c);
    assert c == Change(path, c.reason, o.files[path]);
    ValidatedKeepsEnough(w, path, ReadFrom(w, files, path), c.content);
  }

  lemma ChangedWasAllowed(proposals: seq<Proposal>, pid: string, contexts: set<string>, files: Files, o: Outcome, path: string)
    requires OthersAreUntouched(files, ReportOn(proposals, pid, contexts).accepted, o) && !SameAt(files, o.files, path)
    ensures path in contexts
  {
    var accepted := ReportOn(proposals, pid, contexts).accepted;
    assert Taken(accepted, path);
    var i :| 0 <= i < |accepted| && accepted[i].path == path;
    AcceptedAreAllowed(proposals, pid, contexts, accepted[i]);
  }

  /** No file is written twice in a run. */
  lemma {:induction false} EachPathIsWrittenOnce(w: World, files: Files, changes: seq<Change>)
    requires DiffIsSound(w) && DistinctPaths(changes)
    ensures DistinctPaths(Applied(w, files, changes).changed)
    ensures forall c :: c in Applied(w, files, changes).changed ==> c in changes
  {
    if changes != [] {
      var n := |changes| - 1;
      var before, c := changes[..n], changes[n];
      EachPathIsWrittenOnce(w, files, before);
      var o := Applied(w, files, before);
      assert changes == before + [c];
      if !o.failed {
        TryIsAnAttempt(w, o, c);
        forall d | d in o.changed ensures d.path != c.path { MentionedIn(before, d); }
      }
    }
  }

  /** Taken by itself, the change differs from the file and passes validation. */
  ghost predicate WouldPass(w: World, files: Files, c: Change)
    requires DiffIsSound(w)
  {
    c.content != ReadFrom(w, files, c.path) && Validated(w, c.path, ReadFrom(w, files, c.path), c.content)
  }

  lemma TryWritesWhatPasses(w: World, o: Outcome, c: Change)
    requires DiffIsSound(w) && !o.failed && !Try(w, o, c).failed
    ensures Try(w, o, c).changed == o.changed + (if WouldPass(w, o.files, c) then [c] else [])
  {
  }

  /** Unless the run fails, exactly the changes that differ from their file and pass validation are written. */
  lemma {:induction false} WrittenIffItPasses(w: World, files: Files, changes: seq<Change>, c: Change)
    requires DiffIsSound(w) && DistinctPaths(changes) && c in changes && !Applied(w, files, changes).failed
    ensures c in Applied(w, files, changes).changed <==> WouldPass(w, files, c)
  {
    var n := |changes| - 1;
    var before, last := changes[..n], changes[n];
    var o := Applied(w, files, before);
    assert changes == before + [last];
    AppliedIsSafe(w, files, before);
    TryWritesWhatPasses(w, o, last);
    EachPathIsWrittenOnce(w, files, before);
    if c in before {
      WrittenIffItPasses(w, files, before, c);
      MentionedIn(before, c);
    } else {
      assert SameAt(files, o.files, last.path);
    }
  }

  /**
   * For every reply: a file whose content differs after the run is one of the context files; unless the run
   * failed, it holds exactly the content of an accepted change that was validated against the file as read
   * before the run, and a guarded file kept at least 55 % of its lines or lost at most 279.
   */
  lemma OnlyValidatedContextFilesChange(
      w: World, files: Files, proposals: seq<Proposal>, pid: string, contexts: set<string>, path: string)
    requires DiffIsSound(w)
    requires !SameAt(files, Applied(w, files, ReportOn(proposals, pid, contexts).accepted).files, path)
    ensures path in contexts
    ensures var o := Applied(w, files, ReportOn(proposals, pid, contexts).accepted);
      !o.failed ==> ProperlyChanged(w, files, o, path)
  {
    var accepted := ReportOn(proposals, pid, contexts).accepted;
    AcceptedAreTheFirstFits(proposals, pid, contexts);
    AppliedIsSafe(w, files, accepted);
    ChangedWasAllowed(proposals, pid, contexts, files, Applied(w, files, accepted), path);
    if !Applied(w, files, accepted).failed { ChangedProperly(w, files, accepted, Applied(w, files, accepted), path); }
  }

  /** A file that is read whole keeps as much as the guard asks, counted over the whole file. */
  lemma WholeFilesKeepEnough(
      w: World, files: Files, proposals: seq<Proposal>, pid: string, contexts: set<string>, path: string)
    requires DiffIsSound(w) && path in files && w.head(files[path]) == files[path]
    requires !SameAt(files, Applied(w, files, ReportOn(proposals, pid, contexts).accepted).files, path)
    requires !Applied(w, files, ReportOn(proposals, pid, contexts).accepted).failed
    ensures var o := Applied(w, files, ReportOn(proposals, pid, contexts).accepted);
      path in o.files && GuardKept(LineCount(files[path]), LineCount(o.files[path]))
  {
    OnlyValidatedContextFilesChange(w, files, proposals, pid, contexts, path);
  }

  // ---------- every check, spelled out ----------

  /**
   * What the guard comes down to. A guarded file may not only lose lines; and when it loses more than 280 it must
   * keep 55 % of its size and, below 600 lines, gain at least a sixth of what it loses. The limits on the fraction
   * deleted, and the higher ratio for large files, never decide.
   */
  predicate LinesAllow(lines: nat, final: nat, shared: nat)
    requires shared <= lines && shared <= final
  {
    var deleted, added := lines - shared, final - shared;
    lines < 220 || (
      && (added == 0 ==> deleted == 0)
      && (deleted > 280 ==> 100 * final >= 55 * lines && (lines < 600 ==> deleted <= 6 * added)))
  }

  lemma GuardIsTheLines(lines: nat, final: nat, shared: nat)
    requires shared <= lines && shared <= final
    ensures !Destructive(lines, final, shared) <==> LinesAllow(lines, final, shared)
  {
  }

  ghost predicate Breaks(c: char) {
    c in {'\n', '\U{B}', '\U{C}', '\r', '\U{1C}', '\U{1D}', '\U{1E}', '\U{85}', '\U{2028}', '\U{2029}'}
  }

  lemma {:induction false} OneLineMore(line: string, rest: string, open: bool)
    requires forall i :: 0 <= i < |line| ==> !Breaks(line[i])
    ensures Lines(line, open) == if line == "" && !open then 0 else 1
    ensures rest != "" && Breaks(rest[0]) ==>
      Lines(line + rest, open) == 1 + Lines(if "\r\n" <= rest then rest[2..] else rest[1..], false)
    decreases |line|
  {
    var s := line + rest;
    if line != "" {
      OneLineMore(line[1..], rest, true);
      assert s[0] == line[0] && s[1..] == line[1..] + rest && !IsLineBreak(line[0]);
    } else {
      assert s == rest;
      if rest != "" && Breaks(rest[0]) { assert IsLineBreak(rest[0]); }
    }
  }

  /**
   * The lines are counted as they are cut: at each of ten characters, a carriage return and the line feed after it
   * counting as one; what follows the last break is a line only if there is something.
   */
  lemma LinesAreCutAtBreaks(line: string, rest: string)
    requires forall i :: 0 <= i < |line| ==> !Breaks(line[i])
    ensures LineCount(line) == if line == "" then 0 else 1
    ensures rest != "" && Breaks(rest[0]) ==>
      LineCount(line + rest) == 1 + LineCount(if "\r\n" <= rest then rest[2..] else rest[1..])
  {
    OneLineMore(line, rest, false);
  }

  /**
   * In a loop that does not fail, a change is written exactly when its content differs from the file as read before
   * the loop, is not blank, has no NUL, adds nothing that looks harmful, parses as its file type wants, and keeps
   * the lines the guard asks for.
   */
  lemma WrittenIffEveryCheckPasses(w: World, files: Files, changes: seq<Change>, c: Change)
    requires DiffIsSound(w) && DistinctPaths(changes) && c in changes && !Applied(w, files, changes).failed
    ensures var before := ReadFrom(w, files, c.path);
      (c in Applied(w, files, changes).changed) ==
        (&& c.content != before && Strip(c.content) != "" && '\0' !in c.content
         && w.harmless(before, c.content) && w.parses(c.path, c.content)
         && LinesAllow(LineCount(before), LineCount(c.content), w.shared(before, c.content)))
  {
    var before := ReadFrom(w, files, c.path);
    WrittenIffItPasses(w, files, changes, c);
    GuardIsTheLines(LineCount(before), LineCount(c.content), w.shared(before, c.content));
  }

  /** For every reply: a file that differs after a run that did not fail holds content that passed each of these. */
  lemma ChangedFilesPassedEveryCheck(
      w: World, files: Files, proposals: seq<Proposal>, pid: string, contexts: set<string>, path: string)
    requires DiffIsSound(w)
    requires !Applied(w, files, ReportOn(proposals, pid, contexts).accepted).failed
    requires !SameAt(files, Applied(w, files, ReportOn(proposals, pid, contexts).accepted).files, path)
    ensures var o := Applied(w, files, ReportOn(proposals, pid, contexts).accepted);
      var before := ReadFrom(w, files, path);
      && path in contexts && path in o.files && Utf8Size(o.files[path]) <= 80000
      && Strip(o.files[path]) != "" && '\0' !in o.files[path]
      && w.harmless(before, o.files[path]) && w.parses(path, o.files[path])
      && LinesAllow(LineCount(before), LineCount(o.files[path]), w.shared(before, o.files[path]))
  {
    var accepted := ReportOn(proposals, pid, contexts).accepted;
    var o, before := Applied(w, files, accepted), ReadFrom(w, files, path);
    OnlyValidatedContextFilesChange(w, files, proposals, pid, contexts, path);
    AcceptedAreTheFirstFits(proposals, pid, contexts);
    EachPathIsWrittenOnce(w, files, accepted);
    var c :| c in o.changed && c == Change(path, c.reason, o.files[path]);
    AcceptedAreAllowed(proposals, pid, contexts, c);
    GuardIsTheLines(LineCount(before), LineCount(o.files[path]), w.shared(before, o.files[path]));
  }

  /**
   * A write that raises ends the run where it stands: what was written before stays, the file holds what the write
   * left of it, if anything, and no later change is tried.
   */
  lemma FailedWriteEndsTheRun(w: World, files: Files, changes: seq<Change>, n: nat, left: Option<string>)
    requires DiffIsSound(w) && n < |changes| && !Applied(w, files, changes[..n]).failed
    requires var soFar, c := Applied(w, files, changes[..n]), changes[n];
      var before := ReadFrom(w, soFar.files, c.path);
      w.fate(c.path) == WriteRaises(left) && before != c.content && Validated(w, c.path, before, c.content)
    ensures var soFar, o := Applied(w, files, changes[..n]), Applied(w, files, changes);
      && o.failed && o.changed == soFar.changed && o.refused == soFar.refused
      && o.files == if left == None then soFar.files else soFar.files[changes[n].path := left.value]
  {
    assert changes[..n + 1][..n] == changes[..n];
    FailureEndsTheRun(w, files, changes, n + 1);
  }

  // ---------- a file too large to be read whole ----------

  const READ_LIMIT: nat := 200_000

  /** The first bytes of a text of single-byte characters. */
  function Head(s: string): string { if |s| <= READ_LIMIT then s else s[..READ_LIMIT] }

  /** A world that reads so much of a file, finds no line kept, and objects to nothing. */
  function Permissive(): World {
    World(Head, (a: string, b: string) => 0, (a: string, b: string) => true, (a: string, b: string) => true, (p: string) => Works)
  }

  function Repeated(c: char, n: nat): (s: string)
    ensures |s| == n && forall i :: 0 <= i < n ==> s[i] == c
  {
    seq(n, i => c)
  }

  lemma {:induction false} OneLongLine(c: char, n: nat, rest: string, open: bool)
    requires !IsLineBreak(c)
    ensures Lines(Repeated(c, n) + rest, open) == Lines(rest, open || n > 0)
    decreases n
  {
    var s := Repeated(c, n) + rest;
    if n == 0 {
      assert s == rest;
    } else {
      assert s[1..] == Repeated(c, n - 1) + rest;
      OneLongLine(c, n - 1, rest, true);
    }
  }

  lemma {:induction false} BlankLines(n: nat, open: bool)
    ensures Lines(Repeated('\n', n), open) == if n == 0 && open then 1 else n
    decreases n
  {
    if n > 0 {
      assert Repeated('\n', n)[1..] == Repeated('\n', n - 1);
      BlankLines(n - 1, false);
    }
  }

  /** A line that fills what is read, and any number of lines behind it. */
  function LargeFile(lines: nat): string { Repeated('x', READ_LIMIT) + Repeated('\n', lines) }

  lemma LargeFileCounts(lines: nat)
    requires lines > 0
    ensures LineCount(LargeFile(lines)) == lines
    ensures Head(LargeFile(lines)) == Repeated('x', READ_LIMIT) && LineCount(Head(LargeFile(lines))) == 1
  {
    OneLongLine('x', READ_LIMIT, Repeated('\n', lines), false);
    BlankLines(lines, true);
    assert Head(LargeFile(lines)) == Repeated('x', READ_LIMIT);
    OneLongLine('x', READ_LIMIT, "", false);
    assert Repeated('x', READ_LIMIT) + "" == Repeated('x', READ_LIMIT);
  }

  /** The guard sees one line, so a file of however many lines can be rewritten to a single one. */
  lemma LargeFilesCanLoseMore(lines: nat, c: Change)
    requires lines > 280 && c == Change("a", "", "y")
    ensures var w, files: Files := Permissive(), map["a" := LargeFile(lines)];
      && DiffIsSound(w) && !Applied(w, files, [c]).failed && Applied(w, files, [c]).files == map["a" := "y"]
      && LineCount(LargeFile(lines)) == lines && !GuardKept(lines, LineCount("y"))
  {
    var w, files: Files := Permissive(), map["a" := LargeFile(lines)];
    LargeFileCounts(lines);
    OneLetter();
    assert ReadFrom(w, files, "a") == Repeated('x', READ_LIMIT);
    assert |ReadFrom(w, files, "a")| != |c.content|;
    assert Validated(w, "a", Repeated('x', READ_LIMIT), "y");
    assert [c][..0] == [];
    assert Applied(w, files, []) == Outcome(files, [], [], false);
    assert Applied(w, files, [c]) == Try(w, Outcome(files, [], [], false), c);
  }

  lemma OneLetter()
    ensures LineCount("y") == 1 && Strip("y") == "y"
  {
    StripNothing("y");
    assert "y"[1..] == "";
  }
}
