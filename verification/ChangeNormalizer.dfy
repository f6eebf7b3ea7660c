/** From the changes an LLM proposes to the changes that may be tried: one per file, of bounded size and number. */
module ChangeNormalizer {
  import opened Text
  import opened Wrappers
  import opened RepoPaths

  const MAX_PATCH_FILES: nat := 10
  const MAX_CONTENT_BYTES: nat := 80000

  /** One entry of the reply's `changes` array; `content` is missing when no string could be made of it. */
  datatype Proposal = NotAnObject | Proposal(path: string, reason: string, content: Option<string>)

  datatype Change = Change(path: string, reason: string, content: string)

  datatype Reason = NotAnObjectReason | NoContent | UnsafePath | NotEditable | Duplicate | TooLarge

  datatype Rejection = Rejection(path: string, reason: Reason)

  datatype Report = Report(accepted: seq<Change>, rejected: seq<Rejection>)

  function Utf8Size(s: string): nat {
    if s == "" then 0 else
      var c := s[0];
      (if c < '\U{80}' then 1 else if c < '\U{800}' then 2 else if c < '\U{10000}' then 3 else 4) + Utf8Size(s[1..])
  }

  predicate Taken(accepted: seq<Change>, path: string) {
    exists i :: 0 <= i < |accepted| && accepted[i].path == path
  }

  /** What happens to a proposal with content whose path resolves so, given the changes accepted before it. */
  function JudgeResolved(report: Report, p: Proposal, r: Option<string>): Report
    requires p.Proposal? && p.content.Some?
  {
    if r == None || r == Some("") then
      var reason := if IsSafe(Normalize(Strip(p.path))) then NotEditable else UnsafePath;
      report.(rejected := report.rejected + [Rejection(Strip(p.path), reason)])
    else if Taken(report.accepted, r.value) then report.(rejected := report.rejected + [Rejection(r.value, Duplicate)])
    else if Utf8Size(p.content.value) > MAX_CONTENT_BYTES then
      report.(rejected := report.rejected + [Rejection(r.value, TooLarge)])
    else report.(accepted := report.accepted + [Change(r.value, Strip(p.reason), p.content.value)])
  }

  /** What happens to one proposal. */
  ghost function Judge(report: Report, p: Proposal, pid: string, allowed: set<string>): Report {
    if p.NotAnObject? then report.(rejected := report.rejected + [Rejection("", NotAnObjectReason)])
    else if p.content == None then report.(rejected := report.rejected + [Rejection(Strip(p.path), NoContent)])
    else JudgeResolved(report, p, Resolved(Strip(p.path), pid, allowed))
  }

  type Judgement = (Report, Proposal) -> Report

  ghost function Judging(pid: string, allowed: set<string>): Judgement {
    (report: Report, p: Proposal) => Judge(report, p, pid, allowed)
  }

  /** The report over the proposals; once enough changes are accepted, the rest are not looked at. */
  ghost function ReportOn(proposals: seq<Proposal>, pid: string, allowed: set<string>): Report {
    Judged(proposals, Judging(pid, allowed))
  }

  ghost function Judged(proposals: seq<Proposal>, judge: Judgement): Report {
    if proposals == [] then Report([], []) else
      var before := Judged(proposals[..|proposals| - 1], judge);
      if |before.accepted| >= MAX_PATCH_FILES then before else judge(before, proposals[|proposals| - 1])
  }

  /** How a proposal is judged, said where a judgement is made. */
  ghost predicate JudgesLike(judge: Judgement, pid: string, allowed: set<string>) {
    forall report, p {:trigger Judge(report, p, pid, allowed)} :: judge(report, p) == Judge(report, p, pid, allowed)
  }

  // ---------- the loop ----------

  method JudgeProposal(report: Report, p: Proposal, pid: string, allowed: set<string>, seen: set<string>)
    returns (after: Report, seenAfter: set<string>)
    requires forall path :: path in seen <==> Taken(report.accepted, path)
    ensures after == Judge(report, p, pid, allowed)
    ensures |after.accepted| + |after.rejected| == |report.accepted| + |report.rejected| + 1
    ensures |after.accepted| <= |report.accepted| + 1
    ensures forall path :: path in seenAfter <==> Taken(after.accepted, path)
  {
    seenAfter := seen;
    if p.NotAnObject? { return report.(rejected := report.rejected + [Rejection("", NotAnObjectReason)]), seen; }
    var path := Strip(p.path);
    if p.content == None { return report.(rejected := report.rejected + [Rejection(path, NoContent)]), seen; }
    var r := Resolve(path, pid, allowed);
    if r == None || r == Some("") {
      var reason := if IsSafe(Normalize(path)) then NotEditable else UnsafePath;
      return report.(rejected := report.rejected + [Rejection(path, reason)]), seen;
    }
    if r.value in seen { return report.(rejected := report.rejected + [Rejection(r.value, Duplicate)]), seen; }
    if Utf8Size(p.content.value) > MAX_CONTENT_BYTES {
      return report.(rejected := report.rejected + [Rejection(r.value, TooLarge)]), seen;
    }
    var change := Change(r.value, Strip(p.reason), p.content.value);
    after := report.(accepted := report.accepted + [change]);
    seenAfter := seen + {r.value};
    forall q ensures q in seenAfter <==> Taken(after.accepted, q) { TakenOneMore(report.accepted, change, q); }
  }

  lemma TakenOneMore(accepted: seq<Change>, change: Change, path: string)
    ensures Taken(accepted + [change], path) <==> Taken(accepted, path) || change.path == path
  {
    var all := accepted + [change];
    if Taken(accepted, path) {
      var i :| 0 <= i < |accepted| && accepted[i].path == path;
      assert all[i].path == path;
    }
    if change.path == path { assert all[|accepted|].path == path; }
  }

  lemma JudgedOneMore(proposals: seq<Proposal>, n: nat, judge: Judgement)
    requires n < |proposals| && |Judged(proposals[..n], judge).accepted| < MAX_PATCH_FILES
    ensures Judged(proposals[..n + 1], judge) == judge(Judged(proposals[..n], judge), proposals[n])
  {
    assert proposals[..n + 1][..n] == proposals[..n];
  }

  /** One round of the loop. */
  method JudgeNext(
      proposals: seq<Proposal>, n: nat, pid: string, allowed: set<string>, report: Report, seen: set<string>,
      ghost judge: Judgement)
    returns (after: Report, seenAfter: set<string>)
    requires n < |proposals| && report == Judged(proposals[..n], judge) && JudgesLike(judge, pid, allowed)
    requires |report.accepted| < MAX_PATCH_FILES && forall path :: path in seen <==> Taken(report.accepted, path)
    ensures after == Judged(proposals[..n + 1], judge)
    ensures |after.accepted| + |after.rejected| == |report.accepted| + |report.rejected| + 1
    ensures |after.accepted| <= |report.accepted| + 1
    ensures forall path :: path in seenAfter <==> Taken(after.accepted, path)
  {
    JudgedOneMore(proposals, n, judge);
    after, seenAfter := JudgeProposal(report, proposals[n], pid, allowed, seen);
  }

  method NormalizeChanges(proposals: seq<Proposal>, pid: string, allowed: set<string>)
    returns (report: Report, processed: nat)
    ensures report == ReportOn(proposals, pid, allowed)
    ensures processed <= |proposals| && |report.accepted| + |report.rejected| == processed
    ensures processed < |proposals| ==> |report.accepted| == MAX_PATCH_FILES
  {
    report, processed := JudgeInOrder(proposals, pid, allowed, Judging(pid, allowed));
  }

  method JudgeInOrder(proposals: seq<Proposal>, pid: string, allowed: set<string>, ghost judge: Judgement)
    returns (report: Report, processed: nat)
    requires JudgesLike(judge, pid, allowed)
    ensures report == Judged(proposals, judge)
    ensures processed <= |proposals| && |report.accepted| + |report.rejected| == processed
    ensures processed < |proposals| ==> |report.accepted| == MAX_PATCH_FILES
  {
    report, processed := Report([], []), 0;
    var seen: set<string> := {};
    while processed < |proposals|
      invariant processed <= |proposals| && report == Judged(proposals[..processed], judge)
      invariant |report.accepted| + |report.rejected| == processed
      invariant |report.accepted| < MAX_PATCH_FILES
      invariant forall path :: path in seen <==> Taken(report.accepted, path)
    {
      report, seen := JudgeNext(proposals, processed, pid, allowed, report, seen, judge);
      processed := processed + 1;
      if |report.accepted| >= MAX_PATCH_FILES {
        JudgedIsFull(proposals, processed, judge);
        return;
      }
    }
    assert proposals[..processed] == proposals;
  }

  lemma {:induction false} JudgedIsFull(proposals: seq<Proposal>, n: nat, judge: Judgement)
    requires n <= |proposals| && |Judged(proposals[..n], judge).accepted| >= MAX_PATCH_FILES
    ensures Judged(proposals, judge) == Judged(proposals[..n], judge)
    decreases |proposals|
  {
    if n < |proposals| {
      var before := proposals[..|proposals| - 1];
      assert before[..n] == proposals[..n];
      JudgedIsFull(before, n, judge);
    } else {
      assert proposals[..n] == proposals;
    }
  }

  // ---------- what an accepted change is ----------

  /** The path a proposal may change, taken by itself: it has content of allowed size and its path resolves. */
  ghost function Target(p: Proposal, pid: string, allowed: set<string>): Option<string> {
    if p.NotAnObject? || p.content == None || Utf8Size(p.content.value) > MAX_CONTENT_BYTES then None
    else if Resolved(Strip(p.path), pid, allowed) == Some("") then None
    else Resolved(Strip(p.path), pid, allowed)
  }

  ghost function Targets(pid: string, allowed: set<string>): Proposal -> Option<string> {
    p => Target(p, pid, allowed)
  }

  function ChangeOf(p: Proposal, path: string): Change {
    if p.Proposal? && p.content.Some? then Change(path, Strip(p.reason), p.content.value) else Change(path, "", "")
  }

  ghost predicate FirstToFit(proposals: seq<Proposal>, i: int, path: string, target: Proposal -> Option<string>) {
    && 0 <= i < |proposals| && target(proposals[i]) == Some(path)
    && forall j :: 0 <= j < i ==> target(proposals[j]) != Some(path)
  }

  /** The change is what the first fitting proposal for its path says. */
  ghost predicate FromFirst(c: Change, proposals: seq<Proposal>, target: Proposal -> Option<string>) {
    exists i :: FirstToFit(proposals, i, c.path, target) && c == ChangeOf(proposals[i], c.path)
  }

  ghost predicate AllFromFirst(accepted: seq<Change>, proposals: seq<Proposal>, target: Proposal -> Option<string>) {
    forall k :: 0 <= k < |accepted| ==> FromFirst(accepted[k], proposals, target)
  }

  ghost predicate DistinctPaths(accepted: seq<Change>) {
    forall i, j :: 0 <= i < j < |accepted| ==> accepted[i].path != accepted[j].path
  }

  ghost predicate NoneMissed(accepted: seq<Change>, proposals: seq<Proposal>, target: Proposal -> Option<string>) {
    forall i :: 0 <= i < |proposals| && target(proposals[i]).Some? ==> Taken(accepted, target(proposals[i]).value)
  }

  lemma FirstStaysFirst(c: Change, proposals: seq<Proposal>, p: Proposal, target: Proposal -> Option<string>)
    requires FromFirst(c, proposals, target)
    ensures FromFirst(c, proposals + [p], target)
  {
    var i :| FirstToFit(proposals, i, c.path, target) && c == ChangeOf(proposals[i], c.path);
    var all := proposals + [p];
    assert forall j :: 0 <= j <= i ==> all[j] == proposals[j];
    assert FirstToFit(all, i, c.path, target);
  }

  lemma NewIsFirst(accepted: seq<Change>, proposals: seq<Proposal>, p: Proposal, path: string,
                   target: Proposal -> Option<string>)
    requires NoneMissed(accepted, proposals, target) && !Taken(accepted, path) && target(p) == Some(path)
    ensures FromFirst(ChangeOf(p, path), proposals + [p], target)
  {
    var all := proposals + [p];
    assert forall j :: 0 <= j < |proposals| ==> all[j] == proposals[j];
    assert FirstToFit(all, |proposals|, path, target);
  }

  lemma {:induction false} AllStayFirst(accepted: seq<Change>, proposals: seq<Proposal>, p: Proposal,
                                        target: Proposal -> Option<string>)
    requires AllFromFirst(accepted, proposals, target)
    ensures AllFromFirst(accepted, proposals + [p], target)
  {
    forall k | 0 <= k < |accepted| ensures FromFirst(accepted[k], proposals + [p], target) {
      FirstStaysFirst(accepted[k], proposals, p, target);
    }
  }

  /** The accepted changes after one more proposal. */
  function Accepting(accepted: seq<Change>, p: Proposal, target: Option<string>): seq<Change> {
    if target.Some? && !Taken(accepted, target.value) then accepted + [ChangeOf(p, target.value)] else accepted
  }

  lemma AcceptingKeepsFirsts(accepted: seq<Change>, proposals: seq<Proposal>, p: Proposal,
                             target: Proposal -> Option<string>)
    requires AllFromFirst(accepted, proposals, target) && NoneMissed(accepted, proposals, target)
    ensures AllFromFirst(Accepting(accepted, p, target(p)), proposals + [p], target)
  {
    AllStayFirst(accepted, proposals, p, target);
    if target(p).Some? && !Taken(accepted, target(p).value) {
      NewIsFirst(accepted, proposals, p, target(p).value, target);
    }
  }

  lemma AcceptingMissesNone(accepted: seq<Change>, proposals: seq<Proposal>, p: Proposal,
                            target: Proposal -> Option<string>)
    requires NoneMissed(accepted, proposals, target)
    ensures NoneMissed(Accepting(accepted, p, target(p)), proposals + [p], target)
  {
    var after, all := Accepting(accepted, p, target(p)), proposals + [p];
    forall i | 0 <= i < |all| && target(all[i]).Some? ensures Taken(after, target(all[i]).value) {
      if target(p).Some? { TakenOneMore(accepted, ChangeOf(p, target(p).value), target(all[i]).value); }
    }
  }

  lemma AcceptingKeepsDistinct(accepted: seq<Change>, p: Proposal, target: Option<string>)
    requires DistinctPaths(accepted)
    ensures DistinctPaths(Accepting(accepted, p, target))
  {
  }

  ghost predicate FirstFits(accepted: seq<Change>, proposals: seq<Proposal>, target: Proposal -> Option<string>) {
    && AllFromFirst(accepted, proposals, target) && DistinctPaths(accepted) && |accepted| <= MAX_PATCH_FILES
    && (|accepted| < MAX_PATCH_FILES ==> NoneMissed(accepted, proposals, target))
  }

  lemma JudgeAccepts(report: Report, p: Proposal, pid: string, allowed: set<string>)
    ensures Judge(report, p, pid, allowed).accepted == Accepting(report.accepted, p, Target(p, pid, allowed))
  {
  }

  lemma JudgeKeepsFirstFits(report: Report, before: seq<Proposal>, p: Proposal, pid: string, allowed: set<string>)
    requires FirstFits(report.accepted, before, Targets(pid, allowed)) && |report.accepted| < MAX_PATCH_FILES
    ensures FirstFits(Judge(report, p, pid, allowed).accepted, before + [p], Targets(pid, allowed))
  {
    var target := Targets(pid, allowed);
    JudgeAccepts(report, p, pid, allowed);
    AcceptingKeepsFirsts(report.accepted, before, p, target);
    AcceptingMissesNone(report.accepted, before, p, target);
    AcceptingKeepsDistinct(report.accepted, p, target(p));
  }

  ghost predicate KeepsFirstFits(judge: Judgement, target: Proposal -> Option<string>) {
    forall report: Report, before: seq<Proposal>, p: Proposal ::
      FirstFits(report.accepted, before, target) && |report.accepted| < MAX_PATCH_FILES ==>
        FirstFits(judge(report, p).accepted, before + [p], target)
  }

  lemma {:induction false} JudgedAreTheFirstFits(
      proposals: seq<Proposal>, judge: Judgement, target: Proposal -> Option<string>)
    requires KeepsFirstFits(judge, target)
    ensures FirstFits(Judged(proposals, judge).accepted, proposals, target)
  {
    if proposals != [] {
      var n := |proposals| - 1;
      var before, p := proposals[..n], proposals[n];
      JudgedAreTheFirstFits(before, judge, target);
      var report := Judged(before, judge);
      assert proposals == before + [p];
      if |report.accepted| >= MAX_PATCH_FILES { AllStayFirst(report.accepted, before, p, target); }
    }
  }

  /**
   * As long as the limit is not reached, the accepted changes are exactly the first fitting proposal of
   * every path that has one; with the limit reached they still are such first proposals.
   */
  lemma AcceptedAreTheFirstFits(proposals: seq<Proposal>, pid: string, allowed: set<string>)
    ensures FirstFits(ReportOn(proposals, pid, allowed).accepted, proposals, Targets(pid, allowed))
  {
    var judge, target := Judging(pid, allowed), Targets(pid, allowed);
    forall report: Report, before: seq<Proposal>, p: Proposal
      | FirstFits(report.accepted, before, target) && |report.accepted| < MAX_PATCH_FILES
      ensures FirstFits(judge(report, p).accepted, before + [p], target)
    {
      JudgeKeepsFirstFits(report, before, p, pid, allowed);
    }
    JudgedAreTheFirstFits(proposals, judge, target);
  }

  /** Every accepted change is for an editable file and of bounded size. */
  lemma AcceptedAreAllowed(proposals: seq<Proposal>, pid: string, allowed: set<string>, c: Change)
    requires c in ReportOn(proposals, pid, allowed).accepted
    ensures c.path in allowed && Utf8Size(c.content) <= MAX_CONTENT_BYTES
  {
    AcceptedAreTheFirstFits(proposals, pid, allowed);
    assert FromFirst(c, proposals, Targets(pid, allowed));
    var i :| FirstToFit(proposals, i, c.path, Targets(pid, allowed)) && c == ChangeOf(proposals[i], c.path);
    ResolvedIsAllowed(Strip(proposals[i].path), pid, allowed, Some(c.path));
  }
}
