/** What becomes of each proposed change, said of the proposals alone. */
module ChangeVerdicts {
  import opened Text
  import opened Wrappers
  import opened RepoPaths
  import opened ChangeNormalizer
  import PercentEncoding

  lemma {:induction false} SizeIsTheEncoding(s: string)
    ensures Utf8Size(s) == |PercentEncoding.Utf8(s)|
  {
    if s != "" {
      SizeIsTheEncoding(s[1..]);
      assert s[0] < '\U{80}' <==> s[0] as int < 0x80;
      assert s[0] < '\U{800}' <==> s[0] as int < 0x800;
      assert s[0] < '\U{10000}' <==> s[0] as int < 0x10000;
    }
  }

  datatype Verdict = Accept(change: Change) | Reject(rejection: Rejection)

  /** The file a proposal is for; nothing when its path stands for none. */
  ghost function FileFor(p: Proposal, pid: string, allowed: set<string>): Option<string> {
    if p.NotAnObject? || Resolved(Strip(p.path), pid, allowed) == Some("") then None
    else Resolved(Strip(p.path), pid, allowed)
  }

  /** The proposal has content of at most 80000 bytes of UTF-8. */
  ghost predicate Fits(p: Proposal) {
    p.Proposal? && p.content.Some? && |PercentEncoding.Utf8(p.content.value)| <= 80000
  }

  /** An earlier proposal for the same file fits. */
  ghost predicate ComesLate(proposals: seq<Proposal>, i: nat, file: string, pid: string, allowed: set<string>)
    requires i <= |proposals|
  {
    exists j :: 0 <= j < i && Fits(proposals[j]) && FileFor(proposals[j], pid, allowed) == Some(file)
  }

  /** What becomes of the i-th proposal. */
  ghost function VerdictOn(proposals: seq<Proposal>, i: nat, pid: string, allowed: set<string>): Verdict
    requires i < |proposals|
  {
    var p := proposals[i];
    if p.NotAnObject? then Reject(Rejection("", NotAnObjectReason))
    else if p.content == None then Reject(Rejection(Strip(p.path), NoContent))
    else
      var file, path := FileFor(p, pid, allowed), Normalize(Strip(p.path));
      if file == None then
        Reject(Rejection(Strip(p.path), if path == "" || ".." in Split(path, '/') then UnsafePath else NotEditable))
      else if ComesLate(proposals, i, file.value, pid, allowed) then Reject(Rejection(file.value, Duplicate))
      else if !Fits(p) then Reject(Rejection(file.value, TooLarge))
      else Accept(Change(file.value, Strip(p.reason), p.content.value))
  }

  function Filed(report: Report, v: Verdict): Report {
    match v
    case Accept(change) => report.(accepted := report.accepted + [change])
    case Reject(rejection) => report.(rejected := report.rejected + [rejection])
  }

  /** The verdicts on the proposals, filed one after the other. */
  ghost function AllFiled(proposals: seq<Proposal>, pid: string, allowed: set<string>): Report {
    if proposals == [] then Report([], []) else
      var n := |proposals| - 1;
      Filed(AllFiled(proposals[..n], pid, allowed), VerdictOn(proposals, n, pid, allowed))
  }

  lemma TargetIsTheFile(p: Proposal, pid: string, allowed: set<string>)
    ensures Target(p, pid, allowed) == if Fits(p) then FileFor(p, pid, allowed) else None
  {
    if p.Proposal? && p.content.Some? { SizeIsTheEncoding(p.content.value); }
  }

  lemma TakenIffLate(proposals: seq<Proposal>, n: nat, accepted: seq<Change>, file: string, pid: string, allowed: set<string>)
    requires n < |proposals| && FirstFits(accepted, proposals[..n], Targets(pid, allowed)) && |accepted| < MAX_PATCH_FILES
    ensures Taken(accepted, file) <==> ComesLate(proposals, n, file, pid, allowed)
  {
    var before, target := proposals[..n], Targets(pid, allowed);
    forall j | 0 <= j < n ensures target(before[j]) == Some(file) <==>
      Fits(proposals[j]) && FileFor(proposals[j], pid, allowed) == Some(file)
    {
      TargetIsTheFile(proposals[j], pid, allowed);
    }
    if Taken(accepted, file) {
      var k :| 0 <= k < |accepted| && accepted[k].path == file;
      assert FromFirst(accepted[k], before, target);
      var i :| FirstToFit(before, i, file, target) && accepted[k] == ChangeOf(before[i], file);
      assert Fits(proposals[i]);
    }
    if ComesLate(proposals, n, file, pid, allowed) {
      var j :| 0 <= j < n && Fits(proposals[j]) && FileFor(proposals[j], pid, allowed) == Some(file);
      assert target(before[j]) == Some(file);
    }
  }

  /** A proposal whose path stands for no file. */
  lemma JudgeWithoutAFile(proposals: seq<Proposal>, n: nat, report: Report, pid: string, allowed: set<string>)
    requires n < |proposals| && proposals[n].Proposal? && FileFor(proposals[n], pid, allowed) == None
    ensures Judge(report, proposals[n], pid, allowed) == Filed(report, VerdictOn(proposals, n, pid, allowed))
  {
    UnsafeMeansEmptyOrClimbing(Strip(proposals[n].path));
  }

  /** What is done with a proposal that has content and stands for a file. */
  lemma JudgeWithContent(report: Report, p: Proposal, file: string)
    requires p.Proposal? && p.content.Some? && file != ""
    ensures JudgeResolved(report, p, Some(file)) ==
      if Taken(report.accepted, file) then Filed(report, Reject(Rejection(file, Duplicate)))
      else if Utf8Size(p.content.value) > 80000 then Filed(report, Reject(Rejection(file, TooLarge)))
      else Filed(report, Accept(Change(file, Strip(p.reason), p.content.value)))
  {
  }

  lemma VerdictWithContent(proposals: seq<Proposal>, n: nat, file: string, pid: string, allowed: set<string>)
    requires n < |proposals| && FileFor(proposals[n], pid, allowed) == Some(file)
    requires proposals[n].Proposal? && proposals[n].content.Some?
    ensures VerdictOn(proposals, n, pid, allowed) ==
      if ComesLate(proposals, n, file, pid, allowed) then Reject(Rejection(file, Duplicate))
      else if Utf8Size(proposals[n].content.value) > 80000 then Reject(Rejection(file, TooLarge))
      else Accept(Change(file, Strip(proposals[n].reason), proposals[n].content.value))
  {
    SizeIsTheEncoding(proposals[n].content.value);
  }

  lemma JudgeWithoutContent(proposals: seq<Proposal>, n: nat, report: Report, pid: string, allowed: set<string>)
    requires n < |proposals| && (proposals[n].NotAnObject? || proposals[n].content == None)
    ensures Judge(report, proposals[n], pid, allowed) == Filed(report, VerdictOn(proposals, n, pid, allowed))
  {
  }

  lemma JudgeFilesTheVerdict(proposals: seq<Proposal>, n: nat, report: Report, pid: string, allowed: set<string>)
    requires n < |proposals| && FirstFits(report.accepted, proposals[..n], Targets(pid, allowed))
    requires |report.accepted| < MAX_PATCH_FILES
    ensures Judge(report, proposals[n], pid, allowed) == Filed(report, VerdictOn(proposals, n, pid, allowed))
  {
    var p := proposals[n];
    var file := FileFor(p, pid, allowed);
    if p.NotAnObject? || p.content == None {
      JudgeWithoutContent(proposals, n, report, pid, allowed);
    } else if file == None {
      JudgeWithoutAFile(proposals, n, report, pid, allowed);
    } else {
      TakenIffLate(proposals, n, report.accepted, file.value, pid, allowed);
      JudgeWithContent(report, p, file.value);
      VerdictWithContent(proposals, n, file.value, pid, allowed);
    }
  }

  /**
   * The report is the verdicts on the proposals in order, of all of them or, once ten are accepted, of those up to
   * the tenth.
   */
  lemma {:induction false} ReportFilesTheVerdicts(proposals: seq<Proposal>, pid: string, allowed: set<string>) returns (m: nat)
    ensures m <= |proposals| && ReportOn(proposals, pid, allowed) == AllFiled(proposals[..m], pid, allowed)
    ensures |ReportOn(proposals, pid, allowed).accepted| <= 10
    ensures m < |proposals| ==> |ReportOn(proposals, pid, allowed).accepted| == 10
    ensures |ReportOn(proposals, pid, allowed).accepted| < 10 ==> m == |proposals|
  {
    AcceptedAreTheFirstFits(proposals, pid, allowed);
    m := |proposals|;
    assert proposals[..m] == proposals;
    if proposals != [] {
      var n := |proposals| - 1;
      AcceptedAreTheFirstFits(proposals[..n], pid, allowed);
      var k := ReportFilesTheVerdicts(proposals[..n], pid, allowed);
      var before := ReportOn(proposals[..n], pid, allowed);
      if |before.accepted| >= MAX_PATCH_FILES {
        m := k;
        assert proposals[..n][..k] == proposals[..k];
      } else {
        assert proposals[..n][..k] == proposals[..n];
        JudgeFilesTheVerdict(proposals, n, before, pid, allowed);
      }
    }
  }
}
