/** The registry of runtime Terraform applies: who works on a project, and what is reported about it. */
module ApplyRegistry {
  import opened Text

  // ---------- keys ----------

  /** The key under which status and stop look an apply up; empty when they refuse the request. */
  function LookupKey(projectId: string, projectName: string): string {
    if Strip(projectId) != "" then Strip(projectId) else Strip(projectName)
  }

  /** The key under which an apply is accepted. */
  function AcceptKey(projectId: string, projectName: string): string {
    if LookupKey(projectId, projectName) != "" then LookupKey(projectId, projectName) else projectName
  }

  /** An accepted apply can be looked up with the same names exactly when they are not both blank. */
  lemma AcceptedCanBeLookedUp(projectId: string, projectName: string)
    ensures (LookupKey(projectId, projectName) != "" && LookupKey(projectId, projectName) == AcceptKey(projectId, projectName))
       <==> (Strip(projectId) != "" || Strip(projectName) != "")
  {
  }

  // ---------- the state machine ----------

  /** What is reported for a key once its worker is gone. */
  datatype Report = Running | AwaitingConfirmation | Completed | Error

  /** How the synchronous run ended; an exception counts as a failure. */
  datatype Outcome = Planned | Succeeded | FailedWith(error: string)

  function ReportOf(o: Outcome): Report {
    match o
    case Planned => AwaitingConfirmation
    case Succeeded => Completed
    case FailedWith(_) => Error
  }

  /**
   * `active` and `results` are the two dictionaries. The rest is history: the keys of the accepted applies in
   * order; the workers whose task has not begun, those whose task awaits its thread, and the threads that run;
   * the workers that recorded a result, in order, and how they ended; those cancelled while they awaited their
   * thread, those among them whose thread went on, and those cancelled before their task began.
   */
  datatype State = State(
    active: map<string, nat>, results: map<string, Report>,
    accepted: seq<string>, waiting: set<nat>, live: set<nat>, threads: set<nat>, records: seq<nat>,
    outcomes: map<nat, Outcome>, cancelled: set<nat>, orphaned: set<nat>, dropped: set<nat>)

  const START: State := State(map[], map[], [], {}, {}, {}, [], map[], {}, {}, {})

  datatype Step =
    | Request(key: string)
    | Begin(worker: nat)
    | ThreadEnds(worker: nat)
    | Finish(worker: nat, outcome: Outcome)
    | Cancel(worker: nat)
    | Drop(worker: nat)

  predicate Enabled(s: State, step: Step) {
    match step
    case Request(_) => true
    case Begin(w) => w in s.waiting && w < |s.accepted|
    case ThreadEnds(w) => w in s.threads
    case Finish(w, _) => w in s.live && w !in s.threads && w < |s.accepted|
    case Cancel(w) => w in s.live && w < |s.accepted|
    case Drop(w) => w in s.waiting && w < |s.accepted|
  }

  /**
   * A second request for a busy key starts nothing. A worker cancelled while it awaits its thread leaves without
   * recording a result, and its thread goes on; one cancelled before it begins never gets to leave.
   */
  function Apply(s: State, step: Step): State
    requires Enabled(s, step)
  {
    match step
    case Request(key) =>
      if key in s.active then s
      else
        var w := |s.accepted|;
        s.(active := s.active[key := w], results := s.results[key := Running],
           accepted := s.accepted + [key], waiting := s.waiting + {w})
    case Begin(w) => s.(waiting := s.waiting - {w}, live := s.live + {w}, threads := s.threads + {w})
    case ThreadEnds(w) => s.(threads := s.threads - {w})
    case Finish(w, o) =>
      var key := s.accepted[w];
      s.(active := s.active - {key}, results := s.results[key := ReportOf(o)],
         live := s.live - {w}, records := s.records + [w], outcomes := s.outcomes[w := o])
    case Cancel(w) =>
      s.(active := s.active - {s.accepted[w]}, live := s.live - {w}, cancelled := s.cancelled + {w},
         orphaned := if w in s.threads then s.orphaned + {w} else s.orphaned)
    case Drop(w) => s.(waiting := s.waiting - {w}, dropped := s.dropped + {w})
  }

  datatype Status = Idle | Reported(report: Report)

  function StatusOf(s: State, key: string): Status {
    if key in s.active then Reported(Running)
    else if key in s.results then Reported(s.results[key])
    else Idle
  }

  ghost predicate Legal(steps: seq<Step>)
    decreases |steps|, 0
  {
    steps == [] || (Legal(steps[..|steps| - 1]) && Enabled(Run(steps[..|steps| - 1]), steps[|steps| - 1]))
  }

  ghost function Run(steps: seq<Step>): State
    requires Legal(steps)
    decreases |steps|, 1
  {
    if steps == [] then START else Apply(Run(steps[..|steps| - 1]), steps[|steps| - 1])
  }

  // ---------- names ----------

  /** The names call for the same apply: the same id, or no id on either side and the same project name. */
  ghost predicate SameProject(id: string, name: string, otherId: string, otherName: string) {
    if Strip(id) != "" then Strip(otherId) == Strip(id)
    else Strip(otherId) == "" && Strip(otherName) == Strip(name)
  }

  /** The id decides: once an apply is accepted under an id, that id finds it running, whatever name goes with it. */
  lemma IdNamesTheApply(steps: seq<Step>, id: string, name: string, otherId: string, otherName: string)
    requires Legal(steps) && (Strip(id) != "" || Strip(name) != "") && SameProject(id, name, otherId, otherName)
    ensures LookupKey(otherId, otherName) != ""
    ensures Legal(steps + [Request(AcceptKey(id, name))])
    ensures StatusOf(Run(steps + [Request(AcceptKey(id, name))]), LookupKey(otherId, otherName)) == Reported(Running)
  {
    assert (steps + [Request(AcceptKey(id, name))])[..|steps|] == steps;
  }

  /** And applies under different ids never share a key, whatever their names. */
  lemma DifferentIdsDiffer(id: string, name: string, otherId: string, otherName: string)
    requires Strip(id) != "" && Strip(otherId) != "" && Strip(id) != Strip(otherId)
    ensures AcceptKey(id, name) != LookupKey(otherId, otherName)
  {
  }

  // ---------- what holds at every moment ----------

  /** The last apply accepted for the key, or -1. */
  function LastAccepted(accepted: seq<string>, key: string): int {
    if accepted == [] then -1
    else if accepted[|accepted| - 1] == key then |accepted| - 1
    else LastAccepted(accepted[..|accepted| - 1], key)
  }

  function Times(records: seq<nat>, w: nat): nat {
    if records == [] then 0 else Times(records[..|records| - 1], w) + if records[|records| - 1] == w then 1 else 0
  }

  /** The workers whose key is busy because of them. */
  function Holders(s: State): set<nat> { s.waiting + s.live + s.dropped }

  /** The active dictionary and its holders are the same thing seen from two sides. */
  ghost predicate Paired(s: State) {
    && (forall key :: key in s.active ==>
          s.active[key] in Holders(s) && s.active[key] < |s.accepted| && s.accepted[s.active[key]] == key)
    && (forall w :: w in Holders(s) ==>
          w < |s.accepted| && s.accepted[w] in s.active && s.active[s.accepted[w]] == w)
  }

  /** A key's active worker is the last one accepted for it. */
  ghost predicate ActiveIsLast(s: State) {
    forall key :: key in s.active ==> s.active[key] == LastAccepted(s.accepted, key)
  }

  /** Every accepted worker holds its key, or was cancelled, or has recorded exactly one result. */
  ghost predicate RecordsOnce(s: State) {
    forall w :: 0 <= w ==>
      Times(s.records, w) == if w < |s.accepted| && w !in Holders(s) && w !in s.cancelled then 1 else 0
  }

  /** A worker is in one place at a time; threads belong to live or orphaned workers. */
  ghost predicate PlacesDiffer(s: State) {
    && s.waiting !! s.live && s.waiting !! s.dropped && s.live !! s.dropped
    && s.orphaned <= s.cancelled && s.threads <= s.live + s.orphaned
    && (forall w :: w in s.cancelled ==> w < |s.accepted| && w !in Holders(s))
  }

  ghost predicate LastEnded(s: State, key: string) { LastAccepted(s.accepted, key) in s.outcomes }

  /** A key reads as running exactly while its last worker holds it, or for ever once that worker is cancelled. */
  ghost predicate ResultsFit(s: State) {
    && (forall key :: key in s.results <==> LastAccepted(s.accepted, key) >= 0)
    && (forall key :: key in s.results ==>
          (s.results[key] == Running <==> key in s.active || LastAccepted(s.accepted, key) in s.cancelled))
    && (forall key :: key in s.results && key !in s.active && LastAccepted(s.accepted, key) !in s.cancelled ==>
          LastEnded(s, key) && s.results[key] == ReportOf(s.outcomes[LastAccepted(s.accepted, key)]))
  }

  ghost predicate Inv(s: State) {
    Paired(s) && ActiveIsLast(s) && RecordsOnce(s) && PlacesDiffer(s) && ResultsFit(s)
  }

  lemma {:induction false} LastIsAccepted(accepted: seq<string>, key: string)
    ensures -1 <= LastAccepted(accepted, key) < |accepted|
    ensures LastAccepted(accepted, key) >= 0 ==> accepted[LastAccepted(accepted, key)] == key
  {
    if accepted != [] { LastIsAccepted(accepted[..|accepted| - 1], key); }
  }

  lemma RequestStaysPaired(s: State, key: string)
    requires Paired(s) && ActiveIsLast(s) && key !in s.active
    ensures Paired(Apply(s, Request(key))) && ActiveIsLast(Apply(s, Request(key)))
  {
    var after := Apply(s, Request(key));
    assert after.accepted[..|s.accepted|] == s.accepted;
    assert Holders(after) == Holders(s) + {|s.accepted|};
  }

  lemma RequestStillFits(s: State, key: string)
    requires ResultsFit(s) && PlacesDiffer(s) && key !in s.active
    ensures ResultsFit(Apply(s, Request(key)))
  {
    var after := Apply(s, Request(key));
    forall k ensures LastAccepted(after.accepted, k) == if k == key then |s.accepted| else LastAccepted(s.accepted, k) {
    }
    assert |s.accepted| !in s.cancelled;
  }

  lemma RequestRecordsOnce(s: State, key: string)
    requires RecordsOnce(s) && PlacesDiffer(s) && Paired(s) && key !in s.active
    ensures RecordsOnce(Apply(s, Request(key))) && PlacesDiffer(Apply(s, Request(key)))
  {
    assert |s.accepted| !in Holders(s) && |s.accepted| !in s.cancelled;
    assert Holders(Apply(s, Request(key))) == Holders(s) + {|s.accepted|};
  }

  lemma RequestKeepsInv(s: State, key: string)
    requires Inv(s) && key !in s.active
    ensures Inv(Apply(s, Request(key)))
  {
    RequestRecordsOnce(s, key);
    RequestStaysPaired(s, key);
    RequestStillFits(s, key);
  }

  lemma FinishStillFits(s: State, w: nat, o: Outcome)
    requires ResultsFit(s) && ActiveIsLast(s) && Paired(s) && PlacesDiffer(s) && Enabled(s, Finish(w, o))
    ensures ResultsFit(Apply(s, Finish(w, o)))
  {
    var after, key := Apply(s, Finish(w, o)), s.accepted[w];
    assert s.active[key] == w && LastAccepted(s.accepted, key) == w;
    forall k ensures k != key ==> LastAccepted(s.accepted, k) != w { LastIsAccepted(s.accepted, k); }
    forall k | k in after.results && k !in after.active && LastAccepted(s.accepted, k) !in after.cancelled
      ensures LastEnded(after, k) && after.results[k] == ReportOf(after.outcomes[LastAccepted(s.accepted, k)])
    {
      assert k != key ==> LastEnded(s, k);
    }
  }

  /** A holder that leaves frees its key. */
  lemma LeavingStaysPaired(s: State, w: nat, after: State)
    requires Paired(s) && ActiveIsLast(s) && w in Holders(s) && w < |s.accepted|
    requires after.active == s.active - {s.accepted[w]} && Holders(after) == Holders(s) - {w} && after.accepted == s.accepted
    ensures Paired(after) && ActiveIsLast(after)
  {
  }

  lemma FinishRecordsOnce(s: State, w: nat, o: Outcome)
    requires RecordsOnce(s) && PlacesDiffer(s) && Enabled(s, Finish(w, o))
    ensures RecordsOnce(Apply(s, Finish(w, o))) && PlacesDiffer(Apply(s, Finish(w, o)))
  {
    var after := Apply(s, Finish(w, o));
    assert after.records[..|s.records|] == s.records;
    assert Holders(after) == Holders(s) - {w};
  }

  lemma FinishKeepsInv(s: State, w: nat, o: Outcome)
    requires Inv(s) && Enabled(s, Finish(w, o))
    ensures Inv(Apply(s, Finish(w, o)))
  {
    var after := Apply(s, Finish(w, o));
    assert Holders(after) == Holders(s) - {w} by { assert PlacesDiffer(s); }
    LeavingStaysPaired(s, w, after);
    FinishRecordsOnce(s, w, o);
    FinishStillFits(s, w, o);
  }

  lemma CancelStillFits(s: State, w: nat)
    requires ResultsFit(s) && ActiveIsLast(s) && Paired(s) && Enabled(s, Cancel(w))
    ensures ResultsFit(Apply(s, Cancel(w)))
  {
    var after, key := Apply(s, Cancel(w)), s.accepted[w];
    assert w in Holders(s);
    assert s.active[key] == w && LastAccepted(s.accepted, key) == w;
    forall k | k in s.results && k != key ensures LastAccepted(s.accepted, k) != w { LastIsAccepted(s.accepted, k); }
    assert key in s.results && s.results[key] == Running by { assert LastAccepted(s.accepted, key) >= 0; }
  }

  lemma CancelKeepsInv(s: State, w: nat)
    requires Inv(s) && Enabled(s, Cancel(w))
    ensures Inv(Apply(s, Cancel(w)))
  {
    var after := Apply(s, Cancel(w));
    assert Holders(after) == Holders(s) - {w} by { assert PlacesDiffer(s); }
    LeavingStaysPaired(s, w, after);
    CancelStillFits(s, w);
  }

  /** Beginning, ending a thread and being dropped leave both dictionaries and every holder's key as they are. */
  lemma SameHoldersKeepInv(s: State, after: State)
    requires Inv(s) && Holders(after) == Holders(s) && PlacesDiffer(after)
    requires after == s.(waiting := after.waiting, live := after.live, threads := after.threads, dropped := after.dropped)
    ensures Inv(after)
  {
  }

  lemma QuietStepKeepsInv(s: State, step: Step)
    requires Inv(s) && Enabled(s, step) && (step.Begin? || step.ThreadEnds? || step.Drop?)
    ensures Inv(Apply(s, step))
  {
    var after := Apply(s, step);
    assert PlacesDiffer(s);
    assert Holders(after) == Holders(s);
    PlacesStayDifferent(s, step);
    SameHoldersKeepInv(s, after);
  }

  lemma PlacesStayDifferent(s: State, step: Step)
    requires PlacesDiffer(s) && Enabled(s, step) && (step.Begin? || step.ThreadEnds? || step.Drop?)
    ensures PlacesDiffer(Apply(s, step))
  {
  }

  lemma StepKeepsInv(s: State, step: Step)
    requires Inv(s) && Enabled(s, step)
    ensures Inv(Apply(s, step))
  {
    match step {
      case Request(key) => if key !in s.active { RequestKeepsInv(s, key); }
      case Finish(w, o) => FinishKeepsInv(s, w, o);
      case Cancel(w) => CancelKeepsInv(s, w);
      case _ => QuietStepKeepsInv(s, step);
    }
  }

  lemma {:induction false} RunKeepsInv(steps: seq<Step>)
    requires Legal(steps)
    ensures Inv(Run(steps))
  {
    if steps != [] {
      RunKeepsInv(steps[..|steps| - 1]);
      StepKeepsInv(Run(steps[..|steps| - 1]), steps[|steps| - 1]);
    }
  }

  // ---------- the main results ----------

  ghost predicate WorksOn(s: State, w: nat, key: string) { w < |s.accepted| && s.accepted[w] == key }

  /** However requests, completions and cancellations interleave, a key never has two tasks. */
  lemma OneWorkerPerKey(steps: seq<Step>, v: nat, w: nat, key: string)
    requires Legal(steps) && WorksOn(Run(steps), v, key) && WorksOn(Run(steps), w, key)
    requires v in Run(steps).waiting + Run(steps).live && w in Run(steps).waiting + Run(steps).live
    ensures v == w
  {
    RunKeepsInv(steps);
  }

  /**
   * Of the threads that run for a key, all but the one accepted last belong to a worker that was cancelled while
   * its thread ran. So a key never has two threads unless one of its workers was cancelled that way.
   */
  lemma OneThreadPerKey(steps: seq<Step>, v: nat, w: nat, key: string)
    requires Legal(steps) && WorksOn(Run(steps), v, key) && WorksOn(Run(steps), w, key)
    requires v in Run(steps).threads && w in Run(steps).threads && v < w
    ensures v in Run(steps).orphaned
  {
    RunKeepsInv(steps);
    var s := Run(steps);
    if v in s.live { LastIsLargest(s.accepted, key, w); }
  }

  lemma {:induction false} LastIsLargest(accepted: seq<string>, key: string, w: nat)
    requires w < |accepted| && accepted[w] == key
    ensures w <= LastAccepted(accepted, key)
  {
    if w < |accepted| - 1 { LastIsLargest(accepted[..|accepted| - 1], key, w); }
  }

  /** And whenever such a thread still runs on a free key, the next request gives the key a second one. */
  lemma OrphanLetsASecondRun(steps: seq<Step>, v: nat, key: string)
    requires Legal(steps) && WorksOn(Run(steps), v, key)
    requires v in Run(steps).threads && v in Run(steps).orphaned && key !in Run(steps).active
    ensures var w := |Run(steps).accepted|;
      var more := steps + [Request(key)] + [Begin(w)];
      Legal(more) && v != w && WorksOn(Run(more), v, key) && WorksOn(Run(more), w, key)
      && v in Run(more).threads && w in Run(more).threads
  {
    RunExtends(steps, Request(key));
    RunExtends(steps + [Request(key)], Begin(|Run(steps).accepted|));
  }

  /** Cancelling a worker frees its key while its thread runs, and two threads then work on it. */
  lemma CancelledWorkerLeavesItsThread(key: string)
    ensures exists steps :: (
      && Legal(steps) && WorksOn(Run(steps), 0, key) && WorksOn(Run(steps), 1, key)
      && 0 in Run(steps).threads && 1 in Run(steps).threads)
  {
    var three := CancelledRun(key);
    OrphanLetsASecondRun(three, 0, key);
  }

  lemma CancelledRun(key: string) returns (steps: seq<Step>)
    ensures Legal(steps) && key !in Run(steps).active && Run(steps).accepted == [key]
    ensures Run(steps).live == {} && Run(steps).waiting == {} && Run(steps).threads == {0} == Run(steps).orphaned
    ensures key in Run(steps).results && Run(steps).results[key] == Running
  {
    RunExtends([], Request(key));
    var one := [] + [Request(key)];
    RunExtends(one, Begin(0));
    var two := one + [Begin(0)];
    RunExtends(two, Cancel(0));
    steps := two + [Cancel(0)];
  }

  /** A thread that was not left behind is reported: its key reads as running. */
  lemma RunningThreadIsReported(steps: seq<Step>, w: nat, key: string)
    requires Legal(steps) && WorksOn(Run(steps), w, key) && w in Run(steps).threads && w !in Run(steps).orphaned
    ensures StatusOf(Run(steps), key) == Reported(Running)
  {
    RunKeepsInv(steps);
  }

  /** Every accepted apply holds its key, was cancelled, or recorded exactly one result. */
  lemma OneResultPerApply(steps: seq<Step>, w: nat)
    requires Legal(steps) && w < |Run(steps).accepted|
    ensures Times(Run(steps).records, w) <= 1
    ensures Times(Run(steps).records, w) == 1
       <==> w !in Run(steps).waiting && w !in Run(steps).live && w !in Run(steps).cancelled && w !in Run(steps).dropped
  {
    RunKeepsInv(steps);
  }

  /** A task is at work on the key, or is about to begin. */
  ghost predicate AtWork(s: State, key: string) { exists w :: w in s.waiting + s.live && WorksOn(s, w, key) }

  /** A thread works on the key, with or without a task that awaits it. */
  ghost predicate ThreadRuns(s: State, key: string) { exists w :: w in s.threads && WorksOn(s, w, key) }

  /** The key's last worker was cancelled. */
  ghost predicate LastWasCancelled(s: State, key: string) {
    LastAccepted(s.accepted, key) in s.cancelled || LastAccepted(s.accepted, key) in s.dropped
  }

  lemma BusyMeans(s: State, key: string)
    requires Inv(s)
    ensures key in s.active <==> AtWork(s, key) || LastAccepted(s.accepted, key) in s.dropped
  {
    LastIsAccepted(s.accepted, key);
    if key in s.active { assert WorksOn(s, s.active[key], key); }
  }

  /**
   * A key is idle exactly when nothing was ever accepted for it. It reads as running exactly while a worker is
   * at work on it, or when its last worker was cancelled.
   */
  lemma StatusIsHonest(steps: seq<Step>, key: string)
    requires Legal(steps)
    ensures var s := Run(steps);
      && (StatusOf(s, key) == Idle <==> key !in s.accepted)
      && (StatusOf(s, key) == Reported(Running) <==> AtWork(s, key) || LastWasCancelled(s, key))
  {
    RunKeepsInv(steps);
    var s := Run(steps);
    AcceptedHasALast(s.accepted, key);
    BusyMeans(s, key);
  }

  /** Otherwise it reads as its last worker ended: completed exactly when that one succeeded. */
  lemma StatusTellsTheOutcome(steps: seq<Step>, key: string)
    requires Legal(steps) && key in Run(steps).accepted
    requires !AtWork(Run(steps), key) && !LastWasCancelled(Run(steps), key)
    ensures var s := Run(steps); var last := LastAccepted(s.accepted, key);
      && last in s.outcomes && last in s.records
      && (StatusOf(s, key) == Reported(Completed) <==> s.outcomes[last].Succeeded?)
      && (StatusOf(s, key) == Reported(Error) <==> s.outcomes[last].FailedWith?)
      && (StatusOf(s, key) == Reported(AwaitingConfirmation) <==> s.outcomes[last].Planned?)
  {
    RunKeepsInv(steps);
    var s := Run(steps);
    AcceptedHasALast(s.accepted, key);
    LastIsAccepted(s.accepted, key);
    BusyMeans(s, key);
    var last := LastAccepted(s.accepted, key);
    TimesMeansRecorded(s.records, last);
    LastRecordedOnce(s, key, last);
  }

  lemma LastRecordedOnce(s: State, key: string, last: nat)
    requires Inv(s) && last == LastAccepted(s.accepted, key) && !AtWork(s, key) && !LastWasCancelled(s, key)
    ensures Times(s.records, last) == 1
  {
    LastIsAccepted(s.accepted, key);
    assert last in s.waiting + s.live ==> WorksOn(s, last, key);
  }

  lemma {:induction false} TimesMeansRecorded(records: seq<nat>, w: nat)
    ensures Times(records, w) > 0 <==> w in records
  {
    if records != [] {
      TimesMeansRecorded(records[..|records| - 1], w);
      assert records == records[..|records| - 1] + [records[|records| - 1]];
    }
  }

  lemma {:induction false} AcceptedHasALast(accepted: seq<string>, key: string)
    ensures LastAccepted(accepted, key) >= 0 <==> key in accepted
  {
    if accepted != [] {
      AcceptedHasALast(accepted[..|accepted| - 1], key);
      assert accepted == accepted[..|accepted| - 1] + [accepted[|accepted| - 1]];
    }
  }

  predicate Cancels(step: Step) { step.Cancel? || step.Drop? }

  lemma {:induction false} NothingCancelled(steps: seq<Step>)
    requires Legal(steps) && forall step :: step in steps ==> !Cancels(step)
    ensures Run(steps).cancelled == {} && Run(steps).dropped == {} && Run(steps).orphaned == {}
  {
    if steps != [] {
      var before := steps[..|steps| - 1];
      assert steps == before + [steps[|steps| - 1]];
      assert !Cancels(steps[|steps| - 1]);
      NothingCancelled(before);
    }
  }

  /** With no cancelled worker, running means that a worker is at work, and every other apply has its result. */
  lemma WithoutCancellation(steps: seq<Step>, key: string)
    requires Legal(steps) && forall step :: step in steps ==> !Cancels(step)
    ensures StatusOf(Run(steps), key) == Reported(Running) <==> AtWork(Run(steps), key)
    ensures forall w :: 0 <= w < |Run(steps).accepted| ==>
      Times(Run(steps).records, w) == if w in Run(steps).waiting + Run(steps).live then 0 else 1
  {
    NothingCancelled(steps);
    StatusIsHonest(steps, key);
    forall w | 0 <= w < |Run(steps).accepted|
      ensures Times(Run(steps).records, w) == if w in Run(steps).waiting + Run(steps).live then 0 else 1
    {
      OneResultPerApply(steps, w);
    }
  }

  /**
   * Whenever a request comes, afterwards its key reads as running; a worker is at work on it exactly unless the
   * last one was cancelled before it began.
   */
  lemma RequestsAreServed(steps: seq<Step>, key: string)
    requires Legal(steps)
    ensures var s := Run(steps); var after := Apply(s, Request(key));
      && StatusOf(after, key) == Reported(Running)
      && (AtWork(after, key) <==> LastAccepted(s.accepted, key) !in s.dropped)
  {
    RunKeepsInv(steps);
    var s := Run(steps);
    StepKeepsInv(s, Request(key));
    BusyMeans(s, key);
    if LastAccepted(s.accepted, key) in s.dropped { DroppedHoldsItsKey(s, key); }
    if key !in s.active { assert WorksOn(Apply(s, Request(key)), |s.accepted|, key); }
  }

  lemma DroppedHoldsItsKey(s: State, key: string)
    requires Inv(s) && LastAccepted(s.accepted, key) in s.dropped
    ensures key in s.active && !AtWork(s, key)
  {
    LastIsAccepted(s.accepted, key);
  }

  lemma RunExtends(steps: seq<Step>, step: Step)
    requires Legal(steps) && Enabled(Run(steps), step)
    ensures Legal(steps + [step]) && Run(steps + [step]) == Apply(Run(steps), step)
  {
    assert (steps + [step])[..|steps + [step]| - 1] == steps;
  }

  lemma StepKeepsDropped(s: State, step: Step, w: nat, key: string)
    requires Enabled(s, step) && w in s.dropped && WorksOn(s, w, key)
    ensures w in Apply(s, step).dropped && WorksOn(Apply(s, step), w, key)
  {
  }

  lemma {:induction false} DroppedStaysDropped(steps: seq<Step>, n: nat, w: nat, key: string)
    requires Legal(steps) && n <= |steps| && Legal(steps[..n]) && w in Run(steps[..n]).dropped && WorksOn(Run(steps[..n]), w, key)
    ensures w in Run(steps).dropped && WorksOn(Run(steps), w, key)
    decreases |steps|
  {
    if n == |steps| {
      assert steps[..n] == steps;
    } else {
      var before := steps[..|steps| - 1];
      assert before[..n] == steps[..n];
      DroppedStaysDropped(before, n, w, key);
      StepKeepsDropped(Run(before), steps[|steps| - 1], w, key);
    }
  }

  /** A worker cancelled before it began keeps its key busy for the rest of the run: nothing is accepted for it. */
  lemma DroppedKeyStaysBusy(steps: seq<Step>, n: nat, w: nat, key: string)
    requires Legal(steps) && n <= |steps| && Legal(steps[..n]) && w in Run(steps[..n]).dropped && WorksOn(Run(steps[..n]), w, key)
    ensures LastAccepted(Run(steps).accepted, key) == w
    ensures StatusOf(Run(steps), key) == Reported(Running) && !AtWork(Run(steps), key)
  {
    DroppedStaysDropped(steps, n, w, key);
    RunKeepsInv(steps);
    var s := Run(steps);
    assert w in Holders(s) && s.active[key] == w;
  }

  /** A cancelled worker leaves its key reading as running with no task and no thread at work. */
  lemma CancelledApplyReadsAsRunning(key: string)
    ensures exists steps :: (
      && Legal(steps) && StatusOf(Run(steps), key) == Reported(Running)
      && !AtWork(Run(steps), key) && !ThreadRuns(Run(steps), key))
  {
    var three := CancelledRun(key);
    RunExtends(three, ThreadEnds(0));
    var four := three + [ThreadEnds(0)];
    assert StatusOf(Run(four), key) == Reported(Running) && !AtWork(Run(four), key) && !ThreadRuns(Run(four), key);
  }

  // ---------- the handlers ----------

  class ApplyContext {
    ghost const worker: nat
    var cancelRequested: bool
    var phase: string

    constructor (ghost w: nat)
      ensures worker == w && !cancelRequested
    {
      worker, cancelRequested, phase := w, false, "";
    }
  }

  class TerraformApplies {
    var active: map<string, ApplyContext>
    var results: map<string, Report>
    ghost var accepted: seq<string>
    ghost var waiting: set<nat>
    ghost var live: set<nat>
    ghost var threads: set<nat>
    ghost var records: seq<nat>
    ghost var outcomes: map<nat, Outcome>
    ghost var cancelled: set<nat>
    ghost var orphaned: set<nat>
    ghost var dropped: set<nat>

    ghost function Current(): State
      reads this
    {
      State(map key | key in active :: active[key].worker, results, accepted, waiting, live, threads, records,
            outcomes, cancelled, orphaned, dropped)
    }

    constructor ()
      ensures Current() == START
    {
      active, results, accepted, records, outcomes := map[], map[], [], [], map[];
      waiting, live, threads, cancelled, orphaned, dropped := {}, {}, {}, {}, {}, {};
    }

    method Accept(key: string) returns (started: bool, ctx: ApplyContext)
      modifies this
      ensures Current() == Apply(old(Current()), Request(key))
      ensures started == (key !in old(active)) && key in active && active[key] == ctx
      ensures started ==> fresh(ctx) && !ctx.cancelRequested
    {
      if key in active { return false, active[key]; }
      ctx := new ApplyContext(|accepted|);
      active := active[key := ctx];
      assert Current().active == old(Current().active)[key := |accepted|];
      results := results[key := Running];
      waiting := waiting + {|accepted|};
      accepted := accepted + [key];
      started := true;
    }

    /** The worker's task begins and hands the work to a thread. */
    method Launch(ctx: ApplyContext, ghost w: nat)
      requires Enabled(Current(), Begin(w)) && ctx.worker == w
      modifies this`waiting, this`live, this`threads, ctx`phase
      ensures Current() == Apply(old(Current()), Begin(w)) && ctx.phase == "starting"
    {
      ctx.phase := "starting";
      waiting, live, threads := waiting - {w}, live + {w}, threads + {w};
    }

    /** The end of a worker: the two dictionaries change together, with nothing in between. */
    method Conclude(key: string, ghost w: nat, outcome: Outcome)
      requires Enabled(Current(), Finish(w, outcome)) && accepted[w] == key
      modifies this
      ensures Current() == Apply(old(Current()), Finish(w, outcome))
    {
      active := active - {key};
      assert Current().active == old(Current().active) - {key};
      results := results[key := ReportOf(outcome)];
      live := live - {w};
      records := records + [w];
      outcomes := outcomes[w := outcome];
    }

    /** A cancelled worker has no result to record, and no way to stop its thread. */
    method Abandon(key: string, ghost w: nat)
      requires Enabled(Current(), Cancel(w)) && accepted[w] == key
      modifies this
      ensures Current() == Apply(old(Current()), Cancel(w))
    {
      active := active - {key};
      assert Current().active == old(Current().active) - {key};
      live := live - {w};
      cancelled := cancelled + {w};
      if w in threads { orphaned := orphaned + {w}; }
    }

    method Status(key: string) returns (status: Status)
      ensures status == StatusOf(Current(), key)
    {
      if key in active { return Reported(Running); }
      if key in results { return Reported(results[key]); }
      return Idle;
    }

    /** Stopping only raises a flag that the worker reads: the registry is untouched. */
    method Stop(key: string) returns (found: bool)
      modifies if key in active then {active[key]} else {}
      ensures found == (key in active) && Current() == old(Current())
      ensures found ==> active[key].cancelRequested
    {
      if key !in active { return false; }
      active[key].cancelRequested := true;
      return true;
    }
  }
}
