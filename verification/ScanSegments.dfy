/** The order in which the awaits of a scan's coroutine end. */
module ScanSegments {
  import opened ScanRegistry

  /** A step that resumes the job's own coroutine; losing an event only marks the job. */
  predicate Own(step: Step, id: JobId) { step.Resume? && step.id == id && !step.event.EventLost? }

  /** The work, the hook, the failure message, the closing, the store and the last message, in this order. */
  function Stage(event: Resumption): nat
    requires !event.EventLost?
  {
    match event
    case RunnerReturned(_, _, _) => 0
    case WorkRaised => 0
    case WorkCancelled => 0
    case HookReturned => 1
    case HookRaised => 1
    case HookCancelled => 1
    case ReportEnded => 2
    case Closed => 3
    case CloseCancelled => 3
    case Finished(_) => 4
    case Announced => 5
  }

  function Reached(phase: Phase): nat {
    match phase
    case Working => 0
    case Settling => 1
    case Reporting => 2
    case Closing => 3
    case Storing => 4
    case Announcing => 5
    case Over => 6
  }

  predicate AwaitsHook(step: Step, id: JobId) {
    && step.Resume? && step.id == id && step.event.RunnerReturned?
    && !step.event.completeRaises && step.event.hook == Awaitable
  }

  predicate EndsHook(step: Step, id: JobId) {
    step == Resume(id, HookReturned) || step == Resume(id, HookRaised) || step == Resume(id, HookCancelled)
  }

  ghost predicate HookIsAwaited(steps: seq<Step>, id: JobId) {
    && (exists k :: 0 <= k < |steps| && AwaitsHook(steps[k], id))
    && (forall k :: 0 <= k < |steps| ==> !EndsHook(steps[k], id))
  }

  ghost predicate Untouched(steps: seq<Step>, id: JobId) { forall k :: 0 <= k < |steps| ==> !Own(steps[k], id) }

  /** What the steps so far say of the job's phase. */
  ghost predicate SoFar(steps: seq<Step>, id: JobId, phase: Phase) {
    && (forall k :: 0 <= k < |steps| && Own(steps[k], id) ==> Stage(steps[k].event) < Reached(phase))
    && (phase == Working <==> Untouched(steps, id))
    && (phase == Settling <==> HookIsAwaited(steps, id))
  }

  lemma OtherStepIsNoStep(steps: seq<Step>, id: JobId, n: nat, phase: Phase)
    requires n == |steps| - 1 && SoFar(steps[..n], id, phase) && !Own(steps[n], id)
    ensures SoFar(steps, id, phase)
  {
    SameUpTo(steps, n);
    if HookIsAwaited(steps[..n], id) {
      var k :| 0 <= k < n && AwaitsHook(steps[..n][k], id);
      assert AwaitsHook(steps[k], id);
    }
    if Untouched(steps, id) || HookIsAwaited(steps, id) { assert forall k :: 0 <= k < n ==> steps[..n][k] == steps[k]; }
  }

  lemma AwaitedSince(steps: seq<Step>, id: JobId, n: nat)
    requires n == |steps| - 1
    ensures HookIsAwaited(steps, id) ==> !EndsHook(steps[n], id) && (AwaitsHook(steps[n], id) || HookIsAwaited(steps[..n], id))
  {
    SameUpTo(steps, n);
    if HookIsAwaited(steps, id) && !AwaitsHook(steps[n], id) {
      var k :| 0 <= k < |steps| && AwaitsHook(steps[k], id);
      assert AwaitsHook(steps[..n][k], id);
    }
  }

  lemma AwaitedFromNow(steps: seq<Step>, id: JobId, n: nat)
    requires n == |steps| - 1 && Untouched(steps[..n], id) && AwaitsHook(steps[n], id)
    ensures HookIsAwaited(steps, id)
  {
    SameUpTo(steps, n);
    assert forall k :: 0 <= k < n ==> !Own(steps[..n][k], id);
  }

  lemma OwnStepAdvances(steps: seq<Step>, id: JobId, n: nat, j: Job)
    requires n == |steps| - 1 && SoFar(steps[..n], id, j.phase) && Own(steps[n], id) && CanResume(j, steps[n].event)
    ensures SoFar(steps, id, Resumed(j, steps[n].event).phase)
  {
    SameUpTo(steps, n);
    var after := Resumed(j, steps[n].event).phase;
    assert Stage(steps[n].event) == Reached(j.phase) < Reached(after);
    assert forall k :: 0 <= k < n && Own(steps[k], id) ==> steps[..n][k] == steps[k];
    AwaitedSince(steps, id, n);
    if AwaitsHook(steps[n], id) { AwaitedFromNow(steps, id, n); }
  }

  lemma UntouchedIsWorking(steps: seq<Step>, id: JobId)
    requires forall i :: 0 <= i < |steps| ==> !(steps[i].Resume? && steps[i].id == id)
    ensures SoFar(steps, id, Working)
  {
  }

  lemma NewJobIsUntouched(r: Registry, steps: seq<Step>, id: JobId, n: nat)
    requires Legal(Empty, steps) && n == |steps| - 1 && Legal(Empty, steps[..n]) && r == Run(Empty, steps[..n])
    requires Enabled(r, steps[n]) && |r.jobs| <= id < |Apply(r, steps[n]).jobs|
    ensures SoFar(steps, id, Apply(r, steps[n]).jobs[id].phase)
  {
    NoJobNoSteps(Empty, steps[..n], id);
    SameUpTo(steps, n);
    UntouchedIsWorking(steps, id);
  }

  lemma JobMovesOn(r: Registry, steps: seq<Step>, id: JobId, n: nat)
    requires n == |steps| - 1 && Enabled(r, steps[n]) && id < |r.jobs| && SoFar(steps[..n], id, r.jobs[id].phase)
    ensures id < |Apply(r, steps[n]).jobs| && SoFar(steps, id, Apply(r, steps[n]).jobs[id].phase)
  {
    if Own(steps[n], id) { OwnStepAdvances(steps, id, n, r.jobs[id]); }
    else { OtherStepIsNoStep(steps, id, n, r.jobs[id].phase); }
  }

  lemma {:induction false} EveryPhaseIsSoFar(steps: seq<Step>, id: JobId)
    requires Legal(Empty, steps) && id < |Run(Empty, steps).jobs|
    ensures SoFar(steps, id, Run(Empty, steps).jobs[id].phase)
    decreases |steps|
  {
    if steps != [] {
      var n := |steps| - 1;
      RunOneMore(Empty, steps, n);
      var r := Run(Empty, steps[..n]);
      if id < |r.jobs| {
        EveryPhaseIsSoFar(steps[..n], id);
        JobMovesOn(r, steps, id, n);
      } else {
        NewJobIsUntouched(r, steps, id, n);
      }
    }
  }

  lemma {:induction false} PrefixIsLegal(r: Registry, steps: seq<Step>, n: nat)
    requires Legal(r, steps) && n < |steps|
    ensures Legal(r, steps[..n]) && Enabled(Run(r, steps[..n]), steps[n])
    decreases n
  {
    if n > 0 {
      assert steps[1..][..n - 1] == steps[..n][1..];
      PrefixIsLegal(Apply(r, steps[0]), steps[1..], n - 1);
    }
  }

  /** The awaits of one coroutine end one after the other, in the order of their stages, each at most once. */
  lemma AwaitsEndInOrder(steps: seq<Step>, id: JobId, a: nat, b: nat)
    requires Legal(Empty, steps) && a < b < |steps| && Own(steps[a], id) && Own(steps[b], id)
    ensures Stage(steps[a].event) < Stage(steps[b].event)
  {
    PrefixIsLegal(Empty, steps, b);
    EveryPhaseIsSoFar(steps[..b], id);
    assert steps[..b][a] == steps[a];
    assert CanResume(Run(Empty, steps[..b]).jobs[id], steps[b].event);
  }

  /**
   * A job runs exactly until its work ends, and the hook can end exactly while it is awaited: after a runner that
   * returned with an awaitable hook, and before that hook has ended.
   */
  lemma JobRunsUntilItsWorkEnds(steps: seq<Step>, id: JobId)
    requires Legal(Empty, steps) && id < |Run(Empty, steps).jobs|
    ensures var j := Run(Empty, steps).jobs[id];
      && (j.status == Running <==> Untouched(steps, id))
      && (CanResume(j, HookReturned) <==> HookIsAwaited(steps, id))
  {
    RunKeepsInv(Empty, steps);
    assert JobOk(Run(Empty, steps).jobs[id]);
    EveryPhaseIsSoFar(steps, id);
  }
}
