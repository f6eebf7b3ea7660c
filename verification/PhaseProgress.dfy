/** A scan never gets stuck and never runs for ever. */
module PhaseProgress {
  import opened PhaseScheduler

  // ---------- how much is left ----------

  /** More steps than the task can still take. */
  function TaskWork(pc: Pc): nat {
    match pc
    case Waiting(m) => if m == Sbom then 11 else 6
    case Holding(m, rounds) => (if m == Sbom then 6 else 1) + if rounds < 3 then 4 - rounds else 1
    case Image(_) => 1
    case Done => 0
  }

  function TasksWork(tasks: seq<Task>): nat {
    if tasks == [] then 0 else TasksWork(tasks[..|tasks| - 1]) + TaskWork(tasks[|tasks| - 1].pc)
  }

  /** Twelve for each module to plan, and one for the end of each phase. */
  function PhasesWork(phases: seq<seq<Module>>): nat
    decreases |phases|
  {
    if phases == [] then 0 else 12 * |phases[0]| + 1 + PhasesWork(phases[1..])
  }

  function Planless(c: Config, s: State): int {
    if s.phase < |c.phases| then PhasesWork(c.phases[s.phase..]) - 12 * s.next else 0
  }

  function Work(c: Config, s: State): int {
    if s.result.Returned? then 0 else 1 + Planless(c, s) + TasksWork(s.tasks)
  }

  lemma TasksWorkOfOne(tasks: seq<Task>, t: Task)
    ensures TasksWork(tasks + [t]) == TasksWork(tasks) + TaskWork(t.pc)
  {
    assert (tasks + [t])[..|tasks|] == tasks;
  }

  lemma {:induction false} TaskMoves(tasks: seq<Task>, i: nat, pc: Pc)
    requires i < |tasks|
    ensures TasksWork(tasks[i := tasks[i].(pc := pc)]) == TasksWork(tasks) - TaskWork(tasks[i].pc) + TaskWork(pc)
  {
    var n := |tasks| - 1;
    var after := tasks[i := tasks[i].(pc := pc)];
    if i < n {
      TaskMoves(tasks[..n], i, pc);
      assert after[..n] == tasks[..n][i := tasks[i].(pc := pc)];
    } else {
      assert after[..n] == tasks[..n];
    }
  }

  lemma PlanGivesLittle(c: Config, m: Module, checkov: Checked, ready: bool, image: bool)
    ensures var tasks := PlanOne(c, m, checkov, ready, image).tasks;
      |tasks| <= 1 && (|tasks| == 1 ==> TaskWork(tasks[0].pc) <= 11)
  {
  }

  lemma FewTasksMore(tasks: seq<Task>, more: seq<Task>)
    requires |more| <= 1 && (|more| == 1 ==> TaskWork(more[0].pc) <= 11)
    ensures TasksWork(tasks + more) <= TasksWork(tasks) + 11
  {
    if more == [] {
      assert tasks + more == tasks;
    } else {
      TasksWorkOfOne(tasks, more[0]);
      assert more == [more[0]];
    }
  }

  lemma PlanMovesOn(c: Config, s: State, ready: bool, image: bool)
    requires Planning(c, s)
    ensures Work(c, Apply(c, s, Plan(ready, image))) < Work(c, s)
  {
    var m := c.phases[s.phase][s.next];
    PlanGivesLittle(c, m, s.checkov, ready, image);
    FewTasksMore(s.tasks, PlanOne(c, m, s.checkov, ready, image).tasks);
  }

  lemma PhaseMovesOn(c: Config, s: State)
    requires Enabled(c, s, EndPhase)
    ensures Work(c, Apply(c, s, EndPhase)) < Work(c, s)
  {
    assert c.phases[s.phase..][1..] == c.phases[s.phase + 1..];
  }

  lemma TaskMovesOn(c: Config, s: State, step: Step)
    requires Enabled(c, s, step)
    requires step.Acquire? || step.Report? || step.Conclude? || step.Finish? || step.FinishImage?
    ensures Work(c, Apply(c, s, step)) < Work(c, s)
  {
    TaskMoves(s.tasks, step.i, Apply(c, s, step).tasks[step.i].pc);
  }

  /** The modules planned are in the phase, and planning keeps within it. */
  lemma StepKeepsThePlace(c: Config, s: State, step: Step)
    requires Enabled(c, s, step) && (s.phase < |c.phases| ==> s.next <= |c.phases[s.phase]|)
    ensures var t := Apply(c, s, step); t.phase < |c.phases| ==> t.next <= |c.phases[t.phase]|
  {
  }

  lemma StepMovesOn(c: Config, s: State, step: Step)
    requires Enabled(c, s, step) && (s.phase < |c.phases| ==> s.next <= |c.phases[s.phase]|)
    ensures 0 <= Work(c, Apply(c, s, step)) < Work(c, s)
  {
    StepKeepsThePlace(c, s, step);
    WorkIsLeft(c, s);
    WorkIsLeft(c, Apply(c, s, step));
    match step {
      case Plan(ready, image) => PlanMovesOn(c, s, ready, image);
      case EndPhase => PhaseMovesOn(c, s);
      case Summarise(_) =>
      case _ => TaskMovesOn(c, s, step);
    }
  }

  lemma WorkIsLeft(c: Config, s: State)
    requires s.phase < |c.phases| ==> s.next <= |c.phases[s.phase]|
    ensures Work(c, s) >= if s.result.Returned? then 0 else 1
  {
  }

  /** Every run ends: it has at most twelve steps for each listed module, one for each phase and one more. */
  lemma {:induction false} RunsEnd(c: Config, steps: seq<Step>)
    requires Legal(c, steps)
    ensures |steps| + Work(c, Run(c, steps)) <= 1 + PhasesWork(c.phases) && Work(c, Run(c, steps)) >= 0
    ensures var s := Run(c, steps); s.phase < |c.phases| ==> s.next <= |c.phases[s.phase]|
  {
    if steps == [] {
      assert c.phases[0..] == c.phases;
    } else {
      var n := |steps| - 1;
      RunsEnd(c, steps[..n]);
      StepMovesOn(c, Run(c, steps[..n]), steps[n]);
      StepKeepsThePlace(c, Run(c, steps[..n]), steps[n]);
    }
  }

  // ---------- never stuck ----------

  lemma {:induction false} SomeoneHolds(tasks: seq<Task>) returns (i: nat)
    requires HoldingCount(tasks) > 0
    ensures i < |tasks| && tasks[i].pc.Holding?
  {
    var n := |tasks| - 1;
    if tasks[n].pc.Holding? { i := n; } else { i := SomeoneHolds(tasks[..n]); }
  }

  /** A waiting module can start exactly while fewer modules run than there are slots. */
  lemma StartsWhileASlotIsFree(c: Config, steps: seq<Step>, i: nat)
    requires Legal(c, steps) && ListsOnce(c) && Executing(c, Run(c, steps)) && i < |Run(c, steps).tasks|
    requires Run(c, steps).tasks[i].pc.Waiting?
    ensures Enabled(c, Run(c, steps), Acquire(i)) <==> HoldingCount(Run(c, steps).tasks) < c.slots
  {
    RunKeepsInv(c, steps);
  }

  lemma ExecutingGoesOn(c: Config, steps: seq<Step>) returns (step: Step)
    requires Legal(c, steps) && ListsOnce(c) && c.slots > 0 && Executing(c, Run(c, steps))
    ensures Enabled(c, Run(c, steps), step)
  {
    var s := Run(c, steps);
    if forall t :: t in s.tasks ==> t.pc == Done {
      step := EndPhase;
    } else {
      var i: nat :| i < |s.tasks| && s.tasks[i].pc != Done;
      match s.tasks[i].pc
      case Waiting(_) =>
        StartsWhileASlotIsFree(c, steps, i);
        if HoldingCount(s.tasks) < c.slots {
          step := Acquire(i);
        } else {
          var j := SomeoneHolds(s.tasks);
          step := Finish(j, false);
        }
      case Holding(_, _) => step := Finish(i, false);
      case Image(_) => step := FinishImage(i, false);
    }
  }

  /** With at least one slot, as long as a run has not returned some step can come next. */
  lemma NeverStuck(c: Config, steps: seq<Step>) returns (step: Step)
    requires Legal(c, steps) && ListsOnce(c) && c.slots > 0 && Run(c, steps).result.Unfinished?
    ensures Enabled(c, Run(c, steps), step)
  {
    var s := Run(c, steps);
    RunsEnd(c, steps);
    if s.phase >= |c.phases| {
      step := Summarise(true);
    } else if s.next < |c.phases[s.phase]| {
      step := Plan(true, true);
    } else {
      step := ExecutingGoesOn(c, steps);
    }
  }

  /** Hence every run can be continued to one that returns. */
  lemma {:induction false} EveryRunCanReturn(c: Config, steps: seq<Step>) returns (whole: seq<Step>)
    requires Legal(c, steps) && ListsOnce(c) && c.slots > 0
    ensures steps <= whole && Legal(c, whole) && Run(c, whole).result.Returned?
    decreases 1 + PhasesWork(c.phases) - |steps|
  {
    if Run(c, steps).result.Returned? {
      whole := steps;
    } else {
      var step := NeverStuck(c, steps);
      var more := steps + [step];
      assert more[..|more| - 1] == steps;
      RunsEnd(c, more);
      RunsEnd(c, steps);
      whole := EveryRunCanReturn(c, more);
    }
  }
}
