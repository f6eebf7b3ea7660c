/** One scan run as the program keeps it: a dictionary of module records, a semaphore, and the tasks of a phase. */
module ScanRun {
  import opened PhaseScheduler

  const MODULES: seq<Module> := [Sast, Secrets, Sbom, Sca, Containers, Iac, Kubernetes, Cicd, Api, Dast, Cloud]

  class Run {
    const config: Config
    var records: map<Module, Status>
    var phase: nat
    var next: nat
    var checkov: Checked
    var tasks: seq<Task>
    var free: nat
    var result: Verdict
    ghost var trace: seq<Emission>

    ghost function Current(): State
      reads this
    {
      State(trace, phase, next, checkov, tasks, free, result)
    }

    /** The dictionary holds the latest record of every module. */
    ghost predicate Recorded()
      reads this
    {
      forall m :: m in records && records[m] == StatusIn(trace, m)
    }

    constructor (c: Config)
      ensures config == c && Recorded() && Current() == Init(c)
    {
      config := c;
      phase, next, checkov, tasks, free, result := 0, 0, Unknown, [], c.slots, Unfinished;
      trace := [];
      records := map m | m in MODULES :: Queued;
      new;
      EveryModuleIsListed();
    }

    method Emit(m: Module, status: Status)
      requires Recorded()
      modifies this`records, this`trace
      ensures Recorded() && trace == old(trace) + [Emission(m, status)]
    {
      records := records[m := status];
      trace := trace + [Emission(m, status)];
    }

    method PlanModule(ready: bool, image: bool)
      requires Recorded() && Enabled(config, Current(), Step.Plan(ready, image))
      modifies this
      ensures Recorded() && Current() == Apply(config, old(Current()), Step.Plan(ready, image))
    {
      var m := config.phases[phase][next];
      next := next + 1;
      assert trace + [] == trace && tasks + [] == tasks;
      if m == Sbom { return; }
      if m == Sca {
        if Sca in config.wanted || Sbom in config.wanted {
          tasks := tasks + [Task(Supply, Waiting(Sbom))];
        } else {
          Emit(Sbom, Skipped);
          Emit(Sca, Skipped);
          assert trace == old(trace) + [Emission(Sbom, Skipped), Emission(Sca, Skipped)];
        }
        return;
      }
      if m !in config.wanted {
        Emit(m, Skipped);
        return;
      }
      if m == Dast || m == Cloud {
        if !ready {
          Emit(m, Skipped);
          return;
        }
        if !image {
          Emit(m, Failed);
          return;
        }
      } else if Checkov(m) {
        if checkov.Unknown? { checkov := Known(image); }
        if !checkov.ok {
          Emit(m, Failed);
          return;
        }
      }
      tasks := tasks + [Task(Single(m), Waiting(m))];
    }

    /** A task gets a slot and says that its module starts. */
    method Enter(i: nat)
      requires Recorded() && Enabled(config, Current(), Acquire(i))
      modifies this
      ensures Recorded() && Current() == Apply(config, old(Current()), Acquire(i))
    {
      var m := tasks[i].pc.m;
      free := free - 1;
      tasks := tasks[i := tasks[i].(pc := Holding(m, 0))];
      Emit(m, Starting);
    }

    method ReportRunning(i: nat)
      requires Recorded() && Enabled(config, Current(), Report(i))
      modifies this
      ensures Recorded() && Current() == Apply(config, old(Current()), Report(i))
    {
      var pc := tasks[i].pc;
      tasks := tasks[i := tasks[i].(pc := Holding(pc.m, pc.rounds + 1))];
      Emit(pc.m, Running);
    }

    /** The report is validated; what is sent next may still raise. */
    method RecordSuccess(i: nat, outcome: Status)
      requires Recorded() && Enabled(config, Current(), Conclude(i, outcome))
      modifies this
      ensures Recorded() && Current() == Apply(config, old(Current()), Conclude(i, outcome))
    {
      var pc := tasks[i].pc;
      tasks := tasks[i := tasks[i].(pc := Holding(pc.m, 3))];
      Emit(pc.m, outcome);
    }

    /** The module's run ends and its slot is free again; the dependency branch then goes on to Grype or stops. */
    method Leave(i: nat, ok: bool)
      requires Recorded() && Enabled(config, Current(), Finish(i, ok))
      modifies this
      ensures Recorded() && Current() == Apply(config, old(Current()), Finish(i, ok))
    {
      var t := tasks[i];
      assert trace + [] == trace;
      if !ok { Emit(t.pc.m, Failed); }
      assert trace == old(trace) + Ended(t.pc.m, ok);
      free := free + 1;
      if t.kind.Single? {
        tasks := tasks[i := t.(pc := Done)];
      } else if t.pc.m == Sbom {
        if !ok || Sca !in config.wanted {
          Emit(Sca, Skipped);
          assert trace == old(trace) + (Ended(t.pc.m, ok) + [Emission(Sca, Skipped)]);
          tasks := tasks[i := t.(pc := Done)];
        } else {
          tasks := tasks[i := t.(pc := Waiting(Sca))];
        }
      } else if config.artifact {
        tasks := tasks[i := t.(pc := Image(ok))];
      } else {
        tasks := tasks[i := t.(pc := Done)];
      }
      assert Ended(t.pc.m, ok) + [] == Ended(t.pc.m, ok);
    }

    method LeaveImage(i: nat, ok: bool)
      requires Recorded() && Enabled(config, Current(), FinishImage(i, ok))
      modifies this
      ensures Recorded() && Current() == Apply(config, old(Current()), FinishImage(i, ok))
    {
      var t := tasks[i];
      if ok && t.pc.ok { Emit(Sca, Completed); } else { Emit(Sca, Failed); }
      tasks := tasks[i := t.(pc := Done)];
    }

    method NextPhase()
      requires Recorded() && Enabled(config, Current(), EndPhase)
      modifies this`phase, this`next, this`tasks
      ensures Recorded() && Current() == Apply(config, old(Current()), EndPhase)
    {
      phase, next, tasks := phase + 1, 0, [];
    }

    /** The verdict looks only at the final records. */
    method Return(summaryOk: bool) returns (ok: bool)
      requires Recorded() && Enabled(config, Current(), Summarise(summaryOk))
      modifies this`result
      ensures Recorded() && Current() == Apply(config, old(Current()), Summarise(summaryOk)) && result == Returned(ok)
    {
      var failed := false;
      for i := 0 to |MODULES|
        invariant failed <==> exists j :: 0 <= j < i && records[MODULES[j]] == Failed
      {
        if records[MODULES[i]] == Failed { failed := true; }
      }
      EveryModuleIsListed();
      assert failed <==> AnyFailed(trace) by {
        if m :| StatusIn(trace, m) == Failed {
          assert m in MODULES;
          var j :| 0 <= j < |MODULES| && MODULES[j] == m;
          assert records[MODULES[j]] == Failed;
        }
      }
      ok := summaryOk && !failed;
      result := Returned(ok);
    }
  }

  lemma EveryModuleIsListed()
    ensures forall m: Module :: m in MODULES
  {
    forall m: Module ensures m in MODULES {
      match m {
        case Sast => assert MODULES[0] == m;
        case Secrets => assert MODULES[1] == m;
        case Sbom => assert MODULES[2] == m;
        case Sca => assert MODULES[3] == m;
        case Containers => assert MODULES[4] == m;
        case Iac => assert MODULES[5] == m;
        case Kubernetes => assert MODULES[6] == m;
        case Cicd => assert MODULES[7] == m;
        case Api => assert MODULES[8] == m;
        case Dast => assert MODULES[9] == m;
        case Cloud => assert MODULES[10] == m;
      }
    }
  }
}
