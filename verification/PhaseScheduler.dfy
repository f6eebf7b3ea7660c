/** The scan phases as a state machine: modules are planned in order, then a phase's tasks run side by side. */
module PhaseScheduler {

  datatype Module = Sast | Secrets | Sbom | Sca | Containers | Iac | Kubernetes | Cicd | Api | Dast | Cloud

  datatype Status = Queued | Starting | Running | Completed | Skipped | Failed

  datatype Emission = Emission(which: Module, status: Status)

  predicate Terminal(s: Status) { s.Completed? || s.Skipped? || s.Failed? }

  predicate Good(s: Status) { s.Completed? || s.Skipped? }

  predicate Checkov(m: Module) { m in {Iac, Containers, Kubernetes, Cicd, Api} }

  // ---------- what a run wants ----------

  datatype ScanType = SourceOnly | DependenciesOnly | Everything

  /**
   * What the caller asked for (no modules means that the scan type decides), whether the dynamic scan may
   * run, and whether there are cloud credentials.
   */
  datatype Request = Request(modules: set<Module>, scanType: ScanType, dynamicRuns: bool, cloudReady: bool)

  predicate Wants(r: Request, m: Module) {
    if m == Cloud then Cloud in r.modules && r.cloudReady
    else if m == Dast then (r.modules == {} || Dast in r.modules) && r.dynamicRuns
    else if r.modules != {} then m in r.modules || (m == Sbom && Sca in r.modules)
    else match r.scanType
      case SourceOnly => m == Sast
      case DependenciesOnly => m == Sca || m == Sbom
      case Everything => true
  }

  function WantedModules(r: Request): set<Module> { set m: Module | Wants(r, m) }

  /** The phases, the modules this run wants, the number of slots, and whether a built image is scanned too. */
  datatype Config = Config(phases: seq<seq<Module>>, wanted: set<Module>, slots: nat, artifact: bool)

  /**
   * Where a task is: waiting for a slot to run a module, holding one (after two RUNNING records and one of
   * success at most), past Grype with the image scan to come, or finished.
   */
  datatype Pc = Waiting(m: Module) | Holding(m: Module, rounds: nat) | Image(ok: bool) | Done

  /** A branch of one module, or the dependency branch, which runs Syft and then Grype. */
  datatype Kind = Single(m: Module) | Supply

  datatype Task = Task(kind: Kind, pc: Pc)

  datatype Checked = Unknown | Known(ok: bool)

  datatype Verdict = Unfinished | Returned(ok: bool)

  datatype State = State(
    trace: seq<Emission>,       // every record, in the order they were emitted
    phase: nat, next: nat,      // the phase and the module to plan next
    checkov: Checked,           // whether Checkov's image could be prepared
    tasks: seq<Task>,
    free: nat,
    result: Verdict)

  /** The latest record of a module; all are queued before the first phase. */
  function StatusIn(trace: seq<Emission>, m: Module): Status {
    if trace == [] then Queued
    else if trace[|trace| - 1].which == m then trace[|trace| - 1].status
    else StatusIn(trace[..|trace| - 1], m)
  }

  datatype Step =
    | Plan(ready: bool, image: bool)
    | Acquire(i: nat)
    | Report(i: nat)
    | Conclude(i: nat, outcome: Status)
    | Finish(i: nat, ok: bool)
    | FinishImage(i: nat, ok: bool)
    | EndPhase
    | Summarise(ok: bool)

  function Init(c: Config): State { State([], 0, 0, Unknown, [], c.slots, Unfinished) }

  // ---------- planning a module ----------

  /** Records emitted and tasks created for one module, and what is then known of Checkov's image. */
  datatype Planned = Planned(emitted: seq<Emission>, tasks: seq<Task>, checkov: Checked)

  function PlanOne(c: Config, m: Module, checkov: Checked, ready: bool, image: bool): Planned {
    var run := [Task(Single(m), Waiting(m))];
    if m == Sbom then Planned([], [], checkov)
    else if m == Sca then
      if Sca in c.wanted || Sbom in c.wanted then Planned([], [Task(Supply, Waiting(Sbom))], checkov)
      else Planned([Emission(Sbom, Skipped), Emission(Sca, Skipped)], [], checkov)
    else if m !in c.wanted then Planned([Emission(m, Skipped)], [], checkov)
    else if m == Dast || m == Cloud then
      if !ready then Planned([Emission(m, Skipped)], [], checkov)
      else if !image then Planned([Emission(m, Failed)], [], checkov)
      else Planned([], run, checkov)
    else if Checkov(m) then
      var known := if checkov.Unknown? then Known(image) else checkov;
      if known.ok then Planned([], run, known) else Planned([Emission(m, Failed)], [], known)
    else Planned([], run, checkov)
  }

  // ---------- steps ----------

  predicate Planning(c: Config, s: State) {
    s.result.Unfinished? && s.phase < |c.phases| && s.next < |c.phases[s.phase]|
  }

  predicate Executing(c: Config, s: State) {
    s.result.Unfinished? && s.phase < |c.phases| && s.next == |c.phases[s.phase]|
  }

  predicate Enabled(c: Config, s: State, step: Step) {
    match step
    case Plan(_, _) => Planning(c, s)
    case Acquire(i) => Executing(c, s) && i < |s.tasks| && s.tasks[i].pc.Waiting? && s.free > 0
    case Report(i) => Executing(c, s) && i < |s.tasks| && s.tasks[i].pc.Holding? && s.tasks[i].pc.rounds < 2
    case Conclude(i, outcome) =>
      && Executing(c, s) && i < |s.tasks| && s.tasks[i].pc.Holding? && s.tasks[i].pc.rounds == 2 && Good(outcome)
    case Finish(i, ok) =>
      Executing(c, s) && i < |s.tasks| && s.tasks[i].pc.Holding? && (ok ==> s.tasks[i].pc.rounds == 3)
    case FinishImage(i, _) => Executing(c, s) && i < |s.tasks| && s.tasks[i].pc.Image?
    case EndPhase => Executing(c, s) && forall t :: t in s.tasks ==> t.pc == Done
    case Summarise(_) => s.result.Unfinished? && s.phase >= |c.phases|
  }

  /** A run that raises, be it after its success was recorded, records a failure. */
  function Ended(m: Module, ok: bool): seq<Emission> { if ok then [] else [Emission(m, Failed)] }

  /** Where a branch goes when a module has finished, and what it records besides. */
  function AfterModule(c: Config, kind: Kind, m: Module, ok: bool): (Pc, seq<Emission>) {
    if kind.Single? then (Done, [])
    else if m == Sbom then
      if !ok then (Done, [Emission(Sca, Skipped)])
      else if Sca in c.wanted then (Waiting(Sca), [])
      else (Done, [Emission(Sca, Skipped)])
    else (if c.artifact then Image(ok) else Done, [])
  }

  function Moved(s: State, i: nat, pc: Pc, emitted: seq<Emission>): State
    requires i < |s.tasks|
  {
    s.(tasks := s.tasks[i := s.tasks[i].(pc := pc)], trace := s.trace + emitted)
  }

  predicate AnyFailed(trace: seq<Emission>) { exists m :: StatusIn(trace, m) == Failed }

  function Apply(c: Config, s: State, step: Step): State
    requires Enabled(c, s, step)
  {
    match step
    case Plan(ready, image) =>
      var p := PlanOne(c, c.phases[s.phase][s.next], s.checkov, ready, image);
      s.(trace := s.trace + p.emitted, tasks := s.tasks + p.tasks, checkov := p.checkov, next := s.next + 1)
    case Acquire(i) =>
      var m := s.tasks[i].pc.m;
      Moved(s, i, Holding(m, 0), [Emission(m, Starting)]).(free := s.free - 1)
    case Report(i) =>
      var pc := s.tasks[i].pc;
      Moved(s, i, Holding(pc.m, pc.rounds + 1), [Emission(pc.m, Running)])
    case Conclude(i, outcome) =>
      var m := s.tasks[i].pc.m;
      Moved(s, i, Holding(m, 3), [Emission(m, outcome)])
    case Finish(i, ok) =>
      var m := s.tasks[i].pc.m;
      var after := AfterModule(c, s.tasks[i].kind, m, ok);
      Moved(s, i, after.0, Ended(m, ok) + after.1).(free := s.free + 1)
    case FinishImage(i, ok) =>
      Moved(s, i, Done, [Emission(Sca, if ok && s.tasks[i].pc.ok then Completed else Failed)])
    case EndPhase => s.(phase := s.phase + 1, next := 0, tasks := [])
    case Summarise(ok) => s.(result := Returned(ok && !AnyFailed(s.trace)))
  }

  ghost predicate Legal(c: Config, steps: seq<Step>)
    decreases |steps|, 0
  {
    steps == [] || (Legal(c, steps[..|steps| - 1]) && Enabled(c, Run(c, steps[..|steps| - 1]), steps[|steps| - 1]))
  }

  ghost function Run(c: Config, steps: seq<Step>): State
    requires Legal(c, steps)
    decreases |steps|, 1
  {
    if steps == [] then Init(c) else Apply(c, Run(c, steps[..|steps| - 1]), steps[|steps| - 1])
  }

  // ---------- what holds at every moment ----------

  ghost predicate Owns(t: Task, m: Module) {
    if t.kind.Single? then t.kind.m == m else m == Sbom || m == Sca
  }

  /** The record of a module that holds a slot. */
  predicate UnderWay(st: Status, rounds: nat) { if rounds == 3 then Good(st) else st.Starting? || st.Running? }

  /** The records of a task's modules fit where the task is. */
  ghost predicate Fits(t: Task, trace: seq<Emission>) {
    match t.kind
    case Single(m) =>
      var st := StatusIn(trace, m);
      && m != Sbom && m != Sca
      && (match t.pc
          case Waiting(w) => w == m && st.Queued?
          case Holding(w, rounds) => w == m && UnderWay(st, rounds)
          case Image(_) => false
          case Done => Terminal(st))
    case Supply =>
      var syft, grype := StatusIn(trace, Sbom), StatusIn(trace, Sca);
      match t.pc
      case Waiting(w) => grype.Queued? && ((w == Sbom && syft.Queued?) || (w == Sca && Good(syft)))
      case Holding(w, rounds) =>
        || (w == Sbom && UnderWay(syft, rounds) && grype.Queued?)
        || (w == Sca && Good(syft) && UnderWay(grype, rounds))
      case Image(ok) => Good(syft) && (if ok then Good(grype) else grype.Failed?)
      case Done => Terminal(syft) && Terminal(grype)
  }

  ghost predicate TasksFit(s: State) {
    forall i :: 0 <= i < |s.tasks| ==> Fits(s.tasks[i], s.trace)
  }

  ghost predicate OwnersDiffer(s: State) {
    forall i, j, m :: 0 <= i < j < |s.tasks| && Owns(s.tasks[i], m) ==> !Owns(s.tasks[j], m)
  }

  ghost predicate Owned(s: State, m: Module) { exists i :: 0 <= i < |s.tasks| && Owns(s.tasks[i], m) }

  function Flat(phases: seq<seq<Module>>): seq<Module> {
    if phases == [] then [] else Flat(phases[..|phases| - 1]) + phases[|phases| - 1]
  }

  /** The modules planned so far. */
  function PlannedModules(c: Config, phase: nat, next: nat): seq<Module> {
    if phase < |c.phases| && next <= |c.phases[phase]| then Flat(c.phases[..phase]) + c.phases[phase][..next]
    else Flat(c.phases)
  }

  /** Syft is planned when Grype is. */
  function Lead(m: Module): Module { if m == Sbom then Sca else m }

  predicate WasPlanned(c: Config, s: State, m: Module) { Lead(m) in PlannedModules(c, s.phase, s.next) }

  /** A module not planned yet is queued and nobody's; a planned one has an owner or is settled. */
  ghost predicate Placed(c: Config, s: State, m: Module) {
    if WasPlanned(c, s, m) then Owned(s, m) || Terminal(StatusIn(s.trace, m))
    else StatusIn(s.trace, m).Queued? && !Owned(s, m)
  }

  function HoldingCount(tasks: seq<Task>): nat {
    if tasks == [] then 0 else
      HoldingCount(tasks[..|tasks| - 1]) + if tasks[|tasks| - 1].pc.Holding? then 1 else 0
  }

  /** No record of a failed module ever replaces the failure. */
  ghost predicate FailuresStay(trace: seq<Emission>) {
    forall k :: 0 <= k < |trace| && trace[k].status.Failed? ==> StatusIn(trace, trace[k].which).Failed?
  }

  /** When Grype started, Syft's latest record was one of success. */
  ghost predicate GrypeFollowsSyft(trace: seq<Emission>) {
    forall k :: 0 <= k < |trace| && trace[k] == Emission(Sca, Starting) ==> Good(StatusIn(trace[..k], Sbom))
  }

  ghost predicate Inv(c: Config, s: State) {
    && TasksFit(s) && OwnersDiffer(s) && (forall m :: Placed(c, s, m))
    && s.free + HoldingCount(s.tasks) == c.slots
    && FailuresStay(s.trace) && GrypeFollowsSyft(s.trace)
    && s.phase <= |c.phases| && (s.phase < |c.phases| ==> s.next <= |c.phases[s.phase]|)
    && (s.phase == |c.phases| ==> s.tasks == [])
    && (s.result.Returned? ==> s.phase == |c.phases|)
  }

  /** What is assumed of the phases: no module is listed twice. */
  ghost predicate ListsOnce(c: Config) {
    forall i, j :: 0 <= i < j < |Flat(c.phases)| ==> Flat(c.phases)[i] != Flat(c.phases)[j]
  }

  // ---------- records ----------

  lemma StatusOneMore(trace: seq<Emission>, e: Emission, m: Module)
    ensures StatusIn(trace + [e], m) == if e.which == m then e.status else StatusIn(trace, m)
  {
    assert (trace + [e])[..|trace + [e]| - 1] == trace;
  }

  /** The record may follow: it keeps failures, and Grype starts only when Syft is good. */
  ghost predicate MayFollow(trace: seq<Emission>, e: Emission) {
    && (StatusIn(trace, e.which).Failed? ==> e.status.Failed?)
    && (e == Emission(Sca, Starting) ==> Good(StatusIn(trace, Sbom)))
  }

  lemma RecordKeepsHistory(trace: seq<Emission>, e: Emission)
    requires FailuresStay(trace) && GrypeFollowsSyft(trace) && MayFollow(trace, e)
    ensures FailuresStay(trace + [e]) && GrypeFollowsSyft(trace + [e])
  {
    var all := trace + [e];
    forall k | 0 <= k < |all| && all[k].status.Failed? ensures StatusIn(all, all[k].which).Failed? {
      StatusOneMore(trace, e, all[k].which);
    }
    forall k | 0 <= k < |all| && all[k] == Emission(Sca, Starting) ensures Good(StatusIn(all[..k], Sbom)) {
      if k < |trace| {
        assert all[..k] == trace[..k];
      } else {
        assert all[..k] == trace;
      }
    }
  }

  /** Records of at most two modules, each of which may follow. */
  ghost predicate MayAllFollow(trace: seq<Emission>, emitted: seq<Emission>) {
    && |emitted| <= 2
    && (|emitted| > 0 ==> MayFollow(trace, emitted[0]))
    && (|emitted| > 1 ==> MayFollow(trace + [emitted[0]], emitted[1]))
  }

  lemma RecordsKeepHistory(trace: seq<Emission>, emitted: seq<Emission>)
    requires FailuresStay(trace) && GrypeFollowsSyft(trace) && MayAllFollow(trace, emitted)
    ensures FailuresStay(trace + emitted) && GrypeFollowsSyft(trace + emitted)
  {
    if |emitted| == 0 {
      assert trace + emitted == trace;
    } else if |emitted| == 1 {
      RecordKeepsHistory(trace, emitted[0]);
      assert trace + emitted == trace + [emitted[0]];
    } else {
      RecordKeepsHistory(trace, emitted[0]);
      RecordKeepsHistory(trace + [emitted[0]], emitted[1]);
      assert trace + emitted == (trace + [emitted[0]]) + [emitted[1]];
    }
  }

  lemma {:induction false} StatusUnaffected(trace: seq<Emission>, emitted: seq<Emission>, m: Module)
    requires forall e :: e in emitted ==> e.which != m
    ensures StatusIn(trace + emitted, m) == StatusIn(trace, m)
  {
    if emitted == [] {
      assert trace + emitted == trace;
    } else {
      var before, last := emitted[..|emitted| - 1], emitted[|emitted| - 1];
      assert emitted == before + [last] && trace + emitted == (trace + before) + [last];
      StatusUnaffected(trace, before, m);
      StatusOneMore(trace + before, last, m);
    }
  }

  lemma FitsUnaffected(t: Task, trace: seq<Emission>, emitted: seq<Emission>)
    requires Fits(t, trace) && forall e :: e in emitted ==> !Owns(t, e.which)
    ensures Fits(t, trace + emitted)
  {
    if t.kind.Single? {
      StatusUnaffected(trace, emitted, t.kind.m);
    } else {
      StatusUnaffected(trace, emitted, Sbom);
      StatusUnaffected(trace, emitted, Sca);
    }
  }

  // ---------- a task moves ----------

  lemma {:induction false} HoldingCountUpdate(tasks: seq<Task>, i: nat, t: Task)
    requires i < |tasks|
    ensures HoldingCount(tasks[i := t]) + (if tasks[i].pc.Holding? then 1 else 0)
         == HoldingCount(tasks) + (if t.pc.Holding? then 1 else 0)
  {
    var n := |tasks| - 1;
    if i < n {
      HoldingCountUpdate(tasks[..n], i, t);
      assert tasks[i := t][..n] == tasks[..n][i := t];
    } else {
      assert tasks[i := t][..n] == tasks[..n];
    }
  }

  /** A task may move when its records are about its own modules and fit where it goes. */
  ghost predicate MayMove(s: State, i: nat, pc: Pc, emitted: seq<Emission>) {
    && i < |s.tasks|
    && (forall e :: e in emitted ==> Owns(s.tasks[i], e.which))
    && Fits(s.tasks[i].(pc := pc), s.trace + emitted)
    && MayAllFollow(s.trace, emitted)
  }

  lemma MovedTasksFit(s: State, i: nat, pc: Pc, emitted: seq<Emission>)
    requires TasksFit(s) && OwnersDiffer(s) && MayMove(s, i, pc, emitted)
    ensures TasksFit(Moved(s, i, pc, emitted)) && OwnersDiffer(Moved(s, i, pc, emitted))
  {
    var after := Moved(s, i, pc, emitted);
    forall j | 0 <= j < |after.tasks| ensures Fits(after.tasks[j], after.trace) {
      if j != i { FitsUnaffected(s.tasks[j], s.trace, emitted); }
    }
    forall a, b, m | 0 <= a < b < |after.tasks| && Owns(after.tasks[a], m) ensures !Owns(after.tasks[b], m) {
      assert Owns(s.tasks[a], m);
    }
  }

  lemma MovedStaysOwned(s: State, i: nat, pc: Pc, emitted: seq<Emission>, m: Module)
    requires i < |s.tasks|
    ensures Owned(Moved(s, i, pc, emitted), m) <==> Owned(s, m)
  {
    var after := Moved(s, i, pc, emitted);
    assert forall j :: 0 <= j < |s.tasks| ==> (Owns(after.tasks[j], m) <==> Owns(s.tasks[j], m));
  }

  lemma MovedStaysPlaced(c: Config, s: State, i: nat, pc: Pc, emitted: seq<Emission>, m: Module)
    requires Placed(c, s, m) && MayMove(s, i, pc, emitted)
    ensures Placed(c, Moved(s, i, pc, emitted), m)
  {
    MovedStaysOwned(s, i, pc, emitted, m);
    if !Owned(s, m) {
      assert !Owns(s.tasks[i], m);
      StatusUnaffected(s.trace, emitted, m);
    }
  }

  lemma MoveKeepsInv(c: Config, s: State, i: nat, pc: Pc, emitted: seq<Emission>, free: nat)
    requires Inv(c, s) && Executing(c, s) && MayMove(s, i, pc, emitted)
    requires free + (if pc.Holding? then 1 else 0) == s.free + (if s.tasks[i].pc.Holding? then 1 else 0)
    ensures Inv(c, Moved(s, i, pc, emitted).(free := free))
  {
    var moved := Moved(s, i, pc, emitted);
    var after := moved.(free := free);
    MovedTasksFit(s, i, pc, emitted);
    assert TasksFit(after) && OwnersDiffer(after);
    forall m ensures Placed(c, after, m) {
      MovedStaysPlaced(c, s, i, pc, emitted, m);
      assert Owned(moved, m) <==> Owned(after, m);
    }
    HoldingCountUpdate(s.tasks, i, s.tasks[i].(pc := pc));
    RecordsKeepHistory(s.trace, emitted);
  }

  lemma AcquireKeepsInv(c: Config, s: State, i: nat)
    requires Inv(c, s) && Enabled(c, s, Acquire(i))
    ensures Inv(c, Apply(c, s, Acquire(i)))
  {
    var t := s.tasks[i];
    assert Fits(t, s.trace);
    UnderWayFits(t, s.trace, Starting, 0);
    MoveKeepsInv(c, s, i, Holding(t.pc.m, 0), [Emission(t.pc.m, Starting)], s.free - 1);
  }

  /** A module that starts, runs or concludes keeps its task fitting. */
  lemma UnderWayFits(t: Task, trace: seq<Emission>, status: Status, rounds: nat)
    requires Fits(t, trace) && UnderWay(status, rounds)
    requires t.pc.Waiting? || (t.pc.Holding? && t.pc.rounds < 3 && !status.Starting?)
    requires t.pc.Waiting? ==> status.Starting?
    ensures var e := Emission(t.pc.m, status);
      Owns(t, e.which) && Fits(t.(pc := Holding(t.pc.m, rounds)), trace + [e]) && MayAllFollow(trace, [e])
  {
    var e := Emission(t.pc.m, status);
    StatusOneMore(trace, e, Sbom);
    StatusOneMore(trace, e, Sca);
    StatusOneMore(trace, e, t.pc.m);
  }

  lemma StaysHolding(c: Config, s: State, i: nat, rounds: nat, status: Status)
    requires Inv(c, s) && Executing(c, s) && i < |s.tasks| && s.tasks[i].pc.Holding?
    requires MayMove(s, i, Holding(s.tasks[i].pc.m, rounds), [Emission(s.tasks[i].pc.m, status)])
    ensures Inv(c, Moved(s, i, Holding(s.tasks[i].pc.m, rounds), [Emission(s.tasks[i].pc.m, status)]))
  {
    MoveKeepsInv(c, s, i, Holding(s.tasks[i].pc.m, rounds), [Emission(s.tasks[i].pc.m, status)], s.free);
  }

  lemma ReportKeepsInv(c: Config, s: State, i: nat)
    requires Inv(c, s) && Enabled(c, s, Report(i))
    ensures Inv(c, Apply(c, s, Report(i)))
  {
    var t := s.tasks[i];
    assert Fits(t, s.trace);
    UnderWayFits(t, s.trace, Running, t.pc.rounds + 1);
    StaysHolding(c, s, i, t.pc.rounds + 1, Running);
  }

  lemma ConcludeKeepsInv(c: Config, s: State, i: nat, outcome: Status)
    requires Inv(c, s) && Enabled(c, s, Conclude(i, outcome))
    ensures Inv(c, Apply(c, s, Conclude(i, outcome)))
  {
    var t := s.tasks[i];
    assert Fits(t, s.trace);
    UnderWayFits(t, s.trace, outcome, 3);
    StaysHolding(c, s, i, 3, outcome);
  }

  /** After the end of a module, and before what its branch records besides. */
  lemma EndedStatus(trace: seq<Emission>, m: Module, ok: bool)
    ensures StatusIn(trace + Ended(m, ok), m) == if ok then StatusIn(trace, m) else Failed
    ensures forall x :: x != m ==> StatusIn(trace + Ended(m, ok), x) == StatusIn(trace, x)
  {
    if ok {
      assert trace + Ended(m, ok) == trace;
    } else {
      forall x { StatusOneMore(trace, Emission(m, Failed), x); }
    }
  }

  lemma FinishFits(c: Config, t: Task, trace: seq<Emission>, ok: bool)
    requires Fits(t, trace) && t.pc.Holding? && (ok ==> t.pc.rounds == 3)
    ensures var after := AfterModule(c, t.kind, t.pc.m, ok);
      var emitted := Ended(t.pc.m, ok) + after.1;
      && (forall e :: e in emitted ==> Owns(t, e.which))
      && Fits(t.(pc := after.0), trace + emitted) && MayAllFollow(trace, emitted)
  {
    var ended, after := Ended(t.pc.m, ok), AfterModule(c, t.kind, t.pc.m, ok);
    EndedStatus(trace, t.pc.m, ok);
    if after.1 == [] {
      assert ended + after.1 == ended;
    } else {
      var f := Emission(Sca, Skipped);
      assert after.1 == [f] && trace + (ended + after.1) == (trace + ended) + [f];
      StatusOneMore(trace + ended, f, Sbom);
      StatusOneMore(trace + ended, f, Sca);
      assert ok ==> ended + after.1 == [f];
    }
  }

  lemma FinishKeepsInv(c: Config, s: State, i: nat, ok: bool)
    requires Inv(c, s) && Enabled(c, s, Finish(i, ok))
    ensures Inv(c, Apply(c, s, Finish(i, ok)))
  {
    var t := s.tasks[i];
    assert Fits(t, s.trace);
    FinishFits(c, t, s.trace, ok);
    var after := AfterModule(c, t.kind, t.pc.m, ok);
    GivesItsSlotBack(c, s, i, after.0, Ended(t.pc.m, ok) + after.1);
  }

  lemma GivesItsSlotBack(c: Config, s: State, i: nat, pc: Pc, emitted: seq<Emission>)
    requires Inv(c, s) && Executing(c, s) && MayMove(s, i, pc, emitted) && s.tasks[i].pc.Holding? && !pc.Holding?
    ensures Inv(c, Moved(s, i, pc, emitted).(free := s.free + 1))
  {
    MoveKeepsInv(c, s, i, pc, emitted, s.free + 1);
  }

  lemma FinishImageKeepsInv(c: Config, s: State, i: nat, ok: bool)
    requires Inv(c, s) && Enabled(c, s, FinishImage(i, ok))
    ensures Inv(c, Apply(c, s, FinishImage(i, ok)))
  {
    var t := s.tasks[i];
    var e := Emission(Sca, if ok && t.pc.ok then Completed else Failed);
    assert Fits(t, s.trace);
    StatusOneMore(s.trace, e, Sbom);
    StatusOneMore(s.trace, e, Sca);
    MoveKeepsInv(c, s, i, Done, [e], s.free);
  }

  // ---------- a module is planned, a phase ends ----------

  lemma {:induction false} FlatExtends(phases: seq<seq<Module>>, n: nat)
    requires n < |phases|
    ensures Flat(phases[..n + 1]) == Flat(phases[..n]) + phases[n]
  {
    assert phases[..n + 1][..n] == phases[..n];
  }

  lemma {:induction false} FlatPrefix(phases: seq<seq<Module>>, n: nat)
    requires n <= |phases|
    ensures Flat(phases[..n]) <= Flat(phases)
    decreases |phases| - n
  {
    if n < |phases| {
      FlatExtends(phases, n);
      FlatPrefix(phases, n + 1);
    } else {
      assert phases[..n] == phases;
    }
  }

  /** Planning one more module adds exactly that module, which was not planned before. */
  lemma PlanAddsOne(c: Config, s: State)
    requires ListsOnce(c) && Planning(c, s)
    ensures var m := c.phases[s.phase][s.next];
      && PlannedModules(c, s.phase, s.next + 1) == PlannedModules(c, s.phase, s.next) + [m]
      && m !in PlannedModules(c, s.phase, s.next)
  {
    var before, phase := Flat(c.phases[..s.phase]), c.phases[s.phase];
    assert phase[..s.next + 1] == phase[..s.next] + [phase[s.next]];
    FlatExtends(c.phases, s.phase);
    FlatPrefix(c.phases, s.phase + 1);
    var all, k := Flat(c.phases), |before| + s.next;
    assert all[k] == phase[s.next];
    forall i | 0 <= i < k ensures PlannedModules(c, s.phase, s.next)[i] != phase[s.next] {
      assert PlannedModules(c, s.phase, s.next)[i] == all[i];
    }
  }

  lemma EndPhaseAddsNone(c: Config, s: State)
    requires Executing(c, s)
    ensures PlannedModules(c, s.phase + 1, 0) == PlannedModules(c, s.phase, s.next)
  {
    var phase := c.phases[s.phase];
    assert phase[..s.next] == phase;
    FlatExtends(c.phases, s.phase);
    if s.phase + 1 < |c.phases| {
      assert c.phases[s.phase + 1][..0] == [];
    } else {
      assert c.phases[..s.phase + 1] == c.phases;
    }
  }

  /** What planning `m` does: either one task for the modules `m` leads, all queued, or terminal records for them. */
  ghost predicate PlansWell(m: Module, p: Planned) {
    || (m == Sbom && p.emitted == [] && p.tasks == [])
    || (m != Sbom && p.emitted == [] && p.tasks == [Task(if m == Sca then Supply else Single(m), Waiting(if m == Sca then Sbom else m))])
    || (m == Sca && p.tasks == [] && p.emitted == [Emission(Sbom, Skipped), Emission(Sca, Skipped)])
    || (m != Sbom && m != Sca && p.tasks == []
        && (p.emitted == [Emission(m, Skipped)] || p.emitted == [Emission(m, Failed)]))
  }

  lemma PlanOnePlansWell(c: Config, m: Module, checkov: Checked, ready: bool, image: bool)
    ensures PlansWell(m, PlanOne(c, m, checkov, ready, image))
  {
  }

  function PlanApplied(s: State, p: Planned): State {
    s.(trace := s.trace + p.emitted, tasks := s.tasks + p.tasks, checkov := p.checkov, next := s.next + 1)
  }

  lemma NewTaskPlaced(c: Config, s: State, m: Module, p: Planned)
    requires Inv(c, s) && PlansWell(m, p) && p.tasks != [] && !WasPlanned(c, s, m)
    ensures TasksFit(PlanApplied(s, p)) && OwnersDiffer(PlanApplied(s, p))
    ensures forall x :: Owned(PlanApplied(s, p), x) <==> Owned(s, x) || Lead(x) == m
  {
    var after := PlanApplied(s, p);
    var t := p.tasks[0];
    assert after.trace == s.trace;
    forall x | Owns(t, x) ensures Lead(x) == m && !Owned(s, x) && StatusIn(s.trace, x).Queued? {
      assert Placed(c, s, x);
    }
    forall x ensures Owned(after, x) <==> Owned(s, x) || Lead(x) == m {
      if Owned(s, x) {
        var i :| 0 <= i < |s.tasks| && Owns(s.tasks[i], x);
        assert Owns(after.tasks[i], x);
      }
      if Lead(x) == m { assert Owns(after.tasks[|s.tasks|], x); }
    }
    forall i, j, x | 0 <= i < j < |after.tasks| && Owns(after.tasks[i], x) ensures !Owns(after.tasks[j], x) {
      if j == |s.tasks| { assert Owned(s, x); }
    }
    if m == Sca { assert Owns(t, Sbom) && Owns(t, Sca); } else { assert Owns(t, m); }
  }

  lemma NoTaskPlaced(c: Config, s: State, m: Module, p: Planned)
    requires Inv(c, s) && PlansWell(m, p) && p.tasks == [] && !WasPlanned(c, s, m)
    ensures TasksFit(PlanApplied(s, p)) && OwnersDiffer(PlanApplied(s, p))
    ensures MayAllFollow(s.trace, p.emitted)
    ensures m != Sbom ==> forall x :: Lead(x) == m ==> Terminal(StatusIn(s.trace + p.emitted, x))
  {
    var after := PlanApplied(s, p);
    assert after.tasks == s.tasks;
    PlannedRecordsAreNew(c, s, m, p);
    forall i | 0 <= i < |s.tasks| ensures Fits(s.tasks[i], after.trace) {
      assert forall e :: e in p.emitted ==> !Owns(s.tasks[i], e.which);
      FitsUnaffected(s.tasks[i], s.trace, p.emitted);
    }
    if m != Sbom { PlannedRecordsSettle(s.trace, m, p); }
  }

  /** Records without a task settle the modules they are about. */
  lemma PlannedRecordsSettle(trace: seq<Emission>, m: Module, p: Planned)
    requires PlansWell(m, p) && p.tasks == [] && m != Sbom
    requires forall x :: Lead(x) == m ==> StatusIn(trace, x).Queued?
    ensures MayAllFollow(trace, p.emitted)
    ensures forall x :: Lead(x) == m ==> Terminal(StatusIn(trace + p.emitted, x))
  {
    if m == Sca {
      var e, f := Emission(Sbom, Skipped), Emission(Sca, Skipped);
      assert p.emitted == [e, f] && trace + p.emitted == (trace + [e]) + [f];
      assert Lead(Sbom) == m && Lead(Sca) == m;
      StatusOneMore(trace, e, Sbom);
      StatusOneMore(trace, e, Sca);
      StatusOneMore(trace + [e], f, Sbom);
      StatusOneMore(trace + [e], f, Sca);
    } else {
      assert p.emitted == [p.emitted[0]] && Lead(m) == m;
      StatusOneMore(trace, p.emitted[0], m);
    }
  }

  /** Records are about modules that were queued, and that no task owns. */
  lemma PlannedRecordsAreNew(c: Config, s: State, m: Module, p: Planned)
    requires Inv(c, s) && PlansWell(m, p) && !WasPlanned(c, s, m)
    ensures forall x :: Lead(x) == m ==> !Owned(s, x) && StatusIn(s.trace, x).Queued?
    ensures forall e :: e in p.emitted ==> Lead(e.which) == m
  {
    forall x | Lead(x) == m ensures !Owned(s, x) && StatusIn(s.trace, x).Queued? {
      assert Placed(c, s, x);
    }
  }

  lemma HoldingCountOneMore(tasks: seq<Task>, more: seq<Task>)
    requires |more| <= 1 && forall t :: t in more ==> !t.pc.Holding?
    ensures HoldingCount(tasks + more) == HoldingCount(tasks)
  {
    if more == [] {
      assert tasks + more == tasks;
    } else {
      assert (tasks + more)[..|tasks|] == tasks;
      assert more[0] in more;
    }
  }

  lemma PlannedGrows(c: Config, s: State, p: Planned, x: Module)
    requires ListsOnce(c) && Planning(c, s)
    ensures var m := c.phases[s.phase][s.next];
      && !(m != Sbom && WasPlanned(c, s, m))
      && (WasPlanned(c, PlanApplied(s, p), x) <==> WasPlanned(c, s, x) || Lead(x) == m)
  {
    PlanAddsOne(c, s);
  }

  lemma SbomStaysPlaced(c: Config, s: State, p: Planned, x: Module)
    requires ListsOnce(c) && Planning(c, s) && c.phases[s.phase][s.next] == Sbom && PlansWell(Sbom, p) && Placed(c, s, x)
    ensures Placed(c, PlanApplied(s, p), x)
  {
    PlannedGrows(c, s, p, x);
    assert s.trace + [] == s.trace && s.tasks + [] == s.tasks;
    assert Owned(PlanApplied(s, p), x) <==> Owned(s, x);
  }

  lemma TaskStaysPlaced(c: Config, s: State, m: Module, p: Planned, x: Module)
    requires Inv(c, s) && ListsOnce(c) && Planning(c, s) && c.phases[s.phase][s.next] == m && m != Sbom
    requires PlansWell(m, p) && p.tasks != [] && Placed(c, s, x)
    ensures Placed(c, PlanApplied(s, p), x)
  {
    PlannedGrows(c, s, p, x);
    NewTaskPlaced(c, s, m, p);
    assert s.trace + [] == s.trace;
  }

  lemma RecordStaysPlaced(c: Config, s: State, m: Module, p: Planned, x: Module)
    requires Inv(c, s) && ListsOnce(c) && Planning(c, s) && c.phases[s.phase][s.next] == m && m != Sbom
    requires PlansWell(m, p) && p.tasks == [] && Placed(c, s, x)
    ensures Placed(c, PlanApplied(s, p), x)
  {
    PlannedGrows(c, s, p, x);
    NoTaskPlaced(c, s, m, p);
    assert s.tasks + [] == s.tasks;
    assert Owned(PlanApplied(s, p), x) <==> Owned(s, x);
    if Lead(x) != m { StatusUnaffected(s.trace, p.emitted, x); }
  }

  lemma PlanKeepsInv(c: Config, s: State, ready: bool, image: bool)
    requires Inv(c, s) && Planning(c, s) && ListsOnce(c)
    ensures Inv(c, Apply(c, s, Plan(ready, image)))
  {
    var m := c.phases[s.phase][s.next];
    var p := PlanOne(c, m, s.checkov, ready, image);
    PlanOnePlansWell(c, m, s.checkov, ready, image);
    PlannedGrows(c, s, p, m);
    var after := Apply(c, s, Plan(ready, image));
    assert after == PlanApplied(s, p);
    forall x ensures Placed(c, after, x) {
      assert Placed(c, s, x);
      if m == Sbom { SbomStaysPlaced(c, s, p, x); }
      else if p.tasks != [] { TaskStaysPlaced(c, s, m, p, x); }
      else { RecordStaysPlaced(c, s, m, p, x); }
    }
    PlannedRest(c, s, m, p);
  }

  lemma PlannedRest(c: Config, s: State, m: Module, p: Planned)
    requires Inv(c, s) && PlansWell(m, p) && (m != Sbom ==> !WasPlanned(c, s, m))
    ensures var after := PlanApplied(s, p);
      && TasksFit(after) && OwnersDiffer(after) && HoldingCount(after.tasks) == HoldingCount(s.tasks)
      && FailuresStay(after.trace) && GrypeFollowsSyft(after.trace)
  {
    HoldingCountOneMore(s.tasks, p.tasks);
    if m == Sbom {
      assert s.trace + p.emitted == s.trace && s.tasks + p.tasks == s.tasks;
    } else if p.tasks != [] {
      NewTaskPlaced(c, s, m, p);
      assert s.trace + p.emitted == s.trace;
    } else {
      NoTaskPlaced(c, s, m, p);
      RecordsKeepHistory(s.trace, p.emitted);
    }
  }

  lemma {:induction false} DoneHoldsNothing(tasks: seq<Task>)
    requires forall t :: t in tasks ==> t.pc == Done
    ensures HoldingCount(tasks) == 0
  {
    if tasks != [] {
      assert tasks[|tasks| - 1] in tasks;
      DoneHoldsNothing(tasks[..|tasks| - 1]);
    }
  }

  lemma EndPhaseKeepsInv(c: Config, s: State)
    requires Inv(c, s) && Enabled(c, s, EndPhase)
    ensures Inv(c, Apply(c, s, EndPhase))
  {
    var after := Apply(c, s, EndPhase);
    EndPhaseAddsNone(c, s);
    DoneHoldsNothing(s.tasks);
    forall m ensures Placed(c, after, m) {
      assert Placed(c, s, m);
      if Owned(s, m) {
        var i :| 0 <= i < |s.tasks| && Owns(s.tasks[i], m);
        assert s.tasks[i] in s.tasks && Fits(s.tasks[i], s.trace);
      }
    }
  }

  lemma SummariseKeepsInv(c: Config, s: State, ok: bool)
    requires Inv(c, s) && Enabled(c, s, Summarise(ok))
    ensures Inv(c, Apply(c, s, Summarise(ok)))
  {
    var after := Apply(c, s, Summarise(ok));
    forall m ensures Placed(c, after, m) {
      assert Placed(c, s, m);
      assert Owned(after, m) <==> Owned(s, m);
    }
  }

  lemma InitHasInv(c: Config)
    ensures Inv(c, Init(c))
  {
    if |c.phases| > 0 {
      assert c.phases[0][..0] == [] && c.phases[..0] == [];
    }
  }

  lemma StepKeepsInv(c: Config, s: State, step: Step)
    requires Inv(c, s) && Enabled(c, s, step) && ListsOnce(c)
    ensures Inv(c, Apply(c, s, step))
  {
    match step {
      case Plan(ready, image) => PlanKeepsInv(c, s, ready, image);
      case Acquire(i) => AcquireKeepsInv(c, s, i);
      case Report(i) => ReportKeepsInv(c, s, i);
      case Conclude(i, outcome) => ConcludeKeepsInv(c, s, i, outcome);
      case Finish(i, ok) => FinishKeepsInv(c, s, i, ok);
      case FinishImage(i, ok) => FinishImageKeepsInv(c, s, i, ok);
      case EndPhase => EndPhaseKeepsInv(c, s);
      case Summarise(ok) => SummariseKeepsInv(c, s, ok);
    }
  }

  lemma {:induction false} RunKeepsInv(c: Config, steps: seq<Step>)
    requires Legal(c, steps) && ListsOnce(c)
    ensures Inv(c, Run(c, steps))
  {
    if steps == [] {
      InitHasInv(c);
    } else {
      RunKeepsInv(c, steps[..|steps| - 1]);
      StepKeepsInv(c, Run(c, steps[..|steps| - 1]), steps[|steps| - 1]);
    }
  }

  // ---------- the main results ----------

  /** At most `slots` modules run at once, whatever the interleaving. */
  lemma AtMostSlotsRun(c: Config, steps: seq<Step>)
    requires Legal(c, steps) && ListsOnce(c)
    ensures HoldingCount(Run(c, steps).tasks) <= c.slots
  {
    RunKeepsInv(c, steps);
  }

  /** Grype starts only when Syft's latest record is one of success. */
  lemma GrypeOnlyAfterSyft(c: Config, steps: seq<Step>, k: nat)
    requires Legal(c, steps) && ListsOnce(c)
    requires k < |Run(c, steps).trace| && Run(c, steps).trace[k] == Emission(Sca, Starting)
    ensures Good(StatusIn(Run(c, steps).trace[..k], Sbom))
  {
    RunKeepsInv(c, steps);
  }

  /** When a run has returned, every listed module has a terminal record; Syft's is settled with Grype's. */
  lemma EveryListedModuleIsSettled(c: Config, steps: seq<Step>, m: Module)
    requires Legal(c, steps) && ListsOnce(c) && Run(c, steps).result.Returned?
    requires Lead(m) in Flat(c.phases)
    ensures Terminal(StatusIn(Run(c, steps).trace, m))
  {
    RunKeepsInv(c, steps);
    assert Placed(c, Run(c, steps), m);
  }

  lemma StepGrows(c: Config, s: State, step: Step)
    requires Enabled(c, s, step)
    ensures s.trace <= Apply(c, s, step).trace
  {
  }

  lemma {:induction false} TraceGrows(c: Config, steps: seq<Step>, n: nat)
    requires Legal(c, steps) && n <= |steps|
    ensures Legal(c, steps[..n]) && Run(c, steps[..n]).trace <= Run(c, steps).trace
    decreases |steps|
  {
    if n == |steps| {
      assert steps[..n] == steps;
    } else {
      var before := steps[..|steps| - 1];
      TraceGrows(c, before, n);
      assert before[..n] == steps[..n];
      StepGrows(c, Run(c, before), steps[|steps| - 1]);
    }
  }

  lemma {:induction false} FailedStatusIsRecorded(trace: seq<Emission>, m: Module)
    requires StatusIn(trace, m).Failed?
    ensures exists k :: 0 <= k < |trace| && trace[k] == Emission(m, Failed)
  {
    var n := |trace| - 1;
    if trace[n].which == m {
      assert trace[n] == Emission(m, Failed);
    } else {
      FailedStatusIsRecorded(trace[..n], m);
      var k :| 0 <= k < n && trace[..n][k] == Emission(m, Failed);
      assert trace[k] == Emission(m, Failed);
    }
  }

  /** Once a module's record is FAILED it stays FAILED for the rest of the run. */
  lemma FailedIsAbsorbing(c: Config, steps: seq<Step>, n: nat, m: Module)
    requires Legal(c, steps) && ListsOnce(c) && n <= |steps| && Legal(c, steps[..n])
    requires StatusIn(Run(c, steps[..n]).trace, m).Failed?
    ensures StatusIn(Run(c, steps).trace, m).Failed?
  {
    RunKeepsInv(c, steps);
    TraceGrows(c, steps, n);
    var early, trace := Run(c, steps[..n]).trace, Run(c, steps).trace;
    FailedStatusIsRecorded(early, m);
    var k :| 0 <= k < |early| && early[k] == Emission(m, Failed);
    assert trace[k] == early[k];
  }

  /** The run returns true exactly when the summary was written and no module ever failed. */
  lemma VerdictIsHonest(c: Config, steps: seq<Step>)
    requires Legal(c, steps) && ListsOnce(c) && Run(c, steps).result.Returned?
    ensures steps != [] && steps[|steps| - 1].Summarise?
    ensures Run(c, steps).result.ok
       <==> (steps[|steps| - 1].ok && forall k :: 0 <= k < |Run(c, steps).trace| ==> !Run(c, steps).trace[k].status.Failed?)
  {
    RunKeepsInv(c, steps);
    var trace := Run(c, steps).trace;
    if AnyFailed(trace) {
      var m :| StatusIn(trace, m) == Failed;
      FailedStatusIsRecorded(trace, m);
    }
    assert forall k :: 0 <= k < |trace| && trace[k].status.Failed? ==> StatusIn(trace, trace[k].which).Failed?;
  }

  // ---------- what is selected runs, and nothing else does ----------

  /** Syft also runs when only Grype is wanted. */
  predicate Selected(c: Config, m: Module) { m in c.wanted || (m == Sbom && Sca in c.wanted) }

  /** A task exists only for modules that may run, and gets to Grype only when Grype is wanted. */
  ghost predicate MayRun(c: Config, checkov: Checked, t: Task) {
    match t.kind
    case Single(m) => m in c.wanted && (Checkov(m) ==> checkov == Known(true))
    case Supply =>
      && Selected(c, Sbom)
      && (match t.pc
          case Waiting(w) => w == Sca ==> Sca in c.wanted
          case Holding(w, _) => w == Sca ==> Sca in c.wanted
          case Image(_) => Sca in c.wanted
          case Done => true)
  }

  ghost predicate Started(trace: seq<Emission>, m: Module) {
    exists j :: 0 <= j < |trace| && trace[j] == Emission(m, Starting)
  }

  ghost predicate StartsFit(c: Config, trace: seq<Emission>, checkov: Checked, m: Module) {
    && (Started(trace, m) ==> !StatusIn(trace, m).Queued?)
    && (Started(trace, m) && Checkov(m) ==> checkov == Known(true))
    && (Started(trace, Sca) ==> !StatusIn(trace, Sbom).Failed?)
  }

  /** What excuses a selected module that has a record from having started. */
  ghost predicate Excused(trace: seq<Emission>, checkov: Checked, m: Module) {
    || (m == Sca && StatusIn(trace, Sbom).Failed?)
    || (Checkov(m) && checkov == Known(false))
    || m == Dast || m == Cloud
  }

  ghost predicate RecordsFit(c: Config, trace: seq<Emission>, checkov: Checked) {
    && (forall k :: 0 <= k < |trace| && (trace[k].status.Starting? || trace[k].status.Running? || trace[k].status.Completed?)
          ==> Selected(c, trace[k].which))
    && (forall m :: StartsFit(c, trace, checkov, m))
    && (forall m :: Selected(c, m) && !StatusIn(trace, m).Queued? ==> Started(trace, m) || Excused(trace, checkov, m))
  }

  /** A record that a module is under way or completed is about a selected one, and a first record needs an excuse. */
  ghost predicate MayRecord(c: Config, trace: seq<Emission>, checkov: Checked, e: Emission) {
    && !e.status.Queued?
    && (e.status.Starting? || e.status.Running? || e.status.Completed? ==> Selected(c, e.which))
    && (Selected(c, e.which) && StatusIn(trace, e.which).Queued? ==> e.status.Starting? || Excused(trace, checkov, e.which))
    && (e.status.Starting? && Checkov(e.which) ==> checkov == Known(true))
    && (e == Emission(Sca, Starting) ==> !StatusIn(trace, Sbom).Failed?)
    && (e == Emission(Sbom, Failed) ==> StatusIn(trace, Sca).Queued?)
    && (StatusIn(trace, e.which).Failed? ==> e.status.Failed?)
  }

  lemma StartedOneMore(trace: seq<Emission>, e: Emission, m: Module)
    ensures Started(trace + [e], m) <==> Started(trace, m) || e == Emission(m, Starting)
  {
    var all := trace + [e];
    if e == Emission(m, Starting) { assert all[|trace|] == e; }
    if Started(trace, m) {
      var j :| 0 <= j < |trace| && trace[j] == Emission(m, Starting);
      assert all[j] == trace[j];
    }
  }

  lemma StartsStillFit(c: Config, trace: seq<Emission>, checkov: Checked, e: Emission, m: Module)
    requires StartsFit(c, trace, checkov, m) && StartsFit(c, trace, checkov, Sca) && MayRecord(c, trace, checkov, e)
    ensures StartsFit(c, trace + [e], checkov, m)
  {
    StartedOneMore(trace, e, m);
    StartedOneMore(trace, e, Sca);
    StatusOneMore(trace, e, m);
    StatusOneMore(trace, e, Sbom);
  }

  lemma RecordFits(c: Config, trace: seq<Emission>, checkov: Checked, e: Emission)
    requires RecordsFit(c, trace, checkov) && MayRecord(c, trace, checkov, e)
    ensures RecordsFit(c, trace + [e], checkov)
  {
    var all := trace + [e];
    forall m ensures StartsFit(c, all, checkov, m) { StartsStillFit(c, trace, checkov, e, m); }
    forall m | Selected(c, m) && !StatusIn(all, m).Queued? ensures Started(all, m) || Excused(all, checkov, m) {
      StatusOneMore(trace, e, m);
      StatusOneMore(trace, e, Sbom);
      StartedOneMore(trace, e, m);
    }
  }

  /** Until Checkov's image is looked at, none of its modules has a record. */
  lemma LookingFits(c: Config, trace: seq<Emission>, ok: bool)
    requires RecordsFit(c, trace, Unknown)
    ensures RecordsFit(c, trace, Known(ok))
  {
    forall m ensures StartsFit(c, trace, Known(ok), m) { assert StartsFit(c, trace, Unknown, m); }
  }

  ghost predicate OnlySelected(c: Config, s: State) {
    (forall i :: 0 <= i < |s.tasks| ==> MayRun(c, s.checkov, s.tasks[i])) && RecordsFit(c, s.trace, s.checkov)
  }

  /** What planning records fits, given what is then known of Checkov's image. */
  lemma PlannedRecordsFit(c: Config, s: State, m: Module, ready: bool, image: bool)
    requires RecordsFit(c, s.trace, PlanOne(c, m, s.checkov, ready, image).checkov)
    requires StatusIn(s.trace, m).Queued? && (m == Sca ==> StatusIn(s.trace, Sbom).Queued?)
    ensures var p := PlanOne(c, m, s.checkov, ready, image); RecordsFit(c, s.trace + p.emitted, p.checkov)
  {
    var p := PlanOne(c, m, s.checkov, ready, image);
    if |p.emitted| == 0 {
      assert s.trace + p.emitted == s.trace;
    } else if |p.emitted| == 1 {
      RecordFits(c, s.trace, p.checkov, p.emitted[0]);
      assert p.emitted == [p.emitted[0]];
    } else {
      var e, f := Emission(Sbom, Skipped), Emission(Sca, Skipped);
      RecordFits(c, s.trace, p.checkov, e);
      StatusOneMore(s.trace, e, Sca);
      RecordFits(c, s.trace + [e], p.checkov, f);
      assert p.emitted == [e, f] && s.trace + p.emitted == (s.trace + [e]) + [f];
    }
  }

  lemma PlanSelects(c: Config, s: State, ready: bool, image: bool)
    requires Inv(c, s) && Planning(c, s) && ListsOnce(c) && OnlySelected(c, s)
    ensures OnlySelected(c, Apply(c, s, Plan(ready, image)))
  {
    var m := c.phases[s.phase][s.next];
    var p := PlanOne(c, m, s.checkov, ready, image);
    if p.checkov != s.checkov { LookingFits(c, s.trace, p.checkov.ok); }
    PlannedGrows(c, s, p, m);
    if m == Sbom {
      assert s.trace + p.emitted == s.trace;
    } else {
      assert Placed(c, s, m) && Placed(c, s, Sbom);
      PlannedRecordsFit(c, s, m, ready, image);
    }
    PlannedTasksMayRun(c, s, m, ready, image);
  }

  lemma PlannedTasksMayRun(c: Config, s: State, m: Module, ready: bool, image: bool)
    requires forall i :: 0 <= i < |s.tasks| ==> MayRun(c, s.checkov, s.tasks[i])
    ensures var p := PlanOne(c, m, s.checkov, ready, image);
      forall i :: 0 <= i < |s.tasks + p.tasks| ==> MayRun(c, p.checkov, (s.tasks + p.tasks)[i])
  {
  }

  lemma UnderWaySelects(c: Config, s: State, step: Step)
    requires Inv(c, s) && Enabled(c, s, step) && (step.Acquire? || step.Report? || step.Conclude?) && OnlySelected(c, s)
    ensures OnlySelected(c, Apply(c, s, step))
  {
    var t := s.tasks[step.i];
    assert Fits(t, s.trace) && MayRun(c, s.checkov, t);
    RecordFits(c, s.trace, s.checkov,
      Emission(t.pc.m, if step.Acquire? then Starting else if step.Report? then Running else step.outcome));
  }

  lemma FinishRecordsFit(c: Config, s: State, t: Task, ok: bool)
    requires RecordsFit(c, s.trace, s.checkov) && MayRun(c, s.checkov, t) && Fits(t, s.trace)
    requires t.pc.Holding? && (ok ==> t.pc.rounds == 3)
    ensures RecordsFit(c, s.trace + (Ended(t.pc.m, ok) + AfterModule(c, t.kind, t.pc.m, ok).1), s.checkov)
  {
    var ended, after := Ended(t.pc.m, ok), AfterModule(c, t.kind, t.pc.m, ok);
    EndedStatus(s.trace, t.pc.m, ok);
    if ok { assert s.trace + ended == s.trace; } else { RecordFits(c, s.trace, s.checkov, Emission(t.pc.m, Failed)); }
    if after.1 == [] {
      assert ended + after.1 == ended;
    } else {
      RecordFits(c, s.trace + ended, s.checkov, Emission(Sca, Skipped));
      assert s.trace + (ended + after.1) == (s.trace + ended) + [Emission(Sca, Skipped)];
    }
  }

  lemma FinishSelects(c: Config, s: State, i: nat, ok: bool)
    requires Inv(c, s) && Enabled(c, s, Finish(i, ok)) && OnlySelected(c, s)
    ensures OnlySelected(c, Apply(c, s, Finish(i, ok)))
  {
    assert Fits(s.tasks[i], s.trace) && MayRun(c, s.checkov, s.tasks[i]);
    FinishRecordsFit(c, s, s.tasks[i], ok);
  }

  lemma FinishImageSelects(c: Config, s: State, i: nat, ok: bool)
    requires Inv(c, s) && Enabled(c, s, FinishImage(i, ok)) && OnlySelected(c, s)
    ensures OnlySelected(c, Apply(c, s, FinishImage(i, ok)))
  {
    var t := s.tasks[i];
    assert Fits(t, s.trace) && MayRun(c, s.checkov, t);
    RecordFits(c, s.trace, s.checkov, Emission(Sca, if ok && t.pc.ok then Completed else Failed));
  }

  lemma StepSelects(c: Config, s: State, step: Step)
    requires Inv(c, s) && Enabled(c, s, step) && ListsOnce(c) && OnlySelected(c, s)
    ensures OnlySelected(c, Apply(c, s, step))
  {
    match step {
      case Plan(ready, image) => PlanSelects(c, s, ready, image);
      case Finish(i, ok) => FinishSelects(c, s, i, ok);
      case FinishImage(i, ok) => FinishImageSelects(c, s, i, ok);
      case EndPhase =>
      case Summarise(_) =>
      case _ => UnderWaySelects(c, s, step);
    }
  }

  lemma {:induction false} RunSelects(c: Config, steps: seq<Step>)
    requires Legal(c, steps) && ListsOnce(c)
    ensures OnlySelected(c, Run(c, steps))
  {
    if steps != [] {
      var before := steps[..|steps| - 1];
      RunSelects(c, before);
      RunKeepsInv(c, before);
      StepSelects(c, Run(c, before), steps[|steps| - 1]);
    }
  }

  /** Whoever asks for Grype asks for Syft too, so a run starts and completes only modules it wants. */
  lemma SelectedIsWanted(c: Config, r: Request, m: Module)
    requires c.wanted == WantedModules(r)
    ensures Selected(c, m) <==> Wants(r, m)
  {
  }

  /**
   * What a request asks for: the modules it names, with Syft for Grype, or without names what the scan type says;
   * of these the dynamic scan only if it may run, which a scan type always lets it, and the cloud scan only if it
   * is named and there are credentials.
   */
  lemma WhatARequestWants(r: Request)
    ensures var asked :=
        if r.modules != {} then r.modules + (if Sca in r.modules then {Sbom} else {})
        else match r.scanType
          case SourceOnly => {Sast, Dast}
          case DependenciesOnly => {Sca, Sbom, Dast}
          case Everything => {Sast, Secrets, Sbom, Sca, Containers, Iac, Kubernetes, Cicd, Api, Dast};
      WantedModules(r) == asked - (if r.dynamicRuns then {} else {Dast}) - (if r.cloudReady then {} else {Cloud})
  {
  }

  /** Only selected modules are ever started or reported complete. */
  lemma OnlySelectedModulesRun(c: Config, steps: seq<Step>, k: nat)
    requires Legal(c, steps) && ListsOnce(c) && k < |Run(c, steps).trace|
    requires var st := Run(c, steps).trace[k].status; st.Starting? || st.Running? || st.Completed?
    ensures Selected(c, Run(c, steps).trace[k].which)
  {
    RunSelects(c, steps);
  }

  /**
   * When a run returns, every listed and selected module but the dynamic and cloud scans was started: the source
   * and secret scanners and Syft always, Grype exactly unless Syft failed, and Checkov's modules exactly when its
   * image could be prepared.
   */
  lemma WantedScannersRan(c: Config, steps: seq<Step>, m: Module)
    requires Legal(c, steps) && ListsOnce(c) && Run(c, steps).result.Returned?
    requires Selected(c, m) && Lead(m) in Flat(c.phases) && m != Dast && m != Cloud
    ensures var s := Run(c, steps);
      Started(s.trace, m) <==>
        if m == Sca then !StatusIn(s.trace, Sbom).Failed? else if m in {Iac, Containers, Kubernetes, Cicd, Api} then s.checkov == Known(true) else true
  {
    RunSelects(c, steps);
    EveryListedModuleIsSettled(c, steps, m);
    assert StartsFit(c, Run(c, steps).trace, Run(c, steps).checkov, m);
  }

  // ---------- preparing Checkov's image ----------

  /** At step k a selected module of Checkov's was planned. */
  ghost predicate PlansCheckov(c: Config, steps: seq<Step>, k: nat) {
    && k < |steps| && steps[k].Plan? && Legal(c, steps[..k]) && Planning(c, Run(c, steps[..k]))
    && (var s := Run(c, steps[..k]); c.phases[s.phase][s.next] in c.wanted * {Iac, Containers, Kubernetes, Cicd, Api})
  }

  ghost predicate PlansCheckovFirst(c: Config, steps: seq<Step>, k: nat) {
    PlansCheckov(c, steps, k) && forall j: nat :: j < k ==> !PlansCheckov(c, steps, j)
  }

  lemma PlansCheckovEarlier(c: Config, steps: seq<Step>, n: nat, k: nat)
    requires k < n <= |steps|
    ensures PlansCheckov(c, steps[..n], k) <==> PlansCheckov(c, steps, k)
  {
    assert steps[..n][..k] == steps[..k];
  }

  lemma PlansCheckovFirstEarlier(c: Config, steps: seq<Step>, n: nat, k: nat)
    requires k < n <= |steps|
    ensures PlansCheckovFirst(c, steps[..n], k) <==> PlansCheckovFirst(c, steps, k)
  {
    forall j: nat | j <= k ensures PlansCheckov(c, steps[..n], j) <==> PlansCheckov(c, steps, j) {
      PlansCheckovEarlier(c, steps, n, j);
    }
  }

  lemma StepLooksAtCheckov(c: Config, s: State, step: Step)
    requires Enabled(c, s, step)
    ensures Apply(c, s, step).checkov
         == if step.Plan? && s.checkov == Unknown && c.phases[s.phase][s.next] in c.wanted * {Iac, Containers, Kubernetes, Cicd, Api}
            then Known(step.image) else s.checkov
  {
  }

  /** Checkov's image is prepared once, when the first selected module of Checkov's is planned; that decides for all. */
  lemma {:induction false} CheckovIsPreparedOnce(c: Config, steps: seq<Step>)
    requires Legal(c, steps)
    ensures match Run(c, steps).checkov
      case Unknown => forall k: nat :: !PlansCheckov(c, steps, k)
      case Known(ok) => exists k: nat :: PlansCheckovFirst(c, steps, k) && steps[k].image == ok
  {
    if steps != [] {
      var n := |steps| - 1;
      CheckovIsPreparedOnce(c, steps[..n]);
      StepLooksAtCheckov(c, Run(c, steps[..n]), steps[n]);
      if Run(c, steps[..n]).checkov.Known? {
        var k: nat :| PlansCheckovFirst(c, steps[..n], k) && steps[..n][k].image == Run(c, steps[..n]).checkov.ok;
        PlansCheckovFirstEarlier(c, steps, n, k);
        assert PlansCheckovFirst(c, steps, k) && steps[k].image == Run(c, steps).checkov.ok;
      } else {
        forall k: nat | k < n ensures !PlansCheckov(c, steps, k) { PlansCheckovEarlier(c, steps, n, k); }
        if Run(c, steps).checkov.Known? { assert PlansCheckovFirst(c, steps, n); }
      }
    }
  }

  // ---------- the scans that need a target ----------

  /** At step k the module was planned, and its target was not ready or its image could not be prepared. */
  ghost predicate TurnedAwayAt(c: Config, steps: seq<Step>, m: Module, k: nat) {
    && k < |steps| && steps[k].Plan? && !(steps[k].ready && steps[k].image) && Legal(c, steps[..k])
    && Planning(c, Run(c, steps[..k])) && c.phases[Run(c, steps[..k]).phase][Run(c, steps[..k]).next] == m
  }

  ghost predicate TurnedAway(c: Config, steps: seq<Step>, m: Module) { exists k: nat :: TurnedAwayAt(c, steps, m, k) }

  lemma TurnedAwayEarlier(c: Config, steps: seq<Step>, m: Module, n: nat)
    requires n <= |steps| && TurnedAway(c, steps[..n], m)
    ensures TurnedAway(c, steps, m)
  {
    var k: nat :| TurnedAwayAt(c, steps[..n], m, k);
    assert steps[..n][..k] == steps[..k];
    assert TurnedAwayAt(c, steps, m, k);
  }

  lemma PlannedRecordsAreItsOwn(x: Module, p: Planned, m: Module)
    requires PlansWell(x, p) && m != Sbom && m != Sca && x != m
    ensures forall e :: e in p.emitted ==> e.which != m
  {
  }

  lemma FirstPlannedRecord(c: Config, s: State, x: Module, ready: bool, image: bool, m: Module)
    requires (m == Dast || m == Cloud) && m in c.wanted && StatusIn(s.trace, m).Queued?
    requires !StatusIn(s.trace + PlanOne(c, x, s.checkov, ready, image).emitted, m).Queued?
    ensures x == m && !(ready && image)
  {
    var p := PlanOne(c, x, s.checkov, ready, image);
    PlanOnePlansWell(c, x, s.checkov, ready, image);
    if x != m {
      PlannedRecordsAreItsOwn(x, p, m);
      StatusUnaffected(s.trace, p.emitted, m);
    }
    if p.emitted == [] { assert s.trace + p.emitted == s.trace; }
  }

  lemma FirstAcquiredRecord(s: State, which: Module, m: Module)
    requires StatusIn(s.trace, m).Queued? && !StatusIn(s.trace + [Emission(which, Starting)], m).Queued?
    ensures Started(s.trace + [Emission(which, Starting)], m)
  {
    StatusOneMore(s.trace, Emission(which, Starting), m);
    StartedOneMore(s.trace, Emission(which, Starting), m);
  }

  /** A first record of a wanted scan with a target says that it starts, or comes from planning that turned it away. */
  lemma FirstRecordOfTarget(c: Config, s: State, step: Step, m: Module)
    requires Inv(c, s) && Enabled(c, s, step) && (m == Dast || m == Cloud) && m in c.wanted
    requires StatusIn(s.trace, m).Queued? && !StatusIn(Apply(c, s, step).trace, m).Queued?
    ensures Started(Apply(c, s, step).trace, m)
      || (step.Plan? && !(step.ready && step.image) && c.phases[s.phase][s.next] == m)
  {
    match step {
      case Plan(ready, image) => FirstPlannedRecord(c, s, c.phases[s.phase][s.next], ready, image, m);
      case Acquire(i) => FirstAcquiredRecord(s, s.tasks[i].pc.m, m);
      case EndPhase =>
      case Summarise(_) =>
      case _ => HoldersAreNotQueued(c, s, step, m);
    }
  }

  /** What a module records while it holds a slot, or after, is not its first record. */
  lemma HoldersAreNotQueued(c: Config, s: State, step: Step, m: Module)
    requires Inv(c, s) && Enabled(c, s, step) && (step.Report? || step.Conclude? || step.Finish? || step.FinishImage?)
    requires m != Sbom && m != Sca && StatusIn(s.trace, m).Queued?
    ensures StatusIn(Apply(c, s, step).trace, m).Queued?
  {
    var t := s.tasks[step.i];
    assert Fits(t, s.trace);
    if step.Finish? {
      StatusUnaffected(s.trace, Ended(t.pc.m, step.ok) + AfterModule(c, t.kind, t.pc.m, step.ok).1, m);
    } else if step.FinishImage? {
      StatusOneMore(s.trace, Emission(Sca, if step.ok && t.pc.ok then Completed else Failed), m);
    } else {
      StatusOneMore(s.trace, Emission(t.pc.m, if step.Report? then Running else step.outcome), m);
    }
  }

  lemma StartedStays(c: Config, steps: seq<Step>, n: nat, m: Module)
    requires Legal(c, steps) && n <= |steps| && Legal(c, steps[..n]) && Started(Run(c, steps[..n]).trace, m)
    ensures Started(Run(c, steps).trace, m)
  {
    TraceGrows(c, steps, n);
    var early, trace := Run(c, steps[..n]).trace, Run(c, steps).trace;
    var j :| 0 <= j < |early| && early[j] == Emission(m, Starting);
    assert trace[j] == early[j];
  }

  lemma {:induction false} TargetRanOrTurnedAway(c: Config, steps: seq<Step>, m: Module)
    requires Legal(c, steps) && ListsOnce(c) && (m == Dast || m == Cloud) && m in c.wanted
    requires !StatusIn(Run(c, steps).trace, m).Queued?
    ensures Started(Run(c, steps).trace, m) || TurnedAway(c, steps, m)
  {
    var n := |steps| - 1;
    var before := steps[..n];
    RunKeepsInv(c, before);
    if StatusIn(Run(c, before).trace, m).Queued? {
      FirstRecordOfTarget(c, Run(c, before), steps[n], m);
      if !Started(Run(c, steps).trace, m) { assert TurnedAwayAt(c, steps, m, n); }
    } else {
      TargetRanOrTurnedAway(c, before, m);
      if Started(Run(c, before).trace, m) { StartedStays(c, steps, n, m); } else { TurnedAwayEarlier(c, steps, m, n); }
    }
  }

  /**
   * When a run returns, a wanted and listed dynamic or cloud scan was started, or it was turned away when it was
   * planned, for want of a target or of its image.
   */
  lemma WantedTargetsRan(c: Config, steps: seq<Step>, m: Module)
    requires Legal(c, steps) && ListsOnce(c) && Run(c, steps).result.Returned?
    requires (m == Dast || m == Cloud) && m in c.wanted && m in Flat(c.phases)
    ensures Started(Run(c, steps).trace, m) || TurnedAway(c, steps, m)
  {
    EveryListedModuleIsSettled(c, steps, m);
    TargetRanOrTurnedAway(c, steps, m);
  }

  // ---------- what the records say of those that did not start ----------

  /** A module that holds a slot, or waits for the image scan, was started. */
  ghost predicate StartedWhereItIs(t: Task, trace: seq<Emission>) {
    match t.pc
    case Waiting(_) => true
    case Holding(w, _) => Started(trace, w)
    case Image(_) => Started(trace, Sca)
    case Done => true
  }

  ghost predicate AllStarted(s: State) { forall i :: 0 <= i < |s.tasks| ==> StartedWhereItIs(s.tasks[i], s.trace) }

  lemma StartedGrows(trace: seq<Emission>, more: seq<Emission>, m: Module)
    requires Started(trace, m)
    ensures Started(trace + more, m)
  {
    var j :| 0 <= j < |trace| && trace[j] == Emission(m, Starting);
    assert (trace + more)[j] == trace[j];
  }

  lemma OthersStayStarted(s: State, i: nat, pc: Pc, emitted: seq<Emission>)
    requires i < |s.tasks| && AllStarted(s) && StartedWhereItIs(s.tasks[i].(pc := pc), s.trace + emitted)
    ensures AllStarted(Moved(s, i, pc, emitted))
  {
    var after := Moved(s, i, pc, emitted);
    forall j | 0 <= j < |after.tasks| ensures StartedWhereItIs(after.tasks[j], after.trace) {
      if j != i { MoreRecordsKeepStarted(s.tasks[j], s.trace, emitted); }
    }
  }

  lemma MoreRecordsKeepStarted(t: Task, trace: seq<Emission>, more: seq<Emission>)
    requires StartedWhereItIs(t, trace)
    ensures StartedWhereItIs(t, trace + more)
  {
    match t.pc
    case Holding(w, _) => StartedGrows(trace, more, w);
    case Image(_) => StartedGrows(trace, more, Sca);
    case _ =>
  }

  lemma PlanKeepsStarted(c: Config, s: State, ready: bool, image: bool)
    requires AllStarted(s) && Planning(c, s)
    ensures AllStarted(Apply(c, s, Plan(ready, image)))
  {
    var p := PlanOne(c, c.phases[s.phase][s.next], s.checkov, ready, image);
    forall i | 0 <= i < |s.tasks| ensures StartedWhereItIs(s.tasks[i], s.trace + p.emitted) {
      MoreRecordsKeepStarted(s.tasks[i], s.trace, p.emitted);
    }
  }

  lemma TaskStepKeepsStarted(c: Config, s: State, step: Step)
    requires AllStarted(s) && TasksFit(s) && Enabled(c, s, step)
    requires step.Acquire? || step.Report? || step.Conclude? || step.Finish? || step.FinishImage?
    ensures AllStarted(Apply(c, s, step))
  {
    var t := s.tasks[step.i];
    assert StartedWhereItIs(t, s.trace) && Fits(t, s.trace);
    match step {
      case Acquire(i) =>
        StartedOneMore(s.trace, Emission(t.pc.m, Starting), t.pc.m);
        OthersStayStarted(s, i, Holding(t.pc.m, 0), [Emission(t.pc.m, Starting)]);
      case Report(i) =>
        StartedGrows(s.trace, [Emission(t.pc.m, Running)], t.pc.m);
        OthersStayStarted(s, i, Holding(t.pc.m, t.pc.rounds + 1), [Emission(t.pc.m, Running)]);
      case Conclude(i, outcome) =>
        StartedGrows(s.trace, [Emission(t.pc.m, outcome)], t.pc.m);
        OthersStayStarted(s, i, Holding(t.pc.m, 3), [Emission(t.pc.m, outcome)]);
      case Finish(i, ok) =>
        var after := AfterModule(c, t.kind, t.pc.m, ok);
        StartedGrows(s.trace, Ended(t.pc.m, ok) + after.1, t.pc.m);
        OthersStayStarted(s, i, after.0, Ended(t.pc.m, ok) + after.1);
      case FinishImage(i, ok) =>
        OthersStayStarted(s, i, Done, [Emission(Sca, if ok && t.pc.ok then Completed else Failed)]);
    }
  }

  /** Only a module's first record can say that it starts, and without a start there is no second record. */
  ghost predicate MayTell(trace: seq<Emission>, e: Emission) {
    && (e.status.Starting? ==> StatusIn(trace, e.which).Queued?)
    && (!StatusIn(trace, e.which).Queued? ==> Started(trace, e.which))
  }

  /** What a first record says that is no start. */
  ghost predicate Reason(c: Config, e: Emission) {
    e.status.Starting? ||
      if !Selected(c, e.which) then e.status.Skipped?
      else if Checkov(e.which) then e.status.Failed?
      else if e.which == Sca then e.status.Skipped?
      else e.which == Dast || e.which == Cloud
  }

  ghost predicate MayTellWhy(c: Config, trace: seq<Emission>, e: Emission) {
    MayTell(trace, e) && !e.status.Queued? && (StatusIn(trace, e.which).Queued? ==> Reason(c, e))
  }

  ghost predicate Orderly(c: Config, trace: seq<Emission>) {
    forall j :: 0 <= j < |trace| ==> MayTellWhy(c, trace[..j], trace[j])
  }

  lemma OrderlyOneMore(c: Config, trace: seq<Emission>, e: Emission)
    requires Orderly(c, trace) && MayTellWhy(c, trace, e)
    ensures Orderly(c, trace + [e])
  {
    var all := trace + [e];
    forall j | 0 <= j < |all| ensures MayTellWhy(c, all[..j], all[j]) {
      assert all[..j] == trace[..j];
      assert trace[..|trace|] == trace;
    }
  }

  lemma PlanIsOrderly(c: Config, s: State, ready: bool, image: bool)
    requires Inv(c, s) && Planning(c, s) && ListsOnce(c) && Orderly(c, s.trace)
    ensures Orderly(c, Apply(c, s, Plan(ready, image)).trace)
  {
    var m := c.phases[s.phase][s.next];
    var p := PlanOne(c, m, s.checkov, ready, image);
    PlannedGrows(c, s, p, m);
    if m != Sbom { assert Placed(c, s, m) && Placed(c, s, Sbom); }
    PlannedIsOrderly(c, s, m, ready, image);
  }

  lemma PlannedIsOrderly(c: Config, s: State, m: Module, ready: bool, image: bool)
    requires Orderly(c, s.trace)
    requires m != Sbom ==> StatusIn(s.trace, m).Queued? && (m == Sca ==> StatusIn(s.trace, Sbom).Queued?)
    ensures Orderly(c, s.trace + PlanOne(c, m, s.checkov, ready, image).emitted)
  {
    var emitted := PlanOne(c, m, s.checkov, ready, image).emitted;
    if |emitted| == 0 {
      assert s.trace + emitted == s.trace;
    } else if |emitted| == 1 {
      assert emitted == [emitted[0]];
      OrderlyOneMore(c, s.trace, emitted[0]);
    } else {
      var e, f := Emission(Sbom, Skipped), Emission(Sca, Skipped);
      assert emitted == [e, f] && s.trace + emitted == (s.trace + [e]) + [f];
      OrderlyOneMore(c, s.trace, e);
      StatusOneMore(s.trace, e, Sca);
      OrderlyOneMore(c, s.trace + [e], f);
    }
  }

  lemma UnderWayIsOrderly(c: Config, s: State, step: Step)
    requires Inv(c, s) && AllStarted(s) && OnlySelected(c, s) && Enabled(c, s, step) && Orderly(c, s.trace)
    requires step.Acquire? || step.Report? || step.Conclude? || step.FinishImage?
    ensures Orderly(c, Apply(c, s, step).trace)
  {
    var t := s.tasks[step.i];
    assert StartedWhereItIs(t, s.trace) && Fits(t, s.trace) && MayRun(c, s.checkov, t);
    match step {
      case Acquire(_) => OrderlyOneMore(c, s.trace, Emission(t.pc.m, Starting));
      case Report(_) => OrderlyOneMore(c, s.trace, Emission(t.pc.m, Running));
      case Conclude(_, outcome) => OrderlyOneMore(c, s.trace, Emission(t.pc.m, outcome));
      case FinishImage(_, ok) =>
        StartedHasARecord(c, s.trace, Sca);
        OrderlyOneMore(c, s.trace, Emission(Sca, if ok && t.pc.ok then Completed else Failed));
    }
  }

  lemma StartedHasARecord(c: Config, trace: seq<Emission>, m: Module)
    requires Orderly(c, trace) && Started(trace, m)
    ensures !StatusIn(trace, m).Queued?
  {
    forall j | 0 <= j < |trace| ensures !trace[j].status.Queued? { assert MayTellWhy(c, trace[..j], trace[j]); }
    NothingQueuedAgain(trace, m);
  }

  lemma {:induction false} NothingQueuedAgain(trace: seq<Emission>, m: Module)
    requires forall j :: 0 <= j < |trace| ==> !trace[j].status.Queued?
    requires exists j :: 0 <= j < |trace| && trace[j].which == m
    ensures !StatusIn(trace, m).Queued?
  {
    var n := |trace| - 1;
    if trace[n].which != m {
      var j :| 0 <= j < |trace| && trace[j].which == m;
      assert trace[..n][j] == trace[j];
      NothingQueuedAgain(trace[..n], m);
    }
  }

  lemma OrderlyEarlier(c: Config, trace: seq<Emission>, n: nat)
    requires Orderly(c, trace) && n <= |trace|
    ensures Orderly(c, trace[..n])
  {
    forall j | 0 <= j < n ensures MayTellWhy(c, trace[..n][..j], trace[..n][j]) {
      assert trace[..n][..j] == trace[..j];
      assert MayTellWhy(c, trace[..j], trace[j]);
    }
  }

  lemma FinishIsOrderly(c: Config, s: State, i: nat, ok: bool)
    requires Inv(c, s) && AllStarted(s) && OnlySelected(c, s) && Enabled(c, s, Finish(i, ok)) && Orderly(c, s.trace)
    ensures Orderly(c, Apply(c, s, Finish(i, ok)).trace)
  {
    var t := s.tasks[i];
    assert StartedWhereItIs(t, s.trace) && Fits(t, s.trace) && MayRun(c, s.checkov, t);
    EndedIsOrderly(c, s.trace, t, ok);
  }

  lemma EndedIsOrderly(c: Config, trace: seq<Emission>, t: Task, ok: bool)
    requires Orderly(c, trace) && Fits(t, trace) && t.pc.Holding? && Started(trace, t.pc.m) && (ok ==> t.pc.rounds == 3)
    ensures Orderly(c, trace + (Ended(t.pc.m, ok) + AfterModule(c, t.kind, t.pc.m, ok).1))
  {
    var ended, after := Ended(t.pc.m, ok), AfterModule(c, t.kind, t.pc.m, ok).1;
    if ok { assert trace + ended == trace; } else { OrderlyOneMore(c, trace, Emission(t.pc.m, Failed)); }
    EndedStatus(trace, t.pc.m, ok);
    assert trace + (ended + after) == (trace + ended) + after;
    if after == [] {
      assert (trace + ended) + after == trace + ended;
    } else {
      OrderlyOneMore(c, trace + ended, Emission(Sca, Skipped));
    }
  }

  lemma {:induction false} RunIsOrderly(c: Config, steps: seq<Step>)
    requires Legal(c, steps) && ListsOnce(c)
    ensures AllStarted(Run(c, steps)) && Orderly(c, Run(c, steps).trace)
  {
    if steps != [] {
      var before, step := steps[..|steps| - 1], steps[|steps| - 1];
      var s := Run(c, before);
      RunIsOrderly(c, before);
      RunKeepsInv(c, before);
      RunSelects(c, before);
      StepIsOrderly(c, s, step);
    }
  }

  lemma StepIsOrderly(c: Config, s: State, step: Step)
    requires Inv(c, s) && AllStarted(s) && OnlySelected(c, s) && Enabled(c, s, step) && ListsOnce(c) && Orderly(c, s.trace)
    ensures AllStarted(Apply(c, s, step)) && Orderly(c, Apply(c, s, step).trace)
  {
    match step {
      case Plan(ready, image) =>
        PlanKeepsStarted(c, s, ready, image);
        PlanIsOrderly(c, s, ready, image);
      case Finish(i, ok) =>
        TaskStepKeepsStarted(c, s, step);
        FinishIsOrderly(c, s, i, ok);
      case EndPhase =>
      case Summarise(_) =>
      case _ =>
        TaskStepKeepsStarted(c, s, step);
        UnderWayIsOrderly(c, s, step);
    }
  }

  /** A first record that is no start stays the module's only record. */
  lemma {:induction false} FirstRecordStays(c: Config, trace: seq<Emission>, k: nat)
    requires Orderly(c, trace) && k < |trace| && StatusIn(trace[..k], trace[k].which).Queued? && !trace[k].status.Starting?
    ensures StatusIn(trace, trace[k].which) == trace[k].status && !Started(trace, trace[k].which)
  {
    var n := |trace| - 1;
    var before, m := trace[..n], trace[k].which;
    assert trace == before + [trace[n]] && MayTellWhy(c, before, trace[n]);
    OrderlyEarlier(c, trace, n);
    StartedOneMore(before, trace[n], m);
    StatusOneMore(before, trace[n], m);
    if k < n {
      assert before[..k] == trace[..k] && before[k] == trace[k];
      assert MayTellWhy(c, trace[..k], trace[k]);
      FirstRecordStays(c, before, k);
    } else if Started(before, m) {
      StartedHasARecord(c, before, m);
    }
  }

  lemma {:induction false} FirstRecordExists(trace: seq<Emission>, m: Module) returns (k: nat)
    requires !StatusIn(trace, m).Queued?
    ensures k < |trace| && trace[k].which == m && StatusIn(trace[..k], m).Queued?
  {
    var n := |trace| - 1;
    if StatusIn(trace[..n], m).Queued? {
      k := n;
    } else {
      k := FirstRecordExists(trace[..n], m);
      assert trace[..n][..k] == trace[..k];
    }
  }

  lemma UnstartedRecord(trace: seq<Emission>, k: nat)
    requires k < |trace| && !Started(trace, trace[k].which)
    ensures !trace[k].status.Starting?
  {
    assert trace[k] == Emission(trace[k].which, trace[k].status);
  }

  /**
   * When a run returns, a listed module that was not started reads as skipped if it was not selected, or if it is
   * Grype; and as failed if it is one of Checkov's.
   */
  lemma UnstartedModulesSayWhy(c: Config, steps: seq<Step>, m: Module)
    requires Legal(c, steps) && ListsOnce(c) && Run(c, steps).result.Returned?
    requires Lead(m) in Flat(c.phases) && !Started(Run(c, steps).trace, m)
    ensures var st := StatusIn(Run(c, steps).trace, m);
      && (!Selected(c, m) ==> st == Skipped)
      && (Selected(c, m) && m == Sca ==> st == Skipped)
      && (Selected(c, m) && m in {Iac, Containers, Kubernetes, Cicd, Api} ==> st == Failed)
      && (Selected(c, m) ==> m == Sca || m in {Iac, Containers, Kubernetes, Cicd, Api} || m == Dast || m == Cloud)
  {
    var trace := Run(c, steps).trace;
    RunIsOrderly(c, steps);
    EveryListedModuleIsSettled(c, steps, m);
    var k := FirstRecordExists(trace, m);
    assert MayTellWhy(c, trace[..k], trace[k]);
    UnstartedRecord(trace, k);
    FirstRecordStays(c, trace, k);
  }

  /** A run that returns true started every selected and listed module but perhaps the dynamic and cloud scans. */
  lemma TrueMeansAllRan(c: Config, steps: seq<Step>, m: Module)
    requires Legal(c, steps) && ListsOnce(c) && Run(c, steps).result == Returned(true)
    requires Selected(c, m) && Lead(m) in Flat(c.phases) && m != Dast && m != Cloud
    ensures Started(Run(c, steps).trace, m)
  {
    VerdictIsHonest(c, steps);
    WantedScannersRan(c, steps, m);
    var trace := Run(c, steps).trace;
    if !Started(trace, m) {
      UnstartedModulesSayWhy(c, steps, m);
      if m == Sca { FailedStatusIsRecorded(trace, Sbom); } else { FailedStatusIsRecorded(trace, m); }
    }
  }

  /**
   * A dynamic or cloud scan turned away when it was planned never starts; it reads as skipped when its target was
   * not ready, and as failed when its image could not be prepared.
   */
  lemma TurnedAwaySaysWhy(c: Config, steps: seq<Step>, m: Module, k: nat)
    requires Legal(c, steps) && ListsOnce(c) && (m == Dast || m == Cloud) && m in c.wanted
    requires TurnedAwayAt(c, steps, m, k)
    ensures !Started(Run(c, steps).trace, m)
    ensures StatusIn(Run(c, steps).trace, m) == if steps[k].ready then Failed else Skipped
  {
    var early, trace := Run(c, steps[..k]).trace, Run(c, steps).trace;
    TurnedAwayRecord(c, steps, m, k);
    RunIsOrderly(c, steps);
    TraceGrows(c, steps, k + 1);
    assert trace[..|early|] == early;
    FirstRecordStays(c, trace, |early|);
  }

  lemma TurnedAwayRecord(c: Config, steps: seq<Step>, m: Module, k: nat)
    requires Legal(c, steps) && ListsOnce(c) && (m == Dast || m == Cloud) && m in c.wanted
    requires TurnedAwayAt(c, steps, m, k)
    ensures Legal(c, steps[..k + 1]) && StatusIn(Run(c, steps[..k]).trace, m).Queued?
    ensures Run(c, steps[..k + 1]).trace
         == Run(c, steps[..k]).trace + [Emission(m, if steps[k].ready then Failed else Skipped)]
  {
    var s := Run(c, steps[..k]);
    RunKeepsInv(c, steps[..k]);
    PlannedGrows(c, s, Planned([], [], s.checkov), m);
    assert Placed(c, s, m);
    RunsOneStep(c, steps, k);
  }

  // ---------- what makes a run fail ----------

  /** The module's run raised, or the scan of the built image did. */
  predicate Raises(step: Step) { (step.Finish? && !step.ok) || (step.FinishImage? && !step.ok) }

  lemma StepRecordsFailure(c: Config, s: State, step: Step)
    requires Enabled(c, s, step) && Raises(step)
    ensures exists j :: 0 <= j < |Apply(c, s, step).trace| && Apply(c, s, step).trace[j].status.Failed?
  {
    assert Apply(c, s, step).trace[|s.trace|].status.Failed?;
  }

  /** A run in which a module's run or the scan of the built image raised never returns true. */
  lemma RaisingFailsTheRun(c: Config, steps: seq<Step>, k: nat)
    requires Legal(c, steps) && ListsOnce(c) && Run(c, steps).result.Returned? && k < |steps| && Raises(steps[k])
    ensures Run(c, steps).result == Returned(false)
  {
    VerdictIsHonest(c, steps);
    RunsOneStep(c, steps, k);
    StepRecordsFailure(c, Run(c, steps[..k]), steps[k]);
    TraceGrows(c, steps, k + 1);
    FailureIsKept(Run(c, steps[..k + 1]).trace, Run(c, steps).trace);
  }

  lemma RunsOneStep(c: Config, steps: seq<Step>, k: nat)
    requires Legal(c, steps) && k < |steps|
    ensures Legal(c, steps[..k]) && Legal(c, steps[..k + 1]) && Enabled(c, Run(c, steps[..k]), steps[k])
    ensures Run(c, steps[..k + 1]) == Apply(c, Run(c, steps[..k]), steps[k])
  {
    TraceGrows(c, steps, k);
    TraceGrows(c, steps, k + 1);
    assert steps[..k + 1][..k] == steps[..k];
  }

  lemma FailureIsKept(early: seq<Emission>, trace: seq<Emission>)
    requires early <= trace && exists j :: 0 <= j < |early| && early[j].status.Failed?
    ensures exists j :: 0 <= j < |trace| && trace[j].status.Failed?
  {
    var j :| 0 <= j < |early| && early[j].status.Failed?;
    assert trace[j] == early[j];
  }

  // ---------- the built image ----------

  predicate AtGrype(t: Task) { t.kind.Supply? && ((t.pc.Holding? && t.pc.m == Sca) || t.pc.Image?) }

  ghost predicate GrypeIsOn(s: State) { exists i :: 0 <= i < |s.tasks| && AtGrype(s.tasks[i]) }

  ghost predicate ImageScanned(steps: seq<Step>) { exists k :: 0 <= k < |steps| && steps[k].FinishImage? }

  /** With a built image, Grype's branch is not done before the image was scanned too; without one it never is. */
  ghost predicate ImageOk(c: Config, steps: seq<Step>, s: State) {
    && (c.artifact && Started(s.trace, Sca) ==> GrypeIsOn(s) || ImageScanned(steps))
    && (!c.artifact ==> !ImageScanned(steps) && forall i :: 0 <= i < |s.tasks| ==> !s.tasks[i].pc.Image?)
  }

  lemma ScannedOneMore(steps: seq<Step>, n: nat)
    requires n == |steps| - 1
    ensures ImageScanned(steps) <==> ImageScanned(steps[..n]) || steps[n].FinishImage?
  {
    if ImageScanned(steps[..n]) {
      var k :| 0 <= k < n && steps[..n][k].FinishImage?;
      assert steps[k].FinishImage?;
    }
    if ImageScanned(steps) {
      var k :| 0 <= k < |steps| && steps[k].FinishImage?;
      assert k < n ==> steps[..n][k].FinishImage?;
    }
  }

  /** A task step leaves the other tasks where they are, and starts Grype only in a task that is then at Grype. */
  lemma TaskStepAtGrype(c: Config, s: State, step: Step)
    requires Inv(c, s) && Enabled(c, s, step) && !step.Plan? && !step.EndPhase? && !step.Summarise? && c.artifact
    ensures GrypeIsOn(s) && !step.FinishImage? ==> GrypeIsOn(Apply(c, s, step))
    ensures Started(Apply(c, s, step).trace, Sca) ==> Started(s.trace, Sca) || GrypeIsOn(Apply(c, s, step))
  {
    var after, t := Apply(c, s, step), s.tasks[step.i];
    assert Fits(t, s.trace);
    if GrypeIsOn(s) && !step.FinishImage? {
      var i :| 0 <= i < |s.tasks| && AtGrype(s.tasks[i]);
      assert AtGrype(after.tasks[i]);
    }
    if step.Acquire? {
      StartedOneMore(s.trace, Emission(t.pc.m, Starting), Sca);
      assert t.pc.m == Sca ==> AtGrype(after.tasks[step.i]);
    } else {
      NoStartNoNews(s.trace, after.trace, Sca);
    }
  }

  lemma NoStartNoNews(trace: seq<Emission>, after: seq<Emission>, m: Module)
    requires trace <= after && forall j :: |trace| <= j < |after| ==> !after[j].status.Starting?
    ensures Started(after, m) ==> Started(trace, m)
  {
    if Started(after, m) {
      var j :| 0 <= j < |after| && after[j] == Emission(m, Starting);
      assert trace[j] == after[j];
    }
  }

  lemma PlanAtGrype(c: Config, s: State, ready: bool, image: bool)
    requires Planning(c, s)
    ensures GrypeIsOn(s) ==> GrypeIsOn(Apply(c, s, Plan(ready, image)))
    ensures Started(Apply(c, s, Plan(ready, image)).trace, Sca) ==> Started(s.trace, Sca)
    ensures (forall i :: 0 <= i < |s.tasks| ==> !s.tasks[i].pc.Image?) ==>
      forall i :: 0 <= i < |Apply(c, s, Plan(ready, image)).tasks| ==> !Apply(c, s, Plan(ready, image)).tasks[i].pc.Image?
  {
    var after := Apply(c, s, Plan(ready, image));
    if GrypeIsOn(s) {
      var i :| 0 <= i < |s.tasks| && AtGrype(s.tasks[i]);
      assert AtGrype(after.tasks[i]);
    }
    NoStartNoNews(s.trace, after.trace, Sca);
  }

  lemma {:induction false} RunScansTheImage(c: Config, steps: seq<Step>)
    requires Legal(c, steps) && ListsOnce(c)
    ensures ImageOk(c, steps, Run(c, steps))
  {
    if steps != [] {
      var n := |steps| - 1;
      var s, step := Run(c, steps[..n]), steps[n];
      RunScansTheImage(c, steps[..n]);
      RunKeepsInv(c, steps[..n]);
      ScannedOneMore(steps, n);
      if step.Plan? {
        PlanAtGrype(c, s, step.ready, step.image);
      } else if step.EndPhase? {
        NoTaskAtGrype(s);
      } else if !step.Summarise? && c.artifact {
        TaskStepAtGrype(c, s, step);
      }
    }
  }

  lemma NoTaskAtGrype(s: State)
    requires forall t :: t in s.tasks ==> t.pc == Done
    ensures !GrypeIsOn(s)
  {
    forall i | 0 <= i < |s.tasks| ensures !AtGrype(s.tasks[i]) { assert s.tasks[i] in s.tasks; }
  }

  /** When a run returns in which Grype was started, the built image was scanned exactly if there is one. */
  lemma ImageScannedIff(c: Config, steps: seq<Step>)
    requires Legal(c, steps) && ListsOnce(c) && Run(c, steps).result.Returned? && Started(Run(c, steps).trace, Sca)
    ensures ImageScanned(steps) <==> c.artifact
  {
    RunScansTheImage(c, steps);
    RunKeepsInv(c, steps);
    assert !GrypeIsOn(Run(c, steps));
  }
}
