/** The registry of scan jobs (`ScanJobs` in scan_jobs.py): one job per project, a bounded number
    of settled ones, and the coroutine `execute` that carries each job to its verdict.

    A `Registry` value holds the dict in its insertion order and every job ever created, evicted or
    not.  `execute` is cut at its awaits; a step resumes one job, or calls `start`. */
module ScanRegistry {

  // `settled[:-99]` keeps this many settled jobs.
  const KEPT: nat := 99

  type Project = string
  type User = string
  type JobId = nat

  datatype Status = Running | Completed | Error

  /** Where `execute` is suspended. */
  datatype Phase =
    | Working      // awaiting the runner or the lease
    | Settling     // awaiting the on_settled hook
    | Reporting    // awaiting the failure message
    | Closing      // awaiting the cancelled runner and lease
    | Storing      // awaiting store.finish
    | Announcing   // awaiting the final status message
    | Over

  /** `finishes` records the statuses passed to store.finish, in call order. */
  datatype Job = Job(
    project: Project, user: User, status: Status, phase: Phase,
    persistenceFailed: bool, finishes: seq<Status>)

  datatype Entry = Entry(project: Project, id: JobId)

  datatype Registry = Registry(entries: seq<Entry>, jobs: seq<Job>)

  /** What the hook on_settled does: nothing to await, an awaitable, or an exception. */
  datatype Hook = NoAwait | Awaitable | HookRaises

  datatype Resumption =
    | EventLost                                           // an event fails to persist
    | RunnerReturned(success: bool, completeRaises: bool, hook: Hook)
    | WorkRaised                                          // the runner raised or the lease was lost
    | WorkCancelled
    | HookReturned
    | HookRaised
    | HookCancelled
    | ReportEnded
    | Closed
    | CloseCancelled
    | Finished(stored: bool)
    | Announced

  datatype Outcome = Existing(id: JobId) | Unauthorized | StoreRefused | FactoryRaised | Started(id: JobId)

  datatype Step =
    | Start(project: Project, user: User, createOk: bool, factoryOk: bool)
    | Resume(id: JobId, event: Resumption)

  // ---------- the insertion-ordered dict ----------

  predicate Has(entries: seq<Entry>, p: Project) {
    exists i :: 0 <= i < |entries| && entries[i].project == p
  }

  function Find(entries: seq<Entry>, p: Project): (k: nat)
    requires Has(entries, p)
    ensures k < |entries| && entries[k].project == p
  {
    if entries[0].project == p then 0 else 1 + Find(entries[1..], p)
  }

  /** Assigning to a present key keeps its place, a new key goes last. */
  function Put(entries: seq<Entry>, p: Project, id: JobId): seq<Entry> {
    if Has(entries, p) then entries[Find(entries, p) := Entry(p, id)] else entries + [Entry(p, id)]
  }

  function Without(entries: seq<Entry>, p: Project): seq<Entry> {
    if entries == [] then []
    else if entries[0].project == p then entries[1..]
    else [entries[0]] + Without(entries[1..], p)
  }

  function WithoutAll(entries: seq<Entry>, ps: seq<Project>): seq<Entry>
    decreases |ps|
  {
    if ps == [] then entries else WithoutAll(Without(entries, ps[0]), ps[1..])
  }

  predicate IsSettled(jobs: seq<Job>, e: Entry) {
    e.id < |jobs| && jobs[e.id].status != Running
  }

  function Settled(entries: seq<Entry>, jobs: seq<Job>): seq<Project> {
    if entries == [] then []
    else (if IsSettled(jobs, entries[0]) then [entries[0].project] else []) + Settled(entries[1..], jobs)
  }

  lemma SettledFrom(entries: seq<Entry>, jobs: seq<Job>, i: nat)
    requires i < |entries|
    ensures Settled(entries[i..], jobs)
         == (if IsSettled(jobs, entries[i]) then [entries[i].project] else []) + Settled(entries[i + 1..], jobs)
  {
    assert entries[i..][1..] == entries[i + 1..];
  }

  function Evicted(entries: seq<Entry>, jobs: seq<Job>): seq<Project> {
    var settled := Settled(entries, jobs);
    if |settled| <= KEPT then [] else settled[..|settled| - KEPT]
  }

  // ---------- the steps ----------

  function NewJob(p: Project, u: User): Job {
    Job(p, u, Running, Working, false, [])
  }

  function StartOutcome(r: Registry, p: Project, u: User, createOk: bool, factoryOk: bool): Outcome {
    if Has(r.entries, p) && var id := r.entries[Find(r.entries, p)].id; id < |r.jobs| && r.jobs[id].status == Running then
      var id := r.entries[Find(r.entries, p)].id;
      if r.jobs[id].user != u then Unauthorized else Existing(id)
    else if !createOk then StoreRefused
    else if !factoryOk then FactoryRaised
    else Started(|r.jobs|)
  }

  /** The registry after a start that creates a job. */
  function AfterCreating(r: Registry, p: Project, u: User): Registry {
    Registry(Put(WithoutAll(r.entries, Evicted(r.entries, r.jobs)), p, |r.jobs|), r.jobs + [NewJob(p, u)])
  }

  function AfterStart(r: Registry, p: Project, u: User, createOk: bool, factoryOk: bool): Registry {
    match StartOutcome(r, p, u, createOk, factoryOk)
    case Existing(_) => r
    case Unauthorized => r
    case StoreRefused => r.(entries := WithoutAll(r.entries, Evicted(r.entries, r.jobs)))
    case FactoryRaised => r.(entries := WithoutAll(r.entries, Evicted(r.entries, r.jobs)))
    case Started(_) => AfterCreating(r, p, u)
  }

  predicate CanResume(j: Job, event: Resumption) {
    match event
    case EventLost => true
    case RunnerReturned(_, _, _) => j.phase.Working?
    case WorkRaised => j.phase.Working?
    case WorkCancelled => j.phase.Working?
    case HookReturned => j.phase.Settling?
    case HookRaised => j.phase.Settling?
    case HookCancelled => j.phase.Settling?
    case ReportEnded => j.phase.Reporting?
    case Closed => j.phase.Closing?
    case CloseCancelled => j.phase.Closing?
    case Finished(_) => j.phase.Storing?
    case Announced => j.phase.Announcing?
  }

  function Resumed(j: Job, event: Resumption): Job
    requires CanResume(j, event)
  {
    match event
    case EventLost => j.(persistenceFailed := true)
    case RunnerReturned(success, completeRaises, hook) =>
      if completeRaises then j.(status := Error, phase := Reporting)
      else
        var verdict := if success && !j.persistenceFailed then Completed else Error;
        (match hook
         case NoAwait => j.(status := verdict, phase := Closing)
         case Awaitable => j.(status := verdict, phase := Settling)
         case HookRaises => j.(status := Error, phase := Reporting))
    case WorkRaised => j.(status := Error, phase := Reporting)
    case WorkCancelled => j.(status := Error, phase := Closing)
    case HookReturned => j.(phase := Closing)
    case HookRaised => j.(status := Error, phase := Reporting)
    case HookCancelled => j.(status := Error, phase := Closing)
    case ReportEnded => j.(phase := Closing)
    case Closed => j.(phase := Storing, finishes := j.finishes + [j.status])
    case CloseCancelled => j.(phase := Over)
    case Finished(stored) => j.(phase := if stored then Announcing else Over)
    case Announced => j.(phase := Over)
  }

  predicate Enabled(r: Registry, step: Step) {
    step.Resume? ==> step.id < |r.jobs| && CanResume(r.jobs[step.id], step.event)
  }

  function Apply(r: Registry, step: Step): Registry
    requires Enabled(r, step)
  {
    match step
    case Start(p, u, createOk, factoryOk) => AfterStart(r, p, u, createOk, factoryOk)
    case Resume(id, event) => r.(jobs := r.jobs[id := Resumed(r.jobs[id], event)])
  }

  // ---------- what every run keeps ----------

  ghost predicate DistinctKeys(entries: seq<Entry>) {
    forall i, j :: 0 <= i < j < |entries| ==> entries[i].project != entries[j].project
  }

  ghost predicate EntriesOk(r: Registry) {
    && DistinctKeys(r.entries)
    && (forall e :: e in r.entries ==> e.id < |r.jobs| && r.jobs[e.id].project == e.project)
    && (forall id :: 0 <= id < |r.jobs| && r.jobs[id].status == Running ==> Entry(r.jobs[id].project, id) in r.entries)
  }

  ghost predicate JobOk(j: Job) {
    && (j.status == Running <==> j.phase.Working?)
    && (j.finishes == [] || (|j.finishes| == 1 && j.finishes[0] == j.status && j.phase in {Storing, Announcing, Over}))
    && (j.phase in {Storing, Announcing} ==> |j.finishes| == 1)
  }

  ghost predicate Inv(r: Registry) {
    EntriesOk(r) && forall id :: 0 <= id < |r.jobs| ==> JobOk(r.jobs[id])
  }

  lemma {:induction false} WithoutHas(entries: seq<Entry>, p: Project)
    ensures forall e :: e in Without(entries, p) ==> e in entries
    ensures forall e :: e in entries && e.project != p ==> e in Without(entries, p)
  {
    if entries != [] && entries[0].project != p {
      WithoutHas(entries[1..], p);
      assert entries == [entries[0]] + entries[1..];
    }
  }

  lemma {:induction false} WithoutDrops(entries: seq<Entry>, p: Project)
    requires DistinctKeys(entries)
    ensures DistinctKeys(Without(entries, p))
    ensures forall e :: e in Without(entries, p) <==> e in entries && e.project != p
  {
    WithoutHas(entries, p);
    if entries != [] && entries[0].project != p {
      WithoutDrops(entries[1..], p);
      WithoutHas(entries[1..], p);
      assert Without(entries, p)[1..] == Without(entries[1..], p);
    }
  }

  lemma {:induction false} WithoutAllDrops(entries: seq<Entry>, ps: seq<Project>)
    requires DistinctKeys(entries)
    ensures DistinctKeys(WithoutAll(entries, ps))
    ensures forall e :: e in WithoutAll(entries, ps) <==> e in entries && e.project !in ps
    decreases |ps|
  {
    if ps != [] {
      WithoutDrops(entries, ps[0]);
      WithoutAllDrops(Without(entries, ps[0]), ps[1..]);
    }
  }

  lemma {:induction false} SettledAreKeys(entries: seq<Entry>, jobs: seq<Job>, p: Project)
    requires DistinctKeys(entries)
    ensures p in Settled(entries, jobs) <==> exists e :: e in entries && e.project == p && IsSettled(jobs, e)
  {
    if entries != [] {
      SettledAreKeys(entries[1..], jobs, p);
      assert entries == [entries[0]] + entries[1..];
    }
  }

  /** Deleting the oldest settled key leaves the other settled keys in order. */
  lemma {:induction false} DropOldest(entries: seq<Entry>, jobs: seq<Job>)
    requires DistinctKeys(entries) && Settled(entries, jobs) != []
    ensures Settled(Without(entries, Settled(entries, jobs)[0]), jobs) == Settled(entries, jobs)[1..]
  {
    var p := Settled(entries, jobs)[0];
    if !IsSettled(jobs, entries[0]) {
      SettledAreKeys(entries[1..], jobs, p);
      DropOldest(entries[1..], jobs);
      assert entries[0].project != p;
    }
  }

  lemma {:induction false} DropOldestAll(entries: seq<Entry>, jobs: seq<Job>, k: nat)
    requires DistinctKeys(entries) && k <= |Settled(entries, jobs)|
    ensures Settled(WithoutAll(entries, Settled(entries, jobs)[..k]), jobs) == Settled(entries, jobs)[k..]
    decreases k
  {
    var settled := Settled(entries, jobs);
    if k > 0 {
      DropOldest(entries, jobs);
      WithoutDrops(entries, settled[0]);
      var rest := Without(entries, settled[0]);
      DropOldestAll(rest, jobs, k - 1);
      assert settled[..k][1..] == settled[1..][..k - 1];
    }
  }

  /** Eviction removes only settled jobs, the oldest first, and leaves at most KEPT of them. */
  lemma EvictionBound(entries: seq<Entry>, jobs: seq<Job>)
    requires DistinctKeys(entries)
    ensures var left := WithoutAll(entries, Evicted(entries, jobs));
            var settled := Settled(entries, jobs);
            && Settled(left, jobs) == settled[if |settled| <= KEPT then 0 else |settled| - KEPT..]
            && |Settled(left, jobs)| <= KEPT
            && (forall e :: e in entries && !IsSettled(jobs, e) ==> e in left)
            && (forall e :: e in left ==> e in entries)
  {
    var settled := Settled(entries, jobs);
    DropOldestAll(entries, jobs, if |settled| <= KEPT then 0 else |settled| - KEPT);
    WithoutAllDrops(entries, Evicted(entries, jobs));
    forall e | e in entries && !IsSettled(jobs, e) ensures e.project !in Evicted(entries, jobs) {
      if e.project in settled {
        SettledAreKeys(entries, jobs, e.project);
        assert false;
      }
    }
  }

  lemma PutKeeps(entries: seq<Entry>, p: Project, id: JobId)
    requires DistinctKeys(entries)
    ensures DistinctKeys(Put(entries, p, id)) && Entry(p, id) in Put(entries, p, id)
    ensures forall e :: e in entries && e.project != p ==> e in Put(entries, p, id)
    ensures forall e :: e in Put(entries, p, id) ==> e == Entry(p, id) || (e in entries && e.project != p)
  {
    var put := Put(entries, p, id);
    if Has(entries, p) {
      var k := Find(entries, p);
      assert put[k] == Entry(p, id);
      forall i | 0 <= i < |entries| && i != k ensures put[i] == entries[i] && entries[i].project != p {}
    } else {
      assert put[|entries|] == Entry(p, id);
      forall i | 0 <= i < |entries| ensures put[i] == entries[i] && entries[i].project != p {}
    }
  }

  lemma EvictingKeepsInv(r: Registry)
    requires Inv(r)
    ensures Inv(r.(entries := WithoutAll(r.entries, Evicted(r.entries, r.jobs))))
  {
    EvictionBound(r.entries, r.jobs);
    WithoutAllDrops(r.entries, Evicted(r.entries, r.jobs));
  }

  ghost predicate NoneRunning(r: Registry, p: Project) {
    forall id :: 0 <= id < |r.jobs| && r.jobs[id].status == Running ==> r.jobs[id].project != p
  }

  lemma PuttingKeepsInv(r: Registry, p: Project, u: User)
    requires Inv(r) && NoneRunning(r, p)
    ensures Inv(Registry(Put(r.entries, p, |r.jobs|), r.jobs + [NewJob(p, u)]))
  {
    var next := Registry(Put(r.entries, p, |r.jobs|), r.jobs + [NewJob(p, u)]);
    PutKeeps(r.entries, p, |r.jobs|);
    forall id | 0 <= id < |next.jobs| && next.jobs[id].status == Running
      ensures Entry(next.jobs[id].project, id) in next.entries
    {
      if id < |r.jobs| { assert Entry(r.jobs[id].project, id) in r.entries; }
    }
  }

  lemma FindsTheEntry(entries: seq<Entry>, e: Entry)
    requires DistinctKeys(entries) && e in entries
    ensures Has(entries, e.project) && entries[Find(entries, e.project)] == e
  {
  }

  lemma StartedFindsNoneRunning(r: Registry, p: Project, u: User, createOk: bool, factoryOk: bool)
    requires Inv(r) && StartOutcome(r, p, u, createOk, factoryOk).Started?
    ensures NoneRunning(r, p)
  {
    forall id | 0 <= id < |r.jobs| && r.jobs[id].status == Running ensures r.jobs[id].project != p {
      FindsTheEntry(r.entries, Entry(r.jobs[id].project, id));
    }
  }

  lemma StartKeepsInv(r: Registry, p: Project, u: User, createOk: bool, factoryOk: bool)
    requires Inv(r)
    ensures Inv(AfterStart(r, p, u, createOk, factoryOk))
  {
    EvictingKeepsInv(r);
    if StartOutcome(r, p, u, createOk, factoryOk).Started? {
      StartedFindsNoneRunning(r, p, u, createOk, factoryOk);
      PuttingKeepsInv(r.(entries := WithoutAll(r.entries, Evicted(r.entries, r.jobs))), p, u);
    }
  }

  lemma ResumeKeepsJob(j: Job, event: Resumption)
    requires JobOk(j) && CanResume(j, event)
    ensures JobOk(Resumed(j, event)) && Resumed(j, event).project == j.project
    ensures j.status != Running ==> Resumed(j, event).status != Running
  {
  }

  lemma StepKeepsInv(r: Registry, step: Step)
    requires Inv(r) && Enabled(r, step)
    ensures Inv(Apply(r, step))
  {
    match step
    case Start(p, u, createOk, factoryOk) => StartKeepsInv(r, p, u, createOk, factoryOk);
    case Resume(id, event) => ResumeKeepsJob(r.jobs[id], event);
  }

  // ---------- runs ----------

  predicate Legal(r: Registry, steps: seq<Step>)
    decreases |steps|
  {
    steps == [] || (Enabled(r, steps[0]) && Legal(Apply(r, steps[0]), steps[1..]))
  }

  function Run(r: Registry, steps: seq<Step>): Registry
    requires Legal(r, steps)
    decreases |steps|
  {
    if steps == [] then r else Run(Apply(r, steps[0]), steps[1..])
  }

  const Empty := Registry([], [])

  lemma {:induction false} RunKeepsInv(r: Registry, steps: seq<Step>)
    requires Inv(r) && Legal(r, steps)
    ensures Inv(Run(r, steps))
    decreases |steps|
  {
    if steps != [] {
      StepKeepsInv(r, steps[0]);
      RunKeepsInv(Apply(r, steps[0]), steps[1..]);
    }
  }

  /** In every run at most one job of a project is running, it is the one the dict holds, and the
      store is told at most once how a job ended, with a terminal status. */
  lemma OneRunningJob(steps: seq<Step>, a: JobId, b: JobId)
    requires Legal(Empty, steps)
    requires a < |Run(Empty, steps).jobs| && b < |Run(Empty, steps).jobs|
    ensures var r := Run(Empty, steps);
            && (r.jobs[a].status == Running ==> Entry(r.jobs[a].project, a) in r.entries)
            && ((r.jobs[a].status == Running && r.jobs[b].status == Running
                 && r.jobs[a].project == r.jobs[b].project) ==> a == b)
            && |r.jobs[a].finishes| <= 1
            && Running !in r.jobs[a].finishes
  {
    RunKeepsInv(Empty, steps);
    var r := Run(Empty, steps);
    assert JobOk(r.jobs[a]);
    if r.jobs[a].status == Running && r.jobs[b].status == Running && r.jobs[a].project == r.jobs[b].project {
      var i :| 0 <= i < |r.entries| && r.entries[i] == Entry(r.jobs[a].project, a);
      var k :| 0 <= k < |r.entries| && r.entries[k] == Entry(r.jobs[b].project, b);
      assert i == k;
    }
  }

  /** While a project's job runs, `start` gives its owner that job, refuses everyone else, and changes nothing. */
  lemma RunningJobIsShared(steps: seq<Step>, id: JobId, u: User, createOk: bool, factoryOk: bool)
    requires Legal(Empty, steps) && id < |Run(Empty, steps).jobs| && Run(Empty, steps).jobs[id].status == Running
    ensures var r := Run(Empty, steps); var job := r.jobs[id];
      && StartOutcome(r, job.project, u, createOk, factoryOk) == (if u == job.user then Existing(id) else Unauthorized)
      && AfterStart(r, job.project, u, createOk, factoryOk) == r
  {
    RunKeepsInv(Empty, steps);
    var r := Run(Empty, steps);
    FindsTheEntry(r.entries, Entry(r.jobs[id].project, id));
  }

  /** A call of `start` that creates a job leaves at most KEPT settled ones, drops no running one,
      and makes the new job the project's. */
  lemma StartBoundsSettled(r: Registry, p: Project, u: User)
    requires Inv(r) && StartOutcome(r, p, u, true, true).Started?
    ensures var next := AfterStart(r, p, u, true, true);
            && |Settled(next.entries, next.jobs)| <= 99
            && (forall e :: e in r.entries && r.jobs[e.id].status == Running ==> e in next.entries)
            && Entry(p, |r.jobs|) in next.entries && |next.jobs| == |r.jobs| + 1
            && next.jobs[|r.jobs|].status == Running
  {
    StartedFindsNoneRunning(r, p, u, true, true);
    FewStaySettled(r, p, u);
    RunningStayRegistered(r, p, u);
  }

  lemma FewStaySettled(r: Registry, p: Project, u: User)
    requires Inv(r)
    ensures var next := AfterCreating(r, p, u); |Settled(next.entries, next.jobs)| <= KEPT
  {
    var left, jobs := WithoutAll(r.entries, Evicted(r.entries, r.jobs)), r.jobs + [NewJob(p, u)];
    EvictionBound(r.entries, r.jobs);
    SameSettled(left, r.jobs, jobs);
    PutRunningShrinks(left, jobs, p, |r.jobs|);
  }

  lemma RunningStayRegistered(r: Registry, p: Project, u: User)
    requires Inv(r) && NoneRunning(r, p)
    ensures var next := AfterCreating(r, p, u);
      && Entry(p, |r.jobs|) in next.entries
      && forall e :: e in r.entries && r.jobs[e.id].status == Running ==> e in next.entries
  {
    EvictionBound(r.entries, r.jobs);
    var left := WithoutAll(r.entries, Evicted(r.entries, r.jobs));
    WithoutAllDrops(r.entries, Evicted(r.entries, r.jobs));
    PutKeeps(left, p, |r.jobs|);
    forall e | e in r.entries && r.jobs[e.id].status == Running ensures e in left && e.project != p {
      assert !IsSettled(r.jobs, e);
    }
  }

  lemma {:induction false} SameSettled(entries: seq<Entry>, jobs: seq<Job>, more: seq<Job>)
    requires jobs <= more && forall e :: e in entries ==> e.id < |jobs|
    ensures Settled(entries, jobs) == Settled(entries, more)
  {
    if entries != [] { SameSettled(entries[1..], jobs, more); }
  }

  lemma {:induction false} PutRunningShrinks(entries: seq<Entry>, jobs: seq<Job>, p: Project, id: JobId)
    requires !IsSettled(jobs, Entry(p, id))
    ensures |Settled(Put(entries, p, id), jobs)| <= |Settled(entries, jobs)|
  {
    if entries != [] {
      var rest := entries[1..];
      if entries[0].project == p {
        assert Put(entries, p, id)[1..] == rest;
      } else {
        assert Has(entries, p) ==> Has(rest, p);
        assert Has(rest, p) ==> Has(entries, p) by {
          if Has(rest, p) { var i :| 0 <= i < |rest| && rest[i].project == p; assert entries[i + 1] == rest[i]; }
        }
        PutRunningShrinks(rest, jobs, p, id);
        assert Put(entries, p, id)[1..] == Put(rest, p, id);
      }
    }
  }

  /** `later` continues the life of job `id` in `r`: once settled it stays settled, its owner is
      fixed, and the store's record of it only grows. */
  ghost predicate Continues(r: Registry, later: Registry, id: JobId)
    requires id < |r.jobs|
  {
    && id < |later.jobs|
    && (r.jobs[id].status != Running ==> later.jobs[id].status != Running)
    && r.jobs[id].finishes <= later.jobs[id].finishes
    && (r.jobs[id].persistenceFailed ==> later.jobs[id].persistenceFailed)
    && r.jobs[id].project == later.jobs[id].project && r.jobs[id].user == later.jobs[id].user
  }

  lemma StepContinues(r: Registry, step: Step, id: JobId)
    requires Enabled(r, step) && id < |r.jobs|
    ensures Continues(r, Apply(r, step), id)
  {
  }

  lemma {:induction false} SettledForever(r: Registry, steps: seq<Step>, id: JobId)
    requires Legal(r, steps) && id < |r.jobs|
    ensures Continues(r, Run(r, steps), id)
    decreases |steps|
  {
    if steps != [] {
      StepContinues(r, steps[0], id);
      SettledForever(Apply(r, steps[0]), steps[1..], id);
    }
  }

  /** The job is completed, or the store was told that it is. */
  ghost predicate ReadsCompleted(r: Registry, id: JobId) {
    id < |r.jobs| && (r.jobs[id].status == Completed || Completed in r.jobs[id].finishes)
  }

  ghost predicate Decides(step: Step, id: JobId) {
    step.Resume? && step.id == id && step.event.RunnerReturned? && step.event.success
  }

  /** The runner of the job reported success at step k, and no event of the job had failed to persist before. */
  ghost predicate DecidedAt(steps: seq<Step>, id: JobId, k: nat) {
    k < |steps| && Decides(steps[k], id) && forall j :: 0 <= j < k ==> steps[j] != Resume(id, EventLost)
  }

  lemma StepDecides(r: Registry, step: Step, id: JobId)
    requires Inv(r) && Enabled(r, step) && !ReadsCompleted(r, id) && ReadsCompleted(Apply(r, step), id)
    ensures id < |r.jobs| && Decides(step, id) && !r.jobs[id].persistenceFailed
  {
    if id < |r.jobs| { assert JobOk(r.jobs[id]); }
  }

  /** A job that lost an event before it was completed is never completed. */
  lemma {:induction false} LossForbidsCompleted(r: Registry, steps: seq<Step>, id: JobId)
    requires Inv(r) && Legal(r, steps) && id < |r.jobs| && r.jobs[id].persistenceFailed && !ReadsCompleted(r, id)
    ensures !ReadsCompleted(Run(r, steps), id)
    decreases |steps|
  {
    if steps != [] {
      StepContinues(r, steps[0], id);
      StepKeepsInv(r, steps[0]);
      if ReadsCompleted(Apply(r, steps[0]), id) { StepDecides(r, steps[0], id); }
      LossForbidsCompleted(Apply(r, steps[0]), steps[1..], id);
    }
  }

  lemma {:induction false} CompletedWasDecided(r: Registry, steps: seq<Step>, id: JobId) returns (k: nat)
    requires Inv(r) && Legal(r, steps) && !ReadsCompleted(r, id) && ReadsCompleted(Run(r, steps), id)
    ensures DecidedAt(steps, id, k)
    decreases |steps|
  {
    var next := Apply(r, steps[0]);
    StepKeepsInv(r, steps[0]);
    if ReadsCompleted(next, id) {
      StepDecides(r, steps[0], id);
      k := 0;
    } else {
      if steps[0] == Resume(id, EventLost) { LossForbidsCompleted(next, steps[1..], id); }
      var tail := steps[1..];
      var i := CompletedWasDecided(next, tail, id);
      k := i + 1;
      assert steps[k] == tail[i] && forall j :: 1 <= j < k ==> steps[j] == tail[j - 1];
    }
  }

  /** In every run: a job reads as completed, or was stored as completed, only when its runner reported success at
      some step before which none of its events had failed to persist. */
  lemma CompletedIsHonest(steps: seq<Step>, id: JobId)
    requires Legal(Empty, steps) && ReadsCompleted(Run(Empty, steps), id)
    ensures exists k :: DecidedAt(steps, id, k)
  {
    var k := CompletedWasDecided(Empty, steps, id);
  }

  lemma StepSetsFlag(r: Registry, step: Step, id: JobId)
    requires Enabled(r, step)
    ensures id < |r.jobs| ==>
      id < |Apply(r, step).jobs|
      && (Apply(r, step).jobs[id].persistenceFailed <==> r.jobs[id].persistenceFailed || step == Resume(id, EventLost))
    ensures |r.jobs| <= id < |Apply(r, step).jobs| ==> !Apply(r, step).jobs[id].persistenceFailed
    ensures id >= |r.jobs| ==> step != Resume(id, EventLost)
  {
  }

  /** A job's flag is raised exactly by an event of its own that failed to persist. */
  lemma {:induction false} FlagMeansLoss(r: Registry, steps: seq<Step>, id: JobId)
    requires Legal(r, steps) && id < |Run(r, steps).jobs|
    ensures Run(r, steps).jobs[id].persistenceFailed
       <==> (id < |r.jobs| && r.jobs[id].persistenceFailed) || Resume(id, EventLost) in steps
    decreases |steps|
  {
    if steps != [] {
      StepSetsFlag(r, steps[0], id);
      FlagMeansLoss(Apply(r, steps[0]), steps[1..], id);
      assert steps == [steps[0]] + steps[1..];
    }
  }

  /** A verdict is revised only to an error, and never once the store was told. */
  ghost predicate VerdictKept(j: Job, later: Job) {
    && (j.status == Error ==> later.status == Error)
    && (j.status == Completed ==> later.status != Running)
    && (j.finishes != [] ==> later.status == j.status)
  }

  lemma StepKeepsVerdict(r: Registry, step: Step, id: JobId)
    requires Inv(r) && Enabled(r, step) && id < |r.jobs|
    ensures id < |Apply(r, step).jobs| && VerdictKept(r.jobs[id], Apply(r, step).jobs[id])
  {
    assert JobOk(r.jobs[id]);
  }

  /** Over every continuation of every run. */
  lemma {:induction false} VerdictOnlySinks(r: Registry, steps: seq<Step>, id: JobId)
    requires Inv(r) && Legal(r, steps) && id < |r.jobs|
    ensures id < |Run(r, steps).jobs| && VerdictKept(r.jobs[id], Run(r, steps).jobs[id])
    decreases |steps|
  {
    if steps != [] {
      StepKeepsInv(r, steps[0]);
      StepKeepsVerdict(r, steps[0], id);
      StepContinues(r, steps[0], id);
      VerdictOnlySinks(Apply(r, steps[0]), steps[1..], id);
    }
  }

  // ---------- what the store is told ----------

  lemma {:induction false} RunOneMore(r: Registry, steps: seq<Step>, n: nat)
    requires Legal(r, steps) && n == |steps| - 1
    ensures Legal(r, steps[..n]) && Enabled(Run(r, steps[..n]), steps[n])
    ensures Run(r, steps) == Apply(Run(r, steps[..n]), steps[n])
    decreases n
  {
    if n > 0 {
      assert steps[1..][..n - 1] == steps[..n][1..];
      RunOneMore(Apply(r, steps[0]), steps[1..], n - 1);
    }
  }

  /** The runner of the job reports success, and the completion hooks called at once do not raise. */
  predicate Succeeds(step: Step, id: JobId) {
    && step.Resume? && step.id == id && step.event.RunnerReturned?
    && step.event.success && !step.event.completeRaises && step.event.hook != HookRaises
  }

  /** The job's awaited hook ends badly. */
  predicate HookFails(step: Step, id: JobId) {
    step == Resume(id, HookRaised) || step == Resume(id, HookCancelled)
  }

  ghost predicate SucceededAt(steps: seq<Step>, id: JobId, k: nat) {
    && k < |steps| && Succeeds(steps[k], id)
    && (forall j :: 0 <= j < k ==> steps[j] != Resume(id, EventLost))
    && (forall j :: k < j < |steps| ==> !HookFails(steps[j], id))
  }

  /** The runner succeeded before any event of the job was lost, and the awaited hook did not fail after it. */
  ghost predicate Succeeded(steps: seq<Step>, id: JobId) { exists k: nat :: SucceededAt(steps, id, k) }

  ghost predicate RunnerReturns(step: Step, id: JobId) { step.Resume? && step.id == id && step.event.RunnerReturned? }

  lemma SucceededStays(steps: seq<Step>, id: JobId, n: nat)
    requires n == |steps| - 1 && !RunnerReturns(steps[n], id)
    ensures Succeeded(steps, id) <==> Succeeded(steps[..n], id) && !HookFails(steps[n], id)
  {
    var before := steps[..n];
    if Succeeded(before, id) && !HookFails(steps[n], id) {
      var k: nat :| SucceededAt(before, id, k);
      SameUpTo(steps, n);
      assert SucceededAt(steps, id, k);
    }
    if Succeeded(steps, id) {
      var k: nat :| SucceededAt(steps, id, k);
      SameUpTo(steps, n);
      assert SucceededAt(before, id, k);
    }
  }

  lemma SameUpTo(steps: seq<Step>, n: nat)
    requires n <= |steps|
    ensures forall j :: 0 <= j < n ==> steps[..n][j] == steps[j]
  {
  }

  /** The first return of the runner decides. */
  lemma SucceededNow(steps: seq<Step>, id: JobId, n: nat)
    requires n == |steps| - 1 && RunnerReturns(steps[n], id)
    requires forall j :: 0 <= j < n ==> !RunnerReturns(steps[j], id)
    ensures Succeeded(steps, id) <==> Succeeds(steps[n], id) && Resume(id, EventLost) !in steps[..n]
  {
    if Succeeds(steps[n], id) && Resume(id, EventLost) !in steps[..n] {
      SameUpTo(steps, n);
      assert forall j :: 0 <= j < n ==> steps[j] in steps[..n];
      assert SucceededAt(steps, id, n);
    }
    if Succeeded(steps, id) {
      var k: nat :| SucceededAt(steps, id, k);
      assert k == n;
    }
  }

  /** While it runs its runner has not returned; once settled its status tells whether it succeeded. */
  ghost predicate StatusTells(steps: seq<Step>, id: JobId, j: Job) {
    && (j.status == Running ==> forall i :: 0 <= i < |steps| ==> !RunnerReturns(steps[i], id))
    && (j.status == Completed ==> Succeeded(steps, id))
    && (j.status == Error ==> !Succeeded(steps, id))
  }

  lemma ReturnTells(steps: seq<Step>, id: JobId, n: nat, j: Job)
    requires n == |steps| - 1 && RunnerReturns(steps[n], id) && StatusTells(steps[..n], id, j)
    requires j.status == Running && CanResume(j, steps[n].event)
    requires j.persistenceFailed <==> Resume(id, EventLost) in steps[..n]
    ensures StatusTells(steps, id, Resumed(j, steps[n].event))
  {
    SameUpTo(steps, n);
    SucceededNow(steps, id, n);
  }

  lemma OtherResumptionTells(steps: seq<Step>, id: JobId, n: nat, j: Job, after: Job)
    requires n == |steps| - 1 && !RunnerReturns(steps[n], id) && JobOk(j) && StatusTells(steps[..n], id, j)
    requires if steps[n].Resume? && steps[n].id == id then CanResume(j, steps[n].event) && after == Resumed(j, steps[n].event)
             else after == j
    ensures StatusTells(steps, id, after)
  {
    SucceededStays(steps, id, n);
    SameUpTo(steps, n);
    NeverReturnedNeverSucceeded(steps[..n], id);
  }

  lemma NeverReturnedNeverSucceeded(steps: seq<Step>, id: JobId)
    ensures (forall i :: 0 <= i < |steps| ==> !RunnerReturns(steps[i], id)) ==> !Succeeded(steps, id)
  {
  }

  lemma {:induction false} NoJobNoSteps(r: Registry, steps: seq<Step>, id: JobId)
    requires Legal(r, steps) && id >= |Run(r, steps).jobs|
    ensures forall i :: 0 <= i < |steps| ==> !(steps[i].Resume? && steps[i].id == id)
    decreases |steps|
  {
    if steps != [] {
      NoJobNoSteps(Apply(r, steps[0]), steps[1..], id);
      JobsStay(Apply(r, steps[0]), steps[1..]);
    }
  }

  lemma {:induction false} JobsStay(r: Registry, steps: seq<Step>)
    requires Legal(r, steps)
    ensures |r.jobs| <= |Run(r, steps).jobs|
    decreases |steps|
  {
    if steps != [] { JobsStay(Apply(r, steps[0]), steps[1..]); }
  }

  lemma {:induction false} EveryStatusTells(steps: seq<Step>, id: JobId)
    requires Legal(Empty, steps) && id < |Run(Empty, steps).jobs|
    ensures StatusTells(steps, id, Run(Empty, steps).jobs[id])
    decreases |steps|
  {
    if steps != [] {
      var n := |steps| - 1;
      RunOneMore(Empty, steps, n);
      var r := Run(Empty, steps[..n]);
      RunKeepsInv(Empty, steps[..n]);
      if id < |r.jobs| {
        EveryStatusTells(steps[..n], id);
        assert JobOk(r.jobs[id]);
        FlagMeansLoss(Empty, steps[..n], id);
        if RunnerReturns(steps[n], id) { ReturnTells(steps, id, n, r.jobs[id]); }
        else { OtherResumptionTells(steps, id, n, r.jobs[id], Run(Empty, steps).jobs[id]); }
      } else {
        NewJobTells(r, steps, id, n);
      }
    }
  }

  lemma NewJobTells(r: Registry, steps: seq<Step>, id: JobId, n: nat)
    requires Legal(Empty, steps) && n == |steps| - 1 && Legal(Empty, steps[..n]) && r == Run(Empty, steps[..n])
    requires Enabled(r, steps[n]) && |r.jobs| <= id < |Apply(r, steps[n]).jobs|
    ensures StatusTells(steps, id, Apply(r, steps[n]).jobs[id])
  {
    NoJobNoSteps(Empty, steps[..n], id);
    SameUpTo(steps, n);
  }

  /**
   * What the store is told of a job, in every run: that it completed exactly when its runner succeeded with no
   * event lost before and no failing hook after, and otherwise that it ended in error.
   */
  lemma StoreIsToldTheTruth(steps: seq<Step>, id: JobId)
    requires Legal(Empty, steps) && id < |Run(Empty, steps).jobs| && Run(Empty, steps).jobs[id].finishes != []
    ensures Run(Empty, steps).jobs[id].finishes == if Succeeded(steps, id) then [Completed] else [Error]
  {
    RunKeepsInv(Empty, steps);
    assert JobOk(Run(Empty, steps).jobs[id]);
    EveryStatusTells(steps, id);
  }

  /** How far the coroutine got: the store is told exactly after the closing await, unless that was cancelled. */
  ghost predicate PhaseTells(steps: seq<Step>, id: JobId, j: Job) {
    && (j.finishes != [] <==> Resume(id, Closed) in steps)
    && (j.phase.Over? && j.finishes == [] <==> Resume(id, CloseCancelled) in steps)
    && (j.phase.Over? && j.finishes != [] <==> Resume(id, Finished(false)) in steps || Resume(id, Announced) in steps)
  }

  lemma StepTellsPhase(steps: seq<Step>, id: JobId, n: nat, j: Job, after: Job)
    requires n == |steps| - 1 && JobOk(j) && PhaseTells(steps[..n], id, j)
    requires if steps[n].Resume? && steps[n].id == id then CanResume(j, steps[n].event) && after == Resumed(j, steps[n].event)
             else after == j
    ensures PhaseTells(steps, id, after)
  {
    assert steps == steps[..n] + [steps[n]];
  }

  lemma NewJobTellsPhase(steps: seq<Step>, id: JobId, p: Project, u: User)
    requires forall i :: 0 <= i < |steps| ==> !(steps[i].Resume? && steps[i].id == id)
    ensures PhaseTells(steps, id, NewJob(p, u))
  {
  }

  /** A job's coroutine is over without a word to the store only when it was cancelled while it closed. */
  lemma {:induction false} EveryPhaseTells(steps: seq<Step>, id: JobId)
    requires Legal(Empty, steps) && id < |Run(Empty, steps).jobs|
    ensures PhaseTells(steps, id, Run(Empty, steps).jobs[id])
    decreases |steps|
  {
    if steps != [] {
      var n := |steps| - 1;
      RunOneMore(Empty, steps, n);
      var r := Run(Empty, steps[..n]);
      RunKeepsInv(Empty, steps[..n]);
      if id < |r.jobs| {
        EveryPhaseTells(steps[..n], id);
        assert JobOk(r.jobs[id]);
        StepTellsPhase(steps, id, n, r.jobs[id], Run(Empty, steps).jobs[id]);
      } else {
        NewJobHasAPhase(r, steps, id, n);
      }
    }
  }

  lemma NewJobHasAPhase(r: Registry, steps: seq<Step>, id: JobId, n: nat)
    requires Legal(Empty, steps) && n == |steps| - 1 && Legal(Empty, steps[..n]) && r == Run(Empty, steps[..n])
    requires Enabled(r, steps[n]) && |r.jobs| <= id < |Apply(r, steps[n]).jobs|
    ensures PhaseTells(steps, id, Apply(r, steps[n]).jobs[id])
  {
    NoJobNoSteps(Empty, steps[..n], id);
    SameUpTo(steps, n);
    NewJobTellsPhase(steps, id, steps[n].project, steps[n].user);
  }

  /** The failure message is under way only for a job that is in error. */
  lemma FailureMessageIsForErrors(steps: seq<Step>, id: JobId, event: Resumption)
    requires Legal(Empty, steps) && id < |Run(Empty, steps).jobs| && CanResume(Run(Empty, steps).jobs[id], event)
    ensures var before := Run(Empty, steps).jobs[id]; var after := Apply(Run(Empty, steps), Resume(id, event)).jobs[id];
      && (before.phase.Reporting? ==> before.status == Error)
      && (after.phase.Reporting? && !before.phase.Reporting? <==>
            event == WorkRaised || event == HookRaised
            || (event.RunnerReturned? && (event.completeRaises || event.hook == HookRaises)))
  {
    ReportingIsError(Empty, steps, id);
  }

  lemma {:induction false} ReportingIsError(r: Registry, steps: seq<Step>, id: JobId)
    requires Legal(r, steps) && id < |Run(r, steps).jobs|
    requires id < |r.jobs| && r.jobs[id].phase.Reporting? ==> r.jobs[id].status == Error
    ensures Run(r, steps).jobs[id].phase.Reporting? ==> Run(r, steps).jobs[id].status == Error
    decreases |steps|
  {
    if steps != [] { ReportingIsError(Apply(r, steps[0]), steps[1..], id); }
  }

  lemma NoneRunningIff(r: Registry, p: Project, u: User)
    requires Inv(r)
    ensures NoneRunning(r, p) <==> StartOutcome(r, p, u, true, true).Started?
  {
    if StartOutcome(r, p, u, true, true).Started? { StartedFindsNoneRunning(r, p, u, true, true); }
    if Has(r.entries, p) { assert r.entries[Find(r.entries, p)] in r.entries; }
  }

  lemma OutcomeIs(r: Registry, p: Project, u: User, createOk: bool, factoryOk: bool)
    requires Inv(r)
    ensures var said := StartOutcome(r, p, u, createOk, factoryOk);
      if !NoneRunning(r, p) then said.Existing? || said.Unauthorized?
      else said == if !createOk then StoreRefused else if !factoryOk then FactoryRaised else Started(|r.jobs|)
  {
    NoneRunningIff(r, p, u);
  }

  /**
   * A call of `start` creates a job exactly when no job of the project runs, the store takes it and the factory
   * gives a runner; then it is one job, of that project and user. Otherwise no job comes into being, and when none
   * runs the answer says whether the store or the factory failed.
   */
  lemma StartCreatesIff(steps: seq<Step>, p: Project, u: User, createOk: bool, factoryOk: bool)
    requires Legal(Empty, steps)
    ensures var r := Run(Empty, steps); var next := AfterStart(r, p, u, createOk, factoryOk);
      if NoneRunning(r, p) && createOk && factoryOk
      then next.jobs == r.jobs + [Job(p, u, Running, Working, false, [])]
           && StartOutcome(r, p, u, createOk, factoryOk) == Started(|r.jobs|)
      else next.jobs == r.jobs && !StartOutcome(r, p, u, createOk, factoryOk).Started?
    ensures var said := StartOutcome(Run(Empty, steps), p, u, createOk, factoryOk);
      && (said == StoreRefused <==> NoneRunning(Run(Empty, steps), p) && !createOk)
      && (said == FactoryRaised <==> NoneRunning(Run(Empty, steps), p) && createOk && !factoryOk)
  {
    RunKeepsInv(Empty, steps);
    OutcomeIs(Run(Empty, steps), p, u, createOk, factoryOk);
  }

  /** Old jobs are evicted before the store and the factory are asked, so a start that fails there has evicted them. */
  lemma FailedStartEvictsToo(steps: seq<Step>, p: Project, u: User, createOk: bool, factoryOk: bool)
    requires Legal(Empty, steps) && NoneRunning(Run(Empty, steps), p) && !(createOk && factoryOk)
    ensures var r := Run(Empty, steps); var next := AfterStart(r, p, u, createOk, factoryOk);
      var before, after := Settled(r.entries, r.jobs), Settled(next.entries, next.jobs);
      && next.jobs == r.jobs
      && after == (if |before| > 99 then before[|before| - 99..] else before)
      && forall e :: e in r.entries && e.id < |r.jobs| && r.jobs[e.id].status == Running ==> e in next.entries
  {
    RunKeepsInv(Empty, steps);
    var r := Run(Empty, steps);
    StartCreatesIff(steps, p, u, createOk, factoryOk);
    EvictionBound(r.entries, r.jobs);
    forall e | e in r.entries && r.jobs[e.id].status == Running ensures !IsSettled(r.jobs, e) {}
  }

  // ---------- the objects ----------

  /** A job and its coroutine `execute`; each method runs from one await to the next. */
  class JobRun {
    const project: Project
    const user: User
    var status: Status
    var phase: Phase
    var persistenceFailed: bool
    var finishes: seq<Status>

    function View(): Job
      reads this
    {
      Job(project, user, status, phase, persistenceFailed, finishes)
    }

    constructor (p: Project, u: User)
      ensures View() == NewJob(p, u)
    {
      project, user, status, phase := p, u, Running, Working;
      persistenceFailed, finishes := false, [];
    }

    /** `send_json` marks the job before it raises. */
    method LoseEvent()
      modifies this`persistenceFailed
      ensures View() == Resumed(old(View()), EventLost)
    {
      persistenceFailed := true;
    }

    /** The try block after the runner: `on_complete`, the verdict, and the hook. */
    method TakeResult(success: bool, completeRaises: bool, hook: Hook)
      requires phase == Working
      modifies this`status, this`phase
      ensures View() == Resumed(old(View()), RunnerReturned(success, completeRaises, hook))
    {
      if completeRaises {
        Fail();
        return;
      }
      var finalSuccess := success && !persistenceFailed;
      status := if finalSuccess then Completed else Error;
      match hook
      case NoAwait => EnterFinally();
      case Awaitable => phase := Settling;
      case HookRaises => Fail();
    }

    /** `except Exception`, up to the failure message. */
    method Fail()
      modifies this`status, this`phase
      ensures View() == old(View()).(status := Error, phase := Reporting)
    {
      status := Error;
      phase := Reporting;
    }

    /** `except CancelledError`, which goes straight on to `finally`. */
    method Interrupt()
      modifies this`status, this`phase
      ensures View() == old(View()).(status := Error, phase := Closing)
    {
      status := Error;
      EnterFinally();
    }

    method EnterFinally()
      modifies this`phase
      ensures View() == old(View()).(phase := Closing)
    {
      phase := Closing;
    }

    /** With the runner and the lease gone, the store is told the status as it is now. */
    method TellStore()
      modifies this`phase, this`finishes
      ensures View() == old(View()).(phase := Storing, finishes := old(finishes) + [old(status)])
    {
      finishes := finishes + [status];
      phase := Storing;
    }

    /** The last message is sent only when the store took the verdict. */
    method AfterStore(stored: bool)
      modifies this`phase
      ensures View() == old(View()).(phase := if stored then Announcing else Over)
    {
      if stored { phase := Announcing; } else { phase := Over; }
    }

    method EndCoroutine()
      modifies this`phase
      ensures View() == old(View()).(phase := Over)
    {
      phase := Over;
    }

    /** Which segment runs is decided by what the coroutine was waiting for. */
    method Resume(event: Resumption)
      requires CanResume(View(), event)
      modifies this
      ensures View() == Resumed(old(View()), event)
    {
      match event
      case EventLost => LoseEvent();
      case RunnerReturned(success, completeRaises, hook) => TakeResult(success, completeRaises, hook);
      case WorkRaised => Fail();
      case WorkCancelled => Interrupt();
      case HookReturned => EnterFinally();
      case HookRaised => Fail();
      case HookCancelled => Interrupt();
      case ReportEnded => EnterFinally();
      case Closed => TellStore();
      case CloseCancelled => EndCoroutine();
      case Finished(stored) => AfterStore(stored);
      case Announced => EndCoroutine();
    }
  }

  class ScanJobs {
    var entries: seq<Entry>
    var runs: seq<JobRun>

    /** No two jobs are one object. */
    ghost predicate Separate()
      reads this
    {
      forall i, j :: 0 <= i < j < |runs| ==> runs[i] != runs[j]
    }

    ghost function Jobs(): (jobs: seq<Job>)
      reads this, runs
      ensures |jobs| == |runs| && forall i :: 0 <= i < |runs| ==> jobs[i] == runs[i].View()
    {
      seq(|runs|, i requires 0 <= i < |runs| reads this, runs => runs[i].View())
    }

    ghost function View(): Registry
      reads this, runs
    {
      Registry(entries, Jobs())
    }

    constructor ()
      ensures View() == Empty && Separate()
    {
      entries, runs := [], [];
    }

    method HasEnded(id: JobId) returns (ended: bool)
      ensures ended == (id < |Jobs()| && Jobs()[id].status != Running)
    {
      ended := id < |runs| && runs[id].status != Running;
    }

    /** The keys of the settled jobs, in dict order. */
    method SettledKeys() returns (settled: seq<Project>)
      ensures settled == Settled(entries, Jobs())
    {
      ghost var jobs := Jobs();
      settled := [];
      var i := 0;
      while i < |entries|
        invariant 0 <= i <= |entries|
        invariant Settled(entries, jobs) == settled + Settled(entries[i..], jobs)
      {
        SettledFrom(entries, jobs, i);
        var ended := HasEnded(entries[i].id);
        if ended { settled := settled + [entries[i].project]; }
        i := i + 1;
      }
    }

    /** Keep only the latest KEPT settled jobs. */
    method EvictOldest()
      modifies `entries
      ensures entries == WithoutAll(old(entries), Evicted(old(entries), old(Jobs())))
    {
      var settled := SettledKeys();
      var stale := if |settled| <= KEPT then [] else settled[..|settled| - KEPT];
      var i := 0;
      while i < |stale|
        invariant 0 <= i <= |stale|
        invariant WithoutAll(entries, stale[i..]) == WithoutAll(old(entries), stale)
      {
        assert stale[i..][1..] == stale[i + 1..];
        entries := Without(entries, stale[i]);
        i := i + 1;
      }
    }

    method StartJob(p: Project, u: User, createOk: bool, factoryOk: bool) returns (outcome: Outcome)
      requires Inv(View()) && Separate()
      modifies this
      ensures outcome == StartOutcome(old(View()), p, u, createOk, factoryOk)
      ensures View() == AfterStart(old(View()), p, u, createOk, factoryOk) && Inv(View()) && Separate()
    {
      ghost var before := View();
      StartKeepsInv(before, p, u, createOk, factoryOk);
      var existing := RunningJob(p);
      if existing < |runs| {
        if runs[existing].user != u { return Unauthorized; }
        return Existing(existing);
      }
      outcome := CreateJob(p, u, createOk, factoryOk);
    }

    /** The part of `start` that is reached when the project has no running job. */
    method CreateJob(p: Project, u: User, createOk: bool, factoryOk: bool) returns (outcome: Outcome)
      requires Inv(View()) && Separate()
      requires !StartOutcome(View(), p, u, createOk, factoryOk).Existing?
      requires !StartOutcome(View(), p, u, createOk, factoryOk).Unauthorized?
      modifies this
      ensures outcome == StartOutcome(old(View()), p, u, createOk, factoryOk)
      ensures View() == AfterStart(old(View()), p, u, createOk, factoryOk) && Separate()
    {
      EvictOldest();
      if !createOk { return StoreRefused; }
      if !factoryOk { return FactoryRaised; }
      Enter(p, u);
      return Started(|runs| - 1);
    }

    /** The project's job if it is running; otherwise no job. */
    method RunningJob(p: Project) returns (id: JobId)
      requires Inv(View())
      ensures id < |runs| <==>
        Has(entries, p) && (var e := entries[Find(entries, p)]; e.id < |runs| && runs[e.id].status == Running)
      ensures id < |runs| ==> id == entries[Find(entries, p)].id
    {
      if Has(entries, p) {
        id := entries[Find(entries, p)].id;
        assert entries[Find(entries, p)] in entries;
        if runs[id].status == Running { return; }
      }
      id := |runs|;
    }

    method Enter(p: Project, u: User)
      requires Separate()
      modifies this
      ensures Jobs() == old(Jobs()) + [NewJob(p, u)] && |runs| == |old(runs)| + 1 && Separate()
      ensures entries == Put(old(entries), p, |old(runs)|)
    {
      var job := new JobRun(p, u);
      entries, runs := Put(entries, p, |runs|), runs + [job];
    }

    /** `execute` of one job runs from one await to the next; no other job notices. */
    method ResumeJob(id: JobId, event: Resumption)
      requires Inv(View()) && Separate() && id < |runs| && CanResume(runs[id].View(), event)
      modifies runs[id]
      ensures View() == Apply(old(View()), Resume(id, event)) && Inv(View())
    {
      StepKeepsInv(View(), Step.Resume(id, event));
      runs[id].Resume(event);
      assert Jobs() == old(Jobs())[id := Resumed(old(Jobs())[id], event)];
    }
  }
}
