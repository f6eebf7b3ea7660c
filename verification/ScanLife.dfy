/** The life of one scan job: its hub and the registry that settles it, run together. */
module ScanLife {
  import H = DeliveryHub
  import R = ScanRegistry

  /** A step of the job's hub, or of the registry. */
  datatype Step = Hub(hub: H.Step) | Registry(registry: R.Step)

  /** What the hub sees of a joint run. */
  function HubSteps(steps: seq<Step>): seq<H.Step> {
    if steps == [] then [] else
      var last := steps[|steps| - 1];
      HubSteps(steps[..|steps| - 1]) + if last.Hub? then [last.hub] else []
  }

  /** What the registry sees: a store write of the job that raises is an event lost to the job. */
  function RegistryStep(step: Step, id: R.JobId): seq<R.Step> {
    match step
    case Registry(r) => [r]
    case Hub(h) => if h == H.PersistRaised then [R.Resume(id, R.EventLost)] else []
  }

  function RegistrySteps(steps: seq<Step>, id: R.JobId): seq<R.Step> {
    if steps == [] then [] else RegistrySteps(steps[..|steps| - 1], id) + RegistryStep(steps[|steps| - 1], id)
  }

  /** Events of the job are lost only where its hub says so. */
  ghost predicate OnlyTheHubLoses(steps: seq<Step>, id: R.JobId) {
    forall i :: 0 <= i < |steps| ==> steps[i] != Registry(R.Resume(id, R.EventLost))
  }

  ghost predicate Joint(durable: bool, steps: seq<Step>, id: R.JobId) {
    && H.Legal(durable, HubSteps(steps)) && R.Legal(R.Empty, RegistrySteps(steps, id)) && OnlyTheHubLoses(steps, id)
  }

  /** The runner reported success at step k, and no store write of the job's hub had raised before. */
  ghost predicate DecidedAt(steps: seq<Step>, id: R.JobId, k: nat) {
    && k < |steps| && steps[k].Registry? && R.Decides(steps[k].registry, id)
    && H.PersistRaised !in HubSteps(steps[..k])
  }

  lemma {:induction false} LossesAgree(steps: seq<Step>, id: R.JobId)
    requires OnlyTheHubLoses(steps, id)
    ensures R.Resume(id, R.EventLost) in RegistrySteps(steps, id) <==> H.PersistRaised in HubSteps(steps)
  {
    if steps != [] { LossesAgree(steps[..|steps| - 1], id); }
  }

  /** Where a step of the registry comes from. */
  lemma {:induction false} ComesFrom(steps: seq<Step>, id: R.JobId, j: nat) returns (k: nat)
    requires j < |RegistrySteps(steps, id)|
    ensures k < |steps| && RegistrySteps(steps[..k], id) == RegistrySteps(steps, id)[..j]
    ensures RegistryStep(steps[k], id) == [RegistrySteps(steps, id)[j]]
  {
    var n := |steps| - 1;
    var before := RegistrySteps(steps[..n], id);
    if j < |before| {
      k := ComesFrom(steps[..n], id, j);
      assert steps[..n][..k] == steps[..k] && before[..j] == RegistrySteps(steps, id)[..j];
    } else {
      k := n;
      assert RegistrySteps(steps, id)[..j] == before;
    }
  }

  /** The job's flag in the registry is the flag of its hub. */
  lemma FlagsAgree(durable: bool, steps: seq<Step>, id: R.JobId)
    requires Joint(durable, steps, id) && id < |R.Run(R.Empty, RegistrySteps(steps, id)).jobs|
    ensures R.Run(R.Empty, RegistrySteps(steps, id)).jobs[id].persistenceFailed
       <==> H.Run(durable, HubSteps(steps)).persistenceFailed
  {
    R.FlagMeansLoss(R.Empty, RegistrySteps(steps, id), id);
    LossesAgree(steps, id);
    H.FlagMeansPersistRaised(durable, HubSteps(steps));
  }

  /**
   * In every joint run, a job reads as completed, or was stored as completed, only when its runner reported
   * success at some step before which no store write of its own hub had raised.
   */
  lemma CompletedMeansPersisted(durable: bool, steps: seq<Step>, id: R.JobId)
    requires Joint(durable, steps, id) && R.ReadsCompleted(R.Run(R.Empty, RegistrySteps(steps, id)), id)
    ensures exists k :: DecidedAt(steps, id, k)
  {
    var all := RegistrySteps(steps, id);
    R.CompletedIsHonest(all, id);
    var j: nat :| R.DecidedAt(all, id, j);
    var k := ComesFrom(steps, id, j);
    LossesAgree(steps[..k], id);
    assert R.Resume(id, R.EventLost) !in all[..j];
    assert DecidedAt(steps, id, k);
  }
}
