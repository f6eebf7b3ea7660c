/** The approval-gated remediation controller (`RemediationRunner` in remediation.py).

    The pipeline is one coroutine, cut here at the awaits where anything but a message is decided;
    operator commands arrive between any two awaits.  What scanners, language models and
    persistence return is chosen freely by the step that resumes the coroutine. */
module RemediationControl {
  import opened Wrappers

  const MAX_REMEDIATION_CYCLES: nat := 2

  datatype Action = ContinueRound | PushCurrent | ApprovePush

  /** The command event with the pending action, and what the coroutine says it waits for. */
  datatype Mailbox = Mailbox(decision: bool, approval: bool, eventSet: bool, pending: Option<Action>)

  /** Where the pipeline is suspended. */
  datatype Place =
    | Ingesting
    | CycleHead(cycle: nat)
    | Batches(cycle: nat)
    | DecisionWait(cycle: nat)
    | Rescanning(cycle: nat)
    | ApprovalWait
    | Persisting
    | Ended(ok: bool)
    | Stopped                 // cancelled

  /** What an observer writes down. */
  datatype Mark =
    | CycleStarted(cycle: nat)
    | DecisionAsked
    | ApprovalAsked
    | Accepted(action: Action)
    | RescanStarted
    | PersistStarted

  /** `limit` is REMEDIATION_NO_PROGRESS_LIMIT. */
  datatype Control = Control(
    place: Place, box: Mailbox, noProgress: int, budgetExhausted: bool, limit: int, journal: seq<Mark>)

  datatype Step =
    | Command(action: Action)
    | Ingested(loaded: bool, findings: bool)
    | CycleChosen(majorComplete: bool)
    | Reported(applied: int, changed: bool, budgetHit: bool)
    | DecisionTaken
    | Rescanned(ok: bool, overall: int, remaining: int, baseline: int, majorComplete: bool)
    | ApprovalTaken
    | Persisted(ok: bool)
    | Cancelled

  function Init(limit: int): Control {
    Control(Ingesting, Mailbox(false, false, false, None), 0, false, limit, [])
  }

  // ---------- the mailbox ----------

  predicate Expected(box: Mailbox, a: Action) {
    (if a.ApprovePush? then box.approval else box.decision) && !box.eventSet
  }

  function Receive(box: Mailbox, a: Action): Mailbox {
    if Expected(box, a) then box.(eventSet := true, pending := Some(a)) else box
  }

  function AskDecision(box: Mailbox): Mailbox { Mailbox(true, false, false, None) }
  function AskApproval(box: Mailbox): Mailbox { Mailbox(false, true, false, None) }

  /** The action a round decision returns; the source defaults to push_current on anything it
      does not recognise. */
  function Decided(pending: Option<Action>): Action {
    if pending == Some(ContinueRound) then ContinueRound
    else if pending == Some(PushCurrent) then PushCurrent
    else PushCurrent
  }

  predicate Recognised(pending: Option<Action>) {
    pending == Some(ContinueRound) || pending == Some(PushCurrent)
  }

  // ---------- the pipeline ----------

  predicate Enabled(c: Control, step: Step) {
    match step
    case Command(_) => true
    case Ingested(_, _) => c.place.Ingesting?
    case CycleChosen(_) => c.place.CycleHead?
    case Reported(_, _, _) => c.place.Batches?
    case DecisionTaken => c.place.DecisionWait? && c.box.eventSet
    case Rescanned(_, _, _, _, _) => c.place.Rescanning?
    case ApprovalTaken => c.place.ApprovalWait? && c.box.eventSet
    case Persisted(_) => c.place.Persisting?
    case Cancelled => !c.place.Ended? && !c.place.Stopped?
  }

  function NextCycle(c: Control, cycle: nat): Control {
    c.(place := if cycle + 1 < MAX_REMEDIATION_CYCLES then CycleHead(cycle + 1) else Ended(true))
  }

  function WaitForApproval(c: Control): Control {
    c.(place := ApprovalWait, box := AskApproval(c.box), journal := c.journal + [ApprovalAsked])
  }

  function WaitForDecision(c: Control, cycle: nat): Control {
    c.(place := DecisionWait(cycle), box := AskDecision(c.box), journal := c.journal + [DecisionAsked])
  }

  /** What follows the cycle's report. */
  function AfterReport(c: Control, cycle: nat, applied: int, changed: bool, budgetHit: bool): Control {
    var exhausted := c.budgetExhausted || budgetHit;
    var d := c.(budgetExhausted := exhausted);
    if exhausted && applied <= 0 then d.(place := Ended(true))
    else
      var idle := applied <= 0 && !changed;
      var e := d.(noProgress := if idle then c.noProgress + 1 else 0);
      if idle && e.noProgress >= c.limit then e.(place := Ended(true))
      else if idle && cycle + 1 < MAX_REMEDIATION_CYCLES then NextCycle(e, cycle)
      else if cycle == 0 && changed && cycle + 1 < MAX_REMEDIATION_CYCLES && !exhausted then WaitForDecision(e, cycle)
      else WaitForApproval(e)
  }

  function AfterDecision(c: Control, cycle: nat): Control {
    var d := c.(box := Mailbox(false, c.box.approval, false, None));
    if Decided(c.box.pending) == ContinueRound
    then d.(place := Rescanning(cycle), journal := c.journal + [RescanStarted])
    else WaitForApproval(d)
  }

  function AfterRescan(c: Control, cycle: nat, ok: bool, overall: int, remaining: int, baseline: int,
                       majorComplete: bool): Control {
    if !ok then c.(place := Ended(false))
    else
      var streak := if remaining == 0 then c.noProgress
                    else if remaining >= baseline then c.noProgress + 1 else 0;
      var d := c.(noProgress := streak);
      if overall > 0 && !majorComplete && streak < c.limit then NextCycle(d, cycle) else WaitForApproval(d)
  }

  function Apply(c: Control, step: Step): Control
    requires Enabled(c, step)
  {
    match step
    case Command(a) =>
      c.(box := Receive(c.box, a), journal := if Expected(c.box, a) then c.journal + [Accepted(a)] else c.journal)
    case Ingested(loaded, findings) =>
      c.(place := if !loaded then Ended(false) else if !findings then Ended(true) else CycleHead(0))
    case CycleChosen(majorComplete) =>
      if majorComplete then c.(place := Ended(true))
      else c.(place := Batches(c.place.cycle), journal := c.journal + [CycleStarted(c.place.cycle)])
    case Reported(applied, changed, budgetHit) => AfterReport(c, c.place.cycle, applied, changed, budgetHit)
    case DecisionTaken => AfterDecision(c, c.place.cycle)
    case Rescanned(ok, overall, remaining, baseline, majorComplete) =>
      AfterRescan(c, c.place.cycle, ok, overall, remaining, baseline, majorComplete)
    case ApprovalTaken =>
      c.(place := Persisting, box := Mailbox(c.box.decision, false, false, None),
         journal := c.journal + [PersistStarted])
    case Persisted(ok) => c.(place := Ended(ok))
    case Cancelled => c.(place := Stopped)
  }

  predicate Legal(c: Control, steps: seq<Step>)
    decreases |steps|
  {
    steps == [] || (Enabled(c, steps[0]) && Legal(Apply(c, steps[0]), steps[1..]))
  }

  function Run(c: Control, steps: seq<Step>): Control
    requires Legal(c, steps)
    decreases |steps|
  {
    if steps == [] then c else Run(Apply(c, steps[0]), steps[1..])
  }

  // ---------- what every run keeps ----------

  /** The event is set exactly when an action is pending, the two waiting flags exclude each
      other, and a pending action is one the raised flag asked for. */
  ghost predicate BoxOk(box: Mailbox) {
    && (box.eventSet <==> box.pending.Some?)
    && !(box.decision && box.approval)
    && (box.pending.Some? ==> if box.pending.value.ApprovePush? then box.approval else box.decision)
  }

  ghost predicate PlaceOk(c: Control) {
    match c.place
    case DecisionWait(cycle) => cycle == 0 && c.box.decision && !c.box.approval
    case ApprovalWait => c.box.approval && !c.box.decision
    case CycleHead(cycle) => cycle < MAX_REMEDIATION_CYCLES && !c.box.decision && !c.box.approval
    case Batches(cycle) => cycle < MAX_REMEDIATION_CYCLES && !c.box.decision && !c.box.approval
    case Rescanning(cycle) => cycle == 0 && !c.box.decision && !c.box.approval
    case Stopped => true
    case _ => !c.box.decision && !c.box.approval
  }

  const FIRST: seq<Mark> := [CycleStarted(0)]
  const ASKED: seq<Mark> := [CycleStarted(0), DecisionAsked]
  const PUSHED: seq<Mark> := [CycleStarted(0), DecisionAsked, Accepted(PushCurrent)]
  const CONTINUED: seq<Mark> := [CycleStarted(0), DecisionAsked, Accepted(ContinueRound), RescanStarted]
  const SECOND: seq<Mark> := [CycleStarted(1)]
  const APPROVED: seq<Mark> := [ApprovalAsked, Accepted(ApprovePush), PersistStarted]

  /** The ways to arrive at the final approval. */
  ghost predicate Prelude(j: seq<Mark>) {
    j == FIRST || j == PUSHED || j == CONTINUED || j == FIRST + SECOND || j == CONTINUED + SECOND
  }

  /** The five journals a run can write; every run writes a prefix of one of them. */
  ghost predicate Script(j: seq<Mark>) {
    |j| >= 3 && Prelude(j[..|j| - 3]) && j[|j| - 3..] == APPROVED
  }

  ghost predicate Scripted(j: seq<Mark>) {
    exists whole :: Script(whole) && j <= whole
  }

  ghost predicate JournalOk(c: Control) {
    var said := if c.box.pending.Some? then [Accepted(c.box.pending.value)] else [];
    match c.place
    case Ingesting => c.journal == []
    case CycleHead(cycle) => if cycle == 0 then c.journal == [] else c.journal == FIRST || c.journal == CONTINUED
    case Batches(cycle) => if cycle == 0 then c.journal == FIRST
                           else c.journal == FIRST + SECOND || c.journal == CONTINUED + SECOND
    case DecisionWait(_) => c.journal == ASKED + said
    case Rescanning(_) => c.journal == CONTINUED
    case ApprovalWait => exists p :: Prelude(p) && c.journal == p + [ApprovalAsked] + said
    case Persisting => Script(c.journal)
    case Ended(_) => Scripted(c.journal)
    case Stopped =>
      if c.box.approval then exists p :: Prelude(p) && c.journal == p + [ApprovalAsked] + said
      else if c.box.decision then c.journal == ASKED + said
      else Scripted(c.journal)
  }

  ghost predicate Inv(c: Control) {
    BoxOk(c.box) && PlaceOk(c) && JournalOk(c)
  }

  lemma PreludeScripted(p: seq<Mark>, j: seq<Mark>)
    requires Prelude(p) && j <= p + APPROVED
    ensures Scripted(j)
  {
    var whole := p + APPROVED;
    assert whole[..|whole| - 3] == p && whole[|whole| - 3..] == APPROVED;
    assert Script(whole) && j <= whole;
  }

  lemma {:induction false} ScriptedEarly(j: seq<Mark>)
    requires j == [] || j == FIRST || j == CONTINUED || j == ASKED || j == PUSHED
             || j == FIRST + SECOND || j == CONTINUED + SECOND || j == ASKED + [Accepted(ContinueRound)]
    ensures Scripted(j)
  {
    assert PUSHED == ASKED + [Accepted(PushCurrent)];
    assert CONTINUED == ASKED + [Accepted(ContinueRound)] + [RescanStarted];
    var p := if j == ASKED then PUSHED
             else if j == ASKED + [Accepted(ContinueRound)] then CONTINUED
             else if j == [] then FIRST else j;
    PreludeScripted(p, j);
  }

  /** Whatever the place, the journal so far is a prefix of a script. */
  lemma JournalScripted(c: Control)
    requires Inv(c)
    ensures Scripted(c.journal)
  {
    var said := if c.box.pending.Some? then [Accepted(c.box.pending.value)] else [];
    if c.place.ApprovalWait? || (c.place.Stopped? && c.box.approval) {
      var p :| Prelude(p) && c.journal == p + [ApprovalAsked] + said;
      assert APPROVED == [ApprovalAsked, Accepted(ApprovePush)] + [PersistStarted];
      assert c.journal <= p + APPROVED;
      PreludeScripted(p, c.journal);
    } else if c.place.DecisionWait? || (c.place.Stopped? && c.box.decision) {
      if c.box.pending == Some(PushCurrent) { assert ASKED + said == PUSHED; }
      ScriptedEarly(c.journal);
    } else if c.place.Persisting? {
      assert Scripted(c.journal);
    } else if !c.place.Ended? && !c.place.Stopped? {
      ScriptedEarly(c.journal);
    }
  }

  lemma CommandKeepsInv(c: Control, a: Action)
    requires Inv(c)
    ensures Inv(Apply(c, Command(a)))
  {
    var next := Apply(c, Command(a));
    if Expected(c.box, a) && (c.place.ApprovalWait? || (c.place.Stopped? && c.box.approval)) {
      var p :| Prelude(p) && c.journal == p + [ApprovalAsked] + [];
      assert next.journal == p + [ApprovalAsked] + [Accepted(a)];
    }
  }

  lemma EnterApprovalKeepsInv(c: Control)
    requires Prelude(c.journal)
    ensures Inv(WaitForApproval(c))
  {
    assert WaitForApproval(c).journal == c.journal + [ApprovalAsked] + [];
  }

  lemma ReportKeepsInv(c: Control, applied: int, changed: bool, budgetHit: bool)
    requires Inv(c) && c.place.Batches?
    ensures Inv(AfterReport(c, c.place.cycle, applied, changed, budgetHit))
  {
    var next := AfterReport(c, c.place.cycle, applied, changed, budgetHit);
    JournalScripted(c);
    if next.place.ApprovalWait? { EnterApprovalKeepsInv(c); }
  }

  lemma DecisionKeepsInv(c: Control)
    requires Inv(c) && c.place.DecisionWait? && c.box.eventSet
    ensures Inv(AfterDecision(c, c.place.cycle))
  {
    if c.box.pending == Some(ContinueRound) {
      assert c.journal + [RescanStarted] == CONTINUED;
    } else {
      assert c.journal == PUSHED;
      EnterApprovalKeepsInv(c);
    }
  }

  lemma ApprovalKeepsInv(c: Control)
    requires Inv(c) && c.place.ApprovalWait? && c.box.eventSet
    ensures Inv(Apply(c, ApprovalTaken))
  {
    var p :| Prelude(p) && c.journal == p + [ApprovalAsked] + [Accepted(ApprovePush)];
    var j := c.journal + [PersistStarted];
    assert j[..|j| - 3] == p && j[|j| - 3..] == APPROVED;
  }

  lemma CancelKeepsInv(c: Control)
    requires Inv(c) && Enabled(c, Cancelled)
    ensures Inv(Apply(c, Cancelled))
  {
    JournalScripted(c);
  }

  lemma RescannedKeepsInv(c: Control, step: Step)
    requires Inv(c) && Enabled(c, step) && step.Rescanned?
    ensures Inv(Apply(c, step))
  {
    JournalScripted(c);
    EnterApprovalKeepsInv(c);
  }

  /** The steps that involve no operator. */
  lemma PlainStepKeepsInv(c: Control, step: Step)
    requires Inv(c) && Enabled(c, step) && !step.Command? && !step.Reported? && !step.Rescanned?
    requires !step.DecisionTaken? && !step.ApprovalTaken? && !step.Cancelled?
    ensures Inv(Apply(c, step))
  {
    JournalScripted(c);
  }

  lemma StepKeepsInv(c: Control, step: Step)
    requires Inv(c) && Enabled(c, step)
    ensures Inv(Apply(c, step))
  {
    match step
    case Command(a) => CommandKeepsInv(c, a);
    case Reported(applied, changed, budgetHit) => ReportKeepsInv(c, applied, changed, budgetHit);
    case DecisionTaken => DecisionKeepsInv(c);
    case ApprovalTaken => ApprovalKeepsInv(c);
    case Cancelled => CancelKeepsInv(c);
    case Rescanned(_, _, _, _, _) => RescannedKeepsInv(c, step);
    case _ => PlainStepKeepsInv(c, step);
  }

  lemma {:induction false} RunKeepsInv(c: Control, steps: seq<Step>)
    requires Inv(c) && Legal(c, steps)
    ensures Inv(Run(c, steps))
    decreases |steps|
  {
    if steps != [] {
      StepKeepsInv(c, steps[0]);
      RunKeepsInv(Apply(c, steps[0]), steps[1..]);
    }
  }

  // ---------- the promises ----------

  /** Under every interleaving of commands and awaits the journal follows one of five scripts: at
      most two cycles, one round decision, one rescan, one approval wait, and one persist. */
  lemma EveryRunFollowsAScript(limit: int, steps: seq<Step>)
    requires Legal(Init(limit), steps)
    ensures Scripted(Run(Init(limit), steps).journal)
  {
    RunKeepsInv(Init(limit), steps);
    JournalScripted(Run(Init(limit), steps));
  }

  lemma PreludeFacts(p: seq<Mark>)
    requires Prelude(p)
    ensures ApprovalAsked !in p && Accepted(ApprovePush) !in p && PersistStarted !in p
    ensures forall a, b :: 0 <= a < b < |p| ==> p[a] != p[b]
  {
  }

  lemma ScriptFacts(j: seq<Mark>, a: nat, b: nat)
    requires Script(j) && a < b < |j|
    ensures j[a] != j[b]
    ensures j[b] == PersistStarted ==> b == |j| - 1
    ensures j[a] != PersistStarted
  {
    var n := |j| - 3;
    var p := j[..n];
    PreludeFacts(p);
    assert j[n] == j[n..][0] && j[n + 1] == j[n..][1] && j[n + 2] == j[n..][2];
    if a < n { assert j[a] == p[a] && j[a] in p; }
    if b < n { assert j[b] == p[b] && j[b] in p; }
  }

  /** Changes are persisted only right after an `approve_push` accepted inside the approval wait,
      and nothing more happens in the run than that one persist. */
  lemma PersistOnlyApproved(limit: int, steps: seq<Step>, i: nat)
    requires Legal(Init(limit), steps)
    requires i < |Run(Init(limit), steps).journal| && Run(Init(limit), steps).journal[i] == PersistStarted
    ensures var j := Run(Init(limit), steps).journal;
            && i >= 2 && j[i - 1] == Accepted(ApprovePush) && j[i - 2] == ApprovalAsked
            && i == |j| - 1
  {
    EveryRunFollowsAScript(limit, steps);
    var j := Run(Init(limit), steps).journal;
    var whole :| Script(whole) && j <= whole;
    assert j[i] == whole[i];
    ApprovedBeforePersist(whole, i);
    assert j[i - 1] == whole[i - 1] && j[i - 2] == whole[i - 2];
  }

  lemma ApprovedBeforePersist(whole: seq<Mark>, i: nat)
    requires Script(whole) && i < |whole| && whole[i] == PersistStarted
    ensures i == |whole| - 1 && i >= 2 && whole[i - 1] == Accepted(ApprovePush) && whole[i - 2] == ApprovalAsked
  {
    var n := |whole| - 3;
    if i + 1 < |whole| { ScriptFacts(whole, i, i + 1); }
    assert whole[n] == whole[n..][0] && whole[n + 1] == whole[n..][1];
  }

  /** No mark occurs twice. */
  lemma NoMarkTwice(limit: int, steps: seq<Step>, a: nat, b: nat)
    requires Legal(Init(limit), steps)
    requires a < b < |Run(Init(limit), steps).journal|
    ensures Run(Init(limit), steps).journal[a] != Run(Init(limit), steps).journal[b]
  {
    EveryRunFollowsAScript(limit, steps);
    var j := Run(Init(limit), steps).journal;
    var whole :| Script(whole) && j <= whole;
    ScriptFacts(whole, a, b);
    assert j[a] == whole[a] && j[b] == whole[b];
  }

  /** The "unknown remediation decision" fallback is never taken. */
  lemma UnknownDecisionUnreachable(limit: int, steps: seq<Step>)
    requires Legal(Init(limit), steps) && Enabled(Run(Init(limit), steps), DecisionTaken)
    ensures Recognised(Run(Init(limit), steps).box.pending)
  {
    RunKeepsInv(Init(limit), steps);
  }

  /** A command the coroutine is not waiting for changes nothing, whenever it comes. */
  lemma UnexpectedCommandIgnored(limit: int, steps: seq<Step>, a: Action)
    requires Legal(Init(limit), steps)
    requires var p := Run(Init(limit), steps).place;
             !p.Stopped? && !(if a.ApprovePush? then p.ApprovalWait? else p.DecisionWait?)
    ensures Apply(Run(Init(limit), steps), Command(a)) == Run(Init(limit), steps)
  {
    RunKeepsInv(Init(limit), steps);
  }

  /** The first command the decision wait asked for is taken, decides what follows, and bars every later one. */
  lemma FirstDecisionIsTaken(limit: int, steps: seq<Step>, a: Action, later: Action)
    requires Legal(Init(limit), steps) && !a.ApprovePush?
    requires var c := Run(Init(limit), steps); c.place.DecisionWait? && !c.box.eventSet
    ensures var c := Run(Init(limit), steps);
      var d := Apply(c, Command(a));
      && Apply(d, Command(later)) == d
      && Enabled(d, DecisionTaken)
      && Apply(d, DecisionTaken).place == if a.ContinueRound? then Rescanning(c.place.cycle) else ApprovalWait
  {
    RunKeepsInv(Init(limit), steps);
  }

  /** An approval given while it is waited for is taken, and then changes are persisted. */
  lemma ApprovalIsTaken(limit: int, steps: seq<Step>)
    requires Legal(Init(limit), steps)
    requires var c := Run(Init(limit), steps); c.place.ApprovalWait? && !c.box.eventSet
    ensures var d := Apply(Run(Init(limit), steps), Command(ApprovePush));
      Enabled(d, ApprovalTaken) && Apply(d, ApprovalTaken).place == Persisting
  {
    RunKeepsInv(Init(limit), steps);
  }

  // ---------- which way a run goes ----------

  /** How often nothing was gained so far, and whether the budget was hit. */
  ghost predicate StreakOk(c: Control) {
    match c.place
    case CycleHead(cycle) => !c.budgetExhausted && if cycle == 0 then c.noProgress == 0 else 0 <= c.noProgress <= 1
    case Batches(cycle) => !c.budgetExhausted && if cycle == 0 then c.noProgress == 0 else 0 <= c.noProgress <= 1
    case Ingesting => !c.budgetExhausted && c.noProgress == 0
    case DecisionWait(_) => !c.budgetExhausted && c.noProgress == 0
    case Rescanning(_) => !c.budgetExhausted && c.noProgress == 0
    case _ => true
  }

  lemma StepKeepsStreak(c: Control, step: Step)
    requires Inv(c) && StreakOk(c) && Enabled(c, step)
    ensures StreakOk(Apply(c, step)) && Apply(c, step).limit == c.limit
  {
  }

  lemma {:induction false} RunKeepsStreak(c: Control, steps: seq<Step>)
    requires Inv(c) && StreakOk(c) && Legal(c, steps)
    ensures StreakOk(Run(c, steps)) && Run(c, steps).limit == c.limit
    decreases |steps|
  {
    if steps != [] {
      StepKeepsInv(c, steps[0]);
      StepKeepsStreak(c, steps[0]);
      RunKeepsStreak(Apply(c, steps[0]), steps[1..]);
    }
  }

  /**
   * After the operator's rescan: a failed one ends the run as failed. Otherwise the second cycle follows exactly
   * when findings remain in scope, not only below the major severities, and the limit is above the number of
   * rounds without progress, which is one exactly when what the round aimed at did not shrink. In every other
   * case the run asks for approval.
   */
  lemma RescanDecides(limit: int, steps: seq<Step>, ok: bool, overall: int, remaining: int, baseline: int, major: bool)
    requires Legal(Init(limit), steps) && Run(Init(limit), steps).place.Rescanning?
    ensures var c := Run(Init(limit), steps); var d := Apply(c, Rescanned(ok, overall, remaining, baseline, major));
      var stalled := if remaining != 0 && remaining >= baseline then 1 else 0;
      && (d.place == Ended(false) <==> !ok)
      && (d.place == CycleHead(1) <==> ok && overall > 0 && !major && limit > stalled)
      && (d.place == ApprovalWait <==> ok && (overall <= 0 || major || limit <= stalled))
      && d.journal == (if d.place == ApprovalWait then c.journal + [ApprovalAsked] else c.journal)
      && (ok ==> d.noProgress == stalled)
  {
    RunKeepsInv(Init(limit), steps);
    RunKeepsStreak(Init(limit), steps);
  }

  /**
   * After the first cycle's report: with nothing applied, a hit budget stops the run, and so does a cycle that
   * changed nothing when the limit is at most one; a higher limit skips to the second cycle. A cycle that changed
   * files asks what to do next, unless the budget was hit. In every other case the run asks for approval.
   */
  lemma FirstReportDecides(limit: int, steps: seq<Step>, applied: int, changed: bool, budgetHit: bool)
    requires Legal(Init(limit), steps) && Run(Init(limit), steps).place == Batches(0)
    ensures var c := Run(Init(limit), steps); var d := Apply(c, Reported(applied, changed, budgetHit));
      && (d.place == Ended(true) <==> applied <= 0 && (budgetHit || (!changed && limit <= 1)))
      && (d.place == CycleHead(1) <==> applied <= 0 && !changed && !budgetHit && limit > 1)
      && (d.place == DecisionWait(0) <==> changed && !budgetHit)
      && (d.place == ApprovalWait <==> applied > 0 && (!changed || budgetHit))
      && d.journal == c.journal + (if d.place == ApprovalWait then [ApprovalAsked]
                                   else if d.place == DecisionWait(0) then [DecisionAsked] else [])
      && d.noProgress == (if applied <= 0 && !changed && !budgetHit then 1 else 0)
      && d.budgetExhausted == budgetHit
  {
    RunKeepsInv(Init(limit), steps);
    RunKeepsStreak(Init(limit), steps);
  }

  /**
   * After the second cycle's report the run stops exactly when nothing was applied and the budget was hit, or
   * nothing changed either and the limit is reached; otherwise it asks for approval.
   */
  lemma SecondReportDecides(limit: int, steps: seq<Step>, applied: int, changed: bool, budgetHit: bool)
    requires Legal(Init(limit), steps) && Run(Init(limit), steps).place == Batches(1)
    ensures var c := Run(Init(limit), steps); var d := Apply(c, Reported(applied, changed, budgetHit));
      && 0 <= c.noProgress <= 1
      && (d.place == Ended(true) <==> applied <= 0 && (budgetHit || (!changed && limit <= c.noProgress + 1)))
      && (d.place == ApprovalWait <==> applied > 0 || (!budgetHit && (changed || limit > c.noProgress + 1)))
      && d.journal == c.journal + (if d.place == ApprovalWait then [ApprovalAsked] else [])
      && d.budgetExhausted == budgetHit
  {
    RunKeepsInv(Init(limit), steps);
    RunKeepsStreak(Init(limit), steps);
  }

  /** A cycle's work begins exactly when its strategy has something to work on; otherwise the run ends well. */
  lemma StrategyDecides(limit: int, steps: seq<Step>, majorComplete: bool)
    requires Legal(Init(limit), steps) && Run(Init(limit), steps).place.CycleHead?
    ensures var c := Run(Init(limit), steps); var d := Apply(c, CycleChosen(majorComplete));
      && (d.place == Ended(true) <==> majorComplete)
      && (d.place == Batches(c.place.cycle) <==> !majorComplete)
      && (CycleStarted(c.place.cycle) in d.journal <==> !majorComplete)
  {
    RunKeepsInv(Init(limit), steps);
  }

  /** What was loaded decides whether there is anything to do. */
  lemma IngestDecides(limit: int, steps: seq<Step>, loaded: bool, findings: bool)
    requires Legal(Init(limit), steps) && Run(Init(limit), steps).place.Ingesting?
    ensures var d := Apply(Run(Init(limit), steps), Ingested(loaded, findings));
      && (d.place == Ended(false) <==> !loaded)
      && (d.place == Ended(true) <==> loaded && !findings)
      && (d.place == CycleHead(0) <==> loaded && findings)
      && d.journal == []
  {
    RunKeepsInv(Init(limit), steps);
  }

  /** A cancelled run is over: nothing but commands can follow, and it reads as stopped, neither done nor failed. */
  lemma CancelStops(limit: int, steps: seq<Step>, later: seq<Step>)
    requires Legal(Init(limit), steps) && Enabled(Run(Init(limit), steps), Cancelled)
    requires Legal(Apply(Run(Init(limit), steps), Cancelled), later)
    ensures Run(Apply(Run(Init(limit), steps), Cancelled), later).place == Stopped
    ensures forall step :: step in later ==> step.Command?
  {
    EndedStays(Apply(Run(Init(limit), steps), Cancelled), later);
  }

  predicate Fails(step: Step) {
    match step
    case Ingested(loaded, _) => !loaded
    case Rescanned(ok, _, _, _, _) => !ok
    case Persisted(ok) => !ok
    case _ => false
  }

  lemma {:induction false} EndedStays(c: Control, steps: seq<Step>)
    requires (c.place.Ended? || c.place.Stopped?) && Legal(c, steps)
    ensures Run(c, steps).place == c.place && forall step :: step in steps ==> step.Command?
    decreases |steps|
  {
    if steps != [] {
      EndedStays(Apply(c, steps[0]), steps[1..]);
      assert steps == [steps[0]] + steps[1..];
    }
  }

  lemma {:induction false} FailsFrom(c: Control, steps: seq<Step>)
    requires Legal(c, steps) && c.place != Ended(false)
    ensures Run(c, steps).place == Ended(false) <==> exists step :: step in steps && Fails(step)
    decreases |steps|
  {
    if steps != [] {
      var next := Apply(c, steps[0]);
      assert steps == [steps[0]] + steps[1..];
      StepFails(c, steps[0]);
      if next.place == Ended(false) {
        EndedStays(next, steps[1..]);
      } else {
        FailsFrom(next, steps[1..]);
      }
    }
  }

  lemma StepFails(c: Control, step: Step)
    requires Enabled(c, step) && c.place != Ended(false)
    ensures Apply(c, step).place == Ended(false) <==> Fails(step)
  {
  }

  /** A run ends as failed exactly when the scan could not be loaded, the rescan failed, or persisting failed. */
  lemma FailsOnlyFor(limit: int, steps: seq<Step>)
    requires Legal(Init(limit), steps)
    ensures Run(Init(limit), steps).place == Ended(false) <==> exists step :: step in steps && Fails(step)
  {
    FailsFrom(Init(limit), steps);
  }

  // ---------- the runner object ----------

  class RemediationRunner {
    var decisionRequested: bool
    var approvalRequested: bool
    var commandEvent: bool
    var pendingAction: Option<Action>
    var place: Place
    var noProgressCycles: int
    var budgetExhausted: bool
    const noProgressLimit: int
    ghost var journal: seq<Mark>

    ghost function View(): Control
      reads this
    {
      Control(place, Mailbox(decisionRequested, approvalRequested, commandEvent, pendingAction),
              noProgressCycles, budgetExhausted, noProgressLimit, journal)
    }

    constructor (limit: int)
      ensures View() == Init(limit)
    {
      decisionRequested, approvalRequested, commandEvent, pendingAction := false, false, false, None;
      place, noProgressCycles, budgetExhausted, journal := Ingesting, 0, false, [];
      noProgressLimit := limit;
    }

    method HandleCommand(action: Action) returns (accepted: bool)
      modifies this
      ensures View() == Apply(old(View()), Command(action))
      ensures accepted <==> Expected(old(View()).box, action)
    {
      match action {
        case ContinueRound =>
          if !decisionRequested || commandEvent { return false; }
        case PushCurrent =>
          if !decisionRequested || commandEvent { return false; }
        case ApprovePush =>
          if !approvalRequested || commandEvent { return false; }
      }
      pendingAction := Some(action);
      commandEvent := true;
      journal := journal + [Accepted(action)];
      return true;
    }

    method ClearPendingAction()
      modifies `pendingAction, `commandEvent
      ensures pendingAction == None && !commandEvent
    {
      pendingAction, commandEvent := None, false;
    }

    /** `_wait_for_round_decision` up to its first await. */
    method BeginRoundDecision(cycle: nat)
      modifies this
      ensures View() == WaitForDecision(old(View()), cycle)
    {
      decisionRequested, approvalRequested := true, false;
      ClearPendingAction();
      place, journal := DecisionWait(cycle), journal + [DecisionAsked];
    }

    /** `_wait_for_human_approval` up to its first await. */
    method BeginHumanApproval()
      modifies this
      ensures View() == WaitForApproval(old(View()))
    {
      approvalRequested, decisionRequested := true, false;
      ClearPendingAction();
      place, journal := ApprovalWait, journal + [ApprovalAsked];
    }

    /** The rest of `_wait_for_round_decision` and what the cycle does with its answer. */
    method EndRoundDecision() returns (action: Action)
      requires Enabled(View(), DecisionTaken) && Inv(View())
      modifies this
      ensures View() == Apply(old(View()), DecisionTaken) && Inv(View())
      ensures old(pendingAction) == Some(action)
    {
      StepKeepsInv(View(), DecisionTaken);
      action := Decided(pendingAction);
      decisionRequested := false;
      ClearPendingAction();
      if action == ContinueRound {
        place, journal := Rescanning(place.cycle), journal + [RescanStarted];
      } else {
        BeginHumanApproval();
      }
    }

    /** The rest of `_wait_for_human_approval`; persisting follows at once. */
    method EndHumanApproval()
      requires Enabled(View(), ApprovalTaken) && Inv(View())
      modifies this
      ensures View() == Apply(old(View()), ApprovalTaken) && Inv(View())
      ensures old(pendingAction) == Some(ApprovePush)
    {
      ApprovalKeepsInv(View());
      approvalRequested := false;
      ClearPendingAction();
      place, journal := Persisting, journal + [PersistStarted];
    }

    /** The decisions that follow a cycle's report. */
    method ConcludeReport(applied: int, changed: bool, budgetHit: bool)
      requires place.Batches? && Inv(View())
      modifies this
      ensures View() == Apply(old(View()), Reported(applied, changed, budgetHit)) && Inv(View())
    {
      StepKeepsInv(View(), Reported(applied, changed, budgetHit));
      var cycle := place.cycle;
      if budgetHit { budgetExhausted := true; }
      if budgetExhausted && applied <= 0 {
        place := Ended(true);
        return;
      }
      if applied <= 0 && !changed {
        noProgressCycles := noProgressCycles + 1;
        if noProgressCycles >= noProgressLimit {
          place := Ended(true);
          return;
        }
        if cycle + 1 < MAX_REMEDIATION_CYCLES {
          place := CycleHead(cycle + 1);
          return;
        }
      } else {
        noProgressCycles := 0;
      }
      if cycle == 0 && changed && cycle + 1 < MAX_REMEDIATION_CYCLES && !budgetExhausted {
        BeginRoundDecision(cycle);
      } else {
        BeginHumanApproval();
      }
    }

    /** The decisions that follow the rescan an operator asked for. */
    method ConcludeRescan(ok: bool, overall: int, remaining: int, baseline: int, majorComplete: bool)
      requires place.Rescanning? && Inv(View())
      modifies this
      ensures View() == Apply(old(View()), Rescanned(ok, overall, remaining, baseline, majorComplete)) && Inv(View())
    {
      StepKeepsInv(View(), Rescanned(ok, overall, remaining, baseline, majorComplete));
      var cycle := place.cycle;
      if !ok {
        place := Ended(false);
        return;
      }
      if remaining != 0 {
        if remaining >= baseline { noProgressCycles := noProgressCycles + 1; } else { noProgressCycles := 0; }
      }
      if overall > 0 && !majorComplete && noProgressCycles < noProgressLimit {
        place := if cycle + 1 < MAX_REMEDIATION_CYCLES then CycleHead(cycle + 1) else Ended(true);
        return;
      }
      BeginHumanApproval();
    }
  }
}
