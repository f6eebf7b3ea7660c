/** The spend ledger of the deployment pipeline: a guard before each LLM call, a record after it. Money is in micro-dollars. */
module BudgetLedger {
  import opened Text

  /** The caps on the whole pipeline and on its Terraform stages; both can be configured. */
  datatype Caps = Caps(pipeline: int, terraform: int)

  const DEFAULT_CAPS: Caps := Caps(3_000_000, 1_000_000)

  const TERRAFORM_STAGES: set<string> := {
    "deployment_profile", "terraform_repo_context", "terraform_architecture_profile", "terraform_structure",
    "terraform_bundle_plan", "terraform_file_generation", "terraform_validation"}

  // ---------- prices ----------

  /** Dollars per million tokens, which is micro-dollars per token. */
  datatype Price = Price(input: nat, output: nat)

  const PAID: Price := Price(3, 15)

  /** The model's name is given in lower case. Every named model of the table, and every other, costs the same. */
  function PriceOf(model: string): Price {
    if Contains(model, "llama") || Contains(model, "qwen") || Contains(model, "gpt-oss") || Contains(model, "mistral")
       || Contains(model, ":free")
    then Price(0, 0)
    else PAID
  }

  function Positive(n: int): nat { if n > 0 then n else 0 }

  /** A whole number of micro-dollars, so rounding to six decimals of a dollar changes nothing. */
  function Cost(price: Price, input: int, output: int): nat {
    Positive(input) * price.input + Positive(output) * price.output
  }

  /** The open models, and whatever is marked as free. */
  ghost predicate IsFree(model: string) {
    Occurs("llama", model) || Occurs("qwen", model) || Occurs("gpt-oss", model) || Occurs("mistral", model)
    || Occurs(":free", model)
  }

  /**
   * What a recorded call costs: nothing on a free model, otherwise three dollars for a million tokens read and
   * fifteen for a million written, where the estimate stands in for an input that was not reported and negative
   * numbers count as none.
   */
  lemma CallCosts(stage: string, model: string, estimate: nat, limit: nat, input: int, output: int)
    ensures Charge(Request(stage, PriceOf(model), estimate, limit), Recorded(input, output))
         == if IsFree(model) then 0
            else 3 * (if input > 0 then input else estimate) + 15 * (if output > 0 then output else 0)
  {
    ContainsIffOccurs(model, "llama");
    ContainsIffOccurs(model, "qwen");
    ContainsIffOccurs(model, "gpt-oss");
    ContainsIffOccurs(model, "mistral");
    ContainsIffOccurs(model, ":free");
  }

  // ---------- the ledger ----------

  datatype Call = Call(stage: string, cost: nat)

  datatype Ledger = Ledger(total: int, calls: seq<Call>)

  const EMPTY: Ledger := Ledger(0, [])

  function Spent(calls: seq<Call>): nat {
    if calls == [] then 0 else Spent(calls[..|calls| - 1]) + calls[|calls| - 1].cost
  }

  function TerraformSpent(calls: seq<Call>): nat {
    if calls == [] then 0 else
      var c := calls[|calls| - 1];
      TerraformSpent(calls[..|calls| - 1]) + if c.stage in TERRAFORM_STAGES then c.cost else 0
  }

  /** A call about to be made: what its guard assumes it uses at most. */
  datatype Request = Request(stage: string, price: Price, input: nat, output: nat)

  function Projected(r: Request): nat { Cost(r.price, r.input, r.output) }

  predicate Allowed(caps: Caps, ledger: Ledger, r: Request) {
    && ledger.total + Projected(r) <= caps.pipeline
    && (r.stage in TERRAFORM_STAGES ==> TerraformSpent(ledger.calls) + Projected(r) <= caps.terraform)
  }

  /** How a call ends: it raises or is answered elsewhere, and nothing is recorded; or its usage is recorded. */
  datatype Usage = NotRecorded | Recorded(input: int, output: int)

  /** A response that reports no input is charged for the estimate. */
  function Charge(r: Request, u: Usage): nat {
    match u
    case NotRecorded => 0
    case Recorded(input, output) => Cost(r.price, if input <= 0 then r.input else input, output)
  }

  function Record(ledger: Ledger, r: Request, u: Usage): Ledger {
    if u.NotRecorded? then ledger
    else Ledger(ledger.total + Charge(r, u), ledger.calls + [Call(r.stage, Charge(r, u))])
  }

  class UsageLedger {
    const caps: Caps
    var total: int
    var calls: seq<Call>

    constructor (c: Caps := DEFAULT_CAPS)
      ensures caps == c && Ledger(total, calls) == EMPTY
    {
      caps, total, calls := c, 0, [];
    }

    /** `input` is the token estimate for both prompts, `output` the limit on the answer. */
    method Guard(stage: string, model: string, input: nat, output: nat) returns (ok: bool)
      ensures ok == Allowed(caps, Ledger(total, calls), Request(stage, PriceOf(model), input, output))
    {
      var projected := Cost(PriceOf(model), input, output);
      if total + projected > caps.pipeline { return false; }
      if stage in TERRAFORM_STAGES {
        var sum: nat := 0;
        for i := 0 to |calls|
          invariant sum == TerraformSpent(calls[..i])
        {
          assert calls[..i + 1][..i] == calls[..i];
          if calls[i].stage in TERRAFORM_STAGES { sum := sum + calls[i].cost; }
        }
        assert calls[..|calls|] == calls;
        if sum + projected > caps.terraform { return false; }
      }
      return true;
    }

    /** The guard's request `r` has been answered, and the response reports its tokens. */
    method RecordUsage(stage: string, model: string, estimate: nat, input: int, output: int, ghost r: Request)
      requires r.stage == stage && r.price == PriceOf(model) && r.input == estimate
      modifies this
      ensures Ledger(total, calls) == Record(old(Ledger(total, calls)), r, Recorded(input, output))
    {
      var charged := if input <= 0 then estimate else input;
      var cost := Cost(PriceOf(model), charged, output);
      total := total + cost;
      calls := calls + [Call(stage, cost)];
    }
  }

  // ---------- runs, with calls that may overlap ----------

  datatype Step =
    | Begin(request: Request)
    | End(index: nat, usage: Usage)

  datatype State = State(ledger: Ledger, pending: seq<Request>)

  const START: State := State(EMPTY, [])

  predicate Enabled(s: State, step: Step) {
    step.End? ==> step.index < |s.pending|
  }

  /** No call uses more than its guard assumed. */
  predicate Honest(s: State, step: Step)
    requires Enabled(s, step)
  {
    step.End? && step.usage.Recorded? ==>
      step.usage.input <= s.pending[step.index].input && step.usage.output <= s.pending[step.index].output
  }

  function Apply(caps: Caps, s: State, step: Step): State
    requires Enabled(s, step)
  {
    match step
    case Begin(r) => if Allowed(caps, s.ledger, r) then s.(pending := s.pending + [r]) else s
    case End(i, u) => State(Record(s.ledger, s.pending[i], u), s.pending[..i] + s.pending[i + 1..])
  }

  ghost predicate Legal(caps: Caps, steps: seq<Step>)
    decreases |steps|, 0
  {
    steps == [] || (
      && Legal(caps, steps[..|steps| - 1])
      && Enabled(Run(caps, steps[..|steps| - 1]), steps[|steps| - 1])
      && Honest(Run(caps, steps[..|steps| - 1]), steps[|steps| - 1]))
  }

  ghost function Run(caps: Caps, steps: seq<Step>): State
    requires Legal(caps, steps)
    decreases |steps|, 1
  {
    if steps == [] then START else Apply(caps, Run(caps, steps[..|steps| - 1]), steps[|steps| - 1])
  }

  /** At every moment of the run at most `k` calls are in flight. */
  ghost predicate AtMostInFlight(caps: Caps, steps: seq<Step>, k: nat)
    requires Legal(caps, steps)
  {
    forall n :: 0 <= n <= |steps| ==> Legal(caps, steps[..n]) && |Run(caps, steps[..n]).pending| <= k
  }

  ghost predicate ProjectsAtMost(steps: seq<Step>, most: nat) {
    forall step :: step in steps && step.Begin? ==> Projected(step.request) <= most
  }

  // ---------- what the guard promises ----------

  function Reserved(pending: seq<Request>): nat {
    if pending == [] then 0 else Reserved(pending[..|pending| - 1]) + Projected(pending[|pending| - 1])
  }

  function TerraformReserved(pending: seq<Request>): nat {
    if pending == [] then 0 else
      var r := pending[|pending| - 1];
      TerraformReserved(pending[..|pending| - 1]) + if r.stage in TERRAFORM_STAGES then Projected(r) else 0
  }

  lemma {:induction false} ReservedWithout(pending: seq<Request>, i: nat)
    requires i < |pending|
    ensures Reserved(pending) == Reserved(pending[..i] + pending[i + 1..]) + Projected(pending[i])
    ensures TerraformReserved(pending)
         == TerraformReserved(pending[..i] + pending[i + 1..])
            + if pending[i].stage in TERRAFORM_STAGES then Projected(pending[i]) else 0
  {
    var n := |pending| - 1;
    var without := pending[..i] + pending[i + 1..];
    if i < n {
      ReservedWithout(pending[..n], i);
      assert without[..|without| - 1] == pending[..n][..i] + pending[..n][i + 1..];
    } else {
      assert without == pending[..n];
    }
  }

  lemma CostIsMonotone(price: Price, a: int, b: int, c: int, d: int)
    requires Positive(a) <= Positive(c) && Positive(b) <= Positive(d)
    ensures Cost(price, a, b) <= Cost(price, c, d)
  {
    assert Positive(a) * price.input <= Positive(c) * price.input;
    assert Positive(b) * price.output <= Positive(d) * price.output;
  }

  lemma ChargeIsProjected(r: Request, u: Usage)
    requires u.Recorded? ==> u.input <= r.input && u.output <= r.output
    ensures Charge(r, u) <= Projected(r)
  {
    if u.Recorded? { CostIsMonotone(r.price, if u.input <= 0 then r.input else u.input, u.output, r.input, r.output); }
  }

  /** The guard refuses nothing that fits: a call is let through exactly when its worst case would keep both caps. */
  lemma AllowedIffItFits(caps: Caps, ledger: Ledger, r: Request)
    requires TerraformSpent(ledger.calls) <= caps.terraform
    ensures var after := Record(ledger, r, Recorded(r.input, r.output));
      Allowed(caps, ledger, r) <==> after.total <= caps.pipeline && TerraformSpent(after.calls) <= caps.terraform
  {
  }

  /** The total is the sum of the calls; what is spent and reserved exceeds a cap by at most the overlap. */
  ghost predicate Bounded(caps: Caps, s: State, overlap: int) {
    && s.ledger.total == Spent(s.ledger.calls)
    && s.ledger.total + Reserved(s.pending) <= Positive(caps.pipeline) + overlap
    && TerraformSpent(s.ledger.calls) + TerraformReserved(s.pending) <= Positive(caps.terraform) + overlap
  }

  lemma {:induction false} ReservedIsSmall(pending: seq<Request>, most: nat)
    requires forall r :: r in pending ==> Projected(r) <= most
    ensures Reserved(pending) <= |pending| * most && TerraformReserved(pending) <= |pending| * most
  {
    if pending != [] {
      var n := |pending| - 1;
      assert pending == pending[..n] + [pending[n]];
      ReservedIsSmall(pending[..n], most);
      assert |pending| * most == n * most + most;
    }
  }

  lemma BeginStaysBounded(caps: Caps, s: State, r: Request, k: nat, most: nat)
    requires Bounded(caps, s, (k - 1) * most) && Allowed(caps, s.ledger, r) && |s.pending| + 1 <= k
    requires forall p :: p in s.pending ==> Projected(p) <= most
    ensures Bounded(caps, s.(pending := s.pending + [r]), (k - 1) * most)
  {
    var pending := s.pending + [r];
    assert pending[..|pending| - 1] == s.pending;
    ReservedIsSmall(s.pending, most);
    Scaled(|s.pending|, k - 1, most);
  }

  lemma Scaled(a: nat, b: nat, m: nat)
    requires a <= b
    ensures a * m <= b * m
  {
  }

  lemma EndStaysBounded(caps: Caps, s: State, i: nat, u: Usage, overlap: int)
    requires i < |s.pending| && Honest(s, End(i, u)) && Bounded(caps, s, overlap)
    ensures Bounded(caps, Apply(caps, s, End(i, u)), overlap)
  {
    var r := s.pending[i];
    ChargeIsProjected(r, u);
    ReservedWithout(s.pending, i);
  }

  lemma {:induction false} RunStaysBounded(caps: Caps, steps: seq<Step>, k: nat, most: nat)
    requires Legal(caps, steps) && k > 0 && AtMostInFlight(caps, steps, k) && ProjectsAtMost(steps, most)
    ensures Bounded(caps, Run(caps, steps), (k - 1) * most)
    ensures forall r :: r in Run(caps, steps).pending ==> Projected(r) <= most
  {
    if steps == [] {
      Scaled(0, k - 1, most);
    } else {
      var n := |steps| - 1;
      var before, step := steps[..n], steps[n];
      assert steps[..|steps|] == steps;
      assert forall m :: 0 <= m <= n ==> before[..m] == steps[..m];
      RunStaysBounded(caps, before, k, most);
      match step {
        case Begin(r) =>
          if Allowed(caps, Run(caps, before).ledger, r) { BeginStaysBounded(caps, Run(caps, before), r, k, most); }
        case End(i, u) =>
          EndStaysBounded(caps, Run(caps, before), i, u, (k - 1) * most);
      }
    }
  }

  /**
   * In every run with at most `k` calls in flight, each projecting at most `most`, the recorded total is the
   * sum of the recorded costs and passes neither cap by more than `k - 1` projections.
   */
  lemma SpendIsBounded(caps: Caps, steps: seq<Step>, k: nat, most: nat)
    requires Legal(caps, steps) && k > 0 && AtMostInFlight(caps, steps, k) && ProjectsAtMost(steps, most)
    ensures var ledger := Run(caps, steps).ledger;
      && ledger.total == Spent(ledger.calls)
      && ledger.total <= Positive(caps.pipeline) + (k - 1) * most
      && TerraformSpent(ledger.calls) <= Positive(caps.terraform) + (k - 1) * most
  {
    RunStaysBounded(caps, steps, k, most);
  }

  lemma {:induction false} SomeProjectionIsLargest(steps: seq<Step>) returns (most: nat)
    ensures ProjectsAtMost(steps, most)
  {
    most := 0;
    for i := 0 to |steps|
      invariant ProjectsAtMost(steps[..i], most)
    {
      assert steps[..i + 1] == steps[..i] + [steps[i]];
      if steps[i].Begin? && Projected(steps[i].request) > most { most := Projected(steps[i].request); }
    }
    assert steps[..|steps|] == steps;
  }

  /** One call at a time, both caps hold at every moment. */
  lemma CapsHoldOneAtATime(caps: Caps, steps: seq<Step>)
    requires Legal(caps, steps) && AtMostInFlight(caps, steps, 1)
    ensures Run(caps, steps).ledger.total == Spent(Run(caps, steps).ledger.calls) <= Positive(caps.pipeline)
    ensures TerraformSpent(Run(caps, steps).ledger.calls) <= Positive(caps.terraform)
  {
    var most := SomeProjectionIsLargest(steps);
    SpendIsBounded(caps, steps, 1, most);
  }

  lemma RunExtends(caps: Caps, steps: seq<Step>, step: Step, k: nat)
    requires Legal(caps, steps) && AtMostInFlight(caps, steps, k) && Enabled(Run(caps, steps), step) && Honest(Run(caps, steps), step)
    requires |Apply(caps, Run(caps, steps), step).pending| <= k
    ensures Legal(caps, steps + [step]) && Run(caps, steps + [step]) == Apply(caps, Run(caps, steps), step)
    ensures AtMostInFlight(caps, steps + [step], k)
  {
    var all := steps + [step];
    assert all[..|all| - 1] == steps && all[..|all|] == all;
    forall n | 0 <= n <= |all| ensures Legal(caps, all[..n]) && |Run(caps, all[..n]).pending| <= k {
      if n <= |steps| { assert all[..n] == steps[..n]; }
    }
  }

  /** Any call over half the cap passes it when it is made twice at once. */
  lemma TwiceOverHalfOverspends(caps: Caps, r: Request, u: Usage) returns (steps: seq<Step>)
    requires Projected(r) <= caps.pipeline < 2 * Projected(r) && r.stage !in TERRAFORM_STAGES
    requires u == Recorded(r.input, r.output) && Charge(r, u) == Projected(r)
    ensures Legal(caps, steps) && AtMostInFlight(caps, steps, 2) && Run(caps, steps).ledger.total == 2 * Projected(r)
  {
    RunExtends(caps, [], Begin(r), 2);
    var one := [] + [Begin(r)];
    RunExtends(caps, one, Begin(r), 2);
    var two := one + [Begin(r)];
    assert Run(caps, two) == State(EMPTY, [r, r]);
    RunExtends(caps, two, End(0, u), 2);
    var three := two + [End(0, u)];
    assert [r, r][..0] + [r, r][1..] == [r];
    RunExtends(caps, three, End(0, u), 2);
    steps := three + [End(0, u)];
  }

  /** Two overlapping calls can overspend any cap: both guards look at the ledger before either call is recorded. */
  lemma TwoAtOnceCanOverspend(caps: Caps)
    requires caps.pipeline >= PAID.input
    ensures exists steps :: Legal(caps, steps) && AtMostInFlight(caps, steps, 2) && Run(caps, steps).ledger.total > caps.pipeline
  {
    var n := caps.pipeline / PAID.input;
    var r := Request("repository_analysis", PAID, n, 0);
    var steps := TwiceOverHalfOverspends(caps, r, Recorded(n, 0));
  }
}
