/** Running a firmware program: registers, limits and output threaded through the steps,
    with the cognition and realization services left to the environment. */
module FirmwareExecutor {
  import opened Options
  import opened Octets
  import opened WireFormat
  import opened FirmwareProgram
  import opened FirmwareRegisters

  datatype Usage = Usage(layers: U64, providerCalls: U64, projectedQueries: U64, candidateOperations: U64, resolutions: U64,
                         resourceCost: U64, ioOperations: U64, databaseOperations: U64)

  datatype Act = Act(id: Digest256, answer: Id128)

  datatype Cognition = CognitionFails | Completed(usage: Usage, selection: Selection)
  datatype Selection = NotSelected | Selected(act: Act, answerCount: nat)
  datatype Emission = NotRealized | NotMaterialized | Emitted(content: Id128, materialization: Digest256, part: Bytes)

  datatype StepReceipt = StepReceipt(anchor: Id128, goal: Option<Id128>, usage: Usage, act: Act, outputOffset: nat, outputBytes: nat)

  /** What the steps run so far have left behind. */
  datatype History = History(registers: seq<Register>, steps: seq<StepReceipt>, output: Bytes)

  /** What the services answer: any function of what they are asked and, through the
      feedback fingerprint each request carries, of everything that went before. */
  datatype Environment = Environment(
    cancelled: nat -> bool,
    cognition: (History, Id128, Option<Id128>, Usage) -> Cognition,
    emission: (History, Act, nat) -> Emission)

  datatype Job = Job(program: Program, observation: Id128, previous: Option<seq<Register>>, limits: Usage, maximumOutput: nat, environment: Environment)

  datatype Totals = Totals(layers: nat, providerCalls: nat, resourceCost: nat, ioOperations: nat, databaseOperations: nat,
                           completedSteps: nat, emittedParts: nat)

  datatype Outcome = Finished | InvalidProgram | Cancelled | BindingAbsent | LimitReached | CognitionFailure | Incomplete | Ambiguous | RealizationFailure | MaterializationFailure

  // ----- bindings -----

  predicate FromPrevious(b: Binding) {
    b.source == PREVIOUS_ANSWER || b.source == PREVIOUS_REALIZATION
  }

  function Resolve(b: Binding, observation: Id128, current: seq<Register>, previous: Option<seq<Register>>): Option<Id128> {
    if b.source == OBSERVATION then Some(observation)
    else if FromPrevious(b) && previous.None? then None
    else
      var registers := if FromPrevious(b) then previous.value else current;
      if b.stepIndex >= |registers| then None
      else
        var r := registers[b.stepIndex];
        if b.source == REALIZATION || b.source == PREVIOUS_REALIZATION then
          if r.flags % 2 == 0 then None else Some(r.realization)
        else Some(r.answer)
  }

  /** Every binding to the predecessor has something to bind to. */
  ghost predicate PredecessorOk(p: Program, observation: Id128, previous: Option<seq<Register>>) {
    forall i | 0 <= i < |p.steps| ::
      (FromPrevious(p.steps[i].anchor) ==> Resolve(p.steps[i].anchor, observation, [], previous).Some?)
      && (FromPrevious(p.steps[i].goal) ==> Resolve(p.steps[i].goal, observation, [], previous).Some?)
  }

  /** The step whose cognition an act comes from: an EMIT takes its anchor's. */
  ghost function Producer(p: Program, i: nat): (j: nat)
    requires ProgramValid(p) && i < |p.steps|
    ensures j <= i && p.steps[j].kind != EMIT
    decreases i
  {
    assert StepValid(p.steps, i);
    if p.steps[i].kind == EMIT then Producer(p, p.steps[i].anchor.stepIndex) else i
  }

  ghost function Emits(p: Program, n: nat): nat
    requires n <= |p.steps|
  {
    if n == 0 then 0 else Emits(p, n - 1) + if p.steps[n - 1].kind == EMIT then 1 else 0
  }

  // ----- what holds after i steps -----

  ghost predicate RegistersOk(p: Program, registers: seq<Register>, steps: seq<StepReceipt>)
    requires |registers| == |steps| <= |p.steps|
  {
    forall k | 0 <= k < |steps| ::
      registers[k].flags == (if p.steps[k].kind == EMIT then HAS_REALIZATION else 0)
      && (p.steps[k].kind != EMIT ==> Zero(registers[k].realization) && Zero(registers[k].materialization))
      && registers[k].act == steps[k].act.id && registers[k].answer == steps[k].act.answer
  }

  ghost predicate ActsOk(p: Program, steps: seq<StepReceipt>)
    requires ProgramValid(p) && |steps| <= |p.steps|
  {
    forall k | 0 <= k < |steps| :: Producer(p, k) < |steps| && ActFrom(steps[k], steps[Producer(p, k)])
  }

  ghost predicate ActFrom(s: StepReceipt, producer: StepReceipt) {
    s.act == producer.act && s.anchor == producer.anchor && s.goal == producer.goal
  }

  ghost predicate AskedOk(p: Program, observation: Id128, previous: Option<seq<Register>>, registers: seq<Register>, steps: seq<StepReceipt>)
    requires |registers| == |steps| <= |p.steps|
  {
    forall k | 0 <= k < |steps| && p.steps[k].kind != EMIT :: AskedFor(p.steps[k], observation, registers[..k], previous, steps[k])
  }

  /** The step asked about what its bindings mean. */
  ghost predicate AskedFor(step: Step, observation: Id128, current: seq<Register>, previous: Option<seq<Register>>, s: StepReceipt) {
    && Resolve(step.anchor, observation, current, previous) == Some(s.anchor)
    && (if step.goal.source == NO_BINDING then s.goal.None? else s.goal.Some? && Resolve(step.goal, observation, current, previous) == s.goal)
  }

  /** Nothing is spent that is not accounted for. */
  ghost predicate Conserved(limits: Usage, remaining: Usage, totals: Totals) {
    && totals.layers + remaining.layers == limits.layers
    && totals.providerCalls + remaining.providerCalls == limits.providerCalls
    && totals.resourceCost + remaining.resourceCost == limits.resourceCost
    && totals.ioOperations + remaining.ioOperations == limits.ioOperations
    && totals.databaseOperations + remaining.databaseOperations == limits.databaseOperations
  }

  ghost function NextOffset(steps: seq<StepReceipt>, total: nat, k: nat): nat {
    if k + 1 < |steps| then steps[k + 1].outputOffset else total
  }

  /** The steps' ranges follow each other and make up the output. */
  ghost predicate Tiled(steps: seq<StepReceipt>, output: Bytes, maximumOutput: nat) {
    && |output| <= maximumOutput
    && (forall k | 0 <= k < |steps| :: steps[k].outputOffset + steps[k].outputBytes == NextOffset(steps, |output|, k))
    && (if steps == [] then output == [] else steps[0].outputOffset == 0)
  }

  ghost predicate OnlyEmits(p: Program, steps: seq<StepReceipt>)
    requires |steps| <= |p.steps|
  {
    forall k | 0 <= k < |steps| && p.steps[k].kind != EMIT :: steps[k].outputBytes == 0
  }

  // ----- what a step does -----

  /** The outcome that stops the run, or what the step adds to the history. */
  datatype Progress = Blocked(outcome: Outcome) | Did(register: Register, receipt: StepReceipt, part: Bytes)

  function Monus(a: U64, b: U64): U64 {
    if b > a then 0 else a - b
  }

  function Less(left: Usage, used: Usage): Usage {
    Usage(Monus(left.layers, used.layers), Monus(left.providerCalls, used.providerCalls), Monus(left.projectedQueries, used.projectedQueries),
          Monus(left.candidateOperations, used.candidateOperations), Monus(left.resolutions, used.resolutions), Monus(left.resourceCost, used.resourceCost),
          Monus(left.ioOperations, used.ioOperations), Monus(left.databaseOperations, used.databaseOperations))
  }

  /** What the steps have left of the grant. */
  ghost function Left(limits: Usage, steps: seq<StepReceipt>): Usage {
    if steps == [] then limits else Less(Left(limits, steps[..|steps| - 1]), steps[|steps| - 1].usage)
  }

  /** Less than this, and no cognition is asked for. */
  predicate Enough(left: Usage) {
    && left.layers != 0 && left.providerCalls >= 2 && left.resolutions != 0 && left.resourceCost != 0
    && left.candidateOperations != 0 && left.ioOperations != 0 && left.databaseOperations != 0
  }

  ghost function NextOf(job: Job, h: History): Progress
    requires |h.registers| == |h.steps| < |job.program.steps|
  {
    if job.program.steps[|h.steps|].kind == EMIT then EmitOf(job, h) else QueryOf(job, h)
  }

  ghost function QueryOf(job: Job, h: History): Progress
    requires |h.registers| == |h.steps| < |job.program.steps|
  {
    var step, left := job.program.steps[|h.steps|], Left(job.limits, h.steps);
    var anchor := Resolve(step.anchor, job.observation, h.registers, job.previous);
    var goal := if step.goal.source == NO_BINDING then None else Resolve(step.goal, job.observation, h.registers, job.previous);
    if anchor.None? || (step.goal.source != NO_BINDING && goal.None?) then Blocked(BindingAbsent)
    else if !Enough(left) then Blocked(LimitReached)
    else
      match job.environment.cognition(h, anchor.value, goal, left)
      case CognitionFails => Blocked(CognitionFailure)
      case Completed(usage, selection) =>
        if !Covers(left, usage) then Blocked(LimitReached)
        else if selection.NotSelected? then Blocked(Incomplete)
        else if selection.answerCount != 1 then Blocked(Ambiguous)
        else Did(QueryRegister(selection.act), StepReceipt(anchor.value, goal, usage, selection.act, |h.output|, 0), [])
  }

  function QueryRegister(act: Act): Register {
    Register(0, act.answer, seq(16, _ => 0), act.id, seq(32, _ => 0))
  }

  ghost function EmitOf(job: Job, h: History): Progress
    requires |h.registers| == |h.steps| < |job.program.steps|
  {
    var step := job.program.steps[|h.steps|];
    if step.anchor.stepIndex >= |h.steps| || |h.output| > job.maximumOutput then Blocked(InvalidProgram)
    else
      var computed, available := h.steps[step.anchor.stepIndex], job.maximumOutput - |h.output|;
      match job.environment.emission(h, computed.act, available)
      case NotRealized => Blocked(RealizationFailure)
      case NotMaterialized => Blocked(if available == 0 then LimitReached else MaterializationFailure)
      case Emitted(content, materialization, part) =>
        if available == 0 || |part| > available then Blocked(LimitReached)
        else Did(Register(HAS_REALIZATION, computed.act.answer, content, computed.act.id, materialization),
                 StepReceipt(computed.anchor, computed.goal, NoUsage(), computed.act, |h.output|, |part|), part)
  }

  function NoUsage(): Usage {
    Usage(0, 0, 0, 0, 0, 0, 0, 0)
  }

  ghost predicate Recorded(h: History) {
    |h.registers| == |h.steps| && (h.steps != [] ==> h.steps[|h.steps| - 1].outputOffset <= |h.output|)
  }

  /** The history before its last step. */
  ghost function Before(h: History): History
    requires Recorded(h) && h.steps != []
  {
    var n := |h.steps| - 1;
    History(h.registers[..n], h.steps[..n], h.output[..h.steps[n].outputOffset])
  }

  /** The job reaches this history: each step did what the services answered. */
  ghost predicate Reached(job: Job, h: History)
    decreases |h.steps|
  {
    && Recorded(h) && |h.steps| <= |job.program.steps|
    && if h.steps == [] then h.output == []
       else
         var n := |h.steps| - 1;
         && Reached(job, Before(h))
         && NextOf(job, Before(h)) == Did(h.registers[n], h.steps[n], h.output[h.steps[n].outputOffset..])
  }

  /** The services' answers determine the run: there is one history of each length. */
  lemma {:induction false} ReachedOnce(job: Job, h: History, other: History)
    requires Reached(job, h) && Reached(job, other) && |h.steps| == |other.steps|
    ensures h == other
    decreases |h.steps|
  {
    hide NextOf;
    if h.steps != [] {
      ReachedOnce(job, Before(h), Before(other));
      var n := |h.steps| - 1;
      assert h.registers == Before(h).registers + [h.registers[n]] && other.registers == Before(other).registers + [other.registers[n]];
      assert h.steps == Before(h).steps + [h.steps[n]] && other.steps == Before(other).steps + [other.steps[n]];
      assert h.output == Before(h).output + h.output[h.steps[n].outputOffset..];
      assert other.output == Before(other).output + other.output[other.steps[n].outputOffset..];
    }
  }

  lemma ReachesNext(job: Job, h: History, next: Progress)
    requires Reached(job, h) && |h.steps| < |job.program.steps| && next.Did? && next.receipt.outputOffset == |h.output|
    requires NextOf(job, h) == next
    ensures Reached(job, History(h.registers + [next.register], h.steps + [next.receipt], h.output + next.part))
    ensures Left(job.limits, h.steps + [next.receipt]) == Less(Left(job.limits, h.steps), next.receipt.usage)
  {
    hide NextOf;
    var after := History(h.registers + [next.register], h.steps + [next.receipt], h.output + next.part);
    assert Before(after) == h;
    assert after.output[|h.output|..] == next.part;
    assert (h.steps + [next.receipt])[..|h.steps|] == h.steps;
  }

  lemma ResolveInRange(p: Program, observation: Id128, previous: Option<seq<Register>>, registers: seq<Register>, steps: seq<StepReceipt>, b: Binding, optional: bool)
    requires |registers| == |steps| < |p.steps| && RegistersOk(p, registers, steps)
    requires BindingValid(b, |steps|, p.steps, optional) && b.source != NO_BINDING
    requires FromPrevious(b) ==> Resolve(b, observation, [], previous).Some?
    ensures Resolve(b, observation, registers, previous).Some?
  {
  }

  class Machine {
    const job: Job
    var registers: seq<Register>
    var steps: seq<StepReceipt>
    var output: Bytes
    var remaining: Usage
    var totals: Totals

    ghost predicate Valid()
      reads this
    {
      && ProgramValid(job.program) && PredecessorOk(job.program, job.observation, job.previous)
      && |registers| == |steps| <= |job.program.steps|
      && Reached(job, Past()) && remaining == Left(job.limits, steps)
      && RegistersOk(job.program, registers, steps) && ActsOk(job.program, steps)
      && AskedOk(job.program, job.observation, job.previous, registers, steps)
      && Conserved(job.limits, remaining, totals)
      && Tiled(steps, output, job.maximumOutput) && OnlyEmits(job.program, steps)
      && totals.completedSteps == |steps| && totals.emittedParts == Emits(job.program, |steps|)
    }

    function Past(): History
      reads this
    {
      History(registers, steps, output)
    }

    constructor (job: Job)
      requires ProgramValid(job.program) && PredecessorOk(job.program, job.observation, job.previous)
      ensures Valid() && steps == [] && this.job == job
    {
      this.job := job;
      registers, steps, output := [], [], [];
      remaining, totals := job.limits, Totals(0, 0, 0, 0, 0, 0, 0);
    }

    /** Takes what a cognition step used from the grant. */
    method Consume(usage: Usage) returns (ok: bool, left: Usage)
      ensures ok <==> Covers(remaining, usage)
      ensures ok ==> left == Less(remaining, usage)
    {
      left := remaining;
      if usage.layers > left.layers || usage.providerCalls > left.providerCalls || usage.projectedQueries > left.projectedQueries
         || usage.candidateOperations > left.candidateOperations || usage.resolutions > left.resolutions || usage.resourceCost > left.resourceCost
         || usage.ioOperations > left.ioOperations || usage.databaseOperations > left.databaseOperations {
        return false, left;
      }
      left := Usage(left.layers - usage.layers, left.providerCalls - usage.providerCalls, left.projectedQueries - usage.projectedQueries,
                    left.candidateOperations - usage.candidateOperations, left.resolutions - usage.resolutions, left.resourceCost - usage.resourceCost,
                    left.ioOperations - usage.ioOperations, left.databaseOperations - usage.databaseOperations);
      ok := true;
    }

    /** A step that asks for cognition. */
    method Query() returns (outcome: Outcome)
      requires Valid() && |steps| < |job.program.steps| && job.program.steps[|steps|].kind != EMIT
      modifies `registers, `steps, `remaining, `totals
      ensures Valid() && |steps| == old(|steps|) + if outcome == Finished then 1 else 0
      ensures outcome != Finished ==> Past() == old(Past()) && NextOf(job, Past()) == Blocked(outcome)
      ensures outcome != BindingAbsent && outcome != InvalidProgram && outcome != Cancelled
    {
      hide Resolve, StepValid, RegistersOk, ActsOk, AskedOk, Tiled, OnlyEmits, PredecessorOk, Emits, ProgramValid, Reached, Left, Covers, Less;
      var step := job.program.steps[|steps|];
      BindingsResolve(job.program, job.observation, job.previous, registers, steps);
      var anchor := Resolve(step.anchor, job.observation, registers, job.previous);
      var goal: Option<Id128> := None;
      if step.goal.source != NO_BINDING {
        goal := Resolve(step.goal, job.observation, registers, job.previous);
      }
      if remaining.layers == 0 || remaining.providerCalls < 2 || remaining.resolutions == 0 || remaining.resourceCost == 0
         || remaining.candidateOperations == 0 || remaining.ioOperations == 0 || remaining.databaseOperations == 0 {
        return LimitReached;
      }
      var cognition := job.environment.cognition(Past(), anchor.value, goal, remaining);
      if cognition.CognitionFails? {
        return CognitionFailure;
      }
      var usage := cognition.usage;
      var consumed, left := Consume(usage);
      if !consumed {
        return LimitReached;
      }
      if cognition.selection.NotSelected? {
        return Incomplete;
      }
      if cognition.selection.answerCount != 1 {
        return Ambiguous;
      }
      var act := cognition.selection.act;
      var receipt := StepReceipt(anchor.value, goal, usage, act, |output|, 0);
      var register := Register(0, act.answer, seq(16, _ => 0), act.id, seq(32, _ => 0));
      assert NextOf(job, Past()) == Did(register, receipt, []);
      Answered(usage, register, receipt);
      registers, steps, remaining, totals := registers + [register], steps + [receipt], left, Summed(totals, usage);
      outcome := Finished;
    }

    /** What recording an answered query keeps. */
    lemma Answered(usage: Usage, register: Register, receipt: StepReceipt)
      requires Valid() && |steps| < |job.program.steps| && job.program.steps[|steps|].kind != EMIT && Covers(remaining, usage)
      requires NextOf(job, Past()) == Did(register, receipt, []) && receipt.usage == usage && receipt.outputOffset == |output| && receipt.outputBytes == 0
      requires register.flags == 0 && register.act == receipt.act.id && register.answer == receipt.act.answer
      requires Zero(register.realization) && Zero(register.materialization)
      requires AskedFor(job.program.steps[|steps|], job.observation, registers, job.previous, receipt)
      ensures RegistersOk(job.program, registers + [register], steps + [receipt]) && ActsOk(job.program, steps + [receipt])
      ensures AskedOk(job.program, job.observation, job.previous, registers + [register], steps + [receipt])
      ensures Tiled(steps + [receipt], output, job.maximumOutput) && OnlyEmits(job.program, steps + [receipt]) && Emits(job.program, |steps| + 1) == Emits(job.program, |steps|)
      ensures Reached(job, History(registers + [register], steps + [receipt], output)) && Less(remaining, usage) == Left(job.limits, steps + [receipt])
      ensures Conserved(job.limits, Less(remaining, usage), Summed(totals, usage))
    {
      hide Resolve, NextOf, StepValid, RegistersOk, ActsOk, AskedOk, AskedFor, Tiled, OnlyEmits, PredecessorOk, Emits, ProgramValid, Reached, Left;
      assert output + [] == output;
      TotalsFit(job.limits, remaining, totals, usage);
      ReachesNext(job, Past(), Did(register, receipt, []));
      QueryKeeps(job.program, job.observation, job.previous, registers, steps, output, job.maximumOutput, register, receipt);
    }

    /** A step that realizes and writes out an act already found. */
    method Emit() returns (outcome: Outcome)
      requires Valid() && |steps| < |job.program.steps| && job.program.steps[|steps|].kind == EMIT
      modifies `registers, `steps, `output, `totals
      ensures Valid() && |steps| == old(|steps|) + if outcome == Finished then 1 else 0
      ensures outcome != Finished ==> Past() == old(Past()) && NextOf(job, Past()) == Blocked(outcome)
      ensures outcome != BindingAbsent && outcome != InvalidProgram && outcome != Cancelled
    {
      hide Resolve, StepValid, RegistersOk, ActsOk, AskedOk, Tiled, OnlyEmits, PredecessorOk, Emits, ProgramValid, Reached, Left;
      var i, step := |steps|, job.program.steps[|steps|];
      EmitAnchor(job.program, i);
      var computed := steps[step.anchor.stepIndex];
      OutputFits(steps, output, job.maximumOutput);
      var available := job.maximumOutput - |output|;
      var emission := job.environment.emission(Past(), computed.act, available);
      if emission.NotRealized? {
        return RealizationFailure;
      }
      if available == 0 {
        return LimitReached;
      }
      if emission.NotMaterialized? {
        return MaterializationFailure;
      }
      if |emission.part| > available {
        return LimitReached;
      }
      var receipt := StepReceipt(computed.anchor, computed.goal, Usage(0, 0, 0, 0, 0, 0, 0, 0), computed.act, |output|, |emission.part|);
      var register := Register(HAS_REALIZATION, computed.act.answer, emission.content, computed.act.id, emission.materialization);
      ReachesNext(job, Past(), Did(register, receipt, emission.part));
      EmitKeeps(job.program, job.observation, job.previous, registers, steps, output, job.maximumOutput, register, receipt, emission.part);
      registers, steps, output := registers + [register], steps + [receipt], output + emission.part;
      totals := totals.(completedSteps := totals.completedSteps + 1, emittedParts := totals.emittedParts + 1);
      outcome := Finished;
    }

    /** All steps, in order.  What stops the run is a cancellation or the first step
        that is blocked. */
    method Run() returns (outcome: Outcome)
      requires Valid() && steps == []
      modifies this
      ensures Valid()
      ensures outcome == Finished ==> |steps| == |job.program.steps|
      ensures outcome == Cancelled ==> job.environment.cancelled(|steps| + 1)
      ensures outcome != Finished && outcome != Cancelled ==> |steps| < |job.program.steps| && NextOf(job, Past()) == Blocked(outcome)
      ensures outcome != BindingAbsent && outcome != InvalidProgram
    {
      hide RegistersOk, ActsOk, AskedOk, Tiled, OnlyEmits, PredecessorOk, ProgramValid, Conserved, Emits, NextOf, Reached, Left;
      for i := 0 to |job.program.steps|
        invariant Valid() && |steps| == i
      {
        if job.environment.cancelled(i + 1) {
          return Cancelled;
        }
        if job.program.steps[i].kind != EMIT {
          outcome := Query();
        } else {
          outcome := Emit();
        }
        if outcome != Finished {
          return;
        }
      }
      if job.environment.cancelled(|job.program.steps| + 1) {
        return Cancelled;
      }
      outcome := Finished;
    }
  }

  ghost predicate Covers(remaining: Usage, usage: Usage) {
    && usage.layers <= remaining.layers && usage.providerCalls <= remaining.providerCalls && usage.projectedQueries <= remaining.projectedQueries
    && usage.candidateOperations <= remaining.candidateOperations && usage.resolutions <= remaining.resolutions && usage.resourceCost <= remaining.resourceCost
    && usage.ioOperations <= remaining.ioOperations && usage.databaseOperations <= remaining.databaseOperations
  }

  /** The receipt after one more query. */
  function Summed(totals: Totals, usage: Usage): Totals {
    Totals(totals.layers + usage.layers, totals.providerCalls + usage.providerCalls, totals.resourceCost + usage.resourceCost,
           totals.ioOperations + usage.ioOperations, totals.databaseOperations + usage.databaseOperations,
           totals.completedSteps + 1, totals.emittedParts)
  }

  /** The receipt's sums never overflow: each is at most the initial limit. */
  lemma TotalsFit(limits: Usage, remaining: Usage, totals: Totals, usage: Usage)
    requires Conserved(limits, remaining, totals) && Covers(remaining, usage)
    ensures totals.layers + usage.layers < U64_LIMIT && totals.providerCalls + usage.providerCalls < U64_LIMIT
    ensures totals.resourceCost + usage.resourceCost < U64_LIMIT && totals.ioOperations + usage.ioOperations < U64_LIMIT
    ensures totals.databaseOperations + usage.databaseOperations < U64_LIMIT
  {
  }

  /** After the predecessor check no binding of a valid program is absent. */
  lemma BindingsResolve(p: Program, observation: Id128, previous: Option<seq<Register>>, registers: seq<Register>, steps: seq<StepReceipt>)
    requires ProgramValid(p) && PredecessorOk(p, observation, previous) && |registers| == |steps| < |p.steps| && RegistersOk(p, registers, steps)
    requires p.steps[|steps|].kind != EMIT
    ensures Resolve(p.steps[|steps|].anchor, observation, registers, previous).Some?
    ensures p.steps[|steps|].goal.source != NO_BINDING ==> Resolve(p.steps[|steps|].goal, observation, registers, previous).Some?
  {
    hide Resolve, RegistersOk;
    var i := |steps|;
    assert StepValid(p.steps, i);
    ResolveInRange(p, observation, previous, registers, steps, p.steps[i].anchor, false);
    if p.steps[i].goal.source != NO_BINDING {
      ResolveInRange(p, observation, previous, registers, steps, p.steps[i].goal, true);
    }
  }

  lemma EmitAnchor(p: Program, i: nat)
    requires ProgramValid(p) && i < |p.steps| && p.steps[i].kind == EMIT
    ensures p.steps[i].anchor.stepIndex < i
    ensures Producer(p, i) == Producer(p, p.steps[i].anchor.stepIndex)
  {
    assert StepValid(p.steps, i);
  }

  lemma OutputFits(steps: seq<StepReceipt>, output: Bytes, maximumOutput: nat)
    requires Tiled(steps, output, maximumOutput)
    ensures |output| <= maximumOutput
  {
  }

  lemma TiledAppend(steps: seq<StepReceipt>, output: Bytes, maximumOutput: nat, receipt: StepReceipt, part: Bytes)
    requires Tiled(steps, output, maximumOutput) && receipt.outputOffset == |output| && receipt.outputBytes == |part| && |output| + |part| <= maximumOutput
    ensures Tiled(steps + [receipt], output + part, maximumOutput)
  {
    var after := steps + [receipt];
    forall k | 0 <= k < |after|
      ensures after[k].outputOffset + after[k].outputBytes == NextOffset(after, |output + part|, k)
    {
      if k < |steps| {
        assert after[k] == steps[k] && steps[k].outputOffset + steps[k].outputBytes == NextOffset(steps, |output|, k);
      }
    }
  }

  lemma ActsAppend(p: Program, steps: seq<StepReceipt>, receipt: StepReceipt)
    requires ProgramValid(p) && |steps| < |p.steps| && ActsOk(p, steps)
    requires if p.steps[|steps|].kind == EMIT then
               p.steps[|steps|].anchor.stepIndex < |steps| && ActFrom(receipt, steps[p.steps[|steps|].anchor.stepIndex])
             else true
    ensures ActsOk(p, steps + [receipt])
  {
    hide ProgramValid;
    var i, after := |steps|, steps + [receipt];
    forall k | 0 <= k < |after|
      ensures Producer(p, k) < |after| && ActFrom(after[k], after[Producer(p, k)])
    {
      if k < i {
        assert ActFrom(steps[k], steps[Producer(p, k)]);
      } else if p.steps[i].kind == EMIT {
        EmitAnchor(p, i);
        var a := p.steps[i].anchor.stepIndex;
        assert ActFrom(steps[a], steps[Producer(p, a)]);
      }
    }
  }

  lemma AskedAppend(p: Program, observation: Id128, previous: Option<seq<Register>>, registers: seq<Register>, steps: seq<StepReceipt>, register: Register, receipt: StepReceipt)
    requires |registers| == |steps| < |p.steps| && AskedOk(p, observation, previous, registers, steps)
    requires p.steps[|steps|].kind != EMIT ==> AskedFor(p.steps[|steps|], observation, registers, previous, receipt)
    ensures AskedOk(p, observation, previous, registers + [register], steps + [receipt])
  {
    hide AskedFor;
    var moreRegisters, moreSteps := registers + [register], steps + [receipt];
    forall k | 0 <= k < |moreSteps| && p.steps[k].kind != EMIT
      ensures AskedFor(p.steps[k], observation, moreRegisters[..k], previous, moreSteps[k])
    {
      assert moreRegisters[..k] == registers[..k];
      assert registers[..|registers|] == registers;
    }
  }

  lemma {:induction false} QueryKeeps(p: Program, observation: Id128, previous: Option<seq<Register>>, registers: seq<Register>, steps: seq<StepReceipt>,
                   output: Bytes, maximumOutput: nat, register: Register, receipt: StepReceipt)
    requires ProgramValid(p) && |registers| == |steps| < |p.steps| && p.steps[|steps|].kind != EMIT
    requires RegistersOk(p, registers, steps) && ActsOk(p, steps) && AskedOk(p, observation, previous, registers, steps) && Tiled(steps, output, maximumOutput) && OnlyEmits(p, steps)
    requires register.flags == 0 && register.act == receipt.act.id && register.answer == receipt.act.answer
    requires Zero(register.realization) && Zero(register.materialization)
    requires receipt.outputOffset == |output| && receipt.outputBytes == 0 && AskedFor(p.steps[|steps|], observation, registers, previous, receipt)
    ensures RegistersOk(p, registers + [register], steps + [receipt]) && ActsOk(p, steps + [receipt])
    ensures AskedOk(p, observation, previous, registers + [register], steps + [receipt])
    ensures Tiled(steps + [receipt], output, maximumOutput) && OnlyEmits(p, steps + [receipt]) && Emits(p, |steps| + 1) == Emits(p, |steps|)
  {
    hide ProgramValid, ActsOk, AskedOk, Tiled, AskedFor;
    assert output + [] == output;
    OutputFits(steps, output, maximumOutput);
    TiledAppend(steps, output, maximumOutput, receipt, []);
    ActsAppend(p, steps, receipt);
    AskedAppend(p, observation, previous, registers, steps, register, receipt);
  }

  lemma {:induction false} EmitKeeps(p: Program, observation: Id128, previous: Option<seq<Register>>, registers: seq<Register>, steps: seq<StepReceipt>,
                  output: Bytes, maximumOutput: nat, register: Register, receipt: StepReceipt, part: Bytes)
    requires ProgramValid(p) && |registers| == |steps| < |p.steps| && p.steps[|steps|].kind == EMIT && p.steps[|steps|].anchor.stepIndex < |steps|
    requires RegistersOk(p, registers, steps) && ActsOk(p, steps) && AskedOk(p, observation, previous, registers, steps) && Tiled(steps, output, maximumOutput) && OnlyEmits(p, steps)
    requires register.flags == HAS_REALIZATION && register.act == receipt.act.id && register.answer == receipt.act.answer
    requires receipt.outputOffset == |output| && receipt.outputBytes == |part| && |output| + |part| <= maximumOutput
    requires ActFrom(receipt, steps[p.steps[|steps|].anchor.stepIndex])
    ensures RegistersOk(p, registers + [register], steps + [receipt]) && ActsOk(p, steps + [receipt])
    ensures AskedOk(p, observation, previous, registers + [register], steps + [receipt])
    ensures Tiled(steps + [receipt], output + part, maximumOutput) && OnlyEmits(p, steps + [receipt]) && Emits(p, |steps| + 1) == Emits(p, |steps|) + 1
  {
    hide ProgramValid, ActsOk, AskedOk, Tiled;
    TiledAppend(steps, output, maximumOutput, receipt, part);
    ActsAppend(p, steps, receipt);
    AskedAppend(p, observation, previous, registers, steps, register, receipt);
  }

  // ----- every reachable history -----

  /** Whatever the services answer, no history of a valid program is blocked for want of
      a binding, and each keeps what the steps promise. */
  lemma {:induction false} ReachedIsSafe(job: Job, h: History)
    requires ProgramValid(job.program) && PredecessorOk(job.program, job.observation, job.previous) && Reached(job, h)
    ensures RegistersOk(job.program, h.registers, h.steps) && ActsOk(job.program, h.steps)
    ensures AskedOk(job.program, job.observation, job.previous, h.registers, h.steps)
    ensures Tiled(h.steps, h.output, job.maximumOutput) && OnlyEmits(job.program, h.steps)
    ensures |h.steps| < |job.program.steps| ==> NextOf(job, h) !in {Blocked(BindingAbsent), Blocked(InvalidProgram), Blocked(Cancelled), Blocked(Finished)}
    decreases |h.steps|
  {
    hide Resolve, StepValid, RegistersOk, ActsOk, AskedOk, AskedFor, Tiled, OnlyEmits, PredecessorOk, ProgramValid, Reached, NextOf, Left;
    if h.steps == [] {
      NothingYet(job, h);
    } else {
      var n := |h.steps| - 1;
      var past := LastStep(job, h);
      ReachedIsSafe(job, past);
      StepIsSafe(job, past, h.registers[n], h.steps[n], h.output[h.steps[n].outputOffset..]);
    }
    ReachedSizes(job, h);
    if |h.steps| < |job.program.steps| {
      NotAbsent(job, h);
    }
  }

  lemma NothingReached(job: Job, h: History)
    requires h == History([], [], [])
    ensures Reached(job, h)
  {
  }

  lemma ReachedSizes(job: Job, h: History)
    requires Reached(job, h)
    ensures |h.registers| == |h.steps| <= |job.program.steps|
  {
  }

  /** What the steps have spent, and how many they are. */
  ghost function SpentBy(steps: seq<StepReceipt>): (totals: Totals)
    ensures totals.completedSteps == |steps|
  {
    if steps == [] then Totals(0, 0, 0, 0, 0, 0, 0) else Summed(SpentBy(steps[..|steps| - 1]), steps[|steps| - 1].usage)
  }

  /** Every reachable history accounts for the grant: what its steps spent and what is
      left make up the limits, wherever the run then stops. */
  lemma {:induction false} ReachedConserves(job: Job, h: History)
    requires Reached(job, h)
    ensures Conserved(job.limits, Left(job.limits, h.steps), SpentBy(h.steps))
    decreases |h.steps|
  {
    hide NextOf, Reached;
    if h.steps != [] {
      var past := LastStep(job, h);
      ReachedConserves(job, past);
      StepAffordable(job, past);
      assert h.steps[..|h.steps| - 1] == past.steps;
    }
  }

  lemma StepAffordable(job: Job, h: History)
    requires |h.registers| == |h.steps| < |job.program.steps| && NextOf(job, h).Did?
    ensures Covers(Left(job.limits, h.steps), NextOf(job, h).receipt.usage)
  {
    hide Left, Resolve;
  }

  /** The registers of a history make a checkpoint that the next run accepts, exactly
      when there is a step and every act has an identity. */
  lemma CheckpointAccepted(job: Job, h: History)
    requires ProgramValid(job.program) && PredecessorOk(job.program, job.observation, job.previous) && Reached(job, h)
    requires |h.registers| < U32_LIMIT
    ensures Holds(Section(h.registers), h.registers) <==> h.steps != [] && forall k | 0 <= k < |h.steps| :: !Zero(h.steps[k].act.id)
    ensures forall decoded :: Holds(Section(h.registers), decoded) ==> decoded == h.registers
  {
    hide Holds, Section, ProgramValid, PredecessorOk, Reached, ActsOk, AskedOk, Tiled, OnlyEmits, Zero;
    ReachedIsSafe(job, h);
    ReachedSizes(job, h);
    RegistersRoundTrip(h.registers);
    if Holds(Section(h.registers), h.registers) {
      forall k | 0 <= k < |h.steps|
        ensures !Zero(h.steps[k].act.id)
      {
        assert RegisterOk(h.registers[k]);
      }
    }
  }

  lemma NothingYet(job: Job, h: History)
    requires ProgramValid(job.program) && Reached(job, h) && h.steps == []
    ensures RegistersOk(job.program, h.registers, h.steps) && ActsOk(job.program, h.steps)
    ensures AskedOk(job.program, job.observation, job.previous, h.registers, h.steps)
    ensures Tiled(h.steps, h.output, job.maximumOutput) && OnlyEmits(job.program, h.steps)
  {
  }

  lemma LastStep(job: Job, h: History) returns (past: History)
    requires Reached(job, h) && h.steps != []
    ensures |h.registers| == |h.steps| <= |job.program.steps| && h.steps[|h.steps| - 1].outputOffset <= |h.output|
    ensures Reached(job, past) && |past.registers| == |past.steps| == |h.steps| - 1
    ensures var n := |h.steps| - 1;
      && NextOf(job, past) == Did(h.registers[n], h.steps[n], h.output[h.steps[n].outputOffset..])
      && h == History(past.registers + [h.registers[n]], past.steps + [h.steps[n]], past.output + h.output[h.steps[n].outputOffset..])
  {
    hide NextOf;
    past := Before(h);
  }

  lemma StepIsSafe(job: Job, h: History, register: Register, receipt: StepReceipt, part: Bytes)
    requires ProgramValid(job.program) && |h.registers| == |h.steps| < |job.program.steps| && NextOf(job, h) == Did(register, receipt, part)
    requires RegistersOk(job.program, h.registers, h.steps) && ActsOk(job.program, h.steps)
    requires AskedOk(job.program, job.observation, job.previous, h.registers, h.steps)
    requires Tiled(h.steps, h.output, job.maximumOutput) && OnlyEmits(job.program, h.steps)
    ensures RegistersOk(job.program, h.registers + [register], h.steps + [receipt]) && ActsOk(job.program, h.steps + [receipt])
    ensures AskedOk(job.program, job.observation, job.previous, h.registers + [register], h.steps + [receipt])
    ensures Tiled(h.steps + [receipt], h.output + part, job.maximumOutput) && OnlyEmits(job.program, h.steps + [receipt])
  {
    hide Resolve, StepValid, RegistersOk, ActsOk, AskedOk, Tiled, OnlyEmits, ProgramValid, Left, Covers;
    if job.program.steps[|h.steps|].kind == EMIT {
      EmitKeeps(job.program, job.observation, job.previous, h.registers, h.steps, h.output, job.maximumOutput, register, receipt, part);
    } else {
      assert h.output + part == h.output;
      QueryKeeps(job.program, job.observation, job.previous, h.registers, h.steps, h.output, job.maximumOutput, register, receipt);
    }
  }

  lemma NotAbsent(job: Job, h: History)
    requires ProgramValid(job.program) && PredecessorOk(job.program, job.observation, job.previous)
    requires |h.registers| == |h.steps| < |job.program.steps|
    requires RegistersOk(job.program, h.registers, h.steps) && Tiled(h.steps, h.output, job.maximumOutput)
    ensures NextOf(job, h) !in {Blocked(BindingAbsent), Blocked(InvalidProgram), Blocked(Cancelled), Blocked(Finished)}
  {
    hide Resolve, StepValid, RegistersOk, PredecessorOk, ProgramValid, Left, Covers, Tiled;
    if job.program.steps[|h.steps|].kind == EMIT {
      EmitAnchor(job.program, |h.steps|);
      OutputFits(h.steps, h.output, job.maximumOutput);
    } else {
      BindingsResolve(job.program, job.observation, job.previous, h.registers, h.steps);
    }
  }

  /** Where a run is blocked is settled too: no longer history is reached, and no other
      outcome. */
  lemma BlockedOnce(job: Job, h: History, other: History)
    requires Reached(job, h) && |h.steps| < |job.program.steps| && NextOf(job, h).Blocked?
    requires Reached(job, other)
    ensures |other.steps| <= |h.steps|
    ensures |other.steps| < |job.program.steps| && NextOf(job, other).Blocked? ==> other == h
  {
    hide NextOf, Reached;
    NotLonger(job, h, other);
    ReachedSizes(job, other);
    if |other.steps| < |job.program.steps| && NextOf(job, other).Blocked? {
      NotLonger(job, other, h);
      ReachedOnce(job, h, other);
    }
  }

  lemma {:induction false} NotLonger(job: Job, blocked: History, h: History)
    requires Reached(job, blocked) && |blocked.steps| < |job.program.steps| && NextOf(job, blocked).Blocked?
    requires Reached(job, h)
    ensures |h.steps| <= |blocked.steps|
    decreases |h.steps|
  {
    hide NextOf, Reached;
    if |h.steps| > |blocked.steps| {
      var past := LastStep(job, h);
      NotLonger(job, blocked, past);
      ReachedOnce(job, blocked, past);
      assert false;
    }
  }

  // ----- a whole execution -----

  /** The check of every predecessor binding before the first query. */
  method CheckPredecessor(p: Program, observation: Id128, previous: Option<seq<Register>>) returns (ok: bool)
    ensures ok <==> PredecessorOk(p, observation, previous)
  {
    hide Resolve;
    for i := 0 to |p.steps|
      invariant forall j | 0 <= j < i ::
        (FromPrevious(p.steps[j].anchor) ==> Resolve(p.steps[j].anchor, observation, [], previous).Some?)
        && (FromPrevious(p.steps[j].goal) ==> Resolve(p.steps[j].goal, observation, [], previous).Some?)
    {
      var anchor, goal := p.steps[i].anchor, p.steps[i].goal;
      if (FromPrevious(anchor) && Resolve(anchor, observation, [], previous).None?)
         || (FromPrevious(goal) && Resolve(goal, observation, [], previous).None?) {
        return false;
      }
    }
    ok := true;
  }

  /** Runs a job. A binding is found absent before any service is asked, or not at all;
      a finished run leaves a complete machine; any other end is a cancellation or the
      outcome of the step that the history it reached is blocked at. */
  method Execute(job: Job) returns (outcome: Outcome, machine: Machine?, ghost reached: History)
    requires |job.program.steps| < U32_LIMIT
    ensures outcome == Finished <==> machine != null
    ensures machine != null ==> fresh(machine) && machine.Valid() && machine.job == job && |machine.steps| == |job.program.steps|
    ensures outcome == InvalidProgram <==> !job.environment.cancelled(0) && !ProgramValid(job.program)
    ensures outcome == BindingAbsent <==> !job.environment.cancelled(0) && ProgramValid(job.program) && !PredecessorOk(job.program, job.observation, job.previous)
    ensures outcome == Cancelled ==> exists i: nat :: job.environment.cancelled(i)
    ensures outcome in {LimitReached, CognitionFailure, Incomplete, Ambiguous, RealizationFailure, MaterializationFailure} ==>
      Reached(job, reached) && |reached.steps| < |job.program.steps| && NextOf(job, reached) == Blocked(outcome)
    ensures Reached(job, reached) && Conserved(job.limits, Left(job.limits, reached.steps), SpentBy(reached.steps))
    ensures machine != null ==> reached == machine.Past() && machine.remaining == Left(job.limits, reached.steps)
  {
    hide ProgramValid, PredecessorOk, NextOf, Reached;
    machine, reached := null, History([], [], []);
    NothingReached(job, reached);
    ReachedConserves(job, reached);
    if job.environment.cancelled(0) {
      return Cancelled, null, reached;
    }
    var valid, bytes := ProgramBytes(job.program);
    if !valid {
      return InvalidProgram, null, reached;
    }
    var bound := CheckPredecessor(job.program, job.observation, job.previous);
    if !bound {
      return BindingAbsent, null, reached;
    }
    var running := new Machine(job);
    outcome := running.Run();
    reached := running.Past();
    ReachedConserves(job, reached);
    if outcome == Finished {
      machine := running;
    }
  }
}
