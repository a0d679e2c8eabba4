/** What a run has done, said of its history step by step: what each step asked, what the
    services answered, and what is left of every allowance. */
module FirmwareMeaning {
  import opened Options
  import opened Octets
  import opened WireFormat
  import opened FirmwareProgram
  import opened FirmwareRegisters
  import opened FirmwareExecutor

  // ----- the programs that are accepted -----

  /** A binding of step k: nothing (only a goal may be), the observation, the answer of an
      earlier step, the realization of an earlier EMIT, or a register of the predecessor. */
  ghost predicate BindingLaw(p: Program, k: nat, b: Binding, goal: bool) {
    match b.source as int
    case 0 => goal && b.stepIndex == 0
    case 1 => b.stepIndex == 0
    case 2 => b.stepIndex < k
    case 3 => b.stepIndex < k && b.stepIndex < |p.steps| && p.steps[b.stepIndex].kind == 3
    case s => s == 4 || s == 5
  }

  /** Steps ask (kinds 1 and 2) about some of the six relations and carry no policy, or
      emit (kind 3) the answer of an earlier step, as UTF-8 or octets, by a policy whose
      language and register are given exactly when flagged. */
  ghost predicate StepLaw(p: Program, k: nat)
    requires k < |p.steps|
  {
    var s := p.steps[k];
    var r := s.realization;
    && BindingLaw(p, k, s.anchor, false) && BindingLaw(p, k, s.goal, true) && s.reserved == 0
    && Zero(r.evidenceEpoch) && Zero(r.contextFingerprint)
    && if s.kind == 3 then
         && s.anchor.source == 2 && s.goal.source == 0 && s.relationMask == 0 && s.outputEncoding <= 1
         && r.version == 1 && r.maximumCandidates >= 1 && !Zero(r.modality) && !Zero(r.recipeEpoch)
         && (r.flags == 0 || r.flags == 1 || r.flags == 2 || r.flags == 3)
         && (Zero(r.language) <==> r.flags == 0 || r.flags == 2) && (Zero(r.register) <==> r.flags == 0 || r.flags == 1)
       else
         && (s.kind == 1 || s.kind == 2) && 1 <= s.relationMask < 64 && s.outputEncoding == 0
         && r.version == 0 && r.maximumCandidates == 0 && r.flags == 0
         && Zero(r.modality) && Zero(r.language) && Zero(r.register) && Zero(r.recipeEpoch)
  }

  lemma StepExactly(p: Program, k: nat)
    requires k < |p.steps|
    ensures StepValid(p.steps, k) <==>
      StepLaw(p, k) && (k == 0 ==> p.steps[0].kind == 1 && p.steps[0].anchor.source == 1 && p.steps[0].goal.source == 0)
  {
    hide Zero;
  }

  /** The programs that are accepted: the first step interprets the whole observation, every
      step is in order, and something is emitted. */
  lemma ProgramExactly(p: Program)
    ensures ProgramValid(p) <==>
      && p.version == 1 && 1 <= |p.steps| < 0x1_0000_0000
      && p.steps[0].kind == 1 && p.steps[0].anchor.source == 1 && p.steps[0].goal.source == 0
      && (forall k | 0 <= k < |p.steps| :: StepLaw(p, k)) && (exists k | 0 <= k < |p.steps| :: p.steps[k].kind == 3)
  {
    hide StepLaw, StepValid;
    forall k | 0 <= k < |p.steps|
      ensures StepValid(p.steps, k) <==>
        StepLaw(p, k) && (k == 0 ==> p.steps[0].kind == 1 && p.steps[0].anchor.source == 1 && p.steps[0].goal.source == 0)
    {
      StepExactly(p, k);
    }
    if p.steps != [] {
      StepExactly(p, 0);
    }
  }

  /** The history when step k was about to run. */
  ghost function Earlier(h: History, k: nat): History
    requires |h.registers| == |h.steps| && k <= |h.steps| && (k < |h.steps| ==> h.steps[k].outputOffset <= |h.output|)
  {
    if k == |h.steps| then h else History(h.registers[..k], h.steps[..k], h.output[..h.steps[k].outputOffset])
  }

  lemma EarlierAppend(h: History, register: Register, receipt: StepReceipt, part: Bytes, k: nat)
    requires |h.registers| == |h.steps| && k <= |h.steps| && receipt.outputOffset == |h.output|
    requires forall j | 0 <= j < |h.steps| :: h.steps[j].outputOffset <= |h.output|
    ensures Earlier(History(h.registers + [register], h.steps + [receipt], h.output + part), k) == Earlier(h, k)
  {
    var after := History(h.registers + [register], h.steps + [receipt], h.output + part);
    assert after.registers[..k] == h.registers[..k] && after.steps[..k] == h.steps[..k];
    if k < |h.steps| {
      assert after.output[..h.steps[k].outputOffset] == h.output[..h.steps[k].outputOffset];
    } else {
      assert h.registers[..k] == h.registers && h.steps[..k] == h.steps && after.output[..|h.output|] == h.output;
    }
  }

  ghost predicate OffsetsWithin(h: History) {
    |h.registers| == |h.steps| && forall k | 0 <= k < |h.steps| :: h.steps[k].outputOffset + h.steps[k].outputBytes <= |h.output|
  }

  /** Step k did what the services answered to the history before it. */
  ghost predicate DidStep(job: Job, h: History, k: nat)
    requires OffsetsWithin(h) && k < |h.steps|
  {
    && k < |job.program.steps| && Reached(job, Earlier(h, k))
    && NextOf(job, Earlier(h, k)) ==
         Did(h.registers[k], h.steps[k], h.output[h.steps[k].outputOffset..h.steps[k].outputOffset + h.steps[k].outputBytes])
  }

  lemma NextSized(job: Job, h: History)
    requires |h.registers| == |h.steps| < |job.program.steps| && NextOf(job, h).Did?
    ensures NextOf(job, h).receipt.outputOffset == |h.output| && NextOf(job, h).receipt.outputBytes == |NextOf(job, h).part|
  {
    hide Resolve, Enough, Left, Covers;
  }

  ghost function Longer(h: History, next: Progress): History
    requires next.Did?
  {
    History(h.registers + [next.register], h.steps + [next.receipt], h.output + next.part)
  }

  lemma OffsetsGrow(h: History, next: Progress)
    requires OffsetsWithin(h) && next.Did? && next.receipt.outputOffset == |h.output| && next.receipt.outputBytes == |next.part|
    ensures OffsetsWithin(Longer(h, next))
  {
  }

  lemma DidStays(job: Job, h: History, next: Progress, k: nat)
    requires OffsetsWithin(h) && next.Did? && next.receipt.outputOffset == |h.output| && next.receipt.outputBytes == |next.part|
    requires k < |h.steps| && DidStep(job, h, k)
    ensures OffsetsWithin(Longer(h, next)) && DidStep(job, Longer(h, next), k)
  {
    hide NextOf, Reached, Earlier;
    OffsetsGrow(h, next);
    EarlierAppend(h, next.register, next.receipt, next.part, k);
    var first, last := h.steps[k].outputOffset, h.steps[k].outputOffset + h.steps[k].outputBytes;
    assert Longer(h, next).output[first..last] == h.output[first..last];
  }

  lemma DidLast(job: Job, h: History, next: Progress)
    requires OffsetsWithin(h) && next.Did? && next.receipt.outputOffset == |h.output| && next.receipt.outputBytes == |next.part|
    requires |h.steps| < |job.program.steps| && Reached(job, h) && NextOf(job, h) == next
    ensures OffsetsWithin(Longer(h, next)) && DidStep(job, Longer(h, next), |h.steps|)
  {
    hide NextOf, Reached;
    OffsetsGrow(h, next);
    EarlierAppend(h, next.register, next.receipt, next.part, |h.steps|);
    assert Longer(h, next).output[|h.output|..|h.output| + |next.part|] == next.part;
  }

  lemma {:induction false} EveryStepDid(job: Job, h: History)
    requires Reached(job, h)
    ensures OffsetsWithin(h) && forall k | 0 <= k < |h.steps| :: DidStep(job, h, k)
    decreases |h.steps|
  {
    hide NextOf, Reached, DidStep;
    ReachedSizes(job, h);
    if h.steps != [] {
      var past := LastStep(job, h);
      var next := NextOf(job, past);
      EveryStepDid(job, past);
      NextSized(job, past);
      assert h == Longer(past, next);
      OffsetsGrow(past, next);
      forall k | 0 <= k < |h.steps|
        ensures DidStep(job, h, k)
      {
        if k < |past.steps| {
          DidStays(job, past, next, k);
        } else {
          DidLast(job, past, next);
        }
      }
    }
  }

  // ----- what a step asks -----

  /** What a binding stands for when step k runs: 1 is the observation, 2 the answer of an
      earlier step, 3 the content the emission service returned at an earlier step, 4 an
      answer and 5 a realization of the predecessor. */
  ghost predicate Means(job: Job, h: History, k: nat, b: Binding, value: Id128)
    requires OffsetsWithin(h) && k <= |h.steps|
  {
    if b.source == 1 then value == job.observation
    else if b.source == 2 then b.stepIndex < k && value == h.steps[b.stepIndex].act.answer
    else if b.source == 3 then b.stepIndex < k && Returned(job, h, b.stepIndex, value)
    else
      && (b.source == 4 || b.source == 5) && job.previous.Some? && b.stepIndex < |job.previous.value|
      && var register := job.previous.value[b.stepIndex];
         if b.source == 4 then value == register.answer else register.flags % 2 == 1 && value == register.realization
  }

  /** The emission service returned this content at step k. */
  ghost predicate Returned(job: Job, h: History, k: nat, content: Id128)
    requires OffsetsWithin(h) && k < |h.steps|
  {
    && h.steps[k].outputOffset <= job.maximumOutput
    && var emission := job.environment.emission(Earlier(h, k), h.steps[k].act, job.maximumOutput - h.steps[k].outputOffset);
       emission.Emitted? && emission.content == content
  }

  ghost predicate EnoughLeft(left: Usage) {
    && left.layers >= 1 && left.providerCalls >= 2 && left.candidateOperations >= 1 && left.resolutions >= 1
    && left.resourceCost >= 1 && left.ioOperations >= 1 && left.databaseOperations >= 1
  }

  /** The cognition service was asked about what the bindings mean, with enough left, and
      answered with one act. */
  ghost predicate QueryMeans(job: Job, h: History, k: nat)
    requires OffsetsWithin(h) && k < |h.steps| && k < |job.program.steps|
  {
    var step, s, register, left := job.program.steps[k], h.steps[k], h.registers[k], Left(job.limits, h.steps[..k]);
    && Means(job, h, k, step.anchor, s.anchor)
    && (if step.goal.source == 0 then s.goal == None else s.goal.Some? && Means(job, h, k, step.goal, s.goal.value))
    && EnoughLeft(left) && Covers(left, s.usage)
    && job.environment.cognition(Earlier(h, k), s.anchor, s.goal, left) == Completed(s.usage, Selected(s.act, 1))
    && register.flags == 0 && register.answer == s.act.answer && register.act == s.act.id
    && Zero(register.realization) && Zero(register.materialization) && s.outputBytes == 0
  }

  /** The emission service was asked about the act of the step named, within the room that
      was left, and what it returned is in the register and in the output. */
  ghost predicate EmitMeans(job: Job, h: History, k: nat)
    requires OffsetsWithin(h) && k < |h.steps| && k < |job.program.steps|
  {
    var step, s, register := job.program.steps[k], h.steps[k], h.registers[k];
    && step.anchor.stepIndex < k && s.outputOffset + s.outputBytes <= job.maximumOutput
    && var source := h.steps[step.anchor.stepIndex];
    && s.act == source.act && s.anchor == source.anchor && s.goal == source.goal && s.usage == Usage(0, 0, 0, 0, 0, 0, 0, 0)
    && register.flags == 1 && register.answer == s.act.answer && register.act == s.act.id
    && job.environment.emission(Earlier(h, k), s.act, job.maximumOutput - s.outputOffset) ==
         Emitted(register.realization, register.materialization, h.output[s.outputOffset..s.outputOffset + s.outputBytes])
  }

  lemma RegisterAt(job: Job, h: History, j: nat)
    requires OffsetsWithin(h) && j < |h.steps| && DidStep(job, h, j)
    ensures h.registers[j].answer == h.steps[j].act.answer
    ensures job.program.steps[j].kind == 3 ==> h.registers[j].flags == 1 && Returned(job, h, j, h.registers[j].realization)
    ensures job.program.steps[j].kind != 3 ==> h.registers[j].flags == 0
  {
    hide Resolve, Enough, Left, Covers, Reached;
  }

  lemma ResolvedMeans(job: Job, h: History, k: nat, b: Binding, value: Id128)
    requires OffsetsWithin(h) && k <= |h.steps| && k < |job.program.steps| && forall j | 0 <= j < k :: DidStep(job, h, j)
    requires BindingValid(b, k, job.program.steps, true) && b.source != 0
    requires Resolve(b, job.observation, h.registers[..k], job.previous) == Some(value)
    ensures Means(job, h, k, b, value)
  {
    hide DidStep, Returned;
    if b.source == 2 || b.source == 3 {
      RegisterAt(job, h, b.stepIndex);
    }
  }

  lemma QueryDid(job: Job, h: History, k: nat)
    requires OffsetsWithin(h) && k < |h.steps| && DidStep(job, h, k) && job.program.steps[k].kind != 3
    ensures var step, s, register, left := job.program.steps[k], h.steps[k], h.registers[k], Left(job.limits, h.steps[..k]);
      && Resolve(step.anchor, job.observation, h.registers[..k], job.previous) == Some(s.anchor)
      && (if step.goal.source == 0 then s.goal == None else s.goal.Some? && Resolve(step.goal, job.observation, h.registers[..k], job.previous) == s.goal)
      && EnoughLeft(left) && Covers(left, s.usage)
      && job.environment.cognition(Earlier(h, k), s.anchor, s.goal, left) == Completed(s.usage, Selected(s.act, 1))
      && register.flags == 0 && register.answer == s.act.answer && register.act == s.act.id
      && Zero(register.realization) && Zero(register.materialization) && s.outputBytes == 0
  {
    hide Resolve, Left, Covers, Reached;
  }

  lemma EmitDid(job: Job, h: History, k: nat)
    requires OffsetsWithin(h) && k < |h.steps| && DidStep(job, h, k) && job.program.steps[k].kind == 3
    ensures EmitMeans(job, h, k)
  {
    hide Resolve, Left, Covers, Reached;
  }

  /** Every step of every history a valid program reaches: what it asked, in terms of the
      observation, of earlier answers and emissions and of the predecessor, and what came
      of it. */
  lemma StepMeans(job: Job, h: History, k: nat)
    requires ProgramValid(job.program) && Reached(job, h) && k < |h.steps|
    ensures OffsetsWithin(h) && k < |job.program.steps|
    ensures if job.program.steps[k].kind == 3 then EmitMeans(job, h, k) else QueryMeans(job, h, k)
  {
    hide Resolve, Reached, DidStep, Means, EmitMeans, ProgramValid, Covers, Left;
    EveryStepDid(job, h);
    ReachedSizes(job, h);
    if job.program.steps[k].kind == 3 {
      EmitDid(job, h, k);
    } else {
      QueryDid(job, h, k);
      BindingsValid(job.program, k);
      ResolvedMeans(job, h, k, job.program.steps[k].anchor, h.steps[k].anchor);
      if job.program.steps[k].goal.source != 0 {
        ResolvedMeans(job, h, k, job.program.steps[k].goal, h.steps[k].goal.value);
      }
    }
  }

  lemma BindingsValid(p: Program, k: nat)
    requires ProgramValid(p) && k < |p.steps|
    ensures BindingValid(p.steps[k].anchor, k, p.steps, true) && p.steps[k].anchor.source != 0 && BindingValid(p.steps[k].goal, k, p.steps, true)
  {
    assert StepValid(p.steps, k);
  }

  /** The predecessor has the register, and a realization in it if that is asked for. */
  ghost predicate Available(b: Binding, previous: Option<seq<Register>>) {
    b.source == 4 || b.source == 5 ==>
      && previous.Some? && b.stepIndex < |previous.value|
      && (b.source == 5 ==> previous.value[b.stepIndex].flags % 2 == 1)
  }

  /** A run finds no binding absent exactly when the predecessor has what every binding
      to it asks for. */
  lemma PredecessorExactly(p: Program, observation: Id128, previous: Option<seq<Register>>)
    ensures PredecessorOk(p, observation, previous) <==>
      forall i | 0 <= i < |p.steps| :: Available(p.steps[i].anchor, previous) && Available(p.steps[i].goal, previous)
  {
    forall i | 0 <= i < |p.steps|
      ensures (FromPrevious(p.steps[i].anchor) ==> Resolve(p.steps[i].anchor, observation, [], previous).Some?) <==> Available(p.steps[i].anchor, previous)
      ensures (FromPrevious(p.steps[i].goal) ==> Resolve(p.steps[i].goal, observation, [], previous).Some?) <==> Available(p.steps[i].goal, previous)
    {
    }
    hide Resolve, Available;
  }

  // ----- where a run is blocked -----

  /** Why a query is blocked, by what is left and what the service answers when asked what
      the bindings mean. */
  ghost predicate QueryBlocked(job: Job, h: History, anchor: Id128, goal: Option<Id128>, outcome: Outcome)
    requires OffsetsWithin(h) && |h.steps| < |job.program.steps|
  {
    var step, left := job.program.steps[|h.steps|], Left(job.limits, h.steps);
    && Means(job, h, |h.steps|, step.anchor, anchor)
    && (if step.goal.source == 0 then goal == None else goal.Some? && Means(job, h, |h.steps|, step.goal, goal.value))
    && if !EnoughLeft(left) then outcome == LimitReached
       else
         match job.environment.cognition(h, anchor, goal, left)
         case CognitionFails => outcome == CognitionFailure
         case Completed(usage, selection) =>
           if !Covers(left, usage) then outcome == LimitReached
           else if selection.NotSelected? then outcome == Incomplete
           else selection.answerCount != 1 && outcome == Ambiguous
  }

  /** A run is blocked at a query for the first of these reasons, and at an EMIT when the
      act is not realized, when there is no room, or when it is not materialized. */
  lemma BlockedMeans(job: Job, h: History, outcome: Outcome)
    requires ProgramValid(job.program) && PredecessorOk(job.program, job.observation, job.previous)
    requires Reached(job, h) && |h.steps| < |job.program.steps| && NextOf(job, h) == Blocked(outcome)
    ensures OffsetsWithin(h) && |h.output| <= job.maximumOutput
    ensures var k, step := |h.steps|, job.program.steps[|h.steps|];
      if step.kind == 3 then
        && step.anchor.stepIndex < k
        && var room := job.maximumOutput - |h.output|;
           match job.environment.emission(h, h.steps[step.anchor.stepIndex].act, room)
           case NotRealized => outcome == RealizationFailure
           case NotMaterialized => outcome == if room == 0 then LimitReached else MaterializationFailure
           case Emitted(_, _, part) => (room == 0 || |part| > room) && outcome == LimitReached
      else
        exists anchor: Id128, goal: Option<Id128> :: QueryBlocked(job, h, anchor, goal, outcome)
  {
    hide Resolve, Left, Covers, Reached, RegistersOk, ActsOk, AskedOk, Tiled, OnlyEmits, ProgramValid, PredecessorOk, DidStep, Means;
    EveryStepDid(job, h);
    ReachedIsSafe(job, h);
    ReachedSizes(job, h);
    OutputFits(h.steps, h.output, job.maximumOutput);
    var step := job.program.steps[|h.steps|];
    if step.kind != 3 {
      BindingsResolve(job.program, job.observation, job.previous, h.registers, h.steps);
      var anchor := Resolve(step.anchor, job.observation, h.registers, job.previous);
      var goal := if step.goal.source == NO_BINDING then None else Resolve(step.goal, job.observation, h.registers, job.previous);
      BindingsValid(job.program, |h.steps|);
      assert h.registers[..|h.steps|] == h.registers;
      ResolvedMeans(job, h, |h.steps|, step.anchor, anchor.value);
      if step.goal.source != 0 {
        ResolvedMeans(job, h, |h.steps|, step.goal, goal.value);
      }
      assert QueryBlocked(job, h, anchor.value, goal, outcome);
    }
  }

  // ----- what is left -----

  ghost function SpentOn(steps: seq<StepReceipt>, amount: Usage -> nat): nat {
    if steps == [] then 0 else SpentOn(steps[..|steps| - 1], amount) + amount(steps[|steps| - 1].usage)
  }

  /** For each of the eight allowances, what the steps used and what is left make up the
      grant. */
  lemma {:induction false} EveryAllowance(job: Job, h: History)
    requires Reached(job, h)
    ensures var left, steps := Left(job.limits, h.steps), h.steps;
      && left.layers + SpentOn(steps, (u: Usage) => u.layers) == job.limits.layers
      && left.providerCalls + SpentOn(steps, (u: Usage) => u.providerCalls) == job.limits.providerCalls
      && left.projectedQueries + SpentOn(steps, (u: Usage) => u.projectedQueries) == job.limits.projectedQueries
      && left.candidateOperations + SpentOn(steps, (u: Usage) => u.candidateOperations) == job.limits.candidateOperations
      && left.resolutions + SpentOn(steps, (u: Usage) => u.resolutions) == job.limits.resolutions
      && left.resourceCost + SpentOn(steps, (u: Usage) => u.resourceCost) == job.limits.resourceCost
      && left.ioOperations + SpentOn(steps, (u: Usage) => u.ioOperations) == job.limits.ioOperations
      && left.databaseOperations + SpentOn(steps, (u: Usage) => u.databaseOperations) == job.limits.databaseOperations
    decreases |h.steps|
  {
    hide NextOf, Reached;
    if h.steps != [] {
      var past := LastStep(job, h);
      EveryAllowance(job, past);
      StepAffordable(job, past);
      assert h.steps[..|h.steps| - 1] == past.steps;
    }
  }
}
