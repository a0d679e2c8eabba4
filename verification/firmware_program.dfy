/** Firmware programs: what the validator accepts, and the image every valid program has. */
module FirmwareProgram {
  import opened Octets
  import opened WireFormat

  const VERSION: U32 := 1
  const NO_BINDING: U32 := 0
  const OBSERVATION: U32 := 1
  const ANSWER: U32 := 2
  const REALIZATION: U32 := 3
  const PREVIOUS_ANSWER: U32 := 4
  const PREVIOUS_REALIZATION: U32 := 5
  const INTERPRET: U32 := 1
  const EMIT: U32 := 3
  const RELATION_MASK: U32 := 63
  const OUTPUT_OCTETS: U32 := 1
  const REALIZATION_VERSION: U32 := 1
  const LANGUAGE_PRESENT: U32 := 1
  const REGISTER_PRESENT: U32 := 2
  const HEADER_BYTES: nat := 8
  const STEP_BYTES: nat := 120

  predicate Zero(s: Bytes) {
    forall i | 0 <= i < |s| :: s[i] == 0
  }

  datatype Binding = Binding(source: U32, stepIndex: U32)

  datatype Realization = Realization(modality: Id128, language: Id128, register: Id128, evidenceEpoch: Digest256,
                                     recipeEpoch: Digest256, contextFingerprint: Digest256,
                                     maximumCandidates: U32, flags: U32, version: U32)

  datatype Step = Step(anchor: Binding, goal: Binding, realization: Realization, kind: U32, relationMask: U32, outputEncoding: U32, reserved: U32)

  datatype Program = Program(steps: seq<Step>, version: U32)

  // ----- validity -----

  predicate BindingValid(b: Binding, index: nat, steps: seq<Step>, optional: bool)
    requires index < |steps|
  {
    if b.source == NO_BINDING then optional && b.stepIndex == 0
    else if b.source == OBSERVATION then b.stepIndex == 0
    else if b.source == ANSWER then b.stepIndex < index
    else if b.source == REALIZATION then b.stepIndex < index && steps[b.stepIndex].kind == EMIT
    else b.source == PREVIOUS_ANSWER || b.source == PREVIOUS_REALIZATION
  }

  /** The realization policy an EMIT has to carry. Language and register are present
      exactly when flagged. */
  predicate PolicyValid(r: Realization) {
    && r.version == REALIZATION_VERSION && r.maximumCandidates != 0 && r.flags <= LANGUAGE_PRESENT + REGISTER_PRESENT
    && Zero(r.evidenceEpoch) && Zero(r.contextFingerprint) && !Zero(r.modality) && !Zero(r.recipeEpoch)
    && (r.flags % 2 == 1 <==> !Zero(r.language)) && (r.flags / 2 % 2 == 1 <==> !Zero(r.register))
  }

  predicate PolicyAbsent(r: Realization) {
    && r.version == 0 && r.flags == 0 && r.maximumCandidates == 0 && Zero(r.modality) && Zero(r.language) && Zero(r.register)
    && Zero(r.evidenceEpoch) && Zero(r.recipeEpoch) && Zero(r.contextFingerprint)
  }

  predicate StepValid(steps: seq<Step>, i: nat)
    requires i < |steps|
  {
    var s := steps[i];
    && s.reserved == 0 && BindingValid(s.anchor, i, steps, false) && BindingValid(s.goal, i, steps, true)
    && INTERPRET <= s.kind <= EMIT && (s.kind != EMIT ==> s.relationMask != 0) && s.relationMask <= RELATION_MASK
    && (i == 0 ==> s.kind == INTERPRET && s.anchor.source == OBSERVATION && s.goal.source == NO_BINDING)
    && if s.kind == EMIT then
         s.outputEncoding <= OUTPUT_OCTETS && PolicyValid(s.realization) && s.relationMask == 0
         && s.anchor.source == ANSWER && s.goal.source == NO_BINDING
       else s.outputEncoding == 0 && PolicyAbsent(s.realization)
  }

  ghost predicate ProgramValid(p: Program) {
    && p.version == VERSION && 0 < |p.steps| < U32_LIMIT
    && (forall i | 0 <= i < |p.steps| :: StepValid(p.steps, i))
    && exists i | 0 <= i < |p.steps| :: p.steps[i].kind == EMIT
  }

  // ----- bytes -----

  function StepWidths(): (widths: seq<nat>)
    ensures |widths| == 14
  {
    [4, 4, 4, 4, 4, 4, 4, 16, 16, 16, 32, 4, 4, 4]
  }

  function StepParts(s: Step): (parts: seq<Bytes>)
    ensures Shaped(parts, StepWidths())
  {
    var r := s.realization;
    [Put32(s.kind), Put32(s.anchor.source), Put32(s.anchor.stepIndex), Put32(s.goal.source), Put32(s.goal.stepIndex),
     Put32(s.relationMask), Put32(s.outputEncoding), r.modality, r.language, r.register, r.recipeEpoch,
     Put32(r.maximumCandidates), Put32(r.flags), Put32(r.version)]
  }

  predicate StepShaped(parts: seq<Bytes>) {
    && |parts| == 14 && |parts[0]| == |parts[1]| == |parts[2]| == |parts[3]| == |parts[4]| == |parts[5]| == |parts[6]| == 4
    && |parts[7]| == |parts[8]| == |parts[9]| == 16 && |parts[10]| == 32
    && |parts[11]| == |parts[12]| == |parts[13]| == 4
  }

  lemma ShapedStep(parts: seq<Bytes>)
    requires Shaped(parts, StepWidths())
    ensures StepShaped(parts)
  {
    var w := StepWidths();
    assert w[0] == w[1] == w[2] == w[3] == w[4] == w[5] == w[6] == 4;
    assert w[7] == w[8] == w[9] == 16 && w[10] == 32 && w[11] == w[12] == w[13] == 4;
    assert |parts[0]| == w[0] && |parts[1]| == w[1] && |parts[2]| == w[2] && |parts[3]| == w[3] && |parts[4]| == w[4];
    assert |parts[5]| == w[5] && |parts[6]| == w[6] && |parts[7]| == w[7] && |parts[8]| == w[8] && |parts[9]| == w[9];
    assert |parts[10]| == w[10] && |parts[11]| == w[11] && |parts[12]| == w[12] && |parts[13]| == w[13];
  }

  /** The step the parts spell; the fields that are not written are zero. */
  function StepOf(parts: seq<Bytes>): (s: Step)
    requires StepShaped(parts)
  {
    Step(Binding(Get32(parts[1]), Get32(parts[2])), Binding(Get32(parts[3]), Get32(parts[4])),
         Realization(parts[7], parts[8], parts[9], seq(32, _ => 0), parts[10], seq(32, _ => 0), Get32(parts[11]), Get32(parts[12]), Get32(parts[13])),
         Get32(parts[0]), Get32(parts[5]), Get32(parts[6]), 0)
  }

  lemma StepSize()
    ensures Sum(StepWidths()) == STEP_BYTES
  {
    assert Sum([4, 4, 4]) == 12 by {
      assert [4, 4, 4][1..] == [4, 4] && [4, 4][1..] == [4] && [4][1..] == [];
    }
    SumStep(32, [4, 4, 4]);
    SumStep(16, [32, 4, 4, 4]);
    SumStep(16, [16, 32, 4, 4, 4]);
    SumStep(16, [16, 16, 32, 4, 4, 4]);
    SumStep(4, [16, 16, 16, 32, 4, 4, 4]);
    SumStep(4, [4, 16, 16, 16, 32, 4, 4, 4]);
    SumStep(4, [4, 4, 16, 16, 16, 32, 4, 4, 4]);
    SumStep(4, [4, 4, 4, 16, 16, 16, 32, 4, 4, 4]);
    SumStep(4, [4, 4, 4, 4, 16, 16, 16, 32, 4, 4, 4]);
    SumStep(4, [4, 4, 4, 4, 4, 16, 16, 16, 32, 4, 4, 4]);
    SumStep(4, [4, 4, 4, 4, 4, 4, 16, 16, 16, 32, 4, 4, 4]);
  }

  lemma SumStep(w: nat, rest: seq<nat>)
    ensures Sum([w] + rest) == w + Sum(rest)
  {
    assert ([w] + rest)[1..] == rest;
  }

  /** The fields that are not written are zero in every valid step. */
  predicate Unwritten(s: Step) {
    s.reserved == 0 && Zero(s.realization.evidenceEpoch) && Zero(s.realization.contextFingerprint)
  }

  lemma ZeroUnique(s: Bytes, n: nat)
    requires Zero(s) && |s| == n
    ensures s == seq(n, _ => 0)
  {
  }

  lemma PartsStep(parts: seq<Bytes>)
    requires StepShaped(parts)
    ensures Unwritten(StepOf(parts)) && StepParts(StepOf(parts)) == parts
  {
    PutGet32(0, parts[0]);
    PutGet32(0, parts[1]);
    PutGet32(0, parts[2]);
    PutGet32(0, parts[3]);
    PutGet32(0, parts[4]);
    PutGet32(0, parts[5]);
    PutGet32(0, parts[6]);
    PutGet32(0, parts[11]);
    PutGet32(0, parts[12]);
    PutGet32(0, parts[13]);
  }

  lemma StepParsed(s: Step)
    requires Unwritten(s)
    ensures StepShaped(StepParts(s)) && StepOf(StepParts(s)) == s
  {
    hide Put32, Get32, Zero;
    ShapedStep(StepParts(s));
    PutGet32(s.kind, Put32(0));
    PutGet32(s.anchor.source, Put32(0));
    PutGet32(s.anchor.stepIndex, Put32(0));
    PutGet32(s.goal.source, Put32(0));
    PutGet32(s.goal.stepIndex, Put32(0));
    PutGet32(s.relationMask, Put32(0));
    PutGet32(s.outputEncoding, Put32(0));
    PutGet32(s.realization.maximumCandidates, Put32(0));
    PutGet32(s.realization.flags, Put32(0));
    PutGet32(s.realization.version, Put32(0));
    ZeroUnique(s.realization.evidenceEpoch, 32);
    ZeroUnique(s.realization.contextFingerprint, 32);
  }

  function StepBytes(s: Step): (b: Bytes)
    ensures |b| == STEP_BYTES
  {
    StepSize();
    SplitJoin(StepParts(s), StepWidths());
    Join(StepParts(s))
  }

  function ParseStep(b: Bytes): (s: Step)
    requires |b| == STEP_BYTES
  {
    StepSize();
    ShapedStep(Split(b, StepWidths()));
    StepOf(Split(b, StepWidths()))
  }

  /** Parsing undoes writing, and writing undoes parsing. */
  lemma StepRoundTrip(s: Step, b: Bytes)
    requires Unwritten(s) && |b| == STEP_BYTES
    ensures ParseStep(StepBytes(s)) == s
    ensures StepBytes(ParseStep(b)) == b && Unwritten(ParseStep(b))
  {
    hide StepParts, StepOf, Unwritten, StepShaped, Split, Join;
    StepSize();
    SplitJoin(StepParts(s), StepWidths());
    StepParsed(s);
    JoinSplit(b, StepWidths());
    ShapedStep(Split(b, StepWidths()));
    PartsStep(Split(b, StepWidths()));
  }

  ghost function StepsBytes(steps: seq<Step>): (b: Bytes)
    ensures |b| == STEP_BYTES * |steps|
  {
    if steps == [] then [] else StepsBytes(steps[..|steps| - 1]) + StepBytes(steps[|steps| - 1])
  }

  ghost function Encoding(p: Program): (b: Bytes)
    requires |p.steps| < U32_LIMIT
    ensures |b| == HEADER_BYTES + STEP_BYTES * |p.steps|
  {
    Put32(p.version) + Put32(|p.steps|) + StepsBytes(p.steps)
  }

  lemma {:induction false} StepsBytesAt(steps: seq<Step>, i: nat)
    requires i < |steps|
    ensures StepsBytes(steps)[STEP_BYTES * i..STEP_BYTES * i + STEP_BYTES] == StepBytes(steps[i])
  {
    hide StepBytes;
    var n := |steps| - 1;
    var front := StepsBytes(steps[..n]);
    if i < n {
      StepsBytesAt(steps[..n], i);
      assert steps[..n][i] == steps[i];
      assert StepsBytes(steps)[STEP_BYTES * i..STEP_BYTES * i + STEP_BYTES] == front[STEP_BYTES * i..STEP_BYTES * i + STEP_BYTES];
    }
  }

  /** Two programs whose unwritten fields are zero have the same bytes only if they are
      the same. */
  lemma StepsBytesInjective(steps: seq<Step>, other: seq<Step>)
    requires (forall i | 0 <= i < |steps| :: Unwritten(steps[i])) && (forall i | 0 <= i < |other| :: Unwritten(other[i]))
    requires StepsBytes(steps) == StepsBytes(other)
    ensures steps == other
  {
    hide StepsBytes, StepBytes, ParseStep, Unwritten;
    forall i | 0 <= i < |steps|
      ensures steps[i] == other[i]
    {
      StepsBytesAt(steps, i);
      StepsBytesAt(other, i);
      StepRoundTrip(steps[i], StepBytes(steps[i]));
      StepRoundTrip(other[i], StepBytes(other[i]));
    }
  }

  lemma ValidUnwritten(p: Program)
    requires ProgramValid(p)
    ensures forall i | 0 <= i < |p.steps| :: Unwritten(p.steps[i])
  {
    hide BindingValid, Zero;
    forall i | 0 <= i < |p.steps|
      ensures Unwritten(p.steps[i])
    {
      assert StepValid(p.steps, i);
    }
  }

  lemma EncodingInjective(p: Program, q: Program)
    requires ProgramValid(p) && ProgramValid(q) && Encoding(p) == Encoding(q)
    ensures p == q
  {
    hide StepValid, StepsBytes, Put32, Unwritten;
    ValidUnwritten(p);
    ValidUnwritten(q);
    assert Encoding(p)[HEADER_BYTES..] == StepsBytes(p.steps) && Encoding(q)[HEADER_BYTES..] == StepsBytes(q.steps);
    StepsBytesInjective(p.steps, q.steps);
  }

  // ----- writing and checking -----

  datatype Status = Ok | ProgramInvalid | Limit | ProgramMismatch | InvalidArgument

  /** Validates the dependency graph while writing the bytes. */
  method ProgramBytes(p: Program) returns (ok: bool, b: Bytes)
    requires |p.steps| < U32_LIMIT
    ensures ok <==> ProgramValid(p)
    ensures ok ==> b == Encoding(p)
  {
    hide StepValid, StepBytes, StepsBytes, Put32;
    b := [];
    if p.version != VERSION || p.steps == [] {
      return false, b;
    }
    b := Put32(p.version) + Put32(|p.steps|);
    var emitted := false;
    NoSteps();
    for i := 0 to |p.steps|
      invariant forall j | 0 <= j < i :: StepValid(p.steps, j)
      invariant emitted <==> exists j | 0 <= j < i :: p.steps[j].kind == EMIT
      invariant b == Put32(p.version) + Put32(|p.steps|) + StepsBytes(p.steps[..i])
    {
      var s := p.steps[i];
      if !StepValid(p.steps, i) {
        return false, b;
      }
      if s.kind == EMIT {
        emitted := true;
      }
      OneMoreStep(p.steps, i);
      b := b + StepBytes(s);
    }
    assert p.steps[..|p.steps|] == p.steps;
    ok := emitted;
  }

  lemma NoSteps()
    ensures StepsBytes([]) == []
  {
  }

  lemma OneMoreStep(steps: seq<Step>, i: nat)
    requires i < |steps|
    ensures StepsBytes(steps[..i + 1]) == StepsBytes(steps[..i]) + StepBytes(steps[i])
  {
    assert steps[..i + 1][..i] == steps[..i];
  }

  // ----- images -----

  /** Sizes of the host's records, which bound what an image may take. */
  datatype Sizes = Sizes(image: nat, step: nat)

  datatype Image = Image(steps: seq<Step>, bytes: Bytes, identity: nat)

  datatype ImageResult = Made(image: Image) | Refused(status: Status)

  type Hash = Bytes -> nat

  method ImageCreate(p: Program, hash: Hash, sizes: Sizes, memoryLimit: U64) returns (r: ImageResult)
    requires |p.steps| < U32_LIMIT
    ensures r.Made? <==> ProgramValid(p) && sizes.image + HEADER_BYTES + |p.steps| * (sizes.step + STEP_BYTES) <= memoryLimit
    ensures r.Made? ==> r.image == Image(p.steps, Encoding(p), hash(Encoding(p)))
    ensures r.Refused? ==>
      (r.status == if sizes.image + HEADER_BYTES + |p.steps| * (sizes.step + STEP_BYTES) > memoryLimit then Limit else ProgramInvalid)
  {
    hide ProgramValid, Encoding;
    var required := sizes.image + HEADER_BYTES + |p.steps| * (sizes.step + STEP_BYTES);
    if required > memoryLimit {
      return Refused(Limit);
    }
    var valid, bytes := ProgramBytes(p);
    if !valid {
      return Refused(ProgramInvalid);
    }
    r := Made(Image(p.steps, bytes, hash(bytes)));
  }

  method ReadId(bytes: Bytes, cursor: nat, n: nat) returns (id: Bytes, next: nat)
    requires cursor + n <= |bytes|
    ensures id == bytes[cursor..cursor + n] && next == cursor + n
  {
    id, next := bytes[cursor..cursor + n], cursor + n;
  }

  method Read32(bytes: Bytes, cursor: nat) returns (v: U32, next: nat)
    requires cursor + 4 <= |bytes|
    ensures v == Get32(bytes[cursor..cursor + 4]) && next == cursor + 4
  {
    v, next := 0, cursor;
    ghost var s := bytes[cursor..cursor + 4];
    var unit: nat := 1;
    for i := 0 to 4
      invariant next == cursor + i && unit == Power(i)
      invariant v as int == Value(s[..i]) && Value(s[..i]) < Power(i) && Power(i) <= Power(4)
    {
      ValueAppend(s[..i], bytes[next]);
      assert s[..i + 1] == s[..i] + [bytes[next]];
      LittleValue(s[..i + 1]);
      Powers();
      PowerGrows(i + 1, 4);
      v := v + unit * bytes[next];
      unit := unit * 256;
      next := next + 1;
    }
    assert s[..4] == s;
  }

  lemma PowerGrows(i: nat, j: nat)
    requires i <= j
    ensures Power(i) <= Power(j)
  {
    if i < j {
      PowerGrows(i, j - 1);
    }
  }

  lemma {:induction false} ValueAppend(s: Bytes, c: Byte)
    ensures Value(s + [c]) == Value(s) + Power(|s|) * c
    decreases |s|
  {
    if s == [] {
      assert [] + [c] == [c];
      assert [c][1..] == [];
    } else {
      ValueAppend(s[1..], c);
      assert (s + [c])[1..] == s[1..] + [c];
      assert 256 * (Power(|s| - 1) * c) == Power(|s|) * c;
    }
  }

  /** The fields of one step, read in order. */
  method ReadStep(bytes: Bytes, cursor: nat) returns (s: Step, next: nat)
    requires cursor + STEP_BYTES <= |bytes|
    ensures s == ParseStep(bytes[cursor..cursor + STEP_BYTES]) && next == cursor + STEP_BYTES
  {
    hide Get32, ParseStep;
    ghost var b := bytes[cursor..cursor + STEP_BYTES];
    next := cursor;
    var kind, anchorSource, anchorIndex, goalSource, goalIndex, relationMask, outputEncoding: U32;
    var modality, language, register, recipeEpoch: Bytes;
    var maximumCandidates, flags, version: U32;
    kind, next := Read32(bytes, next);
    anchorSource, next := Read32(bytes, next);
    anchorIndex, next := Read32(bytes, next);
    goalSource, next := Read32(bytes, next);
    goalIndex, next := Read32(bytes, next);
    relationMask, next := Read32(bytes, next);
    outputEncoding, next := Read32(bytes, next);
    modality, next := ReadId(bytes, next, 16);
    language, next := ReadId(bytes, next, 16);
    register, next := ReadId(bytes, next, 16);
    recipeEpoch, next := ReadId(bytes, next, 32);
    maximumCandidates, next := Read32(bytes, next);
    flags, next := Read32(bytes, next);
    version, next := Read32(bytes, next);
    ParseIsFields(b);
    FieldSlices(bytes, cursor);
    s := Step(Binding(anchorSource, anchorIndex), Binding(goalSource, goalIndex),
              Realization(modality, language, register, seq(32, _ => 0), recipeEpoch, seq(32, _ => 0), maximumCandidates, flags, version),
              kind, relationMask, outputEncoding, 0);
  }

  lemma {:induction false} SumLast(widths: seq<nat>, w: nat)
    ensures Sum(widths + [w]) == Sum(widths) + w
  {
    if widths == [] {
      assert [] + [w] == [w] && [w][1..] == [];
    } else {
      SumLast(widths[1..], w);
      assert (widths + [w])[1..] == widths[1..] + [w];
    }
  }

  ghost function At(k: nat): nat
    requires k <= 14
  {
    if k <= 7 then 4 * k else if k <= 10 then 28 + 16 * (k - 7) else 108 + 4 * (k - 11)
  }

  lemma {:induction false} Offsets(k: nat)
    requires k <= 14
    ensures Sum(StepWidths()[..k]) == At(k)
  {
    if k > 0 {
      Offsets(k - 1);
      var w := StepWidths();
      assert w[..k] == w[..k - 1] + [w[k - 1]];
      SumLast(w[..k - 1], w[k - 1]);
    }
  }

  function Width(k: nat): nat {
    if k <= 6 then 4 else if k <= 9 then 16 else if k == 10 then 32 else 4
  }

  lemma WidthIs(k: nat)
    requires k < 14
    ensures StepWidths()[k] == Width(k)
  {
    var w := StepWidths();
    assert w[0] == w[1] == w[2] == w[3] == w[4] == w[5] == w[6] == 4;
    assert w[7] == w[8] == w[9] == 16 && w[10] == 32 && w[11] == w[12] == w[13] == 4;
  }

  lemma FieldIs(b: Bytes, k: nat, at: nat, w: nat)
    requires |b| == STEP_BYTES && k < 14 && At(k) == at && Width(k) == w
    ensures Sum(StepWidths()) == STEP_BYTES && at + w <= STEP_BYTES && Split(b, StepWidths())[k] == b[at..at + w]
  {
    hide Split, Sum, StepWidths;
    StepSize();
    WidthIs(k);
    Offsets(k);
    SplitAt(b, StepWidths(), k);
  }

  lemma FieldsAt(b: Bytes)
    requires |b| == STEP_BYTES
    ensures Sum(StepWidths()) == STEP_BYTES && StepShaped(Split(b, StepWidths()))
    ensures var parts := Split(b, StepWidths());
      && parts[0] == b[0..4] && parts[1] == b[4..8] && parts[2] == b[8..12] && parts[3] == b[12..16] && parts[4] == b[16..20]
      && parts[5] == b[20..24] && parts[6] == b[24..28] && parts[7] == b[28..44] && parts[8] == b[44..60] && parts[9] == b[60..76]
      && parts[10] == b[76..108] && parts[11] == b[108..112] && parts[12] == b[112..116] && parts[13] == b[116..120]
  {
    hide Split, Sum, StepWidths;
    StepSize();
    ShapedStep(Split(b, StepWidths()));
    FieldIs(b, 0, 0, 4);
    FieldIs(b, 1, 4, 4);
    FieldIs(b, 2, 8, 4);
    FieldIs(b, 3, 12, 4);
    FieldIs(b, 4, 16, 4);
    FieldIs(b, 5, 20, 4);
    FieldIs(b, 6, 24, 4);
    FieldIs(b, 7, 28, 16);
    FieldIs(b, 8, 44, 16);
    FieldIs(b, 9, 60, 16);
    FieldIs(b, 10, 76, 32);
    FieldIs(b, 11, 108, 4);
    FieldIs(b, 12, 112, 4);
    FieldIs(b, 13, 116, 4);
  }

  /** A step read field by field. */
  ghost function Fields(b: Bytes): Step
    requires |b| == STEP_BYTES
  {
    Step(Binding(Get32(b[4..8]), Get32(b[8..12])), Binding(Get32(b[12..16]), Get32(b[16..20])),
         Realization(b[28..44], b[44..60], b[60..76], seq(32, _ => 0), b[76..108], seq(32, _ => 0), Get32(b[108..112]), Get32(b[112..116]), Get32(b[116..120])),
         Get32(b[0..4]), Get32(b[20..24]), Get32(b[24..28]), 0)
  }

  lemma ParseIsFields(b: Bytes)
    requires |b| == STEP_BYTES
    ensures ParseStep(b) == Fields(b)
  {
    hide Split, Sum, StepWidths, Get32;
    FieldsAt(b);
  }

  lemma FieldSlices(bytes: Bytes, c: nat)
    requires c + STEP_BYTES <= |bytes|
    ensures var b := bytes[c..c + STEP_BYTES];
      && b[0..4] == bytes[c..c + 4] && b[4..8] == bytes[c + 4..c + 8] && b[8..12] == bytes[c + 8..c + 12] && b[12..16] == bytes[c + 12..c + 16]
      && b[16..20] == bytes[c + 16..c + 20] && b[20..24] == bytes[c + 20..c + 24] && b[24..28] == bytes[c + 24..c + 28]
      && b[28..44] == bytes[c + 28..c + 44] && b[44..60] == bytes[c + 44..c + 60] && b[60..76] == bytes[c + 60..c + 76]
      && b[76..108] == bytes[c + 76..c + 108] && b[108..112] == bytes[c + 108..c + 112] && b[112..116] == bytes[c + 112..c + 116]
      && b[116..120] == bytes[c + 116..c + 120]
  {
    Inner(bytes, c, c + STEP_BYTES, 0, 4);
    Inner(bytes, c, c + STEP_BYTES, 4, 8);
    Inner(bytes, c, c + STEP_BYTES, 8, 12);
    Inner(bytes, c, c + STEP_BYTES, 12, 16);
    Inner(bytes, c, c + STEP_BYTES, 16, 20);
    Inner(bytes, c, c + STEP_BYTES, 20, 24);
    Inner(bytes, c, c + STEP_BYTES, 24, 28);
    Inner(bytes, c, c + STEP_BYTES, 28, 44);
    Inner(bytes, c, c + STEP_BYTES, 44, 60);
    Inner(bytes, c, c + STEP_BYTES, 60, 76);
    Inner(bytes, c, c + STEP_BYTES, 76, 108);
    Inner(bytes, c, c + STEP_BYTES, 108, 112);
    Inner(bytes, c, c + STEP_BYTES, 112, 116);
    Inner(bytes, c, c + STEP_BYTES, 116, 120);
  }

  ghost predicate Canonical(bytes: Bytes) {
    exists p: Program :: ProgramValid(p) && Encoding(p) == bytes
  }

  ghost predicate Fits(bytes: Bytes, sizes: Sizes, memoryLimit: nat) {
    sizes.image + (|bytes| - HEADER_BYTES) / STEP_BYTES * sizes.step + |bytes| <= memoryLimit
  }

  /** Step j as it stands in the image. */
  ghost predicate ParsedFrom(bytes: Bytes, j: nat, step: Step) {
    var at := HEADER_BYTES + j * STEP_BYTES;
    at + STEP_BYTES <= |bytes| && step == ParseStep(bytes[at..at + STEP_BYTES])
  }

  lemma IsParsed(bytes: Bytes, j: nat, step: Step)
    requires HEADER_BYTES + j * STEP_BYTES + STEP_BYTES <= |bytes|
    requires step == ParseStep(bytes[HEADER_BYTES + j * STEP_BYTES..HEADER_BYTES + j * STEP_BYTES + STEP_BYTES])
    ensures ParsedFrom(bytes, j, step)
  {
    hide ParseStep;
  }

  lemma HeaderIs(bytes: Bytes)
    ensures Canonical(bytes) ==> |bytes| >= HEADER_BYTES
    ensures Canonical(bytes) ==>
      Get32(bytes[0..4]) == VERSION && Get32(bytes[4..8]) != 0 && |bytes| - HEADER_BYTES == Get32(bytes[4..8]) * STEP_BYTES
  {
    hide StepsBytes, Put32, Get32, StepValid;
    if Canonical(bytes) {
      var p: Program :| ProgramValid(p) && Encoding(p) == bytes;
      var steps := StepsBytes(p.steps);
      assert bytes == Put32(p.version) + Put32(|p.steps|) + steps;
      assert bytes[0..4] == Put32(p.version) && bytes[4..8] == Put32(|p.steps|);
      PutGet32(p.version, Put32(0));
      PutGet32(|p.steps|, Put32(0));
    }
  }

  lemma ChunkIs(bytes: Bytes, tail: Bytes, steps: seq<Step>, j: nat)
    requires |bytes| == HEADER_BYTES + |steps| * STEP_BYTES && tail == bytes[HEADER_BYTES..] && j < |steps| && ParsedFrom(bytes, j, steps[j])
    ensures STEP_BYTES * j + STEP_BYTES <= |tail|
    ensures StepsBytes(steps)[STEP_BYTES * j..STEP_BYTES * j + STEP_BYTES] == tail[STEP_BYTES * j..STEP_BYTES * j + STEP_BYTES] && Unwritten(steps[j])
  {
    hide StepsBytes, StepBytes, ParseStep, Unwritten;
    var at := HEADER_BYTES + j * STEP_BYTES;
    StepsBytesAt(steps, j);
    NoPolicyUnwritten();
    StepRoundTrip(Step(Binding(0, 0), Binding(0, 0), NoPolicy(), 0, 0, 0, 0), bytes[at..at + STEP_BYTES]);
    assert tail[STEP_BYTES * j..STEP_BYTES * j + STEP_BYTES] == bytes[at..at + STEP_BYTES];
  }

  function NoPolicy(): Realization {
    Realization(seq(16, _ => 0), seq(16, _ => 0), seq(16, _ => 0), seq(32, _ => 0), seq(32, _ => 0), seq(32, _ => 0), 0, 0, 0)
  }

  lemma NoPolicyUnwritten()
    ensures Unwritten(Step(Binding(0, 0), Binding(0, 0), NoPolicy(), 0, 0, 0, 0))
  {
  }

  /** What has been parsed writes back to the same bytes, so the bytes are canonical
      exactly when the parsed program is valid. */
  lemma Rewritten(bytes: Bytes, steps: seq<Step>)
    requires 0 < |steps| < U32_LIMIT && |bytes| == HEADER_BYTES + |steps| * STEP_BYTES
    requires Get32(bytes[0..4]) == VERSION && Get32(bytes[4..8]) == |steps|
    requires forall j | 0 <= j < |steps| :: ParsedFrom(bytes, j, steps[j])
    ensures Encoding(Program(steps, VERSION)) == bytes
    ensures Canonical(bytes) <==> ProgramValid(Program(steps, VERSION))
  {
    hide StepsBytes, StepBytes, ParsedFrom, Unwritten, Put32, Get32, StepValid, ProgramValid;
    var tail, whole := bytes[HEADER_BYTES..], StepsBytes(steps);
    forall j | 0 <= j < |steps|
      ensures STEP_BYTES * j + STEP_BYTES <= |tail| && whole[STEP_BYTES * j..STEP_BYTES * j + STEP_BYTES] == tail[STEP_BYTES * j..STEP_BYTES * j + STEP_BYTES]
      ensures Unwritten(steps[j])
    {
      ChunkIs(bytes, tail, steps, j);
    }
    SameChunks(whole, tail, |steps|, STEP_BYTES);
    PutGet32(0, bytes[0..4]);
    PutGet32(0, bytes[4..8]);
    assert bytes == bytes[0..4] + bytes[4..8] + tail;
    if Canonical(bytes) {
      OnlyThis(bytes, steps);
    }
  }

  lemma LoadedOnly(bytes: Bytes, steps: seq<Step>)
    requires ProgramValid(Program(steps, VERSION)) && Encoding(Program(steps, VERSION)) == bytes
    ensures forall p: Program :: ProgramValid(p) && Encoding(p) == bytes ==> p.steps == steps
  {
    hide StepValid, StepsBytes, Put32;
    forall p: Program | ProgramValid(p) && Encoding(p) == bytes
      ensures p.steps == steps
    {
      EncodingInjective(p, Program(steps, VERSION));
    }
  }

  lemma OnlyThis(bytes: Bytes, steps: seq<Step>)
    requires |steps| < U32_LIMIT && Encoding(Program(steps, VERSION)) == bytes && (forall j | 0 <= j < |steps| :: Unwritten(steps[j])) && Canonical(bytes)
    ensures ProgramValid(Program(steps, VERSION))
  {
    hide StepsBytes, Put32, StepValid, Unwritten;
    var p: Program :| ProgramValid(p) && Encoding(p) == bytes;
    ValidUnwritten(p);
    assert Encoding(p)[HEADER_BYTES..] == StepsBytes(p.steps) && bytes[HEADER_BYTES..] == StepsBytes(steps);
    StepsBytesInjective(p.steps, steps);
  }

  /** Version, a step at least, and as many bytes as the steps take. */
  ghost predicate HeaderOk(bytes: Bytes) {
    && |bytes| >= HEADER_BYTES && Get32(bytes[0..4]) == VERSION && Get32(bytes[4..8]) != 0
    && |bytes| - HEADER_BYTES == Get32(bytes[4..8]) * STEP_BYTES
  }

  /** Why bytes are refused: the first reason, in this order. */
  ghost function LoadRefusal(bytes: Bytes, expected: nat, hash: Hash, sizes: Sizes, memoryLimit: nat): Status {
    if |bytes| < HEADER_BYTES then InvalidArgument
    else if !HeaderOk(bytes) then ProgramInvalid
    else if !Fits(bytes, sizes, memoryLimit) then Limit
    else if hash(bytes) != expected then ProgramMismatch
    else ProgramInvalid
  }

  /** Loads exactly the canonical encodings of valid programs, and returns the program. */
  method ImageLoad(bytes: Bytes, expected: nat, hash: Hash, sizes: Sizes, memoryLimit: U64) returns (r: ImageResult)
    ensures r.Made? <==> Canonical(bytes) && hash(bytes) == expected && Fits(bytes, sizes, memoryLimit)
    ensures r.Made? ==> ProgramValid(Program(r.image.steps, VERSION)) && Encoding(Program(r.image.steps, VERSION)) == bytes == r.image.bytes
    ensures r.Made? ==> r.image.identity == expected
    ensures forall p: Program :: r.Made? && ProgramValid(p) && Encoding(p) == bytes ==> r.image.steps == p.steps
    ensures r.Refused? ==> r.status == LoadRefusal(bytes, expected, hash, sizes, memoryLimit)
  {
    hide StepValid, StepBytes, ParseStep, StepsBytes, Unwritten, Put32, Get32, Encoding, ProgramValid, Canonical, ParsedFrom;
    HeaderIs(bytes);
    if |bytes| < HEADER_BYTES {
      return Refused(InvalidArgument);
    }
    var cursor := 0;
    var version, count: U32;
    version, cursor := Read32(bytes, cursor);
    count, cursor := Read32(bytes, cursor);
    if version != VERSION || count == 0 || |bytes| - HEADER_BYTES != count * STEP_BYTES {
      return Refused(ProgramInvalid);
    }
    var required := sizes.image + count * sizes.step + |bytes|;
    assert required == sizes.image + (|bytes| - HEADER_BYTES) / STEP_BYTES * sizes.step + |bytes|;
    if required > memoryLimit {
      return Refused(Limit);
    }
    var identity := hash(bytes);
    if identity != expected {
      return Refused(ProgramMismatch);
    }
    var steps: seq<Step> := [];
    for i := 0 to count
      invariant cursor == HEADER_BYTES + i * STEP_BYTES && |steps| == i
      invariant forall j | 0 <= j < i :: ParsedFrom(bytes, j, steps[j])
    {
      var step: Step;
      step, cursor := ReadStep(bytes, cursor);
      IsParsed(bytes, i, step);
      steps := steps + [step];
    }
    Rewritten(bytes, steps);
    var valid, written := ProgramBytes(Program(steps, version));
    if !valid || written != bytes {
      return Refused(ProgramInvalid);
    }
    r := Made(Image(steps, written, identity));
    LoadedOnly(bytes, steps);
  }
}
