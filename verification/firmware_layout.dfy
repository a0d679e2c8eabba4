/** Where each field of a program image and of a register section lies. */
module FirmwareLayout {
  import opened Octets
  import opened WireFormat
  import opened FirmwareProgram
  import opened FirmwareRegisters

  ghost predicate StepLies(b: Bytes, at: nat, s: Step) {
    && at + 120 <= |b|
    && Int(b, at) == s.kind && Int(b, at + 4) == s.anchor.source && Int(b, at + 8) == s.anchor.stepIndex
    && Int(b, at + 12) == s.goal.source && Int(b, at + 16) == s.goal.stepIndex
    && Int(b, at + 20) == s.relationMask && Int(b, at + 24) == s.outputEncoding
    && b[at + 28..at + 44] == s.realization.modality && b[at + 44..at + 60] == s.realization.language
    && b[at + 60..at + 76] == s.realization.register && b[at + 76..at + 108] == s.realization.recipeEpoch
    && Int(b, at + 108) == s.realization.maximumCandidates && Int(b, at + 112) == s.realization.flags && Int(b, at + 116) == s.realization.version
  }

  ghost predicate RegisterLies(b: Bytes, at: nat, r: Register) {
    && at + 100 <= |b|
    && Int(b, at) == r.flags && b[at + 4..at + 20] == r.answer && b[at + 20..at + 36] == r.realization
    && b[at + 36..at + 68] == r.act && b[at + 68..at + 100] == r.materialization
  }

  ghost function PartStart(parts: seq<Bytes>, k: nat): nat
    requires k <= |parts|
  {
    if k == 0 then 0 else PartStart(parts, k - 1) + |parts[k - 1]|
  }

  lemma {:induction false} StartLater(parts: seq<Bytes>, k: nat)
    requires 0 < k <= |parts|
    ensures PartStart(parts, k) == |parts[0]| + PartStart(parts[1..], k - 1)
  {
    if k > 1 {
      StartLater(parts, k - 1);
      assert parts[1..][k - 2] == parts[k - 1];
    }
  }

  /** A part of a joined record lies where the parts before it end. */
  lemma {:induction false} PartLies(b: Bytes, at: nat, parts: seq<Bytes>, k: nat)
    requires at + |Join(parts)| <= |b| && b[at..at + |Join(parts)|] == Join(parts) && k < |parts|
    ensures at + PartStart(parts, k) + |parts[k]| <= |b| && b[at + PartStart(parts, k)..at + PartStart(parts, k) + |parts[k]|] == parts[k]
    decreases |parts|
  {
    var first, rest := parts[0], Join(parts[1..]);
    Inner(b, at, at + |first| + |rest|, 0, |first|);
    Inner(b, at, at + |first| + |rest|, |first|, |first| + |rest|);
    if k > 0 {
      StartLater(parts, k);
      PartLies(b, at + |first|, parts[1..], k - 1);
      assert parts[1..][k - 1] == parts[k];
    }
  }

  lemma PartIs(b: Bytes, at: nat, parts: seq<Bytes>, k: nat, start: nat)
    requires at + |Join(parts)| <= |b| && b[at..at + |Join(parts)|] == Join(parts) && k < |parts| && PartStart(parts, k) == start
    ensures at + start + |parts[k]| <= |b| && b[at + start..at + start + |parts[k]|] == parts[k]
  {
    PartLies(b, at, parts, k);
  }

  lemma NumberPart(b: Bytes, at: nat, parts: seq<Bytes>, k: nat, start: nat, v: U32)
    requires at + |Join(parts)| <= |b| && b[at..at + |Join(parts)|] == Join(parts) && k < |parts| && PartStart(parts, k) == start
    requires parts[k] == Put32(v)
    ensures at + start + 4 <= |b| && Int(b, at + start) == v
  {
    hide Int, Put32;
    PartLies(b, at, parts, k);
    IntIs(b, at + start, v);
  }

  lemma StepIs(b: Bytes, at: nat, s: Step)
    requires at + 120 <= |b| && b[at..at + 120] == StepBytes(s)
    ensures StepLies(b, at, s)
  {
    hide Put32, Int, Join;
    var parts := StepParts(s);
    StepStarts(s);
    NumberPart(b, at, parts, 0, 0, s.kind);
    NumberPart(b, at, parts, 1, 4, s.anchor.source);
    NumberPart(b, at, parts, 2, 8, s.anchor.stepIndex);
    NumberPart(b, at, parts, 3, 12, s.goal.source);
    NumberPart(b, at, parts, 4, 16, s.goal.stepIndex);
    NumberPart(b, at, parts, 5, 20, s.relationMask);
    NumberPart(b, at, parts, 6, 24, s.outputEncoding);
    PartIs(b, at, parts, 7, 28);
    PartIs(b, at, parts, 8, 44);
    PartIs(b, at, parts, 9, 60);
    PartIs(b, at, parts, 10, 76);
    NumberPart(b, at, parts, 11, 108, s.realization.maximumCandidates);
    NumberPart(b, at, parts, 12, 112, s.realization.flags);
    NumberPart(b, at, parts, 13, 116, s.realization.version);
  }

  lemma StepStarts(s: Step)
    ensures var parts := StepParts(s);
      && PartStart(parts, 0) == 0 && PartStart(parts, 1) == 4 && PartStart(parts, 2) == 8 && PartStart(parts, 3) == 12
      && PartStart(parts, 4) == 16 && PartStart(parts, 5) == 20 && PartStart(parts, 6) == 24 && PartStart(parts, 7) == 28
      && PartStart(parts, 8) == 44 && PartStart(parts, 9) == 60 && PartStart(parts, 10) == 76 && PartStart(parts, 11) == 108
      && PartStart(parts, 12) == 112 && PartStart(parts, 13) == 116
  {
    hide Put32;
    var parts := StepParts(s);
    ShapedStep(parts);
    assert PartStart(parts, 1) == 4;
    assert PartStart(parts, 2) == 8;
    assert PartStart(parts, 3) == 12;
    assert PartStart(parts, 4) == 16;
    assert PartStart(parts, 5) == 20;
    assert PartStart(parts, 6) == 24;
    assert PartStart(parts, 7) == 28;
    assert PartStart(parts, 8) == 44;
    assert PartStart(parts, 9) == 60;
    assert PartStart(parts, 10) == 76;
    assert PartStart(parts, 11) == 108;
    assert PartStart(parts, 12) == 112;
  }

  /** A program image, field by field. */
  lemma ImageLayout(p: Program)
    requires |p.steps| < U32_LIMIT
    ensures |Encoding(p)| == 8 + 120 * |p.steps| && Int(Encoding(p), 0) == p.version && Int(Encoding(p), 4) == |p.steps|
    ensures forall k | 0 <= k < |p.steps| :: StepLies(Encoding(p), 8 + 120 * k, p.steps[k])
  {
    hide Put32, Int, StepBytes, StepsBytes, StepLies;
    var b, steps := Encoding(p), StepsBytes(p.steps);
    assert b[0..4] == Put32(p.version) && b[4..8] == Put32(|p.steps|) && b[8..8 + |steps|] == steps;
    IntIs(b, 0, p.version);
    IntIs(b, 4, |p.steps|);
    forall k | 0 <= k < |p.steps|
      ensures StepLies(b, 8 + 120 * k, p.steps[k])
    {
      StepsBytesAt(p.steps, k);
      Inner(b, 8, 8 + |steps|, 120 * k, 120 * k + 120);
      StepIs(b, 8 + 120 * k, p.steps[k]);
    }
  }

  lemma RegisterIs(b: Bytes, at: nat, r: Register)
    requires at + 100 <= |b| && b[at..at + 100] == RegisterBytes(r)
    ensures RegisterLies(b, at, r)
  {
    hide Put32, Int;
    var s := RegisterBytes(r);
    assert s[0..4] == Put32(r.flags) && s[4..20] == r.answer && s[20..36] == r.realization && s[36..68] == r.act && s[68..100] == r.materialization;
    Inner(b, at, at + 100, 0, 4);
    Inner(b, at, at + 100, 4, 20);
    Inner(b, at, at + 100, 20, 36);
    Inner(b, at, at + 100, 36, 68);
    Inner(b, at, at + 100, 68, 100);
    IntIs(b, at, r.flags);
  }

  /** A register section, field by field. */
  lemma SectionLayout(rs: seq<Register>)
    requires |rs| < U32_LIMIT
    ensures |Section(rs)| == 8 + 100 * |rs| && Int(Section(rs), 0) == |rs| && Int(Section(rs), 4) == 1
    ensures forall k | 0 <= k < |rs| :: RegisterLies(Section(rs), 8 + 100 * k, rs[k])
  {
    hide Put32, Int, RegisterBytes, RegistersBytes, RegisterLies;
    var b, all := Section(rs), RegistersBytes(rs);
    assert b[0..4] == Put32(|rs|) && b[4..8] == Put32(VERSION) && b[8..8 + |all|] == all;
    IntIs(b, 0, |rs|);
    IntIs(b, 4, VERSION);
    forall k | 0 <= k < |rs|
      ensures RegisterLies(b, 8 + 100 * k, rs[k])
    {
      RegistersBytesAt(rs, k);
      Inner(b, 8, 8 + |all|, 100 * k, 100 * k + 100);
      RegisterIs(b, 8 + 100 * k, rs[k]);
    }
  }
}
