/** Where each field of a packet lies, in bytes from the start of its record. */
module PacketLayout {
  import opened Octets
  import opened WireFormat
  import opened PacketRows
  import opened PacketRecords
  import opened PacketRequest
  import opened PacketResult

  // ----- rows -----

  lemma {:induction false} DigestAt(xs: seq<Digest256>, k: nat)
    requires k < |xs|
    ensures PutDigests(xs)[32 * k..32 * k + 32] == xs[k]
    decreases |xs|
  {
    if k > 0 {
      DigestAt(xs[1..], k - 1);
      Later(PutDigests(xs), PutDigests(xs[1..]), 32, 32 * (k - 1), 32);
    }
  }

  lemma {:induction false} LongAt(xs: seq<U64>, k: nat)
    requires k < |xs|
    ensures PutLongs(xs)[8 * k..8 * k + 8] == Put64(xs[k])
    decreases |xs|
  {
    hide Put64;
    if k > 0 {
      LongAt(xs[1..], k - 1);
      Later(PutLongs(xs), PutLongs(xs[1..]), 8, 8 * (k - 1), 8);
    }
  }

  lemma {:induction false} IntAt(xs: seq<U32>, k: nat)
    requires k < |xs|
    ensures PutInts(xs)[4 * k..4 * k + 4] == Put32(xs[k])
    decreases |xs|
  {
    hide Put32;
    if k > 0 {
      IntAt(xs[1..], k - 1);
      Later(PutInts(xs), PutInts(xs[1..]), 4, 4 * (k - 1), 4);
    }
  }

  lemma Later(b: Bytes, rest: Bytes, skip: nat, at: nat, size: nat)
    requires skip <= |b| && b[skip..] == rest && at + size <= |rest|
    ensures b[skip + at..skip + at + size] == rest[at..at + size]
  {
    assert b[skip..|b|] == rest;
    Inner(b, skip, |b|, at, at + size);
  }

  /** A row at a place: its digests, then its 64-bit numbers, then its 32-bit numbers. */
  ghost predicate RowLies(b: Bytes, at: nat, row: Row) {
    var longs := at + 32 * |row.digests|;
    var ints := longs + 8 * |row.longs|;
    && ints + 4 * |row.ints| <= |b|
    && (forall k | 0 <= k < |row.digests| :: b[at + 32 * k..at + 32 * k + 32] == row.digests[k])
    && (forall k | 0 <= k < |row.longs| :: Long(b, longs + 8 * k) == row.longs[k])
    && (forall k | 0 <= k < |row.ints| :: Int(b, ints + 4 * k) == row.ints[k])
  }

  lemma DigestLies(b: Bytes, at: nat, xs: seq<Digest256>, k: nat)
    requires at + 32 * |xs| <= |b| && b[at..at + 32 * |xs|] == PutDigests(xs) && k < |xs|
    ensures b[at + 32 * k..at + 32 * k + 32] == xs[k]
  {
    hide PutDigests;
    DigestAt(xs, k);
    Inner(b, at, at + 32 * |xs|, 32 * k, 32 * k + 32);
  }

  lemma DigestsLie(b: Bytes, at: nat, xs: seq<Digest256>)
    requires at + 32 * |xs| <= |b| && b[at..at + 32 * |xs|] == PutDigests(xs)
    ensures forall k | 0 <= k < |xs| :: b[at + 32 * k..at + 32 * k + 32] == xs[k]
  {
    hide PutDigests;
    forall k | 0 <= k < |xs|
      ensures b[at + 32 * k..at + 32 * k + 32] == xs[k]
    {
      DigestLies(b, at, xs, k);
    }
  }

  lemma LongLies(b: Bytes, at: nat, xs: seq<U64>, k: nat)
    requires at + 8 * |xs| <= |b| && b[at..at + 8 * |xs|] == PutLongs(xs) && k < |xs|
    ensures Long(b, at + 8 * k) == xs[k]
  {
    hide PutLongs, Put64, Long;
    LongAt(xs, k);
    Inner(b, at, at + 8 * |xs|, 8 * k, 8 * k + 8);
    LongIs(b, at + 8 * k, xs[k]);
  }

  lemma LongsLie(b: Bytes, at: nat, xs: seq<U64>)
    requires at + 8 * |xs| <= |b| && b[at..at + 8 * |xs|] == PutLongs(xs)
    ensures forall k | 0 <= k < |xs| :: Long(b, at + 8 * k) == xs[k]
  {
    hide PutLongs, Long;
    forall k | 0 <= k < |xs|
      ensures Long(b, at + 8 * k) == xs[k]
    {
      LongLies(b, at, xs, k);
    }
  }

  lemma IntLies(b: Bytes, at: nat, xs: seq<U32>, k: nat)
    requires at + 4 * |xs| <= |b| && b[at..at + 4 * |xs|] == PutInts(xs) && k < |xs|
    ensures Int(b, at + 4 * k) == xs[k]
  {
    hide PutInts, Put32, Int;
    IntAt(xs, k);
    Inner(b, at, at + 4 * |xs|, 4 * k, 4 * k + 4);
    IntIs(b, at + 4 * k, xs[k]);
  }

  lemma IntsLie(b: Bytes, at: nat, xs: seq<U32>)
    requires at + 4 * |xs| <= |b| && b[at..at + 4 * |xs|] == PutInts(xs)
    ensures forall k | 0 <= k < |xs| :: Int(b, at + 4 * k) == xs[k]
  {
    hide PutInts, Int;
    forall k | 0 <= k < |xs|
      ensures Int(b, at + 4 * k) == xs[k]
    {
      IntLies(b, at, xs, k);
    }
  }

  lemma RowIs(b: Bytes, at: nat, row: Row)
    requires at + |RowBytes(row)| <= |b| && b[at..at + |RowBytes(row)|] == RowBytes(row)
    ensures RowLies(b, at, row)
  {
    hide PutDigests, PutLongs, PutInts, Int, Long;
    var digests, longs, ints := PutDigests(row.digests), PutLongs(row.longs), PutInts(row.ints);
    Halves(b, at, digests + longs, ints);
    Halves(b, at, digests, longs);
    DigestsLie(b, at, row.digests);
    LongsLie(b, at + |digests|, row.longs);
    IntsLie(b, at + |digests| + |longs|, row.ints);
  }

  // ----- records -----

  ghost predicate OperatorLies(b: Bytes, at: nat, p: OperatorProgram) {
    && at + 184 <= |b|
    && b[at..at + 32] == p.id && b[at + 32..at + 64] == p.boundary && b[at + 64..at + 96] == p.context
    && b[at + 96..at + 128] == p.evidenceEpoch && b[at + 128..at + 160] == p.resultContract
    && Int(b, at + 160) == p.sourceMask && Int(b, at + 164) == p.flags && Long(b, at + 168) == p.tolerance
    && Int(b, at + 176) == p.version && Int(b, at + 180) == p.reserved
  }

  ghost predicate SolverLies(b: Bytes, at: nat, p: SolverProgram) {
    && at + 112 <= |b|
    && b[at..at + 32] == p.id && b[at + 32..at + 64] == p.resultContract
    && Long(b, at + 64) == p.maxIterations && Long(b, at + 72) == p.absolute && Long(b, at + 80) == p.relative && Long(b, at + 88) == p.regularization
    && Int(b, at + 96) == p.algorithm && Int(b, at + 100) == p.flags && Int(b, at + 104) == p.version && Int(b, at + 108) == p.reserved
  }

  ghost predicate FieldLies(b: Bytes, at: nat, f: Field) {
    && at + 160 <= |b|
    && b[at..at + 32] == f.id && b[at + 32..at + 48] == f.entity && b[at + 48..at + 80] == f.physicality
    && b[at + 80..at + 112] == f.role && b[at + 112..at + 144] == f.recipe
    && Long(b, at + 144) == f.ordinal && Int(b, at + 152) == f.dimension && Int(b, at + 156) == f.flags
  }

  ghost predicate StandingLies(b: Bytes, at: nat, s: Standing) {
    && at + 240 <= |b|
    && b[at..at + 32] == s.state && b[at + 32..at + 64] == s.coordinate && b[at + 64..at + 96] == s.arena
    && b[at + 96..at + 128] == s.prior && b[at + 128..at + 160] == s.epoch && b[at + 160..at + 192] == s.recipe
    && Long(b, at + 192) == s.rating && Long(b, at + 200) == s.deviation && Long(b, at + 208) == s.volatility
    && Long(b, at + 216) == s.matches && Long(b, at + 224) == s.period
    && Int(b, at + 232) == s.recipeVersion && Int(b, at + 236) == s.flags
  }

  ghost predicate ConstraintLies(b: Bytes, at: nat, c: Constraint) {
    && at + 264 <= |b|
    && b[at..at + 32] == c.id && b[at + 32..at + 64] == c.plane && b[at + 64..at + 96] == c.law
    && b[at + 96..at + 128] == c.units && b[at + 128..at + 160] == c.evidenceRoot && b[at + 160..at + 192] == c.calculation
    && Long(b, at + 192) == c.source && Long(b, at + 200) == c.target && Long(b, at + 208) == c.scale
    && Long(b, at + 216) == c.offset && Long(b, at + 224) == c.targetValue && Long(b, at + 232) == c.precision
    && Int(b, at + 240) == c.family && Int(b, at + 244) == c.sourceClass && Int(b, at + 248) == c.direction
    && Int(b, at + 252) == c.transport && Int(b, at + 256) == c.flags && Int(b, at + 260) == c.reserved
    && (c.sourceClass == 4 ==> StandingLies(b, at + 264, c.standing))
  }

  ghost predicate OperatorReceiptLies(b: Bytes, at: nat, r: OperatorReceipt) {
    && at + 232 <= |b|
    && b[at..at + 32] == r.id && b[at + 32..at + 64] == r.operatorId && b[at + 64..at + 96] == r.program
    && b[at + 96..at + 128] == r.fieldSet && b[at + 128..at + 160] == r.constraintSet
    && Long(b, at + 160) == r.fields && Long(b, at + 168) == r.inputConstraints && Long(b, at + 176) == r.selectedConstraints
    && Long(b, at + 184) == r.deduplicated && Long(b, at + 192) == r.physicality && Long(b, at + 200) == r.testimony && Long(b, at + 208) == r.derived
    && Int(b, at + 216) == r.planes && Int(b, at + 220) == r.status && Int(b, at + 224) == r.version && Int(b, at + 228) == r.flags
  }

  ghost predicate SolverReceiptLies(b: Bytes, at: nat, r: SolverReceipt) {
    && at + 324 <= |b|
    && b[at..at + 32] == r.id && b[at + 32..at + 64] == r.program && b[at + 64..at + 96] == r.operatorId && b[at + 96..at + 128] == r.operatorReceipt
    && b[at + 128..at + 160] == r.precision && b[at + 160..at + 192] == r.input && b[at + 192..at + 224] == r.trace && b[at + 224..at + 256] == r.output
    && Long(b, at + 256) == r.fields && Long(b, at + 264) == r.iterations && Long(b, at + 272) == r.initialResidual
    && Long(b, at + 280) == r.finalResidual && Long(b, at + 288) == r.energy && Long(b, at + 296) == r.regularization
    && Int(b, at + 304) == r.algorithm && Int(b, at + 308) == r.disposition && Int(b, at + 312) == r.status
    && Int(b, at + 316) == r.version && Int(b, at + 320) == r.flags
  }

  /** A slice that holds two byte strings, one after the other. */
  lemma Halves(b: Bytes, at: nat, first: Bytes, second: Bytes)
    requires at + |first| + |second| <= |b| && b[at..at + |first| + |second|] == first + second
    ensures b[at..at + |first|] == first && b[at + |first|..at + |first| + |second|] == second
  {
    var size := |first| + |second|;
    Inner(b, at, at + size, 0, |first|);
    Inner(b, at, at + size, |first|, size);
  }

  lemma OperatorIs(b: Bytes, at: nat, p: OperatorProgram)
    requires at + 184 <= |b| && b[at..at + 184] == OperatorBytes(p)
    ensures OperatorLies(b, at, p)
  {
    hide RowBytes, Int, Long;
    var head, tail := OperatorHead(p), OperatorTail(p);
    Halves(b, at, RowBytes(head), RowBytes(tail));
    RowIs(b, at, head);
    RowIs(b, at + 168, tail);
    assert head.digests[0] == p.id && head.digests[1] == p.boundary && head.digests[2] == p.context && head.digests[3] == p.evidenceEpoch && head.digests[4] == p.resultContract;
    assert head.ints[0] == p.sourceMask && head.ints[1] == p.flags && tail.longs[0] == p.tolerance && tail.ints[0] == p.version && tail.ints[1] == p.reserved;
  }

  lemma SolverIs(b: Bytes, at: nat, p: SolverProgram)
    requires at + 112 <= |b| && b[at..at + 112] == SolverBytes(p)
    ensures SolverLies(b, at, p)
  {
    hide RowBytes, Int, Long;
    var row := SolverRow(p);
    RowIs(b, at, row);
    assert row.digests[0] == p.id && row.digests[1] == p.resultContract;
    assert row.longs[0] == p.maxIterations && row.longs[1] == p.absolute && row.longs[2] == p.relative && row.longs[3] == p.regularization;
    assert row.ints[0] == p.algorithm && row.ints[1] == p.flags && row.ints[2] == p.version && row.ints[3] == p.reserved;
  }

  lemma FieldIs(b: Bytes, at: nat, f: Field)
    requires at + 160 <= |b| && b[at..at + 160] == FieldBytes(f)
    ensures FieldLies(b, at, f)
  {
    hide RowBytes, Int, Long;
    var head, tail := FieldHead(f), FieldTail(f);
    Halves(b, at, RowBytes(head) + f.entity, RowBytes(tail));
    Halves(b, at, RowBytes(head), f.entity);
    RowIs(b, at, head);
    RowIs(b, at + 48, tail);
    assert head.digests[0] == f.id && tail.digests[0] == f.physicality && tail.digests[1] == f.role && tail.digests[2] == f.recipe;
    assert tail.longs[0] == f.ordinal && tail.ints[0] == f.dimension && tail.ints[1] == f.flags;
  }

  lemma StandingIs(b: Bytes, at: nat, s: Standing)
    requires at + 240 <= |b| && b[at..at + 240] == RowBytes(StandingRow(s))
    ensures StandingLies(b, at, s)
  {
    hide RowBytes, Int, Long;
    var row := StandingRow(s);
    RowIs(b, at, row);
    assert row.digests[0] == s.state && row.digests[1] == s.coordinate && row.digests[2] == s.arena && row.digests[3] == s.prior && row.digests[4] == s.epoch && row.digests[5] == s.recipe;
    assert row.longs[0] == s.rating && row.longs[1] == s.deviation && row.longs[2] == s.volatility && row.longs[3] == s.matches && row.longs[4] == s.period;
    assert row.ints[0] == s.recipeVersion && row.ints[1] == s.flags;
  }

  lemma ConstraintIs(b: Bytes, at: nat, c: Constraint)
    requires at + |ConstraintBytes(c)| <= |b| && b[at..at + |ConstraintBytes(c)|] == ConstraintBytes(c)
    ensures ConstraintLies(b, at, c)
  {
    hide RowBytes, Int, Long;
    var row := ConstraintRow(c);
    if c.sourceClass == 4 {
      Halves(b, at, RowBytes(row), RowBytes(StandingRow(c.standing)));
      StandingIs(b, at + 264, c.standing);
    }
    assert RowBytes(row) + [] == RowBytes(row);
    RowIs(b, at, row);
    assert row.digests[0] == c.id && row.digests[1] == c.plane && row.digests[2] == c.law && row.digests[3] == c.units && row.digests[4] == c.evidenceRoot && row.digests[5] == c.calculation;
    assert row.longs[0] == c.source && row.longs[1] == c.target && row.longs[2] == c.scale && row.longs[3] == c.offset && row.longs[4] == c.targetValue && row.longs[5] == c.precision;
    assert row.ints[0] == c.family && row.ints[1] == c.sourceClass && row.ints[2] == c.direction && row.ints[3] == c.transport && row.ints[4] == c.flags && row.ints[5] == c.reserved;
  }

  lemma OperatorReceiptIs(b: Bytes, at: nat, r: OperatorReceipt)
    requires at + 232 <= |b| && b[at..at + 232] == RowBytes(OperatorReceiptRow(r))
    ensures OperatorReceiptLies(b, at, r)
  {
    hide RowBytes, Int, Long;
    var row := OperatorReceiptRow(r);
    RowIs(b, at, row);
    assert row.digests[0] == r.id && row.digests[1] == r.operatorId && row.digests[2] == r.program && row.digests[3] == r.fieldSet && row.digests[4] == r.constraintSet;
    assert row.longs[0] == r.fields && row.longs[1] == r.inputConstraints && row.longs[2] == r.selectedConstraints && row.longs[3] == r.deduplicated;
    assert row.longs[4] == r.physicality && row.longs[5] == r.testimony && row.longs[6] == r.derived;
    assert row.ints[0] == r.planes && row.ints[1] == r.status && row.ints[2] == r.version && row.ints[3] == r.flags;
  }

  lemma SolverReceiptIs(b: Bytes, at: nat, r: SolverReceipt)
    requires at + 324 <= |b| && b[at..at + 324] == RowBytes(SolverReceiptRow(r))
    ensures SolverReceiptLies(b, at, r)
  {
    hide RowBytes, Int, Long;
    var row := SolverReceiptRow(r);
    RowIs(b, at, row);
    assert row.digests[0] == r.id && row.digests[1] == r.program && row.digests[2] == r.operatorId && row.digests[3] == r.operatorReceipt;
    assert row.digests[4] == r.precision && row.digests[5] == r.input && row.digests[6] == r.trace && row.digests[7] == r.output;
    assert row.longs[0] == r.fields && row.longs[1] == r.iterations && row.longs[2] == r.initialResidual && row.longs[3] == r.finalResidual && row.longs[4] == r.energy && row.longs[5] == r.regularization;
    assert row.ints[0] == r.algorithm && row.ints[1] == r.disposition && row.ints[2] == r.status && row.ints[3] == r.version && row.ints[4] == r.flags;
  }

  // ----- packets -----

  lemma {:induction false} FieldsLie(b: Bytes, at: nat, fs: seq<Field>)
    requires at + 160 * |fs| <= |b| && b[at..at + 160 * |fs|] == FieldsBytes(fs)
    ensures forall k | 0 <= k < |fs| :: FieldLies(b, at + 160 * k, fs[k])
    decreases |fs|
  {
    hide FieldBytes, FieldLies;
    if fs != [] {
      Halves(b, at, FieldBytes(fs[0]), FieldsBytes(fs[1..]));
      FieldIs(b, at, fs[0]);
      FieldsLie(b, at + 160, fs[1..]);
      forall k | 0 <= k < |fs|
        ensures FieldLies(b, at + 160 * k, fs[k])
      {
        if k > 0 {
          assert fs[1..][k - 1] == fs[k] && at + 160 + 160 * (k - 1) == at + 160 * k;
        }
      }
    }
  }

  /** Where constraint k starts: 264 bytes for each before it, and 240 more for each of
      those with a standing. */
  ghost function ConstraintStart(cs: seq<Constraint>, k: nat): nat
    requires k <= |cs|
  {
    if k == 0 then 0 else ConstraintStart(cs, k - 1) + 264 + if cs[k - 1].sourceClass == 4 then 240 else 0
  }

  lemma {:induction false} StartLater(cs: seq<Constraint>, k: nat)
    requires 0 < k <= |cs|
    ensures ConstraintStart(cs, k) == |ConstraintBytes(cs[0])| + ConstraintStart(cs[1..], k - 1)
  {
    hide RowBytes;
    if k > 1 {
      StartLater(cs, k - 1);
      assert cs[1..][k - 2] == cs[k - 1];
    }
  }

  lemma StartFirst(cs: seq<Constraint>)
    ensures ConstraintStart(cs, 0) == 0
  {
  }

  lemma ConstraintsSplit(cs: seq<Constraint>)
    ensures ConstraintsBytes(cs) == if cs == [] then [] else ConstraintBytes(cs[0]) + ConstraintsBytes(cs[1..])
  {
    hide ConstraintBytes;
  }

  lemma {:induction false} ConstraintsLie(b: Bytes, at: nat, cs: seq<Constraint>, k: nat)
    requires at + |ConstraintsBytes(cs)| <= |b| && b[at..at + |ConstraintsBytes(cs)|] == ConstraintsBytes(cs) && k < |cs|
    ensures ConstraintLies(b, at + ConstraintStart(cs, k), cs[k])
    decreases |cs|
  {
    hide ConstraintBytes, ConstraintsBytes, ConstraintLies, ConstraintStart;
    ConstraintsSplit(cs);
    var first, rest := ConstraintBytes(cs[0]), ConstraintsBytes(cs[1..]);
    Halves(b, at, first, rest);
    if k == 0 {
      StartFirst(cs);
      ConstraintIs(b, at, cs[0]);
    } else {
      StartLater(cs, k);
      ConstraintsLie(b, at + |first|, cs[1..], k - 1);
    }
  }

  lemma {:induction false} ConstraintsEnd(cs: seq<Constraint>)
    ensures |ConstraintsBytes(cs)| == ConstraintStart(cs, |cs|)
  {
    hide ConstraintBytes, ConstraintsBytes, ConstraintStart;
    ConstraintsSplit(cs);
    StartFirst(cs);
    if cs != [] {
      ConstraintsEnd(cs[1..]);
      StartLater(cs, |cs|);
    }
  }

  /** A request packet, field by field. */
  lemma RequestLayout(bytes: Bytes, version: U32, r: Request)
    requires Encodable(r) && Packet(version, r) == bytes
    ensures |bytes| == 344 + 4 * |r.families| + 160 * |r.fields| + ConstraintStart(r.constraints, |r.constraints|) + 8 * |r.initial|
    ensures bytes[..8] == [76, 65, 80, 67, 79, 71, 81, 49] && Int(bytes, 8) == version && Int(bytes, 12) == 0
    ensures Long(bytes, 16) == |r.families| && Long(bytes, 24) == |r.fields| && Long(bytes, 32) == |r.constraints| && Long(bytes, 40) == |r.initial|
    ensures OperatorLies(bytes, 48, r.operator) && SolverLies(bytes, 232, r.solver)
    ensures forall k | 0 <= k < |r.families| :: Int(bytes, 344 + 4 * k) == r.families[k]
    ensures forall k | 0 <= k < |r.fields| :: FieldLies(bytes, 344 + 4 * |r.families| + 160 * k, r.fields[k])
    ensures forall k | 0 <= k < |r.constraints| ::
      ConstraintLies(bytes, 344 + 4 * |r.families| + 160 * |r.fields| + ConstraintStart(r.constraints, k), r.constraints[k])
    ensures forall k | 0 <= k < |r.initial| :: Long(bytes, |bytes| - 8 * |r.initial| + 8 * k) == r.initial[k]
  {
    hide Packet, PutInts, PutLongs, OperatorBytes, SolverBytes, FieldsBytes, ConstraintsBytes, OperatorLies, SolverLies, FieldLies, ConstraintLies, Int, Long, ConstraintStart;
    Sections(bytes, version, r);
    var f := 344 + 4 * |r.families|;
    var g := f + 160 * |r.fields|;
    var constraints, initial := ConstraintsBytes(r.constraints), PutLongs(r.initial);
    assert bytes[g..|bytes|] == constraints + initial;
    Halves(bytes, g, constraints, initial);
    HeaderIs(bytes, 8, [version, PACKET_FLAGS]);
    CountsAre(bytes, Counts(r));
    OperatorIs(bytes, 48, r.operator);
    SolverIs(bytes, 232, r.solver);
    IntsLie(bytes, 344, r.families);
    FieldsLie(bytes, f, r.fields);
    ConstraintsEnd(r.constraints);
    forall k | 0 <= k < |r.constraints|
      ensures ConstraintLies(bytes, g + ConstraintStart(r.constraints, k), r.constraints[k])
    {
      ConstraintsLie(bytes, g, r.constraints, k);
    }
    LongsLie(bytes, g + |constraints|, r.initial);
  }

  lemma HeaderIs(b: Bytes, at: nat, xs: seq<U32>)
    requires |xs| == 2 && at + 8 <= |b| && b[at..at + 8] == PutInts(xs)
    ensures Int(b, at) == xs[0] && Int(b, at + 4) == xs[1]
  {
    hide PutInts, Int;
    IntsLie(b, at, xs);
    assert Int(b, at + 4 * 0) == xs[0] && Int(b, at + 4 * 1) == xs[1];
  }

  lemma CountsAre(b: Bytes, xs: seq<U64>)
    requires |xs| == 4 && 48 <= |b| && b[16..48] == PutLongs(xs)
    ensures Long(b, 16) == xs[0] && Long(b, 24) == xs[1] && Long(b, 32) == xs[2] && Long(b, 40) == xs[3]
  {
    hide PutLongs, Long;
    LongsLie(b, 16, xs);
    assert Long(b, 16 + 8 * 0) == xs[0] && Long(b, 16 + 8 * 1) == xs[1] && Long(b, 16 + 8 * 2) == xs[2] && Long(b, 16 + 8 * 3) == xs[3];
  }

  /** A result packet, field by field. */
  lemma ResultLayout(bytes: Bytes, version: U32, r: Result)
    requires |r.solution| < U64_LIMIT && ResultPacket(version, r) == bytes
    ensures |bytes| == 580 + 8 * |r.solution|
    ensures bytes[..8] == [76, 65, 80, 67, 79, 71, 82, 49] && Int(bytes, 8) == version && Int(bytes, 12) == 0 && Long(bytes, 16) == |r.solution|
    ensures OperatorReceiptLies(bytes, 24, r.operator) && SolverReceiptLies(bytes, 256, r.solver)
    ensures forall k | 0 <= k < |r.solution| :: Long(bytes, 580 + 8 * k) == r.solution[k]
  {
    hide ResultPacket, PutInts, PutLongs, RowBytes, OperatorReceiptLies, SolverReceiptLies, Int, Long;
    ResultSections(bytes, version, r);
    HeaderIs(bytes, 8, [version, PACKET_FLAGS]);
    LongsLie(bytes, 16, [|r.solution|]);
    assert Long(bytes, 16 + 8 * 0) == [|r.solution|][0];
    OperatorReceiptIs(bytes, 24, r.operator);
    SolverReceiptIs(bytes, 256, r.solver);
    LongsLie(bytes, 580, r.solution);
  }
}
