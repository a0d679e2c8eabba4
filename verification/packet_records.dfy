/** The records of the packet protocol, and the rows they are written as. */
module PacketRecords {
  import opened Octets
  import opened WireFormat
  import opened PacketRows

  const SOURCE_STANDING: U32 := 4
  const VERSION_PLAIN: U32 := 1
  const VERSION_STANDING: U32 := 2
  const PACKET_FLAGS: U32 := 0

  datatype OperatorProgram = OperatorProgram(id: Digest256, boundary: Digest256, context: Digest256, evidenceEpoch: Digest256, resultContract: Digest256,
                                             sourceMask: U32, flags: U32, tolerance: U64, version: U32, reserved: U32)

  datatype SolverProgram = SolverProgram(id: Digest256, resultContract: Digest256, maxIterations: U64, absolute: U64, relative: U64, regularization: U64,
                                         algorithm: U32, flags: U32, version: U32, reserved: U32, operatorId: Digest256)

  datatype Field = Field(id: Digest256, entity: Id128, physicality: Digest256, role: Digest256, recipe: Digest256, ordinal: U64, dimension: U32, flags: U32)

  datatype Standing = Standing(state: Digest256, coordinate: Digest256, arena: Digest256, prior: Digest256, epoch: Digest256, recipe: Digest256,
                               rating: U64, deviation: U64, volatility: U64, matches: U64, period: U64, recipeVersion: U32, flags: U32)

  datatype Constraint = Constraint(id: Digest256, plane: Digest256, law: Digest256, units: Digest256, evidenceRoot: Digest256, calculation: Digest256,
                                   source: U64, target: U64, scale: U64, offset: U64, targetValue: U64, precision: U64,
                                   family: U32, sourceClass: U32, direction: U32, transport: U32, flags: U32, reserved: U32, standing: Standing)

  datatype Boundary = Boundary(receipt: Digest256, field: U64, target: U64, precision: U64, kind: U32, flags: U32, reserved: U32)

  /** A request of the runtime.  A packet has no place for its boundaries. */
  datatype Request = Request(operator: OperatorProgram, solver: SolverProgram, families: seq<U32>, fields: seq<Field>, constraints: seq<Constraint>,
                             boundaries: seq<Boundary>, initial: seq<U64>)

  datatype OperatorReceipt = OperatorReceipt(id: Digest256, operatorId: Digest256, program: Digest256, fieldSet: Digest256, constraintSet: Digest256,
                                             fields: U64, inputConstraints: U64, selectedConstraints: U64, deduplicated: U64, physicality: U64, testimony: U64, derived: U64,
                                             planes: U32, status: U32, version: U32, flags: U32)

  datatype SolverReceipt = SolverReceipt(id: Digest256, program: Digest256, operatorId: Digest256, operatorReceipt: Digest256, precision: Digest256,
                                         input: Digest256, trace: Digest256, output: Digest256,
                                         fields: U64, iterations: U64, initialResidual: U64, finalResidual: U64, energy: U64, regularization: U64,
                                         algorithm: U32, disposition: U32, status: U32, version: U32, flags: U32)

  function NoStanding(): Standing {
    Standing(NoDigest(), NoDigest(), NoDigest(), NoDigest(), NoDigest(), NoDigest(), 0, 0, 0, 0, 0, 0, 0)
  }

  // ----- operator program: five digests, two numbers, the tolerance, two numbers -----

  function OperatorHead(p: OperatorProgram): Row {
    Row([p.id, p.boundary, p.context, p.evidenceEpoch, p.resultContract], [], [p.sourceMask, p.flags])
  }

  function OperatorTail(p: OperatorProgram): Row {
    Row([], [p.tolerance], [p.version, p.reserved])
  }

  function OperatorOf(head: Row, tail: Row): OperatorProgram
    requires RowShape(head, 5, 0, 2) && RowShape(tail, 0, 1, 2)
  {
    OperatorProgram(head.digests[0], head.digests[1], head.digests[2], head.digests[3], head.digests[4], head.ints[0], head.ints[1],
                    tail.longs[0], tail.ints[0], tail.ints[1])
  }

  lemma OperatorRows(p: OperatorProgram, head: Row, tail: Row)
    requires RowShape(head, 5, 0, 2) && RowShape(tail, 0, 1, 2)
    ensures RowShape(OperatorHead(p), 5, 0, 2) && RowShape(OperatorTail(p), 0, 1, 2)
    ensures OperatorOf(OperatorHead(p), OperatorTail(p)) == p
    ensures OperatorHead(OperatorOf(head, tail)) == head && OperatorTail(OperatorOf(head, tail)) == tail
  {
  }

  // ----- solver program; the operator identity is not written -----

  function SolverRow(p: SolverProgram): Row {
    Row([p.id, p.resultContract], [p.maxIterations, p.absolute, p.relative, p.regularization], [p.algorithm, p.flags, p.version, p.reserved])
  }

  function SolverOf(row: Row): SolverProgram
    requires RowShape(row, 2, 4, 4)
  {
    SolverProgram(row.digests[0], row.digests[1], row.longs[0], row.longs[1], row.longs[2], row.longs[3], row.ints[0], row.ints[1], row.ints[2], row.ints[3], NoDigest())
  }

  lemma SolverRows(p: SolverProgram, row: Row)
    requires RowShape(row, 2, 4, 4)
    ensures RowShape(SolverRow(p), 2, 4, 4) && SolverOf(SolverRow(p)) == p.(operatorId := NoDigest()) && SolverRow(SolverOf(row)) == row
  {
  }

  // ----- field: a digest, the entity, three digests, the ordinal, two numbers -----

  function FieldHead(f: Field): Row {
    Row([f.id], [], [])
  }

  function FieldTail(f: Field): Row {
    Row([f.physicality, f.role, f.recipe], [f.ordinal], [f.dimension, f.flags])
  }

  function FieldOf(head: Row, entity: Bytes, tail: Row): Field
    requires RowShape(head, 1, 0, 0) && |entity| == 16 && RowShape(tail, 3, 1, 2)
  {
    Field(head.digests[0], entity, tail.digests[0], tail.digests[1], tail.digests[2], tail.longs[0], tail.ints[0], tail.ints[1])
  }

  lemma FieldRows(f: Field, head: Row, entity: Bytes, tail: Row)
    requires RowShape(head, 1, 0, 0) && |entity| == 16 && RowShape(tail, 3, 1, 2)
    ensures RowShape(FieldHead(f), 1, 0, 0) && RowShape(FieldTail(f), 3, 1, 2) && FieldOf(FieldHead(f), f.entity, FieldTail(f)) == f
    ensures var g := FieldOf(head, entity, tail); FieldHead(g) == head && g.entity == entity && FieldTail(g) == tail
  {
  }

  // ----- standing -----

  function StandingRow(s: Standing): Row {
    Row([s.state, s.coordinate, s.arena, s.prior, s.epoch, s.recipe], [s.rating, s.deviation, s.volatility, s.matches, s.period], [s.recipeVersion, s.flags])
  }

  function StandingOf(row: Row): Standing
    requires RowShape(row, 6, 5, 2)
  {
    Standing(row.digests[0], row.digests[1], row.digests[2], row.digests[3], row.digests[4], row.digests[5],
             row.longs[0], row.longs[1], row.longs[2], row.longs[3], row.longs[4], row.ints[0], row.ints[1])
  }

  lemma StandingRows(s: Standing, row: Row)
    requires RowShape(row, 6, 5, 2)
    ensures RowShape(StandingRow(s), 6, 5, 2) && StandingOf(StandingRow(s)) == s && StandingRow(StandingOf(row)) == row
  {
  }

  // ----- constraint; the standing follows only a standing constraint -----

  function ConstraintRow(c: Constraint): Row {
    Row([c.id, c.plane, c.law, c.units, c.evidenceRoot, c.calculation], [c.source, c.target, c.scale, c.offset, c.targetValue, c.precision],
        [c.family, c.sourceClass, c.direction, c.transport, c.flags, c.reserved])
  }

  function ConstraintOf(row: Row, standing: Standing): Constraint
    requires RowShape(row, 6, 6, 6)
  {
    Constraint(row.digests[0], row.digests[1], row.digests[2], row.digests[3], row.digests[4], row.digests[5],
               row.longs[0], row.longs[1], row.longs[2], row.longs[3], row.longs[4], row.longs[5],
               row.ints[0], row.ints[1], row.ints[2], row.ints[3], row.ints[4], row.ints[5], standing)
  }

  lemma ConstraintRows(c: Constraint, row: Row, standing: Standing)
    requires RowShape(row, 6, 6, 6)
    ensures RowShape(ConstraintRow(c), 6, 6, 6) && ConstraintOf(ConstraintRow(c), c.standing) == c
    ensures ConstraintRow(ConstraintOf(row, standing)) == row
  {
  }

  // ----- receipts -----

  function OperatorReceiptRow(r: OperatorReceipt): Row {
    Row([r.id, r.operatorId, r.program, r.fieldSet, r.constraintSet],
        [r.fields, r.inputConstraints, r.selectedConstraints, r.deduplicated, r.physicality, r.testimony, r.derived], [r.planes, r.status, r.version, r.flags])
  }

  function OperatorReceiptOf(row: Row): OperatorReceipt
    requires RowShape(row, 5, 7, 4)
  {
    OperatorReceipt(row.digests[0], row.digests[1], row.digests[2], row.digests[3], row.digests[4],
                    row.longs[0], row.longs[1], row.longs[2], row.longs[3], row.longs[4], row.longs[5], row.longs[6],
                    row.ints[0], row.ints[1], row.ints[2], row.ints[3])
  }

  lemma OperatorReceiptRows(r: OperatorReceipt, row: Row)
    requires RowShape(row, 5, 7, 4)
    ensures RowShape(OperatorReceiptRow(r), 5, 7, 4) && OperatorReceiptOf(OperatorReceiptRow(r)) == r && OperatorReceiptRow(OperatorReceiptOf(row)) == row
  {
  }

  function SolverReceiptRow(r: SolverReceipt): Row {
    Row([r.id, r.program, r.operatorId, r.operatorReceipt, r.precision, r.input, r.trace, r.output],
        [r.fields, r.iterations, r.initialResidual, r.finalResidual, r.energy, r.regularization], [r.algorithm, r.disposition, r.status, r.version, r.flags])
  }

  function SolverReceiptOf(row: Row): SolverReceipt
    requires RowShape(row, 8, 6, 5)
  {
    SolverReceipt(row.digests[0], row.digests[1], row.digests[2], row.digests[3], row.digests[4], row.digests[5], row.digests[6], row.digests[7],
                  row.longs[0], row.longs[1], row.longs[2], row.longs[3], row.longs[4], row.longs[5],
                  row.ints[0], row.ints[1], row.ints[2], row.ints[3], row.ints[4])
  }

  lemma SolverReceiptRows(r: SolverReceipt, row: Row)
    requires RowShape(row, 8, 6, 5)
    ensures RowShape(SolverReceiptRow(r), 8, 6, 5) && SolverReceiptOf(SolverReceiptRow(r)) == r && SolverReceiptRow(SolverReceiptOf(row)) == row
  {
  }

  // ----- bytes of records -----

  function OperatorBytes(p: OperatorProgram): (b: Bytes)
    ensures |b| == 184
  {
    RowBytes(OperatorHead(p)) + RowBytes(OperatorTail(p))
  }

  function SolverBytes(p: SolverProgram): (b: Bytes)
    ensures |b| == 112
  {
    RowBytes(SolverRow(p))
  }

  function FieldBytes(f: Field): (b: Bytes)
    ensures |b| == 160
  {
    RowBytes(FieldHead(f)) + f.entity + RowBytes(FieldTail(f))
  }

  function ConstraintBytes(c: Constraint): (b: Bytes)
    ensures |b| == 264 + if c.sourceClass == SOURCE_STANDING then 240 else 0
  {
    RowBytes(ConstraintRow(c)) + if c.sourceClass == SOURCE_STANDING then RowBytes(StandingRow(c.standing)) else []
  }

  lemma OperatorBytesInjective(p: OperatorProgram, q: OperatorProgram)
    requires OperatorBytes(p) == OperatorBytes(q)
    ensures p == q
  {
    hide RowBytes;
    OperatorRows(p, OperatorHead(q), OperatorTail(q));
    OperatorRows(q, OperatorHead(p), OperatorTail(p));
    var b := OperatorBytes(p);
    assert b[..168] == RowBytes(OperatorHead(p)) == RowBytes(OperatorHead(q)) && b[168..] == RowBytes(OperatorTail(p)) == RowBytes(OperatorTail(q));
    RowInjective(OperatorHead(p), OperatorHead(q), 5, 0, 2);
    RowInjective(OperatorTail(p), OperatorTail(q), 0, 1, 2);
  }

  lemma SolverBytesInjective(p: SolverProgram, q: SolverProgram)
    requires SolverBytes(p) == SolverBytes(q)
    ensures p.(operatorId := NoDigest()) == q.(operatorId := NoDigest())
  {
    hide RowBytes;
    SolverRows(p, SolverRow(q));
    SolverRows(q, SolverRow(p));
    RowInjective(SolverRow(p), SolverRow(q), 2, 4, 4);
  }

  lemma FieldBytesInjective(f: Field, g: Field)
    requires FieldBytes(f) == FieldBytes(g)
    ensures f == g
  {
    hide RowBytes;
    FieldRows(f, FieldHead(g), g.entity, FieldTail(g));
    FieldRows(g, FieldHead(f), f.entity, FieldTail(f));
    var b := FieldBytes(f);
    assert b[..32] == RowBytes(FieldHead(f)) == RowBytes(FieldHead(g)) && b[32..48] == f.entity == g.entity;
    assert b[48..] == RowBytes(FieldTail(f)) == RowBytes(FieldTail(g));
    RowInjective(FieldHead(f), FieldHead(g), 1, 0, 0);
    RowInjective(FieldTail(f), FieldTail(g), 3, 1, 2);
  }

  /** A standing is written only where it belongs. */
  predicate StandingPlaced(c: Constraint) {
    c.sourceClass != SOURCE_STANDING ==> c.standing == NoStanding()
  }

  /** Two constraints whose bytes start the same string are the same. */
  lemma ConstraintPrefix(c: Constraint, e: Constraint, rest: Bytes, other: Bytes)
    requires StandingPlaced(c) && StandingPlaced(e) && ConstraintBytes(c) + rest == ConstraintBytes(e) + other
    ensures c == e && rest == other
  {
    hide RowBytes;
    ConstraintRows(c, ConstraintRow(e), e.standing);
    ConstraintRows(e, ConstraintRow(c), c.standing);
    var b := ConstraintBytes(c) + rest;
    assert b[..264] == RowBytes(ConstraintRow(c)) == RowBytes(ConstraintRow(e));
    RowInjective(ConstraintRow(c), ConstraintRow(e), 6, 6, 6);
    SameClass(c, e);
    if c.sourceClass == SOURCE_STANDING {
      StandingRows(c.standing, StandingRow(e.standing));
      StandingRows(e.standing, StandingRow(c.standing));
      assert b[264..504] == RowBytes(StandingRow(c.standing)) == RowBytes(StandingRow(e.standing));
      RowInjective(StandingRow(c.standing), StandingRow(e.standing), 6, 5, 2);
      assert b[504..] == rest == other;
    } else {
      assert b[264..] == rest == other;
    }
  }

  lemma SameClass(c: Constraint, e: Constraint)
    requires ConstraintRow(c) == ConstraintRow(e)
    ensures c.sourceClass == e.sourceClass
    ensures c == e.(standing := c.standing)
  {
    var standing := c.standing;
    ConstraintRows(c, ConstraintRow(c), standing);
    ConstraintRows(e.(standing := standing), ConstraintRow(c), standing);
  }
}
