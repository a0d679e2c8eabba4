/** Solving (L + B R B + lambda I) x = b + B R g by conjugate gradients: the loops over
    the operator's constraints and the boundaries, and the iteration itself. */
module ConjugateGradients {
  import opened Vectors
  import opened QuadraticSystem
  import opened ConjugateTrace
  import opened SystemMeaning

  const METHOD_CONJUGATE_GRADIENT: nat := 1
  const PROGRAM_VERSION: nat := 1
  const KNOWN_FLAGS: nat := 3
  const BOUNDARY_GOAL: nat := 1
  const BOUNDARY_PRIOR: nat := 2

  /** Identities are digests; 0 is the zero digest. */
  datatype Program = Program(id: nat, operatorId: nat, resultContract: nat, maxIterations: nat,
                             absolute: real, relative: real, regularization: real,
                             algorithm: nat, flags: nat, version: nat, reserved: nat)

  datatype Operator = Operator(id: nat, fields: nat, terms: seq<Term>)

  datatype Status = Ok | ProgramInvalid | Range | BoundaryInvalid | OperatorMismatch | InvalidArgument

  datatype Disposition = InitiallySatisfied | Converged | IterationLimit | SingularDirection

  datatype Receipt = Receipt(iterations: nat, initialSquared: real, finalSquared: real, energy: real, disposition: Disposition)

  ghost predicate ValidOperator(op: Operator) {
    ValidTerms(op.terms, op.fields)
  }

  predicate ValidProgram(p: Program) {
    && p.id != 0 && p.operatorId != 0 && p.resultContract != 0 && p.maxIterations != 0
    && p.absolute >= 0.0 && p.relative >= 0.0 && p.regularization >= 0.0
    && !(p.absolute == 0.0 && p.relative == 0.0)
    && p.algorithm == METHOD_CONJUGATE_GRADIENT && p.flags <= KNOWN_FLAGS
    && p.version == PROGRAM_VERSION && p.reserved == 0
  }

  predicate ValidBoundary(b: Boundary, fields: nat) {
    && b.receipt != 0 && b.field < fields && b.precision > 0.0
    && (b.kind == BOUNDARY_GOAL || b.kind == BOUNDARY_PRIOR) && b.flags == 0 && b.reserved == 0
  }

  /** No witnessed boundary counts twice. */
  ghost predicate ValidBoundaries(boundaries: seq<Boundary>, fields: nat) {
    && (forall i | 0 <= i < |boundaries| :: ValidBoundary(boundaries[i], fields))
    && forall i, j | 0 <= i < j < |boundaries| :: boundaries[i].receipt != boundaries[j].receipt
  }

  ghost function Assemble(op: Operator, boundaries: seq<Boundary>, regularization: real): System {
    System(op.fields, op.terms + BoundaryTerms(boundaries), regularization)
  }

  ghost function Threshold(p: Program, initialSquared: real): real {
    if p.absolute * p.absolute >= p.relative * p.relative * initialSquared then p.absolute * p.absolute
    else p.relative * p.relative * initialSquared
  }

  // ----- a boundary is a constraint on one field -----

  lemma BoundaryScatter(b: Boundary, weight: real, out: Vec)
    requires b.field < |out| && b.precision > 0.0
    ensures Scatter(BoundaryTerm(b), weight, out) == AddAt(out, b.field, weight)
  {
    var once := AddAt(out, b.field, Mul(1.0, weight));
    assert Mul(1.0, weight) == weight && Mul(0.0, weight) == 0.0;
    assert AddAt(once, b.field, 0.0) == once;
  }

  lemma BoundaryLinear(b: Boundary, x: Vec)
    requires b.field < |x| && b.precision > 0.0
    ensures Linear(BoundaryTerm(b), x) == x[b.field]
  {
    assert Mul(1.0, x[b.field]) == x[b.field] && Mul(0.0, x[b.field]) == 0.0;
  }

  lemma BoundaryTermsValid(boundaries: seq<Boundary>, fields: nat)
    requires ValidBoundaries(boundaries, fields)
    ensures ValidTerms(BoundaryTerms(boundaries), fields)
  {
  }

  lemma AssembledValid(op: Operator, boundaries: seq<Boundary>, regularization: real)
    requires ValidOperator(op) && ValidBoundaries(boundaries, op.fields) && regularization >= 0.0
    ensures Assemble(op, boundaries, regularization).Valid()
    ensures ValidTerms(BoundaryTerms(boundaries), op.fields)
    ensures ValidTerms(op.terms + BoundaryTerms(boundaries), op.fields)
  {
    BoundaryTermsValid(boundaries, op.fields);
  }

  // ----- the operator first, the boundaries after it -----

  lemma {:induction false} LinearJoined(first: seq<Term>, second: seq<Term>, x: Vec, out: Vec, k: nat)
    requires ValidTerms(first, |x|) && ValidTerms(second, |x|) && ValidTerms(first + second, |x|)
    requires |out| == |x| && k <= |first| + |second|
    ensures LinearFrom(first + second, x, out, k) ==
      if k <= |first| then LinearFrom(first, x, out, k)
      else LinearFrom(second, x, LinearFrom(first, x, out, |first|), k - |first|)
  {
    hide Scatter, Linear;
    if k > 0 {
      LinearJoined(first, second, x, out, k - 1);
    }
  }

  lemma {:induction false} GradientJoined(first: seq<Term>, second: seq<Term>, x: Vec, out: Vec, k: nat)
    requires ValidTerms(first, |x|) && ValidTerms(second, |x|) && ValidTerms(first + second, |x|)
    requires |out| == |x| && k <= |first| + |second|
    ensures GradientFrom(first + second, x, out, k) ==
      if k <= |first| then GradientFrom(first, x, out, k)
      else GradientFrom(second, x, GradientFrom(first, x, out, |first|), k - |first|)
  {
    hide Scatter, Linear;
    if k > 0 {
      GradientJoined(first, second, x, out, k - 1);
    }
  }

  lemma {:induction false} EnergyJoined(first: seq<Term>, second: seq<Term>, x: Vec, k: nat)
    requires ValidTerms(first, |x|) && ValidTerms(second, |x|) && ValidTerms(first + second, |x|)
    requires k <= |first| + |second|
    ensures TermEnergy(first + second, x, k) ==
      if k <= |first| then TermEnergy(first, x, k)
      else TermEnergy(first, x, |first|) + TermEnergy(second, x, k - |first|)
  {
    hide HalfSquare, Linear;
    if k > 0 {
      EnergyJoined(first, second, x, k - 1);
    }
  }

  // ----- what the assembled system means -----

  /** Its energy: the operator's weighted squares, the weighted squared distances from the
      targets, and the regularization. */
  lemma CostIs(op: Operator, boundaries: seq<Boundary>, regularization: real, x: Vec)
    requires ValidOperator(op) && ValidBoundaries(boundaries, op.fields) && regularization >= 0.0 && |x| == op.fields
    ensures Assemble(op, boundaries, regularization).Valid()
    ensures Energy(Assemble(op, boundaries, regularization), x) == Cost(op.terms, boundaries, regularization, x)
  {
    hide TermEnergy, Squares, Distances, Dot;
    AssembledValid(op, boundaries, regularization);
    EnergyParts(Assemble(op, boundaries, regularization), op.terms, BoundaryTerms(boundaries), x);
    SquaresAre(op.terms, x, |op.terms|);
    DistancesAre(boundaries, x, |boundaries|);
  }

  /** And its gradient, field by field. */
  lemma SlopeIs(op: Operator, boundaries: seq<Boundary>, regularization: real, x: Vec, field: nat)
    requires ValidOperator(op) && ValidBoundaries(boundaries, op.fields) && regularization >= 0.0 && |x| == op.fields && field < op.fields
    ensures Assemble(op, boundaries, regularization).Valid()
    ensures Gradient(Assemble(op, boundaries, regularization), x)[field] == Slope(op.terms, boundaries, regularization, x, field)
  {
    hide GradientFrom, Pull, TargetPull;
    AssembledValid(op, boundaries, regularization);
    GradientParts(Assemble(op, boundaries, regularization), op.terms, BoundaryTerms(boundaries), x);
    var first := GradientFrom(op.terms, x, Zeros(op.fields), |op.terms|);
    PullIs(op.terms, x, Zeros(op.fields), field, |op.terms|);
    TargetPullIs(boundaries, x, first, field, |boundaries|);
  }

  /** The squared norms are compared with the square of the larger tolerance, which is
      comparing the norms themselves. */
  lemma ThresholdIs(p: Program, initial: real, norm: real)
    requires initial >= 0.0 && norm >= 0.0 && p.absolute >= 0.0 && p.relative >= 0.0
    ensures norm * norm <= Threshold(p, initial * initial) <==> norm <= p.absolute || norm <= p.relative * initial
  {
    SquaresOrdered(norm, p.absolute);
    SquaresOrdered(norm, p.relative * initial);
    assert (p.relative * initial) * (p.relative * initial) == p.relative * p.relative * (initial * initial);
  }

  lemma SquaresOrdered(a: real, b: real)
    requires a >= 0.0 && b >= 0.0
    ensures a * a <= b * b <==> a <= b
  {
    assert b * b - a * a == (b - a) * (b + a);
    if a > b {
      ProductPositive(a - b, b + a);
      assert (a - b) * (b + a) == -((b - a) * (b + a));
    }
  }

  // ----- loops -----

  method DotProduct(left: array<real>, right: array<real>) returns (total: real)
    requires left.Length == right.Length
    ensures total == Dot(left[..], right[..])
  {
    total := 0.0;
    for i := 0 to left.Length
      invariant total == DotTo(left[..], right[..], i)
    {
      total := total + left[i] * right[i];
    }
  }

  method Accumulate(term: Term, weighted: real, output: array<real>)
    requires ValidTerm(term, output.Length)
    modifies output
    ensures output[..] == Scatter(term, weighted, old(output[..]))
  {
    output[term.first] := output[term.first] + term.firstValue * weighted;
    assert term.firstValue * weighted == Mul(term.firstValue, weighted) && term.secondValue * weighted == Mul(term.secondValue, weighted);
    assert output[..] == AddAt(old(output[..]), term.first, Mul(term.firstValue, weighted));
    output[term.second] := output[term.second] + term.secondValue * weighted;
  }

  method Clear(output: array<real>)
    modifies output
    ensures output[..] == Zeros(output.Length)
  {
    for i := 0 to output.Length
      invariant forall j | 0 <= j < i :: output[j] == 0.0
    {
      output[i] := 0.0;
    }
  }

  /** The operator's gradient and energy at input. */
  method ApplyOperator(op: Operator, input: array<real>, output: array<real>) returns (energy: real)
    requires ValidOperator(op) && input.Length == op.fields == output.Length && input != output
    modifies output
    ensures output[..] == GradientFrom(op.terms, input[..], Zeros(op.fields), |op.terms|)
    ensures energy == TermEnergy(op.terms, input[..], |op.terms|)
  {
    hide Scatter;
    Clear(output);
    energy := 0.0;
    for k := 0 to |op.terms|
      invariant output[..] == GradientFrom(op.terms, input[..], Zeros(op.fields), k)
      invariant energy == TermEnergy(op.terms, input[..], k)
    {
      var term := op.terms[k];
      assert ValidTerm(term, op.fields);
      var residual := term.firstValue * input[term.first] + term.secondValue * input[term.second] + term.constant;
      assert residual == Linear(term, input[..]) + term.constant;
      Accumulate(term, term.precision * residual, output);
      assert term.precision * residual == Mul(term.precision, residual);
      energy := energy + 0.5 * term.precision * residual * residual;
      assert 0.5 * term.precision * residual * residual == HalfSquare(term.precision, residual);
    }
  }

  /** Only the linear part. */
  method ApplyOperatorLinear(op: Operator, input: array<real>, output: array<real>)
    requires ValidOperator(op) && input.Length == op.fields == output.Length && input != output
    modifies output
    ensures output[..] == LinearFrom(op.terms, input[..], Zeros(op.fields), |op.terms|)
  {
    hide Scatter;
    Clear(output);
    for k := 0 to |op.terms|
      invariant output[..] == LinearFrom(op.terms, input[..], Zeros(op.fields), k)
    {
      var term := op.terms[k];
      assert ValidTerm(term, op.fields);
      var homogeneous := term.firstValue * input[term.first] + term.secondValue * input[term.second];
      assert homogeneous == Linear(term, input[..]);
      Accumulate(term, term.precision * homogeneous, output);
      assert term.precision * homogeneous == Mul(term.precision, homogeneous);
    }
  }

  method ApplyBoundaryGradient(boundaries: seq<Boundary>, state: array<real>, gradient: array<real>)
    requires ValidBoundaries(boundaries, state.Length) && state.Length == gradient.Length && state != gradient
    requires ValidTerms(BoundaryTerms(boundaries), state.Length)
    modifies gradient
    ensures gradient[..] == GradientFrom(BoundaryTerms(boundaries), state[..], old(gradient[..]), |boundaries|)
  {
    hide Scatter, Linear;
    ghost var terms, x, start := BoundaryTerms(boundaries), state[..], gradient[..];
    for k := 0 to |boundaries|
      invariant gradient[..] == GradientFrom(terms, x, start, k)
    {
      var b := boundaries[k];
      var field := b.field;
      ghost var before, weight := gradient[..], b.precision * (state[field] - b.target);
      gradient[field] := gradient[field] + b.precision * (state[field] - b.target);
      assert gradient[..] == AddAt(before, field, weight);
      BoundaryScatter(b, weight, before);
      BoundaryLinear(b, x);
      assert Mul(b.precision, state[field] + -b.target) == weight;
    }
  }

  method ApplyBoundaryLinear(boundaries: seq<Boundary>, input: array<real>, output: array<real>)
    requires ValidBoundaries(boundaries, input.Length) && input.Length == output.Length && input != output
    requires ValidTerms(BoundaryTerms(boundaries), input.Length)
    modifies output
    ensures output[..] == LinearFrom(BoundaryTerms(boundaries), input[..], old(output[..]), |boundaries|)
  {
    hide Scatter, Linear;
    ghost var terms, x, start := BoundaryTerms(boundaries), input[..], output[..];
    for k := 0 to |boundaries|
      invariant output[..] == LinearFrom(terms, x, start, k)
    {
      var b := boundaries[k];
      var field := b.field;
      ghost var before, weight := output[..], b.precision * input[field];
      output[field] := output[field] + b.precision * input[field];
      assert output[..] == AddAt(before, field, weight);
      BoundaryScatter(b, weight, before);
      BoundaryLinear(b, x);
      assert Mul(b.precision, input[field]) == weight;
    }
  }

  method BoundaryEnergy(boundaries: seq<Boundary>, state: array<real>) returns (total: real)
    requires ValidBoundaries(boundaries, state.Length)
    requires ValidTerms(BoundaryTerms(boundaries), state.Length)
    ensures total == TermEnergy(BoundaryTerms(boundaries), state[..], |boundaries|)
  {
    hide Linear;
    total := 0.0;
    for k := 0 to |boundaries|
      invariant total == TermEnergy(BoundaryTerms(boundaries), state[..], k)
    {
      var b := boundaries[k];
      var residual := state[b.field] - b.target;
      total := total + 0.5 * b.precision * residual * residual;
      BoundaryLinear(b, state[..]);
      assert 0.5 * b.precision * residual * residual == HalfSquare(b.precision, residual);
    }
  }

  method Regularize(regularization: real, input: array<real>, output: array<real>)
    requires input.Length == output.Length && input != output
    modifies output
    ensures output[..] == Axpy(old(output[..]), regularization, input[..])
  {
    ghost var goal := Axpy(output[..], regularization, input[..]);
    for i := 0 to output.Length
      invariant forall j | 0 <= j < i :: output[j] == goal[j]
      invariant forall j | i <= j < output.Length :: output[j] == old(output[j])
    {
      output[i] := output[i] + regularization * input[i];
    }
    assert output[..] == goal;
  }

  /** One product with the assembled operator. */
  method ApplyLinearRegularized(op: Operator, boundaries: seq<Boundary>, regularization: real, input: array<real>, output: array<real>)
    requires ValidOperator(op) && ValidBoundaries(boundaries, op.fields) && regularization >= 0.0
    requires Assemble(op, boundaries, regularization).Valid()
    requires input.Length == op.fields == output.Length && input != output
    modifies output
    ensures output[..] == Apply(Assemble(op, boundaries, regularization), input[..])
  {
    hide LinearFrom;
    AssembledValid(op, boundaries, regularization);
    ApplyOperatorLinear(op, input, output);
    ApplyBoundaryLinear(boundaries, input, output);
    AppliedParts(Assemble(op, boundaries, regularization), op.terms, BoundaryTerms(boundaries), input[..]);
    Regularize(regularization, input, output);
  }

  lemma LinearFromNone(terms: seq<Term>, x: Vec, out: Vec)
    requires ValidTerms(terms, |x|) && |out| == |x|
    ensures LinearFrom(terms, x, out, 0) == out
  {
  }

  lemma {:induction false} AppliedParts(s: System, first: seq<Term>, second: seq<Term>, x: Vec)
    requires s.Valid() && |x| == s.n && s.terms == first + second
    requires ValidTerms(first, |x|) && ValidTerms(second, |x|) && ValidTerms(first + second, |x|)
    ensures var sum := LinearFrom(second, x, LinearFrom(first, x, Zeros(s.n), |first|), |second|);
      Apply(s, x) == Axpy(sum, s.regularization, x)
  {
    hide LinearFrom, Axpy, ValidTerm, ValidTerms, Zeros, Linear, Scatter;
    LinearJoined(first, second, x, Zeros(s.n), |first| + |second|);
    LinearFromNone(second, x, LinearFrom(first, x, Zeros(s.n), |first|));
  }

  lemma GradientFromNone(terms: seq<Term>, x: Vec, out: Vec)
    requires ValidTerms(terms, |x|) && |out| == |x|
    ensures GradientFrom(terms, x, out, 0) == out
  {
  }

  lemma {:induction false} GradientParts(s: System, first: seq<Term>, second: seq<Term>, x: Vec)
    requires s.Valid() && |x| == s.n && s.terms == first + second
    requires ValidTerms(first, |x|) && ValidTerms(second, |x|) && ValidTerms(first + second, |x|)
    ensures var sum := GradientFrom(second, x, GradientFrom(first, x, Zeros(s.n), |first|), |second|);
      Gradient(s, x) == Axpy(sum, s.regularization, x)
  {
    hide GradientFrom, Axpy, ValidTerm, ValidTerms, Zeros, Linear, Scatter;
    GradientJoined(first, second, x, Zeros(s.n), |first| + |second|);
    GradientFromNone(second, x, GradientFrom(first, x, Zeros(s.n), |first|));
  }

  lemma TermEnergyNone(terms: seq<Term>, x: Vec)
    requires ValidTerms(terms, |x|)
    ensures TermEnergy(terms, x, 0) == 0.0
  {
  }

  lemma {:induction false} EnergyParts(s: System, first: seq<Term>, second: seq<Term>, x: Vec)
    requires s.Valid() && |x| == s.n && s.terms == first + second
    requires ValidTerms(first, |x|) && ValidTerms(second, |x|) && ValidTerms(first + second, |x|)
    ensures Energy(s, x) ==
      TermEnergy(first, x, |first|) + TermEnergy(second, x, |second|) + 0.5 * s.regularization * Dot(x, x)
  {
    hide TermEnergy, Dot, ValidTerm, ValidTerms, HalfSquare, Linear;
    EnergyJoined(first, second, x, |first| + |second|);
    TermEnergyNone(second, x);
    assert TermEnergy(s.terms, x, |s.terms|) == TermEnergy(first, x, |first|) + TermEnergy(second, x, |second|) by {
      assert |s.terms| == |first| + |second|;
      if second == [] {
        assert first + second == first;
      }
    }
  }

  // ----- one iteration -----

  method MoveAlong(x: array<real>, residual: array<real>, alpha: real, direction: array<real>, product: array<real>)
    requires x.Length == residual.Length == direction.Length == product.Length
    requires x != residual && x != direction && x != product && residual != direction && residual != product
    modifies x, residual
    ensures x[..] == Axpy(old(x[..]), alpha, direction[..])
    ensures residual[..] == Axpy(old(residual[..]), -alpha, product[..])
  {
    ghost var nextX, nextResidual := Axpy(x[..], alpha, direction[..]), Axpy(residual[..], -alpha, product[..]);
    for i := 0 to x.Length
      invariant forall j | 0 <= j < i :: x[j] == nextX[j] && residual[j] == nextResidual[j]
      invariant forall j | i <= j < x.Length :: x[j] == old(x[j]) && residual[j] == old(residual[j])
    {
      x[i] := x[i] + alpha * direction[i];
      residual[i] := residual[i] - alpha * product[i];
      assert (-alpha) * product[i] == -(alpha * product[i]);
    }
    assert x[..] == nextX && residual[..] == nextResidual;
  }

  method Turn(direction: array<real>, residual: array<real>, beta: real)
    requires direction.Length == residual.Length && direction != residual
    modifies direction
    ensures direction[..] == Axpy(residual[..], beta, old(direction[..]))
  {
    ghost var goal := Axpy(residual[..], beta, direction[..]);
    for i := 0 to direction.Length
      invariant forall j | 0 <= j < i :: direction[j] == goal[j]
      invariant forall j | i <= j < direction.Length :: direction[j] == old(direction[j])
    {
      direction[i] := residual[i] + beta * direction[i];
    }
    assert direction[..] == goal;
  }

  datatype Outcome = Singular | Small | Going

  /** The arrays hold the last entries of the trace and the direction to take next. */
  ghost predicate Holds(s: System, t: Trace, x: Vec, r: Vec, d: Vec) {
    DirectionOk(s, t, d) && x == t.x[|t.d|] && r == t.r[|t.d|]
  }

  ghost predicate Distinct(x: array<real>, residual: array<real>, direction: array<real>, product: array<real>, n: nat) {
    && x.Length == residual.Length == direction.Length == product.Length == n
    && x != residual && x != direction && x != product
    && residual != direction && residual != product && direction != product
  }

  lemma HoldsMoved(s: System, t: Trace, x: Vec, r: Vec, d: Vec, alpha: real)
    requires Holds(s, t, x, r, d)
    ensures var longer := Extended(s, t, d, alpha); var k := |t.d|;
      && |longer.d| == k + 1 && |longer.x| == |longer.r| == k + 2
      && longer.x[k + 1] == Axpy(x, alpha, d) && longer.r[k + 1] == Axpy(r, -alpha, Apply(s, d)) && longer.r[k] == r
  {
    hide Dot, Axpy, Apply, Gradient, StepOk, IsDirection, Negate;
  }

  lemma HoldsTurned(s: System, t: Trace, x: Vec, r: Vec, d: Vec, last: Vec, beta: real)
    requires TraceOk(s, t) && t.d != [] && x == t.x[|t.d|] && r == t.r[|t.d|] && last == t.d[|t.d| - 1]
    requires beta == Ratio(Dot(r, r), Dot(t.r[|t.d| - 1], t.r[|t.d| - 1])) && d == Axpy(r, beta, last)
    ensures Holds(s, t, x, r, d)
  {
    hide Dot, Axpy, Apply, Gradient, StepOk, IsDirection, Negate, Ratio, DirectionOk;
    NextDirection(s, t, beta);
  }

  lemma HoldsSized(s: System, t: Trace, x: Vec, r: Vec, d: Vec)
    requires Holds(s, t, x, r, d)
    ensures s.Valid() && TraceOk(s, t) && |x| == |r| == |d| == s.n && Sized(s, t)
  {
    hide Dot, Axpy, Apply, Gradient, StepOk, IsDirection, Negate;
  }

  lemma HoldsExtends(s: System, t: Trace, x: Vec, r: Vec, d: Vec, alpha: real)
    requires Holds(s, t, x, r, d) && |r| == |d| == s.n && s.Valid()
    requires Dot(r, r) > 0.0 && Dot(d, Apply(s, d)) > 0.0 && alpha == Ratio(Dot(r, r), Dot(d, Apply(s, d)))
    ensures TraceOk(s, Extended(s, t, d, alpha))
  {
    hide Dot, Axpy, Apply, Gradient, StepOk, IsDirection, Negate, Ratio;
    ExtendTrace(s, t, d, alpha);
  }

  /** One pass of the loop: curvature test, step, convergence test, new direction. */
  method Iterate(op: Operator, boundaries: seq<Boundary>, regularization: real, ghost t: Trace,
                 x: array<real>, residual: array<real>, direction: array<real>, product: array<real>,
                 squared: real, threshold: real)
    returns (outcome: Outcome, next: real, ghost after: Trace)
    requires ValidOperator(op) && ValidBoundaries(boundaries, op.fields) && regularization >= 0.0
    requires Distinct(x, residual, direction, product, op.fields)
    requires Holds(Assemble(op, boundaries, regularization), t, x[..], residual[..], direction[..])
    requires squared == Dot(residual[..], residual[..]) > 0.0
    modifies x, residual, direction, product
    ensures var s := Assemble(op, boundaries, regularization); var d := old(direction[..]);
      && s.Valid() && |d| == s.n && Sized(s, t)
      && (outcome.Singular? <==> Dot(d, Apply(s, d)) <= 0.0)
      && (if outcome.Singular? then
            after == t && next == squared && x[..] == old(x[..]) && residual[..] == old(residual[..])
          else
            && after == Extended(s, t, d, Ratio(squared, Dot(d, Apply(s, d)))) && TraceOk(s, after)
            && x[..] == after.x[|after.d|] && residual[..] == after.r[|after.d|])
    ensures next == Dot(residual[..], residual[..])
    ensures outcome.Small? ==> next <= threshold
    ensures outcome.Going? ==> next > threshold && Holds(Assemble(op, boundaries, regularization), after, x[..], residual[..], direction[..])
  {
    hide Dot, DotTo, Axpy, Apply, Ratio, TraceOk, DirectionOk, Holds, Extended, Assemble, Sized, ValidBoundaries, ValidTerms;
    ghost var s, x0, r0, d0 := Assemble(op, boundaries, regularization), x[..], residual[..], direction[..];
    HoldsSized(s, t, x0, r0, d0);
    AssembledFields(op, boundaries, regularization);
    ApplyLinearRegularized(op, boundaries, regularization, direction, product);
    var denominator := DotProduct(direction, product);
    if denominator <= 0.0 {
      return Singular, squared, t;
    }
    var alpha := squared / denominator;
    MoveAlong(x, residual, alpha, direction, product);
    after := Extended(s, t, d0, alpha);
    RatioIs(squared, denominator);
    HoldsExtends(s, t, x0, r0, d0, alpha);
    HoldsMoved(s, t, x0, r0, d0, alpha);
    next := DotProduct(residual, residual);
    if next <= threshold {
      return Small, next, after;
    }
    var beta := next / squared;
    Turn(direction, residual, beta);
    RatioIs(next, squared);
    LastDirection(s, t, d0, alpha);
    HoldsTurned(s, after, x[..], residual[..], direction[..], d0, beta);
    outcome := Going;
  }

  lemma AssembledFields(op: Operator, boundaries: seq<Boundary>, regularization: real)
    ensures var s := Assemble(op, boundaries, regularization); s.n == op.fields && s.regularization == regularization
  {
  }

  lemma RatioIs(a: real, b: real)
    requires b > 0.0
    ensures Ratio(a, b) == a / b
  {
  }

  lemma LastDirection(s: System, t: Trace, d: Vec, alpha: real)
    requires Sized(s, t) && |d| == s.n
    ensures var longer := Extended(s, t, d, alpha); |longer.d| == |t.d| + 1 && longer.d[|t.d|] == d
  {
    hide Axpy, Apply;
  }

  // ----- the whole solve -----

  method BoundariesValid(boundaries: seq<Boundary>, fields: nat) returns (valid: bool)
    ensures valid <==> ValidBoundaries(boundaries, fields)
  {
    var receipts: set<nat> := {};
    for index := 0 to |boundaries|
      invariant forall i | 0 <= i < index :: ValidBoundary(boundaries[i], fields) && boundaries[i].receipt in receipts
      invariant forall i, j | 0 <= i < j < index :: boundaries[i].receipt != boundaries[j].receipt
      invariant forall r | r in receipts :: exists i | 0 <= i < index :: boundaries[i].receipt == r
    {
      var boundary := boundaries[index];
      if !ValidBoundary(boundary, fields) || boundary.receipt in receipts {
        return false;
      }
      receipts := receipts + {boundary.receipt};
    }
    return true;
  }

  method InitialGradient(op: Operator, boundaries: seq<Boundary>, regularization: real, x: array<real>, gradient: array<real>)
    requires ValidOperator(op) && ValidBoundaries(boundaries, op.fields) && regularization >= 0.0
    requires Assemble(op, boundaries, regularization).Valid()
    requires x.Length == op.fields == gradient.Length && x != gradient
    modifies gradient
    ensures gradient[..] == Gradient(Assemble(op, boundaries, regularization), x[..])
  {
    hide GradientFrom, TermEnergy;
    AssembledValid(op, boundaries, regularization);
    var energy := ApplyOperator(op, x, gradient);
    ApplyBoundaryGradient(boundaries, x, gradient);
    GradientParts(Assemble(op, boundaries, regularization), op.terms, BoundaryTerms(boundaries), x[..]);
    Regularize(regularization, x, gradient);
  }

  method FinalEnergy(op: Operator, boundaries: seq<Boundary>, regularization: real, x: array<real>) returns (total: real)
    requires ValidOperator(op) && ValidBoundaries(boundaries, op.fields) && regularization >= 0.0
    requires Assemble(op, boundaries, regularization).Valid()
    requires x.Length == op.fields
    ensures total == Energy(Assemble(op, boundaries, regularization), x[..])
  {
    hide GradientFrom, TermEnergy, Dot;
    AssembledValid(op, boundaries, regularization);
    var scratch := new real[op.fields];
    var operatorEnergy := ApplyOperator(op, x, scratch);
    var norm := DotProduct(x, x);
    var boundaryEnergy := BoundaryEnergy(boundaries, x);
    total := operatorEnergy + boundaryEnergy + 0.5 * regularization * norm;
    EnergyParts(Assemble(op, boundaries, regularization), op.terms, BoundaryTerms(boundaries), x[..]);
  }

  ghost function Start(s: System, x: Vec): (t: Trace)
    requires s.Valid() && |x| == s.n
  {
    Trace([x], [Negate(Gradient(s, x))], [], [])
  }

  lemma StartHolds(s: System, x: Vec)
    requires s.Valid() && |x| == s.n
    ensures TraceOk(s, Start(s, x))
    ensures Holds(s, Start(s, x), x, Negate(Gradient(s, x)), Negate(Gradient(s, x)))
  {
    hide Dot, Gradient, Apply;
  }

  /** What a solve that ends normally has done, and why it ended. */
  ghost predicate Solved(s: System, p: Program, t: Trace, x0: Vec, x: Vec, receipt: Receipt) {
    && TraceOk(s, t) && t.x[0] == x0 && t.x[|t.d|] == x
    && receipt.iterations == |t.d|
    && receipt.initialSquared == Dot(t.r[0], t.r[0]) && receipt.finalSquared == Dot(t.r[|t.d|], t.r[|t.d|])
    && receipt.energy == Energy(s, x)
    && Ended(s, p.maxIterations, Threshold(p, receipt.initialSquared), t, receipt.finalSquared, receipt.disposition)
  }

  /** Every residual before the last was too large, and the disposition says exactly
      why there was no further step. */
  ghost predicate Ended(s: System, maxIterations: nat, threshold: real, t: Trace, squared: real, disposition: Disposition) {
    && TraceOk(s, t) && |t.d| <= maxIterations
    && (forall i | 0 <= i < |t.d| :: Dot(t.r[i], t.r[i]) > threshold)
    && match disposition
       case InitiallySatisfied => squared <= threshold && t.d == []
       case Converged => squared <= threshold && t.d != []
       case IterationLimit => squared > threshold && |t.d| == maxIterations
       case SingularDirection => squared > threshold && exists d: Vec :: FlatDirection(s, t, d)
  }

  ghost predicate FlatDirection(s: System, t: Trace, d: Vec) {
    DirectionOk(s, t, d) && s.Valid() && |d| == s.n && Dot(d, Apply(s, d)) <= 0.0
  }

  lemma NeverFlat(s: System, t: Trace, d: Vec)
    requires TraceOk(s, t) && Dot(t.r[|t.d|], t.r[|t.d|]) > 0.0
    ensures !FlatDirection(s, t, d)
  {
    hide Dot, Apply, StepOk, IsDirection, DirectionOk, TraceOk;
    if FlatDirection(s, t, d) {
      PositiveCurvature(s, t, d);
    }
  }

  lemma ThresholdNonnegative(p: Program, initialSquared: real)
    ensures Threshold(p, initialSquared) >= 0.0
  {
    Square(p.absolute);
  }

  /** The solve never gave up on a direction, and it met its tolerance unless it was
      allowed fewer iterations than there are fields. */
  ghost predicate Settled(p: Program, fields: nat, receipt: Receipt) {
    && !receipt.disposition.SingularDirection? && receipt.iterations <= fields
    && (p.maxIterations >= fields ==> receipt.finalSquared <= Threshold(p, receipt.initialSquared))
  }

  /** No direction is singular, regularised or not, and the solve always reaches its
      tolerance when it may take as many iterations as there are fields. */
  lemma Converges(s: System, p: Program, t: Trace, x0: Vec, x: Vec, receipt: Receipt)
    requires Solved(s, p, t, x0, x, receipt)
    ensures Settled(p, s.n, receipt)
  {
    hide Dot, Apply, StepOk, IsDirection, Energy, Threshold, FlatDirection, Gradient, Axpy, Negate;
    ThresholdNonnegative(p, receipt.initialSquared);
    StepsAtMostFields(s, t);
    if receipt.disposition.SingularDirection? {
      var d: Vec :| FlatDirection(s, t, d);
      NeverFlat(s, t, d);
    }
  }

  /** The receipt in the numbers of constraints and boundaries: the energy at the answer,
      and the residual left there, which is what still pulls at each field. */
  lemma AnswerMeans(op: Operator, p: Program, boundaries: seq<Boundary>, t: Trace, x0: Vec, x: Vec, receipt: Receipt, field: nat)
    requires ValidOperator(op) && ValidBoundaries(boundaries, op.fields) && p.regularization >= 0.0
    requires Solved(Assemble(op, boundaries, p.regularization), p, t, x0, x, receipt) && |x| == op.fields && field < op.fields
    ensures receipt.energy == Cost(op.terms, boundaries, p.regularization, x)
    ensures |t.r| == |t.d| + 1 && |t.r[|t.d|]| == op.fields && receipt.finalSquared == Dot(t.r[|t.d|], t.r[|t.d|])
    ensures t.r[|t.d|][field] == -Slope(op.terms, boundaries, p.regularization, x, field)
  {
    hide Dot, DotTo, Apply, Gradient, StepOk, IsDirection, Energy, Threshold, Ended, Cost, Slope, ValidTerms;
    var s := Assemble(op, boundaries, p.regularization);
    CostIs(op, boundaries, p.regularization, x);
    SlopeIs(op, boundaries, p.regularization, x, field);
    LastResidual(s, t);
    assert t.x[|t.d|] == x;
  }

  lemma LastResidual(s: System, t: Trace)
    requires TraceOk(s, t)
    ensures s.Valid() && |t.x| == |t.r| == |t.d| + 1 && |t.x[|t.d|]| == s.n && t.r[|t.d|] == Negate(Gradient(s, t.x[|t.d|]))
  {
    hide Dot, Apply, StepOk, IsDirection, Gradient, Axpy, Negate;
  }

  /** The answer of a solve, against every other point. */
  lemma SolvedNearMinimum(s: System, p: Program, t: Trace, x0: Vec, x: Vec, receipt: Receipt, y: Vec)
    requires Solved(s, p, t, x0, x, receipt) && |y| == s.n
    ensures |x| == |x0| == s.n && s.Valid()
    ensures receipt.energy <= Energy(s, x0)
    ensures 2.0 * s.regularization * (receipt.energy - Energy(s, y)) <= receipt.finalSquared
    ensures receipt.finalSquared == 0.0 ==> receipt.energy <= Energy(s, y)
  {
    hide Dot, DotTo, Apply, Gradient, StepOk, IsDirection, Energy, Threshold, Negate, Ended;
    EnergyFalls(s, t, 0, |t.d|);
    ResidualBoundsEnergy(s, t, |t.d|, y);
  }

  /** What holds at the head of the loop: the trace so far, every residual of it too
      large. */
  ghost predicate Underway(s: System, t: Trace, x0: Vec, r0: Vec, threshold: real, x: Vec, r: Vec, d: Vec) {
    && Holds(s, t, x, r, d) && t.x[0] == x0 && t.r[0] == r0
    && forall i | 0 <= i < |t.r| :: Dot(t.r[i], t.r[i]) > threshold
  }

  lemma UnderwayHolds(s: System, t: Trace, x0: Vec, r0: Vec, threshold: real, x: Vec, r: Vec, d: Vec)
    requires Underway(s, t, x0, r0, threshold, x, r, d)
    ensures Holds(s, t, x, r, d) && Dot(r, r) > threshold && TraceOk(s, t)
    ensures t.x[0] == x0 && t.r[0] == r0 && t.x[|t.d|] == x && t.r[|t.d|] == r
  {
    hide Dot, Apply, StepOk, IsDirection, Gradient, Axpy, Negate, DirectionOk;
    HoldsSized(s, t, x, r, d);
    HoldsLast(s, t, x, r, d);
  }

  lemma HoldsLast(s: System, t: Trace, x: Vec, r: Vec, d: Vec)
    requires Holds(s, t, x, r, d)
    ensures |t.x| == |t.r| == |t.d| + 1 && t.x[|t.d|] == x && t.r[|t.d|] == r
  {
    hide Dot, Apply, StepOk, IsDirection, Gradient, Axpy, Negate;
  }

  lemma UnderwayEnds(s: System, maxIterations: nat, t: Trace, x0: Vec, r0: Vec, threshold: real, x: Vec, r: Vec, d: Vec, disposition: Disposition)
    requires Underway(s, t, x0, r0, threshold, x, r, d) && |t.d| <= maxIterations
    requires (disposition.IterationLimit? && |t.d| == maxIterations) || (disposition.SingularDirection? && FlatDirection(s, t, d))
    ensures Ended(s, maxIterations, threshold, t, Dot(r, r), disposition)
  {
    hide Dot, Apply, StepOk, IsDirection, Gradient, Axpy, Negate, FlatDirection;
  }

  /** One more step, kept or final. */
  lemma UnderwayExtends(s: System, t: Trace, x0: Vec, r0: Vec, threshold: real, x: Vec, r: Vec, d: Vec, alpha: real, after: Trace)
    requires Underway(s, t, x0, r0, threshold, x, r, d) && |d| == s.n && after == Extended(s, t, d, alpha) && TraceOk(s, after)
    ensures |after.d| == |t.d| + 1 && after.x[0] == x0 && after.r[0] == r0
    ensures forall i | 0 <= i < |after.d| :: Dot(after.r[i], after.r[i]) > threshold
  {
    hide Dot, Apply, StepOk, IsDirection, Gradient, Axpy, Negate;
    forall i | 0 <= i < |after.d|
      ensures Dot(after.r[i], after.r[i]) > threshold
    {
      assert after.r[i] == t.r[i];
    }
  }

  lemma UnderwayAgain(s: System, after: Trace, x0: Vec, r0: Vec, threshold: real, x: Vec, r: Vec, d: Vec)
    requires Holds(s, after, x, r, d) && Dot(r, r) > threshold && after.x[0] == x0 && after.r[0] == r0
    requires forall i | 0 <= i < |after.d| :: Dot(after.r[i], after.r[i]) > threshold
    ensures Underway(s, after, x0, r0, threshold, x, r, d)
  {
    hide Dot, Apply, StepOk, IsDirection, Gradient, Axpy, Negate;
  }

  lemma EndsSmall(s: System, maxIterations: nat, t: Trace, threshold: real, squared: real)
    requires TraceOk(s, t) && 0 < |t.d| <= maxIterations && squared <= threshold
    requires forall i | 0 <= i < |t.d| :: Dot(t.r[i], t.r[i]) > threshold
    ensures Ended(s, maxIterations, threshold, t, squared, Converged)
  {
    hide Dot, Apply, StepOk, IsDirection, Gradient, Axpy, Negate, FlatDirection;
  }

  /** The iteration, from a residual that is too large. */
  method Run(op: Operator, boundaries: seq<Boundary>, p: Program, x: array<real>, residual: array<real>, direction: array<real>,
             product: array<real>, ghost start: Trace, initialSquared: real, threshold: real)
    returns (iterations: nat, squared: real, disposition: Disposition, ghost t: Trace)
    requires ValidOperator(op) && ValidBoundaries(boundaries, op.fields) && p.regularization >= 0.0
    requires Distinct(x, residual, direction, product, op.fields)
    requires start.d == [] && threshold >= 0.0
    requires Underway(Assemble(op, boundaries, p.regularization), start, x[..], residual[..], threshold, x[..], residual[..], direction[..])
    requires initialSquared == Dot(residual[..], residual[..])
    modifies x, residual, direction, product
    ensures TraceOk(Assemble(op, boundaries, p.regularization), t)
    ensures t.x[0] == old(x[..]) && t.r[0] == old(residual[..])
    ensures t.x[|t.d|] == x[..] && iterations == |t.d| && squared == Dot(t.r[|t.d|], t.r[|t.d|])
    ensures Ended(Assemble(op, boundaries, p.regularization), p.maxIterations, threshold, t, squared, disposition)
    ensures !disposition.InitiallySatisfied?
  {
    hide Dot, DotTo, Apply, StepOk, IsDirection, Energy, DirectionOk, TraceOk, Holds, Extended, Assemble, ValidBoundaries, ValidTerms, Ended, Underway;
    ghost var s := Assemble(op, boundaries, p.regularization);
    ghost var x0, r0 := x[..], residual[..];
    t := start;
    squared := initialSquared;
    iterations := 0;
    while iterations < p.maxIterations
      invariant iterations == |t.d| <= p.maxIterations
      invariant Underway(s, t, x0, r0, threshold, x[..], residual[..], direction[..])
      invariant squared == Dot(residual[..], residual[..])
    {
      ghost var xi, ri, di := x[..], residual[..], direction[..];
      UnderwayHolds(s, t, x0, r0, threshold, xi, ri, di);
      var outcome, next, after := Iterate(op, boundaries, p.regularization, t, x, residual, direction, product, squared, threshold);
      if outcome.Singular? {
        disposition := SingularDirection;
        HoldsFlat(s, t, xi, ri, di);
        UnderwayEnds(s, p.maxIterations, t, x0, r0, threshold, xi, ri, di, disposition);
        return;
      }
      UnderwayExtends(s, t, x0, r0, threshold, xi, ri, di, Ratio(squared, Dot(di, Apply(s, di))), after);
      iterations, squared, t := iterations + 1, next, after;
      if outcome.Small? {
        disposition := Converged;
        EndsSmall(s, p.maxIterations, t, threshold, squared);
        return;
      }
      UnderwayAgain(s, t, x0, r0, threshold, x[..], residual[..], direction[..]);
    }
    disposition := IterationLimit;
    UnderwayHolds(s, t, x0, r0, threshold, x[..], residual[..], direction[..]);
    UnderwayEnds(s, p.maxIterations, t, x0, r0, threshold, x[..], residual[..], direction[..], disposition);
  }

  lemma HoldsFlat(s: System, t: Trace, x: Vec, r: Vec, d: Vec)
    requires Holds(s, t, x, r, d) && s.Valid() && |d| == s.n && Dot(d, Apply(s, d)) <= 0.0
    ensures FlatDirection(s, t, d)
  {
    hide Dot, Apply, DirectionOk;
  }

  /** The checks of a call, in order. */
  ghost function Refusal(op: Operator, p: Program, boundaries: seq<Boundary>, count: nat, capacity: nat): Status {
    if count == 0 then InvalidArgument
    else if !ValidProgram(p) then ProgramInvalid
    else if op.fields != count || capacity < op.fields then Range
    else if !ValidBoundaries(boundaries, op.fields) then BoundaryInvalid
    else if p.operatorId != op.id then OperatorMismatch
    else Ok
  }

  /** The calls that are accepted, in numbers. */
  lemma CallExactly(op: Operator, p: Program, boundaries: seq<Boundary>, count: nat, capacity: nat)
    ensures Refusal(op, p, boundaries, count, capacity) == Ok <==>
      && 1 <= count == op.fields <= capacity
      && 0 !in [p.id, p.operatorId, p.resultContract, p.maxIterations] && p.operatorId == op.id
      && p.regularization >= 0.0 && p.absolute >= 0.0 && p.relative >= 0.0 && p.absolute + p.relative > 0.0
      && p.algorithm == 1 && p.flags < 4 && p.version == 1 && p.reserved == 0
      && (forall i | 0 <= i < |boundaries| ::
        && boundaries[i].receipt != 0 && boundaries[i].field < op.fields && boundaries[i].precision > 0.0
        && 1 <= boundaries[i].kind <= 2 && boundaries[i].flags == 0 && boundaries[i].reserved == 0)
      && (forall i, j | 0 <= i < |boundaries| && 0 <= j < |boundaries| && boundaries[i].receipt == boundaries[j].receipt :: i == j)
  {
  }

  lemma StartUnderway(s: System, x: Vec, threshold: real)
    requires s.Valid() && |x| == s.n
    requires Dot(Negate(Gradient(s, x)), Negate(Gradient(s, x))) > threshold
    ensures Underway(s, Start(s, x), x, Negate(Gradient(s, x)), threshold, x, Negate(Gradient(s, x)), Negate(Gradient(s, x)))
  {
    hide Dot, Gradient, Apply;
    StartHolds(s, x);
  }

  lemma StartEnds(s: System, x: Vec, maxIterations: nat, threshold: real, squared: real)
    requires s.Valid() && |x| == s.n && squared <= threshold
    ensures Ended(s, maxIterations, threshold, Start(s, x), squared, InitiallySatisfied)
  {
    hide Dot, Gradient, Apply;
    StartHolds(s, x);
  }

  method Execute(op: Operator, p: Program, boundaries: seq<Boundary>, initial: array<real>, solution: array<real>)
    returns (status: Status, receipt: Receipt, ghost t: Trace)
    requires ValidOperator(op)
    modifies solution
    ensures status == Refusal(op, p, boundaries, initial.Length, solution.Length)
    ensures status != Ok ==> solution[..] == old(solution[..])
    ensures status == Ok ==>
      && op.fields <= solution.Length && solution[op.fields..] == old(solution[op.fields..])
      && Solved(Assemble(op, boundaries, p.regularization), p, t, old(initial[..]), solution[..op.fields], receipt)
      && Settled(p, op.fields, receipt)
    ensures status == Ok ==>
      && OnFields(boundaries, op.fields) && receipt.energy == Cost(op.terms, boundaries, p.regularization, solution[..op.fields])
  {
    hide Cost, Dot, DotTo, Apply, StepOk, IsDirection, Energy, DirectionOk, TraceOk, Holds, Extended, Ended, Underway, Gradient, Start, Threshold, Solved, Settled, Assemble;
    receipt, t := Receipt(0, 0.0, 0.0, 0.0, InitiallySatisfied), Trace([], [], [], []);
    if initial.Length == 0 {
      return InvalidArgument, receipt, t;
    }
    if !ValidProgram(p) {
      return ProgramInvalid, receipt, t;
    }
    if op.fields != initial.Length || solution.Length < op.fields {
      return Range, receipt, t;
    }
    var boundariesValid := BoundariesValid(boundaries, op.fields);
    if !boundariesValid {
      return BoundaryInvalid, receipt, t;
    }
    if p.operatorId != op.id {
      return OperatorMismatch, receipt, t;
    }
    var x := new real[op.fields](i requires 0 <= i < initial.Length reads initial => initial[i]);
    ghost var x0 := initial[..];
    assert x[..] == x0;
    receipt, t := Solve(op, p, boundaries, x);
    ghost var answer := x[..];
    assert Solved(Assemble(op, boundaries, p.regularization), p, t, x0, answer, receipt);
    forall i | 0 <= i < op.fields {
      solution[i] := x[i];
    }
    assert solution[..op.fields] == answer;
    assert solution[op.fields..] == old(solution[op.fields..]);
    status := Ok;
  }

  /** Turns the gradient into the first residual and direction. */
  method Oppose(residual: array<real>, direction: array<real>)
    requires residual.Length == direction.Length && residual != direction
    modifies residual, direction
    ensures residual[..] == direction[..] == Negate(old(residual[..]))
  {
    ghost var g := residual[..];
    for i := 0 to residual.Length
      invariant forall j | 0 <= j < i :: residual[j] == -g[j] && direction[j] == residual[j]
      invariant forall j | i <= j < residual.Length :: residual[j] == g[j]
    {
      residual[i] := -residual[i];
      direction[i] := residual[i];
    }
    assert residual[..] == Negate(g) && direction[..] == Negate(g);
  }

  /** The arithmetic of a call whose checks have passed. */
  method Solve(op: Operator, p: Program, boundaries: seq<Boundary>, x: array<real>) returns (receipt: Receipt, ghost t: Trace)
    requires ValidOperator(op) && ValidProgram(p) && ValidBoundaries(boundaries, op.fields) && x.Length == op.fields
    modifies x
    ensures Solved(Assemble(op, boundaries, p.regularization), p, t, old(x[..]), x[..], receipt)
    ensures Settled(p, op.fields, receipt)
    ensures receipt.energy == Cost(op.terms, boundaries, p.regularization, x[..])
  {
    hide Cost, Dot, DotTo, Apply, StepOk, IsDirection, Energy, DirectionOk, TraceOk, Holds, Extended, Ended, Underway, Gradient, ValidTerms, Assemble, ValidBoundaries, Settled;
    var residual, direction, product := new real[op.fields], new real[op.fields], new real[op.fields];
    ghost var s, x0 := Assemble(op, boundaries, p.regularization), x[..];
    AssembledValid(op, boundaries, p.regularization);
    AssembledFields(op, boundaries, p.regularization);
    InitialGradient(op, boundaries, p.regularization, x, residual);
    Oppose(residual, direction);
    var initialSquared := DotProduct(residual, residual);
    var threshold := Larger(p.absolute * p.absolute, p.relative * p.relative * initialSquared);
    ThresholdNonnegative(p, initialSquared);
    t := Start(s, x0);
    var iterations, squared, disposition := 0, initialSquared, InitiallySatisfied;
    StartHolds(s, x0);
    if initialSquared > threshold {
      StartUnderway(s, x0, threshold);
      iterations, squared, disposition, t := Run(op, boundaries, p, x, residual, direction, product, t, initialSquared, threshold);
    } else {
      StartEnds(s, x0, p.maxIterations, threshold, squared);
    }
    var energy := FinalEnergy(op, boundaries, p.regularization, x);
    receipt := Receipt(iterations, initialSquared, squared, energy, disposition);
    CostIs(op, boundaries, p.regularization, x[..]);
    TraceSized(s, t);
    assert threshold == Threshold(p, initialSquared);
    Converges(s, p, t, x0, x[..], receipt);
  }

  lemma TraceSized(s: System, t: Trace)
    requires TraceOk(s, t)
    ensures |t.x| == |t.r| == |t.d| + 1
  {
    hide Dot, Apply, StepOk, IsDirection, Gradient, Axpy, Negate;
  }

  function Larger(a: real, b: real): real {
    if a >= b then a else b
  }
}
