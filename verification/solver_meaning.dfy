/** What the assembled system means, written out: the energy as a sum of squares and the
    gradient field by field, in the numbers of the constraints and of the boundaries. */
module SystemMeaning {
  import opened Vectors
  import opened QuadraticSystem

  ghost function Residual(term: Term, x: Vec): real
    requires ValidTerm(term, |x|)
  {
    term.firstValue * x[term.first] + term.secondValue * x[term.second] + term.constant
  }

  /** Half the weighted squares of the first k constraints. */
  ghost function Squares(terms: seq<Term>, x: Vec, k: nat): real
    requires ValidTerms(terms, |x|) && k <= |terms|
  {
    if k == 0 then 0.0
    else
      var term := terms[k - 1];
      Squares(terms, x, k - 1) + 0.5 * term.precision * Residual(term, x) * Residual(term, x)
  }

  /** What the first k constraints add to the gradient at a field. */
  ghost function Pull(terms: seq<Term>, x: Vec, field: nat, k: nat): real
    requires ValidTerms(terms, |x|) && k <= |terms|
  {
    if k == 0 then 0.0
    else
      var term := terms[k - 1];
      Pull(terms, x, field, k - 1)
      + (if term.first == field then term.firstValue * (term.precision * Residual(term, x)) else 0.0)
      + (if term.second == field then term.secondValue * (term.precision * Residual(term, x)) else 0.0)
  }

  ghost predicate OnFields(boundaries: seq<Boundary>, n: nat) {
    forall i | 0 <= i < |boundaries| :: boundaries[i].field < n && boundaries[i].precision > 0.0
  }

  /** Half the weighted squared distances of the bounded fields from their targets. */
  ghost function Distances(boundaries: seq<Boundary>, x: Vec, k: nat): real
    requires OnFields(boundaries, |x|) && k <= |boundaries|
  {
    if k == 0 then 0.0
    else
      var b := boundaries[k - 1];
      Distances(boundaries, x, k - 1) + 0.5 * b.precision * (x[b.field] - b.target) * (x[b.field] - b.target)
  }

  /** What the first k boundaries add to the gradient at a field. */
  ghost function TargetPull(boundaries: seq<Boundary>, x: Vec, field: nat, k: nat): real
    requires OnFields(boundaries, |x|) && k <= |boundaries|
  {
    if k == 0 then 0.0
    else
      var b := boundaries[k - 1];
      TargetPull(boundaries, x, field, k - 1) + if b.field == field then b.precision * (x[field] - b.target) else 0.0
  }

  lemma {:induction false} SquaresAre(terms: seq<Term>, x: Vec, k: nat)
    requires ValidTerms(terms, |x|) && k <= |terms|
    ensures TermEnergy(terms, x, k) == Squares(terms, x, k)
  {
    if k > 0 {
      SquaresAre(terms, x, k - 1);
      assert Linear(terms[k - 1], x) + terms[k - 1].constant == Residual(terms[k - 1], x);
    }
  }

  lemma ScatterAt(term: Term, weight: real, out: Vec, field: nat)
    requires ValidTerm(term, |out|) && field < |out|
    ensures Scatter(term, weight, out)[field] == out[field]
      + (if term.first == field then term.firstValue * weight else 0.0) + (if term.second == field then term.secondValue * weight else 0.0)
  {
  }

  lemma {:induction false} PullIs(terms: seq<Term>, x: Vec, out: Vec, field: nat, k: nat)
    requires ValidTerms(terms, |x|) && k <= |terms| && |out| == |x| && field < |x|
    ensures GradientFrom(terms, x, out, k)[field] == out[field] + Pull(terms, x, field, k)
  {
    hide Scatter;
    if k > 0 {
      PullIs(terms, x, out, field, k - 1);
      var term := terms[k - 1];
      assert Mul(term.precision, Linear(term, x) + term.constant) == term.precision * Residual(term, x);
      ScatterAt(term, term.precision * Residual(term, x), GradientFrom(terms, x, out, k - 1), field);
    }
  }

  lemma BoundaryResidual(b: Boundary, x: Vec)
    requires b.field < |x| && b.precision > 0.0
    ensures Residual(BoundaryTerm(b), x) == x[b.field] - b.target
  {
  }

  /** The energy of the boundaries is half the weighted squared distances from their
      targets. */
  lemma {:induction false} DistancesAre(boundaries: seq<Boundary>, x: Vec, k: nat)
    requires OnFields(boundaries, |x|) && k <= |boundaries|
    ensures ValidTerms(BoundaryTerms(boundaries), |x|)
    ensures TermEnergy(BoundaryTerms(boundaries), x, k) == Distances(boundaries, x, k)
  {
    hide HalfSquare;
    var terms := BoundaryTerms(boundaries);
    if k > 0 {
      DistancesAre(boundaries, x, k - 1);
      BoundaryResidual(boundaries[k - 1], x);
      HalfSquareIs(terms[k - 1].precision, Linear(terms[k - 1], x) + terms[k - 1].constant, x[boundaries[k - 1].field] - boundaries[k - 1].target);
    }
  }

  lemma HalfSquareIs(precision: real, residual: real, distance: real)
    requires residual == distance
    ensures HalfSquare(precision, residual) == 0.5 * precision * distance * distance
  {
  }

  /** Their gradient pulls each bounded field towards its targets. */
  lemma {:induction false} TargetPullIs(boundaries: seq<Boundary>, x: Vec, out: Vec, field: nat, k: nat)
    requires OnFields(boundaries, |x|) && k <= |boundaries| && |out| == |x| && field < |x|
    ensures ValidTerms(BoundaryTerms(boundaries), |x|)
    ensures GradientFrom(BoundaryTerms(boundaries), x, out, k)[field] == out[field] + TargetPull(boundaries, x, field, k)
  {
    hide Scatter;
    var terms := BoundaryTerms(boundaries);
    if k > 0 {
      TargetPullIs(boundaries, x, out, field, k - 1);
      var b := boundaries[k - 1];
      BoundaryResidual(b, x);
      var weight := Mul(terms[k - 1].precision, Linear(terms[k - 1], x) + terms[k - 1].constant);
      assert weight == b.precision * (x[b.field] - b.target);
      ScatterAt(terms[k - 1], weight, GradientFrom(terms, x, out, k - 1), field);
    }
  }

  /** The boundaries cost nothing exactly where every bounded field has its target. */
  lemma {:induction false} TargetsMet(boundaries: seq<Boundary>, x: Vec, k: nat)
    requires OnFields(boundaries, |x|) && k <= |boundaries|
    ensures Distances(boundaries, x, k) >= 0.0
    ensures Distances(boundaries, x, k) == 0.0 <==> forall i | 0 <= i < k :: x[boundaries[i].field] == boundaries[i].target
  {
    if k > 0 {
      TargetsMet(boundaries, x, k - 1);
      WeighedSquare(boundaries[k - 1].precision, x[boundaries[k - 1].field] - boundaries[k - 1].target);
    }
  }

  lemma ProductPositive(a: real, b: real)
    requires a > 0.0 && b > 0.0
    ensures a * b > 0.0
  {
  }

  lemma WeighedSquare(precision: real, distance: real)
    requires precision > 0.0
    ensures 0.5 * precision * distance * distance >= 0.0
    ensures 0.5 * precision * distance * distance == 0.0 <==> distance == 0.0
  {
    var weight := 0.5 * precision;
    if distance > 0.0 {
      ProductPositive(weight, distance);
      ProductPositive(weight * distance, distance);
    } else if distance < 0.0 {
      ProductPositive(weight, -distance);
      ProductPositive(weight * -distance, -distance);
      assert weight * -distance * -distance == weight * distance * distance;
    }
  }

  /** The energy of constraints and boundaries at a point, written out. */
  ghost function Cost(terms: seq<Term>, boundaries: seq<Boundary>, regularization: real, x: Vec): real
    requires ValidTerms(terms, |x|) && OnFields(boundaries, |x|)
  {
    Squares(terms, x, |terms|) + Distances(boundaries, x, |boundaries|) + 0.5 * regularization * Dot(x, x)
  }

  /** The gradient at a field, written out. */
  ghost function Slope(terms: seq<Term>, boundaries: seq<Boundary>, regularization: real, x: Vec, field: nat): real
    requires ValidTerms(terms, |x|) && OnFields(boundaries, |x|) && field < |x|
  {
    Pull(terms, x, field, |terms|) + TargetPull(boundaries, x, field, |boundaries|) + regularization * x[field]
  }
}
