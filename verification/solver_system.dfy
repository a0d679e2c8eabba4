/** The quadratic energy the solver minimises: weighted squares of the operator's
    constraints and of the boundaries, and a regularisation term. */
module QuadraticSystem {
  import opened Vectors

  /** An admitted constraint: precision / 2 (a x[first] + b x[second] + constant)^2. */
  datatype Term = Term(first: nat, second: nat, firstValue: real, secondValue: real, constant: real, precision: real)

  datatype Boundary = Boundary(receipt: nat, field: nat, target: real, precision: real, kind: nat, flags: nat, reserved: nat)

  datatype System = System(n: nat, terms: seq<Term>, regularization: real) {
    ghost predicate Valid() {
      && regularization >= 0.0
      && forall t | 0 <= t < |terms| :: ValidTerm(terms[t], n)
    }
  }

  ghost predicate ValidTerm(term: Term, n: nat) {
    term.first < n && term.second < n && term.precision > 0.0
  }

  /** A boundary is the term that has one coordinate only. */
  function BoundaryTerm(b: Boundary): Term {
    Term(b.field, b.field, 1.0, 0.0, -b.target, b.precision)
  }

  function BoundaryTerms(boundaries: seq<Boundary>): (terms: seq<Term>)
    ensures |terms| == |boundaries| && forall i | 0 <= i < |terms| :: terms[i] == BoundaryTerm(boundaries[i])
  {
    seq(|boundaries|, i requires 0 <= i < |boundaries| => BoundaryTerm(boundaries[i]))
  }

  ghost function Mul(a: real, b: real): real {
    a * b
  }

  /** The homogeneous part of a constraint. */
  ghost function Linear(term: Term, x: Vec): real
    requires ValidTerm(term, |x|)
  {
    Mul(term.firstValue, x[term.first]) + Mul(term.secondValue, x[term.second])
  }

  ghost function Scatter(term: Term, weight: real, out: Vec): (r: Vec)
    requires ValidTerm(term, |out|)
    ensures |r| == |out|
  {
    AddAt(AddAt(out, term.first, Mul(term.firstValue, weight)), term.second, Mul(term.secondValue, weight))
  }

  ghost predicate ValidTerms(terms: seq<Term>, n: nat) {
    forall t | 0 <= t < |terms| :: ValidTerm(terms[t], n)
  }

  /** out plus the linear part of the first k terms applied to x. */
  ghost function LinearFrom(terms: seq<Term>, x: Vec, out: Vec, k: nat): (r: Vec)
    requires ValidTerms(terms, |x|) && |out| == |x| && k <= |terms|
    ensures |r| == |x|
  {
    if k == 0 then out
    else
      var term := terms[k - 1];
      Scatter(term, Mul(term.precision, Linear(term, x)), LinearFrom(terms, x, out, k - 1))
  }

  /** out plus the gradient of the first k terms at x. */
  ghost function GradientFrom(terms: seq<Term>, x: Vec, out: Vec, k: nat): (r: Vec)
    requires ValidTerms(terms, |x|) && |out| == |x| && k <= |terms|
    ensures |r| == |x|
  {
    if k == 0 then out
    else
      var term := terms[k - 1];
      Scatter(term, Mul(term.precision, Linear(term, x) + term.constant), GradientFrom(terms, x, out, k - 1))
  }

  ghost function HalfSquare(precision: real, residual: real): real {
    0.5 * precision * residual * residual
  }

  ghost function TermEnergy(terms: seq<Term>, x: Vec, k: nat): real
    requires ValidTerms(terms, |x|) && k <= |terms|
  {
    if k == 0 then 0.0
    else
      var term := terms[k - 1];
      TermEnergy(terms, x, k - 1) + HalfSquare(term.precision, Linear(term, x) + term.constant)
  }

  ghost function Apply(s: System, x: Vec): (r: Vec)
    requires s.Valid() && |x| == s.n
    ensures |r| == s.n
  {
    Axpy(LinearFrom(s.terms, x, Zeros(s.n), |s.terms|), s.regularization, x)
  }

  ghost function Gradient(s: System, x: Vec): (r: Vec)
    requires s.Valid() && |x| == s.n
    ensures |r| == s.n
  {
    Axpy(GradientFrom(s.terms, x, Zeros(s.n), |s.terms|), s.regularization, x)
  }

  ghost function Energy(s: System, x: Vec): real
    requires s.Valid() && |x| == s.n
  {
    TermEnergy(s.terms, x, |s.terms|) + 0.5 * s.regularization * Dot(x, x)
  }

  // ----- the bilinear form -----

  ghost function TermForm(terms: seq<Term>, x: Vec, y: Vec, k: nat): real
    requires ValidTerms(terms, |x|) && |x| == |y| && k <= |terms|
  {
    if k == 0 then 0.0
    else
      var term := terms[k - 1];
      TermForm(terms, x, y, k - 1) + Mul(Mul(term.precision, Linear(term, x)), Linear(term, y))
  }

  lemma MulRegroup(w: real, a: real, p: real, b: real, q: real)
    ensures Mul(a, w) * p + Mul(b, w) * q == Mul(w, Mul(a, p) + Mul(b, q))
  {
    assert (a * w) * p == w * (a * p);
    assert (b * w) * q == w * (b * q);
  }

  lemma MulAssociates(a: real, b: real, c: real)
    ensures Mul(a, Mul(b, c)) == Mul(Mul(a, b), c)
    ensures Mul(a, b) == Mul(b, a)
  {
    assert a * (b * c) == (a * b) * c;
  }

  lemma ScatterDot(term: Term, weight: real, out: Vec, y: Vec)
    requires ValidTerm(term, |out|) && |out| == |y|
    ensures Dot(Scatter(term, weight, out), y) == Dot(out, y) + Mul(weight, Linear(term, y))
  {
    hide Mul, Dot, AddAt;
    var f, g := Mul(term.firstValue, weight), Mul(term.secondValue, weight);
    DotAddAt(out, term.first, f, y);
    DotAddAt(AddAt(out, term.first, f), term.second, g, y);
    MulRegroup(weight, term.firstValue, y[term.first], term.secondValue, y[term.second]);
  }

  lemma {:induction false} LinearFromDot(terms: seq<Term>, x: Vec, out: Vec, y: Vec, k: nat)
    requires ValidTerms(terms, |x|) && |out| == |x| == |y| && k <= |terms|
    ensures Dot(LinearFrom(terms, x, out, k), y) == Dot(out, y) + TermForm(terms, x, y, k)
  {
    if k > 0 {
      LinearFromDot(terms, x, out, y, k - 1);
      var term := terms[k - 1];
      ScatterDot(term, Mul(term.precision, Linear(term, x)), LinearFrom(terms, x, out, k - 1), y);
    }
  }

  lemma {:induction false} TermFormSymmetric(terms: seq<Term>, x: Vec, y: Vec, k: nat)
    requires ValidTerms(terms, |x|) && |x| == |y| && k <= |terms|
    ensures TermForm(terms, x, y, k) == TermForm(terms, y, x, k)
  {
    if k > 0 {
      TermFormSymmetric(terms, x, y, k - 1);
      var p, a, b := terms[k - 1].precision, Linear(terms[k - 1], x), Linear(terms[k - 1], y);
      MulAssociates(p, a, b);
      MulAssociates(p, b, a);
      MulAssociates(a, b, p);
    }
  }

  lemma {:induction false} TermFormNonnegative(terms: seq<Term>, x: Vec, k: nat)
    requires ValidTerms(terms, |x|) && k <= |terms|
    ensures TermForm(terms, x, x, k) >= 0.0
  {
    if k > 0 {
      TermFormNonnegative(terms, x, k - 1);
      WeightedSquare(terms[k - 1].precision, Linear(terms[k - 1], x));
    }
  }

  lemma WeightedSquare(p: real, a: real)
    requires p >= 0.0
    ensures Mul(Mul(p, a), a) >= 0.0
  {
    Square(a);
    assert (p * a) * a == p * (a * a);
    Product(p, a * a);
  }

  lemma Product(p: real, q: real)
    requires p >= 0.0 && q >= 0.0
    ensures p * q >= 0.0
  {
  }

  /** The linear part is symmetric. */
  lemma ApplySymmetric(s: System, x: Vec, y: Vec)
    requires s.Valid() && |x| == |y| == s.n
    ensures Dot(Apply(s, x), y) == Dot(x, Apply(s, y))
  {
    hide TermForm, LinearFrom, Axpy, Dot;
    ApplyDot(s, x, y);
    ApplyDot(s, y, x);
    DotSwap(x, y);
    DotSwap(x, Apply(s, y));
    TermFormSymmetric(s.terms, x, y, |s.terms|);
  }

  lemma ZerosDot(y: Vec)
    ensures Dot(Zeros(|y|), y) == 0.0
  {
    DotZeros(|y|, y, |y|);
  }

  lemma ApplyDot(s: System, x: Vec, y: Vec)
    requires s.Valid() && |x| == |y| == s.n
    ensures Dot(Apply(s, x), y) == TermForm(s.terms, x, y, |s.terms|) + s.regularization * Dot(x, y)
  {
    hide TermForm, LinearFrom, Axpy, Dot;
    ZerosDot(y);
    DotAxpy(LinearFrom(s.terms, x, Zeros(s.n), |s.terms|), s.regularization, x, y);
    LinearFromDot(s.terms, x, Zeros(s.n), y, |s.terms|);
  }

  /** The linear part is positive semidefinite, and definite once regularised. */
  lemma ApplyNonnegative(s: System, x: Vec)
    requires s.Valid() && |x| == s.n
    ensures Dot(x, Apply(s, x)) >= s.regularization * Dot(x, x) >= 0.0
  {
    ApplyDot(s, x, x);
    DotSwap(x, Apply(s, x));
    TermFormNonnegative(s.terms, x, |s.terms|);
    DotSelf(x, s.n);
    Product(s.regularization, Dot(x, x));
  }

  // ----- moving along a direction -----

  lemma MulMoves(f: real, p: real, a: real, b: real)
    ensures Mul(f, p + a * b) == Mul(f, p) + a * Mul(f, b)
  {
    assert f * (p + a * b) == f * p + a * (f * b);
  }

  lemma MulMovesTo(f: real, p: real, a: real, b: real, moved: real)
    requires moved == p + a * b
    ensures Mul(f, moved) == Mul(f, p) + a * Mul(f, b)
  {
    MulMoves(f, p, a, b);
  }

  lemma LinearAxpy(term: Term, x: Vec, a: real, d: Vec)
    requires ValidTerm(term, |x|) && |x| == |d|
    ensures Linear(term, Axpy(x, a, d)) == Linear(term, x) + a * Linear(term, d)
  {
    hide Mul;
    var p, q := Mul(term.firstValue, d[term.first]), Mul(term.secondValue, d[term.second]);
    var moved := Axpy(x, a, d);
    MulMovesTo(term.firstValue, x[term.first], a, d[term.first], moved[term.first]);
    MulMovesTo(term.secondValue, x[term.second], a, d[term.second], moved[term.second]);
    DistributeSum(a, Linear(term, d), p, q);
  }

  lemma DistributeSum(a: real, sum: real, b: real, c: real)
    requires sum == b + c
    ensures a * sum == a * b + a * c
  {
  }

  lemma AddAtAxpy(u: Vec, a: real, v: Vec, i: nat, c: real, e: real)
    requires i < |u| == |v|
    ensures AddAt(Axpy(u, a, v), i, c + a * e) == Axpy(AddAt(u, i, c), a, AddAt(v, i, e))
  {
    var left, right := AddAt(Axpy(u, a, v), i, c + a * e), Axpy(AddAt(u, i, c), a, AddAt(v, i, e));
    Distribute(a, v[i], e);
    forall j | 0 <= j < |u|
      ensures left[j] == right[j]
    {
      if j == i {
        assert right[i] == (u[i] + c) + a * (v[i] + e);
        assert left[i] == (u[i] + a * v[i]) + (c + a * e);
      }
    }
  }

  lemma ScatterAxpy(term: Term, u: Vec, a: real, v: Vec, w: real, z: real)
    requires ValidTerm(term, |u|) && |u| == |v|
    ensures Scatter(term, w + a * z, Axpy(u, a, v)) == Axpy(Scatter(term, w, u), a, Scatter(term, z, v))
  {
    hide Mul, AddAt, Axpy;
    var f, g := term.firstValue, term.secondValue;
    MulMoves(f, w, a, z);
    MulMoves(g, w, a, z);
    AddAtAxpy(u, a, v, term.first, Mul(f, w), Mul(f, z));
    AddAtAxpy(AddAt(u, term.first, Mul(f, w)), a, AddAt(v, term.first, Mul(f, z)), term.second, Mul(g, w), Mul(g, z));
  }

  lemma ZerosAxpy(n: nat, a: real)
    ensures Axpy(Zeros(n), a, Zeros(n)) == Zeros(n)
  {
  }

  lemma {:induction false} GradientFromAxpy(terms: seq<Term>, x: Vec, a: real, d: Vec, k: nat)
    requires ValidTerms(terms, |x|) && |x| == |d| && k <= |terms|
    ensures GradientFrom(terms, Axpy(x, a, d), Zeros(|x|), k) ==
      Axpy(GradientFrom(terms, x, Zeros(|x|), k), a, LinearFrom(terms, d, Zeros(|x|), k))
  {
    hide Mul, Axpy, Scatter, Linear;
    if k == 0 {
      ZerosAxpy(|x|, a);
    } else {
      var term := terms[k - 1];
      GradientFromAxpy(terms, x, a, d, k - 1);
      LinearAxpy(term, x, a, d);
      var p, l, m, c := term.precision, Linear(term, x), Linear(term, d), term.constant;
      MulMoves(p, l + c, a, m);
      assert Linear(term, Axpy(x, a, d)) + c == (l + c) + a * m;
      assert Mul(p, Linear(term, Axpy(x, a, d)) + c) == Mul(p, l + c) + a * Mul(p, m);
      ScatterAxpy(term, GradientFrom(terms, x, Zeros(|x|), k - 1), a, LinearFrom(terms, d, Zeros(|x|), k - 1), Mul(p, l + c), Mul(p, m));
    }
  }

  lemma Interleave(u: real, a: real, v: real, l: real, x: real, d: real)
    ensures (u + a * v) + l * (x + a * d) == (u + l * x) + a * (v + l * d)
  {
    assert l * (x + a * d) == l * x + a * (l * d);
    assert a * (v + l * d) == a * v + a * (l * d);
  }

  lemma InterleaveAxpy(u: Vec, a: real, v: Vec, l: real, x: Vec, d: Vec)
    requires |u| == |v| == |x| == |d|
    ensures Axpy(Axpy(u, a, v), l, Axpy(x, a, d)) == Axpy(Axpy(u, l, x), a, Axpy(v, l, d))
  {
    var left, right := Axpy(Axpy(u, a, v), l, Axpy(x, a, d)), Axpy(Axpy(u, l, x), a, Axpy(v, l, d));
    forall i | 0 <= i < |u|
      ensures left[i] == right[i]
    {
      Interleave(u[i], a, v[i], l, x[i], d[i]);
    }
  }

  /** The gradient moves by the linear part. */
  lemma GradientAxpy(s: System, x: Vec, a: real, d: Vec)
    requires s.Valid() && |x| == |d| == s.n
    ensures Gradient(s, Axpy(x, a, d)) == Axpy(Gradient(s, x), a, Apply(s, d))
  {
    hide Axpy, GradientFrom, LinearFrom;
    GradientFromAxpy(s.terms, x, a, d, |s.terms|);
    InterleaveAxpy(GradientFrom(s.terms, x, Zeros(s.n), |s.terms|), a, LinearFrom(s.terms, d, Zeros(s.n), |s.terms|), s.regularization, x, d);
  }

  /** How fast the term energies change along d. */
  ghost function SlopeSum(terms: seq<Term>, x: Vec, d: Vec, k: nat): real
    requires ValidTerms(terms, |x|) && |x| == |d| && k <= |terms|
  {
    if k == 0 then 0.0
    else
      var term := terms[k - 1];
      SlopeSum(terms, x, d, k - 1) + Mul(Mul(term.precision, Linear(term, x) + term.constant), Linear(term, d))
  }

  lemma {:induction false} GradientFromDot(terms: seq<Term>, x: Vec, d: Vec, k: nat)
    requires ValidTerms(terms, |x|) && |x| == |d| && k <= |terms|
    ensures Dot(GradientFrom(terms, x, Zeros(|x|), k), d) == SlopeSum(terms, x, d, k)
  {
    hide Mul, Scatter, Linear;
    if k == 0 {
      DotZeros(|x|, d, |x|);
    } else {
      GradientFromDot(terms, x, d, k - 1);
      var term := terms[k - 1];
      ScatterDot(term, Mul(term.precision, Linear(term, x) + term.constant), GradientFrom(terms, x, Zeros(|x|), k - 1), d);
    }
  }

  lemma SquareMoves(p: real, e: real, a: real, m: real)
    ensures HalfSquare(p, e + a * m) == HalfSquare(p, e) + a * Mul(Mul(p, e), m) + 0.5 * a * a * Mul(Mul(p, m), m)
  {
    var s := (e + a * m) * (e + a * m);
    assert s == e * e + 2.0 * (a * (e * m)) + a * a * (m * m) by {
      assert (a * m) * (a * m) == a * a * (m * m);
      assert e * (a * m) == a * (e * m);
    }
    var h := 0.5 * p;
    assert HalfSquare(p, e + a * m) == h * s;
    assert h * s == h * (e * e) + h * (2.0 * (a * (e * m))) + h * (a * a * (m * m));
    assert h * (2.0 * (a * (e * m))) == a * ((p * e) * m) by {
      assert h * (2.0 * (a * (e * m))) == p * (a * (e * m)) == a * (p * (e * m));
      assert p * (e * m) == (p * e) * m;
    }
    assert h * (a * a * (m * m)) == 0.5 * a * a * ((p * m) * m) by {
      assert (p * m) * m == p * (m * m);
      assert h * (a * a * (m * m)) == 0.5 * (p * (a * a * (m * m))) == 0.5 * (a * a * (p * (m * m)));
    }
  }

  lemma Distribute(a: real, b: real, c: real)
    ensures a * (b + c) == a * b + a * c
  {
  }

  lemma {:induction false} TermEnergyAxpy(terms: seq<Term>, x: Vec, a: real, d: Vec, k: nat)
    requires ValidTerms(terms, |x|) && |x| == |d| && k <= |terms|
    ensures TermEnergy(terms, Axpy(x, a, d), k) ==
      TermEnergy(terms, x, k) + a * SlopeSum(terms, x, d, k) + 0.5 * a * a * TermForm(terms, d, d, k)
  {
    hide Mul, HalfSquare, Axpy, Linear;
    if k > 0 {
      var term := terms[k - 1];
      var e, m := Linear(term, x) + term.constant, Linear(term, d);
      TermEnergyAxpy(terms, x, a, d, k - 1);
      LinearAxpy(term, x, a, d);
      SquareMoves(term.precision, e, a, m);
      assert Linear(term, Axpy(x, a, d)) + term.constant == e + a * m;
      Distribute(a, SlopeSum(terms, x, d, k - 1), Mul(Mul(term.precision, e), m));
      Distribute(0.5 * a * a, TermForm(terms, d, d, k - 1), Mul(Mul(term.precision, m), m));
    }
  }

  lemma Collect(a: real, l: real, energy: real, slope: real, form: real, xx: real, xd: real, dd: real)
    ensures energy + a * slope + 0.5 * a * a * form + 0.5 * l * (xx + 2.0 * a * xd + a * a * dd) ==
      energy + 0.5 * l * xx + a * (slope + l * xd) + 0.5 * a * a * (form + l * dd)
  {
    assert 0.5 * l * (xx + 2.0 * a * xd + a * a * dd) == 0.5 * l * xx + a * (l * xd) + 0.5 * a * a * (l * dd);
    Distribute(a, slope, l * xd);
    Distribute(0.5 * a * a, form, l * dd);
  }

  /** The energy along a direction is an exact parabola. */
  lemma EnergyAxpy(s: System, x: Vec, a: real, d: Vec)
    requires s.Valid() && |x| == |d| == s.n
    ensures Energy(s, Axpy(x, a, d)) ==
      Energy(s, x) + a * Dot(Gradient(s, x), d) + 0.5 * a * a * Dot(d, Apply(s, d))
  {
    hide TermEnergy, SlopeSum, TermForm, GradientFrom, LinearFrom, Axpy, Dot;
    var l := s.regularization;
    TermEnergyAxpy(s.terms, x, a, d, |s.terms|);
    SlopeOfGradient(s, x, d);
    FormOfApply(s, d);
    DotAxpySelf(x, a, d);
    Collect(a, l, TermEnergy(s.terms, x, |s.terms|), SlopeSum(s.terms, x, d, |s.terms|), TermForm(s.terms, d, d, |s.terms|),
            Dot(x, x), Dot(x, d), Dot(d, d));
  }

  lemma {:induction false} TermEnergyNonnegative(terms: seq<Term>, x: Vec, k: nat)
    requires ValidTerms(terms, |x|) && k <= |terms|
    ensures TermEnergy(terms, x, k) >= 0.0
  {
    if k > 0 {
      TermEnergyNonnegative(terms, x, k - 1);
      HalfSquareNonnegative(terms[k - 1].precision, Linear(terms[k - 1], x) + terms[k - 1].constant);
    }
  }

  lemma HalfSquareNonnegative(precision: real, residual: real)
    requires precision >= 0.0
    ensures HalfSquare(precision, residual) >= 0.0
  {
    Square(residual);
    Product(0.5 * precision, residual * residual);
  }

  /** A sum of weighted squares: the energy has a lower bound everywhere. */
  lemma EnergyNonnegative(s: System, x: Vec)
    requires s.Valid() && |x| == s.n
    ensures Energy(s, x) >= 0.0
  {
    TermEnergyNonnegative(s.terms, x, |s.terms|);
    DotSelf(x, s.n);
    Product(0.5 * s.regularization, Dot(x, x));
  }

  lemma SlopeOfGradient(s: System, x: Vec, d: Vec)
    requires s.Valid() && |x| == |d| == s.n
    ensures Dot(Gradient(s, x), d) == SlopeSum(s.terms, x, d, |s.terms|) + s.regularization * Dot(x, d)
  {
    hide SlopeSum, GradientFrom, Axpy, Dot;
    GradientFromDot(s.terms, x, d, |s.terms|);
    DotAxpy(GradientFrom(s.terms, x, Zeros(s.n), |s.terms|), s.regularization, x, d);
  }

  lemma FormOfApply(s: System, d: Vec)
    requires s.Valid() && |d| == s.n
    ensures Dot(d, Apply(s, d)) == TermForm(s.terms, d, d, |s.terms|) + s.regularization * Dot(d, d)
  {
    ApplyDot(s, d, d);
    DotSwap(d, Apply(s, d));
  }
}
