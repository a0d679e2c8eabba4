/** What conjugate gradients keeps from the first iteration to the last, in exact
    arithmetic. */
module ConjugateTrace {
  import opened Vectors
  import opened QuadraticSystem

  ghost function Negate(v: Vec): (r: Vec)
    ensures |r| == |v| && forall i | 0 <= i < |r| :: r[i] == -v[i]
  {
    seq(|v|, i requires 0 <= i < |v| => -v[i])
  }

  /** The iterates and residuals seen so far, and the steps between them. */
  datatype Trace = Trace(x: seq<Vec>, r: seq<Vec>, d: seq<Vec>, alpha: seq<real>)

  ghost function Ratio(a: real, b: real): real {
    if b == 0.0 then 0.0 else a / b
  }

  ghost predicate Sized(s: System, t: Trace) {
    && s.Valid() && |t.x| == |t.r| == |t.d| + 1 && |t.alpha| == |t.d|
    && (forall i | 0 <= i < |t.x| :: |t.x[i]| == s.n)
    && (forall i | 0 <= i < |t.r| :: |t.r[i]| == s.n)
    && (forall i | 0 <= i < |t.d| :: |t.d[i]| == s.n)
  }

  /** Step i moves along d[i] to the exact minimum of the energy on that line. */
  ghost predicate StepOk(s: System, t: Trace, i: nat)
    requires Sized(s, t) && i < |t.d|
  {
    && Dot(t.r[i], t.r[i]) > 0.0 && Dot(t.d[i], Apply(s, t.d[i])) > 0.0
    && t.alpha[i] == Ratio(Dot(t.r[i], t.r[i]), Dot(t.d[i], Apply(s, t.d[i])))
    && Dot(t.r[i], t.d[i]) == Dot(t.r[i], t.r[i])
    && t.x[i + 1] == Axpy(t.x[i], t.alpha[i], t.d[i])
    && t.r[i + 1] == Axpy(t.r[i], -t.alpha[i], Apply(s, t.d[i]))
  }

  /** d is the direction to take from the last residual. */
  ghost predicate IsDirection(s: System, t: Trace, k: nat, d: Vec)
    requires Sized(s, t) && k <= |t.d|
  {
    if k == 0 then d == t.r[0]
    else Dot(t.r[k - 1], t.r[k - 1]) > 0.0 && d == Axpy(t.r[k], Ratio(Dot(t.r[k], t.r[k]), Dot(t.r[k - 1], t.r[k - 1])), t.d[k - 1])
  }

  ghost predicate TraceOk(s: System, t: Trace) {
    && Sized(s, t)
    && (forall i | 0 <= i < |t.x| :: t.r[i] == Negate(Gradient(s, t.x[i])))
    && (forall i | 0 <= i < |t.d| :: StepOk(s, t, i) && IsDirection(s, t, i, t.d[i]))
    && (forall i, j | 0 <= i < j < |t.r| :: Dot(t.r[i], t.r[j]) == 0.0)
    && (forall i, j | 0 <= i < j < |t.d| :: Dot(t.d[i], Apply(s, t.d[j])) == 0.0)
  }

  /** The direction for the next step suits the trace. */
  ghost predicate DirectionOk(s: System, t: Trace, d: Vec) {
    && TraceOk(s, t) && |d| == s.n && IsDirection(s, t, |t.d|, d)
    && Dot(t.r[|t.d|], d) == Dot(t.r[|t.d|], t.r[|t.d|])
    && forall i | 0 <= i < |t.d| :: Dot(t.d[i], Apply(s, d)) == 0.0
  }

  ghost function Extended(s: System, t: Trace, d: Vec, alpha: real): Trace
    requires Sized(s, t) && |d| == s.n
  {
    var k := |t.d|;
    Trace(t.x + [Axpy(t.x[k], alpha, d)], t.r + [Axpy(t.r[k], -alpha, Apply(s, d))], t.d + [d], t.alpha + [alpha])
  }

  // ----- small facts about reals -----

  lemma QuotientTimes(a: real, b: real)
    requires b > 0.0
    ensures Ratio(a, b) * b == a
    ensures a > 0.0 ==> Ratio(a, b) > 0.0
  {
  }

  lemma Cancel(a: real, b: real)
    requires a > 0.0 && a * b == 0.0
    ensures b == 0.0
  {
  }

  lemma MulZero(a: real, b: real)
    requires b == 0.0
    ensures a * b == 0.0
  {
  }

  // ----- residuals -----

  lemma NegateAxpy(g: Vec, a: real, v: Vec)
    requires |g| == |v|
    ensures Negate(Axpy(g, a, v)) == Axpy(Negate(g), -a, v)
  {
    var left, right := Negate(Axpy(g, a, v)), Axpy(Negate(g), -a, v);
    forall i | 0 <= i < |g|
      ensures left[i] == right[i]
    {
      assert -(g[i] + a * v[i]) == -g[i] + (-a) * v[i];
    }
  }

  /** The recurrence residual is the true one. */
  lemma ResidualIsGradient(s: System, x: Vec, r: Vec, a: real, d: Vec)
    requires s.Valid() && |x| == |d| == |r| == s.n && r == Negate(Gradient(s, x))
    ensures Axpy(r, -a, Apply(s, d)) == Negate(Gradient(s, Axpy(x, a, d)))
  {
    hide Axpy, Negate, Gradient, Apply;
    GradientAxpy(s, x, a, d);
    NegateAxpy(Gradient(s, x), a, Apply(s, d));
  }

  /** A past residual, seen by the operator applied to the current direction, is
      what its own direction is. */
  lemma ResidualAgainstApplied(s: System, t: Trace, i: nat, v: Vec)
    requires TraceOk(s, t) && i < |t.d| && |v| == s.n
    requires i > 0 ==> Dot(t.d[i - 1], v) == 0.0
    ensures Dot(t.r[i], v) == Dot(t.d[i], v)
  {
    hide Dot, DotTo, Axpy, Apply, Gradient, Ratio;
    assert IsDirection(s, t, i, t.d[i]);
    if i > 0 {
      var beta := Ratio(Dot(t.r[i], t.r[i]), Dot(t.r[i - 1], t.r[i - 1]));
      DotAxpy(t.r[i], beta, t.d[i - 1], v);
      MulZero(beta, Dot(t.d[i - 1], v));
    }
  }

  lemma CurrentResidualAgainstApplied(s: System, t: Trace, d: Vec)
    requires DirectionOk(s, t, d)
    ensures Dot(t.r[|t.d|], Apply(s, d)) == Dot(d, Apply(s, d))
  {
    hide Dot, DotTo, Axpy, Apply, Gradient, Ratio;
    var k := |t.d|;
    if k > 0 {
      var beta := Ratio(Dot(t.r[k], t.r[k]), Dot(t.r[k - 1], t.r[k - 1]));
      DotAxpy(t.r[k], beta, t.d[k - 1], Apply(s, d));
      MulZero(beta, Dot(t.d[k - 1], Apply(s, d)));
    }
  }

  lemma StepsDown(rr: real, curvature: real, alpha: real)
    requires curvature > 0.0 && alpha == Ratio(rr, curvature)
    ensures rr + (-alpha) * curvature == 0.0
  {
    QuotientTimes(rr, curvature);
  }

  /** Stepping the right length along A d removes r's component along v. */
  lemma StepRemoves(r: Vec, applied: Vec, v: Vec, rr: real, curvature: real, alpha: real)
    requires |r| == |applied| == |v| && Dot(r, v) == rr && Dot(applied, v) == curvature
    requires curvature > 0.0 && alpha == Ratio(rr, curvature)
    ensures Dot(Axpy(r, -alpha, applied), v) == 0.0 && Dot(v, Axpy(r, -alpha, applied)) == 0.0
  {
    hide Dot, DotTo, Axpy, Ratio;
    DotAxpy(r, -alpha, applied, v);
    DotSwap(v, Axpy(r, -alpha, applied));
    StepsDown(rr, curvature, alpha);
  }

  lemma StepSpares(r: Vec, applied: Vec, v: Vec, alpha: real)
    requires |r| == |applied| == |v| && Dot(r, v) == 0.0 && Dot(applied, v) == 0.0
    ensures Dot(Axpy(r, -alpha, applied), v) == 0.0 && Dot(v, Axpy(r, -alpha, applied)) == 0.0
  {
    hide Dot, DotTo, Axpy, Ratio;
    DotAxpy(r, -alpha, applied, v);
    DotSwap(v, Axpy(r, -alpha, applied));
    MulZero(-alpha, Dot(applied, v));
  }

  /** The new residual is orthogonal to the direction just taken and to every earlier
      residual. */
  lemma NewResidualOrthogonal(s: System, t: Trace, d: Vec, alpha: real, i: nat)
    requires DirectionOk(s, t, d) && i <= |t.d|
    requires Dot(d, Apply(s, d)) > 0.0 && alpha == Ratio(Dot(t.r[|t.d|], t.r[|t.d|]), Dot(d, Apply(s, d)))
    ensures Dot(t.r[i], Axpy(t.r[|t.d|], -alpha, Apply(s, d))) == 0.0
  {
    hide Dot, DotTo, Axpy, Apply, Gradient, Ratio, StepOk, IsDirection, Negate;
    var k, applied := |t.d|, Apply(s, d);
    DotSwap(applied, t.r[i]);
    if i == k {
      CurrentResidualAgainstApplied(s, t, d);
      StepRemoves(t.r[k], applied, t.r[k], Dot(t.r[k], t.r[k]), Dot(d, applied), alpha);
    } else {
      ResidualAgainstApplied(s, t, i, applied);
      DotSwap(t.r[k], t.r[i]);
      StepSpares(t.r[k], applied, t.r[i], alpha);
    }
  }

  lemma LongerSized(s: System, t: Trace, d: Vec, alpha: real)
    requires Sized(s, t) && |d| == s.n
    ensures Sized(s, Extended(s, t, d, alpha))
  {
    hide Dot, DotTo, Axpy, Apply, Gradient, Ratio;
  }

  lemma StepStays(s: System, t: Trace, d: Vec, alpha: real, i: nat)
    requires Sized(s, t) && i < |t.d| && |d| == s.n && StepOk(s, t, i) && IsDirection(s, t, i, t.d[i])
    ensures var longer := Extended(s, t, d, alpha);
      Sized(s, longer) && StepOk(s, longer, i) && IsDirection(s, longer, i, longer.d[i])
  {
    hide Dot, DotTo, Axpy, Apply, Gradient, Ratio;
    var longer := Extended(s, t, d, alpha);
    LongerSized(s, t, d, alpha);
    assert longer.r[i] == t.r[i] && longer.r[i + 1] == t.r[i + 1] && longer.x[i] == t.x[i] && longer.x[i + 1] == t.x[i + 1];
    assert longer.d[i] == t.d[i] && longer.alpha[i] == t.alpha[i];
    if i > 0 {
      assert longer.r[i - 1] == t.r[i - 1] && longer.d[i - 1] == t.d[i - 1];
    }
  }

  lemma NewStep(s: System, t: Trace, d: Vec, alpha: real)
    requires Sized(s, t) && |d| == s.n && IsDirection(s, t, |t.d|, d)
    requires Dot(t.r[|t.d|], t.r[|t.d|]) > 0.0 && Dot(t.r[|t.d|], d) == Dot(t.r[|t.d|], t.r[|t.d|])
    requires Dot(d, Apply(s, d)) > 0.0 && alpha == Ratio(Dot(t.r[|t.d|], t.r[|t.d|]), Dot(d, Apply(s, d)))
    ensures var longer := Extended(s, t, d, alpha);
      Sized(s, longer) && StepOk(s, longer, |t.d|) && IsDirection(s, longer, |t.d|, longer.d[|t.d|])
  {
    hide Dot, DotTo, Axpy, Apply, Gradient, Ratio;
    var k, longer := |t.d|, Extended(s, t, d, alpha);
    LongerSized(s, t, d, alpha);
    assert longer.r[k] == t.r[k] && longer.d[k] == d && longer.x[k] == t.x[k] && longer.alpha[k] == alpha;
    assert longer.x[k + 1] == Axpy(t.x[k], alpha, d) && longer.r[k + 1] == Axpy(t.r[k], -alpha, Apply(s, d));
    if k > 0 {
      assert longer.r[k - 1] == t.r[k - 1] && longer.d[k - 1] == t.d[k - 1];
    }
  }

  /** One step of the method keeps the whole trace in order. */
  lemma ExtendTrace(s: System, t: Trace, d: Vec, alpha: real)
    requires DirectionOk(s, t, d) && Dot(t.r[|t.d|], t.r[|t.d|]) > 0.0
    requires Dot(d, Apply(s, d)) > 0.0 && alpha == Ratio(Dot(t.r[|t.d|], t.r[|t.d|]), Dot(d, Apply(s, d)))
    ensures TraceOk(s, Extended(s, t, d, alpha))
  {
    hide StepOk, IsDirection, Dot, DotTo, Axpy, Apply, Gradient, Ratio;
    var k, longer := |t.d|, Extended(s, t, d, alpha);
    NewStep(s, t, d, alpha);
    ResidualIsGradient(s, t.x[k], t.r[k], alpha, d);
    forall i | 0 <= i < |longer.d|
      ensures StepOk(s, longer, i) && IsDirection(s, longer, i, longer.d[i])
    {
      if i < k {
        StepStays(s, t, d, alpha, i);
      }
    }
    forall i, j | 0 <= i < j < |longer.r|
      ensures Dot(longer.r[i], longer.r[j]) == 0.0
    {
      if j == k + 1 {
        NewResidualOrthogonal(s, t, d, alpha, i);
      } else {
        assert longer.r[i] == t.r[i] && longer.r[j] == t.r[j];
      }
    }
    forall i, j | 0 <= i < j < |longer.d|
      ensures Dot(longer.d[i], Apply(s, longer.d[j])) == 0.0
    {
      if j < k {
        assert longer.d[i] == t.d[i] && longer.d[j] == t.d[j];
      }
    }
  }

  // ----- directions -----

  /** What the next residual says about an earlier step: it is orthogonal to the
      change that step made. */
  lemma ChangeAlongStep(s: System, t: Trace, i: nat, v: Vec)
    requires TraceOk(s, t) && i < |t.d| && |v| == s.n
    ensures Dot(t.r[i + 1], v) == Dot(t.r[i], v) + (-t.alpha[i]) * Dot(Apply(s, t.d[i]), v)
    ensures t.alpha[i] > 0.0
  {
    hide Dot, DotTo, Axpy, Apply, Gradient, Ratio;
    assert StepOk(s, t, i);
    DotAxpy(t.r[i], -t.alpha[i], Apply(s, t.d[i]), v);
    QuotientTimes(Dot(t.r[i], t.r[i]), Dot(t.d[i], Apply(s, t.d[i])));
  }

  lemma LastTwoCancel(rr: real, next: real, curvature: real, alpha: real, beta: real, seen: real)
    requires rr > 0.0 && curvature > 0.0 && alpha == Ratio(rr, curvature) && beta == Ratio(next, rr)
    requires next == (-alpha) * seen
    ensures seen + beta * curvature == 0.0
  {
    QuotientTimes(rr, curvature);
    QuotientTimes(next, rr);
    assert alpha * curvature == rr && beta * rr == next;
    assert alpha * (seen + beta * curvature) == alpha * seen + beta * (alpha * curvature);
    Cancel(alpha, seen + beta * curvature);
  }

  lemma NegatedZero(a: real, b: real)
    requires a > 0.0 && 0.0 == 0.0 + (-a) * b
    ensures b == 0.0
  {
    Cancel(a, b);
  }

  /** The new direction is conjugate to the direction just taken. */
  lemma ConjugateToLast(s: System, t: Trace, beta: real)
    requires TraceOk(s, t) && t.d != []
    requires beta == Ratio(Dot(t.r[|t.d|], t.r[|t.d|]), Dot(t.r[|t.d| - 1], t.r[|t.d| - 1]))
    ensures Dot(Axpy(t.r[|t.d|], beta, t.d[|t.d| - 1]), Apply(s, t.d[|t.d| - 1])) == 0.0
  {
    hide Dot, DotTo, Axpy, Apply, Gradient, Ratio, IsDirection, Negate;
    var k := |t.d|;
    var i, last, applied := k - 1, t.d[k - 1], Apply(s, t.d[k - 1]);
    DotAxpy(t.r[k], beta, last, applied);
    ChangeAlongStep(s, t, i, t.r[k]);
    DotSwap(t.r[k], applied);
    assert StepOk(s, t, i);
    LastTwoCancel(Dot(t.r[i], t.r[i]), Dot(t.r[k], t.r[k]), Dot(last, applied), t.alpha[i], beta, Dot(applied, t.r[k]));
  }

  /** The new direction is conjugate to every earlier one. */
  lemma ConjugateToEarlier(s: System, t: Trace, beta: real, i: nat)
    requires TraceOk(s, t) && i + 1 < |t.d|
    ensures Dot(Axpy(t.r[|t.d|], beta, t.d[|t.d| - 1]), Apply(s, t.d[i])) == 0.0
  {
    hide Dot, DotTo, Axpy, Apply, Gradient, Ratio, IsDirection, Negate, StepOk;
    var k := |t.d|;
    var last, applied := t.d[k - 1], Apply(s, t.d[i]);
    DotAxpy(t.r[k], beta, last, applied);
    ChangeAlongStep(s, t, i, t.r[k]);
    NegatedZero(t.alpha[i], Dot(applied, t.r[k]));
    DotSwap(t.r[k], applied);
    ApplySymmetric(s, t.d[i], last);
    DotSwap(applied, last);
    MulZero(beta, Dot(last, applied));
  }

  lemma NewDirectionConjugate(s: System, t: Trace, beta: real, i: nat)
    requires TraceOk(s, t) && i < |t.d|
    requires beta == Ratio(Dot(t.r[|t.d|], t.r[|t.d|]), Dot(t.r[|t.d| - 1], t.r[|t.d| - 1]))
    ensures Dot(t.d[i], Apply(s, Axpy(t.r[|t.d|], beta, t.d[|t.d| - 1]))) == 0.0
  {
    hide Dot, DotTo, Axpy, Apply, Gradient, Ratio, IsDirection, Negate, StepOk;
    var d := Axpy(t.r[|t.d|], beta, t.d[|t.d| - 1]);
    ApplySymmetric(s, t.d[i], d);
    DotSwap(Apply(s, t.d[i]), d);
    if i + 1 == |t.d| {
      ConjugateToLast(s, t, beta);
    } else {
      ConjugateToEarlier(s, t, beta, i);
    }
  }

  /** The last residual is orthogonal to the last direction taken. */
  lemma ResidualAgainstLast(s: System, t: Trace)
    requires TraceOk(s, t) && t.d != []
    ensures Dot(t.r[|t.d|], t.d[|t.d| - 1]) == 0.0
  {
    hide Dot, DotTo, Axpy, Apply, Gradient, Ratio;
    var i := |t.d| - 1;
    assert StepOk(s, t, i);
    ChangeAlongStep(s, t, i, t.d[i]);
    DotSwap(Apply(s, t.d[i]), t.d[i]);
    StepsDown(Dot(t.r[i], t.r[i]), Dot(t.d[i], Apply(s, t.d[i])), t.alpha[i]);
  }

  lemma DirectionAlongResidual(r: Vec, beta: real, last: Vec)
    requires |r| == |last| && Dot(r, last) == 0.0
    ensures Dot(r, Axpy(r, beta, last)) == Dot(r, r)
  {
    hide Dot, DotTo, Axpy;
    DotAxpy(r, beta, last, r);
    MulZero(beta, Dot(r, last));
  }

  lemma NextDirection(s: System, t: Trace, beta: real)
    requires TraceOk(s, t) && t.d != []
    requires beta == Ratio(Dot(t.r[|t.d|], t.r[|t.d|]), Dot(t.r[|t.d| - 1], t.r[|t.d| - 1]))
    ensures DirectionOk(s, t, Axpy(t.r[|t.d|], beta, t.d[|t.d| - 1]))
  {
    hide Dot, DotTo, Axpy, Apply, Gradient, Ratio, Negate, StepOk;
    var k := |t.d|;
    var d := Axpy(t.r[k], beta, t.d[k - 1]);
    StepPositive(s, t, k - 1);
    ResidualAgainstLast(s, t);
    DirectionAlongResidual(t.r[k], beta, t.d[k - 1]);
    forall i | 0 <= i < k
      ensures Dot(t.d[i], Apply(s, d)) == 0.0
    {
      NewDirectionConjugate(s, t, beta, i);
    }
  }

  lemma StepPositive(s: System, t: Trace, i: nat)
    requires TraceOk(s, t) && i < |t.d|
    ensures Dot(t.r[i], t.r[i]) > 0.0
  {
    hide Dot, DotTo, Axpy, Apply, Gradient, Ratio, Negate, IsDirection;
    assert StepOk(s, t, i);
  }

  // ----- consequences -----

  lemma NegateDot(g: Vec, d: Vec, n: nat)
    requires |g| == |d| && n <= |g|
    ensures DotTo(Negate(g), d, n) == -DotTo(g, d, n)
  {
    if n > 0 {
      NegateDot(g, d, n - 1);
      assert (-g[n - 1]) * d[n - 1] == -(g[n - 1] * d[n - 1]);
    }
  }

  lemma NegatedDot(g: Vec, d: Vec)
    requires |g| == |d|
    ensures Dot(g, d) == -Dot(Negate(g), d)
  {
    NegateDot(g, d, |g|);
  }

  lemma DropOf(energy: real, rr: real, curvature: real, alpha: real)
    requires curvature > 0.0 && alpha == Ratio(rr, curvature)
    ensures energy + alpha * (-rr) + 0.5 * alpha * alpha * curvature == energy - rr * rr / (2.0 * curvature)
  {
    QuotientTimes(rr, curvature);
    assert 0.5 * alpha * alpha * curvature == 0.5 * alpha * (alpha * curvature) == 0.5 * (alpha * rr);
    assert alpha * (-rr) == -(alpha * rr);
    var drop := rr * rr / (2.0 * curvature);
    assert drop * (2.0 * curvature) == rr * rr;
    assert alpha * rr * curvature == rr * rr;
    assert (2.0 * drop - alpha * rr) * curvature == 0.0;
    Cancel(curvature, 2.0 * drop - alpha * rr);
  }

  /** Each step lowers the energy by exactly (r.r)^2 / (2 d.Ad). */
  lemma EnergyDrop(s: System, t: Trace, i: nat)
    requires TraceOk(s, t) && i < |t.d|
    ensures var rr, curvature := Dot(t.r[i], t.r[i]), Dot(t.d[i], Apply(s, t.d[i]));
      curvature > 0.0 && Energy(s, t.x[i + 1]) == Energy(s, t.x[i]) - rr * rr / (2.0 * curvature)
  {
    hide Dot, DotTo, Axpy, Apply, Gradient, Ratio, IsDirection, Energy, Negate;
    assert StepOk(s, t, i);
    EnergyAxpy(s, t.x[i], t.alpha[i], t.d[i]);
    NegatedDot(Gradient(s, t.x[i]), t.d[i]);
    DropOf(Energy(s, t.x[i]), Dot(t.r[i], t.r[i]), Dot(t.d[i], Apply(s, t.d[i])), t.alpha[i]);
  }

  /** No direction is flat while a residual is left: along a flat one the energy would
      fall without end, and it is never negative. */
  lemma PositiveCurvature(s: System, t: Trace, d: Vec)
    requires TraceOk(s, t) && DirectionOk(s, t, d) && Dot(t.r[|t.d|], t.r[|t.d|]) > 0.0
    ensures Dot(d, Apply(s, d)) > 0.0
  {
    hide Dot, DotTo, Axpy, Apply, Gradient, Ratio, StepOk, IsDirection, Energy, Negate;
    var x, rr := t.x[|t.d|], Dot(t.r[|t.d|], t.r[|t.d|]);
    ApplyNonnegative(s, d);
    if Dot(d, Apply(s, d)) <= 0.0 {
      var a := (Energy(s, x) + 1.0) / rr;
      EnergyAxpy(s, x, a, d);
      NegatedDot(Gradient(s, x), d);
      BelowZero(Energy(s, x), rr, Dot(d, Apply(s, d)), a);
      EnergyNonnegative(s, Axpy(x, a, d));
    }
  }

  lemma BelowZero(energy: real, rr: real, curvature: real, a: real)
    requires rr > 0.0 && curvature == 0.0 && a == (energy + 1.0) / rr
    ensures energy + a * (-rr) + 0.5 * a * a * curvature == -1.0
  {
    assert a * rr == energy + 1.0;
    assert a * (-rr) == -(a * rr);
  }

  lemma PositiveProduct(a: real, b: real)
    requires a > 0.0 && b > 0.0
    ensures a * b > 0.0
  {
  }

  /** The method takes at most as many steps as there are fields, and only fewer if a
      residual is left. */
  lemma StepsAtMostFields(s: System, t: Trace)
    requires TraceOk(s, t)
    ensures |t.d| <= s.n
    ensures Dot(t.r[|t.d|], t.r[|t.d|]) > 0.0 ==> |t.d| < s.n
  {
    hide Dot, DotTo, Axpy, Apply, Gradient, Ratio;
    var k := |t.d|;
    forall i | 0 <= i < k
      ensures Dot(t.r[i], t.r[i]) > 0.0
    {
      assert StepOk(s, t, i);
    }
    OrthogonalAtMost(t.r[..k], s.n);
    if Dot(t.r[k], t.r[k]) > 0.0 {
      OrthogonalAtMost(t.r, s.n);
    }
  }

  lemma DropPositive(rr: real, curvature: real)
    requires rr > 0.0 && curvature > 0.0
    ensures rr * rr / (2.0 * curvature) > 0.0
  {
    var half := rr / (2.0 * curvature);
    QuotientPositive(rr, 2.0 * curvature);
    PositiveProduct(rr, half);
    assert rr * half == rr * rr / (2.0 * curvature);
  }

  lemma QuotientPositive(a: real, b: real)
    requires a > 0.0 && b > 0.0
    ensures a / b > 0.0
  {
  }

  /** Every step lowers the energy, so the last point is below the first. */
  lemma {:induction false} EnergyFalls(s: System, t: Trace, i: nat, j: nat)
    requires TraceOk(s, t) && i <= j < |t.x|
    ensures Energy(s, t.x[j]) <= Energy(s, t.x[i])
    ensures i < j ==> Energy(s, t.x[j]) < Energy(s, t.x[i])
  {
    hide Dot, DotTo, Axpy, Apply, Gradient, Ratio, Energy, StepOk, IsDirection, Negate;
    if i < j {
      EnergyFalls(s, t, i, j - 1);
      EnergyDrop(s, t, j - 1);
      StepPositive(s, t, j - 1);
      DropPositive(Dot(t.r[j - 1], t.r[j - 1]), Dot(t.d[j - 1], Apply(s, t.d[j - 1])));
    }
  }

  lemma BelowBound(l: real, gg: real, gd: real, dd: real, curvature: real, here: real, there: real)
    requires l >= 0.0 && curvature >= l * dd && gg + 2.0 * l * gd + l * l * dd >= 0.0
    requires there == here + gd + 0.5 * curvature
    ensures 2.0 * l * (here - there) <= gg
  {
    assert 2.0 * l * (here - there) == -(2.0 * l * gd) - l * curvature;
    MulMonotone(l, l * dd, curvature);
    assert l * (l * dd) == l * l * dd;
  }

  lemma MulMonotone(l: real, a: real, b: real)
    requires l >= 0.0 && a <= b
    ensures l * a <= l * b
  {
  }

  lemma BackAndForth(x: Vec, y: Vec)
    requires |x| == |y|
    ensures Axpy(x, 1.0, Axpy(y, -1.0, x)) == y
  {
    var d := Axpy(y, -1.0, x);
    forall i | 0 <= i < |x|
      ensures Axpy(x, 1.0, d)[i] == y[i]
    {
      assert d[i] == y[i] + -1.0 * x[i];
    }
  }

  lemma GradientBound(s: System, x: Vec, y: Vec)
    requires s.Valid() && |x| == |y| == s.n
    ensures 2.0 * s.regularization * (Energy(s, x) - Energy(s, y)) <= Dot(Gradient(s, x), Gradient(s, x))
  {
    hide Dot, DotTo, Axpy, Apply, Gradient, Energy;
    var l, g, d := s.regularization, Gradient(s, x), Axpy(y, -1.0, x);
    BackAndForth(x, y);
    EnergyAxpy(s, x, 1.0, d);
    ApplyNonnegative(s, d);
    DotAxpySelf(g, l, d);
    DotNonnegative(Axpy(g, l, d));
    BelowBound(l, Dot(g, g), Dot(g, d), Dot(d, d), Dot(d, Apply(s, d)), Energy(s, x), Energy(s, y));
  }

  lemma NegateSelf(g: Vec)
    ensures Dot(Negate(g), Negate(g)) == Dot(g, g)
  {
    hide Dot, DotTo;
    NegatedDot(g, g);
    NegatedDot(g, Negate(g));
    DotSwap(g, Negate(g));
  }

  /** The squared residual bounds how far the energy is above that of any other point:
      a small residual is a near minimum, and a zero one is the minimum. */
  lemma ResidualBoundsEnergy(s: System, t: Trace, k: nat, y: Vec)
    requires TraceOk(s, t) && k < |t.x| && |y| == s.n
    ensures 2.0 * s.regularization * (Energy(s, t.x[k]) - Energy(s, y)) <= Dot(t.r[k], t.r[k])
    ensures Dot(t.r[k], t.r[k]) == 0.0 ==> Energy(s, t.x[k]) <= Energy(s, y)
  {
    hide Dot, DotTo, Axpy, Apply, Gradient, Energy, StepOk, IsDirection, Negate;
    GradientBound(s, t.x[k], y);
    NegateSelf(Gradient(s, t.x[k]));
    if Dot(t.r[k], t.r[k]) == 0.0 {
      ZeroGradientIsMinimum(s, t.x[k], y);
    }
  }

  lemma {:induction false} ZeroDot(g: Vec, d: Vec, n: nat)
    requires |g| == |d| && n <= |g| && DotTo(g, g, n) == 0.0
    ensures DotTo(g, d, n) == 0.0
  {
    if n > 0 {
      DotSelf(g, n - 1);
      Square(g[n - 1]);
      SquareZero(g[n - 1], g[n - 1]);
      ZeroDot(g, d, n - 1);
    }
  }

  lemma SquareZero(a: real, b: real)
    requires a == b && a * b == 0.0
    ensures a == 0.0
  {
    var c := -a;
    assert c * b == -(a * b);
    if a > 0.0 {
      Cancel(a, b);
    } else if a < 0.0 {
      Cancel(c, b);
    }
  }

  lemma ZeroGradientIsMinimum(s: System, x: Vec, y: Vec)
    requires s.Valid() && |x| == |y| == s.n && Dot(Gradient(s, x), Gradient(s, x)) == 0.0
    ensures Energy(s, x) <= Energy(s, y)
  {
    hide Axpy, Apply, Gradient, Energy, DotTo;
    var g, d := Gradient(s, x), Axpy(y, -1.0, x);
    BackAndForth(x, y);
    EnergyAxpy(s, x, 1.0, d);
    ApplyNonnegative(s, d);
    ZeroDot(g, d, s.n);
  }
}
