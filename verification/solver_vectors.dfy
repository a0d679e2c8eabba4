/** Exact real vectors: inner products, and how many nonzero vectors can be pairwise
    orthogonal. */
module Vectors {

  type Vec = seq<real>

  ghost function DotTo(a: Vec, b: Vec, n: nat): real
    requires n <= |a| && n <= |b|
  {
    if n == 0 then 0.0 else DotTo(a, b, n - 1) + a[n - 1] * b[n - 1]
  }

  ghost function Dot(a: Vec, b: Vec): real
    requires |a| == |b|
  {
    DotTo(a, b, |a|)
  }

  /** a + s b */
  ghost function Axpy(a: Vec, s: real, b: Vec): (c: Vec)
    requires |a| == |b|
    ensures |c| == |a| && forall i | 0 <= i < |c| :: c[i] == a[i] + s * b[i]
  {
    seq(|a|, i requires 0 <= i < |a| => a[i] + s * b[i])
  }

  ghost function Zeros(n: nat): (c: Vec)
    ensures |c| == n && forall i | 0 <= i < n :: c[i] == 0.0
  {
    seq(n, _ => 0.0)
  }

  /** Adds s to one coordinate. */
  ghost function AddAt(a: Vec, i: nat, s: real): (c: Vec)
    requires i < |a|
    ensures |c| == |a|
  {
    a[i := a[i] + s]
  }

  lemma {:induction false} DotSymmetric(a: Vec, b: Vec, n: nat)
    requires n <= |a| == |b|
    ensures DotTo(a, b, n) == DotTo(b, a, n)
  {
    if n > 0 {
      DotSymmetric(a, b, n - 1);
    }
  }

  lemma DotSwap(a: Vec, b: Vec)
    requires |a| == |b|
    ensures Dot(a, b) == Dot(b, a)
  {
    DotSymmetric(a, b, |a|);
  }

  lemma {:induction false} DotAxpyTo(a: Vec, s: real, b: Vec, c: Vec, n: nat)
    requires n <= |a| == |b| == |c|
    ensures DotTo(Axpy(a, s, b), c, n) == DotTo(a, c, n) + s * DotTo(b, c, n)
  {
    if n > 0 {
      DotAxpyTo(a, s, b, c, n - 1);
      Spread(a[n - 1], s, b[n - 1], c[n - 1], DotTo(b, c, n - 1));
    }
  }

  lemma Spread(a: real, s: real, b: real, c: real, rest: real)
    ensures (a + s * b) * c + s * rest == a * c + s * (rest + b * c)
  {
    assert (s * b) * c == s * (b * c);
  }

  lemma DotAxpy(a: Vec, s: real, b: Vec, c: Vec)
    requires |a| == |b| == |c|
    ensures Dot(Axpy(a, s, b), c) == Dot(a, c) + s * Dot(b, c)
    ensures Dot(c, Axpy(a, s, b)) == Dot(c, a) + s * Dot(c, b)
  {
    DotAxpyTo(a, s, b, c, |a|);
    DotSymmetric(Axpy(a, s, b), c, |a|);
    DotSymmetric(a, c, |a|);
    DotSymmetric(b, c, |a|);
  }

  lemma {:induction false} DotAddAtTo(a: Vec, i: nat, s: real, c: Vec, n: nat)
    requires i < |a| == |c| && n <= |a|
    ensures DotTo(AddAt(a, i, s), c, n) == DotTo(a, c, n) + if i < n then s * c[i] else 0.0
  {
    if n > 0 {
      DotAddAtTo(a, i, s, c, n - 1);
    }
  }

  lemma DotAddAt(a: Vec, i: nat, s: real, c: Vec)
    requires i < |a| == |c|
    ensures Dot(AddAt(a, i, s), c) == Dot(a, c) + s * c[i]
  {
    DotAddAtTo(a, i, s, c, |a|);
  }

  lemma {:induction false} DotZeros(n: nat, c: Vec, k: nat)
    requires k <= n == |c|
    ensures DotTo(Zeros(n), c, k) == 0.0
  {
    if k > 0 {
      DotZeros(n, c, k - 1);
    }
  }

  lemma Square(a: real)
    ensures a * a >= 0.0
  {
  }

  lemma {:induction false} DotSelf(a: Vec, n: nat)
    requires n <= |a|
    ensures DotTo(a, a, n) >= 0.0
  {
    if n > 0 {
      DotSelf(a, n - 1);
      Square(a[n - 1]);
    }
  }

  lemma DotNonnegative(a: Vec)
    ensures Dot(a, a) >= 0.0
  {
    DotSelf(a, |a|);
  }

  /** The expansion of (a + s b).(a + s b). */
  lemma DotAxpySelf(a: Vec, s: real, b: Vec)
    requires |a| == |b|
    ensures Dot(Axpy(a, s, b), Axpy(a, s, b)) == Dot(a, a) + 2.0 * s * Dot(a, b) + s * s * Dot(b, b)
  {
    hide Dot, DotTo, Axpy;
    var c := Axpy(a, s, b);
    DotAxpy(a, s, b, c);
    DotAxpy(a, s, b, a);
    DotAxpy(a, s, b, b);
    DotSwap(a, b);
    var p, q, r := Dot(a, a), Dot(a, b), Dot(b, b);
    assert Dot(a, c) == p + s * q && Dot(b, c) == q + s * r;
    assert s * (q + s * r) == s * q + s * s * r;
  }

  // ----- orthogonal families -----

  ghost predicate Orthogonal(vs: seq<Vec>, n: nat) {
    && (forall i | 0 <= i < |vs| :: |vs[i]| == n)
    && (forall i, j | 0 <= i < j < |vs| :: |vs[i]| == |vs[j]| && Dot(vs[i], vs[j]) == 0.0)
    && (forall i | 0 <= i < |vs| :: Dot(vs[i], vs[i]) > 0.0)
  }

  ghost function Coefficient(v: Vec, j: nat): real
    requires j < |v| && Dot(v, v) > 0.0
  {
    v[j] / Dot(v, v)
  }

  ghost function Portion(v: Vec, j: nat): real
    requires j < |v| && Dot(v, v) > 0.0
  {
    v[j] * v[j] / Dot(v, v)
  }

  /** Coordinate j of the unit vector e_j, less its components along the first k
      vectors of the family. */
  ghost function Rest(vs: seq<Vec>, n: nat, j: nat, k: nat): (w: Vec)
    requires Orthogonal(vs, n) && j < n && k <= |vs|
    ensures |w| == n
  {
    if k == 0 then AddAt(Zeros(n), j, 1.0)
    else
      var v := vs[k - 1];
      Axpy(Rest(vs, n, j, k - 1), -Coefficient(v, j), v)
  }

  /** How much of e_j lies along the first k vectors. */
  ghost function Share(vs: seq<Vec>, n: nat, j: nat, k: nat): real
    requires Orthogonal(vs, n) && j < n && k <= |vs|
  {
    if k == 0 then 0.0
    else Share(vs, n, j, k - 1) + Portion(vs[k - 1], j)
  }

  lemma {:induction false} RestDot(vs: seq<Vec>, n: nat, j: nat, k: nat, i: nat)
    requires Orthogonal(vs, n) && j < n && k <= i < |vs|
    ensures Dot(Rest(vs, n, j, k), vs[i]) == vs[i][j]
  {
    if k == 0 {
      DotAddAt(Zeros(n), j, 1.0, vs[i]);
      DotZeros(n, vs[i], n);
    } else {
      RestDot(vs, n, j, k - 1, i);
      var v := vs[k - 1];
      DotAxpy(Rest(vs, n, j, k - 1), -Coefficient(v, j), v, vs[i]);
      assert Dot(v, vs[i]) == 0.0;
    }
  }

  lemma RemoveComponent(c: real, x: real, wv: real, vv: real, ww: real)
    requires vv > 0.0 && c == -(x / vv) && wv == x
    ensures ww + 2.0 * c * wv + c * c * vv == ww - x * x / vv
  {
    var q := x / vv;
    assert q * vv == x;
    assert c * c * vv == q * (q * vv) == q * x;
    assert 2.0 * c * x == -2.0 * (q * x);
    assert q * x == x * x / vv;
  }

  lemma RemovedSelf(w: Vec, v: Vec, j: nat)
    requires |w| == |v| && j < |v| && Dot(v, v) > 0.0 && Dot(w, v) == v[j]
    ensures var rest := Axpy(w, -Coefficient(v, j), v);
      Dot(rest, rest) == Dot(w, w) - Portion(v, j)
  {
    var c := -Coefficient(v, j);
    DotAxpySelf(w, c, v);
    RemoveComponent(c, v[j], Dot(w, v), Dot(v, v), Dot(w, w));
  }

  lemma RestStart(n: nat, j: nat)
    requires j < n
    ensures var e := AddAt(Zeros(n), j, 1.0); Dot(e, e) == 1.0
  {
    var e := AddAt(Zeros(n), j, 1.0);
    DotAddAt(Zeros(n), j, 1.0, e);
    DotZeros(n, e, n);
  }

  lemma {:induction false} RestSelf(vs: seq<Vec>, n: nat, j: nat, k: nat)
    requires Orthogonal(vs, n) && j < n && k <= |vs|
    ensures Dot(Rest(vs, n, j, k), Rest(vs, n, j, k)) == 1.0 - Share(vs, n, j, k)
  {
    hide Dot, Axpy, Portion, Coefficient, AddAt;
    if k == 0 {
      RestStart(n, j);
    } else {
      RestSelf(vs, n, j, k - 1);
      RestDot(vs, n, j, k - 1, k - 1);
      RemovedSelf(Rest(vs, n, j, k - 1), vs[k - 1], j);
    }
  }

  ghost function ShareSum(vs: seq<Vec>, n: nat, coordinates: nat, k: nat): real
    requires Orthogonal(vs, n) && coordinates <= n && k <= |vs|
  {
    if coordinates == 0 then 0.0
    else ShareSum(vs, n, coordinates - 1, k) + Share(vs, n, coordinates - 1, k)
  }

  lemma {:induction false} ShareSumBound(vs: seq<Vec>, n: nat, coordinates: nat, k: nat)
    requires Orthogonal(vs, n) && coordinates <= n && k <= |vs|
    ensures ShareSum(vs, n, coordinates, k) <= coordinates as real
  {
    if coordinates > 0 {
      ShareSumBound(vs, n, coordinates - 1, k);
      RestSelf(vs, n, coordinates - 1, k);
      DotSelf(Rest(vs, n, coordinates - 1, k), n);
    }
  }

  lemma AddOverSame(a: real, b: real, c: real)
    requires c > 0.0
    ensures a / c + b / c == (a + b) / c
  {
  }

  lemma {:induction false} ShareSumStep(vs: seq<Vec>, n: nat, coordinates: nat, k: nat)
    requires Orthogonal(vs, n) && coordinates <= n && 0 < k <= |vs|
    ensures var v := vs[k - 1];
      ShareSum(vs, n, coordinates, k) == ShareSum(vs, n, coordinates, k - 1) + DotTo(v, v, coordinates) / Dot(v, v)
  {
    if coordinates > 0 {
      var v, j := vs[k - 1], coordinates - 1;
      ShareSumStep(vs, n, j, k);
      AddOverSame(DotTo(v, v, j), v[j] * v[j], Dot(v, v));
    }
  }

  lemma {:induction false} ShareSumTotal(vs: seq<Vec>, n: nat, k: nat)
    requires Orthogonal(vs, n) && k <= |vs|
    ensures ShareSum(vs, n, n, k) == k as real
  {
    if k == 0 {
      ShareSumEmpty(vs, n, n);
    } else {
      ShareSumTotal(vs, n, k - 1);
      ShareSumStep(vs, n, n, k);
    }
  }

  lemma {:induction false} ShareSumEmpty(vs: seq<Vec>, n: nat, coordinates: nat)
    requires Orthogonal(vs, n) && coordinates <= n
    ensures ShareSum(vs, n, coordinates, 0) == 0.0
  {
    if coordinates > 0 {
      ShareSumEmpty(vs, n, coordinates - 1);
    }
  }

  /** In n dimensions there are at most n nonzero pairwise orthogonal vectors. */
  lemma OrthogonalAtMost(vs: seq<Vec>, n: nat)
    requires Orthogonal(vs, n)
    ensures |vs| <= n
  {
    ShareSumTotal(vs, n, |vs|);
    ShareSumBound(vs, n, n, |vs|);
  }
}
