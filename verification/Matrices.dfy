/** Matrices of exact reals and the log-barrier Hessian of src/fuzz/sampler.py.
    A matrix is the sequence of its rows; its column count is passed along, since it may have no row. */
module Matrices {
  import opened Vectors

  type Matrix = seq<Vec>

  predicate HasShape(m: Matrix, rows: nat, cols: nat) {
    |m| == rows && forall i :: 0 <= i < rows ==> |m[i]| == cols
  }

  /** m.dot(x) for a vector x. */
  function MatVec(m: Matrix, x: Vec): (y: Vec)
    requires HasShape(m, |m|, |x|)
  {
    seq(|m|, i requires 0 <= i < |m| => Dot(m[i], x))
  }

  function Column(m: Matrix, cols: nat, k: nat): (c: Vec)
    requires HasShape(m, |m|, cols) && k < cols
  {
    seq(|m|, i requires 0 <= i < |m| => m[i][k])
  }

  /** x.dot(m) for a vector x. */
  function VecMat(x: Vec, m: Matrix, cols: nat): (y: Vec)
    requires HasShape(m, |x|, cols)
  {
    seq(cols, k requires 0 <= k < cols => Dot(x, Column(m, cols, k)))
  }

  function MatMul(p: Matrix, q: Matrix, cols: nat): (m: Matrix)
    requires HasShape(q, |q|, cols) && HasShape(p, |p|, |q|)
    ensures HasShape(m, |p|, cols)
  {
    seq(|p|, i requires 0 <= i < |p| => VecMat(p[i], q, cols))
  }

  function Transpose(m: Matrix, cols: nat): (t: Matrix)
    requires HasShape(m, |m|, cols)
    ensures HasShape(t, cols, |m|)
  {
    seq(cols, k requires 0 <= k < cols => Column(m, cols, k))
  }

  /** The vector with `c` at position k and zero elsewhere. */
  function Spike(n: nat, k: nat, c: real): (e: Vec)
  {
    seq(n, i => if i == k then c else 0.0)
  }

  /** The pointwise product of two vectors. */
  function Pointwise(u: Vec, v: Vec): (w: Vec)
    requires |u| == |v|
  {
    seq(|u|, i requires 0 <= i < |u| => u[i] * v[i])
  }

  function Diag(s: Vec): (m: Matrix)
    ensures HasShape(m, |s|, |s|)
  {
    seq(|s|, i requires 0 <= i < |s| => Spike(|s|, i, s[i]))
  }

  function Identity(n: nat): (m: Matrix)
    ensures HasShape(m, n, n)
  {
    Diag(seq(n, i => 1.0))
  }

  /** The combination of the first n rows of m with weights x. */
  function RowSum(x: Vec, m: Matrix, cols: nat, n: nat): (y: Vec)
    requires HasShape(m, |x|, cols) && n <= |x|
  {
    seq(cols, k requires 0 <= k < cols => DotN(x, Column(m, cols, k), n))
  }

  lemma RowSumStep(x: Vec, m: Matrix, cols: nat, n: nat, k: nat)
    requires HasShape(m, |x|, cols) && 0 < n <= |x| && k < cols
    ensures RowSum(x, m, cols, n)[k] == RowSum(x, m, cols, n - 1)[k] + x[n - 1] * m[n - 1][k]
  {
  }

  lemma RowSumSteps(x: Vec, m: Matrix, cols: nat, n: nat)
    requires HasShape(m, |x|, cols) && 0 < n <= |x|
    ensures forall k :: 0 <= k < cols ==>
      RowSum(x, m, cols, n)[k] == RowSum(x, m, cols, n - 1)[k] + x[n - 1] * m[n - 1][k]
  {
    forall k | 0 <= k < cols
      ensures RowSum(x, m, cols, n)[k] == RowSum(x, m, cols, n - 1)[k] + x[n - 1] * m[n - 1][k]
    {
      RowSumStep(x, m, cols, n, k);
    }
  }

  /** (x.m).v == x.(m.v), for the first n rows of m: both sum x_i * m_ik * v_k over i and k. */
  lemma {:induction false} AdjointN(x: Vec, m: Matrix, v: Vec, n: nat)
    requires HasShape(m, |x|, |v|) && n <= |x|
    ensures Dot(RowSum(x, m, |v|, n), v) == DotN(x, MatVec(m, v), n)
  {
    if n == 0 {
      DotNZero(RowSum(x, m, |v|, 0), v, |v|);
    } else {
      AdjointN(x, m, v, n - 1);
      AdjointStep(x, m, v, n);
      assert MatVec(m, v)[n - 1] == Dot(m[n - 1], v);
    }
  }

  lemma AdjointStep(x: Vec, m: Matrix, v: Vec, n: nat)
    requires HasShape(m, |x|, |v|) && 0 < n <= |x|
    ensures Dot(RowSum(x, m, |v|, n), v) == Dot(RowSum(x, m, |v|, n - 1), v) + x[n - 1] * Dot(m[n - 1], v)
  {
    RowSumSteps(x, m, |v|, n);
    DotNLinear(RowSum(x, m, |v|, n - 1), x[n - 1], m[n - 1], RowSum(x, m, |v|, n), v, |v|);
  }

  lemma Adjoint(x: Vec, m: Matrix, v: Vec)
    requires HasShape(m, |x|, |v|)
    ensures Dot(VecMat(x, m, |v|), v) == Dot(x, MatVec(m, v))
  {
    AdjointN(x, m, v, |x|);
    assert VecMat(x, m, |v|) == RowSum(x, m, |v|, |x|);
  }

  /** x.(p.q) == (x.p).q */
  lemma VecMatAssociates(x: Vec, p: Matrix, q: Matrix, cols: nat)
    requires HasShape(q, |q|, cols) && HasShape(p, |x|, |q|)
    ensures VecMat(x, MatMul(p, q, cols), cols) == VecMat(VecMat(x, p, |q|), q, cols)
  {
    forall k | 0 <= k < cols
      ensures VecMat(x, MatMul(p, q, cols), cols)[k] == VecMat(VecMat(x, p, |q|), q, cols)[k]
    {
      var c := Column(q, cols, k);
      assert Column(MatMul(p, q, cols), cols, k) == MatVec(p, c);
      Adjoint(x, p, c);
    }
  }

  lemma VecMatTranspose(v: Vec, a: Matrix)
    requires HasShape(a, |a|, |v|)
    ensures VecMat(v, Transpose(a, |v|), |a|) == MatVec(a, v)
  {
    forall i | 0 <= i < |a|
      ensures VecMat(v, Transpose(a, |v|), |a|)[i] == MatVec(a, v)[i]
    {
      assert Column(Transpose(a, |v|), |a|, i) == a[i];
      DotNCommutes(v, a[i], |v|);
    }
  }

  lemma VecMatDiag(w: Vec, s: Vec)
    requires |w| == |s|
    ensures VecMat(w, Diag(s), |s|) == Pointwise(w, s)
  {
    forall i | 0 <= i < |s|
      ensures VecMat(w, Diag(s), |s|)[i] == Pointwise(w, s)[i]
    {
      DotNSpike(w, Column(Diag(s), |s|, i), i, s[i], |s|);
    }
  }

  /** Multiplying by the identity on the right changes nothing: the projection of `do_sample`. */
  lemma MatMulIdentity(m: Matrix, n: nat)
    requires HasShape(m, |m|, n)
    ensures MatMul(m, Identity(n), n) == m
  {
    forall i | 0 <= i < |m|
      ensures VecMat(m[i], Identity(n), n) == m[i]
    {
      VecMatDiag(m[i], seq(n, j => 1.0));
    }
  }

  lemma TransposeIdentity(n: nat)
    ensures Transpose(Identity(n), n) == Identity(n)
  {
    forall k | 0 <= k < n
      ensures Transpose(Identity(n), n)[k] == Identity(n)[k]
    {
      assert forall i :: 0 <= i < n ==> Column(Identity(n), n, k)[i] == Identity(n)[k][i];
    }
  }

  /** b - a.x, the distance of x from each constraint. */
  function Slack(a: Matrix, b: Vec, x: Vec): (d: Vec)
    requires HasShape(a, |b|, |x|)
  {
    Sub(b, MatVec(a, x))
  }

  predicate NonzeroSlack(a: Matrix, b: Vec, x: Vec)
    requires HasShape(a, |b|, |x|)
  {
    forall i :: 0 <= i < |b| ==> Slack(a, b, x)[i] != 0.0
  }

  /** The barrier weights d ** -2.0. */
  function Weights(a: Matrix, b: Vec, x: Vec): (s: Vec)
    requires HasShape(a, |b|, |x|) && NonzeroSlack(a, b, x)
  {
    seq(|b|, i requires 0 <= i < |b| => InverseSquare(Slack(a, b, x)[i]))
  }

  /** src/fuzz/sampler.py:8-12 */
  function Hessian(a: Matrix, b: Vec, x: Vec): (h: Matrix)
    requires HasShape(a, |b|, |x|) && NonzeroSlack(a, b, x)
    ensures HasShape(h, |x|, |x|)
  {
    MatMul(MatMul(Transpose(a, |x|), Diag(Weights(a, b, x)), |b|), a, |x|)
  }

  function InverseSquare(d: real): real
    requires d != 0.0
  {
    1.0 / d / d
  }

  /** src/fuzz/sampler.py:15-17 */
  function LocalNorm(h: Matrix, v: Vec): real
    requires HasShape(h, |v|, |v|)
  {
    Dot(VecMat(v, h, |v|), v)
  }

  /** The sum of (a_i.v / slack_i)^2 over the first n rows. */
  function BarrierSum(a: Matrix, b: Vec, x: Vec, v: Vec, n: nat): real
    requires HasShape(a, |b|, |x|) && NonzeroSlack(a, b, x) && |v| == |x| && n <= |b|
  {
    if n == 0 then 0.0
    else BarrierSum(a, b, x, v, n - 1) + Square(Dot(a[n - 1], v) / Slack(a, b, x)[n - 1])
  }

  function Square(r: real): real { r * r }

  lemma InverseSquareScales(w: real, d: real)
    requires d != 0.0
    ensures (w * InverseSquare(d)) * w == Square(w / d)
  {
    var e := 1.0 / d;
    assert w / d == w * e;
    assert 1.0 / d / d == e * e;
    assert (w * (e * e)) * w == (w * e) * (w * e);
  }

  lemma {:induction false} WeightedSum(a: Matrix, b: Vec, x: Vec, v: Vec, n: nat)
    requires HasShape(a, |b|, |x|) && NonzeroSlack(a, b, x) && |v| == |x| && n <= |b|
    ensures DotN(Pointwise(MatVec(a, v), Weights(a, b, x)), MatVec(a, v), n) == BarrierSum(a, b, x, v, n)
  {
    if n > 0 {
      WeightedSum(a, b, x, v, n - 1);
      InverseSquareScales(Dot(a[n - 1], v), Slack(a, b, x)[n - 1]);
    }
  }

  /** v.(a^T diag(s) a).v sums (a.v)_i * s_i * (a.v)_i. */
  lemma SandwichForm(a: Matrix, s: Vec, v: Vec)
    requires HasShape(a, |s|, |v|)
    ensures LocalNorm(MatMul(MatMul(Transpose(a, |v|), Diag(s), |s|), a, |v|), v)
         == Dot(Pointwise(MatVec(a, v), s), MatVec(a, v))
  {
    VecMatAssociates(v, MatMul(Transpose(a, |v|), Diag(s), |s|), a, |v|);
    VecMatAssociates(v, Transpose(a, |v|), Diag(s), |s|);
    VecMatTranspose(v, a);
    VecMatDiag(MatVec(a, v), s);
    Adjoint(Pointwise(MatVec(a, v), s), a, v);
  }

  /** The quadratic form of the log-barrier Hessian is the sum of the squared relative slack changes. */
  lemma {:induction false} HessianQuadraticForm(a: Matrix, b: Vec, x: Vec, v: Vec)
    requires HasShape(a, |b|, |x|) && NonzeroSlack(a, b, x) && |v| == |x|
    ensures LocalNorm(Hessian(a, b, x), v) == BarrierSum(a, b, x, v, |b|)
  {
    SandwichForm(a, Weights(a, b, x), v);
    WeightedSum(a, b, x, v, |b|);
  }

  /** No term of the barrier sum exceeds the whole. */
  lemma {:induction false} BarrierTerm(a: Matrix, b: Vec, x: Vec, v: Vec, n: nat, i: nat)
    requires HasShape(a, |b|, |x|) && NonzeroSlack(a, b, x) && |v| == |x| && i < n <= |b|
    ensures 0.0 <= Square(Dot(a[i], v) / Slack(a, b, x)[i]) <= BarrierSum(a, b, x, v, n)
  {
    BarrierNonNegative(a, b, x, v, n - 1);
    if i < n - 1 { BarrierTerm(a, b, x, v, n - 1, i); }
  }

  lemma {:induction false} BarrierNonNegative(a: Matrix, b: Vec, x: Vec, v: Vec, n: nat)
    requires HasShape(a, |b|, |x|) && NonzeroSlack(a, b, x) && |v| == |x| && n <= |b|
    ensures BarrierSum(a, b, x, v, n) >= 0.0
  {
    if n > 0 { BarrierNonNegative(a, b, x, v, n - 1); }
  }

  /** Nor do two terms together. */
  lemma {:induction false} BarrierTwoTerms(a: Matrix, b: Vec, x: Vec, v: Vec, n: nat, i: nat, j: nat)
    requires HasShape(a, |b|, |x|) && NonzeroSlack(a, b, x) && |v| == |x| && i < j < n <= |b|
    ensures Square(Dot(a[i], v) / Slack(a, b, x)[i]) + Square(Dot(a[j], v) / Slack(a, b, x)[j]) <=
      BarrierSum(a, b, x, v, n)
  {
    if j < n - 1 {
      BarrierTwoTerms(a, b, x, v, n - 1, i, j);
    } else {
      BarrierTerm(a, b, x, v, n - 1, i);
    }
  }

  /** A sum with one term that is not zero. */
  lemma {:induction false} BarrierOneTerm(a: Matrix, b: Vec, x: Vec, v: Vec, n: nat, i: nat)
    requires HasShape(a, |b|, |x|) && NonzeroSlack(a, b, x) && |v| == |x| && i < |b| && n <= |b|
    requires forall j :: 0 <= j < |b| && j != i ==> Dot(a[j], v) == 0.0
    ensures BarrierSum(a, b, x, v, n) == if i < n then Square(Dot(a[i], v) / Slack(a, b, x)[i]) else 0.0
  {
    if n > 0 {
      BarrierOneTerm(a, b, x, v, n - 1, i);
      if n - 1 != i { assert Dot(a[n - 1], v) / Slack(a, b, x)[n - 1] == 0.0; }
    }
  }

  /** The local norm of v is never negative, and 0 exactly if v is orthogonal to all rows: the Hessian, which
      sample_ellipsoid inverts and factorises, is positive definite iff only 0 is. */
  lemma {:induction false} HessianDefiniteIff(a: Matrix, b: Vec, x: Vec, v: Vec)
    requires HasShape(a, |b|, |x|) && NonzeroSlack(a, b, x) && |v| == |x|
    ensures LocalNorm(Hessian(a, b, x), v) >= 0.0
    ensures LocalNorm(Hessian(a, b, x), v) == 0.0 <==> forall i :: 0 <= i < |a| ==> Dot(a[i], v) == 0.0
  {
    HessianQuadraticForm(a, b, x, v);
    BarrierNonNegative(a, b, x, v, |b|);
    if i :| 0 <= i < |a| && Dot(a[i], v) != 0.0 {
      BarrierTerm(a, b, x, v, |b|, i);
      NonzeroQuotient(Dot(a[i], v), Slack(a, b, x)[i]);
    } else {
      BarrierZero(a, b, x, v, |b|);
    }
  }

  lemma NonzeroQuotient(p: real, q: real)
    requires p != 0.0 && q != 0.0
    ensures Square(p / q) > 0.0
  {
    var w := p / q;
    assert w * q == p;
    AddSquarePositive(0.0, w);
  }

  lemma {:induction false} BarrierZero(a: Matrix, b: Vec, x: Vec, v: Vec, n: nat)
    requires HasShape(a, |b|, |x|) && NonzeroSlack(a, b, x) && |v| == |x| && n <= |b|
    requires forall j :: 0 <= j < |b| ==> Dot(a[j], v) == 0.0
    ensures BarrierSum(a, b, x, v, n) == 0.0
  {
    if n > 0 {
      BarrierZero(a, b, x, v, n - 1);
      assert Dot(a[n - 1], v) / Slack(a, b, x)[n - 1] == 0.0;
    }
  }
}
