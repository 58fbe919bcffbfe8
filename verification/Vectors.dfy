/** Vectors of exact reals: the algebra that the walks in src/fuzz/sampler.py rest on. */
module Vectors {

  type Vec = seq<real>

  /** The first `n` terms of the inner product. */
  function DotN(u: Vec, v: Vec, n: nat): real
    requires n <= |u| && n <= |v|
  {
    if n == 0 then 0.0 else DotN(u, v, n - 1) + u[n - 1] * v[n - 1]
  }

  function Dot(u: Vec, v: Vec): real
    requires |u| == |v|
  {
    DotN(u, v, |u|)
  }

  function Add(u: Vec, v: Vec): (w: Vec)
    requires |u| == |v|
  {
    seq(|u|, i requires 0 <= i < |u| => u[i] + v[i])
  }

  function Sub(u: Vec, v: Vec): (w: Vec)
    requires |u| == |v|
  {
    seq(|u|, i requires 0 <= i < |u| => u[i] - v[i])
  }

  function Scale(c: real, u: Vec): (w: Vec)
  {
    seq(|u|, i requires 0 <= i < |u| => c * u[i])
  }

  lemma {:induction false} DotNCommutes(u: Vec, v: Vec, n: nat)
    requires n <= |u| && n <= |v|
    ensures DotN(u, v, n) == DotN(v, u, n)
  {
    if n > 0 { DotNCommutes(u, v, n - 1); }
  }

  /** Inner products agree when the vectors agree on the first `n` coordinates. */
  lemma {:induction false} DotNExtensional(u: Vec, v: Vec, u': Vec, v': Vec, n: nat)
    requires n <= |u| && n <= |v| && n <= |u'| && n <= |v'|
    requires forall i :: 0 <= i < n ==> u[i] == u'[i] && v[i] == v'[i]
    ensures DotN(u, v, n) == DotN(u', v', n)
  {
    if n > 0 { DotNExtensional(u, v, u', v', n - 1); }
  }

  /** Linearity: if w is u + c*v on the first n coordinates, so is its inner product with y. */
  lemma {:induction false} DotNLinear(u: Vec, c: real, v: Vec, w: Vec, y: Vec, n: nat)
    requires n <= |u| && n <= |v| && n <= |w| && n <= |y|
    requires forall i :: 0 <= i < n ==> w[i] == u[i] + c * v[i]
    ensures DotN(w, y, n) == DotN(u, y, n) + c * DotN(v, y, n)
  {
    if n > 0 {
      DotNLinear(u, c, v, w, y, n - 1);
      var t := y[n - 1];
      assert (u[n - 1] + c * v[n - 1]) * t == u[n - 1] * t + c * (v[n - 1] * t);
      assert c * (DotN(v, y, n - 1) + v[n - 1] * t) == c * DotN(v, y, n - 1) + c * (v[n - 1] * t);
    }
  }

  /** a.(x + t*d) == a.x + t*(a.d): how a constraint changes along a direction. */
  lemma DotAlong(a: Vec, x: Vec, t: real, d: Vec)
    requires |a| == |x| == |d|
    ensures Dot(a, Add(x, Scale(t, d))) == Dot(a, x) + t * Dot(a, d)
  {
    var y := Add(x, Scale(t, d));
    DotNLinear(x, t, d, y, a, |a|);
    DotNCommutes(a, y, |a|);
    DotNCommutes(a, x, |a|);
    DotNCommutes(a, d, |a|);
  }

  /** a.(x - z) == a.x - a.z. */
  lemma DotSub(a: Vec, x: Vec, z: Vec)
    requires |a| == |x| == |z|
    ensures Dot(a, Sub(x, z)) == Dot(a, x) - Dot(a, z)
  {
    var y := Sub(x, z);
    DotNLinear(x, -1.0, z, y, a, |a|);
    DotNCommutes(a, y, |a|);
    DotNCommutes(a, x, |a|);
    DotNCommutes(a, z, |a|);
  }

  /** The inner product with a vector that is `c` at position `k` and zero elsewhere. */
  lemma {:induction false} DotNSpike(u: Vec, e: Vec, k: nat, c: real, n: nat)
    requires n <= |u| && n <= |e| && k < |e|
    requires forall i :: 0 <= i < |e| ==> e[i] == if i == k then c else 0.0
    ensures DotN(u, e, n) == if k < n then u[k] * c else 0.0
  {
    if n > 0 { DotNSpike(u, e, k, c, n - 1); }
  }

  lemma {:induction false} DotNZero(u: Vec, v: Vec, n: nat)
    requires n <= |u| && n <= |v|
    requires forall i :: 0 <= i < n ==> u[i] == 0.0
    ensures DotN(u, v, n) == 0.0
  {
    if n > 0 { DotNZero(u, v, n - 1); }
  }

  /** The inner product with one more coordinate. */
  lemma DotAppend(u: Vec, c: real, v: Vec, r: real)
    requires |u| == |v|
    ensures Dot(u + [c], v + [r]) == Dot(u, v) + c * r
  {
    DotNExtensional(u + [c], v + [r], u, v, |u|);
  }

  lemma {:induction false} SquareNonNegative(u: Vec, n: nat)
    requires n <= |u|
    ensures DotN(u, u, n) >= 0.0
  {
    if n > 0 { SquareNonNegative(u, n - 1); }
  }

  /** A nonzero coordinate makes the squared norm positive. */
  lemma {:induction false} SquarePositive(u: Vec, k: nat, n: nat)
    requires k < n <= |u| && u[k] != 0.0
    ensures DotN(u, u, n) > 0.0
  {
    SquareNonNegative(u, n - 1);
    var last := u[n - 1];
    assert DotN(u, u, n) == DotN(u, u, n - 1) + last * last;
    if k < n - 1 {
      SquarePositive(u, k, n - 1);
      assert last * last >= 0.0;
    } else {
      AddSquarePositive(DotN(u, u, n - 1), last);
    }
  }

  /** The step of the Cauchy-Schwarz induction: from p^2 <= s*t follows (p + x*y)^2 <= (s + x^2)(t + y^2). */
  lemma CauchySchwarzStep(p: real, s: real, t: real, x: real, y: real)
    requires s >= 0.0 && t >= 0.0 && p * p <= s * t
    ensures (p + x * y) * (p + x * y) <= (s + x * x) * (t + y * y)
  {
    // It suffices that 2*p*x*y <= s*y^2 + t*x^2, whose right side is at least 2*|x*y|*sqrt(s*t).
    var q := s * (y * y) + t * (x * x);
    var g := p * (x * y);
    MeanInequality(s * (y * y), t * (x * x), g) by {
      assert (s * (y * y)) * (t * (x * x)) == (s * t) * ((x * y) * (x * y));
      assert g * g == (p * p) * ((x * y) * (x * y));
      ScaleLe(p * p, s * t, (x * y) * (x * y));
    }
    assert (p + x * y) * (p + x * y) == p * p + 2.0 * g + (x * y) * (x * y);
    assert (s + x * x) * (t + y * y) == s * t + q + (x * y) * (x * y);
  }

  lemma CauchySchwarzNext(p: real, s: real, t: real, x: real, y: real, p': real, s': real, t': real)
    requires s >= 0.0 && t >= 0.0 && p * p <= s * t
    requires p' == p + x * y && s' == s + x * x && t' == t + y * y
    ensures p' * p' <= s' * t'
  {
    CauchySchwarzStep(p, s, t, x, y);
  }

  /** A product of positive reals, named so that it can be used as a linear term. */
  lemma MulPositive(x: real, y: real) returns (p: real)
    requires x > 0.0 && y > 0.0
    ensures p == x * y && p > 0.0
  {
    p := x * y;
  }

  lemma AddSquarePositive(c: real, x: real)
    requires c >= 0.0 && x != 0.0
    ensures c + x * x > 0.0
  {
    var y := if x < 0.0 then -x else x;
    var p := MulPositive(y, y);
    assert p == x * x;
  }

  lemma SquareMonotone(x: real, y: real)
    requires 0.0 <= x < y
    ensures x * x < y * y
  {
    var p := MulPositive(y - x, y);
    assert p == y * y - x * y;
    assert x * x <= x * y;
  }

  lemma ScaleLe(a: real, b: real, c: real)
    requires a <= b && c >= 0.0
    ensures a * c <= b * c
  {
  }

  /** If g^2 <= u*v with u, v nonnegative then 2*g <= u + v. */
  lemma MeanInequality(u: real, v: real, g: real)
    requires u >= 0.0 && v >= 0.0 && g * g <= u * v
    ensures 2.0 * g <= u + v
  {
    if 2.0 * g > u + v {
      assert (u - v) * (u - v) >= 0.0;
      assert (u + v) * (u + v) >= 4.0 * (u * v);
      SquareMonotone(u + v, 2.0 * g);
      assert false;
    }
  }

  /** Cauchy-Schwarz in n dimensions. */
  lemma {:induction false} CauchySchwarz(u: Vec, v: Vec, n: nat)
    requires n <= |u| && n <= |v|
    ensures DotN(u, v, n) * DotN(u, v, n) <= DotN(u, u, n) * DotN(v, v, n)
  {
    if n > 0 {
      CauchySchwarz(u, v, n - 1);
      SquareNonNegative(u, n - 1);
      SquareNonNegative(v, n - 1);
      var p, s, t, x, y := DotN(u, v, n - 1), DotN(u, u, n - 1), DotN(v, v, n - 1), u[n - 1], v[n - 1];
      CauchySchwarzNext(p, s, t, x, y, DotN(u, v, n), DotN(u, u, n), DotN(v, v, n));
    }
  }
}
