/** The polytope {x | a.x <= b}, and the linear program that `chebyshev_center` hands to its solver. */
module Polytope {
  import opened Options
  import opened Vectors
  import opened Matrices

  /** (a.dot(x) <= b).all(), the test both walks make on entry to every iteration. */
  predicate Inside(a: Matrix, b: Vec, x: Vec)
    requires HasShape(a, |b|, |x|)
  {
    forall i :: 0 <= i < |b| ==> Dot(a[i], x) <= b[i]
  }

  predicate StrictlyInside(a: Matrix, b: Vec, x: Vec)
    requires HasShape(a, |b|, |x|)
  {
    forall i :: 0 <= i < |b| ==> Dot(a[i], x) < b[i]
  }

  ghost predicate HasInterior(a: Matrix, b: Vec, n: nat)
    requires HasShape(a, |b|, n)
  {
    exists p: Vec :: |p| == n && StrictlyInside(a, b, p)
  }

  /** np.linalg.norm: the nonnegative root of the squared length. */
  predicate IsNorm(r: real, v: Vec) {
    r >= 0.0 && r * r == Dot(v, v)
  }

  predicate AreRowNorms(norms: Vec, a: Matrix) {
    |norms| == |a| && forall i :: 0 <= i < |a| ==> IsNorm(norms[i], a[i])
  }

  /** np.hstack((a, norm_vector)) */
  function LpRows(a: Matrix, norms: Vec, n: nat): (m: Matrix)
    requires HasShape(a, |norms|, n)
    ensures HasShape(m, |a|, n + 1)
  {
    seq(|a|, i requires 0 <= i < |a| => a[i] + [norms[i]])
  }

  /** Zeros, with -1 for the radius. */
  function LpCost(n: nat): (c: Vec)
  {
    seq(n, i => 0.0) + [-1.0]
  }

  /** What a successful linprog answer means: a feasible point of least cost, with unbounded variables. */
  ghost predicate LpOptimal(c: Vec, m: Matrix, b: Vec, y: Vec)
    requires |c| == |y| && HasShape(m, |b|, |y|)
  {
    Inside(m, b, y) && forall y': Vec :: |y'| == |y| && Inside(m, b, y') ==> Dot(c, y) <= Dot(c, y')
  }

  datatype LpResult = Solved(y: Vec) | Unsolved
  /** src/fuzz/sampler.py:99-103, given the solver's answer. None: the exception is raised. */
  function ChebyshevCenter(res: LpResult): (center: Option<Vec>)
    requires res.Solved? ==> |res.y| > 0
  {
    match res
    case Unsolved => None
    case Solved(y) => Some(y[..|y| - 1])
  }

  /** The constraint a.x <= b pulled in by a margin of r in every direction. */
  predicate Margin(a: Matrix, b: Vec, norms: Vec, x: Vec, r: real)
    requires HasShape(a, |b|, |x|) && |norms| == |b|
  {
    forall i :: 0 <= i < |b| ==> Dot(a[i], x) + norms[i] * r <= b[i]
  }

  lemma LpFeasibleIsMargin(a: Matrix, b: Vec, norms: Vec, x: Vec, r: real)
    requires HasShape(a, |b|, |x|) && |norms| == |b|
    ensures Inside(LpRows(a, norms, |x|), b, x + [r]) <==> Margin(a, b, norms, x, r)
  {
    forall i | 0 <= i < |b|
      ensures Dot(LpRows(a, norms, |x|)[i], x + [r]) == Dot(a[i], x) + norms[i] * r
    {
      DotAppend(a[i], norms[i], x, r);
    }
  }

  lemma LpCostIsRadius(x: Vec, r: real)
    ensures Dot(LpCost(|x|), x + [r]) == -r
  {
    var z := seq(|x|, i => 0.0);
    DotAppend(z, -1.0, x, r);
    DotNZero(z, x, |x|);
  }

  /** The closed Euclidean ball. */
  predicate InBall(y: Vec, x: Vec, r: real)
    requires |y| == |x|
  {
    Dot(Sub(y, x), Sub(y, x)) <= r * r
  }

  /** Within distance r of x, a.y is at most a.x + |a| r. */
  lemma ReachWithinBall(a: Vec, norm: real, x: Vec, y: Vec, r: real)
    requires |a| == |x| == |y| && IsNorm(norm, a) && r >= 0.0 && InBall(y, x, r)
    ensures Dot(a, y) <= Dot(a, x) + norm * r
  {
    var v := Sub(y, x);
    DotSub(a, y, x);
    CauchySchwarz(a, v, |a|);
    var g, s := Dot(a, v), norm * r;
    SquareNonNegative(a, |a|);
    ScaleLe(Dot(v, v), r * r, Dot(a, a));
    assert s * s == (norm * norm) * (r * r);
    assert s >= 0.0;
    if g > s {
      SquareMonotone(s, g);
      assert false;
    }
  }

  lemma ScaledSquare(a: Vec, t: real)
    ensures Dot(Scale(t, a), Scale(t, a)) == t * (t * Dot(a, a))
    ensures Dot(a, Scale(t, a)) == t * Dot(a, a)
  {
    var z, v := Scale(0.0, a), Scale(t, a);
    DotNLinear(z, t, a, v, v, |a|);
    DotNZero(z, v, |a|);
    DotNLinear(z, t, a, v, a, |a|);
    DotNZero(z, a, |a|);
    DotNCommutes(a, v, |a|);
  }

  /** The factor that stretches a vector of the given norm to length r. */
  function Stretch(norm: real, r: real): real {
    if norm == 0.0 then 0.0 else r / norm
  }

  lemma StretchedLength(norm: real, r: real, sq: real)
    requires sq == norm * norm
    ensures Stretch(norm, r) * sq == norm * r
    ensures Stretch(norm, r) * (Stretch(norm, r) * sq) <= r * r
  {
    var t := Stretch(norm, r);
    if norm == 0.0 {
      assert sq == 0.0;
      assert r * r >= 0.0;
    } else {
      assert t * norm == r;
      assert t * sq == (t * norm) * norm;
      assert t * (r * norm) == (t * norm) * r;
    }
  }

  /** The bound is attained: the ball has a point where a.y is a.x + |a| r. */
  lemma FarthestInBall(a: Vec, norm: real, x: Vec, r: real) returns (y: Vec)
    requires |a| == |x| && IsNorm(norm, a) && r >= 0.0
    ensures |y| == |x| && InBall(y, x, r) && Dot(a, y) == Dot(a, x) + norm * r
  {
    var t := Stretch(norm, r);
    y := Add(x, Scale(t, a));
    assert Sub(y, x) == Scale(t, a);
    DotAlong(a, x, t, a);
    ScaledSquare(a, t);
    StretchedLength(norm, r, Dot(a, a));
  }

  /** Every point of the ball satisfies the constraint a.y <= c. */
  ghost predicate HoldsOnBall(a: Vec, c: real, x: Vec, r: real)
    requires |a| == |x|
  {
    forall y: Vec {:trigger InBall(y, x, r)} :: |y| == |x| && InBall(y, x, r) ==> Dot(a, y) <= c
  }

  ghost predicate BallInside(a: Matrix, b: Vec, x: Vec, r: real)
    requires HasShape(a, |b|, |x|)
  {
    forall i :: 0 <= i < |b| ==> HoldsOnBall(a[i], b[i], x, r)
  }

  /** One constraint: its margin is r at x exactly when it holds on the whole ball. */
  lemma MarginIffHoldsOnBall(a: Vec, c: real, norm: real, x: Vec, r: real)
    requires |a| == |x| && IsNorm(norm, a) && r >= 0.0
    ensures Dot(a, x) + norm * r <= c <==> HoldsOnBall(a, c, x, r)
  {
    if Dot(a, x) + norm * r <= c {
      forall y: Vec | |y| == |x| && InBall(y, x, r) ensures Dot(a, y) <= c {
        ReachWithinBall(a, norm, x, y, r);
      }
    }
    var y := FarthestInBall(a, norm, x, r);
  }

  lemma {:induction false} MarginIffBallInside(a: Matrix, b: Vec, norms: Vec, x: Vec, r: real, n: nat)
    requires HasShape(a, |b|, |x|) && AreRowNorms(norms, a) && r >= 0.0 && n <= |b|
    ensures (forall i :: 0 <= i < n ==> Dot(a[i], x) + norms[i] * r <= b[i])
       <==> (forall i :: 0 <= i < n ==> HoldsOnBall(a[i], b[i], x, r))
  {
    if n > 0 {
      MarginIffBallInside(a, b, norms, x, r, n - 1);
      MarginIffHoldsOnBall(a[n - 1], b[n - 1], norms[n - 1], x, r);
    }
  }

  /** The (x, r) the linear program ranges over are exactly the balls that fit in the polytope. */
  lemma LpFeasibleIffBallInside(a: Matrix, b: Vec, norms: Vec, x: Vec, r: real)
    requires HasShape(a, |b|, |x|) && AreRowNorms(norms, a) && r >= 0.0
    ensures Inside(LpRows(a, norms, |x|), b, x + [r]) <==> BallInside(a, b, x, r)
  {
    LpFeasibleIsMargin(a, b, norms, x, r);
    MarginIffBallInside(a, b, norms, x, r, |b|);
  }

  /** A strictly interior point has a positive margin. */
  lemma {:induction false} PositiveMargin(a: Matrix, b: Vec, norms: Vec, p: Vec, n: nat) returns (r: real)
    requires HasShape(a, |b|, |p|) && |norms| == |b| && n <= |b|
    requires forall i :: 0 <= i < n ==> norms[i] >= 0.0
    requires StrictlyInside(a, b, p)
    ensures r > 0.0
    ensures forall i :: 0 <= i < n ==> Dot(a[i], p) + norms[i] * r <= b[i]
    decreases n
  {
    if n == 0 {
      r := 1.0;
    } else {
      var r' := PositiveMargin(a, b, norms, p, n - 1);
      var gap := b[n - 1] - Dot(a[n - 1], p);
      var w := norms[n - 1];
      r := if w * r' <= gap then r' else gap / w;
      if w * r' > gap { QuotientBelow(w, r', gap); }
      forall i | 0 <= i < n - 1 ensures norms[i] * r <= norms[i] * r' {
        ScaleLe(r, r', norms[i]);
      }
    }
  }

  lemma QuotientBelow(w: real, r: real, gap: real)
    requires w >= 0.0 && r > 0.0 && gap > 0.0 && w * r > gap
    ensures w > 0.0 && 0.0 < gap / w <= r && w * (gap / w) == gap
  {
    assert w != 0.0;
    var q := gap / w;
    assert w * q == gap;
    if q > r { ScaleLe(r, q, w); }
    if q <= 0.0 { ScaleLe(q, 0.0, w); }
  }

  /** A row of norm zero is zero. */
  lemma ZeroNorm(a: Vec, x: Vec)
    requires |a| == |x| && IsNorm(0.0, a)
    ensures Dot(a, x) == 0.0
  {
    CauchySchwarz(a, x, |a|);
    var d := Dot(a, x);
    assert Dot(a, a) == 0.0;
    assert 0.0 * Dot(x, x) == 0.0;
    assert d * d <= Dot(a, a) * Dot(x, x);
    if d != 0.0 { AddSquarePositive(0.0, d); }
  }

  /** A point with a positive margin is strictly inside, if any point is; rows of norm zero do not tell points
      apart. */
  lemma MarginIsStrict(a: Matrix, b: Vec, norms: Vec, x: Vec, r: real, p: Vec)
    requires HasShape(a, |b|, |x|) && AreRowNorms(norms, a) && r > 0.0
    requires Margin(a, b, norms, x, r) && |p| == |x| && StrictlyInside(a, b, p)
    ensures StrictlyInside(a, b, x)
  {
    forall i | 0 <= i < |b| ensures Dot(a[i], x) < b[i] {
      if norms[i] > 0.0 {
        var q := MulPositive(norms[i], r);
      } else {
        ZeroNorm(a[i], x);
        ZeroNorm(a[i], p);
      }
    }
  }

  /** An interior point bounds the optimal radius away from zero. */
  lemma InteriorGivesRadius(a: Matrix, b: Vec, norms: Vec, x: Vec, r: real, p: Vec)
    requires HasShape(a, |b|, |x|) && AreRowNorms(norms, a)
    requires LpOptimal(LpCost(|x|), LpRows(a, norms, |x|), b, x + [r])
    requires |p| == |x| && StrictlyInside(a, b, p)
    ensures r > 0.0
  {
    var r' := PositiveMargin(a, b, norms, p, |b|);
    LpFeasibleIsMargin(a, b, norms, p, r');
    LpCostIsRadius(x, r);
    LpCostIsRadius(p, r');
    assert Inside(LpRows(a, norms, |x|), b, p + [r']);
  }

  /** The solver's answer is strictly inside every constraint exactly when the polytope has an interior: the
      condition under which both walks stay clear of the boundary. */
  lemma CenterStrictIffInterior(a: Matrix, b: Vec, norms: Vec, x: Vec, r: real)
    requires HasShape(a, |b|, |x|) && AreRowNorms(norms, a)
    requires LpOptimal(LpCost(|x|), LpRows(a, norms, |x|), b, x + [r])
    ensures ChebyshevCenter(Solved(x + [r])) == Some(x)
    ensures StrictlyInside(a, b, x) <==> HasInterior(a, b, |x|)
    ensures HasInterior(a, b, |x|) ==> r > 0.0
  {
    assert (x + [r])[..|x|] == x;
    if HasInterior(a, b, |x|) {
      var p: Vec :| |p| == |x| && StrictlyInside(a, b, p);
      InteriorGivesRadius(a, b, norms, x, r, p);
      LpFeasibleIsMargin(a, b, norms, x, r);
      MarginIsStrict(a, b, norms, x, r, p);
    }
  }

  ghost predicate HasPoint(a: Matrix, b: Vec, n: nat)
    requires HasShape(a, |b|, n)
  {
    exists p: Vec :: |p| == n && Inside(a, b, p)
  }

  /** A point of the polytope, as a ball of radius 0. */
  lemma PointIsFeasible(a: Matrix, b: Vec, norms: Vec, p: Vec)
    requires HasShape(a, |b|, |p|) && |norms| == |b| && Inside(a, b, p)
    ensures Inside(LpRows(a, norms, |p|), b, p + [0.0])
  {
    LpFeasibleIsMargin(a, b, norms, p, 0.0);
  }

  /** The solver's answer is inside exactly when the polytope is not empty. */
  lemma CenterInsideIffPoint(a: Matrix, b: Vec, norms: Vec, x: Vec, r: real)
    requires HasShape(a, |b|, |x|) && AreRowNorms(norms, a)
    requires LpOptimal(LpCost(|x|), LpRows(a, norms, |x|), b, x + [r])
    ensures Inside(a, b, x) <==> HasPoint(a, b, |x|)
  {
    if HasPoint(a, b, |x|) {
      var p: Vec :| |p| == |x| && Inside(a, b, p);
      PointIsFeasible(a, b, norms, p);
      LpCostIsRadius(x, r);
      LpCostIsRadius(p, 0.0);
      assert r >= 0.0;
      LpFeasibleIsMargin(a, b, norms, x, r);
      forall i | 0 <= i < |b| ensures Dot(a[i], x) <= b[i] { ScaleLe(0.0, r, norms[i]); }
    }
  }
}
