/** The hit-and-run walk of src/fuzz/sampler.py:71-90, for any direction and any step factor. */
module HitAndRun {
  import opened Options
  import opened Vectors
  import opened Matrices
  import opened Polytope

  /** One iteration's random outcomes: the direction and np.random.uniform(), which is in [0, 1). */
  datatype Draw = Draw(d: Vec, factor: real)

  /** One entry of np.divide(b - a.x, a.d), with numpy's results for a zero divisor. */
  datatype Quotient = Finite(r: real) | PlusInfinity | MinusInfinity | NotANumber

  function Divide(s: real, q: real): Quotient {
    if q != 0.0 then Finite(s / q)
    else if s > 0.0 then PlusInfinity
    else if s < 0.0 then MinusInfinity
    else NotANumber
  }

  /** dist > 0; a comparison with nan is false. */
  predicate Positive(r: Quotient) {
    r == PlusInfinity || (r.Finite? && r.r > 0.0)
  }

  /** np.divide(b - a.dot(x), a.dot(d)) */
  function Distances(a: Matrix, b: Vec, x: Vec, d: Vec): (dist: seq<Quotient>)
    requires HasShape(a, |b|, |x|) && |d| == |x|
  {
    seq(|b|, i requires 0 <= i < |b| => Divide(b[i] - Dot(a[i], x), Dot(a[i], d)))
  }

  /** dist[dist > 0].min(); None: the minimum of nothing. */
  function MinPositive(dist: seq<Quotient>): (c: Option<Quotient>)
  {
    if dist == [] then None
    else
      var c := MinPositive(dist[..|dist| - 1]);
      var r := dist[|dist| - 1];
      if !Positive(r) then c
      else if c.None? || c.value == PlusInfinity then Some(r)
      else if r.Finite? && c.value.Finite? && r.r < c.value.r then Some(r)
      else c
  }

  /** InvalidState: the check at the top of the loop raises. NoBoundary: the minimum of an empty array raises.
      Unbounded: the point leaves the finite reals, so that the next check raises. */
  datatype Outcome = Moved(x: Vec) | InvalidState | NoBoundary | Unbounded

  /** closest * np.random.uniform() */
  function StepLength(closest: real, factor: real): real { closest * factor }

  /** One iteration of the loop. */
  function Step(a: Matrix, b: Vec, x: Vec, draw: Draw): (next: Outcome)
    requires HasShape(a, |b|, |x|) && |draw.d| == |x|
    ensures next.Moved? ==> |next.x| == |x|
  {
    if !Inside(a, b, x) then InvalidState
    else match MinPositive(Distances(a, b, x, draw.d))
      case None => NoBoundary
      case Some(Finite(c)) => Moved(Add(x, Scale(StepLength(c, draw.factor), draw.d)))
      case Some(_) => Unbounded
  }

  predicate FinitePositive(r: Quotient) {
    r.Finite? && r.r > 0.0
  }

  /** The minimum is finite exactly when some distance is, and then it is the least of those. */
  lemma {:induction false} MinPositiveIsLeast(dist: seq<Quotient>)
    ensures var c := MinPositive(dist);
      && (c.Some? ==> Positive(c.value) && c.value in dist)
      && (c.Some? && c.value.Finite? <==> exists i :: 0 <= i < |dist| && FinitePositive(dist[i]))
      && (c.Some? && c.value.Finite? ==>
            forall i :: 0 <= i < |dist| && FinitePositive(dist[i]) ==> c.value.r <= dist[i].r)
  {
    if dist != [] {
      var init := dist[..|dist| - 1];
      MinPositiveIsLeast(init);
      assert forall i :: 0 <= i < |init| ==> dist[i] == init[i];
    }
  }

  /** A divisor and a nonnegative slack give a finite positive distance exactly when both are positive. */
  lemma DivideMeaning(s: real, q: real)
    requires s >= 0.0
    ensures FinitePositive(Divide(s, q)) <==> q > 0.0 && s > 0.0
    ensures FinitePositive(Divide(s, q)) ==> Divide(s, q).r * q == s
  {
    if q != 0.0 {
      var r := s / q;
      assert r * q == s;
      if q > 0.0 && s > 0.0 && r <= 0.0 { ScaleLe(r, 0.0, q); }
      if q < 0.0 && r > 0.0 { ScaleLe(q, 0.0, r); StrictlyNegative(r, q); }
    }
  }

  lemma StrictlyNegative(r: real, q: real)
    requires r > 0.0 && q < 0.0
    ensures r * q < 0.0
  {
    var p := MulPositive(r, -q);
  }

  /** Travelling t along d still leaves the constraint satisfied, or still strictly satisfied. */
  predicate Reaches(s: real, q: real, t: real) { t * q <= s }
  predicate Clears(s: real, q: real, t: real) { t * q < s }

  /** With distance r to the constraint: it holds up to r, strictly before r, and not beyond. */
  lemma AlongTheWay(s: real, q: real, r: real, t: real)
    requires q > 0.0 && r * q == s
    ensures Reaches(s, q, t) <==> t <= r
    ensures Clears(s, q, t) <==> t < r
  {
    if t < r { var p := MulPositive(r - t, q); assert p == s - t * q; }
    if t > r { var p := MulPositive(t - r, q); assert p == t * q - s; }
  }

  /** A constraint that d does not approach stays satisfied. */
  lemma NotApproached(s: real, q: real, t: real)
    requires s >= 0.0 && q <= 0.0 && t >= 0.0
    ensures Reaches(s, q, t)
    ensures s > 0.0 ==> Clears(s, q, t)
  {
    ScaleLe(q, 0.0, t);
  }

  lemma ConstraintAlong(a: Matrix, b: Vec, x: Vec, d: Vec, t: real, i: nat)
    requires HasShape(a, |b|, |x|) && |d| == |x| && i < |b|
    ensures var s, q := b[i] - Dot(a[i], x), Dot(a[i], d);
      && (Dot(a[i], Add(x, Scale(t, d))) <= b[i] <==> Reaches(s, q, t))
      && (Dot(a[i], Add(x, Scale(t, d))) < b[i] <==> Clears(s, q, t))
  {
    DotAlong(a[i], x, t, d);
  }

  predicate Approaches(a: Matrix, d: Vec, i: nat)
    requires i < |a| && |a[i]| == |d|
  {
    Dot(a[i], d) > 0.0
  }

  /** The ray along d meets a boundary hyperplane. */
  predicate Bounded(a: Matrix, d: Vec)
    requires HasShape(a, |a|, |d|)
  {
    exists i :: 0 <= i < |a| && Approaches(a, d, i)
  }

  /** What one constraint says about the ray, in terms of the distance computed for it. */
  lemma RowAlong(a: Matrix, b: Vec, x: Vec, d: Vec, t: real, i: nat)
    requires HasShape(a, |b|, |x|) && |d| == |x| && i < |b| && Dot(a[i], x) <= b[i] && t >= 0.0
    ensures var r, y := Distances(a, b, x, d)[i], Add(x, Scale(t, d));
      && (FinitePositive(r) <==> Approaches(a, d, i) && Dot(a[i], x) < b[i])
      && (FinitePositive(r) ==> (Dot(a[i], y) < b[i] <==> t < r.r) && (Dot(a[i], y) <= b[i] <==> t <= r.r))
      && (!Approaches(a, d, i) ==> Dot(a[i], y) <= b[i] && (Dot(a[i], x) < b[i] ==> Dot(a[i], y) < b[i]))
      && (Approaches(a, d, i) && Dot(a[i], x) == b[i] ==> (Dot(a[i], y) <= b[i] <==> t == 0.0))
  {
    var s, q := b[i] - Dot(a[i], x), Dot(a[i], d);
    DivideMeaning(s, q);
    ConstraintAlong(a, b, x, d, t, i);
    if q <= 0.0 {
      NotApproached(s, q, t);
    } else if s > 0.0 {
      AlongTheWay(s, q, Divide(s, q).r, t);
    } else {
      AlongTheWay(s, q, 0.0, t);
    }
  }

  /** A finite `closest` exists exactly when the direction approaches some constraint that has slack. */
  lemma ClosestFiniteIff(a: Matrix, b: Vec, x: Vec, d: Vec)
    requires HasShape(a, |b|, |x|) && |d| == |x| && Inside(a, b, x)
    ensures var c := MinPositive(Distances(a, b, x, d));
      c.Some? && c.value.Finite? <==> exists i :: 0 <= i < |b| && Approaches(a, d, i) && Dot(a[i], x) < b[i]
  {
    var dist := Distances(a, b, x, d);
    MinPositiveIsLeast(dist);
    forall i | 0 <= i < |b|
      ensures FinitePositive(dist[i]) <==> Approaches(a, d, i) && Dot(a[i], x) < b[i]
    {
      RowAlong(a, b, x, d, 0.0, i);
    }
  }

  /** How an iteration from a point that passes the check ends: it moves if some row that has slack is approached; without
      one, the distance to a row that has slack and runs along the direction is infinite; and without such a row
      either, the minimum is that of nothing. */
  lemma {:induction false} StepOutcomeIff(a: Matrix, b: Vec, x: Vec, draw: Draw)
    requires HasShape(a, |b|, |x|) && |draw.d| == |x| && Inside(a, b, x)
    ensures var next := Step(a, b, x, draw);
      var hit := exists i :: 0 <= i < |b| && Dot(a[i], x) < b[i] && Dot(a[i], draw.d) > 0.0;
      var along := exists i :: 0 <= i < |b| && Dot(a[i], x) < b[i] && Dot(a[i], draw.d) == 0.0;
      && (next.Moved? <==> hit) && (next.Unbounded? <==> !hit && along) && (next.NoBoundary? <==> !hit && !along)
  {
    var dist := Distances(a, b, x, draw.d);
    ClosestFiniteIff(a, b, x, draw.d);
    forall i | 0 <= i < |b| && Dot(a[i], x) < b[i] && Dot(a[i], draw.d) > 0.0 ensures Approaches(a, draw.d, i) { }
    forall i | 0 <= i < |b|
      ensures Positive(dist[i]) <==> Dot(a[i], x) < b[i] && Dot(a[i], draw.d) >= 0.0
    {
      PositiveIff(b[i] - Dot(a[i], x), Dot(a[i], draw.d));
    }
    SomePositiveIff(dist);
  }

  lemma PositiveIff(s: real, q: real)
    requires s >= 0.0
    ensures Positive(Divide(s, q)) <==> s > 0.0 && q >= 0.0
  {
    DivideMeaning(s, q);
  }

  lemma {:induction false} SomePositiveIff(dist: seq<Quotient>)
    ensures MinPositive(dist).Some? <==> exists i :: 0 <= i < |dist| && Positive(dist[i])
  {
    if dist != [] {
      var init := dist[..|dist| - 1];
      SomePositiveIff(init);
      assert forall i :: 0 <= i < |init| ==> dist[i] == init[i];
    }
  }

  /** `closest` is exactly the time at which the ray from an interior point leaves the polytope:
      x + t*d is strictly inside for t < closest, inside for t == closest, and outside beyond. */
  lemma ClosestIsExitTime(a: Matrix, b: Vec, x: Vec, d: Vec, c: real, t: real)
    requires HasShape(a, |b|, |x|) && |d| == |x| && StrictlyInside(a, b, x) && t >= 0.0
    requires MinPositive(Distances(a, b, x, d)) == Some(Finite(c))
    ensures StrictlyInside(a, b, Add(x, Scale(t, d))) <==> t < c
    ensures Inside(a, b, Add(x, Scale(t, d))) <==> t <= c
  {
    var dist := Distances(a, b, x, d);
    MinPositiveIsLeast(dist);
    forall i | 0 <= i < |b|
      ensures FinitePositive(dist[i]) ==> (Dot(a[i], Add(x, Scale(t, d))) < b[i] <==> t < dist[i].r)
      ensures FinitePositive(dist[i]) ==> (Dot(a[i], Add(x, Scale(t, d))) <= b[i] <==> t <= dist[i].r)
      ensures !FinitePositive(dist[i]) ==> Dot(a[i], Add(x, Scale(t, d))) < b[i]
    {
      RowAlong(a, b, x, d, t, i);
    }
    var k :| 0 <= k < |b| && dist[k] == Finite(c);
    assert FinitePositive(dist[k]);
  }

  /** Of the row's slack at x, at least that part is left at y. */
  predicate LeavesAtLeast(a: Vec, b: real, x: Vec, y: Vec, part: real)
    requires |a| == |x| == |y|
  {
    b - Dot(a, y) >= part * (b - Dot(a, x))
  }

  predicate LeavesExactly(a: Vec, b: real, x: Vec, y: Vec, part: real)
    requires |a| == |x| == |y|
  {
    b - Dot(a, y) == part * (b - Dot(a, x))
  }

  /** How far an iteration goes, from any point that passes the check: in the direction that was drawn, so far that of
      the slack of the first boundary on the way the part 1 - factor is left, and of no other slack less. Rows that are
      tight already do not count. */
  lemma {:induction false} StepLeavesFraction(a: Matrix, b: Vec, x: Vec, draw: Draw) returns (k: nat, t: real)
    requires HasShape(a, |b|, |x|) && |draw.d| == |x| && 0.0 <= draw.factor < 1.0 && Inside(a, b, x)
    requires Step(a, b, x, draw).Moved?
    ensures var y := Step(a, b, x, draw).x;
      && |y| == |x| && t >= 0.0 && (forall j :: 0 <= j < |x| ==> y[j] == x[j] + t * draw.d[j])
      && k < |b| && Dot(a[k], draw.d) > 0.0 && Dot(a[k], x) < b[k]
      && LeavesExactly(a[k], b[k], x, y, 1.0 - draw.factor)
      && forall i :: 0 <= i < |b| && (Dot(a[i], x) < b[i] || Dot(a[i], draw.d) <= 0.0) ==>
           LeavesAtLeast(a[i], b[i], x, y, 1.0 - draw.factor)
  {
    var c;
    c, k, t := FirstHit(a, b, x, draw);
    AlongEntries(x, t, draw.d);
    FirstIsLeft(a, b, x, draw.d, c, draw.factor, t, k);
  }

  lemma AlongEntries(x: Vec, t: real, d: Vec)
    requires |x| == |d|
    ensures forall j :: 0 <= j < |x| ==> Add(x, Scale(t, d))[j] == x[j] + t * d[j]
  {
  }

  /** Travelling t along d, the slack is used up. */
  predicate Hits(s: real, q: real, t: real) { t * q == s }

  /** Row k, which has slack and is approached, is hit after the distance c, and no other such row before. */
  ghost predicate IsFirst(a: Matrix, b: Vec, x: Vec, d: Vec, c: real, k: nat)
    requires HasShape(a, |b|, |x|) && |d| == |x|
  {
    && c > 0.0 && k < |b| && Dot(a[k], d) > 0.0 && Dot(a[k], x) < b[k] && Hits(b[k] - Dot(a[k], x), Dot(a[k], d), c)
    && forall i :: 0 <= i < |b| && Dot(a[i], x) < b[i] && Dot(a[i], d) > 0.0 ==>
         Reaches(b[i] - Dot(a[i], x), Dot(a[i], d), c)
  }

  lemma {:induction false} FirstHit(a: Matrix, b: Vec, x: Vec, draw: Draw) returns (c: real, k: nat, t: real)
    requires HasShape(a, |b|, |x|) && |draw.d| == |x| && 0.0 <= draw.factor < 1.0 && Inside(a, b, x)
    requires Step(a, b, x, draw).Moved?
    ensures IsFirst(a, b, x, draw.d, c, k)
    ensures Step(a, b, x, draw).x == Add(x, Scale(t, draw.d)) && t == c * draw.factor >= 0.0
  {
    c := MinPositive(Distances(a, b, x, draw.d)).value.r;
    k := ClosestRow(a, b, x, draw.d, c);
    t := StepLength(c, draw.factor);
    FractionBelow(c, draw.factor);
  }

  lemma {:induction false} ClosestRow(a: Matrix, b: Vec, x: Vec, d: Vec, c: real) returns (k: nat)
    requires HasShape(a, |b|, |x|) && |d| == |x| && Inside(a, b, x)
    requires MinPositive(Distances(a, b, x, d)) == Some(Finite(c))
    ensures IsFirst(a, b, x, d, c, k)
  {
    var dist := Distances(a, b, x, d);
    MinPositiveIsLeast(dist);
    k :| 0 <= k < |b| && dist[k] == Finite(c);
    HitByRow(dist[k], b[k] - Dot(a[k], x), Dot(a[k], d), c);
    forall i | 0 <= i < |b| && Dot(a[i], x) < b[i] && Dot(a[i], d) > 0.0
      ensures Reaches(b[i] - Dot(a[i], x), Dot(a[i], d), c)
    {
      HitByRow(dist[i], b[i] - Dot(a[i], x), Dot(a[i], d), c);
    }
  }

  /** What the quotient says about one row. */
  lemma HitByRow(dist: Quotient, s: real, q: real, c: real)
    requires dist == Divide(s, q) && s >= 0.0 && c > 0.0 && (FinitePositive(dist) ==> c <= dist.r)
    ensures dist == Finite(c) ==> q > 0.0 && s > 0.0 && Hits(s, q, c)
    ensures s > 0.0 && q > 0.0 ==> Reaches(s, q, c)
  {
    DivideMeaning(s, q);
    if FinitePositive(dist) { ScaleLe(c, dist.r, q); }
  }

  lemma {:induction false} FirstIsLeft(a: Matrix, b: Vec, x: Vec, d: Vec, c: real, f: real, t: real, k: nat)
    requires HasShape(a, |b|, |x|) && |d| == |x| && 0.0 <= f < 1.0 && Inside(a, b, x) && IsFirst(a, b, x, d, c, k)
    requires t == c * f
    ensures var y := Add(x, Scale(t, d));
      && LeavesExactly(a[k], b[k], x, y, 1.0 - f)
      && forall i :: 0 <= i < |b| && (Dot(a[i], x) < b[i] || Dot(a[i], d) <= 0.0) ==>
           LeavesAtLeast(a[i], b[i], x, y, 1.0 - f)
  {
    RowLeft(a[k], b[k], x, d, c, f, t);
    forall i | 0 <= i < |b| && (Dot(a[i], x) < b[i] || Dot(a[i], d) <= 0.0)
      ensures LeavesAtLeast(a[i], b[i], x, Add(x, Scale(t, d)), 1.0 - f)
    {
      RowLeft(a[i], b[i], x, d, c, f, t);
    }
  }

  lemma RowLeft(a: Vec, b: real, x: Vec, d: Vec, c: real, f: real, t: real)
    requires |a| == |x| == |d| && 0.0 <= f < 1.0 && c > 0.0 && Dot(a, x) <= b && t == c * f
    ensures var s, q, y := b - Dot(a, x), Dot(a, d), Add(x, Scale(t, d));
      && (Hits(s, q, c) ==> LeavesExactly(a, b, x, y, 1.0 - f))
      && (Reaches(s, q, c) || q <= 0.0 ==> LeavesAtLeast(a, b, x, y, 1.0 - f))
  {
    DotAlong(a, x, t, d);
    SlackLeft(b - Dot(a, x), Dot(a, d), c, f);
  }

  lemma SlackLeft(s: real, q: real, c: real, f: real)
    requires c > 0.0 && 0.0 <= f < 1.0 && s >= 0.0
    ensures Hits(s, q, c) ==> s - (c * f) * q == (1.0 - f) * s
    ensures Reaches(s, q, c) || q <= 0.0 ==> s - (c * f) * q >= (1.0 - f) * s
  {
    assert (c * f) * q == (c * q) * f;
    assert (1.0 - f) * s == s - s * f;
    if Reaches(s, q, c) { ScaleLe(c * q, s, f); }
    if q <= 0.0 { ScaleLe(q, 0.0, c); ScaleLe(c * q, s, f); }
  }

  /** From any point that passes the check, a step of t <= closest passes the next check if and only if it
      stands still or no constraint that is already tight is approached. A distance of zero is not counted
      as positive, so a tight constraint does not stop the walk. */
  lemma StepPassesCheckIff(a: Matrix, b: Vec, x: Vec, d: Vec, c: real, t: real)
    requires HasShape(a, |b|, |x|) && |d| == |x| && Inside(a, b, x)
    requires MinPositive(Distances(a, b, x, d)) == Some(Finite(c)) && 0.0 <= t <= c
    ensures Inside(a, b, Add(x, Scale(t, d))) <==>
      t == 0.0 || forall i :: 0 <= i < |b| && Dot(a[i], x) == b[i] ==> !Approaches(a, d, i)
  {
    var dist, y := Distances(a, b, x, d), Add(x, Scale(t, d));
    MinPositiveIsLeast(dist);
    forall i | 0 <= i < |b|
      ensures Dot(a[i], y) <= b[i] <==> t == 0.0 || Dot(a[i], x) < b[i] || !Approaches(a, d, i)
    {
      RowAlong(a, b, x, d, t, i);
    }
  }

  /** Where a tight constraint is approached, a step that is not 0 leaves the polytope. */
  lemma {:induction false} TightStepFails(a: Matrix, b: Vec, x: Vec, draw: Draw, j: nat)
    requires HasShape(a, |b|, |x|) && |draw.d| == |x| && Inside(a, b, x) && 0.0 < draw.factor < 1.0
    requires j < |b| && Dot(a[j], x) == b[j] && Approaches(a, draw.d, j)
    ensures Step(a, b, x, draw).Moved? ==> !Inside(a, b, Step(a, b, x, draw).x)
  {
    var c := MinPositive(Distances(a, b, x, draw.d));
    if c.Some? && c.value.Finite? {
      MinPositiveIsLeast(Distances(a, b, x, draw.d));
      var t := StepLength(c.value.r, draw.factor);
      FractionBelow(c.value.r, draw.factor);
      var p := MulPositive(c.value.r, draw.factor);
      StepPassesCheckIff(a, b, x, draw.d, c.value.r, t);
    }
  }

  ghost predicate Fits(tape: nat -> Draw, n: nat) {
    forall k: nat :: |tape(k).d| == n && 0.0 <= tape(k).factor < 1.0
  }

  /** The walk after k iterations, or how it ended. */
  ghost function State(a: Matrix, b: Vec, x0: Vec, tape: nat -> Draw, k: nat): (s: Outcome)
    requires HasShape(a, |b|, |x0|) && Fits(tape, |x0|)
    ensures s.Moved? ==> |s.x| == |x0|
  {
    if k == 0 then Moved(x0)
    else
      var s := State(a, b, x0, tape, k - 1);
      if s.Moved? then Step(a, b, s.x, tape(k - 1)) else s
  }

  lemma FractionBelow(c: real, f: real)
    requires c > 0.0 && 0.0 <= f < 1.0
    ensures 0.0 <= StepLength(c, f) < c
  {
    ScaleLe(0.0, f, c);
    var p := MulPositive(1.0 - f, c);
    assert p == c - c * f;
  }

  lemma FractionStaysInterior(a: Matrix, b: Vec, x: Vec, draw: Draw, c: real)
    requires HasShape(a, |b|, |x|) && |draw.d| == |x| && 0.0 <= draw.factor < 1.0
    requires StrictlyInside(a, b, x)
    requires MinPositive(Distances(a, b, x, draw.d)) == Some(Finite(c))
    ensures StrictlyInside(a, b, Add(x, Scale(StepLength(c, draw.factor), draw.d)))
  {
    MinPositiveIsLeast(Distances(a, b, x, draw.d));
    FractionBelow(c, draw.factor);
    ClosestIsExitTime(a, b, x, draw.d, c, StepLength(c, draw.factor));
  }

  /** One iteration from an interior point: it moves, to an interior point, iff the direction is bounded. */
  lemma StepKeepsInterior(a: Matrix, b: Vec, x: Vec, draw: Draw)
    requires HasShape(a, |b|, |x|) && |draw.d| == |x| && 0.0 <= draw.factor < 1.0
    requires StrictlyInside(a, b, x)
    ensures Step(a, b, x, draw).Moved? <==> Bounded(a, draw.d)
    ensures Step(a, b, x, draw).Moved? ==> StrictlyInside(a, b, Step(a, b, x, draw).x)
  {
    ClosestFiniteIff(a, b, x, draw.d);
    var closest := MinPositive(Distances(a, b, x, draw.d));
    if closest.Some? && closest.value.Finite? {
      FractionStaysInterior(a, b, x, draw, closest.value.r);
    }
  }

  /** Safety over a whole run: from an interior point, along directions that each approach some constraint,
      the walk never raises and never leaves the interior. */
  lemma {:induction false} RunStaysInterior(a: Matrix, b: Vec, x0: Vec, tape: nat -> Draw, k: nat)
    requires HasShape(a, |b|, |x0|) && Fits(tape, |x0|) && StrictlyInside(a, b, x0)
    requires forall j: nat :: Bounded(a, tape(j).d)
    ensures State(a, b, x0, tape, k).Moved? && StrictlyInside(a, b, State(a, b, x0, tape, k).x)
  {
    if k > 0 {
      RunStaysInterior(a, b, x0, tape, k - 1);
      StepKeepsInterior(a, b, State(a, b, x0, tape, k - 1).x, tape(k - 1));
    }
  }

  // ----- which starts are safe

  /** The point is inside, and no row is tight but rows of zeros, which no direction approaches. */
  predicate Loose(a: Matrix, b: Vec, x: Vec)
    requires HasShape(a, |b|, |x|)
  {
    Inside(a, b, x) && forall i :: 0 <= i < |b| && Dot(a[i], x) == b[i] ==> Dot(a[i], a[i]) == 0.0
  }

  lemma ZeroRow(v: Vec, d: Vec)
    requires |v| == |d| && Dot(v, v) == 0.0
    ensures Dot(v, d) == 0.0
  {
    ZeroNorm(v, d);
  }

  /** A row that is approached is not one of zeros, so that it has slack. */
  lemma {:induction false} ApproachedHasSlack(a: Matrix, b: Vec, x: Vec, d: Vec, i: nat)
    requires HasShape(a, |b|, |x|) && |d| == |x| && i < |b| && Loose(a, b, x) && Approaches(a, d, i)
    ensures Dot(a[i], x) < b[i]
  {
    if Dot(a[i], x) == b[i] { ZeroRow(a[i], d); }
  }

  lemma {:induction false} RowStaysLoose(a: Matrix, b: Vec, x: Vec, d: Vec, c: real, t: real, i: nat)
    requires HasShape(a, |b|, |x|) && |d| == |x| && i < |b| && Loose(a, b, x)
    requires MinPositive(Distances(a, b, x, d)) == Some(Finite(c)) && 0.0 <= t < c
    ensures var y := Add(x, Scale(t, d));
      Dot(a[i], y) <= b[i] && (Dot(a[i], x) < b[i] ==> Dot(a[i], y) < b[i])
  {
    MinPositiveIsLeast(Distances(a, b, x, d));
    RowAlong(a, b, x, d, t, i);
    if Approaches(a, d, i) { ApproachedHasSlack(a, b, x, d, i); }
  }

  /** One iteration from such a point: it moves, to such a point, iff the direction is bounded. */
  lemma {:induction false} StepKeepsLoose(a: Matrix, b: Vec, x: Vec, draw: Draw)
    requires HasShape(a, |b|, |x|) && |draw.d| == |x| && 0.0 <= draw.factor < 1.0 && Loose(a, b, x)
    ensures Step(a, b, x, draw).Moved? <==> Bounded(a, draw.d)
    ensures Step(a, b, x, draw).Moved? ==> Loose(a, b, Step(a, b, x, draw).x)
  {
    ClosestFiniteIff(a, b, x, draw.d);
    var closest := MinPositive(Distances(a, b, x, draw.d));
    if i :| 0 <= i < |a| && Approaches(a, draw.d, i) { ApproachedHasSlack(a, b, x, draw.d, i); }
    if closest.Some? && closest.value.Finite? {
      var c := closest.value.r;
      MinPositiveIsLeast(Distances(a, b, x, draw.d));
      FractionBelow(c, draw.factor);
      var t := StepLength(c, draw.factor);
      forall i | 0 <= i < |b|
        ensures var y := Add(x, Scale(t, draw.d));
          Dot(a[i], y) <= b[i] && (Dot(a[i], x) < b[i] ==> Dot(a[i], y) < b[i])
      {
        RowStaysLoose(a, b, x, draw.d, c, t, i);
      }
    }
  }

  /** The first k directions each meet a boundary. */
  ghost predicate BoundedUpTo(a: Matrix, n: nat, tape: nat -> Draw, k: nat)
    requires HasShape(a, |a|, n) && Fits(tape, n)
  {
    forall j: nat :: j < k ==> Bounded(a, tape(j).d)
  }

  /** After k iterations the walk has met no invalid state, and has not raised at all unless for want of a boundary. */
  ghost predicate Fine(a: Matrix, b: Vec, x0: Vec, tape: nat -> Draw, k: nat)
    requires HasShape(a, |b|, |x0|) && Fits(tape, |x0|)
  {
    && !State(a, b, x0, tape, k).InvalidState?
    && (BoundedUpTo(a, |x0|, tape, k) ==> State(a, b, x0, tape, k).Moved?)
  }

  /** The start is safe: whatever is drawn, and for any number of iterations. */
  ghost predicate Safe(a: Matrix, b: Vec, x0: Vec)
    requires HasShape(a, |b|, |x0|)
  {
    forall tape: nat -> Draw, k: nat :: Fits(tape, |x0|) ==> Fine(a, b, x0, tape, k)
  }

  /** From a loose point a run goes on exactly as long as the directions are bounded, through loose points. */
  lemma {:induction false} RunStaysLoose(a: Matrix, b: Vec, x0: Vec, tape: nat -> Draw, k: nat)
    requires HasShape(a, |b|, |x0|) && Fits(tape, |x0|) && Loose(a, b, x0)
    ensures var s := State(a, b, x0, tape, k);
      && (s.Moved? <==> BoundedUpTo(a, |x0|, tape, k))
      && (s.Moved? ==> Loose(a, b, s.x)) && !s.InvalidState?
  {
    if k > 0 {
      RunStaysLoose(a, b, x0, tape, k - 1);
      var s := State(a, b, x0, tape, k - 1);
      if s.Moved? { StepKeepsLoose(a, b, s.x, tape(k - 1)); }
    }
  }

  /** From an interior point, likewise, through interior points. */
  lemma {:induction false} RunGoesOnIff(a: Matrix, b: Vec, x0: Vec, tape: nat -> Draw, k: nat)
    requires HasShape(a, |b|, |x0|) && Fits(tape, |x0|) && StrictlyInside(a, b, x0)
    ensures State(a, b, x0, tape, k).Moved? <==> BoundedUpTo(a, |x0|, tape, k)
    ensures State(a, b, x0, tape, k).Moved? ==> StrictlyInside(a, b, State(a, b, x0, tape, k).x)
  {
    if k > 0 {
      RunGoesOnIff(a, b, x0, tape, k - 1);
      var s := State(a, b, x0, tape, k - 1);
      if s.Moved? { StepKeepsInterior(a, b, s.x, tape(k - 1)); }
    }
  }

  /** The same draw, over and over. */
  function Always(draw: Draw): nat -> Draw { (k: nat) => draw }

  /** Towards a tight row: the second iteration raises at the latest. */
  lemma {:induction false} TowardsTightRaises(a: Matrix, b: Vec, x0: Vec, i: nat)
    requires HasShape(a, |b|, |x0|) && i < |b| && Inside(a, b, x0)
    requires Dot(a[i], x0) == b[i] && Dot(a[i], a[i]) != 0.0
    ensures var tape := Always(Draw(a[i], 0.5));
      Fits(tape, |x0|) && BoundedUpTo(a, |x0|, tape, 2) && !State(a, b, x0, tape, 2).Moved?
  {
    var draw := Draw(a[i], 0.5);
    SquareNonNegative(a[i], |a[i]|);
    assert Approaches(a, a[i], i);
    TightStepFails(a, b, x0, draw, i);
    TwoSteps(a, b, x0, draw);
  }

  lemma {:induction false} TwoSteps(a: Matrix, b: Vec, x0: Vec, draw: Draw)
    requires HasShape(a, |b|, |x0|) && |draw.d| == |x0| && 0.0 <= draw.factor < 1.0
    ensures var tape, one := Always(draw), Step(a, b, x0, draw);
      && Fits(tape, |x0|) && State(a, b, x0, tape, 1) == one
      && State(a, b, x0, tape, 2) == if one.Moved? then Step(a, b, one.x, draw) else one
  {
    var tape := Always(draw);
    assert State(a, b, x0, tape, 0) == Moved(x0);
    assert State(a, b, x0, tape, 1) == Step(a, b, x0, draw);
  }

  /** From outside the first iteration raises. */
  lemma {:induction false} OutsideIsUnsafe(a: Matrix, b: Vec, x0: Vec)
    requires HasShape(a, |b|, |x0|) && !Inside(a, b, x0)
    ensures !Safe(a, b, x0)
  {
    var draw := Draw(x0, 0.5);
    TwoSteps(a, b, x0, draw);
    assert !Fine(a, b, x0, Always(draw), 1);
  }

  /** Which starts are safe: exactly those inside at which no row is tight, but rows of zeros. */
  lemma {:induction false} SafeIff(a: Matrix, b: Vec, x0: Vec)
    requires HasShape(a, |b|, |x0|)
    ensures Safe(a, b, x0) <==> Loose(a, b, x0)
  {
    if Loose(a, b, x0) {
      forall tape: nat -> Draw, k: nat | Fits(tape, |x0|) ensures Fine(a, b, x0, tape, k) {
        RunStaysLoose(a, b, x0, tape, k);
      }
    } else if Inside(a, b, x0) {
      var i :| 0 <= i < |b| && Dot(a[i], x0) == b[i] && Dot(a[i], a[i]) != 0.0;
      TowardsTightRaises(a, b, x0, i);
      assert !Fine(a, b, x0, Always(Draw(a[i], 0.5)), 2);
    } else {
      OutsideIsUnsafe(a, b, x0);
    }
  }

  /** Without rows of zeros these are the interior points. */
  lemma {:induction false} SafeIffInterior(a: Matrix, b: Vec, x0: Vec)
    requires HasShape(a, |b|, |x0|) && forall i :: 0 <= i < |a| ==> Dot(a[i], a[i]) != 0.0
    ensures Safe(a, b, x0) <==> StrictlyInside(a, b, x0)
  {
    SafeIff(a, b, x0);
    if Loose(a, b, x0) {
      forall i | 0 <= i < |b| ensures Dot(a[i], x0) < b[i] { assert Dot(a[i], a[i]) != 0.0; }
    }
  }

  lemma {:induction false} LooseGivesRadius(a: Matrix, b: Vec, norms: Vec, x: Vec, r: real, p: Vec)
    requires HasShape(a, |b|, |x|) && AreRowNorms(norms, a)
    requires LpOptimal(LpCost(|x|), LpRows(a, norms, |x|), b, x + [r])
    requires |p| == |x| && Loose(a, b, p)
    ensures r > 0.0 && Loose(a, b, x)
  {
    var r' := LooseMargin(a, b, norms, p, |b|);
    LpFeasibleIsMargin(a, b, norms, p, r');
    LpCostIsRadius(x, r);
    LpCostIsRadius(p, r');
    assert Inside(LpRows(a, norms, |x|), b, p + [r']);
    LpFeasibleIsMargin(a, b, norms, x, r);
    forall i | 0 <= i < |b| ensures Dot(a[i], x) <= b[i] && (Dot(a[i], x) == b[i] ==> Dot(a[i], a[i]) == 0.0) {
      ScaleLe(0.0, r, norms[i]);
      if norms[i] > 0.0 { var q := MulPositive(norms[i], r); }
    }
  }

  /** Such a point has a positive margin, because a row of zeros needs none. */
  lemma {:induction false} LooseMargin(a: Matrix, b: Vec, norms: Vec, p: Vec, n: nat) returns (r: real)
    requires HasShape(a, |b|, |p|) && AreRowNorms(norms, a) && n <= |b| && Loose(a, b, p)
    ensures r > 0.0 && forall i :: 0 <= i < n ==> Dot(a[i], p) + norms[i] * r <= b[i]
    decreases n
  {
    if n == 0 {
      r := 1.0;
    } else {
      var r' := LooseMargin(a, b, norms, p, n - 1);
      var gap := b[n - 1] - Dot(a[n - 1], p);
      var w := norms[n - 1];
      if w * r' <= gap {
        r := r';
      } else {
        assert gap == 0.0 ==> w * w == 0.0;
        if gap == 0.0 && w != 0.0 { AddSquarePositive(0.0, w); }
        QuotientBelow(w, r', gap);
        r := gap / w;
        forall i | 0 <= i < n - 1 ensures norms[i] * r <= norms[i] * r' { ScaleLe(r, r', norms[i]); }
      }
    }
  }

  ghost predicate HasSafeStart(a: Matrix, b: Vec, n: nat)
    requires HasShape(a, |b|, n)
  {
    exists p: Vec :: |p| == n && Safe(a, b, p)
  }

  /** The linear program's answer is a safe start iff there is any ... */
  lemma {:induction false} CenterSafeIff(a: Matrix, b: Vec, norms: Vec, x0: Vec, r: real)
    requires HasShape(a, |b|, |x0|) && AreRowNorms(norms, a)
    requires LpOptimal(LpCost(|x0|), LpRows(a, norms, |x0|), b, x0 + [r])
    ensures Safe(a, b, x0) <==> HasSafeStart(a, b, |x0|)
  {
    if p: Vec :| |p| == |x0| && Safe(a, b, p) {
      SafeIff(a, b, p);
      LooseGivesRadius(a, b, norms, x0, r, p);
      SafeIff(a, b, x0);
    }
  }

  lemma {:induction false} NormedRows(a: Matrix, norms: Vec)
    requires AreRowNorms(norms, a) && forall i :: 0 <= i < |norms| ==> norms[i] > 0.0
    ensures forall i :: 0 <= i < |a| ==> Dot(a[i], a[i]) != 0.0
  {
    forall i | 0 <= i < |a| ensures Dot(a[i], a[i]) != 0.0 {
      var q := MulPositive(norms[i], norms[i]);
    }
  }

  /** ... and, if no row is one of zeros, iff the polytope has an interior. */
  lemma {:induction false} CenterSafeIffInterior(a: Matrix, b: Vec, norms: Vec, x0: Vec, r: real)
    requires HasShape(a, |b|, |x0|) && AreRowNorms(norms, a) && forall i :: 0 <= i < |norms| ==> norms[i] > 0.0
    requires LpOptimal(LpCost(|x0|), LpRows(a, norms, |x0|), b, x0 + [r])
    ensures Safe(a, b, x0) <==> HasInterior(a, b, |x0|)
  {
    NormedRows(a, norms);
    SafeIffInterior(a, b, x0);
    CenterStrictIffInterior(a, b, norms, x0, r);
  }
}
