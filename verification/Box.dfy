/** The box that `crack_target` hands to the sampler (src/fuzz/sync.py:99-110). As coded, the right-hand
    side of the row -x_i <= ... is the minimum itself, so the box is [-min, max], not [min, max]. */
module Box {
  import opened Vectors
  import opened Matrices
  import opened Polytope
  import Dikin
  import HitAndRun

  /** Row 2i is the unit row of variable i, row 2i+1 its negation. */
  function Rows(n: nat): (m: Matrix)
    ensures HasShape(m, 2 * n, n)
  {
    seq(2 * n, j requires 0 <= j < 2 * n => Spike(n, j / 2, if j % 2 == 0 then 1.0 else -1.0))
  }

  function Rhs(maxs: Vec, mins: Vec): (b: Vec)
    requires |maxs| == |mins|
  {
    seq(2 * |maxs|, j requires 0 <= j < 2 * |maxs| => if j % 2 == 0 then maxs[j / 2] else mins[j / 2])
  }

  /** The loop of crack_target: zero matrices, filled in place two rows per variable. */
  method Build(maxs: Vec, mins: Vec) returns (leq: array2<real>, rhs: array<real>)
    requires |maxs| == |mins|
    ensures fresh(leq) && fresh(rhs)
    ensures leq.Length0 == rhs.Length == 2 * |maxs| && leq.Length1 == |maxs|
    ensures rhs[..] == Rhs(maxs, mins)
    ensures forall j, k :: 0 <= j < 2 * |maxs| && 0 <= k < |maxs| ==> leq[j, k] == Rows(|maxs|)[j][k]
  {
    var n := |maxs|;
    leq := new real[2 * n, n]((j, k) => 0.0);
    rhs := new real[2 * n](j => 0.0);
    for idx := 0 to n
      invariant forall j, k :: 0 <= j < 2 * n && 0 <= k < n ==> leq[j, k] == Cell(n, idx, j, k)
      invariant forall j :: 0 <= j < 2 * idx ==> rhs[j] == Rhs(maxs, mins)[j]
    {
      FillRows(leq, idx);
      rhs[2 * idx] := maxs[idx];
      rhs[2 * idx + 1] := mins[idx];
    }
  }

  /** An entry of the matrix when the rows of m variables are filled. */
  function Cell(n: nat, m: nat, j: nat, k: nat): real
    requires j < 2 * n && k < n
  {
    if j < 2 * m then Rows(n)[j][k] else 0.0
  }

  method FillRows(leq: array2<real>, idx: nat)
    requires leq.Length0 == 2 * leq.Length1 && idx < leq.Length1
    requires forall j, k :: 0 <= j < leq.Length0 && 0 <= k < leq.Length1 ==> leq[j, k] == Cell(leq.Length1, idx, j, k)
    modifies leq
    ensures forall j, k :: 0 <= j < leq.Length0 && 0 <= k < leq.Length1 ==> leq[j, k] == Cell(leq.Length1, idx + 1, j, k)
  {
    leq[2 * idx, idx] := 1.0;
    leq[2 * idx + 1, idx] := -1.0;
  }

  lemma RowDot(n: nat, i: nat, x: Vec)
    requires i < n == |x|
    ensures Dot(Rows(n)[2 * i], x) == x[i]
    ensures Dot(Rows(n)[2 * i + 1], x) == -x[i]
  {
    var p, q := Rows(n)[2 * i], Rows(n)[2 * i + 1];
    DotNSpike(x, p, i, 1.0, n);
    DotNCommutes(p, x, n);
    DotNSpike(x, q, i, -1.0, n);
    DotNCommutes(q, x, n);
  }

  /** Both rows of variable i hold, or both hold strictly. */
  predicate Between(maxs: Vec, mins: Vec, x: Vec, i: nat)
    requires |maxs| == |mins| == |x| && i < |x|
  {
    -mins[i] <= x[i] <= maxs[i]
  }

  predicate StrictlyBetween(maxs: Vec, mins: Vec, x: Vec, i: nat)
    requires |maxs| == |mins| == |x| && i < |x|
  {
    -mins[i] < x[i] < maxs[i]
  }

  predicate InBox(maxs: Vec, mins: Vec, x: Vec)
    requires |maxs| == |mins| == |x|
  {
    forall i :: 0 <= i < |x| ==> Between(maxs, mins, x, i)
  }

  predicate InOpenBox(maxs: Vec, mins: Vec, x: Vec)
    requires |maxs| == |mins| == |x|
  {
    forall i :: 0 <= i < |x| ==> StrictlyBetween(maxs, mins, x, i)
  }

  lemma RowPair(maxs: Vec, mins: Vec, x: Vec, i: nat)
    requires |maxs| == |mins| == |x| && i < |x|
    ensures var a, b := Rows(|x|), Rhs(maxs, mins);
      && (Dot(a[2 * i], x) <= b[2 * i] && Dot(a[2 * i + 1], x) <= b[2 * i + 1] <==> Between(maxs, mins, x, i))
      && (Dot(a[2 * i], x) < b[2 * i] && Dot(a[2 * i + 1], x) < b[2 * i + 1] <==> StrictlyBetween(maxs, mins, x, i))
  {
    RowDot(|x|, i, x);
  }

  lemma RowOfPair(maxs: Vec, mins: Vec, x: Vec, j: nat)
    requires |maxs| == |mins| == |x| && j < 2 * |x|
    ensures Between(maxs, mins, x, j / 2) ==> Dot(Rows(|x|)[j], x) <= Rhs(maxs, mins)[j]
    ensures StrictlyBetween(maxs, mins, x, j / 2) ==> Dot(Rows(|x|)[j], x) < Rhs(maxs, mins)[j]
  {
    var i := j / 2;
    RowPair(maxs, mins, x, i);
    if j % 2 == 0 { assert j == 2 * i; } else { assert j == 2 * i + 1; }
  }

  /** The polytope of the coded rows is the box [-min, max], and its interior the open box. */
  lemma InsideBoxIff(maxs: Vec, mins: Vec, x: Vec)
    requires |maxs| == |mins| == |x|
    ensures Inside(Rows(|x|), Rhs(maxs, mins), x) <==> InBox(maxs, mins, x)
    ensures StrictlyInside(Rows(|x|), Rhs(maxs, mins), x) <==> InOpenBox(maxs, mins, x)
  {
    var a, b := Rows(|x|), Rhs(maxs, mins);
    if Inside(a, b, x) {
      forall i | 0 <= i < |x| ensures Between(maxs, mins, x, i) { RowPair(maxs, mins, x, i); }
    }
    if StrictlyInside(a, b, x) {
      forall i | 0 <= i < |x| ensures StrictlyBetween(maxs, mins, x, i) { RowPair(maxs, mins, x, i); }
    }
    forall j | 0 <= j < |b|
      ensures Between(maxs, mins, x, j / 2) ==> Dot(a[j], x) <= b[j]
      ensures StrictlyBetween(maxs, mins, x, j / 2) ==> Dot(a[j], x) < b[j]
    {
      RowOfPair(maxs, mins, x, j);
    }
  }

  predicate InIntended(maxs: Vec, mins: Vec, x: Vec)
    requires |maxs| == |mins| == |x|
  {
    forall i :: 0 <= i < |x| ==> mins[i] <= x[i] <= maxs[i]
  }

  predicate InCoded(maxs: Vec, mins: Vec, x: Vec)
    requires |maxs| == |mins| == |x|
  {
    Inside(Rows(|x|), Rhs(maxs, mins), x)
  }

  /** For bounds 0 <= min <= max, the coded polytope contains the intended box, and nothing more iff min = 0. */
  lemma CodedBoxIsIntendedIff(maxs: Vec, mins: Vec)
    requires |maxs| == |mins| && forall i :: 0 <= i < |mins| ==> 0.0 <= mins[i] <= maxs[i]
    ensures forall x: Vec :: |x| == |mins| && InIntended(maxs, mins, x) ==> InCoded(maxs, mins, x)
    ensures (forall x: Vec :: |x| == |mins| && InCoded(maxs, mins, x) ==> InIntended(maxs, mins, x))
       <==> (forall i :: 0 <= i < |mins| ==> mins[i] == 0.0)
  {
    forall x: Vec | |x| == |mins|
      ensures InCoded(maxs, mins, x) <==> InBox(maxs, mins, x)
      ensures InIntended(maxs, mins, x) ==> InBox(maxs, mins, x)
    {
      InsideBoxIff(maxs, mins, x);
    }
    var corner := seq(|mins|, i requires 0 <= i < |mins| => -mins[i]);
    assert InBox(maxs, mins, corner);
    assert InCoded(maxs, mins, corner);
    if InIntended(maxs, mins, corner) {
      forall i | 0 <= i < |mins| ensures mins[i] == 0.0 { assert mins[i] <= corner[i]; }
    }
    if forall i :: 0 <= i < |mins| ==> mins[i] == 0.0 {
      forall x: Vec | |x| == |mins| && InCoded(maxs, mins, x) ensures InIntended(maxs, mins, x) {
        forall i | 0 <= i < |x| ensures mins[i] <= x[i] <= maxs[i] { assert Between(maxs, mins, x, i); }
      }
    }
  }

  /** The norms of unit rows. */
  function Ones(n: nat): (v: Vec)
    ensures |v| == n && forall i :: 0 <= i < n ==> v[i] == 1.0
  {
    seq(n, i => 1.0)
  }

  lemma UnitNorms(n: nat)
    ensures AreRowNorms(Ones(2 * n), Rows(n))
  {
    forall j | 0 <= j < 2 * n ensures IsNorm(1.0, Rows(n)[j]) {
      DotNSpike(Rows(n)[j], Rows(n)[j], j / 2, Rows(n)[j][j / 2], n);
    }
  }

  predicate PositiveWidths(maxs: Vec, mins: Vec)
    requires |maxs| == |mins|
  {
    forall i :: 0 <= i < |maxs| ==> -mins[i] < maxs[i]
  }

  function Midpoints(maxs: Vec, mins: Vec): (x: Vec)
    requires |maxs| == |mins|
    ensures |x| == |maxs|
  {
    seq(|maxs|, i requires 0 <= i < |maxs| => (maxs[i] - mins[i]) / 2.0)
  }

  /** The box has an interior exactly when every coded interval has positive width. */
  lemma HasInteriorIff(maxs: Vec, mins: Vec)
    requires |maxs| == |mins|
    ensures HasInterior(Rows(|maxs|), Rhs(maxs, mins), |maxs|) <==> PositiveWidths(maxs, mins)
  {
    var a, b, n := Rows(|maxs|), Rhs(maxs, mins), |maxs|;
    if PositiveWidths(maxs, mins) {
      var mid := Midpoints(maxs, mins);
      assert InOpenBox(maxs, mins, mid);
      InsideBoxIff(maxs, mins, mid);
    }
    if HasInterior(a, b, n) {
      var p: Vec :| |p| == n && StrictlyInside(a, b, p);
      InsideBoxIff(maxs, mins, p);
      forall i | 0 <= i < n ensures -mins[i] < maxs[i] { assert StrictlyBetween(maxs, mins, p, i); }
    }
  }

  /** x and r are an answer to the linear program for the box. */
  ghost predicate IsAnswer(maxs: Vec, mins: Vec, x: Vec, r: real)
    requires |maxs| == |mins| == |x|
  {
    LpOptimal(LpCost(|x|), LpRows(Rows(|x|), Ones(2 * |x|), |x|), Rhs(maxs, mins), x + [r])
  }

  /** The smallest of the widths of the first n intervals. */
  function NarrowestOf(maxs: Vec, mins: Vec, n: nat): (w: real)
    requires |maxs| == |mins| && 0 < n <= |maxs|
    ensures forall i :: 0 <= i < n ==> w <= maxs[i] + mins[i]
    ensures exists i :: 0 <= i < n && w == maxs[i] + mins[i]
  {
    var last := maxs[n - 1] + mins[n - 1];
    if n == 1 then last
    else
      var w := NarrowestOf(maxs, mins, n - 1);
      if w <= last then w else last
  }

  /** The rows of the linear program, and what is feasible. */
  ghost predicate Feasible(maxs: Vec, mins: Vec, x: Vec, r: real)
    requires |maxs| == |mins| == |x|
  {
    Inside(LpRows(Rows(|x|), Ones(2 * |x|), |x|), Rhs(maxs, mins), x + [r])
  }

  predicate FitsBetween(maxs: Vec, mins: Vec, x: Vec, r: real, i: nat)
    requires |maxs| == |mins| == |x| && i < |x|
  {
    -mins[i] + r <= x[i] <= maxs[i] - r
  }

  lemma {:induction false} RowMargins(maxs: Vec, mins: Vec, x: Vec, r: real, i: nat)
    requires |maxs| == |mins| == |x| && i < |x|
    ensures var a, b, norms := Rows(|x|), Rhs(maxs, mins), Ones(2 * |x|);
      && (Dot(a[2 * i], x) + norms[2 * i] * r <= b[2 * i] <==> x[i] + r <= maxs[i])
      && (Dot(a[2 * i + 1], x) + norms[2 * i + 1] * r <= b[2 * i + 1] <==> -x[i] + r <= mins[i])
  {
    RowDot(|x|, i, x);
  }

  lemma {:induction false} RowMarginOf(maxs: Vec, mins: Vec, x: Vec, r: real, j: nat)
    requires |maxs| == |mins| == |x| && j < 2 * |x| && FitsBetween(maxs, mins, x, r, j / 2)
    ensures Dot(Rows(|x|)[j], x) + Ones(2 * |x|)[j] * r <= Rhs(maxs, mins)[j]
  {
    RowMargins(maxs, mins, x, r, j / 2);
    if j % 2 == 0 { assert j == 2 * (j / 2); } else { assert j == 2 * (j / 2) + 1; }
  }

  predicate AllFit(maxs: Vec, mins: Vec, x: Vec, r: real)
    requires |maxs| == |mins| == |x|
  {
    forall i :: 0 <= i < |x| ==> FitsBetween(maxs, mins, x, r, i)
  }

  lemma {:induction false} MarginFits(maxs: Vec, mins: Vec, x: Vec, r: real)
    requires |maxs| == |mins| == |x| && Margin(Rows(|x|), Rhs(maxs, mins), Ones(2 * |x|), x, r)
    ensures AllFit(maxs, mins, x, r)
  {
    forall i | 0 <= i < |x| ensures FitsBetween(maxs, mins, x, r, i) { RowMargins(maxs, mins, x, r, i); }
  }

  lemma {:induction false} FittingHasMargin(maxs: Vec, mins: Vec, x: Vec, r: real)
    requires |maxs| == |mins| == |x| && AllFit(maxs, mins, x, r)
    ensures Margin(Rows(|x|), Rhs(maxs, mins), Ones(2 * |x|), x, r)
  {
    forall j | 0 <= j < 2 * |x| ensures Dot(Rows(|x|)[j], x) + Ones(2 * |x|)[j] * r <= Rhs(maxs, mins)[j] {
      RowMarginOf(maxs, mins, x, r, j);
    }
  }

  /** Feasible are the cubes that fit in the box. */
  lemma {:induction false} FeasibleIff(maxs: Vec, mins: Vec, x: Vec, r: real)
    requires |maxs| == |mins| == |x|
    ensures Feasible(maxs, mins, x, r) <==> AllFit(maxs, mins, x, r)
  {
    LpFeasibleIsMargin(Rows(|x|), Rhs(maxs, mins), Ones(2 * |x|), x, r);
    if AllFit(maxs, mins, x, r) { FittingHasMargin(maxs, mins, x, r); }
    if Feasible(maxs, mins, x, r) { MarginFits(maxs, mins, x, r); }
  }

  lemma {:induction false} NoWiderBall(maxs: Vec, mins: Vec, x: Vec, r: real)
    requires |maxs| == |mins| == |x| > 0 && Feasible(maxs, mins, x, r)
    ensures r <= NarrowestOf(maxs, mins, |x|) / 2.0
  {
    FeasibleIff(maxs, mins, x, r);
    var i :| 0 <= i < |x| && NarrowestOf(maxs, mins, |x|) == maxs[i] + mins[i];
    assert FitsBetween(maxs, mins, x, r, i);
  }

  lemma {:induction false} NoLowerCost(maxs: Vec, mins: Vec, y: Vec)
    requires |maxs| == |mins| > 0 && |y| == |maxs| + 1
    requires Inside(LpRows(Rows(|maxs|), Ones(2 * |maxs|), |maxs|), Rhs(maxs, mins), y)
    ensures -(NarrowestOf(maxs, mins, |maxs|) / 2.0) <= Dot(LpCost(|maxs|), y)
  {
    var x, r := y[..|maxs|], y[|maxs|];
    assert y == x + [r];
    NoWiderBall(maxs, mins, x, r);
    LpCostIsRadius(x, r);
  }

  lemma {:induction false} MidpointsFeasible(maxs: Vec, mins: Vec)
    requires |maxs| == |mins| > 0
    ensures Feasible(maxs, mins, Midpoints(maxs, mins), NarrowestOf(maxs, mins, |maxs|) / 2.0)
  {
    FeasibleIff(maxs, mins, Midpoints(maxs, mins), NarrowestOf(maxs, mins, |maxs|) / 2.0);
  }

  /** The linear program of a box has an answer: the midpoints, with half of the smallest width. */
  lemma {:induction false} MidpointsAreAnswer(maxs: Vec, mins: Vec)
    requires |maxs| == |mins| > 0
    ensures IsAnswer(maxs, mins, Midpoints(maxs, mins), NarrowestOf(maxs, mins, |maxs|) / 2.0)
  {
    var x, r := Midpoints(maxs, mins), NarrowestOf(maxs, mins, |maxs|) / 2.0;
    var m, b := LpRows(Rows(|x|), Ones(2 * |x|), |x|), Rhs(maxs, mins);
    MidpointsFeasible(maxs, mins);
    LpCostIsRadius(x, r);
    forall y: Vec | |y| == |x| + 1 && Inside(m, b, y) ensures -r <= Dot(LpCost(|x|), y) { NoLowerCost(maxs, mins, y); }
  }

  lemma {:induction false} SomeAnswer(maxs: Vec, mins: Vec) returns (x: Vec, r: real)
    requires |maxs| == |mins| > 0
    ensures |x| == |maxs| && IsAnswer(maxs, mins, x, r)
  {
    x, r := Midpoints(maxs, mins), NarrowestOf(maxs, mins, |maxs|) / 2.0;
    MidpointsAreAnswer(maxs, mins);
  }

  /** It has one exactly if there is a variable. */
  lemma {:induction false} HasAnswerIff(maxs: Vec, mins: Vec)
    requires |maxs| == |mins|
    ensures (exists x: Vec, r: real :: |x| == |maxs| && IsAnswer(maxs, mins, x, r)) <==> |maxs| > 0
  {
    if |maxs| > 0 {
      MidpointsAreAnswer(maxs, mins);
    } else if x: Vec, r: real :| |x| == |maxs| && IsAnswer(maxs, mins, x, r) {
      FeasibleIff(maxs, mins, x, r + 1.0);
      LpCostIsRadius(x, r);
      LpCostIsRadius(x, r + 1.0);
    }
  }

  /** The point that the solver returns for the box is a valid start exactly when no interval is degenerate. */
  lemma CenterStrictIff(maxs: Vec, mins: Vec, x: Vec, r: real)
    requires |maxs| == |mins| == |x| && IsAnswer(maxs, mins, x, r)
    ensures StrictlyInside(Rows(|x|), Rhs(maxs, mins), x) <==> PositiveWidths(maxs, mins)
  {
    UnitNorms(|x|);
    CenterStrictIffInterior(Rows(|x|), Rhs(maxs, mins), Ones(2 * |x|), x, r);
    HasInteriorIff(maxs, mins);
  }

  lemma ApproachIff(d: Vec, j: nat)
    requires j < 2 * |d|
    ensures HitAndRun.Approaches(Rows(|d|), d, j) <==> if j % 2 == 0 then d[j / 2] > 0.0 else d[j / 2] < 0.0
  {
    var i := j / 2;
    RowDot(|d|, i, d);
    if j % 2 == 0 { assert j == 2 * i; } else { assert j == 2 * i + 1; }
  }

  /** The row of variable i that d approaches, if d is nonzero there. */
  function ApproachedRow(d: Vec, i: nat): (j: nat)
    requires i < |d| && d[i] != 0.0
    ensures j < 2 * |d| && j / 2 == i && (j % 2 == 0 <==> d[i] > 0.0)
  {
    if d[i] > 0.0 then 2 * i else 2 * i + 1
  }

  /** In the box, every direction but zero meets a boundary, so that the step is always defined. */
  lemma BoundedIffNonzero(d: Vec)
    ensures HitAndRun.Bounded(Rows(|d|), d) <==> exists i :: 0 <= i < |d| && d[i] != 0.0
  {
    var a := Rows(|d|);
    if HitAndRun.Bounded(a, d) {
      var j :| 0 <= j < |a| && HitAndRun.Approaches(a, d, j);
      ApproachIff(d, j);
    }
    if i :| 0 <= i < |d| && d[i] != 0.0 {
      ApproachIff(d, ApproachedRow(d, i));
    }
  }

  /** The tight row that d approaches, in an interval of width zero. */
  lemma TightRow(maxs: Vec, mins: Vec, x: Vec, d: Vec, i: nat) returns (j: nat)
    requires |maxs| == |mins| == |x| == |d| && i < |x| && maxs[i] == -mins[i] && d[i] != 0.0
    requires Inside(Rows(|x|), Rhs(maxs, mins), x)
    ensures j < 2 * |x| && HitAndRun.Approaches(Rows(|x|), d, j) && Dot(Rows(|x|)[j], x) == Rhs(maxs, mins)[j]
  {
    InsideBoxIff(maxs, mins, x);
    assert Between(maxs, mins, x, i);
    RowDot(|x|, i, x);
    j := ApproachedRow(d, i);
    ApproachIff(d, j);
    if j % 2 == 0 { assert j == 2 * i; } else { assert j == 2 * i + 1; }
  }

  /** A box with an interval of width zero breaks the walk: if the direction and the factor are nonzero there,
      the step that is taken fails the check of the next iteration. */
  lemma {:induction false} DegenerateBoxRaises(
      maxs: Vec, mins: Vec, x: Vec, draw: HitAndRun.Draw, i: nat, next: HitAndRun.Draw)
    requires |maxs| == |mins| == |x| == |draw.d| == |next.d| && i < |x| && maxs[i] == -mins[i]
    requires Inside(Rows(|x|), Rhs(maxs, mins), x)
    requires draw.d[i] != 0.0 && 0.0 < draw.factor < 1.0
    ensures var step := HitAndRun.Step(Rows(|x|), Rhs(maxs, mins), x, draw);
      step.Moved? ==> HitAndRun.Step(Rows(|x|), Rhs(maxs, mins), step.x, next).InvalidState?
  {
    var j := TightRow(maxs, mins, x, draw.d, i);
    HitAndRun.TightStepFails(Rows(|x|), Rhs(maxs, mins), x, draw, j);
  }

  /** The unit rows span the space. */
  lemma {:induction false} RowsSpan(n: nat)
    ensures Dikin.Spans(Rows(n), n)
  {
    forall v: Vec | |v| == n && Dikin.Orthogonal(Rows(n), v) ensures Dikin.IsZero(v) {
      forall i | 0 <= i < n ensures v[i] == 0.0 { RowDot(n, i, v); }
    }
  }

  predicate NonnegativeWidths(maxs: Vec, mins: Vec)
    requires |maxs| == |mins|
  {
    forall i :: 0 <= i < |maxs| ==> -mins[i] <= maxs[i]
  }

  lemma {:induction false} HasPointIff(maxs: Vec, mins: Vec)
    requires |maxs| == |mins|
    ensures HasPoint(Rows(|maxs|), Rhs(maxs, mins), |maxs|) <==> NonnegativeWidths(maxs, mins)
  {
    var a, b, n := Rows(|maxs|), Rhs(maxs, mins), |maxs|;
    if NonnegativeWidths(maxs, mins) {
      assert InBox(maxs, mins, Midpoints(maxs, mins));
      InsideBoxIff(maxs, mins, Midpoints(maxs, mins));
    }
    if p: Vec :| |p| == n && Inside(a, b, p) {
      InsideBoxIff(maxs, mins, p);
      forall i | 0 <= i < n ensures -mins[i] <= maxs[i] { assert Between(maxs, mins, p, i); }
    }
  }

  /** Which boxes the walks can be started in, from the linear program's answer: exactly those whose intervals all have a
      positive width. If LAPACK lets a matrix that is not a number pass, the Dikin walk stands still for ever in the
      others, as long as they are not empty. */
  lemma {:induction false} WalkSafeIff(maxs: Vec, mins: Vec, x: Vec, r: real, lapack: bool)
    requires |maxs| == |mins| == |x| && IsAnswer(maxs, mins, x, r)
    ensures HitAndRun.Safe(Rows(|x|), Rhs(maxs, mins), x) <==> PositiveWidths(maxs, mins)
    ensures Dikin.Safe(Rows(|x|), Rhs(maxs, mins), x, lapack) <==>
      PositiveWidths(maxs, mins) || (NonnegativeWidths(maxs, mins) && lapack)
  {
    UnitNorms(|x|);
    HitAndRun.CenterSafeIffInterior(Rows(|x|), Rhs(maxs, mins), Ones(2 * |x|), x, r);
    Dikin.CenterSafeIff(Rows(|x|), Rhs(maxs, mins), Ones(2 * |x|), x, r, lapack);
    HasInteriorIff(maxs, mins);
    HasPointIff(maxs, mins);
    RowsSpan(|x|);
  }

  /** Such a box: x0 is fixed to 0, and x1 ranges over [0, m]. From (0, y) along a direction in which both change,
      and x1 grows, the walk moves, and raises. */
  lemma {:induction false} FlatBoxRaises(
      m: real, y: real, p: real, q: real, factor: real, maxs: Vec, mins: Vec, x: Vec, d: Vec, next: HitAndRun.Draw)
    requires 0.0 <= y < m && p != 0.0 && q > 0.0 && 0.0 < factor < 1.0 && |next.d| == 2
    requires maxs == [0.0, m] && mins == [0.0, 0.0] && x == [0.0, y] && d == [p, q]
    ensures var a, b := Rows(|x|), Rhs(maxs, mins);
      var step := HitAndRun.Step(a, b, x, HitAndRun.Draw(d, factor));
      step.Moved? && HitAndRun.Step(a, b, step.x, next).InvalidState?
  {
    var a, b := Rows(|x|), Rhs(maxs, mins);
    InsideBoxIff(maxs, mins, x);
    RowDot(2, 1, x);
    RowDot(2, 1, d);
    assert HitAndRun.Approaches(a, d, 2) && Dot(a[2], x) < b[2];
    HitAndRun.ClosestFiniteIff(a, b, x, d);
    DegenerateBoxRaises(maxs, mins, x, HitAndRun.Draw(d, factor), 0, next);
  }

  /** The bounds of variables that range over all bytes. */
  function AllBytesMax(n: nat): (v: Vec) { seq(n, i => 255.0) }
  function AllBytesMin(n: nat): (v: Vec) { seq(n, i => 0.0) }

  /** For them the coded box is the intended one, it has an interior, and the answer of the linear program is in it. */
  lemma {:induction false} ByteBoxIsFine(n: nat)
    ensures HasInterior(Rows(n), Rhs(AllBytesMax(n), AllBytesMin(n)), n)
    ensures forall x: Vec :: |x| == n ==>
      (InCoded(AllBytesMax(n), AllBytesMin(n), x) <==> InIntended(AllBytesMax(n), AllBytesMin(n), x))
    ensures forall x: Vec, r: real :: |x| == n && IsAnswer(AllBytesMax(n), AllBytesMin(n), x, r) ==>
      StrictlyInside(Rows(n), Rhs(AllBytesMax(n), AllBytesMin(n)), x)
  {
    var maxs, mins := AllBytesMax(n), AllBytesMin(n);
    HasInteriorIff(maxs, mins);
    CodedBoxIsIntendedIff(maxs, mins);
    forall x: Vec, r: real | |x| == n && IsAnswer(maxs, mins, x, r) ensures StrictlyInside(Rows(n), Rhs(maxs, mins), x)
    {
      CenterStrictIff(maxs, mins, x, r);
    }
  }

  /** In a box, the Dikin walk does not move from a boundary point at all. */
  lemma {:induction false} DikinStaysOnBoundary(maxs: Vec, mins: Vec, x: Vec, z: Vec, i: nat)
    requires |maxs| == |mins| == |x| == |z| && i < |x| && (x[i] == maxs[i] || x[i] == -mins[i])
    ensures !Dikin.PassesReject(Rows(|x|), Rhs(maxs, mins), x, z)
  {
    var a, b := Rows(|x|), Rhs(maxs, mins);
    RowDot(|x|, i, x);
    RowDot(|x|, i, z);
    var j, other := if x[i] == maxs[i] then 2 * i else 2 * i + 1, if x[i] == maxs[i] then 2 * i + 1 else 2 * i;
    assert Slack(a, b, x)[j] == 0.0;
    Dikin.BoundaryPassIff(a, b, x, z, j);
    if Slack(a, b, z)[other] == Slack(a, b, x)[other] {
      assert Slack(a, b, z)[j] == 0.0;
    }
  }

  /** In a box the Hessian of every point off the boundary is positive definite, so that sampling succeeds. */
  lemma {:induction false} HessianDefinite(maxs: Vec, mins: Vec, x: Vec, v: Vec)
    requires |maxs| == |mins| == |x| == |v| && NonzeroSlack(Rows(|x|), Rhs(maxs, mins), x)
    requires exists i :: 0 <= i < |v| && v[i] != 0.0
    ensures LocalNorm(Hessian(Rows(|x|), Rhs(maxs, mins), x), v) > 0.0
  {
    var i :| 0 <= i < |v| && v[i] != 0.0;
    HessianDefiniteIff(Rows(|x|), Rhs(maxs, mins), x, v);
    RowDot(|x|, i, v);
  }
}
