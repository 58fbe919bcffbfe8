/** The Dikin walk of src/fuzz/sampler.py:42-68. */
module Dikin {
  import opened Options
  import opened Vectors
  import opened Matrices
  import opened Polytope

  /** One iteration's outcomes: stay put, the sampled ellipsoid step, win the acceptance coin, and whether
      sample_ellipsoid could invert and factorise h_x (see Honest). */
  datatype Draw = Draw(lazy: bool, step: Vec, take: bool, factored: bool)

  /** The reject test is passed. A proposal on a constraint boundary has an infinite Hessian and is never taken. */
  predicate PassesReject(a: Matrix, b: Vec, x: Vec, z: Vec)
    requires HasShape(a, |b|, |x|) && |z| == |x|
  {
    NonzeroSlack(a, b, z) && LocalNorm(Hessian(a, b, z), Sub(x, z)) <= 1.0
  }

  /** One iteration of the loop. None: an exception is raised, for an invalid state or by sample_ellipsoid. On a boundary
      h_x is infinite, or not a number; then neither is the step, which passes the reject test but never wins the coin. */
  function Step(a: Matrix, b: Vec, x: Vec, draw: Draw): (next: Option<Vec>)
    requires HasShape(a, |b|, |x|) && |draw.step| == |x|
    ensures next.Some? ==> |next.value| == |x|
  {
    if !Inside(a, b, x) then None
    else if draw.lazy then Some(x)
    else if !draw.factored then None
    else if !NonzeroSlack(a, b, x) then Some(x)
    else
      var z := Add(x, draw.step);
      if PassesReject(a, b, x, z) && draw.take then Some(z) else Some(x)
  }

  ghost predicate Fits(tape: nat -> Draw, n: nat) {
    forall k: nat :: |tape(k).step| == n
  }

  /** The walk after k iterations; None once it has raised. */
  ghost function State(a: Matrix, b: Vec, x0: Vec, tape: nat -> Draw, k: nat): (x: Option<Vec>)
    requires HasShape(a, |b|, |x0|) && Fits(tape, |x0|)
    ensures x.Some? ==> |x.value| == |x0|
  {
    if k == 0 then Some(x0)
    else match State(a, b, x0, tape, k - 1)
      case None => None
      case Some(x) => Step(a, b, x, tape(k - 1))
  }

  /** How many of the first k iterations moved the point. */
  ghost function Moves(a: Matrix, b: Vec, x0: Vec, tape: nat -> Draw, k: nat): nat
    requires HasShape(a, |b|, |x0|) && Fits(tape, |x0|)
  {
    if k == 0 then 0
    else if State(a, b, x0, tape, k) == State(a, b, x0, tape, k - 1) then Moves(a, b, x0, tape, k - 1)
    else Moves(a, b, x0, tape, k - 1) + 1
  }

  /** p halved m times. */
  function Halved(p: real, m: nat): (h: real)
    ensures p > 0.0 ==> h > 0.0
  {
    if m == 0 then p else Halved(p, m - 1) / 2.0
  }

  lemma UnitSquare(w: real)
    ensures Square(w) <= 1.0 <==> -1.0 <= w <= 1.0
  {
    var m := if w < 0.0 then -w else w;
    assert m * m == w * w;
    if m > 1.0 { SquareMonotone(1.0, m); } else { ScaleLe(m, 1.0, m); }
  }

  /** For p > 0: (q - p)^2 / q^2 <= 1 exactly when q >= p / 2. */
  lemma RelativeChange(p: real, q: real)
    requires p > 0.0 && q != 0.0
    ensures Square((q - p) / q) <= 1.0 <==> q >= p / 2.0
  {
    var w := (q - p) / q;
    assert w * q == q - p;
    UnitSquare(w);
    assert (1.0 - w) * q == p;
    if q < 0.0 {
      if w <= 1.0 { ScaleLe(q, 0.0, 1.0 - w); }
    } else {
      if w > 1.0 { ScaleLe(1.0, w, q); }
      if w >= -1.0 { ScaleLe(1.0 - w, 2.0, q); }
      if w < -1.0 { var r := MulPositive(-1.0 - w, q); assert r == -q - w * q; }
    }
  }

  /** The reject test alone keeps the walk safe: an accepted proposal, however far away, leaves every
      constraint at least half of the slack it had. */
  lemma AcceptedKeepsHalfTheSlack(a: Matrix, b: Vec, x: Vec, z: Vec, i: nat)
    requires HasShape(a, |b|, |x|) && |z| == |x| && i < |b|
    requires StrictlyInside(a, b, x) && PassesReject(a, b, x, z)
    ensures Slack(a, b, z)[i] >= Slack(a, b, x)[i] / 2.0 > 0.0
  {
    var v := Sub(x, z);
    HessianQuadraticForm(a, b, z, v);
    BarrierTerm(a, b, z, v, |b|, i);
    DotSub(a[i], x, z);
    var p, q := Slack(a, b, x)[i], Slack(a, b, z)[i];
    assert Dot(a[i], v) == q - p;
    RelativeChange(p, q);
  }

  lemma {:induction false} StepKeepsInterior(a: Matrix, b: Vec, x: Vec, draw: Draw)
    requires HasShape(a, |b|, |x|) && |draw.step| == |x| && StrictlyInside(a, b, x)
    ensures var next := Step(a, b, x, draw);
      && (next.Some? <==> draw.lazy || draw.factored)
      && (next.Some? ==> StrictlyInside(a, b, next.value))
      && (next.Some? && next.value != x ==>
            forall i :: 0 <= i < |b| ==> Slack(a, b, next.value)[i] >= Slack(a, b, x)[i] / 2.0)
  {
    var z := Add(x, draw.step);
    if !draw.lazy && PassesReject(a, b, x, z) {
      forall i | 0 <= i < |b|
        ensures Slack(a, b, z)[i] >= Slack(a, b, x)[i] / 2.0 && Dot(a[i], z) < b[i]
      {
        AcceptedKeepsHalfTheSlack(a, b, x, z, i);
      }
    }
  }

  /** Wherever the first k iterations sample, sample_ellipsoid returns. */
  ghost predicate Samples(tape: nat -> Draw, k: nat) {
    forall j: nat :: j < k ==> tape(j).lazy || tape(j).factored
  }

  /** Safety over a whole run from an interior point, with proposals of any size: it stays in the interior, and goes on
      exactly as long as sampling does not raise. */
  lemma {:induction false} RunStaysInterior(a: Matrix, b: Vec, x0: Vec, tape: nat -> Draw, k: nat)
    requires HasShape(a, |b|, |x0|) && Fits(tape, |x0|) && StrictlyInside(a, b, x0)
    ensures State(a, b, x0, tape, k).Some? <==> Samples(tape, k)
    ensures State(a, b, x0, tape, k).Some? ==> StrictlyInside(a, b, State(a, b, x0, tape, k).value)
  {
    if k > 0 {
      RunStaysInterior(a, b, x0, tape, k - 1);
      var s := State(a, b, x0, tape, k - 1);
      if s.Some? { StepKeepsInterior(a, b, s.value, tape(k - 1)); }
    }
  }

  /** One iteration of a run: the point stays, or every slack is at least halved and the move is counted. */
  lemma RunStep(a: Matrix, b: Vec, x0: Vec, tape: nat -> Draw, k: nat, i: nat) returns (x: Vec, y: Vec)
    requires HasShape(a, |b|, |x0|) && Fits(tape, |x0|) && StrictlyInside(a, b, x0) && i < |b| && k > 0
    requires State(a, b, x0, tape, k).Some?
    ensures State(a, b, x0, tape, k - 1) == Some(x) && State(a, b, x0, tape, k) == Some(y)
    ensures x == y ==> Moves(a, b, x0, tape, k) == Moves(a, b, x0, tape, k - 1)
    ensures x != y ==> Moves(a, b, x0, tape, k) == Moves(a, b, x0, tape, k - 1) + 1
                       && Slack(a, b, y)[i] >= Slack(a, b, x)[i] / 2.0
  {
    RunStaysInterior(a, b, x0, tape, k - 1);
    x := State(a, b, x0, tape, k - 1).value;
    StepKeepsInterior(a, b, x, tape(k - 1));
    y := State(a, b, x0, tape, k).value;
  }

  /** What is left of the slack of constraint i after k iterations. */
  ghost function SlackAfter(a: Matrix, b: Vec, x0: Vec, tape: nat -> Draw, k: nat, i: nat): real
    requires HasShape(a, |b|, |x0|) && Fits(tape, |x0|) && i < |b|
    requires State(a, b, x0, tape, k).Some?
  {
    Slack(a, b, State(a, b, x0, tape, k).value)[i]
  }

  /** No finite run reaches a boundary: after any number of iterations each slack is at least
      2^-moves of what it was at the start. */
  lemma {:induction false} RunKeepsSlack(a: Matrix, b: Vec, x0: Vec, tape: nat -> Draw, k: nat, i: nat)
    requires HasShape(a, |b|, |x0|) && Fits(tape, |x0|) && StrictlyInside(a, b, x0) && i < |b|
    ensures State(a, b, x0, tape, k).Some? <==> Samples(tape, k)
    ensures State(a, b, x0, tape, k).Some? ==>
      SlackAfter(a, b, x0, tape, k, i) >= Halved(Slack(a, b, x0)[i], Moves(a, b, x0, tape, k)) > 0.0
  {
    RunStaysInterior(a, b, x0, tape, k);
    if k > 0 && State(a, b, x0, tape, k).Some? {
      RunKeepsSlack(a, b, x0, tape, k - 1, i);
      var x, y := RunStep(a, b, x0, tape, k, i);
    }
  }

  /** The factor one half is attained: with one constraint, and from an interior point, the test accepts exactly the
      proposals that keep half of the slack. */
  lemma OneConstraintAcceptance(a: Vec, c: real, x: Vec, z: Vec)
    requires |a| == |x| == |z| && Dot(a, x) <= c
    ensures PassesReject([a], [c], x, z) <==>
      c - Dot(a, z) != 0.0 && (Dot(a, x) == c || c - Dot(a, z) >= (c - Dot(a, x)) / 2.0)
  {
    var v := Sub(x, z);
    var p, q := c - Dot(a, x), c - Dot(a, z);
    assert Slack([a], [c], z)[0] == q;
    if q != 0.0 {
      HessianQuadraticForm([a], [c], z, v);
      DotSub(a, x, z);
      assert BarrierSum([a], [c], z, v, 1) == BarrierSum([a], [c], z, v, 0) + Square((q - p) / q);
      if p == 0.0 {
        assert (q - p) / q == 1.0;
      } else {
        RelativeChange(p, q);
      }
    }
  }

  // ----- from the boundary

  /** One term of the local norm, for the way from x to z. */
  function Change(a: Matrix, b: Vec, x: Vec, z: Vec, i: nat): real
    requires HasShape(a, |b|, |x|) && |z| == |x| && NonzeroSlack(a, b, z) && i < |b|
  {
    (Slack(a, b, z)[i] - Slack(a, b, x)[i]) / Slack(a, b, z)[i]
  }

  lemma {:induction false} TermIsChange(a: Matrix, b: Vec, x: Vec, z: Vec, i: nat)
    requires HasShape(a, |b|, |x|) && |z| == |x| && NonzeroSlack(a, b, z) && i < |b|
    ensures Dot(a[i], Sub(x, z)) == Slack(a, b, z)[i] - Slack(a, b, x)[i]
    ensures Square(Dot(a[i], Sub(x, z)) / Slack(a, b, z)[i]) == Square(Change(a, b, x, z, i))
    ensures Slack(a, b, x)[i] == 0.0 ==> Square(Change(a, b, x, z, i)) == 1.0
  {
    DotSub(a[i], x, z);
    if Slack(a, b, x)[i] == 0.0 {
      var q := Slack(a, b, z)[i];
      assert q / q == 1.0;
    }
  }

  /** The sum of the squares of the relative changes of the first n slacks. */
  function Changes(a: Matrix, b: Vec, x: Vec, z: Vec, n: nat): real
    requires HasShape(a, |b|, |x|) && |z| == |x| && NonzeroSlack(a, b, z) && n <= |b|
  {
    if n == 0 then 0.0 else Changes(a, b, x, z, n - 1) + Square(Change(a, b, x, z, n - 1))
  }

  lemma ChangeIs(a: Matrix, b: Vec, x: Vec, z: Vec, i: nat)
    requires HasShape(a, |b|, |x|) && |z| == |x| && NonzeroSlack(a, b, z) && i < |b|
    ensures var p, q := b[i] - Dot(a[i], x), b[i] - Dot(a[i], z); q != 0.0 && Change(a, b, x, z, i) == (q - p) / q
  {
    assert Slack(a, b, z)[i] == b[i] - Dot(a[i], z) && Slack(a, b, x)[i] == b[i] - Dot(a[i], x);
  }

  lemma {:induction false} BarrierIsChanges(a: Matrix, b: Vec, x: Vec, z: Vec, n: nat)
    requires HasShape(a, |b|, |x|) && |z| == |x| && NonzeroSlack(a, b, z) && n <= |b|
    ensures BarrierSum(a, b, z, Sub(x, z), n) == Changes(a, b, x, z, n)
  {
    if n > 0 {
      BarrierIsChanges(a, b, x, z, n - 1);
      TermIsChange(a, b, x, z, n - 1);
    }
  }

  /** Where an iteration goes that samples, off the boundary: to the proposal x + step, iff no slack is 0 there, the
      squares of the relative changes of the slacks add up to at most 1, and it wins the coin; else it stays. */
  lemma {:induction false} MovesIff(a: Matrix, b: Vec, x: Vec, draw: Draw)
    requires HasShape(a, |b|, |x|) && |draw.step| == |x| && Inside(a, b, x) && NonzeroSlack(a, b, x)
    requires !draw.lazy && draw.factored
    ensures var z, next := Add(x, draw.step), Step(a, b, x, draw);
      && (forall j :: 0 <= j < |x| ==> z[j] == x[j] + draw.step[j])
      && (draw.take && NonzeroSlack(a, b, z) && Changes(a, b, x, z, |b|) <= 1.0 ==> next == Some(z))
      && (!draw.take || !NonzeroSlack(a, b, z) || Changes(a, b, x, z, |b|) > 1.0 ==> next == Some(x))
  {
    var z := Add(x, draw.step);
    if NonzeroSlack(a, b, z) {
      HessianQuadraticForm(a, b, z, Sub(x, z));
      BarrierIsChanges(a, b, x, z, |b|);
    }
  }

  lemma OnlyZeroSquare(p: real, q: real)
    requires q != 0.0 && Square((q - p) / q) <= 0.0
    ensures p == q
  {
    var w := (q - p) / q;
    assert w * q == q - p;
    if w != 0.0 { AddSquarePositive(0.0, w); }
  }

  lemma {:induction false} OthersUnchanged(a: Matrix, b: Vec, x: Vec, z: Vec, i: nat, j: nat)
    requires HasShape(a, |b|, |x|) && |z| == |x| && i < |b| && j < |b| && i != j
    requires Slack(a, b, x)[i] == 0.0 && PassesReject(a, b, x, z)
    ensures Slack(a, b, z)[j] == Slack(a, b, x)[j]
  {
    var v := Sub(x, z);
    HessianQuadraticForm(a, b, z, v);
    TermIsChange(a, b, x, z, i);
    TermIsChange(a, b, x, z, j);
    if i < j { BarrierTwoTerms(a, b, z, v, |b|, i, j); } else { BarrierTwoTerms(a, b, z, v, |b|, j, i); }
    OnlyZeroSquare(Slack(a, b, x)[j], Slack(a, b, z)[j]);
  }

  /** From a point with a tight row, the test accepts exactly the proposals that change the slack of that row and of
      no other. In particular none is accepted if two rows are tight. */
  lemma {:induction false} BoundaryPassIff(a: Matrix, b: Vec, x: Vec, z: Vec, i: nat)
    requires HasShape(a, |b|, |x|) && |z| == |x| && i < |b| && Slack(a, b, x)[i] == 0.0
    ensures PassesReject(a, b, x, z) <==>
      NonzeroSlack(a, b, z) && forall j :: 0 <= j < |b| && j != i ==> Slack(a, b, z)[j] == Slack(a, b, x)[j]
  {
    if PassesReject(a, b, x, z) {
      forall j | 0 <= j < |b| && j != i ensures Slack(a, b, z)[j] == Slack(a, b, x)[j] {
        OthersUnchanged(a, b, x, z, i, j);
      }
    }
    if NonzeroSlack(a, b, z) && forall j :: 0 <= j < |b| && j != i ==> Slack(a, b, z)[j] == Slack(a, b, x)[j] {
      var v := Sub(x, z);
      forall j | 0 <= j < |b| && j != i ensures Dot(a[j], v) == 0.0 { TermIsChange(a, b, x, z, j); }
      TermIsChange(a, b, x, z, i);
      BarrierOneTerm(a, b, z, v, |b|, i);
      HessianQuadraticForm(a, b, z, v);
    }
  }

  /** The proposal mirrored at x. */
  lemma Mirrored(a: Vec, c: real, x: Vec, z: Vec)
    requires |a| == |x| == |z|
    ensures c - Dot(a, Add(x, Sub(x, z))) == 2.0 * (c - Dot(a, x)) - (c - Dot(a, z))
  {
    assert Add(x, Sub(x, z)) == Add(x, Scale(1.0, Sub(x, z)));
    DotAlong(a, x, 1.0, Sub(x, z));
    DotSub(a, x, z);
  }

  lemma {:induction false} BoundaryPassShowsInterior(a: Matrix, b: Vec, x: Vec, z: Vec, i: nat) returns (p: Vec)
    requires HasShape(a, |b|, |x|) && |z| == |x| && i < |b| && Slack(a, b, x)[i] == 0.0
    requires Inside(a, b, x) && PassesReject(a, b, x, z)
    ensures |p| == |x| && StrictlyInside(a, b, p)
  {
    BoundaryPassIff(a, b, x, z, i);
    p := if Slack(a, b, z)[i] > 0.0 then z else Add(x, Sub(x, z));
    forall j | 0 <= j < |b| ensures Dot(a[j], p) < b[j] {
      assert Dot(a[j], x) <= b[j] && Slack(a, b, z)[j] != 0.0;
      Mirrored(a[j], b[j], x, z);
    }
  }

  /** If the test accepts anything, the polytope has an interior; from a boundary point, the proposal or its mirror
      image is in it. */
  lemma {:induction false} PassShowsInterior(a: Matrix, b: Vec, x: Vec, z: Vec)
    requires HasShape(a, |b|, |x|) && |z| == |x| && Inside(a, b, x) && PassesReject(a, b, x, z)
    ensures HasInterior(a, b, |x|)
  {
    if i :| 0 <= i < |b| && Slack(a, b, x)[i] == 0.0 {
      var p := BoundaryPassShowsInterior(a, b, x, z, i);
    } else {
      forall i | 0 <= i < |b| ensures Dot(a[i], x) < b[i] { assert Slack(a, b, x)[i] != 0.0; }
      assert StrictlyInside(a, b, x);
    }
  }

  // ----- which starts are safe

  lemma {:induction false} InteriorIff(a: Matrix, b: Vec, x: Vec)
    requires HasShape(a, |b|, |x|)
    ensures StrictlyInside(a, b, x) <==> Inside(a, b, x) && NonzeroSlack(a, b, x)
  {
    forall i | 0 <= i < |b| ensures Slack(a, b, x)[i] == b[i] - Dot(a[i], x) { }
  }

  /** Only 0 is orthogonal to all rows. */
  ghost predicate Spans(a: Matrix, n: nat)
    requires HasShape(a, |a|, n)
  {
    forall v: Vec :: |v| == n && Orthogonal(a, v) ==> IsZero(v)
  }

  predicate Orthogonal(a: Matrix, v: Vec)
    requires HasShape(a, |a|, |v|)
  {
    forall i :: 0 <= i < |a| ==> Dot(a[i], v) == 0.0
  }

  predicate IsZero(v: Vec) {
    forall i :: 0 <= i < |v| ==> v[i] == 0.0
  }

  /** The Hessian at x is positive definite. */
  ghost predicate Definite(a: Matrix, b: Vec, x: Vec)
    requires HasShape(a, |b|, |x|) && NonzeroSlack(a, b, x)
  {
    forall v: Vec :: |v| == |x| && !IsZero(v) ==> LocalNorm(Hessian(a, b, x), v) > 0.0
  }

  /** Off the boundary, that is no matter of x. */
  lemma {:induction false} DefiniteIffSpans(a: Matrix, b: Vec, x: Vec)
    requires HasShape(a, |b|, |x|) && NonzeroSlack(a, b, x)
    ensures Definite(a, b, x) <==> Spans(a, |x|)
  {
    forall v: Vec | |v| == |x|
      ensures LocalNorm(Hessian(a, b, x), v) > 0.0 <==> !Orthogonal(a, v)
    {
      HessianDefiniteIff(a, b, x, v);
    }
  }

  /** The inverse and the Cholesky factorisation of h_x exist: off the boundary iff it is positive definite. On a boundary
      it is infinite or not a number, and `lapack` tells whether it is let pass. */
  ghost predicate Factors(a: Matrix, b: Vec, x: Vec, lapack: bool)
    requires HasShape(a, |b|, |x|)
  {
    if NonzeroSlack(a, b, x) then Definite(a, b, x) else lapack
  }

  /** At every state of the run, the draw tells whether sample_ellipsoid raises. */
  ghost predicate Honest(a: Matrix, b: Vec, x0: Vec, tape: nat -> Draw, lapack: bool)
    requires HasShape(a, |b|, |x0|) && Fits(tape, |x0|)
  {
    forall k: nat :: HonestAt(a, b, x0, tape, k, lapack)
  }

  ghost predicate HonestAt(a: Matrix, b: Vec, x0: Vec, tape: nat -> Draw, k: nat, lapack: bool)
    requires HasShape(a, |b|, |x0|) && Fits(tape, |x0|)
  {
    State(a, b, x0, tape, k).Some? ==> (tape(k).factored <==> Factors(a, b, State(a, b, x0, tape, k).value, lapack))
  }

  /** A run from the boundary never moves, and meets no invalid state: it goes on until sampling raises. */
  lemma {:induction false} BoundaryRunStays(a: Matrix, b: Vec, x0: Vec, tape: nat -> Draw, k: nat)
    requires HasShape(a, |b|, |x0|) && Fits(tape, |x0|) && Inside(a, b, x0) && !NonzeroSlack(a, b, x0)
    ensures State(a, b, x0, tape, k) == if Samples(tape, k) then Some(x0) else None
  {
    if k > 0 { BoundaryRunStays(a, b, x0, tape, k - 1); }
  }

  /** From an interior point, if the rows span the space, a run never raises; if they do not, it raises at the first
      iteration that samples. */
  lemma {:induction false} InteriorRunGoesOnIff(
      a: Matrix, b: Vec, x0: Vec, tape: nat -> Draw, lapack: bool, k: nat)
    requires HasShape(a, |b|, |x0|) && Fits(tape, |x0|) && Honest(a, b, x0, tape, lapack) && StrictlyInside(a, b, x0)
    ensures State(a, b, x0, tape, k).Some? <==> Spans(a, |x0|) || StaysPut(tape, k)
  {
    if k > 0 {
      InteriorRunGoesOnIff(a, b, x0, tape, lapack, k - 1);
      if State(a, b, x0, tape, k - 1).Some? { FactoredIffSpans(a, b, x0, tape, lapack, k - 1); }
      RunStaysInterior(a, b, x0, tape, k - 1);
      RunStaysInterior(a, b, x0, tape, k);
      OneMoreDraw(tape, k - 1);
    }
  }

  /** The first k iterations do not sample. */
  ghost predicate StaysPut(tape: nat -> Draw, k: nat) {
    forall j: nat :: j < k ==> tape(j).lazy
  }

  lemma OneMoreDraw(tape: nat -> Draw, k: nat)
    ensures Samples(tape, k + 1) <==> Samples(tape, k) && (tape(k).lazy || tape(k).factored)
    ensures StaysPut(tape, k + 1) <==> StaysPut(tape, k) && tape(k).lazy
  {
  }

  /** At an interior point it is the rows that decide whether sampling raises. */
  lemma {:induction false} FactoredIffSpans(a: Matrix, b: Vec, x0: Vec, tape: nat -> Draw, lapack: bool, k: nat)
    requires HasShape(a, |b|, |x0|) && Fits(tape, |x0|) && Honest(a, b, x0, tape, lapack) && StrictlyInside(a, b, x0)
    requires State(a, b, x0, tape, k).Some?
    ensures tape(k).factored <==> Spans(a, |x0|)
  {
    var x := State(a, b, x0, tape, k).value;
    RunStaysInterior(a, b, x0, tape, k);
    InteriorIff(a, b, x);
    DefiniteIffSpans(a, b, x);
    assert HonestAt(a, b, x0, tape, k, lapack);
  }

  /** The start is safe: whatever is drawn, the walk never raises. */
  ghost predicate Safe(a: Matrix, b: Vec, x0: Vec, lapack: bool)
    requires HasShape(a, |b|, |x0|)
  {
    forall tape: nat -> Draw, k: nat ::
      Fits(tape, |x0|) && Honest(a, b, x0, tape, lapack) ==> State(a, b, x0, tape, k).Some?
  }

  /** An honest run whose first iteration raises. */
  lemma {:induction false} RaisesAtOnce(a: Matrix, b: Vec, x0: Vec, lapack: bool) returns (tape: nat -> Draw)
    requires HasShape(a, |b|, |x0|) && (!Inside(a, b, x0) || !Factors(a, b, x0, lapack))
    ensures Fits(tape, |x0|) && Honest(a, b, x0, tape, lapack) && State(a, b, x0, tape, 1).None?
  {
    var factored := Factors(a, b, x0, lapack);
    tape := (k: nat) => Draw(false, x0, true, factored);
    assert State(a, b, x0, tape, 0) == Some(x0);
    forall k: nat ensures HonestAt(a, b, x0, tape, k, lapack) {
      if k > 0 { RaisedForGood(a, b, x0, tape, k); }
    }
  }

  lemma {:induction false} RaisedForGood(a: Matrix, b: Vec, x0: Vec, tape: nat -> Draw, k: nat)
    requires HasShape(a, |b|, |x0|) && Fits(tape, |x0|) && State(a, b, x0, tape, 1).None? && k > 0
    ensures State(a, b, x0, tape, k).None?
  {
    if k > 1 { RaisedForGood(a, b, x0, tape, k - 1); }
  }

  lemma {:induction false} FactoredBoundaryStays(a: Matrix, b: Vec, x0: Vec, tape: nat -> Draw, k: nat)
    requires HasShape(a, |b|, |x0|) && Fits(tape, |x0|) && Honest(a, b, x0, tape, true)
    requires Inside(a, b, x0) && !NonzeroSlack(a, b, x0)
    ensures State(a, b, x0, tape, k) == Some(x0)
  {
    if k > 0 {
      FactoredBoundaryStays(a, b, x0, tape, k - 1);
      assert HonestAt(a, b, x0, tape, k - 1, true);
    }
  }

  predicate OnBoundary(a: Matrix, b: Vec, x: Vec)
    requires HasShape(a, |b|, |x|)
  {
    Inside(a, b, x) && !NonzeroSlack(a, b, x)
  }

  lemma {:induction false} NeverRaises(a: Matrix, b: Vec, x0: Vec, tape: nat -> Draw, lapack: bool, k: nat)
    requires HasShape(a, |b|, |x0|) && Fits(tape, |x0|) && Honest(a, b, x0, tape, lapack)
    requires (StrictlyInside(a, b, x0) && Spans(a, |x0|)) || (OnBoundary(a, b, x0) && lapack)
    ensures State(a, b, x0, tape, k).Some?
  {
    if StrictlyInside(a, b, x0) && Spans(a, |x0|) {
      InteriorRunGoesOnIff(a, b, x0, tape, lapack, k);
    } else {
      FactoredBoundaryStays(a, b, x0, tape, k);
    }
  }

  /** Which starts are safe: the interior points, if the rows span the space, and no others; unless LAPACK lets a matrix
      that is not a number pass, for then the walk stays on the boundary for ever. */
  lemma {:induction false} SafeIff(a: Matrix, b: Vec, x0: Vec, lapack: bool)
    requires HasShape(a, |b|, |x0|)
    ensures Safe(a, b, x0, lapack) <==>
      (StrictlyInside(a, b, x0) && Spans(a, |x0|)) || (OnBoundary(a, b, x0) && lapack)
  {
    InteriorIff(a, b, x0);
    if NonzeroSlack(a, b, x0) { DefiniteIffSpans(a, b, x0); }
    if (StrictlyInside(a, b, x0) && Spans(a, |x0|)) || (OnBoundary(a, b, x0) && lapack) {
      forall tape: nat -> Draw, k: nat | Fits(tape, |x0|) && Honest(a, b, x0, tape, lapack)
        ensures State(a, b, x0, tape, k).Some?
      {
        NeverRaises(a, b, x0, tape, lapack, k);
      }
    } else {
      var tape := RaisesAtOnce(a, b, x0, lapack);
    }
  }

  /** From the linear program's answer, in terms of the polytope: with an interior iff the rows span the space; without
      one, but with points, iff LAPACK lets the matrix pass; and else not. */
  lemma {:induction false} CenterSafeIff(a: Matrix, b: Vec, norms: Vec, x0: Vec, r: real, lapack: bool)
    requires HasShape(a, |b|, |x0|) && AreRowNorms(norms, a)
    requires LpOptimal(LpCost(|x0|), LpRows(a, norms, |x0|), b, x0 + [r])
    ensures Safe(a, b, x0, lapack) <==>
      if HasInterior(a, b, |x0|) then Spans(a, |x0|) else HasPoint(a, b, |x0|) && lapack
  {
    SafeIff(a, b, x0, lapack);
    CenterStrictIffInterior(a, b, norms, x0, r);
    CenterInsideIffPoint(a, b, norms, x0, r);
    InteriorIff(a, b, x0);
  }

  /** If the polytope has points but no interior, the walk from there never moves: it only raises, if at all, when it
      samples. */
  lemma {:induction false} FlatCenterStays(a: Matrix, b: Vec, norms: Vec, x0: Vec, r: real, tape: nat -> Draw, k: nat)
    requires HasShape(a, |b|, |x0|) && AreRowNorms(norms, a) && Fits(tape, |x0|)
    requires LpOptimal(LpCost(|x0|), LpRows(a, norms, |x0|), b, x0 + [r])
    requires HasPoint(a, b, |x0|) && !HasInterior(a, b, |x0|)
    ensures Inside(a, b, x0)
    ensures State(a, b, x0, tape, k) == if Samples(tape, k) then Some(x0) else None
  {
    CenterInsideIffPoint(a, b, norms, x0, r);
    CenterStrictIffInterior(a, b, norms, x0, r);
    InteriorIff(a, b, x0);
    BoundaryRunStays(a, b, x0, tape, k);
  }

  /** The strip -w <= x_0 <= w in the plane: its rows do not span it. */
  predicate IsStrip(a: Matrix, b: Vec, w: real) {
    w > 0.0 && a == [[1.0, 0.0], [-1.0, 0.0]] && b == [w, w]
  }

  lemma DotOfTwo(u: Vec, v: Vec)
    requires |u| == |v| == 2
    ensures Dot(u, v) == u[0] * v[0] + u[1] * v[1]
  {
    assert DotN(u, v, 1) == DotN(u, v, 0) + u[0] * v[0];
  }

  /** There the linear program has an interior answer, and the walk from it raises at the first iteration that samples. */
  lemma {:induction false} StripRaises(a: Matrix, b: Vec, w: real, y: real, lapack: bool)
    requires IsStrip(a, b, w)
    ensures var x0 := [0.0, y]; LpOptimal(LpCost(2), LpRows(a, [1.0, 1.0], 2), b, x0 + [w]) && StrictlyInside(a, b, x0)
    ensures !Spans(a, 2) && !Safe(a, b, [0.0, y], lapack)
  {
    var x0, v := [0.0, y], [0.0, 1.0];
    DotOfTwo(a[0], x0);
    DotOfTwo(a[1], x0);
    DotOfTwo(a[0], v);
    DotOfTwo(a[1], v);
    assert Orthogonal(a, v) && v[1] != 0.0;
    SafeIff(a, b, x0, lapack);
    StripCenter(a, b, w, y);
  }

  lemma {:induction false} StripFeasible(a: Matrix, b: Vec, w: real, x: Vec, r: real)
    requires IsStrip(a, b, w) && |x| == 2
    ensures Inside(LpRows(a, [1.0, 1.0], 2), b, x + [r]) <==> x[0] + r <= w && -x[0] + r <= w
  {
    LpFeasibleIsMargin(a, b, [1.0, 1.0], x, r);
    DotOfTwo(a[0], x);
    DotOfTwo(a[1], x);
  }

  lemma {:induction false} StripCenter(a: Matrix, b: Vec, w: real, y: real)
    requires IsStrip(a, b, w)
    ensures LpOptimal(LpCost(2), LpRows(a, [1.0, 1.0], 2), b, [0.0, y] + [w])
  {
    StripFeasible(a, b, w, [0.0, y], w);
    LpCostIsRadius([0.0, y], w);
    forall z: Vec | |z| == 3 && Inside(LpRows(a, [1.0, 1.0], 2), b, z) ensures -w <= Dot(LpCost(2), z) {
      assert z == z[..2] + [z[2]];
      StripFeasible(a, b, w, z[..2], z[2]);
      LpCostIsRadius(z[..2], z[2]);
    }
  }
}
