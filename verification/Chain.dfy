/** Collecting points from a walk: `collect_chain` and `do_sample` (src/fuzz/sampler.py:106-158). */
module Chain {
  import opened Options
  import opened Vectors
  import opened Matrices
  import opened Polytope
  import Dikin
  import HitAndRun

  /** The generator function, with the random outcomes its iterations will meet. */
  datatype Sampler =
    | DikinWalk(dikin: nat -> Dikin.Draw)
    | HitAndRunWalk(hr: nat -> HitAndRun.Draw)

  ghost predicate Fits(s: Sampler, n: nat) {
    match s
    case DikinWalk(tape) => Dikin.Fits(tape, n)
    case HitAndRunWalk(tape) => HitAndRun.Fits(tape, n)
  }

  /** The walk after k iterations; None once an exception has ended it. The generator yields once an
      iteration, so its j-th value, counting from 0, is the state after j + 1 iterations. */
  ghost function State(a: Matrix, b: Vec, x0: Vec, s: Sampler, k: nat): (x: Option<Vec>)
    requires HasShape(a, |b|, |x0|) && Fits(s, |x0|)
    ensures x.Some? ==> |x.value| == |x0|
  {
    match s
    case DikinWalk(tape) => Dikin.State(a, b, x0, tape, k)
    case HitAndRunWalk(tape) =>
      var o := HitAndRun.State(a, b, x0, tape, k);
      if o.Moved? then Some(o.x) else None
  }

  lemma {:induction false} StateRaisedForGood(a: Matrix, b: Vec, x0: Vec, s: Sampler, j: nat, k: nat)
    requires HasShape(a, |b|, |x0|) && Fits(s, |x0|) && j <= k
    ensures State(a, b, x0, s, j).None? ==> State(a, b, x0, s, k).None?
    decreases k
  {
    if j < k { StateRaisedForGood(a, b, x0, s, j, k - 1); }
  }

  /** A running generator. Hit-and-run updates the array of its point in place, and that is the array it was
      started with; the Dikin walk rebinds it. */
  class Walk {
    const a: Matrix
    const b: Vec
    const sampler: Sampler
    var x: array<real>
    var pos: nat
    ghost const start: Vec
    ghost const run: nat -> Option<Vec>

    /** `run` is the trajectory of the walk: its point after any number of iterations. */
    ghost predicate IsRun() {
      && HasShape(a, |b|, |start|) && Fits(sampler, |start|)
      && forall k: nat {:trigger State(a, b, start, sampler, k)} :: run(k) == State(a, b, start, sampler, k)
    }

    ghost predicate Valid()
      reads this, x
    {
      IsRun() && x.Length == |start| && run(pos) == Some(x[..])
    }

    /** A generator that has raised yields nothing more. */
    lemma RaisedForGood(j: nat, k: nat)
      requires IsRun() && j <= k
      ensures run(j).None? ==> run(k).None?
    {
      StateRaisedForGood(a, b, start, sampler, j, k);
    }

    constructor (a: Matrix, b: Vec, x0: array<real>, sampler: Sampler)
      requires HasShape(a, |b|, x0.Length) && Fits(sampler, x0.Length)
      ensures Valid() && pos == 0 && x == x0 && start == x0[..]
      ensures this.a == a && this.b == b && this.sampler == sampler
    {
      this.a, this.b, this.sampler := a, b, sampler;
      ghost var s := x0[..];
      x, pos, start := x0, 0, s;
      run := (k: nat) => if HasShape(a, |b|, |s|) && Fits(sampler, |s|) then State(a, b, s, sampler, k) else None;
    }

    method NextDikin(draw: Dikin.Draw) returns (ok: bool)
      requires Valid() && sampler.DikinWalk? && draw == sampler.dikin(pos)
      modifies this
      ensures ok <==> run(old(pos) + 1).Some?
      ensures ok ==> Valid() && pos == old(pos) + 1
      ensures x == old(x) || fresh(x)
    {
      assert run(pos) == State(a, b, start, sampler, pos) && run(pos + 1) == State(a, b, start, sampler, pos + 1);
      var next := Dikin.Step(a, b, x[..], draw);
      ok := next.Some?;
      if ok {
        if next.value != x[..] {
          x := Copy(next.value);
        }
        pos := pos + 1;
      }
    }

    method NextHitAndRun(draw: HitAndRun.Draw) returns (ok: bool)
      requires Valid() && sampler.HitAndRunWalk? && draw == sampler.hr(pos)
      modifies this`pos, x
      ensures ok <==> run(old(pos) + 1).Some?
      ensures ok ==> Valid() && pos == old(pos) + 1
    {
      assert run(pos) == State(a, b, start, sampler, pos) && run(pos + 1) == State(a, b, start, sampler, pos + 1);
      var next := HitAndRun.Step(a, b, x[..], draw);
      ok := next.Moved?;
      if ok {
        var closest := HitAndRun.MinPositive(HitAndRun.Distances(a, b, x[..], draw.d)).value.r;
        MoveInPlace(x, HitAndRun.StepLength(closest, draw.factor), draw.d);
        pos := pos + 1;
      }
    }

    /** next(chain), one iteration of the generator's loop. */
    method Next() returns (ok: bool)
      requires Valid()
      modifies this, x
      ensures ok <==> run(old(pos) + 1).Some?
      ensures ok ==> Valid() && pos == old(pos) + 1
      ensures x == old(x) || fresh(x)
      ensures sampler.HitAndRunWalk? ==> x == old(x)
      ensures sampler.DikinWalk? ==> old(x)[..] == old(x[..])
    {
      match sampler
      case DikinWalk(tape) => ok := NextDikin(tape(pos));
      case HitAndRunWalk(tape) => ok := NextHitAndRun(tape(pos));
    }

    /** for _ in range(m): next(chain) */
    method Skip(m: int) returns (ok: bool)
      requires Valid()
      modifies this, x
      ensures ok <==> run(old(pos) + Max(m, 0)).Some?
      ensures ok ==> Valid() && pos == old(pos) + Max(m, 0)
      ensures x == old(x) || fresh(x)
    {
      ok := true;
      var i := 0;
      while i < m && ok
        invariant 0 <= i <= Max(m, 0)
        invariant ok ==> Valid() && pos == old(pos) + i
        invariant !ok ==> run(old(pos) + i).None?
        invariant x == old(x) || fresh(x)
        decreases m - i
      {
        ok := Next();
        i := i + 1;
      }
      RaisedForGood(old(pos) + i, old(pos) + Max(m, 0));
    }
  }

  function Max(i: int, j: int): int { if i < j then j else i }

  method Copy(v: Vec) returns (x: array<real>)
    ensures fresh(x) && x[..] == v
  {
    x := new real[|v|](i requires 0 <= i < |v| => v[i]);
  }

  /** x += d * t */
  method MoveInPlace(x: array<real>, t: real, d: Vec)
    requires |d| == x.Length
    modifies x
    ensures x[..] == Add(old(x[..]), Scale(t, d))
  {
    ghost var moved := Add(x[..], Scale(t, d));
    for i := 0 to x.Length
      invariant forall j :: 0 <= j < i ==> x[j] == moved[j]
      invariant forall j :: i <= j < x.Length ==> x[j] == old(x[j])
    {
      x[i] := x[i] + t * d[i];
    }
  }

  /** Which of the generator's values, counted from 0, row i is; also the number of iterations before it. */
  function YieldIndex(burn: int, thin: int, i: nat): (k: nat)
    ensures k >= 1
  {
    if i == 0 then Max(burn, 1) else YieldIndex(burn, thin, i - 1) + Max(thin, 1)
  }

  /** burn + i * thin; a burn or a thinning below 1 counts as 1. */
  lemma {:induction false} YieldIndexClosedForm(burn: int, thin: int, i: nat)
    ensures YieldIndex(burn, thin, i) == Max(burn, 1) + i * Max(thin, 1)
  {
    if i > 0 {
      YieldIndexClosedForm(burn, thin, i - 1);
      var t := Max(thin, 1);
      assert (i - 1) * t + t == i * t;
    }
  }

  lemma {:induction false} YieldIndexGrows(burn: int, thin: int, i: nat, j: nat)
    requires i <= j
    ensures YieldIndex(burn, thin, i) <= YieldIndex(burn, thin, j)
  {
    if i < j { YieldIndexGrows(burn, thin, i, j - 1); }
  }

  ghost predicate RowIs(points: array2<real>, i: nat, x: Vec)
    requires i < points.Length0
    reads points
  {
    |x| == points.Length1 && forall j :: 0 <= j < points.Length1 ==> points[i, j] == x[j]
  }

  /** points[i] = x, which copies the coordinates. */
  method CopyRow(points: array2<real>, i: nat, x: array<real>)
    requires i < points.Length0 && x.Length == points.Length1
    modifies points
    ensures forall j :: 0 <= j < x.Length ==> points[i, j] == x[j]
    ensures forall k, j :: 0 <= k < points.Length0 && k != i && 0 <= j < x.Length ==> points[k, j] == old(points[k, j])
  {
    for j := 0 to x.Length
      invariant forall c :: 0 <= c < j ==> points[i, c] == x[c]
      invariant forall k, c :: 0 <= k < points.Length0 && k != i && 0 <= c < x.Length ==>
        points[k, c] == old(points[k, c])
    {
      points[i, j] := x[j];
    }
  }

  /** The first rows of `points` hold these vectors. */
  ghost predicate RowsAre(points: array2<real>, rows: seq<Vec>)
    requires |rows| <= points.Length0
    reads points
  {
    forall k :: 0 <= k < |rows| ==> RowIs(points, k, rows[k])
  }

  /** points[i] = x, below rows that are already filled. */
  method AppendRow(points: array2<real>, i: nat, ghost rows: seq<Vec>, x: array<real>)
    requires i == |rows| < points.Length0 && x.Length == points.Length1 && RowsAre(points, rows)
    modifies points
    ensures RowsAre(points, rows + [x[..]])
  {
    CopyRow(points, i, x);
    forall k | 0 <= k < |rows| + 1 ensures RowIs(points, k, (rows + [x[..]])[k]) {
      if k < |rows| { assert old(RowIs(points, k, rows[k])); }
    }
  }

  /** The body of the outer loop: read a row, then skip thin - 1 points. */
  method CollectRow(walk: Walk, points: array2<real>, i: nat, ghost rows: seq<Vec>, thin: int)
    returns (ok: bool, ghost rows': seq<Vec>)
    requires walk.Valid() && i == |rows| < points.Length0 && points.Length1 == |walk.start| && RowsAre(points, rows)
    modifies walk, walk.x, points
    ensures ok <==> walk.run(old(walk.pos) + Max(thin, 1)).Some?
    ensures ok ==> walk.Valid() && walk.pos == old(walk.pos) + Max(thin, 1)
    ensures ok ==> |rows'| == |rows| + 1 && rows <= rows' && walk.run(old(walk.pos) + 1) == Some(rows'[|rows|])
    ensures ok ==> RowsAre(points, rows')
    ensures walk.x == old(walk.x) || fresh(walk.x)
  {
    rows' := rows;
    ok := walk.Next();
    walk.RaisedForGood(old(walk.pos) + 1, old(walk.pos) + Max(thin, 1));
    if ok {
      AppendRow(points, i, rows, walk.x);
      rows' := rows + [walk.x[..]];
      ok := walk.Skip(thin - 1);
    }
  }

  /** point = next(chain), and the burn loop. */
  method BurnIn(walk: Walk, burn: int) returns (ok: bool)
    requires walk.Valid() && walk.pos == 0
    modifies walk, walk.x
    ensures ok <==> walk.run(Max(burn, 1)).Some?
    ensures ok ==> walk.Valid() && walk.pos == Max(burn, 1)
    ensures walk.x == old(walk.x) || fresh(walk.x)
  {
    ok := walk.Next();
    walk.RaisedForGood(1, Max(burn, 1));
    if ok { ok := walk.Skip(burn - 1); }
  }

  /** Row k is what the generator yields at YieldIndex(k). */
  ghost predicate Thinned(rows: seq<Vec>, run: nat -> Option<Vec>, burn: int, thin: int) {
    forall k :: 0 <= k < |rows| ==> run(YieldIndex(burn, thin, k) + 1) == Some(rows[k])
  }

  /** src/fuzz/sampler.py:113-125. Row k is a copy of the value that the generator yields at YieldIndex(k),
      whatever the walk does to its point afterwards; the call raises iff one of the iterations does. */
  method CollectChain(walk: Walk, count: nat, burn: int, thin: int)
    returns (points: array2<real>, ok: bool, ghost rows: seq<Vec>)
    requires walk.Valid() && walk.pos == 0
    modifies walk, walk.x
    ensures fresh(points) && points.Length0 == count && points.Length1 == |walk.start|
    ensures ok <==> walk.run(YieldIndex(burn, thin, count)).Some?
    ensures ok ==> |rows| == count && RowsAre(points, rows) && Thinned(rows, walk.run, burn, thin)
  {
    points := new real[count, walk.x.Length];
    ok := BurnIn(walk, burn);
    if !ok {
      YieldIndexGrows(burn, thin, 0, count);
      walk.RaisedForGood(YieldIndex(burn, thin, 0), YieldIndex(burn, thin, count));
      return points, false, [];
    }
    ok, rows := CollectRows(walk, points, burn, thin);
  }

  /** The rows, one after the other. */
  method CollectRows(walk: Walk, points: array2<real>, burn: int, thin: int) returns (ok: bool, ghost rows: seq<Vec>)
    requires walk.Valid() && walk.pos == YieldIndex(burn, thin, 0) && points.Length1 == |walk.start|
    modifies walk, walk.x, points
    ensures ok <==> walk.run(YieldIndex(burn, thin, points.Length0)).Some?
    ensures ok ==> |rows| == points.Length0 && RowsAre(points, rows) && Thinned(rows, walk.run, burn, thin)
  {
    var count := points.Length0;
    rows, ok := [], true;
    var i := 0;
    while i < count && ok
      invariant i <= count
      invariant ok <==> walk.run(YieldIndex(burn, thin, i)).Some?
      invariant ok ==> walk.Valid() && walk.pos == YieldIndex(burn, thin, i)
      invariant walk.x == old(walk.x) || fresh(walk.x)
      invariant ok ==> |rows| == i && RowsAre(points, rows) && Thinned(rows, walk.run, burn, thin)
    {
      ok, rows := CollectRow(walk, points, i, rows, thin);
      i := i + 1;
    }
    YieldIndexGrows(burn, thin, i, count);
    walk.RaisedForGood(YieldIndex(burn, thin, i), YieldIndex(burn, thin, count));
  }

  /** What the first k iterations need: every direction of a hit-and-run walk approaches some constraint; and a Dikin
      walk does not sample, unless the rows span the space. */
  ghost predicate CanStep(s: Sampler, a: Matrix, n: nat, k: nat)
    requires HasShape(a, |a|, n) && Fits(s, n)
  {
    match s
    case DikinWalk(tape) => Dikin.Spans(a, n) || Dikin.StaysPut(tape, k)
    case HitAndRunWalk(tape) => HitAndRun.BoundedUpTo(a, n, tape, k)
  }

  /** The draws of a Dikin walk tell the truth about sampling. */
  ghost predicate Truthful(s: Sampler, a: Matrix, b: Vec, x0: Vec)
    requires HasShape(a, |b|, |x0|) && Fits(s, |x0|)
  {
    s.DikinWalk? ==> exists lapack :: Dikin.Honest(a, b, x0, s.dikin, lapack)
  }

  /** From an interior point neither walk ever leaves the interior, and it goes on exactly as long as it can step. */
  lemma {:induction false} StaysInterior(a: Matrix, b: Vec, x0: Vec, s: Sampler, k: nat)
    requires HasShape(a, |b|, |x0|) && Fits(s, |x0|) && Truthful(s, a, b, x0) && StrictlyInside(a, b, x0)
    ensures State(a, b, x0, s, k).Some? <==> CanStep(s, a, |x0|, k)
    ensures State(a, b, x0, s, k).Some? ==> StrictlyInside(a, b, State(a, b, x0, s, k).value)
  {
    match s
    case DikinWalk(tape) =>
      var lapack :| Dikin.Honest(a, b, x0, tape, lapack);
      Dikin.RunStaysInterior(a, b, x0, tape, k);
      Dikin.InteriorRunGoesOnIff(a, b, x0, tape, lapack, k);
    case HitAndRunWalk(tape) => HitAndRun.RunGoesOnIff(a, b, x0, tape, k);
  }

  method ToRows(points: array2<real>, ghost rows: seq<Vec>) returns (m: Matrix)
    requires |rows| == points.Length0 && RowsAre(points, rows)
    ensures m == rows
  {
    m := [];
    for i := 0 to points.Length0
      invariant m == rows[..i]
    {
      assert RowIs(points, i, rows[i]);
      var row := seq(points.Length1, j requires 0 <= j < points.Length1 reads points => points[i, j]);
      assert row == rows[i];
      m := m + [row];
    }
  }

  /** What do_sample returns for a linear program's answer: nothing if it raises, else the walk's own states at
      the iterations that collect_chain reads. */
  ghost predicate IsSample(leq: Matrix, rhs: Vec, n: nat, lp: LpResult, sampler: Sampler,
                           count: nat, burn: int, thin: int, res: Option<Matrix>)
    requires HasShape(leq, |rhs|, n) && Fits(sampler, n) && (lp.Solved? ==> |lp.y| == n + 1)
  {
    match lp
    case Unsolved => res.None?
    case Solved(y) =>
      var x0 := y[..n];
      && (res.Some? <==> State(leq, rhs, x0, sampler, YieldIndex(burn, thin, count)).Some?)
      && (res.Some? ==> |res.value| == count && forall k :: 0 <= k < count ==>
            State(leq, rhs, x0, sampler, YieldIndex(burn, thin, k) + 1) == Some(res.value[k]))
  }

  /** Row k is the point after burn + 1 + thin k iterations, for positive burn and thin. */
  lemma {:induction false} SampledRow(leq: Matrix, rhs: Vec, n: nat, lp: LpResult, sampler: Sampler,
                                      count: nat, burn: int, thin: int, rows: Matrix, k: nat, m: nat)
    requires HasShape(leq, |rhs|, n) && Fits(sampler, n) && lp.Solved? && |lp.y| == n + 1 && k < count
    requires IsSample(leq, rhs, n, lp, sampler, count, burn, thin, Some(rows))
    requires burn > 0 && thin > 0 && m == burn + thin * k + 1
    ensures |rows| == count && State(leq, rhs, lp.y[..n], sampler, m) == Some(rows[k])
  {
    YieldIndexClosedForm(burn, thin, k);
    assert YieldIndex(burn, thin, k) + 1 == m;
  }

  /** do_sample (src/fuzz/sampler.py:128-158), given the linear program's answer. */
  method DoSample(leq: Matrix, rhs: Vec, n: nat, lp: LpResult, sampler: Sampler, count: nat, burn: int, thin: int)
    returns (res: Option<Matrix>)
    requires HasShape(leq, |rhs|, n) && Fits(sampler, n) && (lp.Solved? ==> |lp.y| == n + 1)
    ensures IsSample(leq, rhs, n, lp, sampler, count, burn, thin, res)
  {
    var nullspace := Transpose(Identity(n), n);
    TransposeIdentity(n);
    var a := MatMul(leq, nullspace, n);
    MatMulIdentity(leq, n);
    var center := ChebyshevCenter(lp);
    if center.None? { return None; }
    var x0 := Copy(center.value);
    var walk := new Walk(a, rhs, x0, sampler);
    var points, ok, rows := CollectChain(walk, count, burn, thin);
    ghost var s0 := lp.y[..n];
    assert walk.run(YieldIndex(burn, thin, count)) == State(leq, rhs, s0, sampler, YieldIndex(burn, thin, count));
    if !ok { return None; }
    forall k | 0 <= k < count
      ensures State(leq, rhs, s0, sampler, YieldIndex(burn, thin, k) + 1) == Some(rows[k])
    {
      assert walk.run(YieldIndex(burn, thin, k) + 1) == State(leq, rhs, s0, sampler, YieldIndex(burn, thin, k) + 1);
    }
    var chain := ToRows(points, rows);
    MatMulIdentity(chain, n);
    res := Some(MatMul(chain, Transpose(nullspace, n), n));
  }

  /** Sampling end to end, if the linear program's answer is strictly inside (see Polytope for when it is): do_sample
      returns all its rows iff the walk can step so long, and then each is strictly inside. */
  lemma {:induction false} SampleIsInside(leq: Matrix, rhs: Vec, x0: Vec, lp: LpResult, s: Sampler,
                       count: nat, burn: int, thin: int, res: Option<Matrix>)
    requires HasShape(leq, |rhs|, |x0|) && Fits(s, |x0|) && Truthful(s, leq, rhs, x0)
    requires lp.Solved? && |lp.y| == |x0| + 1 && lp.y[..|x0|] == x0 && StrictlyInside(leq, rhs, x0)
    requires IsSample(leq, rhs, |x0|, lp, s, count, burn, thin, res)
    ensures res.Some? <==> CanStep(s, leq, |x0|, YieldIndex(burn, thin, count))
    ensures res.Some? ==> |res.value| == count
    ensures res.Some? ==>
      forall k :: 0 <= k < count ==> |res.value[k]| == |x0| && StrictlyInside(leq, rhs, res.value[k])
  {
    StaysInterior(leq, rhs, x0, s, YieldIndex(burn, thin, count));
    forall k | 0 <= k < count && res.Some?
      ensures |res.value[k]| == |x0| && StrictlyInside(leq, rhs, res.value[k])
    {
      StaysInterior(leq, rhs, x0, s, YieldIndex(burn, thin, k) + 1);
    }
  }
}
