/** Writing mutants: `__save_seed` and `crack_target` in src/fuzz/sync.py. */
module Mutants {
  import opened Options
  import opened Vectors
  import opened Matrices
  import opened Polytope
  import Text
  import HitAndRun
  import Box
  import Chain

  /** `^k!(?P<idx>\d+)0$`: the offset that a variable stands for. */
  function MatchName(name: string): Option<nat> {
    if |name| < 4 || name[0] != 'k' || name[1] != '!' || name[|name| - 1] != '0' then None
    else
      var digits := name[2..|name| - 1];
      if Text.AllDigits(digits) then Some(Text.Number(digits)) else None
  }

  function VariableName(offset: nat): string {
    "k!" + (Text.Decimal(offset) + "0")
  }

  lemma MatchNameOfVariable(offset: nat)
    ensures MatchName(VariableName(offset)) == Some(offset)
  {
    var d := Text.Decimal(offset);
    var name := VariableName(offset);
    assert name[2..|name| - 1] == d;
    Text.NumberOfDecimal(offset);
  }

  /** The name of a variable is "k!", the offset and a 0; any such name is read, and no other. */
  lemma {:induction false} MatchNameIff(name: string)
    ensures MatchName(name).Some? <==> exists d :: IsVariable(name, d)
    ensures forall d :: IsVariable(name, d) ==> MatchName(name) == Some(Text.Number(d))
  {
    if MatchName(name).Some? {
      var d := name[2..|name| - 1];
      assert name == "k!" + d + "0";
      assert IsVariable(name, d);
    }
    forall d | IsVariable(name, d) ensures MatchName(name) == Some(Text.Number(d)) {
      assert name[2..|name| - 1] == d;
    }
  }

  predicate IsVariable(name: string, d: string) {
    d != "" && Text.AllDigits(d) && name == "k!" + d + "0"
  }

  predicate IsByte(v: int) { 0 <= v < 256 }

  type Bytes = seq<int>

  /** The first n assignments into the seed's bytes; None: an offset or a value is out of range, which raises. */
  function Mutate(seed: Bytes, names: seq<string>, values: seq<int>, n: nat): (m: Option<Bytes>)
    requires n <= |names| == |values|
    ensures m.Some? ==> |m.value| == |seed|
  {
    if n == 0 then Some(seed)
    else match Mutate(seed, names, values, n - 1)
      case None => None
      case Some(m) =>
        match MatchName(names[n - 1])
        case None => Some(m)
        case Some(offset) =>
          if offset < |m| && IsByte(values[n - 1]) then Some(m[offset := values[n - 1]]) else None
  }

  /** No two variables stand for the same offset. */
  predicate DistinctOffsets(names: seq<string>) {
    forall i, j :: 0 <= i < j < |names| && MatchName(names[i]).Some? ==> MatchName(names[i]) != MatchName(names[j])
  }

  predicate Assignable(seed: Bytes, name: string, value: int) {
    MatchName(name).Some? ==> MatchName(name).value < |seed| && IsByte(value)
  }

  /** A mutant is written exactly when every named offset is in range and gets a byte. */
  lemma {:induction false} MutateSucceedsIff(seed: Bytes, names: seq<string>, values: seq<int>, n: nat)
    requires n <= |names| == |values|
    ensures Mutate(seed, names, values, n).Some? <==> forall i :: 0 <= i < n ==> Assignable(seed, names[i], values[i])
  {
    if n > 0 { MutateSucceedsIff(seed, names, values, n - 1); }
  }

  predicate Named(names: seq<string>, k: nat, n: nat)
    requires n <= |names|
  {
    exists i :: 0 <= i < n && MatchName(names[i]) == Some(k)
  }

  /** With distinct offsets, the mutant has the chosen values at the named offsets and the seed's bytes elsewhere. */
  lemma {:induction false} MutantMeaning(seed: Bytes, names: seq<string>, values: seq<int>, n: nat)
    requires n <= |names| == |values| && DistinctOffsets(names)
    requires Mutate(seed, names, values, n).Some?
    ensures var m := Mutate(seed, names, values, n).value;
      && (forall i :: 0 <= i < n && MatchName(names[i]).Some? ==>
            MatchName(names[i]).value < |m| && m[MatchName(names[i]).value] == values[i])
      && (forall k :: 0 <= k < |seed| && !Named(names, k, n) ==> m[k] == seed[k])
  {
    if n > 0 {
      MutantMeaning(seed, names, values, n - 1);
      var m, m' := Mutate(seed, names, values, n - 1).value, Mutate(seed, names, values, n).value;
      forall k | 0 <= k < |seed| && !Named(names, k, n) ensures m'[k] == seed[k] {
        assert !Named(names, k, n - 1);
        assert MatchName(names[n - 1]) != Some(k);
      }
    }
  }

  /** Writing one mutant after the other, until one raises. */
  function SaveAll(seed: Bytes, names: seq<string>, rows: seq<seq<int>>): seq<Bytes>
    requires forall i :: 0 <= i < |rows| ==> |rows[i]| == |names|
  {
    if rows == [] then []
    else match Mutate(seed, names, rows[0], |names|)
      case None => []
      case Some(m) => [m] + SaveAll(seed, names, rows[1..])
  }

  lemma {:induction false} SaveAllFrom(seed: Bytes, names: seq<string>, rows: seq<seq<int>>, i: nat, done: seq<Bytes>)
    requires i < |rows| && forall k :: 0 <= k < |rows| ==> |rows[k]| == |names|
    ensures var m := Mutate(seed, names, rows[i], |names|);
      done + SaveAll(seed, names, rows[i..]) ==
        if m.None? then done else (done + [m.value]) + SaveAll(seed, names, rows[i + 1..])
  {
    assert rows[i..][0] == rows[i] && rows[i..][1..] == rows[i + 1..];
  }

  /** The files id:first, id:first+1, ... */
  function Files(first: nat, mutants: seq<Bytes>): map<nat, Bytes> {
    if mutants == [] then map[]
    else
      var n := |mutants| - 1;
      Files(first, mutants[..n])[first + n := mutants[n]]
  }

  lemma FilesMore(first: nat, mutants: seq<Bytes>, m: Bytes)
    ensures Files(first, mutants + [m]) == Files(first, mutants)[first + |mutants| := m]
  {
    assert (mutants + [m])[..|mutants|] == mutants;
  }

  /** Nothing else is there: mutant k is in file number first + k. */
  lemma {:induction false} FilesAre(first: nat, mutants: seq<Bytes>)
    ensures forall k: nat :: k in Files(first, mutants) <==> first <= k < first + |mutants|
    ensures forall k: nat :: k < |mutants| ==> Files(first, mutants)[first + k] == mutants[k]
    ensures |Files(first, mutants)| == |mutants|
  {
    if mutants != [] {
      var n := |mutants| - 1;
      FilesAre(first, mutants[..n]);
      assert Files(first, mutants).Keys == Files(first, mutants[..n]).Keys + {first + n};
      forall k: nat | k < |mutants| ensures Files(first, mutants)[first + k] == mutants[k] {
        if k < n { assert mutants[..n][k] == mutants[k]; }
      }
    }
  }

  /** astype(int): truncation toward zero. */
  function Truncate(r: real): int {
    if r >= 0.0 then r.Floor else -((-r).Floor)
  }

  /** The whole part: between zero and the number, and less than 1 away from it. */
  lemma TruncateIs(r: real)
    ensures r >= 0.0 ==> 0.0 <= Truncate(r) as real <= r < Truncate(r) as real + 1.0
    ensures r <= 0.0 ==> Truncate(r) as real - 1.0 < r <= Truncate(r) as real <= 0.0
  {
  }

  function TruncateRow(row: Vec): (t: seq<int>)
    ensures |t| == |row|
  {
    seq(|row|, i requires 0 <= i < |row| => Truncate(row[i]))
  }

  function TruncateRows(rows: Matrix): (ts: seq<seq<int>>)
    ensures |ts| == |rows| && forall i :: 0 <= i < |rows| ==> |ts[i]| == |rows[i]|
  {
    seq(|rows|, i requires 0 <= i < |rows| => TruncateRow(rows[i]))
  }

  function Reals(xs: seq<int>): (v: Vec)
    ensures |v| == |xs|
  {
    seq(|xs|, i requires 0 <= i < |xs| => xs[i] as real)
  }

  /** The samplers to choose from: the walk of sampler.py; those of the pwalk library, whose result may be any, or
      none if it raises; and names that are not known. */
  datatype Sampler = OwnWalk(tape: nat -> HitAndRun.Draw) | LibraryWalk(rows: Option<Matrix>) | Unknown

  ghost predicate SamplerFits(sampler: Sampler, n: nat) {
    match sampler
    case OwnWalk(tape) => HitAndRun.Fits(tape, n)
    case LibraryWalk(rows) => RowsFit(rows, n)
    case Unknown => true
  }

  const DEFAULT_SAMPLER_NUM := 1000
  const BURN := 1000
  const THIN := 10

  class Synchronizer {
    /** The contents of the sample directory, and the number of the next file. */
    var files: map<nat, Bytes>
    var sampleId: nat

    constructor ()
      ensures files == map[] && sampleId == 0
    {
      files, sampleId := map[], 0;
    }

    /** __save_seed. False: it raised, and wrote nothing. */
    method SaveSeed(seed: Bytes, names: seq<string>, values: seq<int>) returns (ok: bool)
      requires |names| == |values|
      modifies this
      ensures var m := Mutate(seed, names, values, |names|);
        && ok == m.Some?
        && (ok ==> files == old(files)[old(sampleId) := m.value] && sampleId == old(sampleId) + 1)
        && (!ok ==> files == old(files) && sampleId == old(sampleId))
    {
      var arr := new int[|seed|](i requires 0 <= i < |seed| => seed[i]);
      assert arr[..] == seed;
      for idx := 0 to |names|
        invariant files == old(files) && sampleId == old(sampleId)
        invariant Mutate(seed, names, values, idx) == Some(arr[..])
      {
        var offset := MatchName(names[idx]);
        if offset.None? { continue; }
        if offset.value >= arr.Length || !IsByte(values[idx]) {
          MutateSucceedsIff(seed, names, values, |names|);
          assert !Assignable(seed, names[idx], values[idx]);
          return false;
        }
        ghost var was := arr[..];
        arr[offset.value] := values[idx];
        assert arr[..] == was[offset.value := values[idx]];
      }
      files := files[sampleId := arr[..]];
      sampleId := sampleId + 1;
      ok := true;
    }

    /** The loop over the sampled rows. */
    method SaveRows(seed: Bytes, names: seq<string>, rows: seq<seq<int>>, ghost first: nat, ghost before: seq<Bytes>)
      requires forall i :: 0 <= i < |rows| ==> |rows[i]| == |names|
      requires files == Files(first, before) && sampleId == first + |before|
      modifies this
      ensures var saved := before + SaveAll(seed, names, rows);
        files == Files(first, saved) && sampleId == first + |saved|
    {
      ghost var done := before;
      for i := 0 to |rows|
        invariant done + SaveAll(seed, names, rows[i..]) == before + SaveAll(seed, names, rows)
        invariant files == Files(first, done) && sampleId == first + |done|
      {
        SaveAllFrom(seed, names, rows, i, done);
        var ok := SaveSeed(seed, names, rows[i]);
        if !ok { return; }
        ghost var m := Mutate(seed, names, rows[i], |names|).value;
        FilesMore(first, done, m);
        done := done + [m];
      }
      assert rows[|rows|..] == [] && done + [] == done;
    }

    /** Write the solver's model, and then the samples. */
    method SaveSample(seed: Bytes, names: seq<string>, model: seq<int>, sample: Option<Matrix>)
      requires |names| == |model| && RowsFit(sample, |names|) && files == map[]
      modifies this
      ensures var saved := SaveAll(seed, names, AllRows(model, sample));
        files == Files(old(sampleId), saved) && sampleId == old(sampleId) + |saved|
    {
      ghost var first := sampleId;
      AllRowsSplit(seed, names, model, sample);
      var ok := SaveSeed(seed, names, model);
      if !ok { return; }
      ghost var m := Mutate(seed, names, model, |names|).value;
      assert [m][..0] == [];
      if sample.Some? { SaveRows(seed, names, TruncateRows(sample.value), first, [m]); }
    }

    /** crack_target, given what the solver found (a value, a maximum and a minimum for each variable) and the linear
        program's answer. The directory is emptied first; the numbers go on. */
    method CrackTarget(seed: Bytes, names: seq<string>, model: seq<int>, maxs: seq<int>, mins: seq<int>,
                       lp: LpResult, sampler: Sampler)
      returns (ghost sample: Option<Matrix>)
      requires |names| == |model| == |maxs| == |mins|
      requires SamplerFits(sampler, |names|) && (lp.Solved? ==> |lp.y| == |names| + 1)
      modifies this
      ensures RowsFit(sample, |names|)
      ensures var saved := if names == [] then [] else SaveAll(seed, names, AllRows(model, sample));
        files == Files(old(sampleId), saved) && sampleId == old(sampleId) + |saved|
      ensures RegularTarget(seed, names, model, maxs, mins) && RegularWalk(maxs, mins, lp, sampler) ==>
        IsHarvest(seed, names, model, maxs, old(sampleId), files) && sampleId == old(sampleId) + 1001
      ensures SampleOk(maxs, mins, lp, sampler, sample)
    {
      files := map[];
      var res := SampleBox(maxs, mins, lp, sampler);
      sample := res;
      if |names| > 0 { SaveSample(seed, names, model, res); }
      RegularSamples(maxs, mins, lp, sampler, sample);
      HarvestIfRegular(seed, names, model, maxs, mins, sample, old(sampleId));
    }
  }

  predicate RowsFit(sample: Option<Matrix>, n: nat) {
    sample.Some? ==> forall k :: 0 <= k < |sample.value| ==> |sample.value[k]| == n
  }

  lemma AllRowsSplit(seed: Bytes, names: seq<string>, model: seq<int>, sample: Option<Matrix>)
    requires |model| == |names| && RowsFit(sample, |names|)
    ensures var m := Mutate(seed, names, model, |names|);
      SaveAll(seed, names, AllRows(model, sample)) ==
        if m.None? then []
        else if sample.None? then [m.value]
        else [m.value] + SaveAll(seed, names, TruncateRows(sample.value))
  {
    var rows := AllRows(model, sample);
    assert rows[0] == model;
    assert rows[1..] == if sample.Some? then TruncateRows(sample.value) else [];
  }

  /** The sampling part of crack_target, and __do_sample. */
  method SampleBox(maxs: seq<int>, mins: seq<int>, lp: LpResult, sampler: Sampler)
    returns (sample: Option<Matrix>)
    requires |maxs| == |mins| && SamplerFits(sampler, |maxs|) && (lp.Solved? ==> |lp.y| == |maxs| + 1)
    ensures SampleOk(maxs, mins, lp, sampler, sample) && RowsFit(sample, |maxs|)
  {
    var n := |maxs|;
    var leq, rhs := Box.Build(Reals(maxs), Reals(mins));
    var a := BoxRows(leq, n);
    var initialization := ChebyshevCenter(lp);
    if initialization.None? { return None; }
    match sampler
    case OwnWalk(tape) =>
      sample := Chain.DoSample(a, rhs[..], n, lp, Chain.HitAndRunWalk(tape), DEFAULT_SAMPLER_NUM, BURN, THIN);
    case LibraryWalk(rows) => sample := rows;
    case Unknown => sample := None;
  }

  method BoxRows(leq: array2<real>, n: nat) returns (a: Matrix)
    requires leq.Length0 == 2 * n && leq.Length1 == n
    requires forall j, k :: 0 <= j < 2 * n && 0 <= k < n ==> leq[j, k] == Box.Rows(n)[j][k]
    ensures a == Box.Rows(n)
  {
    forall j | 0 <= j < 2 * n ensures Chain.RowIs(leq, j, Box.Rows(n)[j]) { }
    a := Chain.ToRows(leq, Box.Rows(n));
  }

  /** The rows that are written: the solver's model first, then the samples. */
  function AllRows(model: seq<int>, sample: Option<Matrix>): seq<seq<int>> {
    [model] + if sample.Some? then TruncateRows(sample.value) else []
  }

  ghost predicate SampleOk(maxs: seq<int>, mins: seq<int>, lp: LpResult, sampler: Sampler, sample: Option<Matrix>)
    requires |maxs| == |mins| && SamplerFits(sampler, |maxs|) && (lp.Solved? ==> |lp.y| == |maxs| + 1)
  {
    match sampler
    case OwnWalk(tape) =>
      Chain.IsSample(Box.Rows(|maxs|), Box.Rhs(Reals(maxs), Reals(mins)), |maxs|, lp, Chain.HitAndRunWalk(tape),
                     DEFAULT_SAMPLER_NUM, BURN, THIN, sample)
    case LibraryWalk(rows) => sample == if lp.Solved? then rows else None
    case Unknown => sample == None
  }

  // ----- what ends up in the files

  lemma TruncateBetween(r: real, lo: int, hi: int)
    requires lo as real <= r <= hi as real
    ensures lo <= Truncate(r) <= hi
  {
  }

  /** Every point of the coded box truncates to bytes exactly when all minima are 0 (or less) and all maxima fit a
      byte. With a positive minimum the box reaches below zero, and the assignment of such a value raises. */
  lemma BoxGivesBytesIff(maxs: seq<int>, mins: seq<int>)
    requires |maxs| == |mins| && forall i :: 0 <= i < |maxs| ==> -mins[i] <= maxs[i]
    ensures (forall x: Vec :: |x| == |maxs| && Box.InBox(Reals(maxs), Reals(mins), x) ==> AllBytes(x)) <==>
      forall i :: 0 <= i < |maxs| ==> mins[i] <= 0 && maxs[i] <= 255
  {
    var hi, lo := Reals(maxs), seq(|mins|, i requires 0 <= i < |mins| => (-mins[i]) as real);
    forall i | 0 <= i < |maxs|
      ensures Box.Between(hi, Reals(mins), hi, i) && Box.Between(hi, Reals(mins), lo, i)
    {
      assert (-mins[i]) as real == -(mins[i] as real);
      assert (-mins[i]) as real <= maxs[i] as real;
    }
    assert Box.InBox(hi, Reals(mins), hi) && Box.InBox(hi, Reals(mins), lo);
    if AllBytes(hi) && AllBytes(lo) {
      forall i | 0 <= i < |maxs| ensures mins[i] <= 0 && maxs[i] <= 255 {
        assert IsByte(Truncate(hi[i])) && IsByte(Truncate(lo[i]));
        TruncateBetween(hi[i], maxs[i], maxs[i]);
        TruncateBetween(lo[i], -mins[i], -mins[i]);
      }
    }
    if forall i :: 0 <= i < |maxs| ==> mins[i] <= 0 && maxs[i] <= 255 {
      forall x: Vec | |x| == |maxs| && Box.InBox(hi, Reals(mins), x) ensures AllBytes(x) {
        RowIsBytes(maxs, mins, x);
      }
    }
  }

  predicate AllBytes(x: Vec) {
    forall i :: 0 <= i < |x| ==> IsByte(Truncate(x[i]))
  }

  /** Truncation toward zero stays in the coded box. */
  lemma TruncateInBox(maxs: seq<int>, mins: seq<int>, x: Vec, i: nat)
    requires |maxs| == |mins| == |x| && Box.InBox(Reals(maxs), Reals(mins), x) && i < |x|
    ensures -mins[i] <= Truncate(x[i]) <= maxs[i]
  {
    assert Box.Between(Reals(maxs), Reals(mins), x, i);
    assert (-mins[i]) as real == -(mins[i] as real);
    TruncateBetween(x[i], -mins[i], maxs[i]);
  }

  lemma RowIsBytes(maxs: seq<int>, mins: seq<int>, x: Vec)
    requires |maxs| == |mins| == |x| && Box.InBox(Reals(maxs), Reals(mins), x)
    requires forall i :: 0 <= i < |maxs| ==> mins[i] <= 0 && maxs[i] <= 255
    ensures AllBytes(x)
  {
    forall i | 0 <= i < |x| ensures IsByte(Truncate(x[i])) { TruncateInBox(maxs, mins, x, i); }
  }

  predicate InRange(seed: Bytes, names: seq<string>) {
    forall i :: 0 <= i < |names| && MatchName(names[i]).Some? ==> MatchName(names[i]).value < |seed|
  }

  lemma {:induction false} SaveAllWritesAll(seed: Bytes, names: seq<string>, rows: seq<seq<int>>)
    requires InRange(seed, names)
    requires forall k :: 0 <= k < |rows| ==> |rows[k]| == |names| && forall i :: 0 <= i < |names| ==> IsByte(rows[k][i])
    ensures var saved := SaveAll(seed, names, rows);
      |saved| == |rows| && forall k :: 0 <= k < |rows| ==> Mutate(seed, names, rows[k], |names|) == Some(saved[k])
  {
    if rows != [] {
      MutateSucceedsIff(seed, names, rows[0], |names|);
      SaveAllWritesAll(seed, names, rows[1..]);
    }
  }

  /** An optimal answer of the linear program, and a walk that draws no direction that is 0. */
  ghost predicate RegularWalk(maxs: seq<int>, mins: seq<int>, lp: LpResult, sampler: Sampler) {
    && |maxs| == |mins| && lp.Solved? && |lp.y| == |maxs| + 1
    && Box.IsAnswer(Reals(maxs), Reals(mins), lp.y[..|maxs|], lp.y[|maxs|])
    && sampler.OwnWalk? && HitAndRun.Fits(sampler.tape, |maxs|)
    && forall j: nat :: HitAndRun.Bounded(Box.Rows(|maxs|), sampler.tape(j).d)
  }

  /** There is one for every box with a variable. */
  lemma {:induction false} RegularWalkExists(maxs: seq<int>, mins: seq<int>, tape: nat -> HitAndRun.Draw)
      returns (lp: LpResult)
    requires |maxs| == |mins| > 0 && HitAndRun.Fits(tape, |maxs|)
    requires forall j: nat :: HitAndRun.Bounded(Box.Rows(|maxs|), tape(j).d)
    ensures RegularWalk(maxs, mins, lp, OwnWalk(tape))
  {
    var x, r := Box.SomeAnswer(Reals(maxs), Reals(mins));
    lp := LpResult.Solved(x + [r]);
    assert (x + [r])[..|maxs|] == x;
  }


  lemma {:induction false} AnswerIsInside(maxs: seq<int>, mins: seq<int>, x0: Vec, r: real)
    requires |maxs| == |mins| == |x0| && Box.IsAnswer(Reals(maxs), Reals(mins), x0, r)
    requires Box.PositiveWidths(Reals(maxs), Reals(mins))
    ensures StrictlyInside(Box.Rows(|x0|), Box.Rhs(Reals(maxs), Reals(mins)), x0)
  {
    Box.CenterStrictIff(Reals(maxs), Reals(mins), x0, r);
  }

  /** Rows of points in the interior of the box. */
  ghost predicate InsideRows(maxs: seq<int>, mins: seq<int>, rows: Matrix) {
    && |maxs| == |mins|
    && forall k :: 0 <= k < |rows| ==>
         |rows[k]| == |maxs| && StrictlyInside(Box.Rows(|maxs|), Box.Rhs(Reals(maxs), Reals(mins)), rows[k])
  }

  lemma {:induction false} OwnWalkCanStep(a: Matrix, n: nat, tape: nat -> HitAndRun.Draw, k: nat)
    requires HasShape(a, |a|, n) && HitAndRun.Fits(tape, n) && forall j: nat :: HitAndRun.Bounded(a, tape(j).d)
    ensures Chain.CanStep(Chain.HitAndRunWalk(tape), a, n, k)
  {
  }

  lemma {:induction false} SamplesInside(
      maxs: seq<int>, mins: seq<int>, x0: Vec, lp: LpResult, sampler: Sampler, sample: Option<Matrix>)
    requires |maxs| == |mins| == |x0| && lp.Solved? && |lp.y| == |x0| + 1 && lp.y[..|x0|] == x0
    requires StrictlyInside(Box.Rows(|x0|), Box.Rhs(Reals(maxs), Reals(mins)), x0)
    requires sampler.OwnWalk? && HitAndRun.Fits(sampler.tape, |x0|)
    requires forall j: nat :: HitAndRun.Bounded(Box.Rows(|x0|), sampler.tape(j).d)
    requires SampleOk(maxs, mins, lp, sampler, sample)
    ensures sample.Some? && |sample.value| == DEFAULT_SAMPLER_NUM && InsideRows(maxs, mins, sample.value)
  {
    var a, b := Box.Rows(|x0|), Box.Rhs(Reals(maxs), Reals(mins));
    OwnWalkCanStep(a, |x0|, sampler.tape, Chain.YieldIndex(BURN, THIN, DEFAULT_SAMPLER_NUM));
    Chain.SampleIsInside(
      a, b, x0, lp, Chain.HitAndRunWalk(sampler.tape), DEFAULT_SAMPLER_NUM, BURN, THIN, sample);
  }

  lemma {:induction false} BoxSamples(maxs: seq<int>, mins: seq<int>, rows: Matrix)
    requires InsideRows(maxs, mins, rows)
    ensures forall k :: 0 <= k < |rows| ==> IsSample(maxs, mins, rows[k])
  {
    forall k | 0 <= k < |rows| ensures IsSample(maxs, mins, rows[k]) {
      Box.InsideBoxIff(Reals(maxs), Reals(mins), rows[k]);
    }
  }

  /** A point of the box. */
  predicate IsSample(maxs: seq<int>, mins: seq<int>, x: Vec) {
    |x| == |maxs| == |mins| && Box.InBox(Reals(maxs), Reals(mins), x)
  }

  /** The box's samples: if no interval has width zero, the start is optimal and the directions nonzero, then
      sampling does not raise, and every sampled row is in the box. */
  lemma {:induction false} SamplesWithinBounds(
      maxs: seq<int>, mins: seq<int>, lp: LpResult, sampler: Sampler, sample: Option<Matrix>)
    requires RegularWalk(maxs, mins, lp, sampler) && Box.PositiveWidths(Reals(maxs), Reals(mins))
    requires SampleOk(maxs, mins, lp, sampler, sample)
    ensures sample.Some? && |sample.value| == DEFAULT_SAMPLER_NUM
    ensures forall k :: 0 <= k < |sample.value| ==> IsSample(maxs, mins, sample.value[k])
  {
    AnswerIsInside(maxs, mins, lp.y[..|maxs|], lp.y[|maxs|]);
    SamplesInside(maxs, mins, lp.y[..|maxs|], lp, sampler, sample);
    BoxSamples(maxs, mins, sample.value);
  }

  /** If the offsets are in range and the values bytes, the solver's model and all the samples are written, each
      as the seed with the chosen values at the named offsets. */
  lemma AllMutantsWritten(seed: Bytes, names: seq<string>, model: seq<int>, maxs: seq<int>, mins: seq<int>,
                          sample: Matrix)
    requires |names| == |model| == |maxs| == |mins| && InRange(seed, names)
    requires forall i :: 0 <= i < |model| ==> IsByte(model[i])
    requires forall k :: 0 <= k < |sample| ==> |sample[k]| == |names| && AllBytes(sample[k])
    ensures RowsFit(Some(sample), |names|)
    ensures var saved := SaveAll(seed, names, AllRows(model, Some(sample)));
      && |saved| == 1 + |sample|
      && Mutate(seed, names, model, |names|) == Some(saved[0])
      && forall k :: 0 <= k < |sample| ==> Mutate(seed, names, TruncateRow(sample[k]), |names|) == Some(saved[k + 1])
  {
    var rows := AllRows(model, Some(sample));
    assert rows[0] == model;
    forall k | 0 <= k < |sample| ensures rows[k + 1] == TruncateRow(sample[k]) { }
    forall k | 0 <= k < |rows|
      ensures |rows[k]| == |names| && forall i :: 0 <= i < |names| ==> IsByte(rows[k][i])
    {
      if k > 0 { RowBytes(sample[k - 1]); }
    }
    SaveAllWritesAll(seed, names, rows);
    var saved := SaveAll(seed, names, rows);
    forall k | 0 <= k < |sample|
      ensures Mutate(seed, names, TruncateRow(sample[k]), |names|) == Some(saved[k + 1])
    {
      assert Mutate(seed, names, rows[k + 1], |names|) == Some(saved[k + 1]);
    }
  }

  lemma RowBytes(x: Vec)
    requires AllBytes(x)
    ensures forall i :: 0 <= i < |x| ==> IsByte(TruncateRow(x)[i])
  {
  }

  // ----- end to end

  /** Variables that range over the bytes up to a maximum. */
  predicate ByteBounds(maxs: seq<int>, mins: seq<int>) {
    |maxs| == |mins| && forall i :: 0 <= i < |maxs| ==> mins[i] == 0 && 0 < maxs[i] <= 255
  }

  /** Distinct variables of bytes of the seed, a model of bytes, and bounds as the optimiser gives them for variables
      that nothing constrains. */
  ghost predicate RegularTarget(seed: Bytes, names: seq<string>, model: seq<int>, maxs: seq<int>, mins: seq<int>) {
    && names != [] && |names| == |model| == |maxs|
    && InRange(seed, names) && DistinctOffsets(names)
    && (forall i :: 0 <= i < |model| ==> IsByte(model[i])) && ByteBounds(maxs, mins)
  }

  /** The seed with the chosen values at the named offsets, and nothing else changed. */
  predicate IsMutant(seed: Bytes, names: seq<string>, values: seq<int>, m: Bytes) {
    && |m| == |seed| && |names| == |values|
    && (forall i :: 0 <= i < |names| && MatchName(names[i]).Some? ==>
          MatchName(names[i]).value < |m| && m[MatchName(names[i]).value] == values[i])
    && (forall k :: 0 <= k < |seed| && !Named(names, k, |names|) ==> m[k] == seed[k])
  }

  /** The file is a mutant whose values are within the bounds. */
  ghost predicate IsSampled(seed: Bytes, names: seq<string>, maxs: seq<int>, m: Bytes) {
    exists values: seq<int> :: |values| == |names| == |maxs| && IsMutant(seed, names, values, m) &&
      forall i :: 0 <= i < |values| ==> 0 <= values[i] <= maxs[i]
  }

  /** 1001 files with consecutive numbers: a mutant for the model, and one for each sample. */
  ghost predicate IsHarvest(seed: Bytes, names: seq<string>, model: seq<int>, maxs: seq<int>, first: nat,
                            files: map<nat, Bytes>)
  {
    && |files| == 1001 && (forall k: nat :: k in files <==> first <= k < first + 1001)
    && IsMutant(seed, names, model, files[first])
    && forall k: nat :: first < k < first + 1001 ==> IsSampled(seed, names, maxs, files[k])
  }

  lemma {:induction false} MutateMakesMutant(seed: Bytes, names: seq<string>, values: seq<int>, m: Bytes)
    requires |names| == |values| && DistinctOffsets(names) && Mutate(seed, names, values, |names|) == Some(m)
    ensures IsMutant(seed, names, values, m)
  {
    MutantMeaning(seed, names, values, |names|);
  }

  lemma {:induction false} SampleMakesMutant(
      seed: Bytes, names: seq<string>, maxs: seq<int>, mins: seq<int>, x: Vec, m: Bytes)
    requires |names| == |maxs| == |x| && ByteBounds(maxs, mins) && DistinctOffsets(names)
    requires Box.InBox(Reals(maxs), Reals(mins), x) && Mutate(seed, names, TruncateRow(x), |names|) == Some(m)
    ensures IsSampled(seed, names, maxs, m)
  {
    var values := TruncateRow(x);
    MutateMakesMutant(seed, names, values, m);
    forall i | 0 <= i < |values| ensures 0 <= values[i] <= maxs[i] { TruncateInBox(maxs, mins, x, i); }
  }

  /** A regular target leaves 1001 mutants, whatever the samples of the box are. */
  lemma {:induction false} Harvest(
      seed: Bytes, names: seq<string>, model: seq<int>, maxs: seq<int>, mins: seq<int>, rows: Matrix, first: nat)
    requires RegularTarget(seed, names, model, maxs, mins) && RowsFit(Some(rows), |names|)
    requires |rows| == 1000 && forall k :: 0 <= k < 1000 ==> IsSample(maxs, mins, rows[k])
    ensures |SaveAll(seed, names, AllRows(model, Some(rows)))| == 1001
    ensures IsHarvest(seed, names, model, maxs, first, Files(first, SaveAll(seed, names, AllRows(model, Some(rows)))))
  {
    forall k | 0 <= k < 1000 ensures |rows[k]| == |names| && AllBytes(rows[k]) { RowIsBytes(maxs, mins, rows[k]); }
    AllMutantsWritten(seed, names, model, maxs, mins, rows);
    var saved := SaveAll(seed, names, AllRows(model, Some(rows)));
    MutateMakesMutant(seed, names, model, saved[0]);
    forall k | 1 <= k < 1001 ensures IsSampled(seed, names, maxs, saved[k]) {
      var i := k - 1;
      assert saved[i + 1] == saved[k];
      SampleMakesMutant(seed, names, maxs, mins, rows[i], saved[k]);
    }
    HarvestFiles(seed, names, model, maxs, first, saved);
  }

  ghost predicate AllSamples(maxs: seq<int>, mins: seq<int>, sample: Option<Matrix>) {
    sample.Some? && |sample.value| == 1000 && forall k :: 0 <= k < 1000 ==> IsSample(maxs, mins, sample.value[k])
  }

  lemma {:induction false} RegularSamples(
      maxs: seq<int>, mins: seq<int>, lp: LpResult, sampler: Sampler, sample: Option<Matrix>)
    requires |maxs| == |mins| && SamplerFits(sampler, |maxs|) && (lp.Solved? ==> |lp.y| == |maxs| + 1)
    requires SampleOk(maxs, mins, lp, sampler, sample)
    ensures ByteBounds(maxs, mins) && RegularWalk(maxs, mins, lp, sampler) ==> AllSamples(maxs, mins, sample)
  {
    if ByteBounds(maxs, mins) && RegularWalk(maxs, mins, lp, sampler) {
      assert Box.PositiveWidths(Reals(maxs), Reals(mins));
      SamplesWithinBounds(maxs, mins, lp, sampler, sample);
    }
  }

  lemma {:induction false} HarvestIfRegular(seed: Bytes, names: seq<string>, model: seq<int>, maxs: seq<int>,
      mins: seq<int>, sample: Option<Matrix>, first: nat)
    requires |names| == |model| && RowsFit(sample, |names|)
    ensures RegularTarget(seed, names, model, maxs, mins) && AllSamples(maxs, mins, sample) ==>
      var saved := SaveAll(seed, names, AllRows(model, sample));
      |saved| == 1001 && IsHarvest(seed, names, model, maxs, first, Files(first, saved))
  {
    if RegularTarget(seed, names, model, maxs, mins) && AllSamples(maxs, mins, sample) {
      Harvest(seed, names, model, maxs, mins, sample.value, first);
    }
  }

  lemma {:induction false} HarvestFiles(
      seed: Bytes, names: seq<string>, model: seq<int>, maxs: seq<int>, first: nat, saved: seq<Bytes>)
    requires |saved| == 1001 && IsMutant(seed, names, model, saved[0])
    requires forall k :: 1 <= k < 1001 ==> IsSampled(seed, names, maxs, saved[k])
    ensures IsHarvest(seed, names, model, maxs, first, Files(first, saved))
  {
    var files := Files(first, saved);
    FilesAre(first, saved);
    assert files[first + 0] == saved[0];
    forall k: nat | first < k < first + 1001 ensures IsSampled(seed, names, maxs, files[k]) {
      var i: nat := k - first;
      assert files[first + i] == saved[i];
    }
  }

  // ----- which points of the walk are sampled

  lemma SampleOfWalk(maxs: seq<int>, mins: seq<int>, lp: LpResult, sampler: Sampler, sample: Option<Matrix>)
    requires |maxs| == |mins| && (lp.Solved? ==> |lp.y| == |maxs| + 1) && SamplerFits(sampler, |maxs|)
    requires sampler.OwnWalk? && SampleOk(maxs, mins, lp, sampler, sample)
    ensures Chain.IsSample(Box.Rows(|maxs|), Box.Rhs(Reals(maxs), Reals(mins)), |maxs|, lp,
                           Chain.HitAndRunWalk(sampler.tape), 1000, 1000, 10, sample)
  {
  }

  /** The k-th of the 1000 rows is the walk's point after 1001 + 10 k iterations. */
  lemma {:induction false} RowsOfWalk(maxs: seq<int>, mins: seq<int>, lp: LpResult, sampler: Sampler, rows: Matrix, k: nat)
    requires |maxs| == |mins| && lp.Solved? && |lp.y| == |maxs| + 1
    requires sampler.OwnWalk? && SamplerFits(sampler, |maxs|) && SampleOk(maxs, mins, lp, sampler, Some(rows)) && k < 1000
    ensures |rows| == 1000
    ensures Chain.State(Box.Rows(|maxs|), Box.Rhs(Reals(maxs), Reals(mins)), lp.y[..|maxs|],
                        Chain.HitAndRunWalk(sampler.tape), 1001 + 10 * k) == Some(rows[k])
  {
    SampleOfWalk(maxs, mins, lp, sampler, Some(rows));
    Chain.SampledRow(Box.Rows(|maxs|), Box.Rhs(Reals(maxs), Reals(mins)), |maxs|, lp, Chain.HitAndRunWalk(sampler.tape),
                     1000, 1000, 10, rows, k, 1001 + 10 * k);
  }

  /** The rows are written in their order, up to the first that raises. */
  lemma {:induction false} SaveAllIs(seed: Bytes, names: seq<string>, rows: seq<seq<int>>)
    requires forall k :: 0 <= k < |rows| ==> |rows[k]| == |names|
    ensures var saved := SaveAll(seed, names, rows);
      && |saved| <= |rows|
      && (forall k :: 0 <= k < |saved| ==> Mutate(seed, names, rows[k], |names|) == Some(saved[k]))
      && (|saved| < |rows| ==> Mutate(seed, names, rows[|saved|], |names|) == None)
  {
    if rows != [] && Mutate(seed, names, rows[0], |names|).Some? {
      SaveAllIs(seed, names, rows[1..]);
      forall k | 0 < k < |rows| ensures rows[k] == rows[1..][k - 1] { }
    }
  }
}
