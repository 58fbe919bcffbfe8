/** Iterations one after the other: what each of them keeps or adds, all of them together keep or add. */
module Chains {

  /** The i-th input takes the i-th situation to the next one, in the way the i-th pass tells; only the last pass may
      have failed. */
  datatype Chain<S, P> = Chain(situations: seq<S>, passes: seq<P>)

  ghost predicate LinkAt<W, S, P>(
    link: (W, S, P, S) -> bool, ok: P -> bool, inputs: seq<W>, c: Chain<S, P>, i: int)
  {
    0 <= i < |c.passes| <= |inputs| && |c.situations| == |c.passes| + 1 ==>
      && link(inputs[i], c.situations[i], c.passes[i], c.situations[i + 1])
      && (i + 1 < |c.passes| ==> ok(c.passes[i]))
  }

  ghost predicate IsChain<W, S, P>(link: (W, S, P, S) -> bool, ok: P -> bool, inputs: seq<W>, c: Chain<S, P>) {
    |c.situations| == |c.passes| + 1 && |c.passes| <= |inputs| && forall i :: LinkAt(link, ok, inputs, c, i)
  }

  function First<S, P>(c: Chain<S, P>): S
    requires c.situations != []
  {
    c.situations[0]
  }

  function Last<S, P>(c: Chain<S, P>): S
    requires c.situations != []
  {
    c.situations[|c.situations| - 1]
  }

  /** No pass failed so far. */
  ghost predicate Unbroken<S, P>(ok: P -> bool, c: Chain<S, P>) {
    c.passes != [] ==> ok(c.passes[|c.passes| - 1])
  }

  function Extend<S, P>(c: Chain<S, P>, p: P, t: S): Chain<S, P> {
    Chain(c.situations + [t], c.passes + [p])
  }

  lemma {:induction false} ExtendChain<W, S, P>(
      link: (W, S, P, S) -> bool, ok: P -> bool, inputs: seq<W>, c: Chain<S, P>, p: P, t: S)
    requires IsChain(link, ok, inputs, c) && Unbroken(ok, c) && |c.passes| < |inputs|
    requires link(inputs[|c.passes|], Last(c), p, t)
    ensures IsChain(link, ok, inputs, Extend(c, p, t))
    ensures First(Extend(c, p, t)) == First(c) && Last(Extend(c, p, t)) == t
  {
    var c' := Extend(c, p, t);
    forall i ensures LinkAt(link, ok, inputs, c', i) { assert LinkAt(link, ok, inputs, c, i); }
  }

  function Init<S, P>(c: Chain<S, P>): Chain<S, P>
    requires c.passes != [] && c.situations != []
  {
    Chain(c.situations[..|c.situations| - 1], c.passes[..|c.passes| - 1])
  }

  lemma {:induction false} InitChain<W, S, P>(
      link: (W, S, P, S) -> bool, ok: P -> bool, inputs: seq<W>, c: Chain<S, P>)
    requires IsChain(link, ok, inputs, c) && c.passes != []
    ensures IsChain(link, ok, inputs, Init(c)) && First(Init(c)) == First(c)
    ensures link(inputs[|c.passes| - 1], Last(Init(c)), c.passes[|c.passes| - 1], Last(c))
  {
    assert LinkAt(link, ok, inputs, c, |c.passes| - 1);
    var c' := Init(c);
    forall i ensures LinkAt(link, ok, inputs, c', i) { assert LinkAt(link, ok, inputs, c, i); }
  }

  /** The chain from the i-th situation on. */
  function Onward<S, P>(c: Chain<S, P>, i: nat): Chain<S, P>
    requires i <= |c.passes| && |c.situations| == |c.passes| + 1
  {
    Chain(c.situations[i..], c.passes[i..])
  }

  lemma {:induction false} OnwardChain<W, S, P>(
      link: (W, S, P, S) -> bool, ok: P -> bool, inputs: seq<W>, c: Chain<S, P>, i: nat)
    requires IsChain(link, ok, inputs, c) && i <= |c.passes|
    ensures IsChain(link, ok, inputs[i..], Onward(c, i))
    ensures First(Onward(c, i)) == c.situations[i] && Last(Onward(c, i)) == Last(c)
  {
    var d := Onward(c, i);
    forall k ensures LinkAt(link, ok, inputs[i..], d, k) { assert LinkAt(link, ok, inputs, c, k + i); }
  }

  /** How many passes did some work. */
  ghost function WorkDone<W, S, P>(works: (W, P) -> bool, inputs: seq<W>, c: Chain<S, P>): nat
    requires |c.passes| <= |inputs| && |c.situations| == |c.passes| + 1
    decreases |c.passes|
  {
    if c.passes == [] then 0
    else
      var n := |c.passes| - 1;
      WorkDone(works, inputs, Init(c)) + if works(inputs[n], c.passes[n]) then 1 else 0
  }

  /** If work increases a measure, as long as an invariant holds, then there is no more work than increase. */
  lemma {:induction false} ChainMeasures<W, S(!new), P(!new)>(
      link: (W, S, P, S) -> bool, ok: P -> bool, inputs: seq<W>, c: Chain<S, P>,
      inv: S -> bool, works: (W, P) -> bool, measure: S -> int)
    requires IsChain(link, ok, inputs, c) && inv(First(c))
    requires forall i, s, p, t :: 0 <= i < |inputs| && link(inputs[i], s, p, t) && inv(s) ==>
      inv(t) && measure(s) <= measure(t) && (works(inputs[i], p) ==> measure(s) < measure(t))
    ensures inv(Last(c))
    ensures WorkDone(works, inputs, c) + measure(First(c)) <= measure(Last(c))
    decreases |c.passes|
  {
    if c.passes != [] {
      InitChain(link, ok, inputs, c);
      ChainMeasures(link, ok, inputs, Init(c), inv, works, measure);
    }
  }

  /** What the passes add, one after the other. */
  ghost function Sum<W, S, P, E>(adds: (W, P) -> seq<E>, inputs: seq<W>, c: Chain<S, P>): seq<E>
    requires |c.passes| <= |inputs| && |c.situations| == |c.passes| + 1
    decreases |c.passes|
  {
    if c.passes == [] then []
    else
      var n := |c.passes| - 1;
      Sum(adds, inputs, Init(c)) + adds(inputs[n], c.passes[n])
  }

  lemma {:induction false} SumHas<W, S, P, E>(
      adds: (W, P) -> seq<E>, inputs: seq<W>, c: Chain<S, P>, i: nat, e: E)
    requires i < |c.passes| <= |inputs| && |c.situations| == |c.passes| + 1
    requires e in adds(inputs[i], c.passes[i])
    ensures e in Sum(adds, inputs, c)
    decreases |c.passes|
  {
    if i < |c.passes| - 1 { SumHas(adds, inputs, Init(c), i, e); }
  }

  lemma {:induction false} ChainAdds<W, S(!new), P(!new), E>(
      link: (W, S, P, S) -> bool, ok: P -> bool, inputs: seq<W>, c: Chain<S, P>,
      log: S -> seq<E>, adds: (W, P) -> seq<E>)
    requires IsChain(link, ok, inputs, c)
    requires forall i, s, p, t :: 0 <= i < |inputs| && link(inputs[i], s, p, t) ==> log(t) == log(s) + adds(inputs[i], p)
    ensures log(Last(c)) == log(First(c)) + Sum(adds, inputs, c)
    decreases |c.passes|
  {
    if c.passes != [] {
      InitChain(link, ok, inputs, c);
      ChainAdds(link, ok, inputs, Init(c), log, adds);
      assert log(Last(c)) == log(Last(Init(c))) + adds(inputs[|c.passes| - 1], c.passes[|c.passes| - 1]);
    }
  }

  /** What the first n inputs bring. */
  function Union<W, E>(brings: W -> set<E>, inputs: seq<W>, n: nat): set<E>
    requires n <= |inputs|
  {
    if n == 0 then {} else Union(brings, inputs, n - 1) + brings(inputs[n - 1])
  }

  lemma {:induction false} ChainCollects<W, S(!new), P(!new), E>(
      link: (W, S, P, S) -> bool, ok: P -> bool, inputs: seq<W>, c: Chain<S, P>,
      known: S -> set<E>, brings: W -> set<E>)
    requires IsChain(link, ok, inputs, c)
    requires forall i, s, p, t :: 0 <= i < |inputs| && link(inputs[i], s, p, t) ==> known(t) == known(s) + brings(inputs[i])
    ensures known(Last(c)) == known(First(c)) + Union(brings, inputs, |c.passes|)
    decreases |c.passes|
  {
    if c.passes != [] {
      InitChain(link, ok, inputs, c);
      ChainCollects(link, ok, inputs, Init(c), known, brings);
      assert known(Last(c)) == known(Last(Init(c))) + brings(inputs[|c.passes| - 1]);
    }
  }
}
