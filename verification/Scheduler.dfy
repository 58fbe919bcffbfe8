/** The scheduling state of src/fuzz/depot.py as a state machine, and what every run of it keeps. Seeds are
    identified with their names, which are unique within the AFL queue directory. */
module Scheduler {
  import opened Options
  import opened Condition

  type Addr = nat
  type Seed = string
  type Tree = map<Addr, Node>

  const CRACK_UPPER_LIMIT: nat := 8

  /** `budget` is the defaultdict cracked_addr: an absent address counts 0. */
  datatype State = State(
    tree: Tree, solved: set<Seed>, cracked: set<(Addr, Seed)>, budget: map<Addr, nat>, initPhase: bool)

  function Count(counters: map<Addr, nat>, a: Addr): nat {
    if a in counters then counters[a] else 0
  }

  function Budget(s: State, a: Addr): nat { Count(s.budget, a) }

  /** The address passes the filter of __init_edges or __edge_predict. */
  predicate IsCandidate(s: State, a: Addr) {
    a in s.tree && !Covered(s.tree[a]) && (s.initPhase || Budget(s, a) < CRACK_UPPER_LIMIT)
  }

  /** The seeds that reach the address and have not been scheduled for it. */
  function Available(s: State, a: Addr): set<Seed>
    requires a in s.tree
  {
    set n | n in s.tree[a].belongs && (a, n) !in s.cracked
  }

  predicate NoDuplicates<T(==)>(xs: seq<T>) {
    forall i, j :: 0 <= i < j < |xs| ==> xs[i] != xs[j]
  }

  function Min(i: nat, j: nat): nat { if i <= j then i else j }
  function AtLeastOne(i: nat): nat { if i == 0 then 1 else i }

  /** What __seed_selection promises: as many available seeds as allowed, solved ones only after all others. */
  predicate SelectionOk(s: State, a: Addr, seeds: seq<Seed>, seedMax: nat)
    requires a in s.tree
  {
    && NoDuplicates(seeds)
    && (forall n :: n in seeds ==> n in Available(s, a))
    && |seeds| == Min(seedMax, |Available(s, a)|)
    && ((exists n :: n in seeds && n in s.solved) ==> forall n :: n in Available(s, a) - s.solved ==> n in seeds)
  }

  datatype Pick = Pick(addr: Addr, seeds: seq<Seed>)

  /** The address-seed pairs of a schedule. */
  function Pairs(picks: seq<Pick>): set<(Addr, Seed)> {
    set i, n | 0 <= i < |picks| && n in picks[i].seeds :: (picks[i].addr, n)
  }

  /** How many seeds the schedule adds for an address. */
  function Added(picks: seq<Pick>, a: Addr): nat {
    if picks == [] then 0
    else Added(picks[..|picks| - 1], a) +
         (if picks[|picks| - 1].addr == a then |picks[|picks| - 1].seeds| else 0)
  }

  /** `order` lists the candidates: shuffled in the init phase, ranked by the model afterwards. */
  predicate IsOrder(s: State, order: seq<Addr>) {
    && NoDuplicates(order)
    && (forall a :: a in order ==> IsCandidate(s, a))
    && (forall a :: a in s.tree && IsCandidate(s, a) ==> a in order)
  }

  /** The selections follow the order. */
  predicate Follows(s: State, order: seq<Addr>, picks: seq<Pick>, seedMax: nat) {
    |picks| <= |order| && forall i :: 0 <= i < |picks| ==>
      order[i] in s.tree && picks[i].addr == order[i] && SelectionOk(s, order[i], picks[i].seeds, seedMax)
  }

  /** The schedule treats the first edgeMax addresses of the order, and at least one. */
  predicate PicksOk(s: State, order: seq<Addr>, picks: seq<Pick>, edgeMax: nat, seedMax: nat) {
    && IsOrder(s, order)
    && |picks| == Min(AtLeastOne(edgeMax), |order|)
    && Follows(s, order, picks, seedMax)
  }

  ghost predicate Scheduled(s: State, picks: seq<Pick>, s': State) {
    && s'.tree == s.tree && s'.solved == s.solved && s'.initPhase == s.initPhase
    && s'.cracked == s.cracked + Pairs(picks)
    && forall a :: Budget(s', a) == Budget(s, a) + Added(picks, a)
  }

  /** Tracing adds nodes, successors and seeds; a node's condition is fixed when it is created. */
  predicate TreeGrows(t: Tree, t': Tree) {
    forall a :: a in t ==>
      a in t' && t'[a].condition == t[a].condition
      && t[a].children <= t'[a].children && t[a].belongs <= t'[a].belongs
  }

  datatype Step =
    | Trace(tree: Tree)
    | Schedule(order: seq<Addr>, picks: seq<Pick>)
    | Solve(seed: Seed)
    | EndInit

  ghost predicate Next(s: State, step: Step, s': State, edgeMax: nat, seedMax: nat) {
    match step
    case Trace(tree) => TreeGrows(s.tree, tree) && s' == s.(tree := tree)
    case Schedule(order, picks) => PicksOk(s, order, picks, edgeMax, seedMax) && Scheduled(s, picks, s')
    case Solve(seed) => s' == s.(solved := s.solved + {seed})
    case EndInit => s' == s.(initPhase := false)
  }

  ghost predicate IsRun(states: seq<State>, steps: seq<Step>, edgeMax: nat, seedMax: nat) {
    && |states| == |steps| + 1
    && forall i :: 0 <= i < |steps| ==> Next(states[i], steps[i], states[i + 1], edgeMax, seedMax)
  }

  predicate Initial(s: State) {
    s == State(map[], {}, {}, map[], true)
  }

  // ----- accounting

  function Of(cracked: set<(Addr, Seed)>, a: Addr): set<(Addr, Seed)> {
    set p | p in cracked && p.0 == a
  }

  /** cracked_addr[a] is the number of names n with (a, n) in cracked_seed. */
  ghost predicate Accounted(s: State) {
    forall a :: Budget(s, a) == |Of(s.cracked, a)|
  }

  function Tagged(a: Addr, seeds: seq<Seed>): set<(Addr, Seed)> {
    set n | n in seeds :: (a, n)
  }

  lemma {:induction false} TaggedSize(a: Addr, seeds: seq<Seed>)
    requires NoDuplicates(seeds)
    ensures |Tagged(a, seeds)| == |seeds|
  {
    if seeds == [] {
      assert Tagged(a, seeds) == {};
    } else {
      var init, last := seeds[..|seeds| - 1], seeds[|seeds| - 1];
      TaggedSize(a, init);
      assert Tagged(a, seeds) == Tagged(a, init) + {(a, last)};
      assert (a, last) !in Tagged(a, init);
    }
  }

  /** Distinct addresses, and for each of them distinct seeds not scheduled before. */
  predicate AreNew(cracked: set<(Addr, Seed)>, picks: seq<Pick>) {
    && (forall i, j :: 0 <= i < j < |picks| ==> picks[i].addr != picks[j].addr)
    && (forall i :: 0 <= i < |picks| ==> NoDuplicates(picks[i].seeds))
    && (forall i, n :: 0 <= i < |picks| && n in picks[i].seeds ==> (picks[i].addr, n) !in cracked)
  }

  lemma PicksAreNew(s: State, order: seq<Addr>, picks: seq<Pick>, edgeMax: nat, seedMax: nat)
    requires PicksOk(s, order, picks, edgeMax, seedMax)
    ensures AreNew(s.cracked, picks)
  {
    forall i, n | 0 <= i < |picks| && n in picks[i].seeds ensures (picks[i].addr, n) !in s.cracked {
      assert n in Available(s, order[i]);
    }
  }

  /** Adding the pairs of one more address. */
  lemma OfGrows(cracked: set<(Addr, Seed)>, b: Addr, seeds: seq<Seed>, a: Addr)
    requires NoDuplicates(seeds) && Tagged(b, seeds) !! cracked
    ensures |Of(cracked + Tagged(b, seeds), a)| == |Of(cracked, a)| + if a == b then |seeds| else 0
  {
    TaggedSize(b, seeds);
    if a == b {
      assert Of(cracked + Tagged(b, seeds), a) == Of(cracked, a) + Tagged(b, seeds);
    } else {
      assert Of(cracked + Tagged(b, seeds), a) == Of(cracked, a);
    }
  }

  lemma InitIsNew(cracked: set<(Addr, Seed)>, picks: seq<Pick>)
    requires AreNew(cracked, picks) && picks != []
    ensures AreNew(cracked, picks[..|picks| - 1])
    ensures var last := picks[|picks| - 1];
      Tagged(last.addr, last.seeds) !! cracked + Pairs(picks[..|picks| - 1])
  {
    var last := picks[|picks| - 1];
    forall p | p in Tagged(last.addr, last.seeds) ensures p !in cracked && p !in Pairs(picks[..|picks| - 1]) {
      assert p.1 in last.seeds && p == (picks[|picks| - 1].addr, p.1);
    }
  }

  lemma {:induction false} AddedCounts(cracked: set<(Addr, Seed)>, picks: seq<Pick>, a: Addr)
    requires AreNew(cracked, picks)
    ensures |Of(cracked + Pairs(picks), a)| == |Of(cracked, a)| + Added(picks, a)
  {
    if picks == [] {
      assert cracked + Pairs(picks) == cracked;
    } else {
      var init, last := picks[..|picks| - 1], picks[|picks| - 1];
      InitIsNew(cracked, picks);
      AddedCounts(cracked, init, a);
      PairsSplit(picks);
      assert cracked + Pairs(picks) == (cracked + Pairs(init)) + Tagged(last.addr, last.seeds);
      OfGrows(cracked + Pairs(init), last.addr, last.seeds, a);
    }
  }

  lemma PairsSplit(picks: seq<Pick>)
    requires picks != []
    ensures Pairs(picks) == Pairs(picks[..|picks| - 1]) + Tagged(picks[|picks| - 1].addr, picks[|picks| - 1].seeds)
  {
    var init, last := picks[..|picks| - 1], picks[|picks| - 1];
    forall p | p in Pairs(picks) ensures p in Pairs(init) + Tagged(last.addr, last.seeds) {
      var i, n :| 0 <= i < |picks| && n in picks[i].seeds && p == (picks[i].addr, n);
      if i < |init| { assert n in init[i].seeds && p == (init[i].addr, n); }
    }
    forall p | p in Pairs(init) ensures p in Pairs(picks) {
      var i, n :| 0 <= i < |init| && n in init[i].seeds && p == (init[i].addr, n);
      assert n in picks[i].seeds && p == (picks[i].addr, n);
    }
    forall p | p in Tagged(last.addr, last.seeds) ensures p in Pairs(picks) {
      assert p.1 in picks[|picks| - 1].seeds;
    }
  }

  lemma NextKeepsAccount(s: State, step: Step, s': State, edgeMax: nat, seedMax: nat)
    requires Next(s, step, s', edgeMax, seedMax) && Accounted(s)
    ensures Accounted(s')
  {
    if step.Schedule? {
      PicksAreNew(s, step.order, step.picks, edgeMax, seedMax);
      forall a ensures Budget(s', a) == |Of(s'.cracked, a)| {
        AddedCounts(s.cracked, step.picks, a);
      }
    } else {
      forall a ensures Budget(s', a) == |Of(s'.cracked, a)| { assert Budget(s', a) == Budget(s, a); }
    }
  }

  /** In every reachable state the budget of an address is the number of seeds scheduled for it. */
  lemma {:induction false} RunKeepsAccount(states: seq<State>, steps: seq<Step>, edgeMax: nat, seedMax: nat)
    requires IsRun(states, steps, edgeMax, seedMax) && Initial(states[0])
    ensures Accounted(states[|steps|])
  {
    if steps == [] {
      assert forall a :: Of({}, a) == {};
    } else {
      var n := |steps| - 1;
      RunKeepsAccount(states[..|states| - 1], steps[..n], edgeMax, seedMax);
      NextKeepsAccount(states[n], steps[n], states[n + 1], edgeMax, seedMax);
    }
  }

  // ----- safety over runs

  lemma {:induction false} AddedIs(picks: seq<Pick>, a: Addr, seedMax: nat)
    requires forall i, j :: 0 <= i < j < |picks| ==> picks[i].addr != picks[j].addr
    requires forall i :: 0 <= i < |picks| ==> |picks[i].seeds| <= seedMax
    ensures Added(picks, a) <= seedMax
    ensures (forall i :: 0 <= i < |picks| ==> picks[i].addr != a) ==> Added(picks, a) == 0
  {
    if picks != [] {
      var init := picks[..|picks| - 1];
      AddedIs(init, a, seedMax);
      if picks[|picks| - 1].addr == a {
        assert forall i :: 0 <= i < |init| ==> init[i].addr != a;
      }
    }
  }

  function Max(i: nat, j: nat): nat { if i < j then j else i }

  /** After the init phase, a budget is at most what it was at the switch, or one scheduling above the limit. */
  lemma {:induction false} RunBoundsBudget(states: seq<State>, steps: seq<Step>, edgeMax: nat, seedMax: nat, a: Addr)
    requires IsRun(states, steps, edgeMax, seedMax) && !states[0].initPhase
    ensures !states[|steps|].initPhase
    ensures Budget(states[|steps|], a) <= Max(Budget(states[0], a), CRACK_UPPER_LIMIT - 1 + seedMax)
  {
    if steps != [] {
      var n := |steps| - 1;
      RunBoundsBudget(states[..|states| - 1], steps[..n], edgeMax, seedMax, a);
      var s, step := states[n], steps[n];
      if step.Schedule? {
        AddedIs(step.picks, a, seedMax);
        if Added(step.picks, a) > 0 {
          var i :| 0 <= i < |step.picks| && step.picks[i].addr == a;
          assert IsCandidate(s, step.order[i]);
        }
      } else {
        assert Budget(states[n + 1], a) == Budget(s, a);
      }
    }
  }

  lemma {:induction false} CrackedGrows(states: seq<State>, steps: seq<Step>, edgeMax: nat, seedMax: nat, i: nat, j: nat)
    requires IsRun(states, steps, edgeMax, seedMax) && i <= j < |states|
    ensures states[i].cracked <= states[j].cracked
    decreases j - i
  {
    if i < j {
      CrackedGrows(states, steps, edgeMax, seedMax, i, j - 1);
      assert Next(states[j - 1], steps[j - 1], states[j], edgeMax, seedMax);
    }
  }

  /** No pair is scheduled twice: two scheduling steps of a run have no pair in common, and one step schedules
      each of its pairs once. */
  lemma NoPairTwice(states: seq<State>, steps: seq<Step>, edgeMax: nat, seedMax: nat, i: nat, j: nat)
    requires IsRun(states, steps, edgeMax, seedMax) && i < j < |steps|
    requires steps[i].Schedule? && steps[j].Schedule?
    ensures Pairs(steps[i].picks) !! Pairs(steps[j].picks)
    ensures AreNew({}, steps[j].picks)
  {
    CrackedGrows(states, steps, edgeMax, seedMax, i + 1, j);
    assert Next(states[i], steps[i], states[i + 1], edgeMax, seedMax);
    assert Next(states[j], steps[j], states[j + 1], edgeMax, seedMax);
    PicksAreNew(states[j], steps[j].order, steps[j].picks, edgeMax, seedMax);
    forall p | p in Pairs(steps[j].picks) ensures p !in Pairs(steps[i].picks) {
      var k, n :| 0 <= k < |steps[j].picks| && n in steps[j].picks[k].seeds && p == (steps[j].picks[k].addr, n);
      assert p !in states[j].cracked;
    }
  }

  lemma SubsetSize<T>(a: set<T>, b: set<T>)
    requires a <= b
    ensures |a| <= |b|
  {
    assert b == a + (b - a);
  }

  lemma {:induction false} CoveredForGood(
      states: seq<State>, steps: seq<Step>, edgeMax: nat, seedMax: nat, a: Addr, i: nat, j: nat)
    requires IsRun(states, steps, edgeMax, seedMax) && i <= j < |states|
    requires a in states[i].tree && Covered(states[i].tree[a])
    ensures a in states[j].tree && Covered(states[j].tree[a])
    decreases j - i
  {
    if i < j {
      CoveredForGood(states, steps, edgeMax, seedMax, a, i, j - 1);
      assert Next(states[j - 1], steps[j - 1], states[j], edgeMax, seedMax);
      if steps[j - 1].Trace? {
        SubsetSize(states[j - 1].tree[a].children, states[j].tree[a].children);
      }
    }
  }

  /** Once an address is covered it is never scheduled again. */
  lemma CoveredNeverScheduled(
      states: seq<State>, steps: seq<Step>, edgeMax: nat, seedMax: nat, a: Addr, i: nat, j: nat, k: nat)
    requires IsRun(states, steps, edgeMax, seedMax) && i <= j < |steps|
    requires a in states[i].tree && Covered(states[i].tree[a])
    requires steps[j].Schedule? && k < |steps[j].picks|
    ensures steps[j].picks[k].addr != a
  {
    CoveredForGood(states, steps, edgeMax, seedMax, a, i, j);
    assert Next(states[j], steps[j], states[j + 1], edgeMax, seedMax);
    assert IsCandidate(states[j], steps[j].order[k]);
  }

  // ----- progress of the main loop, with a fixed and fully traced queue

  const RAND_SOLVE_NUM: nat := 10

  /** One iteration of HybridExecutor.run: the schedule, the seeds that __solve_random takes when nothing was
      scheduled, and whether update_model ends the init phase. */
  datatype Iteration = Iteration(order: seq<Addr>, picks: seq<Pick>, chosen: set<Seed>, endInit: bool)

  function SeedsOf(pairs: set<(Addr, Seed)>): set<Seed> {
    set p | p in pairs :: p.1
  }

  /** The iteration sleeps: it scheduled nothing and every seed of the queue is solved. */
  predicate Waits(s: State, it: Iteration, queue: set<Seed>) {
    Pairs(it.picks) == {} && queue - s.solved == {}
  }

  ghost predicate Iterates(s: State, it: Iteration, s': State, queue: set<Seed>, edgeMax: nat, seedMax: nat) {
    && PicksOk(s, it.order, it.picks, edgeMax, seedMax)
    && s'.tree == s.tree
    && s'.cracked == s.cracked + Pairs(it.picks)
    && (forall a :: Budget(s', a) == Budget(s, a) + Added(it.picks, a))
    && if Pairs(it.picks) == {} then
         && it.chosen <= queue - s.solved
         && |it.chosen| == Min(|queue - s.solved|, RAND_SOLVE_NUM)
         && s'.solved == s.solved + it.chosen
         && s'.initPhase == s.initPhase
       else
         && s'.solved == s.solved + SeedsOf(Pairs(it.picks))
         && s'.initPhase == (s.initPhase && !it.endInit)
  }

  /** The seeds that an iteration is to execute. */
  function ToDo(it: Iteration): set<Seed> {
    if Pairs(it.picks) == {} then it.chosen else SeedsOf(Pairs(it.picks))
  }

  /** The iteration was ended by an exception, when only some of the seeds were solved. */
  ghost predicate BreaksOff(
    s: State, it: Iteration, done: set<Seed>, s': State, queue: set<Seed>, edgeMax: nat, seedMax: nat)
  {
    && !it.endInit && done <= ToDo(it) && s'.solved == s.solved + done
    && Iterates(s, it, s'.(solved := s.solved + ToDo(it)), queue, edgeMax, seedMax)
  }

  function Uncracked(s: State): set<(Addr, Seed)> {
    set a, n | a in s.tree && n in s.tree[a].belongs && (a, n) !in s.cracked :: (a, n)
  }

  /** The address-seed pairs still to be scheduled, plus the seeds of the queue still to be solved. */
  function Remaining(s: State, queue: set<Seed>): nat {
    |Uncracked(s)| + |queue - s.solved|
  }

  lemma ProperSubsetSize<T>(a: set<T>, b: set<T>, x: T)
    requires a <= b && x in b && x !in a
    ensures |a| < |b|
  {
    SubsetSize(a, b - {x});
  }

  lemma PairsAreUncracked(s: State, order: seq<Addr>, picks: seq<Pick>, edgeMax: nat, seedMax: nat)
    requires PicksOk(s, order, picks, edgeMax, seedMax)
    ensures Pairs(picks) <= Uncracked(s)
  {
    forall p | p in Pairs(picks) ensures p in Uncracked(s) {
      var i, n :| 0 <= i < |picks| && n in picks[i].seeds && p == (picks[i].addr, n);
      assert n in Available(s, order[i]);
    }
  }

  lemma UncrackedShrinks(s: State, s': State, pairs: set<(Addr, Seed)>)
    requires s'.tree == s.tree && s'.cracked == s.cracked + pairs && pairs <= Uncracked(s)
    ensures Uncracked(s') == Uncracked(s) - pairs && |Uncracked(s')| == |Uncracked(s)| - |pairs|
  {
    assert Uncracked(s') == Uncracked(s) - pairs;
  }

  lemma UnsolvedShrinks(queue: set<Seed>, solved: set<Seed>, more: set<Seed>)
    ensures |queue - (solved + more)| <= |queue - solved|
    ensures more != {} && more <= queue - solved ==> |queue - (solved + more)| < |queue - solved|
  {
    SubsetSize(queue - (solved + more), queue - solved);
    if c :| c in more && more <= queue - solved { ProperSubsetSize(queue - (solved + more), queue - solved, c); }
  }

  /** Every iteration that does not wait leaves strictly less to do; one that waits changes nothing. */
  lemma {:induction false} IterationProgress(
      s: State, it: Iteration, s': State, queue: set<Seed>, edgeMax: nat, seedMax: nat)
    requires Iterates(s, it, s', queue, edgeMax, seedMax)
    ensures !Waits(s, it, queue) ==> Remaining(s', queue) < Remaining(s, queue)
    ensures Waits(s, it, queue) ==> s'.(budget := s.budget) == s && Remaining(s', queue) == Remaining(s, queue)
  {
    var pairs := Pairs(it.picks);
    PairsAreUncracked(s, it.order, it.picks, edgeMax, seedMax);
    UncrackedShrinks(s, s', pairs);
    UnsolvedShrinks(queue, s.solved, if pairs == {} then it.chosen else SeedsOf(pairs));
    if pairs == {} && queue - s.solved == {} {
      assert it.chosen == {};
    }
  }

  /** How much was ever scheduled and solved. */
  function Done(s: State): nat {
    |s.cracked| + |s.solved|
  }

  lemma UnionSize<T>(a: set<T>, b: set<T>)
    ensures |a| <= |a + b| && (b !! a && b != {} ==> |a| < |a + b|)
  {
    SubsetSize(a, a + b);
    if x :| x in b && b !! a { ProperSubsetSize(a, a + b, x); }
  }

  /** Whatever the queue holds, an iteration that does not wait schedules or solves something new. */
  lemma {:induction false} IterationWorks(
      s: State, it: Iteration, s': State, queue: set<Seed>, edgeMax: nat, seedMax: nat)
    requires Iterates(s, it, s', queue, edgeMax, seedMax)
    ensures Done(s) <= Done(s') && (!Waits(s, it, queue) ==> Done(s) < Done(s'))
  {
    var pairs := Pairs(it.picks);
    PairsAreUncracked(s, it.order, it.picks, edgeMax, seedMax);
    UnionSize(s.cracked, pairs);
    UnionSize(s.solved, if pairs == {} then it.chosen else SeedsOf(pairs));
    if pairs == {} && queue - s.solved != {} {
      assert |queue - s.solved| > 0 && it.chosen != {};
    }
  }

  lemma {:induction false} BreakWorks(
      s: State, it: Iteration, done: set<Seed>, s': State, queue: set<Seed>, edgeMax: nat, seedMax: nat)
    requires BreaksOff(s, it, done, s', queue, edgeMax, seedMax)
    ensures Done(s) <= Done(s') && Remaining(s', queue) <= Remaining(s, queue)
  {
    PairsAreUncracked(s, it.order, it.picks, edgeMax, seedMax);
    UnionSize(s.cracked, Pairs(it.picks));
    UnionSize(s.solved, done);
    UncrackedShrinks(s, s', Pairs(it.picks));
    UnsolvedShrinks(queue, s.solved, done);
  }

  ghost predicate IsLoop(
    states: seq<State>, its: seq<Iteration>, queue: set<Seed>, edgeMax: nat, seedMax: nat)
  {
    && |states| == |its| + 1
    && forall i :: 0 <= i < |its| ==> Iterates(states[i], its[i], states[i + 1], queue, edgeMax, seedMax)
  }

  function Working(states: seq<State>, its: seq<Iteration>, queue: set<Seed>): nat
    requires |states| == |its| + 1
  {
    if its == [] then 0
    else Working(states[1..], its[1..], queue) + if Waits(states[0], its[0], queue) then 0 else 1
  }

  /** The main loop does at most as many non-waiting iterations as there are pairs and seeds at its start. */
  lemma {:induction false} LoopProgress(
      states: seq<State>, its: seq<Iteration>, queue: set<Seed>, edgeMax: nat, seedMax: nat)
    requires IsLoop(states, its, queue, edgeMax, seedMax)
    ensures Working(states, its, queue) + Remaining(states[|its|], queue) <= Remaining(states[0], queue)
  {
    if its != [] {
      assert Iterates(states[0], its[0], states[1], queue, edgeMax, seedMax);
      IterationProgress(states[0], its[0], states[1], queue, edgeMax, seedMax);
      LoopProgress(states[1..], its[1..], queue, edgeMax, seedMax);
    }
  }

  // ----- what the cut after edgeMax addresses costs

  /** Nothing is scheduled exactly when the addresses before the cut have no seed left. Whether addresses behind
      the cut have seeds left plays no role: an address counts towards the cut even if it adds nothing. */
  lemma EmptyScheduleIff(s: State, order: seq<Addr>, picks: seq<Pick>, edgeMax: nat, seedMax: nat)
    requires PicksOk(s, order, picks, edgeMax, seedMax) && seedMax > 0
    ensures Pairs(picks) == {} <==>
      forall i :: 0 <= i < Min(AtLeastOne(edgeMax), |order|) ==> Available(s, order[i]) == {}
  {
    forall i | 0 <= i < |picks| ensures picks[i].seeds == [] <==> Available(s, order[i]) == {} {
      if n :| n in Available(s, order[i]) { SubsetSize({n}, Available(s, order[i])); }
    }
    if i :| 0 <= i < |picks| && picks[i].seeds != [] {
      assert (picks[i].addr, picks[i].seeds[0]) in Pairs(picks);
    }
  }

  lemma NotBefore<T>(xs: seq<T>, i: nat)
    requires i < |xs| && NoDuplicates(xs)
    ensures xs[i] !in xs[..i]
  {
  }

  lemma {:induction false} SizeOfListing<T>(xs: seq<T>, s: set<T>)
    requires NoDuplicates(xs) && forall x :: x in xs <==> x in s
    ensures |xs| == |s|
  {
    if xs == [] {
      assert s == {};
    } else {
      var n := |xs| - 1;
      NotBefore(xs, n);
      assert forall x :: x in xs <==> x in xs[..n] || x == xs[n];
      SizeOfListing(xs[..n], s - {xs[n]});
    }
  }

  lemma ConcatNoDuplicates<T>(xs: seq<T>, ys: seq<T>)
    requires NoDuplicates(xs) && NoDuplicates(ys) && forall x :: x in xs ==> x !in ys
    ensures NoDuplicates(xs + ys)
  {
    var zs := xs + ys;
    forall i, j | 0 <= i < j < |zs| ensures zs[i] != zs[j] {
      if i < |xs| <= j { assert zs[i] in xs && zs[j] in ys; }
    }
  }

  lemma {:induction false} SomeListing<T>(s: set<T>) returns (xs: seq<T>)
    ensures NoDuplicates(xs) && |xs| == |s| && forall x :: x in xs <==> x in s
    decreases |s|
  {
    if x :| x in s {
      xs := SomeListing(s - {x});
      xs := xs + [x];
    } else {
      xs := [];
    }
  }

  function Candidates(s: State): set<Addr> {
    set a | a in s.tree && IsCandidate(s, a)
  }

  /** The candidates that have no seed left. */
  function Exhausted(s: State): set<Addr> {
    set a | a in Candidates(s) && Available(s, a) == {}
  }

  /** The order is one of the candidates, and its first n addresses have no seed left. */
  ghost predicate StartsExhausted(s: State, order: seq<Addr>, n: nat) {
    IsOrder(s, order) && n <= |order| && forall i :: 0 <= i < n ==> order[i] in Exhausted(s)
  }

  lemma {:induction false} OrderSize(s: State, order: seq<Addr>)
    requires IsOrder(s, order)
    ensures |order| == |Candidates(s)|
  {
    SizeOfListing(order, Candidates(s));
  }

  /** Enough exhausted candidates are needed for the beginning of an order ... */
  lemma {:induction false} ExhaustedFill(s: State, order: seq<Addr>, n: nat)
    requires StartsExhausted(s, order, n)
    ensures n <= |Exhausted(s)|
  {
    var prefix := order[..n];
    var those := set i | 0 <= i < n :: order[i];
    forall a ensures a in prefix <==> a in those {
      if a in those { var i :| 0 <= i < n && order[i] == a; assert prefix[i] == a; }
      if a in prefix { var i :| 0 <= i < n && prefix[i] == a; assert order[i] == a; }
    }
    SizeOfListing(prefix, those);
    SubsetSize(those, Exhausted(s));
  }

  /** ... and suffice. */
  lemma {:induction false} ExhaustedFirst(s: State) returns (order: seq<Addr>)
    ensures StartsExhausted(s, order, |Exhausted(s)|)
  {
    var front := SomeListing(Exhausted(s));
    var back := SomeListing(Candidates(s) - Exhausted(s));
    order := front + back;
    ConcatNoDuplicates(front, back);
    forall a ensures a in order <==> a in Candidates(s) { InConcat(front, back, a); }
    FrontOf(front, back);
  }

  lemma InConcat<T>(xs: seq<T>, ys: seq<T>, x: T)
    ensures x in xs + ys <==> x in xs || x in ys
  {
  }

  lemma FrontOf<T>(xs: seq<T>, ys: seq<T>)
    ensures forall i :: 0 <= i < |xs| ==> (xs + ys)[i] in xs
  {
  }

  /** Picks without seeds, for the first n addresses of an order. */
  function NoSeeds(order: seq<Addr>, n: nat): (picks: seq<Pick>)
    requires n <= |order|
    ensures |picks| == n
  {
    seq(n, i requires 0 <= i < n => Pick(order[i], []))
  }

  lemma {:induction false} NoSeedsOk(s: State, order: seq<Addr>, edgeMax: nat, seedMax: nat)
    requires StartsExhausted(s, order, Min(AtLeastOne(edgeMax), |order|))
    ensures var picks := NoSeeds(order, Min(AtLeastOne(edgeMax), |order|));
      PicksOk(s, order, picks, edgeMax, seedMax) && Pairs(picks) == {}
  {
    var picks := NoSeeds(order, Min(AtLeastOne(edgeMax), |order|));
    forall i | 0 <= i < |picks| ensures order[i] in s.tree && SelectionOk(s, order[i], picks[i].seeds, seedMax) {
      assert order[i] in Exhausted(s);
    }
  }

  ghost predicate SchedulesNothing(s: State, order: seq<Addr>, picks: seq<Pick>, edgeMax: nat, seedMax: nat) {
    PicksOk(s, order, picks, edgeMax, seedMax) && Pairs(picks) == {}
  }

  /** Whether the loop can be without a schedule, in terms of the state: some order of the candidates schedules nothing
      iff there are enough exhausted candidates to fill the places before the cut. */
  lemma {:induction false} CanScheduleNothingIff(s: State, edgeMax: nat, seedMax: nat)
    requires seedMax > 0
    ensures (exists order, picks :: SchedulesNothing(s, order, picks, edgeMax, seedMax)) <==>
      |Exhausted(s)| >= Min(AtLeastOne(edgeMax), |Candidates(s)|)
  {
    var cut := Min(AtLeastOne(edgeMax), |Candidates(s)|);
    if order, picks :| SchedulesNothing(s, order, picks, edgeMax, seedMax) {
      OrderSize(s, order);
      EmptyScheduleIff(s, order, picks, edgeMax, seedMax);
      forall i | 0 <= i < cut ensures order[i] in Exhausted(s) { assert order[i] in order; }
      ExhaustedFill(s, order, cut);
    }
    if |Exhausted(s)| >= cut {
      var order := ExhaustedFirst(s);
      OrderSize(s, order);
      NoSeedsOk(s, order, edgeMax, seedMax);
      assert SchedulesNothing(s, order, NoSeeds(order, cut), edgeMax, seedMax);
    }
  }

  // ----- an address that starves

  function Below(n: nat): (s: set<Addr>)
    ensures forall a: Addr :: a in s <==> a < n
  {
    if n == 0 then {} else Below(n - 1) + {n - 1}
  }

  /** A node as tracing leaves it: one successor was seen, by one seed. */
  const SEEN_ONCE: Node := Node(BrCond(true, 0, None), 1, {0}, {"seed"})

  function TreeBelow(n: nat): Tree {
    var all := Below(n);
    map a | a in all :: SEEN_ONCE
  }

  function OrderBelow(n: nat): (order: seq<Addr>)
    ensures |order| == n
  {
    seq(n, (i: nat) => i)
  }

  /** The seed is scheduled for each of the first n addresses. */
  function PicksBelow(n: nat): (picks: seq<Pick>)
    ensures |picks| == n && forall i :: 0 <= i < n ==> picks[i] == Pick(i, ["seed"])
  {
    if n == 0 then [] else PicksBelow(n - 1) + [Pick(n - 1, ["seed"])]
  }

  lemma {:induction false} AddedBelow(n: nat, a: Addr)
    ensures Added(PicksBelow(n), a) == if a < n then 1 else 0
  {
    if n > 0 {
      var picks, m := PicksBelow(n), n - 1;
      AddedBelow(m, a);
      assert picks[..|picks| - 1] == PicksBelow(m);
      assert picks[|picks| - 1] == Pick(m, ["seed"]);
      assert Added(picks, a) == Added(PicksBelow(m), a) + if m == a then 1 else 0;
    }
  }

  lemma {:induction false} PairsBelow(n: nat, p: (Addr, Seed))
    ensures p in Pairs(PicksBelow(n)) <==> p.0 < n && p.1 == "seed"
  {
    var picks := PicksBelow(n);
    if p.0 < n && p.1 == "seed" {
      assert p.1 in picks[p.0].seeds && p == (picks[p.0].addr, p.1);
    }
  }

  function Traced(n: nat): State {
    State(TreeBelow(n), {}, {}, map[], true)
  }

  function ScheduledBelow(n: nat, k: nat): State {
    Traced(n).(cracked := Pairs(PicksBelow(k)), budget := var used := Below(k); map a | a in used :: 1)
  }

  lemma {:induction false} OrderBelowOk(n: nat)
    ensures IsOrder(Traced(n), OrderBelow(n))
  {
    var s, order := Traced(n), OrderBelow(n);
    forall a: Addr ensures a in order <==> a in s.tree { if a < n { assert order[a] == a; } }
  }

  lemma {:induction false} PicksBelowFollow(n: nat, k: nat, seedMax: nat)
    requires seedMax > 0 && k <= n
    ensures Follows(Traced(n), OrderBelow(n), PicksBelow(k), seedMax)
  {
    var s, order, picks := Traced(n), OrderBelow(n), PicksBelow(k);
    forall i | 0 <= i < k
      ensures order[i] in s.tree && picks[i].addr == order[i] && SelectionOk(s, order[i], picks[i].seeds, seedMax)
    {
      assert Available(s, i) == {"seed"};
    }
  }

  lemma {:induction false} BelowScheduled(n: nat, k: nat)
    ensures Scheduled(Traced(n), PicksBelow(k), ScheduledBelow(n, k))
  {
    var s, s' := Traced(n), ScheduledBelow(n, k);
    forall a: Addr ensures Budget(s', a) == Budget(s, a) + Added(PicksBelow(k), a) { AddedBelow(k, a); }
    assert s.cracked + Pairs(PicksBelow(k)) == Pairs(PicksBelow(k));
  }

  lemma {:induction false} ScheduleBelow(n: nat, edgeMax: nat, seedMax: nat)
    requires seedMax > 0 && n == AtLeastOne(edgeMax) + 1
    ensures Next(Traced(n), Schedule(OrderBelow(n), PicksBelow(n - 1)), ScheduledBelow(n, n - 1), edgeMax, seedMax)
  {
    OrderBelowOk(n);
    PicksBelowFollow(n, n - 1, seedMax);
    BelowScheduled(n, n - 1);
  }

  /** What is left after the seed was scheduled for all addresses but one, and solved: the places before the cut can
      all go to exhausted addresses. */
  lemma {:induction false} LastStarves(n: nat, edgeMax: nat, seedMax: nat)
    requires seedMax > 0 && n == AtLeastOne(edgeMax) + 1
    ensures var s := ScheduledBelow(n, n - 1).(solved := {"seed"});
      && SchedulesNothing(s, OrderBelow(n), NoSeeds(OrderBelow(n), n - 1), edgeMax, seedMax)
      && IsCandidate(s, n - 1) && "seed" in Available(s, n - 1)
  {
    var s, order := ScheduledBelow(n, n - 1).(solved := {"seed"}), OrderBelow(n);
    forall a: Addr ensures a in order <==> a in s.tree { if a < n { assert order[a] == a; } }
    forall i | 0 <= i < n - 1 ensures order[i] in Exhausted(s) {
      PairsBelow(n - 1, (i, "seed"));
      assert Available(s, i) == {};
    }
    PairsBelow(n - 1, (n - 1, "seed"));
    NoSeedsOk(s, order, edgeMax, seedMax);
  }

  lemma {:induction false} RunOfFour(
      s0: State, a: Step, s1: State, b: Step, s2: State, c: Step, s3: State, edgeMax: nat, seedMax: nat)
    requires Next(s0, a, s1, edgeMax, seedMax) && Next(s1, b, s2, edgeMax, seedMax) && Next(s2, c, s3, edgeMax, seedMax)
    ensures IsRun([s0, s1, s2, s3], [a, b, c], edgeMax, seedMax)
  {
    var states, steps := [s0, s1, s2, s3], [a, b, c];
    forall i | 0 <= i < 3 ensures Next(states[i], steps[i], states[i + 1], edgeMax, seedMax) {
      if i == 0 { } else if i == 1 { } else { assert i == 2; }
    }
  }

  /** So an address can starve. For every cut there is a run from the start, over nodes as tracing leaves them, after
      which some candidate has an unscheduled seed and yet, in some order, nothing is scheduled; as every seed is
      solved, the loop then waits. */
  lemma {:induction false} StarvationPossible(edgeMax: nat, seedMax: nat)
      returns (states: seq<State>, steps: seq<Step>, order: seq<Addr>, picks: seq<Pick>, starved: Addr)
    requires seedMax > 0
    ensures IsRun(states, steps, edgeMax, seedMax) && Initial(states[0])
    ensures var s := states[|steps|];
      && Accounted(s) && (forall a :: a in s.tree ==> s.tree[a].children != {} && s.tree[a].belongs == {"seed"})
      && SchedulesNothing(s, order, picks, edgeMax, seedMax)
      && IsCandidate(s, starved) && Available(s, starved) != {}
      && Waits(s, Iteration(order, picks, {}, false), {"seed"})
  {
    var n := AtLeastOne(edgeMax) + 1;
    var start, traced, scheduled := State(map[], {}, {}, map[], true), Traced(n), ScheduledBelow(n, n - 1);
    var solved := scheduled.(solved := {"seed"});
    order, picks, starved := OrderBelow(n), NoSeeds(OrderBelow(n), n - 1), n - 1;
    var a, b, c := Trace(traced.tree), Schedule(OrderBelow(n), PicksBelow(n - 1)), Solve("seed");
    ScheduleBelow(n, edgeMax, seedMax);
    assert scheduled.solved + {"seed"} == {"seed"};
    RunOfFour(start, a, traced, b, scheduled, c, solved, edgeMax, seedMax);
    states, steps := [start, traced, scheduled, solved], [a, b, c];
    RunKeepsAccount(states, steps, edgeMax, seedMax);
    LastStarves(n, edgeMax, seedMax);
  }

  /** And a waiting iteration can repeat for ever: as long as the order stays, so does the empty schedule. */
  lemma WaitingRepeats(s: State, it: Iteration, s': State, queue: set<Seed>, edgeMax: nat, seedMax: nat)
    requires Iterates(s, it, s', queue, edgeMax, seedMax) && Waits(s, it, queue)
    ensures Iterates(s', it, s', queue, edgeMax, seedMax) && Waits(s', it, queue)
  {
    assert it.chosen == {};
    forall a ensures Added(it.picks, a) == 0 { EmptyAdds(it.picks, a); }
    forall a ensures IsCandidate(s', a) <==> IsCandidate(s, a) { }
    forall i | 0 <= i < |it.picks| ensures Available(s', it.order[i]) == Available(s, it.order[i]) { }
  }

  lemma {:induction false} EmptyAdds(picks: seq<Pick>, a: Addr)
    requires Pairs(picks) == {}
    ensures Added(picks, a) == 0
  {
    if picks != [] {
      PairsSplit(picks);
      EmptyAdds(picks[..|picks| - 1], a);
      TaggedNonempty(picks[|picks| - 1].addr, picks[|picks| - 1].seeds);
    }
  }

  lemma TaggedNonempty(a: Addr, seeds: seq<Seed>)
    ensures seeds != [] ==> Tagged(a, seeds) != {}
  {
    if seeds != [] { assert (a, seeds[0]) in Tagged(a, seeds); }
  }

  // ----- the main loop runs the state machine

  /** The steps of a run that schedule something. */
  function Schedules(steps: seq<Step>): (plans: seq<Step>)
    ensures |plans| <= |steps| && forall i :: 0 <= i < |plans| ==> plans[i].Schedule?
  {
    if steps == [] then []
    else
      var last := steps[|steps| - 1];
      Schedules(steps[..|steps| - 1]) + if last.Schedule? then [last] else []
  }

  lemma {:induction false} SchedulesOfBoth(steps: seq<Step>, more: seq<Step>)
    ensures Schedules(steps + more) == Schedules(steps) + Schedules(more)
  {
    if more == [] {
      assert steps + more == steps;
    } else {
      var init := more[..|more| - 1];
      assert (steps + more)[..|steps + more| - 1] == steps + init;
      SchedulesOfBoth(steps, init);
    }
  }

  /** Where the schedules are in the run: in the same order. */
  lemma {:induction false} ScheduleAt(steps: seq<Step>, i: nat) returns (m: nat)
    requires i < |Schedules(steps)|
    ensures m < |steps| && steps[m] == Schedules(steps)[i] && i == |Schedules(steps[..m])|
  {
    var init := steps[..|steps| - 1];
    if i < |Schedules(init)| {
      m := ScheduleAt(init, i);
      assert init[..m] == steps[..m];
    } else {
      m := |steps| - 1;
    }
  }

  lemma {:induction false} EarlierScheduleAt(steps: seq<Step>, i: nat, j: nat) returns (m: nat, n: nat)
    requires i < j < |Schedules(steps)|
    ensures m < n < |steps| && steps[m] == Schedules(steps)[i] && steps[n] == Schedules(steps)[j]
  {
    n := ScheduleAt(steps, j);
    assert steps == steps[..n] + steps[n..];
    SchedulesOfBoth(steps[..n], steps[n..]);
    m := ScheduleAt(steps[..n], i);
  }

  /** Steps that solve the seeds, in any order. */
  lemma {:induction false} SolveAll(s: State, seeds: set<Seed>, edgeMax: nat, seedMax: nat)
      returns (states: seq<State>, steps: seq<Step>)
    ensures IsRun(states, steps, edgeMax, seedMax) && Schedules(steps) == []
    ensures states[0] == s && states[|steps|] == s.(solved := s.solved + seeds)
    decreases |seeds|
  {
    if n :| n in seeds {
      var s' := s.(solved := s.solved + {n});
      states, steps := SolveAll(s', seeds - {n}, edgeMax, seedMax);
      assert s'.solved + (seeds - {n}) == s.solved + seeds;
      SchedulesOfOne(Solve(n));
      states, steps := JoinRuns([s, s'], [Solve(n)], states, steps, edgeMax, seedMax);
    } else {
      states, steps := [s], [];
      assert s.solved + seeds == s.solved;
    }
  }

  lemma JoinRuns(states: seq<State>, steps: seq<Step>, states': seq<State>, steps': seq<Step>,
                 edgeMax: nat, seedMax: nat)
      returns (all: seq<State>, allSteps: seq<Step>)
    requires IsRun(states, steps, edgeMax, seedMax) && IsRun(states', steps', edgeMax, seedMax)
    requires states[|steps|] == states'[0]
    ensures IsRun(all, allSteps, edgeMax, seedMax)
    ensures all[0] == states[0] && all[|allSteps|] == states'[|steps'|]
    ensures Schedules(allSteps) == Schedules(steps) + Schedules(steps')
  {
    SchedulesOfBoth(steps, steps');
    all, allSteps := states[..|steps|] + states', steps + steps';
    forall i | 0 <= i < |allSteps| ensures Next(all[i], allSteps[i], all[i + 1], edgeMax, seedMax) {
      if i >= |steps| {
        var k := i - |steps|;
        assert Next(states'[k], steps'[k], states'[k + 1], edgeMax, seedMax);
      }
    }
  }

  lemma SchedulesOfOne(step: Step)
    ensures Schedules([step]) == if step.Schedule? then [step] else []
  {
    assert [step][..0] == [];
  }

  lemma {:induction false} ScheduleAndSolve(s: State, plan: Step, scheduled: State, seeds: set<Seed>,
                                            edgeMax: nat, seedMax: nat)
      returns (states: seq<State>, steps: seq<Step>)
    requires plan.Schedule? && Next(s, plan, scheduled, edgeMax, seedMax)
    ensures IsRun(states, steps, edgeMax, seedMax)
    ensures states[0] == s && states[|steps|] == scheduled.(solved := scheduled.solved + seeds)
    ensures Schedules(steps) == [plan]
  {
    states, steps := SolveAll(scheduled, seeds, edgeMax, seedMax);
    SchedulesOfOne(plan);
    states, steps := JoinRuns([s, scheduled], [plan], states, steps, edgeMax, seedMax);
  }

  /** An iteration is a run, of which its schedule is the only one. */
  lemma IterationIsRun(s: State, it: Iteration, s': State, queue: set<Seed>, edgeMax: nat, seedMax: nat)
      returns (states: seq<State>, steps: seq<Step>)
    requires Iterates(s, it, s', queue, edgeMax, seedMax)
    ensures IsRun(states, steps, edgeMax, seedMax) && states[0] == s && states[|steps|] == s'
    ensures Schedules(steps) == [Schedule(it.order, it.picks)]
  {
    var scheduled := s.(cracked := s'.cracked, budget := s'.budget);
    var pairs := Pairs(it.picks);
    var seeds := if pairs == {} then it.chosen else SeedsOf(pairs);
    states, steps := ScheduleAndSolve(s, Schedule(it.order, it.picks), scheduled, seeds, edgeMax, seedMax);
    if scheduled.(solved := s'.solved) != s' {
      states, steps := ThenEndInit(states, steps, s', edgeMax, seedMax);
    }
  }

  lemma ThenEndInit(states: seq<State>, steps: seq<Step>, s': State, edgeMax: nat, seedMax: nat)
      returns (states': seq<State>, steps': seq<Step>)
    requires IsRun(states, steps, edgeMax, seedMax) && s' == states[|steps|].(initPhase := false)
    ensures IsRun(states', steps', edgeMax, seedMax) && states'[0] == states[0] && states'[|steps'|] == s'
    ensures Schedules(steps') == Schedules(steps)
  {
    SchedulesOfOne(EndInit);
    states', steps' := JoinRuns(states, steps, [states[|steps|], s'], [EndInit], edgeMax, seedMax);
  }

  /** So is one that was broken off. */
  lemma BreakIsRun(s: State, it: Iteration, done: set<Seed>, s': State, queue: set<Seed>, edgeMax: nat, seedMax: nat)
      returns (states: seq<State>, steps: seq<Step>)
    requires BreaksOff(s, it, done, s', queue, edgeMax, seedMax)
    ensures IsRun(states, steps, edgeMax, seedMax) && states[0] == s && states[|steps|] == s'
    ensures Schedules(steps) == [Schedule(it.order, it.picks)]
  {
    var scheduled := s'.(solved := s.solved);
    states, steps := ScheduleAndSolve(s, Schedule(it.order, it.picks), scheduled, done, edgeMax, seedMax);
  }
}
