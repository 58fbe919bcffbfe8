/** The main loop of src/fuzz/executor.py. What the traced programs, the concolic executor, the sampler and AFL
    produce during an iteration is given by a World, which may be any. */
module Executor {
  import opened Options
  import opened Coverage
  import opened Sync
  import opened Recording
  import opened Scheduler
  import opened Depot
  import opened Tracer
  import opened Chains

  const CANDIDATE_NUM: nat := 10
  const CRACK_SEED_MAX: nat := 10

  /** What concolic execution of a seed yields, and AFL's map when it is over. */
  datatype Solved = Solved(snapshot: Option<Bitmap>, runs: seq<Execution>)

  predicate DistinctAddrs(groups: seq<Group>) {
    forall i, j :: 0 <= i < j < |groups| ==> groups[i].addr != groups[j].addr
  }

  /** A dictionary of testcases by address. */
  type Groups = gs: seq<Group> | DistinctAddrs(gs) witness []

  datatype Cracked = Cracked(snapshot: Option<Bitmap>, groups: Groups)

  /** What an iteration meets: the seeds in AFL's queue when it begins and when __solve_random lists them, and what the
      programs yield. */
  datatype World = World(
    queue: set<Seed>, later: set<Seed>,
    trace: Seed -> seq<TraceLine>, solve: Seed -> Solved, crack: (Seed, seq<Addr>) -> Cracked)

  /** What the traces of the seeds say. */
  function SeenIn(trace: Seed -> seq<TraceLine>, seeds: set<Seed>): set<Occurrence> {
    set n, o | n in seeds && o in TraceOccurrences(SeedTrace(n, trace(n))) :: o
  }

  /** Cracking the schedule generates a testcase for the address. */
  ghost predicate Sampled(crack: (Seed, seq<Addr>) -> Cracked, candidate: map<Seed, seq<Addr>>, n: Seed, a: Addr) {
    n in candidate && HasTestcases(crack(n, candidate[n]).groups, a)
  }

  /** The events of solving a seed. */
  function Solving(solve: Seed -> Solved): Seed -> seq<Event> {
    n => SolveEvents(solve(n), false)
  }

  /** The events of cracking a seed of the schedule, and of solving it if that was not done before. */
  function Cracking(world: World, candidate: map<Seed, seq<Addr>>, solved: set<Seed>): Seed -> seq<Event> {
    n => CrackEvents(world.crack(n, if n in candidate then candidate[n] else [])) +
         SolveEvents(world.solve(n), n in solved)
  }

  ghost predicate CracksAs(
    block: Seed -> seq<Event>, world: World, candidate: map<Seed, seq<Addr>>, solved: set<Seed>, n: Seed)
  {
    n in candidate ==>
      block(n) == CrackEvents(world.crack(n, candidate[n])) + SolveEvents(world.solve(n), n in solved)
  }

  lemma CrackingCracksAs(world: World, candidate: map<Seed, seq<Addr>>, solved: set<Seed>)
    ensures forall n :: CracksAs(Cracking(world, candidate, solved), world, candidate, solved, n)
  {
  }

  ghost predicate SolvesAs(block: Seed -> seq<Event>, solve: Seed -> Solved, n: Seed) {
    block(n) == SolveEvents(solve(n), false)
  }

  lemma SolvingSolvesAs(solve: Seed -> Solved)
    ensures forall n :: SolvesAs(Solving(solve), solve, n)
  {
  }

  lemma PrefixLists<T(!new)>(xs: seq<T>, i: nat, s: set<T>)
    requires i < |xs| && NoDuplicates(xs) && Lists(xs[..i], s)
    ensures xs[..i + 1] == xs[..i] + [xs[i]]
    ensures xs[i] !in s && Lists(xs[..i + 1], s + {xs[i]})
  {
    NotBefore(xs, i);
    assert Listed(xs[..i], s, xs[i]);
    var m, t := xs[..i + 1], s + {xs[i]};
    forall x ensures Listed(m, t, x) { assert Listed(xs[..i], s, x); }
  }

  lemma ListsMore<T(!new)>(xs: seq<T>, s: set<T>, x: T)
    requires Lists(xs, s) && x !in s
    ensures Lists(xs + [x], s + {x})
  {
    assert Listed(xs, s, x);
    var m, t := xs + [x], s + {x};
    forall y ensures Listed(m, t, y) { assert Listed(xs, s, y); }
  }

  lemma PrefixSubset<T(!new)>(xs: seq<T>, k: nat, part: set<T>, s: set<T>)
    requires k <= |xs| && Lists(xs[..k], part) && Lists(xs, s)
    ensures part <= s
  {
    forall x | x in part ensures x in s { assert Listed(xs[..k], part, x) && Listed(xs, s, x); }
  }

  /** The events of one seed after the other. */
  function EventsOf(block: Seed -> seq<Event>, order: seq<Seed>): seq<Event> {
    if order == [] then [] else EventsOf(block, order[..|order| - 1]) + block(order[|order| - 1])
  }

  /** One seed more, of which some execution may be the first to raise. */
  lemma EventsOfMore(log: seq<Event>, block: Seed -> seq<Event>, order: seq<Seed>, n: Seed)
    requires !Breaks(EventsOf(block, order))
    ensures Breaks(EventsOf(block, order + [n])) <==> Breaks(block(n))
    ensures log + UpTo(EventsOf(block, order + [n])) == (log + EventsOf(block, order)) + UpTo(block(n))
    ensures !Breaks(block(n)) ==>
      log + EventsOf(block, order + [n]) == (log + EventsOf(block, order)) + UpTo(block(n))
  {
    assert (order + [n])[..|order|] == order;
    BreaksInside(log, EventsOf(block, order), block(n), []);
    assert (EventsOf(block, order) + block(n)) + [] == EventsOf(block, order) + block(n);
    InTurn(log, EventsOf(block, order), block(n));
    UpToAll(EventsOf(block, order));
  }

  /** The addresses for which cracking the seeds that are done generated a testcase. */
  ghost predicate AreLabels(labels: map<Addr, nat>, world: World, candidate: map<Seed, seq<Addr>>, done: set<Seed>) {
    forall a :: a in labels <==> exists n :: n in done && Sampled(world.crack, candidate, n, a)
  }

  lemma LabelsMore(labels: map<Addr, nat>, merged: map<Addr, nat>, world: World, candidate: map<Seed, seq<Addr>>,
                   done: set<Seed>, seed: Seed)
    requires AreLabels(labels, world, candidate, done)
    requires forall a :: a in merged <==> a in labels || Sampled(world.crack, candidate, seed, a)
    ensures AreLabels(merged, world, candidate, done + {seed})
  {
  }

  lemma AllLabels(labels: map<Addr, nat>, world: World, candidate: map<Seed, seq<Addr>>)
    requires AreLabels(labels, world, candidate, candidate.Keys)
    ensures forall a :: a in labels <==> exists n :: Sampled(world.crack, candidate, n, a)
  {
  }

  /** The order lists all the seeds; or its last one raised an exception, and those before it are done. */
  ghost predicate GoesThrough(ok: bool, order: seq<Seed>, done: set<Seed>, all: set<Seed>) {
    if ok then Lists(order, all) && done == all
    else order != [] && Lists(order[..|order| - 1], done) && order[|order| - 1] !in done
         && done + {order[|order| - 1]} <= all
  }

  lemma BrokenAt(order: seq<Seed>, done: set<Seed>, seed: Seed, all: set<Seed>)
    requires Lists(order, done) && seed !in done && done + {seed} <= all
    ensures GoesThrough(false, order + [seed], done, all)
  {
    assert (order + [seed])[..|order|] == order;
  }

  lemma {:induction false} FirstListed(files: seq<Seed>, k: nat) returns (chosen: set<Seed>)
    requires NoDuplicates(files) && k <= |files|
    ensures Lists(files[..k], chosen) && |chosen| == k
  {
    chosen := set n | n in files[..k];
    SizeOfListing(files[..k], chosen);
    forall n ensures Listed(files[..k], chosen, n) { }
  }

  lemma {:induction false} StopsAt(files: seq<Seed>, k: nat, i: nat, done: set<Seed>, chosen: set<Seed>)
    requires NoDuplicates(files) && i < k <= |files| && Lists(files[..i], done) && Lists(files[..k], chosen)
    ensures GoesThrough(false, files[..i + 1], done, chosen)
  {
    var order := files[..i + 1];
    assert order[..i] == files[..i];
    NotBefore(files, i);
    assert Listed(files[..i], done, files[i]);
    forall n | n in done + {files[i]} ensures n in chosen {
      assert Listed(files[..i], done, n) && Listed(files[..k], chosen, n);
      assert files[..k][i] == files[i];
      if n in done {
        var j :| 0 <= j < i && files[..i][j] == n;
        assert files[..k][j] == n;
      }
    }
  }

  lemma ListsSame<T(!new)>(xs: seq<T>, s: set<T>, t: set<T>)
    requires Lists(xs, s) && Lists(xs, t)
    ensures s == t
  {
    forall x ensures x in s <==> x in t { assert Listed(xs, s, x) && Listed(xs, t, x); }
  }

  lemma CandidateKeys(candidate: map<Seed, seq<Addr>>, picks: seq<Pick>)
    requires IsCandidateMap(candidate, picks)
    ensures candidate.Keys == SeedsOf(Pairs(picks))
    ensures |candidate| == 0 <==> Pairs(picks) == {}
  {
    forall n ensures n in candidate <==> n in SeedsOf(Pairs(picks)) {
      if n in candidate {
        AddrsForMeansPairs(picks, n, candidate[n][0]);
        assert (candidate[n][0], n) in Pairs(picks);
      } else if p :| p in Pairs(picks) && p.1 == n {
        AddrsForMeansPairs(picks, n, p.0);
      }
    }
    if p :| p in Pairs(picks) { assert p.1 in SeedsOf(Pairs(picks)); }
  }

  method AddTo(counters: map<Addr, nat>, a: Addr, k: nat) returns (sum: map<Addr, nat>)
    ensures sum.Keys == counters.Keys + {a}
    ensures forall b :: Count(sum, b) == Count(counters, b) + if b == a then k else 0
  {
    sum := counters[a := (if a in counters then counters[a] else 0) + k];
  }

  /** label_cov[addr] += cov_count[addr], for every address. */
  method MergeLabels(labels: map<Addr, nat>, counts: map<Addr, nat>) returns (merged: map<Addr, nat>)
    ensures merged.Keys == labels.Keys + counts.Keys
    ensures forall a :: Count(merged, a) == Count(labels, a) + Count(counts, a)
  {
    merged := labels;
    var rest := counts.Keys;
    while rest != {}
      invariant rest <= counts.Keys
      invariant merged.Keys == labels.Keys + (counts.Keys - rest)
      invariant forall a :: Count(merged, a) == Count(labels, a) + if a in rest then 0 else Count(counts, a)
    {
      var addr :| addr in rest;
      merged := AddTo(merged, addr, counts[addr]);
      rest := rest - {addr};
    }
  }

  /** How much the map gained by the later events of a log. */
  function GainedBy(start: FullMap, log: seq<Event>, more: seq<Event>): int {
    After(start, log + more).gained - After(start, log).gained
  }

  ghost predicate HasTestcases(groups: seq<Group>, a: Addr) {
    exists i :: 0 <= i < |groups| && groups[i].addr == a && groups[i].runs != []
  }

  /** What the testcases of the i-th group gained. */
  function LabelOf(start: FullMap, log: seq<Event>, groups: seq<Group>, i: nat): int {
    if i < |groups| then GainedBy(start, log + GroupEvents(groups[..i]), Events(groups[i].runs)) else 0
  }

  /** cov_count: a label for every address that had a testcase. */
  ghost predicate IsLabelling(groups: seq<Group>, n: nat, labels: map<Addr, nat>, gain: nat -> int)
    requires n <= |groups|
  {
    && (forall a :: a in labels <==> HasTestcases(groups[..n], a))
    && forall i: nat :: i < n && groups[i].runs != [] ==>
         groups[i].addr in labels && labels[groups[i].addr] == gain(i)
  }

  lemma AfterOne(start: FullMap, log: seq<Event>, e: Event)
    ensures After(start, log + [e]) == Handle(After(start, log), e)
  {
    assert (log + [e])[..|log|] == log;
  }

  /** First the seed is cracked, and then solved, unless it is. */
  ghost predicate RecordsBoth(crack: Cracked, solve: Solved, solved: bool, s: Files, t: Files) {
    exists mid :: Records(crack.snapshot, Flat(crack.groups), s, mid) && RecordsSolving(solve, solved, mid, t)
  }

  ghost predicate RecordsSolving(solve: Solved, solved: bool, s: Files, t: Files) {
    if solved then t == s else Records(solve.snapshot, solve.runs, s, t)
  }

  /** The events of solving a seed, unless it is solved, and of cracking one. */
  function SolveEvents(result: Solved, solved: bool): seq<Event> {
    if solved then [] else [Snapshot(result.snapshot)] + Events(result.runs)
  }

  function CrackEvents(result: Cracked): seq<Event> {
    [Snapshot(result.snapshot)] + GroupEvents(result.groups)
  }

  lemma EventsOneMore(runs: seq<Execution>, i: nat)
    requires i < |runs|
    ensures Events(runs[..i + 1]) == Events(runs[..i]) + [Testcase(runs[i].bitmap, runs[i].ret)]
  {
  }

  /** If the i-th execution is the first to raise, the events end with it. */
  lemma {:induction false} EventsAt(log: seq<Event>, runs: seq<Execution>, i: nat)
    requires i < |runs| && !Breaks(Events(runs[..i]))
    ensures var e := Testcase(runs[i].bitmap, runs[i].ret);
      && (log + Events(runs[..i])) + [e] == log + Events(runs[..i + 1])
      && (Breaks(Events(runs[..i + 1])) <==> Raises(e))
      && (Raises(e) ==> Breaks(Events(runs)) && (log + Events(runs[..i])) + [e] == log + UpTo(Events(runs)))
  {
    var e := Testcase(runs[i].bitmap, runs[i].ret);
    EventsOneMore(runs, i);
    UpToOne(e);
    EventsSplit(runs, i + 1);
    BreaksInside(log, Events(runs[..i]), [e], Events(runs[i + 1..]));
  }

  lemma EventsSplit(runs: seq<Execution>, i: nat)
    requires i <= |runs|
    ensures Events(runs) == Events(runs[..i]) + Events(runs[i..])
  {
  }

  lemma {:induction false} GroupEventsSplit(groups: seq<Group>, i: nat) returns (rest: seq<Event>)
    requires i <= |groups|
    ensures GroupEvents(groups) == GroupEvents(groups[..i]) + rest
    decreases |groups|
  {
    if i == |groups| {
      rest := [];
      assert groups[..i] == groups;
    } else {
      var init := groups[..|groups| - 1];
      rest := GroupEventsSplit(init, i);
      assert init[..i] == groups[..i];
      rest := rest + Events(groups[|groups| - 1].runs);
    }
  }

  /** If the i-th group is the first with an execution that raises, the events end there. */
  lemma {:induction false} GroupsBreakAt(log: seq<Event>, groups: seq<Group>, i: nat)
    requires i < |groups| && !Breaks(GroupEvents(groups[..i]))
    ensures var es, before := Events(groups[i].runs), log + GroupEvents(groups[..i]);
      && (Breaks(GroupEvents(groups[..i + 1])) <==> Breaks(es))
      && (!Breaks(es) ==> before + UpTo(es) == log + GroupEvents(groups[..i + 1]))
      && (Breaks(es) ==> Breaks(GroupEvents(groups)) && before + UpTo(es) == log + UpTo(GroupEvents(groups)))
  {
    var es, first := Events(groups[i].runs), GroupEvents(groups[..i]);
    assert groups[..i + 1][..i] == groups[..i];
    var rest := GroupEventsSplit(groups, i + 1);
    BreaksInside(log, first, es, rest);
  }

  lemma {:induction false} BreaksInside(log: seq<Event>, first: seq<Event>, es: seq<Event>, rest: seq<Event>)
    requires !Breaks(first)
    ensures Breaks(first + es) <==> Breaks(es)
    ensures !Breaks(es) ==> (log + first) + UpTo(es) == log + (first + es)
    ensures Breaks(es) ==> Breaks((first + es) + rest) && (log + first) + UpTo(es) == log + UpTo((first + es) + rest)
  {
    UpToBoth(first, es);
    if Breaks(es) {
      UpToBoth(first + es, rest);
      Reassociate(log, first, UpTo(es));
    } else {
      UpToAll(es);
      Reassociate(log, first, es);
    }
  }

  lemma Reassociate<T>(a: seq<T>, b: seq<T>, c: seq<T>)
    ensures (a + b) + c == a + (b + c)
  {
  }

  /** What a group's label is: how many bytes its testcases found something new in, after AFL's file and all testcases
      of the groups before it. */
  ghost function NewInGroup(was: Bitmap, file: Option<Bitmap>, groups: seq<Group>, g: nat): nat
    requires g < |groups|
  {
    FlatPrefix(groups, g);
    FlatPrefix(groups, g + 1);
    FlatMore(groups, g);
    SumNew(was, file, Flat(groups), |Flat(groups[..g])|, |Flat(groups[..g + 1])|)
  }

  /** Every group with testcases has its label. */
  ghost predicate CountNew(labels: map<Addr, nat>, was: Bitmap, file: Option<Bitmap>, groups: seq<Group>) {
    forall g: nat :: g < |groups| && groups[g].runs != [] ==>
      groups[g].addr in labels && labels[groups[g].addr] == NewInGroup(was, file, groups, g)
  }

  lemma FlatMore(groups: seq<Group>, g: nat)
    requires g < |groups|
    ensures Flat(groups[..g + 1]) == Flat(groups[..g]) + groups[g].runs
  {
    assert groups[..g + 1][..g] == groups[..g];
  }

  /** The events so far, with those of the first groups. */
  lemma {:induction false} GainedUpTo(start: FullMap, log: seq<Event>, file: Option<Bitmap>, groups: seq<Group>, g: nat)
    requires g <= |groups| && |Flat(groups[..g])| <= |Flat(groups)|
    ensures After(start, (log + [Snapshot(file)]) + GroupEvents(groups[..g])).gained ==
      After(start, log).gained + GainedAfter(After(start, log).bitmap, file, Flat(groups), |Flat(groups[..g])|)
  {
    var n := |Flat(groups[..g])|;
    FlatPrefix(groups, g);
    FlatEvents(groups[..g]);
    MergingPrefix(file, Flat(groups), n);
    Reassociate(log, [Snapshot(file)], GroupEvents(groups[..g]));
    AfterBoth(start, log, Merging(file, Flat(groups))[..n + 1]);
  }

  lemma {:induction false} LabelIsNew(start: FullMap, log: seq<Event>, file: Option<Bitmap>, groups: seq<Group>, g: nat)
    requires g < |groups| && !Breaks(Merging(file, Flat(groups)))
    ensures LabelOf(start, log + [Snapshot(file)], groups, g) == NewInGroup(After(start, log).bitmap, file, groups, g)
  {
    var before := log + [Snapshot(file)];
    FlatPrefix(groups, g);
    FlatPrefix(groups, g + 1);
    FlatMore(groups, g);
    GainedUpTo(start, log, file, groups, g);
    GainedUpTo(start, log, file, groups, g + 1);
    assert groups[..g + 1][..g] == groups[..g];
    Reassociate(before, GroupEvents(groups[..g]), Events(groups[g].runs));
    GainIsSum(After(start, log).bitmap, file, Flat(groups), |Flat(groups[..g])|, |Flat(groups[..g + 1])|);
  }

  class HybridExecutor {
    const aflMap: AFLMap
    const depot: StateDepot
    const tracer: CorpusTracer

    /** The files of the concolic queue. */
    var queue: seq<Saved>
    var interestingCnt: nat
    var crashCnt: nat
    var hangCnt: nat

    ghost const start: FullMap
    ghost var log: seq<Event>
    ghost var seen: set<Occurrence>

    /** The map, the saved files and the counters are what the events so far make of the map at the start. */
    ghost predicate CoverageOk()
      reads this`queue, this`interestingCnt, this`crashCnt, this`hangCnt, this`log, aflMap.bitmap
    {
      && aflMap.bitmap.Length == MAP_SIZE
      && var s := After(start, log);
         && aflMap.bitmap[..] == s.bitmap && queue == s.saved
         && interestingCnt == |queue| && crashCnt == s.crashes && hangCnt == s.hangs
    }

    /** The tree is the index of what was seen in the traces. */
    ghost predicate TreeOk()
      reads this`seen, depot`covState, depot.covState.Values
    {
      depot.Valid() && tracer.state == depot && Matches(depot.Tree(), seen)
    }

    /** What the executions leave behind. */
    ghost function Recorded(): Files
      reads this`queue, this`hangCnt, this`crashCnt, aflMap.bitmap
    {
      Files(aflMap.bitmap[..], queue, hangCnt, crashCnt)
    }

    ghost function View(): Situation
      reads this`seen, this`log, depot, depot.covState.Values
    {
      Situation(depot.Now(), depot.tracedSeeds, seen, log)
    }

    constructor (afl: AFLMap)
      requires afl.bitmap.Length == MAP_SIZE
      ensures aflMap == afl && fresh(depot) && start == afl.bitmap[..] && log == [] && seen == {}
      ensures CoverageOk() && TreeOk() && Initial(depot.Now()) && depot.tracedSeeds == {}
    {
      aflMap := afl;
      var d := new StateDepot();
      depot := d;
      tracer := new CorpusTracer(d);
      queue, interestingCnt, crashCnt, hangCnt := [], 0, 0, 0;
      start, log, seen := afl.bitmap[..], [], {};
    }

    /** At most as many testcases are ever saved as interesting as the map had clear bits, and the ids of the saved
        ones are their places. */
    lemma SavedBounded()
      requires CoverageOk()
      ensures interestingCnt + TotalBits(start, 65536) <= 524288
      ensures forall i :: 0 <= i < interestingCnt ==> queue[i].id == i
    {
      AmortisedCoverage(start, log);
      forall i | 0 <= i < interestingCnt ensures queue[i].id == i { SavedIdsWithoutGaps(start, log, i); }
    }

    /** What was executed and exited normally is covered by the map, whether it was saved or not. */
    lemma NothingLost(k: nat)
      requires CoverageOk() && k < |log| && log[k].Testcase? && log[k].ret == 0
      ensures Covers(aflMap.bitmap[..], log[k].bitmap)
      ensures aflMap.bitmap[..] == JoinAll(JoinAll(start, Merged(log)), SavedMaps(queue))
    {
      NormalTestcasesCovered(start, log, k);
      MapIsSnapshotsAndSaved(start, log);
    }

    /** After any history the map covers every testcase of every iteration that exited normally. */
    lemma {:induction false} HistoryCovered(worlds: seq<World>, h: History, i: nat, e: Event)
      requires CoverageOk() && IsHistory(worlds, h) && Last(h).log == log && i < |h.passes|
      requires e in Executes(worlds[i], h.passes[i]) && e.Testcase? && e.ret == 0
      ensures Covers(aflMap.bitmap[..], e.bitmap)
    {
      HistoryLog(worlds, h);
      SumHas(Executes, worlds, h, i, e);
      assert e in First(h).log + Sum(Executes, worlds, h);
      var k :| 0 <= k < |log| && log[k] == e;
      NothingLost(k);
    }

    /** update_bitmap. False: an IndexError is raised. */
    method UpdateMap(file: Option<Bitmap>) returns (ok: bool)
      requires CoverageOk()
      modifies this`log, aflMap.bitmap
      ensures CoverageOk() && log == old(log) + [Snapshot(file)]
      ensures ok <==> !Raises(Snapshot(file))
    {
      AfterOne(start, log, Snapshot(file));
      ok := aflMap.UpdateBitmap(file);
      log := log + [Snapshot(file)];
    }

    /** __sync_seed, given the result of executing the testcase. None: an IndexError is raised. */
    method SyncSeed(run: Execution) returns (increase: Option<nat>)
      requires CoverageOk()
      modifies this`queue, this`interestingCnt, this`crashCnt, this`hangCnt, this`log, aflMap.bitmap
      ensures CoverageOk() && log == old(log) + [Testcase(run.bitmap, run.ret)]
      ensures increase.None? <==> Raises(Testcase(run.bitmap, run.ret))
      ensures increase.Some? ==> increase.value == After(start, log).gained - After(start, old(log)).gained
      ensures increase.Some? ==>
        increase.value == if run.ret == 0 then |GainingBytes(old(aflMap.bitmap[..]), run.bitmap, MAP_SIZE)| else 0
      ensures queue == old(queue) +
        if increase.Some? && increase.value != 0 then [Saved(old(interestingCnt), run.bitmap)] else []
      ensures hangCnt == old(hangCnt) + if run.ret == 1 then 1 else 0
      ensures crashCnt == old(crashCnt) + if run.ret == 2 then 1 else 0
    {
      AfterOne(start, log, Testcase(run.bitmap, run.ret));
      increase := Receive(run);
      log := log + [Testcase(run.bitmap, run.ret)];
    }

    /** The branches of __sync_seed. */
    method Receive(run: Execution) returns (increase: Option<nat>)
      requires aflMap.bitmap.Length == MAP_SIZE
      modifies this`queue, this`interestingCnt, this`crashCnt, this`hangCnt, aflMap.bitmap
      ensures aflMap.bitmap[..] == if run.ret == 0 then Join(old(aflMap.bitmap[..]), run.bitmap) else old(aflMap.bitmap[..])
      ensures increase.None? <==> run.ret == 0 && |run.bitmap| < MAP_SIZE
      ensures increase.Some? ==>
        increase.value == if run.ret == 0 then Gain(old(aflMap.bitmap[..]), run.bitmap, MAP_SIZE) else 0
      ensures increase.Some? ==>
        increase.value == if run.ret == 0 then |GainingBytes(old(aflMap.bitmap[..]), run.bitmap, MAP_SIZE)| else 0
      ensures var saves := increase.Some? && increase.value != 0;
        && queue == old(queue) + (if saves then [Saved(old(interestingCnt), run.bitmap)] else [])
        && interestingCnt == old(interestingCnt) + if saves then 1 else 0
      ensures hangCnt == old(hangCnt) + if run.ret == 1 then 1 else 0
      ensures crashCnt == old(crashCnt) + if run.ret == 2 then 1 else 0
    {
      increase := Some(0);
      if run.ret == 0 {
        increase := aflMap.IsInteresting(run.bitmap);
        if increase.Some? && increase.value != 0 {
          queue := queue + [Saved(interestingCnt, run.bitmap)];
          interestingCnt := interestingCnt + 1;
        }
      } else if run.ret == 1 {
        hangCnt := hangCnt + 1;
      } else if run.ret == 2 {
        crashCnt := crashCnt + 1;
      }
    }

    /** None: an IndexError is raised, and the rest is not executed. */
    method SyncAll(runs: seq<Execution>) returns (increase: Option<nat>)
      requires CoverageOk()
      modifies this`queue, this`interestingCnt, this`crashCnt, this`hangCnt, this`log, aflMap.bitmap
      ensures CoverageOk() && log == old(log) + UpTo(Events(runs))
      ensures increase.None? <==> Breaks(Events(runs))
      ensures increase.Some? ==> increase.value == GainedBy(start, old(log), Events(runs))
    {
      var sum: nat := 0;
      assert log + Events(runs[..0]) == log;
      for i := 0 to |runs|
        invariant CoverageOk() && log == old(log) + Events(runs[..i]) && !Breaks(Events(runs[..i]))
        invariant sum == GainedBy(start, old(log), Events(runs[..i]))
      {
        EventsAt(old(log), runs, i);
        var more := SyncSeed(runs[i]);
        if more.None? { return None; }
        sum := sum + more.value;
      }
      assert runs[..|runs|] == runs;
      UpToAll(Events(runs));
      increase := Some(sum);
    }

    /** __solve_seed, given the testcases that concolic execution of the seed generates. False: an exception is raised,
        and the seed does not become solved. */
    method SolveSeed(seed: Seed, result: Solved) returns (ok: bool)
      requires CoverageOk()
      modifies this`queue, this`interestingCnt, this`crashCnt, this`hangCnt, this`log, aflMap.bitmap
      modifies depot`solvedSeeds
      ensures CoverageOk() && depot.solvedSeeds == old(depot.solvedSeeds) + if ok then {seed} else {}
      ensures var events := SolveEvents(result, seed in old(depot.solvedSeeds));
        log == old(log) + UpTo(events) && (ok <==> !Breaks(events))
      ensures seed in old(depot.solvedSeeds) ==> ok && Recorded() == old(Recorded())
      ensures seed !in old(depot.solvedSeeds) && ok ==>
        Records(result.snapshot, result.runs, old(Recorded()), Recorded())
    {
      if seed in depot.solvedSeeds {
        assert depot.solvedSeeds + {seed} == depot.solvedSeeds;
        return true;
      }
      ok := Execute(result);
      if ok { depot.solvedSeeds := depot.solvedSeeds + {seed}; }
    }

    method Execute(result: Solved) returns (ok: bool)
      requires CoverageOk()
      modifies this`queue, this`interestingCnt, this`crashCnt, this`hangCnt, this`log, aflMap.bitmap
      ensures CoverageOk() && log == old(log) + UpTo(SolveEvents(result, false))
      ensures ok <==> !Breaks(SolveEvents(result, false))
      ensures ok ==> Records(result.snapshot, result.runs, old(Recorded()), Recorded())
    {
      MergingRecords(result.snapshot, result.runs);
      UpToOne(Snapshot(result.snapshot));
      InTurn(log, [Snapshot(result.snapshot)], Events(result.runs));
      ok := UpdateMap(result.snapshot);
      if !ok { return false; }
      var increase := SyncAll(result.runs);
      ok := increase.Some?;
    }

    /** __crack_seed, given the testcases sampled for each address of the constraint log. False: an exception is raised. */
    method CrackSeed(result: Cracked) returns (ok: bool, labels: map<Addr, nat>)
      requires CoverageOk()
      modifies this`queue, this`interestingCnt, this`crashCnt, this`hangCnt, this`log, aflMap.bitmap
      ensures CoverageOk() && log == old(log) + UpTo(CrackEvents(result)) && (ok <==> !Breaks(CrackEvents(result)))
      ensures ok ==> forall a :: a in labels <==> HasTestcases(result.groups, a)
      ensures ok ==> IsLabelling(result.groups, |result.groups|, labels,
        (i: nat) => LabelOf(start, old(log) + [Snapshot(result.snapshot)], result.groups, i))
      ensures ok ==> Records(result.snapshot, Flat(result.groups), old(Recorded()), Recorded())
      ensures ok ==> CountNew(labels, old(aflMap.bitmap[..]), result.snapshot, result.groups)
    {
      ok, labels := CrackLogged(result);
      if ok { LabelsAreNew(old(log), result, labels, old(aflMap.bitmap[..])); }
    }

    method CrackLogged(result: Cracked) returns (ok: bool, labels: map<Addr, nat>)
      requires CoverageOk()
      modifies this`queue, this`interestingCnt, this`crashCnt, this`hangCnt, this`log, aflMap.bitmap
      ensures CoverageOk() && log == old(log) + UpTo(CrackEvents(result)) && (ok <==> !Breaks(CrackEvents(result)))
      ensures ok ==> forall a :: a in labels <==> HasTestcases(result.groups, a)
      ensures ok ==> IsLabelling(result.groups, |result.groups|, labels,
        (i: nat) => LabelOf(start, old(log) + [Snapshot(result.snapshot)], result.groups, i))
      ensures ok ==> Records(result.snapshot, Flat(result.groups), old(Recorded()), Recorded())
    {
      var groups := result.groups;
      FlatEvents(groups);
      MergingRecords(result.snapshot, Flat(groups));
      labels := map[];
      UpToOne(Snapshot(result.snapshot));
      InTurn(log, [Snapshot(result.snapshot)], GroupEvents(groups));
      ok := UpdateMap(result.snapshot);
      if !ok { return; }
      ok, labels := CrackGroups(groups);
    }

    lemma {:induction false} MergingRecords(file: Option<Bitmap>, runs: seq<Execution>)
      requires CoverageOk()
      ensures !Breaks(Merging(file, runs)) ==>
        Records(file, runs, Recorded(), FilesOf(After(start, log + UpTo(Merging(file, runs)))))
    {
      if !Breaks(Merging(file, runs)) {
        UpToAll(Merging(file, runs));
        LogRecords(start, log, file, runs);
      }
    }

    lemma {:induction false} LabelsAreNew(was: seq<Event>, result: Cracked, labels: map<Addr, nat>, bitmap: Bitmap)
      requires !Breaks(CrackEvents(result)) && bitmap == After(start, was).bitmap
      requires IsLabelling(result.groups, |result.groups|, labels,
        (i: nat) => LabelOf(start, was + [Snapshot(result.snapshot)], result.groups, i))
      ensures CountNew(labels, bitmap, result.snapshot, result.groups)
    {
      FlatEvents(result.groups);
      forall g: nat | g < |result.groups| && result.groups[g].runs != []
        ensures labels[result.groups[g].addr] == NewInGroup(bitmap, result.snapshot, result.groups, g)
      {
        LabelIsNew(start, was, result.snapshot, result.groups, g);
      }
    }

    /** The loop over the addresses of the constraint log. */
    method CrackGroups(groups: Groups) returns (ok: bool, labels: map<Addr, nat>)
      requires CoverageOk()
      modifies this`queue, this`interestingCnt, this`crashCnt, this`hangCnt, this`log, aflMap.bitmap
      ensures CoverageOk() && log == old(log) + UpTo(GroupEvents(groups)) && (ok <==> !Breaks(GroupEvents(groups)))
      ensures ok ==> forall a :: a in labels <==> HasTestcases(groups, a)
      ensures ok ==> IsLabelling(groups, |groups|, labels, (i: nat) => LabelOf(start, old(log), groups, i))
    {
      labels := map[];
      ghost var before := log;
      ghost var gain := (i: nat) => LabelOf(start, before, groups, i);
      for i := 0 to |groups|
        invariant CoverageOk() && log == before + GroupEvents(groups[..i]) && !Breaks(GroupEvents(groups[..i]))
        invariant IsLabelling(groups, i, labels, gain)
      {
        GroupsBreakAt(before, groups, i);
        ok, labels := CrackGroup(groups, i, labels, gain);
        if !ok { return; }
      }
      assert groups[..|groups|] == groups;
      UpToAll(GroupEvents(groups));
      ok := true;
    }

    method CrackGroup(groups: Groups, i: nat, labels: map<Addr, nat>, ghost gain: nat -> int)
      returns (ok: bool, labels': map<Addr, nat>)
      requires CoverageOk() && i < |groups| && IsLabelling(groups, i, labels, gain)
      requires gain(i) == GainedBy(start, log, Events(groups[i].runs))
      modifies this`queue, this`interestingCnt, this`crashCnt, this`hangCnt, this`log, aflMap.bitmap
      ensures CoverageOk() && log == old(log) + UpTo(Events(groups[i].runs)) && (ok <==> !Breaks(Events(groups[i].runs)))
      ensures ok ==> IsLabelling(groups, i + 1, labels', gain)
    {
      labels' := labels;
      var increase := SyncAll(groups[i].runs);
      ok := increase.Some?;
      if ok {
        LabelOneMore(groups, i, labels, gain);
        if groups[i].runs != [] { labels' := labels[groups[i].addr := increase.value]; }
      }
    }

    /** __seek_trace_seeds */
    method SeekTraceSeeds(names: set<Seed>) returns (list: seq<Seed>)
      modifies depot`tracedSeeds
      ensures depot.tracedSeeds == old(depot.tracedSeeds) + names
      ensures NoDuplicates(list) && forall n :: n in list <==> n in names - old(depot.tracedSeeds)
    {
      list := [];
      var rest := names;
      while rest != {}
        invariant rest <= names
        invariant depot.tracedSeeds == old(depot.tracedSeeds) + (names - rest)
        invariant NoDuplicates(list) && forall n :: n in list <==> n in names - rest && n !in old(depot.tracedSeeds)
      {
        var name :| name in rest;
        rest := rest - {name};
        if name in depot.tracedSeeds { continue; }
        list := list + [name];
        depot.tracedSeeds := depot.tracedSeeds + {name};
      }
    }

    method TraceBatch(batch: seq<SeedTrace>)
      requires TreeOk()
      modifies this`seen, depot`covState, depot.covState.Values
      ensures TreeOk() && seen == old(seen) + Occurrences(batch)
      ensures batch == [] ==> depot.Tree() == old(depot.Tree())
      ensures TreeGrows(old(depot.Tree()), depot.Tree())
      ensures fresh(depot.covState.Values - old(depot.covState.Values))
    {
      ghost var tree := depot.Tree();
      tracer.TraceCorpus(batch);
      BatchIndexed(tree, seen, batch, depot.Tree());
      seen := seen + Occurrences(batch);
    }

    /** The traces of the seeds that are new in the queue. */
    method NewTraces(names: set<Seed>, trace: Seed -> seq<TraceLine>) returns (batch: seq<SeedTrace>)
      modifies depot`tracedSeeds
      ensures depot.tracedSeeds == old(depot.tracedSeeds) + names
      ensures Occurrences(batch) == SeenIn(trace, names - old(depot.tracedSeeds))
      ensures names <= old(depot.tracedSeeds) ==> batch == []
    {
      ghost var unseen := names - depot.tracedSeeds;
      var list := SeekTraceSeeds(names);
      batch := seq(|list|, i requires 0 <= i < |list| => SeedTrace(list[i], trace(list[i])));
      NothingListed(list, unseen);
      BatchOccurrences(list, unseen, trace, batch);
    }

    /** Trace the seeds that are new in the queue. */
    method Trace(names: set<Seed>, trace: Seed -> seq<TraceLine>)
      requires TreeOk()
      modifies this`seen, depot`tracedSeeds, depot`covState, depot.covState.Values
      ensures TreeOk() && depot.tracedSeeds == old(depot.tracedSeeds) + names
      ensures seen == old(seen) + SeenIn(trace, names - old(depot.tracedSeeds))
      ensures TreeGrows(old(depot.Tree()), depot.Tree())
      ensures names <= old(depot.tracedSeeds) ==> depot.Tree() == old(depot.Tree())
      ensures fresh(depot.covState.Values - old(depot.covState.Values))
    {
      var batch := NewTraces(names, trace);
      TraceBatch(batch);
    }

    /** __solve_random: when there is nothing to crack, solve some seeds, or wait if all are solved. False: an exception
        is raised. */
    method SolveRandom(names: set<Seed>, solve: Seed -> Solved)
      returns (ok: bool, ghost chosen: set<Seed>, ghost order: seq<Seed>, ghost done: set<Seed>)
      requires CoverageOk()
      modifies this`queue, this`interestingCnt, this`crashCnt, this`hangCnt, this`log, aflMap.bitmap
      modifies depot`solvedSeeds
      ensures CoverageOk() && log == old(log) + UpTo(EventsOf(Solving(solve), order))
      ensures ok <==> !Breaks(EventsOf(Solving(solve), order))
      ensures ToSolve(chosen, names, old(depot.solvedSeeds)) && GoesThrough(ok, order, done, chosen)
      ensures depot.Now() == old(depot.Now()).(solved := old(depot.solvedSeeds) + done)
    {
      var files := Unsolved(names);
      var k := Min(|files|, RAND_SOLVE_NUM);
      chosen := FirstListed(files, k);
      ok, order, done := SolveBatch(files, k, solve, chosen);
      PrefixSubset(files, k, chosen, names - old(depot.solvedSeeds));
    }

    /** The seeds that are not solved, in some order. */
    method Unsolved(names: set<Seed>) returns (files: seq<Seed>)
      ensures Lists(files, names - depot.solvedSeeds) && |files| == |names - depot.solvedSeeds|
      ensures forall i :: 0 <= i < |files| ==> files[i] !in depot.solvedSeeds
    {
      var found := Listing(names - depot.solvedSeeds);
      files := Sample(found, |found|);
      assert forall n :: Listed(files, names - depot.solvedSeeds, n);
    }

    method SolveNew(seed: Seed, solve: Seed -> Solved, ghost block: Seed -> seq<Event>) returns (ok: bool)
      requires CoverageOk() && seed !in depot.solvedSeeds && SolvesAs(block, solve, seed)
      modifies this`queue, this`interestingCnt, this`crashCnt, this`hangCnt, this`log, aflMap.bitmap
      modifies depot`solvedSeeds
      ensures CoverageOk() && log == old(log) + UpTo(block(seed)) && (ok <==> !Breaks(block(seed)))
      ensures depot.solvedSeeds == old(depot.solvedSeeds) + if ok then {seed} else {}
    {
      ok := SolveSeed(seed, solve(seed));
    }

    method SolveBatch(files: seq<Seed>, k: nat, solve: Seed -> Solved, ghost chosen: set<Seed>)
      returns (ok: bool, ghost order: seq<Seed>, ghost done: set<Seed>)
      requires CoverageOk() && k <= |files| && NoDuplicates(files) && Lists(files[..k], chosen)
      requires forall i :: 0 <= i < |files| ==> files[i] !in depot.solvedSeeds
      modifies this`queue, this`interestingCnt, this`crashCnt, this`hangCnt, this`log, aflMap.bitmap
      modifies depot`solvedSeeds
      ensures CoverageOk() && log == old(log) + UpTo(EventsOf(Solving(solve), order))
      ensures ok <==> !Breaks(EventsOf(Solving(solve), order))
      ensures GoesThrough(ok, order, done, chosen)
      ensures depot.Now() == old(depot.Now()).(solved := old(depot.solvedSeeds) + done)
    {
      SolvingSolvesAs(solve);
      ok, order, done := SolveFirst(files, k, solve, chosen, Solving(solve));
    }

    /** The first k files are solved, up to one that raises an exception. */
    method SolveFirst(
      files: seq<Seed>, k: nat, solve: Seed -> Solved, ghost chosen: set<Seed>, ghost block: Seed -> seq<Event>)
      returns (ok: bool, ghost order: seq<Seed>, ghost done: set<Seed>)
      requires CoverageOk() && k <= |files| && NoDuplicates(files) && Lists(files[..k], chosen)
      requires forall i :: 0 <= i < |files| ==> files[i] !in depot.solvedSeeds
      requires forall n :: SolvesAs(block, solve, n)
      modifies this`queue, this`interestingCnt, this`crashCnt, this`hangCnt, this`log, aflMap.bitmap
      modifies depot`solvedSeeds
      ensures CoverageOk() && log == old(log) + UpTo(EventsOf(block, order))
      ensures (ok <==> !Breaks(EventsOf(block, order))) && GoesThrough(ok, order, done, chosen)
      ensures depot.solvedSeeds == old(depot.solvedSeeds) + done
    {
      done := {};
      for i := 0 to k
        invariant CoverageOk() && log == old(log) + EventsOf(block, files[..i]) && !Breaks(EventsOf(block, files[..i]))
        invariant Lists(files[..i], done)
        invariant depot.solvedSeeds == old(depot.solvedSeeds) + done
      {
        PrefixLists(files, i, done);
        EventsOfMore(old(log), block, files[..i], files[i]);
        var good := SolveNew(files[i], solve, block);
        if !good {
          StopsAt(files, k, i, done, chosen);
          return false, files[..i + 1], done;
        }
        done := done + {files[i]};
      }
      ok, order := true, files[..k];
      ListsSame(files[..k], done, chosen);
      UpToAll(EventsOf(block, order));
    }

    /** The body of the loop over the schedule. False: an exception is raised. */
    method CrackAndSolve(seed: Seed, crack: Cracked, solve: Solved, labels: map<Addr, nat>, ghost events: seq<Event>)
      returns (ok: bool, merged: map<Addr, nat>)
      requires CoverageOk()
      requires events == CrackEvents(crack) + SolveEvents(solve, seed in depot.solvedSeeds)
      modifies this`queue, this`interestingCnt, this`crashCnt, this`hangCnt, this`log, aflMap.bitmap
      modifies depot`solvedSeeds
      ensures CoverageOk() && depot.solvedSeeds == old(depot.solvedSeeds) + if ok then {seed} else {}
      ensures log == old(log) + UpTo(events) && (ok <==> !Breaks(events))
      ensures ok ==> forall a :: a in merged <==> a in labels || HasTestcases(crack.groups, a)
      ensures ok ==> RecordsBoth(crack, solve, seed in old(depot.solvedSeeds), old(Recorded()), Recorded())
    {
      InTurn(log, CrackEvents(crack), SolveEvents(solve, seed in depot.solvedSeeds));
      var counts;
      merged := labels;
      ok, counts := CrackSeed(crack);
      if !ok { return; }
      merged := MergeLabels(labels, counts);
      ok := SolveSeed(seed, solve);
    }

    method CrackNext(seed: Seed, candidate: map<Seed, seq<Addr>>, world: World, labels: map<Addr, nat>,
                     ghost block: Seed -> seq<Event>, ghost solved: set<Seed>)
      returns (ok: bool, merged: map<Addr, nat>)
      requires CoverageOk() && seed in candidate && CracksAs(block, world, candidate, solved, seed)
      requires seed in depot.solvedSeeds <==> seed in solved
      modifies this`queue, this`interestingCnt, this`crashCnt, this`hangCnt, this`log, aflMap.bitmap
      modifies depot`solvedSeeds
      ensures CoverageOk() && depot.solvedSeeds == old(depot.solvedSeeds) + if ok then {seed} else {}
      ensures log == old(log) + UpTo(block(seed)) && (ok <==> !Breaks(block(seed)))
      ensures ok ==> forall a :: a in merged <==> a in labels || Sampled(world.crack, candidate, seed, a)
    {
      ok, merged := CrackAndSolve(seed, world.crack(seed, candidate[seed]), world.solve(seed), labels, block(seed));
    }

    /** The body of the loop. */
    method CrackMore(
      seed: Seed, candidate: map<Seed, seq<Addr>>, world: World, labels: map<Addr, nat>, ghost block: Seed -> seq<Event>,
      ghost solved: set<Seed>, ghost was: seq<Event>, ghost order: seq<Seed>, ghost done: set<Seed>)
      returns (ok: bool, merged: map<Addr, nat>)
      requires CoverageOk() && seed in candidate && CracksAs(block, world, candidate, solved, seed)
      requires Lists(order, done) && seed !in done && done <= candidate.Keys && depot.solvedSeeds == solved + done
      requires log == was + EventsOf(block, order) && !Breaks(EventsOf(block, order))
      requires AreLabels(labels, world, candidate, done)
      modifies this`queue, this`interestingCnt, this`crashCnt, this`hangCnt, this`log, aflMap.bitmap
      modifies depot`solvedSeeds
      ensures CoverageOk() && depot.solvedSeeds == solved + done + if ok then {seed} else {}
      ensures log == was + UpTo(EventsOf(block, order + [seed])) && (ok <==> !Breaks(EventsOf(block, order + [seed])))
      ensures ok ==> log == was + EventsOf(block, order + [seed])
      ensures ok ==> Lists(order + [seed], done + {seed}) && AreLabels(merged, world, candidate, done + {seed})
      ensures !ok ==> GoesThrough(false, order + [seed], done, candidate.Keys)
    {
      EventsOfMore(was, block, order, seed);
      ListsMore(order, done, seed);
      BrokenAt(order, done, seed, candidate.Keys);
      ok, merged := CrackNext(seed, candidate, world, labels, block, solved);
      if ok { LabelsMore(labels, merged, world, candidate, done, seed); }
    }

    /** The loop over the schedule: crack every seed, and solve it, up to one that raises an exception. */
    method CrackAll(candidate: map<Seed, seq<Addr>>, world: World, ghost block: Seed -> seq<Event>)
      returns (ok: bool, labels: map<Addr, nat>, ghost order: seq<Seed>, ghost done: set<Seed>)
      requires CoverageOk()
      requires forall n :: CracksAs(block, world, candidate, depot.solvedSeeds, n)
      modifies this`queue, this`interestingCnt, this`crashCnt, this`hangCnt, this`log, aflMap.bitmap
      modifies depot`solvedSeeds
      ensures CoverageOk() && log == old(log) + UpTo(EventsOf(block, order))
      ensures (ok <==> !Breaks(EventsOf(block, order))) && GoesThrough(ok, order, done, candidate.Keys)
      ensures depot.solvedSeeds == old(depot.solvedSeeds) + done
      ensures ok ==> forall a :: a in labels <==> exists n :: Sampled(world.crack, candidate, n, a)
    {
      ok, labels, order, done := true, map[], [], {};
      var rest := candidate.Keys;
      while rest != {}
        invariant ok && rest <= candidate.Keys && done == candidate.Keys - rest && Lists(order, done)
        invariant CoverageOk() && log == old(log) + EventsOf(block, order) && !Breaks(EventsOf(block, order))
        invariant depot.solvedSeeds == old(depot.solvedSeeds) + done
        invariant AreLabels(labels, world, candidate, done)
      {
        var seed :| seed in rest;
        ok, labels := CrackMore(seed, candidate, world, labels, block, old(depot.solvedSeeds), old(log), order, done);
        order := order + [seed];
        if !ok { return; }
        rest, done := rest - {seed}, done + {seed};
      }
      assert done == candidate.Keys;
      AllLabels(labels, world, candidate);
      UpToAll(EventsOf(block, order));
    }

    /** The rest of the body of the main loop, when something was scheduled. */
    method CrackSchedule(candidate: map<Seed, seq<Addr>>, world: World)
      returns (end: Ending, ghost endInit: bool, ghost order: seq<Seed>, ghost done: set<Seed>)
      requires CoverageOk()
      modifies this`queue, this`interestingCnt, this`crashCnt, this`hangCnt, this`log, aflMap.bitmap
      modifies depot`solvedSeeds, depot`initPhase
      ensures CoverageOk() && GoesThrough(!end.Broken?, order, done, candidate.Keys)
      ensures var events := EventsOf(Cracking(world, candidate, old(depot.solvedSeeds)), order);
        log == old(log) + UpTo(events) && (end.Broken? <==> Breaks(events))
      ensures Judged(world, candidate, end, endInit, depot.covState.Keys)
      ensures depot.Now() == old(depot.Now()).(
        solved := old(depot.solvedSeeds) + done, initPhase := old(depot.initPhase) && !endInit)
    {
      var ok, labels;
      CrackingCracksAs(world, candidate, depot.solvedSeeds);
      ok, labels, order, done := CrackAll(candidate, world, Cracking(world, candidate, depot.solvedSeeds));
      if !ok { return Broken, false, order, done; }
      end, endInit := LearnFrom(labels, candidate, world);
    }

    /** update_model */
    method LearnFrom(labels: map<Addr, nat>, ghost candidate: map<Seed, seq<Addr>>, ghost world: World)
      returns (end: Ending, ghost endInit: bool)
      requires forall a :: a in labels <==> exists n :: Sampled(world.crack, candidate, n, a)
      modifies depot`initPhase
      ensures !end.Broken? && Judged(world, candidate, end, endInit, depot.covState.Keys)
      ensures depot.Now() == old(depot.Now()).(initPhase := old(depot.initPhase) && !endInit)
    {
      LabelsAreSampled(labels.Keys, world.crack, candidate, depot.covState.Keys);
      var known := depot.UpdateModel(labels);
      end, endInit := if known then Finished else NoNode, labels.Keys != {};
    }

    /** What the main loop does with a schedule. */
    method Carry(candidate: map<Seed, seq<Addr>>, world: World)
      returns (end: Ending, ghost chosen: set<Seed>, ghost endInit: bool, ghost order: seq<Seed>, ghost done: set<Seed>)
      requires CoverageOk()
      modifies this`queue, this`interestingCnt, this`crashCnt, this`hangCnt, this`log, aflMap.bitmap
      modifies depot`solvedSeeds, depot`initPhase
      ensures CoverageOk() && log == old(log) + UpTo(Performed(world, candidate, old(depot.solvedSeeds), order))
      ensures end.Broken? <==> Breaks(Performed(world, candidate, old(depot.solvedSeeds), order))
      ensures GoesThrough(!end.Broken?, order, done, if candidate.Keys == {} then chosen else candidate.Keys)
      ensures Judged(world, candidate, end, endInit, depot.covState.Keys)
      ensures if candidate.Keys == {} then ToSolve(chosen, world.later, old(depot.solvedSeeds)) else chosen == {}
      ensures depot.Now() == old(depot.Now()).(
        solved := old(depot.solvedSeeds) + done, initPhase := old(depot.initPhase) && !endInit)
    {
      if |candidate| == 0 {
        var ok;
        ok, chosen, order, done := SolveRandom(world.later, world.solve);
        end, endInit := if ok then Finished else Broken, false;
      } else {
        chosen := {};
        end, endInit, order, done := CrackSchedule(candidate, world);
      }
    }

    /** The body of the main loop after tracing. */
    method Work(world: World) returns (end: Ending, ghost p: Pass)
      requires CoverageOk()
      modifies this`queue, this`interestingCnt, this`crashCnt, this`hangCnt, this`log, aflMap.bitmap
      modifies depot`solvedSeeds, depot`initPhase, depot`crackedSeed, depot`crackedAddr
      ensures CoverageOk() && log == old(log) + Executes(world, p)
      ensures p.traced == old(depot.Now()) && p.end == end && Describes(world, p)
      ensures Changes(world, p, depot.Now())
    {
      ghost var s := depot.Now();
      var schedule;
      ghost var addrs, picks, chosen, endInit, order, done;
      schedule, addrs, picks := depot.ConcolicCandidate(CANDIDATE_NUM, CRACK_SEED_MAX);
      ghost var scheduled := depot.Now();
      end, chosen, endInit, order, done := Carry(schedule, world);
      p := Pass(s, Iteration(addrs, picks, chosen, endInit), schedule, order, done, end);
      IterationMade(scheduled, world, p, depot.Now());
    }

    /** The body of the main loop. */
    method Iterate(world: World) returns (ok: bool, ghost p: Pass)
      requires CoverageOk() && TreeOk()
      modifies this, aflMap.bitmap, depot, depot.covState.Values
      ensures CoverageOk() && TreeOk() && ok == IsOk(p)
      ensures Passes(world, old(View()), p, View())
      ensures fresh(depot.covState.Values - old(depot.covState.Values))
    {
      ghost var before := View();
      TraceRecorded(world);
      ok, p := WorkRecorded(world, before);
    }

    method TraceRecorded(world: World)
      requires TreeOk()
      modifies this`seen, depot`tracedSeeds, depot`covState, depot.covState.Values
      ensures TreeOk() && Traces(world, old(View()), View())
      ensures fresh(depot.covState.Values - old(depot.covState.Values))
    {
      Trace(world.queue, world.trace);
    }

    method WorkRecorded(world: World, ghost before: Situation) returns (ok: bool, ghost p: Pass)
      requires CoverageOk() && Traces(world, before, View())
      modifies this`queue, this`interestingCnt, this`crashCnt, this`hangCnt, this`log, aflMap.bitmap
      modifies depot`solvedSeeds, depot`initPhase, depot`crackedSeed, depot`crackedAddr
      ensures CoverageOk() && ok == IsOk(p) && Passes(world, before, p, View())
      ensures TreeOk() == old(TreeOk())
    {
      var end;
      ghost var traced := View();
      end, p := Work(world);
      ok := end.Finished?;
      PassMade(world, before, traced, p, View());
    }

    /** The main loop, up to an exception or for as many iterations as there are worlds. */
    method Run(worlds: seq<World>) returns (raised: bool, ghost h: History)
      requires CoverageOk() && TreeOk()
      modifies this, aflMap.bitmap, depot, depot.covState.Values
      ensures CoverageOk() && TreeOk()
      ensures IsHistory(worlds, h) && First(h) == old(View()) && Last(h) == View()
      ensures raised <==> !Unbroken(IsOk, h)
      ensures !raised ==> |h.passes| == |worlds|
    {
      h := Chain([View()], []);
      raised := false;
      for i := 0 to |worlds|
        invariant CoverageOk() && TreeOk()
        invariant fresh(depot.covState.Values - old(depot.covState.Values))
        invariant |h.passes| == i && Unbroken(IsOk, h) && IsHistory(worlds, h)
        invariant First(h) == old(View()) && Last(h) == View()
      {
        var ok;
        ok, h := IterateNext(worlds, i, h);
        if !ok { return true, h; }
      }
    }

    method IterateNext(worlds: seq<World>, i: nat, ghost h: History) returns (ok: bool, ghost h': History)
      requires CoverageOk() && TreeOk()
      requires IsHistory(worlds, h) && Unbroken(IsOk, h) && |h.passes| == i < |worlds| && Last(h) == View()
      modifies this, aflMap.bitmap, depot, depot.covState.Values
      ensures CoverageOk() && TreeOk()
      ensures IsHistory(worlds, h') && First(h') == First(h) && Last(h') == View() && |h'.passes| == i + 1
      ensures ok <==> Unbroken(IsOk, h')
      ensures fresh(depot.covState.Values - old(depot.covState.Values))
    {
      ghost var p;
      ok, p := Iterate(worlds[i]);
      ExtendHistory(worlds, h, p, View());
      h' := Extend(h, p, View());
    }
  }

  /** What can be told between two iterations: the scheduler's state, the seeds that were traced, what was seen in
      their traces, and the testcases and maps so far. */
  datatype Situation = Situation(now: State, known: set<Seed>, seen: set<Occurrence>, log: seq<Event>)

  /** How an iteration ends: update_model may raise, because a label has no node; and a map or file of the wrong length
      breaks it off. */
  datatype Ending = Finished | NoNode | Broken

  /** What an iteration did: the state after tracing, the schedule, the seeds in the order they were executed, and those
      that were done when it ended. */
  datatype Pass = Pass(
    traced: State, it: Iteration, candidate: map<Seed, seq<Addr>>, order: seq<Seed>, done: set<Seed>, end: Ending)

  /** The seeds that are new in the queue were traced. */
  ghost predicate Traces(w: World, s: Situation, t: Situation) {
    && t == s.(now := s.now.(tree := t.now.tree), known := s.known + w.queue,
               seen := s.seen + SeenIn(w.trace, w.queue - s.known))
    && TreeGrows(s.now.tree, t.now.tree) && (w.queue <= s.known ==> t.now.tree == s.now.tree)
  }

  ghost predicate Passes(w: World, s: Situation, p: Pass, t: Situation) {
    && p.traced == s.now.(tree := p.traced.tree) && TreeGrows(s.now.tree, p.traced.tree)
    && (w.queue <= s.known ==> p.traced == s.now)
    && t.known == s.known + w.queue && t.seen == s.seen + SeenIn(w.trace, w.queue - s.known)
    && Describes(w, p) && Changes(w, p, t.now) && t.log == s.log + Executes(w, p)
  }

  lemma {:induction false} PassMade(w: World, s: Situation, traced: Situation, p: Pass, t: Situation)
    requires Traces(w, s, traced) && p.traced == traced.now && Describes(w, p) && Changes(w, p, t.now)
    requires t == traced.(now := t.now, log := traced.log + Executes(w, p))
    ensures Passes(w, s, p, t)
  {
  }

  /** The state machine's part: an iteration, or one that is broken off. */
  ghost predicate Changes(w: World, p: Pass, t: State) {
    if p.end.Broken? then BreaksOff(p.traced, p.it, p.done, t, w.later, CANDIDATE_NUM, CRACK_SEED_MAX)
    else Iterates(p.traced, p.it, t, w.later, CANDIDATE_NUM, CRACK_SEED_MAX)
  }

  /** What an iteration executes: up to an exception. */
  ghost function Executes(w: World, p: Pass): seq<Event> {
    UpTo(Performed(w, p.candidate, p.traced.solved, p.order))
  }

  predicate IsOk(p: Pass) { p.end.Finished? }

  /** Each world was met by one iteration, one after the other; only the last iteration may have raised. */
  type History = Chain<Situation, Pass>

  ghost predicate IsHistory(worlds: seq<World>, h: History) {
    IsChain(Passes, IsOk, worlds, h)
  }

  lemma {:induction false} ExtendHistory(worlds: seq<World>, h: History, p: Pass, t: Situation)
    requires IsHistory(worlds, h) && Unbroken(IsOk, h) && |h.passes| < |worlds|
    requires Passes(worlds[|h.passes|], Last(h), p, t)
    ensures IsHistory(worlds, Extend(h, p, t)) && First(Extend(h, p, t)) == First(h) && Last(Extend(h, p, t)) == t
    ensures Unbroken(IsOk, Extend(h, p, t)) <==> IsOk(p)
  {
    ExtendChain(Passes, IsOk, worlds, h, p, t);
  }

  ghost predicate IsRunBetween(s: State, states: seq<State>, steps: seq<Step>, t: State) {
    IsRun(states, steps, CANDIDATE_NUM, CRACK_SEED_MAX) && states[0] == s && states[|steps|] == t
  }

  /** The schedules of the iterations. */
  function Plans(passes: seq<Pass>): (plans: seq<Step>)
    ensures |plans| == |passes|
  {
    seq(|passes|, i requires 0 <= i < |passes| => Schedule(passes[i].it.order, passes[i].it.picks))
  }

  lemma PlansOneMore(passes: seq<Pass>)
    requires passes != []
    ensures var n := |passes| - 1;
      Plans(passes) == Plans(passes[..n]) + [Schedule(passes[n].it.order, passes[n].it.picks)]
  {
  }

  /** What the main loop does, whatever the worlds are, is a run of the state machine, which schedules exactly what the
      iterations schedule. So what holds of all runs holds of the main loop. */
  lemma {:induction false} HistoryIsRun(worlds: seq<World>, h: History)
      returns (states: seq<State>, steps: seq<Step>)
    requires IsHistory(worlds, h)
    ensures IsRunBetween(First(h).now, states, steps, Last(h).now)
    ensures Schedules(steps) == Plans(h.passes)
    decreases |h.passes|
  {
    if h.passes == [] {
      states, steps := [First(h).now], [];
    } else {
      var n := |h.passes| - 1;
      InitChain(Passes, IsOk, worlds, h);
      states, steps := HistoryIsRun(worlds, Init(h));
      PlansOneMore(h.passes);
      states, steps := ExtendRunByPass(states, steps, worlds[n], Last(Init(h)), h.passes[n], Last(h));
    }
  }

  lemma {:induction false} ExtendRunByPass(
      states: seq<State>, steps: seq<Step>, w: World, s: Situation, p: Pass, t: Situation)
      returns (states': seq<State>, steps': seq<Step>)
    requires IsRun(states, steps, CANDIDATE_NUM, CRACK_SEED_MAX) && states[|steps|] == s.now && Passes(w, s, p, t)
    ensures IsRunBetween(states[0], states', steps', t.now)
    ensures Schedules(steps') == Schedules(steps) + [Schedule(p.it.order, p.it.picks)]
  {
    states', steps' := ExtendRun(states, steps, w, p, t.now);
  }

  /** So the accounting is right after any number of iterations from the start. */
  lemma {:induction false} HistoryKeepsAccount(worlds: seq<World>, h: History)
    requires IsHistory(worlds, h) && Initial(First(h).now)
    ensures Accounted(Last(h).now)
  {
    var states, steps := HistoryIsRun(worlds, h);
    RunKeepsAccount(states, steps, CANDIDATE_NUM, CRACK_SEED_MAX);
  }

  /** No two iterations schedule the same pair. */
  lemma {:induction false} HistoryNoPairTwice(worlds: seq<World>, h: History, i: nat, j: nat)
    requires IsHistory(worlds, h) && i < j < |h.passes|
    ensures Pairs(h.passes[i].it.picks) !! Pairs(h.passes[j].it.picks)
  {
    var states, steps := HistoryIsRun(worlds, h);
    var m, n := EarlierScheduleAt(steps, i, j);
    NoPairTwice(states, steps, CANDIDATE_NUM, CRACK_SEED_MAX, m, n);
  }

  /** An address that is covered between two iterations is not scheduled by any later one. */
  lemma {:induction false} HistoryCoveredNeverScheduled(
      worlds: seq<World>, h: History, a: Addr, i: nat, j: nat, k: nat)
    requires IsHistory(worlds, h) && i <= j < |h.passes| && k < |h.passes[j].it.picks|
    requires a in h.situations[i].now.tree && Condition.Covered(h.situations[i].now.tree[a])
    ensures h.passes[j].it.picks[k].addr != a
  {
    var late := Onward(h, i);
    OnwardChain(Passes, IsOk, worlds, h, i);
    var states, steps := HistoryIsRun(worlds[i..], late);
    var m := ScheduleAt(steps, j - i);
    assert late.passes[j - i] == h.passes[j];
    CoveredNeverScheduled(states, steps, CANDIDATE_NUM, CRACK_SEED_MAX, a, 0, m, k);
  }

  /** Once the init phase is over it stays so, and no budget ever exceeds the larger of what it was then and 17. */
  lemma {:induction false} HistoryBoundsBudget(worlds: seq<World>, h: History, a: Addr, i: nat, j: nat)
    requires IsHistory(worlds, h) && i <= j <= |h.passes| && !h.situations[i].now.initPhase
    ensures !h.situations[j].now.initPhase
    ensures Budget(h.situations[j].now, a) <= Max(Budget(h.situations[i].now, a), 17)
    decreases |h.passes|
  {
    if j < |h.passes| {
      InitChain(Passes, IsOk, worlds, h);
      HistoryBoundsBudget(worlds, Init(h), a, i, j);
    } else {
      OnwardChain(Passes, IsOk, worlds, h, i);
      var states, steps := HistoryIsRun(worlds[i..], Onward(h, i));
      RunBoundsBudget(states, steps, CANDIDATE_NUM, CRACK_SEED_MAX, a);
    }
  }

  /** The numbers: an iteration treats at most 10 addresses, with at most 10 seeds each, and without a schedule takes 10
      seeds that are not solved, or all there are. */
  lemma {:induction false} HistoryNumbers(worlds: seq<World>, h: History, i: nat)
    requires IsHistory(worlds, h) && i < |h.passes|
    ensures var p := h.passes[i];
      && |p.it.picks| == (if |p.it.order| < 10 then |p.it.order| else 10)
      && (forall k :: 0 <= k < |p.it.picks| ==> p.it.picks[k].addr == p.it.order[k])
      && (Pairs(p.it.picks) == {} ==>
            var rest := |worlds[i].later - p.traced.solved|; |p.it.chosen| == if rest < 10 then rest else 10)
  {
    assert LinkAt(Passes, IsOk, worlds, h, i);
    assert Follows(h.passes[i].traced, h.passes[i].it.order, h.passes[i].it.picks, CRACK_SEED_MAX);
  }

  /** The seeds that pass the address and were not scheduled for it before. */
  function Unscheduled(s: State, a: Addr): set<Seed>
    requires a in s.tree
  {
    set n | n in s.tree[a].belongs && (a, n) !in s.cracked
  }

  /** The seeds of each address: 10 of those that pass it and were not scheduled for it, or all there are; and solved ones
      only if all others are taken. */
  lemma {:induction false} HistorySelections(worlds: seq<World>, h: History, i: nat, k: nat)
    requires IsHistory(worlds, h) && i < |h.passes| && k < |h.passes[i].it.picks|
    ensures var s, a, seeds := h.passes[i].traced, h.passes[i].it.picks[k].addr, h.passes[i].it.picks[k].seeds;
      && a in s.tree && NoDuplicates(seeds) && (forall n :: n in seeds ==> n in Unscheduled(s, a))
      && |seeds| == (if |Unscheduled(s, a)| < 10 then |Unscheduled(s, a)| else 10)
      && ((exists n :: n in seeds && n in s.solved) ==>
            forall n :: n in Unscheduled(s, a) && n !in s.solved ==> n in seeds)
  {
    assert LinkAt(Passes, IsOk, worlds, h, i);
    var p := h.passes[i];
    assert Follows(p.traced, p.it.order, p.it.picks, CRACK_SEED_MAX);
    assert SelectionOk(p.traced, p.it.order[k], p.it.picks[k].seeds, CRACK_SEED_MAX);
    assert Unscheduled(p.traced, p.it.order[k]) == Available(p.traced, p.it.order[k]);
  }

  /** The schedule has the seed for the address. */
  predicate Assigns(p: Pass, k: int, a: Addr, n: Seed) {
    0 <= k < |p.it.picks| && p.it.picks[k].addr == a && n in p.it.picks[k].seeds
  }

  /** What an iteration that is not broken off changes: the pairs of its schedule are recorded; the seeds it executed, those
      of the schedule, or else ones of the queue that were not solved, become solved; and the init phase ends iff
      cracking made a testcase. */
  lemma {:induction false} HistoryChanges(worlds: seq<World>, h: History, i: nat)
    requires IsHistory(worlds, h) && i < |h.passes| && !h.passes[i].end.Broken?
    ensures var w, p, t := worlds[i], h.passes[i], h.situations[i + 1].now;
      && (forall a: Addr, n: Seed :: (a, n) in t.cracked <==>
            (a, n) in p.traced.cracked || exists k :: Assigns(p, k, a, n))
      && (forall n :: n in t.solved <==> n in p.traced.solved || n in p.order)
      && (forall n :: n in p.order ==>
            (exists k, a :: Assigns(p, k, a, n)) || (n in w.later && n !in p.traced.solved))
      && (t.initPhase <==> p.traced.initPhase && forall n, a :: !Sampled(w.crack, p.candidate, n, a))
      && t.tree == p.traced.tree
  {
    assert LinkAt(Passes, IsOk, worlds, h, i);
    PassPairs(worlds[i], h.passes[i], h.situations[i + 1].now);
    PassEndsInit(worlds[i], h.passes[i], h.situations[i + 1].now);
    PassSolves(worlds[i], h.passes[i], h.situations[i + 1].now);
  }

  lemma {:induction false} InPairs(p: Pass, a: Addr, n: Seed)
    ensures (a, n) in Pairs(p.it.picks) <==> exists k :: Assigns(p, k, a, n)
  {
    if (a, n) in Pairs(p.it.picks) {
      var k, m :| 0 <= k < |p.it.picks| && m in p.it.picks[k].seeds && (a, n) == (p.it.picks[k].addr, m);
      assert Assigns(p, k, a, n);
    }
    if k :| Assigns(p, k, a, n) { assert (p.it.picks[k].addr, n) in Pairs(p.it.picks); }
  }

  lemma {:induction false} ExecutedIs(w: World, p: Pass, n: Seed)
    requires Describes(w, p) && !p.end.Broken?
    ensures n in p.order <==> n in ToDo(p.it)
  {
    ToDoIs(w, p);
    assert Listed(p.order, if p.candidate.Keys == {} then p.it.chosen else p.candidate.Keys, n);
  }

  lemma {:induction false} PassPairs(w: World, p: Pass, t: State)
    requires Describes(w, p) && Changes(w, p, t) && !p.end.Broken?
    ensures forall a: Addr, n: Seed :: (a, n) in t.cracked <==>
      (a, n) in p.traced.cracked || exists k :: Assigns(p, k, a, n)
    ensures t.tree == p.traced.tree
  {
    assert t.cracked == p.traced.cracked + Pairs(p.it.picks);
    forall a: Addr, n: Seed ensures (a, n) in Pairs(p.it.picks) <==> exists k :: Assigns(p, k, a, n) { InPairs(p, a, n); }
  }

  lemma {:induction false} PassEndsInit(w: World, p: Pass, t: State)
    requires Describes(w, p) && Changes(w, p, t) && !p.end.Broken?
    ensures t.initPhase <==> p.traced.initPhase && forall n, a :: !Sampled(w.crack, p.candidate, n, a)
  {
    ToDoIs(w, p);
    assert p.it.endInit <==> exists n, a :: Sampled(w.crack, p.candidate, n, a);
    assert t.initPhase == (p.traced.initPhase && !p.it.endInit);
  }

  lemma {:induction false} PassSolves(w: World, p: Pass, t: State)
    requires Describes(w, p) && Changes(w, p, t) && !p.end.Broken?
    ensures forall n :: n in t.solved <==> n in p.traced.solved || n in p.order
    ensures forall n :: n in p.order ==>
      (exists k, a :: Assigns(p, k, a, n)) || (n in w.later && n !in p.traced.solved)
  {
    forall n ensures n in p.order <==> n in ToDo(p.it) { ExecutedIs(w, p, n); }
    forall n | n in ToDo(p.it) ensures (exists k, a :: Assigns(p, k, a, n)) || (n in w.later && n !in p.traced.solved) {
      if Pairs(p.it.picks) != {} {
        var pair :| pair in Pairs(p.it.picks) && pair.1 == n;
        InPairs(p, pair.0, n);
      }
    }
  }

  // ----- what an iteration leaves behind

  /** One seed of the iteration: it is cracked for its addresses and then solved; or, without a schedule, only solved. */
  ghost predicate RecordsSeed(w: World, p: Pass, n: Seed, s: Files, t: Files) {
    if p.candidate.Keys == {} then Records(w.solve(n).snapshot, w.solve(n).runs, s, t)
    else n in p.candidate && RecordsBoth(w.crack(n, p.candidate[n]), w.solve(n), n in p.traced.solved, s, t)
  }

  lemma {:induction false} SolvingRecords(start: FullMap, log: seq<Event>, result: Solved)
    requires !Breaks(SolveEvents(result, false))
    ensures Records(result.snapshot, result.runs, FilesOf(After(start, log)),
                    FilesOf(After(start, log + SolveEvents(result, false))))
  {
    LogRecords(start, log, result.snapshot, result.runs);
  }

  lemma {:induction false} CrackingRecords(
      start: FullMap, log: seq<Event>, crack: Cracked, solve: Solved, solved: bool)
    requires !Breaks(CrackEvents(crack) + SolveEvents(solve, solved))
    ensures RecordsBoth(crack, solve, solved, FilesOf(After(start, log)),
                        FilesOf(After(start, log + (CrackEvents(crack) + SolveEvents(solve, solved)))))
  {
    var mid := log + CrackEvents(crack);
    UpToBoth(CrackEvents(crack), SolveEvents(solve, solved));
    FlatEvents(crack.groups);
    LogRecords(start, log, crack.snapshot, Flat(crack.groups));
    Reassociate(log, CrackEvents(crack), SolveEvents(solve, solved));
    if solved {
      assert mid + [] == mid;
    } else {
      SolvingRecords(start, mid, solve);
    }
    assert RecordsSolving(solve, solved, FilesOf(After(start, mid)), FilesOf(After(start, mid + SolveEvents(solve, solved))));
  }

  /** The events of a seed of the iteration. */
  function BlockOf(w: World, p: Pass): Seed -> seq<Event> {
    if p.candidate.Keys == {} then Solving(w.solve) else Cracking(w, p.candidate, p.traced.solved)
  }

  lemma {:induction false} BlockRecords(
      start: FullMap, log: seq<Event>, w: World, p: Pass, block: Seed -> seq<Event>, n: Seed)
    requires block == BlockOf(w, p) && (p.candidate.Keys == {} || n in p.candidate) && !Breaks(block(n))
    ensures RecordsSeed(w, p, n, FilesOf(After(start, log)), FilesOf(After(start, log + block(n))))
  {
    if p.candidate.Keys == {} {
      SolvingRecords(start, log, w.solve(n));
    } else {
      CrackingRecords(start, log, w.crack(n, p.candidate[n]), w.solve(n), n in p.traced.solved);
    }
  }

  /** The files from one seed to the next. */
  ghost predicate RecordsAll(w: World, p: Pass, order: seq<Seed>, fs: seq<Files>) {
    |fs| == |order| + 1 && forall k :: 0 <= k < |order| ==> RecordsSeed(w, p, order[k], fs[k], fs[k + 1])
  }

  lemma {:induction false} OrderRecords(
      start: FullMap, log: seq<Event>, w: World, p: Pass, block: Seed -> seq<Event>, order: seq<Seed>)
      returns (fs: seq<Files>)
    requires p.candidate.Keys == {} || forall k :: 0 <= k < |order| ==> order[k] in p.candidate
    requires block == BlockOf(w, p) && !Breaks(EventsOf(block, order))
    ensures RecordsAll(w, p, order, fs) && fs[0] == FilesOf(After(start, log))
    ensures fs[|order|] == FilesOf(After(start, log + EventsOf(block, order)))
    decreases |order|
  {
    if order == [] {
      fs := [FilesOf(After(start, log))];
      assert log + [] == log;
    } else {
      var init, n := order[..|order| - 1], order[|order| - 1];
      var before := EventsOf(block, init);
      UpToBoth(before, block(n));
      fs := OrderRecords(start, log, w, p, block, init);
      BlockRecords(start, log + before, w, p, block, n);
      Reassociate(log, before, block(n));
      fs := OneMoreRecorded(w, p, order, fs, FilesOf(After(start, (log + before) + block(n))));
    }
  }

  lemma {:induction false} OneMoreRecorded(w: World, p: Pass, order: seq<Seed>, fs: seq<Files>, f: Files)
      returns (fs': seq<Files>)
    requires order != [] && RecordsAll(w, p, order[..|order| - 1], fs)
    requires RecordsSeed(w, p, order[|order| - 1], fs[|order| - 1], f)
    ensures RecordsAll(w, p, order, fs') && fs'[0] == fs[0] && fs'[|order|] == f
  {
    fs' := fs + [f];
    forall k | 0 <= k < |order| ensures RecordsSeed(w, p, order[k], fs'[k], fs'[k + 1]) {
      if k < |order| - 1 { assert order[..|order| - 1][k] == order[k]; }
    }
  }

  /** What an iteration that is not broken off leaves behind: its seeds are recorded one after the other, in their order,
      from the files there were to the files there are. */
  lemma {:induction false} HistoryRecords(start: FullMap, worlds: seq<World>, h: History, i: nat)
      returns (fs: seq<Files>)
    requires IsHistory(worlds, h) && i < |h.passes| && !h.passes[i].end.Broken?
    ensures RecordsAll(worlds[i], h.passes[i], h.passes[i].order, fs)
    ensures fs[0] == FilesOf(After(start, h.situations[i].log))
    ensures fs[|h.passes[i].order|] == FilesOf(After(start, h.situations[i + 1].log))
  {
    assert LinkAt(Passes, IsOk, worlds, h, i);
    var p := h.passes[i];
    var all := if p.candidate.Keys == {} then p.it.chosen else p.candidate.Keys;
    forall k | 0 <= k < |p.order| ensures p.order[k] in all { assert Listed(p.order, all, p.order[k]); }
    UpToAll(Performed(worlds[i], p.candidate, p.traced.solved, p.order));
    fs := OrderRecords(start, h.situations[i].log, worlds[i], p, BlockOf(worlds[i], p), p.order);
  }

  /** The addresses from which an iteration chooses: those that are not covered and, after the init phase, were scheduled
      for fewer than 8 seeds. */
  lemma {:induction false} HistoryCandidates(worlds: seq<World>, h: History, i: nat, a: Addr)
    requires IsHistory(worlds, h) && i < |h.passes|
    ensures var p := h.passes[i];
      a in p.it.order <==>
        && a in p.traced.tree && |p.traced.tree[a].children| < Condition.SuccMax(p.traced.tree[a].condition)
        && (p.traced.initPhase || Budget(p.traced, a) < 8)
  {
    assert LinkAt(Passes, IsOk, worlds, h, i);
    assert IsOrder(h.passes[i].traced, h.passes[i].it.order);
  }

  /** The iteration does not wait, and is not broken off. */
  ghost predicate Works(w: World, p: Pass) {
    !p.end.Broken? && !Waits(p.traced, p.it, w.later)
  }

  lemma {:induction false} PassWorks(w: World, s: Situation, p: Pass, t: Situation)
    requires Passes(w, s, p, t)
    ensures Done(s.now) <= Done(t.now) && (Works(w, p) ==> Done(s.now) < Done(t.now))
  {
    if p.end.Broken? {
      BreakWorks(p.traced, p.it, p.done, t.now, w.later, CANDIDATE_NUM, CRACK_SEED_MAX);
    } else {
      IterationWorks(p.traced, p.it, t.now, w.later, CANDIDATE_NUM, CRACK_SEED_MAX);
    }
  }

  /** Whatever the worlds are, every iteration that does not wait schedules a pair or solves a seed that was not
      before: they are at most as many as pairs and seeds were added. */
  lemma {:induction false} HistoryWorks(worlds: seq<World>, h: History)
    requires IsHistory(worlds, h)
    ensures WorkDone(Works, worlds, h) + Done(First(h).now) <= Done(Last(h).now)
  {
    var link, works, inv, measure := Passes, Works, (s: Situation) => true, (s: Situation) => Done(s.now);
    forall i, s, p, t | 0 <= i < |worlds| && link(worlds[i], s, p, t)
      ensures measure(s) <= measure(t) && (works(worlds[i], p) ==> measure(s) < measure(t))
    {
      PassWorks(worlds[i], s, p, t);
    }
    ChainMeasures(link, IsOk, worlds, h, inv, works, measure);
  }

  lemma {:induction false} PassProgress(w: World, s: Situation, p: Pass, t: Situation)
    requires Passes(w, s, p, t) && w.queue <= s.known
    ensures w.queue <= t.known
    ensures Remaining(t.now, w.later) <= Remaining(s.now, w.later)
    ensures Works(w, p) ==> Remaining(t.now, w.later) < Remaining(s.now, w.later)
  {
    if p.end.Broken? {
      BreakWorks(p.traced, p.it, p.done, t.now, w.later, CANDIDATE_NUM, CRACK_SEED_MAX);
    } else {
      IterationProgress(p.traced, p.it, t.now, w.later, CANDIDATE_NUM, CRACK_SEED_MAX);
    }
  }

  /** If the queue holds the same seeds all the while, and they were traced before, then they are at most as many as
      pairs and seeds were left at the start. */
  lemma {:induction false} HistoryProgress(worlds: seq<World>, h: History, names: set<Seed>)
    requires IsHistory(worlds, h) && names <= First(h).known
    requires forall i :: 0 <= i < |worlds| ==> worlds[i].queue == worlds[i].later == names
    ensures WorkDone(Works, worlds, h) + Remaining(Last(h).now, names) <= Remaining(First(h).now, names)
  {
    var link, works, inv := Passes, Works, (s: Situation) => names <= s.known;
    var measure: Situation -> int := (s: Situation) => -(Remaining(s.now, names) as int);
    forall i, s, p, t | 0 <= i < |worlds| && link(worlds[i], s, p, t) && inv(s)
      ensures inv(t) && measure(s) <= measure(t) && (works(worlds[i], p) ==> measure(s) < measure(t))
    {
      PassProgress(worlds[i], s, p, t);
    }
    ChainMeasures(link, IsOk, worlds, h, inv, works, measure);
  }

  /** All that was executed are the testcases of the iterations, and the snapshots taken in between. */
  lemma {:induction false} HistoryLog(worlds: seq<World>, h: History)
    requires IsHistory(worlds, h)
    ensures Last(h).log == First(h).log + Sum(Executes, worlds, h)
  {
    var link, adds, log := Passes, Executes, (s: Situation) => s.log;
    forall i, s, p, t | 0 <= i < |worlds| && link(worlds[i], s, p, t) ensures log(t) == log(s) + adds(worlds[i], p) { }
    ChainAdds(link, IsOk, worlds, h, log, adds);
  }

  function QueueOf(w: World): set<Seed> { w.queue }

  /** The seeds that were traced are those of all the queues. */
  lemma {:induction false} HistoryTraces(worlds: seq<World>, h: History)
    requires IsHistory(worlds, h)
    ensures Last(h).known == First(h).known + Union(QueueOf, worlds, |h.passes|)
  {
    var link, brings, known := Passes, QueueOf, (s: Situation) => s.known;
    forall i, s, p, t | 0 <= i < |worlds| && link(worlds[i], s, p, t)
      ensures known(t) == known(s) + brings(worlds[i])
    {
    }
    ChainCollects(link, IsOk, worlds, h, known, brings);
  }

  ghost predicate Lists<T(!new)>(xs: seq<T>, s: set<T>) {
    NoDuplicates(xs) && forall x :: Listed(xs, s, x)
  }

  predicate Listed<T(==)>(xs: seq<T>, s: set<T>, x: T) {
    x in xs <==> x in s
  }

  /** The events of an iteration, whose schedule is the candidate and which takes the seeds in this order. */
  function Performed(world: World, candidate: map<Seed, seq<Addr>>, solved: set<Seed>, order: seq<Seed>): seq<Event> {
    EventsOf(if candidate.Keys == {} then Solving(world.solve) else Cracking(world, candidate, solved), order)
  }

  /** If the iteration is not broken off, the init phase ends iff cracking generated a testcase, and update_model raises
      nothing iff the addresses of all testcases have nodes. */
  ghost predicate Judged(
    world: World, candidate: map<Seed, seq<Addr>>, end: Ending, endInit: bool, nodes: set<Addr>)
  {
    if end.Broken? then !endInit
    else
      && (endInit <==> exists n, a :: Sampled(world.crack, candidate, n, a))
      && (end.Finished? <==> forall n, a :: Sampled(world.crack, candidate, n, a) ==> a in nodes)
  }

  /** The iteration's seeds are those of the schedule, or without one those it chose. It is broken off iff something that
      it executes raises. */
  ghost predicate Describes(world: World, p: Pass) {
    && IsCandidateMap(p.candidate, p.it.picks)
    && GoesThrough(!p.end.Broken?, p.order, p.done, if p.candidate.Keys == {} then p.it.chosen else p.candidate.Keys)
    && (p.end.Broken? <==> Breaks(Performed(world, p.candidate, p.traced.solved, p.order)))
    && Judged(world, p.candidate, p.end, p.it.endInit, p.traced.tree.Keys)
  }

  /** The seeds that __solve_random takes. */
  predicate ToSolve(chosen: set<Seed>, queue: set<Seed>, solved: set<Seed>) {
    chosen <= queue - solved && |chosen| == Min(|queue - solved|, RAND_SOLVE_NUM)
  }

  /** The state after the iteration, had all its seeds been done. */
  function Whole(p: Pass, t: State): State {
    t.(solved := p.traced.solved + ToDo(p.it))
  }

  lemma {:induction false} IterationMade(scheduled: State, w: World, p: Pass, t: State)
    requires PicksOk(p.traced, p.it.order, p.it.picks, CANDIDATE_NUM, CRACK_SEED_MAX)
    requires Scheduled(p.traced, p.it.picks, scheduled) && Describes(w, p)
    requires if p.candidate.Keys == {} then ToSolve(p.it.chosen, w.later, p.traced.solved) else p.it.chosen == {}
    requires t == scheduled.(
      solved := p.traced.solved + p.done, initPhase := p.traced.initPhase && !p.it.endInit)
    ensures Changes(w, p, t)
  {
    ToDoIs(w, p);
    IterationMadeOf(p.traced, scheduled, p.it, Whole(p, t), w.later);
    if !p.end.Broken? { assert Whole(p, t) == t; }
  }

  lemma {:induction false} ToDoIs(w: World, p: Pass)
    requires Describes(w, p)
    ensures ToDo(p.it) == if p.candidate.Keys == {} then p.it.chosen else p.candidate.Keys
    ensures p.candidate.Keys == {} <==> Pairs(p.it.picks) == {}
    ensures p.candidate.Keys == {} ==> !p.it.endInit
    ensures p.done <= ToDo(p.it) && (!p.end.Broken? ==> p.done == ToDo(p.it)) && (p.end.Broken? ==> !p.it.endInit)
  {
    CandidateKeys(p.candidate, p.it.picks);
    if p.candidate.Keys == {} { NothingSampled(w, p.candidate); }
  }

  lemma NothingSampled(w: World, candidate: map<Seed, seq<Addr>>)
    requires candidate.Keys == {}
    ensures forall n, a :: !Sampled(w.crack, candidate, n, a)
  {
    forall n, a ensures !Sampled(w.crack, candidate, n, a) { assert n !in candidate.Keys; }
  }

  lemma IterationMadeOf(s: State, scheduled: State, it: Iteration, s': State, queue: set<Seed>)
    requires PicksOk(s, it.order, it.picks, CANDIDATE_NUM, CRACK_SEED_MAX) && Scheduled(s, it.picks, scheduled)
    requires if Pairs(it.picks) == {} then ToSolve(it.chosen, queue, s.solved) && !it.endInit else it.chosen == {}
    requires s' == scheduled.(solved := s.solved + ToDo(it), initPhase := s.initPhase && !it.endInit)
    ensures Iterates(s, it, s', queue, CANDIDATE_NUM, CRACK_SEED_MAX)
  {
    forall a ensures Budget(s', a) == Budget(s, a) + Added(it.picks, a) { assert Budget(s', a) == Budget(scheduled, a); }
  }

  lemma ExtendRun(states: seq<State>, steps: seq<Step>, w: World, p: Pass, t: State)
      returns (states': seq<State>, steps': seq<Step>)
    requires IsRun(states, steps, CANDIDATE_NUM, CRACK_SEED_MAX)
    requires p.traced == states[|steps|].(tree := p.traced.tree) && TreeGrows(states[|steps|].tree, p.traced.tree)
    requires Changes(w, p, t)
    ensures IsRun(states', steps', CANDIDATE_NUM, CRACK_SEED_MAX)
    ensures states'[0] == states[0] && states'[|steps'|] == t
    ensures Schedules(steps') == Schedules(steps) + [Schedule(p.it.order, p.it.picks)]
  {
    SchedulesOfOne(Scheduler.Trace(p.traced.tree));
    states', steps' := JoinRuns(
      states, steps, [states[|steps|], p.traced], [Scheduler.Trace(p.traced.tree)], CANDIDATE_NUM, CRACK_SEED_MAX);
    var more, moreSteps := PassIsRun(w, p, t);
    states', steps' := JoinRuns(states', steps', more, moreSteps, CANDIDATE_NUM, CRACK_SEED_MAX);
  }

  lemma PassIsRun(w: World, p: Pass, t: State) returns (states: seq<State>, steps: seq<Step>)
    requires Changes(w, p, t)
    ensures IsRunBetween(p.traced, states, steps, t) && Schedules(steps) == [Schedule(p.it.order, p.it.picks)]
  {
    if p.end.Broken? {
      states, steps := BreakIsRun(p.traced, p.it, p.done, t, w.later, CANDIDATE_NUM, CRACK_SEED_MAX);
    } else {
      states, steps := IterationIsRun(p.traced, p.it, t, w.later, CANDIDATE_NUM, CRACK_SEED_MAX);
    }
  }

  lemma {:induction false} BatchIndexed(tree: Tree, seen: set<Occurrence>, batch: seq<SeedTrace>, tree': Tree)
    requires Matches(tree, seen) && tree' == IndexAll(tree, batch)
    ensures Matches(tree', seen + Occurrences(batch)) && TreeGrows(tree, tree')
    ensures batch == [] ==> tree' == tree
  {
    IndexAllMatches(tree, seen, batch);
  }

  lemma NothingListed<T>(xs: seq<T>, s: set<T>)
    requires forall x :: x in xs <==> x in s
    ensures s == {} ==> xs == []
  {
    if xs != [] { assert xs[0] in s; }
  }

  lemma LabelsAreSampled(
      labels: set<Addr>, crack: (Seed, seq<Addr>) -> Cracked, candidate: map<Seed, seq<Addr>>, nodes: set<Addr>)
    requires forall a :: a in labels <==> exists n :: Sampled(crack, candidate, n, a)
    ensures labels != {} <==> exists n, a :: Sampled(crack, candidate, n, a)
    ensures labels <= nodes <==> forall n, a :: Sampled(crack, candidate, n, a) ==> a in nodes
  {
    forall n, a | Sampled(crack, candidate, n, a) ensures a in labels { }
    if a :| a in labels {
      var n :| Sampled(crack, candidate, n, a);
    }
    if forall n, a :: Sampled(crack, candidate, n, a) ==> a in nodes {
      forall a | a in labels ensures a in nodes {
        var n :| Sampled(crack, candidate, n, a);
      }
    }
  }

  lemma BatchOccurrences(list: seq<Seed>, seeds: set<Seed>, trace: Seed -> seq<TraceLine>, batch: seq<SeedTrace>)
    requires forall n :: n in list <==> n in seeds
    requires |batch| == |list| && forall i :: 0 <= i < |list| ==> batch[i] == SeedTrace(list[i], trace(list[i]))
    ensures Occurrences(batch) == SeenIn(trace, seeds)
  {
    forall n, o | n in seeds && o in TraceOccurrences(SeedTrace(n, trace(n))) ensures o in Occurrences(batch) {
      var i :| 0 <= i < |list| && list[i] == n;
      assert batch[i] in batch;
    }
  }

  lemma HasTestcasesOneMore(groups: seq<Group>, i: nat, a: Addr)
    requires i < |groups|
    ensures HasTestcases(groups[..i + 1], a) <==>
      HasTestcases(groups[..i], a) || (groups[i].addr == a && groups[i].runs != [])
  {
    var m, m' := groups[..i], groups[..i + 1];
    if k :| 0 <= k < i && m[k].addr == a && m[k].runs != [] { assert m'[k] == m[k]; }
    if groups[i].addr == a && groups[i].runs != [] { assert m'[i].addr == a; }
    if k :| 0 <= k <= i && m'[k].addr == a && m'[k].runs != [] && k < i { assert m[k] == m'[k]; }
  }

  lemma LabelsGrow(groups: seq<Group>, i: nat, keys: set<Addr>)
    requires i < |groups| && forall a :: a in keys <==> HasTestcases(groups[..i], a)
    ensures var keys' := if groups[i].runs == [] then keys else keys + {groups[i].addr};
      forall a :: a in keys' <==> HasTestcases(groups[..i + 1], a)
  {
    forall a ensures HasTestcases(groups[..i + 1], a) <==>
      HasTestcases(groups[..i], a) || (groups[i].addr == a && groups[i].runs != [])
    {
      HasTestcasesOneMore(groups, i, a);
    }
  }

  lemma {:induction false} LabelOneMore(groups: seq<Group>, i: nat, labels: map<Addr, nat>, gain: nat -> int)
    requires i < |groups| && DistinctAddrs(groups) && IsLabelling(groups, i, labels, gain) && gain(i) >= 0
    ensures var labels' := if groups[i].runs == [] then labels else labels[groups[i].addr := gain(i)];
      IsLabelling(groups, i + 1, labels', gain)
  {
    LabelsGrow(groups, i, labels.Keys);
  }
}
