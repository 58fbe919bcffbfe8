/** The main loop and the traced programs together: the execution tree of src/fuzz/executor.py in terms of what the
    programs do. */
module Loop {
  import opened Scheduler
  import opened Tracer
  import opened Chains
  import opened Executor
  import opened Runs

  /** What the output is when the program does this for the seed. */
  function Output(does: Seed -> Runs.Events): Seed -> seq<TraceLine> {
    n => Printed(TracedRun(n, does(n))).lines
  }

  /** What a seed makes the traced program do does not depend on the world. */
  ghost predicate Deterministic(worlds: seq<World>, does: Seed -> Runs.Events) {
    forall i :: 0 <= i < |worlds| ==> worlds[i].trace == Output(does)
  }

  lemma {:induction false} SeenInMore(trace: Seed -> seq<TraceLine>, known: set<Seed>, queue: set<Seed>)
    ensures SeenIn(trace, known) + SeenIn(trace, queue - known) == SeenIn(trace, known + queue)
  {
  }

  lemma {:induction false} HistorySeen(worlds: seq<World>, h: History, does: Seed -> Runs.Events)
    requires IsHistory(worlds, h) && Deterministic(worlds, does) && First(h).known == {} && First(h).seen == {}
    ensures Last(h).seen == SeenIn(Output(does), Last(h).known)
    decreases |h.passes|
  {
    if h.passes != [] {
      var n := |h.passes| - 1;
      InitChain(Passes, IsOk, worlds, h);
      HistorySeen(worlds, Init(h), does);
      SeenInMore(Output(does), Last(Init(h)).known, worlds[n].queue);
    }
  }

  /** The runs are those of the seeds. */
  ghost predicate AreRunsOf(xs: seq<TracedRun>, seeds: set<Seed>, does: Seed -> Runs.Events) {
    && (forall k :: 0 <= k < |xs| ==> xs[k].seed in seeds && xs[k].events == does(xs[k].seed))
    && (forall n :: n in seeds ==> TracedRun(n, does(n)) in xs)
  }

  lemma {:induction false} RunsOf(seeds: set<Seed>, does: Seed -> Runs.Events) returns (xs: seq<TracedRun>)
    ensures AreRunsOf(xs, seeds, does)
  {
    var names := SomeListing(seeds);
    xs := seq(|names|, i requires 0 <= i < |names| => TracedRun(names[i], does(names[i])));
    forall n | n in seeds ensures TracedRun(n, does(n)) in xs {
      var i :| 0 <= i < |names| && names[i] == n;
      assert xs[i] == TracedRun(n, does(n));
    }
  }

  lemma {:induction false} SeenByRuns(xs: seq<TracedRun>, seeds: set<Seed>, does: Seed -> Runs.Events)
    requires AreRunsOf(xs, seeds, does)
    ensures Occurrences(PrintedAll(xs)) == SeenIn(Output(does), seeds)
  {
    var ts, trace := PrintedAll(xs), Output(does);
    forall o ensures o in Occurrences(ts) <==> o in SeenIn(trace, seeds) {
      InOccurrences(ts, o);
      if k :| 0 <= k < |ts| && o in TraceOccurrences(ts[k]) {
        assert ts[k] == SeedTrace(xs[k].seed, trace(xs[k].seed));
      }
      if n :| n in seeds && o in TraceOccurrences(SeedTrace(n, trace(n))) {
        var k :| 0 <= k < |xs| && xs[k] == TracedRun(n, does(n));
        assert ts[k] == SeedTrace(n, trace(n));
      }
    }
  }

  /** After any history, in any worlds, the executor's tree is what the programs did for the seeds of all the queues: its
      nodes are where something happened, with the printed destinations, the seeds that passed, and the least place. */
  lemma {:induction false} TreeOfHistory(e: HybridExecutor, worlds: seq<World>, h: History,
                                         does: Seed -> Runs.Events, xs: seq<TracedRun>, a: nat)
    requires e.TreeOk() && IsHistory(worlds, h) && Last(h) == e.View()
    requires Deterministic(worlds, does) && First(h).known == {} && First(h).seen == {}
    requires AreRunsOf(xs, Union(QueueOf, worlds, |h.passes|), does)
    ensures var tree := e.depot.Tree();
      && (a in tree <==> exists d :: Image(At(xs, a), PrintedOf, d))
      && (a in tree ==> forall d :: d in tree[a].children <==> Image(At(xs, a), PrintedOf, d))
      && (a in tree ==> forall n :: n in tree[a].belongs <==> PassedBy(xs, a, n))
      && (a in tree ==> IsDistance(xs, a, tree[a].minDist))
  {
    HistoryTraces(worlds, h);
    HistorySeen(worlds, h, does);
    assert Last(h).known == Union(QueueOf, worlds, |h.passes|);
    SeenByRuns(xs, Last(h).known, does);
    BatchMatches(PrintedAll(xs));
    MatchesAgree(e.depot.Tree(), IndexAll(map[], PrintedAll(xs)), Occurrences(PrintedAll(xs)), a);
    TreeOfRuns(xs, a);
  }
}
