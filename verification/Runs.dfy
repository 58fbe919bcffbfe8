/** From what the traced programs do to the execution tree: the printers of trace/trace-rt.o.c and the reader of
    src/fuzz/trace.py together. */
module Runs {
  import opened Options
  import Text
  import opened Condition
  import opened Scheduler
  import opened TraceLog
  import opened Tracer

  // ----- a tree and the hits it was built from

  ghost predicate HitAt(hss: seq<seq<Hit>>, k: int, i: int, h: Hit) {
    0 <= k < |hss| && 0 <= i < |hss[k]| && h == hss[k][i]
  }

  ghost predicate AreHits(ts: seq<SeedTrace>, hss: seq<seq<Hit>>) {
    |ts| == |hss| && forall k :: 0 <= k < |ts| ==> Hits(ts[k].lines, |ts[k].lines|) == hss[k]
  }

  lemma {:induction false} InHitOccurrences(hs: seq<Hit>, seed: Seed, o: Occurrence)
    ensures o in HitOccurrences(hs, seed) <==> exists i :: 0 <= i < |hs| && o == Seen(hs[i], seed)
  {
    if o in HitOccurrences(hs, seed) {
      var h :| h in hs && o == Seen(h, seed);
      var i :| 0 <= i < |hs| && hs[i] == h;
    }
    if i :| 0 <= i < |hs| && o == Seen(hs[i], seed) { assert hs[i] in hs; }
  }

  lemma {:induction false} InOccurrences(batch: seq<SeedTrace>, o: Occurrence)
    ensures o in Occurrences(batch) <==> exists k :: 0 <= k < |batch| && o in TraceOccurrences(batch[k])
  {
    if k :| 0 <= k < |batch| && o in TraceOccurrences(batch[k]) { assert batch[k] in batch; }
  }

  lemma {:induction false} HitOccurs(ts: seq<SeedTrace>, hss: seq<seq<Hit>>, k: int, i: int, h: Hit)
      returns (o: Occurrence)
    requires AreHits(ts, hss) && HitAt(hss, k, i, h)
    ensures o == Seen(h, ts[k].seed) && o in From(Occurrences(ts), h.src)
  {
    o := Seen(h, ts[k].seed);
    InHitOccurrences(hss[k], ts[k].seed, o);
    assert o in TraceOccurrences(ts[k]);
    InOccurrences(ts, o);
  }

  lemma {:induction false} OccurrenceIsHit(ts: seq<SeedTrace>, hss: seq<seq<Hit>>, o: Occurrence)
      returns (k: int, i: int, h: Hit)
    requires AreHits(ts, hss) && o in Occurrences(ts)
    ensures HitAt(hss, k, i, h) && o == Seen(h, ts[k].seed)
  {
    InOccurrences(ts, o);
    k :| 0 <= k < |ts| && o in TraceOccurrences(ts[k]);
    InHitOccurrences(hss[k], ts[k].seed, o);
    i :| 0 <= i < |hss[k]| && o == Seen(hss[k][i], ts[k].seed);
    h := hss[k][i];
  }

  ghost predicate GoesTo(hss: seq<seq<Hit>>, a: nat, d: nat) {
    exists k, i, h :: HitAt(hss, k, i, h) && h.src == a && h.dest == d
  }

  lemma {:induction false} BatchMatches(ts: seq<SeedTrace>)
    ensures Matches(IndexAll(map[], ts), Occurrences(ts))
  {
    IndexAllMatches(map[], {}, ts);
    assert {} + Occurrences(ts) == Occurrences(ts);
  }

  lemma {:induction false} GoesToIff(ts: seq<SeedTrace>, hss: seq<seq<Hit>>, a: nat, d: nat)
    requires AreHits(ts, hss)
    ensures GoesTo(hss, a, d) <==> exists o :: o in From(Occurrences(ts), a) && o.dest == d
  {
    if k, i, h :| HitAt(hss, k, i, h) && h.src == a && h.dest == d {
      var o := HitOccurs(ts, hss, k, i, h);
    }
    if o :| o in From(Occurrences(ts), a) && o.dest == d {
      var k, i, h := OccurrenceIsHit(ts, hss, o);
    }
  }

  lemma {:induction false} TreeOfHits(ts: seq<SeedTrace>, hss: seq<seq<Hit>>, a: nat)
    requires AreHits(ts, hss)
    ensures var tree := IndexAll(map[], ts);
      && (a in tree <==> exists d :: GoesTo(hss, a, d))
      && (a in tree ==> forall d :: d in tree[a].children <==> GoesTo(hss, a, d))
  {
    var tree, os := IndexAll(map[], ts), Occurrences(ts);
    BatchMatches(ts);
    assert AddressMatches(tree, os, a);
    forall d ensures GoesTo(hss, a, d) <==> exists o :: o in From(os, a) && o.dest == d { GoesToIff(ts, hss, a, d); }
    if d :| GoesTo(hss, a, d) {
      var o :| o in From(os, a) && o.dest == d;
    }
    if o :| o in From(os, a) {
      assert GoesTo(hss, a, o.dest);
    }
  }

  // ----- the conditions of the nodes

  /** The condition of every node is one of those it may have. */
  ghost predicate Conditions(tree: Tree, may: (nat, Condition.Parsed) -> bool) {
    forall a :: a in tree ==> may(a, tree[a].condition)
  }

  lemma {:induction false} VisitAllConditions(
      tree: Tree, hits: seq<Hit>, seed: Seed, may: (nat, Condition.Parsed) -> bool)
    requires Conditions(tree, may) && forall i :: 0 <= i < |hits| ==> may(hits[i].src, hits[i].condition)
    ensures Conditions(VisitAll(tree, hits, seed), may)
  {
    if hits != [] {
      VisitAllConditions(tree, hits[..|hits| - 1], seed, may);
    }
  }

  lemma {:induction false} IndexAllConditions(
      ts: seq<SeedTrace>, hss: seq<seq<Hit>>, may: (nat, Condition.Parsed) -> bool)
    requires AreHits(ts, hss) && forall k, i, h :: HitAt(hss, k, i, h) ==> may(h.src, h.condition)
    ensures Conditions(IndexAll(map[], ts), may)
  {
    if ts != [] {
      var n := |ts| - 1;
      forall k, i, h | HitAt(hss[..n], k, i, h) ensures may(h.src, h.condition) { assert HitAt(hss, k, i, h); }
      IndexAllConditions(ts[..n], hss[..n], may);
      forall i | 0 <= i < |hss[n]| ensures may(hss[n][i].src, hss[n][i].condition) { assert HitAt(hss, n, i, hss[n][i]); }
      VisitAllConditions(IndexAll(map[], ts[..n]), hss[n], ts[n].seed, may);
    }
  }

  // ----- what the traced programs do

  type Events = es: seq<Event> | forall e :: e in es ==> WellFormed(e) witness []

  /** What a seed makes the program do. */
  datatype TracedRun = TracedRun(seed: Seed, events: Events)

  function Printed(x: TracedRun): (t: SeedTrace)
    ensures t.seed == x.seed && |t.lines| == |x.events|
  {
    SeedTrace(x.seed, seq(|x.events|, i requires 0 <= i < |x.events| => Decoded(Line(x.events[i]))))
  }

  function PrintedAll(xs: seq<TracedRun>): (ts: seq<SeedTrace>)
    ensures |ts| == |xs|
  {
    seq(|xs|, i requires 0 <= i < |xs| => Printed(xs[i]))
  }

  function EventHits(es: Events): (hs: seq<Hit>)
    ensures |hs| == |es|
  {
    seq(|es|, i requires 0 <= i < |es| => EventHit(es[i], i + 1))
  }

  function AllHits(xs: seq<TracedRun>): (hss: seq<seq<Hit>>)
    ensures |hss| == |xs|
  {
    seq(|xs|, k requires 0 <= k < |xs| => EventHits(xs[k].events))
  }

  lemma {:induction false} EventHitsAt(es: Events, i: nat, m: nat)
    requires i < |es| && WellFormed(es[i]) && m == i + 1
    ensures EventHits(es)[i] == EventHit(es[i], m)
  {
  }

  lemma {:induction false} HitsOfPrinted(es: Events, lines: seq<TraceLine>)
    requires |lines| == |es| && forall i :: 0 <= i < |es| ==> WellFormed(es[i]) && lines[i] == Decoded(Line(es[i]))
    ensures Hits(lines, |es|) == EventHits(es)
  {
    var hs := EventHits(es);
    forall i | 0 <= i < |es| ensures PrintsAs(es, lines, hs, i) { EventHitsAt(es, i, i + 1); }
    OutputHits(es, lines, hs);
  }

  lemma {:induction false} HitsOfRun(x: TracedRun)
    ensures Hits(Printed(x).lines, |Printed(x).lines|) == EventHits(x.events)
  {
    forall i | 0 <= i < |x.events|
      ensures WellFormed(x.events[i]) && Printed(x).lines[i] == Decoded(Line(x.events[i]))
    {
      assert x.events[i] in x.events;
    }
    HitsOfPrinted(x.events, Printed(x).lines);
  }

  lemma {:induction false} HitsOfRuns(xs: seq<TracedRun>)
    ensures AreHits(PrintedAll(xs), AllHits(xs))
  {
    var ts, hss := PrintedAll(xs), AllHits(xs);
    forall k | 0 <= k < |ts| ensures Hits(ts[k].lines, |ts[k].lines|) == hss[k] { HitsOfRun(xs[k]); }
  }

  /** An event happens at its source, in some run. */
  ghost predicate Happens(xs: seq<TracedRun>, e: Event) {
    WellFormed(e) && exists k, i :: 0 <= k < |xs| && 0 <= i < |xs[k].events| && e == xs[k].events[i]
  }

  function PrintedOf(e: Event): nat { if WellFormed(e) then PrintedDestination(e) else 0 }
  function ReachedOf(e: Event): nat { if WellFormed(e) then Destination(e) else 0 }

  lemma {:induction false} EventIsHit(xs: seq<TracedRun>, e: Event) returns (k: int, i: int, h: Hit)
    requires Happens(xs, e)
    ensures HitAt(AllHits(xs), k, i, h)
    ensures h.src == e.src && h.dest == PrintedOf(e) && h.condition == ParseCondition(ConditionText(e))
  {
    k, i :| 0 <= k < |xs| && 0 <= i < |xs[k].events| && e == xs[k].events[i];
    h := EventHit(e, i + 1);
    EventHitsAt(xs[k].events, i, i + 1);
  }

  lemma {:induction false} HitIsEvent(xs: seq<TracedRun>, k: int, i: int, h: Hit) returns (e: Event)
    requires HitAt(AllHits(xs), k, i, h)
    ensures Happens(xs, e)
    ensures h.src == e.src && h.dest == PrintedOf(e) && h.condition == ParseCondition(ConditionText(e))
  {
    e := xs[k].events[i];
    assert e in xs[k].events;
    EventHitsAt(xs[k].events, i, i + 1);
  }

  /** The events at an address, as a condition on events. */
  ghost function At(xs: seq<TracedRun>, a: nat): Event -> bool {
    e => Happens(xs, e) && e.src == a
  }

  /** d is what f says of some event. */
  ghost predicate Image<T(!new)>(happens: T -> bool, f: T -> nat, d: nat) {
    exists e :: happens(e) && f(e) == d
  }

  lemma {:induction false} GoesToPrinted(xs: seq<TracedRun>, a: nat, d: nat)
    ensures GoesTo(AllHits(xs), a, d) <==> Image(At(xs, a), PrintedOf, d)
  {
    var happens, f := At(xs, a), PrintedOf;
    if k, i, h :| HitAt(AllHits(xs), k, i, h) && h.src == a && h.dest == d {
      var e := HitIsEvent(xs, k, i, h);
      assert happens(e) && f(e) == d;
    }
    if e :| happens(e) && f(e) == d {
      var k, i, h := EventIsHit(xs, e);
    }
  }

  /** The i-th event of the k-th run happens at a. */
  predicate Does(xs: seq<TracedRun>, k: int, i: int, a: nat) {
    0 <= k < |xs| && 0 <= i < |xs[k].events| && xs[k].events[i].src == a
  }

  /** The seed's run passes a. */
  ghost predicate PassedBy(xs: seq<TracedRun>, a: nat, seed: Seed) {
    exists k, i :: Does(xs, k, i, a) && xs[k].seed == seed
  }

  /** The number of events, of a run's, up to and with the first at a, for the run that has the fewest. */
  ghost predicate IsDistance(xs: seq<TracedRun>, a: nat, dist: nat) {
    (exists k, i :: Does(xs, k, i, a) && dist == i + 1) && forall k, i :: Does(xs, k, i, a) ==> dist <= i + 1
  }

  lemma {:induction false} HitOfEvent(xs: seq<TracedRun>, k: int, i: int)
    requires 0 <= k < |xs| && 0 <= i < |xs[k].events|
    ensures HitAt(AllHits(xs), k, i, AllHits(xs)[k][i])
    ensures AllHits(xs)[k][i].src == xs[k].events[i].src && AllHits(xs)[k][i].pos == i + 1
  {
    var e := xs[k].events[i];
    assert e in xs[k].events;
    EventHitsAt(xs[k].events, i, i + 1);
  }

  lemma {:induction false} EventOccurs(xs: seq<TracedRun>, k: int, i: int, a: nat) returns (o: Occurrence)
    requires Does(xs, k, i, a)
    ensures o in From(Occurrences(PrintedAll(xs)), a) && o.seed == xs[k].seed && o.pos == i + 1
  {
    HitsOfRuns(xs);
    HitOfEvent(xs, k, i);
    o := HitOccurs(PrintedAll(xs), AllHits(xs), k, i, AllHits(xs)[k][i]);
  }

  lemma {:induction false} OccurrenceIsEvent(xs: seq<TracedRun>, a: nat, o: Occurrence) returns (k: int, i: int)
    requires o in From(Occurrences(PrintedAll(xs)), a)
    ensures Does(xs, k, i, a) && o.seed == xs[k].seed && o.pos == i + 1
  {
    HitsOfRuns(xs);
    var h;
    k, i, h := OccurrenceIsHit(PrintedAll(xs), AllHits(xs), o);
    HitOfEvent(xs, k, i);
  }

  lemma {:induction false} NodeBelongs(xs: seq<TracedRun>, a: nat, seed: Seed)
    ensures (exists o :: o in From(Occurrences(PrintedAll(xs)), a) && o.seed == seed) <==> PassedBy(xs, a, seed)
  {
    if o :| o in From(Occurrences(PrintedAll(xs)), a) && o.seed == seed { var k, i := OccurrenceIsEvent(xs, a, o); }
    if k, i :| Does(xs, k, i, a) && xs[k].seed == seed { var o := EventOccurs(xs, k, i, a); }
  }

  lemma {:induction false} NodeDistance(xs: seq<TracedRun>, a: nat, node: Node)
    requires NodeMatches(node, From(Occurrences(PrintedAll(xs)), a))
    ensures IsDistance(xs, a, node.minDist)
  {
    var o :| o in From(Occurrences(PrintedAll(xs)), a) && o.pos == node.minDist;
    var k, i := OccurrenceIsEvent(xs, a, o);
    forall k, i | Does(xs, k, i, a) ensures node.minDist <= i + 1 { var q := EventOccurs(xs, k, i, a); }
  }

  lemma {:induction false} NodeOfRuns(xs: seq<TracedRun>, a: nat)
    ensures var tree := IndexAll(map[], PrintedAll(xs)); a in tree ==>
      (forall n :: n in tree[a].belongs <==> PassedBy(xs, a, n)) && IsDistance(xs, a, tree[a].minDist)
  {
    var tree, os := IndexAll(map[], PrintedAll(xs)), Occurrences(PrintedAll(xs));
    BatchMatches(PrintedAll(xs));
    assert AddressMatches(tree, os, a);
    if a in tree {
      forall n ensures n in tree[a].belongs <==> PassedBy(xs, a, n) { NodeBelongs(xs, a, n); }
      NodeDistance(xs, a, tree[a]);
    }
  }

  /** End to end: whatever the traced programs do, the nodes are the addresses at which something happened; children is
      the set of the printed destinations, belongs that of the seeds whose runs pass the address, and min_dist the
      least place of an event there. */
  lemma {:induction false} TreeOfRuns(xs: seq<TracedRun>, a: nat)
    ensures var tree := IndexAll(map[], PrintedAll(xs));
      && (a in tree <==> exists d :: Image(At(xs, a), PrintedOf, d))
      && (a in tree ==> forall d :: d in tree[a].children <==> Image(At(xs, a), PrintedOf, d))
      && (a in tree ==> forall n :: n in tree[a].belongs <==> PassedBy(xs, a, n))
      && (a in tree ==> IsDistance(xs, a, tree[a].minDist))
  {
    HitsOfRuns(xs);
    TreeOfHits(PrintedAll(xs), AllHits(xs), a);
    forall d ensures GoesTo(AllHits(xs), a, d) <==> Image(At(xs, a), PrintedOf, d) { GoesToPrinted(xs, a, d); }
    NodeOfRuns(xs, a);
  }

  /** And its condition is that of the first event there, of the first run that has one. */
  lemma {:induction false} ConditionOfRuns(xs: seq<TracedRun>, a: nat, k: nat, i: nat)
    requires Does(xs, k, i, a) && forall l, j :: Does(xs, l, j, a) ==> l > k || (l == k && j >= i)
    ensures var tree := IndexAll(map[], PrintedAll(xs));
      a in tree && tree[a].condition == ParseCondition(ConditionText(xs[k].events[i]))
  {
    var batch := PrintedAll(xs);
    HitsOfRuns(xs);
    forall l: nat | l < k ensures NoHit(HitsOf(batch, l), a) {
      forall j | 0 <= j < |HitsOf(batch, l)| ensures HitsOf(batch, l)[j].src != a {
        HitOfEvent(xs, l, j);
        assert !Does(xs, l, j, a);
      }
    }
    forall j | 0 <= j < i ensures HitsOf(batch, k)[..i][j].src != a {
      HitOfEvent(xs, k, j);
      assert !Does(xs, k, j, a);
    }
    HitOfEvent(xs, k, i);
    EventHitsAt(xs[k].events, i, i + 1);
    ConditionIsFirst(batch, a, k, i);
  }

  /** If f and g differ on an event only where g is 0: they have the same values iff each difference is made up for,
      by events for which f is 0, and events for which g is what f wrongly is. */
  lemma {:induction false} ImagesAgreeIff<T(!new)>(happens: T -> bool, f: T -> nat, g: T -> nat)
    requires forall e :: happens(e) && f(e) != g(e) ==> g(e) == 0
    ensures (forall d :: Image(happens, f, d) <==> Image(happens, g, d)) <==>
      forall e :: happens(e) && f(e) != g(e) ==> Image(happens, f, 0) && Image(happens, g, f(e))
  {
    if forall d :: Image(happens, f, d) <==> Image(happens, g, d) {
      forall e | happens(e) && f(e) != g(e) ensures Image(happens, f, 0) && Image(happens, g, f(e)) {
        InImages(happens, f, g, e);
      }
    }
    if forall e :: happens(e) && f(e) != g(e) ==> Image(happens, f, 0) && Image(happens, g, f(e)) {
      forall d ensures Image(happens, f, d) <==> Image(happens, g, d) { ImagesAgreeAt(happens, f, g, d); }
    }
  }

  lemma InImages<T(!new)>(happens: T -> bool, f: T -> nat, g: T -> nat, e: T)
    requires happens(e)
    ensures Image(happens, f, f(e)) && Image(happens, g, g(e))
  {
  }

  lemma {:induction false} ImagesAgreeAt<T(!new)>(happens: T -> bool, f: T -> nat, g: T -> nat, d: nat)
    requires forall e :: happens(e) && f(e) != g(e) ==> g(e) == 0
    requires forall e :: happens(e) && f(e) != g(e) ==> Image(happens, f, 0) && Image(happens, g, f(e))
    ensures Image(happens, f, d) <==> Image(happens, g, d)
  {
    if e :| happens(e) && f(e) == d { InImages(happens, f, g, e); }
    if e :| happens(e) && g(e) == d { InImages(happens, f, g, e); }
  }

  /** When children is what it should be, the successors that control really went to: iff no event at the address is
      misprinted; or the errors cover each other up, because the id 0 that they hide is printed for another event,
      and the defaults that are printed instead were reached by others. */
  lemma {:induction false} ChildrenAreReachedIff(xs: seq<TracedRun>, a: nat)
    ensures var tree := IndexAll(map[], PrintedAll(xs));
      a in tree ==>
        ((forall d :: d in tree[a].children <==> Image(At(xs, a), ReachedOf, d)) <==>
         forall e :: At(xs, a)(e) && PrintedOf(e) != ReachedOf(e) ==>
           Image(At(xs, a), PrintedOf, 0) && Image(At(xs, a), ReachedOf, PrintedOf(e)))
  {
    var happens, f, g := At(xs, a), PrintedOf, ReachedOf;
    TreeOfRuns(xs, a);
    forall e | happens(e) && f(e) != g(e) ensures g(e) == 0 { }
    ImagesAgreeIff(happens, f, g);
  }

  /** What happens at a is this switch, with whatever is taken. */
  ghost predicate OnlySwitchAt(xs: seq<TracedRun>, width: nat, a: nat, defaultLoc: nat, locs: seq<nat>) {
    forall e :: Happens(xs, e) && e.src == a ==>
      e.Switch? && e.width == width && e.defaultLoc == defaultLoc && e.locs == locs
  }

  ghost predicate ChildrenAreReached(xs: seq<TracedRun>, a: nat) {
    var tree := IndexAll(map[], PrintedAll(xs));
    a in tree ==> forall d :: d in tree[a].children <==> Image(At(xs, a), ReachedOf, d)
  }

  lemma {:induction false} SafeSwitchReaches(xs: seq<TracedRun>, width: nat, a: nat, defaultLoc: nat, locs: seq<nat>)
    requires OnlySwitchAt(xs, width, a, defaultLoc, locs) && (defaultLoc == 0 || 0 !in locs)
    ensures ChildrenAreReached(xs, a)
  {
    forall e | At(xs, a)(e) ensures PrintedOf(e) == ReachedOf(e) {
      SwitchAlwaysRightIff(width, a, defaultLoc, locs);
      assert e == Switch(width, a, defaultLoc, e.taken, locs);
    }
    ChildrenAreReachedIff(xs, a);
  }

  lemma {:induction false} UnsafeSwitchMisses(
      seed: Seed, width: nat, a: nat, defaultLoc: nat, locs: seq<nat>, i: nat) returns (xs: seq<TracedRun>)
    requires defaultLoc != 0 && i < |locs| && locs[i] == 0
    ensures OnlySwitchAt(xs, width, a, defaultLoc, locs) && !ChildrenAreReached(xs, a)
  {
    OnlyTakenFirst(|locs|, i);
    var e := Switch(width, a, defaultLoc, OnlyTaken(|locs|, i), locs);
    xs := [TracedRun(seed, [e])];
    assert xs[0].events[0] == e;
    assert At(xs, a)(e) && PrintedOf(e) == defaultLoc && ReachedOf(e) == 0;
    InImages(At(xs, a), PrintedOf, ReachedOf, e);
    forall d | Image(At(xs, a), PrintedOf, d) ensures d == defaultLoc { }
    TreeOfRuns(xs, a);
    ChildrenAreReachedIff(xs, a);
  }

  /** In terms of the ids that the compiler pass gave to the blocks of a switch: its children are the successors that
      were reached, whatever the programs do, iff no case has the id 0, or the default has it too. */
  lemma {:induction false} SwitchChildrenAreReachedIff(seed: Seed, width: nat, a: nat, defaultLoc: nat, locs: seq<nat>)
    ensures (forall xs :: OnlySwitchAt(xs, width, a, defaultLoc, locs) ==> ChildrenAreReached(xs, a)) <==>
      defaultLoc == 0 || 0 !in locs
  {
    if defaultLoc == 0 || 0 !in locs {
      forall xs | OnlySwitchAt(xs, width, a, defaultLoc, locs) ensures ChildrenAreReached(xs, a) {
        SafeSwitchReaches(xs, width, a, defaultLoc, locs);
      }
    } else {
      var i :| 0 <= i < |locs| && locs[i] == 0;
      var xs := UnsafeSwitchMisses(seed, width, a, defaultLoc, locs, i);
    }
  }

  // ----- what "covered" means for the tree of traced runs

  lemma {:induction false} ConditionsOfRuns(xs: seq<TracedRun>, may: (nat, Condition.Parsed) -> bool)
    requires forall e :: Happens(xs, e) ==> may(e.src, ParseCondition(ConditionText(e)))
    ensures Conditions(IndexAll(map[], PrintedAll(xs)), may)
  {
    HitsOfRuns(xs);
    forall k, i, h | HitAt(AllHits(xs), k, i, h) ensures may(h.src, h.condition) {
      var e := HitIsEvent(xs, k, i, h);
    }
    IndexAllConditions(PrintedAll(xs), AllHits(xs), may);
  }

  /** A branch whose two successors have the same id never counts as covered. */
  lemma {:induction false} SharedSuccessorNeverCovered(xs: seq<TracedRun>, a: nat, s: nat)
    requires forall e :: Happens(xs, e) && e.src == a ==> e.Branch? && e.succTrue == s && e.succFalse == s
    ensures var tree := IndexAll(map[], PrintedAll(xs)); a in tree ==> !Covered(tree[a])
  {
    var tree := IndexAll(map[], PrintedAll(xs));
    var may := (b: nat, c: Condition.Parsed) => b == a ==> c.BrCond?;
    forall e | Happens(xs, e) ensures may(e.src, ParseCondition(ConditionText(e))) {
      if e.src == a { ParseBranchText(e.outcome, e.condition); }
    }
    ConditionsOfRuns(xs, may);
    TreeOfRuns(xs, a);
    if a in tree {
      assert may(a, tree[a].condition);
      forall d | d in tree[a].children ensures d in {s} { }
      SubsetSize(tree[a].children, {s});
    }
  }

  /** What the compiler pass knows of the end of a block. */
  datatype Terminator =
    | TwoWay(succTrue: nat, succFalse: nat, condition: string)
    | ManyWay(width: nat, defaultLoc: nat, locs: seq<nat>)

  predicate Valid(t: Terminator) {
    t.TwoWay? ==> Text.NoLineBreak(t.condition)
  }

  /** The event is an execution of the terminator. */
  predicate IsOf(e: Event, t: Terminator) {
    match t
    case TwoWay(s, f, condition) => e.Branch? && e.succTrue == s && e.succFalse == f && e.condition == condition
    case ManyWay(width, defaultLoc, locs) =>
      e.Switch? && e.width == width && e.defaultLoc == defaultLoc && e.locs == locs
  }

  ghost predicate OnlyAt(xs: seq<TracedRun>, a: nat, t: Terminator) {
    forall e :: Happens(xs, e) && e.src == a ==> IsOf(e, t)
  }

  /** The destinations that its executions can print. */
  function Prints(t: Terminator): set<nat> {
    match t
    case TwoWay(s, f, _) => {s, f}
    case ManyWay(_, defaultLoc, locs) => {defaultLoc} + set l | l in locs && l != 0
  }

  /** succ_max of its node. */
  function Counted(t: Terminator): nat {
    if t.TwoWay? then 2 else |t.locs|
  }

  lemma {:induction false} EventOfTerminator(e: Event, t: Terminator)
    requires WellFormed(e) && IsOf(e, t)
    ensures PrintedOf(e) in Prints(t) && SuccMax(ParseCondition(ConditionText(e))) == Counted(t)
  {
    if e.Branch? {
      ParseBranchText(e.outcome, e.condition);
    } else {
      ParseSwitchText(e.width, |e.locs|);
      var k := FirstTaken(e.taken);
      if k.Some? { assert e.locs[k.value] in t.locs; }
    }
  }

  lemma {:induction false} NodeOfTerminator(xs: seq<TracedRun>, a: nat, t: Terminator)
    requires OnlyAt(xs, a, t)
    ensures var tree := IndexAll(map[], PrintedAll(xs));
      a in tree ==> tree[a].children <= Prints(t) && SuccMax(tree[a].condition) == Counted(t)
  {
    var tree := IndexAll(map[], PrintedAll(xs));
    var may := (b: nat, c: Condition.Parsed) => b == a ==> SuccMax(c) == Counted(t);
    forall e | Happens(xs, e) && e.src == a
      ensures PrintedOf(e) in Prints(t) && may(e.src, ParseCondition(ConditionText(e)))
    {
      EventOfTerminator(e, t);
    }
    ConditionsOfRuns(xs, may);
    TreeOfRuns(xs, a);
    assert a in tree ==> may(a, tree[a].condition);
  }

  /** An execution for each outcome; the last one of a switch takes no case. */
  function Outcome(t: Terminator, a: nat, i: nat): Event {
    match t
    case TwoWay(s, f, condition) => Branch(a, s, f, condition, i == 0)
    case ManyWay(width, defaultLoc, locs) => Switch(width, a, defaultLoc, OnlyTaken(|locs|, i), locs)
  }

  function Outcomes(t: Terminator, a: nat): (es: Events)
    requires Valid(t)
  {
    seq(if t.TwoWay? then 2 else |t.locs| + 1, (i: nat) => Outcome(t, a, i))
  }

  lemma {:induction false} NoneTaken(n: nat, i: nat)
    requires i >= n
    ensures FirstTaken(OnlyTaken(n, i)) == None
  {
    if n > 0 {
      assert OnlyTaken(n, i)[1..] == OnlyTaken(n - 1, i - 1);
      NoneTaken(n - 1, i - 1);
    }
  }

  lemma {:induction false} SomeOutcomePrints(t: Terminator, a: nat, d: nat) returns (i: nat)
    requires Valid(t) && d in Prints(t)
    ensures i < |Outcomes(t, a)| && PrintedOf(Outcomes(t, a)[i]) == d
  {
    if t.TwoWay? {
      i := if d == t.succTrue then 0 else 1;
    } else if d == t.defaultLoc {
      i := |t.locs|;
      NoneTaken(|t.locs|, i);
    } else {
      i :| 0 <= i < |t.locs| && t.locs[i] == d;
      OnlyTakenFirst(|t.locs|, i);
    }
  }

  lemma {:induction false} AllOutcomesRun(seed: Seed, t: Terminator, a: nat) returns (xs: seq<TracedRun>)
    requires Valid(t)
    ensures OnlyAt(xs, a, t)
    ensures forall d :: d in Prints(t) ==> Image(At(xs, a), PrintedOf, d)
  {
    var es := Outcomes(t, a);
    xs := [TracedRun(seed, es)];
    forall d | d in Prints(t) ensures Image(At(xs, a), PrintedOf, d) {
      var i := SomeOutcomePrints(t, a, d);
      var e := es[i];
      assert e in es && e == xs[0].events[i];
      assert At(xs, a)(e) && PrintedOf(e) == d;
    }
  }

  /** The node of a was covered by the runs. */
  ghost predicate CoveredBy(xs: seq<TracedRun>, a: nat) {
    var tree := IndexAll(map[], PrintedAll(xs)); a in tree && Covered(tree[a])
  }

  /** Whether a node can ever be covered: iff its terminator can print at least as many different destinations as
      succ_max says. A branch with one successor cannot, nor a switch whose cases share too many blocks. */
  lemma {:induction false} CanBeCoveredIff(seed: Seed, a: nat, t: Terminator)
    requires Valid(t)
    ensures (exists xs :: OnlyAt(xs, a, t) && CoveredBy(xs, a)) <==> |Prints(t)| >= Counted(t)
  {
    if xs :| OnlyAt(xs, a, t) && CoveredBy(xs, a) {
      NodeOfTerminator(xs, a, t);
      SubsetSize(IndexAll(map[], PrintedAll(xs))[a].children, Prints(t));
    }
    if |Prints(t)| >= Counted(t) {
      var xs := AllOutcomesRun(seed, t, a);
      TreeOfRuns(xs, a);
      NodeOfTerminator(xs, a, t);
      var d :| d in Prints(t);
      assert Image(At(xs, a), PrintedOf, d);
      SubsetSize(Prints(t), IndexAll(map[], PrintedAll(xs))[a].children);
      assert CoveredBy(xs, a);
    }
  }

  /** A switch with two cases: the first or the second one is taken. */
  function CaseTaken(width: nat, a: nat, s: nat, t: nat, u: nat, first: bool): (e: Event)
    ensures e.Switch? && WellFormed(e) && e.src == a && e.width == width && |e.locs| == 2
  {
    Switch(width, a, u, [first, !first], [s, t])
  }

  lemma {:induction false} CasePrinted(width: nat, a: nat, s: nat, t: nat, u: nat, first: bool)
    requires s != 0 && t != 0
    ensures var e := CaseTaken(width, a, s, t, u, first);
      PrintedOf(e) == (if first then s else t) && ParseCondition(ConditionText(e)) == SwitchCond(2, Some(width))
  {
    var e := CaseTaken(width, a, s, t, u, first);
    assert FirstTaken(e.taken[1..]) == if first then None else Some(0);
    ParseSwitchText(width, 2);
  }

  /** What happens at a: the switch goes to s, and it goes to t. */
  ghost predicate BothCases(xs: seq<TracedRun>, width: nat, a: nat, s: nat, t: nat, u: nat) {
    && Happens(xs, CaseTaken(width, a, s, t, u, true)) && Happens(xs, CaseTaken(width, a, s, t, u, false))
    && forall e :: Happens(xs, e) && e.src == a ==>
         e == CaseTaken(width, a, s, t, u, true) || e == CaseTaken(width, a, s, t, u, false)
  }

  lemma {:induction false} BothCasesCondition(xs: seq<TracedRun>, width: nat, a: nat, s: nat, t: nat, u: nat)
    requires BothCases(xs, width, a, s, t, u) && s != 0 && t != 0
    ensures var tree := IndexAll(map[], PrintedAll(xs)); a in tree ==> tree[a].condition == SwitchCond(2, Some(width))
  {
    var tree := IndexAll(map[], PrintedAll(xs));
    var may := (b: nat, c: Condition.Parsed) => b == a ==> c == SwitchCond(2, Some(width));
    CasePrinted(width, a, s, t, u, true);
    CasePrinted(width, a, s, t, u, false);
    ConditionsOfRuns(xs, may);
    assert a in tree ==> may(a, tree[a].condition);
  }

  lemma {:induction false} BothCasesPrinted(xs: seq<TracedRun>, width: nat, a: nat, s: nat, t: nat, u: nat, d: nat)
    requires BothCases(xs, width, a, s, t, u) && s != 0 && t != 0
    ensures Image(At(xs, a), PrintedOf, d) <==> d == s || d == t
  {
    var happens, f := At(xs, a), PrintedOf;
    CasePrinted(width, a, s, t, u, true);
    CasePrinted(width, a, s, t, u, false);
    InImages(happens, f, f, CaseTaken(width, a, s, t, u, true));
    InImages(happens, f, f, CaseTaken(width, a, s, t, u, false));
  }

  lemma {:induction false} BothCasesNode(xs: seq<TracedRun>, width: nat, a: nat, s: nat, t: nat, u: nat)
    requires BothCases(xs, width, a, s, t, u) && s != 0 && t != 0
    ensures var tree := IndexAll(map[], PrintedAll(xs)); a in tree && tree[a].children == {s, t}
  {
    TreeOfRuns(xs, a);
    forall d ensures Image(At(xs, a), PrintedOf, d) <==> d == s || d == t {
      BothCasesPrinted(xs, width, a, s, t, u, d);
    }
    assert Image(At(xs, a), PrintedOf, s);
  }

  /** A switch with two cases and a default, of which the default is never taken, counts as covered. */
  lemma {:induction false} CoveredWithDefaultUnseen(xs: seq<TracedRun>, width: nat, a: nat, s: nat, t: nat, u: nat)
    requires BothCases(xs, width, a, s, t, u) && s != 0 && t != 0 && s != t && u != s && u != t
    ensures var tree := IndexAll(map[], PrintedAll(xs));
      a in tree && Covered(tree[a]) && u !in tree[a].children
  {
    BothCasesNode(xs, width, a, s, t, u);
    BothCasesCondition(xs, width, a, s, t, u);
    assert |{s, t}| == 2;
  }

  /** Such a run: the two cases, one after the other. */
  lemma {:induction false} DefaultUnseenRun(seed: Seed, width: nat, a: nat, s: nat, t: nat, u: nat)
      returns (xs: seq<TracedRun>)
    ensures BothCases(xs, width, a, s, t, u)
  {
    var e1, e2 := CaseTaken(width, a, s, t, u, true), CaseTaken(width, a, s, t, u, false);
    xs := [TracedRun(seed, [e1, e2])];
    assert xs[0].events[0] == e1 && xs[0].events[1] == e2;
  }
}
