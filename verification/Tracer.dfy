/** Building the execution tree from traces: src/fuzz/trace.py. */
module Tracer {
  import opened Options
  import opened Condition
  import opened Scheduler
  import opened Depot
  import opened TraceLog

  /** A line of the trace output; one that is not valid UTF-8 is skipped and not counted. */
  datatype TraceLine = Undecodable | Decoded(text: string)

  /** The output of tracing one seed. */
  datatype SeedTrace = SeedTrace(seed: Seed, lines: seq<TraceLine>)

  /** line_cnt after the first n lines. */
  function Position(lines: seq<TraceLine>, n: nat): nat
    requires n <= |lines|
  {
    if n == 0 then 0 else Position(lines, n - 1) + if lines[n - 1].Decoded? then 1 else 0
  }

  /** A line that was read, with its position. */
  datatype Hit = Hit(src: nat, dest: nat, condition: Condition.Parsed, pos: nat)

  function HitOf(p: TraceLog.Parsed, pos: nat): Hit {
    Hit(p.src, p.dest, ParseCondition(p.condition), pos)
  }

  function Reading(line: TraceLine, pos: nat): seq<Hit> {
    var p := if line.Decoded? then ParseLine(line.text) else None;
    if p.Some? then [HitOf(p.value, pos)] else []
  }

  /** What a reader gets from the first n lines. */
  function ReadAll(read: (TraceLine, nat) -> seq<Hit>, lines: seq<TraceLine>, n: nat): seq<Hit>
    requires n <= |lines|
  {
    if n == 0 then [] else ReadAll(read, lines, n - 1) + read(lines[n - 1], Position(lines, n))
  }

  function Hits(lines: seq<TraceLine>, n: nat): seq<Hit>
    requires n <= |lines|
  {
    ReadAll(Reading, lines, n)
  }

  /** The lines before the n-th that could be decoded. */
  function DecodedBefore(lines: seq<TraceLine>, n: nat): set<int>
    requires n <= |lines|
  {
    set i | 0 <= i < n && lines[i].Decoded?
  }

  /** The position counts the lines that could be decoded, whether they were read or not. */
  lemma {:induction false} PositionIs(lines: seq<TraceLine>, n: nat)
    requires n <= |lines|
    ensures Position(lines, n) == |DecodedBefore(lines, n)|
  {
    if n == 0 {
      assert DecodedBefore(lines, 0) == {};
    } else {
      PositionIs(lines, n - 1);
      assert DecodedBefore(lines, n) == DecodedBefore(lines, n - 1) + if lines[n - 1].Decoded? then {n - 1} else {};
    }
  }

  predicate IsRead(line: TraceLine) {
    line.Decoded? && ParseLine(line.text).Some?
  }

  /** The hit of the p-th line: what is read from it, and the number of decoded lines up to it. */
  predicate IsHitOf(lines: seq<TraceLine>, p: nat, h: Hit)
    requires p < |lines|
  {
    IsRead(lines[p]) && h == HitOf(ParseLine(lines[p].text).value, |DecodedBefore(lines, p + 1)|)
  }

  lemma ReadingIs(lines: seq<TraceLine>, p: nat)
    requires p < |lines|
    ensures var hits := Reading(lines[p], Position(lines, p + 1));
      if IsRead(lines[p]) then |hits| == 1 && IsHitOf(lines, p, hits[0]) else hits == []
  {
    PositionIs(lines, p + 1);
  }

  /** What the reader gets from one line. */
  function ReadAt(read: (TraceLine, nat) -> seq<Hit>, lines: seq<TraceLine>, p: int): seq<Hit> {
    if 0 <= p < |lines| then read(lines[p], Position(lines, p + 1)) else []
  }

  ghost predicate ReadFrom(
    read: (TraceLine, nat) -> seq<Hit>, lines: seq<TraceLine>, n: nat, hits: seq<Hit>, places: seq<nat>)
  {
    && |hits| == |places| && (forall k, l :: 0 <= k < l < |places| ==> places[k] < places[l])
    && (forall i :: i in places <==> 0 <= i < n && ReadAt(read, lines, i) != [])
    && (forall k :: 0 <= k < |places| ==> places[k] < n && ReadAt(read, lines, places[k]) == [hits[k]])
  }

  /** What a reader that gets at most one hit from a line has got from the first n lines. */
  lemma {:induction false} ReadAllFrom(read: (TraceLine, nat) -> seq<Hit>, lines: seq<TraceLine>, n: nat)
      returns (places: seq<nat>)
    requires n <= |lines| && forall i :: |ReadAt(read, lines, i)| <= 1
    ensures ReadFrom(read, lines, n, ReadAll(read, lines, n), places)
  {
    if n == 0 {
      places := [];
    } else {
      places := ReadAllFrom(read, lines, n - 1);
      var hits, more := ReadAll(read, lines, n - 1), ReadAt(read, lines, n - 1);
      assert ReadAll(read, lines, n) == hits + more;
      if more != [] {
        assert more == [more[0]];
        OneMoreRead(read, lines, n - 1, hits, places, more[0]);
        places := places + [n - 1];
      } else {
        assert hits + more == hits;
      }
    }
  }

  lemma {:induction false} OneMoreRead(
      read: (TraceLine, nat) -> seq<Hit>, lines: seq<TraceLine>, n: nat, hits: seq<Hit>, places: seq<nat>, h: Hit)
    requires ReadFrom(read, lines, n, hits, places) && ReadAt(read, lines, n) == [h]
    ensures ReadFrom(read, lines, n + 1, hits + [h], places + [n])
  {
    forall m ensures m in places + [n] <==> m in places || m == n { }
  }

  /** The hits are the lines that could be decoded and read, in their order. */
  lemma {:induction false} HitsExactly(lines: seq<TraceLine>, n: nat) returns (places: seq<nat>)
    requires n <= |lines|
    ensures |Hits(lines, n)| == |places| && forall k, l :: 0 <= k < l < |places| ==> places[k] < places[l]
    ensures forall i: nat :: i in places <==> i < n && IsRead(lines[i])
    ensures forall k :: 0 <= k < |places| ==> places[k] < n && IsHitOf(lines, places[k], Hits(lines, n)[k])
  {
    var read := Reading;
    forall i ensures |ReadAt(read, lines, i)| <= 1 { }
    places := ReadAllFrom(read, lines, n);
    forall i: nat ensures i in places <==> i < n && IsRead(lines[i]) { if i < n { ReadingIs(lines, i); } }
    forall k | 0 <= k < |places| ensures IsHitOf(lines, places[k], Hits(lines, n)[k]) { ReadingIs(lines, places[k]); }
  }

  /** The tree with a node for the hit's address. */
  function WithNode(tree: Tree, h: Hit): Tree {
    if h.src in tree then tree else tree[h.src := Node(h.condition, h.pos, {}, {})]
  }

  /** One line that was read changes one node, and creates it if need be. */
  function Visit(tree: Tree, h: Hit, seed: Seed): Tree {
    var node := WithNode(tree, h)[h.src];
    tree[h.src := Node(node.condition, Min(h.pos, node.minDist), node.children + {h.dest}, node.belongs + {seed})]
  }

  function VisitAll(tree: Tree, hits: seq<Hit>, seed: Seed): Tree {
    if hits == [] then tree else Visit(VisitAll(tree, hits[..|hits| - 1], seed), hits[|hits| - 1], seed)
  }

  lemma {:induction false} VisitAllConcat(tree: Tree, g: seq<Hit>, h: seq<Hit>, seed: Seed)
    ensures VisitAll(tree, g + h, seed) == VisitAll(VisitAll(tree, g, seed), h, seed)
  {
    if h == [] {
      assert g + h == g;
    } else {
      assert (g + h)[..|g + h| - 1] == g + h[..|h| - 1];
      VisitAllConcat(tree, g, h[..|h| - 1], seed);
    }
  }

  lemma VisitOne(tree: Tree, h: Hit, seed: Seed)
    ensures VisitAll(tree, [h], seed) == Visit(tree, h, seed)
  {
    assert [h][..0] == [];
  }

  function IndexTrace(tree: Tree, t: SeedTrace): Tree {
    VisitAll(tree, Hits(t.lines, |t.lines|), t.seed)
  }

  /** The traces one after the other, by the given way of indexing one. */
  function Fold(index: (Tree, SeedTrace) -> Tree, tree: Tree, batch: seq<SeedTrace>): Tree {
    if batch == [] then tree else index(Fold(index, tree, batch[..|batch| - 1]), batch[|batch| - 1])
  }

  function IndexAll(tree: Tree, batch: seq<SeedTrace>): Tree {
    Fold(IndexTrace, tree, batch)
  }

  class CorpusTracer {
    const state: StateDepot

    constructor (state: StateDepot)
      ensures this.state == state
    {
      this.state := state;
    }

    /** The node of an address, created if need be. */
    method NodeOf(p: TraceLog.Parsed, pos: nat) returns (node: CondStmt)
      requires state.Valid()
      modifies state`covState
      ensures state.Valid() && p.src in state.covState && node == state.covState[p.src]
      ensures state.Tree() == WithNode(old(state.Tree()), HitOf(p, pos))
      ensures fresh(state.covState.Values - old(state.covState.Values))
    {
      if p.src !in state.covState {
        node := new CondStmt(p.src, p.condition, pos);
        state.covState := state.covState[p.src := node];
      }
      node := state.covState[p.src];
    }

    /** The updates of the node. */
    method Touch(node: CondStmt, h: Hit, seed: Seed, ghost tree: Tree)
      requires state.Valid() && h.src in state.covState && node == state.covState[h.src]
      requires state.Tree() == WithNode(tree, h)
      modifies node
      ensures state.Valid() && state.Tree() == Visit(tree, h, seed)
    {
      node.children := node.children + {h.dest};
      node.belongs := node.belongs + {seed};
      node.UpdateDist(h.pos);
      forall a | a in state.covState && a != h.src ensures state.covState[a] != node { }
    }

    /** The rest of the loop's body, for a line that was decoded. */
    method Handle(line: TraceLine, seed: Seed, pos: nat)
      requires state.Valid() && line.Decoded?
      modifies state`covState, state.covState.Values
      ensures state.Valid() && state.Tree() == VisitAll(old(state.Tree()), Reading(line, pos), seed)
      ensures fresh(state.covState.Values - old(state.covState.Values))
    {
      var p := ParseLine(line.text);
      if p.Some? {
        ghost var tree := state.Tree();
        var h := HitOf(p.value, pos);
        var node := NodeOf(p.value, pos);
        Touch(node, h, seed, tree);
        VisitOne(tree, h, seed);
      }
    }

    /** The loop's body. */
    method HandleNext(lines: seq<TraceLine>, i: nat, seed: Seed, lineCnt: nat, ghost tree: Tree) returns (cnt: nat)
      requires state.Valid() && i < |lines| && lineCnt == Position(lines, i)
      requires state.Tree() == VisitAll(tree, Hits(lines, i), seed)
      modifies state`covState, state.covState.Values
      ensures cnt == Position(lines, i + 1)
      ensures state.Valid() && state.Tree() == VisitAll(tree, Hits(lines, i + 1), seed)
      ensures fresh(state.covState.Values - old(state.covState.Values))
    {
      ghost var reading := Reading(lines[i], Position(lines, i + 1));
      assert Hits(lines, i + 1) == Hits(lines, i) + reading;
      VisitAllConcat(tree, Hits(lines, i), reading, seed);
      if lines[i].Undecodable? { return lineCnt; }
      cnt := lineCnt + 1;
      Handle(lines[i], seed, cnt);
    }

    /** __dump_trace */
    method DumpTrace(lines: seq<TraceLine>, seed: Seed)
      requires state.Valid()
      modifies state`covState, state.covState.Values
      ensures state.Valid() && state.Tree() == IndexTrace(old(state.Tree()), SeedTrace(seed, lines))
      ensures fresh(state.covState.Values - old(state.covState.Values))
    {
      DumpLines(lines, seed);
    }

    method DumpLines(lines: seq<TraceLine>, seed: Seed)
      requires state.Valid()
      modifies state`covState, state.covState.Values
      ensures state.Valid() && state.Tree() == VisitAll(old(state.Tree()), Hits(lines, |lines|), seed)
      ensures fresh(state.covState.Values - old(state.covState.Values))
    {
      ghost var tree := state.Tree();
      var lineCnt := 0;
      assert VisitAll(tree, Hits(lines, 0), seed) == tree;
      for i := 0 to |lines|
        invariant lineCnt == Position(lines, i)
        invariant state.Valid()
        invariant state.Tree() == VisitAll(tree, Hits(lines, i), seed)
        invariant fresh(state.covState.Values - old(state.covState.Values))
      {
        lineCnt := HandleNext(lines, i, seed, lineCnt, tree);
      }
    }

    /** trace_corpus, given the output of the traced programs. */
    method TraceCorpus(batch: seq<SeedTrace>)
      requires state.Valid()
      modifies state`covState, state.covState.Values
      ensures state.Valid() && state.Tree() == IndexAll(old(state.Tree()), batch)
      ensures fresh(state.covState.Values - old(state.covState.Values))
    {
      for i := 0 to |batch|
        invariant state.Valid() && state.Tree() == IndexAll(old(state.Tree()), batch[..i])
        invariant fresh(state.covState.Values - old(state.covState.Values))
      {
        assert batch[..i + 1][..i] == batch[..i];
        DumpTrace(batch[i].lines, batch[i].seed);
        assert SeedTrace(batch[i].seed, batch[i].lines) == batch[i];
      }
      assert batch[..|batch|] == batch;
    }
  }

  // ----- what the tree says about the traces

  /** An edge was seen at a position of a seed's trace. */
  datatype Occurrence = Occurrence(src: nat, dest: nat, seed: Seed, pos: nat)

  function Seen(h: Hit, seed: Seed): Occurrence {
    Occurrence(h.src, h.dest, seed, h.pos)
  }

  function HitOccurrences(hits: seq<Hit>, seed: Seed): set<Occurrence> {
    set h | h in hits :: Seen(h, seed)
  }

  function TraceOccurrences(t: SeedTrace): set<Occurrence> {
    HitOccurrences(Hits(t.lines, |t.lines|), t.seed)
  }

  function Occurrences(batch: seq<SeedTrace>): set<Occurrence> {
    set t, o | t in batch && o in TraceOccurrences(t) :: o
  }

  function From(os: set<Occurrence>, a: nat): set<Occurrence> {
    set o | o in os && o.src == a
  }

  /** children, belongs and min_dist of a node are the set of the destinations, the set of the seeds, and the
      least position. */
  ghost predicate NodeMatches(node: Node, os: set<Occurrence>) {
    && node.children == (set o | o in os :: o.dest)
    && node.belongs == (set o | o in os :: o.seed)
    && (exists o :: o in os && o.pos == node.minDist)
    && (forall o :: o in os ==> node.minDist <= o.pos)
  }

  /** There is a node for the address if it is the source of an edge that was seen; it says what was seen there. */
  ghost predicate AddressMatches(tree: Tree, os: set<Occurrence>, a: nat) {
    if a in tree then NodeMatches(tree[a], From(os, a)) else From(os, a) == {}
  }

  ghost predicate Matches(tree: Tree, os: set<Occurrence>) {
    forall a :: AddressMatches(tree, os, a)
  }

  lemma VisitGrows(tree: Tree, h: Hit, seed: Seed)
    ensures TreeGrows(tree, Visit(tree, h, seed))
  {
  }

  lemma VisitedNodeMatches(tree: Tree, os: set<Occurrence>, h: Hit, seed: Seed)
    requires if h.src in tree then NodeMatches(tree[h.src], os) else os == {}
    ensures NodeMatches(Visit(tree, h, seed)[h.src], os + {Seen(h, seed)})
  {
    var o := Seen(h, seed);
    if h.src in tree {
      var q :| q in os && q.pos == tree[h.src].minDist;
      assert q in os + {o};
    }
    assert o in os + {o};
  }

  lemma VisitMatches(tree: Tree, os: set<Occurrence>, h: Hit, seed: Seed)
    requires Matches(tree, os)
    ensures Matches(Visit(tree, h, seed), os + {Seen(h, seed)})
  {
    var o := Seen(h, seed);
    var os' := os + {o};
    forall a ensures AddressMatches(Visit(tree, h, seed), os', a) {
      assert AddressMatches(tree, os, a);
      if a == h.src {
        VisitedNodeMatches(tree, From(os, a), h, seed);
        assert From(os', a) == From(os, a) + {o};
      } else {
        assert From(os', a) == From(os, a);
      }
    }
  }

  lemma HitOccurrencesStep(os: set<Occurrence>, hits: seq<Hit>, seed: Seed)
    requires hits != []
    ensures os + HitOccurrences(hits, seed) ==
      (os + HitOccurrences(hits[..|hits| - 1], seed)) + {Seen(hits[|hits| - 1], seed)}
  {
    var init, last := hits[..|hits| - 1], hits[|hits| - 1];
    assert forall h :: h in hits <==> h in init || h == last;
  }

  lemma TreeGrowsTransitive(s: Tree, t: Tree, u: Tree)
    requires TreeGrows(s, t) && TreeGrows(t, u)
    ensures TreeGrows(s, u)
  {
  }

  lemma {:induction false} VisitAllMatches(tree: Tree, os: set<Occurrence>, hits: seq<Hit>, seed: Seed)
    requires Matches(tree, os)
    ensures Matches(VisitAll(tree, hits, seed), os + HitOccurrences(hits, seed))
    ensures TreeGrows(tree, VisitAll(tree, hits, seed))
  {
    if hits == [] {
      assert os + HitOccurrences(hits, seed) == os;
    } else {
      var init, last := hits[..|hits| - 1], hits[|hits| - 1];
      VisitAllMatches(tree, os, init, seed);
      HitOccurrencesStep(os, hits, seed);
      var t := VisitAll(tree, init, seed);
      VisitMatches(t, os + HitOccurrences(init, seed), last, seed);
      VisitGrows(t, last, seed);
      TreeGrowsTransitive(tree, t, VisitAll(tree, hits, seed));
    }
  }

  /** After any batches the tree is the index of all the traces, and no entry of it was lost on the way. */
  lemma {:induction false} IndexAllMatches(tree: Tree, os: set<Occurrence>, batch: seq<SeedTrace>)
    requires Matches(tree, os)
    ensures Matches(IndexAll(tree, batch), os + Occurrences(batch))
    ensures TreeGrows(tree, IndexAll(tree, batch))
  {
    if batch == [] {
      assert os + Occurrences(batch) == os;
    } else {
      var init, last := batch[..|batch| - 1], batch[|batch| - 1];
      IndexAllMatches(tree, os, init);
      VisitAllMatches(IndexAll(tree, init), os + Occurrences(init), Hits(last.lines, |last.lines|), last.seed);
      assert forall t :: t in batch <==> t in init || t == last;
      assert os + Occurrences(batch) == (os + Occurrences(init)) + TraceOccurrences(last);
    }
  }

  lemma {:induction false} VisitAllOnly(tree: Tree, hits: seq<Hit>, seed: Seed, a: nat)
    requires a !in tree && forall j :: 0 <= j < |hits| ==> hits[j].src != a
    ensures a !in VisitAll(tree, hits, seed)
  {
    if hits != [] { VisitAllOnly(tree, hits[..|hits| - 1], seed, a); }
  }

  /** A new node has the condition of the first hit at its address. */
  lemma {:induction false} VisitAllFirst(tree: Tree, hits: seq<Hit>, seed: Seed, a: nat, i: nat)
    requires a !in tree && i < |hits| && hits[i].src == a && forall j :: 0 <= j < i ==> hits[j].src != a
    ensures var t := VisitAll(tree, hits, seed); a in t && t[a].condition == hits[i].condition
  {
    var init := hits[..|hits| - 1];
    if i < |init| { VisitAllFirst(tree, init, seed, a, i); } else { VisitAllOnly(tree, init, seed, a); }
  }

  /** The hits of the k-th trace. */
  function HitsOf(batch: seq<SeedTrace>, k: nat): seq<Hit>
    requires k < |batch|
  {
    Hits(batch[k].lines, |batch[k].lines|)
  }

  predicate NoHit(hits: seq<Hit>, a: nat) {
    forall j :: 0 <= j < |hits| ==> hits[j].src != a
  }

  lemma {:induction false} IndexAllOnly(batch: seq<SeedTrace>, a: nat)
    requires forall k: nat :: k < |batch| ==> NoHit(HitsOf(batch, k), a)
    ensures a !in IndexAll(map[], batch)
  {
    if batch != [] {
      var init, n := batch[..|batch| - 1], |batch| - 1;
      forall k: nat | k < n ensures NoHit(HitsOf(init, k), a) { assert NoHit(HitsOf(batch, k), a); }
      IndexAllOnly(init, a);
      assert NoHit(HitsOf(batch, n), a);
      VisitAllOnly(IndexAll(map[], init), HitsOf(batch, n), batch[n].seed, a);
    }
  }

  lemma PrefixNoHit(hits: seq<Hit>, i: nat, a: nat)
    requires i <= |hits| && NoHit(hits[..i], a)
    ensures forall j :: 0 <= j < i ==> hits[j].src != a
  {
    forall j | 0 <= j < i ensures hits[j].src != a { assert hits[..i][j] == hits[j]; }
  }

  /** The condition of a node is that of the first hit at its address, in the first trace that has one. */
  lemma {:induction false} ConditionIsFirst(batch: seq<SeedTrace>, a: nat, k: nat, i: nat)
    requires k < |batch| && i < |HitsOf(batch, k)| && HitsOf(batch, k)[i].src == a
    requires NoHit(HitsOf(batch, k)[..i], a) && forall l: nat :: l < k ==> NoHit(HitsOf(batch, l), a)
    ensures var tree := IndexAll(map[], batch); a in tree && tree[a].condition == HitsOf(batch, k)[i].condition
  {
    var init, n := batch[..|batch| - 1], |batch| - 1;
    var before, last := IndexAll(map[], init), HitsOf(batch, n);
    forall l: nat | l < n ensures HitsOf(init, l) == HitsOf(batch, l) { assert init[l] == batch[l]; }
    if k < n {
      ConditionIsFirst(init, a, k, i);
      VisitAllGrows(before, last, batch[n].seed);
    } else {
      IndexAllOnly(init, a);
      PrefixNoHit(last, i, a);
      VisitAllFirst(before, last, batch[n].seed, a, i);
    }
  }

  lemma {:induction false} VisitAllGrows(tree: Tree, hits: seq<Hit>, seed: Seed)
    ensures TreeGrows(tree, VisitAll(tree, hits, seed))
  {
    if hits != [] {
      VisitAllGrows(tree, hits[..|hits| - 1], seed);
      VisitGrows(VisitAll(tree, hits[..|hits| - 1], seed), hits[|hits| - 1], seed);
    }
  }

  lemma {:induction false} FoldConcatenates(
      index: (Tree, SeedTrace) -> Tree, tree: Tree, b: seq<SeedTrace>, c: seq<SeedTrace>)
    ensures Fold(index, Fold(index, tree, b), c) == Fold(index, tree, b + c)
  {
    if c == [] {
      assert b + c == b;
    } else {
      var init := c[..|c| - 1];
      FoldConcatenates(index, tree, b, init);
      assert (b + c)[..|b + c| - 1] == b + init;
    }
  }

  /** Batches come one after the other: it does not matter how the seeds are split into batches. */
  lemma BatchesConcatenate(tree: Tree, b: seq<SeedTrace>, c: seq<SeedTrace>)
    ensures IndexAll(IndexAll(tree, b), c) == IndexAll(tree, b + c)
  {
    FoldConcatenates(IndexTrace, tree, b, c);
  }

  lemma MatchesAgree(s: Tree, t: Tree, os: set<Occurrence>, a: nat)
    requires Matches(s, os) && Matches(t, os)
    ensures a in s <==> a in t
    ensures a in s ==> s[a].children == t[a].children && s[a].belongs == t[a].belongs && s[a].minDist == t[a].minDist
  {
    assert AddressMatches(s, os, a) && AddressMatches(t, os, a);
    if a in s {
      var o :| o in From(os, a) && o.pos == s[a].minDist;
      var q :| q in From(os, a) && q.pos == t[a].minDist;
    }
  }

  /** Nor does the order of the seeds matter, nor a repetition, for what the nodes know of their edges; the
      condition, however, is that of the first line. */
  lemma OrderDoesNotMatter(b: seq<SeedTrace>, c: seq<SeedTrace>, a: nat)
    requires forall t :: t in b <==> t in c
    ensures var s, t := IndexAll(map[], b), IndexAll(map[], c);
      && (a in s <==> a in t)
      && (a in s ==> s[a].children == t[a].children && s[a].belongs == t[a].belongs && s[a].minDist == t[a].minDist)
  {
    var os := {} + Occurrences(b);
    assert os == {} + Occurrences(c);
    IndexAllMatches(map[], {}, b);
    IndexAllMatches(map[], {}, c);
    MatchesAgree(IndexAll(map[], b), IndexAll(map[], c), os, a);
  }

  lemma {:induction false} ReadAllIs(
      read: (TraceLine, nat) -> seq<Hit>, lines: seq<TraceLine>, hs: seq<Hit>, n: nat)
    requires n <= |lines| == |hs|
    requires forall i :: 0 <= i < |lines| ==> lines[i].Decoded? && read(lines[i], i + 1) == [hs[i]]
    ensures Position(lines, n) == n && ReadAll(read, lines, n) == hs[..n]
  {
    if n > 0 { ReadAllIs(read, lines, hs, n - 1); }
  }

  function EventHit(e: Event, pos: nat): Hit
    requires WellFormed(e)
  {
    Hit(e.src, PrintedDestination(e), ParseCondition(ConditionText(e)), pos)
  }

  lemma ReadingOfEvent(e: Event, line: TraceLine, pos: nat, h: Hit)
    requires WellFormed(e) && line == Decoded(Line(e)) && h == EventHit(e, pos)
    ensures Reading(line, pos) == [h]
  {
    ParseLineOfText(ConditionText(e), e.src, PrintedDestination(e));
  }

  /** The lines are the printed events, and the hits the events with their 1-based places. */
  predicate PrintsAs(es: seq<Event>, lines: seq<TraceLine>, hs: seq<Hit>, i: nat)
    requires i < |es| == |lines| == |hs|
  {
    WellFormed(es[i]) && lines[i] == Decoded(Line(es[i])) && hs[i] == EventHit(es[i], i + 1)
  }

  lemma {:induction false} ReadsAs(es: seq<Event>, lines: seq<TraceLine>, hs: seq<Hit>, i: nat)
    requires i < |es| == |lines| == |hs| && PrintsAs(es, lines, hs, i)
    ensures lines[i].Decoded? && Reading(lines[i], i + 1) == [hs[i]]
  {
    ReadingOfEvent(es[i], lines[i], i + 1, hs[i]);
  }

  /** From the executed events to the index: what is read from a printed trace are its events, each with its
      printed destination and its place. */
  lemma OutputHits(es: seq<Event>, lines: seq<TraceLine>, hs: seq<Hit>)
    requires |es| == |lines| == |hs|
    requires forall i :: 0 <= i < |es| ==> PrintsAs(es, lines, hs, i)
    ensures Hits(lines, |es|) == hs
  {
    var read := Reading;
    forall i | 0 <= i < |lines| ensures lines[i].Decoded? && read(lines[i], i + 1) == [hs[i]] {
      ReadsAs(es, lines, hs, i);
    }
    ReadAllIs(read, lines, hs, |es|);
  }
}
