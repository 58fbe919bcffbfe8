/** What the executions of one seed leave behind, in terms of the bits of AFL's file and of the testcases' maps. */
module Recording {
  import opened Options
  import opened Coverage
  import opened Sync

  /** A testcase's map and the exit code of its execution. */
  datatype Execution = Execution(bitmap: Bitmap, ret: int)

  /** The testcases sampled for one address. */
  datatype Group = Group(addr: nat, runs: seq<Execution>)

  function Events(runs: seq<Execution>): (es: seq<Event>)
    ensures |es| == |runs|
  {
    seq(|runs|, i requires 0 <= i < |runs| => Testcase(runs[i].bitmap, runs[i].ret))
  }

  function GroupEvents(groups: seq<Group>): seq<Event> {
    if groups == [] then [] else GroupEvents(groups[..|groups| - 1]) + Events(groups[|groups| - 1].runs)
  }

  /** The map, the files of the concolic queue, and the numbers of hangs and crashes. */
  datatype Files = Files(bitmap: Bitmap, queue: seq<Saved>, hangs: nat, crashes: nat)

  function FilesOf(p: Progress): Files {
    Files(p.bitmap, p.saved, p.hangs, p.crashes)
  }

  /** Before the n-th execution the bit was set in the map, or is clear in AFL's file, or set in the map of an earlier
      normal execution. */
  ghost predicate KnownBefore(
    was: Bitmap, file: Option<Bitmap>, runs: seq<Execution>, n: nat, i: int, mask: bv8)
    requires n <= |runs|
  {
    || Has(was, i, mask) || (file.Some? && Lacks(file.value, i, mask))
    || exists r :: 0 <= r < n && runs[r].ret == 0 && Has(runs[r].bitmap, i, mask)
  }

  /** The i-th byte of the n-th execution's map has a bit that was not known before. */
  ghost predicate NewAt(was: Bitmap, file: Option<Bitmap>, runs: seq<Execution>, n: nat, i: int)
    requires n < |runs|
  {
    exists mask :: IsBit(mask) && Has(runs[n].bitmap, i, mask) && !KnownBefore(was, file, runs, n, i, mask)
  }

  ghost function NewBytes(was: Bitmap, file: Option<Bitmap>, runs: seq<Execution>, n: nat): set<int>
    requires n < |runs|
  {
    set i | 0 <= i < MAP_SIZE && NewAt(was, file, runs, n, i)
  }

  /** The n-th execution is normal and its map has a bit that was not known before. */
  ghost predicate IsInteresting(was: Bitmap, file: Option<Bitmap>, runs: seq<Execution>, n: int) {
    0 <= n < |runs| && runs[n].ret == 0 && NewBytes(was, file, runs, n) != {}
  }

  /** Saved are exactly the interesting testcases, in their order and under the next numbers. */
  ghost predicate SavesThose(was: Bitmap, file: Option<Bitmap>, runs: seq<Execution>, before: seq<Saved>,
                             after: seq<Saved>, places: seq<nat>)
  {
    && Increasing(places) && |after| == |before| + |places|
    && (forall n :: n in places <==> IsInteresting(was, file, runs, n))
    && (forall k :: 0 <= k < |before| ==> after[k] == before[k])
    && (forall k :: 0 <= k < |places| ==>
          places[k] < |runs| && after[|before| + k] == Saved(|before| + k, runs[places[k]].bitmap))
  }

  function ExitedWith(runs: seq<Execution>, code: int): set<int> {
    set n | 0 <= n < |runs| && runs[n].ret == code
  }

  /** First AFL's file is merged, and then the executions are looked at, one after the other. */
  ghost predicate Records(file: Option<Bitmap>, runs: seq<Execution>, s: Files, t: Files) {
    && (forall i, mask :: 0 <= i < MAP_SIZE && IsBit(mask) ==>
          (Has(t.bitmap, i, mask) <==> KnownBefore(s.bitmap, file, runs, |runs|, i, mask)))
    && (exists places :: SavesThose(s.bitmap, file, runs, s.queue, t.queue, places))
    && t.hangs == s.hangs + |ExitedWith(runs, 1)| && t.crashes == s.crashes + |ExitedWith(runs, 2)|
  }

  // ----- the log says so

  function Merging(file: Option<Bitmap>, runs: seq<Execution>): (es: seq<Event>)
    ensures |es| == |runs| + 1
  {
    [Snapshot(file)] + Events(runs)
  }

  lemma {:induction false} MergingAt(file: Option<Bitmap>, runs: seq<Execution>, j: nat)
    requires j <= |runs|
    ensures Merging(file, runs)[j] == if j == 0 then Snapshot(file) else Testcase(runs[j - 1].bitmap, runs[j - 1].ret)
  {
  }

  lemma MergingPrefix(file: Option<Bitmap>, runs: seq<Execution>, n: nat)
    requires n <= |runs|
    ensures Merging(file, runs)[..n + 1] == [Snapshot(file)] + Events(runs[..n])
  {
  }

  lemma {:induction false} KnownIs(was: FullMap, file: Option<Bitmap>, runs: seq<Execution>, n: nat, i: int, mask: bv8)
    requires n <= |runs|
    ensures Known(was, Merging(file, runs), n + 1, i, mask) <==> KnownBefore(was, file, runs, n, i, mask)
  {
    var es := Merging(file, runs);
    MergingAt(file, runs, 0);
    if j :| 0 <= j < n + 1 && Brings(es[j], i, mask) && j > 0 {
      MergingAt(file, runs, j);
      var r := j - 1;
      assert runs[r].ret == 0 && Has(runs[r].bitmap, i, mask);
    }
    if r :| 0 <= r < n && runs[r].ret == 0 && Has(runs[r].bitmap, i, mask) {
      MergingAt(file, runs, r + 1);
      assert Brings(es[r + 1], i, mask);
    }
    if file.Some? && Lacks(file.value, i, mask) { assert Brings(es[0], i, mask); }
  }

  lemma {:induction false} FindsAtIs(was: FullMap, file: Option<Bitmap>, runs: seq<Execution>, n: nat, i: int)
    requires n < |runs|
    ensures Merging(file, runs)[n + 1].Testcase?
    ensures FindsAt(was, Merging(file, runs), n + 1, i) <==> NewAt(was, file, runs, n, i)
  {
    MergingAt(file, runs, n + 1);
    forall mask
      ensures Known(was, Merging(file, runs), n + 1, i, mask) <==> KnownBefore(was, file, runs, n, i, mask)
    {
      KnownIs(was, file, runs, n, i, mask);
    }
  }

  lemma {:induction false} FindsIs(was: FullMap, file: Option<Bitmap>, runs: seq<Execution>, n: nat)
    requires n < |runs| && !Raises(Merging(file, runs)[n + 1])
    ensures Finds(was, Merging(file, runs), n + 1) <==> IsInteresting(was, file, runs, n)
  {
    var es, m := Merging(file, runs), n + 1;
    MergingAt(file, runs, m);
    forall i ensures FindsAt(was, es, m, i) <==> NewAt(was, file, runs, n, i) { FindsAtIs(was, file, runs, n, i); }
    if Finds(was, es, m) {
      var i :| 0 <= i < MAP_SIZE && FindsAt(was, es, m, i);
      assert i in NewBytes(was, file, runs, n);
    }
    if i :| i in NewBytes(was, file, runs, n) { assert FindsAt(was, es, m, i); }
  }

  lemma {:induction false} NoneRaises(es: seq<Event>, j: nat)
    requires !Breaks(es) && j < |es|
    ensures !Raises(es[j])
  {
    if j > 0 {
      NoneRaises(es[1..], j - 1);
      assert es[1..][j - 1] == es[j];
    }
  }

  /** The places among the executions, of those among the events. */
  function Back(places: seq<nat>): (qs: seq<nat>)
    ensures |qs| == |places|
  {
    seq(|places|, k requires 0 <= k < |places| => if places[k] == 0 then 0 else places[k] - 1)
  }

  lemma {:induction false} PlacesBack(was: FullMap, file: Option<Bitmap>, runs: seq<Execution>, places: seq<nat>)
    requires !Breaks(Merging(file, runs)) && Increasing(places)
    requires forall n :: n in places <==> Finds(was, Merging(file, runs), n)
    ensures forall k :: 0 <= k < |places| ==> 0 < places[k] <= |runs| && Back(places)[k] == places[k] - 1
    ensures Increasing(Back(places))
    ensures forall n :: n in Back(places) <==> IsInteresting(was, file, runs, n)
  {
    var es := Merging(file, runs);
    MergingAt(file, runs, 0);
    forall k | 0 <= k < |places| ensures 0 < places[k] <= |runs| && Back(places)[k] == places[k] - 1 {
      assert places[k] in places;
    }
    forall n ensures n in Back(places) <==> IsInteresting(was, file, runs, n) {
      if 0 <= n < |runs| {
        NoneRaises(es, n + 1);
        FindsIs(was, file, runs, n);
        if n + 1 in places {
          var k :| 0 <= k < |places| && places[k] == n + 1;
          assert Back(places)[k] == n;
        }
      }
      if n in Back(places) {
        var k :| 0 <= k < |places| && Back(places)[k] == n;
        assert places[k] in places && places[k] == n + 1;
      }
    }
  }

  lemma {:induction false} QueueRecorded(was: FullMap, file: Option<Bitmap>, runs: seq<Execution>, before: seq<Saved>,
                                         more: seq<Saved>, after: seq<Saved>)
    requires !Breaks(Merging(file, runs)) && Appended(before, more, after)
    requires more == After(was, Merging(file, runs)).saved
    ensures exists places :: SavesThose(was, file, runs, before, after, places)
  {
    var es := Merging(file, runs);
    var places := SavedExactly(was, es);
    PlacesBack(was, file, runs, places);
    forall k | 0 <= k < |places|
      ensures after[|before| + k] == Saved(|before| + k, runs[Back(places)[k]].bitmap)
    {
      MergingAt(file, runs, places[k]);
    }
    assert SavesThose(was, file, runs, before, after, Back(places));
  }

  lemma {:induction false} ExitsRecorded(file: Option<Bitmap>, runs: seq<Execution>, code: int)
    ensures |EndingWith(Merging(file, runs), code)| == |ExitedWith(runs, code)|
  {
    var es := Merging(file, runs);
    EndedWith(es, code);
    if runs == [] {
      assert EndingWith(es[..0], code) == {} && ExitedWith(runs, code) == {};
    } else {
      var init, n := runs[..|runs| - 1], |runs| - 1;
      ExitsRecorded(file, init, code);
      assert es[..|es| - 1] == Merging(file, init);
      assert ExitedWith(runs, code) == ExitedWith(init, code) + if runs[n].ret == code then {n} else {};
    }
  }

  /** What the log makes of the file and the executions. */
  lemma {:induction false} LogRecords(start: FullMap, log: seq<Event>, file: Option<Bitmap>, runs: seq<Execution>)
    requires !Breaks(Merging(file, runs))
    ensures Records(file, runs, FilesOf(After(start, log)), FilesOf(After(start, log + Merging(file, runs))))
  {
    var es, p := Merging(file, runs), After(start, log);
    AfterBoth(start, log, es);
    var q, r := After(p.bitmap, es), After(start, log + es);
    forall i, mask | 0 <= i < MAP_SIZE && IsBit(mask)
      ensures Has(r.bitmap, i, mask) <==> KnownBefore(p.bitmap, file, runs, |runs|, i, mask)
    {
      MapBits(p.bitmap, es, i, mask);
      KnownIs(p.bitmap, file, runs, |runs|, i, mask);
    }
    QueueRecorded(p.bitmap, file, runs, p.saved, q.saved, r.saved);
    CountersExactly(p.bitmap, es);
    ExitsRecorded(file, runs, 1);
    ExitsRecorded(file, runs, 2);
  }

  // ----- the testcases of all addresses

  /** The executions of all groups, one group after the other. */
  function Flat(groups: seq<Group>): seq<Execution> {
    if groups == [] then [] else Flat(groups[..|groups| - 1]) + groups[|groups| - 1].runs
  }

  /** Those of the g-th group come behind those of the groups before it. */
  lemma {:induction false} FlatAt(groups: seq<Group>, g: nat, r: nat)
    requires g < |groups| && r < |groups[g].runs|
    ensures |Flat(groups[..g])| + r < |Flat(groups)| && Flat(groups)[|Flat(groups[..g])| + r] == groups[g].runs[r]
    decreases |groups|
  {
    var init := groups[..|groups| - 1];
    if g < |init| {
      FlatAt(init, g, r);
      assert init[..g] == groups[..g];
    }
  }

  lemma {:induction false} FlatEvents(groups: seq<Group>)
    ensures Events(Flat(groups)) == GroupEvents(groups)
  {
    if groups != [] {
      FlatEvents(groups[..|groups| - 1]);
    }
  }

  lemma {:induction false} FlatPrefix(groups: seq<Group>, g: nat)
    requires g <= |groups|
    ensures |Flat(groups[..g])| <= |Flat(groups)| && Flat(groups)[..|Flat(groups[..g])|] == Flat(groups[..g])
    decreases |groups|
  {
    if g < |groups| {
      var init := groups[..|groups| - 1];
      FlatPrefix(init, g);
      assert init[..g] == groups[..g];
    } else {
      assert groups[..g] == groups;
    }
  }

  /** How many bytes the executions from lo to hi found something new in. */
  ghost function SumNew(was: Bitmap, file: Option<Bitmap>, runs: seq<Execution>, lo: nat, hi: nat): nat
    requires lo <= hi <= |runs|
    decreases hi - lo
  {
    if lo == hi then 0
    else SumNew(was, file, runs, lo, hi - 1) +
         if runs[hi - 1].ret == 0 then |NewBytes(was, file, runs, hi - 1)| else 0
  }

  /** What the file and the first n executions gained. */
  function GainedAfter(was: FullMap, file: Option<Bitmap>, runs: seq<Execution>, n: nat): nat
    requires n <= |runs|
  {
    After(was, Merging(file, runs)[..n + 1]).gained
  }

  lemma {:induction false} GainIsNew(was: FullMap, file: Option<Bitmap>, runs: seq<Execution>, n: nat)
    requires n < |runs| && !Breaks(Merging(file, runs))
    ensures GainedAfter(was, file, runs, n + 1) - GainedAfter(was, file, runs, n) ==
      if runs[n].ret == 0 then |NewBytes(was, file, runs, n)| else 0
  {
    var es, m := Merging(file, runs), n + 1;
    NoneRaises(es, m);
    MergingAt(file, runs, m);
    GainIsFinds(was, es, m);
    forall i ensures FindsAt(was, es, m, i) <==> NewAt(was, file, runs, n, i) { FindsAtIs(was, file, runs, n, i); }
    if runs[n].ret == 0 {
      assert (set i | 0 <= i < MAP_SIZE && FindsAt(was, es, m, i)) == NewBytes(was, file, runs, n);
    }
  }

  lemma {:induction false} GainIsSum(was: FullMap, file: Option<Bitmap>, runs: seq<Execution>, lo: nat, hi: nat)
    requires lo <= hi <= |runs| && !Breaks(Merging(file, runs))
    ensures GainedAfter(was, file, runs, hi) - GainedAfter(was, file, runs, lo) == SumNew(was, file, runs, lo, hi)
    decreases hi - lo
  {
    if lo < hi {
      GainIsSum(was, file, runs, lo, hi - 1);
      GainIsNew(was, file, runs, hi - 1);
    }
  }
}
