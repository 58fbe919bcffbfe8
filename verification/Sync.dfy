/** Testcases and coverage snapshots: the part of src/fuzz/executor.py that decides which testcases are saved. */
module Sync {
  import opened Options
  import opened Coverage

  const MAP_SIZE: nat := 65536

  /** The coverage map. */
  type FullMap = m: Bitmap | |m| == MAP_SIZE witness seq(MAP_SIZE, i => 0)

  /** The files that AFL and afl-showmap write can have any length. */
  datatype Event =
    | Snapshot(file: Option<Bitmap>)
    | Testcase(bitmap: Bitmap, ret: int)

  /** A file that is longer than the map, or the map of a normal testcase that is shorter, raises an IndexError. */
  predicate Raises(e: Event) {
    match e
    case Snapshot(file) => file.Some? && |file.value| > MAP_SIZE
    case Testcase(t, ret) => ret == 0 && |t| < MAP_SIZE
  }

  /** The log up to the first event that raises, and with it. */
  function UpTo(es: seq<Event>): seq<Event> {
    if es == [] then [] else if Raises(es[0]) then [es[0]] else [es[0]] + UpTo(es[1..])
  }

  predicate Breaks(es: seq<Event>) {
    es != [] && (Raises(es[0]) || Breaks(es[1..]))
  }

  lemma {:induction false} UpToBoth(es: seq<Event>, more: seq<Event>)
    ensures Breaks(es + more) <==> Breaks(es) || Breaks(more)
    ensures UpTo(es + more) == if Breaks(es) then UpTo(es) else es + UpTo(more)
  {
    if es == [] {
      assert es + more == more;
    } else {
      assert (es + more)[1..] == es[1..] + more;
      UpToBoth(es[1..], more);
      UpToFirst(es + more);
      UpToFirst(es);
      Regroup(es, more);
    }
  }

  lemma UpToFirst(es: seq<Event>)
    requires es != []
    ensures UpTo(es) == if Raises(es[0]) then [es[0]] else [es[0]] + UpTo(es[1..])
    ensures Breaks(es) <==> Raises(es[0]) || Breaks(es[1..])
  {
  }

  lemma Regroup(es: seq<Event>, more: seq<Event>)
    requires es != []
    ensures [es[0]] + (es[1..] + UpTo(more)) == es + UpTo(more)
  {
    assert [es[0]] + es[1..] == es;
  }

  lemma {:induction false} UpToAll(es: seq<Event>)
    requires !Breaks(es)
    ensures UpTo(es) == es
  {
    if es != [] { UpToAll(es[1..]); }
  }

  /** The events end with the first that raises, or are all there. */
  lemma {:induction false} UpToIs(es: seq<Event>) returns (n: nat)
    ensures n <= |es| && UpTo(es) == es[..n]
    ensures forall i :: 0 <= i < n - 1 ==> !Raises(es[i])
    ensures if Breaks(es) then n > 0 && Raises(es[n - 1]) else n == |es| && forall i :: 0 <= i < n ==> !Raises(es[i])
  {
    if es == [] {
      n := 0;
    } else if Raises(es[0]) {
      n := 1;
    } else {
      n := UpToIs(es[1..]);
      assert es[..n + 1] == [es[0]] + es[1..][..n];
      forall i | 0 < i < n + 1 ensures es[i] == es[1..][i - 1] { }
      n := n + 1;
    }
  }

  /** One after the other, if the first do not raise. */
  lemma {:induction false} InTurn(log: seq<Event>, es: seq<Event>, more: seq<Event>)
    ensures Breaks(es + more) <==> Breaks(es) || Breaks(more)
    ensures log + UpTo(es + more) == if Breaks(es) then log + UpTo(es) else (log + UpTo(es)) + UpTo(more)
  {
    UpToBoth(es, more);
    if !Breaks(es) {
      UpToAll(es);
      assert (log + es) + UpTo(more) == log + (es + UpTo(more));
    }
  }

  lemma UpToOne(e: Event)
    ensures Breaks([e]) <==> Raises(e)
    ensures UpTo([e]) == [e]
  {
    assert [e][1..] == [];
  }

  /** A saved seed: the number in its name, and the map of the testcase it was copied from. */
  datatype Saved = Saved(id: nat, bitmap: Bitmap)

  datatype Progress = Progress(bitmap: FullMap, saved: seq<Saved>, crashes: nat, hangs: nat, gained: nat)

  /** update_bitmap, or __sync_seed for one testcase. If it raises, what there was is merged, and nothing counted. */
  function Handle(s: Progress, e: Event): Progress {
    match e
    case Snapshot(file) => if file.Some? then s.(bitmap := Join(s.bitmap, Flip(file.value))) else s
    case Testcase(t, ret) =>
      if ret == 0 then
        var g := if Raises(e) then 0 else Gain(s.bitmap, t, MAP_SIZE);
        s.(bitmap := Join(s.bitmap, t), gained := s.gained + g,
           saved := if g == 0 then s.saved else s.saved + [Saved(|s.saved|, t)])
      else if ret == 1 then s.(hangs := s.hangs + 1)
      else if ret == 2 then s.(crashes := s.crashes + 1)
      else s
  }

  function After(start: FullMap, log: seq<Event>): Progress {
    if log == [] then Progress(start, [], 0, 0, 0) else Handle(After(start, log[..|log| - 1]), log[|log| - 1])
  }

  /** The maps that were merged without anything being saved: the snapshots, and maps that are too short. */
  function Merged(log: seq<Event>): seq<Bitmap> {
    if log == [] then []
    else
      var init, last := Merged(log[..|log| - 1]), log[|log| - 1];
      if last.Snapshot? && last.file.Some? then init + [Flip(last.file.value)]
      else if last.Testcase? && Raises(last) then init + [last.bitmap]
      else init
  }

  function SavedMaps(saved: seq<Saved>): (ms: seq<Bitmap>)
    ensures |ms| == |saved|
  {
    seq(|saved|, i requires 0 <= i < |saved| => saved[i].bitmap)
  }

  // ----- which bits are known, and which testcases are saved

  /** The event brings the bit to the map: it is clear in AFL's file, or set in the map of a normal testcase. */
  predicate Brings(e: Event, i: int, mask: bv8) {
    match e
    case Snapshot(file) => file.Some? && Lacks(file.value, i, mask)
    case Testcase(t, ret) => ret == 0 && Has(t, i, mask)
  }

  /** The bit was set at the start, or one of the first n events brought it. */
  ghost predicate Known(start: FullMap, log: seq<Event>, n: nat, i: int, mask: bv8)
    requires n <= |log|
  {
    Has(start, i, mask) || exists j :: 0 <= j < n && Brings(log[j], i, mask)
  }

  lemma KnownOneMore(start: FullMap, log: seq<Event>, n: nat, i: int, mask: bv8)
    requires n < |log|
    ensures Known(start, log, n + 1, i, mask) <==> Known(start, log, n, i, mask) || Brings(log[n], i, mask)
    ensures Known(start, log[..n], n, i, mask) <==> Known(start, log, n, i, mask)
  {
    assert forall j :: 0 <= j < n ==> log[..n][j] == log[j];
  }

  lemma {:induction false} HandleBits(s: Progress, e: Event, i: int, mask: bv8)
    requires 0 <= i < MAP_SIZE && IsBit(mask)
    ensures Has(Handle(s, e).bitmap, i, mask) <==> Has(s.bitmap, i, mask) || Brings(e, i, mask)
  {
    match e
    case Snapshot(file) =>
      if file.Some? {
        BitOfJoin(s.bitmap, Flip(file.value), i, mask);
        BitOfFlip(file.value, i, mask);
      }
    case Testcase(t, ret) => BitOfJoin(s.bitmap, t, i, mask);
  }

  /** The map has exactly the bits that were set at the start, are clear in one of AFL's files, or set in the map of a
      normal testcase. */
  lemma {:induction false} MapBits(start: FullMap, log: seq<Event>, i: int, mask: bv8)
    requires 0 <= i < MAP_SIZE && IsBit(mask)
    ensures Has(After(start, log).bitmap, i, mask) <==> Known(start, log, |log|, i, mask)
  {
    if log != [] {
      var n := |log| - 1;
      MapBits(start, log[..n], i, mask);
      HandleBits(After(start, log[..n]), log[n], i, mask);
      KnownOneMore(start, log, n, i, mask);
    }
  }

  /** The i-th byte of the n-th event's map has a bit that was not known before. */
  ghost predicate FindsAt(start: FullMap, log: seq<Event>, n: nat, i: int)
    requires n < |log| && log[n].Testcase?
  {
    exists mask :: IsBit(mask) && Has(log[n].bitmap, i, mask) && !Known(start, log, n, i, mask)
  }

  /** The n-th event is a normal testcase that does not raise and finds a bit that was not known before. */
  ghost predicate Finds(start: FullMap, log: seq<Event>, n: int) {
    && 0 <= n < |log| && log[n].Testcase? && log[n].ret == 0 && |log[n].bitmap| >= MAP_SIZE
    && exists i :: 0 <= i < MAP_SIZE && FindsAt(start, log, n, i)
  }

  lemma {:induction false} GainsAreFinds(start: FullMap, log: seq<Event>, n: nat, i: int)
    requires n < |log| && log[n].Testcase? && 0 <= i < MAP_SIZE
    ensures Gains(After(start, log[..n]).bitmap, log[n].bitmap, i) <==> FindsAt(start, log, n, i)
  {
    forall mask | IsBit(mask)
      ensures Lacks(After(start, log[..n]).bitmap, i, mask) <==> !Known(start, log, n, i, mask)
    {
      MapBits(start, log[..n], i, mask);
      KnownOneMore(start, log, n, i, mask);
    }
  }

  /** What the n-th event gains: the number of bytes in which it finds a bit. */
  lemma {:induction false} GainIsFinds(start: FullMap, log: seq<Event>, n: nat)
    requires n < |log|
    ensures var gained := After(start, log[..n + 1]).gained - After(start, log[..n]).gained;
      if log[n].Testcase? && log[n].ret == 0 && |log[n].bitmap| >= MAP_SIZE
      then gained == |set i | 0 <= i < MAP_SIZE && FindsAt(start, log, n, i)| && (gained != 0 <==> Finds(start, log, n))
      else gained == 0
  {
    assert log[..n + 1][..n] == log[..n];
    var e, m := log[n], After(start, log[..n]).bitmap;
    if e.Testcase? && e.ret == 0 && |e.bitmap| >= MAP_SIZE {
      GainIsCount(m, e.bitmap, MAP_SIZE);
      forall i | 0 <= i < MAP_SIZE ensures Gains(m, e.bitmap, i) <==> FindsAt(start, log, n, i) {
        GainsAreFinds(start, log, n, i);
      }
      var found := set i | 0 <= i < MAP_SIZE && FindsAt(start, log, n, i);
      assert GainingBytes(m, e.bitmap, MAP_SIZE) == found;
      if i :| 0 <= i < MAP_SIZE && FindsAt(start, log, n, i) { assert i in found; }
    }
  }

  predicate Increasing(places: seq<nat>) {
    forall k, l :: 0 <= k < l < |places| ==> places[k] < places[l]
  }

  /** The saved testcases are those events, in their order. */
  ghost predicate SavedAre(start: FullMap, log: seq<Event>, saved: seq<Saved>, places: seq<nat>) {
    && Increasing(places) && |saved| == |places|
    && (forall n :: n in places <==> Finds(start, log, n))
    && (forall k :: 0 <= k < |places| ==>
          places[k] < |log| && log[places[k]].Testcase? && saved[k] == Saved(k, log[places[k]].bitmap))
  }

  lemma {:induction false} FindsEarlier(start: FullMap, log: seq<Event>, n: int)
    requires 0 <= n < |log| - 1
    ensures Finds(start, log[..|log| - 1], n) <==> Finds(start, log, n)
  {
    var init := log[..|log| - 1];
    assert init[n] == log[n];
    if log[n].Testcase? {
      forall i ensures FindsAt(start, init, n, i) <==> FindsAt(start, log, n, i) {
        forall mask ensures Known(start, init, n, i, mask) <==> Known(start, log, n, i, mask) {
          assert forall j :: 0 <= j < n ==> init[j] == log[j];
        }
      }
    }
  }

  /** Saved are exactly the normal testcases that find a bit which neither the map at the start nor an earlier file or
      normal testcase has; in their order, and numbered without gaps. */
  lemma {:induction false} SavedExactly(start: FullMap, log: seq<Event>) returns (places: seq<nat>)
    ensures SavedAre(start, log, After(start, log).saved, places)
  {
    if log == [] {
      places := [];
    } else {
      var n := |log| - 1;
      places := SavedExactly(start, log[..n]);
      GainIsFinds(start, log, n);
      assert log[..n + 1] == log;
      forall m | 0 <= m < n ensures Finds(start, log[..n], m) <==> Finds(start, log, m) { FindsEarlier(start, log, m); }
      places := ExtendPlaces(start, log, places);
    }
  }

  lemma {:induction false} ExtendPlaces(start: FullMap, log: seq<Event>, places: seq<nat>) returns (places': seq<nat>)
    requires log != []
    requires SavedAre(start, log[..|log| - 1], After(start, log[..|log| - 1]).saved, places)
    requires forall m :: 0 <= m < |log| - 1 ==> (Finds(start, log[..|log| - 1], m) <==> Finds(start, log, m))
    requires Finds(start, log, |log| - 1) <==> After(start, log).gained != After(start, log[..|log| - 1]).gained
    ensures SavedAre(start, log, After(start, log).saved, places')
  {
    var n := |log| - 1;
    forall k | 0 <= k < |places| ensures places[k] < n && log[places[k]] == log[..n][places[k]] {
      assert places[k] in places;
    }
    forall m ensures m in places <==> m != n && Finds(start, log, m) {
      if 0 <= m < n { assert Finds(start, log[..n], m) <==> Finds(start, log, m); }
    }
    if Finds(start, log, n) {
      places' := places + [n];
      OneMorePlace(start, log, places);
    } else {
      places' := places;
    }
  }

  lemma {:induction false} OneMorePlace(start: FullMap, log: seq<Event>, places: seq<nat>)
    requires log != [] && Finds(start, log, |log| - 1) && Increasing(places)
    requires forall k :: 0 <= k < |places| ==> places[k] < |log| - 1
    requires forall m :: m in places <==> m != |log| - 1 && Finds(start, log, m)
    ensures Increasing(places + [|log| - 1])
    ensures forall m :: m in places + [|log| - 1] <==> Finds(start, log, m)
  {
    forall m ensures m in places + [|log| - 1] <==> m in places || m == |log| - 1 { }
  }

  function EndingWith(log: seq<Event>, code: int): set<int> {
    set n | 0 <= n < |log| && log[n].Testcase? && log[n].ret == code
  }

  /** The hangs and crashes are the testcases that end with 1 and with 2. */
  lemma {:induction false} CountersExactly(start: FullMap, log: seq<Event>)
    ensures After(start, log).hangs == |EndingWith(log, 1)|
    ensures After(start, log).crashes == |EndingWith(log, 2)|
  {
    if log == [] {
      assert EndingWith(log, 1) == {} && EndingWith(log, 2) == {};
    } else {
      CountersExactly(start, log[..|log| - 1]);
      EndedWith(log, 1);
      EndedWith(log, 2);
    }
  }

  lemma {:induction false} EndedWith(log: seq<Event>, code: int)
    requires log != []
    ensures var n := |log| - 1;
      |EndingWith(log, code)| ==
      |EndingWith(log[..n], code)| + if log[n].Testcase? && log[n].ret == code then 1 else 0
  {
    var n := |log| - 1;
    assert EndingWith(log, code) ==
      EndingWith(log[..n], code) + if log[n].Testcase? && log[n].ret == code then {n} else {};
  }

  /** r is p with what q has in addition. */
  predicate AddsUp(p: Progress, q: Progress, r: Progress) {
    && r.bitmap == q.bitmap && r.gained == p.gained + q.gained
    && r.hangs == p.hangs + q.hangs && r.crashes == p.crashes + q.crashes
    && Appended(p.saved, q.saved, r.saved)
  }

  /** The files saved later, with the numbers that come next. */
  predicate Appended(before: seq<Saved>, more: seq<Saved>, all: seq<Saved>) {
    && |all| == |before| + |more|
    && (forall k :: 0 <= k < |before| ==> all[k] == before[k])
    && (forall k :: 0 <= k < |more| ==> all[|before| + k] == Saved(|before| + k, more[k].bitmap))
  }

  lemma {:induction false} HandleAddsUp(p: Progress, q: Progress, r: Progress, e: Event)
    requires AddsUp(p, q, r)
    ensures AddsUp(p, Handle(q, e), Handle(r, e))
  {
  }

  /** Later events go on from the map as it is. */
  lemma {:induction false} AfterBoth(start: FullMap, log: seq<Event>, more: seq<Event>)
    ensures AddsUp(After(start, log), After(After(start, log).bitmap, more), After(start, log + more))
  {
    if more == [] {
      assert log + more == log;
    } else {
      var init, p := more[..|more| - 1], After(start, log);
      AfterBoth(start, log, init);
      assert (log + more)[..|log + more| - 1] == log + init;
      HandleAddsUp(p, After(p.bitmap, init), After(start, log + init), more[|more| - 1]);
    }
  }

  /** The bound on what can still be gained pays for every gain: the total of all increases that is_interesting
      ever returned, and hence the number of saved seeds, is at most the number of bits that were clear at first. */
  lemma {:induction false} AmortisedCoverage(start: FullMap, log: seq<Event>)
    ensures var s := After(start, log);
      |s.saved| <= s.gained && s.gained + TotalBits(start, MAP_SIZE) <= TotalBits(s.bitmap, MAP_SIZE) <= 8 * MAP_SIZE
  {
    var s := After(start, log);
    BitsBounded(s.bitmap, MAP_SIZE);
    if log != [] {
      var e := log[|log| - 1];
      AmortisedCoverage(start, log[..|log| - 1]);
      var p := After(start, log[..|log| - 1]).bitmap;
      if e.Testcase? && e.ret == 0 {
        if Raises(e) { JoinKeepsBits(p, e.bitmap, MAP_SIZE); } else { GainCostsBits(p, e.bitmap, MAP_SIZE); }
      } else if e.Snapshot? && e.file.Some? {
        JoinKeepsBits(p, Flip(e.file.value), MAP_SIZE);
      }
    }
  }

  /** Saved ids are exactly 0, 1, 2, ... without gaps. */
  lemma {:induction false} SavedIdsWithoutGaps(start: FullMap, log: seq<Event>, i: nat)
    requires i < |After(start, log).saved|
    ensures After(start, log).saved[i].id == i
  {
    var before := After(start, log[..|log| - 1]);
    if i < |before.saved| {
      SavedIdsWithoutGaps(start, log[..|log| - 1], i);
    }
  }

  /** No coverage is lost by discarding: the map is the initial one joined with the merged snapshots and with
      the maps of the saved seeds only. */
  lemma {:induction false} MapIsSnapshotsAndSaved(start: FullMap, log: seq<Event>)
    ensures After(start, log).bitmap == JoinAll(JoinAll(start, Merged(log)), SavedMaps(After(start, log).saved))
  {
    if log != [] {
      var init, e := log[..|log| - 1], log[|log| - 1];
      MapIsSnapshotsAndSaved(start, init);
      var p := After(start, init);
      var base, saved := JoinAll(start, Merged(init)), SavedMaps(p.saved);
      if (e.Snapshot? && e.file.Some?) || (e.Testcase? && Raises(e)) {
        var f := if e.Snapshot? then Flip(e.file.value) else e.bitmap;
        assert (Merged(init) + [f])[..|Merged(init)|] == Merged(init);
        JoinAllCommutes(base, f, saved);
      } else if e.Testcase? && e.ret == 0 {
        NoGainIff(p.bitmap, e.bitmap, MAP_SIZE);
        if Gain(p.bitmap, e.bitmap, MAP_SIZE) != 0 {
          assert SavedMaps(p.saved + [Saved(|p.saved|, e.bitmap)]) == saved + [e.bitmap];
          assert (saved + [e.bitmap])[..|saved|] == saved;
        }
      }
    }
  }

  /** So every testcase that exited normally, saved or discarded, is covered from then on. */
  lemma {:induction false} NormalTestcasesCovered(start: FullMap, log: seq<Event>, k: nat)
    requires k < |log| && log[k].Testcase? && log[k].ret == 0
    ensures Covers(After(start, log).bitmap, log[k].bitmap)
  {
    var n := |log| - 1;
    var p, e := After(start, log[..n]).bitmap, log[n];
    if k == n {
      JoinCovers(p, e.bitmap);
    } else {
      NormalTestcasesCovered(start, log[..n], k);
      if e.Testcase? && e.ret == 0 {
        CoveredStaysCovered(p, log[k].bitmap, e.bitmap);
      } else if e.Snapshot? && e.file.Some? {
        CoveredStaysCovered(p, log[k].bitmap, Flip(e.file.value));
      }
    }
  }
}
