/** The state depot of src/fuzz/depot.py, proved against the state machine of Scheduler. */
module Depot {
  import opened Condition
  import opened Scheduler

  /** random.sample(xs, k): k elements at distinct positions, in any order. */
  method Sample<T(==)>(xs: seq<T>, k: nat) returns (ys: seq<T>)
    requires k <= |xs| && NoDuplicates(xs)
    ensures |ys| == k && NoDuplicates(ys) && forall y :: y in ys ==> y in xs
    ensures k == |xs| ==> forall x :: x in xs ==> x in ys
  {
    var rest := xs;
    ys := [];
    while |ys| < k
      invariant |rest| + |ys| == |xs| && |ys| <= k
      invariant NoDuplicates(ys) && NoDuplicates(rest)
      invariant forall x :: x in xs <==> x in rest || x in ys
      invariant forall y :: y in ys ==> y !in rest
    {
      assert |rest| > 0;
      var i: int := *;
      if !(0 <= i < |rest|) { i := 0; }
      var y := rest[i];
      ghost var was := rest;
      ys := ys + [y];
      rest := rest[..i] + rest[i + 1..];
      assert forall x :: x in was <==> x == y || x in rest by {
        assert was == was[..i] + [y] + was[i + 1..];
      }
      assert y !in rest;
    }
  }

  /** The elements of a finite set, in some order: how Python iterates over a set or a dictionary. */
  method Listing<T(==)>(s: set<T>) returns (xs: seq<T>)
    ensures NoDuplicates(xs) && |xs| == |s| && forall x :: x in xs <==> x in s
  {
    var rest := s;
    xs := [];
    while rest != {}
      invariant rest <= s && |xs| + |rest| == |s|
      invariant NoDuplicates(xs)
      invariant forall x :: x in s <==> x in rest || x in xs
      invariant forall x :: x in xs ==> x !in rest
      decreases |rest|
    {
      var x :| x in rest;
      rest := rest - {x};
      xs := xs + [x];
    }
  }

  /** The addresses that the schedule assigns to a seed, in the order of the schedule. */
  function AddrsFor(picks: seq<Pick>, n: Seed): seq<Addr> {
    if picks == [] then []
    else
      var init, last := AddrsFor(picks[..|picks| - 1], n), picks[|picks| - 1];
      if n in last.seeds then init + [last.addr] else init
  }

  /** The dictionary that concolic_candidate returns for a schedule. */
  ghost predicate IsCandidateMap(candidate: map<Seed, seq<Addr>>, picks: seq<Pick>) {
    forall n :: (n in candidate <==> AddrsFor(picks, n) != []) && (n in candidate ==> candidate[n] == AddrsFor(picks, n))
  }

  /** A seed is assigned exactly the addresses it is paired with. */
  lemma {:induction false} AddrsForMeansPairs(picks: seq<Pick>, n: Seed, a: Addr)
    ensures a in AddrsFor(picks, n) <==> (a, n) in Pairs(picks)
  {
    if picks != [] {
      AddrsForMeansPairs(picks[..|picks| - 1], n, a);
      PairsSplit(picks);
    }
  }

  /** candidate[n].append(addr), on a dictionary whose default is the empty list. */
  method FileUnder(candidate: map<Seed, seq<Addr>>, n: Seed, addr: Addr,
                   ghost picks: seq<Pick>, ghost seeds: seq<Seed>, ghost j: nat)
    returns (candidate': map<Seed, seq<Addr>>)
    requires j < |seeds| && n == seeds[j] && NoDuplicates(seeds)
    requires IsCandidateMap(candidate, picks + [Pick(addr, seeds[..j])])
    ensures IsCandidateMap(candidate', picks + [Pick(addr, seeds[..j + 1])])
  {
    candidate' := candidate[n := (if n in candidate then candidate[n] else []) + [addr]];
    ghost var p, q := picks + [Pick(addr, seeds[..j])], picks + [Pick(addr, seeds[..j + 1])];
    assert p[..|p| - 1] == picks && q[..|q| - 1] == picks;
    NotBefore(seeds, j);
    assert forall m :: AddrsFor(q, m) == if m == n then AddrsFor(p, m) + [addr] else AddrsFor(p, m);
  }

  class StateDepot {
    var covState: map<Addr, CondStmt>
    var initPhase: bool
    var tracedSeeds: set<Seed>
    var solvedSeeds: set<Seed>
    var crackedSeed: set<(Addr, Seed)>
    var crackedAddr: map<Addr, nat>

    /** Nodes are filed under their own address, so that distinct addresses have distinct nodes. */
    ghost predicate Valid()
      reads this`covState, covState.Values
    {
      forall a :: a in covState ==> covState[a].addr == a
    }

    function Tree(): (t: Tree)
      reads this`covState, covState.Values
    {
      map a | a in covState :: covState[a].View()
    }

    function Now(): State
      reads this, covState.Values
    {
      State(Tree(), solvedSeeds, crackedSeed, crackedAddr, initPhase)
    }

    constructor ()
      ensures Valid() && Initial(Now()) && tracedSeeds == {}
    {
      covState, initPhase := map[], true;
      tracedSeeds, solvedSeeds, crackedSeed, crackedAddr := {}, {}, {}, map[];
    }

    /** __init_edges */
    method InitEdges() returns (order: seq<Addr>)
      requires initPhase
      ensures IsOrder(Now(), order)
    {
      var addrs := Listing(covState.Keys);
      var candidates := [];
      for i := 0 to |addrs|
        invariant NoDuplicates(candidates)
        invariant forall a :: a in candidates <==> a in addrs[..i] && IsCandidate(Now(), a)
      {
        NotBefore(addrs, i);
        if !covState[addrs[i]].IsBranchCovered() {
          candidates := candidates + [addrs[i]];
        }
      }
      assert addrs[..|addrs|] == addrs;
      order := Sample(candidates, |candidates|);
    }

    /** __edge_predict: the ranking by the learned model may be any. Reading the counter of an address creates it. */
    method EdgePredict() returns (order: seq<Addr>)
      requires !initPhase
      modifies this`crackedAddr
      ensures IsOrder(old(Now()), order)
      ensures forall a :: Budget(Now(), a) == Budget(old(Now()), a)
    {
      var addrs := Listing(covState.Keys);
      var candidates := [];
      for i := 0 to |addrs|
        invariant NoDuplicates(candidates)
        invariant forall a :: a in candidates <==> a in addrs[..i] && IsCandidate(old(Now()), a)
        invariant forall a :: Budget(Now(), a) == Budget(old(Now()), a)
      {
        var addr := addrs[i];
        NotBefore(addrs, i);
        if covState[addr].IsBranchCovered() { continue; }
        if addr !in crackedAddr { crackedAddr := crackedAddr[addr := 0]; }
        if crackedAddr[addr] >= CRACK_UPPER_LIMIT { continue; }
        candidates := candidates + [addr];
      }
      assert addrs[..|addrs|] == addrs;
      order := Sample(candidates, |candidates|);
    }

    /** __seed_selection */
    method SeedSelection(addr: Addr, seedMax: nat) returns (seeds: seq<Seed>)
      requires addr in covState
      ensures SelectionOk(Now(), addr, seeds, seedMax)
    {
      var belongs := Listing(covState[addr].belongs);
      var solved, unsolved: seq<Seed> := [], [];
      for i := 0 to |belongs|
        invariant NoDuplicates(solved) && NoDuplicates(unsolved)
        invariant forall n :: n in solved <==> n in belongs[..i] && n in Available(Now(), addr) && n in solvedSeeds
        invariant forall n :: n in unsolved <==> n in belongs[..i] && n in Available(Now(), addr) && n !in solvedSeeds
      {
        NotBefore(belongs, i);
        if (addr, belongs[i]) in crackedSeed { continue; }
        if belongs[i] in solvedSeeds {
          solved := solved + [belongs[i]];
        } else {
          unsolved := unsolved + [belongs[i]];
        }
      }
      assert belongs[..|belongs|] == belongs;
      ConcatNoDuplicates(unsolved, solved);
      SizeOfListing(unsolved + solved, Available(Now(), addr));
      if |unsolved| >= seedMax {
        seeds := Sample(unsolved, seedMax);
      } else {
        var more := Sample(solved, Min(seedMax - |unsolved|, |solved|));
        ConcatNoDuplicates(unsolved, more);
        seeds := unsolved + more;
      }
    }

    /** The body of the loop over a selection: file the address under each seed, and count the pair. */
    method Commit(addr: Addr, seeds: seq<Seed>, candidate: map<Seed, seq<Addr>>, ghost picks: seq<Pick>)
      returns (candidate': map<Seed, seq<Addr>>)
      requires NoDuplicates(seeds) && IsCandidateMap(candidate, picks)
      modifies this`crackedSeed, this`crackedAddr
      ensures IsCandidateMap(candidate', picks + [Pick(addr, seeds)])
      ensures crackedSeed == old(crackedSeed) + Tagged(addr, seeds)
      ensures forall a :: Count(crackedAddr, a) == Count(old(crackedAddr), a) + if a == addr then |seeds| else 0
    {
      candidate' := candidate;
      EmptyPick(picks, addr, seeds);
      for j := 0 to |seeds|
        invariant IsCandidateMap(candidate', picks + [Pick(addr, seeds[..j])])
        invariant crackedSeed == old(crackedSeed) + Tagged(addr, seeds[..j])
        invariant forall a :: Count(crackedAddr, a) == Count(old(crackedAddr), a) + if a == addr then j else 0
      {
        var n := seeds[j];
        candidate' := FileUnder(candidate', n, addr, picks, seeds, j);
        crackedSeed := crackedSeed + {(addr, n)};
        crackedAddr := crackedAddr[addr := (if addr in crackedAddr then crackedAddr[addr] else 0) + 1];
        assert Tagged(addr, seeds[..j + 1]) == Tagged(addr, seeds[..j]) + {(addr, n)};
      }
      assert seeds[..|seeds|] == seeds;
    }

    /** The body of the loop over the addresses. */
    method ScheduleAddress(addr: Addr, seedMax: nat, candidate: map<Seed, seq<Addr>>, ghost s: State,
                           ghost picks: seq<Pick>)
      returns (candidate': map<Seed, seq<Addr>>, ghost pick: Pick)
      requires addr in covState && Scheduled(s, picks, Now()) && IsCandidateMap(candidate, picks)
      requires forall k :: 0 <= k < |picks| ==> picks[k].addr != addr
      modifies this`crackedSeed, this`crackedAddr
      ensures pick.addr == addr && SelectionOk(s, addr, pick.seeds, seedMax)
      ensures Scheduled(s, picks + [pick], Now()) && IsCandidateMap(candidate', picks + [pick])
    {
      var seeds := SeedSelection(addr, seedMax);
      SelectionUndisturbed(s, Now(), picks, addr, seeds, seedMax);
      candidate' := Commit(addr, seeds, candidate, picks);
      pick := Pick(addr, seeds);
      PairsSplit(picks + [pick]);
      assert (picks + [pick])[..|picks|] == picks;
    }

    /** concolic_candidate: schedules the selections of the first edgeMax addresses of the order. */
    method ConcolicCandidate(edgeMax: nat, seedMax: nat)
      returns (candidate: map<Seed, seq<Addr>>, ghost order: seq<Addr>, ghost picks: seq<Pick>)
      modifies this`crackedSeed, this`crackedAddr
      ensures PicksOk(old(Now()), order, picks, edgeMax, seedMax)
      ensures Scheduled(old(Now()), picks, Now())
      ensures IsCandidateMap(candidate, picks)
    {
      ghost var s := Now();
      var addrs;
      if initPhase { addrs := InitEdges(); } else { addrs := EdgePredict(); }
      order := addrs;
      assert forall k :: 0 <= k < |order| ==> order[k] in s.tree by {
        forall k | 0 <= k < |order| ensures order[k] in s.tree { assert IsCandidate(s, order[k]); }
      }
      candidate, picks := ScheduleAll(addrs, edgeMax, seedMax, s);
    }

    /** The loop over the addresses. */
    method ScheduleAll(addrs: seq<Addr>, edgeMax: nat, seedMax: nat, ghost s: State)
      returns (candidate: map<Seed, seq<Addr>>, ghost picks: seq<Pick>)
      requires NoDuplicates(addrs) && forall k :: 0 <= k < |addrs| ==> addrs[k] in s.tree
      requires Scheduled(s, [], Now())
      modifies this`crackedSeed, this`crackedAddr
      ensures |picks| == Min(AtLeastOne(edgeMax), |addrs|) && Follows(s, addrs, picks, seedMax)
      ensures Scheduled(s, picks, Now()) && IsCandidateMap(candidate, picks)
    {
      candidate, picks := map[], [];
      var edgeCnt := 0;
      for i := 0 to |addrs|
        invariant edgeCnt == |picks| == i && (i > 0 ==> i < edgeMax)
        invariant Follows(s, addrs, picks, seedMax)
        invariant Scheduled(s, picks, Now())
        invariant IsCandidateMap(candidate, picks)
      {
        ghost var pick;
        candidate, pick := ScheduleAddress(addrs[i], seedMax, candidate, s, picks);
        OneMorePick(s, addrs, picks, pick, seedMax);
        picks := picks + [pick];
        edgeCnt := edgeCnt + 1;
        if edgeCnt >= edgeMax { return; }
      }
    }

    /** The part of update_model that scheduling depends on: labels end the init phase. None of the labels may
        name an address without a node; the dictionary lookup would raise. */
    method UpdateModel(labels: map<Addr, nat>) returns (ok: bool)
      modifies this`initPhase
      ensures Now() == old(Now()).(initPhase := old(initPhase) && |labels| == 0)
      ensures ok <==> labels.Keys <= covState.Keys
    {
      if |labels| == 0 { return true; }
      if initPhase { initPhase := false; }
      var addrs := Listing(labels.Keys);
      ok := true;
      for i := 0 to |addrs|
        invariant ok <==> forall a :: a in addrs[..i] ==> a in covState
      {
        if addrs[i] !in covState { ok := false; }
      }
      assert addrs[..|addrs|] == addrs;
    }
  }

  lemma OneMorePick(s: State, order: seq<Addr>, picks: seq<Pick>, pick: Pick, seedMax: nat)
    requires Follows(s, order, picks, seedMax) && |picks| < |order| && pick.addr == order[|picks|] && pick.addr in s.tree
    requires SelectionOk(s, pick.addr, pick.seeds, seedMax)
    ensures Follows(s, order, picks + [pick], seedMax)
  {
  }

  lemma EmptyPick(picks: seq<Pick>, addr: Addr, seeds: seq<Seed>)
    ensures forall n :: AddrsFor(picks + [Pick(addr, seeds[..0])], n) == AddrsFor(picks, n)
    ensures Tagged(addr, seeds[..0]) == {}
  {
    assert (picks + [Pick(addr, seeds[..0])])[..|picks|] == picks;
  }

  /** Scheduling other addresses leaves the selection for an address as good as it was. */
  lemma SelectionUndisturbed(s: State, now: State, picks: seq<Pick>, addr: Addr, seeds: seq<Seed>, seedMax: nat)
    requires addr in s.tree && Scheduled(s, picks, now)
    requires forall k :: 0 <= k < |picks| ==> picks[k].addr != addr
    ensures SelectionOk(now, addr, seeds, seedMax) <==> SelectionOk(s, addr, seeds, seedMax)
  {
    forall n ensures (addr, n) !in Pairs(picks) { }
    assert Available(now, addr) == Available(s, addr);
  }
}
