/** The tables of the leak tracker as a whole: where they lie in memory, who owns the rest of it, and what the
    entries say about the live allocations. */
module LeakTables {
  import opened Bytes
  import opened Blocks
  import opened Allocator
  import opened SlotTable
  import opened Records

  /** A bucket has no table, or its table is the data of a block. */
  ghost predicate TableOk(mem: Memory, root: nat, count: nat, s: seq<Entry>) {
    && count == |s| && (forall i :: 0 <= i < |s| ==> IsEntry(s[i]))
    && if s == [] then root == 0 else Holds(mem, root, EncodeAll(s))
  }

  ghost predicate Tables(mem: Memory, roots: seq<nat>, counts: seq<nat>, slots: seq<seq<Entry>>) {
    && |roots| == |counts| == |slots| == BUCKETS
    && (forall b :: TableAt(mem, roots, counts, slots, b))
    && Distinct(roots)
  }

  ghost predicate TableAt(mem: Memory, roots: seq<nat>, counts: seq<nat>, slots: seq<seq<Entry>>, b: int) {
    0 <= b < |roots| == |counts| == |slots| ==> TableOk(mem, roots[b], counts[b], slots[b])
  }

  predicate Differ(roots: seq<nat>, b: int, c: int) {
    0 <= b < |roots| && 0 <= c < |roots| && b != c && roots[b] != 0 ==> roots[b] != roots[c]
  }

  ghost predicate Distinct(roots: seq<nat>) {
    forall b, c :: Differ(roots, b, c)
  }

  lemma DistinctReplaced(roots: seq<nat>, b: nat, root: nat)
    requires Distinct(roots) && b < |roots| && forall c :: 0 <= c < |roots| && c != b ==> roots[c] != root
    ensures Distinct(roots[b := root])
  {
    var roots' := roots[b := root];
    forall c, d ensures Differ(roots', c, d) { assert Differ(roots, c, d); }
  }

  ghost predicate HoldsSome(mem: Memory, ptr: nat) {
    exists data :: Holds(mem, ptr, data)
  }

  ghost predicate Owned(mem: Memory, roots: seq<nat>, p: nat) {
    HoldsSome(mem, p) && p !in roots
  }

  predicate HasOwner(roots: seq<nat>, owned: set<nat>, p: nat) {
    p in owned || p in roots
  }

  /** The chunks are the blocks of the client, all in good order, and the tables. */
  ghost predicate Owners(mem: Memory, roots: seq<nat>, owned: set<nat>) {
    && (forall p :: p in owned ==> Owned(mem, roots, p))
    && (forall q :: q in mem ==> HasOwner(roots, owned, q + OFF_HEAD))
  }

  /** The chunks of these pointers are the same in both memories. */
  ghost predicate Same(mem: Memory, mem': Memory, ptrs: set<nat>) {
    forall p :: p in ptrs ==> SameAt(mem, mem', p)
  }

  predicate SameAt(mem: Memory, mem': Memory, p: nat) {
    IsPointer(mem, p) ==> IsPointer(mem', p) && mem'[Base(p)] == mem[Base(p)]
  }

  lemma {:induction false} SameThrough(m1: Memory, m2: Memory, m3: Memory, ptrs: set<nat>, more: set<nat>)
    requires Same(m1, m2, ptrs) && Same(m2, m3, more) && ptrs <= more
    ensures Same(m1, m3, ptrs)
  {
    forall p | p in ptrs ensures SameAt(m1, m3, p) { assert SameAt(m1, m2, p) && SameAt(m2, m3, p); }
  }

  lemma {:induction false} SameWithin(m1: Memory, m2: Memory, ptrs: set<nat>, part: set<nat>)
    requires Same(m1, m2, ptrs) && part <= ptrs
    ensures Same(m1, m2, part)
  {
    forall p | p in part ensures SameAt(m1, m2, p) { assert p in ptrs; }
  }

  lemma {:induction false} StillHolds(m1: Memory, m2: Memory, ptrs: set<nat>, ptr: nat, data: seq<byte>)
    requires Same(m1, m2, ptrs) && ptr in ptrs && Holds(m1, ptr, data)
    ensures Holds(m2, ptr, data)
  {
    assert SameAt(m1, m2, ptr);
  }

  /** The entries are records of live blocks that hash to the bucket ... */
  ghost predicate Known(s: seq<Entry>, user: map<nat, Entry>, b: nat) {
    forall i :: 0 <= i < |s| && s[i].ptr != 0 ==> s[i].ptr in user && user[s[i].ptr] == s[i] && Hash(s[i].ptr) == b
  }

  /** ... of all of them ... */
  ghost predicate Complete(s: seq<Entry>, user: map<nat, Entry>, b: nat) {
    forall p :: p in user && Hash(p) == b ==> Find(s, p) < |s|
  }

  /** ... and there are no two of the same. */
  ghost predicate Once(s: seq<Entry>) {
    forall i, j :: 0 <= i < j < |s| && s[i].ptr != 0 ==> s[i].ptr != s[j].ptr
  }

  ghost predicate IndexAt(s: seq<Entry>, user: map<nat, Entry>, b: nat) {
    Known(s, user, b) && Complete(s, user, b) && Once(s)
  }

  ghost predicate Indexed(slots: seq<seq<Entry>>, user: map<nat, Entry>) {
    && |slots| == BUCKETS && 0 !in user
    && forall b :: BucketIndexed(slots, user, b)
  }

  ghost predicate BucketIndexed(slots: seq<seq<Entry>>, user: map<nat, Entry>, b: int) {
    0 <= b < |slots| ==> IndexAt(slots[b], user, b)
  }

  /** The tables are the result of the operations so far. */
  ghost predicate Logged(slots: seq<seq<Entry>>, ops: seq<Op>) {
    && |slots| == BUCKETS && (forall b :: BucketLogged(slots, ops, b))
    && (forall i :: 0 <= i < |ops| ==> PtrOf(ops[i]) != 0)
  }

  ghost predicate BucketLogged(slots: seq<seq<Entry>>, ops: seq<Op>, b: int) {
    0 <= b < |slots| ==> slots[b] == SlotsAfter(InBucket(ops, b))
  }

  /** A client's block comes or goes or changes: the tables stay. */
  lemma TablesStay(mem: Memory, mem': Memory, roots: seq<nat>, counts: seq<nat>, slots: seq<seq<Entry>>)
    requires Tables(mem, roots, counts, slots)
    requires forall r :: r in roots && IsPointer(mem, r) ==> IsPointer(mem', r) && mem'[Base(r)] == mem[Base(r)]
    ensures Tables(mem', roots, counts, slots)
  {
    forall b ensures TableAt(mem', roots, counts, slots, b) {
      assert TableAt(mem, roots, counts, slots, b);
      if 0 <= b < BUCKETS { assert roots[b] in roots; }
    }
  }

  lemma OtherTableStays(
      mem: Memory, mem': Memory, before: nat, root: nat, data: seq<byte>, other: nat, count: nat, s: seq<Entry>)
    requires Replaces(mem, before, mem', root, data) && TableOk(mem, other, count, s)
    requires other != 0 ==> other != before
    ensures TableOk(mem', other, count, s) && other != root
  {
  }

  /** The table of one bucket is replaced: all the tables are in order. */
  lemma {:induction false} TableReplaced(
      mem: Memory, mem': Memory, roots: seq<nat>, counts: seq<nat>, slots: seq<seq<Entry>>, b: nat,
      root: nat, s: seq<Entry>)
    requires Tables(mem, roots, counts, slots) && b < BUCKETS
    requires Replaces(mem, roots[b], mem', root, EncodeAll(s)) && TableOk(mem', root, |s|, s)
    ensures Tables(mem', roots[b := root], counts[b := |s|], slots[b := s])
  {
    var roots', counts', slots' := roots[b := root], counts[b := |s|], slots[b := s];
    forall c
      ensures TableAt(mem', roots', counts', slots', c)
      ensures 0 <= c < BUCKETS && c != b ==> roots[c] != root
    {
      assert Differ(roots, b, c) && TableAt(mem, roots, counts, slots, c);
      if 0 <= c < BUCKETS && c != b {
        OtherTableStays(mem, mem', roots[b], root, EncodeAll(s), roots[c], counts[c], slots[c]);
      }
    }
    DistinctReplaced(roots, b, root);
  }

  lemma {:induction false} BlockStays(
      mem: Memory, mem': Memory, roots: seq<nat>, b: nat, root: nat, data: seq<byte>, p: nat)
    requires b < |roots| && Replaces(mem, roots[b], mem', root, data) && Owned(mem, roots, p)
    ensures Owned(mem', roots[b := root], p) && SameAt(mem, mem', p)
  {
    var held :| Holds(mem, p, held);
    assert roots[b] in roots;
    assert Holds(mem', p, held);
  }

  lemma {:induction false} RootHasOwner(roots: seq<nat>, owned: set<nat>, b: nat, root: nat, p: nat)
    requires b < |roots| && HasOwner(roots, owned, p) && (p != roots[b] || p == root)
    ensures HasOwner(roots[b := root], owned, p)
  {
    if p !in owned {
      var c :| 0 <= c < |roots| && roots[c] == p;
      assert roots[b := root][c] == p;
    }
  }

  lemma {:induction false} BlocksStay(
      mem: Memory, mem': Memory, roots: seq<nat>, owned: set<nat>, b: nat, root: nat, data: seq<byte>)
    requires Owners(mem, roots, owned) && b < |roots| && Replaces(mem, roots[b], mem', root, data)
    ensures forall p :: p in owned ==> OwnedAndSame(mem, mem', roots[b := root], p)
  {
    forall p | p in owned ensures OwnedAndSame(mem, mem', roots[b := root], p) {
      assert Owned(mem, roots, p);
      BlockStays(mem, mem', roots, b, root, data, p);
    }
  }

  lemma {:induction false} ChunksHaveOwners(
      mem: Memory, mem': Memory, roots: seq<nat>, owned: set<nat>, b: nat, root: nat, data: seq<byte>)
    requires b < |roots| && Replaces(mem, roots[b], mem', root, data)
    requires forall q :: q in mem ==> HasOwner(roots, owned, q + OFF_HEAD)
    ensures forall q :: q in mem' ==> HasOwner(roots[b := root], owned, q + OFF_HEAD)
  {
    forall q | q in mem' ensures HasOwner(roots[b := root], owned, q + OFF_HEAD) {
      ChunkHasOwner(mem, mem', roots, owned, b, root, data, q);
    }
  }

  lemma {:induction false} OwnersStay(
      mem: Memory, mem': Memory, roots: seq<nat>, owned: set<nat>, b: nat, root: nat, data: seq<byte>)
    requires Owners(mem, roots, owned) && b < |roots| && Replaces(mem, roots[b], mem', root, data)
    ensures Owners(mem', roots[b := root], owned) && Same(mem, mem', owned)
  {
    BlocksStay(mem, mem', roots, owned, b, root, data);
    ChunksHaveOwners(mem, mem', roots, owned, b, root, data);
    OwnersFrom(mem, mem', roots[b := root], owned);
  }

  ghost predicate OwnedAndSame(mem: Memory, mem': Memory, roots: seq<nat>, p: nat) {
    Owned(mem', roots, p) && SameAt(mem, mem', p)
  }

  lemma {:induction false} OwnersFrom(mem: Memory, mem': Memory, roots: seq<nat>, owned: set<nat>)
    requires forall p :: p in owned ==> OwnedAndSame(mem, mem', roots, p)
    requires forall q :: q in mem' ==> HasOwner(roots, owned, q + OFF_HEAD)
    ensures Owners(mem', roots, owned) && Same(mem, mem', owned)
  {
    forall p | p in owned ensures Owned(mem', roots, p) && SameAt(mem, mem', p) {
      assert OwnedAndSame(mem, mem', roots, p);
    }
  }

  lemma {:induction false} ChunkHasOwner(
      mem: Memory, mem': Memory, roots: seq<nat>, owned: set<nat>, b: nat, root: nat, data: seq<byte>, q: nat)
    requires b < |roots| && Replaces(mem, roots[b], mem', root, data) && q in mem'
    requires q in mem ==> HasOwner(roots, owned, q + OFF_HEAD)
    ensures HasOwner(roots[b := root], owned, q + OFF_HEAD)
  {
    if q == Base(root) {
      assert roots[b := root][b] == root;
    } else {
      RootHasOwner(roots, owned, b, root, q + OFF_HEAD);
    }
  }

  /** The same, of a table that stays where it is. */
  lemma {:induction false} OwnersStayAt(
      mem: Memory, mem': Memory, roots: seq<nat>, owned: set<nat>, b: nat, data: seq<byte>)
    requires Owners(mem, roots, owned) && b < |roots| && Replaces(mem, roots[b], mem', roots[b], data)
    ensures Owners(mem', roots, owned) && Same(mem, mem', owned)
  {
    OwnersStay(mem, mem', roots, owned, b, roots[b], data);
    assert roots[b := roots[b]] == roots;
  }

  lemma {:induction false} Tracked(slots: seq<seq<Entry>>, user: map<nat, Entry>, p: nat)
    requires Indexed(slots, user) && p in user
    ensures p != 0 && Find(slots[Hash(p)], p) < |slots[Hash(p)]|
  {
    assert BucketIndexed(slots, user, Hash(p));
  }

  lemma {:induction false} NotTracked(slots: seq<seq<Entry>>, user: map<nat, Entry>, p: nat)
    requires Indexed(slots, user) && p !in user && p != 0
    ensures Find(slots[Hash(p)], p) == |slots[Hash(p)]| && slots[Hash(p) := Remove(slots[Hash(p)], p)] == slots
  {
    assert BucketIndexed(slots, user, Hash(p));
  }

  lemma FindIs(s: seq<Entry>, ptr: nat, k: nat)
    requires k <= |s| && (k < |s| ==> s[k].ptr == ptr) && forall i :: 0 <= i < k ==> s[i].ptr != ptr
    ensures Find(s, ptr) == k
  {
  }

  lemma FoundIff(s: seq<Entry>, ptr: nat)
    ensures Find(s, ptr) < |s| <==> exists i :: 0 <= i < |s| && s[i].ptr == ptr
  {
  }

  lemma {:induction false} InsertKnown(s: seq<Entry>, user: map<nat, Entry>, b: nat, e: Entry)
    requires Known(s, user, b) && Once(s) && e.ptr != 0 && e.ptr !in user && Hash(e.ptr) == b
    ensures Known(Insert(s, e), user[e.ptr := e], b) && Once(Insert(s, e))
  {
  }

  lemma InsertComplete(s: seq<Entry>, user: map<nat, Entry>, b: nat, e: Entry)
    requires Complete(s, user, b) && e.ptr != 0 && 0 !in user
    ensures Complete(Insert(s, e), user[e.ptr := e], b)
  {
    var t, user', k := Insert(s, e), user[e.ptr := e], Find(s, 0);
    forall p | p in user' && Hash(p) == b ensures Find(t, p) < |t| {
      assert t[if p == e.ptr then k else Find(s, p)].ptr == p;
      FoundIff(t, p);
    }
  }

  lemma RemoveComplete(s: seq<Entry>, user: map<nat, Entry>, b: nat, ptr: nat)
    requires Complete(s, user, b)
    ensures Complete(Remove(s, ptr), user - {ptr}, b)
  {
    var t, user' := Remove(s, ptr), user - {ptr};
    forall p | p in user' && Hash(p) == b ensures Find(t, p) < |t| {
      assert t[Find(s, p)].ptr == p;
      FoundIff(t, p);
    }
  }

  lemma {:induction false} RemoveKnown(s: seq<Entry>, user: map<nat, Entry>, b: nat, ptr: nat)
    requires Known(s, user, b) && Once(s) && ptr != 0
    ensures Known(Remove(s, ptr), user - {ptr}, b) && Once(Remove(s, ptr))
  {
    var t, k := Remove(s, ptr), Find(s, ptr);
    forall i | 0 <= i < |t| && t[i].ptr != 0 ensures t[i] == s[i] && t[i].ptr != ptr {
      if k < i { assert s[k].ptr != s[i].ptr; }
    }
  }

  lemma IndexElsewhere(s: seq<Entry>, user: map<nat, Entry>, b: nat, e: Entry)
    requires IndexAt(s, user, b) && e.ptr !in user && Hash(e.ptr) != b
    ensures IndexAt(s, user[e.ptr := e], b)
  {
  }

  lemma IndexWithout(s: seq<Entry>, user: map<nat, Entry>, b: nat, ptr: nat)
    requires IndexAt(s, user, b) && Hash(ptr) != b
    ensures IndexAt(s, user - {ptr}, b)
  {
  }

  lemma IndexAfterAdd(slots: seq<seq<Entry>>, user: map<nat, Entry>, e: Entry)
    requires Indexed(slots, user) && e.ptr != 0 && e.ptr !in user
    ensures var b := Hash(e.ptr); Indexed(slots[b := Insert(slots[b], e)], user[e.ptr := e])
  {
    var b := Hash(e.ptr);
    var slots', user' := slots[b := Insert(slots[b], e)], user[e.ptr := e];
    forall c ensures BucketIndexed(slots', user', c) {
      assert BucketIndexed(slots, user, c);
      if 0 <= c < BUCKETS && c == b {
        InsertKnown(slots[c], user, c, e);
        InsertComplete(slots[c], user, c, e);
      } else if 0 <= c < BUCKETS {
        IndexElsewhere(slots[c], user, c, e);
      }
    }
  }

  lemma IndexAfterDrop(slots: seq<seq<Entry>>, user: map<nat, Entry>, ptr: nat)
    requires Indexed(slots, user) && ptr != 0
    ensures var b := Hash(ptr); Indexed(slots[b := Remove(slots[b], ptr)], user - {ptr})
  {
    var b := Hash(ptr);
    var slots', user' := slots[b := Remove(slots[b], ptr)], user - {ptr};
    forall c ensures BucketIndexed(slots', user', c) {
      assert BucketIndexed(slots, user, c);
      if 0 <= c < BUCKETS && c == b {
        RemoveKnown(slots[c], user, c, ptr);
        RemoveComplete(slots[c], user, c, ptr);
      } else if 0 <= c < BUCKETS {
        IndexWithout(slots[c], user, c, ptr);
      }
    }
  }

  lemma LoggedOneMore(slots: seq<seq<Entry>>, ops: seq<Op>, op: Op)
    requires Logged(slots, ops) && PtrOf(op) != 0
    ensures var b := Hash(PtrOf(op));
      Logged(slots[b := if op.Add? then Insert(slots[b], op.entry) else Remove(slots[b], op.ptr)], ops + [op])
  {
    var b := Hash(PtrOf(op));
    var slots' := slots[b := if op.Add? then Insert(slots[b], op.entry) else Remove(slots[b], op.ptr)];
    assert (ops + [op])[..|ops|] == ops;
    var part := InBucket(ops, b);
    assert (part + [op])[..|part|] == part;
    forall c ensures BucketLogged(slots', ops + [op], c) { assert BucketLogged(slots, ops, c); }
  }

  // ----- the client's blocks

  /** The data of a block. */
  function Data(mem: Memory, ptr: nat): seq<byte> {
    if Usable(mem, ptr) && Checked(mem, ptr) == Intact then Held(mem, ptr) else []
  }

  lemma {:induction false} DataHeld(mem: Memory, ptr: nat, data: seq<byte>)
    requires Holds(mem, ptr, data)
    ensures Usable(mem, ptr) && Checked(mem, ptr) == Intact && Data(mem, ptr) == data
  {
    BlockFields(data);
  }

  /** What CHECK_PTR finds of a client's block. */
  lemma {:induction false} OwnedIsIntact(mem: Memory, ptr: nat)
    requires HoldsSome(mem, ptr)
    ensures Usable(mem, ptr) && Checked(mem, ptr) == Intact && Holds(mem, ptr, Data(mem, ptr))
  {
    var data :| Holds(mem, ptr, data);
    DataHeld(mem, ptr, data);
  }

  lemma {:induction false} RootsHold(
      mem: Memory, roots: seq<nat>, counts: seq<nat>, slots: seq<seq<Entry>>, r: nat)
    requires Tables(mem, roots, counts, slots) && r in roots
    ensures r == 0 || IsPointer(mem, r)
  {
    var b :| 0 <= b < |roots| && roots[b] == r;
    assert TableAt(mem, roots, counts, slots, b);
  }

  /** A client's block comes in exchange for another one or for none, or just goes (ptr is 0). */
  ghost predicate ClientStep(mem: Memory, mem': Memory, orig: nat, ptr: nat, data: seq<byte>) {
    if ptr == 0 then mem' == Without(mem, orig)
    else Replaces(mem, orig, mem', ptr, data) && |data| <= MAX_ALLOC && Base(ptr) !in mem
  }

  lemma {:induction false} OwnedStays(
      mem: Memory, mem': Memory, roots: seq<nat>, orig: nat, ptr: nat, data: seq<byte>, p: nat)
    requires ClientStep(mem, mem', orig, ptr, data) && Owned(mem, roots, p) && p != orig
    ensures Owned(mem', roots, p) && mem'[Base(p)] == mem[Base(p)]
  {
    var held :| Holds(mem, p, held);
    assert Holds(mem', p, held);
  }

  lemma {:induction false} ClientKeepsTables(
      mem: Memory, mem': Memory, roots: seq<nat>, counts: seq<nat>, slots: seq<seq<Entry>>,
      orig: nat, ptr: nat, data: seq<byte>)
    requires Tables(mem, roots, counts, slots) && (orig == 0 || orig !in roots) && ClientStep(mem, mem', orig, ptr, data)
    ensures Tables(mem', roots, counts, slots)
  {
    TablesStay(mem, mem', roots, counts, slots);
  }

  lemma {:induction false} ClientBlockIsNew(
      mem: Memory, mem': Memory, roots: seq<nat>, counts: seq<nat>, slots: seq<seq<Entry>>, owned: set<nat>,
      orig: nat, ptr: nat, data: seq<byte>)
    requires Tables(mem, roots, counts, slots) && Owners(mem, roots, owned)
    requires ClientStep(mem, mem', orig, ptr, data) && ptr != 0
    ensures ptr !in owned && Owned(mem', roots, ptr) && Holds(mem', ptr, data)
  {
    assert Holds(mem', ptr, data);
    forall p | p in owned ensures IsPointer(mem, p) { assert Owned(mem, roots, p); }
    forall r | r in roots ensures r == 0 || IsPointer(mem, r) { RootsHold(mem, roots, counts, slots, r); }
  }

  function OwnedAfter(owned: set<nat>, orig: nat, ptr: nat): set<nat> {
    if ptr == 0 then owned - {orig} else owned - {orig} + {ptr}
  }

  lemma {:induction false} ClientChunkHasOwner(
      mem: Memory, mem': Memory, roots: seq<nat>, owned: set<nat>, orig: nat, ptr: nat, data: seq<byte>, q: nat)
    requires ClientStep(mem, mem', orig, ptr, data) && q in mem'
    requires q in mem ==> HasOwner(roots, owned, q + OFF_HEAD)
    ensures HasOwner(roots, OwnedAfter(owned, orig, ptr), q + OFF_HEAD)
  {
  }

  lemma {:induction false} ClientOwners(
      mem: Memory, mem': Memory, roots: seq<nat>, owned: set<nat>, orig: nat, ptr: nat, data: seq<byte>)
    requires Owners(mem, roots, owned) && ClientStep(mem, mem', orig, ptr, data)
    requires ptr != 0 ==> Owned(mem', roots, ptr)
    ensures Owners(mem', roots, OwnedAfter(owned, orig, ptr))
  {
    forall p | p in owned - {orig} ensures Owned(mem', roots, p) {
      assert Owned(mem, roots, p);
      OwnedStays(mem, mem', roots, orig, ptr, data, p);
    }
    forall q | q in mem' ensures HasOwner(roots, OwnedAfter(owned, orig, ptr), q + OFF_HEAD) {
      ClientChunkHasOwner(mem, mem', roots, owned, orig, ptr, data, q);
    }
  }

  lemma {:induction false} ClientLeavesSame(
      mem: Memory, mem': Memory, owned: set<nat>, orig: nat, ptr: nat, data: seq<byte>)
    requires ClientStep(mem, mem', orig, ptr, data)
    ensures Same(mem, mem', owned - {orig})
  {
  }

  /** Whatever the client gets or gives back, the tables stay, and so do its other blocks. */
  lemma {:induction false} ClientSteps(
      mem: Memory, mem': Memory, roots: seq<nat>, counts: seq<nat>, slots: seq<seq<Entry>>, owned: set<nat>,
      orig: nat, ptr: nat, data: seq<byte>)
    requires Tables(mem, roots, counts, slots) && Owners(mem, roots, owned) && (orig == 0 || orig in owned)
    requires ClientStep(mem, mem', orig, ptr, data)
    ensures Tables(mem', roots, counts, slots) && Same(mem, mem', owned - {orig})
    ensures Owners(mem', roots, OwnedAfter(owned, orig, ptr))
    ensures ptr != 0 ==> ptr !in owned && Holds(mem', ptr, data)
  {
    assert orig != 0 ==> Owned(mem, roots, orig);
    ClientKeepsTables(mem, mem', roots, counts, slots, orig, ptr, data);
    if ptr != 0 { ClientBlockIsNew(mem, mem', roots, counts, slots, owned, orig, ptr, data); }
    ClientOwners(mem, mem', roots, owned, orig, ptr, data);
    ClientLeavesSame(mem, mem', owned, orig, ptr, data);
  }

  lemma {:induction false} OwnedWritten(mem: Memory, mem': Memory, roots: seq<nat>, ptr: nat, data: seq<byte>, p: nat)
    requires Owned(mem, roots, p) && Owned(mem, roots, ptr) && |data| <= MAX_ALLOC
    requires mem' == mem[Base(ptr) := Block(data)]
    ensures Owned(mem', roots, p) && Holds(mem', ptr, data) && (p != ptr ==> SameAt(mem, mem', p))
  {
    var held :| Holds(mem, p, held);
    assert Holds(mem', ptr, data);
    if p != ptr { assert Holds(mem', p, held); }
  }

  /** The client writes to its own block: nothing else changes. */
  lemma {:induction false} ClientWrites(
      mem: Memory, mem': Memory, roots: seq<nat>, counts: seq<nat>, slots: seq<seq<Entry>>, owned: set<nat>,
      ptr: nat, data: seq<byte>)
    requires Tables(mem, roots, counts, slots) && Owners(mem, roots, owned) && ptr in owned && IsPointer(mem, ptr)
    requires mem' == mem[Base(ptr) := Block(data)] && |data| <= MAX_ALLOC
    ensures Tables(mem', roots, counts, slots) && Owners(mem', roots, owned)
    ensures Holds(mem', ptr, data) && Same(mem, mem', owned - {ptr})
  {
    assert Owned(mem, roots, ptr);
    TablesStay(mem, mem', roots, counts, slots);
    forall p | p in owned ensures Owned(mem', roots, p) && (p != ptr ==> SameAt(mem, mem', p)) {
      OwnedWritten(mem, mem', roots, ptr, data, p);
    }
    OwnedWritten(mem, mem', roots, ptr, data, ptr);
    forall q | q in mem' ensures HasOwner(roots, owned, q + OFF_HEAD) { assert q in mem; }
  }

  lemma NothingReturned(mem: Memory, user: map<nat, Entry>)
    requires 0 !in user
    ensures Returned(mem, user, 0, mem, user)
  {
    assert user == user - {0};
  }

  lemma PointerIsAddress(mem: Memory, ptr: nat)
    requires Apart(mem) && IsPointer(mem, ptr) && |mem[Base(ptr)]| >= OFF_TOTAL
    ensures IsAddress(ptr)
  {
  }

  /** The calls that are tracked when a block comes in exchange for another one; a null pointer is no block. */
  function Calls(orig: nat, e: Entry): seq<Op> {
    (if orig == 0 then [] else [Drop(orig)]) + (if e.ptr == 0 then [] else [Add(e)])
  }

  /** The client has a new block with the data instead of the old one, if there was one; its others are as they
      were. */
  ghost predicate Exchanged(
    mem: Memory, user: map<nat, Entry>, orig: nat, e: Entry, data: seq<byte>, mem': Memory, user': map<nat, Entry>)
  {
    && e.ptr !in user && user' == (user - {orig})[e.ptr := e]
    && Holds(mem', e.ptr, data) && Same(mem, mem', user.Keys - {orig})
  }

  /** The client has its other blocks only, as they were. */
  ghost predicate Returned(mem: Memory, user: map<nat, Entry>, orig: nat, mem': Memory, user': map<nat, Entry>) {
    user' == user - {orig} && Same(mem, mem', user.Keys - {orig})
  }

  // ----- the report

  /** The entries that are not empty. */
  function NonEmpty(s: seq<Entry>): seq<Entry> {
    if s == [] then []
    else
      var init, last := NonEmpty(s[..|s| - 1]), s[|s| - 1];
      if last.ptr == 0 then init else init + [last]
  }

  /** ... of the first n buckets. */
  function AllNonEmpty(slots: seq<seq<Entry>>, n: nat): seq<Entry>
    requires n <= |slots|
  {
    if n == 0 then [] else AllNonEmpty(slots, n - 1) + NonEmpty(slots[n - 1])
  }

  ghost predicate NoneTwice(s: seq<Entry>) {
    forall i, j :: 0 <= i < j < |s| ==> s[i].ptr != s[j].ptr
  }

  /** The entry made for a live block of the first n buckets. */
  predicate IsLeak(user: map<nat, Entry>, n: nat, e: Entry) {
    e.ptr in user && user[e.ptr] == e && Hash(e.ptr) < n
  }

  lemma {:induction false} NonEmptyEntries(s: seq<Entry>, user: map<nat, Entry>, b: nat)
    requires Known(s, user, b) && Once(s)
    ensures forall e: Entry :: e in NonEmpty(s) <==> e in s && e.ptr != 0
    ensures NoneTwice(NonEmpty(s))
  {
    if s != [] {
      var init := s[..|s| - 1];
      NonEmptyEntries(init, user, b);
      forall i | 0 <= i < |NonEmpty(init)| && s[|s| - 1].ptr != 0
        ensures NonEmpty(init)[i].ptr != s[|s| - 1].ptr
      {
        assert NonEmpty(init)[i] in init;
      }
    }
  }

  lemma ConcatNoneTwice(xs: seq<Entry>, ys: seq<Entry>, b: nat)
    requires NoneTwice(xs) && NoneTwice(ys)
    requires forall e: Entry :: e in xs ==> Hash(e.ptr) < b
    requires forall e: Entry :: e in ys ==> Hash(e.ptr) == b
    ensures NoneTwice(xs + ys)
  {
    var all := xs + ys;
    forall i, j | 0 <= i < j < |all| ensures all[i].ptr != all[j].ptr {
      if i < |xs| <= j { assert all[i] in xs && all[j] in ys; }
    }
  }

  lemma {:induction false} BucketIsLeaks(s: seq<Entry>, user: map<nat, Entry>, b: nat)
    requires IndexAt(s, user, b) && 0 !in user
    ensures forall e: Entry :: e in NonEmpty(s) <==> IsLeak(user, b + 1, e) && !IsLeak(user, b, e)
    ensures NoneTwice(NonEmpty(s))
  {
    NonEmptyEntries(s, user, b);
    forall e: Entry | e.ptr in user && user[e.ptr] == e && Hash(e.ptr) == b ensures e in s {
      assert s[Find(s, e.ptr)] == e;
    }
  }

  /** The report has the entries made for the live blocks, all of them, each once. */
  lemma {:induction false} ReportIsLeaks(slots: seq<seq<Entry>>, user: map<nat, Entry>, n: nat)
    requires Indexed(slots, user) && n <= BUCKETS
    ensures forall e: Entry :: e in AllNonEmpty(slots, n) <==> IsLeak(user, n, e)
    ensures NoneTwice(AllNonEmpty(slots, n))
  {
    if n > 0 {
      var m := n - 1;
      ReportIsLeaks(slots, user, m);
      assert BucketIndexed(slots, user, m);
      BucketIsLeaks(slots[m], user, m);
      ConcatNoneTwice(AllNonEmpty(slots, m), NonEmpty(slots[m]), m);
    }
  }
}
