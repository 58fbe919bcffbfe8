/** The debug build of trace/include/alloc-inl.h: every allocation is tracked, in tables that the allocator itself
    provides the memory for. */
module LeakTracker {
  import opened Bytes
  import opened Blocks
  import opened Allocator
  import opened SlotTable
  import opened Records
  import opened LeakTables

  class Tracker {
    const heap: Heap
    /** TRK and TRK_cnt */
    const trk: array<nat>
    const cnt: array<nat>

    /** What the tables hold; the tracked calls; the client's blocks, with the entry made for each. */
    ghost var slots: seq<seq<Entry>>
    ghost var ops: seq<Op>
    ghost var user: map<nat, Entry>

    ghost predicate TablesOk()
      reads this`slots, heap`mem, trk, cnt
    {
      trk != cnt && trk.Length == cnt.Length == BUCKETS && heap.debug && Tables(heap.mem, trk[..], cnt[..], slots)
    }

    /** The chunks of memory do not overlap; they are the tables, which are in order, and the blocks of `owned`. */
    ghost predicate MemoryOk(owned: set<nat>)
      reads this`slots, heap`mem, trk, cnt
    {
      TablesOk() && Apart(heap.mem) && Owners(heap.mem, trk[..], owned)
    }

    /** The tables are the result of the calls, and index the client's blocks. */
    ghost predicate IndexOk()
      reads this`slots, this`ops, this`user
    {
      Indexed(slots, user) && Logged(slots, ops)
    }

    ghost predicate Valid()
      reads this`slots, this`ops, this`user, heap`mem, trk, cnt
    {
      MemoryOk(user.Keys) && IndexOk()
    }

    constructor ()
      ensures Valid() && user == map[] && ops == [] && fresh(heap) && fresh(trk) && fresh(cnt)
    {
      heap := new Heap(true);
      var roots, counts := new nat[BUCKETS](i => 0), new nat[BUCKETS](i => 0);
      trk, cnt := roots, counts;
      slots, ops, user := seq(BUCKETS, i => []), [], map[];
      new;
      assert forall b :: BucketLogged(slots, ops, b);
    }

    method ReadEntry(root: nat, i: nat, ghost s: seq<Entry>) returns (e: Entry)
      requires i < |s| && IsEntry(s[i]) && Holds(heap.mem, root, EncodeAll(s))
      ensures e == s[i]
    {
      var off := OFF_HEAD + RECORD * i;
      SlotBytes(s, i);
      BlockFields(EncodeAll(s));
      DecodeEncode(s[i]);
      RecordInBlock(EncodeAll(s), RECORD * i);
      e := Decode(heap.mem[root - OFF_HEAD][off..off + RECORD]);
    }

    method StoreAt(root: nat, off: nat, w: seq<byte>, ghost data: seq<byte>)
      requires Holds(heap.mem, root, data) && off + |w| <= |data|
      modifies heap`mem
      ensures Holds(heap.mem, root, Splice(data, off, w))
      ensures heap.mem == old(heap.mem)[Base(root) := Block(Splice(data, off, w))]
      ensures Apart(old(heap.mem)) ==> Apart(heap.mem)
    {
      BlockSplice(data, off, w);
      heap.Store(root - OFF_HEAD, OFF_HEAD + off, w);
    }

    method WriteEntry(root: nat, i: nat, e: Entry, ghost s: seq<Entry>)
      requires i < |s| && Holds(heap.mem, root, EncodeAll(s))
      modifies heap`mem
      ensures Holds(heap.mem, root, EncodeAll(s[i := e]))
      ensures heap.mem == old(heap.mem)[Base(root) := Block(EncodeAll(s[i := e]))]
      ensures Apart(old(heap.mem)) ==> Apart(heap.mem)
    {
      ghost var data := EncodeAll(s);
      StorePair(root, RECORD * i, Put(e.ptr, 8), Put(e.file, 8), data);
      StorePair(root, RECORD * i + 16, Put(e.func, 8), Put(e.line, 4),
        Splice(data, RECORD * i, Put(e.ptr, 8) + Put(e.file, 8)));
      EntryStored(s, i, e);
    }

    /** Two stores side by side. */
    method StorePair(root: nat, off: nat, v: seq<byte>, w: seq<byte>, ghost data: seq<byte>)
      requires Holds(heap.mem, root, data) && off + |v| + |w| <= |data|
      modifies heap`mem
      ensures Holds(heap.mem, root, Splice(data, off, v + w))
      ensures heap.mem == old(heap.mem)[Base(root) := Block(Splice(data, off, v + w))]
      ensures Apart(old(heap.mem)) ==> Apart(heap.mem)
    {
      StoreAt(root, off, v, data);
      StoreAt(root, off + |v|, w, Splice(data, off, v));
      SpliceNext(data, off, v, w);
    }

    /** The loops of TRK_alloc_buf and TRK_free_buf. */
    method FindSlot(root: nat, count: nat, ptr: nat, ghost s: seq<Entry>) returns (i: nat)
      requires TableOk(heap.mem, root, count, s)
      ensures i == Find(s, ptr)
    {
      i := 0;
      while i < count
        invariant i <= count && forall j :: 0 <= j < i ==> s[j].ptr != ptr
      {
        var e := ReadEntry(root, i, s);
        if e.ptr == ptr { break; }
        i := i + 1;
      }
      FindIs(s, ptr, i);
    }

    /** The store of TRK_alloc_buf into a slot that exists. */
    method Reuse(b: nat, i: nat, e: Entry)
      requires TablesOk() && b < BUCKETS && i < |slots[b]| && IsEntry(e)
      modifies heap`mem, this`slots
      ensures TablesOk() && slots == old(slots)[b := old(slots[b])[i := e]]
      ensures Replaces(old(heap.mem), trk[b], heap.mem, trk[b], EncodeAll(slots[b]))
      ensures Apart(old(heap.mem)) ==> Apart(heap.mem)
    {
      ghost var s := slots[b];
      assert TableAt(heap.mem, trk[..], cnt[..], slots, b);
      WriteEntry(trk[b], i, e, s);
      ReuseTable(old(heap.mem), heap.mem, trk[..], cnt[..], slots, b, s[i := e]);
      slots := slots[b := s[i := e]];
    }

    /** TRK_alloc_buf, when all slots are taken: make room, and store. */
    method Extend(root: nat, count: nat, e: Entry, ghost s: seq<Entry>) returns (r: Result)
      requires TableOk(heap.mem, root, count, s) && IsEntry(e) && heap.debug
      modifies heap`mem
      ensures r.Ok? || r.why in {BadRequest, OutOfMemory}
      ensures r.Ok? ==> Replaces(old(heap.mem), root, heap.mem, r.ptr, EncodeAll(s + [e]))
      ensures r.Ok? ==> TableOk(heap.mem, r.ptr, count + 1, s + [e])
      ensures r.Ok? && Apart(old(heap.mem)) ==> Apart(heap.mem)
    {
      HeldTable(heap.mem, root, count, s);
      GrownTable(s);
      r := heap.ReallocBlock(root, (count + 1) * RECORD);
      if r.Aborted? { return; }
      assert Holds(heap.mem, r.ptr, EncodeAll(s + [EMPTY]));
      WriteEntry(r.ptr, count, e, s + [EMPTY]);
      assert (s + [EMPTY])[|s| := e] == s + [e];
    }

    method Grow(b: nat, e: Entry) returns (r: Result)
      requires TablesOk() && b < BUCKETS && IsEntry(e)
      modifies heap`mem, this`slots, trk, cnt
      ensures r.Ok? || r.why in {BadRequest, OutOfMemory}
      ensures r.Ok? ==> TablesOk() && slots == old(slots)[b := old(slots[b]) + [e]]
      ensures r.Ok? ==> trk[..] == old(trk[..])[b := trk[b]]
      ensures r.Ok? ==> Replaces(old(heap.mem), old(trk[b]), heap.mem, trk[b], EncodeAll(slots[b]))
      ensures r.Ok? && Apart(old(heap.mem)) ==> Apart(heap.mem)
    {
      ghost var s := slots[b];
      assert TableAt(heap.mem, trk[..], cnt[..], slots, b);
      r := Extend(trk[b], cnt[b], e, s);
      if r.Aborted? { return; }
      TableReplaced(old(heap.mem), heap.mem, trk[..], cnt[..], slots, b, r.ptr, s + [e]);
      slots := slots[b := s + [e]];
      trk[b] := r.ptr;
      cnt[b] := cnt[b] + 1;
      assert trk[..] == old(trk[..])[b := r.ptr];
      assert cnt[..] == old(cnt[..])[b := |s| + 1];
    }

    /** TRK_alloc_buf, for a pointer that is not null. */
    method TrackAlloc(e: Entry) returns (r: Result)
      requires TablesOk() && IsEntry(e)
      modifies heap`mem, this`slots, trk, cnt
      ensures r.Ok? || r.why in {BadRequest, OutOfMemory}
      ensures r.Ok? ==> var b := Hash(e.ptr);
        && TablesOk() && slots == old(slots)[b := Insert(old(slots[b]), e)]
        && trk[..] == old(trk[..])[b := trk[b]]
        && Replaces(old(heap.mem), old(trk[b]), heap.mem, trk[b], EncodeAll(slots[b]))
      ensures r.Ok? && Apart(old(heap.mem)) ==> Apart(heap.mem)
    {
      var bucket := Hash(e.ptr);
      assert TableAt(heap.mem, trk[..], cnt[..], slots, bucket);
      var i := FindSlot(trk[bucket], cnt[bucket], 0, slots[bucket]);
      if i < cnt[bucket] {
        Reuse(bucket, i, e);
        r := Ok(0);
      } else {
        r := Grow(bucket, e);
      }
    }

    /** TRK_free_buf, for a pointer that is not null. It warns if the pointer is not in its table. */
    method TrackFree(ptr: nat) returns (warned: bool)
      requires TablesOk()
      modifies heap`mem, this`slots
      ensures TablesOk()
      ensures var b := Hash(ptr);
        && slots == old(slots)[b := Remove(old(slots[b]), ptr)]
        && (warned <==> Find(old(slots[b]), ptr) == |old(slots[b])|)
        && if warned then heap.mem == old(heap.mem)
           else Replaces(old(heap.mem), trk[b], heap.mem, trk[b], EncodeAll(slots[b]))
      ensures Apart(old(heap.mem)) ==> Apart(heap.mem)
    {
      var bucket := Hash(ptr);
      ghost var s := slots[bucket];
      assert TableAt(heap.mem, trk[..], cnt[..], slots, bucket);
      var i := FindSlot(trk[bucket], cnt[bucket], ptr, s);
      warned := i == cnt[bucket];
      if !warned {
        Clear(bucket, i);
      }
    }

    method Clear(b: nat, i: nat)
      requires TablesOk() && b < BUCKETS && i < |slots[b]|
      modifies heap`mem, this`slots
      ensures TablesOk() && slots == old(slots)[b := old(slots[b])[i := old(slots[b][i]).(ptr := 0)]]
      ensures Replaces(old(heap.mem), trk[b], heap.mem, trk[b], EncodeAll(slots[b]))
      ensures Apart(old(heap.mem)) ==> Apart(heap.mem)
    {
      ghost var s := slots[b];
      assert TableAt(heap.mem, trk[..], cnt[..], slots, b);
      EntryCleared(s, i);
      StoreAt(trk[b], RECORD * i, Put(0, 8), EncodeAll(s));
      ghost var t := s[i := s[i].(ptr := 0)];
      ReuseTable(old(heap.mem), heap.mem, trk[..], cnt[..], slots, b, t);
      slots := slots[b := t];
    }

    /** A block of the client's that is not tracked yet is. */
    method Adopt(e: Entry, ghost owned: set<nat>) returns (r: Result)
      requires MemoryOk(owned) && IndexOk() && IsEntry(e) && e.ptr != 0 && e.ptr !in user
      modifies heap`mem, this`slots, this`ops, this`user, trk, cnt
      ensures r.Ok? || r.why in {BadRequest, OutOfMemory}
      ensures r.Ok? ==> MemoryOk(owned) && IndexOk() && Same(old(heap.mem), heap.mem, owned)
      ensures r.Ok? ==> user == old(user)[e.ptr := e] && ops == old(ops) + [Add(e)]
    {
      r := TrackAlloc(e);
      if r.Aborted? { return; }
      OwnersStay(old(heap.mem), heap.mem, old(trk[..]), owned, Hash(e.ptr), trk[Hash(e.ptr)], EncodeAll(slots[Hash(e.ptr)]));
      IndexAfterAdd(old(slots), user, e);
      LoggedOneMore(old(slots), ops, Add(e));
      ops, user := ops + [Add(e)], user[e.ptr := e];
    }

    /** A tracked block is tracked no longer. */
    method Forget(ptr: nat, ghost owned: set<nat>)
      requires MemoryOk(owned) && IndexOk() && ptr in user
      modifies heap`mem, this`slots, this`ops, this`user
      ensures MemoryOk(owned) && IndexOk() && Same(old(heap.mem), heap.mem, owned)
      ensures user == old(user) - {ptr} && ops == old(ops) + [Drop(ptr)]
    {
      Tracked(slots, user, ptr);
      var warned := TrackFree(ptr);
      OwnersStayAt(old(heap.mem), heap.mem, trk[..], owned, Hash(ptr), EncodeAll(slots[Hash(ptr)]));
      IndexAfterDrop(old(slots), user, ptr);
      LoggedOneMore(old(slots), ops, Drop(ptr));
      ops, user := ops + [Drop(ptr)], user - {ptr};
    }

    /** The calls after a reallocation: TRK_free_buf for the old pointer and TRK_alloc_buf for the new one. */
    method Retrack(orig: nat, e: Entry, ghost owned: set<nat>) returns (r: Result)
      requires MemoryOk(owned) && IndexOk() && IsEntry(e) && e.ptr != 0 && e.ptr !in user && (orig == 0 || orig in user)
      modifies heap`mem, this`slots, this`ops, this`user, trk, cnt
      ensures r.Ok? || r.why in {BadRequest, OutOfMemory}
      ensures r.Ok? ==> MemoryOk(owned) && IndexOk() && Same(old(heap.mem), heap.mem, owned)
      ensures r.Ok? ==> user == (old(user) - {orig})[e.ptr := e]
      ensures r.Ok? ==> ops == old(ops) + Calls(orig, e)
    {
      assert ops + Calls(orig, e) == (ops + Calls(orig, EMPTY)) + [Add(e)];
      if orig != 0 { Forget(orig, owned); }
      ghost var forgotten := heap.mem;
      assert orig == 0 ==> user == old(user) - {orig};
      r := Adopt(e, owned);
      if r.Ok? { SameThrough(old(heap.mem), forgotten, heap.mem, owned, owned); }
    }

    /** A new block was made for the client, in exchange for another one if orig is not null. */
    method Hand(orig: nat, e: Entry, ghost mem: Memory, ghost data: seq<byte>) returns (r: Result)
      requires trk != cnt && trk.Length == cnt.Length == BUCKETS && heap.debug && Apart(heap.mem)
      requires Tables(mem, trk[..], cnt[..], slots) && Owners(mem, trk[..], user.Keys)
      requires IndexOk() && IsEntry(e) && e.ptr != 0 && (orig == 0 || orig in user)
      requires ClientStep(mem, heap.mem, orig, e.ptr, data)
      modifies heap`mem, this`slots, this`ops, this`user, trk, cnt
      ensures r.Ok? || r.why in {BadRequest, OutOfMemory}
      ensures r.Ok? ==> Valid() && Exchanged(mem, old(user), orig, e, data, heap.mem, user)
      ensures r.Ok? ==> ops == old(ops) + Calls(orig, e)
    {
      ghost var others := user.Keys - {orig};
      ghost var owned := OwnedAfter(user.Keys, orig, e.ptr);
      ClientSteps(mem, heap.mem, trk[..], cnt[..], slots, user.Keys, orig, e.ptr, data);
      r := Retrack(orig, e, owned);
      if r.Ok? {
        assert user.Keys == owned;
        SameThrough(mem, old(heap.mem), heap.mem, others, owned);
        StillHolds(old(heap.mem), heap.mem, owned, e.ptr, data);
      }
    }

    /** TRK_free_buf and TRK_alloc_buf after a call of the allocator that made a block, or none, for the client. */
    method Accept(orig: nat, made: Result, file: nat, func: nat, line: nat, ghost mem: Memory, ghost data: seq<byte>)
      returns (r: Result)
      requires trk != cnt && trk.Length == cnt.Length == BUCKETS && heap.debug && (made.Ok? ==> Apart(heap.mem))
      requires Tables(mem, trk[..], cnt[..], slots) && Owners(mem, trk[..], user.Keys)
      requires IndexOk() && IsEntry(Entry(0, file, func, line)) && (orig == 0 || orig in user)
      requires made.Ok? ==> ClientStep(mem, heap.mem, orig, made.ptr, data)
      requires made.Ok? || made.why in {BadRequest, OutOfMemory}
      modifies heap`mem, this`slots, this`ops, this`user, trk, cnt
      ensures r.Ok? || r.why in {BadRequest, OutOfMemory}
      ensures r.Ok? ==> Valid() && made.Ok? && r.ptr == made.ptr
      ensures r.Ok? ==> ops == old(ops) + Calls(orig, Entry(r.ptr, file, func, line))
      ensures r.Ok? ==>
        if r.ptr == 0 then Returned(mem, old(user), orig, heap.mem, user)
        else Exchanged(mem, old(user), orig, Entry(r.ptr, file, func, line), data, heap.mem, user)
    {
      r := made;
      if made.Aborted? { return; }
      if made.ptr == 0 {
        Lose(orig, mem);
      } else {
        PointerIsAddress(heap.mem, made.ptr);
        var tracked := Hand(orig, Entry(made.ptr, file, func, line), mem, data);
        if tracked.Aborted? { r := tracked; }
      }
    }

    /** The client's block is gone, or there was none. */
    method Lose(orig: nat, ghost mem: Memory)
      requires trk != cnt && trk.Length == cnt.Length == BUCKETS && heap.debug && Apart(heap.mem)
      requires Tables(mem, trk[..], cnt[..], slots) && Owners(mem, trk[..], user.Keys)
      requires IndexOk() && (orig == 0 || orig in user) && heap.mem == Without(mem, orig)
      modifies heap`mem, this`slots, this`ops, this`user
      ensures Valid() && Returned(mem, old(user), orig, heap.mem, user)
      ensures ops == old(ops) + Calls(orig, EMPTY)
    {
      if orig == 0 {
        NothingReturned(mem, user);
      } else {
        LoseBlock(orig, mem);
      }
    }

    method LoseBlock(orig: nat, ghost mem: Memory)
      requires trk != cnt && trk.Length == cnt.Length == BUCKETS && heap.debug && Apart(heap.mem)
      requires Tables(mem, trk[..], cnt[..], slots) && Owners(mem, trk[..], user.Keys)
      requires IndexOk() && orig in user && heap.mem == Without(mem, orig)
      modifies heap`mem, this`slots, this`ops, this`user
      ensures Valid() && Returned(mem, old(user), orig, heap.mem, user)
      ensures ops == old(ops) + Calls(orig, EMPTY)
    {
      ghost var owned := user.Keys - {orig};
      assert orig != 0;
      ClientSteps(mem, heap.mem, trk[..], cnt[..], slots, user.Keys, orig, 0, []);
      Forget(orig, owned);
      assert user.Keys == owned;
      SameThrough(mem, old(heap.mem), heap.mem, owned, owned);
    }

    /** TRK_ck_alloc */
    method Alloc(size: u32, file: nat, func: nat, line: nat) returns (r: Result)
      requires Valid() && IsEntry(Entry(0, file, func, line))
      modifies heap`mem, this`slots, this`ops, this`user, trk, cnt
      ensures r.Ok? || r.why in {BadRequest, OutOfMemory}
      ensures r.Ok? ==> Valid() && ops == old(ops) + Calls(0, Entry(r.ptr, file, func, line))
      ensures r.Ok? ==>
        if size == 0 then r.ptr == 0 && Returned(old(heap.mem), old(user), 0, heap.mem, user)
        else Exchanged(old(heap.mem), old(user), 0, Entry(r.ptr, file, func, line), Repeat(0, size), heap.mem, user)
    {
      r := heap.Alloc(size);
      r := Accept(0, r, file, func, line, old(heap.mem), if size == 0 then [] else Repeat(0, size));
    }

    /** TRK_ck_strdup */
    method Strdup(str: Source, file: nat, func: nat, line: nat) returns (r: Result)
      requires Valid() && IsEntry(Entry(0, file, func, line))
      requires str.Bytes? ==> 0 !in str.bytes
      modifies heap`mem, this`slots, this`ops, this`user, trk, cnt
      ensures r.Ok? || r.why in {BadRequest, OutOfMemory}
      ensures r.Ok? ==> Valid() && ops == old(ops) + Calls(0, Entry(r.ptr, file, func, line))
      ensures r.Ok? ==>
        if str.Null? then r.ptr == 0 && Returned(old(heap.mem), old(user), 0, heap.mem, user)
        else Exchanged(old(heap.mem), old(user), 0, Entry(r.ptr, file, func, line), StrData(str.bytes), heap.mem, user)
    {
      r := heap.Strdup(str);
      r := Accept(0, r, file, func, line, old(heap.mem), if str.Null? then [] else StrData(str.bytes));
    }

    /** TRK_ck_memdup */
    method Memdup(from: Source, size: u32, file: nat, func: nat, line: nat) returns (r: Result)
      requires Valid() && IsEntry(Entry(0, file, func, line))
      requires from.Bytes? ==> size <= |from.bytes|
      modifies heap`mem, this`slots, this`ops, this`user, trk, cnt
      ensures r.Ok? || r.why in {BadRequest, OutOfMemory}
      ensures r.Ok? ==> Valid() && ops == old(ops) + Calls(0, Entry(r.ptr, file, func, line))
      ensures r.Ok? ==>
        if from.Null? || size == 0 then r.ptr == 0 && Returned(old(heap.mem), old(user), 0, heap.mem, user)
        else Exchanged(old(heap.mem), old(user), 0, Entry(r.ptr, file, func, line), from.bytes[..size], heap.mem, user)
    {
      r := heap.Memdup(from, size);
      r := Accept(0, r, file, func, line, old(heap.mem), if from.Null? || size == 0 then [] else from.bytes[..size]);
    }

    /** TRK_ck_realloc. `stale` is what can be read at a pointer that is not live. */
    method Realloc(orig: nat, size: u32, file: nat, func: nat, line: nat, stale: seq<byte>) returns (r: Result)
      requires Valid() && IsEntry(Entry(0, file, func, line))
      requires IsLive(orig) || IsStale(orig, stale)
      modifies heap`mem, this`slots, this`ops, this`user, trk, cnt
      ensures !old(IsLive(orig)) ==> r == Aborted(Found(Check(stale)))
      ensures old(IsLive(orig)) ==> r.Ok? || r.why in {BadRequest, OutOfMemory}
      ensures r.Ok? ==> Valid() && ops == old(ops) + Calls(orig, Entry(r.ptr, file, func, line))
      ensures r.Ok? ==>
        if size == 0 then r.ptr == 0 && Returned(old(heap.mem), old(user), orig, heap.mem, user)
        else Exchanged(old(heap.mem), old(user), orig, Entry(r.ptr, file, func, line),
          Resize(Data(old(heap.mem), orig), size), heap.mem, user)
    {
      LiveIsPointer(orig);
      if orig != 0 && !IsPointer(heap.mem, orig) { return Aborted(Found(Check(stale))); }
      UserIsIntact(orig);
      ghost var data := Resize(Data(heap.mem, orig), size);
      r := heap.Realloc(orig, size);
      r := Accept(orig, r, file, func, line, old(heap.mem), data);
    }

    /** TRK_ck_realloc_block, which in this build does nothing else. */
    method ReallocBlock(orig: nat, size: u32, file: nat, func: nat, line: nat, stale: seq<byte>) returns (r: Result)
      requires Valid() && IsEntry(Entry(0, file, func, line))
      requires IsLive(orig) || IsStale(orig, stale)
      modifies heap`mem, this`slots, this`ops, this`user, trk, cnt
      ensures !old(IsLive(orig)) ==> r == Aborted(Found(Check(stale)))
      ensures old(IsLive(orig)) ==> r.Ok? || r.why in {BadRequest, OutOfMemory}
      ensures r.Ok? ==> Valid() && ops == old(ops) + Calls(orig, Entry(r.ptr, file, func, line))
      ensures r.Ok? ==>
        if size == 0 then r.ptr == 0 && Returned(old(heap.mem), old(user), orig, heap.mem, user)
        else Exchanged(old(heap.mem), old(user), orig, Entry(r.ptr, file, func, line),
          Resize(Data(old(heap.mem), orig), size), heap.mem, user)
    {
      LiveIsPointer(orig);
      if orig != 0 && !IsPointer(heap.mem, orig) { return Aborted(Found(Check(stale))); }
      UserIsIntact(orig);
      ghost var data := Resize(Data(heap.mem, orig), size);
      r := heap.ReallocBlock(orig, size);
      r := Accept(orig, r, file, func, line, old(heap.mem), data);
    }

    /** TRK_ck_free. For a pointer that is not live it warns, and then aborts: as use after free, if what is there is
        what was left when the pointer was freed. */
    method Free(ptr: nat, stale: seq<byte>) returns (r: Result, warned: bool, ghost left: seq<byte>)
      requires Valid() && (IsLive(ptr) || IsStale(ptr, stale))
      modifies heap`mem, this`slots, this`ops, this`user
      ensures warned <==> !old(IsLive(ptr))
      ensures !warned ==> r == Ok(0) && Valid() && Returned(old(heap.mem), old(user), ptr, heap.mem, user)
      ensures !warned ==> ops == old(ops) + Calls(ptr, EMPTY)
      ensures !warned && ptr != 0 ==> IsStale(ptr, left) && Check(left) == UseAfterFree
      ensures warned ==> r == Aborted(Found(Check(stale))) && heap.mem == old(heap.mem) && slots == old(slots)
    {
      warned, left := false, [];
      LiveIsPointer(ptr);
      if ptr == 0 {
        NothingReturned(heap.mem, user);
        r := Ok(0);
      } else if IsPointer(heap.mem, ptr) {
        r, left := FreeLive(ptr);
      } else {
        warned := FreeStale(ptr);
        r := Aborted(Found(Check(stale)));
      }
    }

    method FreeLive(ptr: nat) returns (r: Result, ghost left: seq<byte>)
      requires Valid() && ptr in user
      modifies heap`mem, this`slots, this`ops, this`user
      ensures r == Ok(0) && Valid() && Returned(old(heap.mem), old(user), ptr, heap.mem, user)
      ensures ops == old(ops) + Calls(ptr, EMPTY) && IsStale(ptr, left) && Check(left) == UseAfterFree
    {
      LiveIsPointer(ptr);
      r, left := FreeBlock(ptr);
    }

    /** TRK_free_buf finds nothing to free, and warns. */
    method FreeStale(ptr: nat) returns (warned: bool)
      requires Valid() && ptr != 0 && ptr !in user
      modifies heap`mem, this`slots
      ensures warned && heap.mem == old(heap.mem) && slots == old(slots)
    {
      NotTracked(slots, user, ptr);
      warned := TrackFree(ptr);
    }

    /** A null pointer, or that of one of the client's blocks. */
    ghost predicate IsLive(ptr: nat)
      reads this`user
    {
      ptr == 0 || ptr in user
    }

    /** Nothing was handed out that has this address, and what is there does not look like a block in good order. */
    predicate IsStale(ptr: nat, stale: seq<byte>)
      reads heap`mem
    {
      ptr != 0 && !IsPointer(heap.mem, ptr) && Readable(stale) && Check(stale) != Intact
    }

    lemma {:induction false} LiveIsPointer(ptr: nat)
      requires Valid()
      ensures ptr in user ==> ptr != 0 && IsPointer(heap.mem, ptr)
    {
      if ptr in user { UserIsIntact(ptr); }
    }

    method FreeBlock(ptr: nat) returns (r: Result, ghost left: seq<byte>)
      requires Valid() && ptr in user
      modifies heap`mem, this`slots, this`ops, this`user
      ensures r == Ok(0) && Valid() && Returned(old(heap.mem), old(user), ptr, heap.mem, user)
      ensures ops == old(ops) + [Drop(ptr)] && IsStale(ptr, left) && Check(left) == UseAfterFree
    {
      ghost var owned, others := user.Keys, user.Keys - {ptr};
      Forget(ptr, owned);
      ghost var forgotten := heap.mem;
      assert Owned(heap.mem, trk[..], ptr);
      OwnedIsIntact(heap.mem, ptr);
      r, left := heap.Free(ptr);
      ClientSteps(forgotten, heap.mem, trk[..], cnt[..], slots, owned, ptr, 0, []);
      assert user.Keys == others;
      SameWithin(old(heap.mem), forgotten, owned, others);
      SameThrough(old(heap.mem), forgotten, heap.mem, others, others);
    }

    method StoreByte(ptr: nat, i: nat, b: byte, ghost data: seq<byte>)
      requires Holds(heap.mem, ptr, data) && i < |data|
      modifies heap`mem
      ensures heap.mem == old(heap.mem)[Base(ptr) := Block(data[i := b])]
      ensures Apart(old(heap.mem)) ==> Apart(heap.mem)
    {
      assert Splice(data, i, [b]) == data[i := b];
      StoreAt(ptr, i, [b], data);
    }

    /** The client stores a byte into its own block. */
    method Write(ptr: nat, i: nat, b: byte)
      requires Valid() && ptr in user && i < |Data(heap.mem, ptr)|
      modifies heap`mem
      ensures Valid() && Holds(heap.mem, ptr, Data(old(heap.mem), ptr)[i := b])
      ensures Same(old(heap.mem), heap.mem, user.Keys - {ptr})
    {
      UserIsIntact(ptr);
      ghost var was, data := heap.mem, Data(heap.mem, ptr);
      StoreByte(ptr, i, b, data);
      ClientWrites(was, heap.mem, trk[..], cnt[..], slots, user.Keys, ptr, data[i := b]);
    }

    /** No client's block ever fails the check. */
    lemma {:induction false} UserIsIntact(ptr: nat)
      requires Valid() && (ptr == 0 || ptr in user)
      ensures Usable(heap.mem, ptr) && Checked(heap.mem, ptr) == Intact && |Data(heap.mem, ptr)| <= MAX_ALLOC
      ensures Data(heap.mem, ptr) == Held(heap.mem, ptr)
      ensures ptr != 0 ==> Holds(heap.mem, ptr, Data(heap.mem, ptr))
    {
      if ptr != 0 {
        assert Owned(heap.mem, trk[..], ptr);
        OwnedIsIntact(heap.mem, ptr);
      }
    }

    /** What is in a table are the live pointers of its bucket, and its length is the most that ever were live. */
    lemma TableIsHistory(b: nat)
      requires Valid() && b < BUCKETS
      ensures cnt[b] == |slots[b]| == Peak(InBucket(ops, b))
      ensures Live(slots[b]) == LiveAfter(InBucket(ops, b))
      ensures forall p :: Live(slots[b])[p] == if Hash(p) == b then LiveAfter(ops)[p] else 0
    {
      assert TableAt(heap.mem, trk[..], cnt[..], slots, b) && BucketLogged(slots, ops, b);
      InBucketPointers(ops, b);
      TableIsIndex(InBucket(ops, b));
      forall p ensures LiveAfter(InBucket(ops, b))[p] == if Hash(p) == b then LiveAfter(ops)[p] else 0 {
        BucketLive(ops, b, p);
      }
    }

    method ReportBucket(b: nat) returns (leaks: seq<Entry>)
      requires Valid() && b < BUCKETS
      ensures leaks == NonEmpty(slots[b])
    {
      leaks := [];
      assert TableAt(heap.mem, trk[..], cnt[..], slots, b);
      for i := 0 to cnt[b]
        invariant leaks == NonEmpty(slots[b][..i])
      {
        var e := ReadEntry(trk[b], i, slots[b]);
        assert slots[b][..i + 1][..i] == slots[b][..i];
        if e.ptr != 0 { leaks := leaks + [e]; }
      }
      assert slots[b][..cnt[b]] == slots[b];
    }

    /** TRK_report: the entries it warns about are those made for the blocks that were never freed. */
    method Report() returns (leaks: seq<Entry>)
      requires Valid()
      ensures forall e: Entry :: e in leaks <==> e.ptr in user && user[e.ptr] == e
      ensures NoneTwice(leaks)
    {
      leaks := [];
      for bucket := 0 to BUCKETS
        invariant leaks == AllNonEmpty(slots, bucket)
      {
        var more := ReportBucket(bucket);
        leaks := leaks + more;
      }
      ReportIsLeaks(slots, user, BUCKETS);
    }
  }

  lemma {:induction false} ReuseTable(
      mem: Memory, mem': Memory, roots: seq<nat>, counts: seq<nat>, slots: seq<seq<Entry>>, b: nat, s: seq<Entry>)
    requires Tables(mem, roots, counts, slots) && b < BUCKETS && s != [] && |s| == |slots[b]|
    requires roots[b] >= OFF_HEAD && Base(roots[b]) in mem && mem' == mem[Base(roots[b]) := Block(EncodeAll(s))]
    requires forall i :: 0 <= i < |s| ==> IsEntry(s[i])
    ensures Tables(mem', roots, counts, slots[b := s])
    ensures Replaces(mem, roots[b], mem', roots[b], EncodeAll(s))
  {
    assert TableAt(mem, roots, counts, slots, b);
    assert Without(mem, roots[b])[Base(roots[b]) := Block(EncodeAll(s))] == mem';
    assert TableOk(mem', roots[b], |s|, s);
    TableReplaced(mem, mem', roots, counts, slots, b, roots[b], s);
    assert roots[b := roots[b]] == roots && counts[b := |s|] == counts;
  }

  /** What a table's root stands for. */
  lemma {:induction false} HeldTable(mem: Memory, root: nat, count: nat, s: seq<Entry>)
    requires TableOk(mem, root, count, s)
    ensures Usable(mem, root) && Checked(mem, root) == Intact && Held(mem, root) == EncodeAll(s)
    ensures RECORD * |s| <= MAX_ALLOC
  {
    BlockFields(EncodeAll(s));
  }

  lemma RecordInBlock(data: seq<byte>, off: nat)
    requires off + RECORD <= |data|
    requires Block(data)[OFF_HEAD..OFF_HEAD + |data|] == data
    ensures Block(data)[OFF_HEAD + off..OFF_HEAD + off + RECORD] == data[off..off + RECORD]
  {
  }
}
