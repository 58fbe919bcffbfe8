/** The checked allocator of trace/include/alloc-inl.h, on memory that is made of the chunks malloc hands out. */
module Allocator {
  import opened Bytes
  import opened Blocks

  const BLK_INC: nat := 256

  /** The chunks by their addresses. */
  type Memory = map<nat, seq<byte>>

  datatype Abort = BadRequest | OutOfMemory | Found(verdict: Verdict)

  /** The bytes behind a pointer that the caller passes; a string ends before its terminator. */
  datatype Source = Null | Bytes(bytes: seq<byte>)

  /** A pointer to the data of a block, or 0; or the program was aborted. */
  datatype Result = Ok(ptr: nat) | Aborted(why: Abort)

  predicate Disjoint(p: nat, m: nat, q: nat, n: nat) {
    p + m <= q || q + n <= p
  }

  /** n bytes at an address overlap no chunk. */
  predicate Fits(mem: Memory, p: nat, n: nat) {
    && 0 < p && p + n <= 0x1_0000_0000_0000_0000
    && forall q :: q in mem ==> Disjoint(p, n, q, |mem[q]|)
  }

  /** No chunks overlap. */
  ghost predicate Apart(mem: Memory) {
    && (forall p :: p in mem ==> 0 < p && p + |mem[p]| <= 0x1_0000_0000_0000_0000)
    && forall p, q :: p in mem && q in mem && p != q ==> Disjoint(p, |mem[p]|, q, |mem[q]|)
  }

  /** The chunk of a pointer. */
  function Base(ptr: nat): nat
    requires ptr >= OFF_HEAD
  {
    ptr - OFF_HEAD
  }

  predicate IsPointer(mem: Memory, ptr: nat) {
    ptr >= OFF_HEAD && ptr - OFF_HEAD in mem
  }

  /** The pointer is that of a block in good order. */
  ghost predicate Holds(mem: Memory, ptr: nat, data: seq<byte>) {
    IsPointer(mem, ptr) && |data| <= MAX_ALLOC && mem[Base(ptr)] == Block(data)
  }

  /** strlen(str) + 1, as a 32-bit number. */
  function StrSize(bytes: seq<byte>): u32 {
    (|bytes| + 1) % 0x1_0000_0000
  }

  /** What is copied of a string: all of it with its terminator, unless its size does not fit. */
  function StrData(bytes: seq<byte>): (data: seq<byte>)
    ensures |data| == StrSize(bytes)
    ensures |bytes| + 1 < 0x1_0000_0000 ==> data == bytes + [0]
  {
    (bytes + [0])[..StrSize(bytes)]
  }

  function LeastSize(i: nat, j: nat): nat { if i <= j then i else j }

  /** The data of the block in a chunk. */
  function DataOf(chunk: seq<byte>): (data: seq<byte>)
    requires Readable(chunk) && Check(chunk) == Intact
    ensures |data| == SizeOf(chunk)
  {
    chunk[OFF_HEAD..OFF_HEAD + SizeOf(chunk)]
  }

  /** What the functions that take a pointer demand of it: CHECK_PTR can read the chunk. */
  predicate Usable(mem: Memory, ptr: nat) {
    ptr == 0 || (IsPointer(mem, ptr) && Readable(mem[Base(ptr)]))
  }

  function Checked(mem: Memory, ptr: nat): Verdict
    requires Usable(mem, ptr)
  {
    if ptr == 0 then Intact else Check(mem[Base(ptr)])
  }

  /** The data that a pointer stands for; none if it is 0. */
  function Held(mem: Memory, ptr: nat): seq<byte>
    requires Usable(mem, ptr) && Checked(mem, ptr) == Intact
  {
    if ptr == 0 then [] else DataOf(mem[Base(ptr)])
  }

  function Without(mem: Memory, ptr: nat): Memory {
    if ptr < OFF_HEAD then mem else mem - {Base(ptr)}
  }

  /** The block of the old pointer, if it is one, is no more; the new pointer is that of a block with the data. */
  ghost predicate Replaces(mem: Memory, orig: nat, mem': Memory, ptr: nat, data: seq<byte>) {
    && ptr >= OFF_HEAD && mem' == Without(mem, orig)[Base(ptr) := Block(data)]
    && (Base(ptr) in mem ==> ptr == orig)
  }

  ghost predicate AddsTerminated(mem: Memory, mem': Memory, ptr: nat, data: seq<byte>) {
    && ptr >= OFF_HEAD && Base(ptr) !in mem
    && exists junk :: mem' == mem[Base(ptr) := Terminated(data, junk)]
  }

  /** What DFL_ck_realloc does with an intact block that holds the data, or with none. */
  ghost predicate Reallocates(mem: Memory, orig: nat, data: seq<byte>, size: nat, r: Result, mem': Memory) {
    if size == 0 then r == Ok(0) && mem' == Without(mem, orig)
    else if size > MAX_ALLOC || |data| > MAX_ALLOC then r == Aborted(BadRequest)
    else r == Aborted(OutOfMemory) || (r.Ok? && Replaces(mem, orig, mem', r.ptr, Resize(data, size)))
  }

  lemma SealedIsBlock(chunk: seq<byte>, size: nat)
    requires |chunk| == size + OFF_TOTAL
    ensures Sealed(chunk, size) == Block(chunk[OFF_HEAD..OFF_HEAD + size])
  {
  }

  /** The order of the stores: the place of the last byte is computed from the size just stored. */
  lemma SealSteps(chunk: seq<byte>, size: u32)
    requires |chunk| >= size + OFF_TOTAL
    ensures var c := Splice(Splice(chunk, 0, Put(MAGIC_C1, 4)), 4, Put(size, 4));
      SizeOf(c) == size && Splice(c, OFF_HEAD + size, [MAGIC_C2]) == Sealed(chunk, size)
  {
    var head := Put(MAGIC_C1, 4) + Put(size, 4);
    SpliceNext(chunk, 0, Put(MAGIC_C1, 4), Put(size, 4));
    var c := head + chunk[8..];
    assert Splice(chunk, 0, head) == c;
    Pow256Values();
    GetPut(size, 4);
    assert c[4..8] == Put(size, 4);
    SpliceTail(head, chunk[8..], size, MAGIC_C2);
    assert chunk[8..][..size] == chunk[OFF_HEAD..OFF_HEAD + size];
    assert chunk[8..][size + 1..] == chunk[OFF_TOTAL + size..];
  }

  lemma SpliceTail(head: seq<byte>, rest: seq<byte>, size: nat, b: byte)
    requires size < |rest|
    ensures Splice(head + rest, |head| + size, [b]) == head + rest[..size] + [b] + rest[size + 1..]
  {
  }

  /** What realloc keeps includes the data. */
  lemma KeptData(chunk: seq<byte>, head: seq<byte>, moved: seq<byte>, n: nat, kept: nat)
    requires |head| <= OFF_HEAD && OFF_HEAD + kept <= n <= |chunk| && n <= |moved|
    requires moved[..n] == Splice(chunk, 0, head)[..n]
    ensures moved[OFF_HEAD..OFF_HEAD + kept] == chunk[OFF_HEAD..OFF_HEAD + kept]
  {
    var c := Splice(chunk, 0, head);
    assert moved[OFF_HEAD..OFF_HEAD + kept] == moved[..n][OFF_HEAD..OFF_HEAD + kept];
    assert c[OFF_HEAD..OFF_HEAD + kept] == c[..n][OFF_HEAD..OFF_HEAD + kept];
    assert c[OFF_HEAD..OFF_HEAD + kept] == chunk[OFF_HEAD..OFF_HEAD + kept];
  }

  /** Clearing the tail that was added makes the resized data, the old magic byte included. */
  lemma ClearTail(data: seq<byte>, size: nat, chunk: seq<byte>)
    requires |data| < size && |chunk| == size + OFF_TOTAL && chunk[OFF_HEAD..OFF_HEAD + |data|] == data
    ensures Splice(Block(chunk[OFF_HEAD..OFF_HEAD + size]), OFF_HEAD + |data|, Repeat(0, size - |data|)) ==
      Block(Resize(data, size))
  {
    var d := chunk[OFF_HEAD..OFF_HEAD + size];
    assert d[..|data|] == data;
    assert Block(d)[..OFF_HEAD + |data|] == Put(MAGIC_C1, 4) + Put(size, 4) + data;
  }

  /** The pointer is that of a block with at least so many bytes. */
  ghost predicate HasRoom(mem: Memory, ptr: nat, size: nat) {
    && IsPointer(mem, ptr) && Readable(mem[Base(ptr)]) && Check(mem[Base(ptr)]) == Intact
    && |DataOf(mem[Base(ptr)])| >= size
  }

  /** What DFL_ck_realloc_block does with an intact block, or with none. */
  ghost predicate RenewsBlock(debug: bool, mem: Memory, orig: nat, size: u32, r: Result, mem': Memory)
    requires Usable(mem, orig) && Checked(mem, orig) == Intact
  {
    if debug || orig == 0 then Reallocates(mem, orig, Held(mem, orig), size, r, mem')
    else if size <= |Held(mem, orig)| then r == Ok(orig) && mem' == mem
    else Reallocates(mem, orig, Held(mem, orig), (size + 256) % 0x1_0000_0000, r, mem')
  }

  lemma {:induction false} ReplacedHasRoom(mem: Memory, orig: nat, mem': Memory, ptr: nat, data: seq<byte>, size: nat)
    requires Replaces(mem, orig, mem', ptr, data) && |data| < 0x1_0000_0000
    ensures HasRoom(mem', ptr, size) <==> |data| >= size
  {
    BlockFields(data);
    assert mem'[Base(ptr)] == Block(data);
  }

  /** When the block that is returned has the size asked for: always, but for a size within 256 of 2^32 that makes the
      block grow. Then the sum wraps around, and the block is freed or cut instead. */
  lemma {:induction false} RenewedHasRoomIff(debug: bool, mem: Memory, orig: nat, size: u32, r: Result, mem': Memory)
    requires Usable(mem, orig) && Checked(mem, orig) == Intact && RenewsBlock(debug, mem, orig, size, r, mem')
    requires r.Ok? && size > 0
    ensures HasRoom(mem', r.ptr, size) <==>
      debug || orig == 0 || size <= |Held(mem, orig)| || size + 256 < 0x1_0000_0000
  {
    var asked := if debug || orig == 0 then size else (size + BLK_INC) % 0x1_0000_0000;
    if debug || orig == 0 || size > |Held(mem, orig)| {
      if asked != 0 { ReplacedHasRoom(mem, orig, mem', r.ptr, Resize(Held(mem, orig), asked), size); }
    }
  }

  class Heap {
    /** DEBUG_BUILD */
    const debug: bool
    var mem: Memory

    constructor (debug: bool)
      ensures this.debug == debug && mem == map[]
    {
      this.debug, mem := debug, map[];
    }

    /** malloc: new memory with any contents, or 0. */
    method Malloc(n: nat) returns (p: nat)
      modifies this`mem
      ensures p == 0 ==> mem == old(mem)
      ensures p != 0 ==> Fits(old(mem), p, n) && p !in old(mem)
      ensures p != 0 ==> p in mem && |mem[p]| == n && mem == old(mem)[p := mem[p]]
      ensures Apart(old(mem)) ==> Apart(mem)
    {
      var q: int := *;
      if q <= 0 || q in mem || !Fits(mem, q, n) { return 0; }
      p := q;
      var junk: seq<byte> := *;
      mem := mem[p := Resize(junk, n)];
    }

    method Store(p: nat, off: nat, w: seq<byte>)
      requires p in mem && off + |w| <= |mem[p]|
      modifies this`mem
      ensures mem == old(mem)[p := Splice(old(mem[p]), off, w)]
      ensures Apart(old(mem)) ==> Apart(mem)
    {
      mem := mem[p := Splice(mem[p], off, w)];
    }

    /** free, and what was in the chunk before. */
    method Release(p: nat) returns (ghost left: seq<byte>)
      requires p in mem
      modifies this`mem
      ensures mem == old(mem) - {p} && left == old(mem[p])
      ensures Apart(old(mem)) ==> Apart(mem)
    {
      left := mem[p];
      mem := mem - {p};
    }

    /** realloc, of a chunk that exists: it stays or moves, and keeps the bytes that fit. */
    method ReallocChunk(p: nat, n: nat) returns (q: nat)
      requires p in mem
      modifies this`mem
      ensures q == 0 ==> mem == old(mem)
      ensures q != 0 ==> q in mem && |mem[q]| == n && mem == (old(mem) - {p})[q := mem[q]] && (q in old(mem) ==> q == p)
      ensures q != 0 ==> mem[q][..LeastSize(n, |old(mem[p])|)] == old(mem[p])[..LeastSize(n, |old(mem[p])|)]
      ensures Apart(old(mem)) ==> Apart(mem)
    {
      var r: int := *;
      if r <= 0 || (r != p && r in mem) || !Fits(mem - {p}, r, n) { return 0; }
      q := r;
      var kept := mem[p][..LeastSize(n, |mem[p]|)];
      var junk: seq<byte> := *;
      mem := (mem - {p})[q := kept + Resize(junk, n - |kept|)];
    }

    /** ALLOC_C1(ret) = ALLOC_MAGIC_C1; ALLOC_S(ret) = size; ALLOC_C2(ret) = ALLOC_MAGIC_C2 */
    method Seal(p: nat, size: u32)
      requires p in mem && |mem[p]| >= size + OFF_TOTAL
      modifies this`mem
      ensures mem == old(mem)[p := Sealed(old(mem[p]), size)]
      ensures Apart(old(mem)) ==> Apart(mem)
    {
      SealSteps(mem[p], size);
      Store(p, 0, Put(MAGIC_C1, 4));
      Store(p, 4, Put(size, 4));
      Store(p, OFF_HEAD + SizeOf(mem[p]), [MAGIC_C2]);
    }

    /** A new block whose data may be anything: the common part of the functions that allocate. */
    method New(size: u32) returns (r: Result)
      modifies this`mem
      ensures size > MAX_ALLOC ==> r == Aborted(BadRequest)
      ensures size <= MAX_ALLOC ==> r.Ok? || r == Aborted(OutOfMemory)
      ensures r.Ok? ==> exists data :: |data| == size && Replaces(old(mem), 0, mem, r.ptr, data)
      ensures r.Ok? && Apart(old(mem)) ==> Apart(mem)
    {
      if size > MAX_ALLOC { return Aborted(BadRequest); }
      var p := Malloc(size + OFF_TOTAL);
      if p == 0 { return Aborted(OutOfMemory); }
      SealedIsBlock(mem[p], size);
      ghost var data := mem[p][OFF_HEAD..OFF_HEAD + size];
      Seal(p, size);
      r := Ok(p + OFF_HEAD);
      assert |data| == size && Replaces(old(mem), 0, mem, r.ptr, data);
    }

    /** Store the data of a block. */
    method Fill(ptr: nat, ghost was: seq<byte>, data: seq<byte>)
      requires IsPointer(mem, ptr) && mem[Base(ptr)] == Block(was) && |was| == |data|
      modifies this`mem
      ensures mem == old(mem)[Base(ptr) := Block(data)]
      ensures Apart(old(mem)) ==> Apart(mem)
    {
      assert Splice(Block(was), OFF_HEAD, data) == Block(data);
      Store(ptr - OFF_HEAD, OFF_HEAD, data);
    }

    /** DFL_ck_alloc_nozero */
    method AllocNoZero(size: u32) returns (r: Result)
      modifies this`mem
      ensures size == 0 ==> r == Ok(0) && mem == old(mem)
      ensures size > 0x4000_0000 ==> r == Aborted(BadRequest)
      ensures 0 < size <= 0x4000_0000 ==>
        r == Aborted(OutOfMemory) || (r.Ok? && exists data :: |data| == size && Replaces(old(mem), 0, mem, r.ptr, data))
      ensures r.Ok? && Apart(old(mem)) ==> Apart(mem)
    {
      if size == 0 { return Ok(0); }
      r := New(size);
    }

    /** DFL_ck_alloc */
    method Alloc(size: u32) returns (r: Result)
      modifies this`mem
      ensures size == 0 ==> r == Ok(0) && mem == old(mem)
      ensures size > MAX_ALLOC ==> r == Aborted(BadRequest)
      ensures 0 < size <= MAX_ALLOC ==>
        r == Aborted(OutOfMemory) || (r.Ok? && Replaces(old(mem), 0, mem, r.ptr, Repeat(0, size)))
      ensures r.Ok? && Apart(old(mem)) ==> Apart(mem)
    {
      if size == 0 { return Ok(0); }
      r := AllocNoZero(size);
      if r.Ok? {
        ghost var data :| |data| == size && Replaces(old(mem), 0, mem, r.ptr, data);
        Fill(r.ptr, data, Repeat(0, size));
      }
    }

    /** DFL_ck_strdup: the string is given by its bytes up to the terminator. */
    method Strdup(str: Source) returns (r: Result)
      requires str.Bytes? ==> 0 !in str.bytes
      modifies this`mem
      ensures str.Null? ==> r == Ok(0) && mem == old(mem)
      ensures str.Bytes? && StrSize(str.bytes) > MAX_ALLOC ==> r == Aborted(BadRequest)
      ensures str.Bytes? && StrSize(str.bytes) <= MAX_ALLOC ==>
        r == Aborted(OutOfMemory) || (r.Ok? && Replaces(old(mem), 0, mem, r.ptr, StrData(str.bytes)))
      ensures r.Ok? && Apart(old(mem)) ==> Apart(mem)
    {
      if str.Null? { return Ok(0); }
      var size := StrSize(str.bytes);
      r := New(size);
      if r.Ok? {
        ghost var data :| |data| == size && Replaces(old(mem), 0, mem, r.ptr, data);
        Fill(r.ptr, data, StrData(str.bytes));
      }
    }

    /** DFL_ck_memdup */
    method Memdup(from: Source, size: u32) returns (r: Result)
      requires from.Bytes? ==> size <= |from.bytes|
      modifies this`mem
      ensures from.Null? || size == 0 ==> r == Ok(0) && mem == old(mem)
      ensures from.Bytes? && size > MAX_ALLOC ==> r == Aborted(BadRequest)
      ensures from.Bytes? && 0 < size <= MAX_ALLOC ==>
        r == Aborted(OutOfMemory) || (r.Ok? && Replaces(old(mem), 0, mem, r.ptr, from.bytes[..size]))
      ensures r.Ok? && Apart(old(mem)) ==> Apart(mem)
    {
      if from.Null? || size == 0 { return Ok(0); }
      r := New(size);
      if r.Ok? {
        ghost var data :| |data| == size && Replaces(old(mem), 0, mem, r.ptr, data);
        Fill(r.ptr, data, from.bytes[..size]);
      }
    }

    /** DFL_ck_memdup_str. TerminatedNeverIntact says what its result is worth. */
    method MemdupStr(from: Source, size: u32) returns (r: Result)
      requires from.Bytes? ==> size <= |from.bytes|
      modifies this`mem
      ensures from.Null? || size == 0 ==> r == Ok(0) && mem == old(mem)
      ensures from.Bytes? && size > MAX_ALLOC ==> r == Aborted(BadRequest)
      ensures from.Bytes? && 0 < size <= MAX_ALLOC ==>
        r == Aborted(OutOfMemory) || (r.Ok? && AddsTerminated(old(mem), mem, r.ptr, from.bytes[..size]))
      ensures r.Ok? && Apart(old(mem)) ==> Apart(mem)
    {
      if from.Null? || size == 0 { return Ok(0); }
      if size > MAX_ALLOC { return Aborted(BadRequest); }
      var p := Malloc(size + OFF_TOTAL + 1);
      if p == 0 { return Aborted(OutOfMemory); }
      Terminate(p, size, from.bytes[..size]);
      r := Ok(p + OFF_HEAD);
    }

    method Terminate(p: nat, size: u32, data: seq<byte>)
      requires p in mem && |mem[p]| == size + OFF_TOTAL + 1 && |data| == size
      modifies this`mem
      ensures mem == old(mem)[p := Terminated(data, old(mem[p])[size + OFF_TOTAL])]
      ensures Apart(old(mem)) ==> Apart(mem)
    {
      TerminateSteps(mem[p], size, data);
      Seal(p, size);
      Store(p, OFF_HEAD, data);
      Store(p, OFF_HEAD + size, [0]);
    }

    /** DFL_ck_free: aborts exactly when the check fails. What it leaves behind fails the check. */
    method Free(ptr: nat) returns (r: Result, ghost left: seq<byte>)
      requires Usable(mem, ptr)
      modifies this`mem
      ensures Checked(old(mem), ptr) != Intact ==> r == Aborted(Found(Checked(old(mem), ptr))) && mem == old(mem)
      ensures Checked(old(mem), ptr) == Intact ==> r == Ok(0) && mem == Without(old(mem), ptr)
      ensures Checked(old(mem), ptr) == Intact && ptr != 0 ==>
        left == Left(old(mem[Base(ptr)]), debug) && Readable(left) && Check(left) == UseAfterFree
      ensures Apart(old(mem)) ==> Apart(mem)
    {
      left := [];
      if ptr == 0 { return Ok(0), left; }
      var p := ptr - OFF_HEAD;
      if Check(mem[p]) != Intact { return Aborted(Found(Check(mem[p]))), left; }
      FreedIsFoundOut(mem[p], debug);
      left := Discard(p, if debug then SizeOf(mem[p]) else 0);
      r := Ok(0);
    }

    /** Wipe the first n bytes of the data, mark the block as freed, and free the chunk. */
    method Discard(p: nat, n: nat) returns (ghost left: seq<byte>)
      requires p in mem && |mem[p]| >= n + OFF_HEAD
      modifies this`mem
      ensures mem == old(mem) - {p} && left == Wiped(old(mem[p]), n)
      ensures Apart(old(mem)) ==> Apart(mem)
    {
      Store(p, OFF_HEAD, Repeat(0xFF, n));
      Store(p, 0, Put(MAGIC_F, 4));
      left := Release(p);
    }

    /** The end of DFL_ck_realloc: the chunk starts with what was kept of the old data. */
    method Finish(p: nat, size: u32, oldSize: nat, ghost data: seq<byte>) returns (ptr: nat)
      requires p in mem && |mem[p]| == size + OFF_TOTAL && |data| == oldSize
      requires var kept := LeastSize(size, oldSize); mem[p][OFF_HEAD..OFF_HEAD + kept] == data[..kept]
      modifies this`mem
      ensures ptr == p + OFF_HEAD && mem == old(mem)[p := Block(Resize(data, size))]
      ensures Apart(old(mem)) ==> Apart(mem)
    {
      ptr := p + OFF_HEAD;
      SealedIsBlock(mem[p], size);
      if size > oldSize { ClearTail(data, size, mem[p]); }
      Seal(p, size);
      if size > oldSize { Store(p, OFF_HEAD + oldSize, Repeat(0, size - oldSize)); }
    }

    /** The debug build's way to get a chunk of the new size: a new one, and the old one is wiped. */
    method Relocate(orig: nat, size: u32, oldSize: nat) returns (q: nat)
      requires orig == 0 || (IsPointer(mem, orig) && |mem[Base(orig)]| >= oldSize + OFF_TOTAL)
      requires orig == 0 ==> oldSize == 0
      modifies this`mem
      ensures q != 0 ==> q !in old(mem) && q in mem && |mem[q]| == size + OFF_TOTAL
      ensures q != 0 ==> mem == Without(old(mem), orig)[q := mem[q]]
      ensures q != 0 && orig != 0 ==> var kept := LeastSize(size, oldSize);
        mem[q][OFF_HEAD..OFF_HEAD + kept] == old(mem[Base(orig)])[OFF_HEAD..OFF_HEAD + kept]
      ensures Apart(old(mem)) ==> Apart(mem)
    {
      q := Malloc(size + OFF_TOTAL);
      if q == 0 || orig == 0 { return; }
      var p := orig - OFF_HEAD;
      Store(q, OFF_HEAD, mem[p][OFF_HEAD..OFF_HEAD + LeastSize(size, oldSize)]);
      ghost var _ := Discard(p, oldSize);
    }

    /** The other build's way: realloc. */
    method Resized(orig: nat, size: u32, oldSize: nat) returns (q: nat)
      requires orig == 0 || (IsPointer(mem, orig) && |mem[Base(orig)]| >= oldSize + OFF_TOTAL)
      requires orig == 0 ==> oldSize == 0
      modifies this`mem
      ensures q != 0 ==> q in mem && |mem[q]| == size + OFF_TOTAL && mem == Without(old(mem), orig)[q := mem[q]]
      ensures q != 0 && q in old(mem) ==> orig != 0 && q == Base(orig)
      ensures q != 0 && orig != 0 ==> var kept := LeastSize(size, oldSize);
        mem[q][OFF_HEAD..OFF_HEAD + kept] == old(mem[Base(orig)])[OFF_HEAD..OFF_HEAD + kept]
      ensures Apart(old(mem)) ==> Apart(mem)
    {
      if orig == 0 {
        q := Malloc(size + OFF_TOTAL);
        return;
      }
      var p := orig - OFF_HEAD;
      ghost var chunk := mem[p];
      Store(p, 0, Put(MAGIC_F, 4));
      ghost var n := LeastSize(size + OFF_TOTAL, |chunk|);
      q := ReallocChunk(p, size + OFF_TOTAL);
      ghost var kept := LeastSize(size, oldSize);
      if q != 0 {
        KeptData(chunk, Put(MAGIC_F, 4), mem[q], n, kept);
      }
    }

    /** DFL_ck_realloc. Both builds leave the same block. */
    method Realloc(orig: nat, size: u32) returns (r: Result)
      requires Usable(mem, orig)
      modifies this`mem
      ensures Checked(old(mem), orig) != Intact ==> r == Aborted(Found(Checked(old(mem), orig)))
      ensures Checked(old(mem), orig) == Intact ==>
        Reallocates(old(mem), orig, Held(old(mem), orig), size, r, mem)
      ensures debug && r.Ok? && size > 0 ==> r.ptr >= OFF_HEAD && Base(r.ptr) !in old(mem)
      ensures r.Ok? && Apart(old(mem)) ==> Apart(mem)
    {
      if size == 0 {
        ghost var left;
        r, left := Free(orig);
        return;
      }
      var oldSize := 0;
      if orig != 0 {
        var verdict := Check(mem[orig - OFF_HEAD]);
        if verdict != Intact { return Aborted(Found(verdict)); }
        oldSize := SizeOf(mem[orig - OFF_HEAD]);
        if oldSize > MAX_ALLOC { return Aborted(BadRequest); }
      }
      if size > MAX_ALLOC { return Aborted(BadRequest); }
      r := Renew(orig, size, oldSize, Held(mem, orig));
    }

    /** The part of DFL_ck_realloc after the checks. */
    method Renew(orig: nat, size: u32, oldSize: nat, ghost data: seq<byte>) returns (r: Result)
      requires Usable(mem, orig) && Checked(mem, orig) == Intact && Held(mem, orig) == data && |data| == oldSize
      modifies this`mem
      ensures r == Aborted(OutOfMemory) || (r.Ok? && Replaces(old(mem), orig, mem, r.ptr, Resize(data, size)))
      ensures debug && r.Ok? ==> Base(r.ptr) !in old(mem)
      ensures Apart(old(mem)) ==> Apart(mem)
    {
      var q := Chunk(orig, size, oldSize, data);
      if q == 0 { return Aborted(OutOfMemory); }
      var ptr := Finish(q, size, oldSize, data);
      r := Ok(ptr);
    }

    /** A chunk of the new size instead of the old one, in the way of the build. */
    method Chunk(orig: nat, size: u32, oldSize: nat, ghost data: seq<byte>) returns (q: nat)
      requires Usable(mem, orig) && Checked(mem, orig) == Intact && Held(mem, orig) == data && |data| == oldSize
      modifies this`mem
      ensures q != 0 ==> q in mem && |mem[q]| == size + OFF_TOTAL && mem == Without(old(mem), orig)[q := mem[q]]
      ensures q != 0 ==>
        var kept := LeastSize(size, oldSize);
        mem[q][OFF_HEAD..OFF_HEAD + kept] == data[..kept]
      ensures q != 0 && q in old(mem) ==> !debug && orig != 0 && q == Base(orig)
      ensures Apart(old(mem)) ==> Apart(mem)
    {
      ghost var kept := LeastSize(size, oldSize);
      assert orig != 0 ==> mem[Base(orig)][OFF_HEAD..OFF_HEAD + kept] == data[..kept];
      if debug { q := Relocate(orig, size, oldSize); } else { q := Resized(orig, size, oldSize); }
    }

    /** DFL_ck_realloc_block: without DEBUG_BUILD, a block that is large enough stays, and others grow by more than
        was asked for, in 32-bit arithmetic. */
    method ReallocBlock(orig: nat, size: u32) returns (r: Result)
      requires Usable(mem, orig)
      modifies this`mem
      ensures Checked(old(mem), orig) != Intact ==> r == Aborted(Found(Checked(old(mem), orig)))
      ensures Checked(old(mem), orig) == Intact ==> RenewsBlock(debug, old(mem), orig, size, r, mem)
      ensures debug && r.Ok? && size > 0 ==> r.ptr >= OFF_HEAD && Base(r.ptr) !in old(mem)
      ensures r.Ok? && Apart(old(mem)) ==> Apart(mem)
    {
      var size' := size;
      if !debug && orig != 0 {
        var verdict := Check(mem[orig - OFF_HEAD]);
        if verdict != Intact { return Aborted(Found(verdict)); }
        if SizeOf(mem[orig - OFF_HEAD]) >= size { return Ok(orig); }
        size' := (size + BLK_INC) % 0x1_0000_0000;
      }
      r := Realloc(orig, size');
    }
  }

  lemma TerminateSteps(chunk: seq<byte>, size: nat, data: seq<byte>)
    requires |chunk| == size + OFF_TOTAL + 1 && |data| == size
    ensures Splice(Splice(Sealed(chunk, size), OFF_HEAD, data), OFF_HEAD + size, [0]) ==
      Terminated(data, chunk[size + OFF_TOTAL])
  {
    var head, junk := Put(MAGIC_C1, 4) + Put(size, 4), chunk[size + OFF_TOTAL];
    var s := Splice(Sealed(chunk, size), OFF_HEAD, data);
    assert chunk[OFF_TOTAL + size..] == [junk];
    assert s == head + data + [MAGIC_C2] + [junk];
    assert Splice(s, OFF_HEAD + size, [0]) == head + data + [0] + [junk];
  }
}
