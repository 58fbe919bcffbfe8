/** The layout of the blocks of trace/include/alloc-inl.h: a magic number and the size in front of the data, and a
    magic byte behind it. */
module Blocks {
  import opened Bytes

  const MAX_ALLOC: nat := 0x4000_0000
  const MAGIC_C1: nat := 0xFF00_FF00
  const MAGIC_F: nat := 0xFE00_FE00
  const MAGIC_C2: byte := 0xF0

  /** The offset of the data, and what a block takes in addition to its data. */
  const OFF_HEAD: nat := 8
  const OFF_TOTAL: nat := 9

  type u32 = n: int | 0 <= n < 0x1_0000_0000

  /** ALLOC_C1 and ALLOC_S, for a chunk of memory that holds a block. */
  function Head(chunk: seq<byte>): nat
    requires |chunk| >= 8
  {
    Get(chunk[..4])
  }

  function SizeOf(chunk: seq<byte>): nat
    requires |chunk| >= 8
  {
    Get(chunk[4..8])
  }

  datatype Verdict = Intact | UseAfterFree | BadHead | BadTail

  /** What CHECK_PTR reads is there. */
  predicate Readable(chunk: seq<byte>) {
    |chunk| >= 8 && (Head(chunk) == MAGIC_C1 ==> OFF_HEAD + SizeOf(chunk) < |chunk|)
  }

  /** CHECK_PTR */
  function Check(chunk: seq<byte>): Verdict
    requires Readable(chunk)
  {
    if Head(chunk) == MAGIC_F then UseAfterFree
    else if Head(chunk) != MAGIC_C1 then BadHead
    else if chunk[OFF_HEAD + SizeOf(chunk)] != MAGIC_C2 then BadTail
    else Intact
  }

  function Framed(magic: nat, size: nat, data: seq<byte>, tail: byte): (chunk: seq<byte>)
    ensures |chunk| == |data| + OFF_TOTAL
  {
    Put(magic, 4) + Put(size, 4) + data + [tail]
  }

  /** A block in good order. */
  function Block(data: seq<byte>): (chunk: seq<byte>)
    ensures |chunk| == |data| + OFF_TOTAL
  {
    Framed(MAGIC_C1, |data|, data, MAGIC_C2)
  }

  lemma FramedFields(magic: u32, size: u32, data: seq<byte>, tail: byte)
    ensures var chunk := Framed(magic, size, data, tail);
      && Head(chunk) == magic && SizeOf(chunk) == size
      && chunk[OFF_HEAD..OFF_HEAD + |data|] == data && chunk[OFF_HEAD + |data|] == tail
  {
    var chunk := Framed(magic, size, data, tail);
    Pow256Values();
    GetPut(magic, 4);
    GetPut(size, 4);
    assert chunk[..4] == Put(magic, 4);
    assert chunk[4..8] == Put(size, 4);
  }

  /** A block says how long its data is, and passes the check. */
  lemma BlockFields(data: seq<byte>)
    requires |data| < 0x1_0000_0000
    ensures var chunk := Block(data);
      && Head(chunk) == MAGIC_C1 && SizeOf(chunk) == |data|
      && chunk[OFF_HEAD..OFF_HEAD + |data|] == data
      && Readable(chunk) && Check(chunk) == Intact
  {
    FramedFields(MAGIC_C1, |data|, data, MAGIC_C2);
  }

  /** A chunk as long as its size says passes the check exactly when it is a block. */
  lemma IntactIffBlock(chunk: seq<byte>)
    requires |chunk| >= OFF_TOTAL && SizeOf(chunk) == |chunk| - OFF_TOTAL
    ensures Check(chunk) == Intact <==> chunk == Block(chunk[OFF_HEAD..|chunk| - 1])
  {
    var data := chunk[OFF_HEAD..|chunk| - 1];
    PutGet(chunk[..4]);
    PutGet(chunk[4..8]);
    if Check(chunk) == Intact {
      assert chunk == chunk[..4] + chunk[4..8] + data + [chunk[|chunk| - 1]];
    }
    if chunk == Block(data) {
      assert chunk[..4] == Put(MAGIC_C1, 4);
      Pow256Values();
      GetPut(MAGIC_C1, 4);
      assert chunk[|chunk| - 1] == MAGIC_C2;
    }
  }

  /** One byte behind the data is watched: overwriting it is always found out, overwriting data never is. */
  lemma OverflowDetectedIff(data: seq<byte>, i: nat, b: byte)
    requires |data| < 0x1_0000_0000 && i <= |data|
    ensures var chunk := Splice(Block(data), OFF_HEAD + i, [b]);
      Readable(chunk) && Check(chunk) == if i == |data| && b != MAGIC_C2 then BadTail else Intact
  {
    var chunk := Splice(Block(data), OFF_HEAD + i, [b]);
    if i < |data| {
      assert chunk == Block(data[i := b]);
      BlockFields(data[i := b]);
    } else {
      assert chunk == Framed(MAGIC_C1, |data|, data, b);
      FramedFields(MAGIC_C1, |data|, data, b);
    }
  }

  /** The first n bytes of the data wiped, and the block marked as freed. */
  function Wiped(chunk: seq<byte>, n: nat): (left: seq<byte>)
    requires OFF_HEAD + n <= |chunk|
    ensures |left| == |chunk|
  {
    Splice(Splice(chunk, OFF_HEAD, Repeat(0xFF, n)), 0, Put(MAGIC_F, 4))
  }

  /** What DFL_ck_free leaves behind: the debug build wipes the data. */
  function Left(chunk: seq<byte>, debug: bool): (left: seq<byte>)
    requires Readable(chunk) && Check(chunk) == Intact
  {
    Wiped(chunk, if debug then SizeOf(chunk) else 0)
  }

  /** As long as the memory is not used for something else, freeing it again is found out; and in the debug build none
      of the data can be read any more. */
  lemma FreedIsFoundOut(chunk: seq<byte>, debug: bool)
    requires Readable(chunk) && Check(chunk) == Intact
    ensures var left, n := Left(chunk, debug), SizeOf(chunk);
      && Readable(left) && Check(left) == UseAfterFree && SizeOf(left) == n
      && left[OFF_HEAD..OFF_HEAD + n] == if debug then Repeat(0xFF, n) else chunk[OFF_HEAD..OFF_HEAD + n]
  {
    Pow256Values();
    GetPut(MAGIC_F, 4);
    WipedParts(chunk, if debug then SizeOf(chunk) else 0, SizeOf(chunk));
  }

  lemma {:induction false} WipedParts(chunk: seq<byte>, n: nat, size: nat)
    requires n <= size && OFF_HEAD + size <= |chunk|
    ensures var left := Wiped(chunk, n);
      && left[..4] == Put(MAGIC_F, 4) && left[4..8] == chunk[4..8]
      && left[OFF_HEAD..OFF_HEAD + n] == Repeat(0xFF, n)
      && left[OFF_HEAD + n..OFF_HEAD + size] == chunk[OFF_HEAD + n..OFF_HEAD + size]
  {
    var wiped := Splice(chunk, OFF_HEAD, Repeat(0xFF, n));
    assert wiped[4..8] == chunk[4..8];
    assert wiped[OFF_HEAD..OFF_HEAD + n] == Repeat(0xFF, n);
    assert wiped[OFF_HEAD + n..OFF_HEAD + size] == chunk[OFF_HEAD + n..OFF_HEAD + size];
    BehindMark(wiped, 4, 8);
    BehindMark(wiped, OFF_HEAD, OFF_HEAD + n);
    BehindMark(wiped, OFF_HEAD + n, OFF_HEAD + size);
  }

  lemma {:induction false} BehindMark(chunk: seq<byte>, i: nat, j: nat)
    requires 4 <= i <= j <= |chunk|
    ensures var marked := Splice(chunk, 0, Put(MAGIC_F, 4));
      marked[..4] == Put(MAGIC_F, 4) && marked[i..j] == chunk[i..j]
  {
  }

  /** The data cut or filled up with zeros to another size. */
  function Resize(data: seq<byte>, size: nat): (r: seq<byte>)
    ensures |r| == size
  {
    if size <= |data| then data[..size] else data + Repeat(0, size - |data|)
  }

  /** ALLOC_C1, ALLOC_S and ALLOC_C2 set. */
  function Sealed(chunk: seq<byte>, size: nat): (r: seq<byte>)
    requires |chunk| >= size + OFF_TOTAL
    ensures |r| == |chunk|
  {
    Framed(MAGIC_C1, size, chunk[OFF_HEAD..OFF_HEAD + size], MAGIC_C2) + chunk[OFF_TOTAL + size..]
  }

  /** What DFL_ck_memdup_str makes: the terminator takes the place of the magic byte, which is in front of the
      extra byte that was asked for. */
  function Terminated(data: seq<byte>, junk: byte): seq<byte> {
    Framed(MAGIC_C1, |data|, data, 0) + [junk]
  }

  /** So no result of DFL_ck_memdup_str ever passes the check. */
  lemma TerminatedNeverIntact(data: seq<byte>, junk: byte)
    requires |data| < 0x1_0000_0000
    ensures Readable(Terminated(data, junk)) && Check(Terminated(data, junk)) == BadTail
  {
    FramedFields(MAGIC_C1, |data|, data, 0);
    var chunk := Terminated(data, junk);
    var f := Framed(MAGIC_C1, |data|, data, 0);
    assert chunk[..4] == f[..4] && chunk[4..8] == f[4..8] && chunk[OFF_HEAD + |data|] == f[OFF_HEAD + |data|];
  }

  // ----- byte by byte

  /** An empty block, and the magic numbers. */
  lemma EmptyBlock()
    ensures Block([]) == [0x00, 0xFF, 0x00, 0xFF, 0, 0, 0, 0, 0xF0]
    ensures Put(MAGIC_F, 4) == [0x00, 0xFE, 0x00, 0xFE]
  {
    PutIs(MAGIC_C1);
    PutIs(MAGIC_F);
    PutIs(0);
  }

  /** What is found out first: a freed block, then a wrong head, then a wrong tail. */
  lemma {:induction false} CheckIs(magic: u32, size: u32, data: seq<byte>, tail: byte)
    requires |data| == size
    ensures var chunk := Framed(magic, size, data, tail);
      && Readable(chunk)
      && Check(chunk) ==
           if magic == 0xFE00_FE00 then UseAfterFree
           else if magic != 0xFF00_FF00 then BadHead
           else if tail != 0xF0 then BadTail
           else Intact
  {
    FramedFields(magic, size, data, tail);
  }

  lemma ResizeAt(data: seq<byte>, size: nat, i: nat)
    requires i < size
    ensures Resize(data, size)[i] == if i < |data| then data[i] else 0
  {
  }

  /** The data, a terminator, and what was there behind it. */
  lemma {:induction false} TerminatedFields(data: seq<byte>, junk: byte)
    requires |data| < 0x1_0000_0000
    ensures var chunk := Terminated(data, junk);
      && |chunk| == |data| + 10 && SizeOf(chunk) == |data| && chunk[8..8 + |data|] == data
      && chunk[8 + |data|] == 0 && chunk[9 + |data|] == junk
  {
    FramedFields(MAGIC_C1, |data|, data, 0);
    var chunk, f := Terminated(data, junk), Framed(MAGIC_C1, |data|, data, 0);
    assert chunk[4..8] == f[4..8] && chunk[8..8 + |data|] == f[8..8 + |data|];
  }
}
