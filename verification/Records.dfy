/** How the leak tracker's entries lie in memory. */
module Records {
  import opened Bytes
  import opened Blocks
  import opened SlotTable

  /** sizeof(struct TRK_obj), and the part of it that is not padding. */
  const RECORD: nat := 32
  const FIELDS: nat := 28

  const EMPTY: Entry := Entry(0, 0, 0, 0)

  predicate IsAddress(ptr: nat) {
    ptr < 0x1_0000_0000_0000_0000
  }

  predicate IsEntry(e: Entry) {
    IsAddress(e.ptr) && IsAddress(e.file) && IsAddress(e.func) && e.line < 0x1_0000_0000
  }

  function Fields(e: Entry): (bs: seq<byte>)
    ensures |bs| == FIELDS
  {
    Put(e.ptr, 8) + Put(e.file, 8) + Put(e.func, 8) + Put(e.line, 4)
  }

  function Encode(e: Entry): (bs: seq<byte>)
    ensures |bs| == RECORD
  {
    Fields(e) + Repeat(0, 4)
  }

  function EncodeAll(slots: seq<Entry>): (bs: seq<byte>)
    ensures |bs| == RECORD * |slots|
  {
    if slots == [] then [] else EncodeAll(slots[..|slots| - 1]) + Encode(slots[|slots| - 1])
  }

  lemma {:induction false} SlotBytes(slots: seq<Entry>, i: nat)
    requires i < |slots|
    ensures EncodeAll(slots)[RECORD * i..RECORD * i + RECORD] == Encode(slots[i])
  {
    var n := |slots| - 1;
    var init := EncodeAll(slots[..n]);
    if i < n {
      SlotBytes(slots[..n], i);
      assert EncodeAll(slots)[RECORD * i..RECORD * i + RECORD] == init[RECORD * i..RECORD * i + RECORD];
    } else {
      assert |init| == RECORD * i;
    }
  }

  function Decode(record: seq<byte>): Entry
    requires |record| == RECORD
  {
    Entry(Get(record[..8]), Get(record[8..16]), Get(record[16..24]), Get(record[24..28]))
  }

  lemma DecodeEncode(e: Entry)
    requires IsEntry(e)
    ensures Decode(Encode(e)) == e
  {
    var r := Encode(e);
    assert r[..8] == Put(e.ptr, 8) && r[8..16] == Put(e.file, 8);
    assert r[16..24] == Put(e.func, 8) && r[24..28] == Put(e.line, 4);
    Pow256Values();
    GetPut(e.ptr, 8);
    GetPut(e.file, 8);
    GetPut(e.func, 8);
    GetPut(e.line, 4);
  }

  /** Storing into the beginning of a slot changes this slot only. */
  lemma {:induction false} SlotStored(slots: seq<Entry>, i: nat, w: seq<byte>, e: Entry)
    requires i < |slots| && |w| <= RECORD
    requires w + Encode(slots[i])[|w|..] == Encode(e)
    ensures Splice(EncodeAll(slots), RECORD * i, w) == EncodeAll(slots[i := e])
  {
    var n := |slots| - 1;
    var init, last := EncodeAll(slots[..n]), Encode(slots[n]);
    var updated := slots[i := e];
    if i < n {
      SlotStored(slots[..n], i, w, e);
      assert updated[..n] == slots[..n][i := e];
      SpliceLeft(init, last, RECORD * i, w);
    } else {
      assert updated[..n] == slots[..n];
      SpliceRight(init, last, w);
    }
  }

  lemma SpliceLeft(a: seq<byte>, b: seq<byte>, off: nat, w: seq<byte>)
    requires off + |w| <= |a|
    ensures Splice(a + b, off, w) == Splice(a, off, w) + b
  {
  }

  lemma SpliceRight(a: seq<byte>, b: seq<byte>, w: seq<byte>)
    requires |w| <= |b|
    ensures Splice(a + b, |a|, w) == a + (w + b[|w|..])
  {
  }

  /** The stores to the four fields, two by two. */
  lemma {:induction false} EntryStored(slots: seq<Entry>, i: nat, e: Entry)
    requires i < |slots|
    ensures
      var d := Splice(EncodeAll(slots), RECORD * i, Put(e.ptr, 8) + Put(e.file, 8));
      Splice(d, RECORD * i + 16, Put(e.func, 8) + Put(e.line, 4)) == EncodeAll(slots[i := e])
  {
    var v, w := Put(e.ptr, 8) + Put(e.file, 8), Put(e.func, 8) + Put(e.line, 4);
    SpliceNext(EncodeAll(slots), RECORD * i, v, w);
    assert Fields(e) == v + w;
    assert Encode(slots[i])[FIELDS..] == Repeat(0, 4);
    SlotStored(slots, i, Fields(e), e);
  }

  /** The store of a null pointer. */
  lemma EntryCleared(slots: seq<Entry>, i: nat)
    requires i < |slots|
    ensures Splice(EncodeAll(slots), RECORD * i, Put(0, 8)) == EncodeAll(slots[i := slots[i].(ptr := 0)])
  {
    var e := slots[i];
    var rest := Put(e.file, 8) + Put(e.func, 8) + Put(e.line, 4) + Repeat(0, 4);
    assert Encode(e)[8..] == rest;
    assert Encode(e.(ptr := 0)) == Put(0, 8) + rest;
    SlotStored(slots, i, Put(0, 8), e.(ptr := 0));
  }

  lemma EmptyRecord()
    ensures Encode(EMPTY) == Repeat(0, RECORD)
  {
    PutZero(8);
    PutZero(4);
  }

  /** Making room for one more slot keeps all the entries, and the new slot is empty. */
  lemma {:induction false} GrownTable(slots: seq<Entry>)
    ensures Resize(EncodeAll(slots), RECORD * (|slots| + 1)) == EncodeAll(slots + [EMPTY])
  {
    EmptyRecord();
    assert (slots + [EMPTY])[..|slots|] == slots;
  }

  lemma BlockSplice(data: seq<byte>, off: nat, w: seq<byte>)
    requires off + |w| <= |data|
    ensures Splice(Block(data), OFF_HEAD + off, w) == Block(Splice(data, off, w))
  {
    var head := Put(MAGIC_C1, 4) + Put(|data|, 4);
    assert Block(data) == head + (data + [MAGIC_C2]);
    assert Splice(Block(data), OFF_HEAD + off, w) == head + Splice(data + [MAGIC_C2], off, w);
    SpliceLeft(data, [MAGIC_C2], off, w);
  }

  /** struct TRK_obj: the pointer, the file, the function and the line, in that order, and padding. */
  lemma {:induction false} EncodeIs(e: Entry)
    requires IsEntry(e)
    ensures var r := Encode(e);
      && |r| == 32 && Get(r[0..8]) == e.ptr && Get(r[8..16]) == e.file && Get(r[16..24]) == e.func
      && Get(r[24..28]) == e.line
  {
    DecodeEncode(e);
    assert Encode(e)[0..8] == Encode(e)[..8];
  }
}
