/** The table of one bucket of the leak tracker in trace/include/alloc-inl.h, and what it says about the calls that
    were tracked. */
module SlotTable {

  /** TRK_obj; pointers and strings are addresses. */
  datatype Entry = Entry(ptr: nat, file: nat, func: nat, line: nat)

  /** A tracked allocation or release. */
  datatype Op = Add(entry: Entry) | Drop(ptr: nat)

  const BUCKETS: nat := 4096

  function Pow2(k: nat): (p: nat)
    ensures p > 0
  {
    if k == 0 then 1 else 2 * Pow2(k - 1)
  }

  lemma Pow2Values()
    ensures Pow2(12) == 4096
  {
    assert Pow2(4) == 16 && Pow2(8) == 256 && Pow2(12) == 4096;
  }

  /** The low k bits of a ^ b. */
  function Xor(a: nat, b: nat, k: nat): (x: nat)
    ensures x < Pow2(k)
  {
    if k == 0 then 0 else 2 * Xor(a / 2, b / 2, k - 1) + if a % 2 == b % 2 then 0 else 1
  }

  /** TRKH: of (p >> 16) ^ p, modulo 4096, only the low 12 bits count. */
  function Hash(ptr: nat): (b: nat)
    ensures b < BUCKETS
  {
    Pow2Values();
    Xor(ptr / 0x1_0000, ptr, 12)
  }

  /** The first slot with the pointer, or the number of slots. */
  function Find(slots: seq<Entry>, ptr: nat): (k: nat)
    ensures k <= |slots| && (k < |slots| ==> slots[k].ptr == ptr)
    ensures forall i :: 0 <= i < k ==> slots[i].ptr != ptr
  {
    if slots == [] || slots[0].ptr == ptr then 0 else 1 + Find(slots[1..], ptr)
  }

  /** TRK_alloc_buf: take the first empty slot, or add one. */
  function Insert(slots: seq<Entry>, e: Entry): seq<Entry> {
    var k := Find(slots, 0);
    if k < |slots| then slots[k := e] else slots + [e]
  }

  /** TRK_free_buf: empty the first slot with the pointer; if there is none a warning is all that happens. */
  function Remove(slots: seq<Entry>, ptr: nat): seq<Entry> {
    var k := Find(slots, ptr);
    if k < |slots| then slots[k := slots[k].(ptr := 0)] else slots
  }

  function Ptrs(slots: seq<Entry>): (ps: seq<nat>)
    ensures |ps| == |slots|
  {
    seq(|slots|, i requires 0 <= i < |slots| => slots[i].ptr)
  }

  /** The pointers in the slots that are not empty. */
  function Live(slots: seq<Entry>): multiset<nat> {
    multiset(Ptrs(slots))[0 := 0]
  }

  function SlotsAfter(ops: seq<Op>): seq<Entry> {
    if ops == [] then []
    else
      var init, last := SlotsAfter(ops[..|ops| - 1]), ops[|ops| - 1];
      match last
      case Add(e) => Insert(init, e)
      case Drop(p) => Remove(init, p)
  }

  /** What is live, said without slots. */
  function LiveAfter(ops: seq<Op>): multiset<nat> {
    if ops == [] then multiset{}
    else
      var init, last := LiveAfter(ops[..|ops| - 1]), ops[|ops| - 1];
      match last
      case Add(e) => init + multiset{e.ptr}
      case Drop(p) => init - multiset{p}
  }

  /** The most that was ever live at a time. */
  function Peak(ops: seq<Op>): nat {
    if ops == [] then 0
    else
      var before, now := Peak(ops[..|ops| - 1]), |LiveAfter(ops)|;
      if before < now then now else before
  }

  function PtrOf(op: Op): nat {
    if op.Add? then op.entry.ptr else op.ptr
  }

  lemma LiveSize(slots: seq<Entry>)
    ensures |Live(slots)| == |slots| - multiset(Ptrs(slots))[0]
    ensures Find(slots, 0) < |slots| <==> |Live(slots)| < |slots|
  {
    if Find(slots, 0) < |slots| { assert Ptrs(slots)[Find(slots, 0)] == 0; }
    if 0 in multiset(Ptrs(slots)) { assert 0 in Ptrs(slots); }
  }

  lemma LiveContains(slots: seq<Entry>, ptr: nat)
    requires ptr != 0
    ensures ptr in Live(slots) <==> Find(slots, ptr) < |slots|
  {
    if Find(slots, ptr) < |slots| { assert Ptrs(slots)[Find(slots, ptr)] == ptr; }
    if ptr in Live(slots) { assert ptr in Ptrs(slots); }
  }

  lemma InsertLive(slots: seq<Entry>, e: Entry)
    requires e.ptr != 0
    ensures Live(Insert(slots, e)) == Live(slots) + multiset{e.ptr}
    ensures |Insert(slots, e)| == if |Live(slots)| < |slots| then |slots| else |slots| + 1
  {
    LiveSize(slots);
    var k := Find(slots, 0);
    if k < |slots| {
      assert Ptrs(Insert(slots, e)) == Ptrs(slots)[k := e.ptr];
    } else {
      assert Ptrs(Insert(slots, e)) == Ptrs(slots) + [e.ptr];
    }
  }

  lemma RemoveLive(slots: seq<Entry>, ptr: nat)
    requires ptr != 0
    ensures Live(Remove(slots, ptr)) == Live(slots) - multiset{ptr}
  {
    LiveContains(slots, ptr);
    var k := Find(slots, ptr);
    if k < |slots| { assert Ptrs(Remove(slots, ptr)) == Ptrs(slots)[k := 0]; }
  }

  /** Whatever is tracked, in whatever order and however often: the slots that are not empty hold exactly the
      live pointers, each as often as it is live, and there are as many slots as pointers were ever live at a
      time. */
  lemma {:induction false} TableIsIndex(ops: seq<Op>)
    requires forall i :: 0 <= i < |ops| ==> PtrOf(ops[i]) != 0
    ensures Live(SlotsAfter(ops)) == LiveAfter(ops)
    ensures |SlotsAfter(ops)| == Peak(ops)
  {
    if ops != [] {
      var init, last := ops[..|ops| - 1], ops[|ops| - 1];
      TableIsIndex(init);
      assert PtrOf(last) != 0;
      LiveSize(SlotsAfter(init));
      if last.Add? {
        InsertLive(SlotsAfter(init), last.entry);
      } else {
        RemoveLive(SlotsAfter(init), last.ptr);
      }
    }
  }

  /** The operations on pointers of one bucket. */
  function InBucket(ops: seq<Op>, b: nat): seq<Op> {
    if ops == [] then []
    else
      var init, last := InBucket(ops[..|ops| - 1], b), ops[|ops| - 1];
      if Hash(PtrOf(last)) == b then init + [last] else init
  }

  lemma {:induction false} InBucketPointers(ops: seq<Op>, b: nat)
    requires forall i :: 0 <= i < |ops| ==> PtrOf(ops[i]) != 0
    ensures forall i :: 0 <= i < |InBucket(ops, b)| ==> PtrOf(InBucket(ops, b)[i]) != 0
  {
    if ops != [] {
      InBucketPointers(ops[..|ops| - 1], b);
      assert PtrOf(ops[|ops| - 1]) != 0;
    }
  }

  /** How often a pointer is live after one more operation. */
  function Changed(n: nat, op: Op, ptr: nat): nat {
    if PtrOf(op) != ptr then n
    else if op.Add? then n + 1
    else if n == 0 then 0
    else n - 1
  }

  lemma {:induction false} LiveChanges(ops: seq<Op>, op: Op, ptr: nat)
    ensures LiveAfter(ops + [op])[ptr] == Changed(LiveAfter(ops)[ptr], op, ptr)
  {
    assert (ops + [op])[..|ops|] == ops;
  }

  /** A bucket knows the live pointers that hash to it, and no others. */
  lemma {:induction false} BucketLive(ops: seq<Op>, b: nat, ptr: nat)
    ensures LiveAfter(InBucket(ops, b))[ptr] == if Hash(ptr) == b then LiveAfter(ops)[ptr] else 0
  {
    if ops != [] {
      var init, last := ops[..|ops| - 1], ops[|ops| - 1];
      BucketLive(init, b, ptr);
      assert ops == init + [last];
      LiveChanges(init, last, ptr);
      LiveChanges(InBucket(init, b), last, ptr);
    }
  }

  /** The i-th bit of a number. */
  function BitOf(n: nat, i: nat): nat {
    if i == 0 then n % 2 else BitOf(n / 2, i - 1)
  }

  lemma {:induction false} XorBit(a: nat, b: nat, k: nat, i: nat)
    requires i < k
    ensures BitOf(Xor(a, b, k), i) == if BitOf(a, i) == BitOf(b, i) then 0 else 1
  {
    var x := Xor(a, b, k);
    assert x / 2 == Xor(a / 2, b / 2, k - 1) && x % 2 == if a % 2 == b % 2 then 0 else 1;
    if i > 0 { XorBit(a / 2, b / 2, k - 1, i - 1); }
  }

  /** n >> k */
  function Shift(n: nat, k: nat): nat {
    if k == 0 then n else Shift(n / 2, k - 1)
  }

  lemma {:induction false} BitShift(n: nat, i: nat, k: nat)
    ensures BitOf(Shift(n, k), i) == BitOf(n, i + k)
  {
    if k > 0 { BitShift(n / 2, i, k - 1); }
  }

  lemma {:induction false} ShiftTwice(n: nat, j: nat, k: nat)
    ensures Shift(n, j + k) == Shift(Shift(n, j), k)
  {
    if j > 0 { ShiftTwice(n / 2, j - 1, k); }
  }

  lemma ShiftFour(n: nat)
    ensures Shift(n, 4) == n / 16
  {
    var a := n / 2;
    var b := a / 2;
    var c := b / 2;
    assert Shift(n, 4) == Shift(a, 3) && Shift(a, 3) == Shift(b, 2) && Shift(b, 2) == Shift(c, 1);
    assert Shift(c, 1) == Shift(c / 2, 0) == c / 2;
    assert c / 2 == n / 16;
  }

  lemma ShiftEight(n: nat)
    ensures Shift(n, 8) == n / 256
  {
    ShiftTwice(n, 4, 4);
    ShiftFour(n);
    ShiftFour(n / 16);
    assert n / 16 / 16 == n / 256;
  }

  lemma ShiftSixteen(n: nat)
    ensures Shift(n, 16) == n / 0x1_0000
  {
    ShiftTwice(n, 8, 8);
    ShiftEight(n);
    ShiftEight(n / 256);
    assert n / 256 / 256 == n / 0x1_0000;
  }

  /** TRKH, bit by bit: the low 12 bits of p ^ (p >> 16). */
  lemma {:induction false} HashBit(ptr: nat, i: nat)
    requires i < 12
    ensures Hash(ptr) < 4096 == BUCKETS && BitOf(Hash(ptr), i) == if BitOf(ptr, i) == BitOf(ptr, i + 16) then 0 else 1
  {
    Pow2Values();
    XorBit(ptr / 0x1_0000, ptr, 12, i);
    ShiftSixteen(ptr);
    BitShift(ptr, i, 16);
  }

  /** How many pointers are live after the first n calls. */
  function LiveCount(ops: seq<Op>, n: nat): nat
    requires n <= |ops|
  {
    |LiveAfter(ops[..n])|
  }

  lemma PeakStep(ops: seq<Op>)
    requires ops != []
    ensures var n := |ops| - 1;
      Peak(ops) == if Peak(ops[..n]) < LiveCount(ops, |ops|) then LiveCount(ops, |ops|) else Peak(ops[..n])
  {
    assert ops[..|ops|] == ops;
  }

  lemma LiveCountEarlier(ops: seq<Op>, n: nat)
    requires n < |ops|
    ensures LiveCount(ops[..|ops| - 1], n) == LiveCount(ops, n)
  {
    assert ops[..|ops| - 1][..n] == ops[..n];
  }

  /** The peak is a number of live pointers at some time ... */
  lemma {:induction false} PeakIsReached(ops: seq<Op>) returns (n: nat)
    ensures n <= |ops| && Peak(ops) == LiveCount(ops, n)
  {
    if ops == [] {
      n := 0;
    } else {
      n := PeakIsReached(ops[..|ops| - 1]);
      LiveCountEarlier(ops, n);
      PeakStep(ops);
      if Peak(ops) != Peak(ops[..|ops| - 1]) { n := |ops|; }
    }
  }

  /** ... and the largest one. */
  lemma {:induction false} PeakIsLargest(ops: seq<Op>, n: nat)
    requires n <= |ops|
    ensures LiveCount(ops, n) <= Peak(ops)
  {
    if ops != [] {
      PeakStep(ops);
      if n < |ops| {
        PeakIsLargest(ops[..|ops| - 1], n);
        LiveCountEarlier(ops, n);
      }
    }
  }
}
