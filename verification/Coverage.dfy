/** The coverage map of src/fuzz/afl.py:58-91. */
module Coverage {
  import opened Options

  type Bitmap = seq<bv8>

  function Bit(b: bv8, mask: bv8): nat {
    if b & mask == 0 then 0 else 1
  }

  /** The number of set bits in a byte. */
  function Bits(b: bv8): nat {
    Bit(b, 1) + Bit(b, 2) + Bit(b, 4) + Bit(b, 8) + Bit(b, 16) + Bit(b, 32) + Bit(b, 64) + Bit(b, 128)
  }

  lemma OrAddsBits(b: bv8, t: bv8)
    ensures Bits(b) <= Bits(b | t) <= 8
    ensures b | t != b ==> Bits(b) < Bits(b | t)
  {
  }

  lemma OrLaws(b: bv8, t: bv8, u: bv8)
    ensures (b | t) | u == (b | u) | t
    ensures (b | t) | t == b | t
    ensures b | t == b ==> (b | u) | t == b | u
  {
  }

  function TotalBits(m: Bitmap, n: nat): nat
    requires n <= |m|
  {
    if n == 0 then 0 else TotalBits(m, n - 1) + Bits(m[n - 1])
  }

  /** The union of two maps; bytes of `m` beyond the end of `t` stay. */
  function Join(m: Bitmap, t: Bitmap): (j: Bitmap)
    ensures |j| == |m|
  {
    seq(|m|, i requires 0 <= i < |m| => if i < |t| then m[i] | t[i] else m[i])
  }

  function JoinAll(m: Bitmap, ts: seq<Bitmap>): (j: Bitmap)
    ensures |j| == |m|
  {
    if ts == [] then m else Join(JoinAll(m, ts[..|ts| - 1]), ts[|ts| - 1])
  }

  /** Every bit of t is set in m, as far as m goes. */
  predicate Covers(m: Bitmap, t: Bitmap) {
    forall i :: 0 <= i < |m| && i < |t| ==> m[i] | t[i] == m[i]
  }

  /** AFL stores its maps with all bits flipped. */
  function Flip(file: Bitmap): (m: Bitmap)
    ensures |m| == |file|
  {
    seq(|file|, i requires 0 <= i < |file| => file[i] ^ 255)
  }

  /** How many of the first n bytes of t have a bit that m lacks. */
  function Gain(m: Bitmap, t: Bitmap, n: nat): nat
    requires n <= |m| && n <= |t|
  {
    if n == 0 then 0 else Gain(m, t, n - 1) + if m[n - 1] | t[n - 1] == m[n - 1] then 0 else 1
  }

  // ----- the maps bit by bit

  /** The mask selects one bit of a byte. */
  predicate IsBit(mask: bv8) {
    mask == 1 || mask == 2 || mask == 4 || mask == 8 || mask == 16 || mask == 32 || mask == 64 || mask == 128
  }

  /** The bit of the i-th byte is set, or it is clear; neither, if there is no such byte. */
  predicate Has(m: Bitmap, i: int, mask: bv8) { 0 <= i < |m| && m[i] & mask != 0 }
  predicate Lacks(m: Bitmap, i: int, mask: bv8) { 0 <= i < |m| && m[i] & mask == 0 }

  lemma FlippedBit(b: bv8, mask: bv8)
    requires IsBit(mask)
    ensures (b ^ 255) & mask != 0 <==> b & mask == 0
  {
  }

  lemma {:induction false} BitOfFlip(file: Bitmap, i: int, mask: bv8)
    requires IsBit(mask)
    ensures Has(Flip(file), i, mask) <==> Lacks(file, i, mask)
  {
    if 0 <= i < |file| { FlippedBit(file[i], mask); }
  }

  lemma JoinedBit(b: bv8, t: bv8, mask: bv8)
    ensures (b | t) & mask != 0 <==> b & mask != 0 || t & mask != 0
  {
  }

  lemma {:induction false} BitOfJoin(m: Bitmap, t: Bitmap, i: int, mask: bv8)
    ensures Has(Join(m, t), i, mask) <==> 0 <= i < |m| && (Has(m, i, mask) || Has(t, i, mask))
  {
    if 0 <= i < |m| && i < |t| { JoinedBit(m[i], t[i], mask); }
  }

  /** The i-th byte of t has a bit that m lacks. */
  ghost predicate Gains(m: Bitmap, t: Bitmap, i: int) {
    exists mask :: IsBit(mask) && Has(t, i, mask) && Lacks(m, i, mask)
  }

  predicate IsNew(b: bv8, t: bv8, mask: bv8) { t & mask != 0 && b & mask == 0 }

  lemma NewBit(b: bv8, t: bv8)
    ensures b | t != b <==> exists mask :: IsBit(mask) && IsNew(b, t, mask)
  {
    if b | t != b {
      assert IsNew(b, t, 1) || IsNew(b, t, 2) || IsNew(b, t, 4) || IsNew(b, t, 8) || IsNew(b, t, 16) || IsNew(b, t, 32)
        || IsNew(b, t, 64) || IsNew(b, t, 128);
      assert IsBit(1) && IsBit(2) && IsBit(4) && IsBit(8) && IsBit(16) && IsBit(32) && IsBit(64) && IsBit(128);
    }
    if mask :| IsBit(mask) && IsNew(b, t, mask) { JoinedBit(b, t, mask); }
  }

  lemma {:induction false} GainsIff(m: Bitmap, t: Bitmap, i: nat)
    requires i < |m| && i < |t|
    ensures Gains(m, t, i) <==> m[i] | t[i] != m[i]
  {
    NewBit(m[i], t[i]);
    forall mask ensures IsNew(m[i], t[i], mask) <==> Has(t, i, mask) && Lacks(m, i, mask) { }
  }

  ghost function GainingBytes(m: Bitmap, t: Bitmap, n: nat): set<int> {
    set i | 0 <= i < n && Gains(m, t, i)
  }

  lemma {:induction false} GainingOneMore(m: Bitmap, t: Bitmap, n: nat)
    ensures |GainingBytes(m, t, n + 1)| == |GainingBytes(m, t, n)| + if Gains(m, t, n) then 1 else 0
  {
    assert GainingBytes(m, t, n + 1) == GainingBytes(m, t, n) + if Gains(m, t, n) then {n as int} else {};
  }

  /** What is_interesting counts: the bytes of t that have a bit which m lacks. */
  lemma {:induction false} GainIsCount(m: Bitmap, t: Bitmap, n: nat)
    requires n <= |m| && n <= |t|
    ensures Gain(m, t, n) == |GainingBytes(m, t, n)|
  {
    if n == 0 {
      assert GainingBytes(m, t, 0) == {};
    } else {
      GainIsCount(m, t, n - 1);
      GainsIff(m, t, n - 1);
      GainingOneMore(m, t, n - 1);
    }
  }

  class AFLMap {
    const bitmap: array<bv8>

    /** __init_bitmap, when the file is absent or has the size of the map; see Load for the other case. */
    constructor (size: nat, file: Option<Bitmap>)
      requires file.Some? ==> |file.value| == size
      ensures fresh(bitmap)
      ensures bitmap[..] == if file.Some? then Flip(file.value) else seq(size, i => 0)
      ensures forall i, mask :: 0 <= i < size && IsBit(mask) ==>
        (Has(bitmap[..], i, mask) <==> file.Some? && Lacks(file.value, i, mask))
    {
      bitmap := new bv8[size](i => 0);
      new;
      if file.Some? {
        for idx := 0 to size
          invariant bitmap.Length == size && fresh(bitmap)
          invariant bitmap[..idx] == Flip(file.value)[..idx]
        {
          bitmap[idx] := file.value[idx] ^ 255;
        }
      }
      assert bitmap[..] == bitmap[..size];
      LoadedBits(size, file);
    }

    /** Merge AFL's current map. False: the file is longer than the map and the loop raised an IndexError, after
        it had merged the whole map. */
    method UpdateBitmap(file: Option<Bitmap>) returns (ok: bool)
      modifies bitmap
      ensures ok <==> file.Some? ==> |file.value| <= bitmap.Length
      ensures bitmap[..] == if file.Some? then Join(old(bitmap[..]), Flip(file.value)) else old(bitmap[..])
      ensures forall i, mask :: 0 <= i < bitmap.Length && IsBit(mask) ==>
        (Has(bitmap[..], i, mask) <==> Has(old(bitmap[..]), i, mask) || (file.Some? && Lacks(file.value, i, mask)))
    {
      if file.None? { return true; }
      JoinedBits(bitmap[..], file.value);
      ghost var was, flipped := bitmap[..], Flip(file.value);
      for idx := 0 to |file.value|
        invariant idx <= bitmap.Length && bitmap[..] == Join(was, flipped[..idx])
      {
        if idx >= bitmap.Length {
          JoinBeyond(was, flipped, idx);
          return false;
        }
        JoinOneMore(was, flipped, idx);
        OrByte(idx, file.value[idx] ^ 255);
      }
      assert flipped[..|file.value|] == flipped;
      ok := true;
    }

    method OrByte(idx: nat, b: bv8)
      requires idx < bitmap.Length
      modifies bitmap
      ensures bitmap[..] == old(bitmap[..])[idx := old(bitmap[idx]) | b]
    {
      bitmap[idx] := bitmap[idx] | b;
    }

    /** The body of is_interesting's loop. */
    method MergeByte(idx: nat, b: bv8) returns (changed: bool)
      requires idx < bitmap.Length
      modifies bitmap
      ensures bitmap[..] == old(bitmap[..])[idx := old(bitmap[idx]) | b]
      ensures changed <==> old(bitmap[idx]) | b != old(bitmap[idx])
    {
      var traceByte := bitmap[idx] | b;
      changed := bitmap[idx] != traceByte;
      if changed { bitmap[idx] := traceByte; }
    }

    /** Merge a testcase's map and count the bytes that gained a bit. None: the testcase's map is too short and
        the loop raised an IndexError, after it had merged what there was. */
    method IsInteresting(t: Bitmap) returns (increase: Option<nat>)
      modifies bitmap
      ensures bitmap[..] == Join(old(bitmap[..]), t)
      ensures increase.Some? <==> |t| >= bitmap.Length
      ensures increase.Some? ==> increase.value == Gain(old(bitmap[..]), t, bitmap.Length)
      ensures forall i, mask :: 0 <= i < bitmap.Length && IsBit(mask) ==>
        (Has(bitmap[..], i, mask) <==> Has(old(bitmap[..]), i, mask) || Has(t, i, mask))
      ensures increase.Some? ==> increase.value == |GainingBytes(old(bitmap[..]), t, bitmap.Length)|
    {
      MergedBits(bitmap[..], t);
      if bitmap.Length <= |t| { GainIsCount(bitmap[..], t, bitmap.Length); }
      increase := MergeAll(t);
    }

    method MergeAll(t: Bitmap) returns (increase: Option<nat>)
      modifies bitmap
      ensures bitmap[..] == Join(old(bitmap[..]), t)
      ensures increase.Some? <==> |t| >= bitmap.Length
      ensures increase.Some? ==> increase.value == Gain(old(bitmap[..]), t, bitmap.Length)
    {
      ghost var was := bitmap[..];
      var count := 0;
      for idx := 0 to bitmap.Length
        invariant idx <= |t| && count == Gain(was, t, idx)
        invariant bitmap[..] == Join(was, t[..idx])
      {
        if idx >= |t| {
          assert t[..idx] == t;
          return None;
        }
        JoinOneMore(was, t, idx);
        var changed := MergeByte(idx, t[idx]);
        if changed { count := count + 1; }
      }
      assert Join(was, t) == Join(was, t[..bitmap.Length]);
      increase := Some(count);
    }
  }

  lemma {:induction false} LoadedBits(size: nat, file: Option<Bitmap>)
    ensures var m := if file.Some? then Flip(file.value) else seq(size, i => 0);
      forall i, mask :: 0 <= i < size && IsBit(mask) ==>
        (Has(m, i, mask) <==> file.Some? && Lacks(file.value, i, mask))
  {
    if file.Some? {
      forall i, mask | IsBit(mask) ensures Has(Flip(file.value), i, mask) <==> Lacks(file.value, i, mask) {
        BitOfFlip(file.value, i, mask);
      }
    } else {
      var m: Bitmap := seq(size, i => 0);
      forall i, mask: bv8 | 0 <= i < size ensures !Has(m, i, mask) { NoBit(mask); }
    }
  }

  lemma NoBit(mask: bv8)
    ensures 0 & mask == 0
  {
  }

  lemma {:induction false} JoinedBits(m: Bitmap, file: Bitmap)
    ensures forall i, mask :: 0 <= i < |m| && IsBit(mask) ==>
      (Has(Join(m, Flip(file)), i, mask) <==> Has(m, i, mask) || Lacks(file, i, mask))
  {
    forall i, mask | 0 <= i < |m| && IsBit(mask)
      ensures Has(Join(m, Flip(file)), i, mask) <==> Has(m, i, mask) || Lacks(file, i, mask)
    {
      BitOfJoin(m, Flip(file), i, mask);
      BitOfFlip(file, i, mask);
    }
  }

  lemma {:induction false} MergedBits(m: Bitmap, t: Bitmap)
    ensures forall i, mask :: 0 <= i < |m| && IsBit(mask) ==>
      (Has(Join(m, t), i, mask) <==> Has(m, i, mask) || Has(t, i, mask))
  {
    forall i, mask | 0 <= i < |m| && IsBit(mask)
      ensures Has(Join(m, t), i, mask) <==> Has(m, i, mask) || Has(t, i, mask)
    {
      BitOfJoin(m, t, i, mask);
    }
  }

  lemma JoinBeyond(m: Bitmap, t: Bitmap, idx: nat)
    requires |m| <= idx <= |t|
    ensures Join(m, t[..idx]) == Join(m, t)
  {
  }

  lemma JoinOneMore(m: Bitmap, t: Bitmap, idx: nat)
    requires idx < |t| && idx < |m|
    ensures Join(m, t[..idx + 1]) == Join(m, t[..idx])[idx := m[idx] | t[idx]]
    ensures Join(m, t[..idx])[idx] == m[idx]
  {
  }

  /** AFLMap(file). Null: the file does not have the size of the map, and the assertion fails. */
  method Load(size: nat, file: Option<Bitmap>) returns (m: AFLMap?)
    ensures m == null <==> file.Some? && |file.value| != size
    ensures m != null ==> fresh(m.bitmap) && m.bitmap[..] == if file.Some? then Flip(file.value) else seq(size, i => 0)
    ensures m != null ==> forall i, mask :: 0 <= i < size && IsBit(mask) ==>
      (Has(m.bitmap[..], i, mask) <==> file.Some? && Lacks(file.value, i, mask))
  {
    if file.Some? && |file.value| != size { return null; }
    m := new AFLMap(size, file);
  }

  /** Nothing is gained exactly when the map covers the testcase, and exactly then the map stays as it is. */
  lemma {:induction false} NoGainIff(m: Bitmap, t: Bitmap, n: nat)
    requires n <= |m| <= |t|
    ensures Gain(m, t, n) == 0 <==> forall i :: 0 <= i < n ==> m[i] | t[i] == m[i]
    ensures Gain(m, t, |m|) == 0 && n == |m| ==> Join(m, t) == m
  {
    if n > 0 { NoGainIff(m, t, n - 1); }
  }

  /** Every byte counted as gained is paid for by a bit that is set from now on. */
  lemma {:induction false} GainCostsBits(m: Bitmap, t: Bitmap, n: nat)
    requires n <= |m| <= |t|
    ensures TotalBits(m, n) + Gain(m, t, n) <= TotalBits(Join(m, t), n)
  {
    if n > 0 {
      GainCostsBits(m, t, n - 1);
      OrAddsBits(m[n - 1], t[n - 1]);
    }
  }

  lemma JoinKeepsByte(m: Bitmap, t: Bitmap, i: nat)
    requires i < |m|
    ensures Bits(m[i]) <= Bits(Join(m, t)[i])
  {
    if i < |t| { OrAddsBits(m[i], t[i]); }
  }

  lemma {:induction false} JoinKeepsBits(m: Bitmap, t: Bitmap, n: nat)
    requires n <= |m|
    ensures TotalBits(m, n) <= TotalBits(Join(m, t), n)
  {
    if n > 0 {
      JoinKeepsBits(m, t, n - 1);
      JoinKeepsByte(m, t, n - 1);
    }
  }

  lemma {:induction false} BitsBounded(m: Bitmap, n: nat)
    requires n <= |m|
    ensures TotalBits(m, n) <= 8 * n
  {
    if n > 0 {
      BitsBounded(m, n - 1);
      OrAddsBits(m[n - 1], 0);
    }
  }

  lemma JoinCommutes(m: Bitmap, t: Bitmap, u: Bitmap)
    ensures Join(Join(m, t), u) == Join(Join(m, u), t)
  {
    forall i | 0 <= i < |m| ensures Join(Join(m, t), u)[i] == Join(Join(m, u), t)[i] {
      if i < |t| && i < |u| { OrLaws(m[i], t[i], u[i]); }
    }
  }

  lemma CoveredStaysCovered(m: Bitmap, t: Bitmap, u: Bitmap)
    requires Covers(m, t)
    ensures Covers(Join(m, u), t)
  {
    forall i | 0 <= i < |m| && i < |t| ensures Join(m, u)[i] | t[i] == Join(m, u)[i] {
      if i < |u| { OrLaws(m[i], t[i], u[i]); }
    }
  }

  lemma JoinCovers(m: Bitmap, t: Bitmap)
    ensures Covers(Join(m, t), t)
  {
    forall i | 0 <= i < |m| && i < |t| ensures Join(m, t)[i] | t[i] == Join(m, t)[i] { OrLaws(m[i], t[i], 0); }
  }

  lemma {:induction false} JoinAllCommutes(m: Bitmap, t: Bitmap, us: seq<Bitmap>)
    ensures JoinAll(Join(m, t), us) == Join(JoinAll(m, us), t)
  {
    if us != [] {
      JoinAllCommutes(m, t, us[..|us| - 1]);
      JoinCommutes(JoinAll(m, us[..|us| - 1]), t, us[|us| - 1]);
    }
  }
}
