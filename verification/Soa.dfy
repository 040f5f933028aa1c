/**
 The structure-of-arrays front end: presence masks, string and boolean columns and struct groups made
 into Arrow arrays, and what the writer makes of them.
 */
module Soa {
  import opened Bits
  import opened PlainValues

  /** A column's or a group's presence: a bitmap, if any, and how many nulls it is said to have. */
  datatype Validity = Validity(bitmap: Option<bytes>, nullCount: int)

  // ---- presence masks -------------------------------------------------------------------------

  /** The bitmap for `n` rows after the first `k` of a mask, as far as the bitmap goes. */
  function MaskBits(mask: seq<bool>, n: nat, k: nat): (bm: bytes)
    requires k <= |mask|
    ensures |bm| == (n + 7) / 8
  {
    if k == 0 then Zeros(n) else
      var bm := MaskBits(mask, n, k - 1);
      if mask[k - 1] && k - 1 < 8 * |bm| then SetBit(bm, k - 1) else bm
  }

  function MaskNulls(mask: seq<bool>, k: nat): nat
    requires k <= |mask|
  {
    if k == 0 then 0 else MaskNulls(mask, k - 1) + if mask[k - 1] then 0 else 1
  }

  /** `present`; with `n == |mask|` also `group_present`. */
  method PresentMask(mask: seq<bool>, n: nat) returns (bits: array<byte>, nulls: nat)
    ensures fresh(bits) && bits[..] == MaskBits(mask, n, Min(n, |mask|)) && nulls == MaskNulls(mask, Min(n, |mask|))
  {
    bits := new byte[(n + 7) / 8](_ => 0);
    nulls := 0;
    assert bits[..] == Zeros(n);
    var i := 0;
    while i < |mask| && i < n
      invariant 0 <= i <= |mask| && i <= n
      invariant bits[..] == MaskBits(mask, n, i) && nulls == MaskNulls(mask, i)
    {
      if mask[i] {
        bits[i / 8] := ByteWithBit(bits[i / 8], i % 8);
        assert bits[..] == SetBit(MaskBits(mask, n, i), i);
      } else {
        nulls := nulls + 1;
      }
      i := i + 1;
    }
  }

  /** No true value lies beyond the bytes for `n` rows; a false one is not written at all. */
  predicate BoolsInside(vs: seq<bool>, n: nat) {
    forall i :: 8 * ((n + 7) / 8) <= i < |vs| ==> !vs[i]
  }

  /** The boolean part of `build_node`: the bytes are for `n` rows, however many values there are. */
  method PackBools(vs: seq<bool>, n: nat) returns (packed: array<byte>, inside: bool)
    ensures fresh(packed) && inside == BoolsInside(vs, n)
    ensures inside ==> packed[..] == MaskBits(vs, n, |vs|)
  {
    packed := new byte[(n + 7) / 8](_ => 0);
    assert packed[..] == Zeros(n);
    var i := 0;
    while i < |vs|
      invariant 0 <= i <= |vs| && packed[..] == MaskBits(vs, n, i)
      invariant forall k :: 8 * packed.Length <= k < i ==> !vs[k]
    {
      if vs[i] {
        if i / 8 >= packed.Length { return packed, false; }
        packed[i / 8] := ByteWithBit(packed[i / 8], i % 8);
        assert packed[..] == SetBit(MaskBits(vs, n, i), i);
      }
      i := i + 1;
    }
    return packed, true;
  }

  lemma {:induction false} MaskBitsAt(mask: seq<bool>, n: nat, k: nat)
    requires k <= |mask|
    ensures forall j :: 0 <= j < 8 * |MaskBits(mask, n, k)| ==> Bit(MaskBits(mask, n, k), j) == (j < k && mask[j])
  {
    if k > 0 {
      MaskBitsAt(mask, n, k - 1);
      if k - 1 < 8 * |MaskBits(mask, n, k - 1)| { SetBitSets(MaskBits(mask, n, k - 1), k - 1); }
    }
  }

  lemma {:induction false} MaskCount(mask: seq<bool>, k: nat, bm: bytes, m: nat)
    requires k <= |mask| && m <= 8 * |bm| && forall j :: 0 <= j < 8 * |bm| ==> Bit(bm, j) == (j < k && mask[j])
    ensures |Selected(Some(bm), m)| + MaskNulls(mask, Min(m, k)) == Min(m, k)
  {
    if m > 0 {
      MaskCount(mask, k, bm, m - 1);
      assert Bit(bm, m - 1) == (m - 1 < k && mask[m - 1]);
    }
  }

  /** The nulls and the bits set add up to the rows exactly if the mask is as long as the column. */
  lemma {:induction false} PresentCounts(mask: seq<bool>, n: nat)
    ensures var k := Min(n, |mask|);
      Popcount(MaskBits(mask, n, k), n) + MaskNulls(mask, k) == n <==> |mask| >= n
  {
    var k := Min(n, |mask|);
    MaskBitsAt(mask, n, k);
    MaskCount(mask, k, MaskBits(mask, n, k), n);
  }

  lemma {:induction false} NoneAbsent(mask: seq<bool>, k: nat, i: nat)
    requires i < k <= |mask| && MaskNulls(mask, k) == 0
    ensures mask[i]
  {
    if i < k - 1 { NoneAbsent(mask, k - 1, i); }
  }

  /** A null count of 0 means what it says. */
  ghost predicate Honest(v: Validity, n: nat) {
    Covers(v.bitmap, n) && (v.nullCount == 0 ==> forall i :: 0 <= i < n ==> ValidBit(v.bitmap, i))
  }

  /** A mask as long as the column gives an honest presence in which row `i` is null exactly if masked out. */
  lemma {:induction false} MaskIsHonest(mask: seq<bool>, n: nat)
    requires n <= |mask|
    ensures var v := Validity(Some(MaskBits(mask, n, n)), MaskNulls(mask, n));
      Honest(v, n) && forall i :: 0 <= i < n ==> ValidBit(v.bitmap, i) == mask[i]
  {
    MaskBitsAt(mask, n, n);
    if MaskNulls(mask, n) == 0 {
      forall i | 0 <= i < n ensures mask[i] { NoneAbsent(mask, n, i); }
    }
  }

  // ---- strings --------------------------------------------------------------------------------

  /** One past the largest offset. */
  function Limit(large: bool): int { if large then 0x8000_0000_0000_0000 else 0x8000_0000 }

  /**
   An offset as 32 or 64 signed bits hold it. The running offset's addition is undefined in C++ when
   it overflows 64 bits, and wraps here; below the limit there is no difference.
   */
  function Wrap(v: int, large: bool): (w: int)
    ensures -Limit(large) <= w < Limit(large)
    ensures -Limit(large) <= v < Limit(large) ==> w == v
  {
    if large then (v + 0x8000_0000_0000_0000) % 0x1_0000_0000_0000_0000 - 0x8000_0000_0000_0000
    else (v + 0x8000_0000) % 0x1_0000_0000 - 0x8000_0000
  }

  function NextOffset(cur: int, size: nat, large: bool): int {
    Wrap(cur + Wrap(size, large), large)
  }

  /** The bytes of the first `k` strings that are present. */
  function StringData(vs: seq<bytes>, validity: Option<bytes>, k: nat): bytes
    requires k <= |vs| && Covers(validity, k)
  {
    if k == 0 then [] else
      var d := StringData(vs, validity, k - 1);
      if ValidBit(validity, k - 1) then d + vs[k - 1] else d
  }

  function StringOffsets(vs: seq<bytes>, validity: Option<bytes>, large: bool, k: nat): (off: seq<int>)
    requires k <= |vs| && Covers(validity, k)
    ensures |off| == k + 1
  {
    if k == 0 then [0] else
      var off := StringOffsets(vs, validity, large, k - 1);
      off + [if ValidBit(validity, k - 1) then NextOffset(off[k - 1], |vs[k - 1]|, large) else off[k - 1]]
  }

  /** The offsets that a column of fewer than `n` strings leaves at their initial 0. */
  function Unwritten(k: nat, n: nat): (off: seq<int>)
    requires k <= n
    ensures |off| == n - k
  {
    seq(n - k, _ => 0)
  }

  /**
   The string part of `build_node`: the offsets are for `n` rows, however many strings there are. An
   absent string takes no room.
   */
  method BuildStrings(vs: seq<bytes>, validity: Option<bytes>, large: bool, n: nat) returns (off: array<int>, dat: bytes, inside: bool)
    requires Covers(validity, |vs|)
    ensures fresh(off) && inside == (|vs| <= n)
    ensures inside ==> off[..] == StringOffsets(vs, validity, large, |vs|) + Unwritten(|vs|, n) && dat == StringData(vs, validity, |vs|)
  {
    off := new int[n + 1](_ => 0);
    dat := [];
    var i := 0;
    while i < |vs| && i < n
      invariant 0 <= i <= |vs| && i <= n && off.Length == n + 1
      invariant off[..i + 1] == StringOffsets(vs, validity, large, i) && dat == StringData(vs, validity, i)
      invariant forall j :: i < j <= n ==> off[j] == 0
    {
      dat := PutString(vs, validity, large, off, dat, i);
      i := i + 1;
    }
    inside := i == |vs|;
    assert off[i + 1..] == Unwritten(i, n);
    assert off[..] == off[..i + 1] + off[i + 1..];
  }

  /** One more string; its end is the next offset. */
  method PutString(vs: seq<bytes>, validity: Option<bytes>, large: bool, off: array<int>, dat: bytes, i: nat) returns (more: bytes)
    requires i < |vs| && i + 1 < off.Length && Covers(validity, |vs|)
    requires off[..i + 1] == StringOffsets(vs, validity, large, i) && dat == StringData(vs, validity, i)
    modifies off
    ensures off[..i + 2] == StringOffsets(vs, validity, large, i + 1) && more == StringData(vs, validity, i + 1)
    ensures forall j :: i + 1 < j < off.Length ==> off[j] == old(off[j])
  {
    var cur := off[i];
    more := dat;
    if ValidBit(validity, i) {
      more := dat + vs[i];
      cur := NextOffset(cur, |vs[i]|, large);
    }
    off[i + 1] := cur;
    assert off[..i + 2] == old(off[..i + 1]) + [cur];
  }

  /** Every offset is the size of the data before it. */
  ghost predicate Exact(vs: seq<bytes>, validity: Option<bytes>, large: bool, n: nat)
    requires n <= |vs| && Covers(validity, n)
  {
    forall k :: 0 <= k <= n ==> OffsetIs(StringOffsets(vs, validity, large, n), k, |StringData(vs, validity, k)|)
  }

  predicate OffsetIs(off: seq<int>, k: nat, size: nat)
    requires k < |off|
  {
    off[k] == size
  }

  lemma {:induction false} OffsetRange(vs: seq<bytes>, validity: Option<bytes>, large: bool, n: nat, k: nat)
    requires n <= |vs| && Covers(validity, n) && k <= n
    ensures StringOffsets(vs, validity, large, n)[k] < Limit(large)
  {
    if 0 < n && k < n { OffsetRange(vs, validity, large, n - 1, k); }
    if 0 < n && k == n { OffsetRange(vs, validity, large, n - 1, n - 1); }
  }

  lemma {:induction false} OffsetExact(vs: seq<bytes>, validity: Option<bytes>, large: bool, n: nat, k: nat)
    requires k <= n <= |vs| && Covers(validity, n) && |StringData(vs, validity, n)| < Limit(large)
    ensures StringOffsets(vs, validity, large, n)[k] == |StringData(vs, validity, k)|
  {
    if n > 0 {
      OffsetExact(vs, validity, large, n - 1, if k < n then k else n - 1);
    }
  }

  /** The offsets are right exactly if all the string data is within the offset type. */
  lemma {:induction false} OffsetsExactIff(vs: seq<bytes>, validity: Option<bytes>, large: bool, n: nat)
    requires n <= |vs| && Covers(validity, n)
    ensures Exact(vs, validity, large, n) <==> |StringData(vs, validity, n)| < Limit(large)
  {
    if |StringData(vs, validity, n)| < Limit(large) {
      forall k | 0 <= k <= n ensures OffsetIs(StringOffsets(vs, validity, large, n), k, |StringData(vs, validity, k)|) {
        OffsetExact(vs, validity, large, n, k);
      }
    } else {
      OffsetRange(vs, validity, large, n, n);
      assert !OffsetIs(StringOffsets(vs, validity, large, n), n, |StringData(vs, validity, n)|);
    }
  }

  lemma {:induction false} DataGrows(vs: seq<bytes>, validity: Option<bytes>, k: nat, n: nat)
    requires k <= n <= |vs| && Covers(validity, n)
    ensures |StringData(vs, validity, k)| <= |StringData(vs, validity, n)|
    ensures StringData(vs, validity, n)[..|StringData(vs, validity, k)|] == StringData(vs, validity, k)
  {
    if k < n { DataGrows(vs, validity, k, n - 1); }
  }

  /** Such offsets never step back, stay inside the data, and give each present string back. */
  lemma {:induction false} StringsRead(vs: seq<bytes>, validity: Option<bytes>, large: bool, n: nat)
    requires n <= |vs| && Covers(validity, n) && |StringData(vs, validity, n)| < Limit(large)
    ensures var off, dat := StringOffsets(vs, validity, large, n), StringData(vs, validity, n);
      && (forall i :: 0 <= i < n ==> InOrder(off, i, |dat|))
      && forall i :: 0 <= i < n && ValidBit(validity, i) ==> StringAt(off, dat, n, i) == vs[i]
  {
    var off, dat := StringOffsets(vs, validity, large, n), StringData(vs, validity, n);
    forall i | 0 <= i < n
      ensures InOrder(off, i, |dat|) && (ValidBit(validity, i) ==> dat[off[i]..off[i + 1]] == vs[i])
    {
      StringReads(vs, validity, large, n, i);
    }
  }

  lemma {:induction false} StringReads(vs: seq<bytes>, validity: Option<bytes>, large: bool, n: nat, i: nat)
    requires i < n <= |vs| && Covers(validity, n) && |StringData(vs, validity, n)| < Limit(large)
    ensures var off, dat := StringOffsets(vs, validity, large, n), StringData(vs, validity, n);
      InOrder(off, i, |dat|) && (ValidBit(validity, i) ==> dat[off[i]..off[i + 1]] == vs[i])
  {
    OffsetExact(vs, validity, large, n, i);
    OffsetExact(vs, validity, large, n, i + 1);
    DataGrows(vs, validity, i, n);
    DataGrows(vs, validity, i + 1, n);
    DataGrows(vs, validity, i, i + 1);
    var dat, upto, before := StringData(vs, validity, n), StringData(vs, validity, i + 1), StringData(vs, validity, i);
    if ValidBit(validity, i) {
      assert upto == before + vs[i];
      assert dat[|before|..|upto|] == dat[..|upto|][|before|..];
    }
  }
}
