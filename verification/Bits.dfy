/**
 Bytes, and bitmaps packed least significant bit first, as Arrow validity buffers, Arrow and
 Parquet booleans, and the writer's own presence maps all are.
 */
module Bits {

  datatype Option<+T> = None | Some(value: T)

  type byte = b: int | 0 <= b < 256
  type bytes = seq<byte>

  function Min(a: int, b: int): int { if a < b then a else b }

  function Pow2(n: nat): (p: nat)
    ensures p > 0
  {
    if n == 0 then 1 else 2 * Pow2(n - 1)
  }

  /** `(b >> k) & 1` */
  predicate BitOf(b: nat, k: nat) {
    if k == 0 then b % 2 == 1 else BitOf(b / 2, k - 1)
  }

  const PLACES: seq<nat> := [1, 2, 4, 8, 16, 32, 64, 128]

  /** That bit is the parity of the number of whole times that its place value goes into the byte. */
  lemma {:induction false} BitOfPlace(b: nat, k: nat)
    requires k < 8
    ensures BitOf(b, k) == (b / PLACES[k] % 2 == 1)
  {
    if k > 0 {
      BitOfPlace(b / 2, k - 1);
      assert b / 2 / PLACES[k - 1] == b / PLACES[k];
    }
  }

  /** `b | (1 << k)` */
  function WithBit(b: nat, k: nat): nat {
    if k == 0 then
      if b % 2 == 1 then b else b + 1
    else
      2 * WithBit(b / 2, k - 1) + b % 2
  }

  lemma {:induction false} WithBitSets(b: nat, k: nat, j: nat)
    ensures BitOf(WithBit(b, k), j) == (j == k || BitOf(b, j))
  {
    if k > 0 && j > 0 {
      WithBitSets(b / 2, k - 1, j - 1);
    }
  }

  lemma {:induction false} WithBitStays(b: nat, k: nat, width: nat)
    requires k < width && b < Pow2(width)
    ensures WithBit(b, k) < Pow2(width)
  {
    assert Pow2(width) == 2 * Pow2(width - 1);
    if k > 0 {
      WithBitStays(b / 2, k - 1, width - 1);
      Doubled(WithBit(b / 2, k - 1), b % 2, Pow2(width - 1));
    } else {
      Doubled(b / 2, 1, Pow2(width - 1));
    }
  }

  lemma {:induction false} Doubled(x: nat, bit: nat, p: nat)
    requires x < p && bit < 2
    ensures 2 * x + bit < 2 * p
  {
  }

  lemma {:induction false} ZeroHasNoBits(k: nat)
    ensures !BitOf(0, k)
  {
    if k > 0 { ZeroHasNoBits(k - 1); }
  }

  function ByteWithBit(b: byte, k: nat): byte
    requires k < 8
  {
    WithBitStays(b, k, 8);
    WithBit(b, k)
  }

  predicate Bit(bm: bytes, i: nat)
    requires i < 8 * |bm|
  {
    BitOf(bm[i / 8], i % 8)
  }

  /** Bitmaps are packed least significant bit first. */
  lemma {:induction false} BitIs(bm: bytes, i: nat)
    requires i < 8 * |bm|
    ensures Bit(bm, i) == (bm[i / 8] / PLACES[i % 8] % 2 == 1)
  {
    BitOfPlace(bm[i / 8], i % 8);
  }

  function SetBit(bm: bytes, i: nat): (r: bytes)
    requires i < 8 * |bm|
    ensures |r| == |bm|
  {
    bm[i / 8 := ByteWithBit(bm[i / 8], i % 8)]
  }

  lemma {:induction false} SetBitSets(bm: bytes, i: nat)
    requires i < 8 * |bm|
    ensures forall j :: 0 <= j < 8 * |bm| ==> Bit(SetBit(bm, i), j) == (j == i || Bit(bm, j))
  {
    forall j | 0 <= j < 8 * |bm| ensures Bit(SetBit(bm, i), j) == (j == i || Bit(bm, j)) {
      if j / 8 == i / 8 { WithBitSets(bm[i / 8], i % 8, j % 8); }
    }
  }

  /** A bitmap of zeros for `n` bits, `(n + 7) / 8` bytes. */
  function Zeros(n: nat): (bm: bytes)
    ensures |bm| == (n + 7) / 8 && n <= 8 * |bm|
    ensures forall j :: 0 <= j < 8 * |bm| ==> !Bit(bm, j)
  {
    var bm: bytes := seq((n + 7) / 8, _ => 0);
    assert forall j :: 0 <= j < 8 * |bm| ==> !Bit(bm, j) by {
      forall j | 0 <= j < 8 * |bm| ensures !Bit(bm, j) { ZeroHasNoBits(j % 8); }
    }
    bm
  }

  /** No bitmap means that every entry is present. */
  predicate Covers(validity: Option<bytes>, n: nat) {
    validity.Some? ==> n <= 8 * |validity.value|
  }

  predicate ValidBit(validity: Option<bytes>, i: nat)
    requires Covers(validity, i + 1)
  {
    validity.None? || Bit(validity.value, i)
  }

  /** The positions below `n` that a bitmap marks, in increasing order. */
  function Selected(validity: Option<bytes>, n: nat): (ps: seq<nat>)
    requires Covers(validity, n)
    ensures |ps| <= n
  {
    if n == 0 then [] else
      var ps := Selected(validity, n - 1);
      if ValidBit(validity, n - 1) then ps + [n - 1] else ps
  }

  lemma {:induction false} SelectedAre(validity: Option<bytes>, n: nat)
    requires Covers(validity, n)
    ensures forall i :: i in Selected(validity, n) <==> 0 <= i < n && ValidBit(validity, i)
    ensures Increasing(Selected(validity, n))
  {
    if n > 0 {
      SelectedAre(validity, n - 1);
      IncreasingSnoc(Selected(validity, n - 1), n - 1);
    }
  }

  lemma {:induction false} IncreasingSnoc(ps: seq<nat>, p: nat)
    requires Increasing(ps) && forall i :: i in ps ==> i < p
    ensures Increasing(ps + [p])
  {
    assert forall i :: 0 <= i < |ps| ==> ps[i] in ps;
  }

  function Popcount(bm: bytes, n: nat): nat
    requires n <= 8 * |bm|
  {
    |Selected(Some(bm), n)|
  }

  /** Strictly increasing. */
  ghost predicate Increasing(ps: seq<nat>) {
    forall i, j :: 0 <= i < j < |ps| ==> ps[i] < ps[j]
  }

  /** An increasing sequence is determined by its elements. */
  lemma {:induction false} IncreasingUnique(a: seq<nat>, b: seq<nat>)
    requires Increasing(a) && Increasing(b)
    requires forall x :: x in a <==> x in b
    ensures a == b
  {
    assert a != [] ==> a[0] in a;
    assert b != [] ==> b[0] in b;
    if a != [] && b != [] {
      var x, y := a[|a| - 1], b[|b| - 1];
      assert x in b && y in a;
      assert x == y;
      var a', b' := a[..|a| - 1], b[..|b| - 1];
      forall z ensures z in a' <==> z in b' {
        if z in a' { assert z < x && z in a; }
        if z in b' { assert z < y && z in b; }
      }
      IncreasingUnique(a', b');
      assert a == a' + [x] && b == b' + [y];
    }
  }

  /** As many positions as there are entries: every entry is present. */
  lemma {:induction false} SelectedFull(validity: Option<bytes>, n: nat)
    requires Covers(validity, n)
    requires |Selected(validity, n)| == n
    ensures Selected(validity, n) == Selected(None, n)
  {
    if n > 0 {
      SelectedFull(validity, n - 1);
    }
  }
}
