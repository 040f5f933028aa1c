/**
 Bit widths, little-endian lengths and length-prefixed level streams. The hybrid run encoding itself
 is a foreign codec and stays abstract.
 */
module RleBitpack {
  import opened Bits

  const MAX_U32: nat := 0xFFFF_FFFF

  /** Smallest width, from `w` on, whose range holds `n` values. */
  function WidthFrom(w: nat, n: nat): (r: nat)
    ensures w <= r && n <= Pow2(r)
    ensures w < r ==> Pow2(r - 1) < n
    decreases n - Pow2(w)
  {
    if Pow2(w) < n then WidthFrom(w + 1, n) else w
  }

  function BitWidth(n: nat): nat { WidthFrom(0, n) }

  lemma {:induction false} Pow2Monotone(a: nat, b: nat)
    requires a <= b
    ensures Pow2(a) <= Pow2(b)
  {
    if a < b { Pow2Monotone(a, b - 1); }
  }

  /** Every index below `n` fits the bit width, and no smaller width would do. */
  lemma {:induction false} BitWidthIsMinimal(n: nat, w: nat)
    ensures n <= Pow2(w) <==> BitWidth(n) <= w
  {
    if BitWidth(n) <= w {
      Pow2Monotone(BitWidth(n), w);
    } else {
      Pow2Monotone(w, BitWidth(n) - 1);
    }
  }

  /** `dictionary_bit_width` */
  method DictionaryBitWidth(size: nat) returns (w: nat)
    ensures w == BitWidth(size)
  {
    w := 0;
    while Pow2(w) < size
      invariant WidthFrom(w, size) == BitWidth(size)
      decreases size - Pow2(w)
    {
      w := w + 1;
    }
  }

  /** Byte `i` of a value, `(v >> 8 * i) & 0xFF`. */
  function ByteOf(v: nat, i: nat): byte {
    if i == 0 then v % 256 else ByteOf(v / 256, i - 1)
  }

  /** `n` bytes of a value, least significant first. */
  function LeBytes(n: nat, v: nat): (bs: bytes)
    ensures |bs| == n
  {
    seq(n, i requires 0 <= i < n => ByteOf(v, i))
  }

  function LeValue(bs: bytes): nat {
    if bs == [] then 0 else bs[0] as int + 256 * LeValue(bs[1..])
  }

  lemma {:induction false} LeRoundTrip(n: nat, v: nat)
    requires v < Pow2(8 * n)
    ensures LeValue(LeBytes(n, v)) == v
  {
    if n > 0 {
      Pow2Bytes(n - 1);
      LeRoundTrip(n - 1, v / 256);
      assert LeBytes(n, v)[0] == v % 256;
      assert LeBytes(n, v)[1..] == LeBytes(n - 1, v / 256);
    }
  }

  lemma {:induction false} Pow2Bytes(n: nat)
    ensures Pow2(8 * (n + 1)) == 256 * Pow2(8 * n)
  {
    var k := 8 * n;
    assert Pow2(k + 8) == 2 * Pow2(k + 7) && Pow2(k + 7) == 2 * Pow2(k + 6) && Pow2(k + 6) == 2 * Pow2(k + 5);
    assert Pow2(k + 5) == 2 * Pow2(k + 4) && Pow2(k + 4) == 2 * Pow2(k + 3) && Pow2(k + 3) == 2 * Pow2(k + 2);
    assert Pow2(k + 2) == 2 * Pow2(k + 1) && Pow2(k + 1) == 2 * Pow2(k);
  }

  /** `append_le`: a 32-bit value. */
  function Le32(v: nat): (bs: bytes)
    ensures |bs| == 4
  {
    LeBytes(4, v)
  }

  /** A 32-bit integer in two's complement, least significant byte first. */
  function Word(v: int): bytes { [v % 256, v / 256 % 256, v / 256 / 256 % 256, v / 256 / 256 / 256 % 256] }

  lemma {:induction false} BytesOfWord(u: nat)
    ensures Le32(u) == Word(u)
  {
    assert ByteOf(u, 1) == ByteOf(u / 256, 0);
    assert ByteOf(u, 2) == ByteOf(u / 256, 1) == ByteOf(u / 256 / 256, 0);
    assert ByteOf(u, 3) == ByteOf(u / 256, 2) == ByteOf(u / 256 / 256, 1) == ByteOf(u / 256 / 256 / 256, 0);
  }

  lemma {:induction false} FourBytes(w: bytes)
    requires |w| == 4
    ensures LeValue(w) == w[0] as int + 256 * w[1] as int + 65536 * w[2] as int + 16777216 * w[3] as int
  {
    assert w[1..][1..] == w[2..] && w[2..][1..] == w[3..] && w[3..][1..] == [];
    assert LeValue(w[3..]) == w[3] as int;
    assert LeValue(w[2..]) == w[2] as int + 256 * w[3] as int;
    assert LeValue(w[1..]) == w[1] as int + 256 * LeValue(w[2..]);
  }

  function ReadLe32(bs: bytes): nat
    requires |bs| >= 4
  {
    LeValue(bs[..4])
  }

  lemma {:induction false} Le32RoundTrip(v: nat, rest: bytes)
    requires v <= MAX_U32
    ensures ReadLe32(Le32(v) + rest) == v
  {
    assert Pow2(32) == MAX_U32 + 1 by {
      Pow2Bytes(0); Pow2Bytes(1); Pow2Bytes(2); Pow2Bytes(3);
    }
    LeRoundTrip(4, v);
    assert (Le32(v) + rest)[..4] == Le32(v);
  }

  /** `with_length_prefix`: the run behind its length; none if the length is beyond 32 bits. */
  function WithLengthPrefix(run: bytes): Option<bytes> {
    if |run| > MAX_U32 then None else Some(Le32(|run|) + run)
  }

  /** The reader's side: split a length-prefixed run off the front. */
  function SplitLengthPrefix(body: bytes): Option<(bytes, bytes)> {
    if |body| < 4 then None
    else
      var n := ReadLe32(body);
      if |body| < 4 + n then None else Some((body[4..4 + n], body[4 + n..]))
  }

  /** The reader recovers the run and what follows it, whatever that is. */
  lemma {:induction false} LengthPrefixSplits(run: bytes, rest: bytes)
    requires WithLengthPrefix(run).Some?
    ensures WithLengthPrefix(run).value == Word(|run|) + run
    ensures SplitLengthPrefix(WithLengthPrefix(run).value + rest) == Some((run, rest))
  {
    BytesOfWord(|run|);
    var body := WithLengthPrefix(run).value + rest;
    Le32RoundTrip(|run|, run + rest);
    assert body == Le32(|run|) + (run + rest);
    assert body[4..4 + |run|] == run && body[4 + |run|..] == rest;
  }
}
