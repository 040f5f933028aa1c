/**
 PLAIN value bodies: what the builders emit for the present entries of a leaf array, and the reader's
 decoders, which give those entries' values back.
 */
module PlainValues {
  import opened Bits
  import opened Arrow
  import opened RleBitpack
  import opened Schema

  /** A leaf value: fixed-width or variable-length bytes, a widened small integer, or a boolean. */
  datatype Scalar = Raw(bs: bytes) | Int(v: int) | Truth(b: bool)

  /** `n * w`, the size of `n` elements of `w` bytes. */
  function SizeOf(n: nat, w: nat): nat {
    if n == 0 then 0 else SizeOf(n - 1, w) + w
  }

  lemma {:induction false} SizeOfIsProduct(n: nat, w: nat)
    ensures SizeOf(n, w) == n * w
  {
    if n > 0 { SizeOfIsProduct(n - 1, w); }
  }

  lemma {:induction false} SizeOfMonotone(i: nat, n: nat, w: nat)
    requires i <= n
    ensures SizeOf(i, w) <= SizeOf(n, w)
  {
    if i < n { SizeOfMonotone(i, n - 1, w); }
  }

  /** An entry's string offsets are in order and inside the data buffer. */
  predicate InOrder(off: seq<int>, i: nat, size: nat)
    requires i + 1 < |off|
  {
    0 <= off[i] <= off[i + 1] <= size
  }

  /** The data buffer holds what the leaf's length and type call for. */
  ghost predicate LeafBacked(s: ColumnSpec, a: ArrowArray) {
    && Backed(a)
    && match s.extract
       case MemcpyFixed => SizeOf(a.length, s.srcWidth) <= |a.values|
       case WidenInt => (s.srcWidth == 1 || s.srcWidth == 2) && SizeOf(a.length, s.srcWidth) <= |a.values|
       case PackedBool => a.length <= 8 * |a.values|
       case ByteArray => a.length > 0 ==> a.offsets.Some? && a.length < |a.offsets.value|
       case NullValues => true
  }

  /** What reading entry `i` takes: for a string, offsets that lie in the data buffer. */
  predicate EntryBacked(s: ColumnSpec, a: ArrowArray, i: nat)
    requires i < a.length && (s.extract.ByteArray? ==> a.offsets.Some? && a.length < |a.offsets.value|)
  {
    s.extract.ByteArray? ==> InOrder(a.offsets.value, i, |a.values|)
  }

  /** The entries that a presence map selects can be read; nothing is asked of the others. */
  ghost predicate PresentBacked(s: ColumnSpec, a: ArrowArray, validity: Option<bytes>)
    requires LeafBacked(s, a) && Covers(validity, a.length)
  {
    forall i :: 0 <= i < a.length && ValidBit(validity, i) ==> EntryBacked(s, a, i)
  }

  /** The integer that little-endian bytes stand for, signed or unsigned. */
  function IntegerOf(bs: bytes, signed: bool): int {
    var v := LeValue(bs);
    if signed && 2 * v >= Pow2(8 * |bs|) then v - Pow2(8 * |bs|) else v
  }

  /** Element `i` of `n` elements of `w` bytes each. */
  function Slot(values: bytes, w: nat, n: nat, i: nat): (bs: bytes)
    requires i < n && SizeOf(n, w) <= |values|
    ensures |bs| == w
  {
    SizeOfMonotone(i + 1, n, w);
    values[SizeOf(i, w)..SizeOf(i + 1, w)]
  }

  /** The string between an entry's offsets; entries whose offsets are not in order are never read. */
  function StringAt(off: seq<int>, values: bytes, n: nat, i: nat): bytes
    requires i < n < |off|
  {
    if InOrder(off, i, |values|) then values[off[i]..off[i + 1]] else []
  }

  /** Entry `i` of a leaf array. */
  function ScalarAt(s: ColumnSpec, a: ArrowArray, i: nat): Scalar
    requires LeafBacked(s, a) && i < a.length
  {
    match s.extract
    case MemcpyFixed => Raw(Slot(a.values, s.srcWidth, a.length, i))
    case WidenInt => Int(IntegerOf(Slot(a.values, s.srcWidth, a.length, i), s.signExtend))
    case PackedBool => Truth(Bit(a.values, i))
    case ByteArray => Raw(StringAt(a.offsets.value, a.values, a.length, i))
    case NullValues => Truth(false)
  }

  /** The present entries among the first `n`, in order. */
  function Present(s: ColumnSpec, a: ArrowArray, validity: Option<bytes>, n: nat): seq<Scalar>
    requires LeafBacked(s, a) && n <= a.length && Covers(validity, n)
  {
    if n == 0 then [] else
      var vs := Present(s, a, validity, n - 1);
      if ValidBit(validity, n - 1) then vs + [ScalarAt(s, a, n - 1)] else vs
  }

  /** The values are the entries at the positions. */
  ghost predicate AreEntries(vs: seq<Scalar>, s: ColumnSpec, a: ArrowArray, ps: seq<nat>)
    requires LeafBacked(s, a)
  {
    |vs| == |ps| && forall i :: 0 <= i < |ps| ==> ps[i] < a.length && vs[i] == ScalarAt(s, a, ps[i])
  }

  lemma {:induction false} AreEntriesSnoc(vs: seq<Scalar>, s: ColumnSpec, a: ArrowArray, ps: seq<nat>, p: nat)
    requires LeafBacked(s, a) && AreEntries(vs, s, a, ps) && p < a.length
    ensures AreEntries(vs + [ScalarAt(s, a, p)], s, a, ps + [p])
  {
  }

  /** They are the entries at the positions that the bitmap selects. */
  lemma {:induction false} PresentSelected(s: ColumnSpec, a: ArrowArray, validity: Option<bytes>, n: nat)
    requires LeafBacked(s, a) && n <= a.length && Covers(validity, n)
    ensures AreEntries(Present(s, a, validity, n), s, a, Selected(validity, n))
  {
    if n > 0 {
      PresentSelected(s, a, validity, n - 1);
      if ValidBit(validity, n - 1) { AreEntriesSnoc(Present(s, a, validity, n - 1), s, a, Selected(validity, n - 1), n - 1); }
    }
  }

  // ---- fixed width ----------------------------------------------------------------------------

  /** The unsigned 32-bit pattern of an integer, as a cast to `uint32_t` gives it. */
  function Pattern32(v: int): (u: nat)
    ensures u <= MAX_U32
  {
    v % (MAX_U32 + 1)
  }

  /** The PLAIN bytes of a fixed-width or widened value. */
  function FixedBytes(v: Scalar): bytes {
    match v
    case Raw(bs) => bs
    case Int(n) => Le32(Pattern32(n))
    case Truth(_) => []
  }

  function FixedBody(vs: seq<Scalar>): bytes {
    if vs == [] then [] else FixedBody(vs[..|vs| - 1]) + FixedBytes(vs[|vs| - 1])
  }

  lemma {:induction false} FixedBodySnoc(vs: seq<Scalar>, v: Scalar)
    ensures FixedBody(vs + [v]) == FixedBody(vs) + FixedBytes(v)
  {
    assert (vs + [v])[..|vs|] == vs;
  }

  lemma {:induction false} RawSnoc(vs: seq<Scalar>, bs: bytes)
    ensures FixedBody(vs + [Raw(bs)]) == FixedBody(vs) + bs
  {
    FixedBodySnoc(vs, Raw(bs));
  }

  lemma {:induction false} IntSnoc(vs: seq<Scalar>, n: int)
    ensures FixedBody(vs + [Int(n)]) == FixedBody(vs) + Le32(Pattern32(n))
  {
    FixedBodySnoc(vs, Int(n));
  }

  // ---- small integers -------------------------------------------------------------------------

  /** The range of an Arrow type of one or two bytes. */
  predicate InType(format: string, v: int) {
    if format == "c" then -128 <= v < 128 else if format == "C" then 0 <= v < 256
    else if format == "s" then -32768 <= v < 32768 else format == "S" && 0 <= v < 65536
  }

  /** The bytes from `at` on are those of `v`, in two's complement and least significant first. */
  predicate StoredAt(format: string, values: bytes, at: nat, v: int) {
    if format == "c" || format == "C" then at < |values| && values[at] == v % 256
    else at + 1 < |values| && values[at] == v % 256 && values[at + 1] == v / 256 % 256
  }

  /** A column of such a type holds these integers in its present entries. */
  ghost predicate HoldsIntegers(format: string, s: ColumnSpec, a: ArrowArray, validity: Option<bytes>, vs: seq<int>) {
    && format in ["c", "C", "s", "S"] && MapFormat(format, s.name, s.nullable) == Some(s)
    && a.length >= 0 && Covers(validity, a.length) && |vs| == |Selected(validity, a.length)|
    && forall i :: 0 <= i < |vs| ==> EntryHolds(format, a.values, Selected(validity, a.length)[i], vs[i])
  }

  predicate EntryHolds(format: string, values: bytes, e: nat, v: int) {
    InType(format, v) && StoredAt(format, values, if format == "c" || format == "C" then e else 2 * e, v)
  }

  function Words(vs: seq<int>): bytes {
    if vs == [] then [] else Words(vs[..|vs| - 1]) + Word(vs[|vs| - 1])
  }

  /** The word of an integer is read back as the integer. */
  lemma {:induction false} WordReads(v: int)
    requires -0x8000_0000 <= v < 0x8000_0000
    ensures ReadSlot(Word(v), true) == Int(v)
  {
    var w := Word(v);
    FourBytes(w);
    Pow2Bytes(0); Pow2Bytes(1); Pow2Bytes(2); Pow2Bytes(3);
    SignedDigits(v, v / 256, v / 256 / 256, v / 256 / 256 / 256, LeValue(w));
  }

  lemma {:induction false} SignedDigits(v: int, q: int, r: int, s: int, u: nat)
    requires -0x8000_0000 <= v < 0x8000_0000 && q == v / 256 && r == q / 256 && s == r / 256
    requires u == v % 256 + 256 * (q % 256) + 65536 * (r % 256) + 16777216 * (s % 256)
    ensures u == if v < 0 then v + 0x1_0000_0000 else v
  {
    assert v == v % 256 + 256 * q && q == q % 256 + 256 * r && r == r % 256 + 256 * s;
    assert s == if v < 0 then s % 256 - 256 else s % 256;
  }

  lemma {:induction false} WordIs(v: int)
    requires -32768 <= v < 65536
    ensures Le32(Pattern32(v)) == Word(v)
  {
    var u := Pattern32(v);
    BytesOfWord(u);
    if v < 0 {
      assert u == v + 0x1_0000_0000 && u / 256 == v / 256 + 0x100_0000 && u / 256 / 256 == v / 256 / 256 + 0x1_0000;
    }
  }

  /** One or two bytes stand for the integer of which they are the two's complement. */
  lemma {:induction false} SlotInteger(format: string, name: string, nullable: bool, slot: bytes, v: int)
    requires format in ["c", "C", "s", "S"] && InType(format, v) && StoredAt(format, slot, 0, v)
    requires |slot| == MapFormat(format, name, nullable).value.srcWidth
    ensures IntegerOf(slot, MapFormat(format, name, nullable).value.signExtend) == v
  {
    Pow2Bytes(0);
    Pow2Bytes(1);
    assert LeValue(slot) == slot[0] as int + 256 * LeValue(slot[1..]);
    if |slot| == 2 { assert LeValue(slot[1..]) == slot[1] as int + 256 * LeValue(slot[1..][1..]); }
  }

  lemma {:induction false} EntryInteger(format: string, s: ColumnSpec, a: ArrowArray, e: nat, v: int)
    requires format in ["c", "C", "s", "S"] && MapFormat(format, s.name, s.nullable) == Some(s) && LeafBacked(s, a) && e < a.length
    requires EntryHolds(format, a.values, e, v)
    ensures ScalarAt(s, a, e) == Int(v)
  {
    var slot := Slot(a.values, s.srcWidth, a.length, e);
    SizeOfIsProduct(e, s.srcWidth);
    SlotInteger(format, s.name, s.nullable, slot, v);
  }

  /** The body is the words of the integers that the column holds. */
  lemma {:induction false} IntegersAreWords(format: string, s: ColumnSpec, a: ArrowArray, validity: Option<bytes>, vs: seq<int>)
    requires LeafBacked(s, a) && HoldsIntegers(format, s, a, validity, vs)
    ensures FixedBody(Present(s, a, validity, a.length)) == Words(vs)
  {
    var present := Present(s, a, validity, a.length);
    PresentSelected(s, a, validity, a.length);
    forall i | 0 <= i < |vs| ensures present[i] == Int(vs[i]) && -32768 <= vs[i] < 65536 {
      EntryInteger(format, s, a, Selected(validity, a.length)[i], vs[i]);
    }
    IntsBody(present, vs);
  }

  lemma {:induction false} IntsBody(present: seq<Scalar>, vs: seq<int>)
    requires |present| == |vs| && forall i :: 0 <= i < |vs| ==> present[i] == Int(vs[i]) && -32768 <= vs[i] < 65536
    ensures FixedBody(present) == Words(vs)
  {
    if vs != [] {
      IntsBody(present[..|vs| - 1], vs[..|vs| - 1]);
      WordIs(vs[|vs| - 1]);
    }
  }

  /** `build_plain_fixed`; small integers become the words of the same integers. */
  method BuildPlainFixed(a: ArrowArray, s: ColumnSpec, validity: Option<bytes>) returns (body: bytes)
    requires LeafBacked(s, a) && Covers(validity, a.length) && (s.extract.MemcpyFixed? || s.extract.WidenInt?)
    ensures body == FixedBody(Present(s, a, validity, a.length))
    ensures forall format, vs :: HoldsIntegers(format, s, a, validity, vs) ==> body == Words(vs)
  {
    forall format, vs | HoldsIntegers(format, s, a, validity, vs) ensures FixedBody(Present(s, a, validity, a.length)) == Words(vs) {
      IntegersAreWords(format, s, a, validity, vs);
    }
    if s.extract.MemcpyFixed? && validity.None? {
      MemcpyIsFixedBody(s, a, a.length);
      body := a.values[..SizeOf(a.length, s.srcWidth)];
      return;
    }
    body := [];
    ghost var vs := [];
    var i := 0;
    while i < a.length
      invariant 0 <= i <= a.length
      invariant vs == Present(s, a, validity, i) && body == FixedBody(vs)
    {
      if ValidBit(validity, i) {
        body := AppendEntry(a, s, i, body, vs);
        vs := vs + [ScalarAt(s, a, i)];
      }
      i := i + 1;
    }
  }

  /** One more entry: copied, or widened to 32 bits. */
  method AppendEntry(a: ArrowArray, s: ColumnSpec, i: nat, body: bytes, ghost vs: seq<Scalar>) returns (more: bytes)
    requires LeafBacked(s, a) && (s.extract.MemcpyFixed? || s.extract.WidenInt?) && i < a.length && body == FixedBody(vs)
    ensures more == FixedBody(vs + [ScalarAt(s, a, i)])
  {
    var slot := Slot(a.values, s.srcWidth, a.length, i);
    if s.extract.MemcpyFixed? {
      RawSnoc(vs, slot);
      more := body + slot;
    } else {
      IntSnoc(vs, IntegerOf(slot, s.signExtend));
      var v := Widen(slot, s.signExtend);
      more := body + Le32(v);
    }
  }

  /** `append_widened`: the sign is extended through the 32-bit cast. */
  method Widen(slot: bytes, signExtend: bool) returns (u: nat)
    requires |slot| == 1 || |slot| == 2
    ensures u == Pattern32(IntegerOf(slot, signExtend))
  {
    Pow2Bytes(0);
    Pow2Bytes(1);
    var raw: int;
    if |slot| == 1 {
      raw := slot[0];
      assert LeValue(slot[1..]) == 0;
      if signExtend && raw >= 128 { raw := raw - 256; }
    } else {
      raw := slot[0] as int + 256 * slot[1] as int;
      assert LeValue(slot[1..][1..]) == 0;
      if signExtend && raw >= 32768 { raw := raw - 65536; }
    }
    u := if raw < 0 then raw + MAX_U32 + 1 else raw;
  }

  /** Copying the whole buffer is the same as copying every element. */
  lemma {:induction false} MemcpyIsFixedBody(s: ColumnSpec, a: ArrowArray, n: nat)
    requires LeafBacked(s, a) && s.extract.MemcpyFixed? && n <= a.length
    ensures SizeOf(n, s.srcWidth) <= |a.values|
    ensures FixedBody(Present(s, a, None, n)) == a.values[..SizeOf(n, s.srcWidth)]
  {
    SizeOfMonotone(n, a.length, s.srcWidth);
    PresentSlots(s, a, n);
    SlotsBody(Present(s, a, None, n), a.values, s.srcWidth);
  }

  ghost predicate AreSlots(vs: seq<Scalar>, values: bytes, w: nat) {
    SizeOf(|vs|, w) <= |values| &&
    forall i :: 0 <= i < |vs| ==> vs[i] == SlotScalar(values, w, i, |vs|)
  }

  function SlotScalar(values: bytes, w: nat, i: nat, n: nat): Scalar
    requires i < n && SizeOf(n, w) <= |values|
  {
    Raw(Slot(values, w, n, i))
  }

  lemma {:induction false} PresentSlots(s: ColumnSpec, a: ArrowArray, n: nat)
    requires LeafBacked(s, a) && s.extract.MemcpyFixed? && n <= a.length
    ensures |Present(s, a, None, n)| == n && AreSlots(Present(s, a, None, n), a.values, s.srcWidth)
  {
    SizeOfMonotone(n, a.length, s.srcWidth);
    if n > 0 { PresentSlots(s, a, n - 1); }
  }

  lemma {:induction false} SlotsBody(vs: seq<Scalar>, values: bytes, w: nat)
    requires AreSlots(vs, values, w)
    ensures FixedBody(vs) == values[..SizeOf(|vs|, w)]
  {
    if vs != [] {
      var n := |vs| - 1;
      var init := vs[..n];
      assert vs == init + [SlotScalar(values, w, n, n + 1)];
      SlotsPrefix(vs, values, w, n);
      SlotsBody(init, values, w);
      LastSlot(values, w, n);
      MemcpyStep(init, values, SizeOf(n, w), SizeOf(n + 1, w));
    }
  }

  lemma {:induction false} LastSlot(values: bytes, w: nat, n: nat)
    requires SizeOf(n + 1, w) <= |values|
    ensures SizeOf(n, w) <= SizeOf(n + 1, w) && SlotScalar(values, w, n, n + 1) == Raw(values[SizeOf(n, w)..SizeOf(n + 1, w)])
  {
  }

  lemma {:induction false} SlotsPrefix(vs: seq<Scalar>, values: bytes, w: nat, n: nat)
    requires AreSlots(vs, values, w) && n <= |vs|
    ensures AreSlots(vs[..n], values, w)
  {
    SizeOfMonotone(n, |vs|, w);
    forall i | 0 <= i < n ensures vs[..n][i] == SlotScalar(values, w, i, n) {
      assert vs[i] == SlotScalar(values, w, i, |vs|);
    }
  }

  lemma {:induction false} MemcpyStep(vs: seq<Scalar>, values: bytes, i: nat, j: nat)
    requires i <= j <= |values| && FixedBody(vs) == values[..i]
    ensures FixedBody(vs + [Raw(values[i..j])]) == values[..j]
  {
    RawSnoc(vs, values[i..j]);
    TakeMore(values, i, j);
  }

  lemma {:induction false} TakeMore(bs: bytes, i: nat, j: nat)
    requires i <= j <= |bs|
    ensures bs[..j] == bs[..i] + bs[i..j]
  {
  }

  /** The reader's side: `count` values of `w` bytes, signed 32-bit integers if widened. */
  function ReadFixed(w: nat, widened: bool, count: nat, body: bytes): Option<seq<Scalar>> {
    if count == 0 then (if body == [] then Some([]) else None)
    else if |body| < w then None
    else
      var at := |body| - w;
      match ReadFixed(w, widened, count - 1, body[..at])
      case None => None
      case Some(vs) => Some(vs + [ReadSlot(body[at..], widened)])
  }

  function ReadSlot(bs: bytes, widened: bool): Scalar {
    if widened then Int(IntegerOf(bs, true)) else Raw(bs)
  }

  /** A value as its column stores it: `w` raw bytes, or an integer within 16 bits either way. */
  predicate FixedFits(w: nat, widened: bool, v: Scalar) {
    if widened then w == 4 && v.Int? && -32768 <= v.v < 65536 else v.Raw? && |v.bs| == w
  }

  lemma {:induction false} ReadFixedBody(w: nat, widened: bool, vs: seq<Scalar>)
    requires forall i :: 0 <= i < |vs| ==> FixedFits(w, widened, vs[i])
    ensures ReadFixed(w, widened, |vs|, FixedBody(vs)) == Some(vs)
  {
    if vs != [] {
      var init := vs[..|vs| - 1];
      ReadFixedBody(w, widened, init);
      ReadFixedOne(w, widened, vs, init, FixedBody(init));
    }
  }

  lemma {:induction false} ReadFixedOne(w: nat, widened: bool, vs: seq<Scalar>, init: seq<Scalar>, body: bytes)
    requires vs != [] && init == vs[..|vs| - 1] && body == FixedBody(init)
    requires FixedFits(w, widened, vs[|vs| - 1]) && ReadFixed(w, widened, |init|, body) == Some(init)
    ensures ReadFixed(w, widened, |vs|, FixedBody(vs)) == Some(vs)
  {
    var v := vs[|vs| - 1];
    FixedBytesRead(w, widened, v);
    ReadFixedSnoc(w, widened, init, body, FixedBytes(v), |vs|);
    assert vs == init + [v];
  }

  lemma {:induction false} ReadFixedSnoc(w: nat, widened: bool, vs: seq<Scalar>, body: bytes, last: bytes, n: nat)
    requires ReadFixed(w, widened, |vs|, body) == Some(vs) && |last| == w && n == |vs| + 1
    ensures ReadFixed(w, widened, n, body + last) == Some(vs + [ReadSlot(last, widened)])
  {
    assert (body + last)[..|body|] == body && (body + last)[|body|..] == last;
  }

  lemma {:induction false} FixedBytesRead(w: nat, widened: bool, v: Scalar)
    requires FixedFits(w, widened, v)
    ensures |FixedBytes(v)| == w && ReadSlot(FixedBytes(v), widened) == v
  {
    if widened {
      Le32RoundTrip(Pattern32(v.v), []);
      assert Le32(Pattern32(v.v)) + [] == Le32(Pattern32(v.v));
      assert FixedBytes(v)[..4] == FixedBytes(v);
      Pow2Bytes(0); Pow2Bytes(1); Pow2Bytes(2); Pow2Bytes(3);
    }
  }

  /** Widened 1 and 2 byte integers stay within the range that 32 bits hold either way. */
  lemma {:induction false} SmallIntegers(bs: bytes, signed: bool)
    requires |bs| == 1 || |bs| == 2
    ensures -32768 <= IntegerOf(bs, signed) < 65536
  {
    Pow2Bytes(0);
    Pow2Bytes(1);
    assert LeValue(bs) == bs[0] as int + 256 * LeValue(bs[1..]);
    if |bs| == 2 { assert LeValue(bs[1..]) == bs[1] as int + 256 * LeValue(bs[1..][1..]); }
  }

  // ---- booleans -------------------------------------------------------------------------------

  /** Bits packed tightly from the first, one push of a zero byte per eight. */
  function PackBits(vs: seq<bool>): (bm: bytes)
    ensures |bm| == (|vs| + 7) / 8
  {
    if vs == [] then [] else
      var k := |vs| - 1;
      var prev := PackBits(vs[..k]);
      var room := if k % 8 == 0 then prev + [0] else prev;
      if vs[k] then SetBit(room, k) else room
  }

  /** Bit `j` is value `j`, and the padding after the last is zero. */
  lemma {:induction false} PackBitsAt(vs: seq<bool>)
    ensures forall j :: 0 <= j < 8 * |PackBits(vs)| ==> Bit(PackBits(vs), j) == (j < |vs| && vs[j])
  {
    if vs != [] {
      var k := |vs| - 1;
      PackBitsAt(vs[..k]);
      var prev := PackBits(vs[..k]);
      var room := if k % 8 == 0 then prev + [0] else prev;
      forall j | 0 <= j < 8 * |room| ensures Bit(room, j) == (j < k && vs[j]) {
        if j / 8 == |prev| { ZeroHasNoBits(j % 8); } else { assert Bit(prev, j) == (j < k && vs[..k][j]); }
      }
      SetBitSets(room, k);
    }
  }

  /** The present bits among the first `n`. */
  function PresentBits(values: bytes, validity: Option<bytes>, n: nat): seq<bool>
    requires n <= 8 * |values| && Covers(validity, n)
  {
    if n == 0 then [] else
      var vs := PresentBits(values, validity, n - 1);
      if ValidBit(validity, n - 1) then vs + [Bit(values, n - 1)] else vs
  }

  /** `build_plain_bool`: the whole bitmap, or the present bits repacked. */
  method BuildPlainBool(a: ArrowArray, validity: Option<bytes>) returns (body: bytes)
    requires a.length >= 0 && a.length <= 8 * |a.values| && Covers(validity, a.length)
    ensures validity.None? ==> body == a.values[..(a.length + 7) / 8]
    ensures validity.Some? ==> body == PackBits(PresentBits(a.values, validity, a.length))
  {
    if validity.None? { return a.values[..(a.length + 7) / 8]; }
    body := [];
    ghost var bits: seq<bool> := [];
    var outBit, i := 0, 0;
    while i < a.length
      invariant 0 <= i <= a.length
      invariant bits == PresentBits(a.values, validity, i) && outBit == |bits| && body == PackBits(bits)
    {
      if ValidBit(validity, i) {
        PackBitsSnoc(bits, Bit(a.values, i));
        bits := bits + [Bit(a.values, i)];
        if outBit % 8 == 0 { body := body + [0]; }
        if Bit(a.values, i) { body := SetBit(body, outBit); }
        outBit := outBit + 1;
      }
      i := i + 1;
    }
  }

  lemma {:induction false} PackBitsSnoc(vs: seq<bool>, v: bool)
    ensures var room := if |vs| % 8 == 0 then PackBits(vs) + [0] else PackBits(vs);
      |vs| < 8 * |room| && PackBits(vs + [v]) == if v then SetBit(room, |vs|) else room
  {
    assert (vs + [v])[..|vs|] == vs;
  }

  function ReadBools(count: nat, body: bytes): Option<seq<Scalar>> {
    if 8 * |body| < count then None else Some(seq(count, i requires 0 <= i < count => Truth(Bit(body, i))))
  }

  /** Either way of building the body, the reader finds the present booleans in order. */
  lemma {:induction false} ReadPlainBool(s: ColumnSpec, a: ArrowArray, validity: Option<bytes>, body: bytes)
    requires LeafBacked(s, a) && s.extract.PackedBool? && Covers(validity, a.length)
    requires validity.None? ==> body == a.values[..(a.length + 7) / 8]
    requires validity.Some? ==> body == PackBits(PresentBits(a.values, validity, a.length))
    ensures var vs := Present(s, a, validity, a.length); ReadBools(|vs|, body) == Some(vs)
  {
    var bits := PresentBits(a.values, validity, a.length);
    PresentIsBits(s, a, validity, a.length);
    if validity.None? {
      forall i | 0 <= i < |bits| ensures Bit(body, i) == bits[i] { }
    } else {
      PackBitsAt(bits);
    }
    ReadBitsBack(bits, body, Present(s, a, validity, a.length));
  }

  lemma {:induction false} ReadBitsBack(bits: seq<bool>, body: bytes, vs: seq<Scalar>)
    requires |vs| == |bits| <= 8 * |body|
    requires forall i :: 0 <= i < |bits| ==> Bit(body, i) == bits[i]
    requires forall i :: 0 <= i < |bits| ==> vs[i] == Truth(bits[i])
    ensures ReadBools(|vs|, body) == Some(vs)
  {
    assert ReadBools(|vs|, body).value == vs;
  }

  lemma {:induction false} PresentIsBits(s: ColumnSpec, a: ArrowArray, validity: Option<bytes>, n: nat)
    requires LeafBacked(s, a) && s.extract.PackedBool? && n <= a.length && Covers(validity, n)
    ensures var vs, bits := Present(s, a, validity, n), PresentBits(a.values, validity, n);
      && |vs| == |bits| && (forall i :: 0 <= i < |vs| ==> vs[i] == Truth(bits[i]))
      && (validity.None? ==> |bits| == n && forall i :: 0 <= i < n ==> bits[i] == Bit(a.values, i))
  {
    if n > 0 { PresentIsBits(s, a, validity, n - 1); }
  }

  /** The boolean case of `fixed_stats`: the loop stops once both values have been seen. */
  method BoolStats(a: ArrowArray, validity: Option<bytes>) returns (minMax: Option<(bool, bool)>)
    requires a.length >= 0 && a.length <= 8 * |a.values| && Covers(validity, a.length)
    ensures var vs := PresentBits(a.values, validity, a.length);
      minMax == if vs == [] then None else Some((!(false in vs), true in vs))
  {
    var anyTrue, anyFalse, i := false, false, 0;
    while i < a.length && !(anyTrue && anyFalse)
      invariant 0 <= i <= a.length
      invariant anyTrue == (true in PresentBits(a.values, validity, i))
      invariant anyFalse == (false in PresentBits(a.values, validity, i))
    {
      SeenNext(a.values, validity, i);
      if ValidBit(validity, i) {
        if Bit(a.values, i) { anyTrue := true; } else { anyFalse := true; }
      }
      i := i + 1;
    }
    BitsGrow(a.values, validity, i, a.length);
    SeenDecides(PresentBits(a.values, validity, i), PresentBits(a.values, validity, a.length));
    minMax := if anyTrue || anyFalse then Some((!anyFalse, anyTrue)) else None;
  }

  lemma {:induction false} SeenNext(values: bytes, validity: Option<bytes>, i: nat)
    requires i < 8 * |values| && Covers(validity, i + 1)
    ensures forall v :: v in PresentBits(values, validity, i + 1) <==>
      v in PresentBits(values, validity, i) || (ValidBit(validity, i) && v == Bit(values, i))
  {
    var vs := PresentBits(values, validity, i);
    assert PresentBits(values, validity, i + 1) == if ValidBit(validity, i) then vs + [Bit(values, i)] else vs;
  }

  /** Once both values have been seen, the rest cannot change the answer. */
  lemma {:induction false} SeenDecides(seen: seq<bool>, vs: seq<bool>)
    requires seen <= vs
    requires seen == vs || (true in seen && false in seen)
    ensures true in seen <==> true in vs
    ensures false in seen <==> false in vs
    ensures vs == [] <==> !(true in vs) && !(false in vs)
  {
    assert forall v :: v in seen ==> v in vs;
    if vs != [] { assert vs[0] in vs && (vs[0] == true || vs[0] == false); }
  }

  lemma {:induction false} BitsGrow(values: bytes, validity: Option<bytes>, i: nat, n: nat)
    requires i <= n && Covers(validity, n) && n <= 8 * |values|
    ensures PresentBits(values, validity, i) <= PresentBits(values, validity, n)
  {
    if i < n { BitsGrow(values, validity, i, n - 1); }
  }

  // ---- variable length ------------------------------------------------------------------------

  /** PLAIN byte arrays: each value behind its 32-bit length. */
  function StringsBody(vs: seq<bytes>): bytes {
    if vs == [] then [] else Le32(|vs[0]|) + vs[0] + StringsBody(vs[1..])
  }

  function StringsSize(vs: seq<bytes>): nat {
    if vs == [] then 0 else 4 + |vs[0]| + StringsSize(vs[1..])
  }

  lemma {:induction false} StringsBodySize(vs: seq<bytes>)
    ensures |StringsBody(vs)| == StringsSize(vs)
  {
    if vs != [] { StringsBodySize(vs[1..]); }
  }

  lemma {:induction false} StringsAppend(a: seq<bytes>, b: seq<bytes>)
    ensures StringsBody(a + b) == StringsBody(a) + StringsBody(b)
    ensures StringsSize(a + b) == StringsSize(a) + StringsSize(b)
  {
    if a == [] {
      assert a + b == b;
    } else {
      assert (a + b)[1..] == a[1..] + b;
      StringsAppend(a[1..], b);
    }
  }

  lemma {:induction false} StringsSnoc(vs: seq<bytes>, v: bytes)
    ensures StringsBody(vs + [v]) == StringsBody(vs) + (Le32(|v|) + v)
    ensures StringsSize(vs + [v]) == StringsSize(vs) + 4 + |v|
  {
    StringsAppend(vs, [v]);
    assert StringsBody([v]) == Le32(|v|) + v + [] && StringsSize([v]) == 4 + |v|;
  }

  function ReadStrings(count: nat, body: bytes): Option<seq<bytes>> {
    if count == 0 then (if body == [] then Some([]) else None)
    else match SplitLengthPrefix(body)
      case None => None
      case Some((v, rest)) =>
        match ReadStrings(count - 1, rest)
        case None => None
        case Some(vs) => Some([v] + vs)
  }

  lemma {:induction false} ReadStringsBody(vs: seq<bytes>)
    requires StringsSize(vs) <= MAX_U32
    ensures ReadStrings(|vs|, StringsBody(vs)) == Some(vs)
  {
    if vs != [] {
      ReadStringsBody(vs[1..]);
      LengthPrefixSplits(vs[0], StringsBody(vs[1..]));
      assert vs == [vs[0]] + vs[1..];
    }
  }
}
