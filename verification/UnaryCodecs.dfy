/**
 Encoders that satisfy every round-trip hypothesis at once: numbers in unary, a byte in front of what
 is compressed, everything else left as it is. With them the results that assume `Faithful` are about something.
 */
module UnaryCodecs {
  import opened Bits
  import opened Schema
  import opened Codecs

  /** A number as that many zeros and a one. */
  function Unary(n: nat): (bs: bytes)
    ensures |bs| == n + 1
  {
    if n == 0 then [1] else [0] + Unary(n - 1)
  }

  function ReadUnary(bs: bytes): (r: (nat, bytes))
    ensures |r.1| <= |bs|
  {
    if bs == [] then (0, []) else if bs[0] == 1 then (0, bs[1..]) else (ReadUnary(bs[1..]).0 + 1, ReadUnary(bs[1..]).1)
  }

  lemma {:induction false} ReadUnaryBack(n: nat, rest: bytes)
    ensures ReadUnary(Unary(n) + rest) == (n, rest)
  {
    var bs := Unary(n) + rest;
    if n == 0 {
      assert bs[1..] == rest;
    } else {
      ReadUnaryBack(n - 1, rest);
      assert bs[1..] == Unary(n - 1) + rest;
    }
  }

  function Unaries(xs: seq<nat>): bytes {
    if xs == [] then [] else Unary(xs[0]) + Unaries(xs[1..])
  }

  function ReadUnaries(bs: bytes, n: nat): (r: (seq<nat>, bytes))
    ensures |r.0| == n && |r.1| <= |bs|
    decreases n
  {
    if n == 0 then ([], bs) else
      var (x, rest) := ReadUnary(bs);
      var (xs, rest') := ReadUnaries(rest, n - 1);
      ([x] + xs, rest')
  }

  lemma {:induction false} ReadUnariesBack(xs: seq<nat>, rest: bytes)
    ensures ReadUnaries(Unaries(xs) + rest, |xs|) == (xs, rest)
  {
    if xs == [] {
      assert Unaries(xs) + rest == rest;
    } else {
      assert Unaries(xs) + rest == Unary(xs[0]) + (Unaries(xs[1..]) + rest);
      ReadUnaryBack(xs[0], Unaries(xs[1..]) + rest);
      ReadUnariesBack(xs[1..], rest);
      assert xs == [xs[0]] + xs[1..];
    }
  }

  function EncodingNumber(e: Encoding): nat {
    match e
    case PLAIN => 0 case RLE => 1 case RLE_DICTIONARY => 2
    case DELTA_BINARY_PACKED => 3 case DELTA_BYTE_ARRAY => 4 case BYTE_STREAM_SPLIT => 5
  }

  function EncodingOf(n: nat): Encoding {
    if n == 0 then PLAIN else if n == 1 then RLE else if n == 2 then RLE_DICTIONARY
    else if n == 3 then DELTA_BINARY_PACKED else if n == 4 then DELTA_BYTE_ARRAY else BYTE_STREAM_SPLIT
  }

  /** A header as five numbers; the first tells the kinds of page apart. */
  function HeaderNumbers(h: PageHeader): (ns: seq<nat>)
    ensures |ns| == 5
  {
    match h
    case DataPage(n, e, u, c) => [0, n, EncodingNumber(e), u, c]
    case DictionaryPage(n, u, c) => [1, n, 0, u, c]
  }

  function HeaderOf(ns: seq<nat>): PageHeader
    requires |ns| == 5
  {
    if ns[0] == 0 then DataPage(ns[1], EncodingOf(ns[2]), ns[3], ns[4]) else DictionaryPage(ns[1], ns[3], ns[4])
  }

  function ReadHeader(bs: bytes): Option<(PageHeader, nat)> {
    var (ns, rest) := ReadUnaries(bs, 5);
    Some((HeaderOf(ns), |bs| - |rest|))
  }

  /** The encoders; the only footer they can encode is the given one. */
  function UnaryForeign(meta: FileMeta): Foreign {
    Foreign(
      (xs: seq<nat>, w: nat) => Unaries(xs),
      (bs: bytes, w: nat, n: nat) => ReadUnaries(bs, n).0,
      (bm: bytes, n: nat) => if n <= 8 * |bm| then Unaries(BitmapLevels(bm, n)) else [],
      (t: PhysicalType, body: bytes) => body,
      (t: PhysicalType, body: bytes, n: nat) => body,
      (t: PhysicalType, body: bytes) => body,
      (t: PhysicalType, body: bytes, n: nat) => body,
      (vs: seq<bytes>) => None,
      (bs: bytes, n: nat) => [],
      (body: bytes) => Some([7] + body),
      (bs: bytes) => if bs == [] then [7] else bs[1..],
      (h: PageHeader) => Some(Unaries(HeaderNumbers(h))),
      (bs: bytes) => ReadHeader(bs),
      (m: FileMeta) => if m == meta then Some([]) else None,
      (bs: bytes) => Some(meta))
  }

  lemma {:induction false} HeaderReadsBack(h: PageHeader, rest: bytes)
    ensures ReadHeader(Unaries(HeaderNumbers(h)) + rest) == Some((h, |Unaries(HeaderNumbers(h))|))
  {
    ReadUnariesBack(HeaderNumbers(h), rest);
  }

  lemma {:induction false} HeaderIsNotEmpty(h: PageHeader)
    ensures |Unaries(HeaderNumbers(h))| > 0
  {
    assert |Unary(HeaderNumbers(h)[0])| > 0;
  }

  lemma {:induction false} RunsAreFaithful(meta: FileMeta)
    ensures FaithfulRuns(UnaryForeign(meta))
  {
    var f := UnaryForeign(meta);
    forall xs, w | AllWithin(xs, Pow2(w)) ensures f.unrle(f.rle(xs, w), w, |xs|) == xs { RunBack(xs); }
    forall bm: bytes, n: nat | n <= 8 * |bm| ensures f.unrle(f.rleBitmap(bm, n), 1, n) == BitmapLevels(bm, n) { RunBack(BitmapLevels(bm, n)); }
  }

  lemma {:induction false} RunBack(xs: seq<nat>)
    ensures ReadUnaries(Unaries(xs), |xs|).0 == xs
  {
    ReadUnariesBack(xs, []);
    assert Unaries(xs) + [] == Unaries(xs);
  }

  lemma {:induction false} PagesAreFaithful(meta: FileMeta)
    ensures FaithfulPages(UnaryForeign(meta))
  {
    var f := UnaryForeign(meta);
    forall b ensures f.unzstd(f.zstd(b).value) == b { CompressionIsFaithful(meta, b); }
    forall h ensures |f.header(h).value| > 0 { HeaderIsNotEmpty(h); }
    forall h, rest: bytes ensures f.readHeader(f.header(h).value + rest) == Some((h, |f.header(h).value|)) { HeaderReadsBack(h, rest); }
  }

  lemma {:induction false} CompressionIsFaithful(meta: FileMeta, body: bytes)
    ensures UnaryForeign(meta).unzstd(UnaryForeign(meta).zstd(body).value) == body
  {
    assert ([7] + body)[1..] == body;
  }

  /** Every hypothesis holds of them, and the given footer can be written. */
  lemma {:induction false} UnaryIsFaithful(meta: FileMeta)
    ensures Faithful(UnaryForeign(meta)) && UnaryForeign(meta).footer(meta).Some?
  {
    RunsAreFaithful(meta);
    PagesAreFaithful(meta);
  }
}
