/**
 The foreign encoders that the writer calls, as parameters: level and index runs, value encodings,
 page compression, and the Thrift encoding of page headers and of the footer. Each comes with the
 decoder a reader would use, and `Faithful` says that every decoder undoes its encoder.
 */
module Codecs {
  import opened Bits
  import opened Schema
  import opened Footer
  import opened PlainValues

  datatype Codec = ZSTD | UNCOMPRESSED
  datatype Mode = AUTO | PLAIN_ONLY | DELTA | SPLIT
  datatype Encoding = PLAIN | RLE | RLE_DICTIONARY | DELTA_BINARY_PACKED | DELTA_BYTE_ARRAY | BYTE_STREAM_SPLIT

  datatype PageHeader =
    | DataPage(numValues: nat, encoding: Encoding, uncompressed: nat, compressed: nat)
    | DictionaryPage(numValues: nat, uncompressed: nat, compressed: nat)

  /** What is recorded of a column chunk while its pages are written. */
  datatype ChunkMeta = ChunkMeta(
    physical: PhysicalType,
    encodings: seq<Encoding>,
    path: seq<string>,
    numValues: nat,
    totalUncompressed: nat,
    totalCompressed: nat,
    dataPageOffset: nat,
    dictionaryPageOffset: Option<nat>,
    fileOffset: nat,
    nullCount: int)

  datatype RowGroupMeta = RowGroupMeta(columns: seq<ChunkMeta>, numRows: nat, totalByteSize: nat)

  /** The footer; the codec stands in it once for every chunk. */
  datatype FileMeta = FileMeta(rootChildren: nat, elements: seq<SchemaElement>, numRows: int, rowGroups: seq<RowGroupMeta>, codec: Codec)

  datatype Foreign = Foreign(
    rle: (seq<nat>, nat) -> bytes,
    unrle: (bytes, nat, nat) -> seq<nat>,
    rleBitmap: (bytes, nat) -> bytes,
    deltaIntegers: (PhysicalType, bytes) -> bytes,
    undeltaIntegers: (PhysicalType, bytes, nat) -> bytes,
    splitStreams: (PhysicalType, bytes) -> bytes,
    joinStreams: (PhysicalType, bytes, nat) -> bytes,
    deltaStrings: seq<bytes> -> Option<bytes>,
    undeltaStrings: (bytes, nat) -> seq<bytes>,
    zstd: bytes -> Option<bytes>,
    unzstd: bytes -> bytes,
    header: PageHeader -> Option<bytes>,
    readHeader: bytes -> Option<(PageHeader, nat)>,
    footer: FileMeta -> Option<bytes>,
    readFooter: bytes -> Option<FileMeta>)

  /** The levels that a presence bitmap stands for at maximum level 1. */
  function BitmapLevels(bm: bytes, n: nat): (ls: seq<nat>)
    requires n <= 8 * |bm|
  {
    seq(n, i requires 0 <= i < n => if Bit(bm, i) then 1 else 0)
  }

  ghost predicate AllWithin(xs: seq<nat>, n: nat) {
    forall i :: 0 <= i < |xs| ==> xs[i] < n
  }

  /** Runs decode, whether they were made from a list of levels or from a bitmap. */
  ghost predicate FaithfulRuns(f: Foreign) {
    && (forall xs, w :: AllWithin(xs, Pow2(w)) ==> f.unrle(f.rle(xs, w), w, |xs|) == xs)
    && (forall bm: bytes, n: nat :: n <= 8 * |bm| ==> f.unrle(f.rleBitmap(bm, n), 1, n) == BitmapLevels(bm, n))
  }

  /** The width of a fixed-width physical type, other than the ones with a declared length. */
  function WidthOf(t: PhysicalType): nat {
    match t case INT32 => 4 case FLOAT => 4 case INT64 => 8 case DOUBLE => 8 case _ => 0
  }

  ghost predicate FaithfulValues(f: Foreign) {
    && (forall t, body: bytes, n: nat :: |body| == SizeOf(n, WidthOf(t)) ==> f.undeltaIntegers(t, f.deltaIntegers(t, body), n) == body)
    && (forall t, body: bytes, n: nat :: |body| == SizeOf(n, WidthOf(t)) ==> f.joinStreams(t, f.splitStreams(t, body), n) == body)
    && (forall vs :: f.deltaStrings(vs).Some? ==> f.undeltaStrings(f.deltaStrings(vs).value, |vs|) == vs)
  }

  /** A header is not empty and says where it ends. */
  ghost predicate FaithfulPages(f: Foreign) {
    && (forall b :: f.zstd(b).Some? ==> f.unzstd(f.zstd(b).value) == b)
    && (forall h :: f.header(h).Some? ==> |f.header(h).value| > 0)
    && (forall h, rest: bytes :: f.header(h).Some? ==> f.readHeader(f.header(h).value + rest) == Some((h, |f.header(h).value|)))
  }

  ghost predicate FaithfulFooter(f: Foreign) {
    forall m :: f.footer(m).Some? ==> f.readFooter(f.footer(m).value) == Some(m)
  }

  ghost predicate Faithful(f: Foreign) {
    FaithfulRuns(f) && FaithfulValues(f) && FaithfulPages(f) && FaithfulFooter(f)
  }

  /** `compress_page` */
  function Compress(f: Foreign, codec: Codec, body: bytes): Option<bytes> {
    if codec == UNCOMPRESSED then Some(body) else f.zstd(body)
  }

  /** UNCOMPRESSED pages hold the body itself, ZSTD pages what the compressor makes of it. */
  lemma {:induction false} PageHolds(f: Foreign, body: bytes)
    ensures Compress(f, UNCOMPRESSED, body) == Some(body) && Compress(f, ZSTD, body) == f.zstd(body)
  {
  }

  function Decompress(f: Foreign, codec: Codec, bs: bytes): bytes {
    if codec == UNCOMPRESSED then bs else f.unzstd(bs)
  }
}
