/**
 Level prefixes, pages and column chunks, and the reader that takes a chunk apart again.
 */
module Pages {
  import opened Bits
  import opened Records
  import opened Projection
  import opened RleBitpack
  import opened Schema
  import opened Footer
  import opened PlainValues
  import opened Codecs
  import opened Values

  // ---- levels ---------------------------------------------------------------------------------

  /** `encode_definition_levels`; none if the run is too long for its length prefix. */
  function EncodeLevels(f: Foreign, ls: seq<nat>, width: nat): Option<bytes> {
    WithLengthPrefix(f.rle(ls, width))
  }

  /** The level prefix under a list: repetition levels, then definition levels. */
  function ListPrefix(f: Foreign, leaf: LeafSpec, rep: seq<nat>, def: seq<nat>): Option<bytes> {
    match EncodeLevels(f, rep, leaf.repBitWidth)
    case None => None
    case Some(r) =>
      match EncodeLevels(f, def, leaf.defBitWidth)
      case None => None
      case Some(d) => Some(r + d)
  }

  /** The level prefix outside lists: nothing, the presence bitmap's own run, or definition levels. */
  function FlatPrefix(f: Foreign, leaf: LeafSpec, def: seq<nat>, present: bytes, n: nat): Option<bytes>
  {
    if leaf.maxDef == 0 then Some([])
    else if leaf.maxDef == 1 then WithLengthPrefix(f.rleBitmap(present, n))
    else EncodeLevels(f, def, leaf.defBitWidth)
  }

  function Zero(n: nat): (zs: seq<nat>)
    ensures |zs| == n && forall i :: 0 <= i < n ==> zs[i] == 0
  {
    seq(n, _ => 0)
  }

  /** One kind of level, if the column has any: `n` values up to `max` behind a length prefix. */
  function ReadRun(f: Foreign, max: nat, n: nat, body: bytes): Option<(seq<nat>, bytes)> {
    if max == 0 then Some((Zero(n), body))
    else match SplitLengthPrefix(body)
      case None => None
      case Some((run, rest)) => Some((f.unrle(run, BitWidth(max + 1), n), rest))
  }

  /** A data page's levels, from the column's maximum levels and the value count alone. */
  function ReadLevels(f: Foreign, maxDef: nat, maxRep: nat, n: nat, body: bytes): Option<(seq<Level>, bytes)> {
    match ReadRun(f, maxRep, n, body)
    case None => None
    case Some((rep, body')) =>
      match ReadRun(f, maxDef, n, body')
      case None => None
      case Some((def, rest)) => if |rep| == |def| then Some((ZipLevels(rep, def), rest)) else None
  }

  lemma {:induction false} RunReadsBack(f: Foreign, ls: seq<nat>, max: nat, rest: bytes)
    requires FaithfulRuns(f) && AllWithin(ls, max + 1)
    requires max > 0 && EncodeLevels(f, ls, BitWidth(max + 1)).Some?
    ensures ReadRun(f, max, |ls|, EncodeLevels(f, ls, BitWidth(max + 1)).value + rest) == Some((ls, rest))
  {
    var w := BitWidth(max + 1);
    BitWidthIsMinimal(max + 1, w);
    assert AllWithin(ls, Pow2(w));
    LengthPrefixSplits(f.rle(ls, w), rest);
  }

  /** At maximum level 1 the bitmap's run reads back as the levels. */
  lemma {:induction false} BitmapReadsBack(f: Foreign, present: bytes, n: nat, rest: bytes)
    requires FaithfulRuns(f) && n <= 8 * |present| && WithLengthPrefix(f.rleBitmap(present, n)).Some?
    ensures ReadRun(f, 1, n, WithLengthPrefix(f.rleBitmap(present, n)).value + rest) == Some((BitmapLevels(present, n), rest))
  {
    LengthPrefixSplits(f.rleBitmap(present, n), rest);
    assert Pow2(1) == 2;
    BitWidthIsMinimal(2, 1);
    BitWidthIsMinimal(2, 0);
  }

  lemma {:induction false} ListPrefixReadsBack(f: Foreign, leaf: LeafSpec, rep: seq<nat>, def: seq<nat>, rest: bytes)
    requires FaithfulRuns(f) && ListPrefix(f, leaf, rep, def).Some? && |rep| == |def|
    requires leaf.maxDef > 0 && leaf.maxRep > 0 && leaf.defBitWidth == BitWidth(leaf.maxDef + 1) && leaf.repBitWidth == BitWidth(leaf.maxRep + 1)
    requires AllWithin(rep, leaf.maxRep + 1) && AllWithin(def, leaf.maxDef + 1)
    ensures ReadLevels(f, leaf.maxDef, leaf.maxRep, |def|, ListPrefix(f, leaf, rep, def).value + rest) == Some((ZipLevels(rep, def), rest))
  {
    var r, d := PrefixRuns(f, leaf, rep, def);
    var below := d + rest;
    OneRunReads(f, rep, leaf.maxRep, leaf.repBitWidth, r, below);
    OneRunReads(f, def, leaf.maxDef, leaf.defBitWidth, d, rest);
    RunsRead(f, leaf.maxDef, leaf.maxRep, r + below, below, rest, rep, def);
    Joined(r, d, rest);
  }

  lemma {:induction false} Joined(a: bytes, b: bytes, c: bytes)
    ensures a + b + c == a + (b + c)
  {
  }

  lemma {:induction false} PrefixRuns(f: Foreign, leaf: LeafSpec, rep: seq<nat>, def: seq<nat>) returns (r: bytes, d: bytes)
    requires ListPrefix(f, leaf, rep, def).Some?
    ensures EncodeLevels(f, rep, leaf.repBitWidth) == Some(r) && EncodeLevels(f, def, leaf.defBitWidth) == Some(d)
    ensures ListPrefix(f, leaf, rep, def).value == r + d
  {
    r, d := EncodeLevels(f, rep, leaf.repBitWidth).value, EncodeLevels(f, def, leaf.defBitWidth).value;
  }

  lemma {:induction false} OneRunReads(f: Foreign, ls: seq<nat>, max: nat, width: nat, run: bytes, rest: bytes)
    requires FaithfulRuns(f) && AllWithin(ls, max + 1) && max > 0 && width == BitWidth(max + 1) && EncodeLevels(f, ls, width) == Some(run)
    ensures ReadRun(f, max, |ls|, run + rest) == Some((ls, rest))
  {
    RunReadsBack(f, ls, max, rest);
  }

  lemma {:induction false} RunsRead(f: Foreign, maxDef: nat, maxRep: nat, body: bytes, body': bytes, rest: bytes, rep: seq<nat>, def: seq<nat>)
    requires |rep| == |def| && ReadRun(f, maxRep, |def|, body) == Some((rep, body')) && ReadRun(f, maxDef, |def|, body') == Some((def, rest))
    ensures ReadLevels(f, maxDef, maxRep, |def|, body) == Some((ZipLevels(rep, def), rest))
  {
  }

  lemma {:induction false} FlatPrefixReadsBack(f: Foreign, leaf: LeafSpec, ls: seq<nat>, present: bytes, n: nat, rest: bytes)
    requires FaithfulRuns(f) && |ls| == n <= 8 * |present|
    requires leaf.maxRep == 0 && leaf.defBitWidth == BitWidth(leaf.maxDef + 1) && AllWithin(ls, leaf.maxDef + 1)
    requires leaf.maxDef == 1 ==> ls == BitmapLevels(present, n)
    requires var def := if leaf.maxDef > 1 then ls else []; FlatPrefix(f, leaf, def, present, n).Some?
    ensures var def := if leaf.maxDef > 1 then ls else [];
      ReadLevels(f, leaf.maxDef, 0, n, FlatPrefix(f, leaf, def, present, n).value + rest) == Some((ZipLevels(Zero(n), ls), rest))
  {
    if leaf.maxDef == 0 {
      assert [] + rest == rest;
      assert ls == Zero(n);
    } else if leaf.maxDef == 1 {
      BitmapReadsBack(f, present, n, rest);
    } else {
      RunReadsBack(f, ls, leaf.maxDef, rest);
    }
  }

  // ---- pages ----------------------------------------------------------------------------------

  datatype EncodedPage = EncodedPage(header: bytes, data: bytes, bodySize: nat) {
    function Bytes(): bytes { header + data }
    function OnDisk(): nat { |header| + |data| }
    function Uncompressed(): nat { |header| + bodySize }
  }

  function HeaderFor(dict: bool, n: nat, encoding: Encoding, uncompressed: nat, compressed: nat): PageHeader {
    if dict then DictionaryPage(n, uncompressed, compressed) else DataPage(n, encoding, uncompressed, compressed)
  }

  /** Compress a body and make its header; none if a codec fails or a size is beyond the format's 31 bits. */
  function EncodePage(f: Foreign, codec: Codec, dict: bool, n: nat, encoding: Encoding, body: bytes): Option<EncodedPage> {
    match Compress(f, codec, body)
    case None => None
    case Some(data) =>
      if n > MAX_I32 || |body| > MAX_I32 || |data| > MAX_I32 then None
      else match f.header(HeaderFor(dict, n, encoding, |body|, |data|))
        case None => None
        case Some(header) => Some(EncodedPage(header, data, |body|))
  }

  /** The page at an offset of the file: its header and its decompressed body. */
  function ReadPage(f: Foreign, codec: Codec, file: bytes, at: nat): Option<(PageHeader, bytes)> {
    if at > |file| then None else
    match f.readHeader(file[at..])
    case None => None
    case Some((h, n)) =>
      if at + n + h.compressed > |file| then None else
      var body := Decompress(f, codec, file[at + n..at + n + h.compressed]);
      if |body| != h.uncompressed then None else Some((h, body))
  }

  lemma {:induction false} PageReadsBack(f: Foreign, codec: Codec, dict: bool, n: nat, encoding: Encoding, body: bytes, file: bytes, at: nat)
    requires FaithfulPages(f) && EncodePage(f, codec, dict, n, encoding, body).Some?
    requires var p := EncodePage(f, codec, dict, n, encoding, body).value;
      at + |p.Bytes()| <= |file| && file[at..at + |p.Bytes()|] == p.Bytes()
    ensures var p := EncodePage(f, codec, dict, n, encoding, body).value;
      ReadPage(f, codec, file, at) == Some((HeaderFor(dict, n, encoding, |body|, |p.data|), body))
  {
    var p := EncodePage(f, codec, dict, n, encoding, body).value;
    var h := HeaderFor(dict, n, encoding, |body|, |p.data|);
    var rest := file[at + |p.header|..];
    assert file[at..at + p.OnDisk()][..|p.header|] == p.header;
    assert file[at..] == p.header + rest;
    assert f.readHeader(f.header(h).value + rest) == Some((h, |p.header|));
    assert file[at..at + p.OnDisk()][|p.header|..] == p.data;
    assert file[at + |p.header|..at + |p.header| + |p.data|] == p.data;
  }

  /** What a reader makes of a page that it knows only as encoded under some other codec. */
  predicate Unchanged(f: Foreign, written: Codec, body: bytes) {
    if written == ZSTD then f.zstd(body) == Some(body) else f.unzstd(body) == body
  }

  /**
   The footer names one codec for all chunks. A page written under the other one gives its body back
   exactly if compressing, or decompressing what was never compressed, leaves the body as it is.
   */
  lemma {:induction false} WrongCodecPage(f: Foreign, written: Codec, other: Codec, dict: bool, n: nat, encoding: Encoding, body: bytes,
      file: bytes, at: nat)
    requires FaithfulPages(f) && other != written && EncodePage(f, written, dict, n, encoding, body).Some?
    requires Holds(file, at, EncodePage(f, written, dict, n, encoding, body).value.Bytes())
    ensures var p := EncodePage(f, written, dict, n, encoding, body).value;
      ReadPage(f, other, file, at) == Some((HeaderFor(dict, n, encoding, |body|, |p.data|), body)) <==> Unchanged(f, written, body)
  {
    var p := EncodePage(f, written, dict, n, encoding, body).value;
    var h := HeaderFor(dict, n, encoding, |body|, |p.data|);
    assert file[at..at + p.OnDisk()][..|p.header|] == p.header;
    assert file[at..] == p.header + file[at + |p.header|..];
    assert f.readHeader(f.header(h).value + file[at + |p.header|..]) == Some((h, |p.header|));
    assert file[at..at + p.OnDisk()][|p.header|..] == p.data;
    assert file[at + |p.header|..at + |p.header| + |p.data|] == p.data;
  }

  // ---- column chunks --------------------------------------------------------------------------

  /** What writing a chunk appended to the file, and its record; no record if an encoder failed on the way. */
  datatype Written = Written(bytes: bytes, meta: Option<ChunkMeta>)

  /** What is known of a chunk before its pages. */
  datatype ChunkHead = ChunkHead(physical: PhysicalType, path: seq<string>, numValues: nat, nullCount: int, hasLevels: bool)

  function Encodings(v: ValuePages, hasLevels: bool): seq<Encoding> {
    (if v.dict.Some? then [PLAIN, v.encoding] else [v.encoding]) + if hasLevels then [RLE] else []
  }

  /** `write_leaf_pages`: the dictionary page if there is one, then the data page, at offset `base`. */
  function LeafPages(f: Foreign, codec: Codec, head: ChunkHead, v: ValuePages, prefix: bytes, base: nat): Written {
    match v.dict
    case None =>
      (match EncodePage(f, codec, false, head.numValues, v.encoding, prefix + v.body)
       case None => Written([], None)
       case Some(data) =>
         Written(data.Bytes(), Some(ChunkMeta(head.physical, Encodings(v, head.hasLevels), head.path, head.numValues,
           data.Uncompressed(), data.OnDisk(), base, None, base, head.nullCount))))
    case Some((n, dictBody)) =>
      match EncodePage(f, codec, true, n, PLAIN, dictBody)
      case None => Written([], None)
      case Some(dict) =>
        match EncodePage(f, codec, false, head.numValues, v.encoding, prefix + v.body)
        case None => Written(dict.Bytes(), None)
        case Some(data) =>
          Written(dict.Bytes() + data.Bytes(), Some(ChunkMeta(head.physical, Encodings(v, head.hasLevels), head.path, head.numValues,
            dict.Uncompressed() + data.Uncompressed(), dict.OnDisk() + data.OnDisk(), base + dict.OnDisk(), Some(base), base, head.nullCount)))
  }

  /** Where a chunk's first page starts, as `check_metadata` reckons it. */
  function ChunkStart(m: ChunkMeta): nat {
    match m.dictionaryPageOffset case Some(at) => at case None => m.dataPageOffset
  }

  /** A recorded chunk is exactly the bytes that were appended for it, starting where they start. */
  lemma {:induction false} LeafPagesExtent(f: Foreign, codec: Codec, head: ChunkHead, v: ValuePages, prefix: bytes, base: nat)
    ensures var w := LeafPages(f, codec, head, v, prefix, base);
      w.meta.Some? ==> ChunkStart(w.meta.value) == base == w.meta.value.fileOffset && w.meta.value.totalCompressed == |w.bytes|
  {
  }

  function CountDef(ls: seq<Level>, d: nat): nat {
    if ls == [] then 0 else (if ls[0].def == d then 1 else 0) + CountDef(ls[1..], d)
  }

  function ReadDictionaryPage(f: Foreign, codec: Codec, file: bytes, at: nat): Option<seq<bytes>> {
    match ReadPage(f, codec, file, at)
    case None => None
    case Some((h, body)) => if h.DictionaryPage? then ReadStrings(h.numValues, body) else None
  }

  /** A data page's body: levels, then as many values as entries reach the maximum definition level. */
  function ReadDataPage(f: Foreign, col: Column, dict: Option<seq<bytes>>, h: PageHeader, body: bytes): Option<(seq<Level>, seq<Scalar>)> {
    if !h.DataPage? then None else
    match ReadLevels(f, col.maxDef, col.maxRep, h.numValues, body)
    case None => None
    case Some((ls, rest)) =>
      match ReadValues(f, col.physical, KindOf(col.physical, col.typeLength, col.converted), h.encoding, dict, CountDef(ls, col.maxDef), rest)
      case None => None
      case Some(vs) => Some((ls, vs))
  }

  /** A column chunk from its record, the column's description and the file's bytes. */
  function ReadChunk(f: Foreign, codec: Codec, col: Column, file: bytes, m: ChunkMeta): Option<(seq<Level>, seq<Scalar>)> {
    var dict := match m.dictionaryPageOffset case None => None case Some(at) => ReadDictionaryPage(f, codec, file, at);
    if m.dictionaryPageOffset.Some? && dict.None? then None else
    match ReadPage(f, codec, file, m.dataPageOffset)
    case None => None
    case Some((h, body)) => ReadDataPage(f, col, dict, h, body)
  }

  lemma {:induction false} SubRange(file: bytes, base: nat, part: bytes, i: nat, j: nat)
    requires base + |part| <= |file| && file[base..base + |part|] == part && i <= j <= |part|
    ensures file[base + i..base + j] == part[i..j]
  {
    forall k | 0 <= k < j - i ensures file[base + i..base + j][k] == part[i..j][k] {
      assert file[base..base + |part|][i + k] == part[i + k];
    }
  }

  /** The written bytes are where the writer put them. */
  ghost predicate Holds(file: bytes, base: nat, part: bytes) {
    base + |part| <= |file| && file[base..base + |part|] == part
  }

  lemma {:induction false} HoldsParts(file: bytes, base: nat, a: bytes, b: bytes)
    requires Holds(file, base, a + b)
    ensures Holds(file, base, a) && Holds(file, base + |a|, b)
  {
    SubRange(file, base, a + b, 0, |a|);
    SubRange(file, base, a + b, |a|, |a + b|);
    assert (a + b)[0..|a|] == a && (a + b)[|a|..|a + b|] == b;
  }

  /** Finding a chunk's pages in the file gives back the bodies they were made from. */
  lemma {:induction false} PlainChunkRead(f: Foreign, codec: Codec, head: ChunkHead, v: ValuePages, prefix: bytes, base: nat, file: bytes, col: Column)
    returns (h: PageHeader)
    requires FaithfulPages(f) && v.dict.None? && LeafPages(f, codec, head, v, prefix, base).meta.Some?
    requires Holds(file, base, LeafPages(f, codec, head, v, prefix, base).bytes)
    ensures PagesFit(v) && h.DataPage? && h.numValues == head.numValues && h.encoding == v.encoding
    ensures ReadChunk(f, codec, col, file, LeafPages(f, codec, head, v, prefix, base).meta.value)
      == ReadDataPage(f, col, None, h, prefix + v.body)
  {
    var body := prefix + v.body;
    var data := EncodePage(f, codec, false, head.numValues, v.encoding, body).value;
    PageReadsBack(f, codec, false, head.numValues, v.encoding, body, file, base);
    h := DataPage(head.numValues, v.encoding, |body|, |data.data|);
  }

  lemma {:induction false} DictChunkRead(f: Foreign, codec: Codec, head: ChunkHead, v: ValuePages, prefix: bytes, base: nat, file: bytes, col: Column)
    returns (h: PageHeader)
    requires FaithfulPages(f) && v.dict.Some? && ReadDict(v).Some? && LeafPages(f, codec, head, v, prefix, base).meta.Some?
    requires Holds(file, base, LeafPages(f, codec, head, v, prefix, base).bytes)
    ensures PagesFit(v) && h.DataPage? && h.numValues == head.numValues && h.encoding == v.encoding
    ensures ReadChunk(f, codec, col, file, LeafPages(f, codec, head, v, prefix, base).meta.value)
      == ReadDataPage(f, col, ReadDict(v), h, prefix + v.body)
  {
    var body, n, dictBody := prefix + v.body, v.dict.value.0, v.dict.value.1;
    var dict, data := DictLayout(f, codec, head, v, prefix, base);
    HoldsParts(file, base, dict.Bytes(), data.Bytes());
    DictionaryPageRead(f, codec, n, dictBody, file, base);
    PageReadsBack(f, codec, false, head.numValues, v.encoding, body, file, base + dict.OnDisk());
    h := DataPage(head.numValues, v.encoding, |body|, |data.data|);
    PagesRead(f, codec, col, file, LeafPages(f, codec, head, v, prefix, base).meta.value, h, body);
  }

  /** A dictionary chunk is its two pages, one after the other. */
  lemma {:induction false} DictLayout(f: Foreign, codec: Codec, head: ChunkHead, v: ValuePages, prefix: bytes, base: nat)
    returns (dict: EncodedPage, data: EncodedPage)
    requires v.dict.Some? && LeafPages(f, codec, head, v, prefix, base).meta.Some?
    ensures PagesFit(v)
    ensures EncodePage(f, codec, true, v.dict.value.0, PLAIN, v.dict.value.1) == Some(dict)
    ensures EncodePage(f, codec, false, head.numValues, v.encoding, prefix + v.body) == Some(data)
    ensures var w := LeafPages(f, codec, head, v, prefix, base);
      w.bytes == dict.Bytes() + data.Bytes() && w.meta.value.dictionaryPageOffset == Some(base) && w.meta.value.dataPageOffset == base + dict.OnDisk()
  {
    dict := EncodePage(f, codec, true, v.dict.value.0, PLAIN, v.dict.value.1).value;
    data := EncodePage(f, codec, false, head.numValues, v.encoding, prefix + v.body).value;
  }

  /** A chunk with a dictionary page and a data page that can be read. */
  lemma {:induction false} PagesRead(f: Foreign, codec: Codec, col: Column, file: bytes, m: ChunkMeta, h: PageHeader, body: bytes)
    requires m.dictionaryPageOffset.Some? && ReadDictionaryPage(f, codec, file, m.dictionaryPageOffset.value).Some?
    requires ReadPage(f, codec, file, m.dataPageOffset) == Some((h, body))
    ensures ReadChunk(f, codec, col, file, m)
      == ReadDataPage(f, col, ReadDictionaryPage(f, codec, file, m.dictionaryPageOffset.value), h, body)
  {
  }

  lemma {:induction false} DictionaryPageRead(f: Foreign, codec: Codec, n: nat, dictBody: bytes, file: bytes, at: nat)
    requires FaithfulPages(f) && EncodePage(f, codec, true, n, PLAIN, dictBody).Some?
    requires Holds(file, at, EncodePage(f, codec, true, n, PLAIN, dictBody).value.Bytes())
    ensures ReadDictionaryPage(f, codec, file, at) == ReadStrings(n, dictBody)
  {
    PageReadsBack(f, codec, true, n, PLAIN, dictBody, file, at);
  }

  /** A chunk reads back as the levels and values it was written from. */
  lemma {:induction false} ChunkReadsBack(f: Foreign, codec: Codec, head: ChunkHead, v: ValuePages, prefix: bytes, base: nat, file: bytes,
      col: Column, ls: seq<Level>, vs: seq<Scalar>)
    requires FaithfulPages(f) && LeafPages(f, codec, head, v, prefix, base).meta.Some?
    requires Holds(file, base, LeafPages(f, codec, head, v, prefix, base).bytes)
    requires v.dict.Some? ==> ReadDict(v).Some?
    requires ReadLevels(f, col.maxDef, col.maxRep, head.numValues, prefix + v.body) == Some((ls, v.body)) && CountDef(ls, col.maxDef) == |vs|
    requires ReadValues(f, col.physical, KindOf(col.physical, col.typeLength, col.converted), v.encoding, ReadDict(v), |vs|, v.body) == Some(vs)
    ensures ReadChunk(f, codec, col, file, LeafPages(f, codec, head, v, prefix, base).meta.value) == Some((ls, vs))
  {
    if v.dict.Some? {
      var h := DictChunkRead(f, codec, head, v, prefix, base, file, col);
    } else {
      var h := PlainChunkRead(f, codec, head, v, prefix, base, file, col);
    }
  }

  // ---- what a chunk's record says of its pages ------------------------------------------------

  /** The header of the page at an offset, and the page's size on disk and uncompressed, its header included. */
  function PageSizes(f: Foreign, file: bytes, at: nat): Option<(PageHeader, nat, nat)> {
    if at > |file| then None else
    match f.readHeader(file[at..])
    case None => None
    case Some((h, n)) => Some((h, n + h.compressed, n + h.uncompressed))
  }

  /**
   The record says where the chunk starts, which is at the dictionary page if there is one, that the data
   page follows it, what the pages' sizes add up to, and which encodings they use.
   */
  predicate PagesCounted(f: Foreign, file: bytes, m: ChunkMeta, hasLevels: bool) {
    var levels := if hasLevels then [RLE] else [];
    match PageSizes(f, file, m.dataPageOffset)
    case None => false
    case Some((data, onDisk, uncompressed)) =>
      data.DataPage? && data.numValues == m.numValues &&
      match m.dictionaryPageOffset
      case None =>
        && m.fileOffset == m.dataPageOffset && m.totalCompressed == onDisk && m.totalUncompressed == uncompressed
        && m.encodings == [data.encoding] + levels
      case Some(at) =>
        match PageSizes(f, file, at)
        case None => false
        case Some((dict, dictOnDisk, dictUncompressed)) =>
          && dict.DictionaryPage? && m.fileOffset == at && m.dataPageOffset == at + dictOnDisk
          && m.totalCompressed == dictOnDisk + onDisk && m.totalUncompressed == dictUncompressed + uncompressed
          && m.encodings == [PLAIN, data.encoding] + levels
  }

  lemma {:induction false} PageSized(f: Foreign, codec: Codec, dict: bool, n: nat, encoding: Encoding, body: bytes, file: bytes, at: nat)
    requires FaithfulPages(f) && EncodePage(f, codec, dict, n, encoding, body).Some?
    requires Holds(file, at, EncodePage(f, codec, dict, n, encoding, body).value.Bytes())
    ensures var p := EncodePage(f, codec, dict, n, encoding, body).value;
      PageSizes(f, file, at) == Some((HeaderFor(dict, n, encoding, |body|, |p.data|), p.OnDisk(), p.Uncompressed()))
  {
    var p := EncodePage(f, codec, dict, n, encoding, body).value;
    var h := HeaderFor(dict, n, encoding, |body|, |p.data|);
    assert file[at..at + p.OnDisk()][..|p.header|] == p.header;
    assert file[at..] == p.header + file[at + |p.header|..];
    assert f.readHeader(f.header(h).value + file[at + |p.header|..]) == Some((h, |p.header|));
  }

  /** The record of a chunk that was written is right about its pages. */
  lemma {:induction false} ChunkCounted(f: Foreign, codec: Codec, head: ChunkHead, v: ValuePages, prefix: bytes, base: nat, file: bytes)
    requires FaithfulPages(f) && LeafPages(f, codec, head, v, prefix, base).meta.Some?
    requires Holds(file, base, LeafPages(f, codec, head, v, prefix, base).bytes)
    ensures PagesCounted(f, file, LeafPages(f, codec, head, v, prefix, base).meta.value, head.hasLevels)
  {
    if v.dict.Some? {
      var dict, data := DictLayout(f, codec, head, v, prefix, base);
      HoldsParts(file, base, dict.Bytes(), data.Bytes());
      PageSized(f, codec, true, v.dict.value.0, PLAIN, v.dict.value.1, file, base);
      PageSized(f, codec, false, head.numValues, v.encoding, prefix + v.body, file, base + dict.OnDisk());
    } else {
      PageSized(f, codec, false, head.numValues, v.encoding, prefix + v.body, file, base);
    }
  }
}
