/**
 A column chunk's values in the encoding that the mode selects, and the reader that knows only the
 column, the encoding and the number of values.
 */
module Values {
  import opened Bits
  import opened Arrow
  import opened RleBitpack
  import opened Schema
  import opened Footer
  import opened PlainValues
  import opened Dictionary
  import opened Codecs

  const MAX_I32: nat := 0x7FFF_FFFF

  predicate SmallInteger(converted: Option<ConvertedType>) {
    converted == Some(INT_8) || converted == Some(INT_16) || converted == Some(UINT_8) || converted == Some(UINT_16)
  }

  /** How a reader takes a column's PLAIN values apart. */
  datatype Kind = Fixed(width: nat, widened: bool) | Bools | Strings

  function KindOf(physical: PhysicalType, typeLength: Option<nat>, converted: Option<ConvertedType>): Kind {
    match physical
    case BOOLEAN => Bools
    case BYTE_ARRAY => Strings
    case FIXED_LEN_BYTE_ARRAY => Fixed(if typeLength.Some? then typeLength.value else 0, false)
    case _ => Fixed(WidthOf(physical), physical == INT32 && SmallInteger(converted))
  }

  function SpecKind(s: ColumnSpec): Kind {
    KindOf(s.physical, TypeLength(s), s.converted)
  }

  /** The way a column is extracted agrees with what its Parquet type tells a reader. */
  predicate SpecOk(s: ColumnSpec) {
    match s.extract
    case MemcpyFixed => SpecKind(s) == Fixed(s.srcWidth, false)
    case WidenInt => SpecKind(s) == Fixed(4, true) && s.physical == INT32
    case PackedBool => SpecKind(s) == Bools
    case ByteArray => SpecKind(s) == Strings
    case NullValues => SpecKind(s) == Fixed(4, false)
  }

  lemma {:induction false} MapFormatSpecOk(format: string, name: string, nullable: bool)
    requires MapFormat(format, name, nullable).Some?
    ensures SpecOk(MapFormat(format, name, nullable).value)
  {
  }

  function Raws(vs: seq<bytes>): (xs: seq<Scalar>)
    ensures |xs| == |vs|
  {
    seq(|vs|, i requires 0 <= i < |vs| => Raw(vs[i]))
  }

  /** The present strings among the first `n` entries. */
  function PresentStrings(s: ColumnSpec, a: ArrowArray, validity: Option<bytes>, n: nat): seq<bytes>
    requires LeafBacked(s, a) && s.extract.ByteArray? && n <= a.length && Covers(validity, n)
  {
    if n == 0 then [] else
      var vs := PresentStrings(s, a, validity, n - 1);
      if ValidBit(validity, n - 1) then vs + [StringAt(a.offsets.value, a.values, a.length, n - 1)] else vs
  }

  lemma {:induction false} PresentIsStrings(s: ColumnSpec, a: ArrowArray, validity: Option<bytes>, n: nat)
    requires LeafBacked(s, a) && s.extract.ByteArray? && n <= a.length && Covers(validity, n)
    ensures Present(s, a, validity, n) == Raws(PresentStrings(s, a, validity, n))
  {
    if n > 0 {
      PresentIsStrings(s, a, validity, n - 1);
      var vs := PresentStrings(s, a, validity, n - 1);
      assert forall v :: Raws(vs + [v]) == Raws(vs) + [Raw(v)];
    }
  }

  datatype ValuePages = ValuePages(encoding: Encoding, dict: Option<(nat, bytes)>, body: bytes)

  /** `encode_fixed_values` */
  function EncodeFixed(f: Foreign, s: ColumnSpec, mode: Mode, body: bytes): ValuePages {
    if mode == DELTA && (s.physical == INT32 || s.physical == INT64) then
      ValuePages(DELTA_BINARY_PACKED, None, f.deltaIntegers(s.physical, body))
    else if mode == SPLIT && (s.physical == FLOAT || s.physical == DOUBLE) then
      ValuePages(BYTE_STREAM_SPLIT, None, f.splitStreams(s.physical, body))
    else ValuePages(PLAIN, None, body)
  }

  /** `build_byte_array_pages`; none if the front coding refuses a string. */
  function EncodeStrings(f: Foreign, mode: Mode, vs: seq<bytes>): Option<ValuePages> {
    if mode == PLAIN_ONLY then Some(ValuePages(PLAIN, None, StringsBody(vs)))
    else if mode == DELTA then
      match f.deltaStrings(vs)
      case None => None
      case Some(body) => Some(ValuePages(DELTA_BYTE_ARRAY, None, body))
    else match AutoPages(f.rle, vs)
      case PlainPage(body) => Some(ValuePages(PLAIN, None, body))
      case DictionaryPages(n, dictBody, body) => Some(ValuePages(RLE_DICTIONARY, Some((n, dictBody)), body))
  }

  function BoolBody(a: ArrowArray, validity: Option<bytes>): bytes
    requires a.length >= 0 && a.length <= 8 * |a.values| && Covers(validity, a.length)
  {
    if validity.None? then a.values[..(a.length + 7) / 8] else PackBits(PresentBits(a.values, validity, a.length))
  }

  function ValuesOf(f: Foreign, mode: Mode, s: ColumnSpec, a: ArrowArray, validity: Option<bytes>): Option<ValuePages>
    requires LeafBacked(s, a) && Covers(validity, a.length)
  {
    match s.extract
    case ByteArray => EncodeStrings(f, mode, PresentStrings(s, a, validity, a.length))
    case PackedBool => Some(ValuePages(PLAIN, None, BoolBody(a, validity)))
    case NullValues => Some(ValuePages(PLAIN, None, []))
    case _ => Some(EncodeFixed(f, s, mode, FixedBody(Present(s, a, validity, a.length))))
  }

  predicate IsText(format: string) { format in ["u", "U", "z", "Z"] }

  predicate IsInteger(format: string) { format in ["c", "C", "s", "S", "i", "I", "l", "L"] }

  predicate IsFloat(format: string) { format in ["f", "g"] }

  /** Dictionary and indices together take no more bytes than the strings themselves. */
  predicate DictionaryPays(f: Foreign, vs: seq<bytes>) {
    DictionaryLayout(f.rle, vs).Size() <= |StringsBody(vs)|
  }

  /** What each mode comes to for each Arrow type. */
  function EncodingFor(mode: Mode, format: string, pays: bool): Encoding {
    match mode
    case AUTO => if IsText(format) && pays then RLE_DICTIONARY else PLAIN
    case PLAIN_ONLY => PLAIN
    case DELTA => if IsInteger(format) then DELTA_BINARY_PACKED else if IsText(format) then DELTA_BYTE_ARRAY else PLAIN
    case SPLIT => if IsFloat(format) then BYTE_STREAM_SPLIT else if IsText(format) && pays then RLE_DICTIONARY else PLAIN
  }

  /** What the formats are in Parquet's terms, and which have 64-bit offsets; the null type is an integer type without values. */
  lemma {:induction false} FormatTypes(format: string, s: ColumnSpec)
    requires MapFormat(format, s.name, s.nullable) == Some(s)
    ensures s.extract.ByteArray? <==> IsText(format)
    ensures (s.physical == INT32 || s.physical == INT64) && !s.extract.NullValues? <==> IsInteger(format)
    ensures s.physical == FLOAT || s.physical == DOUBLE <==> IsFloat(format)
    ensures s.largeOffsets <==> format == "U" || format == "Z"
    ensures IsInteger(format) || IsFloat(format) ==> s.extract.MemcpyFixed? || s.extract.WidenInt?
  {
  }

  /** A mode selects its encoding where the type has it; text is otherwise in a dictionary exactly if that pays. */
  lemma {:induction false} ModeSelects(f: Foreign, mode: Mode, format: string, s: ColumnSpec, a: ArrowArray, validity: Option<bytes>)
    requires MapFormat(format, s.name, s.nullable) == Some(s) && LeafBacked(s, a) && Covers(validity, a.length)
    ensures s.extract.ByteArray? <==> IsText(format)
    ensures var v := ValuesOf(f, mode, s, a, validity);
      && (v.None? ==> IsText(format) && mode == DELTA)
      && (v.Some? ==>
        && v.value.encoding == EncodingFor(mode, format, s.extract.ByteArray? && DictionaryPays(f, PresentStrings(s, a, validity, a.length)))
        && (v.value.dict.Some? <==> v.value.encoding == RLE_DICTIONARY))
  {
    FormatTypes(format, s);
    if s.extract.ByteArray? { TextSelects(f, mode, format, PresentStrings(s, a, validity, a.length)); }
  }

  lemma {:induction false} TextSelects(f: Foreign, mode: Mode, format: string, vs: seq<bytes>)
    requires IsText(format)
    ensures var v := EncodeStrings(f, mode, vs);
      && (v.None? ==> mode == DELTA)
      && (v.Some? ==> v.value.encoding == EncodingFor(mode, format, DictionaryPays(f, vs)) && (v.value.dict.Some? <==> v.value.encoding == RLE_DICTIONARY))
  {
    StringsBodySize(vs);
  }

  /** The value part of `write_leaf_pages`. */
  method BuildValues(f: Foreign, mode: Mode, s: ColumnSpec, a: ArrowArray, validity: Option<bytes>) returns (v: Option<ValuePages>)
    requires LeafBacked(s, a) && Covers(validity, a.length) && PresentBacked(s, a, validity)
    ensures v == ValuesOf(f, mode, s, a, validity)
  {
    match s.extract {
      case ByteArray =>
        var vs := CollectStrings(s, a, validity);
        if mode == PLAIN_ONLY {
          var body := PlainStrings(vs);
          return Some(ValuePages(PLAIN, None, body));
        } else if mode == DELTA {
          match f.deltaStrings(vs) {
            case None => return None;
            case Some(body) => return Some(ValuePages(DELTA_BYTE_ARRAY, None, body));
          }
        }
        var pages := BuildAutoPages(f.rle, vs);
        match pages {
          case PlainPage(body) => return Some(ValuePages(PLAIN, None, body));
          case DictionaryPages(n, dictBody, body) => return Some(ValuePages(RLE_DICTIONARY, Some((n, dictBody)), body));
        }
      case PackedBool =>
        var body := BuildPlainBool(a, validity);
        return Some(ValuePages(PLAIN, None, body));
      case NullValues =>
        return Some(ValuePages(PLAIN, None, []));
      case _ =>
        var body := BuildPlainFixed(a, s, validity);
        return Some(EncodeFixed(f, s, mode, body));
    }
  }

  method CollectStrings(s: ColumnSpec, a: ArrowArray, validity: Option<bytes>) returns (vs: seq<bytes>)
    requires LeafBacked(s, a) && s.extract.ByteArray? && Covers(validity, a.length) && PresentBacked(s, a, validity)
    ensures vs == PresentStrings(s, a, validity, a.length)
  {
    vs := [];
    var i := 0;
    while i < a.length
      invariant 0 <= i <= a.length && vs == PresentStrings(s, a, validity, i)
    {
      if ValidBit(validity, i) {
        assert EntryBacked(s, a, i);
        vs := vs + [a.values[a.offsets.value[i]..a.offsets.value[i + 1]]];
      }
      i := i + 1;
    }
  }

  // ---- the reader's side ----------------------------------------------------------------------

  function ReadPlain(kind: Kind, count: nat, body: bytes): Option<seq<Scalar>> {
    match kind
    case Fixed(w, widened) => ReadFixed(w, widened, count, body)
    case Bools => ReadBools(count, body)
    case Strings => match ReadStrings(count, body) case None => None case Some(vs) => Some(Raws(vs))
  }

  function ReadValues(f: Foreign, physical: PhysicalType, kind: Kind, encoding: Encoding, dict: Option<seq<bytes>>,
      count: nat, body: bytes): Option<seq<Scalar>> {
    match encoding
    case PLAIN => ReadPlain(kind, count, body)
    case DELTA_BINARY_PACKED => ReadPlain(kind, count, f.undeltaIntegers(physical, body, count))
    case BYTE_STREAM_SPLIT => ReadPlain(kind, count, f.joinStreams(physical, body, count))
    case DELTA_BYTE_ARRAY => Some(Raws(f.undeltaStrings(body, count)))
    case RLE_DICTIONARY =>
      if dict.None? || body == [] then None else
      (match LookUp(dict.value, f.unrle(body[1..], body[0], count)) case None => None case Some(vs) => Some(Raws(vs)))
    case RLE => None
  }

  /** The dictionary that a reader has, if the chunk has one. */
  function ReadDict(v: ValuePages): Option<seq<bytes>> {
    match v.dict case None => None case Some((n, body)) => ReadStrings(n, body)
  }

  ghost predicate AllFit(vs: seq<Scalar>, w: nat, widened: bool) {
    forall i :: 0 <= i < |vs| ==> FixedFits(w, widened, vs[i])
  }

  lemma {:induction false} FixedBodySize(vs: seq<Scalar>, w: nat, widened: bool)
    requires AllFit(vs, w, widened)
    ensures |FixedBody(vs)| == SizeOf(|vs|, w)
  {
    if vs != [] {
      FixedBodySize(vs[..|vs| - 1], w, widened);
      FixedBytesRead(w, widened, vs[|vs| - 1]);
    }
  }

  /** Every present entry has the form that its column promises. */
  lemma {:induction false} PresentFits(s: ColumnSpec, a: ArrowArray, validity: Option<bytes>, n: nat)
    requires LeafBacked(s, a) && n <= a.length && Covers(validity, n) && (s.extract.MemcpyFixed? || s.extract.WidenInt?)
    ensures AllFit(Present(s, a, validity, n), if s.extract.WidenInt? then 4 else s.srcWidth, s.extract.WidenInt?)
  {
    if n > 0 {
      PresentFits(s, a, validity, n - 1);
      EntryFits(s, a, n - 1);
    }
  }

  lemma {:induction false} EntryFits(s: ColumnSpec, a: ArrowArray, i: nat)
    requires LeafBacked(s, a) && i < a.length && (s.extract.MemcpyFixed? || s.extract.WidenInt?)
    ensures FixedFits(if s.extract.WidenInt? then 4 else s.srcWidth, s.extract.WidenInt?, ScalarAt(s, a, i))
  {
    if s.extract.WidenInt? {
      SmallIntegers(Slot(a.values, s.srcWidth, a.length, i), s.signExtend);
      assert ScalarAt(s, a, i) == Int(IntegerOf(Slot(a.values, s.srcWidth, a.length, i), s.signExtend));
    }
  }

  /** What the page sizes allow: no page body, and no dictionary, is beyond 31 bits. */
  predicate PagesFit(v: ValuePages) {
    |v.body| <= MAX_I32 && (v.dict.Some? ==> |v.dict.value.1| <= MAX_I32 && v.dict.value.0 <= MAX_I32)
  }

  lemma {:induction false} FixedReadsBack(f: Foreign, mode: Mode, s: ColumnSpec, vs: seq<Scalar>, w: nat, widened: bool)
    requires FaithfulValues(f) && SpecKind(s) == Fixed(w, widened) && AllFit(vs, w, widened)
    ensures var v := EncodeFixed(f, s, mode, FixedBody(vs));
      v.dict.None? && ReadValues(f, s.physical, SpecKind(s), v.encoding, None, |vs|, v.body) == Some(vs)
  {
    var body := FixedBody(vs);
    ReadFixedBody(w, widened, vs);
    FixedBodySize(vs, w, widened);
    EncodedReadsBack(f, mode, s, body, |vs|);
  }

  /** Re-encoding a PLAIN body and decoding it again changes nothing. */
  lemma {:induction false} EncodedReadsBack(f: Foreign, mode: Mode, s: ColumnSpec, body: bytes, n: nat)
    requires FaithfulValues(f) && SpecKind(s).Fixed? && |body| == SizeOf(n, SpecKind(s).width)
    ensures var v := EncodeFixed(f, s, mode, body);
      v.dict.None? && ReadValues(f, s.physical, SpecKind(s), v.encoding, None, n, v.body) == ReadPlain(SpecKind(s), n, body)
  {
    var t := s.physical;
    if mode == DELTA && (t == INT32 || t == INT64) {
      assert SpecKind(s).width == WidthOf(t);
      DeltasRead(f, t, body, n);
    } else if mode == SPLIT && (t == FLOAT || t == DOUBLE) {
      assert SpecKind(s).width == WidthOf(t);
      StreamsRead(f, t, body, n);
    }
  }

  lemma {:induction false} DeltasRead(f: Foreign, t: PhysicalType, body: bytes, n: nat)
    requires FaithfulValues(f) && |body| == SizeOf(n, WidthOf(t))
    ensures f.undeltaIntegers(t, f.deltaIntegers(t, body), n) == body
  {
  }

  lemma {:induction false} StreamsRead(f: Foreign, t: PhysicalType, body: bytes, n: nat)
    requires FaithfulValues(f) && |body| == SizeOf(n, WidthOf(t))
    ensures f.joinStreams(t, f.splitStreams(t, body), n) == body
  {
  }

  lemma {:induction false} StringsReadBack(f: Foreign, mode: Mode, vs: seq<bytes>, physical: PhysicalType)
    requires FaithfulValues(f) && FaithfulRuns(f)
    requires EncodeStrings(f, mode, vs).Some? && PagesFit(EncodeStrings(f, mode, vs).value)
    ensures var v := EncodeStrings(f, mode, vs).value;
      (v.dict.Some? ==> ReadDict(v).Some?) && ReadValues(f, physical, Strings, v.encoding, ReadDict(v), |vs|, v.body) == Some(Raws(vs))
  {
    var v := EncodeStrings(f, mode, vs).value;
    if v.dict.Some? {
      DictionaryPagesRead(f, vs, v, physical);
    } else if mode != DELTA {
      StringsBodySize(vs);
      ReadStringsBody(vs);
    }
  }

  lemma {:induction false} DictionaryPagesRead(f: Foreign, vs: seq<bytes>, v: ValuePages, physical: PhysicalType)
    requires FaithfulRuns(f) && PagesFit(v)
    requires var d := DictionaryLayout(f.rle, vs); v == ValuePages(RLE_DICTIONARY, Some((d.dictCount, d.dictBody)), d.body)
    ensures ReadDict(v).Some? && ReadValues(f, physical, Strings, v.encoding, ReadDict(v), |vs|, v.body) == Some(Raws(vs))
  {
    DictionaryReadsBack(f, vs);
  }

  lemma {:induction false} DictionaryReadsBack(f: Foreign, vs: seq<bytes>)
    requires FaithfulRuns(f)
    requires var d := DictionaryLayout(f.rle, vs); d.dictCount <= MAX_I32 && |d.dictBody| <= MAX_I32
    ensures var d := DictionaryLayout(f.rle, vs);
      && ReadStrings(d.dictCount, d.dictBody) == Some(Distinct(vs))
      && d.body != []
      && LookUp(Distinct(vs), f.unrle(d.body[1..], d.body[0], |vs|)) == Some(vs)
  {
    IndicesReadBack(f, vs);
    LayoutBody(f.rle, vs);
    StringsBodySize(Distinct(vs));
    ReadStringsBody(Distinct(vs));
  }

  lemma {:induction false} LayoutBody(rle: (seq<nat>, nat) -> bytes, vs: seq<bytes>)
    requires BitWidth(|Distinct(vs)|) < 256
    ensures var d, w := DictionaryLayout(rle, vs), BitWidth(|Distinct(vs)|);
      d.body != [] && d.body[0] == w && d.body[1..] == rle(Indices(vs), w)
  {
    var w := BitWidth(|Distinct(vs)|);
    assert w % 256 == w;
    assert ([w % 256] + rle(Indices(vs), w))[1..] == rle(Indices(vs), w);
  }

  lemma {:induction false} IndicesReadBack(f: Foreign, vs: seq<bytes>)
    requires FaithfulRuns(f) && |Distinct(vs)| <= MAX_I32
    ensures var w := BitWidth(|Distinct(vs)|);
      w < 256 && LookUp(Distinct(vs), f.unrle(f.rle(Indices(vs), w), w, |vs|)) == Some(vs)
  {
    IndicesFit(vs);
    SmallWidth(|Distinct(vs)|);
    var w := BitWidth(|Distinct(vs)|);
    assert f.unrle(f.rle(Indices(vs), w), w, |Indices(vs)|) == Indices(vs);
    LookUpIndices(vs);
  }

  lemma {:induction false} SmallWidth(n: nat)
    requires n <= MAX_U32
    ensures BitWidth(n) <= 32
  {
    assert Pow2(32) == MAX_U32 + 1 by { Pow2Bytes(0); Pow2Bytes(1); Pow2Bytes(2); Pow2Bytes(3); }
    BitWidthIsMinimal(n, 32);
  }

  /** Whatever the mode, a reader gets the present values back. */
  lemma {:induction false} ValuesReadBack(f: Foreign, mode: Mode, s: ColumnSpec, a: ArrowArray, validity: Option<bytes>)
    requires FaithfulValues(f) && FaithfulRuns(f) && SpecOk(s) && LeafBacked(s, a) && Covers(validity, a.length)
    requires ValuesOf(f, mode, s, a, validity).Some? && PagesFit(ValuesOf(f, mode, s, a, validity).value)
    requires s.extract.NullValues? ==> Present(s, a, validity, a.length) == []
    ensures var v, vs := ValuesOf(f, mode, s, a, validity).value, Present(s, a, validity, a.length);
      && (v.dict.Some? ==> ReadDict(v).Some?)
      && ReadValues(f, s.physical, SpecKind(s), v.encoding, ReadDict(v), |vs|, v.body) == Some(vs)
  {
    match s.extract
    case ByteArray =>
      PresentIsStrings(s, a, validity, a.length);
      StringsReadBack(f, mode, PresentStrings(s, a, validity, a.length), s.physical);
    case PackedBool => ReadPlainBool(s, a, validity, BoolBody(a, validity));
    case NullValues =>
    case MemcpyFixed =>
      PresentFits(s, a, validity, a.length);
      FixedReadsBack(f, mode, s, Present(s, a, validity, a.length), s.srcWidth, false);
    case WidenInt =>
      PresentFits(s, a, validity, a.length);
      FixedReadsBack(f, mode, s, Present(s, a, validity, a.length), 4, true);
  }
}
