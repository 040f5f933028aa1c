/**
 Byte-array pages: a first-occurrence dictionary with indices against PLAIN, whichever is smaller.
 */
module Dictionary {
  import opened Bits
  import opened RleBitpack
  import opened PlainValues

  /** The first position of a value, or the length if there is none. */
  function IndexIn(dict: seq<bytes>, v: bytes): (i: nat)
    ensures i <= |dict| && (i < |dict| ==> dict[i] == v) && (i == |dict| ==> v !in dict)
    ensures forall j :: 0 <= j < i ==> dict[j] != v
  {
    if dict == [] then 0 else if dict[0] == v then 0 else 1 + IndexIn(dict[1..], v)
  }

  /** The distinct values, in order of first occurrence. */
  function Distinct(vs: seq<bytes>): seq<bytes> {
    if vs == [] then [] else
      var dict := Distinct(vs[..|vs| - 1]);
      if vs[|vs| - 1] in dict then dict else dict + [vs[|vs| - 1]]
  }

  /** Each value's index, as it was when the value came. */
  function Indices(vs: seq<bytes>): (ix: seq<nat>)
    ensures |ix| == |vs|
  {
    if vs == [] then [] else Indices(vs[..|vs| - 1]) + [IndexIn(Distinct(vs[..|vs| - 1]), vs[|vs| - 1])]
  }

  /** The dictionary has the values' set of values, each once. */
  lemma {:induction false} DistinctIsSet(vs: seq<bytes>)
    ensures forall v :: v in Distinct(vs) <==> v in vs
    ensures forall i, j :: 0 <= i < j < |Distinct(vs)| ==> Distinct(vs)[i] != Distinct(vs)[j]
    ensures |Distinct(vs)| <= |vs|
  {
    if vs != [] {
      DistinctIsSet(vs[..|vs| - 1]);
      assert vs == vs[..|vs| - 1] + [vs[|vs| - 1]];
    }
  }

  /** Looking the indices up in the finished dictionary gives the values back. */
  lemma {:induction false} IndicesDecode(vs: seq<bytes>)
    ensures forall i :: 0 <= i < |vs| ==> Indices(vs)[i] < |Distinct(vs)| && Distinct(vs)[Indices(vs)[i]] == vs[i]
  {
    if vs != [] {
      IndicesDecode(vs[..|vs| - 1]);
    }
  }

  /** Every index fits the dictionary's bit width. */
  lemma {:induction false} IndicesFit(vs: seq<bytes>)
    ensures forall i :: 0 <= i < |vs| ==> Indices(vs)[i] < Pow2(BitWidth(|Distinct(vs)|))
  {
    IndicesDecode(vs);
    BitWidthIsMinimal(|Distinct(vs)|, BitWidth(|Distinct(vs)|));
  }

  /** A least (or greatest) value in any order: chunk statistics over the dictionary are those over all the values. */
  ghost predicate IsExtreme(before: (bytes, bytes) -> bool, m: bytes, vs: seq<bytes>) {
    m in vs && forall v :: v in vs ==> before(m, v)
  }

  lemma {:induction false} ExtremesOfDistinct(before: (bytes, bytes) -> bool, m: bytes, vs: seq<bytes>)
    ensures IsExtreme(before, m, Distinct(vs)) <==> IsExtreme(before, m, vs)
  {
    DistinctIsSet(vs);
  }

  /** `string_dictionary::index_of` for one value after another. */
  method BuildDictionary(vs: seq<bytes>) returns (dict: seq<bytes>, indices: seq<nat>)
    ensures dict == Distinct(vs) && indices == Indices(vs)
  {
    dict, indices := [], [];
    var i := 0;
    while i < |vs|
      invariant 0 <= i <= |vs|
      invariant dict == Distinct(vs[..i]) && indices == Indices(vs[..i])
    {
      assert vs[..i + 1][..i] == vs[..i];
      var at := IndexIn(dict, vs[i]);
      indices := indices + [at];
      if at == |dict| { dict := dict + [vs[i]]; }
      i := i + 1;
    }
    assert vs[..|vs|] == vs;
  }

  /** The pages of a byte-array column before levels, compression and headers. */
  datatype StringPages =
    | PlainPage(body: bytes)
    | DictionaryPages(dictCount: nat, dictBody: bytes, body: bytes)
  {
    function Size(): nat {
      match this
      case PlainPage(body) => |body|
      case DictionaryPages(_, dictBody, body) => |dictBody| + |body|
    }
  }

  /** The dictionary layout: distinct values, then the bit width and the index runs. */
  function DictionaryLayout(rle: (seq<nat>, nat) -> bytes, vs: seq<bytes>): StringPages {
    var dict := Distinct(vs);
    DictionaryPages(|dict|, StringsBody(dict), [BitWidth(|dict|) % 256] + rle(Indices(vs), BitWidth(|dict|)))
  }

  function AutoPages(rle: (seq<nat>, nat) -> bytes, vs: seq<bytes>): StringPages {
    if StringsSize(vs) < DictionaryLayout(rle, vs).Size() then PlainPage(StringsBody(vs)) else DictionaryLayout(rle, vs)
  }

  /** The layout that is kept is the smaller of the two, and takes as many bytes as were reckoned. */
  lemma {:induction false} AutoPagesSmallest(rle: (seq<nat>, nat) -> bytes, vs: seq<bytes>)
    ensures AutoPages(rle, vs).Size() <= |StringsBody(vs)|
    ensures AutoPages(rle, vs).Size() <= DictionaryLayout(rle, vs).Size()
    ensures AutoPages(rle, vs) == PlainPage(StringsBody(vs)) || AutoPages(rle, vs) == DictionaryLayout(rle, vs)
    ensures DictionaryLayout(rle, vs).Size() == StringsSize(Distinct(vs)) + 1 + |rle(Indices(vs), BitWidth(|Distinct(vs)|))|
  {
    StringsBodySize(vs);
    StringsBodySize(Distinct(vs));
  }

  /** PLAIN bodies are appended value by value. */
  method PlainStrings(vs: seq<bytes>) returns (body: bytes)
    ensures body == StringsBody(vs)
  {
    body := [];
    var i := 0;
    while i < |vs|
      invariant 0 <= i <= |vs|
      invariant body == StringsBody(vs[..i])
    {
      StringsSnoc(vs[..i], vs[i]);
      assert vs[..i + 1] == vs[..i] + [vs[i]];
      body := body + Le32(|vs[i]|);
      body := body + vs[i];
      i := i + 1;
    }
    assert vs[..|vs|] == vs;
  }

  /** The AUTO case of `build_byte_array_pages`, with the sizes reckoned before anything is built. */
  method BuildAutoPages(rle: (seq<nat>, nat) -> bytes, vs: seq<bytes>) returns (pages: StringPages)
    ensures pages == AutoPages(rle, vs)
  {
    var valueBytes := TotalLength(vs);
    var dict, indices := BuildDictionary(vs);
    var dictBytes := TotalLength(dict);
    var dictBodyBytes := 4 * |dict| + dictBytes;
    var width := DictionaryBitWidth(|dict|);
    var encoded := rle(indices, width);
    var dictTotal := dictBodyBytes + 1 + |encoded|;
    var plainTotal := 4 * |vs| + valueBytes;
    StringsBodySize(dict);
    if plainTotal < dictTotal {
      var body := PlainStrings(vs);
      return PlainPage(body);
    }
    var dictBody := PlainStrings(dict);
    pages := DictionaryPages(|dict|, dictBody, [width % 256] + encoded);
  }

  method TotalLength(vs: seq<bytes>) returns (n: nat)
    ensures StringsSize(vs) == 4 * |vs| + n
  {
    n := 0;
    var i := 0;
    while i < |vs|
      invariant 0 <= i <= |vs|
      invariant StringsSize(vs[..i]) == 4 * i + n
    {
      StringsSnoc(vs[..i], vs[i]);
      assert vs[..i + 1] == vs[..i] + [vs[i]];
      n := n + |vs[i]|;
      i := i + 1;
    }
    assert vs[..|vs|] == vs;
  }

  // ---- the reader's side ----------------------------------------------------------------------

  /** Look each index up; none if one is out of range. */
  function LookUp(dict: seq<bytes>, ix: seq<nat>): (vs: Option<seq<bytes>>)
    ensures vs.Some? ==> |vs.value| == |ix| && forall i :: 0 <= i < |ix| ==> ix[i] < |dict| && vs.value[i] == dict[ix[i]]
    ensures (forall i :: 0 <= i < |ix| ==> ix[i] < |dict|) ==> vs.Some?
  {
    if ix == [] then Some([])
    else if ix[0] >= |dict| then None
    else match LookUp(dict, ix[1..])
      case None => None
      case Some(vs) => Some([dict[ix[0]]] + vs)
  }

  lemma {:induction false} LookUpIndices(vs: seq<bytes>)
    ensures LookUp(Distinct(vs), Indices(vs)) == Some(vs)
  {
    IndicesDecode(vs);
    assert LookUp(Distinct(vs), Indices(vs)).value == vs;
  }
}
