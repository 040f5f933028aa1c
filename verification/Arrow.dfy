/**
 Arrow C Data Interface trees, as the writer reads them. A buffer that is a null pointer, or that
 the array does not have, is `None`.
 */
module Arrow {
  import opened Bits

  datatype ArrowSchema = ArrowSchema(format: string, name: string, nullable: bool, children: seq<ArrowSchema>)

  datatype ArrowArray = ArrowArray(
    length: int,
    nullCount: int,
    offset: int,
    nBuffers: nat,
    validity: Option<bytes>,     // buffers[0]
    offsets: Option<seq<int>>,   // buffers[1] of lists, maps and variable-length leaves
    values: bytes,               // the data buffer of a leaf
    children: seq<ArrowArray>)

  /**
   What the producer of a tree owes its reader: every buffer it hands over is long enough for the
   array's offset and length. Nothing is said about what the buffers contain.
   */
  predicate Backed(a: ArrowArray) {
    && 0 <= a.length
    && 0 <= a.offset
    && Covers(a.validity, a.offset + a.length)
    && (a.offsets.Some? && 0 < a.length ==> a.offset + a.length < |a.offsets.value|)
    && forall i :: 0 <= i < |a.children| ==> Backed(a.children[i])
  }

  /** `Shredder::valid`: the bitmap counts only if the array admits to nulls. */
  predicate Valid(a: ArrowArray, e: int)
    requires Backed(a) && a.offset <= e < a.offset + a.length
  {
    a.nullCount == 0 || a.nBuffers < 1 || ValidBit(a.validity, e)
  }

  // ---- lists and maps, as the format defines them ---------------------------------------------

  /** Consecutive elements of an array. */
  datatype Range = Range(elements: ArrowArray, first: nat, end: nat)

  /** The elements from one position up to another, if the array has them. */
  function Between(elements: ArrowArray, first: int, end: int): Option<Range> {
    if 0 <= first <= end <= elements.length then Some(Range(elements, first, end)) else None
  }

  /** Entry `i` has an offset to start at and one to end at. */
  predicate HasOffsets(a: ArrowArray, i: int) {
    a.offsets.Some? && 0 <= i && i + 1 < |a.offsets.value|
  }

  /** Entry `i` of a list: the elements of its child from the `i`-th offset up to the next. */
  function ElementsOfList(a: ArrowArray, i: int): (r: Option<Range>)
    requires Backed(a)
    ensures r.Some? ==> Backed(r.value.elements)
  {
    if !HasOffsets(a, i) || a.children == [] then None
    else Between(a.children[0], a.offsets.value[i], a.offsets.value[i + 1])
  }

  /** The keys of entry `i` of a map: the first field of its child, a struct, between the same offsets. */
  function KeysOfMap(a: ArrowArray, i: int): (r: Option<Range>)
    requires Backed(a)
    ensures r.Some? ==> Backed(r.value.elements)
  {
    if !HasOffsets(a, i) || a.children == [] || |a.children[0].children| != 2 then None else
    var entries := a.children[0];
    assert Backed(entries);
    Between(entries.children[0], entries.offset + a.offsets.value[i], entries.offset + a.offsets.value[i + 1])
  }

  /** The values of entry `i` of a map: the second field. */
  function ValuesOfMap(a: ArrowArray, i: int): (r: Option<Range>)
    requires Backed(a)
    ensures r.Some? ==> Backed(r.value.elements)
  {
    if !HasOffsets(a, i) || a.children == [] || |a.children[0].children| != 2 then None else
    var entries := a.children[0];
    assert Backed(entries);
    Between(entries.children[1], entries.offset + a.offsets.value[i], entries.offset + a.offsets.value[i + 1])
  }
}
