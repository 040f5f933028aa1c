/**
 `build_node`: fields and their column arguments as one Arrow tree, and the proof that the rows the
 writer takes from a leaf are the ones that were passed: null where the leaf or a group around it is
 masked out, the column's own value everywhere else.
 */
module SoaNodes {
  import opened Bits
  import opened Arrow
  import opened Schema
  import opened PlainValues
  import opened Soa

  datatype ColumnElements =
    | FixedElements(format: string, elems: seq<bytes>)
    | BoolElements(bits: seq<bool>)
    | TextElements(binary: bool, large: bool, texts: seq<bytes>)
  {
    function Count(): nat {
      match this case FixedElements(_, es) => |es| case BoolElements(bs) => |bs| case TextElements(_, _, ts) => |ts|
    }
    function Format(): string {
      match this
      case FixedElements(f, _) => f
      case BoolElements(_) => "b"
      case TextElements(binary, large, _) => if binary then (if large then "Z" else "z") else if large then "U" else "u"
    }
  }

  /** A field with the argument passed for it; a group's `rows` are its mask's, if it has one. */
  datatype Node =
    | LeafNode(name: string, nullable: bool, elements: ColumnElements, validity: Validity)
    | GroupNode(name: string, nullable: bool, children: seq<Node>, validity: Validity, rows: Option<nat>)

  function SchemaOf(node: Node): ArrowSchema {
    match node
    case LeafNode(name, nullable, elements, _) => ArrowSchema(elements.Format(), name, nullable, [])
    case GroupNode(name, nullable, children, _, _) =>
      ArrowSchema("+s", name, nullable, seq(|children|, i requires 0 <= i < |children| => SchemaOf(children[i])))
  }

  function Concat(es: seq<bytes>): bytes {
    if es == [] then [] else Concat(es[..|es| - 1]) + es[|es| - 1]
  }

  // ---- filling the buffers --------------------------------------------------------------------

  /** A string column's own bitmap is read for every string that is passed. */
  predicate Masked(elements: ColumnElements, v: Validity) {
    elements.TextElements? ==> Covers(v.bitmap, |elements.texts|)
  }

  /** How many offsets, or bytes of booleans, a leaf of `n` rows makes room for. */
  function Room(elements: ColumnElements, n: nat): nat {
    match elements
    case FixedElements(_, _) => 0
    case BoolElements(_) => (n + 7) / 8
    case TextElements(_, _, _) => n + 1
  }

  /** Filling the buffers writes element `at` of the offsets or of the booleans' bytes. */
  ghost predicate Writes(elements: ColumnElements, at: nat) {
    match elements
    case FixedElements(_, _) => false
    case BoolElements(bs) => exists i: nat :: i < |bs| && bs[i] && At(i, at)
    case TextElements(_, _, ts) => at <= |ts|
  }

  predicate At(i: nat, at: nat) { i / 8 == at }

  ghost predicate WritesInside(elements: ColumnElements, n: nat) {
    forall at: nat :: Writes(elements, at) ==> at < Room(elements, n)
  }

  /** What a caller can check: no more strings than rows, no true value beyond the rows' bytes. */
  predicate NotTooLong(elements: ColumnElements, n: nat) {
    match elements
    case FixedElements(_, _) => true
    case BoolElements(bs) => BoolsInside(bs, n)
    case TextElements(_, _, ts) => |ts| <= n
  }

  /** That is exactly when the buffers, made for `n` rows, are not written beyond their ends. */
  lemma {:induction false} FillsInsideIff(elements: ColumnElements, n: nat)
    ensures WritesInside(elements, n) <==> NotTooLong(elements, n)
    ensures elements.BoolElements? && elements.Count() <= 8 * ((n + 7) / 8) ==> NotTooLong(elements, n)
  {
    match elements
    case FixedElements(_, _) =>
    case TextElements(_, _, ts) => assert Writes(elements, |ts|);
    case BoolElements(bs) =>
      if BoolsInside(bs, n) {
        forall at: nat | Writes(elements, at) ensures at < (n + 7) / 8 { var i: nat :| i < |bs| && bs[i] && At(i, at); }
      } else {
        var i :| 8 * ((n + 7) / 8) <= i < |bs| && bs[i];
        assert At(i, i / 8);
        assert Writes(elements, i / 8);
      }
  }

  /** The array of a leaf; it is only right if there are `n` elements. */
  function LeafArrayOf(elements: ColumnElements, v: Validity, n: nat): ArrowArray
    requires Masked(elements, v) && NotTooLong(elements, n)
  {
    match elements
    case FixedElements(_, es) => ArrowArray(n, v.nullCount, 0, 2, v.bitmap, None, Concat(es), [])
    case BoolElements(bs) => ArrowArray(n, v.nullCount, 0, 2, v.bitmap, None, MaskBits(bs, n, |bs|), [])
    case TextElements(_, large, ts) =>
      ArrowArray(n, v.nullCount, 0, 3, v.bitmap, Some(StringOffsets(ts, v.bitmap, large, |ts|) + Unwritten(|ts|, n)),
        StringData(ts, v.bitmap, |ts|), [])
  }

  predicate AllMasked(node: Node) {
    match node
    case LeafNode(_, _, elements, v) => Masked(elements, v)
    case GroupNode(_, _, children, _, _) => forall i :: 0 <= i < |children| ==> AllMasked(children[i])
  }

  predicate NoneTooLong(node: Node, n: nat) {
    match node
    case LeafNode(_, _, elements, _) => NotTooLong(elements, n)
    case GroupNode(_, _, children, _, _) => forall i :: 0 <= i < |children| ==> NoneTooLong(children[i], n)
  }

  function ArrayOf(node: Node, n: nat): ArrowArray
    requires AllMasked(node) && NoneTooLong(node, n)
  {
    match node
    case LeafNode(_, _, elements, v) => LeafArrayOf(elements, v, n)
    case GroupNode(_, nullable, children, v, _) =>
      ArrowArray(n, if nullable then v.nullCount else 0, 0, 1, if nullable then v.bitmap else None, None, [],
        seq(|children|, i requires 0 <= i < |children| => ArrayOf(children[i], n)))
  }

  /** Every column has `n` elements and every group's mask `n` rows. */
  predicate Rectangular(node: Node, n: nat) {
    match node
    case LeafNode(_, _, elements, _) => elements.Count() == n
    case GroupNode(_, nullable, children, _, rows) =>
      (nullable && rows.Some? ==> rows.value == n) && forall i :: 0 <= i < |children| ==> Rectangular(children[i], n)
  }

  /** Every row count in a field: those of its columns, and of its groups' masks. */
  function RowCounts(node: Node): seq<nat>
    decreases node, 1, 0
  {
    match node
    case LeafNode(_, _, elements, _) => [elements.Count()]
    case GroupNode(_, nullable, children, _, rows) => (if nullable && rows.Some? then [rows.value] else []) + ChildCounts(node, |children|)
  }

  function ChildCounts(node: Node, i: nat): seq<nat>
    requires node.GroupNode? && i <= |node.children|
    decreases node, 0, i
  {
    if i == 0 then [] else ChildCounts(node, i - 1) + RowCounts(node.children[i - 1])
  }

  ghost predicate AllAre(counts: seq<nat>, n: nat) {
    forall i :: 0 <= i < |counts| ==> counts[i] == n
  }

  lemma {:induction false} AllAreJoined(a: seq<nat>, b: seq<nat>, n: nat)
    ensures AllAre(a + b, n) <==> AllAre(a, n) && AllAre(b, n)
  {
    if AllAre(a + b, n) {
      assert forall i :: 0 <= i < |a| ==> a[i] == (a + b)[i];
      assert forall i :: 0 <= i < |b| ==> b[i] == (a + b)[|a| + i];
    }
  }

  /** A field is refused exactly if one of its row counts is another than the chunk's. */
  lemma {:induction false} RectangularIff(node: Node, n: nat)
    ensures Rectangular(node, n) <==> AllAre(RowCounts(node), n)
    decreases node, 1, 0
  {
    match node
    case LeafNode(_, _, elements, _) => assert RowCounts(node)[0] == elements.Count();
    case GroupNode(_, nullable, children, _, rows) =>
      var own: seq<nat> := if nullable && rows.Some? then [rows.value] else [];
      AllAreJoined(own, ChildCounts(node, |children|), n);
      assert own != [] ==> own[0] == rows.value;
      ChildrenIff(node, |children|, n);
  }

  lemma {:induction false} ChildrenIff(node: Node, i: nat, n: nat)
    requires node.GroupNode? && i <= |node.children|
    ensures AllAre(ChildCounts(node, i), n) <==> forall k :: 0 <= k < i ==> Rectangular(node.children[k], n)
    decreases node, 0, i
  {
    if i > 0 {
      ChildrenIff(node, i - 1, n);
      RectangularIff(node.children[i - 1], n);
      AllAreJoined(ChildCounts(node, i - 1), RowCounts(node.children[i - 1]), n);
    }
  }

  lemma {:induction false} RectangularFits(node: Node, n: nat)
    requires Rectangular(node, n)
    ensures NoneTooLong(node, n)
  {
    if node.GroupNode? {
      forall i | 0 <= i < |node.children| ensures NoneTooLong(node.children[i], n) { RectangularFits(node.children[i], n); }
    }
  }

  /** What `build_node` leaves; a buffer that is written beyond its end leaves nothing to rely on. */
  datatype Built = Overrun | Built(schema: ArrowSchema, data: ArrowArray, ok: bool)

  function BuiltOf(node: Node, n: nat): Built
    requires AllMasked(node)
  {
    if NoneTooLong(node, n) then Built(SchemaOf(node), ArrayOf(node, n), Rectangular(node, n)) else Overrun
  }

  /** `build_node` */
  method BuildNode(node: Node, n: nat) returns (b: Built)
    requires AllMasked(node)
    ensures b == BuiltOf(node, n)
    decreases node, 1
  {
    match node {
      case LeafNode(name, nullable, elements, v) =>
        b := BuildLeaf(node, n);
      case GroupNode(name, nullable, children, v, rows) =>
        var schemas, arrays, ok, inside := BuildChildren(node, n);
        if !inside { return Overrun; }
        if nullable && rows.Some? && rows.value != n { ok := false; }
        b := Built(ArrowSchema("+s", name, nullable, schemas),
          ArrowArray(n, if nullable then v.nullCount else 0, 0, 1, if nullable then v.bitmap else None, None, [], arrays), ok);
    }
  }

  method BuildLeaf(node: Node, n: nat) returns (b: Built)
    requires node.LeafNode? && AllMasked(node)
    ensures b == BuiltOf(node, n)
  {
    var elements, v := node.elements, node.validity;
    var schema, ok := ArrowSchema(elements.Format(), node.name, node.nullable, []), elements.Count() == n;
    match elements {
      case TextElements(_, large, ts) =>
        var off, dat, inside := BuildStrings(ts, v.bitmap, large, n);
        if !inside { return Overrun; }
        b := Built(schema, ArrowArray(n, v.nullCount, 0, 3, v.bitmap, Some(off[..]), dat, []), ok);
      case BoolElements(bs) =>
        var packed, inside := PackBools(bs, n);
        if !inside { return Overrun; }
        b := Built(schema, ArrowArray(n, v.nullCount, 0, 2, v.bitmap, None, packed[..], []), ok);
      case FixedElements(_, es) =>
        b := Built(schema, ArrowArray(n, v.nullCount, 0, 2, v.bitmap, None, Concat(es), []), ok);
    }
  }

  method BuildChildren(node: Node, n: nat) returns (schemas: seq<ArrowSchema>, arrays: seq<ArrowArray>, ok: bool, inside: bool)
    requires node.GroupNode? && AllMasked(node)
    ensures inside == NoneTooLong(node, n)
    ensures inside ==> schemas == SchemaOf(node).children && arrays == ArrayOf(node, n).children
    ensures inside ==> (ok <==> forall i :: 0 <= i < |node.children| ==> Rectangular(node.children[i], n))
    decreases node, 0
  {
    schemas, arrays, ok := [], [], true;
    var i := 0;
    while i < |node.children|
      invariant 0 <= i <= |node.children| && |schemas| == |arrays| == i
      invariant forall k :: 0 <= k < i ==> NoneTooLong(node.children[k], n)
      invariant forall k :: 0 <= k < i ==> schemas[k] == SchemaOf(node.children[k]) && arrays[k] == ArrayOf(node.children[k], n)
      invariant ok <==> forall k :: 0 <= k < i ==> Rectangular(node.children[k], n)
    {
      var one := BuildNode(node.children[i], n);
      if one.Overrun? { return schemas, arrays, ok, false; }
      schemas, arrays, ok := schemas + [one.schema], arrays + [one.data], ok && one.ok;
      i := i + 1;
    }
    return schemas, arrays, ok, true;
  }

  // ---- what was passed ------------------------------------------------------------------------

  /** The column that a leaf's format stands for; the front end's own formats are all supported. */
  ghost predicate Typed(name: string, nullable: bool, elements: ColumnElements) {
    var spec := MapFormat(elements.Format(), name, nullable);
    elements.FixedElements? ==>
      && spec.Some?
      && (spec.value.extract.MemcpyFixed? || (spec.value.extract.WidenInt? && 1 <= spec.value.srcWidth <= 2))
      && forall i :: 0 <= i < |elements.elems| ==> |elements.elems[i]| == spec.value.srcWidth
  }

  /** An argument as the front end's own wrappers make it: honest masks, string data within the offset type. */
  ghost predicate Proper(node: Node, n: nat)
    requires AllMasked(node)
  {
    match node
    case LeafNode(name, nullable, elements, v) =>
      && Honest(v, n) && (!nullable ==> v.nullCount == 0) && Typed(name, nullable, elements)
      && (elements.TextElements? ==> |StringData(elements.texts, v.bitmap, |elements.texts|)| < Limit(elements.large))
    case GroupNode(_, nullable, children, v, _) =>
      (nullable ==> Honest(v, n)) && forall i :: 0 <= i < |children| ==> Proper(children[i], n)
  }

  function SpecOf(node: Node): Option<ColumnSpec>
    requires node.LeafNode?
  {
    MapFormat(node.elements.Format(), node.name, node.nullable)
  }

  /** Element `i` of a column. */
  function ElementAt(node: Node, i: nat): Scalar
    requires node.LeafNode? && i < node.elements.Count() && SpecOf(node).Some?
  {
    match node.elements
    case FixedElements(_, es) => if SpecOf(node).value.extract.WidenInt? then Int(IntegerOf(es[i], SpecOf(node).value.signExtend)) else Raw(es[i])
    case BoolElements(bs) => Truth(bs[i])
    case TextElements(_, _, ts) => Raw(ts[i])
  }

  lemma {:induction false} ConcatSize(es: seq<bytes>, w: nat)
    requires forall i :: 0 <= i < |es| ==> |es[i]| == w
    ensures |Concat(es)| == SizeOf(|es|, w)
  {
    if es != [] { ConcatSize(es[..|es| - 1], w); }
  }

  lemma {:induction false} ConcatSlot(es: seq<bytes>, w: nat, i: nat)
    requires i < |es| && forall k :: 0 <= k < |es| ==> |es[k]| == w
    ensures |Concat(es)| == SizeOf(|es|, w) && Slot(Concat(es), w, |es|, i) == es[i]
  {
    ConcatSize(es, w);
    ConcatSize(es[..|es| - 1], w);
    SizeOfMonotone(i + 1, |es|, w);
    if i < |es| - 1 {
      ConcatSlot(es[..|es| - 1], w, i);
      SizeOfMonotone(i + 1, |es| - 1, w);
    }
  }

  /** An argument as the front end takes it, for a chunk of `n` rows. */
  ghost predicate Passed(node: Node, n: nat) {
    AllMasked(node) && NoneTooLong(node, n) && Proper(node, n) && Rectangular(node, n)
  }

  /** The leaf array's buffers are those that its type calls for, and hold the column's elements. */
  ghost predicate HoldsElements(node: Node, n: nat)
    requires node.LeafNode? && Passed(node, n)
  {
    var a := ArrayOf(node, n);
    && SpecOf(node).Some? && !SpecOf(node).value.extract.NullValues?
    && LeafBacked(SpecOf(node).value, a) && a.length == n == node.elements.Count()
    && (forall i :: 0 <= i < n ==> EntryBacked(SpecOf(node).value, a, i))
    && forall i :: 0 <= i < n && ValidBit(node.validity.bitmap, i) ==> ScalarAt(SpecOf(node).value, a, i) == ElementAt(node, i)
  }

  lemma {:induction false} LeafHolds(node: Node, n: nat)
    requires node.LeafNode? && Passed(node, n)
    ensures HoldsElements(node, n)
  {
    match node.elements
    case FixedElements(_, _) => FixedHolds(node, n);
    case BoolElements(_) => BoolsHold(node, n);
    case TextElements(_, _, _) => TextsHold(node, n);
  }

  lemma {:induction false} FixedHolds(node: Node, n: nat)
    requires node.LeafNode? && Passed(node, n) && node.elements.FixedElements?
    ensures HoldsElements(node, n)
  {
    var es, spec := node.elements.elems, SpecOf(node).value;
    ConcatSize(es, spec.srcWidth);
    forall i | 0 <= i < n ensures Slot(ArrayOf(node, n).values, spec.srcWidth, n, i) == es[i] {
      ConcatSlot(es, spec.srcWidth, i);
    }
  }

  lemma {:induction false} BoolsHold(node: Node, n: nat)
    requires node.LeafNode? && Passed(node, n) && node.elements.BoolElements?
    ensures HoldsElements(node, n)
  {
    MaskBitsAt(node.elements.bits, n, n);
  }

  lemma {:induction false} TextsHold(node: Node, n: nat)
    requires node.LeafNode? && Passed(node, n) && node.elements.TextElements?
    ensures HoldsElements(node, n)
  {
    var ts, v, large := node.elements.texts, node.validity, node.elements.large;
    AllWritten(ts, v.bitmap, large, n);
    TextEntries(SpecOf(node).value, ArrayOf(node, n), ts, v.bitmap, large, n);
  }

  lemma {:induction false} AllWritten(ts: seq<bytes>, validity: Option<bytes>, large: bool, n: nat)
    requires |ts| == n && Covers(validity, n)
    ensures StringOffsets(ts, validity, large, n) + Unwritten(n, n) == StringOffsets(ts, validity, large, n)
  {
    assert Unwritten(n, n) == [];
  }

  /** What the string buffers hold, for any array that has them. */
  lemma {:induction false} TextEntries(s: ColumnSpec, a: ArrowArray, ts: seq<bytes>, validity: Option<bytes>, large: bool, n: nat)
    requires s.extract.ByteArray? && |ts| == n == a.length && Covers(validity, n) && a.offset == 0 && a.validity == validity && a.children == []
    requires a.offsets == Some(StringOffsets(ts, validity, large, n)) && a.values == StringData(ts, validity, n)
    requires |StringData(ts, validity, n)| < Limit(large)
    ensures LeafBacked(s, a) && forall i :: 0 <= i < n ==> EntryBacked(s, a, i)
    ensures forall i :: 0 <= i < n && ValidBit(validity, i) ==> ScalarAt(s, a, i) == Raw(ts[i])
  {
    StringsRead(ts, validity, large, n);
  }
}
