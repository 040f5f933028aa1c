/**
 Batches that are accepted and are not what the writer takes them for: groups and batches that are
 sliced or too short, nulls where there should be none, and columns of another type.
 */
module Misread {
  import opened Bits
  import opened Arrow
  import opened Records
  import opened Shredding
  import opened Order
  import opened Projection
  import opened RleBitpack
  import opened Schema
  import opened Footer
  import opened FastPath
  import opened PlainValues
  import opened Chunks
  import opened Writing
  import opened Runs
  import opened Readback
  import opened FileReadback
  import opened RequiredNulls
  import opened Nested
  import opened RecordReadback
  import opened Witnesses

  // ---- groups of the wrong length -------------------------------------------------------------

  /** A leaf of 32-bit integers in a struct. */
  const INTEGERS := ArrowSchema("i", "v", false, [])

  function GroupPlace(nullable: bool): Where {
    TopLevel(0, ArrowSchema("+s", "s", nullable, [INTEGERS])).Child(0, INTEGERS)
  }

  function GroupLeaf(nullable: bool): LeafSpec {
    LeafColumn(ColumnSpec("v", INT32, MemcpyFixed, None, 0, 4, false, false, false), GroupPlace(nullable))
  }

  lemma {:induction false} GroupPlaceIs(nullable: bool)
    ensures var w := GroupPlace(nullable);
      WhereOk(w, false) && w.idx == [0, 0] && w.opt == [nullable, false] && !w.optional && w.steps == [PathStep(StructStep, nullable, 0, 0)]
    ensures Lists(GroupPlace(nullable).steps) == 0
  {
    var w := TopLevel(0, ArrowSchema("+s", "s", nullable, [INTEGERS]));
    assert ShapeOf([]) == [];
    ChildWhere(w, 0, INTEGERS, false);
    Extend([], PathStep(StructStep, nullable, 0, 0));
    assert GroupPlace(nullable).steps == [] + [PathStep(StructStep, nullable, 0, 0)];
  }

  lemma {:induction false} GroupLeafIs(nullable: bool)
    ensures var leaf := GroupLeaf(nullable);
      && LeafOk(leaf) && !leaf.hasList && leaf.pathIdx == [0, 0] && leaf.pathOptional == [nullable, false]
      && StepsOf(leaf) == [PathStep(StructStep, nullable, 0, 0), PathStep(LeafStep, false, 0, 0)]
  {
    var w := GroupPlace(nullable);
    GroupPlaceIs(nullable);
    LeafColumnOk(GroupLeaf(nullable).col, w, false);
    Extend(w.steps, PathStep(LeafStep, false, 0, 0));
  }

  lemma {:induction false} GroupNodes(leaf: LeafSpec, batch: ArrowArray)
    requires leaf.pathIdx == [0, 0] && |batch.children| == 1 && |batch.children[0].children| == 1
    ensures PathNodes(leaf.pathIdx, batch, 2) == Some([batch.children[0], batch.children[0].children[0]])
  {
    var none: seq<ArrowArray> := [];
    var one := [batch.children[0]];
    assert PathNodes(leaf.pathIdx, batch, 0) == Some(none);
    assert PathNodes(leaf.pathIdx, batch, 1) == Some(none + one) && none + one == one;
    assert PathNodes(leaf.pathIdx, batch, 2) == Some(one + [batch.children[0].children[0]]);
    assert one + [batch.children[0].children[0]] == [batch.children[0], batch.children[0].children[0]];
  }

  /** Nine rows, whose nullable group is eight rows long with a bitmap of one byte. */
  function ShortGroup(): ArrowArray {
    ArrowArray(9, 0, 0, 1, None, None, [], [
      ArrowArray(8, 0, 0, 1, Some([255]), None, [], [
        ArrowArray(9, 0, 0, 2, None, None, seq(36, _ => 0), [])])])
  }

  /** Every buffer is as long as its array says and the leaf is accepted, but the loop reads past the group's bitmap. */
  lemma {:induction false} ShortGroupOverreads()
    ensures var leaf, batch := GroupLeaf(true), ShortGroup();
      var nodes := [batch.children[0], batch.children[0].children[0]];
      && LeafOk(leaf) && Backed(batch) && PathNodes(leaf.pathIdx, batch, 2) == Some(nodes)
      && ValidChild(nodes[1], leaf.col, batch.length) && LeafBacked(leaf.col, nodes[1])
      && !Readable(nodes, leaf.pathOptional, batch.length)
  {
    var leaf, batch := GroupLeaf(true), ShortGroup();
    var nodes := [batch.children[0], batch.children[0].children[0]];
    GroupLeafIs(true);
    GroupNodes(leaf, batch);
    SizeOfIsProduct(9, 4);
    assert Backed(nodes[1]);
    assert Backed(nodes[0]);
    assert !Covers(nodes[0].validity, 9);
  }

  /** Two rows, whose nullable group is a slice of one row: the null second one, and behind it a value. */
  function SlicedGroup(): ArrowArray {
    ArrowArray(2, 0, 0, 1, None, None, [], [
      ArrowArray(1, 1, 1, 1, Some([1]), None, [], [
        ArrowArray(2, 0, 0, 2, None, None, [7, 0, 0, 0, 8, 0, 0, 0], [])])])
  }

  lemma {:induction false} SlicedGroupNodes()
    ensures var leaf, batch := GroupLeaf(true), SlicedGroup();
      var nodes := [batch.children[0], batch.children[0].children[0]];
      && LeafOk(leaf) && !leaf.hasList && Backed(batch) && Backed(nodes[0]) && Backed(nodes[1])
      && StepsOf(leaf) == [PathStep(StructStep, true, 0, 0), PathStep(LeafStep, false, 0, 0)]
      && LeafUsable(leaf, batch) && FlatNodes(leaf, batch) == Some(nodes)
  {
    var leaf, batch := GroupLeaf(true), SlicedGroup();
    var nodes := [batch.children[0], batch.children[0].children[0]];
    GroupLeafIs(true);
    GroupNodes(leaf, batch);
    SizeOfIsProduct(2, 4);
    assert Backed(nodes[1]);
    assert Backed(nodes[0]);
  }

  /** The fast path's view of the two nodes: row 0 is there, row 1 is not. */
  lemma {:induction false} SlicedRows(p: LeafPath, nodes: seq<ArrowArray>)
    requires p == LeafPath([PathStep(StructStep, true, 0, 0), PathStep(LeafStep, false, 0, 0)], false) && |nodes| == 2
    requires nodes[0].nBuffers > 0 && nodes[0].validity == Some([1]) && nodes[0].nullCount == 1
    ensures Readable(nodes, OptionalFlags(p.steps), 2) && AllHonest(p, nodes, 2) && FastOut(p, nodes, 2)[0] == Entry(0, 1, Some(0))
  {
    assert Bit([1], 0) && !Bit([1], 1);
    assert HonestCounts(p, nodes, 0, 1) && HonestCounts(p, nodes, 1, 1);
    assert HonestCounts(p, nodes, 0, 0) && HonestCounts(p, nodes, 1, 0);
    assert RowLevel(nodes, OptionalFlags(p.steps), false, 0, 1, 1) == (1, true);
    assert FastOut(p, nodes, 1)[0] == RowEntry(p, nodes, 0, 0, 0);
  }

  /** The writer accepts the sliced group and writes row 0 as present, with the value 7; by the Arrow format it is null. */
  lemma {:induction false} SlicedGroupAccepted()
    ensures var leaf, batch := GroupLeaf(true), SlicedGroup();
      var nodes := [batch.children[0], batch.children[0].children[0]];
      && LeafUsable(leaf, batch) && FlatNodes(leaf, batch) == Some(nodes) && nodes[0].offset == 1
      && Readable(nodes, OptionalFlags(StepsOf(leaf)), 2) && AllHonest(PathOf(leaf), nodes, 2)
      && FastOut(PathOf(leaf), nodes, 2)[0] == Entry(0, 1, Some(0))
      && Project(PathOf(leaf), 0, nodes[0], 0, LeafValue(leaf.col, nodes[1])) == Null
  {
    var leaf, batch := GroupLeaf(true), SlicedGroup();
    var nodes := [batch.children[0], batch.children[0].children[0]];
    SlicedGroupNodes();
    SlicedRows(PathOf(leaf), nodes);
    assert !Bit([1], 1);
    assert !Valid(nodes[0], 1);
  }

  // ---- a sliced batch of lists ----------------------------------------------------------------

  /** The second of the two rows: by the Arrow format an empty list. */
  const SLICED_BATCH := ArrowArray(1, 0, 1, 1, None, None, [], [LIST_COLUMN])

  /** One row of the two, null as a whole. */
  const NULL_BATCH := ArrowArray(1, 1, 0, 1, Some([0]), None, [], [LIST_COLUMN])

  /** The first row of the list column, walked and projected. */
  lemma {:induction false} FirstListRow()
    ensures LeafOk(LIST_LEAF) && Backed(LIST_COLUMN) && LeafBacked(LIST_LEAF.col, LIST_ELEMENTS)
    ensures WalkRange(PathOf(LIST_LEAF), 0, LIST_COLUMN, 0, 1, 0, 0, 0) == Walked(true, [Entry(0, 1, Some(0))])
    ensures ProjectRange(PathOf(LIST_LEAF), 0, LIST_COLUMN, 1, 2, LeafValue(LIST_LEAF.col, LIST_ELEMENTS)) == [List([])]
  {
    ListLeafIs();
    ListBacked();
    var p, at := PathOf(LIST_LEAF), LeafValue(LIST_LEAF.col, LIST_ELEMENTS);
    assert Walk(p, 1, LIST_ELEMENTS, 0, 0, 1) == Walked(true, [Entry(0, 1, Some(0))]);
    assert WalkRange(p, 1, LIST_ELEMENTS, 1, 1, 1, 1, 1) == Walked(true, []);
    assert WalkRange(p, 1, LIST_ELEMENTS, 0, 1, 0, 1, 1) == Walked(true, [Entry(0, 1, Some(0))]);
    assert Walk(p, 0, LIST_COLUMN, 0, 0, 0) == Walked(true, [Entry(0, 1, Some(0))]);
    assert WalkRange(p, 0, LIST_COLUMN, 1, 1, 0, 0, 0) == Walked(true, []);
    assert ProjectRange(p, 1, LIST_ELEMENTS, 1, 1, at) == [];
    assert Project(p, 0, LIST_COLUMN, 1, at) == List([]);
    assert ProjectRange(p, 0, LIST_COLUMN, 2, 2, at) == [];
  }

  /** Any one-row batch of the list column is accepted and written as its first row. */
  lemma {:induction false} OneListRow(batch: ArrowArray)
    requires batch == SLICED_BATCH || batch == NULL_BATCH
    ensures LIST_LEAF.hasList && LeafUsable(LIST_LEAF, batch) && ListOut(LIST_LEAF, batch) == Some(Accepted(LIST_ELEMENTS, [Entry(0, 1, Some(0))]))
  {
    ListLeafIs();
    ListBacked();
    FirstListRow();
    assert Backed(batch) && batch.children == [LIST_COLUMN] && batch.length == 1;
    assert LeafArray(LIST_LEAF.steps, 0, LIST_COLUMN) == Some(LIST_ELEMENTS);
    assert ListArray(LIST_LEAF, batch) == Some(LIST_ELEMENTS);
    assert ListUsable(LIST_LEAF, batch);
  }

  /** The sliced batch, whose column is as long as it needs, is accepted: its row is an empty list, and the first row is written. */
  lemma {:induction false} SlicedBatchAccepted()
    ensures Backed(SLICED_BATCH) && SLICED_BATCH.offset + SLICED_BATCH.length <= LIST_COLUMN.length
    ensures LIST_LEAF.hasList && LeafUsable(LIST_LEAF, SLICED_BATCH) && ListOut(LIST_LEAF, SLICED_BATCH) == Some(Accepted(LIST_ELEMENTS, [Entry(0, 1, Some(0))]))
    ensures LeafRows(LIST_LEAF, SLICED_BATCH) == [List([])] && !Regular(LIST_LEAF, SLICED_BATCH)
  {
    ListLeafIs();
    OneListRow(SLICED_BATCH);
    FirstListRow();
  }

  /** A row that the batch's own bitmap makes null is accepted, and written like any other. */
  lemma {:induction false} NullRowAccepted()
    ensures Backed(NULL_BATCH) && BatchRecord(LIST_SCHEMA, NULL_BATCH, 0) == Absent
    ensures LIST_LEAF.hasList && LeafUsable(LIST_LEAF, NULL_BATCH) && ListOut(LIST_LEAF, NULL_BATCH) == Some(Accepted(LIST_ELEMENTS, [Entry(0, 1, Some(0))]))
    ensures !Regular(LIST_LEAF, NULL_BATCH)
  {
    OneListRow(NULL_BATCH);
    ZeroHasNoBits(0);
    assert !Valid(NULL_BATCH, 0);
  }

  // ---- nulls in fields that are not nullable --------------------------------------------------

  /** A null element whose array does not know how many nulls it has, in a list of elements that are not nullable. */
  const UNKNOWN_ELEMENTS := ArrowArray(1, -1, 0, 2, Some([0]), None, [5, 0, 0, 0], [])
  const UNKNOWN_COLUMN := ArrowArray(1, 0, 0, 2, None, Some([0, 1]), [], [UNKNOWN_ELEMENTS])
  const UNKNOWN_BATCH := ArrowArray(1, 0, 0, 1, None, None, [], [UNKNOWN_COLUMN])

  lemma {:induction false} UnknownWalks()
    ensures LeafOk(LIST_LEAF) && Backed(UNKNOWN_ELEMENTS) && Backed(UNKNOWN_COLUMN) && Backed(UNKNOWN_BATCH)
    ensures WalkRange(PathOf(LIST_LEAF), 0, UNKNOWN_COLUMN, 0, 1, 0, 0, 0) == Walked(true, [Entry(0, 1, Some(0))])
  {
    ListLeafIs();
    assert Backed(UNKNOWN_ELEMENTS);
    assert Backed(UNKNOWN_COLUMN);
    var p := PathOf(LIST_LEAF);
    assert Walk(p, 1, UNKNOWN_ELEMENTS, 0, 0, 1) == Walked(true, [Entry(0, 1, Some(0))]);
    assert WalkRange(p, 1, UNKNOWN_ELEMENTS, 1, 1, 1, 1, 1) == Walked(true, []);
    assert WalkRange(p, 1, UNKNOWN_ELEMENTS, 0, 1, 0, 1, 1) == Walked(true, [Entry(0, 1, Some(0))]);
    assert Walk(p, 0, UNKNOWN_COLUMN, 0, 0, 0) == Walked(true, [Entry(0, 1, Some(0))]);
    assert WalkRange(p, 0, UNKNOWN_COLUMN, 1, 1, 0, 0, 0) == Walked(true, []);
  }

  /** The null is accepted and written as a value. */
  lemma {:induction false} UnknownNullAccepted()
    ensures LeafOk(LIST_LEAF) && RequiredNull(PathOf(LIST_LEAF), 1, UNKNOWN_ELEMENTS, 0)
    ensures LeafRegular(LIST_LEAF, UNKNOWN_BATCH)
    ensures ListOut(LIST_LEAF, UNKNOWN_BATCH) == Some(Accepted(UNKNOWN_ELEMENTS, [Entry(0, 1, Some(0))]))
  {
    ListLeafIs();
    UnknownWalks();
    ZeroHasNoBits(0);
    assert SizeOf(1, 4) == SizeOf(0, 4) + 4;
    assert LeafBacked(LIST_LEAF.col, UNKNOWN_ELEMENTS);
    assert LeafArray(LIST_LEAF.steps, 0, UNKNOWN_COLUMN) == Some(UNKNOWN_ELEMENTS);
    assert ListArray(LIST_LEAF, UNKNOWN_BATCH) == Some(UNKNOWN_ELEMENTS);
    assert ListUsable(LIST_LEAF, UNKNOWN_BATCH);
    assert Exposed(LIST_LEAF.steps, 2) == false && Exposed(LIST_LEAF.steps, 1) == false;
    assert !Exposed(LIST_LEAF.steps, 0);
  }

  /** One row, whose group is not nullable, admits to a null, and has one. */
  function NullGroup(): ArrowArray {
    ArrowArray(1, 0, 0, 1, None, None, [], [
      ArrowArray(1, 1, 0, 1, Some([0]), None, [], [
        ArrowArray(1, 0, 0, 2, None, None, [7, 0, 0, 0], [])])])
  }

  lemma {:induction false} NullGroupUsable()
    ensures var leaf, batch := GroupLeaf(false), NullGroup();
      var nodes := [batch.children[0], batch.children[0].children[0]];
      && LeafUsable(leaf, batch) && FlatNodes(leaf, batch) == Some(nodes)
      && StepsOf(leaf) == [PathStep(StructStep, false, 0, 0), PathStep(LeafStep, false, 0, 0)]
  {
    var leaf, batch := GroupLeaf(false), NullGroup();
    var nodes := [batch.children[0], batch.children[0].children[0]];
    GroupLeafIs(false);
    GroupNodes(leaf, batch);
    SizeOfIsProduct(1, 4);
    assert Backed(nodes[1]);
    assert Backed(nodes[0]);
  }

  /** No group's null count is asked: the row is accepted and written as a value. */
  lemma {:induction false} GroupNullAccepted()
    ensures var leaf, batch := GroupLeaf(false), NullGroup();
      var nodes := [batch.children[0], batch.children[0].children[0]];
      && LeafRegular(leaf, batch) && FlatNodes(leaf, batch) == Some(nodes)
      && RequiredNull(PathOf(leaf), 0, nodes[0], 0) && nodes[0].nullCount == 1
      && Readable(nodes, OptionalFlags(StepsOf(leaf)), 1) && FastOut(PathOf(leaf), nodes, 1) == [Entry(0, 0, Some(0))]
  {
    var leaf, batch := GroupLeaf(false), NullGroup();
    var nodes := [batch.children[0], batch.children[0].children[0]];
    NullGroupUsable();
    NoNullableNodes(PathOf(leaf), nodes);
    ZeroHasNoBits(0);
    assert Backed(nodes[0]);
  }

  lemma {:induction false} NoNullableNodes(p: LeafPath, nodes: seq<ArrowArray>)
    requires p == LeafPath([PathStep(StructStep, false, 0, 0), PathStep(LeafStep, false, 0, 0)], false) && |nodes| == 2
    ensures Readable(nodes, OptionalFlags(p.steps), 1) && AllHonest(p, nodes, 1) && FastOut(p, nodes, 1) == [Entry(0, 0, Some(0))]
  {
    assert HonestCounts(p, nodes, 0, 1);
    assert HonestCounts(p, nodes, 0, 0);
    assert RowLevel(nodes, OptionalFlags(p.steps), false, 0, 1, 0) == (0, true);
    assert FastOut(p, nodes, 0) == [];
  }

  // ---- another schema after the first ---------------------------------------------------------

  const SIGNED := ArrowSchema("c", "v", false, [])
  const UNSIGNED := ArrowSchema("C", "v", false, [])
  const SIGNED_SCHEMA := ArrowSchema("+s", "schema", false, [SIGNED])
  const UNSIGNED_SCHEMA := ArrowSchema("+s", "schema", false, [UNSIGNED])
  const BYTE_COLUMN := ArrowArray(1, 0, 0, 2, None, None, [255], [])
  const BYTE_BATCH := ArrowArray(1, 0, 0, 1, None, None, [], [BYTE_COLUMN])
  const SIGNED_LEAF: LeafSpec :=
    LeafColumn(ColumnSpec("v", INT32, WidenInt, Some(INT_8), 0, 1, true, false, false), TopLevel(0, SIGNED))

  lemma {:induction false} SignedLeafIs()
    ensures LeafOk(SIGNED_LEAF) && !SIGNED_LEAF.hasList && SIGNED_LEAF.pathIdx == [0] && SIGNED_LEAF.pathOptional == [false]
    ensures StepsOf(SIGNED_LEAF) == [PathStep(LeafStep, false, 0, 0)]
    ensures var flat := FlattenTop(SIGNED_SCHEMA, 0); flat.Some? && flat.value.leaves == [SIGNED_LEAF]
  {
    var w := TopLevel(0, SIGNED);
    assert ShapeOf([]) == [];
    assert Lists([]) == 0;
    LeafColumnOk(SIGNED_LEAF.col, w, false);
    Extend([], PathStep(LeafStep, false, 0, 0));
    assert Flatten(SIGNED, w).value.leaves == [SIGNED_LEAF];
    assert FlattenTop(SIGNED_SCHEMA, 1) == Some(Flat([], []));
  }

  lemma {:induction false} SignedUsable()
    ensures LeafUsable(SIGNED_LEAF, BYTE_BATCH) && FlatNodes(SIGNED_LEAF, BYTE_BATCH) == Some([BYTE_COLUMN])
  {
    SignedLeafIs();
    var none: seq<ArrowArray> := [];
    assert PathNodes(SIGNED_LEAF.pathIdx, BYTE_BATCH, 0) == Some(none);
    assert PathNodes(SIGNED_LEAF.pathIdx, BYTE_BATCH, 1) == Some(none + [BYTE_COLUMN]);
    assert none + [BYTE_COLUMN] == [BYTE_COLUMN];
    assert Backed(BYTE_COLUMN);
    assert SizeOf(1, 1) == SizeOf(0, 1) + 1;
  }

  lemma {:induction false} ByteValues(bs: bytes)
    requires bs == [255]
    ensures IntegerOf(bs, true) == -1 && IntegerOf(bs, false) == 255
  {
    Pow2Bytes(0);
    assert bs[1..] == [] && LeValue(bs[1..]) == 0;
    assert LeValue(bs) == 255;
  }

  /** The byte as each of the two schemas has it. */
  lemma {:induction false} ByteReads()
    ensures LeafBacked(SIGNED_LEAF.col, BYTE_COLUMN) && LeafValue(SIGNED_LEAF.col, BYTE_COLUMN)(0) == Int(-1)
    ensures FormatValue("C", BYTE_COLUMN, 0) == Int(255)
  {
    assert SizeOf(1, 1) == SizeOf(0, 1) + 1;
    assert Backed(BYTE_COLUMN);
    assert Slot(BYTE_COLUMN.values, 1, 1, 0) == BYTE_COLUMN.values;
    ByteValues(BYTE_COLUMN.values);
  }

  /** Locked by a column of signed bytes, the writer takes one of unsigned bytes and writes 255 as -1. */
  lemma {:induction false} OtherTypeAccepted()
    ensures var s := LockSchema(START.s, SIGNED_SCHEMA, BYTE_BATCH);
      s.Locks? && s.s.leaves == [SIGNED_LEAF] && LockSchema(s.s, UNSIGNED_SCHEMA, BYTE_BATCH) == s
    ensures LeafRegular(SIGNED_LEAF, BYTE_BATCH) && LeafRows(SIGNED_LEAF, BYTE_BATCH) == [Value(Int(-1))]
    ensures RowRecord(UNSIGNED_SCHEMA, BYTE_BATCH, 0, 0) == Atom(Int(255))
  {
    SignedLeafIs();
    SignedUsable();
    ByteReads();
    OneRequiredNode(PathOf(SIGNED_LEAF), BYTE_COLUMN, LeafValue(SIGNED_LEAF.col, BYTE_COLUMN));
    assert PathNodes(SIGNED_LEAF.pathIdx, BYTE_BATCH, 1) == Some([BYTE_COLUMN]);
  }

  lemma {:induction false} OneRequiredNode(p: LeafPath, a: ArrowArray, at: int -> Scalar)
    requires WellFormed(p) && p == LeafPath([PathStep(LeafStep, false, 0, 0)], false) && Backed(a) && a.length == 1 && a.offset == 0
    ensures Readable([a], OptionalFlags(p.steps), 1) && AllHonest(p, [a], 1)
    ensures ProjectRange(p, 0, a, 0, 1, at) == [Value(at(0))]
  {
    assert HonestCounts(p, [a], 0, 0);
    assert ProjectRange(p, 0, a, 1, 1, at) == [];
  }
}
