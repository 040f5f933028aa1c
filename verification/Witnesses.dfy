/**
 Runs that happen: a list column written and read back, and a codec that changes before the close.
 */
module Witnesses {
  import opened Bits
  import opened Arrow
  import opened Records
  import opened Shredding
  import opened Order
  import opened Projection
  import opened Schema
  import opened Footer
  import opened SchemaReadback
  import opened PlainValues
  import opened Codecs
  import opened Values
  import opened Pages
  import opened Chunks
  import opened Writing
  import opened Runs
  import opened Readback
  import opened FileReadback
  import opened CodecChange
  import opened UnaryCodecs
  import opened UnaryRuns

  // ---- a list column --------------------------------------------------------------------------

  const ITEM := ArrowSchema("i", "item", false, [])
  const INTEGER_LISTS := ArrowSchema("+l", "xs", false, [ITEM])
  const LIST_SCHEMA := ArrowSchema("+s", "schema", false, [INTEGER_LISTS])

  /** Two rows: a list of one integer, and an empty list. */
  const LIST_ELEMENTS := ArrowArray(1, 0, 0, 2, None, None, [5, 0, 0, 0], [])
  const LIST_COLUMN := ArrowArray(2, 0, 0, 2, None, Some([0, 1, 1]), [], [LIST_ELEMENTS])
  const LIST_BATCH := ArrowArray(2, 0, 0, 1, None, None, [], [LIST_COLUMN])
  const LIST_ROWS: seq<Datum<Scalar>> := [List([Value(Raw([5, 0, 0, 0]))]), List([])]
  const LIST_ENTRIES := [Entry(0, 1, Some(0)), Entry(0, 0, None)]

  const LIST_LEAF: LeafSpec :=
    LeafColumn(ColumnSpec("element", INT32, MemcpyFixed, None, 0, 4, false, false, false), TopLevel(0, INTEGER_LISTS).Element(ITEM, false))

  lemma {:induction false} ListLeafIs()
    ensures LeafOk(LIST_LEAF) && LIST_LEAF.hasList && LIST_LEAF.pathIdx == [0] && SpecOk(LIST_LEAF.col)
    ensures StepsOf(LIST_LEAF) == [PathStep(ListStep, false, 0, 1), PathStep(LeafStep, false, 0, 0)]
  {
    var w := TopLevel(0, INTEGER_LISTS);
    var w' := w.Element(ITEM, false);
    assert ShapeOf([]) == [];
    assert Lists([]) == 0;
    ElementWhere(w, ITEM, false, false);
    LeafColumnOk(LIST_LEAF.col, w', false);
    Extend([], PathStep(ListStep, false, 0, 1));
    assert w'.steps == [] + [PathStep(ListStep, false, 0, 1)];
    Extend(w'.steps, PathStep(LeafStep, false, 0, 0));
    assert LIST_LEAF.hasList;
  }

  lemma {:induction false} ListFlattens()
    ensures var flat := FlattenTop(LIST_SCHEMA, 0); flat.Some? && flat.value.leaves == [LIST_LEAF]
  {
    var w := TopLevel(0, INTEGER_LISTS);
    assert Flatten(ITEM, w.Element(ITEM, false)).value.leaves == [LIST_LEAF];
    assert Flatten(INTEGER_LISTS, w).value.leaves == [] + [LIST_LEAF];
    assert FlattenTop(LIST_SCHEMA, 1) == Some(Flat([], []));
  }

  lemma {:induction false} ListBacked()
    ensures Backed(LIST_ELEMENTS) && Backed(LIST_COLUMN) && Backed(LIST_BATCH) && LeafBacked(LIST_LEAF.col, LIST_ELEMENTS)
  {
    assert Backed(LIST_ELEMENTS);
    assert Backed(LIST_COLUMN);
    assert SizeOf(1, 4) == SizeOf(0, 4) + 4;
  }

  lemma {:induction false} ListWalks()
    ensures LeafOk(LIST_LEAF) && Backed(LIST_COLUMN)
    ensures WalkRange(PathOf(LIST_LEAF), 0, LIST_COLUMN, 0, 2, 0, 0, 0) == Walked(true, LIST_ENTRIES)
  {
    ListLeafIs();
    ListBacked();
    var p := PathOf(LIST_LEAF);
    assert Walk(p, 1, LIST_ELEMENTS, 0, 0, 1) == Walked(true, [Entry(0, 1, Some(0))]);
    assert WalkRange(p, 1, LIST_ELEMENTS, 1, 1, 1, 1, 1) == Walked(true, []);
    assert WalkRange(p, 1, LIST_ELEMENTS, 0, 1, 0, 1, 1) == Walked(true, [Entry(0, 1, Some(0))]);
    assert Walk(p, 0, LIST_COLUMN, 0, 0, 0) == Walked(true, [Entry(0, 1, Some(0))]);
    assert Walk(p, 0, LIST_COLUMN, 1, 0, 0) == Walked(true, [Entry(0, 0, None)]);
    assert WalkRange(p, 0, LIST_COLUMN, 2, 2, 0, 0, 0) == Walked(true, []);
    assert WalkRange(p, 0, LIST_COLUMN, 1, 2, 0, 0, 0) == Walked(true, [Entry(0, 0, None)]);
  }

  lemma {:induction false} ListMeans()
    ensures LeafOk(LIST_LEAF) && LeafBacked(LIST_LEAF.col, LIST_ELEMENTS) && Backed(LIST_COLUMN)
    ensures ProjectRange(PathOf(LIST_LEAF), 0, LIST_COLUMN, 0, 2, LeafValue(LIST_LEAF.col, LIST_ELEMENTS)) == LIST_ROWS
  {
    ListLeafIs();
    ListBacked();
    var p, at := PathOf(LIST_LEAF), LeafValue(LIST_LEAF.col, LIST_ELEMENTS);
    assert SizeOf(1, 4) == SizeOf(0, 4) + 4;
    assert Slot(LIST_ELEMENTS.values, 4, 1, 0) == LIST_ELEMENTS.values;
    assert at(0) == Raw([5, 0, 0, 0]);
    assert Project(p, 1, LIST_ELEMENTS, 0, at) == Value(at(0));
    assert ProjectRange(p, 1, LIST_ELEMENTS, 0, 1, at) == [Value(at(0))];
    assert ProjectRange(p, 1, LIST_ELEMENTS, 1, 1, at) == [];
    assert Project(p, 0, LIST_COLUMN, 0, at) == List([Value(at(0))]);
    assert Project(p, 0, LIST_COLUMN, 1, at) == List([]);
  }

  /** The writer accepts the batch, nothing that it takes for granted fails, and its rows are the two. */
  lemma {:induction false} ListIsRegular()
    ensures LeafRegular(LIST_LEAF, LIST_BATCH) && LeafRows(LIST_LEAF, LIST_BATCH) == LIST_ROWS
    ensures ListOut(LIST_LEAF, LIST_BATCH) == Some(Accepted(LIST_ELEMENTS, LIST_ENTRIES))
  {
    ListLeafIs();
    ListBacked();
    ListWalks();
    ListMeans();
    assert LeafArray(LIST_LEAF.steps, 0, LIST_COLUMN) == Some(LIST_ELEMENTS);
    assert ListArray(LIST_LEAF, LIST_BATCH) == Some(LIST_ELEMENTS);
    assert ListUsable(LIST_LEAF, LIST_BATCH);
    assert ListOut(LIST_LEAF, LIST_BATCH) == Some(Accepted(LIST_ELEMENTS, LIST_ENTRIES));
    assert Exposed(LIST_LEAF.steps, 2) == false && Exposed(LIST_LEAF.steps, 1) == false;
    assert !Exposed(LIST_LEAF.steps, 0);
  }

  /** With the unary encoders every page of it can be made. */
  lemma {:induction false} ListIsWritten(meta: FileMeta, codec: Codec, base: nat)
    ensures LeafUsable(LIST_LEAF, LIST_BATCH) && WriteLeaf(UnaryForeign(meta), codec, AUTO, LIST_LEAF, LIST_BATCH, base).Status().OK?
  {
    ListIsRegular();
    ListBacked();
    ListChunkIsMade(UnaryForeign(meta), codec, meta, Accepted(LIST_ELEMENTS, LIST_ENTRIES), base);
    ChunkWritesLeaf(UnaryForeign(meta), codec, LIST_LEAF, LIST_BATCH, Accepted(LIST_ELEMENTS, LIST_ENTRIES), base);
  }

  lemma {:induction false} ChunkWritesLeaf(f: Foreign, codec: Codec, leaf: LeafSpec, batch: ArrowArray, acc: Accepted, base: nat)
    requires LeafUsable(leaf, batch) && leaf.hasList && ListOut(leaf, batch) == Some(acc) && ListChunk(f, codec, AUTO, leaf, acc, base).meta.Some?
    ensures WriteLeaf(f, codec, AUTO, leaf, batch, base).Status().OK?
  {
  }

  lemma {:induction false} ListChunkIsMade(f: Foreign, codec: Codec, meta: FileMeta, acc: Accepted, base: nat)
    requires f == UnaryForeign(meta) && acc.leafArray == LIST_ELEMENTS && acc.out == LIST_ENTRIES && Below(Positions(acc.out), 1)
    requires LeafBacked(LIST_LEAF.col, acc.leafArray)
    ensures ListChunk(f, codec, AUTO, LIST_LEAF, acc, base).meta.Some?
  {
    var sh := ShreddedOf(acc);
    assert sh.rep == Reps(LIST_ENTRIES) == [0, 0] && sh.def == Defs(LIST_ENTRIES) == [1, 0];
    PrefixIsMade(f, meta);
    ChunkIsMade(f, codec, meta, ListPrefix(f, LIST_LEAF, [0, 0], [1, 0]), ListValidity(acc), ListHead(LIST_LEAF, 2, sh.presentCount), base);
  }

  lemma {:induction false} PrefixIsMade(f: Foreign, meta: FileMeta)
    requires f == UnaryForeign(meta)
    ensures var prefix := ListPrefix(f, LIST_LEAF, [0, 0], [1, 0]); prefix.Some? && |prefix.value| <= 50
  {
    var rep := RunsOfTwo(0, 0);
    var def := RunsOfTwo(1, 0);
  }

  lemma {:induction false} ChunkIsMade(f: Foreign, codec: Codec, meta: FileMeta, prefix: Option<bytes>, validity: Option<bytes>, head: ChunkHead, base: nat)
    requires f == UnaryForeign(meta) && prefix.Some? && |prefix.value| <= 50 && head.numValues <= 2 && Covers(validity, 1)
    ensures LeafBacked(LIST_LEAF.col, LIST_ELEMENTS) && ChunkOf(f, codec, AUTO, LIST_LEAF.col, LIST_ELEMENTS, validity, prefix, head, base).meta.Some?
  {
    var v := ListValues(f, validity);
    PageIsMade(f, codec, meta, head.numValues, PLAIN, prefix.value + v.body);
    OnePageChunk(f, codec, LIST_LEAF.col, LIST_ELEMENTS, validity, prefix, head, base, v);
  }

  lemma {:induction false} OnePageChunk(f: Foreign, codec: Codec, s: ColumnSpec, a: ArrowArray, validity: Option<bytes>, prefix: Option<bytes>,
      head: ChunkHead, base: nat, v: ValuePages)
    requires LeafBacked(s, a) && Covers(validity, a.length) && prefix.Some?
    requires ValuesOf(f, AUTO, s, a, validity) == Some(v) && v.dict.None?
    requires EncodePage(f, codec, false, head.numValues, v.encoding, prefix.value + v.body).Some?
    ensures ChunkOf(f, codec, AUTO, s, a, validity, prefix, head, base).meta.Some?
  {
  }

  lemma {:induction false} ListValues(f: Foreign, validity: Option<bytes>) returns (v: ValuePages)
    requires Covers(validity, 1)
    ensures LeafBacked(LIST_LEAF.col, LIST_ELEMENTS) && ValuesOf(f, AUTO, LIST_LEAF.col, LIST_ELEMENTS, validity) == Some(v)
    ensures v.encoding == PLAIN && v.dict.None? && |v.body| <= 50
  {
    ListBacked();
    FewPresent(validity);
    v := ValuePages(PLAIN, None, FixedBody(Present(LIST_LEAF.col, LIST_ELEMENTS, validity, 1)));
  }

  lemma {:induction false} FewPresent(validity: Option<bytes>)
    requires Covers(validity, 1)
    ensures LeafBacked(LIST_LEAF.col, LIST_ELEMENTS) && |FixedBody(Present(LIST_LEAF.col, LIST_ELEMENTS, validity, 1))| <= 50
  {
    ListBacked();
    var vs := Present(LIST_LEAF.col, LIST_ELEMENTS, validity, 1);
    assert Present(LIST_LEAF.col, LIST_ELEMENTS, validity, 0) == [];
    PresentFits(LIST_LEAF.col, LIST_ELEMENTS, validity, 1);
    OneFixed(vs);
  }

  lemma {:induction false} OneFixed(vs: seq<Scalar>)
    requires |vs| <= 1 && AllFit(vs, 4, false)
    ensures |FixedBody(vs)| <= 50
  {
    FixedBodySize(vs, 4, false);
    SizeOfIsProduct(|vs|, 4);
  }

  lemma {:induction false} RunsOfTwo(x: nat, y: nat) returns (bs: bytes)
    requires x <= 1 && y <= 1
    ensures bs == Unaries([x, y]) && |bs| <= 4
  {
    bs := Unaries([x, y]);
    assert [x, y][1..] == [y] && [y][1..] == [];
    assert Unaries([y]) == Unary(y) + Unaries([]);
  }

  lemma {:induction false} PageIsMade(f: Foreign, codec: Codec, meta: FileMeta, n: nat, encoding: Encoding, body: bytes)
    requires f == UnaryForeign(meta) && n <= 2 && |body| <= 100
    ensures EncodePage(f, codec, false, n, encoding, body).Some?
  {
  }

  const WRITE_LISTS: Op := Op.WriteBatch(LIST_SCHEMA, LIST_BATCH)

  /** The call is admissible from the start, and becomes the one commit, under ZSTD. */
  lemma {:induction false} ListIsCommitted()
    ensures AllAdmissible(UnaryForeign(NO_FOOTER), [WRITE_LISTS])
    ensures var h := UnaryRun([WRITE_LISTS]);
      && |h.commits| == 1 && h.commits[0].batch == LIST_BATCH && h.commits[0].codec == ZSTD && h.s.codec == ZSTD
      && h.s.leaves == [LIST_LEAF] && h.schema == Some(LIST_SCHEMA)
  {
    var f := UnaryForeign(NO_FOOTER);
    ListLocks();
    assert AllAdmissible(f, []) && Run(f, []) == START;
    ListMade(f);
    RunSnoc(f, [], WRITE_LISTS);
    assert [] + [WRITE_LISTS] == [WRITE_LISTS];
  }

  lemma {:induction false} ListLocks()
    ensures Usable(START.s, LIST_SCHEMA, LIST_BATCH) && LockSchema(START.s, LIST_SCHEMA, LIST_BATCH).Locks?
    ensures LockSchema(START.s, LIST_SCHEMA, LIST_BATCH).s.leaves == [LIST_LEAF]
  {
    ListFlattens();
    ListIsRegular();
    ListBacked();
  }

  lemma {:induction false} ListMade(f: Foreign)
    requires f == UnaryForeign(NO_FOOTER)
    requires Usable(START.s, LIST_SCHEMA, LIST_BATCH) && LockSchema(START.s, LIST_SCHEMA, LIST_BATCH).Locks?
    requires LockSchema(START.s, LIST_SCHEMA, LIST_BATCH).s.leaves == [LIST_LEAF]
    ensures BatchMade(f, START.s, LIST_SCHEMA, LIST_BATCH).status.OK?
  {
    ListIsWritten(NO_FOOTER, ZSTD, 4);
    LeafWritersAt(f, ZSTD, AUTO, [LIST_LEAF], LIST_BATCH, 0, LIST_LEAF);
    OneLeafMade(LeafWriters(f, ZSTD, AUTO, [LIST_LEAF], LIST_BATCH), 4);
  }

  lemma {:induction false} OneLeafMade(ws: seq<LeafWriter>, base: nat)
    requires |ws| == 1 && ws[0](base).Status().OK?
    ensures WriteLeaves(ws, 1, base).status.OK?
  {
    assert WriteLeaves(ws, 0, base) == Batched(OK, [], []);
    LeavesNext(ws, 0, base, base);
  }

  /** There are faithful encoders with which the list column is written, closed and read back. */
  lemma {:induction false} ListFileHappens() returns (f: Foreign)
    ensures Faithful(f) && AllAdmissible(f, [WRITE_LISTS]) && |Run(f, [WRITE_LISTS]).commits| == 1
    ensures var s := Run(f, [WRITE_LISTS]).s;
      Closed(f, s).status.OK? && ReadFile(f, Closed(f, s).s.file) == Some(Contents([KEPT_LISTS], [[LIST_ROWS]]))
  {
    ListIsCommitted();
    f := RunCloses([WRITE_LISTS]);
    ListTables(UnaryRun([WRITE_LISTS]));
    FileReadsBack(f, [WRITE_LISTS]);
    ListFields();
  }

  /** The field as the file keeps it: the element has the name that the format gives it. */
  const KEPT_LISTS := ArrowSchema("+l", "xs", false, [ArrowSchema("i", "element", false, [])])

  lemma {:induction false} ListFields()
    ensures KeptFields(LIST_SCHEMA.children, 0) == [KEPT_LISTS]
  {
    assert Kept(ITEM, "element", false) == ArrowSchema("i", "element", false, []);
    assert KeptFields(LIST_SCHEMA.children, 1) == [];
  }

  lemma {:induction false} ListTables(h: History)
    requires |h.commits| == 1 && h.commits[0].batch == LIST_BATCH && h.commits[0].codec == ZSTD && h.s.codec == ZSTD && h.s.leaves == [LIST_LEAF]
    ensures AllRegular(h.s.codec, h.s.leaves, h.commits) && CommittedTables(h.s.leaves, h.commits) == [[LIST_ROWS]]
  {
    ListIsRegular();
    assert BatchRegular([LIST_LEAF], LIST_BATCH);
    BatchRowsAt([LIST_LEAF], LIST_BATCH, 0);
    assert BatchRows([LIST_LEAF], LIST_BATCH) == [LIST_ROWS];
    OneTable([LIST_LEAF], h.commits);
  }

  // ---- a codec set between the batch and the close --------------------------------------------

  const CHANGE_CODEC: seq<Op> := [WRITE_LISTS, SetCodec(Some(UNCOMPRESSED))]

  /** Written under ZSTD, closed under UNCOMPRESSED: the batch is accepted, the close succeeds, and the pages do not read back. */
  lemma {:induction false} CodecChangeHappens() returns (f: Foreign)
    ensures Faithful(f) && Recodes(f) && AllAdmissible(f, CHANGE_CODEC)
    ensures var h := Run(f, CHANGE_CODEC);
      && Closed(f, h.s).status.OK? && |h.commits| == |h.s.rowGroups| == 1
      && h.commits[0].codec == ZSTD && FooterOf(h.s).codec == UNCOMPRESSED
      && !AllSurvive(f, h.s.codec, Closed(f, h.s).s.file, h.s.rowGroups, h.commits)
  {
    ChangeIsAdmissible();
    f := RunCloses(CHANGE_CODEC);
    FooterCodecIff(f, CHANGE_CODEC);
    assert Run(f, CHANGE_CODEC).commits[0].codec != Run(f, CHANGE_CODEC).s.codec;
  }

  lemma {:induction false} ChangeIsAdmissible()
    ensures AllAdmissible(UnaryForeign(NO_FOOTER), CHANGE_CODEC)
    ensures var h := UnaryRun(CHANGE_CODEC); |h.commits| == 1 && h.commits[0].codec == ZSTD && h.s.codec == UNCOMPRESSED
  {
    ListIsCommitted();
    RunSnoc(UnaryForeign(NO_FOOTER), [WRITE_LISTS], SetCodec(Some(UNCOMPRESSED)));
    assert [WRITE_LISTS] + [SetCodec(Some(UNCOMPRESSED))] == CHANGE_CODEC;
  }
}
