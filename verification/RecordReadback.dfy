/**
 The rows that a reader gets for a leaf column are the projections of the batch's records.
 */
module RecordReadback {
  import opened Bits
  import opened Arrow
  import opened Records
  import opened Shredding
  import opened Validation
  import opened Projection
  import opened Schema
  import opened Footer
  import opened FastPath
  import opened PlainValues
  import opened Codecs
  import opened Chunks
  import opened Readback
  import opened Nested
  import opened NestedLeaves

  /** A leaf array's value, by the format of its schema node. */
  ghost function FormatValue(format: string, a: ArrowArray, i: int): Scalar {
    match MapFormat(format, "", false)
    case None => Truth(false)
    case Some(s) => if LeafBacked(s, a) && 0 <= i < a.length then ScalarAt(s, a, i) else Truth(false)
  }

  ghost function FormatValues(): (string, ArrowArray, int) -> Scalar {
    (format: string, a: ArrowArray, i: int) => FormatValue(format, a, i)
  }

  /** Row `e` of top-level column `c`: the whole nested value, at the batch's own offset. */
  ghost function RowRecord(schema: ArrowSchema, batch: ArrowArray, c: nat, e: int): Full<Scalar>
    requires Backed(batch) && c < |schema.children| && c < |batch.children|
  {
    ReadFull(schema.children[c], NullableChild(schema.children[c]), batch.children[c], batch.offset + e, FormatValues())
  }

  /** Row `e` of the batch, read as the Arrow format has it: a struct of its columns. */
  ghost function BatchRecord(schema: ArrowSchema, batch: ArrowArray, e: int): Full<Scalar>
    requires Backed(batch)
  {
    ReadFull(schema, true, batch, e, FormatValues())
  }

  /** It is the record of its columns' records, unless the batch's own bitmap makes it null as a whole. */
  lemma {:induction false} BatchRecordFields(schema: ArrowSchema, batch: ArrowArray, e: nat)
    requires Backed(batch) && schema.format == "+s" && |schema.children| <= |batch.children| && e < batch.length
    ensures BatchRecord(schema, batch, e) ==
      if !Valid(batch, batch.offset + e) then Absent
      else Fields(seq(|schema.children|, c requires 0 <= c < |schema.children| => RowRecord(schema, batch, c, e)))
  {
    if Valid(batch, batch.offset + e) {
      var fs := BatchRecord(schema, batch, e).fs;
      assert forall c :: 0 <= c < |schema.children| ==> fs[c] == RowRecord(schema, batch, c, e);
    }
  }

  lemma {:induction false} SameFormatSameValues(format: string, col: ColumnSpec, a: ArrowArray, i: int)
    requires SameValues(col, format) && LeafBacked(col, a)
    ensures LeafValue(col, a)(i) == FormatValue(format, a, i)
  {
    var name, nullable :| MapFormat(format, name, nullable) == Some(col);
    SpecsAlike(format, name, nullable);
    var s := MapFormat(format, "", false).value;
    assert LeafBacked(s, a);
    if 0 <= i < a.length { assert ScalarAt(s, a, i) == ScalarAt(col, a, i); }
  }

  lemma {:induction false} SpecsAlike(format: string, name: string, nullable: bool)
    requires MapFormat(format, name, nullable).Some?
    ensures var s, t := MapFormat(format, "", false), MapFormat(format, name, nullable).value;
      s.Some? && s.value.extract == t.extract && s.value.srcWidth == t.srcWidth && s.value.signExtend == t.signExtend
  {
  }

  /** The array at the end of the chain is the one that following the steps finds. */
  lemma {:induction false} ChainEnds(p: LeafPath, nodes: seq<ArrowArray>, k: nat)
    requires WellFormed(p) && Chain(p, nodes) && k < |nodes|
    ensures LeafArray(p.steps, k, nodes[k]) == Some(nodes[|nodes| - 1])
    decreases |nodes| - k
  {
    assert ShapeOf(p.steps)[k].nesting.Leaf? <==> k == |nodes| - 1;
    if k + 1 < |nodes| { ChainEnds(p, nodes, k + 1); }
  }

  lemma {:induction false} LeafArrayFound(leaf: LeafSpec, batch: ArrowArray)
    requires LeafUsable(leaf, batch) && Accepts(leaf, batch)
    ensures leaf.pathIdx[0] < |batch.children|
    ensures LeafArray(StepsOf(leaf), 0, batch.children[leaf.pathIdx[0]]) == Some(LeafArrayIn(leaf, batch))
  {
    ColumnExists(leaf, batch);
    if !leaf.hasList {
      FlatChain(leaf, batch);
      ChainEnds(PathOf(leaf), FlatNodes(leaf, batch).value, 0);
    }
  }

  lemma {:induction false} RowAccepted(p: LeafPath, column: ArrowArray, rows: nat, e: nat)
    requires WellFormed(p) && Backed(column) && WalkRange(p, 0, column, 0, rows, 0, 0, 0).ok && e < rows
    ensures Walk(p, 0, column, e, 0, 0).ok
  {
    RowsAccepted(p, column, rows);
    WalkAccepts(p, 0, column, e, 0, 0);
  }

  /** The leaf array's values, as the schema node's format has them. */
  lemma {:induction false} LeafAgrees(leaf: LeafSpec, batch: ArrowArray, node: ArrowSchema, w: Where, format: string)
    requires LeafUsable(leaf, batch) && Accepts(leaf, batch) && w.steps == [] && StandsBelow(leaf, node, w, format)
    ensures leaf.pathIdx[0] < |batch.children| && Backed(batch.children[leaf.pathIdx[0]])
    ensures PathIn(node, w.optional, StepsOf(leaf), format)
    ensures Agrees(PathOf(leaf), 0, batch.children[leaf.pathIdx[0]], format, LeafValue(leaf.col, LeafArrayIn(leaf, batch)), FormatValues())
  {
    LeafArrayFound(leaf, batch);
    ColumnExists(leaf, batch);
    var a := LeafArrayIn(leaf, batch);
    var at := LeafValue(leaf.col, a);
    assert StepsOf(leaf)[0..] == StepsOf(leaf);
    forall i ensures at(i) == FormatValues()(format, a, i) { SameFormatSameValues(format, leaf.col, a, i); }
  }

  /** An entry's value along the path is the projection of its record; under a list, if the walk accepts it. */
  lemma {:induction false} EntryIsProjection<V>(p: LeafPath, node: ArrowSchema, nullable: bool, column: ArrowArray, i: int, format: string,
      at: int -> V, at': (string, ArrowArray, int) -> V)
    requires WellFormed(p) && Backed(column) && PathIn(node, nullable, p.steps, format) && Agrees(p, 0, column, format, at, at')
    requires (forall k :: 0 <= k < |p.steps| ==> !p.steps[k].kind.Repeats()) || Walk(p, 0, column, i, 0, 0).ok
    ensures Project(p, 0, column, i, at) == ProjectFull(ReadFull(node, nullable, column, i, at'), p.steps)
  {
    assert p.steps[0..] == p.steps;
    if Walk(p, 0, column, i, 0, 0).ok {
      ProjectionOfRecord(p, 0, node, nullable, column, i, 0, 0, format, at, at');
    } else {
      FlatProjectionOfRecord(p, 0, node, nullable, column, i, format, at, at');
    }
  }

  /** An entry whose value along the path is a projection: any outside lists, else one that the walk accepts. */
  ghost predicate Projects(p: LeafPath, column: ArrowArray, i: int)
    requires WellFormed(p) && Backed(column)
  {
    (forall k :: 0 <= k < |p.steps| ==> !p.steps[k].kind.Repeats()) || Walk(p, 0, column, i, 0, 0).ok
  }

  ghost predicate AllProject(p: LeafPath, column: ArrowArray, s: int, t: int)
    requires WellFormed(p) && Backed(column)
  {
    forall i :: s <= i < t ==> Projects(p, column, i)
  }

  /** Rows that are the projections of a column's records from entry `s` on. */
  ghost predicate AreProjections<V>(xs: seq<Datum<V>>, node: ArrowSchema, nullable: bool, column: ArrowArray, s: int, q: seq<PathStep>,
      at: (string, ArrowArray, int) -> V)
    requires Backed(column)
  {
    forall e :: 0 <= e < |xs| ==> xs[e] == ProjectFull(ReadFull(node, nullable, column, s + e, at), q)
  }

  lemma {:induction false} RangeIsProjection<V>(p: LeafPath, node: ArrowSchema, nullable: bool, column: ArrowArray, s: int, t: int, format: string,
      at: int -> V, at': (string, ArrowArray, int) -> V, xs: seq<Datum<V>>)
    requires WellFormed(p) && Backed(column) && PathIn(node, nullable, p.steps, format) && Agrees(p, 0, column, format, at, at')
    requires AllProject(p, column, s, t)
    requires xs == ProjectRange(p, 0, column, s, t, at)
    ensures AreProjections(xs, node, nullable, column, s, p.steps, at')
  {
    forall e | 0 <= e < |xs| ensures xs[e] == ProjectFull(ReadFull(node, nullable, column, s + e, at'), p.steps) {
      assert Projects(p, column, s + e);
      EntryIsProjection(p, node, nullable, column, s + e, format, at, at');
    }
  }

  lemma {:induction false} EntriesProject(leaf: LeafSpec, batch: ArrowArray)
    requires LeafUsable(leaf, batch) && Accepts(leaf, batch) && (leaf.hasList ==> batch.offset == 0)
    ensures leaf.pathIdx[0] < |batch.children| && Backed(batch.children[leaf.pathIdx[0]])
    ensures AllProject(PathOf(leaf), batch.children[leaf.pathIdx[0]], batch.offset, batch.offset + batch.length)
  {
    ColumnExists(leaf, batch);
    if leaf.hasList {
      forall i | 0 <= i < batch.length ensures Projects(PathOf(leaf), batch.children[leaf.pathIdx[0]], i) {
        RowAccepted(PathOf(leaf), batch.children[leaf.pathIdx[0]], batch.length, i);
      }
    }
  }

  /** Each leaf column belongs to the top-level column that its path starts with. */
  lemma {:induction false} TopOf(schema: ArrowSchema, i: nat, leaf: LeafSpec) returns (c: nat)
    requires i <= |schema.children| && FlattenTop(schema, i).Some? && leaf in FlattenTop(schema, i).value.leaves
    ensures i <= c < |schema.children| && Flatten(schema.children[c], TopLevel(c, schema.children[c])).Some?
    ensures leaf in Flatten(schema.children[c], TopLevel(c, schema.children[c])).value.leaves
    decreases |schema.children| - i
  {
    if leaf in Flatten(schema.children[i], TopLevel(i, schema.children[i])).value.leaves { c := i; } else { c := TopOf(schema, i + 1, leaf); }
  }

  /** For every leaf of the schema, the rows read back are the projections of the batch's records. */
  lemma {:induction false} LeafRowsAreProjections(schema: ArrowSchema, leaf: LeafSpec, batch: ArrowArray)
    requires FlattenTop(schema, 0).Some? && leaf in FlattenTop(schema, 0).value.leaves
    requires LeafUsable(leaf, batch) && Accepts(leaf, batch) && (leaf.hasList ==> batch.offset == 0)
    ensures leaf.pathIdx[0] < |schema.children| && leaf.pathIdx[0] < |batch.children| && |LeafRows(leaf, batch)| == batch.length
    ensures forall e :: 0 <= e < batch.length ==>
      LeafRows(leaf, batch)[e] == ProjectFull(RowRecord(schema, batch, leaf.pathIdx[0], e), StepsOf(leaf))
  {
    var c := TopOf(schema, 0, leaf);
    var node, w := schema.children[c], TopLevel(c, schema.children[c]);
    LeafOfTop(schema, c, leaf);
    var format :| StandsBelow(leaf, node, w, format);
    RowsAreProjections(leaf, batch, node, w, format);
    LeafRowsLength(leaf, batch);
    RowsOfRecords(LeafRows(leaf, batch), schema, batch, c, StepsOf(leaf));
  }

  lemma {:induction false} LeafRowsLength(leaf: LeafSpec, batch: ArrowArray)
    requires LeafUsable(leaf, batch) && Accepts(leaf, batch)
    ensures |LeafRows(leaf, batch)| == batch.length
  {
  }

  lemma {:induction false} RowsOfRecords(xs: seq<Datum<Scalar>>, schema: ArrowSchema, batch: ArrowArray, c: nat, q: seq<PathStep>)
    requires Backed(batch) && c < |schema.children| && c < |batch.children|
    requires AreProjections(xs, schema.children[c], NullableChild(schema.children[c]), batch.children[c], batch.offset, q, FormatValues())
    ensures forall e :: 0 <= e < |xs| ==> xs[e] == ProjectFull(RowRecord(schema, batch, c, e), q)
  {
  }

  lemma {:induction false} RowsAreProjections(leaf: LeafSpec, batch: ArrowArray, node: ArrowSchema, w: Where, format: string)
    requires LeafUsable(leaf, batch) && Accepts(leaf, batch) && (leaf.hasList ==> batch.offset == 0)
    requires w.steps == [] && StandsBelow(leaf, node, w, format)
    ensures leaf.pathIdx[0] < |batch.children|
    ensures AreProjections(LeafRows(leaf, batch), node, w.optional, batch.children[leaf.pathIdx[0]], batch.offset, StepsOf(leaf), FormatValues())
  {
    LeafAgrees(leaf, batch, node, w, format);
    EntriesProject(leaf, batch);
    var column, at := batch.children[leaf.pathIdx[0]], LeafValue(leaf.col, LeafArrayIn(leaf, batch));
    RangeIsProjection(PathOf(leaf), node, w.optional, column, batch.offset, batch.offset + batch.length, format, at, FormatValues(),
      LeafRows(leaf, batch));
  }

  lemma {:induction false} LeafOfTop(schema: ArrowSchema, c: nat, leaf: LeafSpec)
    requires c < |schema.children| && Flatten(schema.children[c], TopLevel(c, schema.children[c])).Some?
    requires leaf in Flatten(schema.children[c], TopLevel(c, schema.children[c])).value.leaves
    ensures leaf.pathIdx != [] && leaf.pathIdx[0] == c && Through(leaf, schema.children[c], TopLevel(c, schema.children[c]))
  {
    var node, w := schema.children[c], TopLevel(c, schema.children[c]);
    assert ShapeOf([]) == [];
    FlattenLeavesOk(node, w);
    FlattenPaths(node, w);
    var leaves := Flatten(node, w).value.leaves;
    var i :| 0 <= i < |leaves| && leaves[i] == leaf;
    assert Through(leaves[i], node, w) && LeafOk(leaves[i]);
  }

  // ---- what a list leaf's record counts -------------------------------------------------------

  /** The records of a top-level column, row by row. */
  ghost function ColumnRecords(schema: ArrowSchema, batch: ArrowArray, c: nat): seq<Full<Scalar>>
    requires Backed(batch) && c < |schema.children| && c < |batch.children|
  {
    ReadItems(schema.children[c], NullableChild(schema.children[c]), Some(Range(batch.children[c], batch.offset, batch.offset + batch.length)), FormatValues())
  }

  lemma {:induction false} ItemsAre<V>(node: ArrowSchema, nullable: bool, x: Range, at: (string, ArrowArray, int) -> V, i: nat)
    requires Backed(x.elements) && x.first + i < x.end
    ensures |ReadItems(node, nullable, Some(x), at)| == x.end - x.first
    ensures ReadItems(node, nullable, Some(x), at)[i] == ReadFull(node, nullable, x.elements, x.first + i, at)
    decreases x.end - x.first
  {
    if x.first + 1 < x.end { ItemsAre(node, nullable, Range(x.elements, x.first + 1, x.end), at, if i > 0 then i - 1 else 0); }
  }

  lemma {:induction false} ColumnRecordsAre(schema: ArrowSchema, batch: ArrowArray, c: nat, e: nat)
    requires Backed(batch) && c < |schema.children| && c < |batch.children| && e < batch.length
    ensures |ColumnRecords(schema, batch, c)| == batch.length && ColumnRecords(schema, batch, c)[e] == RowRecord(schema, batch, c, e)
  {
    ItemsAre(schema.children[c], NullableChild(schema.children[c]), Range(batch.children[c], batch.offset, batch.offset + batch.length), FormatValues(), e);
  }

  /** The entries that the shredder emits for a column, and the values among them, are those of the reference recursion. */
  lemma {:induction false} ColumnCounts(leaf: LeafSpec, batch: ArrowArray, node: ArrowSchema, w: Where, format: string)
    requires LeafUsable(leaf, batch) && Accepts(leaf, batch) && leaf.hasList && w.steps == [] && StandsBelow(leaf, node, w, format)
    ensures leaf.pathIdx[0] < |batch.children|
    ensures var acc, column := ListOut(leaf, batch).value, batch.children[leaf.pathIdx[0]];
      var want := AllLevels(ReadItems(node, w.optional, Some(Range(column, 0, batch.length)), FormatValues()), StepsOf(leaf));
      |acc.out| == want.0 && Dense(Cells(acc.out, LeafValue(leaf.col, acc.leafArray))) == want.1
  {
    LeafAgrees(leaf, batch, node, w, format);
    ColumnExists(leaf, batch);
    var p, column, at := PathOf(leaf), batch.children[leaf.pathIdx[0]], LeafValue(leaf.col, LeafArrayIn(leaf, batch));
    RangeCounts(p, node, w.optional, column, batch.length, format, at, FormatValues());
  }

  lemma {:induction false} RangeCounts<V>(p: LeafPath, node: ArrowSchema, nullable: bool, column: ArrowArray, n: nat, format: string,
      at: int -> V, at': (string, ArrowArray, int) -> V)
    requires WellFormed(p) && Backed(column) && WalkRange(p, 0, column, 0, n, 0, 0, 0).ok
    requires PathIn(node, nullable, p.steps, format) && Agrees(p, 0, column, format, at, at')
    ensures var out, want := WalkRange(p, 0, column, 0, n, 0, 0, 0).out,
        AllLevels(ReadItems(node, nullable, Some(Range(column, 0, n)), at'), p.steps);
      |out| == want.0 && Dense(Cells(out, at)) == want.1
  {
    assert p.steps[0..] == p.steps;
    RangeOfRecord(p, 0, node, nullable, Range(column, 0, n), 0, 0, 0, format, at, at');
    RangeIsShred(p, 0, column, 0, n, 0, 0, 0, at);
    OracleCountsAll(ReadItems(node, nullable, Some(Range(column, 0, n)), at'), p.steps, ShapeOf(p.steps), 0, 0, 0, 0);
  }

  /** The null count recorded for a list leaf is its entries in all rows less its values: `list_leaf_stats`. */
  lemma {:induction false} ListLeafStats(f: Foreign, codec: Codec, mode: Mode, schema: ArrowSchema, leaf: LeafSpec, batch: ArrowArray, base: nat)
    requires FlattenTop(schema, 0).Some? && leaf in FlattenTop(schema, 0).value.leaves && leaf.hasList
    requires LeafUsable(leaf, batch) && WriteLeaf(f, codec, mode, leaf, batch, base).Status().OK? && batch.offset == 0
    ensures leaf.pathIdx[0] < |schema.children| && leaf.pathIdx[0] < |batch.children|
    ensures var m := WriteLeaf(f, codec, mode, leaf, batch, base).written.meta.value;
      var want := AllLevels(ColumnRecords(schema, batch, leaf.pathIdx[0]), StepsOf(leaf));
      m.numValues == want.0 && m.nullCount == want.0 - |want.1|
  {
    var c := TopOf(schema, 0, leaf);
    var node, w := schema.children[c], TopLevel(c, schema.children[c]);
    LeafOfTop(schema, c, leaf);
    var format :| StandsBelow(leaf, node, w, format);
    var acc := ListOut(leaf, batch).value;
    ColumnCounts(leaf, batch, node, w, format);
    DenseAtPositions(acc.out, LeafValue(leaf.col, acc.leafArray));
    ListChunkRecord(f, codec, mode, leaf, acc, base);
  }
}
