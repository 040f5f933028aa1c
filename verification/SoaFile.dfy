/**
 `write_file` of the structure-of-arrays front end: the file it leaves gives back the columns that were
 passed, in field order, whatever groups they are nested in.
 */
module SoaFiles {
  import opened Bits
  import opened Arrow
  import opened Records
  import opened WidthFormat
  import opened Schema
  import opened Footer
  import opened SchemaReadback
  import opened PlainValues
  import opened Codecs
  import opened Chunks
  import opened Writing
  import opened Runs
  import opened Readback
  import opened FileReadback
  import opened SoaNodes
  import opened SoaChunks

  // ---- the columns that were passed -----------------------------------------------------------

  /** Every group has at least one child. */
  predicate AllPeopled(node: Node) {
    node.GroupNode? ==> node.children != [] && forall i :: 0 <= i < |node.children| ==> AllPeopled(node.children[i])
  }

  /** The lines of nodes that extend a line down to each column below its end, in field order. */
  function ColumnsBelow(line: seq<Node>): seq<seq<Node>>
    requires line != []
    decreases line[|line| - 1], if line[|line| - 1].GroupNode? then |line[|line| - 1].children| + 1 else 0
  {
    if line[|line| - 1].LeafNode? then [line] else ChildColumns(line, line[|line| - 1], 0)
  }

  function ChildColumns(line: seq<Node>, group: Node, i: nat): seq<seq<Node>>
    requires group.GroupNode? && i <= |group.children|
    decreases group, |group.children| - i
  {
    if i == |group.children| then [] else ColumnsBelow(line + [group.children[i]]) + ChildColumns(line, group, i + 1)
  }

  function PassedColumns(roots: seq<Node>, i: nat): seq<seq<Node>>
    requires i <= |roots|
    decreases |roots| - i
  {
    if i == |roots| then [] else ColumnsBelow([roots[i]]) + PassedColumns(roots, i + 1)
  }

  /** What was passed for a column, row by row. */
  ghost function PassedRows(line: seq<Node>, n: nat): seq<Datum<Scalar>> {
    if Line(line, n) then seq(n, i requires 0 <= i < n => Meaning(line, n, 0, i)) else []
  }

  /** What was passed for a chunk, column by column. */
  ghost function PassedTable(roots: seq<Node>, n: nat): Table {
    seq(|PassedColumns(roots, 0)|, j requires 0 <= j < |PassedColumns(roots, 0)| => PassedRows(PassedColumns(roots, 0)[j], n))
  }

  /** The first of them fixes the row count. */
  lemma {:induction false} FirstColumnFixesRows(roots: seq<Node>)
    requires roots != [] && AllPeopled(roots[0])
    ensures var lines := PassedColumns(roots, 0);
      && Peopled(roots[0]) && lines != [] && lines[0] != [] && lines[0][|lines[0]| - 1].LeafNode?
      && FirstLeafSize(roots[0]) == lines[0][|lines[0]| - 1].elements.Count()
  {
    FirstBelow([roots[0]]);
  }

  lemma {:induction false} FirstBelow(line: seq<Node>)
    requires line != [] && AllPeopled(line[|line| - 1])
    ensures var lines := ColumnsBelow(line);
      && lines != [] && lines[0] != [] && lines[0][|lines[0]| - 1].LeafNode? && Peopled(line[|line| - 1])
      && FirstLeafSize(line[|line| - 1]) == lines[0][|lines[0]| - 1].elements.Count()
    decreases line[|line| - 1]
  {
    var node := line[|line| - 1];
    if node.GroupNode? { FirstBelow(line + [node.children[0]]); }
  }

  /** A field of the file says what was passed: its name, whether rows may be missing, and its type, down to the columns. */
  ghost predicate Describes(field: ArrowSchema, node: Node)
    decreases node
  {
    && field.name == node.name && field.nullable == node.nullable
    && match node
       case LeafNode(_, _, elements, _) => field.children == [] && DescribesColumn(field.format, elements)
       case GroupNode(_, _, children, _, _) =>
         && field.format == "+s" && |field.children| == |children|
         && forall i :: 0 <= i < |children| ==> Describes(field.children[i], children[i])
  }

  predicate DescribesColumn(format: string, elements: ColumnElements) {
    match elements
    case FixedElements(f, _) => format == if WidthGiven(f) then "w:" + Decimal(Atoi(f[2..])) else f
    case BoolElements(_) => format == "b"
    case TextElements(binary, _, _) => format == if binary then "z" else "u"
  }

  lemma {:induction false} FieldDescribes(node: Node)
    requires AllTyped(node)
    ensures var c := SchemaOf(node); Describes(Kept(c, c.name, MayBeNull(c)), node)
  {
    var c := SchemaOf(node);
    match node
    case LeafNode(_, _, elements, _) =>
      assert elements.FixedElements? ==> MapFormat(elements.Format(), node.name, node.nullable).Some?;
    case GroupNode(_, _, children, _, _) =>
      forall i | 0 <= i < |children| ensures Describes(Kept(c, c.name, MayBeNull(c)).children[i], children[i]) { FieldDescribes(children[i]); }
  }

  // ---- flattening finds them ------------------------------------------------------------------

  /** The leaf columns stand for the columns at the ends of the lines, one for one. */
  ghost predicate Stand(leaves: seq<LeafSpec>, roots: seq<Node>, lines: seq<seq<Node>>) {
    |leaves| == |lines| && forall i :: 0 <= i < |leaves| ==> NodesOn(roots, leaves[i].pathIdx, |leaves[i].pathIdx|) == Some(lines[i])
  }

  lemma {:induction false} StandAppend(a: seq<LeafSpec>, b: seq<LeafSpec>, roots: seq<Node>, x: seq<seq<Node>>, y: seq<seq<Node>>)
    requires Stand(a, roots, x) && Stand(b, roots, y)
    ensures Stand(a + b, roots, x + y)
  {
  }

  lemma {:induction false} SupportedWhatever(format: string, name: string, nullable: bool, name': string, nullable': bool)
    requires MapFormat(format, name, nullable).Some?
    ensures MapFormat(format, name', nullable').Some?
  {
  }

  /** A column's own format, or one of the fixed ones, is a supported leaf format. */
  lemma {:induction false} ColumnSupported(node: Node, w: Where)
    requires node.LeafNode? && AllTyped(node)
    ensures Flatten(SchemaOf(node), w).Some? && |Flatten(SchemaOf(node), w).value.leaves| == 1
    ensures Flatten(SchemaOf(node), w).value.leaves[0].pathIdx == w.idx
  {
    var format := node.elements.Format();
    if node.elements.FixedElements? { SupportedWhatever(format, node.name, node.nullable, w.name, w.optional); }
    assert format != "+s" && format != "+l" && format != "+L" && format != "+m";
    assert MapFormat(format, w.name, w.optional).Some?;
  }

  ghost predicate Flattens(node: Node, w: Where, roots: seq<Node>, line: seq<Node>)
    requires line != []
  {
    var flat := Flatten(SchemaOf(node), w);
    flat.Some? && flat.value.leaves != [] && Stand(flat.value.leaves, roots, ColumnsBelow(line))
  }

  /** A node at the end of a line is flattened into exactly the columns below it. */
  lemma {:induction false} NodeFlattens(node: Node, w: Where, roots: seq<Node>, line: seq<Node>)
    requires AllTyped(node) && AllPeopled(node)
    requires line != [] && line[|line| - 1] == node && NodesOn(roots, w.idx, |w.idx|) == Some(line)
    ensures Flattens(node, w, roots, line)
    decreases node, 1, 0
  {
    if node.LeafNode? {
      ColumnSupported(node, w);
    } else {
      FieldsFlatten(node, 0, w, roots, line);
    }
  }

  lemma {:induction false} FieldsFlatten(node: Node, i: nat, w: Where, roots: seq<Node>, line: seq<Node>)
    requires node.GroupNode? && AllTyped(node) && AllPeopled(node) && i <= |node.children|
    requires line != [] && line[|line| - 1] == node && NodesOn(roots, w.idx, |w.idx|) == Some(line)
    ensures var flat := FlattenFields(SchemaOf(node), i, w);
      flat.Some? && (i < |node.children| ==> flat.value.leaves != []) && Stand(flat.value.leaves, roots, ChildColumns(line, node, i))
    decreases node, 0, |node.children| - i
  {
    if i < |node.children| {
      var c, w' := node.children[i], w.Child(i, SchemaOf(node).children[i]);
      ChildOnLine(node, i, w.idx, roots, line);
      NodeFlattens(c, w', roots, line + [c]);
      FieldsFlatten(node, i + 1, w, roots, line);
      StandAppend(Flatten(SchemaOf(c), w').value.leaves, FlattenFields(SchemaOf(node), i + 1, w).value.leaves, roots,
        ColumnsBelow(line + [c]), ChildColumns(line, node, i + 1));
    }
  }

  lemma {:induction false} ChildOnLine(node: Node, i: nat, idx: seq<nat>, roots: seq<Node>, line: seq<Node>)
    requires node.GroupNode? && i < |node.children| && line != [] && line[|line| - 1] == node && NodesOn(roots, idx, |idx|) == Some(line)
    ensures NodesOn(roots, idx + [i], |idx| + 1) == Some(line + [node.children[i]])
  {
    NodesOnPrefix(roots, idx, i, |idx|);
    assert (idx + [i])[|idx|] == i;
  }

  lemma {:induction false} RootsFlatten(roots: seq<Node>, i: nat)
    requires i <= |roots| && forall k :: 0 <= k < |roots| ==> AllTyped(roots[k]) && AllPeopled(roots[k])
    ensures var flat := FlattenTop(ChunkSchema(roots), i);
      flat.Some? && (i < |roots| ==> flat.value.leaves != []) && Stand(flat.value.leaves, roots, PassedColumns(roots, i))
    decreases |roots| - i
  {
    if i < |roots| {
      var w := TopLevel(i, ChunkSchema(roots).children[i]);
      RootOnLine(roots, i);
      NodeFlattens(roots[i], w, roots, [roots[i]]);
      RootsFlatten(roots, i + 1);
      StandAppend(Flatten(SchemaOf(roots[i]), w).value.leaves, FlattenTop(ChunkSchema(roots), i + 1).value.leaves, roots,
        ColumnsBelow([roots[i]]), PassedColumns(roots, i + 1));
    }
  }

  lemma {:induction false} RootOnLine(roots: seq<Node>, i: nat)
    requires i < |roots|
    ensures NodesOn(roots, [i], 1) == Some([roots[i]])
  {
    var idx := [i];
    assert NodesOn(roots, idx, 0) == Some([]);
    assert idx[0] == i;
    var none: seq<Node> := [];
    assert NodesOn(roots, idx, 1) == Some(none + [roots[idx[0]]]);
    assert none + [roots[idx[0]]] == [roots[i]];
  }

  // ---- the chunk is a batch that the writer takes ---------------------------------------------

  /** A chunk as a program of the front end passes it: at least one field, no empty groups. */
  ghost predicate WholeChunk(roots: seq<Node>, n: nat) {
    roots != [] && Chunk(roots, n) && forall k :: 0 <= k < |roots| ==> AllPeopled(roots[k])
  }

  lemma {:induction false} ChunkFlattens(roots: seq<Node>, n: nat)
    requires WholeChunk(roots, n)
    ensures var flat := FlattenTop(ChunkSchema(roots), 0);
      flat.Some? && flat.value.leaves != [] && Stand(flat.value.leaves, roots, PassedColumns(roots, 0))
  {
    forall k | 0 <= k < |roots| ensures AllTyped(roots[k]) {
      assert Passed(roots[k], n);
      PassedIsTyped(roots[k], n);
    }
    RootsFlatten(roots, 0);
  }

  /** Every leaf of the chunk's schema is accepted and read rightly. */
  lemma {:induction false} ChunkIsRegular(roots: seq<Node>, n: nat)
    requires WholeChunk(roots, n) && FlattenTop(ChunkSchema(roots), 0).Some?
    ensures BatchRegular(FlattenTop(ChunkSchema(roots), 0).value.leaves, ChunkBatch(roots, n))
  {
    ChunkLeaves(roots, n);
    var leaves := FlattenTop(ChunkSchema(roots), 0).value.leaves;
    forall i | 0 <= i < |leaves| ensures LeafRegular(leaves[i], ChunkBatch(roots, n)) {
      assert LeafOk(leaves[i]) && LeafOn(leaves[i], roots);
      ChunkMeansWhatWasPassed(roots, n, leaves[i]);
    }
    forall i | 0 <= i < |leaves| ensures LeafUsable(leaves[i], ChunkBatch(roots, n)) {
      assert LeafRegular(leaves[i], ChunkBatch(roots, n));
    }
  }

  /** A writer that is new, or locked by an earlier chunk of the same fields, has no objection to the schema. */
  ghost predicate SameFields(s: WriterState, roots: seq<Node>) {
    s.locked ==> s.topChildren == |roots| && FlattenTop(ChunkSchema(roots), 0).Some? && s.leaves == FlattenTop(ChunkSchema(roots), 0).value.leaves
  }

  /** So what the writer requires of a batch is there, and it settles on the chunk's leaves. */
  lemma {:induction false} ChunkIsUsable(s: WriterState, roots: seq<Node>, n: nat)
    requires WholeChunk(roots, n) && SameFields(s, roots)
    ensures Usable(s, ChunkSchema(roots), ChunkBatch(roots, n))
    ensures var lock := LockSchema(s, ChunkSchema(roots), ChunkBatch(roots, n));
      lock.Locks? && lock.s.leaves == FlattenTop(ChunkSchema(roots), 0).value.leaves
  {
    ChunkFlattens(roots, n);
    ChunkIsRegular(roots, n);
    BatchIsBacked(roots, n);
  }

  /** The rows that a reader gets for the batch are those that were passed. */
  lemma {:induction false} ChunkRowsArePassed(roots: seq<Node>, n: nat)
    requires WholeChunk(roots, n) && FlattenTop(ChunkSchema(roots), 0).Some?
    ensures BatchRows(FlattenTop(ChunkSchema(roots), 0).value.leaves, ChunkBatch(roots, n)) == PassedTable(roots, n)
  {
    var leaves, batch := FlattenTop(ChunkSchema(roots), 0).value.leaves, ChunkBatch(roots, n);
    ChunkFlattens(roots, n);
    forall j | 0 <= j < |leaves| ensures BatchRows(leaves, batch)[j] == PassedRows(PassedColumns(roots, 0)[j], n) {
      ColumnRowsArePassed(roots, n, leaves, j);
    }
  }

  lemma {:induction false} ColumnRowsArePassed(roots: seq<Node>, n: nat, leaves: seq<LeafSpec>, j: nat)
    requires WholeChunk(roots, n) && FlattenTop(ChunkSchema(roots), 0).Some? && leaves == FlattenTop(ChunkSchema(roots), 0).value.leaves
    requires j < |leaves| && Stand(leaves, roots, PassedColumns(roots, 0))
    ensures BatchRows(leaves, ChunkBatch(roots, n))[j] == PassedRows(PassedColumns(roots, 0)[j], n)
  {
    ChunkLeaves(roots, n);
    assert LeafOk(leaves[j]) && LeafOn(leaves[j], roots);
    LeafRowsArePassed(roots, n, leaves[j]);
    BatchRowsAt(leaves, ChunkBatch(roots, n), j);
  }

  lemma {:induction false} LeafRowsArePassed(roots: seq<Node>, n: nat, leaf: LeafSpec)
    requires Chunk(roots, n) && LeafOk(leaf) && LeafOn(leaf, roots)
    ensures RegularRows(leaf, ChunkBatch(roots, n)) == PassedRows(NodesOn(roots, leaf.pathIdx, |leaf.pathIdx|).value, n)
  {
    ChunkMeansWhatWasPassed(roots, n, leaf);
    var line := NodesOn(roots, leaf.pathIdx, |leaf.pathIdx|).value;
    assert |LeafRows(leaf, ChunkBatch(roots, n))| == |PassedRows(line, n)|;
  }

  // ---- the file -------------------------------------------------------------------------------

  /** The one call between open and close. */
  ghost function ChunkOp(roots: seq<Node>, n: nat): Op
    requires AllBuildable(roots, n)
  {
    Op.WriteBatch(ChunkSchema(roots), ChunkBatch(roots, n))
  }

  lemma {:induction false} OneStep(f: Foreign, op: Op)
    requires Admissible(START.s, op)
    ensures AllAdmissible(f, [op]) && Run(f, [op]) == Advance(f, START, op) && Run(f, [op]).s == Step(f, START.s, op).s
  {
    assert AllAdmissible(f, []) && Run(f, []) == START;
    RunSnoc(f, [], op);
    assert [] + [op] == [op];
  }

  /** The chunk, if it is written at all, is the one commit, under the codec that the footer will name. */
  lemma {:induction false} ChunkIsCommitted(f: Foreign, roots: seq<Node>, n: nat)
    requires WholeChunk(roots, n) && Admissible(START.s, ChunkOp(roots, n)) && Step(f, START.s, ChunkOp(roots, n)).status.OK?
    ensures var h := Advance(f, START, ChunkOp(roots, n));
      && AllRegular(h.s.codec, h.s.leaves, h.commits) && CommittedTables(h.s.leaves, h.commits) == [PassedTable(roots, n)]
      && h.schema == Some(ChunkSchema(roots))
  {
    ChunkIsUsable(START.s, roots, n);
    ChunkIsRegular(roots, n);
    ChunkRowsArePassed(roots, n);
    FirstCommit(f, ChunkSchema(roots), ChunkBatch(roots, n));
    var h := Advance(f, START, ChunkOp(roots, n));
    OneTable(h.s.leaves, h.commits);
  }

  /** A first batch that is accepted is the one commit, under the codec of a new writer. */
  lemma {:induction false} FirstCommit(f: Foreign, schema: ArrowSchema, batch: ArrowArray)
    requires Admissible(START.s, Op.WriteBatch(schema, batch)) && Step(f, START.s, Op.WriteBatch(schema, batch)).status.OK?
    ensures var h, lock := Advance(f, START, Op.WriteBatch(schema, batch)), LockSchema(START.s, schema, batch);
      && |h.commits| == 1 && h.commits[0].batch == batch && h.commits[0].codec == h.s.codec
      && lock.Locks? && h.s.leaves == lock.s.leaves && h.schema == Some(schema)
  {
  }

  /** The contents are what was passed: the fields, and one table of their columns. */
  ghost predicate IsPassed(c: Contents, roots: seq<Node>, n: nat) {
    && |c.fields| == |roots| && (forall i :: 0 <= i < |roots| ==> Describes(c.fields[i], roots[i]))
    && c.tables == [PassedTable(roots, n)]
  }

  lemma {:induction false} FieldsArePassed(roots: seq<Node>, n: nat)
    requires WholeChunk(roots, n)
    ensures IsPassed(Contents(KeptFields(ChunkSchema(roots).children, 0), [PassedTable(roots, n)]), roots, n)
  {
    var fields := KeptFields(ChunkSchema(roots).children, 0);
    forall i | 0 <= i < |roots| ensures Describes(fields[i], roots[i]) {
      assert Passed(roots[i], n);
      PassedIsTyped(roots[i], n);
      FieldDescribes(roots[i]);
    }
  }

  /** Everything that was passed is in the file: a reader gets its fields, and one table of its columns. */
  lemma {:induction false} ChunkFileReadsBack(f: Foreign, roots: seq<Node>, n: nat)
    requires Faithful(f) && WholeChunk(roots, n) && Admissible(START.s, ChunkOp(roots, n))
    requires var o := Step(f, START.s, ChunkOp(roots, n)); o.status.OK? && Closed(f, o.s).status.OK?
    ensures var c := ReadFile(f, Closed(f, Step(f, START.s, ChunkOp(roots, n)).s).s.file); c.Some? && IsPassed(c.value, roots, n)
  {
    OneStep(f, ChunkOp(roots, n));
    ChunkIsCommitted(f, roots, n);
    FileReadsBack(f, [ChunkOp(roots, n)]);
    FieldsArePassed(roots, n);
  }

  /** The chunk's status if that is no success, else the close's; the file is closed either way. */
  ghost predicate FileOf(f: Foreign, roots: seq<Node>, n: nat, status: Option<Status>, file: bytes)
  {
    && AllBuildable(roots, n) && Admissible(START.s, ChunkOp(roots, n)) &&
    var o := Step(f, START.s, ChunkOp(roots, n));
    var c := Closed(f, o.s);
    status == Some(if o.status.OK? then c.status else o.status) && file == c.s.file
  }

  ghost predicate FileWritten(f: Foreign, roots: seq<Node>, status: Option<Status>, file: bytes) {
    forall n: nat :: AllRectangular(roots, n) ==> FileOf(f, roots, n, status, file)
  }

  /** Whatever its row count, a chunk as programs pass it reads back from the file. */
  ghost predicate FileRead(f: Foreign, roots: seq<Node>, file: bytes) {
    forall n: nat :: WholeChunk(roots, n) ==> var c := ReadFile(f, file); c.Some? && IsPassed(c.value, roots, n)
  }

  ghost predicate AllWritten(f: Foreign, roots: seq<Node>, status: Status, written: WriterState) {
    forall n: nat :: AllRectangular(roots, n) ==> WrittenAs(f, Opened(true), roots, n, written, Some(status))
  }

  lemma {:induction false} ChunkThenClose(f: Foreign, roots: seq<Node>, status: Status, written: WriterState, closing: Status, closed: WriterState)
    requires AllWritten(f, roots, status, written) && Outcome(closed, closing) == Closed(f, written)
    ensures FileWritten(f, roots, Some(if status == OK then closing else status), closed.file)
  {
    forall n: nat | AllRectangular(roots, n) ensures FileOf(f, roots, n, Some(if status == OK then closing else status), closed.file) {
      assert WrittenAs(f, Opened(true), roots, n, written, Some(status));
    }
  }

  lemma {:induction false} FilesAreRead(f: Foreign, roots: seq<Node>, status: Status, file: bytes)
    requires FileWritten(f, roots, Some(status), file)
    ensures status == OK && Faithful(f) ==> FileRead(f, roots, file)
  {
    if status == OK && Faithful(f) {
      forall n: nat | WholeChunk(roots, n) ensures var c := ReadFile(f, file); c.Some? && IsPassed(c.value, roots, n) {
        assert forall i :: 0 <= i < |roots| ==> Passed(roots[i], n);
        assert FileOf(f, roots, n, Some(status), file);
        ChunkFileReadsBack(f, roots, n);
      }
    }
  }

  /**
   `write_file`: open, one chunk, close; `None` if a buffer is written beyond its end. If the chunk is
   well-formed, for whatever row count, and the file succeeds, what was passed reads back.
   */
  method WriteFile(f: Foreign, opens: bool, roots: seq<Node>) returns (status: Option<Status>, file: bytes)
    requires roots != [] && Peopled(roots[0]) && forall i :: 0 <= i < |roots| ==> AllMasked(roots[i])
    requires Writable(Opened(opens), roots)
    ensures !opens ==> status == Some(IO_ERROR)
    ensures opens && NotOverrun(roots, FirstLeafSize(roots[0])) && !AllRectangular(roots, FirstLeafSize(roots[0])) ==> status == Some(INVALID_ARGUMENT)
    ensures opens ==> FileWritten(f, roots, status, file)
    ensures status == Some(OK) && Faithful(f) ==> FileRead(f, roots, file)
  {
    if !opens { return Some(IO_ERROR), []; }
    var w := new Writer(f, opens);
    status := WriteChunk(w, roots);
    if status == None { return None, []; }
    var before := status;
    ghost var written := w.State();
    var closing := w.Close();
    file := w.file;
    ChunkThenClose(f, roots, before.value, written, closing, w.State());
    if before != Some(OK) { return before, file; }
    status := Some(closing);
    FilesAreRead(f, roots, status.value, file);
  }
}
