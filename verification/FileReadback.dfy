/**
 The end-to-end round trip: whatever calls a writer saw, a reader of the closed file gets the rows of
 every accepted batch, column by column.
 */
module FileReadback {
  import opened Bits
  import opened Arrow
  import opened Records
  import opened Schema
  import opened Footer
  import opened SchemaReadback
  import opened PlainValues
  import opened Codecs
  import opened Values
  import opened Pages
  import opened Chunks
  import opened Writing
  import opened Runs
  import opened Readback
  import opened UnaryCodecs

  // ---- the columns are ones a reader can decode -----------------------------------------------

  ghost predicate SpecsOk(leaves: seq<LeafSpec>) {
    forall i :: 0 <= i < |leaves| ==> SpecOk(leaves[i].col)
  }

  lemma {:induction false} FlattenSpecs(node: ArrowSchema, w: Where)
    requires Flatten(node, w).Some?
    ensures SpecsOk(Flatten(node, w).value.leaves)
    decreases node, |node.children| + 1
  {
    if node.format == "+s" {
      FieldsSpecs(node, 0, w);
    } else if node.format == "+l" || node.format == "+L" {
      FlattenSpecs(node.children[0], w.Element(node.children[0], node.format == "+L"));
    } else if node.format == "+m" {
      var entries := node.children[0];
      FlattenSpecs(entries.children[0], w.KeyValue(0, entries.children[0]));
      FlattenSpecs(entries.children[1], w.KeyValue(1, entries.children[1]));
    } else {
      MapFormatSpecOk(node.format, w.name, w.optional);
    }
  }

  lemma {:induction false} FieldsSpecs(node: ArrowSchema, i: nat, w: Where)
    requires i <= |node.children| && FlattenFields(node, i, w).Some?
    ensures SpecsOk(FlattenFields(node, i, w).value.leaves)
    decreases node, |node.children| - i
  {
    if i < |node.children| {
      FlattenSpecs(node.children[i], w.Child(i, node.children[i]));
      FieldsSpecs(node, i + 1, w);
    }
  }

  lemma {:induction false} TopSpecs(schema: ArrowSchema, i: nat)
    requires i <= |schema.children| && FlattenTop(schema, i).Some?
    ensures SpecsOk(FlattenTop(schema, i).value.leaves)
    decreases |schema.children| - i
  {
    if i < |schema.children| {
      FlattenSpecs(schema.children[i], TopLevel(i, schema.children[i]));
      TopSpecs(schema, i + 1);
    }
  }

  // ---- a row group ----------------------------------------------------------------------------

  type Table = seq<seq<Datum<Scalar>>>

  /** Reads one column of a row group. */
  type ColumnReader = ChunkMeta -> Option<seq<Datum<Scalar>>>

  function ReaderOf(f: Foreign, codec: Codec, col: Column, file: bytes): ColumnReader {
    (m: ChunkMeta) => ReadColumn(f, codec, col, file, m)
  }

  function Readers(f: Foreign, codec: Codec, cols: seq<Column>, file: bytes): (rs: seq<ColumnReader>)
    ensures |rs| == |cols|
  {
    if cols == [] then [] else Readers(f, codec, cols[..|cols| - 1], file) + [ReaderOf(f, codec, cols[|cols| - 1], file)]
  }

  lemma {:induction false} ReadersAt(f: Foreign, codec: Codec, cols: seq<Column>, file: bytes, i: nat, col: Column)
    requires i < |cols| && col == cols[i]
    ensures Readers(f, codec, cols, file)[i] == ReaderOf(f, codec, col, file)
  {
    if i < |cols| - 1 { ReadersAt(f, codec, cols[..|cols| - 1], file, i, col); }
  }

  /** The first `n` columns of a row group. */
  function ReadColumns(rs: seq<ColumnReader>, ms: seq<ChunkMeta>, n: nat): Option<Table>
    requires n <= |rs| && n <= |ms|
  {
    if n == 0 then Some([]) else
    match ReadColumns(rs, ms, n - 1)
    case None => None
    case Some(t) =>
      match rs[n - 1](ms[n - 1])
      case None => None
      case Some(xs) => Some(t + [xs])
  }

  lemma {:induction false} ReadColumnsPrefix(rs: seq<ColumnReader>, ms: seq<ChunkMeta>, m: ChunkMeta, n: nat)
    requires n <= |rs| && n <= |ms|
    ensures ReadColumns(rs, ms + [m], n) == ReadColumns(rs, ms, n)
  {
    if n > 0 { ReadColumnsPrefix(rs, ms, m, n - 1); }
  }

  /** Wherever a writer's bytes are in the file, its chunk reads back as what is wanted. */
  ghost predicate ReadsAs(rs: seq<ColumnReader>, file: bytes, ws: seq<LeafWriter>, want: Table) {
    |rs| == |ws| == |want| && forall i :: 0 <= i < |ws| ==> ReadsAnywhere(rs[i], file, ws[i], want[i])
  }

  ghost predicate ReadsAnywhere(r: ColumnReader, file: bytes, w: LeafWriter, want: seq<Datum<Scalar>>) {
    forall at: nat :: ReadsOne(r, file, w(at), at, want)
  }

  ghost predicate ReadsOne(r: ColumnReader, file: bytes, w: LeafWrite, at: nat, want: seq<Datum<Scalar>>) {
    w.Status().OK? && Holds(file, at, w.Bytes()) ==> r(w.written.meta.value) == Some(want)
  }

  lemma {:induction false} ColumnsReadBack(rs: seq<ColumnReader>, file: bytes, ws: seq<LeafWriter>, want: Table, n: nat, base: nat, b: Batched)
    requires ReadsAs(rs, file, ws, want) && n <= |ws|
    requires b == WriteLeaves(ws, n, base) && b.status.OK? && Holds(file, base, b.bytes)
    ensures ReadTo(rs, b.columns, want, n)
    decreases n
  {
    if n == 0 {
      NoColumns(rs, ws, want, base, b);
      return;
    }
    var above, at, w := LastHolds(ws, n, base, b, file);
    ColumnsReadBack(rs, file, ws, want, n - 1, base, above);
    NextColumn(rs, file, ws, want, n, at, above, w);
  }

  lemma {:induction false} NoColumns(rs: seq<ColumnReader>, ws: seq<LeafWriter>, want: Table, base: nat, b: Batched)
    requires b == WriteLeaves(ws, 0, base)
    ensures ReadTo(rs, b.columns, want, 0)
  {
    assert want[..0] == [];
  }

  lemma {:induction false} NextColumn(rs: seq<ColumnReader>, file: bytes, ws: seq<LeafWriter>, want: Table, n: nat, at: nat, above: Batched, w: LeafWrite)
    requires ReadsAs(rs, file, ws, want) && 0 < n <= |ws| && w == ws[n - 1](at) && w.Status().OK? && Holds(file, at, w.Bytes())
    requires ReadTo(rs, above.columns, want, n - 1)
    ensures ReadTo(rs, AddLeaf(above, w).columns, want, n)
  {
    ReadsAt(rs, file, ws, want, n - 1, at, w);
    OneMoreColumn(rs, above, w, want, n);
  }

  /** The first `n` columns are all there are, and read as the first `n` wanted. */
  predicate ReadTo(rs: seq<ColumnReader>, ms: seq<ChunkMeta>, want: Table, n: nat)
    requires n <= |rs| && n <= |want|
  {
    |ms| == n && ReadColumns(rs, ms, n) == Some(want[..n])
  }

  lemma {:induction false} ReadsAt(rs: seq<ColumnReader>, file: bytes, ws: seq<LeafWriter>, want: Table, i: nat, at: nat, w: LeafWrite)
    requires ReadsAs(rs, file, ws, want) && i < |ws| && w == ws[i](at) && w.Status().OK? && Holds(file, at, w.Bytes())
    ensures rs[i](w.written.meta.value) == Some(want[i])
  {
    assert ReadsAnywhere(rs[i], file, ws[i], want[i]);
    assert ReadsOne(rs[i], file, ws[i](at), at, want[i]);
  }

  lemma {:induction false} OneMoreColumn(rs: seq<ColumnReader>, b: Batched, w: LeafWrite, want: Table, n: nat)
    requires 0 < n <= |rs| == |want| && ReadTo(rs, b.columns, want, n - 1)
    requires w.Status().OK? && rs[n - 1](w.written.meta.value) == Some(want[n - 1])
    ensures ReadTo(rs, AddLeaf(b, w).columns, want, n)
  {
    ReadColumnsPrefix(rs, b.columns, w.written.meta.value, n - 1);
    assert want[..n] == want[..n - 1] + [want[n - 1]];
  }

  /** Every leaf of the batch is accepted and read rightly. */
  ghost predicate BatchRegular(leaves: seq<LeafSpec>, batch: ArrowArray) {
    LeavesUsable(leaves, batch) && forall i :: 0 <= i < |leaves| ==> LeafRegular(leaves[i], batch)
  }

  ghost predicate LeafRegular(leaf: LeafSpec, batch: ArrowArray) {
    LeafUsable(leaf, batch) && Accepts(leaf, batch) && Regular(leaf, batch)
  }

  /** A leaf's rows, if they are read rightly. */
  ghost function RegularRows(leaf: LeafSpec, batch: ArrowArray): seq<Datum<Scalar>> {
    if LeafRegular(leaf, batch) then LeafRows(leaf, batch) else []
  }

  /** What an accepted batch says, leaf by leaf. */
  ghost function BatchRows(leaves: seq<LeafSpec>, batch: ArrowArray): (t: Table)
    ensures |t| == |leaves|
  {
    if leaves == [] then [] else BatchRows(leaves[..|leaves| - 1], batch) + [RegularRows(leaves[|leaves| - 1], batch)]
  }

  lemma {:induction false} BatchRowsAt(leaves: seq<LeafSpec>, batch: ArrowArray, i: nat)
    requires i < |leaves|
    ensures BatchRows(leaves, batch)[i] == RegularRows(leaves[i], batch)
  {
    if i < |leaves| - 1 { BatchRowsAt(leaves[..|leaves| - 1], batch, i); }
  }

  lemma {:induction false} BatchRowsCount(leaves: seq<LeafSpec>, batch: ArrowArray)
    requires BatchRegular(leaves, batch)
    ensures forall i :: 0 <= i < |leaves| ==> |BatchRows(leaves, batch)[i]| == batch.length
  {
    forall i | 0 <= i < |leaves| ensures |BatchRows(leaves, batch)[i]| == batch.length {
      assert LeafRegular(leaves[i], batch);
      BatchRowsAt(leaves, batch, i);
      LeafRowsCount(leaves[i], batch);
    }
  }

  lemma {:induction false} LeafRowsCount(leaf: LeafSpec, batch: ArrowArray)
    requires LeafRegular(leaf, batch)
    ensures |RegularRows(leaf, batch)| == batch.length
  {
  }

  lemma {:induction false} LeafIsRead(f: Foreign, codec: Codec, mode: Mode, leaf: LeafSpec, batch: ArrowArray, file: bytes, at: nat)
    requires Faithful(f) && SpecOk(leaf.col) && LeafRegular(leaf, batch)
    ensures ReadsOne(ReaderOf(f, codec, ColumnOf(leaf), file), file, WriteLeaf(f, codec, mode, leaf, batch, at), at, RegularRows(leaf, batch))
  {
    var w := WriteLeaf(f, codec, mode, leaf, batch, at);
    if w.Status().OK? && Holds(file, at, w.Bytes()) { LeafReadsBack(f, codec, mode, leaf, batch, at, file); }
  }

  lemma {:induction false} BatchReads(f: Foreign, codec: Codec, mode: Mode, leaves: seq<LeafSpec>, batch: ArrowArray, file: bytes)
    requires Faithful(f) && SpecsOk(leaves) && BatchRegular(leaves, batch)
    ensures ReadsAs(Readers(f, codec, ColumnsOf(leaves), file), file, LeafWriters(f, codec, mode, leaves, batch), BatchRows(leaves, batch))
  {
    var rs, ws, want := Readers(f, codec, ColumnsOf(leaves), file), LeafWriters(f, codec, mode, leaves, batch), BatchRows(leaves, batch);
    forall i, at: nat | 0 <= i < |ws| ensures ReadsOne(rs[i], file, ws[i](at), at, want[i]) {
      OneReads(f, codec, mode, leaves, batch, file, i, at);
    }
    AllReadAnywhere(rs, file, ws, want);
  }

  lemma {:induction false} AllReadAnywhere(rs: seq<ColumnReader>, file: bytes, ws: seq<LeafWriter>, want: Table)
    requires |rs| == |ws| == |want| && forall i, at: nat :: 0 <= i < |ws| ==> ReadsOne(rs[i], file, ws[i](at), at, want[i])
    ensures ReadsAs(rs, file, ws, want)
  {
    forall i | 0 <= i < |ws| ensures ReadsAnywhere(rs[i], file, ws[i], want[i]) {
      forall at: nat ensures ReadsOne(rs[i], file, ws[i](at), at, want[i]) { }
    }
  }

  lemma {:induction false} OneReads(f: Foreign, codec: Codec, mode: Mode, leaves: seq<LeafSpec>, batch: ArrowArray, file: bytes, i: nat, at: nat)
    requires Faithful(f) && SpecsOk(leaves) && BatchRegular(leaves, batch) && i < |leaves|
    ensures ReadsOne(Readers(f, codec, ColumnsOf(leaves), file)[i], file, LeafWriters(f, codec, mode, leaves, batch)[i](at), at,
      BatchRows(leaves, batch)[i])
  {
    assert LeafRegular(leaves[i], batch);
    ReadersAt(f, codec, ColumnsOf(leaves), file, i, ColumnOf(leaves[i]));
    LeafWritersAt(f, codec, mode, leaves, batch, i, leaves[i]);
    BatchRowsAt(leaves, batch, i);
    LeafIsRead(f, codec, mode, leaves[i], batch, file, at);
  }

  // ---- the file -------------------------------------------------------------------------------

  /** Every column has the row group's rows, and their sizes add up to its size. */
  predicate GroupCounted(rg: RowGroupMeta, t: Table) {
    (forall i :: 0 <= i < |t| ==> |t[i]| == rg.numRows) && rg.totalByteSize == TotalUncompressed(rg.columns)
  }

  /** Every row group in turn. */
  function ReadRowGroups(rs: seq<ColumnReader>, rgs: seq<RowGroupMeta>): Option<seq<Table>> {
    if rgs == [] then Some([]) else
    match ReadRowGroups(rs, rgs[..|rgs| - 1])
    case None => None
    case Some(ts) =>
      var rg := rgs[|rgs| - 1];
      if |rg.columns| != |rs| then None else
      match ReadColumns(rs, rg.columns, |rs|)
      case None => None
      case Some(t) => if GroupCounted(rg, t) then Some(ts + [t]) else None
  }

  /** What is in a file: its fields, and the rows of each row group. */
  datatype Contents = Contents(fields: seq<ArrowSchema>, tables: seq<Table>)

  /** The whole file: the footer, the columns of its schema, and every row group's rows; a footer that miscounts the rows is refused. */
  function ReadFile(f: Foreign, file: bytes): Option<Contents> {
    match FindFooter(file)
    case None => None
    case Some(bs) =>
      match f.readFooter(bs)
      case None => None
      case Some(m) =>
        match ReadForest(m.rootChildren, m.elements)
        case None => None
        case Some((ts, rest)) =>
          if rest != [] || m.numRows != TotalRows(m.rowGroups) then None else
          match ReadNodes(ts)
          case None => None
          case Some(fields) =>
            match ReadRowGroups(Readers(f, m.codec, ForestColumns(ts, ROOT), file), m.rowGroups)
            case None => None
            case Some(tables) => Some(Contents(fields, tables))
  }

  /** The fields of a run's schema, as far as a file keeps them; none before the first batch. */
  function FieldsOf(h: History): seq<ArrowSchema> {
    if h.schema.Some? then KeptFields(h.schema.value.children, 0) else []
  }

  /** The commits were made under the codec that the footer will name, from batches the code reads rightly. */
  ghost predicate AllRegular(codec: Codec, leaves: seq<LeafSpec>, commits: seq<Commit>) {
    commits == [] || (AllRegular(codec, leaves, commits[..|commits| - 1]) &&
      commits[|commits| - 1].codec == codec && BatchRegular(leaves, commits[|commits| - 1].batch))
  }

  /** The accepted batches, in order. */
  ghost function CommittedTables(leaves: seq<LeafSpec>, commits: seq<Commit>): seq<Table> {
    if commits == [] then [] else
      CommittedTables(leaves, commits[..|commits| - 1]) + [BatchRows(leaves, commits[|commits| - 1].batch)]
  }

  /** A run with a single accepted batch. */
  lemma {:induction false} OneTable(leaves: seq<LeafSpec>, commits: seq<Commit>)
    requires |commits| == 1
    ensures CommittedTables(leaves, commits) == [BatchRows(leaves, commits[0].batch)]
    ensures AllRegular(commits[0].codec, leaves, commits) <==> BatchRegular(leaves, commits[0].batch)
  {
    assert commits[..0] == [];
    assert CommittedTables(leaves, []) == [];
  }

  lemma {:induction false} CommitReads(f: Foreign, leaves: seq<LeafSpec>, c: Commit, rg: RowGroupMeta, file: bytes)
    requires Faithful(f) && SpecsOk(leaves) && BatchRegular(leaves, c.batch) && GenuineOne(f, leaves, c) && RecordedOne(file, rg, c)
    ensures |rg.columns| == |leaves| && GroupCounted(rg, BatchRows(leaves, c.batch))
    ensures ReadColumns(Readers(f, c.codec, ColumnsOf(leaves), file), rg.columns, |leaves|) == Some(BatchRows(leaves, c.batch))
  {
    BatchReads(f, c.codec, c.mode, leaves, c.batch, file);
    BatchRowsCount(leaves, c.batch);
    CommitIsMade(f, leaves, c, rg, file, Readers(f, c.codec, ColumnsOf(leaves), file), BatchRows(leaves, c.batch));
  }

  lemma {:induction false} CommitIsMade(f: Foreign, leaves: seq<LeafSpec>, c: Commit, rg: RowGroupMeta, file: bytes, rs: seq<ColumnReader>, want: Table)
    requires GenuineOne(f, leaves, c) && RecordedOne(file, rg, c)
    requires ReadsAs(rs, file, LeafWriters(f, c.codec, c.mode, leaves, c.batch), want)
    ensures |rg.columns| == |leaves| == |rs| && ReadColumns(rs, rg.columns, |leaves|) == Some(want)
    ensures rg.numRows == c.batch.length && rg.totalByteSize == TotalUncompressed(rg.columns)
  {
    RowGroupReads(rs, file, LeafWriters(f, c.codec, c.mode, leaves, c.batch), want, c.base, c.made);
  }

  lemma {:induction false} RowGroupReads(rs: seq<ColumnReader>, file: bytes, ws: seq<LeafWriter>, want: Table, base: nat, made: Batched)
    requires ReadsAs(rs, file, ws, want) && made == WriteLeaves(ws, |ws|, base) && made.status.OK? && Holds(file, base, made.bytes)
    ensures |made.columns| == |ws| && ReadColumns(rs, made.columns, |ws|) == Some(want)
  {
    ColumnsReadBack(rs, file, ws, want, |ws|, base, made);
    assert want[..|ws|] == want;
  }

  lemma {:induction false} CommitsRead(f: Foreign, codec: Codec, leaves: seq<LeafSpec>, commits: seq<Commit>, rgs: seq<RowGroupMeta>, file: bytes)
    requires Faithful(f) && SpecsOk(leaves) && AllLeavesOk(leaves)
    requires AllRegular(codec, leaves, commits) && Genuine(f, leaves, commits) && Recorded(file, rgs, commits)
    ensures ReadRowGroups(Readers(f, codec, ColumnsOf(leaves), file), rgs) == Some(CommittedTables(leaves, commits))
  {
    if commits != [] {
      CommitsRead(f, codec, leaves, commits[..|commits| - 1], rgs[..|rgs| - 1], file);
      CommitReads(f, leaves, commits[|commits| - 1], rgs[|rgs| - 1], file);
    }
  }

  /** The footer's schema gives the reader the writer's columns. */
  lemma {:induction false} SchemaReads(h: History) returns (ts: seq<Tree>)
    requires Locked(h)
    ensures AllLeavesOk(h.s.leaves) && SpecsOk(h.s.leaves)
    ensures ReadForest(h.s.topChildren, ElementsOf(h.s.nodes)) == Some((ts, [])) && ForestColumns(ts, ROOT) == ColumnsOf(h.s.leaves)
    ensures ReadNodes(ts) == Some(FieldsOf(h))
  {
    if h.s.locked {
      ts := FooterDescribesLeaves(h.schema.value, 0);
      TopSpecs(h.schema.value, 0);
      var ts' := SchemaReadsBack(h.schema.value);
    } else {
      ts := [];
    }
  }

  /**
   The round trip: after any calls, if the close succeeds, a reader of the file alone gets the schema's
   fields and the rows of exactly the accepted batches, in order, whatever encoding modes they were
   written in.
   */
  lemma {:induction false} FileReadsBack(f: Foreign, ops: seq<Op>)
    requires Faithful(f) && AllAdmissible(f, ops)
    requires var h := Run(f, ops); AllRegular(h.s.codec, h.s.leaves, h.commits) && Closed(f, h.s).status.OK?
    ensures var h := Run(f, ops);
      ReadFile(f, Closed(f, h.s).s.file) == Some(Contents(FieldsOf(h), CommittedTables(h.s.leaves, h.commits)))
  {
    var h := Run(f, ops);
    RunKeeps(f, ops);
    HistoryReadsBack(f, h);
  }

  lemma {:induction false} HistoryReadsBack(f: Foreign, h: History)
    requires Faithful(f) && Inv(f, h) && AllRegular(h.s.codec, h.s.leaves, h.commits) && Closed(f, h.s).status.OK?
    ensures ReadFile(f, Closed(f, h.s).s.file) == Some(Contents(FieldsOf(h), CommittedTables(h.s.leaves, h.commits)))
  {
    var file := Closed(f, h.s).s.file;
    CloseLocatesFooter(f, h.s);
    var ts := SchemaReads(h);
    RecordedOnwards(h.s.file, Trailer(f, h.s).value, h.s.rowGroups, h.commits);
    CommitsRead(f, h.s.codec, h.s.leaves, h.commits, h.s.rowGroups, file);
    InvLayout(f, h);
    FooterReads(f, h.s, file);
  }

  lemma {:induction false} FooterReads(f: Foreign, s: WriterState, file: bytes)
    requires FaithfulFooter(f) && f.footer(FooterOf(s)).Some? && FindFooter(file) == f.footer(FooterOf(s))
    ensures f.readFooter(FindFooter(file).value) == Some(FooterOf(s))
  {
  }

  /** A writer that receives no batch still leaves a file that reads as one without row groups. */
  lemma {:induction false} EmptyFile(f: Foreign)
    requires Faithful(f) && Closed(f, Opened(true)).status.OK?
    ensures ReadFile(f, Closed(f, Opened(true)).s.file) == Some(Contents([], []))
  {
    assert AllAdmissible(f, []) && Run(f, []) == START;
    FileReadsBack(f, []);
  }

  /** There are encoders for which all of this happens. */
  lemma {:induction false} EmptyFileHappens() returns (f: Foreign)
    ensures Faithful(f) && AllAdmissible(f, []) && AllRegular(START.s.codec, START.s.leaves, START.commits)
    ensures Closed(f, Opened(true)).status.OK? && ReadFile(f, Closed(f, Opened(true)).s.file) == Some(Contents([], []))
  {
    f := UnaryForeign(FooterOf(Opened(true)));
    UnaryIsFaithful(FooterOf(Opened(true)));
    EmptyFile(f);
  }
}
