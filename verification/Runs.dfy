/**
 Runs of the writer: what holds of the file and of the writer's records after any sequence of calls,
 successful or not, and what the close adds.
 */
module Runs {
  import opened Bits
  import opened Arrow
  import opened RleBitpack
  import opened Schema
  import opened Footer
  import opened Codecs
  import opened Pages
  import opened Chunks
  import opened Writing

  /** A batch that became a row group: under which settings, at which offset, and as what. */
  datatype Commit = Commit(base: nat, codec: Codec, mode: Mode, batch: ArrowArray, made: Batched)

  /** A run so far: the schema that locked the writer, the batches accepted, the bytes that refused ones left. */
  datatype History = History(s: WriterState, schema: Option<ArrowSchema>, commits: seq<Commit>, stray: nat)

  const START := History(Opened(true), None, [], 0)

  /** The books after a batch's leaves: a commit if all succeeded, stray bytes if not. */
  function Book(h: History, batch: ArrowArray, made: Batched): History
    requires batch.length >= 0
  {
    var s := AfterLeaves(h.s, made, batch).s;
    if made.status.OK? then History(s, h.schema, h.commits + [Commit(h.s.offset, h.s.codec, h.s.mode, batch, made)], h.stray)
    else History(s, h.schema, h.commits, h.stray + |made.bytes|)
  }

  /** A call's effect on the writer, with the books kept beside it. */
  ghost function Advance(f: Foreign, h: History, op: Op): History
    requires Admissible(h.s, op)
  {
    if !op.WriteBatch? || !h.s.isOpen then h.(s := Step(f, h.s, op).s) else
    match LockSchema(h.s, op.schema, op.batch)
    case Refuses(_) => h
    case Locks(s) => Book(h.(s := s, schema := if h.s.locked then h.schema else Some(op.schema)), op.batch, BatchMade(f, h.s, op.schema, op.batch))
  }

  lemma {:induction false} AdvanceSteps(f: Foreign, h: History, op: Op)
    requires Admissible(h.s, op)
    ensures Advance(f, h, op).s == Step(f, h.s, op).s
  {
  }

  /** Every batch of the run brings the buffers that the writer will read. */
  ghost predicate AllAdmissible(f: Foreign, ops: seq<Op>)
    decreases |ops|, 0
  {
    ops == [] || (AllAdmissible(f, ops[..|ops| - 1]) && Admissible(Run(f, ops[..|ops| - 1]).s, ops[|ops| - 1]))
  }

  ghost function Run(f: Foreign, ops: seq<Op>): History
    requires AllAdmissible(f, ops)
    decreases |ops|, 1
  {
    if ops == [] then START else Advance(f, Run(f, ops[..|ops| - 1]), ops[|ops| - 1])
  }

  /** One call more. */
  lemma {:induction false} RunSnoc(f: Foreign, ops: seq<Op>, op: Op)
    requires AllAdmissible(f, ops) && Admissible(Run(f, ops).s, op)
    ensures AllAdmissible(f, ops + [op]) && Run(f, ops + [op]) == Advance(f, Run(f, ops), op)
    ensures Run(f, ops + [op]).s == Step(f, Run(f, ops).s, op).s
  {
    assert (ops + [op])[..|ops|] == ops;
    AdvanceSteps(f, Run(f, ops), op);
  }

  // ---- extents --------------------------------------------------------------------------------

  function ChunkEnd(m: ChunkMeta): nat { ChunkStart(m) + m.totalCompressed }

  /** The chunks lie in order and without overlap between two offsets. */
  predicate Spans(cs: seq<ChunkMeta>, from: nat, to: nat) {
    if cs == [] then from <= to
    else Spans(cs[..|cs| - 1], from, ChunkStart(cs[|cs| - 1])) && ChunkEnd(cs[|cs| - 1]) <= to
  }

  /** The chunks follow each other without a gap from one offset to the other. */
  predicate Tiles(cs: seq<ChunkMeta>, from: nat, to: nat) {
    if cs == [] then from == to
    else Tiles(cs[..|cs| - 1], from, ChunkStart(cs[|cs| - 1])) && ChunkEnd(cs[|cs| - 1]) == to
  }

  function TotalSize(cs: seq<ChunkMeta>): nat {
    if cs == [] then 0 else TotalSize(cs[..|cs| - 1]) + cs[|cs| - 1].totalCompressed
  }

  /** Chunks that span a range tile it exactly if their sizes add up to it. */
  lemma {:induction false} SpansTile(cs: seq<ChunkMeta>, from: nat, to: nat)
    requires Spans(cs, from, to)
    ensures from + TotalSize(cs) <= to
    ensures Tiles(cs, from, to) <==> from + TotalSize(cs) == to
  {
    if cs != [] { SpansTile(cs[..|cs| - 1], from, ChunkStart(cs[|cs| - 1])); }
  }

  lemma {:induction false} TilesSpan(cs: seq<ChunkMeta>, from: nat, to: nat)
    requires Tiles(cs, from, to)
    ensures Spans(cs, from, to)
  {
    if cs != [] { TilesSpan(cs[..|cs| - 1], from, ChunkStart(cs[|cs| - 1])); }
  }

  lemma {:induction false} SpansWiden(cs: seq<ChunkMeta>, from: nat, to: nat, to': nat)
    requires Spans(cs, from, to) && to <= to'
    ensures Spans(cs, from, to')
  {
  }

  lemma {:induction false} SpansAppend(a: seq<ChunkMeta>, b: seq<ChunkMeta>, from: nat, mid: nat, to: nat)
    requires Spans(a, from, mid) && Spans(b, mid, to)
    ensures Spans(a + b, from, to)
    ensures TotalSize(a + b) == TotalSize(a) + TotalSize(b)
  {
    if b == [] {
      assert a + b == a;
      SpansWiden(a, from, mid, to);
    } else {
      assert (a + b)[..|a + b| - 1] == a + b[..|b| - 1];
      SpansAppend(a, b[..|b| - 1], from, mid, ChunkStart(b[|b| - 1]));
    }
  }

  // ---- one batch ------------------------------------------------------------------------------

  /** One chunk for each of the first `n` leaves, in leaf order, with the leaf's type and path. */
  ghost predicate ColumnsOfLeaves(columns: seq<ChunkMeta>, leaves: seq<LeafSpec>, n: nat, rows: int) {
    |columns| == n <= |leaves| && forall i :: 0 <= i < n ==> OfLeaf(leaves[i], columns[i], rows)
  }

  /** A chunk counts a value for every row outside lists, and its nulls are some of its values. */
  predicate OfLeaf(leaf: LeafSpec, m: ChunkMeta, rows: int) {
    && m.path == leaf.pathNames && m.physical == leaf.col.physical
    && 0 <= m.nullCount <= m.numValues
    && (!leaf.hasList ==> m.numValues == rows)
  }

  /** Each writer, where it succeeds, makes its leaf's chunk, starting where it was put and as long as its bytes. */
  ghost predicate MakeChunks(ws: seq<LeafWriter>, leaves: seq<LeafSpec>, rows: int) {
    |ws| == |leaves| && forall i: nat, at: nat :: i < |ws| && ws[i](at).Status().OK? ==>
      ChunkOfLeaf(leaves[i], ws[i](at).written.meta.value, at, |ws[i](at).written.bytes|, rows)
  }

  lemma {:induction false} LeafWritersMakeChunks(f: Foreign, codec: Codec, mode: Mode, leaves: seq<LeafSpec>, batch: ArrowArray)
    requires LeavesUsable(leaves, batch)
    ensures MakeChunks(LeafWriters(f, codec, mode, leaves, batch), leaves, batch.length)
  {
    var ws := LeafWriters(f, codec, mode, leaves, batch);
    forall i: nat, at: nat | i < |ws| && ws[i](at).Status().OK?
      ensures ChunkOfLeaf(leaves[i], ws[i](at).written.meta.value, at, |ws[i](at).written.bytes|, batch.length)
    {
      var w := LeafMade(f, codec, mode, leaves, batch, i, at);
    }
  }

  /** A batch's chunks tile the bytes that it appended. */
  lemma {:induction false} LeavesTile(ws: seq<LeafWriter>, leaves: seq<LeafSpec>, rows: int, n: nat, base: nat)
    requires MakeChunks(ws, leaves, rows) && n <= |ws| && WriteLeaves(ws, n, base).status.OK?
    ensures var b := WriteLeaves(ws, n, base);
      Tiles(b.columns, base, base + |b.bytes|) && ColumnsOfLeaves(b.columns, leaves, n, rows)
  {
    if n > 0 {
      LeavesTile(ws, leaves, rows, n - 1, base);
      var b, at, w := LeavesLast(ws, n, base);
      AddLeafTiles(b, w, base, leaves, n - 1, rows);
    }
  }

  lemma {:induction false} LeafMade(f: Foreign, codec: Codec, mode: Mode, leaves: seq<LeafSpec>, batch: ArrowArray, i: nat, at: nat) returns (w: LeafWrite)
    requires LeavesUsable(leaves, batch) && i < |leaves|
    ensures w == LeafWriters(f, codec, mode, leaves, batch)[i](at)
    ensures w.Status().OK? ==> ChunkOfLeaf(leaves[i], w.written.meta.value, at, |w.written.bytes|, batch.length)
  {
    LeafWritersAt(f, codec, mode, leaves, batch, i, leaves[i]);
    w := WriteLeaf(f, codec, mode, leaves[i], batch, at);
    if w.Status().OK? { LeafRecord(f, codec, mode, leaves[i], batch, at); }
  }

  lemma {:induction false} AddLeafTiles(b: Batched, w: LeafWrite, base: nat, leaves: seq<LeafSpec>, n: nat, rows: int)
    requires Tiles(b.columns, base, base + |b.bytes|) && n < |leaves| && ColumnsOfLeaves(b.columns, leaves, n, rows)
    requires w.Status().OK? && ChunkOfLeaf(leaves[n], w.written.meta.value, base + |b.bytes|, |w.written.bytes|, rows)
    ensures var b' := AddLeaf(b, w);
      Tiles(b'.columns, base, base + |b'.bytes|) && ColumnsOfLeaves(b'.columns, leaves, n + 1, rows)
  {
    var b' := AddLeaf(b, w);
    assert b'.columns[..|b'.columns| - 1] == b.columns;
  }

  // ---- what every run keeps -------------------------------------------------------------------

  /** The file starts with the magic, and the offset is the number of bytes written. */
  predicate Framed(s: WriterState) {
    s.isOpen && !s.footerWritten && s.offset == |s.file| && |s.file| >= 4 && s.file[..4] == MAGIC
  }

  /** The locked leaves and schema nodes are those of the schema of the first batch that got that far. */
  predicate Locked(h: History) {
    if h.s.locked then
      && h.schema.Some? && FlattenTop(h.schema.value, 0) == Some(Flat(h.s.nodes, h.s.leaves))
      && h.s.topChildren == |h.schema.value.children| && h.s.leaves != []
    else h.schema == None && h.commits == [] && h.s.nodes == [] && h.s.leaves == [] && h.s.topChildren == 0
  }

  /** Each accepted batch is all of the leaves' chunks, written under the settings of its time. */
  ghost predicate Genuine(f: Foreign, leaves: seq<LeafSpec>, commits: seq<Commit>) {
    commits == [] || (Genuine(f, leaves, commits[..|commits| - 1]) && GenuineOne(f, leaves, commits[|commits| - 1]))
  }

  ghost predicate GenuineOne(f: Foreign, leaves: seq<LeafSpec>, c: Commit) {
    && Backed(c.batch) && LeavesUsable(leaves, c.batch)
    && c.made == WriteLeaves(LeafWriters(f, c.codec, c.mode, leaves, c.batch), |leaves|, c.base)
    && c.made.status.OK?
  }

  /** The commits' bytes are in the file, one after another, and each has its row group. */
  predicate Recorded(file: bytes, rgs: seq<RowGroupMeta>, commits: seq<Commit>) {
    |rgs| == |commits| && (commits == [] ||
      (Recorded(file, rgs[..|rgs| - 1], commits[..|commits| - 1]) && RecordedOne(file, rgs[|rgs| - 1], commits[|commits| - 1])))
  }

  predicate RecordedOne(file: bytes, rg: RowGroupMeta, c: Commit) {
    && c.batch.length >= 0
    && rg == RowGroupMeta(c.made.columns, c.batch.length, TotalUncompressed(c.made.columns))
    && c.base + |c.made.bytes| <= |file| && file[c.base..c.base + |c.made.bytes|] == c.made.bytes
  }

  /** The end of the last commit; the commits lie in file order. */
  function End(commits: seq<Commit>): nat {
    if commits == [] then 4 else commits[|commits| - 1].base + |commits[|commits| - 1].made.bytes|
  }

  predicate Ascending(commits: seq<Commit>) {
    commits == [] || (Ascending(commits[..|commits| - 1]) && End(commits[..|commits| - 1]) <= commits[|commits| - 1].base)
  }

  function CommittedBytes(commits: seq<Commit>): nat {
    if commits == [] then 0 else CommittedBytes(commits[..|commits| - 1]) + |commits[|commits| - 1].made.bytes|
  }

  function CommittedRows(commits: seq<Commit>): int {
    if commits == [] then 0 else CommittedRows(commits[..|commits| - 1]) + commits[|commits| - 1].batch.length
  }

  /** The books add up: the commits are what the leaves made, lie in the file, and account for its bytes and rows. */
  ghost predicate Accounted(f: Foreign, leaves: seq<LeafSpec>, file: bytes, rgs: seq<RowGroupMeta>, rows: int, commits: seq<Commit>, stray: nat) {
    && Genuine(f, leaves, commits)
    && Recorded(file, rgs, commits)
    && Ascending(commits) && End(commits) <= |file|
    && |file| == 4 + CommittedBytes(commits) + stray
    && rows == CommittedRows(commits)
  }

  ghost predicate Inv(f: Foreign, h: History) {
    && Framed(h.s)
    && Locked(h)
    && Accounted(f, h.s.leaves, h.s.file, h.s.rowGroups, h.s.totalRows, h.commits, h.stray)
  }

  lemma {:induction false} RecordedOnwards(file: bytes, more: bytes, rgs: seq<RowGroupMeta>, commits: seq<Commit>)
    requires Recorded(file, rgs, commits)
    ensures Recorded(file + more, rgs, commits)
  {
    if commits != [] {
      RecordedOnwards(file, more, rgs[..|rgs| - 1], commits[..|commits| - 1]);
      var c := commits[|commits| - 1];
      assert (file + more)[c.base..c.base + |c.made.bytes|] == file[c.base..c.base + |c.made.bytes|];
    }
  }

  lemma {:induction false} CommitAt(f: Foreign, leaves: seq<LeafSpec>, file: bytes, rgs: seq<RowGroupMeta>, commits: seq<Commit>, i: nat)
    requires Genuine(f, leaves, commits) && Recorded(file, rgs, commits) && i < |commits|
    ensures GenuineOne(f, leaves, commits[i]) && RecordedOne(file, rgs[i], commits[i])
  {
    if i < |commits| - 1 { CommitAt(f, leaves, file, rgs[..|rgs| - 1], commits[..|commits| - 1], i); }
  }

  // ---- every step keeps it --------------------------------------------------------------------

  lemma {:induction false} RecordedGrows(file: bytes, rgs: seq<RowGroupMeta>, commits: seq<Commit>, rg: RowGroupMeta, c: Commit)
    requires Recorded(file, rgs, commits) && c.base == |file|
    requires c.batch.length >= 0 && rg == RowGroupMeta(c.made.columns, c.batch.length, TotalUncompressed(c.made.columns))
    ensures Recorded(file + c.made.bytes, rgs + [rg], commits + [c])
  {
    RecordedOnwards(file, c.made.bytes, rgs, commits);
    assert (rgs + [rg])[..|rgs|] == rgs && (commits + [c])[..|commits|] == commits;
    assert (file + c.made.bytes)[c.base..c.base + |c.made.bytes|] == c.made.bytes;
  }

  lemma {:induction false} CommitsGrow(f: Foreign, leaves: seq<LeafSpec>, commits: seq<Commit>, c: Commit)
    ensures Genuine(f, leaves, commits) && GenuineOne(f, leaves, c) ==> Genuine(f, leaves, commits + [c])
    ensures Ascending(commits) && End(commits) <= c.base ==> Ascending(commits + [c])
    ensures CommittedBytes(commits + [c]) == CommittedBytes(commits) + |c.made.bytes|
    ensures CommittedRows(commits + [c]) == CommittedRows(commits) + c.batch.length
    ensures End(commits + [c]) == c.base + |c.made.bytes|
  {
    assert (commits + [c])[..|commits|] == commits;
  }

  /** Locking the schema changes nothing else. */
  lemma {:induction false} LockKeeps(f: Foreign, h: History, schema: ArrowSchema, batch: ArrowArray)
    requires Inv(f, h) && LockSchema(h.s, schema, batch).Locks?
    ensures var s := LockSchema(h.s, schema, batch).s;
      Inv(f, h.(s := s, schema := if h.s.locked then h.schema else Some(schema))) && s.locked
  {
  }

  /** A batch whose leaves all succeed. */
  lemma {:induction false} AcceptedKeeps(f: Foreign, h: History, batch: ArrowArray, made: Batched)
    requires Inv(f, h) && h.s.locked && made.status.OK?
    requires GenuineOne(f, h.s.leaves, Commit(h.s.offset, h.s.codec, h.s.mode, batch, made))
    ensures Inv(f, Book(h, batch, made))
  {
    var c := Commit(h.s.offset, h.s.codec, h.s.mode, batch, made);
    var rg := RowGroupMeta(made.columns, batch.length, TotalUncompressed(made.columns));
    AccountsGrow(f, h.s.leaves, h.s.file, h.s.rowGroups, h.s.totalRows, h.commits, h.stray, rg, c);
    BookFrame(h, batch, made);
  }

  lemma {:induction false} AccountsGrow(f: Foreign, leaves: seq<LeafSpec>, file: bytes, rgs: seq<RowGroupMeta>, rows: int, commits: seq<Commit>, stray: nat,
      rg: RowGroupMeta, c: Commit)
    requires Accounted(f, leaves, file, rgs, rows, commits, stray) && c.base == |file| && GenuineOne(f, leaves, c)
    requires c.batch.length >= 0 && rg == RowGroupMeta(c.made.columns, c.batch.length, TotalUncompressed(c.made.columns))
    ensures Accounted(f, leaves, file + c.made.bytes, rgs + [rg], rows + c.batch.length, commits + [c], stray)
  {
    RecordedGrows(file, rgs, commits, rg, c);
    CommitsGrow(f, leaves, commits, c);
  }

  /** Either way the file stays framed and the schema locked. */
  lemma {:induction false} BookFrame(h: History, batch: ArrowArray, made: Batched)
    requires Framed(h.s) && Locked(h) && h.s.locked && batch.length >= 0
    ensures Framed(Book(h, batch, made).s) && Locked(Book(h, batch, made))
  {
    assert (h.s.file + made.bytes)[..4] == h.s.file[..4];
  }

  /** A batch that fails on the way adds no row group; what it wrote is stray. */
  lemma {:induction false} RefusedKeeps(f: Foreign, h: History, batch: ArrowArray, made: Batched)
    requires Inv(f, h) && h.s.locked && !made.status.OK? && batch.length >= 0
    ensures Inv(f, Book(h, batch, made))
  {
    RecordedOnwards(h.s.file, made.bytes, h.s.rowGroups, h.commits);
    BookFrame(h, batch, made);
  }

  lemma {:induction false} BatchIsGenuine(f: Foreign, s: WriterState, schema: ArrowSchema, batch: ArrowArray, made: Batched)
    requires Usable(s, schema, batch) && LockSchema(s, schema, batch).Locks?
    requires made == BatchMade(f, s, schema, batch) && made.status.OK?
    ensures GenuineOne(f, LockSchema(s, schema, batch).s.leaves, Commit(s.offset, s.codec, s.mode, batch, made))
  {
  }

  lemma {:induction false} BookKeeps(f: Foreign, h: History, batch: ArrowArray, made: Batched)
    requires Inv(f, h) && h.s.locked && batch.length >= 0
    requires made.status.OK? ==> GenuineOne(f, h.s.leaves, Commit(h.s.offset, h.s.codec, h.s.mode, batch, made))
    ensures Inv(f, Book(h, batch, made))
  {
    if made.status.OK? { AcceptedKeeps(f, h, batch, made); } else { RefusedKeeps(f, h, batch, made); }
  }

  lemma {:induction false} BatchKeeps(f: Foreign, h: History, schema: ArrowSchema, batch: ArrowArray)
    requires Inv(f, h) && Usable(h.s, schema, batch) && LockSchema(h.s, schema, batch).Locks?
    ensures var h' := h.(s := LockSchema(h.s, schema, batch).s, schema := if h.s.locked then h.schema else Some(schema));
      Inv(f, Book(h', batch, BatchMade(f, h.s, schema, batch)))
  {
    LockKeeps(f, h, schema, batch);
    LockSame(h.s, schema, batch);
    var made := BatchMade(f, h.s, schema, batch);
    if made.status.OK? { BatchIsGenuine(f, h.s, schema, batch, made); }
    BookKeeps(f, h.(s := LockSchema(h.s, schema, batch).s, schema := if h.s.locked then h.schema else Some(schema)), batch, made);
  }

  lemma {:induction false} LockSame(s: WriterState, schema: ArrowSchema, batch: ArrowArray)
    requires LockSchema(s, schema, batch).Locks?
    ensures var s' := LockSchema(s, schema, batch).s; s'.offset == s.offset && s'.codec == s.codec && s'.mode == s.mode && s'.locked
  {
  }

  lemma {:induction false} AdvanceKeeps(f: Foreign, h: History, op: Op)
    requires Inv(f, h) && Admissible(h.s, op)
    ensures Inv(f, Advance(f, h, op))
  {
    if op.WriteBatch? && LockSchema(h.s, op.schema, op.batch).Locks? { BatchKeeps(f, h, op.schema, op.batch); }
  }

  /** Whatever the calls and however they end, the invariant holds. */
  lemma {:induction false} RunKeeps(f: Foreign, ops: seq<Op>)
    requires AllAdmissible(f, ops)
    ensures Inv(f, Run(f, ops))
  {
    if ops != [] {
      RunKeeps(f, ops[..|ops| - 1]);
      AdvanceKeeps(f, Run(f, ops[..|ops| - 1]), ops[|ops| - 1]);
    }
  }

  // ---- layout ---------------------------------------------------------------------------------

  function AllChunks(rgs: seq<RowGroupMeta>): seq<ChunkMeta> {
    if rgs == [] then [] else AllChunks(rgs[..|rgs| - 1]) + rgs[|rgs| - 1].columns
  }

  function TotalRows(rgs: seq<RowGroupMeta>): nat {
    if rgs == [] then 0 else TotalRows(rgs[..|rgs| - 1]) + rgs[|rgs| - 1].numRows
  }

  /** A row group has one chunk per leaf, in leaf order, and the size that they add up to. */
  ghost predicate WholeRowGroup(rg: RowGroupMeta, leaves: seq<LeafSpec>) {
    ColumnsOfLeaves(rg.columns, leaves, |leaves|, rg.numRows) && rg.totalByteSize == TotalUncompressed(rg.columns)
  }

  ghost predicate WholeRowGroups(rgs: seq<RowGroupMeta>, leaves: seq<LeafSpec>) {
    forall i :: 0 <= i < |rgs| ==> WholeRowGroup(rgs[i], leaves)
  }

  /** What the layout needs to know of the commits. */
  ghost predicate Whole(leaves: seq<LeafSpec>, commits: seq<Commit>) {
    commits == [] || (Whole(leaves, commits[..|commits| - 1]) && WholeOne(leaves, commits[|commits| - 1]))
  }

  ghost predicate WholeOne(leaves: seq<LeafSpec>, c: Commit) {
    Tiles(c.made.columns, c.base, c.base + |c.made.bytes|) && ColumnsOfLeaves(c.made.columns, leaves, |leaves|, c.batch.length)
  }

  lemma {:induction false} CommitTiles(f: Foreign, leaves: seq<LeafSpec>, c: Commit)
    requires GenuineOne(f, leaves, c)
    ensures WholeOne(leaves, c)
  {
    LeafWritersMakeChunks(f, c.codec, c.mode, leaves, c.batch);
    LeavesTile(LeafWriters(f, c.codec, c.mode, leaves, c.batch), leaves, c.batch.length, |leaves|, c.base);
  }

  lemma {:induction false} GenuineIsWhole(f: Foreign, leaves: seq<LeafSpec>, commits: seq<Commit>)
    requires Genuine(f, leaves, commits)
    ensures Whole(leaves, commits)
  {
    if commits != [] {
      GenuineIsWhole(f, leaves, commits[..|commits| - 1]);
      CommitTiles(f, leaves, commits[|commits| - 1]);
    }
  }

  lemma {:induction false} CommitsLayout(leaves: seq<LeafSpec>, file: bytes, rgs: seq<RowGroupMeta>, commits: seq<Commit>)
    requires Whole(leaves, commits) && Recorded(file, rgs, commits) && Ascending(commits)
    ensures Spans(AllChunks(rgs), 4, End(commits)) && TotalSize(AllChunks(rgs)) == CommittedBytes(commits)
    ensures WholeRowGroups(rgs, leaves) && TotalRows(rgs) == CommittedRows(commits)
  {
    if commits != [] {
      CommitsLayout(leaves, file, rgs[..|rgs| - 1], commits[..|commits| - 1]);
      LayoutGrows(leaves, file, rgs, commits[..|commits| - 1], commits[|commits| - 1]);
    }
  }

  lemma {:induction false} LayoutGrows(leaves: seq<LeafSpec>, file: bytes, rgs: seq<RowGroupMeta>, before: seq<Commit>, c: Commit)
    requires rgs != [] && RecordedOne(file, rgs[|rgs| - 1], c) && End(before) <= c.base
    requires WholeOne(leaves, c)
    requires var rgs' := rgs[..|rgs| - 1];
      Spans(AllChunks(rgs'), 4, End(before)) && TotalSize(AllChunks(rgs')) == CommittedBytes(before)
      && WholeRowGroups(rgs', leaves) && TotalRows(rgs') == CommittedRows(before)
    ensures Spans(AllChunks(rgs), 4, c.base + |c.made.bytes|)
    ensures TotalSize(AllChunks(rgs)) == CommittedBytes(before) + |c.made.bytes|
    ensures WholeRowGroups(rgs, leaves) && TotalRows(rgs) == CommittedRows(before) + c.batch.length
  {
    var rgs', rg := rgs[..|rgs| - 1], rgs[|rgs| - 1];
    SpansWiden(AllChunks(rgs'), 4, End(before), c.base);
    CommitSpans(c);
    SpansAppend(AllChunks(rgs'), rg.columns, 4, c.base, c.base + |c.made.bytes|);
    assert WholeRowGroup(rg, leaves);
    assert rgs == rgs' + [rg];
  }

  lemma {:induction false} CommitSpans(c: Commit)
    requires Tiles(c.made.columns, c.base, c.base + |c.made.bytes|)
    ensures Spans(c.made.columns, c.base, c.base + |c.made.bytes|) && TotalSize(c.made.columns) == |c.made.bytes|
  {
    TilesSpan(c.made.columns, c.base, c.base + |c.made.bytes|);
    SpansTile(c.made.columns, c.base, c.base + |c.made.bytes|);
  }

  /**
   After any calls, however they ended: the offset is the number of bytes written; the recorded
   chunks lie in order, without overlap, between the magic and the end; every byte is the magic's, a
   chunk's or left by a batch that failed on the way; and the chunks tile the file exactly if no
   failed batch left any. Each row group has one chunk per leaf, and the rows add up.
   */
  lemma {:induction false} LayoutOverRuns(f: Foreign, ops: seq<Op>)
    requires AllAdmissible(f, ops)
    ensures var h := Run(f, ops);
      var chunks := AllChunks(h.s.rowGroups);
      && Framed(h.s)
      && Spans(chunks, 4, |h.s.file|)
      && |h.s.file| == 4 + TotalSize(chunks) + h.stray
      && (Tiles(chunks, 4, |h.s.file|) <==> h.stray == 0)
      && WholeRowGroups(h.s.rowGroups, h.s.leaves)
      && h.s.totalRows == TotalRows(h.s.rowGroups)
  {
    RunKeeps(f, ops);
    var h := Run(f, ops);
    InvLayout(f, h);
  }

  lemma {:induction false} InvLayout(f: Foreign, h: History)
    requires Inv(f, h)
    ensures var chunks := AllChunks(h.s.rowGroups);
      && Spans(chunks, 4, |h.s.file|)
      && |h.s.file| == 4 + TotalSize(chunks) + h.stray
      && (Tiles(chunks, 4, |h.s.file|) <==> h.stray == 0)
      && WholeRowGroups(h.s.rowGroups, h.s.leaves)
      && h.s.totalRows == TotalRows(h.s.rowGroups)
  {
    GenuineIsWhole(f, h.s.leaves, h.commits);
    CommitsLayout(h.s.leaves, h.s.file, h.s.rowGroups, h.commits);
    SpansWiden(AllChunks(h.s.rowGroups), 4, End(h.commits), |h.s.file|);
    SpansTile(AllChunks(h.s.rowGroups), 4, |h.s.file|);
  }

  /** Every batch of the run was accepted. */
  ghost predicate NoFailure(f: Foreign, ops: seq<Op>)
    requires AllAdmissible(f, ops)
  {
    ops == [] || (NoFailure(f, ops[..|ops| - 1]) && (ops[|ops| - 1].WriteBatch? ==>
      Step(f, Run(f, ops[..|ops| - 1]).s, ops[|ops| - 1]).status.OK?))
  }

  lemma {:induction false} NoFailureNoStray(f: Foreign, ops: seq<Op>)
    requires AllAdmissible(f, ops) && NoFailure(f, ops)
    ensures Run(f, ops).stray == 0
  {
    if ops != [] { NoFailureNoStray(f, ops[..|ops| - 1]); }
  }

  /** In a run without failures the chunks tile the file from the magic to the footer of a close that succeeds. */
  lemma {:induction false} CleanFileTiles(f: Foreign, ops: seq<Op>)
    requires AllAdmissible(f, ops) && NoFailure(f, ops) && Closed(f, Run(f, ops).s).status.OK?
    ensures var s, file := Run(f, ops).s, Closed(f, Run(f, ops).s).s.file;
      FindFooter(file).Some? && |file| >= 8 + |FindFooter(file).value| && Tiles(AllChunks(s.rowGroups), 4, |file| - 8 - |FindFooter(file).value|)
  {
    LayoutOverRuns(f, ops);
    NoFailureNoStray(f, ops);
    CloseLocatesFooter(f, Run(f, ops).s);
  }

  /** A recorded chunk's range of the file is exactly the bytes that its leaf's pages are. */
  ghost predicate IsItsPages(write: LeafWriter, file: bytes, m: ChunkMeta) {
    var w := write(ChunkStart(m));
    w.Status().OK? && w.written.meta == Some(m) && ChunkEnd(m) <= |file| && file[ChunkStart(m)..ChunkEnd(m)] == w.Bytes()
  }

  lemma {:induction false} OneChunkRange(write: LeafWriter, at: nat, file: bytes, leaf: LeafSpec, rows: int)
    requires write(at).Status().OK? && Holds(file, at, write(at).Bytes())
    requires ChunkOfLeaf(leaf, write(at).written.meta.value, at, |write(at).written.bytes|, rows)
    ensures IsItsPages(write, file, write(at).written.meta.value)
  {
  }

  lemma {:induction false} ChunkRange(ws: seq<LeafWriter>, leaves: seq<LeafSpec>, rows: int, file: bytes, base: nat, n: nat, i: nat, b: Batched)
    requires MakeChunks(ws, leaves, rows) && i < n <= |ws|
    requires b == WriteLeaves(ws, n, base) && b.status.OK? && Holds(file, base, b.bytes)
    ensures |b.columns| == n && IsItsPages(ws[i], file, b.columns[i])
  {
    var above, at, w := LastHolds(ws, n, base, b, file);
    ColumnsCount(ws, n - 1, base);
    LastColumn(above, w);
    if i < n - 1 { ChunkRange(ws, leaves, rows, file, base, n - 1, i, above); } else { LastChunkRange(ws, leaves, rows, file, i, at, w); }
  }

  lemma {:induction false} LastChunkRange(ws: seq<LeafWriter>, leaves: seq<LeafSpec>, rows: int, file: bytes, i: nat, at: nat, w: LeafWrite)
    requires MakeChunks(ws, leaves, rows) && i < |ws| && w == ws[i](at) && w.Status().OK? && Holds(file, at, w.Bytes())
    ensures IsItsPages(ws[i], file, w.written.meta.value)
  {
    OneChunkRange(ws[i], at, file, leaves[i], rows);
  }

  lemma {:induction false} ColumnsCount(ws: seq<LeafWriter>, n: nat, base: nat)
    requires n <= |ws| && WriteLeaves(ws, n, base).status.OK?
    ensures |WriteLeaves(ws, n, base).columns| == n
  {
    if n > 0 { ColumnsCount(ws, n - 1, base); }
  }

  lemma {:induction false} LastColumn(b: Batched, w: LeafWrite)
    requires w.Status().OK?
    ensures var columns := AddLeaf(b, w).columns;
      |columns| == |b.columns| + 1 && columns[|b.columns|] == w.written.meta.value && forall i :: 0 <= i < |b.columns| ==> columns[i] == b.columns[i]
  {
  }

  /** So it is for every chunk of every accepted batch. */
  lemma {:induction false} CommitChunkRange(f: Foreign, leaves: seq<LeafSpec>, c: Commit, rg: RowGroupMeta, file: bytes, i: nat)
    requires GenuineOne(f, leaves, c) && RecordedOne(file, rg, c) && i < |leaves|
    ensures |rg.columns| == |leaves| && LeafUsable(leaves[i], c.batch)
    ensures var m := rg.columns[i];
      var w := WriteLeaf(f, c.codec, c.mode, leaves[i], c.batch, ChunkStart(m));
      w.Status().OK? && w.written.meta == Some(m) && ChunkEnd(m) <= |file| && file[ChunkStart(m)..ChunkEnd(m)] == w.Bytes()
  {
    LeafWritersMakeChunks(f, c.codec, c.mode, leaves, c.batch);
    ChunkRange(LeafWriters(f, c.codec, c.mode, leaves, c.batch), leaves, c.batch.length, file, c.base, |leaves|, i, c.made);
    LeafWritersAt(f, c.codec, c.mode, leaves, c.batch, i, leaves[i]);
  }

  /** A call that does not succeed adds no row group and no rows; once locked, the schema stays as it is. */
  lemma {:induction false} FailureAddsNothing(f: Foreign, s: WriterState, op: Op)
    requires Admissible(s, op)
    ensures var o := Step(f, s, op);
      && (!o.status.OK? ==> o.s.rowGroups == s.rowGroups && o.s.totalRows == s.totalRows)
      && (s.locked ==> o.s.locked && o.s.leaves == s.leaves && o.s.nodes == s.nodes && o.s.topChildren == s.topChildren)
      && |s.file| <= |o.s.file| && o.s.file[..|s.file|] == s.file
  {
  }

  // ---- the close ------------------------------------------------------------------------------

  /** The four bytes at both ends of a Parquet file. */
  predicate IsMagic(bs: bytes) { bs == ['P' as int, 'A' as int, 'R' as int, '1' as int] }

  /** A reader's way to the footer: from the end, by the length in front of the closing magic. */
  function FindFooter(file: bytes): Option<bytes> {
    var n := |file|;
    if n < 12 || !IsMagic(file[..4]) || !IsMagic(file[n - 4..]) then None else
    var size := ReadLe32(file[n - 8..n - 4]);
    if size + 12 > n then None else Some(file[n - 8 - size..n - 8])
  }

  /**
   A close succeeds exactly if the footer can be encoded within 32 bits. Then the last 8 bytes lead
   to exactly that footer, which starts where the data ends; otherwise the file gets no trailer.
   */
  lemma {:induction false} CloseLocatesFooter(f: Foreign, s: WriterState)
    requires Framed(s)
    ensures var o, footer := Closed(f, s), f.footer(FooterOf(s));
      && (o.status.OK? <==> footer.Some? && |footer.value| <= MAX_U32)
      && (o.status.OK? ==>
        && FindFooter(o.s.file) == footer
        && |o.s.file| == |s.file| + |footer.value| + 8 && o.s.file[..|s.file|] == s.file)
      && (!o.status.OK? ==> o.s.file == s.file)
      && !o.s.isOpen && o.s.offset == |o.s.file|
  {
    var footer := f.footer(FooterOf(s));
    if footer.Some? && |footer.value| <= MAX_U32 { TrailerFound(s.file, footer.value); }
  }

  lemma {:induction false} TrailerFound(data: bytes, footer: bytes)
    requires |footer| <= MAX_U32 && |data| >= 4 && data[..4] == MAGIC
    ensures FindFooter(data + (footer + Le32(|footer|) + MAGIC)) == Some(footer)
  {
    var file := data + (footer + Le32(|footer|) + MAGIC);
    var n := |file|;
    assert file[n - 4..] == MAGIC && file[..4] == data[..4];
    assert file[n - 8..n - 4] == Le32(|footer|);
    Le32RoundTrip(|footer|, []);
    assert Le32(|footer|) + [] == Le32(|footer|);
    assert file[n - 8 - |footer|..n - 8] == footer;
  }
}
