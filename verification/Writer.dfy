/**
 The streaming writer: open, set_codec, set_encoding, write_batch, close. `Step` and `Closed` say what
 each call does to the writer's state; the class does it step by step and is proved equal to them.
 */
module Writing {
  import opened Bits
  import opened Arrow
  import opened Shredding
  import opened Order
  import opened RleBitpack
  import opened Schema
  import opened Footer
  import opened FastPath
  import opened PlainValues
  import opened Codecs
  import opened Values
  import opened Pages
  import opened Chunks

  /** "PAR1" */
  const MAGIC: bytes := [0x50, 0x41, 0x52, 0x31]

  datatype WriterState = WriterState(
    file: bytes,
    offset: nat,
    codec: Codec,
    mode: Mode,
    locked: bool,
    nodes: seq<SchemaNode>,
    leaves: seq<LeafSpec>,
    topChildren: nat,
    rowGroups: seq<RowGroupMeta>,
    totalRows: int,
    isOpen: bool,
    footerWritten: bool)

  datatype Op =
    | SetCodec(codec: Option<Codec>)       // None: a value that is no codec
    | SetEncoding(mode: Option<Mode>)      // None: a value that is no encoding
    | WriteBatch(schema: ArrowSchema, batch: ArrowArray)

  /** A writer on a new file, or one whose file could not be opened. */
  function Opened(opens: bool): WriterState {
    WriterState(if opens then MAGIC else [], if opens then 4 else 0, ZSTD, AUTO, false, [], [], 0, [], 0, opens, false)
  }

  /** What a call leaves the writer in, and what it returns. */
  datatype Outcome = Outcome(s: WriterState, status: Status)

  // ---- write_batch ----------------------------------------------------------------------------

  /** The schema lock after a batch's own checks, or the reason for refusing the batch. */
  datatype Lock = Locks(s: WriterState) | Refuses(status: Status)

  function LockSchema(s: WriterState, schema: ArrowSchema, batch: ArrowArray): Lock {
    if schema.format != "+s" || |schema.children| == 0 || |batch.children| != |schema.children| then Refuses(INVALID_ARGUMENT)
    else if s.locked then
      if |schema.children| != s.topChildren then Refuses(INVALID_ARGUMENT) else Locks(s)
    else match FlattenTop(schema, 0)
      case None => Refuses(UNSUPPORTED_TYPE)
      case Some(flat) =>
        if flat.leaves == [] then Refuses(INVALID_ARGUMENT)
        else Locks(s.(locked := true, nodes := flat.nodes, leaves := flat.leaves, topChildren := |schema.children|))
  }

  ghost predicate LeavesUsable(leaves: seq<LeafSpec>, batch: ArrowArray) {
    forall i :: 0 <= i < |leaves| ==> LeafUsable(leaves[i], batch)
  }

  /** Writes one leaf of a batch at an offset of the file. */
  type LeafWriter = nat -> LeafWrite

  ghost function LeafWriterOf(f: Foreign, codec: Codec, mode: Mode, leaf: LeafSpec, batch: ArrowArray): LeafWriter {
    (at: nat) => if LeafUsable(leaf, batch) then WriteLeaf(f, codec, mode, leaf, batch, at) else Rejected
  }

  /** A writer for each of the leaves. */
  ghost function LeafWriters(f: Foreign, codec: Codec, mode: Mode, leaves: seq<LeafSpec>, batch: ArrowArray): (ws: seq<LeafWriter>)
    ensures |ws| == |leaves|
  {
    if leaves == [] then [] else
      LeafWriters(f, codec, mode, leaves[..|leaves| - 1], batch) + [LeafWriterOf(f, codec, mode, leaves[|leaves| - 1], batch)]
  }

  lemma {:induction false} LeafWritersAt(f: Foreign, codec: Codec, mode: Mode, leaves: seq<LeafSpec>, batch: ArrowArray, i: nat, leaf: LeafSpec)
    requires i < |leaves| && leaf == leaves[i]
    ensures LeafWriters(f, codec, mode, leaves, batch)[i] == LeafWriterOf(f, codec, mode, leaf, batch)
  {
    if i < |leaves| - 1 { LeafWritersAt(f, codec, mode, leaves[..|leaves| - 1], batch, i, leaf); }
  }

  /** The first `n` leaves' chunks, up to the first that fails. */
  datatype Batched = Batched(status: Status, bytes: bytes, columns: seq<ChunkMeta>)

  function WriteLeaves(ws: seq<LeafWriter>, n: nat, base: nat): Batched
    requires n <= |ws|
  {
    if n == 0 then Batched(OK, [], []) else
      var b := WriteLeaves(ws, n - 1, base);
      if !b.status.OK? then b else AddLeaf(b, ws[n - 1](base + |b.bytes|))
  }

  function AddLeaf(b: Batched, w: LeafWrite): Batched {
    Batched(w.Status(), b.bytes + w.Bytes(), if w.Status().OK? then b.columns + [w.written.meta.value] else b.columns)
  }

  lemma {:induction false} LeavesStop(ws: seq<LeafWriter>, n: nat, m: nat, base: nat)
    requires n <= m <= |ws| && !WriteLeaves(ws, n, base).status.OK?
    ensures WriteLeaves(ws, m, base) == WriteLeaves(ws, n, base)
  {
    if n < m { LeavesStop(ws, n, m - 1, base); }
  }

  lemma {:induction false} LeavesNext(ws: seq<LeafWriter>, n: nat, base: nat, at: nat)
    requires n < |ws| && WriteLeaves(ws, n, base).status.OK? && at == base + |WriteLeaves(ws, n, base).bytes|
    ensures WriteLeaves(ws, n + 1, base) == AddLeaf(WriteLeaves(ws, n, base), ws[n](at))
  {
  }

  /** The last of some leaves that all succeed, and those before it. */
  lemma {:induction false} LeavesLast(ws: seq<LeafWriter>, n: nat, base: nat) returns (b: Batched, at: nat, w: LeafWrite)
    requires 0 < n <= |ws| && WriteLeaves(ws, n, base).status.OK?
    ensures b == WriteLeaves(ws, n - 1, base) && b.status.OK? && at == base + |b.bytes| && w == ws[n - 1](at) && w.Status().OK?
    ensures WriteLeaves(ws, n, base) == AddLeaf(b, w) && WriteLeaves(ws, n, base).bytes == b.bytes + w.Bytes()
  {
    b := WriteLeaves(ws, n - 1, base);
    at := base + |b.bytes|;
    w := ws[n - 1](at);
    if b.status.OK? { LeavesNext(ws, n - 1, base, at); }
  }

  /** Where all of some leaves lie in a file, so do those before the last, and the last. */
  lemma {:induction false} LastHolds(ws: seq<LeafWriter>, n: nat, base: nat, b: Batched, file: bytes) returns (above: Batched, at: nat, w: LeafWrite)
    requires 0 < n <= |ws| && b == WriteLeaves(ws, n, base) && b.status.OK? && Holds(file, base, b.bytes)
    ensures above == WriteLeaves(ws, n - 1, base) && above.status.OK? && Holds(file, base, above.bytes)
    ensures w == ws[n - 1](at) && w.Status().OK? && Holds(file, at, w.Bytes()) && b == AddLeaf(above, w)
  {
    above, at, w := LeavesLast(ws, n, base);
    HoldsParts(file, base, above.bytes, w.Bytes());
  }

  lemma {:induction false} AddLeafTotal(b: Batched, w: LeafWrite)
    requires w.Status().OK?
    ensures TotalUncompressed(AddLeaf(b, w).columns) == TotalUncompressed(b.columns) + w.written.meta.value.totalUncompressed
  {
    assert AddLeaf(b, w).columns[..|b.columns|] == b.columns;
  }

  function TotalUncompressed(columns: seq<ChunkMeta>): nat {
    if columns == [] then 0 else TotalUncompressed(columns[..|columns| - 1]) + columns[|columns| - 1].totalUncompressed
  }

  /** What the producer of a batch owes the writer, given the leaves that the writer will look for. */
  ghost predicate Usable(s: WriterState, schema: ArrowSchema, batch: ArrowArray) {
    Backed(batch) && (LockSchema(s, schema, batch).Locks? ==> LeavesUsable(LockSchema(s, schema, batch).s.leaves, batch))
  }

  /** A batch whose leaves all succeed becomes a row group; what a failed one wrote stays in the file. */
  function AfterLeaves(s: WriterState, b: Batched, batch: ArrowArray): Outcome
    requires batch.length >= 0
  {
    var file, offset := s.file + b.bytes, s.offset + |b.bytes|;
    if !b.status.OK? then Outcome(s.(file := file, offset := offset), b.status)
    else Outcome(s.(file := file, offset := offset, totalRows := s.totalRows + batch.length,
      rowGroups := s.rowGroups + [RowGroupMeta(b.columns, batch.length, TotalUncompressed(b.columns))]), OK)
  }

  /** What a batch that passes its own checks appends to the file. */
  ghost function BatchMade(f: Foreign, s: WriterState, schema: ArrowSchema, batch: ArrowArray): Batched
    requires Usable(s, schema, batch) && LockSchema(s, schema, batch).Locks?
  {
    var leaves := LockSchema(s, schema, batch).s.leaves;
    WriteLeaves(LeafWriters(f, s.codec, s.mode, leaves, batch), |leaves|, s.offset)
  }

  ghost function BatchWritten(f: Foreign, s: WriterState, schema: ArrowSchema, batch: ArrowArray): Outcome
    requires Usable(s, schema, batch)
  {
    if !s.isOpen then Outcome(s, IO_ERROR) else
    match LockSchema(s, schema, batch)
    case Refuses(status) => Outcome(s, status)
    case Locks(s') => AfterLeaves(s', BatchMade(f, s, schema, batch), batch)
  }

  // ---- a whole run ----------------------------------------------------------------------------

  ghost predicate Admissible(s: WriterState, op: Op) {
    op.WriteBatch? ==> Usable(s, op.schema, op.batch)
  }

  ghost function Step(f: Foreign, s: WriterState, op: Op): Outcome
    requires Admissible(s, op)
  {
    match op
    case SetCodec(c) => if c.Some? then Outcome(s.(codec := c.value), OK) else Outcome(s, INVALID_ARGUMENT)
    case SetEncoding(m) => if m.Some? then Outcome(s.(mode := m.value), OK) else Outcome(s, INVALID_ARGUMENT)
    case WriteBatch(schema, batch) => BatchWritten(f, s, schema, batch)
  }

  function FooterOf(s: WriterState): FileMeta {
    FileMeta(s.topChildren, ElementsOf(s.nodes), s.totalRows, s.rowGroups, s.codec)
  }

  /** The footer, its length and the magic; or nothing, if the footer cannot be encoded. */
  function Trailer(f: Foreign, s: WriterState): Option<bytes> {
    match f.footer(FooterOf(s))
    case None => None
    case Some(footer) => if |footer| > MAX_U32 then None else Some(footer + Le32(|footer|) + MAGIC)
  }

  function Closed(f: Foreign, s: WriterState): Outcome {
    if !s.isOpen || s.footerWritten then Outcome(s, OK) else
    match Trailer(f, s)
    case None => Outcome(s.(isOpen := false, footerWritten := true), IO_ERROR)
    case Some(bs) => Outcome(s.(file := s.file + bs, offset := s.offset + |bs|, isOpen := false, footerWritten := true), OK)
  }

  // ---- the writer itself ----------------------------------------------------------------------

  class Writer {
    const f: Foreign
    var file: bytes
    var offset: nat
    var codec: Codec
    var mode: Mode
    var schemaLocked: bool
    var schemaNodes: seq<SchemaNode>
    var leaves: seq<LeafSpec>
    var topChildren: nat
    var rowGroups: seq<RowGroupMeta>
    var totalRows: int
    var isOpen: bool
    var footerWritten: bool

    ghost function State(): WriterState
      reads this
    {
      WriterState(file, offset, codec, mode, schemaLocked, schemaNodes, leaves, topChildren, rowGroups, totalRows, isOpen, footerWritten)
    }

    constructor (f: Foreign, opens: bool)
      ensures this.f == f && State() == Opened(opens)
    {
      this.f := f;
      file, offset := [], 0;
      codec, mode := ZSTD, AUTO;
      schemaLocked, schemaNodes, leaves, topChildren := false, [], [], 0;
      rowGroups, totalRows := [], 0;
      isOpen, footerWritten := opens, false;
      new;
      if opens { WriteBytes(MAGIC); }
    }

    method WriteBytes(bs: bytes)
      modifies this`file, this`offset
      ensures file == old(file) + bs && offset == old(offset) + |bs|
    {
      file, offset := file + bs, offset + |bs|;
    }

    method EmitPage(p: EncodedPage)
      modifies this`file, this`offset
      ensures file == old(file) + p.Bytes() && offset == old(offset) + p.OnDisk()
    {
      WriteBytes(p.header);
      WriteBytes(p.data);
      assert old(file) + p.header + p.data == old(file) + (p.header + p.data);
    }

    method SetCodec(c: Option<Codec>) returns (status: Status)
      modifies this`codec
      ensures Outcome(State(), status) == Step(f, old(State()), Op.SetCodec(c))
    {
      match c {
        case None => return INVALID_ARGUMENT;
        case Some(known) =>
          codec := known;
          return OK;
      }
    }

    method SetEncoding(m: Option<Mode>) returns (status: Status)
      modifies this`mode
      ensures Outcome(State(), status) == Step(f, old(State()), Op.SetEncoding(m))
    {
      match m {
        case None => return INVALID_ARGUMENT;
        case Some(known) =>
          mode := known;
          return OK;
      }
    }

    /** `write_leaf_pages`, once the values are built. */
    method WriteLeafPages(head: ChunkHead, v: ValuePages, prefix: bytes) returns (w: Written)
      modifies this`file, this`offset
      ensures w == LeafPages(f, codec, head, v, prefix, old(offset))
      ensures file == old(file) + w.bytes && offset == old(offset) + |w.bytes|
    {
      var fileOffset := offset;
      var bytes, dictionaryPageOffset, uncompressed, onDisk := [], None, 0, 0;
      if v.dict.Some? {
        var dict := EncodePage(f, codec, true, v.dict.value.0, PLAIN, v.dict.value.1);
        if dict.None? { return Written([], None); }
        dictionaryPageOffset := Some(offset);
        EmitPage(dict.value);
        bytes, uncompressed, onDisk := dict.value.Bytes(), dict.value.Uncompressed(), dict.value.OnDisk();
      }
      var data := EncodePage(f, codec, false, head.numValues, v.encoding, prefix + v.body);
      if data.None? { return Written(bytes, None); }
      var dataPageOffset := offset;
      EmitPage(data.value);
      Joined(old(file), bytes, data.value.Bytes());
      w := Written(bytes + data.value.Bytes(), Some(ChunkMeta(head.physical, Encodings(v, head.hasLevels), head.path, head.numValues,
        uncompressed + data.value.Uncompressed(), onDisk + data.value.OnDisk(), dataPageOffset, dictionaryPageOffset, fileOffset, head.nullCount)));
      assert v.dict.None? ==> bytes + data.value.Bytes() == data.value.Bytes();
    }

    /** A leaf's values and pages. */
    method WriteChunk(s: ColumnSpec, a: ArrowArray, validity: Option<bytes>, prefix: Option<bytes>, head: ChunkHead) returns (w: Written)
      requires LeafBacked(s, a) && Covers(validity, a.length) && PresentBacked(s, a, validity)
      modifies this`file, this`offset
      ensures w == ChunkOf(f, codec, mode, s, a, validity, prefix, head, old(offset))
      ensures file == old(file) + w.bytes && offset == old(offset) + |w.bytes|
    {
      if prefix.None? { return Written([], None); }
      var v := BuildValues(f, mode, s, a, validity);
      if v.None? { return Written([], None); }
      w := WriteLeafPages(head, v.value, prefix.value);
    }

    /** The first half of `write_list_leaf`: find the leaf array and shred the batch's rows. */
    method ShredLeaf(leaf: LeafSpec, batch: ArrowArray) returns (r: Option<(ArrowArray, Shredded)>)
      requires LeafUsable(leaf, batch) && leaf.hasList
      ensures r == match ListOut(leaf, batch) case None => None case Some(acc) => Some((acc.leafArray, ShreddedOf(acc)))
    {
      if leaf.pathIdx[0] >= |batch.children| { return None; }
      var column := batch.children[leaf.pathIdx[0]];
      var found := FollowPath(leaf.steps, column);
      if found.None? { return None; }
      var a := found.value;
      if !ValidChild(a, leaf.col, a.length) { return None; }
      var shredder := new Shredder(PathOf(leaf), a.length);
      var ok := shredder.Rows(column, batch.length);
      if !ok { return None; }
      return Some((a, Shredded(shredder.rep, shredder.def, shredder.present[..], shredder.presentCount)));
    }

    /** `write_list_leaf` */
    method WriteListLeaf(leaf: LeafSpec, batch: ArrowArray) returns (w: LeafWrite)
      requires LeafUsable(leaf, batch) && leaf.hasList
      modifies this`file, this`offset
      ensures w == WriteLeaf(f, codec, mode, leaf, batch, old(offset))
      ensures file == old(file) + w.Bytes() && offset == old(offset) + |w.Bytes()|
    {
      var shredded := ShredLeaf(leaf, batch);
      if shredded.None? {
        assert file + [] == file;
        return Rejected;
      }
      var (a, sh) := shredded.value;
      var chunk := WriteChunk(leaf.col, a, ValueValidity(sh.present, sh.presentCount, a.length),
        ListPrefix(f, leaf, sh.rep, sh.def), ListHead(leaf, |sh.def|, sh.presentCount));
      w := Tried(chunk);
    }

    /** Following the path's steps from the column's array. */
    method FollowPath(steps: seq<PathStep>, column: ArrowArray) returns (a: Option<ArrowArray>)
      requires |steps| > 0
      ensures a == LeafArray(steps, 0, column)
    {
      var k, cur := 0, column;
      while k < |steps| && !steps[k].kind.LeafStep?
        invariant 0 <= k < |steps|
        invariant LeafArray(steps, k, cur) == LeafArray(steps, 0, column)
      {
        var next := Next(steps[k], cur);
        if next.None? || k + 1 == |steps| { return None; }
        k, cur := k + 1, next.value;
      }
      return Some(cur);
    }

    /** The path outside lists: one child index after another. */
    method CollectNodes(idx: seq<nat>, batch: ArrowArray) returns (nodes: Option<seq<ArrowArray>>)
      ensures nodes == PathNodes(idx, batch, |idx|)
    {
      var cur, above, k := batch, [], 0;
      while k < |idx|
        invariant 0 <= k <= |idx| && PathNodes(idx, batch, k) == Some(above)
        invariant cur == if k == 0 then batch else above[k - 1]
      {
        if idx[k] >= |cur.children| {
          PathNodesStop(idx, batch, k + 1, |idx|);
          return None;
        }
        cur := cur.children[idx[k]];
        above := above + [cur];
        k := k + 1;
      }
      return Some(above);
    }

    /** The loop over the rows, if any node on the path is nullable. */
    method RowPresence(leaf: LeafSpec, nodes: seq<ArrowArray>, n: nat) returns (r: FlatRows)
      requires LeafOk(leaf) && !leaf.hasList && |nodes| == |leaf.pathOptional| && Readable(nodes, leaf.pathOptional, n)
      ensures r == FlatRowsOf(leaf, nodes, n)
    {
      if leaf.maxDef == 0 { return FlatRows([], [], n); }
      FlagsCount(leaf);
      var levels := new RowLevels(n);
      levels.Fill(nodes, leaf.pathOptional, leaf.col.extract.NullValues?, leaf.maxDef, n);
      return FlatRows(levels.def, levels.present[..], levels.presentCount);
    }

    /** The part of `write_one_batch` for a leaf outside lists. */
    method WriteFlatLeaf(leaf: LeafSpec, batch: ArrowArray) returns (w: LeafWrite)
      requires LeafUsable(leaf, batch) && !leaf.hasList
      modifies this`file, this`offset
      ensures w == WriteLeaf(f, codec, mode, leaf, batch, old(offset))
      ensures file == old(file) + w.Bytes() && offset == old(offset) + |w.Bytes()|
    {
      assert file + [] == file;
      var found := CollectNodes(leaf.pathIdx, batch);
      if found.None? { return Rejected; }
      var nodes, n := found.value, batch.length;
      var a := nodes[|nodes| - 1];
      if !ValidChild(a, leaf.col, n) { return Rejected; }
      var rows := RowPresence(leaf, nodes, n);
      var chunk := WriteChunk(leaf.col, a, ValueValidity(rows.present, rows.presentCount, n),
        FlatPrefix(f, leaf, rows.def, rows.present, n), FlatHead(leaf, n, rows.presentCount));
      w := Tried(chunk);
    }

    /** The specification of the batch's `i`-th leaf, under the current settings. */
    ghost predicate Serves(ws: seq<LeafWriter>, i: nat, batch: ArrowArray)
      reads this`codec, this`mode, this`leaves
    {
      i < |leaves| == |ws| && LeafUsable(leaves[i], batch) && ws[i] == LeafWriterOf(f, codec, mode, leaves[i], batch)
    }

    ghost predicate AllServe(ws: seq<LeafWriter>, batch: ArrowArray)
      reads this`codec, this`mode, this`leaves
    {
      |ws| == |leaves| && forall i :: 0 <= i < |ws| ==> Serves(ws, i, batch)
    }

    lemma {:induction false} LeafWritersServe(ws: seq<LeafWriter>, batch: ArrowArray)
      requires LeavesUsable(leaves, batch) && ws == LeafWriters(f, codec, mode, leaves, batch)
      ensures AllServe(ws, batch)
    {
      forall i | 0 <= i < |ws| ensures Serves(ws, i, batch) {
        LeafWritersAt(f, codec, mode, leaves, batch, i, leaves[i]);
      }
    }

    method WriteAnyLeaf(i: nat, batch: ArrowArray, ghost ws: seq<LeafWriter>) returns (w: LeafWrite)
      requires i < |leaves| && AllServe(ws, batch)
      modifies this`file, this`offset
      ensures w == ws[i](old(offset))
      ensures file == old(file) + w.Bytes() && offset == old(offset) + |w.Bytes()|
    {
      assert Serves(ws, i, batch);
      if leaves[i].hasList { w := WriteListLeaf(leaves[i], batch); } else { w := WriteFlatLeaf(leaves[i], batch); }
    }

    /** Flattening, on the first batch; on later ones only the number of columns is compared. */
    method CheckSchema(schema: ArrowSchema, batch: ArrowArray) returns (status: Status)
      modifies this`schemaLocked, this`schemaNodes, this`leaves, this`topChildren
      ensures var lock := LockSchema(old(State()), schema, batch);
        if lock.Locks? then status.OK? && State() == lock.s else status == lock.status && !status.OK? && State() == old(State())
    {
      if schema.format != "+s" || |schema.children| == 0 || |batch.children| != |schema.children| { return INVALID_ARGUMENT; }
      if schemaLocked {
        return if |schema.children| != topChildren then INVALID_ARGUMENT else OK;
      }
      var flat := FlattenColumns(schema);
      if flat.None? { return UNSUPPORTED_TYPE; }
      if flat.value.leaves == [] { return INVALID_ARGUMENT; }
      schemaLocked, schemaNodes, leaves, topChildren := true, flat.value.nodes, flat.value.leaves, |schema.children|;
      return OK;
    }

    method FlattenColumns(schema: ArrowSchema) returns (flat: Option<Flat>)
      ensures flat == FlattenTop(schema, 0)
    {
      var all := new Flattener();
      var i := 0;
      ghost var done, total := Flat([], []), FlattenTop(schema, 0);
      assert total.Some? ==> total.value == done.Then(total.value);
      while i < |schema.children|
        invariant 0 <= i <= |schema.children| && all.State() == done
        invariant var rest := FlattenTop(schema, i);
          total.Some? == rest.Some? && (total.Some? ==> total.value == done.Then(rest.value))
      {
        var ok := all.FlattenNode(schema.children[i], TopLevel(i, schema.children[i]));
        if !ok { return None; }
        ghost var first := Flatten(schema.children[i], TopLevel(i, schema.children[i])).value;
        if total.Some? { done.ThenThen(first, FlattenTop(schema, i + 1).value); }
        done := done.Then(first);
        i := i + 1;
      }
      assert done.Then(Flat([], [])) == done;
      return Some(Flat(all.nodes, all.leaves));
    }

    method WriteBatch(schema: ArrowSchema, batch: ArrowArray) returns (status: Status)
      requires Usable(State(), schema, batch)
      modifies this
      ensures Outcome(State(), status) == Step(f, old(State()), Op.WriteBatch(schema, batch))
    {
      if !isOpen { return IO_ERROR; }
      status := CheckSchema(schema, batch);
      if !status.OK? { return; }
      status := WriteRowGroup(batch, LeafWriters(f, codec, mode, leaves, batch));
    }

    /** A row group, once the schema is settled; a failure leaves what was written but adds none. */
    method WriteRowGroup(batch: ArrowArray, ghost ws: seq<LeafWriter>) returns (status: Status)
      requires batch.length >= 0 && LeavesUsable(leaves, batch) && ws == LeafWriters(f, codec, mode, leaves, batch)
      modifies this`file, this`offset, this`rowGroups, this`totalRows
      ensures Outcome(State(), status) == AfterLeaves(old(State()), WriteLeaves(ws, |leaves|, old(offset)), batch)
    {
      ghost var before := State();
      LeafWritersServe(ws, batch);
      var b, totalByteSize := WriteColumns(batch, ws);
      status := AddRowGroup(batch, b, totalByteSize, before);
    }

    method AddRowGroup(batch: ArrowArray, b: Batched, totalByteSize: nat, ghost before: WriterState) returns (status: Status)
      requires batch.length >= 0 && totalByteSize == TotalUncompressed(b.columns)
      requires State() == before.(file := before.file + b.bytes, offset := before.offset + |b.bytes|)
      modifies this`rowGroups, this`totalRows
      ensures Outcome(State(), status) == AfterLeaves(before, b, batch)
    {
      if !b.status.OK? { return b.status; }
      rowGroups := rowGroups + [RowGroupMeta(b.columns, batch.length, totalByteSize)];
      totalRows := totalRows + batch.length;
      return OK;
    }

    /** The first `i` leaves of a batch are written behind what the file held, and their sizes added up. */
    ghost predicate WrittenUpTo(ws: seq<LeafWriter>, i: nat, start: bytes, base: nat, b: Batched, size: nat)
      requires i <= |ws|
      reads this`file, this`offset
    {
      && b == WriteLeaves(ws, i, base) && size == TotalUncompressed(b.columns)
      && file == start + b.bytes && offset == base + |b.bytes|
    }

    /** One more leaf of a batch. */
    method WriteNext(i: nat, batch: ArrowArray, b: Batched, size: nat, ghost start: bytes, ghost base: nat, ghost ws: seq<LeafWriter>)
      returns (b': Batched, size': nat)
      requires i < |leaves| && AllServe(ws, batch) && WrittenUpTo(ws, i, start, base, b, size) && b.status.OK?
      modifies this`file, this`offset
      ensures WrittenUpTo(ws, i + 1, start, base, b', size')
    {
      LeavesNext(ws, i, base, offset);
      var w := WriteAnyLeaf(i, batch, ws);
      Joined(start, b.bytes, w.Bytes());
      b', size' := AddLeaf(b, w), size;
      if w.Status().OK? {
        AddLeafTotal(b, w);
        size' := size + w.written.meta.value.totalUncompressed;
      }
    }

    /** The loop over the leaves; it stops at the first that fails. */
    method WriteColumns(batch: ArrowArray, ghost ws: seq<LeafWriter>) returns (b: Batched, totalByteSize: nat)
      requires AllServe(ws, batch)
      modifies this`file, this`offset
      ensures WrittenUpTo(ws, |ws|, old(file), old(offset), b, totalByteSize)
    {
      b, totalByteSize := Batched(OK, [], []), 0;
      assert file == old(file) + [];
      var i := 0;
      while i < |leaves| && b.status.OK?
        invariant 0 <= i <= |leaves| && WrittenUpTo(ws, i, old(file), old(offset), b, totalByteSize)
      {
        b, totalByteSize := WriteNext(i, batch, b, totalByteSize, old(file), old(offset), ws);
        i := i + 1;
      }
      if !b.status.OK? { LeavesStop(ws, i, |leaves|, old(offset)); }
    }

    method Close() returns (status: Status)
      modifies this
      ensures Outcome(State(), status) == Closed(f, old(State()))
    {
      status := OK;
      if isOpen && !footerWritten {
        var footer := f.footer(FileMeta(topChildren, ElementsOf(schemaNodes), totalRows, rowGroups, codec));
        if footer.None? || |footer.value| > MAX_U32 {
          status := IO_ERROR;
        } else {
          ghost var bs := footer.value + Le32(|footer.value|) + MAGIC;
          WriteBytes(footer.value);
          WriteBytes(Le32(|footer.value|));
          WriteBytes(MAGIC);
          assert file == old(file) + bs;
        }
        footerWritten, isOpen := true, false;
      }
    }
  }
}
