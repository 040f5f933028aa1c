/**
 One leaf of one batch: finding its arrays, its levels, its presence map, and the chunk written from
 them. A leaf under a list is shredded; any other leaf takes the fast path.
 */
module Chunks {
  import opened Bits
  import opened Arrow
  import opened Records
  import opened Shredding
  import opened Order
  import opened Schema
  import opened Footer
  import opened FastPath
  import opened PlainValues
  import opened Codecs
  import opened Values
  import opened Pages

  datatype Status = OK | INVALID_ARGUMENT | UNSUPPORTED_TYPE | IO_ERROR

  /** A leaf that is refused writes nothing; an encoder that fails on the way can leave a page behind. */
  datatype LeafWrite = Rejected | Tried(written: Written) {
    function Status(): Status {
      if Rejected? then INVALID_ARGUMENT else if written.meta.None? then IO_ERROR else OK
    }
    function Bytes(): bytes {
      if Rejected? then [] else written.bytes
    }
  }

  /** `validate_child` */
  predicate ValidChild(a: ArrowArray, s: ColumnSpec, rows: int) {
    && a.length == rows
    && a.offset == 0
    && (a.nullCount > 0 ==> s.nullable)
    && (!s.extract.NullValues? ==> a.nBuffers >= if s.extract.ByteArray? then 3 else 2)
  }

  /** A chunk's pages, from its levels' prefix and the presence of its values. */
  function ChunkOf(f: Foreign, codec: Codec, mode: Mode, s: ColumnSpec, a: ArrowArray, validity: Option<bytes>,
      prefix: Option<bytes>, head: ChunkHead, base: nat): Written
    requires LeafBacked(s, a) && Covers(validity, a.length)
  {
    match prefix
    case None => Written([], None)
    case Some(levels) =>
      match ValuesOf(f, mode, s, a, validity)
      case None => Written([], None)
      case Some(v) => LeafPages(f, codec, head, v, levels, base)
  }

  // ---- a leaf under a list --------------------------------------------------------------------

  function ListArray(leaf: LeafSpec, batch: ArrowArray): Option<ArrowArray>
    requires LeafOk(leaf) && leaf.hasList
  {
    if leaf.pathIdx[0] >= |batch.children| then None else LeafArray(leaf.steps, 0, batch.children[leaf.pathIdx[0]])
  }

  /** What an accepted leaf of a batch is: its array, and the entries that the shredder emits. */
  datatype Accepted = Accepted(leafArray: ArrowArray, out: seq<Entry>)

  ghost predicate ListUsable(leaf: LeafSpec, batch: ArrowArray)
    requires LeafOk(leaf) && leaf.hasList
  {
    ListArray(leaf, batch).Some? ==>
      var a := ListArray(leaf, batch).value;
      ValidChild(a, leaf.col, a.length) ==> LeafBacked(leaf.col, a)
  }

  function ListOut(leaf: LeafSpec, batch: ArrowArray): (r: Option<Accepted>)
    requires LeafOk(leaf) && leaf.hasList && Backed(batch) && ListUsable(leaf, batch)
    ensures r.Some? ==> LeafBacked(leaf.col, r.value.leafArray) && Below(Positions(r.value.out), r.value.leafArray.length)
  {
    match ListArray(leaf, batch)
    case None => None
    case Some(a) =>
      if !ValidChild(a, leaf.col, a.length) then None else
      var column := batch.children[leaf.pathIdx[0]];
      var w := WalkRange(PathOf(leaf), 0, column, 0, batch.length, 0, 0, 0);
      PositionsInLeafRange(PathOf(leaf), 0, column, 0, batch.length, 0, 0, 0);
      if w.ok then Some(Accepted(a, w.out)) else None
  }

  function ListHead(leaf: LeafSpec, entries: nat, presentCount: nat): ChunkHead {
    ChunkHead(leaf.col.physical, leaf.pathNames, entries, entries - presentCount, true)
  }

  /** The shredder's output for an accepted leaf. */
  function ShreddedOf(acc: Accepted): Shredded
    requires Below(Positions(acc.out), acc.leafArray.length) && acc.leafArray.length >= 0
  {
    Shredded([], [], Zeros(acc.leafArray.length), 0).Add(acc.out)
  }

  function ListValidity(acc: Accepted): Option<bytes>
    requires Below(Positions(acc.out), acc.leafArray.length) && acc.leafArray.length >= 0
  {
    ValueValidity(ShreddedOf(acc).present, ShreddedOf(acc).presentCount, acc.leafArray.length)
  }

  function ListChunk(f: Foreign, codec: Codec, mode: Mode, leaf: LeafSpec, acc: Accepted, base: nat): Written
    requires LeafBacked(leaf.col, acc.leafArray) && Below(Positions(acc.out), acc.leafArray.length)
  {
    var sh := ShreddedOf(acc);
    ChunkOf(f, codec, mode, leaf.col, acc.leafArray, ListValidity(acc),
      ListPrefix(f, leaf, sh.rep, sh.def), ListHead(leaf, |sh.def|, sh.presentCount), base)
  }

  // ---- a leaf outside lists -------------------------------------------------------------------

  /** The arrays that the first `n` child indices lead to. */
  function PathNodes(idx: seq<nat>, batch: ArrowArray, n: nat): (r: Option<seq<ArrowArray>>)
    requires n <= |idx|
    ensures r.Some? ==> |r.value| == n
  {
    if n == 0 then Some([]) else
    match PathNodes(idx, batch, n - 1)
    case None => None
    case Some(above) =>
      var parent := if n == 1 then batch else above[n - 2];
      if idx[n - 1] >= |parent.children| then None else Some(above + [parent.children[idx[n - 1]]])
  }

  lemma {:induction false} PathNodesStop(idx: seq<nat>, batch: ArrowArray, n: nat, m: nat)
    requires n <= m <= |idx| && PathNodes(idx, batch, n).None?
    ensures PathNodes(idx, batch, m).None?
  {
    if n < m { PathNodesStop(idx, batch, n, m - 1); }
  }

  ghost predicate FlatUsable(leaf: LeafSpec, batch: ArrowArray)
    requires LeafOk(leaf) && !leaf.hasList && Backed(batch)
  {
    PathNodes(leaf.pathIdx, batch, |leaf.pathIdx|).Some? ==>
      var nodes := PathNodes(leaf.pathIdx, batch, |leaf.pathIdx|).value;
      var a := nodes[|nodes| - 1];
      ValidChild(a, leaf.col, batch.length) ==> LeafBacked(leaf.col, a) && Readable(nodes, leaf.pathOptional, batch.length)
  }

  /** An accepted leaf's arrays, from the column's down to the leaf's. */
  function FlatNodes(leaf: LeafSpec, batch: ArrowArray): (r: Option<seq<ArrowArray>>)
    requires LeafOk(leaf) && !leaf.hasList && Backed(batch) && FlatUsable(leaf, batch)
    ensures r.Some? ==> |r.value| == |leaf.pathIdx| && Readable(r.value, leaf.pathOptional, batch.length)
    ensures r.Some? ==> var a := r.value[|r.value| - 1]; LeafBacked(leaf.col, a) && a.length == batch.length
  {
    match PathNodes(leaf.pathIdx, batch, |leaf.pathIdx|)
    case None => None
    case Some(nodes) => if ValidChild(nodes[|nodes| - 1], leaf.col, batch.length) then Some(nodes) else None
  }

  /** The fast path's levels above maximum level 1, its presence map, and how many rows are values. */
  datatype FlatRows = FlatRows(def: seq<nat>, present: bytes, presentCount: nat)

  /** Without nullable nodes nothing is counted: every row is a value. */
  function FlatRowsOf(leaf: LeafSpec, nodes: seq<ArrowArray>, n: nat): (r: FlatRows)
    requires |nodes| == |leaf.pathOptional| && Readable(nodes, leaf.pathOptional, n)
    ensures r.presentCount < n ==> n <= 8 * |r.present|
    ensures leaf.maxDef > 0 ==> n <= 8 * |r.present|
  {
    if leaf.maxDef == 0 then FlatRows([], [], n) else
      var nullLeaf := leaf.col.extract.NullValues?;
      var ps := RowsPresent(nodes, leaf.pathOptional, nullLeaf, n);
      FlatRows(if leaf.maxDef > 1 then LevelsUpTo(nodes, leaf.pathOptional, nullLeaf, n) else [], Mark(Zeros(n), ps), |ps|)
  }

  function FlatValidity(leaf: LeafSpec, nodes: seq<ArrowArray>, n: nat): Option<bytes>
    requires |nodes| == |leaf.pathOptional| && Readable(nodes, leaf.pathOptional, n)
  {
    ValueValidity(FlatRowsOf(leaf, nodes, n).present, FlatRowsOf(leaf, nodes, n).presentCount, n)
  }

  function FlatHead(leaf: LeafSpec, n: nat, presentCount: nat): ChunkHead {
    ChunkHead(leaf.col.physical, leaf.pathNames, n, n - presentCount, leaf.maxDef > 0)
  }

  function FlatChunk(f: Foreign, codec: Codec, mode: Mode, leaf: LeafSpec, nodes: seq<ArrowArray>, base: nat): Written
    requires |nodes| == |leaf.pathOptional| > 0 && LeafBacked(leaf.col, nodes[|nodes| - 1]) && Readable(nodes, leaf.pathOptional, nodes[|nodes| - 1].length)
  {
    var a := nodes[|nodes| - 1];
    var n := a.length;
    var rows := FlatRowsOf(leaf, nodes, n);
    ChunkOf(f, codec, mode, leaf.col, a, FlatValidity(leaf, nodes, n),
      FlatPrefix(f, leaf, rows.def, rows.present, n), FlatHead(leaf, n, rows.presentCount), base)
  }

  // ---- either ---------------------------------------------------------------------------------

  /** The values that the presence map of an accepted leaf selects can be read. */
  ghost predicate ListReadable(leaf: LeafSpec, batch: ArrowArray)
    requires LeafOk(leaf) && leaf.hasList && Backed(batch) && ListUsable(leaf, batch)
  {
    ListOut(leaf, batch).Some? ==>
      var acc := ListOut(leaf, batch).value;
      PresentBacked(leaf.col, acc.leafArray, ListValidity(acc))
  }

  ghost predicate FlatReadable(leaf: LeafSpec, batch: ArrowArray)
    requires LeafOk(leaf) && !leaf.hasList && Backed(batch) && FlatUsable(leaf, batch)
  {
    FlatNodes(leaf, batch).Some? ==>
      var nodes := FlatNodes(leaf, batch).value;
      PresentBacked(leaf.col, nodes[|nodes| - 1], FlatValidity(leaf, nodes, batch.length))
  }

  /** What writing the leaf reads is there: buffers as long as they are read, and strings where values are taken from. */
  ghost predicate LeafUsable(leaf: LeafSpec, batch: ArrowArray) {
    LeafOk(leaf) && Backed(batch) &&
    if leaf.hasList then ListUsable(leaf, batch) && ListReadable(leaf, batch)
    else FlatUsable(leaf, batch) && FlatReadable(leaf, batch)
  }

  function WriteLeaf(f: Foreign, codec: Codec, mode: Mode, leaf: LeafSpec, batch: ArrowArray, base: nat): LeafWrite
    requires LeafUsable(leaf, batch)
  {
    if leaf.hasList then
      match ListOut(leaf, batch)
      case None => Rejected
      case Some(acc) => Tried(ListChunk(f, codec, mode, leaf, acc, base))
    else
      match FlatNodes(leaf, batch)
      case None => Rejected
      case Some(nodes) => Tried(FlatChunk(f, codec, mode, leaf, nodes, base))
  }

  /** What `LeafPages` records, whatever the pages hold. */
  lemma {:induction false} ChunkRecord(f: Foreign, codec: Codec, mode: Mode, s: ColumnSpec, a: ArrowArray, validity: Option<bytes>,
      prefix: Option<bytes>, head: ChunkHead, base: nat)
    requires LeafBacked(s, a) && Covers(validity, a.length)
    ensures var w := ChunkOf(f, codec, mode, s, a, validity, prefix, head, base);
      w.meta.Some? ==>
        && ChunkStart(w.meta.value) == base && w.meta.value.totalCompressed == |w.bytes|
        && w.meta.value.path == head.path && w.meta.value.physical == head.physical
        && w.meta.value.numValues == head.numValues && w.meta.value.nullCount == head.nullCount
  {
    if prefix.Some? && ValuesOf(f, mode, s, a, validity).Some? {
      LeafPagesExtent(f, codec, head, ValuesOf(f, mode, s, a, validity).value, prefix.value, base);
    }
  }

  /** A recorded chunk is its leaf's: type, path, exact extent; outside lists one value per row. */
  ghost predicate ChunkOfLeaf(leaf: LeafSpec, m: ChunkMeta, base: nat, size: nat, rows: int) {
    && ChunkStart(m) == base && m.totalCompressed == size
    && m.path == leaf.pathNames && m.physical == leaf.col.physical
    && 0 <= m.nullCount <= m.numValues
    && (!leaf.hasList ==> m.numValues == rows)
  }

  lemma {:induction false} LeafRecord(f: Foreign, codec: Codec, mode: Mode, leaf: LeafSpec, batch: ArrowArray, base: nat)
    requires LeafUsable(leaf, batch) && WriteLeaf(f, codec, mode, leaf, batch, base).Status().OK?
    ensures var w := WriteLeaf(f, codec, mode, leaf, batch, base).written;
      ChunkOfLeaf(leaf, w.meta.value, base, |w.bytes|, batch.length)
  {
    if leaf.hasList {
      var acc := ListOut(leaf, batch).value;
      var sh := ShreddedOf(acc);
      PositionsCount(acc.out);
      ChunkRecord(f, codec, mode, leaf.col, acc.leafArray, ValueValidity(sh.present, sh.presentCount, acc.leafArray.length),
        ListPrefix(f, leaf, sh.rep, sh.def), ListHead(leaf, |sh.def|, sh.presentCount), base);
    } else {
      var nodes, n := FlatNodes(leaf, batch).value, batch.length;
      var rows := FlatRowsOf(leaf, nodes, n);
      RowsPresentCount(nodes, leaf.pathOptional, leaf.col.extract.NullValues?, n);
      ChunkRecord(f, codec, mode, leaf.col, nodes[|nodes| - 1], ValueValidity(rows.present, rows.presentCount, n),
        FlatPrefix(f, leaf, rows.def, rows.present, n), FlatHead(leaf, n, rows.presentCount), base);
    }
  }

  lemma {:induction false} PositionsCount(out: seq<Entry>)
    ensures |Positions(out)| <= |out|
  {
    if out != [] { PositionsCount(out[..|out| - 1]); }
  }

  lemma {:induction false} RowsPresentCount(nodes: seq<ArrowArray>, opt: seq<bool>, nullLeaf: bool, n: nat)
    requires |nodes| == |opt| && Readable(nodes, opt, n)
    ensures |RowsPresent(nodes, opt, nullLeaf, n)| <= n
  {
    if n > 0 { RowsPresentCount(nodes, opt, nullLeaf, n - 1); }
  }

  /** The maximum level that the fast path counts up to is the leaf's. */
  lemma {:induction false} FlagsCount(leaf: LeafSpec)
    requires LeafOk(leaf) && !leaf.hasList
    ensures Optionals(leaf.pathOptional, 0) == leaf.maxDef
  {
    FlagsFrom(leaf, 0);
  }

  lemma {:induction false} FlagsFrom(leaf: LeafSpec, k: nat)
    requires LeafOk(leaf) && !leaf.hasList && k <= |leaf.pathOptional|
    ensures DefAbove(ShapeOf(StepsOf(leaf)), k) + Optionals(leaf.pathOptional, k) == leaf.maxDef
    decreases |leaf.pathOptional| - k
  {
    if k < |leaf.pathOptional| { FlagsFrom(leaf, k + 1); }
  }
}
