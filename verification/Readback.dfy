/**
 A reader that is given the finished file and nothing else gets every accepted batch back: the
 footer's schema gives the columns, the chunk records lead to the pages, the pages give levels and
 values, and assembly gives each leaf's rows.
 */
module Readback {
  import opened Bits
  import opened Arrow
  import opened Records
  import opened Shredding
  import opened Order
  import opened HiddenOffsets
  import opened Projection
  import opened Schema
  import opened Footer
  import opened FastPath
  import opened PlainValues
  import opened Codecs
  import opened Values
  import opened Pages
  import opened Chunks

  // ---- a leaf's entries and values ------------------------------------------------------------

  /** A leaf array's value at a position. */
  function LeafValue(s: ColumnSpec, a: ArrowArray): int -> Scalar
    requires LeafBacked(s, a)
  {
    (i: int) => if 0 <= i < a.length then ScalarAt(s, a, i) else Truth(false)
  }

  /** The values that the builders take through the presence map are those of the entries, in order. */
  lemma {:induction false} PresentIsDense(s: ColumnSpec, a: ArrowArray, validity: Option<bytes>, out: seq<Entry>)
    requires LeafBacked(s, a) && Covers(validity, a.length) && Selected(validity, a.length) == Positions(out)
    ensures Present(s, a, validity, a.length) == Dense(Cells(out, LeafValue(s, a)))
  {
    PresentSelected(s, a, validity, a.length);
    DenseAtPositions(out, LeafValue(s, a));
  }

  lemma {:induction false} CountIsDense<V>(sh: Shape, cells: seq<Cell<V>>)
    requires Bounded(sh, cells)
    ensures CountDef(Levels(cells), DefAbove(sh, |sh|)) == |Dense(cells)|
  {
    if cells != [] {
      assert Levels(cells)[1..] == Levels(cells[1..]);
      CountIsDense(sh, cells[1..]);
    }
  }

  lemma {:induction false} PagesOfChunkFit(f: Foreign, codec: Codec, head: ChunkHead, v: ValuePages, prefix: bytes, base: nat)
    requires LeafPages(f, codec, head, v, prefix, base).meta.Some?
    ensures PagesFit(v)
  {
    assert EncodePage(f, codec, false, head.numValues, v.encoding, prefix + v.body).Some?;
  }

  /** Whatever follows it, the prefix splits off as these levels. */
  ghost predicate PrefixReads(f: Foreign, leaf: LeafSpec, n: nat, prefix: bytes, ls: seq<Level>) {
    forall rest: bytes :: ReadLevels(f, leaf.maxDef, leaf.maxRep, n, prefix + rest) == Some((ls, rest))
  }

  /** A leaf's pages, from a prefix that reads back and values that are all present ones. */
  lemma {:induction false} ChunkOfReadsBack(f: Foreign, codec: Codec, mode: Mode, leaf: LeafSpec, a: ArrowArray, validity: Option<bytes>,
      prefix: bytes, head: ChunkHead, base: nat, file: bytes, ls: seq<Level>)
    requires Faithful(f) && LeafOk(leaf) && SpecOk(leaf.col) && LeafBacked(leaf.col, a) && Covers(validity, a.length)
    requires var w := ChunkOf(f, codec, mode, leaf.col, a, validity, Some(prefix), head, base); w.meta.Some? && Holds(file, base, w.bytes)
    requires var vs := Present(leaf.col, a, validity, a.length);
      CountDef(ls, leaf.maxDef) == |vs| && (leaf.col.extract.NullValues? ==> vs == [])
    requires PrefixReads(f, leaf, head.numValues, prefix, ls)
    ensures ReadChunk(f, codec, ColumnOf(leaf), file, ChunkOf(f, codec, mode, leaf.col, a, validity, Some(prefix), head, base).meta.value)
      == Some((ls, Present(leaf.col, a, validity, a.length)))
  {
    var v := ValuesOf(f, mode, leaf.col, a, validity).value;
    PagesOfChunkFit(f, codec, head, v, prefix, base);
    ValuesReadBack(f, mode, leaf.col, a, validity);
    ChunkReadsBack(f, codec, head, v, prefix, base, file, ColumnOf(leaf), ls, Present(leaf.col, a, validity, a.length));
  }

  /** The cells of a column whose rows are `xs`. */
  ghost predicate CellsOfRows(leaf: LeafSpec, out: seq<Entry>, at: int -> Scalar, xs: seq<Datum<Scalar>>)
    requires LeafOk(leaf)
  {
    var sh := ShapeOf(StepsOf(leaf));
    (forall i :: 0 <= i < |xs| ==> Fits(sh, 0, xs[i])) && Cells(out, at) == ShredRows(sh, xs)
  }

  /** All of a leaf's levels are within its maxima, and there is one value per entry at the maximum. */
  lemma {:induction false} EntriesBounded(leaf: LeafSpec, out: seq<Entry>, at: int -> Scalar, xs: seq<Datum<Scalar>>)
    requires LeafOk(leaf) && CellsOfRows(leaf, out, at, xs)
    ensures AllWithin(Reps(out), leaf.maxRep + 1) && AllWithin(Defs(out), leaf.maxDef + 1)
    ensures Levels(Cells(out, at)) == ZipLevels(Reps(out), Defs(out))
    ensures CountDef(Levels(Cells(out, at)), leaf.maxDef) == |Dense(Cells(out, at))|
    ensures RowStarts(Levels(Cells(out, at))) == |xs|
  {
    var sh := ShapeOf(StepsOf(leaf));
    ShredRowsLevels(sh, xs);
    CountIsDense(sh, Cells(out, at));
    forall i | 0 <= i < |out| ensures out[i].rep < leaf.maxRep + 1 && out[i].def < leaf.maxDef + 1 {
      assert Cells(out, at)[i].level == Level(out[i].rep, out[i].def);
    }
  }

  // ---- a leaf under a list --------------------------------------------------------------------

  lemma {:induction false} ShredCounts(leaf: LeafSpec)
    requires LeafOk(leaf) && leaf.hasList
    ensures leaf.maxDef > 0 && leaf.maxRep > 0
  {
    RepWithinDef(ShapeOf(StepsOf(leaf)), |StepsOf(leaf)|);
  }

  lemma {:induction false} RepWithinDef(sh: Shape, k: nat)
    requires k <= |sh|
    ensures RepAbove(sh, k) <= DefAbove(sh, k)
  {
    if k > 0 { RepWithinDef(sh, k - 1); }
  }

  lemma {:induction false} ListChunkReadsBack(f: Foreign, codec: Codec, mode: Mode, leaf: LeafSpec, acc: Accepted, base: nat, file: bytes,
      xs: seq<Datum<Scalar>>)
    requires Faithful(f) && LeafOk(leaf) && leaf.hasList && SpecOk(leaf.col)
    requires LeafBacked(leaf.col, acc.leafArray) && Below(Positions(acc.out), acc.leafArray.length) && Increasing(Positions(acc.out))
    requires leaf.col.extract.NullValues? ==> Positions(acc.out) == []
    requires CellsOfRows(leaf, acc.out, LeafValue(leaf.col, acc.leafArray), xs)
    requires var w := ListChunk(f, codec, mode, leaf, acc, base); w.meta.Some? && Holds(file, base, w.bytes)
    ensures var cells := Cells(acc.out, LeafValue(leaf.col, acc.leafArray));
      ReadChunk(f, codec, ColumnOf(leaf), file, ListChunk(f, codec, mode, leaf, acc, base).meta.value) == Some((Levels(cells), Dense(cells)))
  {
    var a, sh := acc.leafArray, ShreddedOf(acc);
    var validity := ValueValidity(sh.present, sh.presentCount, a.length);
    assert sh.rep == Reps(acc.out) && sh.def == Defs(acc.out);
    EntriesBounded(leaf, acc.out, LeafValue(leaf.col, a), xs);
    PresenceSelectsPositions(acc.out, a.length);
    PresentIsDense(leaf.col, a, validity, acc.out);
    DenseAtPositions(acc.out, LeafValue(leaf.col, a));
    ListPrefixOf(f, leaf, acc.out);
    ChunkOfReadsBack(f, codec, mode, leaf, a, validity, ListPrefix(f, leaf, sh.rep, sh.def).value,
      ListHead(leaf, |sh.def|, sh.presentCount), base, file, ZipLevels(Reps(acc.out), Defs(acc.out)));
  }

  lemma {:induction false} ListPrefixOf(f: Foreign, leaf: LeafSpec, out: seq<Entry>)
    requires Faithful(f) && LeafOk(leaf) && leaf.hasList && ListPrefix(f, leaf, Reps(out), Defs(out)).Some?
    requires AllWithin(Reps(out), leaf.maxRep + 1) && AllWithin(Defs(out), leaf.maxDef + 1)
    ensures PrefixReads(f, leaf, |out|, ListPrefix(f, leaf, Reps(out), Defs(out)).value, ZipLevels(Reps(out), Defs(out)))
  {
    ShredCounts(leaf);
    forall rest: bytes
      ensures ReadLevels(f, leaf.maxDef, leaf.maxRep, |out|, ListPrefix(f, leaf, Reps(out), Defs(out)).value + rest) == Some((ZipLevels(Reps(out), Defs(out)), rest))
    {
      ListPrefixReadsBack(f, leaf, Reps(out), Defs(out), rest);
    }
  }

  // ---- a leaf outside lists -------------------------------------------------------------------

  lemma {:induction false} FlagsAre(leaf: LeafSpec)
    requires LeafOk(leaf) && !leaf.hasList
    ensures OptionalFlags(StepsOf(leaf)) == leaf.pathOptional
  {
  }

  /** A leaf of the null type has no values. */
  lemma {:induction false} NullLeafRow(leaf: LeafSpec, nodes: seq<ArrowArray>, i: nat, k: nat, d: nat)
    requires LeafOk(leaf) && !leaf.hasList && |nodes| == |leaf.pathOptional| && k < |nodes| && Readable(nodes, leaf.pathOptional, i + 1)
    requires leaf.col.extract.NullValues?
    ensures !RowLevel(nodes, leaf.pathOptional, true, i, k, d).1
    decreases |nodes| - k
  {
    if k + 1 < |nodes| {
      NullLeafRow(leaf, nodes, i, k + 1, d);
      NullLeafRow(leaf, nodes, i, k + 1, d + 1);
    } else {
      assert StepsOf(leaf)[k].optional == leaf.pathOptional[k];
    }
  }

  lemma {:induction false} NullLeafRows(leaf: LeafSpec, nodes: seq<ArrowArray>, n: nat)
    requires LeafOk(leaf) && !leaf.hasList && |nodes| == |leaf.pathOptional| && Readable(nodes, leaf.pathOptional, n)
    requires leaf.col.extract.NullValues?
    ensures RowsPresent(nodes, leaf.pathOptional, true, n) == []
  {
    if n > 0 {
      NullLeafRow(leaf, nodes, n - 1, 0, 0);
      NullLeafRows(leaf, nodes, n - 1);
    }
  }

  /** The fast path's prefix and presence map, against the entries that it stands for. */
  lemma {:induction false} FlatPrefixOf(f: Foreign, leaf: LeafSpec, nodes: seq<ArrowArray>, n: nat)
    requires Faithful(f) && LeafOk(leaf) && !leaf.hasList && |nodes| == |leaf.pathOptional| && Readable(nodes, leaf.pathOptional, n)
    requires var out := FastOut(PathOf(leaf), nodes, n); AllWithin(Defs(out), leaf.maxDef + 1)
    requires var r := FlatRowsOf(leaf, nodes, n); FlatPrefix(f, leaf, r.def, r.present, n).Some?
    ensures var r, out := FlatRowsOf(leaf, nodes, n), FastOut(PathOf(leaf), nodes, n);
      PrefixReads(f, leaf, n, FlatPrefix(f, leaf, r.def, r.present, n).value, ZipLevels(Reps(out), Defs(out)))
  {
    var r, out := FlatRowsOf(leaf, nodes, n), FastOut(PathOf(leaf), nodes, n);
    FlagsAre(leaf);
    FastOutIsLoop(PathOf(leaf), nodes, n);
    assert Reps(out) == Zero(n);
    FlagsCount(leaf);
    if leaf.maxDef == 1 { BitmapIsLevels(nodes, leaf.pathOptional, leaf.col.extract.NullValues?, n); }
    FlatRowsRead(f, leaf, r, Defs(out), n);
  }

  lemma {:induction false} FlatRowsRead(f: Foreign, leaf: LeafSpec, r: FlatRows, ls: seq<nat>, n: nat)
    requires Faithful(f) && LeafOk(leaf) && !leaf.hasList && |ls| == n && AllWithin(ls, leaf.maxDef + 1)
    requires leaf.maxDef > 0 ==> n <= 8 * |r.present|
    requires r.def == if leaf.maxDef > 1 then ls else []
    requires leaf.maxDef == 1 ==> ls == BitmapLevels(r.present, n)
    requires FlatPrefix(f, leaf, r.def, r.present, n).Some?
    ensures PrefixReads(f, leaf, n, FlatPrefix(f, leaf, r.def, r.present, n).value, ZipLevels(Zero(n), ls))
  {
    forall rest: bytes
      ensures ReadLevels(f, leaf.maxDef, leaf.maxRep, n, FlatPrefix(f, leaf, r.def, r.present, n).value + rest) == Some((ZipLevels(Zero(n), ls), rest))
    {
      FlatRowsPrefix(f, leaf, r, ls, n, rest);
    }
  }

  lemma {:induction false} FlatRowsPrefix(f: Foreign, leaf: LeafSpec, r: FlatRows, ls: seq<nat>, n: nat, rest: bytes)
    requires Faithful(f) && LeafOk(leaf) && !leaf.hasList && |ls| == n && AllWithin(ls, leaf.maxDef + 1)
    requires leaf.maxDef > 0 ==> n <= 8 * |r.present|
    requires r.def == if leaf.maxDef > 1 then ls else []
    requires leaf.maxDef == 1 ==> ls == BitmapLevels(r.present, n)
    requires FlatPrefix(f, leaf, r.def, r.present, n).Some?
    ensures ReadLevels(f, leaf.maxDef, 0, n, FlatPrefix(f, leaf, r.def, r.present, n).value + rest) == Some((ZipLevels(Zero(n), ls), rest))
  {
    FlatPrefixReadsBack(f, leaf, ls, if leaf.maxDef > 0 then r.present else Zeros(n), n, rest);
  }

  /** Reading the leaf through the fast path's presence map selects the entries' positions. */
  lemma {:induction false} FlatSelects(leaf: LeafSpec, nodes: seq<ArrowArray>, n: nat)
    requires LeafOk(leaf) && !leaf.hasList && |nodes| == |leaf.pathOptional| && Readable(nodes, leaf.pathOptional, n)
    ensures var r := FlatRowsOf(leaf, nodes, n);
      Selected(ValueValidity(r.present, r.presentCount, n), n) == RowsPresent(nodes, leaf.pathOptional, leaf.col.extract.NullValues?, n)
  {
    var nullLeaf := leaf.col.extract.NullValues?;
    FlagsCount(leaf);
    if leaf.maxDef == 0 {
      AllRowsPresent(nodes, leaf.pathOptional, nullLeaf, n);
    } else {
      var ps := RowsPresent(nodes, leaf.pathOptional, nullLeaf, n);
      RowsPresentIncrease(nodes, leaf.pathOptional, nullLeaf, n);
      MarkSelects(ps, n);
      if |ps| >= n { SelectedFull(Some(Mark(Zeros(n), ps)), n); }
    }
  }

  lemma {:induction false} AllRowsPresent(nodes: seq<ArrowArray>, opt: seq<bool>, nullLeaf: bool, n: nat)
    requires |nodes| == |opt| && Readable(nodes, opt, n) && Optionals(opt, 0) == 0
    ensures RowsPresent(nodes, opt, nullLeaf, n) == Selected(None, n)
  {
    if n > 0 {
      AllRowsPresent(nodes, opt, nullLeaf, n - 1);
      RowLevelBound(nodes, opt, nullLeaf, n - 1, 0, 0);
    }
  }

  lemma {:induction false} FlatChunkReadsBack(f: Foreign, codec: Codec, mode: Mode, leaf: LeafSpec, nodes: seq<ArrowArray>, n: nat, base: nat, file: bytes,
      xs: seq<Datum<Scalar>>)
    requires Faithful(f) && LeafOk(leaf) && !leaf.hasList && SpecOk(leaf.col)
    requires |nodes| == |leaf.pathOptional| && LeafBacked(leaf.col, nodes[|nodes| - 1]) && Readable(nodes, leaf.pathOptional, n) && nodes[|nodes| - 1].length == n
    requires CellsOfRows(leaf, FastOut(PathOf(leaf), nodes, n), LeafValue(leaf.col, nodes[|nodes| - 1]), xs)
    requires var w := FlatChunk(f, codec, mode, leaf, nodes, base); w.meta.Some? && Holds(file, base, w.bytes)
    ensures var cells := Cells(FastOut(PathOf(leaf), nodes, n), LeafValue(leaf.col, nodes[|nodes| - 1]));
      ReadChunk(f, codec, ColumnOf(leaf), file, FlatChunk(f, codec, mode, leaf, nodes, base).meta.value) == Some((Levels(cells), Dense(cells)))
  {
    var a, r, out := nodes[|nodes| - 1], FlatRowsOf(leaf, nodes, n), FastOut(PathOf(leaf), nodes, n);
    var validity := ValueValidity(r.present, r.presentCount, n);
    FlagsAre(leaf);
    FastOutIsLoop(PathOf(leaf), nodes, n);
    EntriesBounded(leaf, out, LeafValue(leaf.col, a), xs);
    FlatSelects(leaf, nodes, n);
    PresentIsDense(leaf.col, a, validity, out);
    DenseAtPositions(out, LeafValue(leaf.col, a));
    if leaf.col.extract.NullValues? { NullLeafRows(leaf, nodes, n); }
    FlatPrefixOf(f, leaf, nodes, n);
    ChunkOfReadsBack(f, codec, mode, leaf, a, validity, FlatPrefix(f, leaf, r.def, r.present, n).value,
      FlatHead(leaf, n, r.presentCount), base, file, ZipLevels(Reps(out), Defs(out)));
  }

  // ---- a column -------------------------------------------------------------------------------

  /** The leaf was accepted: its arrays exist and pass validation. */
  predicate Accepts(leaf: LeafSpec, batch: ArrowArray)
    requires LeafUsable(leaf, batch)
  {
    if leaf.hasList then ListOut(leaf, batch).Some? else FlatNodes(leaf, batch).Some?
  }

  /** The array that holds the leaf's values. */
  function LeafArrayIn(leaf: LeafSpec, batch: ArrowArray): (a: ArrowArray)
    requires LeafUsable(leaf, batch) && Accepts(leaf, batch)
    ensures LeafBacked(leaf.col, a)
  {
    if leaf.hasList then ListOut(leaf, batch).value.leafArray else
      var nodes := FlatNodes(leaf, batch).value;
      nodes[|nodes| - 1]
  }

  /** The arrays outside lists form a chain from the column's down to the leaf's. */
  lemma {:induction false} PathNodesChain(leaf: LeafSpec, batch: ArrowArray, n: nat)
    requires LeafOk(leaf) && !leaf.hasList && Backed(batch) && 0 < n <= |leaf.pathIdx| && PathNodes(leaf.pathIdx, batch, n).Some?
    ensures var nodes := PathNodes(leaf.pathIdx, batch, n).value;
      && leaf.pathIdx[0] < |batch.children| && nodes[0] == batch.children[leaf.pathIdx[0]]
      && (forall k :: 0 <= k < n ==> Backed(nodes[k]))
      && (forall k :: 0 <= k < n - 1 ==> Next(StepsOf(leaf)[k], nodes[k]) == Some(nodes[k + 1]))
  {
    if n > 1 {
      PathNodesChain(leaf, batch, n - 1);
      var above := PathNodes(leaf.pathIdx, batch, n - 1).value;
      assert Backed(above[n - 2]);
      assert Next(StepsOf(leaf)[n - 2], above[n - 2]) == Some(above[n - 2].children[leaf.pathIdx[n - 1]]);
    } else {
      assert PathNodes(leaf.pathIdx, batch, 0) == Some([]);
    }
  }

  lemma {:induction false} FlatChain(leaf: LeafSpec, batch: ArrowArray)
    requires LeafOk(leaf) && !leaf.hasList && Backed(batch) && PathNodes(leaf.pathIdx, batch, |leaf.pathIdx|).Some?
    ensures var nodes := PathNodes(leaf.pathIdx, batch, |leaf.pathIdx|).value;
      leaf.pathIdx[0] < |batch.children| && nodes[0] == batch.children[leaf.pathIdx[0]] && Chain(PathOf(leaf), nodes)
  {
    PathNodesChain(leaf, batch, |leaf.pathIdx|);
    assert forall k :: 0 <= k < |leaf.pathIdx| ==> !StepsOf(leaf)[k].kind.Repeats();
  }

  lemma {:induction false} ColumnExists(leaf: LeafSpec, batch: ArrowArray)
    requires LeafUsable(leaf, batch) && Accepts(leaf, batch)
    ensures leaf.pathIdx[0] < |batch.children| && Backed(batch.children[leaf.pathIdx[0]])
  {
    if !leaf.hasList { FlatChain(leaf, batch); }
  }

  /** What the batch says of a leaf: each row's value projected on the leaf's path. The batch's own offset applies to its columns. */
  function LeafRows(leaf: LeafSpec, batch: ArrowArray): seq<Datum<Scalar>>
    requires LeafUsable(leaf, batch) && Accepts(leaf, batch)
  {
    ColumnExists(leaf, batch);
    ProjectRange(PathOf(leaf), 0, batch.children[leaf.pathIdx[0]], batch.offset, batch.offset + batch.length,
      LeafValue(leaf.col, LeafArrayIn(leaf, batch)))
  }

  /** The batch starts where its columns do, and no row is null as a whole; the writer looks at neither. */
  ghost predicate WholeBatch(batch: ArrowArray)
    requires Backed(batch)
  {
    batch.offset == 0 && forall e :: 0 <= e < batch.length ==> Valid(batch, e)
  }

  /**
   What the code takes for granted of a batch it accepts: that it is all there. Under a list: offsets that never step back,
   unless the path has no null to hide them under. Outside lists: arrays at offset 0 that are as long
   as the batch all along the path, and null counts that are not 0 where a bitmap has a null.
   */
  ghost predicate Regular(leaf: LeafSpec, batch: ArrowArray)
    requires LeafUsable(leaf, batch) && Accepts(leaf, batch)
  {
    WholeBatch(batch) &&
    if leaf.hasList then
      ColumnExists(leaf, batch);
      leaf.col.extract.NullValues? || !Exposed(leaf.steps, 0) || Ordered(batch.children[leaf.pathIdx[0]])
    else
      var nodes := FlatNodes(leaf, batch).value;
      Unsliced(nodes, batch.length) && AllHonest(PathOf(leaf), nodes, batch.length)
  }

  /**
   The chunk's record agrees with the schema and counts what is in the chunk: as many level pairs as
   values including nulls, and stored values and nulls adding up to them.
   */
  predicate Counted(col: Column, m: ChunkMeta, ls: seq<Level>, vs: seq<Scalar>) {
    m.path == col.path && m.physical == col.physical && |ls| == m.numValues && |vs| + m.nullCount == m.numValues
  }

  /** A column of one row group, from the footer's records and the file; a record that miscounts is refused. */
  function ReadColumn(f: Foreign, codec: Codec, col: Column, file: bytes, m: ChunkMeta): Option<seq<Datum<Scalar>>> {
    if !Rooted(col.shape) then None else
    match ReadChunk(f, codec, col, file, m)
    case None => None
    case Some((ls, vs)) =>
      if Counted(col, m, ls, vs) && PagesCounted(f, file, m, col.maxDef > 0) then AssembleRows(col.shape, ls, vs) else None
  }

  // ---- what the records count ---------------------------------------------------------------

  lemma {:induction false} ListChunkRecord(f: Foreign, codec: Codec, mode: Mode, leaf: LeafSpec, acc: Accepted, base: nat)
    requires LeafBacked(leaf.col, acc.leafArray) && Below(Positions(acc.out), acc.leafArray.length)
    requires ListChunk(f, codec, mode, leaf, acc, base).meta.Some?
    ensures var m := ListChunk(f, codec, mode, leaf, acc, base).meta.value;
      m.path == leaf.pathNames && m.physical == leaf.col.physical && m.numValues == |acc.out| && m.nullCount == |acc.out| - |Positions(acc.out)|
  {
    var sh := ShreddedOf(acc);
    ChunkRecord(f, codec, mode, leaf.col, acc.leafArray, ValueValidity(sh.present, sh.presentCount, acc.leafArray.length),
      ListPrefix(f, leaf, sh.rep, sh.def), ListHead(leaf, |sh.def|, sh.presentCount), base);
  }

  lemma {:induction false} FlatChunkRecord(f: Foreign, codec: Codec, mode: Mode, leaf: LeafSpec, nodes: seq<ArrowArray>, n: nat, base: nat)
    requires LeafOk(leaf) && !leaf.hasList
    requires |nodes| == |leaf.pathOptional| && LeafBacked(leaf.col, nodes[|nodes| - 1]) && Readable(nodes, leaf.pathOptional, n) && nodes[|nodes| - 1].length == n
    requires FlatChunk(f, codec, mode, leaf, nodes, base).meta.Some?
    ensures var m := FlatChunk(f, codec, mode, leaf, nodes, base).meta.value;
      m.path == leaf.pathNames && m.physical == leaf.col.physical && m.numValues == n && m.nullCount == n - |Positions(FastOut(PathOf(leaf), nodes, n))|
  {
    var r := FlatRowsOf(leaf, nodes, n);
    FlagsAre(leaf);
    FastOutIsLoop(PathOf(leaf), nodes, n);
    FlatCountIs(leaf, nodes, n);
    ChunkRecord(f, codec, mode, leaf.col, nodes[|nodes| - 1], ValueValidity(r.present, r.presentCount, n),
      FlatPrefix(f, leaf, r.def, r.present, n), FlatHead(leaf, n, r.presentCount), base);
  }

  lemma {:induction false} FlatCountIs(leaf: LeafSpec, nodes: seq<ArrowArray>, n: nat)
    requires LeafOk(leaf) && !leaf.hasList && |nodes| == |leaf.pathOptional| && Readable(nodes, leaf.pathOptional, n)
    ensures FlatRowsOf(leaf, nodes, n).presentCount == |RowsPresent(nodes, leaf.pathOptional, leaf.col.extract.NullValues?, n)|
  {
    FlagsCount(leaf);
    if leaf.maxDef == 0 {
      AllRowsPresent(nodes, leaf.pathOptional, leaf.col.extract.NullValues?, n);
      AllSelected(n);
    }
  }

  lemma {:induction false} AllSelected(n: nat)
    ensures |Selected(None, n)| == n
  {
    if n > 0 { AllSelected(n - 1); }
  }

  lemma {:induction false} ChunkOfCounted(f: Foreign, codec: Codec, mode: Mode, s: ColumnSpec, a: ArrowArray, validity: Option<bytes>,
      prefix: Option<bytes>, head: ChunkHead, base: nat, file: bytes)
    requires FaithfulPages(f) && LeafBacked(s, a) && Covers(validity, a.length)
    requires var w := ChunkOf(f, codec, mode, s, a, validity, prefix, head, base); w.meta.Some? && Holds(file, base, w.bytes)
    ensures PagesCounted(f, file, ChunkOf(f, codec, mode, s, a, validity, prefix, head, base).meta.value, head.hasLevels)
  {
    ChunkCounted(f, codec, head, ValuesOf(f, mode, s, a, validity).value, prefix.value, base, file);
  }

  lemma {:induction false} ListChunkCounted(f: Foreign, codec: Codec, mode: Mode, leaf: LeafSpec, acc: Accepted, base: nat, file: bytes)
    requires FaithfulPages(f) && LeafOk(leaf) && leaf.hasList
    requires LeafBacked(leaf.col, acc.leafArray) && Below(Positions(acc.out), acc.leafArray.length)
    requires var w := ListChunk(f, codec, mode, leaf, acc, base); w.meta.Some? && Holds(file, base, w.bytes)
    ensures PagesCounted(f, file, ListChunk(f, codec, mode, leaf, acc, base).meta.value, leaf.maxDef > 0)
  {
    var sh := ShreddedOf(acc);
    ShredCounts(leaf);
    ChunkOfCounted(f, codec, mode, leaf.col, acc.leafArray, ListValidity(acc), ListPrefix(f, leaf, sh.rep, sh.def),
      ListHead(leaf, |sh.def|, sh.presentCount), base, file);
  }

  lemma {:induction false} FlatChunkCounted(f: Foreign, codec: Codec, mode: Mode, leaf: LeafSpec, nodes: seq<ArrowArray>, base: nat, file: bytes)
    requires FaithfulPages(f) && |nodes| == |leaf.pathOptional| > 0 && LeafBacked(leaf.col, nodes[|nodes| - 1])
    requires Readable(nodes, leaf.pathOptional, nodes[|nodes| - 1].length)
    requires var w := FlatChunk(f, codec, mode, leaf, nodes, base); w.meta.Some? && Holds(file, base, w.bytes)
    ensures PagesCounted(f, file, FlatChunk(f, codec, mode, leaf, nodes, base).meta.value, leaf.maxDef > 0)
  {
    var a := nodes[|nodes| - 1];
    var rows := FlatRowsOf(leaf, nodes, a.length);
    ChunkOfCounted(f, codec, mode, leaf.col, a, FlatValidity(leaf, nodes, a.length), FlatPrefix(f, leaf, rows.def, rows.present, a.length),
      FlatHead(leaf, a.length, rows.presentCount), base, file);
  }

  // ---- reading a column back ------------------------------------------------------------------

  lemma {:induction false} ListRegular(leaf: LeafSpec, batch: ArrowArray)
    requires LeafUsable(leaf, batch) && leaf.hasList && Accepts(leaf, batch) && Regular(leaf, batch)
    ensures Increasing(Positions(ListOut(leaf, batch).value.out))
    ensures leaf.col.extract.NullValues? ==> Positions(ListOut(leaf, batch).value.out) == []
  {
    var column, p := batch.children[leaf.pathIdx[0]], PathOf(leaf);
    if leaf.col.extract.NullValues? {
      NullTypeRangeMarksNothing(p, 0, column, 0, batch.length, 0, 0, 0);
    } else if Ordered(column) {
      OrderedIncreases(p, column, batch.length);
    } else {
      ValidationSufficesIff(p);
    }
  }

  lemma {:induction false} CellsReadBack(leaf: LeafSpec, out: seq<Entry>, at: int -> Scalar, xs: seq<Datum<Scalar>>)
    requires LeafOk(leaf) && CellsOfRows(leaf, out, at, xs)
    ensures Rooted(ColumnOf(leaf).shape)
    ensures AssembleRows(ColumnOf(leaf).shape, Levels(Cells(out, at)), Dense(Cells(out, at))) == Some(xs)
  {
    AssembleShredRows(ShapeOf(StepsOf(leaf)), xs);
  }

  /** Whatever the mode and the codec, a leaf's chunk gives its rows back. */
  lemma {:induction false} LeafReadsBack(f: Foreign, codec: Codec, mode: Mode, leaf: LeafSpec, batch: ArrowArray, base: nat, file: bytes)
    requires Faithful(f) && LeafUsable(leaf, batch) && SpecOk(leaf.col)
    requires var w := WriteLeaf(f, codec, mode, leaf, batch, base); w.Status().OK? && Holds(file, base, w.Bytes())
    requires Accepts(leaf, batch) && Regular(leaf, batch)
    ensures ReadColumn(f, codec, ColumnOf(leaf), file, WriteLeaf(f, codec, mode, leaf, batch, base).written.meta.value)
      == Some(LeafRows(leaf, batch))
  {
    ColumnExists(leaf, batch);
    if leaf.hasList {
      ListLeafReadsBack(f, codec, mode, leaf, batch, base, file);
    } else {
      FlatLeafReadsBack(f, codec, mode, leaf, batch, base, file);
    }
  }

  lemma {:induction false} ListLeafReadsBack(f: Foreign, codec: Codec, mode: Mode, leaf: LeafSpec, batch: ArrowArray, base: nat, file: bytes)
    requires Faithful(f) && LeafUsable(leaf, batch) && SpecOk(leaf.col) && leaf.hasList && ListOut(leaf, batch).Some? && Regular(leaf, batch)
    requires var w := ListChunk(f, codec, mode, leaf, ListOut(leaf, batch).value, base); w.meta.Some? && Holds(file, base, w.bytes)
    ensures ReadColumn(f, codec, ColumnOf(leaf), file, ListChunk(f, codec, mode, leaf, ListOut(leaf, batch).value, base).meta.value)
      == Some(LeafRows(leaf, batch))
  {
    ListRegular(leaf, batch);
    ListCells(leaf, batch);
    AcceptedReadsBack(f, codec, mode, leaf, ListOut(leaf, batch).value, base, file, LeafRows(leaf, batch));
  }

  /** The shredder's cells are those of the leaf's rows. */
  lemma {:induction false} ListCells(leaf: LeafSpec, batch: ArrowArray)
    requires LeafUsable(leaf, batch) && leaf.hasList && Accepts(leaf, batch) && batch.offset == 0
    ensures var acc := ListOut(leaf, batch).value;
      CellsOfRows(leaf, acc.out, LeafValue(leaf.col, acc.leafArray), LeafRows(leaf, batch))
  {
    var acc := ListOut(leaf, batch).value;
    ColumnExists(leaf, batch);
    RangeIsShred(PathOf(leaf), 0, batch.children[leaf.pathIdx[0]], 0, batch.length, 0, 0, 0, LeafValue(leaf.col, acc.leafArray));
  }

  lemma {:induction false} AcceptedReadsBack(f: Foreign, codec: Codec, mode: Mode, leaf: LeafSpec, acc: Accepted, base: nat, file: bytes, xs: seq<Datum<Scalar>>)
    requires Faithful(f) && LeafOk(leaf) && leaf.hasList && SpecOk(leaf.col)
    requires LeafBacked(leaf.col, acc.leafArray) && Below(Positions(acc.out), acc.leafArray.length) && Increasing(Positions(acc.out))
    requires leaf.col.extract.NullValues? ==> Positions(acc.out) == []
    requires CellsOfRows(leaf, acc.out, LeafValue(leaf.col, acc.leafArray), xs)
    requires var w := ListChunk(f, codec, mode, leaf, acc, base); w.meta.Some? && Holds(file, base, w.bytes)
    ensures ReadColumn(f, codec, ColumnOf(leaf), file, ListChunk(f, codec, mode, leaf, acc, base).meta.value) == Some(xs)
  {
    var at := LeafValue(leaf.col, acc.leafArray);
    ListChunkReadsBack(f, codec, mode, leaf, acc, base, file, xs);
    ListChunkRecord(f, codec, mode, leaf, acc, base);
    ListChunkCounted(f, codec, mode, leaf, acc, base, file);
    CellsRead(f, codec, leaf, file, ListChunk(f, codec, mode, leaf, acc, base).meta.value, acc.out, at, xs);
  }

  /** A chunk that gives the cells back and whose record counts them reads as the rows. */
  lemma {:induction false} CellsRead(f: Foreign, codec: Codec, leaf: LeafSpec, file: bytes, m: ChunkMeta, out: seq<Entry>, at: int -> Scalar, xs: seq<Datum<Scalar>>)
    requires LeafOk(leaf) && CellsOfRows(leaf, out, at, xs)
    requires ReadChunk(f, codec, ColumnOf(leaf), file, m) == Some((Levels(Cells(out, at)), Dense(Cells(out, at))))
    requires m.path == leaf.pathNames && m.physical == leaf.col.physical && m.numValues == |out| && m.nullCount == |out| - |Positions(out)|
    requires PagesCounted(f, file, m, leaf.maxDef > 0)
    ensures ReadColumn(f, codec, ColumnOf(leaf), file, m) == Some(xs)
  {
    DenseAtPositions(out, at);
    CellsReadBack(leaf, out, at, xs);
  }

  lemma {:induction false} FlatLeafReadsBack(f: Foreign, codec: Codec, mode: Mode, leaf: LeafSpec, batch: ArrowArray, base: nat, file: bytes)
    requires Faithful(f) && LeafUsable(leaf, batch) && SpecOk(leaf.col) && !leaf.hasList && FlatNodes(leaf, batch).Some? && Regular(leaf, batch)
    requires var w := FlatChunk(f, codec, mode, leaf, FlatNodes(leaf, batch).value, base); w.meta.Some? && Holds(file, base, w.bytes)
    ensures ReadColumn(f, codec, ColumnOf(leaf), file, FlatChunk(f, codec, mode, leaf, FlatNodes(leaf, batch).value, base).meta.value)
      == Some(LeafRows(leaf, batch))
  {
    FlatCells(leaf, batch);
    NodesReadBack(f, codec, mode, leaf, FlatNodes(leaf, batch).value, batch.length, base, file, LeafRows(leaf, batch));
  }

  /** The fast path's cells are those of the leaf's rows. */
  lemma {:induction false} FlatCells(leaf: LeafSpec, batch: ArrowArray)
    requires LeafUsable(leaf, batch) && !leaf.hasList && Accepts(leaf, batch) && Regular(leaf, batch)
    ensures var nodes := FlatNodes(leaf, batch).value;
      CellsOfRows(leaf, FastOut(PathOf(leaf), nodes, batch.length), LeafValue(leaf.col, nodes[|nodes| - 1]), LeafRows(leaf, batch))
  {
    var nodes := FlatNodes(leaf, batch).value;
    FlatChain(leaf, batch);
    FastOutIsShred(PathOf(leaf), nodes, batch.length, LeafValue(leaf.col, nodes[|nodes| - 1]));
  }

  lemma {:induction false} NodesReadBack(f: Foreign, codec: Codec, mode: Mode, leaf: LeafSpec, nodes: seq<ArrowArray>, n: nat, base: nat, file: bytes,
      xs: seq<Datum<Scalar>>)
    requires Faithful(f) && LeafOk(leaf) && !leaf.hasList && SpecOk(leaf.col)
    requires |nodes| == |leaf.pathOptional| && LeafBacked(leaf.col, nodes[|nodes| - 1]) && Readable(nodes, leaf.pathOptional, n) && nodes[|nodes| - 1].length == n
    requires CellsOfRows(leaf, FastOut(PathOf(leaf), nodes, n), LeafValue(leaf.col, nodes[|nodes| - 1]), xs)
    requires var w := FlatChunk(f, codec, mode, leaf, nodes, base); w.meta.Some? && Holds(file, base, w.bytes)
    ensures ReadColumn(f, codec, ColumnOf(leaf), file, FlatChunk(f, codec, mode, leaf, nodes, base).meta.value) == Some(xs)
  {
    FlagsAre(leaf);
    var out, at, m := FastOut(PathOf(leaf), nodes, n), LeafValue(leaf.col, nodes[|nodes| - 1]), FlatChunk(f, codec, mode, leaf, nodes, base).meta.value;
    FlatChunkReadsBack(f, codec, mode, leaf, nodes, n, base, file, xs);
    FlatChunkRecord(f, codec, mode, leaf, nodes, n, base);
    FlatChunkCounted(f, codec, mode, leaf, nodes, base, file);
    CellsRead(f, codec, leaf, file, m, out, at, xs);
  }
}
