/**
 For any calls there are faithful encoders with which the close succeeds: what a run writes before the
 close does not depend on how the footer is encoded. So the results about closed files are about all runs.
 */
module UnaryRuns {
  import opened Bits
  import opened Arrow
  import opened Schema
  import opened PlainValues
  import opened Codecs
  import opened Values
  import opened Pages
  import opened Chunks
  import opened Writing
  import opened Runs
  import opened CodecChange
  import opened UnaryCodecs

  /** Encoders that differ in the footer's encoding at most. */
  ghost predicate SameButFooter(f: Foreign, g: Foreign) {
    g == f.(footer := g.footer, readFooter := g.readFooter)
  }

  lemma {:induction false} UnarySameButFooter(m: FileMeta, m': FileMeta)
    ensures SameButFooter(UnaryForeign(m), UnaryForeign(m'))
  {
  }

  lemma {:induction false} SamePages(f: Foreign, g: Foreign, codec: Codec, head: ChunkHead, v: ValuePages, prefix: bytes, base: nat)
    requires SameButFooter(f, g)
    ensures LeafPages(f, codec, head, v, prefix, base) == LeafPages(g, codec, head, v, prefix, base)
  {
  }

  lemma {:induction false} SameChunk(f: Foreign, g: Foreign, codec: Codec, mode: Mode, s: ColumnSpec, a: ArrowArray, validity: Option<bytes>,
      prefix: Option<bytes>, head: ChunkHead, base: nat)
    requires SameButFooter(f, g) && LeafBacked(s, a) && Covers(validity, a.length)
    ensures ChunkOf(f, codec, mode, s, a, validity, prefix, head, base) == ChunkOf(g, codec, mode, s, a, validity, prefix, head, base)
  {
    assert ValuesOf(f, mode, s, a, validity) == ValuesOf(g, mode, s, a, validity);
    if prefix.Some? && ValuesOf(f, mode, s, a, validity).Some? {
      SamePages(f, g, codec, head, ValuesOf(f, mode, s, a, validity).value, prefix.value, base);
    }
  }

  lemma {:induction false} SameLeaf(f: Foreign, g: Foreign, codec: Codec, mode: Mode, leaf: LeafSpec, batch: ArrowArray, base: nat)
    requires SameButFooter(f, g) && LeafUsable(leaf, batch)
    ensures WriteLeaf(f, codec, mode, leaf, batch, base) == WriteLeaf(g, codec, mode, leaf, batch, base)
  {
    if leaf.hasList {
      if ListOut(leaf, batch).Some? {
        var acc := ListOut(leaf, batch).value;
        var sh := ShreddedOf(acc);
        assert ListPrefix(f, leaf, sh.rep, sh.def) == ListPrefix(g, leaf, sh.rep, sh.def);
        SameChunk(f, g, codec, mode, leaf.col, acc.leafArray, ListValidity(acc), ListPrefix(f, leaf, sh.rep, sh.def),
          ListHead(leaf, |sh.def|, sh.presentCount), base);
      }
    } else if FlatNodes(leaf, batch).Some? {
      var nodes, n := FlatNodes(leaf, batch).value, batch.length;
      var rows := FlatRowsOf(leaf, nodes, n);
      assert FlatPrefix(f, leaf, rows.def, rows.present, n) == FlatPrefix(g, leaf, rows.def, rows.present, n);
      SameChunk(f, g, codec, mode, leaf.col, nodes[|nodes| - 1], FlatValidity(leaf, nodes, n), FlatPrefix(f, leaf, rows.def, rows.present, n),
        FlatHead(leaf, n, rows.presentCount), base);
    }
  }

  /** Writers that put the same bytes wherever they are put. */
  ghost predicate SameWriters(ws: seq<LeafWriter>, vs: seq<LeafWriter>) {
    |ws| == |vs| && forall i: nat, at: nat :: i < |ws| ==> ws[i](at) == vs[i](at)
  }

  lemma {:induction false} SameWriter(f: Foreign, g: Foreign, codec: Codec, mode: Mode, leaves: seq<LeafSpec>, batch: ArrowArray, i: nat, at: nat)
    requires SameButFooter(f, g) && i < |leaves|
    ensures LeafWriters(f, codec, mode, leaves, batch)[i](at) == LeafWriters(g, codec, mode, leaves, batch)[i](at)
  {
    LeafWritersAt(f, codec, mode, leaves, batch, i, leaves[i]);
    LeafWritersAt(g, codec, mode, leaves, batch, i, leaves[i]);
    if LeafUsable(leaves[i], batch) { SameLeaf(f, g, codec, mode, leaves[i], batch, at); }
  }

  lemma {:induction false} SameBytes(ws: seq<LeafWriter>, vs: seq<LeafWriter>, n: nat, base: nat)
    requires SameWriters(ws, vs) && n <= |ws|
    ensures WriteLeaves(ws, n, base) == WriteLeaves(vs, n, base)
  {
    if n > 0 { SameBytes(ws, vs, n - 1, base); }
  }

  lemma {:induction false} SameBatch(f: Foreign, g: Foreign, s: WriterState, schema: ArrowSchema, batch: ArrowArray)
    requires SameButFooter(f, g) && Usable(s, schema, batch) && LockSchema(s, schema, batch).Locks?
    ensures BatchMade(f, s, schema, batch) == BatchMade(g, s, schema, batch)
  {
    var leaves := LockSchema(s, schema, batch).s.leaves;
    var ws, vs := LeafWriters(f, s.codec, s.mode, leaves, batch), LeafWriters(g, s.codec, s.mode, leaves, batch);
    forall i: nat, at: nat | i < |ws| ensures ws[i](at) == vs[i](at) { SameWriter(f, g, s.codec, s.mode, leaves, batch, i, at); }
    SameBytes(ws, vs, |leaves|, s.offset);
  }

  /** Before the close, a run is the same under both. */
  lemma {:induction false} SameRun(f: Foreign, g: Foreign, ops: seq<Op>)
    requires SameButFooter(f, g) && AllAdmissible(f, ops)
    ensures AllAdmissible(g, ops) && Run(f, ops) == Run(g, ops)
  {
    if ops != [] {
      SameRun(f, g, ops[..|ops| - 1]);
      var h, op := Run(f, ops[..|ops| - 1]), ops[|ops| - 1];
      if op.WriteBatch? && LockSchema(h.s, op.schema, op.batch).Locks? { SameBatch(f, g, h.s, op.schema, op.batch); }
    }
  }

  // ---- encoders for a run ---------------------------------------------------------------------

  const NO_FOOTER: FileMeta := FooterOf(Opened(true))

  /** What any calls come to before the close, under the unary encoders. */
  ghost function UnaryRun(ops: seq<Op>): History
    requires AllAdmissible(UnaryForeign(NO_FOOTER), ops)
  {
    Run(UnaryForeign(NO_FOOTER), ops)
  }

  /** Whatever the calls were, they can be closed, with encoders that are faithful and change every body they compress. */
  lemma {:induction false} RunCloses(ops: seq<Op>) returns (f: Foreign)
    requires AllAdmissible(UnaryForeign(NO_FOOTER), ops)
    ensures Faithful(f) && Recodes(f) && AllAdmissible(f, ops) && Run(f, ops) == UnaryRun(ops) && Closed(f, Run(f, ops).s).status.OK?
  {
    var meta := FooterOf(UnaryRun(ops).s);
    f := UnaryForeign(meta);
    UnarySameButFooter(NO_FOOTER, meta);
    SameRun(UnaryForeign(NO_FOOTER), f, ops);
    UnaryIsFaithful(meta);
    UnaryRecodes(meta);
    UnaryCloses(meta, UnaryRun(ops).s);
  }

  lemma {:induction false} UnaryCloses(meta: FileMeta, s: WriterState)
    requires meta == FooterOf(s)
    ensures Closed(UnaryForeign(meta), s).status.OK?
  {
  }

  lemma {:induction false} UnaryRecodes(meta: FileMeta)
    ensures Recodes(UnaryForeign(meta))
  {
    var f := UnaryForeign(meta);
    forall b: bytes ensures f.zstd(b) != Some(b) && f.unzstd(b) != b {
      assert |[7] + b| == |b| + 1;
      if b != [] { assert |b[1..]| == |b| - 1; }
    }
  }
}
