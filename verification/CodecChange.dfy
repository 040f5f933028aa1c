/**
 The codec of a file. A chunk is compressed under the codec of its time, and the footer names the codec
 of the close for all of them.
 */
module CodecChange {
  import opened Bits
  import opened Arrow
  import opened Schema
  import opened Codecs
  import opened Values
  import opened Pages
  import opened Chunks
  import opened Writing
  import opened Runs

  /** No body stays as it is, compressed or decompressed. */
  ghost predicate Recodes(f: Foreign) {
    forall b: bytes :: f.zstd(b) != Some(b) && f.unzstd(b) != b
  }

  /** A page that was written under a codec lies at the offset. */
  ghost predicate HoldsPage(f: Foreign, codec: Codec, file: bytes, at: nat) {
    exists dict, n, encoding, body :: IsPage(f, codec, dict, n, encoding, body, file, at)
  }

  ghost predicate IsPage(f: Foreign, codec: Codec, dict: bool, n: nat, encoding: Encoding, body: bytes, file: bytes, at: nat) {
    var p := EncodePage(f, codec, dict, n, encoding, body);
    p.Some? && Holds(file, at, p.value.Bytes())
  }

  /** Read under the one codec, the page is what it is under the other. */
  predicate PageSurvives(f: Foreign, written: Codec, read: Codec, file: bytes, at: nat) {
    ReadPage(f, written, file, at).Some? && ReadPage(f, read, file, at) == ReadPage(f, written, file, at)
  }

  predicate ChunkSurvives(f: Foreign, written: Codec, read: Codec, file: bytes, m: ChunkMeta) {
    && PageSurvives(f, written, read, file, m.dataPageOffset)
    && (m.dictionaryPageOffset.Some? ==> PageSurvives(f, written, read, file, m.dictionaryPageOffset.value))
  }

  lemma {:induction false} PageSurvivesIff(f: Foreign, written: Codec, read: Codec, file: bytes, at: nat)
    requires FaithfulPages(f) && Recodes(f) && HoldsPage(f, written, file, at)
    ensures PageSurvives(f, written, read, file, at) <==> written == read
  {
    var dict, n, encoding, body :| IsPage(f, written, dict, n, encoding, body, file, at);
    PageReadsBack(f, written, dict, n, encoding, body, file, at);
    if written != read { WrongCodecPage(f, written, read, dict, n, encoding, body, file, at); }
  }

  /** Where a chunk's pages lie. */
  lemma {:induction false} ChunkHoldsPages(f: Foreign, codec: Codec, head: ChunkHead, v: ValuePages, prefix: bytes, base: nat, file: bytes)
    requires LeafPages(f, codec, head, v, prefix, base).meta.Some? && Holds(file, base, LeafPages(f, codec, head, v, prefix, base).bytes)
    ensures var m := LeafPages(f, codec, head, v, prefix, base).meta.value;
      && HoldsPage(f, codec, file, m.dataPageOffset)
      && (m.dictionaryPageOffset.Some? ==> HoldsPage(f, codec, file, m.dictionaryPageOffset.value))
  {
    if v.dict.Some? {
      var dict, data := DictLayout(f, codec, head, v, prefix, base);
      HoldsParts(file, base, dict.Bytes(), data.Bytes());
      assert IsPage(f, codec, true, v.dict.value.0, PLAIN, v.dict.value.1, file, base);
      assert IsPage(f, codec, false, head.numValues, v.encoding, prefix + v.body, file, base + dict.OnDisk());
    } else {
      assert IsPage(f, codec, false, head.numValues, v.encoding, prefix + v.body, file, base);
    }
  }

  lemma {:induction false} ChunkOfHoldsPages(f: Foreign, codec: Codec, mode: Mode, leaf: LeafSpec, batch: ArrowArray, base: nat, file: bytes)
    requires LeafUsable(leaf, batch)
    requires var w := WriteLeaf(f, codec, mode, leaf, batch, base); w.Status().OK? && Holds(file, base, w.Bytes())
    ensures var m := WriteLeaf(f, codec, mode, leaf, batch, base).written.meta.value;
      && HoldsPage(f, codec, file, m.dataPageOffset)
      && (m.dictionaryPageOffset.Some? ==> HoldsPage(f, codec, file, m.dictionaryPageOffset.value))
  {
    var head, v, prefix := LeafPagesOf(f, codec, mode, leaf, batch, base);
    ChunkHoldsPages(f, codec, head, v, prefix, base, file);
  }

  /** A leaf that was written is some pages. */
  lemma {:induction false} LeafPagesOf(f: Foreign, codec: Codec, mode: Mode, leaf: LeafSpec, batch: ArrowArray, base: nat)
    returns (head: ChunkHead, v: ValuePages, prefix: bytes)
    requires LeafUsable(leaf, batch) && WriteLeaf(f, codec, mode, leaf, batch, base).Status().OK?
    ensures WriteLeaf(f, codec, mode, leaf, batch, base).written == LeafPages(f, codec, head, v, prefix, base)
  {
    if leaf.hasList {
      var acc := ListOut(leaf, batch).value;
      var sh := ShreddedOf(acc);
      head, prefix := ListHead(leaf, |sh.def|, sh.presentCount), ListPrefix(f, leaf, sh.rep, sh.def).value;
      v := ValuesOf(f, mode, leaf.col, acc.leafArray, ListValidity(acc)).value;
    } else {
      var nodes, n := FlatNodes(leaf, batch).value, batch.length;
      var rows := FlatRowsOf(leaf, nodes, n);
      head, prefix := FlatHead(leaf, n, rows.presentCount), FlatPrefix(f, leaf, rows.def, rows.present, n).value;
      v := ValuesOf(f, mode, leaf.col, nodes[|nodes| - 1], FlatValidity(leaf, nodes, n)).value;
    }
  }

  // ---- runs -----------------------------------------------------------------------------------

  /** Every page of the row group reads back under the codec. */
  predicate GroupSurvives(f: Foreign, written: Codec, read: Codec, file: bytes, rg: RowGroupMeta) {
    forall j :: 0 <= j < |rg.columns| ==> ChunkSurvives(f, written, read, file, rg.columns[j])
  }

  lemma {:induction false} ColumnSurvivesIff(f: Foreign, leaves: seq<LeafSpec>, c: Commit, rg: RowGroupMeta, file: bytes, read: Codec, j: nat)
    requires FaithfulPages(f) && Recodes(f) && GenuineOne(f, leaves, c) && RecordedOne(file, rg, c) && j < |leaves|
    ensures |rg.columns| == |leaves| && (ChunkSurvives(f, c.codec, read, file, rg.columns[j]) <==> c.codec == read)
  {
    CommitChunkRange(f, leaves, c, rg, file, j);
    var m := rg.columns[j];
    WrittenChunkSurvivesIff(f, c.codec, c.mode, leaves[j], c.batch, ChunkStart(m), file, read, m);
  }

  lemma {:induction false} WrittenChunkSurvivesIff(f: Foreign, codec: Codec, mode: Mode, leaf: LeafSpec, batch: ArrowArray, base: nat,
      file: bytes, read: Codec, m: ChunkMeta)
    requires FaithfulPages(f) && Recodes(f) && LeafUsable(leaf, batch)
    requires var w := WriteLeaf(f, codec, mode, leaf, batch, base);
      w.Status().OK? && w.written.meta == Some(m) && ChunkEnd(m) <= |file| && ChunkStart(m) == base && file[base..ChunkEnd(m)] == w.Bytes()
    ensures ChunkSurvives(f, codec, read, file, m) <==> codec == read
  {
    ChunkOfHoldsPages(f, codec, mode, leaf, batch, base, file);
    ChunkSurvivesIff(f, codec, read, file, m);
  }

  lemma {:induction false} ChunkSurvivesIff(f: Foreign, codec: Codec, read: Codec, file: bytes, m: ChunkMeta)
    requires FaithfulPages(f) && Recodes(f) && HoldsPage(f, codec, file, m.dataPageOffset)
    requires m.dictionaryPageOffset.Some? ==> HoldsPage(f, codec, file, m.dictionaryPageOffset.value)
    ensures ChunkSurvives(f, codec, read, file, m) <==> codec == read
  {
    PageSurvivesIff(f, codec, read, file, m.dataPageOffset);
    if m.dictionaryPageOffset.Some? { PageSurvivesIff(f, codec, read, file, m.dictionaryPageOffset.value); }
  }

  lemma {:induction false} GroupSurvivesIff(f: Foreign, leaves: seq<LeafSpec>, c: Commit, rg: RowGroupMeta, file: bytes, read: Codec)
    requires FaithfulPages(f) && Recodes(f) && GenuineOne(f, leaves, c) && RecordedOne(file, rg, c) && leaves != []
    ensures GroupSurvives(f, c.codec, read, file, rg) <==> c.codec == read
  {
    forall j | 0 <= j < |leaves|
      ensures |rg.columns| == |leaves| && (ChunkSurvives(f, c.codec, read, file, rg.columns[j]) <==> c.codec == read)
    {
      ColumnSurvivesIff(f, leaves, c, rg, file, read, j);
    }
    assert ChunkSurvives(f, c.codec, read, file, rg.columns[0]) <==> c.codec == read;
  }

  ghost predicate AllSurvive(f: Foreign, read: Codec, file: bytes, rgs: seq<RowGroupMeta>, commits: seq<Commit>)
    requires |rgs| == |commits|
  {
    forall i :: 0 <= i < |commits| ==> GroupSurvives(f, commits[i].codec, read, file, rgs[i])
  }

  ghost predicate AllUnder(codec: Codec, commits: seq<Commit>) {
    forall i :: 0 <= i < |commits| ==> commits[i].codec == codec
  }

  /**
   After any calls, with a compression that changes every body: all pages of all row groups read back
   under the codec that the footer names exactly if every batch was written under that codec.
   */
  lemma {:induction false} FooterCodecIff(f: Foreign, ops: seq<Op>)
    requires FaithfulPages(f) && Recodes(f) && AllAdmissible(f, ops) && Closed(f, Run(f, ops).s).status.OK?
    ensures var h, file := Run(f, ops), Closed(f, Run(f, ops).s).s.file;
      && FooterOf(h.s).codec == h.s.codec && |h.s.rowGroups| == |h.commits|
      && (AllSurvive(f, h.s.codec, file, h.s.rowGroups, h.commits) <==> AllUnder(h.s.codec, h.commits))
  {
    RunKeeps(f, ops);
    HistorySurvivesIff(f, Run(f, ops));
  }

  lemma {:induction false} HistorySurvivesIff(f: Foreign, h: History)
    requires FaithfulPages(f) && Recodes(f) && Inv(f, h) && Closed(f, h.s).status.OK?
    ensures |h.s.rowGroups| == |h.commits|
    ensures AllSurvive(f, h.s.codec, Closed(f, h.s).s.file, h.s.rowGroups, h.commits) <==> AllUnder(h.s.codec, h.commits)
  {
    var file := Closed(f, h.s).s.file;
    RecordedOnwards(h.s.file, Trailer(f, h.s).value, h.s.rowGroups, h.commits);
    forall i | 0 <= i < |h.commits|
      ensures GroupSurvives(f, h.commits[i].codec, h.s.codec, file, h.s.rowGroups[i]) <==> h.commits[i].codec == h.s.codec
    {
      CommitAt(f, h.s.leaves, file, h.s.rowGroups, h.commits, i);
      GroupSurvivesIff(f, h.s.leaves, h.commits[i], h.s.rowGroups[i], file, h.s.codec);
    }
  }
}
