/**
 Runs in the caller's terms: which schema a writer is locked by, which batches become row groups and
 under which settings, and what a writer that is not open answers.
 */
module Calls {
  import opened Bits
  import opened Arrow
  import opened Schema
  import opened Footer
  import opened SchemaReadback
  import opened Codecs
  import opened Chunks
  import opened Writing
  import opened Runs
  import opened Readback
  import opened FileReadback

  // ---- settings -------------------------------------------------------------------------------

  /** The last codec that was set, or ZSTD. */
  function LastCodec(ops: seq<Op>): Codec {
    if ops == [] then ZSTD else
    match ops[|ops| - 1]
    case SetCodec(Some(c)) => c
    case _ => LastCodec(ops[..|ops| - 1])
  }

  /** The last encoding mode that was set, or AUTO. */
  function LastMode(ops: seq<Op>): Mode {
    if ops == [] then AUTO else
    match ops[|ops| - 1]
    case SetEncoding(Some(m)) => m
    case _ => LastMode(ops[..|ops| - 1])
  }

  lemma {:induction false} SettingsAreLast(f: Foreign, ops: seq<Op>)
    requires AllAdmissible(f, ops)
    ensures Run(f, ops).s.codec == LastCodec(ops) && Run(f, ops).s.mode == LastMode(ops)
  {
    if ops != [] {
      var before, op := ops[..|ops| - 1], ops[|ops| - 1];
      SettingsAreLast(f, before);
      AdvanceSteps(f, Run(f, before), op);
    }
  }

  /** A value that is no codec, or no encoding, is refused and changes nothing. */
  lemma {:induction false} SettingVerdict(f: Foreign, s: WriterState, op: Op)
    requires Admissible(s, op) && !op.WriteBatch?
    ensures var o := Step(f, s, op);
      && (o.status == OK <==> if op.SetCodec? then op.codec.Some? else op.mode.Some?)
      && (o.status != OK ==> o.status == INVALID_ARGUMENT && o.s == s)
      && o.s == s.(codec := o.s.codec, mode := o.s.mode)
  {
  }

  // ---- the batches that became row groups -----------------------------------------------------

  /** A batch with the settings that it was sent under. */
  datatype Sent = Sent(batch: ArrowArray, codec: Codec, mode: Mode)

  /** The batches whose calls returned OK, in order. */
  ghost function AcceptedBatches(f: Foreign, ops: seq<Op>): seq<Sent>
    requires AllAdmissible(f, ops)
  {
    if ops == [] then [] else
      var before, op := ops[..|ops| - 1], ops[|ops| - 1];
      if op.WriteBatch? && Step(f, Run(f, before).s, op).status.OK? then
        AcceptedBatches(f, before) + [Sent(op.batch, LastCodec(before), LastMode(before))]
      else AcceptedBatches(f, before)
  }

  function SentOf(c: Commit): Sent { Sent(c.batch, c.codec, c.mode) }

  function AllSent(commits: seq<Commit>): seq<Sent> {
    seq(|commits|, i requires 0 <= i < |commits| => SentOf(commits[i]))
  }

  /** The row groups are the batches whose calls returned OK, each under the settings last made before it. */
  lemma {:induction false} CommitsAreAccepted(f: Foreign, ops: seq<Op>)
    requires AllAdmissible(f, ops)
    ensures AllSent(Run(f, ops).commits) == AcceptedBatches(f, ops)
  {
    if ops != [] {
      var before, op := ops[..|ops| - 1], ops[|ops| - 1];
      CommitsAreAccepted(f, before);
      SettingsAreLast(f, before);
      RunKeeps(f, before);
      AdvanceCommits(f, Run(f, before), op);
    }
  }

  /** A call that succeeds with a batch commits it, and no other call commits anything. */
  lemma {:induction false} AdvanceCommits(f: Foreign, h: History, op: Op)
    requires Admissible(h.s, op) && h.s.isOpen
    ensures AllSent(Advance(f, h, op).commits) ==
      AllSent(h.commits) + if op.WriteBatch? && Step(f, h.s, op).status.OK? then [Sent(op.batch, h.s.codec, h.s.mode)] else []
  {
    if op.WriteBatch? && LockSchema(h.s, op.schema, op.batch).Locks? { LockSame(h.s, op.schema, op.batch); }
  }

  // ---- the schema that locks ------------------------------------------------------------------

  /** How many columns the leaves below a field make. */
  function LeafCount(node: ArrowSchema): nat
    decreases node, |node.children| + 1
  {
    if node.format == "+s" then FieldCount(node, 0)
    else if node.format == "+l" || node.format == "+L" then if |node.children| == 1 then LeafCount(node.children[0]) else 0
    else if node.format == "+m" then
      if |node.children| == 1 && |node.children[0].children| == 2 then
        LeafCount(node.children[0].children[0]) + LeafCount(node.children[0].children[1])
      else 0
    else 1
  }

  function FieldCount(node: ArrowSchema, i: nat): nat
    requires i <= |node.children|
    decreases node, |node.children| - i
  {
    if i == |node.children| then 0 else LeafCount(node.children[i]) + FieldCount(node, i + 1)
  }

  lemma {:induction false} FlattenCounts(node: ArrowSchema, w: Where)
    requires Flatten(node, w).Some?
    ensures |Flatten(node, w).value.leaves| == LeafCount(node)
    decreases node, |node.children| + 1
  {
    if node.format == "+s" {
      FieldsCount(node, 0, w);
    } else if node.format == "+l" || node.format == "+L" {
      FlattenCounts(node.children[0], w.Element(node.children[0], node.format == "+L"));
    } else if node.format == "+m" {
      var entries := node.children[0];
      FlattenCounts(entries.children[0], w.KeyValue(0, entries.children[0]));
      FlattenCounts(entries.children[1], w.KeyValue(1, entries.children[1]));
    }
  }

  lemma {:induction false} FieldsCount(node: ArrowSchema, i: nat, w: Where)
    requires i <= |node.children| && FlattenFields(node, i, w).Some?
    ensures |FlattenFields(node, i, w).value.leaves| == FieldCount(node, i)
    decreases node, |node.children| - i
  {
    if i < |node.children| {
      FlattenCounts(node.children[i], w.Child(i, node.children[i]));
      FieldsCount(node, i + 1, w);
    }
  }

  lemma {:induction false} TopCounts(schema: ArrowSchema, i: nat)
    requires i <= |schema.children| && FlattenTop(schema, i).Some?
    ensures |FlattenTop(schema, i).value.leaves| == FieldCount(schema, i)
    decreases |schema.children| - i
  {
    if i < |schema.children| {
      FlattenCounts(schema.children[i], TopLevel(i, schema.children[i]));
      TopCounts(schema, i + 1);
    }
  }

  /** A struct of at least one column, and a batch with as many. */
  predicate Tabular(schema: ArrowSchema, batch: ArrowArray) {
    schema.format == "+s" && schema.children != [] && |batch.children| == |schema.children|
  }

  /** Types that are all supported, and at least one leaf. */
  ghost predicate HasColumns(schema: ArrowSchema) {
    AllSupported(schema.children, 0) && FieldCount(schema, 0) > 0
  }

  /** Before the first batch the types decide, afterwards the number of columns only. */
  lemma {:induction false} LockVerdict(s: WriterState, schema: ArrowSchema, batch: ArrowArray)
    ensures var lock := LockSchema(s, schema, batch);
      && (lock.Locks? <==> Tabular(schema, batch) && if s.locked then |schema.children| == s.topChildren else HasColumns(schema))
      && (lock == Refuses(UNSUPPORTED_TYPE) <==> Tabular(schema, batch) && !s.locked && !AllSupported(schema.children, 0))
      && (lock.Refuses? && lock.status != UNSUPPORTED_TYPE ==> lock.status == INVALID_ARGUMENT)
  {
    TopFlattensIff(schema, 0);
    if FlattenTop(schema, 0).Some? { TopCounts(schema, 0); }
  }

  /** Which of a batch's leaves the writer accepts. */
  ghost function AcceptedLeaves(leaves: seq<LeafSpec>, batch: ArrowArray): (oks: seq<bool>)
    requires LeavesUsable(leaves, batch)
    ensures |oks| == |leaves|
  {
    seq(|leaves|, i requires 0 <= i < |leaves| => Accepts(leaves[i], batch))
  }

  /** A leaf that is refused makes the arguments invalid; one that is accepted succeeds, unless an encoder fails. */
  predicate Answer(status: Status, accepted: bool, mayFail: bool) {
    if accepted then status == OK || (mayFail && status == IO_ERROR) else status == INVALID_ARGUMENT
  }

  ghost predicate Answers(ws: seq<LeafWriter>, oks: seq<bool>, mayFail: bool) {
    |ws| == |oks| && forall i, at: nat :: 0 <= i < |ws| ==> Answer(ws[i](at).Status(), oks[i], mayFail)
  }

  /** No encoder fails on a leaf that is accepted. */
  ghost predicate AllEncodable(f: Foreign, codec: Codec, mode: Mode, leaves: seq<LeafSpec>, batch: ArrowArray) {
    forall i, at: nat :: 0 <= i < |leaves| ==> Encodable(f, codec, mode, leaves[i], batch, at)
  }

  ghost predicate Encodable(f: Foreign, codec: Codec, mode: Mode, leaf: LeafSpec, batch: ArrowArray, at: nat) {
    LeafUsable(leaf, batch) && Accepts(leaf, batch) ==> WriteLeaf(f, codec, mode, leaf, batch, at).Status().OK?
  }

  lemma {:induction false} LeafAnswers(f: Foreign, codec: Codec, mode: Mode, leaf: LeafSpec, batch: ArrowArray, at: nat, mayFail: bool)
    requires LeafUsable(leaf, batch) && (mayFail || Encodable(f, codec, mode, leaf, batch, at))
    ensures Answer(LeafWriterOf(f, codec, mode, leaf, batch)(at).Status(), Accepts(leaf, batch), mayFail)
  {
  }

  lemma {:induction false} LeavesAnswer(f: Foreign, codec: Codec, mode: Mode, leaves: seq<LeafSpec>, batch: ArrowArray, mayFail: bool)
    requires LeavesUsable(leaves, batch) && (mayFail || AllEncodable(f, codec, mode, leaves, batch))
    ensures Answers(LeafWriters(f, codec, mode, leaves, batch), AcceptedLeaves(leaves, batch), mayFail)
  {
    var ws, oks := LeafWriters(f, codec, mode, leaves, batch), AcceptedLeaves(leaves, batch);
    forall i, at: nat | 0 <= i < |ws| ensures Answer(ws[i](at).Status(), oks[i], mayFail) {
      LeafWritersAt(f, codec, mode, leaves, batch, i, leaves[i]);
      LeafAnswers(f, codec, mode, leaves[i], batch, at, mayFail);
    }
  }

  lemma {:induction false} FirstFailureAnswers(ws: seq<LeafWriter>, oks: seq<bool>, mayFail: bool, n: nat, base: nat)
    requires Answers(ws, oks, mayFail) && n <= |ws|
    ensures var status := WriteLeaves(ws, n, base).status;
      if false in oks[..n] then status == INVALID_ARGUMENT || (mayFail && oks[0] && status == IO_ERROR) else Answer(status, true, mayFail)
  {
    if n > 0 {
      FirstFailureAnswers(ws, oks, mayFail, n - 1, base);
      assert oks[..n] == oks[..n - 1] + [oks[n - 1]];
      var at := base + |WriteLeaves(ws, n - 1, base).bytes|;
      assert Answer(ws[n - 1](at).Status(), oks[n - 1], mayFail);
    }
  }

  /** So a batch succeeds exactly if all its leaves are accepted, as far as the encoders do not fail. */
  lemma {:induction false} LeavesVerdict(f: Foreign, codec: Codec, mode: Mode, leaves: seq<LeafSpec>, batch: ArrowArray, base: nat, mayFail: bool)
    requires LeavesUsable(leaves, batch) && (mayFail || AllEncodable(f, codec, mode, leaves, batch))
    ensures var status := WriteLeaves(LeafWriters(f, codec, mode, leaves, batch), |leaves|, base).status;
      if forall i :: 0 <= i < |leaves| ==> Accepts(leaves[i], batch) then status == OK || (mayFail && status == IO_ERROR)
      else status == INVALID_ARGUMENT || (mayFail && status == IO_ERROR)
  {
    LeavesAnswer(f, codec, mode, leaves, batch, mayFail);
    AllAnswer(LeafWriters(f, codec, mode, leaves, batch), AcceptedLeaves(leaves, batch), mayFail, base);
    NoneRefused(leaves, batch);
  }

  lemma {:induction false} AllAnswer(ws: seq<LeafWriter>, oks: seq<bool>, mayFail: bool, base: nat)
    requires Answers(ws, oks, mayFail)
    ensures var status := WriteLeaves(ws, |ws|, base).status;
      if false in oks then status == INVALID_ARGUMENT || (mayFail && status == IO_ERROR) else status == OK || (mayFail && status == IO_ERROR)
  {
    FirstFailureAnswers(ws, oks, mayFail, |ws|, base);
    assert oks[..|ws|] == oks;
  }

  lemma {:induction false} NoneRefused(leaves: seq<LeafSpec>, batch: ArrowArray)
    requires LeavesUsable(leaves, batch)
    ensures false in AcceptedLeaves(leaves, batch) <==> !forall i :: 0 <= i < |leaves| ==> Accepts(leaves[i], batch)
  {
    var oks := AcceptedLeaves(leaves, batch);
    assert forall i :: 0 <= i < |leaves| ==> oks[i] == Accepts(leaves[i], batch);
  }

  /** The schema of the first call that brings one the writer can write. */
  ghost function FirstSchema(ops: seq<Op>): Option<ArrowSchema> {
    if ops == [] then None else
    match FirstSchema(ops[..|ops| - 1])
    case Some(schema) => Some(schema)
    case None =>
      var op := ops[|ops| - 1];
      if op.WriteBatch? && Tabular(op.schema, op.batch) && HasColumns(op.schema) then Some(op.schema) else None
  }

  lemma {:induction false} FirstSchemaLocks(f: Foreign, ops: seq<Op>)
    requires AllAdmissible(f, ops)
    ensures Run(f, ops).schema == FirstSchema(ops) && Run(f, ops).s.locked == FirstSchema(ops).Some?
  {
    if ops != [] {
      var before, op := ops[..|ops| - 1], ops[|ops| - 1];
      FirstSchemaLocks(f, before);
      RunKeeps(f, before);
      RunKeeps(f, ops);
      if op.WriteBatch? { LockVerdict(Run(f, before).s, op.schema, op.batch); }
    }
  }

  // ---- what a reader gets ---------------------------------------------------------------------

  /** The leaf columns that the calls settle on. */
  ghost function LeavesFor(ops: seq<Op>): seq<LeafSpec> {
    match FirstSchema(ops)
    case None => []
    case Some(schema) => if FlattenTop(schema, 0).Some? then FlattenTop(schema, 0).value.leaves else []
  }

  ghost function FieldsFor(ops: seq<Op>): seq<ArrowSchema> {
    match FirstSchema(ops)
    case None => []
    case Some(schema) => KeptFields(schema.children, 0)
  }

  ghost function SentTables(leaves: seq<LeafSpec>, sent: seq<Sent>): seq<Table> {
    seq(|sent|, i requires 0 <= i < |sent| => BatchRows(leaves, sent[i].batch))
  }

  /** Each batch was sent under the codec that the footer will name, and is one that the code reads rightly. */
  ghost predicate SentRightly(codec: Codec, leaves: seq<LeafSpec>, sent: seq<Sent>) {
    forall i :: 0 <= i < |sent| ==> OneSentRightly(codec, leaves, sent[i])
  }

  ghost predicate OneSentRightly(codec: Codec, leaves: seq<LeafSpec>, s: Sent) {
    s.codec == codec && BatchRegular(leaves, s.batch)
  }

  lemma {:induction false} CommitsAreSent(codec: Codec, leaves: seq<LeafSpec>, commits: seq<Commit>)
    requires SentRightly(codec, leaves, AllSent(commits))
    ensures AllRegular(codec, leaves, commits) && CommittedTables(leaves, commits) == SentTables(leaves, AllSent(commits))
  {
    if commits != [] {
      var init, last := commits[..|commits| - 1], commits[|commits| - 1];
      AllSentSnoc(init, last);
      assert init + [last] == commits;
      OneMoreSent(codec, leaves, AllSent(init), SentOf(last));
      CommitsAreSent(codec, leaves, init);
    }
  }

  lemma {:induction false} AllSentSnoc(init: seq<Commit>, last: Commit)
    ensures AllSent(init + [last]) == AllSent(init) + [SentOf(last)]
  {
  }

  lemma {:induction false} OneMoreSent(codec: Codec, leaves: seq<LeafSpec>, init: seq<Sent>, last: Sent)
    requires SentRightly(codec, leaves, init + [last])
    ensures SentRightly(codec, leaves, init) && OneSentRightly(codec, leaves, last)
    ensures SentTables(leaves, init + [last]) == SentTables(leaves, init) + [BatchRows(leaves, last.batch)]
  {
    SentSnoc(codec, leaves, init, last);
  }

  lemma {:induction false} SentSnoc(codec: Codec, leaves: seq<LeafSpec>, init: seq<Sent>, last: Sent)
    requires SentRightly(codec, leaves, init + [last])
    ensures SentRightly(codec, leaves, init) && OneSentRightly(codec, leaves, last)
  {
    var sent := init + [last];
    assert sent[|init|] == last;
    forall i | 0 <= i < |init| ensures OneSentRightly(codec, leaves, init[i]) { assert sent[i] == init[i]; }
  }

  lemma {:induction false} LeavesAreLocked(f: Foreign, ops: seq<Op>)
    requires AllAdmissible(f, ops)
    ensures Run(f, ops).s.leaves == LeavesFor(ops) && FieldsOf(Run(f, ops)) == FieldsFor(ops)
  {
    RunKeeps(f, ops);
    FirstSchemaLocks(f, ops);
  }

  /** The round trip in the caller's terms: a reader gets the first schema's fields and the rows of the batches that returned OK. */
  lemma {:induction false} CallsReadBack(f: Foreign, ops: seq<Op>)
    requires Faithful(f) && AllAdmissible(f, ops) && SentRightly(LastCodec(ops), LeavesFor(ops), AcceptedBatches(f, ops))
    requires Closed(f, Run(f, ops).s).status.OK?
    ensures ReadFile(f, Closed(f, Run(f, ops).s).s.file) == Some(Contents(FieldsFor(ops), SentTables(LeavesFor(ops), AcceptedBatches(f, ops))))
  {
    LeavesAreLocked(f, ops);
    SettingsAreLast(f, ops);
    CommitsAreAccepted(f, ops);
    CommitsAreSent(LastCodec(ops), LeavesFor(ops), Run(f, ops).commits);
    FileReadsBack(f, ops);
  }

  // ---- a writer that is not open --------------------------------------------------------------

  /** Closed, or never opened: batches are refused, closing again does nothing, and the file stays as it is. */
  lemma {:induction false} NotOpen(f: Foreign, s: WriterState, op: Op)
    requires Admissible(s, op) && !s.isOpen
    ensures var o := Step(f, s, op); o.s.file == s.file && o.s.rowGroups == s.rowGroups && !o.s.isOpen
    ensures op.WriteBatch? ==> Step(f, s, op) == Outcome(s, IO_ERROR)
    ensures Closed(f, s) == Outcome(s, OK)
  {
  }

  /** So after a close no call changes the file. */
  lemma {:induction false} ClosedStays(f: Foreign, s: WriterState, op: Op)
    requires Framed(s) && Admissible(Closed(f, s).s, op)
    ensures var c := Closed(f, s).s; Step(f, c, op).s.file == c.file && Closed(f, c) == Outcome(c, OK)
    ensures op.WriteBatch? ==> Step(f, Closed(f, s).s, op) == Outcome(Closed(f, s).s, IO_ERROR)
  {
    CloseLocatesFooter(f, s);
    NotOpen(f, Closed(f, s).s, op);
  }
}
