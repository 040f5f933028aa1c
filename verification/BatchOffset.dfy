/**
 The offset of the batch itself, which the writer never reads. Where the lengths of the arrays agree, a
 leaf outside lists makes it refuse a sliced batch; a leaf under a list is written from the first
 entry of its column on, whatever the batch's offset.
 */
module BatchOffset {
  import opened Bits
  import opened Arrow
  import opened Records
  import opened Shredding
  import opened Order
  import opened HiddenOffsets
  import opened Projection
  import opened Schema
  import opened Codecs
  import opened Slices
  import opened Chunks
  import opened Writing

  // ---- leaves outside lists -------------------------------------------------------------------

  lemma {:induction false} EveryLeafOk(ws: seq<LeafWriter>, n: nat, base: nat, i: nat) returns (at: nat)
    requires i < n <= |ws| && WriteLeaves(ws, n, base).status.OK?
    ensures ws[i](at).Status().OK?
  {
    var b, last, w := LeavesLast(ws, n, base);
    if i == n - 1 { at := last; } else { at := EveryLeafOk(ws, n - 1, base, i); }
  }

  /** Outside lists, arrays whose lengths agree with a sliced batch's are refused. */
  lemma {:induction false} SlicedLeafIsRefused(leaf: LeafSpec, batch: ArrowArray, nodes: seq<ArrowArray>)
    requires LeafUsable(leaf, batch) && !leaf.hasList && PathNodes(leaf.pathIdx, batch, |leaf.pathIdx|) == Some(nodes)
    requires LengthsAgree(nodes, batch.offset + batch.length) && batch.offset != 0
    ensures FlatNodes(leaf, batch) == None
  {
    if ValidChild(nodes[|nodes| - 1], leaf.col, batch.length) { AcceptedLeafIsUnsliced(leaf, batch, nodes); }
  }

  /** So a sliced batch with a leaf outside lists is never accepted, if the lengths agree along that leaf's path. */
  lemma {:induction false} SlicedBatchIsRefused(f: Foreign, s: WriterState, schema: ArrowSchema, batch: ArrowArray, i: nat, nodes: seq<ArrowArray>)
    requires Usable(s, schema, batch) && LockSchema(s, schema, batch).Locks?
    requires var leaves := LockSchema(s, schema, batch).s.leaves;
      i < |leaves| && !leaves[i].hasList && PathNodes(leaves[i].pathIdx, batch, |leaves[i].pathIdx|) == Some(nodes)
    requires LengthsAgree(nodes, batch.offset + batch.length) && batch.offset != 0
    ensures !Step(f, s, Op.WriteBatch(schema, batch)).status.OK?
  {
    var leaves := LockSchema(s, schema, batch).s.leaves;
    var ws := LeafWriters(f, s.codec, s.mode, leaves, batch);
    assert LeafUsable(leaves[i], batch);
    SlicedLeafIsRefused(leaves[i], batch, nodes);
    if WriteLeaves(ws, |leaves|, s.offset).status.OK? {
      var at := EveryLeafOk(ws, |leaves|, s.offset, i);
      LeafWritersAt(f, s.codec, s.mode, leaves, batch, i, leaves[i]);
    }
  }

  // ---- leaves under a list --------------------------------------------------------------------

  /** The entries emitted for the first `n` are those of the column's rows from `offset` on. */
  ghost predicate RowsRight(p: LeafPath, column: ArrowArray, offset: nat, n: nat)
    requires WellFormed(p) && Backed(column)
  {
    var sh, xs := ShapeOf(p.steps), ProjectRange(p, 0, column, offset, offset + n, Itself());
    (forall i :: 0 <= i < |xs| ==> Fits(sh, 0, xs[i])) && Cells(WalkRange(p, 0, column, 0, n, 0, 0, 0).out, Itself()) == ShredRows(sh, xs)
  }

  /** Whatever an accepted column holds, its rows come out right under a batch of this offset. */
  ghost predicate OffsetHarmless(p: LeafPath, offset: nat)
    requires WellFormed(p)
  {
    forall column, n: nat :: Backed(column) && offset + n <= column.length && WalkRange(p, 0, column, 0, n, 0, 0, 0).ok ==>
      RowsRight(p, column, offset, n)
  }

  /** `n` entries, of which only the first has an element in the first list below. */
  function FirstOnly(p: LeafPath, k: nat, n: nat): (a: ArrowArray)
    requires WellFormed(p) && k < |p.steps| && ListBelow(p.steps, k) && n > 0
    ensures Backed(a) && a.length == n && a.offset == 0 && a.nullCount == 0
    decreases |p.steps| - k
  {
    if p.steps[k].kind.Repeats() then StepNode(p, k, n, None, [0] + seq(n, _ => 1), Some(Untwisted(p, k + 1, 1)))
    else
      assert ListBelow(p.steps, k + 1);
      StepNode(p, k, n, None, seq(n + 1, i => i), Some(FirstOnly(p, k + 1, n)))
  }

  /** How far the definition level rises down to the first list, itself included if it is nullable. */
  function ToList(p: LeafPath, k: nat): nat
    requires k < |p.steps| && ListBelow(p.steps, k)
    decreases |p.steps| - k
  {
    var own := if p.steps[k].optional then 1 else 0;
    if p.steps[k].kind.Repeats() then own
    else
      assert ListBelow(p.steps, k + 1);
      own + ToList(p, k + 1)
  }

  /** The first entry goes down beyond the list. */
  lemma {:induction false} FirstStarts(p: LeafPath, k: nat, n: nat, r: nat, d: nat)
    requires WellFormed(p) && k < |p.steps| && ListBelow(p.steps, k) && n > 0
    ensures StartsAt(Walk(p, k, FirstOnly(p, k, n), 0, r, d), d + ToList(p, k) + 1)
    decreases |p.steps| - k
  {
    var st, a := p.steps[k], FirstOnly(p, k, n);
    var d' := if st.optional then d + 1 else d;
    if st.kind.Repeats() {
      var next := Untwisted(p, k + 1, 1);
      NodeNext(p, k, n, None, [0] + seq(n, _ => 1), next);
      UntwistedStarts(p, k + 1, 1, 0, r, d' + 1);
      OneElement(p, k, a, next, 0, 0, r, d);
    } else {
      assert ListBelow(p.steps, k + 1);
      NodeNext(p, k, n, None, seq(n + 1, i => i), FirstOnly(p, k + 1, n));
      FirstStarts(p, k + 1, n, r, d');
    }
  }

  /** Every other entry is an empty list there. */
  lemma {:induction false} OthersStop(p: LeafPath, k: nat, n: nat, e: nat, r: nat, d: nat)
    requires WellFormed(p) && k < |p.steps| && ListBelow(p.steps, k) && 0 < e < n
    ensures Walk(p, k, FirstOnly(p, k, n), e, r, d) == Walked(true, [Entry(r, d + ToList(p, k), None)])
    decreases |p.steps| - k
  {
    var st, a := p.steps[k], FirstOnly(p, k, n);
    if st.kind.Repeats() {
      NodeNext(p, k, n, None, [0] + seq(n, _ => 1), Untwisted(p, k + 1, 1));
      assert a.offsets.value[e] == 1 && a.offsets.value[e + 1] == 1;
    } else {
      assert ListBelow(p.steps, k + 1);
      NodeNext(p, k, n, None, seq(n + 1, i => i), FirstOnly(p, k + 1, n));
      OthersStop(p, k + 1, n, e, r, if st.optional then d + 1 else d);
    }
  }

  lemma {:induction false} OffsetHarms(p: LeafPath, offset: nat)
    requires WellFormed(p) && ListBelow(p.steps, 0) && offset > 0
    ensures var column := FirstOnly(p, 0, offset + 1);
      offset + 1 <= column.length && WalkRange(p, 0, column, 0, 1, 0, 0, 0).ok && !RowsRight(p, column, offset, 1)
  {
    var column, sh := FirstOnly(p, 0, offset + 1), ShapeOf(p.steps);
    FirstStarts(p, 0, offset + 1, 0, 0);
    OthersStop(p, 0, offset + 1, offset, 0, 0);
    var first := Walk(p, 0, column, 0, 0, 0);
    SingleRow(p, column, 0);
    WalkIsShred(p, 0, column, offset, 0, 0, Itself());
    var x := Project(p, 0, column, offset, Itself());
    ShredOne(sh, x);
    assert ProjectRange(p, 0, column, offset, offset + 1, Itself()) == [x];
    assert Cells(first.out, Itself())[0].level.def > Shred(sh, 0, x, 0, 0)[0].level.def;
  }

  lemma {:induction false} SingleRow(p: LeafPath, column: ArrowArray, e: nat)
    requires WellFormed(p) && Backed(column) && Walk(p, 0, column, e, 0, 0).ok
    ensures WalkRange(p, 0, column, e, e + 1, 0, 0, 0) == Walk(p, 0, column, e, 0, 0)
  {
    assert WalkRange(p, 0, column, e + 1, e + 1, 0, 0, 0) == Walked(true, []);
    assert Walk(p, 0, column, e, 0, 0).out + [] == Walk(p, 0, column, e, 0, 0).out;
  }

  lemma {:induction false} ShredOne<V>(sh: Shape, x: Datum<V>)
    requires Rooted(sh) && Fits(sh, 0, x)
    ensures ShredRows(sh, [x]) == Shred(sh, 0, x, 0, 0)
  {
    var none: seq<Datum<V>> := [];
    assert [x][0] == x && [x][1..] == none;
    assert ShredItems(sh, 0, none, 0, 0, 0) == [];
    assert ShredItems(sh, 0, [x], 0, 0, 0) == Shred(sh, 0, x, 0, 0) + ShredItems(sh, 0, none, 0, 0, 0);
  }

  /** Under a list the rows are right for all data exactly if the batch is not sliced. */
  lemma {:induction false} OffsetHarmlessIff(p: LeafPath, offset: nat)
    requires WellFormed(p) && ListBelow(p.steps, 0)
    ensures OffsetHarmless(p, offset) <==> offset == 0
  {
    if offset == 0 {
      forall column, n: nat | Backed(column) && n <= column.length && WalkRange(p, 0, column, 0, n, 0, 0, 0).ok ensures RowsRight(p, column, 0, n) {
        RangeIsShred(p, 0, column, 0, n, 0, 0, 0, Itself());
      }
    } else {
      OffsetHarms(p, offset);
      assert !RowsRight(p, FirstOnly(p, 0, offset + 1), offset, 1);
    }
  }
}
