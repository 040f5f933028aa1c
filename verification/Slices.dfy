/**
 Sliced arrays outside lists. The fast path checks the leaf array's offset alone and reads row `e` of
 every array on the path at position `e`. By the Arrow format the offsets along the path add up, so a
 sliced group shifts the values below it and its own nulls. On paths without groups that cannot
 happen; on every other path whose groups or values show in the levels, it does.
 */
module Slices {
  import opened Bits
  import opened Arrow
  import opened Records
  import opened Shredding
  import opened Projection
  import opened Schema
  import opened Footer
  import opened FastPath
  import opened Chunks

  /** What lies inside a row's records, if none of them is null. */
  function Innermost<V>(x: Datum<V>): Option<V> {
    match x
    case Record(y) => Innermost(y)
    case Value(v) => Some(v)
    case _ => None
  }

  /** A value's position stands for the value. */
  function Itself(): int -> int { (q: int) => q }

  function OffsetsFrom(nodes: seq<ArrowArray>, k: nat): int
    requires k <= |nodes|
    decreases |nodes| - k
  {
    if k == |nodes| then 0 else nodes[k].offset + OffsetsFrom(nodes, k + 1)
  }

  /** By the Arrow format, the offsets along the path add up. */
  lemma {:induction false} SliceShifts(p: LeafPath, nodes: seq<ArrowArray>, e: int, k: nat)
    requires WellFormed(p) && Chain(p, nodes) && k < |nodes|
    ensures var x := Innermost(Project(p, k, nodes[k], e, Itself()));
      x.Some? ==> x.value == e + OffsetsFrom(nodes, k)
    decreases |nodes| - k
  {
    if k + 1 < |nodes| {
      assert Next(p.steps[k], nodes[k]) == Some(nodes[k + 1]);
      SliceShifts(p, nodes, nodes[k].offset + e, k + 1);
    }
  }

  lemma {:induction false} OffsetsVanish(nodes: seq<ArrowArray>, k: nat)
    requires k <= |nodes| && forall j :: 0 <= j < |nodes| ==> nodes[j].offset >= 0
    ensures OffsetsFrom(nodes, k) >= 0
    ensures OffsetsFrom(nodes, k) == 0 <==> forall j :: k <= j < |nodes| ==> nodes[j].offset == 0
    decreases |nodes| - k
  {
    if k < |nodes| { OffsetsVanish(nodes, k + 1); }
  }

  /** For a row that has a value, the position read is the right one exactly if no array on the path is sliced. */
  lemma {:induction false} SlicesMisplaceValues(p: LeafPath, nodes: seq<ArrowArray>, e: int)
    requires WellFormed(p) && Chain(p, nodes)
    requires Innermost(Project(p, 0, nodes[0], e, Itself())).Some?
    ensures Innermost(Project(p, 0, nodes[0], e, Itself())) == Some(e) <==> forall j :: 0 <= j < |nodes| ==> nodes[j].offset == 0
  {
    SliceShifts(p, nodes, e, 0);
    assert forall j :: 0 <= j < |nodes| ==> Backed(nodes[j]);
    OffsetsVanish(nodes, 0);
  }

  // ---- arrays as long as the format asks ------------------------------------------------------

  /** What the Arrow format asks of lengths: a column, or a child, has all that its parent's slice spans. */
  ghost predicate LengthsAgree(nodes: seq<ArrowArray>, end: int) {
    && (nodes != [] ==> end <= nodes[0].length)
    && forall k :: 0 <= k < |nodes| - 1 ==> nodes[k].offset + nodes[k].length <= nodes[k + 1].length
  }

  lemma {:induction false} LengthsShrink(nodes: seq<ArrowArray>, end: int, n: int, k: nat)
    requires LengthsAgree(nodes, end) && k < |nodes| && (forall j :: 0 <= j < |nodes| ==> nodes[j].offset >= 0)
    requires nodes[|nodes| - 1].length == n
    ensures nodes[k].length <= n
    decreases |nodes| - k
  {
    if k + 1 < |nodes| { LengthsShrink(nodes, end, n, k + 1); }
  }

  lemma {:induction false} LengthsGrow(nodes: seq<ArrowArray>, end: int, k: nat)
    requires LengthsAgree(nodes, end) && k < |nodes| && forall j :: 0 <= j < |nodes| ==> nodes[j].offset >= 0
    ensures end <= nodes[k].length
  {
    if k > 0 { LengthsGrow(nodes, end, k - 1); }
  }

  /**
   Of such arrays, those whose leaf is as long as the batch and not sliced are not sliced anywhere, nor
   is the batch itself: no group is shorter than the batch, and every bitmap covers it. So sliced
   groups are refused after all.
   */
  lemma {:induction false} AcceptedIsUnsliced(nodes: seq<ArrowArray>, opt: seq<bool>, offset: int, n: int)
    requires nodes != [] && |nodes| == |opt| && LengthsAgree(nodes, offset + n) && offset >= 0 && n >= 0 && forall j :: 0 <= j < |nodes| ==> Backed(nodes[j])
    requires nodes[|nodes| - 1].length == n && nodes[|nodes| - 1].offset == 0
    ensures offset == 0 && Unsliced(nodes, n) && LongEnough(nodes, opt, n) && Readable(nodes, opt, n)
  {
    assert forall j :: 0 <= j < |nodes| ==> Backed(nodes[j]) && nodes[j].offset >= 0;
    forall k | 0 <= k < |nodes| ensures nodes[k].length == n && nodes[k].offset == 0 {
      LengthsShrink(nodes, offset + n, n, k);
      LengthsGrow(nodes, offset + n, k);
      if k + 1 < |nodes| { LengthsShrink(nodes, offset + n, n, k + 1); }
    }
    LengthsShrink(nodes, offset + n, n, 0);
    LongEnoughIsReadable(nodes, opt, n);
  }

  /** For a leaf of a batch: what the writer accepts of arrays of proper lengths, it reads without slices and within their bitmaps. */
  lemma {:induction false} AcceptedLeafIsUnsliced(leaf: LeafSpec, batch: ArrowArray, nodes: seq<ArrowArray>)
    requires LeafOk(leaf) && !leaf.hasList && Backed(batch) && PathNodes(leaf.pathIdx, batch, |leaf.pathIdx|) == Some(nodes)
    requires LengthsAgree(nodes, batch.offset + batch.length) && ValidChild(nodes[|nodes| - 1], leaf.col, batch.length)
    ensures batch.offset == 0 && Unsliced(nodes, batch.length) && Readable(nodes, leaf.pathOptional, batch.length)
  {
    NodesAreBacked(leaf.pathIdx, batch, |leaf.pathIdx|);
    AcceptedIsUnsliced(nodes, leaf.pathOptional, batch.offset, batch.length);
  }

  lemma {:induction false} NodesAreBacked(idx: seq<nat>, batch: ArrowArray, n: nat)
    requires Backed(batch) && n <= |idx| && PathNodes(idx, batch, n).Some?
    ensures forall k :: 0 <= k < n ==> Backed(PathNodes(idx, batch, n).value[k])
  {
    if n > 0 {
      NodesAreBacked(idx, batch, n - 1);
      if n > 1 { assert Backed(PathNodes(idx, batch, n - 1).value[n - 2]); }
    }
  }

  // ---- whole rows -----------------------------------------------------------------------------

  /** By the Arrow format, the row exists in every array from node `k` on. */
  predicate RowInside(nodes: seq<ArrowArray>, k: nat, e: int)
    requires k <= |nodes|
    decreases |nodes| - k
  {
    k == |nodes| || (0 <= e < nodes[k].length && RowInside(nodes, k + 1, nodes[k].offset + e))
  }

  /** Arrays that the fast path accepts and a row of them: the leaf is not sliced, and the null counts are honest. */
  ghost predicate AcceptedRow(p: LeafPath, nodes: seq<ArrowArray>, e: nat) {
    && Chain(p, nodes) && Readable(nodes, OptionalFlags(p.steps), e + 1)
    && nodes[|nodes| - 1].offset == 0 && e < nodes[|nodes| - 1].length
    && RowInside(nodes, 0, e) && HonestCounts(p, nodes, e, 0)
  }

  /** The fast path's level and position are those of the row's meaning. */
  ghost predicate SameRow(p: LeafPath, nodes: seq<ArrowArray>, e: nat)
    requires WellFormed(p) && AcceptedRow(p, nodes, e)
  {
    var sh, x := ShapeOf(p.steps), Project(p, 0, nodes[0], e, Itself());
    Fits(sh, 0, x) && Shred(sh, 0, x, 0, 0) == [CellOf(RowEntry(p, nodes, e, 0, 0), Itself())]
  }

  /** Whatever is sliced above the leaf, every row comes out right. */
  ghost predicate SlicesHarmless(p: LeafPath)
    requires WellFormed(p)
  {
    forall nodes, e: nat :: AcceptedRow(p, nodes, e) ==> SameRow(p, nodes, e)
  }

  /** A leaf without groups around it, or one that never has a value and no group around it that can be null. */
  predicate NothingToShift(p: LeafPath) {
    |p.steps| == 1 || (p.nullType && forall k :: 0 <= k < |p.steps| - 1 ==> !p.steps[k].optional)
  }

  lemma {:induction false} NullRowsAgree(p: LeafPath, nodes: seq<ArrowArray>, e: int, i: nat, k: nat, d: nat)
    requires WellFormed(p) && Chain(p, nodes) && k < |nodes| && Readable(nodes, OptionalFlags(p.steps), i + 1)
    requires p.nullType && forall j :: 0 <= j < |p.steps| - 1 ==> !p.steps[j].optional
    requires RowInside(nodes, k, e)
    ensures var sh, x := ShapeOf(p.steps), Project(p, k, nodes[k], e, Itself());
      Fits(sh, k, x) && Shred(sh, k, x, 0, d) == [CellOf(RowEntry(p, nodes, i, k, d), Itself())]
    decreases |nodes| - k
  {
    assert ShapeOf(p.steps)[k].nesting.Leaf? <==> k == |nodes| - 1;
    if k + 1 < |nodes| {
      assert Next(p.steps[k], nodes[k]) == Some(nodes[k + 1]);
      NullRowsAgree(p, nodes, nodes[k].offset + e, i, k + 1, d);
    }
  }

  // ---- arrays that show the shift -------------------------------------------------------------

  /** A path without lists. */
  ghost predicate ListFree(p: LeafPath) {
    forall k :: 0 <= k < |p.steps| ==> !p.steps[k].kind.Repeats()
  }

  /** Two rows in every array on the path; the group at step `g` is a slice of one row that starts at the second. */
  function SlicedAt(p: LeafPath, k: nat, g: nat, bm: Option<bytes>): (a: ArrowArray)
    requires k < |p.steps| && g + 1 < |p.steps| && Covers(bm, 2)
    ensures Backed(a)
    decreases |p.steps| - k
  {
    if k + 1 == |p.steps| then ArrowArray(2, 0, 0, 2, None, None, [], [])
    else
      var below := seq(p.steps[k].child + 1, _ => SlicedAt(p, k + 1, g, bm));
      if k == g then ArrowArray(1, if bm.Some? then 1 else 0, 1, 1, bm, None, [], below)
      else ArrowArray(2, 0, 0, 1, None, None, [], below)
  }

  function SlicedNodes(p: LeafPath, g: nat, bm: Option<bytes>): (nodes: seq<ArrowArray>)
    requires g + 1 < |p.steps| && Covers(bm, 2)
    ensures |nodes| == |p.steps| && forall k :: 0 <= k < |nodes| ==> nodes[k] == SlicedAt(p, k, g, bm)
  {
    seq(|p.steps|, k requires 0 <= k < |p.steps| => SlicedAt(p, k, g, bm))
  }

  lemma {:induction false} SlicedChain(p: LeafPath, g: nat, bm: Option<bytes>)
    requires WellFormed(p) && ListFree(p) && g + 1 < |p.steps| && Covers(bm, 2)
    ensures Chain(p, SlicedNodes(p, g, bm)) && Readable(SlicedNodes(p, g, bm), OptionalFlags(p.steps), 1)
  {
    var nodes := SlicedNodes(p, g, bm);
    forall k | 0 <= k < |nodes| - 1 ensures Next(p.steps[k], nodes[k]) == Some(nodes[k + 1]) {
      assert !ShapeOf(p.steps)[k].nesting.Leaf?;
    }
    assert ShapeOf(p.steps)[|p.steps| - 1].nesting.Leaf?;
  }

  /** Row 0 exists everywhere: in the slice and below it, it is the second row. */
  lemma {:induction false} SlicedInside(p: LeafPath, g: nat, bm: Option<bytes>, k: nat)
    requires g + 1 < |p.steps| && Covers(bm, 2) && k <= |p.steps|
    ensures RowInside(SlicedNodes(p, g, bm), k, if k <= g then 0 else 1)
    decreases |p.steps| - k
  {
    if k < |p.steps| { SlicedInside(p, g, bm, k + 1); }
  }

  /** In the fast path's eyes, row 0 is present in every group. */
  lemma {:induction false} SlicedHonest(p: LeafPath, g: nat, bm: Option<bytes>, k: nat)
    requires WellFormed(p) && g + 1 < |p.steps| && Covers(bm, 2) && ValidBit(bm, 0) && k <= |p.steps|
    requires Readable(SlicedNodes(p, g, bm), OptionalFlags(p.steps), 1)
    ensures HonestCounts(p, SlicedNodes(p, g, bm), 0, k)
    decreases |p.steps| - k
  {
    if k < |p.steps| { SlicedHonest(p, g, bm, k + 1); }
  }

  lemma {:induction false} SlicedAccepted(p: LeafPath, g: nat, bm: Option<bytes>)
    requires WellFormed(p) && ListFree(p) && g + 1 < |p.steps| && Covers(bm, 2) && ValidBit(bm, 0)
    ensures AcceptedRow(p, SlicedNodes(p, g, bm), 0)
  {
    SlicedChain(p, g, bm);
    SlicedInside(p, g, bm, 0);
    SlicedHonest(p, g, bm, 0);
  }

  /** A value without lists around it is one cell with what is innermost. */
  lemma {:induction false} ShredInnermost<V>(sh: Shape, k: nat, x: Datum<V>, d: nat)
    requires Rooted(sh) && k < |sh| && Fits(sh, k, x) && forall j :: 0 <= j < |sh| ==> !sh[j].nesting.Many?
    ensures |Shred(sh, k, x, 0, d)| == 1 && Shred(sh, k, x, 0, d)[0].val == Innermost(x)
    ensures x.Null? ==> Shred(sh, k, x, 0, d)[0].level.def == d
    decreases |sh| - k
  {
    if x.Record? { ShredInnermost(sh, k + 1, x.inner, if sh[k].optional then d + 1 else d); }
  }

  /** Below a slice without nulls, row 0's value is the second one. */
  lemma {:induction false} SlicedValue(p: LeafPath, g: nat, k: nat)
    requires WellFormed(p) && ListFree(p) && g + 1 < |p.steps| && k < |p.steps| && !p.nullType
    ensures Innermost(Project(p, k, SlicedNodes(p, g, None)[k], if k <= g then 0 else 1, Itself())) == Some(1)
    decreases |p.steps| - k
  {
    assert ShapeOf(p.steps)[k].nesting.Leaf? <==> k + 1 == |p.steps|;
    if k + 1 < |p.steps| {
      SlicedChain(p, g, None);
      assert Next(p.steps[k], SlicedNodes(p, g, None)[k]) == Some(SlicedNodes(p, g, None)[k + 1]);
      SlicedValue(p, g, k + 1);
    }
  }

  lemma {:induction false} ValuesShift(p: LeafPath)
    requires WellFormed(p) && ListFree(p) && |p.steps| > 1 && !p.nullType
    ensures AcceptedRow(p, SlicedNodes(p, 0, None), 0) && !SameRow(p, SlicedNodes(p, 0, None), 0)
  {
    var nodes, sh := SlicedNodes(p, 0, None), ShapeOf(p.steps);
    SlicedAccepted(p, 0, None);
    SlicedValue(p, 0, 0);
    var x := Project(p, 0, nodes[0], 0, Itself());
    if Fits(sh, 0, x) {
      ShredInnermost(sh, 0, x, 0);
      assert CellOf(RowEntry(p, nodes, 0, 0, 0), Itself()).val != Some(1);
    }
  }

  /** A null in a sliced group: the row is null by the Arrow format, and present for the fast path. */
  lemma {:induction false} SlicedNull(p: LeafPath, g: nat, k: nat, d: nat)
    requires WellFormed(p) && ListFree(p) && g + 1 < |p.steps| && k <= g && p.steps[g].optional
    requires Readable(SlicedNodes(p, g, Some([1])), OptionalFlags(p.steps), 1)
    ensures var sh, nodes := ShapeOf(p.steps), SlicedNodes(p, g, Some([1]));
      var x := Project(p, k, nodes[k], 0, Itself());
      Fits(sh, k, x) ==> |Shred(sh, k, x, 0, d)| == 1 && Shred(sh, k, x, 0, d)[0].level.def < RowEntry(p, nodes, 0, k, d).def
    decreases g - k
  {
    var sh, nodes := ShapeOf(p.steps), SlicedNodes(p, g, Some([1]));
    var x := Project(p, k, nodes[k], 0, Itself());
    if k == g {
      RowLevelBound(nodes, OptionalFlags(p.steps), p.nullType, 0, k + 1, d + 1);
      assert !Valid(nodes[k], 1) by { assert !Bit([1], 1); }
      assert x == Null;
    } else {
      var d' := if p.steps[k].optional then d + 1 else d;
      SlicedChain(p, g, Some([1]));
      assert Next(p.steps[k], nodes[k]) == Some(nodes[k + 1]);
      SlicedNull(p, g, k + 1, d');
    }
  }

  lemma {:induction false} NullsShift(p: LeafPath, g: nat)
    requires WellFormed(p) && ListFree(p) && g + 1 < |p.steps| && p.steps[g].optional
    ensures AcceptedRow(p, SlicedNodes(p, g, Some([1])), 0) && !SameRow(p, SlicedNodes(p, g, Some([1])), 0)
  {
    assert Bit([1], 0);
    SlicedAccepted(p, g, Some([1]));
    SlicedNull(p, g, 0, 0);
  }

  /**
   Over all arrays that the fast path accepts, sliced or not, rows come out with the right level and
   the right value exactly on the paths that have nothing to shift.
   */
  lemma {:induction false} SlicesHarmlessIff(p: LeafPath)
    requires WellFormed(p) && ListFree(p)
    ensures SlicesHarmless(p) <==> NothingToShift(p)
  {
    if NothingToShift(p) {
      forall nodes, e: nat | AcceptedRow(p, nodes, e) ensures SameRow(p, nodes, e) {
        if |p.steps| == 1 { FastPathIsShred(p, nodes, e, 0, 0, Itself()); } else { NullRowsAgree(p, nodes, e, e, 0, 0); }
      }
    } else if !p.nullType {
      ValuesShift(p);
    } else {
      var g :| 0 <= g < |p.steps| - 1 && p.steps[g].optional;
      NullsShift(p, g);
    }
  }
}
