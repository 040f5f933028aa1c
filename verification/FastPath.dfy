/**
 Leaves outside any list take a faster path: one loop over the rows counts the nullable nodes that
 are present, reading the validity bitmaps directly. For such leaves it computes what the shredder's
 walk would, as long as the arrays' null counts do not contradict their bitmaps.
 */
module FastPath {
  import opened Bits
  import opened Arrow
  import opened Records
  import opened Shredding
  import opened Projection
  import opened Codecs

  /** `present` of one node in the loop: no bitmap means present, and the null type never is. */
  predicate NodePresent(nodes: seq<ArrowArray>, nullLeaf: bool, k: nat, i: nat)
    requires k < |nodes| && (nodes[k].nBuffers > 0 ==> Covers(nodes[k].validity, i + 1))
  {
    !(k + 1 == |nodes| && nullLeaf) && (nodes[k].nBuffers == 0 || ValidBit(nodes[k].validity, i))
  }

  /** Every bitmap that the loop reads covers `n` rows; those of required nodes are not read. */
  ghost predicate Readable(nodes: seq<ArrowArray>, opt: seq<bool>, n: nat) {
    |nodes| == |opt| && forall k :: 0 <= k < |nodes| && opt[k] && nodes[k].nBuffers > 0 ==> Covers(nodes[k].validity, n)
  }

  /** From node `k` on: the level a row reaches, and whether nothing on the way is null. */
  function RowLevel(nodes: seq<ArrowArray>, opt: seq<bool>, nullLeaf: bool, i: nat, k: nat, d: nat): (nat, bool)
    requires k <= |nodes| == |opt| && Readable(nodes, opt, i + 1)
    decreases |nodes| - k
  {
    if k == |nodes| then (d, true)
    else if !opt[k] then RowLevel(nodes, opt, nullLeaf, i, k + 1, d)
    else if !NodePresent(nodes, nullLeaf, k, i) then (d, false)
    else RowLevel(nodes, opt, nullLeaf, i, k + 1, d + 1)
  }

  /** The definition levels of the first `n` rows. */
  function LevelsUpTo(nodes: seq<ArrowArray>, opt: seq<bool>, nullLeaf: bool, n: nat): (ls: seq<nat>)
    requires |nodes| == |opt| && Readable(nodes, opt, n)
    ensures |ls| == n && forall i :: 0 <= i < n ==> ls[i] == RowLevel(nodes, opt, nullLeaf, i, 0, 0).0
  {
    if n == 0 then [] else LevelsUpTo(nodes, opt, nullLeaf, n - 1) + [RowLevel(nodes, opt, nullLeaf, n - 1, 0, 0).0]
  }

  /** How many nodes from `k` on are nullable. */
  function Optionals(opt: seq<bool>, k: nat): nat
    requires k <= |opt|
    decreases |opt| - k
  {
    if k == |opt| then 0 else (if opt[k] then 1 else 0) + Optionals(opt, k + 1)
  }

  lemma {:induction false} RowLevelBound(nodes: seq<ArrowArray>, opt: seq<bool>, nullLeaf: bool, i: nat, k: nat, d: nat)
    requires k <= |nodes| == |opt| && Readable(nodes, opt, i + 1)
    ensures var (r, present) := RowLevel(nodes, opt, nullLeaf, i, k, d);
      d <= r <= d + Optionals(opt, k) && (present <==> r == d + Optionals(opt, k))
    decreases |nodes| - k
  {
    if k < |nodes| {
      RowLevelBound(nodes, opt, nullLeaf, i, k + 1, d);
      RowLevelBound(nodes, opt, nullLeaf, i, k + 1, d + 1);
    }
  }

  /** The rows below `n` that are values, in order. */
  function RowsPresent(nodes: seq<ArrowArray>, opt: seq<bool>, nullLeaf: bool, n: nat): (ps: seq<nat>)
    requires |nodes| == |opt| && Readable(nodes, opt, n)
    ensures Below(ps, n)
  {
    if n == 0 then [] else
      var ps := RowsPresent(nodes, opt, nullLeaf, n - 1);
      if RowLevel(nodes, opt, nullLeaf, n - 1, 0, 0).1 then ps + [n - 1] else ps
  }

  lemma {:induction false} RowsPresentIncrease(nodes: seq<ArrowArray>, opt: seq<bool>, nullLeaf: bool, n: nat)
    requires |nodes| == |opt| && Readable(nodes, opt, n)
    ensures Increasing(RowsPresent(nodes, opt, nullLeaf, n))
  {
    if n > 0 { RowsPresentIncrease(nodes, opt, nullLeaf, n - 1); }
  }

  class RowLevels {
    const present: array<byte>
    var def: seq<nat>
    var presentCount: nat

    constructor (n: nat)
      ensures fresh(present) && present[..] == Zeros(n) && def == [] && presentCount == 0
    {
      present := new byte[(n + 7) / 8](_ => 0);
      def, presentCount := [], 0;
      new;
      assert present[..] == Zeros(n);
    }

    /** The loop of `write_one_batch` over the rows; at maximum level 1 the bitmap is the levels. */
    method Fill(nodes: seq<ArrowArray>, opt: seq<bool>, nullLeaf: bool, maxDef: nat, n: nat)
      requires |nodes| == |opt| && Readable(nodes, opt, n) && maxDef == Optionals(opt, 0)
      requires present[..] == Zeros(n) && def == [] && presentCount == 0
      modifies this, present
      ensures def == if maxDef > 1 then LevelsUpTo(nodes, opt, nullLeaf, n) else []
      ensures present[..] == Mark(Zeros(n), RowsPresent(nodes, opt, nullLeaf, n))
      ensures presentCount == |RowsPresent(nodes, opt, nullLeaf, n)|
    {
      var i := 0;
      while i < n
        invariant 0 <= i <= n <= 8 * present.Length
        invariant def == if maxDef > 1 then LevelsUpTo(nodes, opt, nullLeaf, i) else []
        invariant present[..] == Mark(Zeros(n), RowsPresent(nodes, opt, nullLeaf, i))
        invariant presentCount == |RowsPresent(nodes, opt, nullLeaf, i)|
      {
        OneRow(nodes, opt, nullLeaf, maxDef, n, i);
        i := i + 1;
      }
    }

    /** The loop's body: one row's level, and its mark if it is a value. */
    method OneRow(nodes: seq<ArrowArray>, opt: seq<bool>, nullLeaf: bool, maxDef: nat, n: nat, i: nat)
      requires |nodes| == |opt| && Readable(nodes, opt, n) && maxDef == Optionals(opt, 0) && i < n
      requires def == if maxDef > 1 then LevelsUpTo(nodes, opt, nullLeaf, i) else []
      requires present[..] == Mark(Zeros(n), RowsPresent(nodes, opt, nullLeaf, i)) && presentCount == |RowsPresent(nodes, opt, nullLeaf, i)|
      modifies this, present
      ensures def == if maxDef > 1 then LevelsUpTo(nodes, opt, nullLeaf, i + 1) else []
      ensures present[..] == Mark(Zeros(n), RowsPresent(nodes, opt, nullLeaf, i + 1)) && presentCount == |RowsPresent(nodes, opt, nullLeaf, i + 1)|
    {
      var d, all := Row(nodes, opt, nullLeaf, i);
      RowLevelBound(nodes, opt, nullLeaf, i, 0, 0);
      if maxDef > 1 { def := def + [d]; }
      if all && d == maxDef { MarkRow(i, n, RowsPresent(nodes, opt, nullLeaf, i)); }
    }

    method MarkRow(i: nat, n: nat, ghost ps: seq<nat>)
      requires i < n && Below(ps, n) && present[..] == Mark(Zeros(n), ps)
      modifies this`presentCount, present
      ensures Below(ps + [i], n) && present[..] == Mark(Zeros(n), ps + [i])
      ensures presentCount == old(presentCount) + 1
    {
      MarkOneMore(Zeros(n), ps, i);
      present[i / 8] := ByteWithBit(present[i / 8], i % 8);
      presentCount := presentCount + 1;
      assert present[..] == SetBit(old(present[..]), i);
    }

    /** One row: count the nullable nodes down to the first that is absent. */
    method Row(nodes: seq<ArrowArray>, opt: seq<bool>, nullLeaf: bool, i: nat) returns (d: nat, all: bool)
      requires |nodes| == |opt| && Readable(nodes, opt, i + 1)
      ensures (d, all) == RowLevel(nodes, opt, nullLeaf, i, 0, 0)
    {
      d, all := 0, true;
      var k := 0;
      while k < |nodes|
        invariant 0 <= k <= |nodes| && all
        invariant RowLevel(nodes, opt, nullLeaf, i, k, d) == RowLevel(nodes, opt, nullLeaf, i, 0, 0)
      {
        if opt[k] {
          if !NodePresent(nodes, nullLeaf, k, i) { return d, false; }
          d := d + 1;
        }
        k := k + 1;
      }
    }
  }

  // ---- the fast path against the walk ---------------------------------------------------------

  /** The arrays along a path without lists, from the column's down to the leaf's. */
  ghost predicate Chain(p: LeafPath, nodes: seq<ArrowArray>) {
    && |nodes| == |p.steps| > 0
    && Backed(nodes[0])
    && (forall k :: 0 <= k < |nodes| ==> Backed(nodes[k]) && !p.steps[k].kind.Repeats())
    && (forall k :: 0 <= k < |nodes| - 1 ==> Next(p.steps[k], nodes[k]) == Some(nodes[k + 1]))
  }

  function OptionalFlags(steps: seq<PathStep>): (opt: seq<bool>)
    ensures |opt| == |steps| && forall k :: 0 <= k < |opt| ==> opt[k] == steps[k].optional
  {
    seq(|steps|, k requires 0 <= k < |steps| => steps[k].optional)
  }

  /** From node `k` on, no nullable node that the row reaches denies its nulls. */
  ghost predicate HonestCounts(p: LeafPath, nodes: seq<ArrowArray>, i: nat, k: nat)
    requires |nodes| == |p.steps| && k <= |nodes| && Readable(nodes, OptionalFlags(p.steps), i + 1)
    decreases |nodes| - k
  {
    k == |nodes| || (
      if !p.steps[k].optional then HonestCounts(p, nodes, i, k + 1)
      else if k + 1 == |nodes| && p.nullType then true
      else if NodePresent(nodes, p.nullType, k, i) then HonestCounts(p, nodes, i, k + 1)
      else nodes[k].nullCount != 0)
  }

  /** What the fast path makes of a row, from node `k` on. */
  function RowEntry(p: LeafPath, nodes: seq<ArrowArray>, i: nat, k: nat, d: nat): Entry
    requires |nodes| == |p.steps| && k <= |nodes| && Readable(nodes, OptionalFlags(p.steps), i + 1)
  {
    var (r, present) := RowLevel(nodes, OptionalFlags(p.steps), p.nullType, i, k, d);
    Entry(0, r, if present then Some(i) else None)
  }

  /** Without lists, a walk emits a single entry, at least as deep as where it starts. */
  lemma {:induction false} OneEntry(p: LeafPath, nodes: seq<ArrowArray>, k: nat, i: nat, d: nat)
    requires WellFormed(p) && Chain(p, nodes) && k < |nodes| && Walk(p, k, nodes[k], i, 0, d).ok
    ensures |Walk(p, k, nodes[k], i, 0, d).out| == 1 && Walk(p, k, nodes[k], i, 0, d).out[0].def >= d
    decreases |nodes| - k
  {
    var st := p.steps[k];
    if !(st.optional && IsNull(p, k, nodes[k], i)) && st.kind.StructStep? {
      assert Next(st, nodes[k]) == Some(nodes[k + 1]);
      OneEntry(p, nodes, k + 1, i, if st.optional then d + 1 else d);
    }
  }

  /** On a row that the walk accepts, the fast path agrees with it exactly if the null counts are honest. */
  lemma {:induction false} FastPathRefinesWalk(p: LeafPath, nodes: seq<ArrowArray>, i: nat, k: nat, d: nat)
    requires WellFormed(p) && Chain(p, nodes) && k < |nodes| && Readable(nodes, OptionalFlags(p.steps), i + 1)
    requires Walk(p, k, nodes[k], i, 0, d).ok
    ensures Walk(p, k, nodes[k], i, 0, d).out == [RowEntry(p, nodes, i, k, d)] <==> HonestCounts(p, nodes, i, k)
    decreases |nodes| - k
  {
    var st := p.steps[k];
    var d' := if st.optional then d + 1 else d;
    if st.optional && IsNull(p, k, nodes[k], i) {
    } else if st.kind.StructStep? {
      assert Next(st, nodes[k]) == Some(nodes[k + 1]);
      OneEntry(p, nodes, k + 1, i, d');
      FastPathRefinesWalk(p, nodes, i, k + 1, d');
    } else {
      assert ShapeOf(p.steps)[k].nesting.Leaf?;
      assert RowLevel(nodes, OptionalFlags(p.steps), p.nullType, i, k + 1, d') == (d', true);
    }
  }

  /**
   The meaning of a row, without asking whether the walk would accept it: with all arrays at offset 0
   and of the batch's length, the fast path's level and presence are the row's canonical level stream.
   */
  lemma {:induction false} FastPathIsShred<V>(p: LeafPath, nodes: seq<ArrowArray>, i: nat, k: nat, d: nat, at: int -> V)
    requires WellFormed(p) && Chain(p, nodes) && k < |nodes| && Readable(nodes, OptionalFlags(p.steps), i + 1)
    requires forall j :: 0 <= j < |nodes| ==> nodes[j].offset == 0 && i < nodes[j].length
    requires HonestCounts(p, nodes, i, k)
    ensures var sh := ShapeOf(p.steps);
      var x := Project(p, k, nodes[k], i, at);
      Fits(sh, k, x) && Shred(sh, k, x, 0, d) == [CellOf(RowEntry(p, nodes, i, k, d), at)]
    decreases |nodes| - k
  {
    var st := p.steps[k];
    if st.optional && IsNull(p, k, nodes[k], i) {
    } else if st.kind.StructStep? {
      assert Next(st, nodes[k]) == Some(nodes[k + 1]);
      FastPathIsShred(p, nodes, i, k + 1, if st.optional then d + 1 else d, at);
    } else {
      assert ShapeOf(p.steps)[k].nesting.Leaf?;
      assert RowLevel(nodes, OptionalFlags(p.steps), p.nullType, i, k + 1, (if st.optional then d + 1 else d)) == ((if st.optional then d + 1 else d), true);
    }
  }

  // ---- the whole loop -------------------------------------------------------------------------

  /** What the fast path makes of the first `n` rows. */
  function FastOut(p: LeafPath, nodes: seq<ArrowArray>, n: nat): (out: seq<Entry>)
    requires |nodes| == |p.steps| && Readable(nodes, OptionalFlags(p.steps), n)
    ensures |out| == n
  {
    if n == 0 then [] else FastOut(p, nodes, n - 1) + [RowEntry(p, nodes, n - 1, 0, 0)]
  }

  /** Those entries are the loop's levels and marked rows. */
  lemma {:induction false} FastOutIsLoop(p: LeafPath, nodes: seq<ArrowArray>, n: nat)
    requires |nodes| == |p.steps| && Readable(nodes, OptionalFlags(p.steps), n)
    ensures var opt := OptionalFlags(p.steps);
      && Defs(FastOut(p, nodes, n)) == LevelsUpTo(nodes, opt, p.nullType, n)
      && Positions(FastOut(p, nodes, n)) == RowsPresent(nodes, opt, p.nullType, n)
      && forall i :: 0 <= i < n ==> FastOut(p, nodes, n)[i].rep == 0
  {
    if n > 0 {
      FastOutIsLoop(p, nodes, n - 1);
      LevelsAppend(FastOut(p, nodes, n - 1), [RowEntry(p, nodes, n - 1, 0, 0)]);
    }
  }

  lemma {:induction false} ShredRowsSnoc<V>(sh: Shape, xs: seq<Datum<V>>, x: Datum<V>)
    requires Rooted(sh) && Fits(sh, 0, x) && forall i :: 0 <= i < |xs| ==> Fits(sh, 0, xs[i])
    ensures ShredRows(sh, xs + [x]) == ShredRows(sh, xs) + Shred(sh, 0, x, 0, 0)
    decreases |xs|
  {
    if xs == [] {
      var none: seq<Datum<V>> := [];
      assert xs + [x] == [x] && [x][0] == x && [x][1..] == none;
      assert ShredItems(sh, 0, none, 0, 0, 0) == [];
      assert ShredItems(sh, 0, [x], 0, 0, 0) == Shred(sh, 0, x, 0, 0) + ShredItems(sh, 0, none, 0, 0, 0);
      assert ShredRows(sh, xs) == [];
    } else {
      ShredRowsSnoc(sh, xs[1..], x);
      assert (xs + [x])[1..] == xs[1..] + [x];
    }
  }

  ghost predicate AllHonest(p: LeafPath, nodes: seq<ArrowArray>, n: nat)
    requires |nodes| == |p.steps| && Readable(nodes, OptionalFlags(p.steps), n)
  {
    forall i :: 0 <= i < n ==> HonestCounts(p, nodes, i, 0)
  }

  /** All along the path the arrays are unsliced and as long as the batch. */
  ghost predicate Unsliced(nodes: seq<ArrowArray>, n: nat) {
    forall j :: 0 <= j < |nodes| ==> nodes[j].offset == 0 && n <= nodes[j].length
  }

  /** Over the whole batch, the fast path computes the canonical level stream of the column's rows. */
  lemma {:induction false} FastOutIsShred<V>(p: LeafPath, nodes: seq<ArrowArray>, n: nat, at: int -> V)
    requires WellFormed(p) && Chain(p, nodes) && Readable(nodes, OptionalFlags(p.steps), n) && Unsliced(nodes, n) && AllHonest(p, nodes, n)
    ensures var sh, xs := ShapeOf(p.steps), ProjectRange(p, 0, nodes[0], 0, n, at);
      (forall i :: 0 <= i < |xs| ==> Fits(sh, 0, xs[i])) && Cells(FastOut(p, nodes, n), at) == ShredRows(sh, xs)
  {
    var sh := ShapeOf(p.steps);
    if n == 0 {
    } else {
      FastOutIsShred(p, nodes, n - 1, at);
      var xs, x := ProjectRange(p, 0, nodes[0], 0, n - 1, at), Project(p, 0, nodes[0], n - 1, at);
      assert ProjectRange(p, 0, nodes[0], 0, n, at) == xs + [x];
      assert HonestCounts(p, nodes, n - 1, 0);
      FastPathIsShred(p, nodes, n - 1, 0, 0, at);
      ShredRowsSnoc(sh, xs, x);
    }
  }

  /** At maximum level 1 the presence bitmap is the levels. */
  lemma {:induction false} BitmapIsLevels(nodes: seq<ArrowArray>, opt: seq<bool>, nullLeaf: bool, n: nat)
    requires |nodes| == |opt| && Readable(nodes, opt, n) && Optionals(opt, 0) == 1
    ensures BitmapLevels(Mark(Zeros(n), RowsPresent(nodes, opt, nullLeaf, n)), n) == LevelsUpTo(nodes, opt, nullLeaf, n)
  {
    var ps := RowsPresent(nodes, opt, nullLeaf, n);
    MarkSets(Zeros(n), ps);
    forall i | 0 <= i < n
      ensures (i in ps) == (LevelsUpTo(nodes, opt, nullLeaf, n)[i] == 1) && LevelsUpTo(nodes, opt, nullLeaf, n)[i] <= 1
    {
      RowLevelBound(nodes, opt, nullLeaf, i, 0, 0);
      RowsPresentAre(nodes, opt, nullLeaf, n, i);
    }
  }

  lemma {:induction false} RowsPresentAre(nodes: seq<ArrowArray>, opt: seq<bool>, nullLeaf: bool, n: nat, i: nat)
    requires |nodes| == |opt| && Readable(nodes, opt, n) && i < n
    ensures i in RowsPresent(nodes, opt, nullLeaf, n) <==> RowLevel(nodes, opt, nullLeaf, i, 0, 0).1
  {
    if i < n - 1 { RowsPresentAre(nodes, opt, nullLeaf, n - 1, i); }
  }

  // ---- what the loop reads --------------------------------------------------------------------

  /**
   The loop reads a nullable group's bitmap for every row of the batch and never asks how long the
   group is. With a bitmap that is as long as its own array needs, whatever its length, that is safe
   exactly if the batch does not reach past the array's last whole byte of bits.
   */
  lemma {:induction false} BitmapReadIff(span: nat, n: nat)
    ensures (forall bm: bytes :: Covers(Some(bm), span) ==> Covers(Some(bm), n)) <==> n <= 8 * ((span + 7) / 8)
  {
    assert Covers(Some(Zeros(span)), span);
    if n > 8 * ((span + 7) / 8) { assert !Covers(Some(Zeros(span)), n); }
  }

  /** Every nullable array with a bitmap is as long as the batch. */
  ghost predicate LongEnough(nodes: seq<ArrowArray>, opt: seq<bool>, n: nat) {
    |nodes| == |opt| && forall k :: 0 <= k < |nodes| && opt[k] && nodes[k].validity.Some? ==> n <= nodes[k].offset + nodes[k].length
  }

  lemma {:induction false} LongEnoughIsReadable(nodes: seq<ArrowArray>, opt: seq<bool>, n: nat)
    requires LongEnough(nodes, opt, n) && forall k :: 0 <= k < |nodes| ==> Backed(nodes[k])
    ensures Readable(nodes, opt, n)
  {
    forall k | 0 <= k < |nodes| && opt[k] && nodes[k].nBuffers > 0 ensures Covers(nodes[k].validity, n) {
      assert Backed(nodes[k]);
    }
  }
}
