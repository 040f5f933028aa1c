/**
 Sibling columns of a batch agree, whichever path wrote them: a leaf under a list is shredded, a leaf
 beside the list takes the fast path, and both put the node they share in the same places.
 */
module SiblingColumns {
  import opened Bits
  import opened Arrow
  import opened Records
  import opened Shredding
  import opened Schema
  import opened Footer
  import opened FastPath
  import opened Chunks
  import opened Readback
  import opened Nested
  import opened NestedLeaves
  import opened Siblings

  // ---- which leaves share steps ---------------------------------------------------------------

  /** Two places of the schema whose paths differ in the last step's child at most. */
  predicate Beside(w: Where, w': Where) {
    var m := |w.steps|;
    && 0 < m == |w'.steps| && w.steps[..m - 1] == w'.steps[..m - 1]
    && w.steps[m - 1].(child := 0) == w'.steps[m - 1].(child := 0)
  }

  /** Leaves below two such places share the steps down to them. */
  lemma {:induction false} LeavesShare(x: LeafSpec, node: ArrowSchema, w: Where, y: LeafSpec, node': ArrowSchema, w': Where)
    requires Through(x, node, w) && Through(y, node', w') && Beside(w, w')
    ensures Share(PathOf(x), PathOf(y), |w.steps|)
  {
    var m, p, q := |w.steps|, StepsOf(x), StepsOf(y);
    var format :| StandsBelow(x, node, w, format);
    var format' :| StandsBelow(y, node', w', format');
    assert |p[m..]| > 0 && |q[m..]| > 0;
    forall i | 0 <= i < m ensures p[i].(child := 0) == q[i].(child := 0) && (i < m - 1 ==> p[i].child == q[i].child) {
      assert p[i] == p[..m][i] == w.steps[i] && q[i] == q[..m][i] == w'.steps[i];
      if i < m - 1 { assert w.steps[..m - 1][i] == w'.steps[..m - 1][i]; }
    }
  }

  lemma {:induction false} LeafThrough(leaf: LeafSpec, node: ArrowSchema, w: Where)
    requires WhereOk(w, node.format == "n") && Flatten(node, w).Some? && leaf in Flatten(node, w).value.leaves
    ensures Through(leaf, node, w)
  {
    FlattenPaths(node, w);
    var leaves := Flatten(node, w).value.leaves;
    var i :| 0 <= i < |leaves| && leaves[i] == leaf;
  }

  /** The leaves below any two fields of a struct share the struct. */
  lemma {:induction false} FieldsShare(node: ArrowSchema, w: Where, i: nat, j: nat, x: LeafSpec, y: LeafSpec)
    requires node.format == "+s" && WhereOk(w, false) && i < |node.children| && j < |node.children|
    requires var fi, fj := Flatten(node.children[i], w.Child(i, node.children[i])), Flatten(node.children[j], w.Child(j, node.children[j]));
      fi.Some? && fj.Some? && x in fi.value.leaves && y in fj.value.leaves
    ensures |x.pathIdx| == |x.pathOptional| && |y.pathIdx| == |y.pathOptional|
    ensures Share(PathOf(x), PathOf(y), |w.steps| + 1)
  {
    var wi, wj := w.Child(i, node.children[i]), w.Child(j, node.children[j]);
    ChildWhere(w, i, node.children[i], false);
    ChildWhere(w, j, node.children[j], false);
    LeafThrough(x, node.children[i], wi);
    LeafThrough(y, node.children[j], wj);
    assert wi.steps[..|w.steps|] == w.steps && wj.steps[..|w.steps|] == w.steps;
    LeavesShare(x, node.children[i], wi, y, node.children[j], wj);
  }

  /** The leaves below a map's keys and those below its values share the map. */
  lemma {:induction false} SidesShare(node: ArrowSchema, w: Where, x: LeafSpec, y: LeafSpec)
    requires IsMap(node) && WhereOk(w, false)
    requires var fk, fv := Flatten(SideOf(node, 0), w.KeyValue(0, SideOf(node, 0))), Flatten(SideOf(node, 1), w.KeyValue(1, SideOf(node, 1)));
      fk.Some? && fv.Some? && x in fk.value.leaves && y in fv.value.leaves
    ensures |x.pathIdx| == |x.pathOptional| && |y.pathIdx| == |y.pathOptional|
    ensures Share(PathOf(x), PathOf(y), |w.steps| + 1)
  {
    var wk, wv := w.KeyValue(0, SideOf(node, 0)), w.KeyValue(1, SideOf(node, 1));
    KeyValueWhere(w, 0, SideOf(node, 0), false);
    KeyValueWhere(w, 1, SideOf(node, 1), false);
    LeafThrough(x, SideOf(node, 0), wk);
    LeafThrough(y, SideOf(node, 1), wv);
    assert wk.steps[..|w.steps|] == w.steps && wv.steps[..|w.steps|] == w.steps;
    LeavesShare(x, SideOf(node, 0), wk, y, SideOf(node, 1), wv);
  }

  // ---- the fast path, restricted --------------------------------------------------------------

  /** From node `k` on, the skeleton of a row is its level, cut off at the shared node. */
  ghost predicate RowCut(p: LeafPath, nodes: seq<ArrowArray>, m: nat, i: nat, k: nat)
    requires |nodes| == |p.steps| && k <= m < |nodes| && Backed(nodes[k]) && Readable(nodes, OptionalFlags(p.steps), i + 1)
  {
    var sh := ShapeOf(p.steps);
    var d := RowLevel(nodes, OptionalFlags(p.steps), p.nullType, i, k, DefAbove(sh, k)).0;
    Skeleton(p, m, k, nodes[k], i, 0, DefAbove(sh, k)) == [Level(0, Min(d, DefAbove(sh, m)))]
  }

  /** Above the shared node a row's level is the skeleton's. */
  lemma {:induction false} RowSkeleton(p: LeafPath, nodes: seq<ArrowArray>, n: nat, m: nat, i: nat, k: nat)
    requires WellFormed(p) && Chain(p, nodes) && Unsliced(nodes, n) && Readable(nodes, OptionalFlags(p.steps), n)
    requires k <= m < |nodes| && i < n && HonestCounts(p, nodes, i, k)
    ensures RowCut(p, nodes, m, i, k)
    decreases m - k
  {
    if k == m {
      RowLevelBound(nodes, OptionalFlags(p.steps), p.nullType, i, k, DefAbove(ShapeOf(p.steps), k));
    } else {
      RowStep(p, nodes, i, k, DefAbove(ShapeOf(p.steps), k));
      if p.steps[k].optional && !Valid(nodes[k], i) {
        RowStops(p, nodes, m, i, k);
      } else {
        RowSkeleton(p, nodes, n, m, i, k + 1);
        RowGoesOn(p, nodes, m, i, k);
      }
    }
  }

  lemma {:induction false} RowStops(p: LeafPath, nodes: seq<ArrowArray>, m: nat, i: nat, k: nat)
    requires WellFormed(p) && Chain(p, nodes) && k < m < |nodes| && Readable(nodes, OptionalFlags(p.steps), i + 1) && HonestCounts(p, nodes, i, k)
    requires nodes[k].offset == 0 && i < nodes[k].length && p.steps[k].optional && !Valid(nodes[k], i)
    ensures RowCut(p, nodes, m, i, k)
  {
    StepLevels(p, k, m);
    RowStep(p, nodes, i, k, DefAbove(ShapeOf(p.steps), k));
    SkeletonStops(p, m, k, nodes[k], i, DefAbove(ShapeOf(p.steps), k));
  }

  lemma {:induction false} RowGoesOn(p: LeafPath, nodes: seq<ArrowArray>, m: nat, i: nat, k: nat)
    requires WellFormed(p) && Chain(p, nodes) && k < m < |nodes| && Readable(nodes, OptionalFlags(p.steps), i + 1) && HonestCounts(p, nodes, i, k)
    requires nodes[k].offset == 0 && i < nodes[k].length && !(p.steps[k].optional && !Valid(nodes[k], i)) && RowCut(p, nodes, m, i, k + 1)
    ensures RowCut(p, nodes, m, i, k)
  {
    var sh := ShapeOf(p.steps);
    StepLevels(p, k, m);
    RowStep(p, nodes, i, k, DefAbove(sh, k));
    assert Next(p.steps[k], nodes[k]) == Some(nodes[k + 1]);
    SkeletonNext(p, m, k, nodes[k], nodes[k + 1], i, DefAbove(sh, k), DefAbove(sh, k + 1));
  }

  /** One node of the row's loop, in terms of the array's own view of its nulls. */
  lemma {:induction false} RowStep(p: LeafPath, nodes: seq<ArrowArray>, i: nat, k: nat, d: nat)
    requires Chain(p, nodes) && Readable(nodes, OptionalFlags(p.steps), i + 1) && k + 1 < |nodes| && HonestCounts(p, nodes, i, k)
    requires nodes[k].offset == 0 && i < nodes[k].length
    ensures p.steps[k].optional && !Valid(nodes[k], i) ==> RowLevel(nodes, OptionalFlags(p.steps), p.nullType, i, k, d).0 == d
    ensures !(p.steps[k].optional && !Valid(nodes[k], i)) ==> HonestCounts(p, nodes, i, k + 1)
    ensures !(p.steps[k].optional && !Valid(nodes[k], i)) ==>
      RowLevel(nodes, OptionalFlags(p.steps), p.nullType, i, k, d)
        == RowLevel(nodes, OptionalFlags(p.steps), p.nullType, i, k + 1, if p.steps[k].optional then d + 1 else d)
  {
  }

  lemma {:induction false} SkeletonStops(p: LeafPath, m: nat, k: nat, a: ArrowArray, e: int, d: nat)
    requires k < m < |p.steps| && Backed(a) && a.offset == 0 && 0 <= e < a.length && p.steps[k].optional && !Valid(a, e)
    ensures Skeleton(p, m, k, a, e, 0, d) == [Level(0, d)]
  {
  }

  lemma {:induction false} SkeletonNext(p: LeafPath, m: nat, k: nat, a: ArrowArray, b: ArrowArray, e: int, d: nat, d': nat)
    requires k < m < |p.steps| && Backed(a) && Backed(b) && a.offset == 0 && 0 <= e < a.length && !p.steps[k].kind.Repeats()
    requires !(p.steps[k].optional && !Valid(a, e)) && Next(p.steps[k], a) == Some(b) && d' == (if p.steps[k].optional then d + 1 else d)
    ensures Skeleton(p, m, k, a, e, 0, d) == Skeleton(p, m, k + 1, b, e, 0, d')
  {
  }

  lemma {:induction false} SkeletonSnoc(p: LeafPath, m: nat, a: ArrowArray, s: nat, n: nat)
    requires m < |p.steps| && Backed(a) && s <= n
    ensures SkeletonRange(p, m, 0, a, s, n + 1, 0, 0, 0) == SkeletonRange(p, m, 0, a, s, n, 0, 0, 0) + Skeleton(p, m, 0, a, n, 0, 0)
    decreases n - s
  {
    if s < n {
      SkeletonSnoc(p, m, a, s + 1, n);
    } else {
      assert SkeletonRange(p, m, 0, a, n + 1, n + 1, 0, 0, 0) == [];
    }
  }

  /** All rows of a leaf outside lists, cut off at a node on its path. */
  lemma {:induction false} FastSkeleton(p: LeafPath, nodes: seq<ArrowArray>, n: nat, m: nat)
    requires WellFormed(p) && Chain(p, nodes) && Unsliced(nodes, n) && Readable(nodes, OptionalFlags(p.steps), n) && AllHonest(p, nodes, n)
    requires m < |nodes|
    ensures var sh := ShapeOf(p.steps);
      Restrict(LevelsOf(FastOut(p, nodes, n)), RepAbove(sh, m), DefAbove(sh, m)) == SkeletonRange(p, m, 0, nodes[0], 0, n, 0, 0, 0)
  {
    var sh := ShapeOf(p.steps);
    if n > 0 {
      FastSkeleton(p, nodes, n - 1, m);
      var out, x := FastOut(p, nodes, n - 1), RowEntry(p, nodes, n - 1, 0, 0);
      assert HonestCounts(p, nodes, n - 1, 0);
      RowSkeleton(p, nodes, n, m, n - 1, 0);
      SkeletonSnoc(p, m, nodes[0], 0, n - 1);
      LevelsOfAppend(out, [x]);
      RestrictAppend(LevelsOf(out), LevelsOf([x]), RepAbove(sh, m), DefAbove(sh, m));
      CutOff(x, RepAbove(sh, m), DefAbove(sh, m));
    }
  }

  lemma {:induction false} CutOff(x: Entry, r: nat, d: nat)
    requires x.rep <= r
    ensures Restrict(LevelsOf([x]), r, d) == [Level(x.rep, Min(x.def, d))]
  {
    assert LevelsOf([x])[0] == Level(x.rep, x.def);
    assert Restrict(LevelsOf([x])[1..], r, d) == [];
  }

  // ---- two columns of a batch -----------------------------------------------------------------

  /** The entries whose levels are written for a leaf. */
  function ColumnOut(leaf: LeafSpec, batch: ArrowArray): seq<Entry>
    requires LeafUsable(leaf, batch) && Accepts(leaf, batch)
  {
    if leaf.hasList then ListOut(leaf, batch).value.out
    else FastOut(PathOf(leaf), FlatNodes(leaf, batch).value, batch.length)
  }

  lemma {:induction false} ColumnSkeleton(leaf: LeafSpec, batch: ArrowArray, m: nat)
    requires LeafUsable(leaf, batch) && Accepts(leaf, batch) && (!leaf.hasList ==> Regular(leaf, batch)) && m < |StepsOf(leaf)|
    ensures leaf.pathIdx[0] < |batch.children| && Backed(batch.children[leaf.pathIdx[0]])
    ensures var sh := ShapeOf(StepsOf(leaf));
      Restrict(LevelsOf(ColumnOut(leaf, batch)), RepAbove(sh, m), DefAbove(sh, m))
        == SkeletonRange(PathOf(leaf), m, 0, batch.children[leaf.pathIdx[0]], 0, batch.length, 0, 0, 0)
  {
    ColumnExists(leaf, batch);
    if leaf.hasList {
      RestrictRows(PathOf(leaf), m, batch.children[leaf.pathIdx[0]], 0, batch.length);
    } else {
      FlatChain(leaf, batch);
      FastSkeleton(PathOf(leaf), FlatNodes(leaf, batch).value, batch.length, m);
    }
  }

  /** Two leaves that share their first `m` steps agree on the node there, whichever path wrote either. */
  lemma {:induction false} ColumnsAgree(x: LeafSpec, y: LeafSpec, batch: ArrowArray, m: nat)
    requires LeafUsable(x, batch) && Accepts(x, batch) && (!x.hasList ==> Regular(x, batch))
    requires LeafUsable(y, batch) && Accepts(y, batch) && (!y.hasList ==> Regular(y, batch))
    requires Share(PathOf(x), PathOf(y), m) && x.pathIdx[0] == y.pathIdx[0]
    ensures var sh := ShapeOf(StepsOf(x));
      var r, d := RepAbove(sh, m), DefAbove(sh, m);
      Restrict(LevelsOf(ColumnOut(x, batch)), r, d) == Restrict(LevelsOf(ColumnOut(y, batch)), r, d)
  {
    AboveShared(PathOf(x), PathOf(y), m, m);
    ColumnSkeleton(x, batch, m);
    ColumnSkeleton(y, batch, m);
    SkeletonRangeShared(PathOf(x), PathOf(y), m, 0, batch.children[x.pathIdx[0]], 0, batch.length, 0, 0, 0);
  }
}
