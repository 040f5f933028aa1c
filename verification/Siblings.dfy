/**
 Sibling columns agree. Two leaves below a common node repeat and null that node in the same places,
 so a reader can put their columns back together record by record.
 */
module Siblings {
  import opened Bits
  import opened Arrow
  import opened Records
  import opened Shredding
  import opened Projection

  /** The entries that repeat at or above level `r`, with definition levels cut off at `d`. */
  function Restrict(levels: seq<Level>, r: nat, d: nat): seq<Level> {
    if levels == [] then [] else
      var x := levels[0];
      (if x.rep <= r then [Level(x.rep, if x.def < d then x.def else d)] else []) + Restrict(levels[1..], r, d)
  }

  lemma {:induction false} RestrictAppend(a: seq<Level>, b: seq<Level>, r: nat, d: nat)
    ensures Restrict(a + b, r, d) == Restrict(a, r, d) + Restrict(b, r, d)
  {
    if a == [] {
      assert a + b == b;
    } else {
      assert (a + b)[1..] == a[1..] + b;
      RestrictAppend(a[1..], b, r, d);
    }
  }

  lemma {:induction false} RestrictNone(levels: seq<Level>, r: nat, d: nat)
    requires forall i :: 0 <= i < |levels| ==> levels[i].rep > r
    ensures Restrict(levels, r, d) == []
  {
    if levels != [] { RestrictNone(levels[1..], r, d); }
  }

  /** The repetition and definition levels of an entry, as a reader sees them. */
  function LevelsOf(out: seq<Entry>): (ls: seq<Level>)
    ensures |ls| == |out|
  {
    ZipLevels(Reps(out), Defs(out))
  }

  lemma {:induction false} LevelsOfAppend(a: seq<Entry>, b: seq<Entry>)
    ensures LevelsOf(a + b) == LevelsOf(a) + LevelsOf(b)
  {
  }

  /** The first `m` steps of two paths: the same nodes, though the last may lead to different children. */
  ghost predicate Share(p: LeafPath, q: LeafPath, m: nat) {
    && 0 < m < |p.steps| && m < |q.steps|
    && forall i :: 0 <= i < m ==>
        && p.steps[i].(child := 0) == q.steps[i].(child := 0)
        && (i < m - 1 ==> p.steps[i].child == q.steps[i].child)
  }

  /** Offsets of list entry `e`, whatever they are. */
  function Offsets(a: ArrowArray, e: int): (int, int) {
    if a.offsets.Some? && 0 <= e && e + 1 < |a.offsets.value| then (a.offsets.value[e], a.offsets.value[e + 1]) else (0, 0)
  }

  /** One level pair for each entry of the node after the first `m` steps, or for the null or empty list that ends the walk above it. */
  function Skeleton(p: LeafPath, m: nat, k: nat, a: ArrowArray, e: int, r: nat, d: nat): seq<Level>
    requires k <= m < |p.steps| && Backed(a)
    decreases m - k, 0
  {
    var st := p.steps[k];
    if k == m then [Level(r, d)]
    else if a.offset != 0 || e < 0 || e >= a.length then []
    else if st.optional && !Valid(a, e) then [Level(r, d)]
    else
      var d' := if st.optional then d + 1 else d;
      var next := if k + 1 < m && Next(st, a).Some? then Next(st, a).value else a;
      if !st.kind.Repeats() then Skeleton(p, m, k + 1, next, e, r, d')
      else
        var (s, t) := Offsets(a, e);
        if s == t then [Level(r, d')] else SkeletonRange(p, m, k + 1, next, s, t, r, st.repLevel, d' + 1)
  }

  function SkeletonRange(p: LeafPath, m: nat, k: nat, a: ArrowArray, s: int, t: int, r: nat, again: nat, d: nat): seq<Level>
    requires k <= m < |p.steps| && Backed(a)
    decreases m - k, if s < t then t - s else 0
  {
    if s >= t then [] else Skeleton(p, m, k, a, s, r, d) + SkeletonRange(p, m, k, a, s + 1, t, again, again, d)
  }

  lemma {:induction false} SkeletonShared(p: LeafPath, q: LeafPath, m: nat, k: nat, a: ArrowArray, e: int, r: nat, d: nat)
    requires Share(p, q, m) && k <= m && Backed(a)
    ensures Skeleton(p, m, k, a, e, r, d) == Skeleton(q, m, k, a, e, r, d)
    decreases m - k, 0
  {
    if k < m && a.offset == 0 && 0 <= e < a.length {
      var st := p.steps[k];
      assert st.(child := 0) == q.steps[k].(child := 0);
      var d' := if st.optional then d + 1 else d;
      var next := if k + 1 < m && Next(st, a).Some? then Next(st, a).value else a;
      if !st.kind.Repeats() {
        SkeletonShared(p, q, m, k + 1, next, e, r, d');
      } else {
        var (s, t) := Offsets(a, e);
        SkeletonRangeShared(p, q, m, k + 1, next, s, t, r, st.repLevel, d' + 1);
      }
    }
  }

  lemma {:induction false} SkeletonRangeShared(p: LeafPath, q: LeafPath, m: nat, k: nat, a: ArrowArray, s: int, t: int, r: nat, again: nat, d: nat)
    requires Share(p, q, m) && k <= m && Backed(a)
    ensures SkeletonRange(p, m, k, a, s, t, r, again, d) == SkeletonRange(q, m, k, a, s, t, r, again, d)
    decreases m - k, if s < t then t - s else 0
  {
    if s < t {
      SkeletonShared(p, q, m, k, a, s, r, d);
      SkeletonRangeShared(p, q, m, k, a, s + 1, t, again, again, d);
    }
  }

  lemma {:induction false} RestrictOne(x: Entry, r: nat, d: nat)
    requires x.rep <= r && x.def <= d
    ensures Restrict(LevelsOf([x]), r, d) == [Level(x.rep, x.def)]
  {
    assert LevelsOf([x])[0] == Level(x.rep, x.def);
    assert Restrict(LevelsOf([x])[1..], r, d) == [];
  }

  /** Once past the first `m` steps, a walk repeats only at deeper levels. */
  lemma {:induction false} RestrictBelow(p: LeafPath, m: nat, a: ArrowArray, e: int, r: nat)
    requires WellFormed(p) && m < |p.steps| && Backed(a)
    requires var sh := ShapeOf(p.steps); r <= RepAbove(sh, m) && Walk(p, m, a, e, r, DefAbove(sh, m)).ok
    ensures var sh := ShapeOf(p.steps);
      Restrict(LevelsOf(Walk(p, m, a, e, r, DefAbove(sh, m)).out), RepAbove(sh, m), DefAbove(sh, m)) == [Level(r, DefAbove(sh, m))]
  {
    var sh := ShapeOf(p.steps);
    var out := Walk(p, m, a, e, r, DefAbove(sh, m)).out;
    WalkIsShred(p, m, a, e, r, DefAbove(sh, m), x => x);
    ShredLevels(sh, m, Project(p, m, a, e, x => x), r);
    var cells := Cells(out, x => x);
    assert forall i :: 0 <= i < |out| ==> LevelsOf(out)[i] == cells[i].level;
    RestrictNone(LevelsOf(out)[1..], RepAbove(sh, m), DefAbove(sh, m));
  }

  /** The levels one step further down. */
  lemma {:induction false} StepLevels(p: LeafPath, k: nat, m: nat)
    requires WellFormed(p) && k < m < |p.steps|
    ensures var sh, st := ShapeOf(p.steps), p.steps[k];
      var lists := if st.kind.Repeats() then 1 else 0;
      && !st.kind.LeafStep?
      && RepAbove(sh, k + 1) == RepAbove(sh, k) + lists <= RepAbove(sh, m)
      && DefAbove(sh, k + 1) == DefAbove(sh, k) + (if st.optional then 1 else 0) + lists <= DefAbove(sh, m)
      && (st.kind.Repeats() ==> st.repLevel == RepAbove(sh, k + 1))
  {
    AboveMonotone(ShapeOf(p.steps), k + 1, m);
  }

  lemma {:induction false} RestrictWalk(p: LeafPath, m: nat, k: nat, a: ArrowArray, e: int, r: nat)
    requires WellFormed(p) && k <= m < |p.steps| && Backed(a)
    requires var sh := ShapeOf(p.steps); r <= RepAbove(sh, k) && Walk(p, k, a, e, r, DefAbove(sh, k)).ok
    ensures var sh := ShapeOf(p.steps);
      Restrict(LevelsOf(Walk(p, k, a, e, r, DefAbove(sh, k)).out), RepAbove(sh, m), DefAbove(sh, m))
        == Skeleton(p, m, k, a, e, r, DefAbove(sh, k))
    decreases m - k, 0, 0
  {
    var sh := ShapeOf(p.steps);
    var st := p.steps[k];
    if k == m {
      RestrictBelow(p, m, a, e, r);
    } else {
      StepLevels(p, k, m);
      if st.optional && !Valid(a, e) {
        RestrictOne(Entry(r, DefAbove(sh, k), None), RepAbove(sh, m), DefAbove(sh, m));
      } else if st.kind.StructStep? {
        StructUnfolds(p, m, k, a, e, r, DefAbove(sh, k), DefAbove(sh, k + 1));
        RestrictWalk(p, m, k + 1, a.children[st.child], e, r);
      } else {
        RestrictList(p, m, k, a, e, r);
      }
    }
  }

  /** Both the walk and its skeleton at a struct that is not null. */
  lemma {:induction false} StructUnfolds(p: LeafPath, m: nat, k: nat, a: ArrowArray, e: int, r: nat, d: nat, below: nat)
    requires WellFormed(p) && k < m < |p.steps| && Backed(a) && p.steps[k].kind.StructStep?
    requires Walk(p, k, a, e, r, d).ok && !(p.steps[k].optional && !Valid(a, e))
    requires below == d + if p.steps[k].optional then 1 else 0
    ensures p.steps[k].child < |a.children|
    ensures Walk(p, k, a, e, r, d) == Walk(p, k + 1, a.children[p.steps[k].child], e, r, below)
    ensures Skeleton(p, m, k, a, e, r, d) == Skeleton(p, m, k + 1, a.children[p.steps[k].child], e, r, below)
  {
  }

  /** Both the walk and its skeleton at a list entry that is not null. */
  lemma {:induction false} ListUnfolds(p: LeafPath, m: nat, k: nat, a: ArrowArray, e: int, r: nat, d: nat, below: nat)
    requires WellFormed(p) && k < m < |p.steps| && Backed(a) && p.steps[k].kind.Repeats()
    requires Walk(p, k, a, e, r, d).ok && !(p.steps[k].optional && !Valid(a, e))
    requires below == d + (if p.steps[k].optional then 1 else 0) + 1
    ensures 0 <= e < a.length && a.offset == 0 && ListRange(p.steps[k], a, e).Some?
    ensures var range := ListRange(p.steps[k], a, e).value;
      if range.first == range.end then
        && Walk(p, k, a, e, r, d).out == [Entry(r, below - 1, None)]
        && Skeleton(p, m, k, a, e, r, d) == [Level(r, below - 1)]
      else
        && Walk(p, k, a, e, r, d) == WalkRange(p, k + 1, range.elements, range.first, range.end, r, p.steps[k].repLevel, below)
        && Skeleton(p, m, k, a, e, r, d)
          == SkeletonRange(p, m, k + 1, if k + 1 < m then range.elements else a, range.first, range.end, r, p.steps[k].repLevel, below)
  {
  }

  lemma {:induction false} RestrictList(p: LeafPath, m: nat, k: nat, a: ArrowArray, e: int, r: nat)
    requires WellFormed(p) && k < m < |p.steps| && Backed(a) && p.steps[k].kind.Repeats()
    requires var sh := ShapeOf(p.steps); r <= RepAbove(sh, k) && Walk(p, k, a, e, r, DefAbove(sh, k)).ok
    requires !(p.steps[k].optional && !Valid(a, e))
    ensures var sh := ShapeOf(p.steps);
      Restrict(LevelsOf(Walk(p, k, a, e, r, DefAbove(sh, k)).out), RepAbove(sh, m), DefAbove(sh, m))
        == Skeleton(p, m, k, a, e, r, DefAbove(sh, k))
    decreases m - k - 1, 1, 0
  {
    var sh := ShapeOf(p.steps);
    StepLevels(p, k, m);
    ListUnfolds(p, m, k, a, e, r, DefAbove(sh, k), DefAbove(sh, k + 1));
    var range := ListRange(p.steps[k], a, e).value;
    if range.first == range.end {
      RestrictOne(Entry(r, DefAbove(sh, k + 1) - 1, None), RepAbove(sh, m), DefAbove(sh, m));
    } else {
      RestrictRange(p, m, k + 1, range.elements, if k + 1 < m then range.elements else a, range.first, range.end, r, p.steps[k].repLevel);
    }
  }

  lemma {:induction false} RestrictRange(p: LeafPath, m: nat, k: nat, a: ArrowArray, b: ArrowArray, s: int, t: int, r: nat, again: nat)
    requires WellFormed(p) && 0 < k <= m < |p.steps| && Backed(a) && Backed(b) && (k < m ==> a == b)
    requires var sh := ShapeOf(p.steps);
      r <= RepAbove(sh, k) == again && WalkRange(p, k, a, s, t, r, again, DefAbove(sh, k)).ok
    ensures var sh := ShapeOf(p.steps);
      Restrict(LevelsOf(WalkRange(p, k, a, s, t, r, again, DefAbove(sh, k)).out), RepAbove(sh, m), DefAbove(sh, m))
        == SkeletonRange(p, m, k, b, s, t, r, again, DefAbove(sh, k))
    decreases m - k, 0, if s < t then t - s else 0
  {
    var sh := ShapeOf(p.steps);
    var d := DefAbove(sh, k);
    if s < t {
      var out, rest := Walk(p, k, a, s, r, d).out, WalkRange(p, k, a, s + 1, t, again, again, d).out;
      RestrictWalk(p, m, k, a, s, r);
      RestrictRange(p, m, k, a, b, s + 1, t, again, again);
      LevelsOfAppend(out, rest);
      RestrictAppend(LevelsOf(out), LevelsOf(rest), RepAbove(sh, m), DefAbove(sh, m));
    }
  }

  /**
   For leaves that share their first `m` steps, the restrictions of the two columns to the shared
   node's repetition level and definition level are the same sequence. A map's keys and values share
   the map, and a struct's fields share the struct.
   */
  lemma {:induction false} SiblingsAgree(p: LeafPath, q: LeafPath, m: nat, column: ArrowArray, rows: nat)
    requires WellFormed(p) && WellFormed(q) && Share(p, q, m) && Backed(column)
    requires WalkRange(p, 0, column, 0, rows, 0, 0, 0).ok && WalkRange(q, 0, column, 0, rows, 0, 0, 0).ok
    ensures var r, d := RepAbove(ShapeOf(p.steps), m), DefAbove(ShapeOf(p.steps), m);
      Restrict(LevelsOf(WalkRange(p, 0, column, 0, rows, 0, 0, 0).out), r, d)
        == Restrict(LevelsOf(WalkRange(q, 0, column, 0, rows, 0, 0, 0).out), r, d)
  {
    AboveShared(p, q, m, m);
    RestrictRows(p, m, column, 0, rows);
    RestrictRows(q, m, column, 0, rows);
    SkeletonRangeShared(p, q, m, 0, column, 0, rows, 0, 0, 0);
  }

  lemma {:induction false} AboveShared(p: LeafPath, q: LeafPath, m: nat, k: nat)
    requires Share(p, q, m) && k <= m
    ensures RepAbove(ShapeOf(p.steps), k) == RepAbove(ShapeOf(q.steps), k)
    ensures DefAbove(ShapeOf(p.steps), k) == DefAbove(ShapeOf(q.steps), k)
  {
    if k > 0 {
      AboveShared(p, q, m, k - 1);
      assert p.steps[k - 1].(child := 0) == q.steps[k - 1].(child := 0);
    }
  }

  lemma {:induction false} RestrictRows(p: LeafPath, m: nat, a: ArrowArray, s: int, t: int)
    requires WellFormed(p) && m < |p.steps| && Backed(a) && WalkRange(p, 0, a, s, t, 0, 0, 0).ok
    ensures var sh := ShapeOf(p.steps);
      Restrict(LevelsOf(WalkRange(p, 0, a, s, t, 0, 0, 0).out), RepAbove(sh, m), DefAbove(sh, m))
        == SkeletonRange(p, m, 0, a, s, t, 0, 0, 0)
    decreases if s < t then t - s else 0
  {
    var sh := ShapeOf(p.steps);
    if s < t {
      var out, rest := Walk(p, 0, a, s, 0, 0).out, WalkRange(p, 0, a, s + 1, t, 0, 0, 0).out;
      RestrictWalk(p, m, 0, a, s, 0);
      RestrictRows(p, m, a, s + 1, t);
      LevelsOfAppend(out, rest);
      RestrictAppend(LevelsOf(out), LevelsOf(rest), RepAbove(sh, m), DefAbove(sh, m));
    }
  }
}
