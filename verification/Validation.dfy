/**
 The walk's validation is exact: it accepts an entry if and only if every node it reaches from that
 entry is sound, and nodes it does not reach are never looked at.
 */
module Validation {
  import opened Arrow
  import opened Shredding

  /** A node whose entry ends the walk there: a null where the field is nullable. */
  predicate Ends(p: LeafPath, k: nat, a: ArrowArray, e: int)
    requires k < |p.steps| && Backed(a)
  {
    a.offset == 0 && 0 <= e < a.length && p.steps[k].optional && IsNull(p, k, a, e)
  }

  /** What is demanded of entry `e` of the array `a` that the walk meets at step `k`. */
  predicate Sound(p: LeafPath, k: nat, a: ArrowArray, e: int)
    requires k < |p.steps| && Backed(a)
  {
    var st := p.steps[k];
    && a.offset == 0
    && 0 <= e < a.length
    && (st.optional || a.nullCount <= 0 || Valid(a, e))
    && (!Ends(p, k, a, e) ==>
      && (st.kind.StructStep? ==> st.child < |a.children|)
      && (st.kind.Repeats() ==> ListRange(st, a, e).Some?))
  }

  /** Offsets in order, and inside every array that they point into; a map's entries are an unsliced struct of two. */
  predicate OffsetsSound(st: PathStep, a: ArrowArray, i: int) {
    && a.nBuffers >= 2 && HasOffsets(a, i) && a.children != []
    && 0 <= a.offsets.value[i] <= a.offsets.value[i + 1] <= a.children[0].length
    && (st.kind.MapStep? ==>
      && a.children[0].offset == 0 && |a.children[0].children| == 2 && st.child < 2
      && a.offsets.value[i + 1] <= a.children[0].children[st.child].length)
  }

  /** That is what it takes for an entry's elements to be found. */
  lemma {:induction false} ElementsFoundIff(st: PathStep, a: ArrowArray, i: int)
    requires st.kind.Repeats() && Backed(a) && a.offset <= i < a.offset + a.length
    ensures ListRange(st, a, i).Some? <==> OffsetsSound(st, a, i)
  {
  }

  /** Entry `j` of array `b` is visited at step `m` by a walk from entry `e` of `a` at step `k`. */
  ghost predicate Reaches(p: LeafPath, k: nat, a: ArrowArray, e: int, m: nat, b: ArrowArray, j: int)
    requires WellFormed(p) && k < |p.steps| && Backed(a)
    ensures Reaches(p, k, a, e, m, b, j) ==> m < |p.steps| && Backed(b)
    decreases |p.steps| - k, 0
  {
    var st := p.steps[k];
    || (m == k && b == a && j == e)
    || (Sound(p, k, a, e) && !Ends(p, k, a, e) && match st.kind
        case LeafStep => false
        case StructStep => Reaches(p, k + 1, a.children[st.child], e, m, b, j)
        case _ =>
          var range := ListRange(st, a, e).value;
          ReachesRange(p, k + 1, range.elements, range.first, range.end, m, b, j))
  }

  /** The node is visited by a walk from one of the entries `s` up to `t`. */
  ghost predicate ReachesRange(p: LeafPath, k: nat, a: ArrowArray, s: int, t: int, m: nat, b: ArrowArray, j: int)
    requires WellFormed(p) && k < |p.steps| && Backed(a)
    ensures ReachesRange(p, k, a, s, t, m, b, j) ==> m < |p.steps| && Backed(b)
    decreases |p.steps| - k, if s < t then t - s else 0
  {
    s < t && (Reaches(p, k, a, s, m, b, j) || ReachesRange(p, k, a, s + 1, t, m, b, j))
  }

  ghost predicate AllSound(p: LeafPath, k: nat, a: ArrowArray, e: int)
    requires WellFormed(p) && k < |p.steps| && Backed(a)
  {
    forall m, b, j :: Reaches(p, k, a, e, m, b, j) ==> Sound(p, m, b, j)
  }

  lemma {:induction false} WalkAccepts(p: LeafPath, k: nat, a: ArrowArray, e: int, r: nat, d: nat)
    requires WellFormed(p) && k < |p.steps| && Backed(a)
    ensures Walk(p, k, a, e, r, d).ok <==> AllSound(p, k, a, e)
    decreases |p.steps| - k, 0
  {
    var st := p.steps[k];
    assert Reaches(p, k, a, e, k, a, e);
    if Sound(p, k, a, e) && !Ends(p, k, a, e) {
      var d' := if st.optional then d + 1 else d;
      match st.kind
      case LeafStep =>
      case StructStep =>
        var child := a.children[st.child];
        WalkAccepts(p, k + 1, child, e, r, d');
        assert forall m, b, j :: Reaches(p, k + 1, child, e, m, b, j) ==> Reaches(p, k, a, e, m, b, j);
      case _ =>
        var range := ListRange(st, a, e).value;
        RangeAccepts(p, k + 1, range.elements, range.first, range.end, r, st.repLevel, d' + 1);
    }
  }

  lemma {:induction false} RangeAccepts(p: LeafPath, k: nat, a: ArrowArray, s: int, t: int, r: nat, again: nat, d: nat)
    requires WellFormed(p) && k < |p.steps| && Backed(a)
    ensures WalkRange(p, k, a, s, t, r, again, d).ok
      <==> forall m, b, j :: ReachesRange(p, k, a, s, t, m, b, j) ==> Sound(p, m, b, j)
    ensures WalkRange(p, k, a, s, t, r, again, d).ok <==> forall x :: s <= x < t ==> AllSound(p, k, a, x)
    decreases |p.steps| - k, if s < t then t - s else 0
  {
    if s < t {
      WalkAccepts(p, k, a, s, r, d);
      RangeAccepts(p, k, a, s + 1, t, again, again, d);
      assert forall m, b, j :: Reaches(p, k, a, s, m, b, j) ==> ReachesRange(p, k, a, s, t, m, b, j);
      assert forall m, b, j :: ReachesRange(p, k, a, s + 1, t, m, b, j) ==> ReachesRange(p, k, a, s, t, m, b, j);
    }
  }

  /** A list leaf's rows are accepted exactly when every node reached from any of them is sound. */
  lemma {:induction false} RowsAccepted(p: LeafPath, column: ArrowArray, rows: nat)
    requires WellFormed(p) && Backed(column)
    ensures WalkRange(p, 0, column, 0, rows, 0, 0, 0).ok
      <==> forall x :: 0 <= x < rows ==> AllSound(p, 0, column, x)
  {
    RangeAccepts(p, 0, column, 0, rows, 0, 0, 0);
  }
}
