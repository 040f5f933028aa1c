/**
 Where validation does not keep the values in order: columns that the walk accepts and whose values
 come out of position order, one for every path on which a null can hide a list's offsets.
 */
module HiddenOffsets {
  import opened Bits
  import opened Arrow
  import opened Shredding
  import opened Validation
  import opened Order

  /** `n` entries, none null, each list holding the element of its own index. */
  function Untwisted(p: LeafPath, k: nat, n: nat): (a: ArrowArray)
    requires WellFormed(p) && k < |p.steps|
    ensures Backed(a) && a.length == n && a.offset == 0 && a.nullCount == 0
    decreases |p.steps| - k
  {
    StepNode(p, k, n, None, seq(n + 1, i => i), if p.steps[k].kind.LeafStep? then None else Some(Untwisted(p, k + 1, n)))
  }

  /** An array at step `k` of the path with the given contents. */
  function StepNode(p: LeafPath, k: nat, n: nat, validity: Option<bytes>, off: seq<int>, next: Option<ArrowArray>): (a: ArrowArray)
    requires WellFormed(p) && k < |p.steps|
    requires Covers(validity, n) && |off| == n + 1
    requires next.Some? ==> Backed(next.value) && next.value.length >= 0 && next.value.offset == 0
    ensures Backed(a) && a.length == n && a.offset == 0
  {
    var nulls := if validity.None? then 0 else 1;
    var a := ArrowArray(n, nulls, 0, 2, validity, Some(off), [], []);
    match next
    case None => a
    case Some(x) =>
      if p.steps[k].kind.MapStep? then
        var entries := ArrowArray(x.length, 0, 0, 1, None, None, [], [x, x]);
        assert Backed(entries);
        a.(children := [entries])
      else if p.steps[k].kind.StructStep? then a.(children := seq(p.steps[k].child + 1, _ => x))
      else a.(children := [x])
  }

  /** Three entries; the first list below gives entry 0 its element 1, entry 2 its element 0, and entry 1 offsets that step back. */
  function Twisted(p: LeafPath, k: nat, validity: Option<bytes>): (a: ArrowArray)
    requires WellFormed(p) && k < |p.steps| && ListBelow(p.steps, k) && Covers(validity, 3)
    ensures Backed(a) && a.length == 3 && a.offset == 0
    decreases |p.steps| - k
  {
    if p.steps[k].kind.Repeats() then StepNode(p, k, 3, validity, [1, 2, 0, 1], Some(Untwisted(p, k + 1, 2)))
    else
      assert ListBelow(p.steps, k + 1);
      StepNode(p, k, 3, validity, [0, 1, 2, 3], Some(Twisted(p, k + 1, None)))
  }

  /** A column in which a null at entry 1 hides the offsets that step back. */
  function Hidden(p: LeafPath, k: nat): (a: ArrowArray)
    requires WellFormed(p) && k < |p.steps| && Exposed(p.steps, k)
    ensures Backed(a) && a.length == 3 && a.offset == 0
    decreases |p.steps| - k
  {
    if p.steps[k].optional && ListBelow(p.steps, k) then Twisted(p, k, Some([5]))
    else
      assert Exposed(p.steps, k + 1);
      StepNode(p, k, 3, None, [0, 1, 2, 3], Some(Hidden(p, k + 1)))
  }

  /** What a walk that accepts entry `e` of one of these arrays marks. */
  ghost predicate Marks(p: LeafPath, k: nat, a: ArrowArray, e: int, r: nat, d: nat, ps: seq<nat>)
    requires WellFormed(p) && k < |p.steps| && Backed(a)
  {
    Walk(p, k, a, e, r, d).ok && Positions(Walk(p, k, a, e, r, d).out) == ps
  }

  /** The same, whatever levels the walk is entered at. */
  ghost predicate MarksAt(p: LeafPath, k: nat, a: ArrowArray, e: int, ps: seq<nat>)
    requires WellFormed(p) && k < |p.steps| && Backed(a)
  {
    forall r: nat, d: nat :: Marks(p, k, a, e, r, d, ps)
  }

  lemma {:induction false} NodeNext(p: LeafPath, k: nat, n: nat, validity: Option<bytes>, off: seq<int>, next: ArrowArray)
    requires WellFormed(p) && k < |p.steps| && !p.steps[k].kind.LeafStep?
    requires Covers(validity, n) && |off| == n + 1 && Backed(next) && next.offset == 0
    ensures Next(p.steps[k], StepNode(p, k, n, validity, off, Some(next))) == Some(next)
  {
  }

  /** A node whose entry `e` holds just the element `x`. */
  lemma {:induction false} NodeMarks(p: LeafPath, k: nat, n: nat, validity: Option<bytes>, off: seq<int>, next: ArrowArray, e: nat, x: nat, ps: seq<nat>)
    requires WellFormed(p) && k < |p.steps| && !p.steps[k].kind.LeafStep?
    requires Covers(validity, n) && |off| == n + 1 && Backed(next) && next.offset == 0
    requires e < n && ValidBit(validity, e) && x < next.length
    requires if p.steps[k].kind.StructStep? then x == e else off[e] == x && off[e + 1] == x + 1
    requires MarksAt(p, k + 1, next, x, ps)
    ensures MarksAt(p, k, StepNode(p, k, n, validity, off, Some(next)), e, ps)
  {
    NodeNext(p, k, n, validity, off, next);
    var st := p.steps[k];
    var a := StepNode(p, k, n, validity, off, Some(next));
    assert Valid(a, e);
    forall r: nat, d: nat ensures Marks(p, k, a, e, r, d, ps) {
      var d' := if st.optional then d + 1 else d;
      if st.kind.StructStep? {
        assert Marks(p, k + 1, next, x, r, d', ps);
      } else {
        assert ListRange(st, a, e) == Some(Range(next, x, x + 1));
        assert Marks(p, k + 1, next, x, r, d' + 1, ps);
        var w := Walk(p, k + 1, next, x, r, d' + 1);
        assert w.out + [] == w.out;
        assert WalkRange(p, k + 1, next, x, x + 1, r, st.repLevel, d' + 1) == w;
      }
    }
  }

  lemma {:induction false} NodeNull(p: LeafPath, k: nat, n: nat, validity: Option<bytes>, off: seq<int>, next: ArrowArray, e: nat)
    requires WellFormed(p) && k < |p.steps| && p.steps[k].optional
    requires Covers(validity, n) && |off| == n + 1 && Backed(next) && next.offset == 0
    requires e < n && !ValidBit(validity, e)
    ensures MarksAt(p, k, StepNode(p, k, n, validity, off, Some(next)), e, [])
  {
    var a := StepNode(p, k, n, validity, off, Some(next));
    assert !Valid(a, e);
    forall r: nat, d: nat ensures Marks(p, k, a, e, r, d, []) {
      assert Walk(p, k, a, e, r, d) == Walked(true, [Entry(r, d, None)]);
    }
  }

  /** A walk that is accepted and starts with an entry at least as deep as `d`. */
  predicate StartsAt(w: Walked, d: nat) { w.ok && w.out != [] && w.out[0].def >= d }

  /** A list entry of one element is that element's walk. */
  lemma {:induction false} OneElement(p: LeafPath, k: nat, a: ArrowArray, next: ArrowArray, e: nat, x: nat, r: nat, d: nat)
    requires WellFormed(p) && k + 1 < |p.steps| && p.steps[k].kind.Repeats() && Backed(a) && a.offset == 0 && e < a.length
    requires if p.steps[k].optional then Valid(a, e) else a.nullCount <= 0 || Valid(a, e)
    requires Backed(next) && ListRange(p.steps[k], a, e) == Some(Range(next, x, x + 1))
    ensures var below := Walk(p, k + 1, next, x, r, (if p.steps[k].optional then d + 1 else d) + 1);
      below.ok ==> Walk(p, k, a, e, r, d) == below
  {
    var st, d' := p.steps[k], (if p.steps[k].optional then d + 1 else d) + 1;
    var below := Walk(p, k + 1, next, x, r, d');
    assert WalkRange(p, k + 1, next, x + 1, x + 1, st.repLevel, st.repLevel, d') == Walked(true, []);
    if below.ok {
      assert below.out + [] == below.out;
      assert WalkRange(p, k + 1, next, x, x + 1, r, st.repLevel, d') == below;
    }
  }

  lemma {:induction false} UntwistedStarts(p: LeafPath, k: nat, n: nat, e: nat, r: nat, d: nat)
    requires WellFormed(p) && k < |p.steps| && e < n
    ensures StartsAt(Walk(p, k, Untwisted(p, k, n), e, r, d), d)
    decreases |p.steps| - k
  {
    var st, a := p.steps[k], Untwisted(p, k, n);
    if !st.kind.LeafStep? {
      var next, d' := Untwisted(p, k + 1, n), if st.optional then d + 1 else d;
      NodeNext(p, k, n, None, seq(n + 1, i => i), next);
      if st.kind.StructStep? {
        UntwistedStarts(p, k + 1, n, e, r, d');
      } else {
        UntwistedStarts(p, k + 1, n, e, r, d' + 1);
        OneElement(p, k, a, next, e, e, r, d);
      }
    }
  }

  lemma {:induction false} PlainMarks(p: LeafPath, k: nat, n: nat, e: nat)
    requires WellFormed(p) && k < |p.steps| && !p.nullType && e < n
    ensures MarksAt(p, k, Untwisted(p, k, n), e, [e])
    decreases |p.steps| - k
  {
    if p.steps[k].kind.LeafStep? {
      forall r: nat, d: nat ensures Marks(p, k, Untwisted(p, k, n), e, r, d, [e]) {
        assert Positions([Entry(r, if p.steps[k].optional then d + 1 else d, Some(e))]) == [e];
      }
    } else {
      PlainMarks(p, k + 1, n, e);
      NodeMarks(p, k, n, None, seq(n + 1, i => i), Untwisted(p, k + 1, n), e, e, [e]);
    }
  }

  lemma {:induction false} TwistedMarks(p: LeafPath, k: nat, validity: Option<bytes>, e: nat)
    requires WellFormed(p) && k < |p.steps| && ListBelow(p.steps, k) && Covers(validity, 3) && !p.nullType
    requires (e == 0 || e == 2) && ValidBit(validity, e)
    ensures MarksAt(p, k, Twisted(p, k, validity), e, [if e == 0 then 1 else 0])
    decreases |p.steps| - k
  {
    var x := if e == 0 then 1 else 0;
    if p.steps[k].kind.Repeats() {
      PlainMarks(p, k + 1, 2, x);
      NodeMarks(p, k, 3, validity, [1, 2, 0, 1], Untwisted(p, k + 1, 2), e, x, [x]);
    } else {
      assert ListBelow(p.steps, k + 1);
      TwistedMarks(p, k + 1, None, e);
      NodeMarks(p, k, 3, validity, [0, 1, 2, 3], Twisted(p, k + 1, None), e, e, [x]);
    }
  }

  /** Entry 0 of the column marks position 1, entry 1 is null, and entry 2 marks position 0. */
  lemma {:induction false} HiddenMarks(p: LeafPath, k: nat, e: nat)
    requires WellFormed(p) && k < |p.steps| && Exposed(p.steps, k) && !p.nullType && e < 3
    ensures MarksAt(p, k, Hidden(p, k), e, if e == 0 then [1] else if e == 1 then [] else [0])
    decreases |p.steps| - k
  {
    var ps: seq<nat> := if e == 0 then [1] else if e == 1 then [] else [0];
    if p.steps[k].optional && ListBelow(p.steps, k) {
      assert BitOf(5, 0) && !BitOf(5, 1) && BitOf(5, 2);
      if e != 1 {
        TwistedMarks(p, k, Some([5]), e);
      } else if p.steps[k].kind.Repeats() {
        NodeNull(p, k, 3, Some([5]), [1, 2, 0, 1], Untwisted(p, k + 1, 2), e);
      } else {
        assert ListBelow(p.steps, k + 1);
        NodeNull(p, k, 3, Some([5]), [0, 1, 2, 3], Twisted(p, k + 1, None), e);
      }
    } else {
      assert Exposed(p.steps, k + 1);
      HiddenMarks(p, k + 1, e);
      NodeMarks(p, k, 3, None, [0, 1, 2, 3], Hidden(p, k + 1), e, e, ps);
    }
  }

  lemma {:induction false} RowFirst(p: LeafPath, a: ArrowArray, s: int, t: int, ps: seq<nat>)
    requires WellFormed(p) && Backed(a) && s < t && MarksAt(p, 0, a, s, ps) && WalkRange(p, 0, a, s + 1, t, 0, 0, 0).ok
    ensures var w := WalkRange(p, 0, a, s, t, 0, 0, 0);
      w.ok && Positions(w.out) == ps + Positions(WalkRange(p, 0, a, s + 1, t, 0, 0, 0).out)
  {
    assert Marks(p, 0, a, s, 0, 0, ps);
    PositionsAppend(Walk(p, 0, a, s, 0, 0).out, WalkRange(p, 0, a, s + 1, t, 0, 0, 0).out);
  }

  lemma {:induction false} HiddenRows(p: LeafPath)
    requires WellFormed(p) && Exposed(p.steps, 0) && !p.nullType
    ensures var w := WalkRange(p, 0, Hidden(p, 0), 0, 3, 0, 0, 0); w.ok && Positions(w.out) == [1, 0]
  {
    var a := Hidden(p, 0);
    HiddenMarks(p, 0, 0);
    HiddenMarks(p, 0, 1);
    HiddenMarks(p, 0, 2);
    RowFirst(p, a, 2, 3, [0]);
    RowFirst(p, a, 1, 3, []);
    RowFirst(p, a, 0, 3, [1]);
  }

  /** Every column that the walk accepts has its values in increasing positions. */
  ghost predicate ValidationSuffices(p: LeafPath)
    requires WellFormed(p)
  {
    forall a, rows: nat :: Backed(a) && WalkRange(p, 0, a, 0, rows, 0, 0, 0).ok
      ==> Increasing(Positions(WalkRange(p, 0, a, 0, rows, 0, 0, 0).out))
  }

  /**
   The walk's own checks put the values in increasing positions, whatever the arrays, exactly for
   paths on which no null can hide a list's offsets (and for leaves that never have a value).
   */
  lemma {:induction false} ValidationSufficesIff(p: LeafPath)
    requires WellFormed(p)
    ensures ValidationSuffices(p) <==> p.nullType || !Exposed(p.steps, 0)
  {
    if !p.nullType && Exposed(p.steps, 0) {
      HiddenRows(p);
      var ps := Positions(WalkRange(p, 0, Hidden(p, 0), 0, 3, 0, 0, 0).out);
      assert ps[0] > ps[1];
    } else {
      forall a, rows: nat | Backed(a) && WalkRange(p, 0, a, 0, rows, 0, 0, 0).ok
        ensures Increasing(Positions(WalkRange(p, 0, a, 0, rows, 0, 0, 0).out))
      {
        if p.nullType {
          NullTypeRangeMarksNothing(p, 0, a, 0, rows, 0, 0, 0);
        } else {
          RangeAccepts(p, 0, a, 0, rows, 0, 0, 0);
          AcceptedRowsExist(p, a, rows);
          AcceptedIsSteady(p, 0, a, 0, rows);
          RangeIncreases(p, 0, a, 0, rows, 0, rows, 0, 0, 0);
        }
      }
    }
  }
}
