/**
 The order of value positions. The value builders read the leaf buffer through the presence bitmap,
 so they emit values by increasing position; that is the order of the levels only if the walk's own
 positions increase. They do when list offsets never step back, null entries included. Offsets of
 entries under a null are not checked, so the walk's validation alone is enough exactly on paths
 where no list can lie under a null.
 */
module Order {
  import opened Bits
  import opened Arrow
  import opened Shredding
  import opened Validation

  ghost predicate AllBelow(ps: seq<nat>, qs: seq<nat>) {
    forall i, j :: 0 <= i < |ps| && 0 <= j < |qs| ==> ps[i] < qs[j]
  }

  /** The offsets of entries `lo` up to `hi` never step back. */
  ghost predicate Rising(off: seq<int>, lo: int, hi: int) {
    forall i, j :: 0 <= lo <= i <= j <= hi && j < |off| ==> off[i] <= off[j]
  }

  function Max(a: int, b: int): int { if a < b then b else a }

  /** Down to the leaf, the offsets that entries `lo` up to `hi` can lead to never step back. */
  ghost predicate Steady(p: LeafPath, k: nat, a: ArrowArray, lo: int, hi: int)
    requires WellFormed(p) && k < |p.steps|
    decreases |p.steps| - k
  {
    var st := p.steps[k];
    var next := Next(st, a);
    0 <= lo < hi <= a.length && next.Some? ==>
      if st.kind.StructStep? then Steady(p, k + 1, next.value, lo, Min(hi, next.value.length))
      else a.offsets.Some? && hi < |a.offsets.value| ==>
        && Rising(a.offsets.value, lo, hi)
        && Steady(p, k + 1, next.value, Max(0, a.offsets.value[lo]), Min(a.offsets.value[hi], next.value.length))
  }

  /** The Arrow rule: no offsets in the tree step back, whether or not an entry is null. */
  ghost predicate Ordered(a: ArrowArray) {
    && (a.offsets.Some? ==> Rising(a.offsets.value, 0, a.length))
    && forall i :: 0 <= i < |a.children| ==> Ordered(a.children[i])
  }

  lemma {:induction false} OrderedIsSteady(p: LeafPath, k: nat, a: ArrowArray, lo: int, hi: int)
    requires WellFormed(p) && k < |p.steps| && Ordered(a)
    ensures Steady(p, k, a, lo, hi)
    decreases |p.steps| - k
  {
    var next := Next(p.steps[k], a);
    if next.Some? && 0 <= lo < hi <= a.length {
      NextOrdered(p.steps[k], a);
      if p.steps[k].kind.StructStep? {
        OrderedIsSteady(p, k + 1, next.value, lo, Min(hi, next.value.length));
      } else if a.offsets.Some? && hi < |a.offsets.value| {
        OrderedIsSteady(p, k + 1, next.value, Max(0, a.offsets.value[lo]), Min(a.offsets.value[hi], next.value.length));
      }
    }
  }

  lemma {:induction false} NextOrdered(st: PathStep, a: ArrowArray)
    requires Ordered(a) && Next(st, a).Some?
    ensures Ordered(Next(st, a).value)
  {
    if st.kind.MapStep? { assert Ordered(a.children[0]); }
  }

  // ---- an accepted walk over steady offsets marks increasing positions ------------------------

  /** Values of an earlier entry lie before values of a later one. */
  lemma {:induction false} Apart(p: LeafPath, k: nat, a: ArrowArray, lo: int, hi: int, e: int, r: nat, d: nat, e': int, r': nat, d': nat)
    requires WellFormed(p) && k < |p.steps| && Backed(a) && Steady(p, k, a, lo, hi) && 0 <= lo <= e < e' < hi <= a.length
    requires Walk(p, k, a, e, r, d).ok && Walk(p, k, a, e', r', d').ok
    ensures AllBelow(Positions(Walk(p, k, a, e, r, d).out), Positions(Walk(p, k, a, e', r', d').out))
    decreases |p.steps| - k, 2, 0
  {
    match p.steps[k].kind
    case LeafStep => ApartAtLeaf(p, k, a, e, r, d, e', r', d');
    case StructStep => ApartInStruct(p, k, a, lo, hi, e, r, d, e', r', d');
    case _ => ApartInList(p, k, a, lo, hi, e, r, d, e', r', d');
  }

  lemma {:induction false} ApartAtLeaf(p: LeafPath, k: nat, a: ArrowArray, e: int, r: nat, d: nat, e': int, r': nat, d': nat)
    requires WellFormed(p) && k < |p.steps| && Backed(a) && e < e' && p.steps[k].kind.LeafStep?
    requires Walk(p, k, a, e, r, d).ok && Walk(p, k, a, e', r', d').ok
    ensures AllBelow(Positions(Walk(p, k, a, e, r, d).out), Positions(Walk(p, k, a, e', r', d').out))
  {
  }

  lemma {:induction false} ApartInStruct(p: LeafPath, k: nat, a: ArrowArray, lo: int, hi: int, e: int, r: nat, d: nat, e': int, r': nat, d': nat)
    requires WellFormed(p) && k < |p.steps| && Backed(a) && Steady(p, k, a, lo, hi) && 0 <= lo <= e < e' < hi <= a.length
    requires Walk(p, k, a, e, r, d).ok && Walk(p, k, a, e', r', d').ok
    requires p.steps[k].kind.StructStep?
    ensures AllBelow(Positions(Walk(p, k, a, e, r, d).out), Positions(Walk(p, k, a, e', r', d').out))
    decreases |p.steps| - k, 1, 0
  {
    var st := p.steps[k];
    if !(st.optional && (IsNull(p, k, a, e) || IsNull(p, k, a, e'))) {
      var below, more := a.children[st.child], if st.optional then 1 else 0;
      Apart(p, k + 1, below, lo, Min(hi, below.length), e, r, d + more, e', r', d' + more);
    }
  }

  lemma {:induction false} ApartInList(p: LeafPath, k: nat, a: ArrowArray, lo: int, hi: int, e: int, r: nat, d: nat, e': int, r': nat, d': nat)
    requires WellFormed(p) && k < |p.steps| && Backed(a) && Steady(p, k, a, lo, hi) && 0 <= lo <= e < e' < hi <= a.length
    requires Walk(p, k, a, e, r, d).ok && Walk(p, k, a, e', r', d').ok
    requires p.steps[k].kind.Repeats()
    ensures AllBelow(Positions(Walk(p, k, a, e, r, d).out), Positions(Walk(p, k, a, e', r', d').out))
    decreases |p.steps| - k, 1, 0
  {
    var st := p.steps[k];
    if !(st.optional && (IsNull(p, k, a, e) || IsNull(p, k, a, e'))) {
      var more := if st.optional then 2 else 1;
      EntriesApart(p, k, a, lo, hi, e, r, d + more, e', r', d' + more);
      EntryOut(p, k, a, e, r, d);
      EntryOut(p, k, a, e', r', d');
    }
  }

  /** A list entry that is not null marks what its elements mark. */
  lemma {:induction false} EntryOut(p: LeafPath, k: nat, a: ArrowArray, e: int, r: nat, d: nat)
    requires WellFormed(p) && k + 1 < |p.steps| && Backed(a) && p.steps[k].kind.Repeats() && Walk(p, k, a, e, r, d).ok
    requires !(p.steps[k].optional && IsNull(p, k, a, e))
    ensures ListRange(p.steps[k], a, e).Some?
    ensures Positions(Walk(p, k, a, e, r, d).out) == Positions(ElementsOut(p, k, a, e, r, if p.steps[k].optional then d + 2 else d + 1).out)
  {
  }

  /** Elements of an earlier list entry lie before those of a later one. */
  lemma {:induction false} EntriesApart(p: LeafPath, k: nat, a: ArrowArray, lo: int, hi: int, e: int, r: nat, d: nat, e': int, r': nat, d': nat)
    requires WellFormed(p) && k + 1 < |p.steps| && p.steps[k].kind.Repeats()
    requires Backed(a) && a.offset == 0 && Steady(p, k, a, lo, hi) && 0 <= lo <= e < e' < hi <= a.length
    requires ListRange(p.steps[k], a, e).Some? && ListRange(p.steps[k], a, e').Some?
    requires ElementsOut(p, k, a, e, r, d).ok && ElementsOut(p, k, a, e', r', d').ok
    ensures AllBelow(Positions(ElementsOut(p, k, a, e, r, d).out), Positions(ElementsOut(p, k, a, e', r', d').out))
    decreases |p.steps| - k, 0, 0
  {
    var again, x, y := p.steps[k].repLevel, ListRange(p.steps[k], a, e).value, ListRange(p.steps[k], a, e').value;
    EntriesInOrder(p, k, a, lo, hi, e, e');
    var lo', hi' := Max(0, a.offsets.value[lo]), Min(a.offsets.value[hi], x.elements.length);
    RangesApart(p, k + 1, x.elements, lo', hi', x.first, x.end, r, again, d, y.first, y.end, r', again, d');
  }

  /** The walk below a list entry. */
  function ElementsOut(p: LeafPath, k: nat, a: ArrowArray, e: int, r: nat, d: nat): Walked
    requires WellFormed(p) && k + 1 < |p.steps| && p.steps[k].kind.Repeats()
    requires Backed(a) && a.offset <= e < a.offset + a.length && ListRange(p.steps[k], a, e).Some?
  {
    var x := ListRange(p.steps[k], a, e).value;
    WalkRange(p, k + 1, x.elements, x.first, x.end, r, p.steps[k].repLevel, d)
  }

  /** Two list entries' ranges, in entry order, within what the steady offsets allow. */
  lemma {:induction false} EntriesInOrder(p: LeafPath, k: nat, a: ArrowArray, lo: int, hi: int, e: int, e': int)
    requires WellFormed(p) && k < |p.steps| && p.steps[k].kind.Repeats()
    requires Backed(a) && a.offset == 0 && Steady(p, k, a, lo, hi) && 0 <= lo <= e < e' < hi <= a.length
    requires ListRange(p.steps[k], a, e).Some? && ListRange(p.steps[k], a, e').Some?
    ensures var x, y := ListRange(p.steps[k], a, e).value, ListRange(p.steps[k], a, e').value;
      var lo', hi' := Max(0, a.offsets.value[lo]), Min(a.offsets.value[hi], x.elements.length);
      && x.elements == y.elements
      && lo' <= x.first && x.end <= y.first && y.end <= hi'
      && Steady(p, k + 1, x.elements, lo', hi')
  {
  }

  lemma {:induction false} AppendBelow(a: seq<nat>, b: seq<nat>, c: seq<nat>)
    ensures AllBelow(a, c) && AllBelow(b, c) ==> AllBelow(a + b, c)
    ensures AllBelow(c, a) && AllBelow(c, b) ==> AllBelow(c, a + b)
  {
  }

  lemma {:induction false} RangesApart(p: LeafPath, k: nat, a: ArrowArray, lo: int, hi: int,
      s: int, t: int, r: nat, again: nat, d: nat, s': int, t': int, r': nat, again': nat, d': nat)
    requires WellFormed(p) && k < |p.steps| && Backed(a) && Steady(p, k, a, lo, hi)
    requires 0 <= lo <= s <= t <= s' <= t' <= hi <= a.length
    requires WalkRange(p, k, a, s, t, r, again, d).ok && WalkRange(p, k, a, s', t', r', again', d').ok
    ensures AllBelow(Positions(WalkRange(p, k, a, s, t, r, again, d).out), Positions(WalkRange(p, k, a, s', t', r', again', d').out))
    decreases |p.steps| - k, 4, t - s
  {
    if s < t {
      PositionsAppend(Walk(p, k, a, s, r, d).out, WalkRange(p, k, a, s + 1, t, again, again, d).out);
      OneApart(p, k, a, lo, hi, s, r, d, s', t', r', again', d');
      RangesApart(p, k, a, lo, hi, s + 1, t, again, again, d, s', t', r', again', d');
      AppendBelow(Positions(Walk(p, k, a, s, r, d).out), Positions(WalkRange(p, k, a, s + 1, t, again, again, d).out),
        Positions(WalkRange(p, k, a, s', t', r', again', d').out));
    }
  }

  lemma {:induction false} OneApart(p: LeafPath, k: nat, a: ArrowArray, lo: int, hi: int,
      e: int, r: nat, d: nat, s: int, t: int, r': nat, again: nat, d': nat)
    requires WellFormed(p) && k < |p.steps| && Backed(a) && Steady(p, k, a, lo, hi)
    requires 0 <= lo <= e < s <= t <= hi <= a.length
    requires Walk(p, k, a, e, r, d).ok && WalkRange(p, k, a, s, t, r', again, d').ok
    ensures AllBelow(Positions(Walk(p, k, a, e, r, d).out), Positions(WalkRange(p, k, a, s, t, r', again, d').out))
    decreases |p.steps| - k, 3, t - s
  {
    if s < t {
      PositionsAppend(Walk(p, k, a, s, r', d').out, WalkRange(p, k, a, s + 1, t, again, again, d').out);
      Apart(p, k, a, lo, hi, e, r, d, s, r', d');
      OneApart(p, k, a, lo, hi, e, r, d, s + 1, t, again, again, d');
      AppendBelow(Positions(Walk(p, k, a, s, r', d').out), Positions(WalkRange(p, k, a, s + 1, t, again, again, d').out),
        Positions(Walk(p, k, a, e, r, d).out));
    }
  }

  lemma {:induction false} IncreasingAppend(a: seq<nat>, b: seq<nat>)
    requires Increasing(a) && Increasing(b) && AllBelow(a, b)
    ensures Increasing(a + b)
  {
  }

  lemma {:induction false} WalkIncreases(p: LeafPath, k: nat, a: ArrowArray, lo: int, hi: int, e: int, r: nat, d: nat)
    requires WellFormed(p) && k < |p.steps| && Backed(a) && Steady(p, k, a, lo, hi) && 0 <= lo <= e < hi <= a.length
    requires Walk(p, k, a, e, r, d).ok
    ensures Increasing(Positions(Walk(p, k, a, e, r, d).out))
    decreases |p.steps| - k, 2, 0
  {
    match p.steps[k].kind
    case LeafStep =>
    case StructStep => StructIncreases(p, k, a, lo, hi, e, r, d);
    case _ => ListIncreases(p, k, a, lo, hi, e, r, d);
  }

  lemma {:induction false} StructIncreases(p: LeafPath, k: nat, a: ArrowArray, lo: int, hi: int, e: int, r: nat, d: nat)
    requires WellFormed(p) && k < |p.steps| && Backed(a) && Steady(p, k, a, lo, hi) && 0 <= lo <= e < hi <= a.length
    requires Walk(p, k, a, e, r, d).ok
    requires p.steps[k].kind.StructStep?
    ensures Increasing(Positions(Walk(p, k, a, e, r, d).out))
    decreases |p.steps| - k, 1, 0
  {
    var st := p.steps[k];
    if !(st.optional && IsNull(p, k, a, e)) {
      WalkIncreases(p, k + 1, a.children[st.child], lo, Min(hi, a.children[st.child].length), e, r, if st.optional then d + 1 else d);
    }
  }

  lemma {:induction false} ListIncreases(p: LeafPath, k: nat, a: ArrowArray, lo: int, hi: int, e: int, r: nat, d: nat)
    requires WellFormed(p) && k < |p.steps| && Backed(a) && Steady(p, k, a, lo, hi) && 0 <= lo <= e < hi <= a.length
    requires Walk(p, k, a, e, r, d).ok
    requires p.steps[k].kind.Repeats()
    ensures Increasing(Positions(Walk(p, k, a, e, r, d).out))
    decreases |p.steps| - k, 1, 0
  {
    var st := p.steps[k];
    if !(st.optional && IsNull(p, k, a, e)) {
      EntryIncreases(p, k, a, lo, hi, e, r, if st.optional then d + 2 else d + 1);
      EntryOut(p, k, a, e, r, d);
    }
  }

  lemma {:induction false} EntryIncreases(p: LeafPath, k: nat, a: ArrowArray, lo: int, hi: int, e: int, r: nat, d: nat)
    requires WellFormed(p) && k + 1 < |p.steps| && p.steps[k].kind.Repeats()
    requires Backed(a) && a.offset == 0 && Steady(p, k, a, lo, hi) && 0 <= lo <= e < hi <= a.length
    requires ListRange(p.steps[k], a, e).Some? && ElementsOut(p, k, a, e, r, d).ok
    ensures Increasing(Positions(ElementsOut(p, k, a, e, r, d).out))
    decreases |p.steps| - k, 0, 0
  {
    var x := ListRange(p.steps[k], a, e).value;
    var lo', hi' := Max(0, a.offsets.value[lo]), Min(a.offsets.value[hi], x.elements.length);
    RangeIncreases(p, k + 1, x.elements, lo', hi', x.first, x.end, r, p.steps[k].repLevel, d);
  }

  lemma {:induction false} RangeIncreases(p: LeafPath, k: nat, a: ArrowArray, lo: int, hi: int, s: int, t: int, r: nat, again: nat, d: nat)
    requires WellFormed(p) && k < |p.steps| && Backed(a) && Steady(p, k, a, lo, hi) && 0 <= lo <= s <= t <= hi <= a.length
    requires WalkRange(p, k, a, s, t, r, again, d).ok
    ensures Increasing(Positions(WalkRange(p, k, a, s, t, r, again, d).out))
    decreases |p.steps| - k, 3, t - s
  {
    if s < t {
      var out, rest := Walk(p, k, a, s, r, d).out, WalkRange(p, k, a, s + 1, t, again, again, d).out;
      WalkIncreases(p, k, a, lo, hi, s, r, d);
      RangeIncreases(p, k, a, lo, hi, s + 1, t, again, again, d);
      OneApart(p, k, a, lo, hi, s, r, d, s + 1, t, again, again, d);
      OutIncreases(out, rest);
    }
  }

  lemma {:induction false} OutIncreases(out: seq<Entry>, rest: seq<Entry>)
    requires Increasing(Positions(out)) && Increasing(Positions(rest)) && AllBelow(Positions(out), Positions(rest))
    ensures Increasing(Positions(out + rest))
  {
    PositionsAppend(out, rest);
    IncreasingAppend(Positions(out), Positions(rest));
  }

  // ---- where validation alone keeps the order -------------------------------------------------

  /** A list or map lies at or below step `k`. */
  predicate ListBelow(steps: seq<PathStep>, k: nat)
    requires k <= |steps|
    decreases |steps| - k
  {
    k < |steps| && (steps[k].kind.Repeats() || ListBelow(steps, k + 1))
  }

  /** A null can hide a list's offsets: some nullable node is a list, or has one below it. */
  predicate Exposed(steps: seq<PathStep>, k: nat)
    requires k <= |steps|
    decreases |steps| - k
  {
    k < |steps| && ((steps[k].optional && ListBelow(steps, k)) || Exposed(steps, k + 1))
  }

  /** Where every entry is validated, adjacent entries in order put all of them in order. */
  lemma {:induction false} AdjacentRising(off: seq<int>, lo: int, hi: int)
    requires 0 <= lo <= hi < |off|
    requires forall i :: lo <= i < hi ==> off[i] <= off[i + 1]
    ensures Rising(off, lo, hi)
    decreases hi - lo
  {
    if lo < hi {
      AdjacentRising(off, lo, hi - 1);
      assert off[hi - 1] <= off[hi - 1 + 1];
    }
  }

  /** Between the first and the last offset, every element belongs to some entry. */
  lemma {:induction false} Covering(off: seq<int>, lo: int, hi: int, x: int) returns (i: int)
    requires 0 <= lo < hi < |off| && off[lo] <= x < off[hi]
    ensures lo <= i < hi && off[i] <= x < off[i + 1]
    decreases hi - lo
  {
    if x < off[lo + 1] { i := lo; } else { i := Covering(off, lo + 1, hi, x); }
  }

  /** Entries that are all accepted have steady offsets if no null can hide any of them. */
  lemma {:induction false} AcceptedIsSteady(p: LeafPath, k: nat, a: ArrowArray, lo: int, hi: int)
    requires WellFormed(p) && k < |p.steps| && Backed(a) && !Exposed(p.steps, k)
    requires forall x :: lo <= x < hi ==> AllSound(p, k, a, x)
    ensures Steady(p, k, a, lo, hi)
    decreases |p.steps| - k
  {
    var st := p.steps[k];
    var next := Next(st, a);
    if next.Some? && 0 <= lo < hi <= a.length && ListBelow(p.steps, k) {
      forall x | lo <= x < hi ensures Sound(p, k, a, x) && !Ends(p, k, a, x) {
        assert AllSound(p, k, a, x) && Reaches(p, k, a, x, k, a, x);
      }
      if st.kind.StructStep? {
        var k', hi' := k + 1, Min(hi, next.value.length);
        forall x | lo <= x < hi' ensures AllSound(p, k', next.value, x) { ChildSound(p, k, a, x); }
        AcceptedIsSteady(p, k', next.value, lo, hi');
      } else {
        assert Sound(p, k, a, lo);
        var off := a.offsets.value;
        forall i | lo <= i < hi ensures off[i] <= off[i + 1] { assert Sound(p, k, a, i); }
        AdjacentRising(off, lo, hi);
        var k', lo', hi' := k + 1, Max(0, off[lo]), Min(off[hi], next.value.length);
        forall x | lo' <= x < hi' ensures AllSound(p, k', next.value, x) {
          var i := Covering(off, lo, hi, x);
          ElementSound(p, k, a, i, x);
        }
        AcceptedIsSteady(p, k', next.value, lo', hi');
      }
    } else {
      NoListIsSteady(p, k, a, lo, hi);
    }
  }

  lemma {:induction false} NoListIsSteady(p: LeafPath, k: nat, a: ArrowArray, lo: int, hi: int)
    requires WellFormed(p) && k < |p.steps|
    requires !ListBelow(p.steps, k) || Next(p.steps[k], a).None? || !(0 <= lo < hi <= a.length)
    ensures Steady(p, k, a, lo, hi)
    decreases |p.steps| - k
  {
    var next := Next(p.steps[k], a);
    if next.Some? && 0 <= lo < hi <= a.length {
      NoListIsSteady(p, k + 1, next.value, lo, Min(hi, next.value.length));
    }
  }

  lemma {:induction false} ChildSound(p: LeafPath, k: nat, a: ArrowArray, e: int)
    requires WellFormed(p) && k < |p.steps| && Backed(a) && p.steps[k].kind.StructStep?
    requires AllSound(p, k, a, e) && Sound(p, k, a, e) && !Ends(p, k, a, e)
    ensures AllSound(p, k + 1, a.children[p.steps[k].child], e)
  {
    forall m, b, j | Reaches(p, k + 1, a.children[p.steps[k].child], e, m, b, j) ensures Sound(p, m, b, j) {
      assert Reaches(p, k, a, e, m, b, j);
    }
  }

  lemma {:induction false} ElementSound(p: LeafPath, k: nat, a: ArrowArray, e: int, x: int)
    requires WellFormed(p) && k < |p.steps| && Backed(a) && p.steps[k].kind.Repeats()
    requires AllSound(p, k, a, e) && Sound(p, k, a, e) && !Ends(p, k, a, e)
    requires var range := ListRange(p.steps[k], a, e).value; range.first <= x < range.end
    ensures AllSound(p, k + 1, ListRange(p.steps[k], a, e).value.elements, x)
  {
    var range := ListRange(p.steps[k], a, e).value;
    forall m, b, j | ReachesRange(p, k + 1, range.elements, range.first, range.end, m, b, j) ensures Sound(p, m, b, j) {
      assert Reaches(p, k, a, e, m, b, j);
    }
    RangeAccepts(p, k + 1, range.elements, range.first, range.end, 0, 0, 0);
  }

  lemma {:induction false} NullTypeMarksNothing(p: LeafPath, k: nat, a: ArrowArray, e: int, r: nat, d: nat)
    requires WellFormed(p) && k < |p.steps| && Backed(a) && p.nullType
    ensures Positions(Walk(p, k, a, e, r, d).out) == []
    decreases |p.steps| - k, 0
  {
    var st := p.steps[k];
    if a.offset == 0 && 0 <= e < a.length && !(st.optional && IsNull(p, k, a, e)) {
      var d' := if st.optional then d + 1 else d;
      match st.kind
      case LeafStep =>
      case StructStep =>
        if st.child < |a.children| { NullTypeMarksNothing(p, k + 1, a.children[st.child], e, r, d'); }
      case _ =>
        match ListRange(st, a, e)
        case None =>
        case Some(x) => NullTypeRangeMarksNothing(p, k + 1, x.elements, x.first, x.end, r, st.repLevel, d' + 1);
    }
  }

  lemma {:induction false} NullTypeRangeMarksNothing(p: LeafPath, k: nat, a: ArrowArray, s: int, t: int, r: nat, again: nat, d: nat)
    requires WellFormed(p) && k < |p.steps| && Backed(a) && p.nullType
    ensures Positions(WalkRange(p, k, a, s, t, r, again, d).out) == []
    decreases |p.steps| - k, if s < t then t - s else 0
  {
    if s < t {
      NullTypeMarksNothing(p, k, a, s, r, d);
      NullTypeRangeMarksNothing(p, k, a, s + 1, t, again, again, d);
      PositionsAppend(Walk(p, k, a, s, r, d).out, WalkRange(p, k, a, s + 1, t, again, again, d).out);
    }
  }

  lemma {:induction false} AcceptedRowsExist(p: LeafPath, a: ArrowArray, rows: nat)
    requires WellFormed(p) && Backed(a) && WalkRange(p, 0, a, 0, rows, 0, 0, 0).ok
    ensures rows <= a.length
  {
    RangeAccepts(p, 0, a, 0, rows, 0, 0, 0);
    if rows > 0 {
      assert AllSound(p, 0, a, rows - 1) && Reaches(p, 0, a, rows - 1, 0, a, rows - 1);
    }
  }

  /** On arrays that keep the Arrow rule every accepted column has its values in increasing positions. */
  lemma {:induction false} OrderedIncreases(p: LeafPath, column: ArrowArray, rows: nat)
    requires WellFormed(p) && Backed(column) && Ordered(column) && WalkRange(p, 0, column, 0, rows, 0, 0, 0).ok
    ensures Increasing(Positions(WalkRange(p, 0, column, 0, rows, 0, 0, 0).out))
  {
    AcceptedRowsExist(p, column, rows);
    OrderedIsSteady(p, 0, column, 0, rows);
    RangeIncreases(p, 0, column, 0, rows, 0, rows, 0, 0, 0);
  }

  // ---- what the presence map is good for ------------------------------------------------------

  /** `value_validity`: no map at all when every leaf position is a value. */
  function ValueValidity(present: bytes, presentCount: nat, length: nat): Option<bytes> {
    if presentCount < length then Some(present) else None
  }

  /** Marking increasing positions in an empty map and reading the map back gives the positions. */
  lemma {:induction false} MarkSelects(ps: seq<nat>, n: nat)
    requires Below(ps, n) && Increasing(ps)
    ensures Selected(Some(Mark(Zeros(n), ps)), n) == ps
  {
    MarkSets(Zeros(n), ps);
    SelectedAre(Some(Mark(Zeros(n), ps)), n);
    IncreasingUnique(Selected(Some(Mark(Zeros(n), ps)), n), ps);
  }

  /**
   Reading the leaf buffer through the map gives the values in emission order, and leaving the map
   out happens only when every position is a value.
   */
  lemma {:induction false} PresenceSelectsPositions(out: seq<Entry>, leafLength: nat)
    requires Below(Positions(out), leafLength) && Increasing(Positions(out))
    ensures var sh := Shredded([], [], Zeros(leafLength), 0).Add(out);
      && Selected(Some(sh.present), leafLength) == Positions(out)
      && sh.presentCount == Popcount(sh.present, leafLength)
      && Selected(ValueValidity(sh.present, sh.presentCount, leafLength), leafLength) == Positions(out)
  {
    var sh := Shredded([], [], Zeros(leafLength), 0).Add(out);
    MarkSelects(Positions(out), leafLength);
    if sh.presentCount >= leafLength {
      SelectedFull(Some(sh.present), leafLength);
    }
  }
}
