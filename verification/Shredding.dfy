/**
 Dremel shredding of one leaf column (section 4.1 of Melnik et al., VLDB 2010): the walk over the
 Arrow arrays on the leaf's path that emits repetition and definition levels and marks which
 positions of the leaf array are values.

 `Walk` says what a walk from one node does; `Shredder` is the imperative walk, proved equal to it.
 */
module Shredding {
  import opened Bits
  import opened Arrow
  import opened Records

  datatype StepKind = StructStep | ListStep | LargeListStep | MapStep | LeafStep {
    predicate Repeats() { ListStep? || LargeListStep? || MapStep? }
  }

  /** One Arrow node on a leaf's path, from the record batch's column down to the leaf. */
  datatype PathStep = PathStep(kind: StepKind, optional: bool, child: nat, repLevel: nat)

  /** A leaf's path; `nullType` marks a leaf of the Arrow null type, whose every value is null. */
  datatype LeafPath = LeafPath(steps: seq<PathStep>, nullType: bool)

  function LayerOf(st: PathStep): Layer {
    Layer(if st.kind.LeafStep? then Leaf else if st.kind.StructStep? then One else Many, st.optional)
  }

  /** How the path nests values, all that a reader of its levels needs to know. */
  function ShapeOf(steps: seq<PathStep>): (sh: Shape)
    ensures |sh| == |steps| && forall i :: 0 <= i < |sh| ==> sh[i] == LayerOf(steps[i])
  {
    seq(|steps|, i requires 0 <= i < |steps| => LayerOf(steps[i]))
  }

  /** A path as schema flattening builds it: one leaf at the end, lists numbered from 1. */
  ghost predicate WellFormed(p: LeafPath) {
    && Rooted(ShapeOf(p.steps))
    && (forall i :: 0 <= i < |p.steps| && p.steps[i].kind.Repeats() ==> p.steps[i].repLevel == RepAbove(ShapeOf(p.steps), i + 1))
    && (forall i :: 0 <= i < |p.steps| && p.steps[i].kind.MapStep? ==> p.steps[i].child < 2)
    && (p.nullType ==> p.steps[|p.steps| - 1].optional)
  }

  /** One emitted level pair, with the leaf position when the entry is a value. */
  datatype Entry = Entry(rep: nat, def: nat, pos: Option<nat>)

  /** What a walk emitted, and whether it accepted everything it reached. */
  datatype Walked = Walked(ok: bool, out: seq<Entry>)

  const REFUSED := Walked(false, [])

  predicate IsNull(p: LeafPath, k: nat, a: ArrowArray, e: int)
    requires k < |p.steps| && Backed(a) && a.offset <= e < a.offset + a.length
  {
    (p.steps[k].kind.LeafStep? && p.nullType) || !Valid(a, e)
  }

  /** The array that a step leads to: a struct's child, a list's elements, a map's keys or values. */
  function Next(st: PathStep, a: ArrowArray): (c: Option<ArrowArray>)
    ensures c.Some? && Backed(a) ==> Backed(c.value)
    ensures c.Some? ==> c.value < a
  {
    match st.kind
    case LeafStep => None
    case StructStep => if st.child < |a.children| then Some(a.children[st.child]) else None
    case MapStep =>
      if |a.children| >= 1 && |a.children[0].children| == 2 && st.child < 2
      then
        assert Backed(a) ==> Backed(a.children[0]);
        Some(a.children[0].children[st.child])
      else None
    case _ => if |a.children| >= 1 then Some(a.children[0]) else None
  }

  /** The elements of list or map entry `e`; none if the entry's offsets are refused. */
  function ListRange(st: PathStep, a: ArrowArray, e: int): (r: Option<Range>)
    requires st.kind.Repeats() && Backed(a) && a.offset <= e < a.offset + a.length
    ensures r.Some? ==> Backed(r.value.elements) && r.value.first <= r.value.end <= r.value.elements.length
    ensures r.Some? ==> Next(st, a) == Some(r.value.elements)
  {
    if a.nBuffers < 2 || a.offsets.None? || Next(st, a).None? then None else
    var s, t := a.offsets.value[e], a.offsets.value[e + 1];
    if st.kind.MapStep? && (a.children[0].offset != 0 || t > a.children[0].length) then None
    else InRange(Next(st, a).value, s, t)
  }

  function InRange(elements: ArrowArray, s: int, t: int): Option<Range> {
    if s < 0 || t < s || t > elements.length then None else Some(Range(elements, s, t))
  }

  /** The walk from entry `e` of array `a`, at step `k` of the path, entered at levels `r` and `d`. */
  function Walk(p: LeafPath, k: nat, a: ArrowArray, e: int, r: nat, d: nat): Walked
    requires WellFormed(p) && k < |p.steps| && Backed(a)
    decreases |p.steps| - k, 0
  {
    var st := p.steps[k];
    if a.offset != 0 || e < 0 || e >= a.length then REFUSED
    else if st.optional && IsNull(p, k, a, e) then Walked(true, [Entry(r, d, None)])
    else if !st.optional && a.nullCount > 0 && !Valid(a, e) then REFUSED
    else
      var d' := if st.optional then d + 1 else d;
      match st.kind
      case LeafStep => Walked(true, [Entry(r, d', Some(e))])
      case StructStep =>
        if st.child >= |a.children| then REFUSED else Walk(p, k + 1, a.children[st.child], e, r, d')
      case _ =>
        match ListRange(st, a, e)
        case None => REFUSED
        case Some(range) =>
          if range.first == range.end then Walked(true, [Entry(r, d', None)])
          else WalkRange(p, k + 1, range.elements, range.first, range.end, r, st.repLevel, d' + 1)
  }

  /** Entries `s` up to `t` in order, the first at repetition level `r`, the others at `again`. */
  function WalkRange(p: LeafPath, k: nat, a: ArrowArray, s: int, t: int, r: nat, again: nat, d: nat): (w: Walked)
    requires WellFormed(p) && k < |p.steps| && Backed(a)
    ensures s >= t ==> w == Walked(true, [])
    decreases |p.steps| - k, if s < t then t - s else 0
  {
    if s >= t then Walked(true, []) else
      var w := Walk(p, k, a, s, r, d);
      if !w.ok then w else
        var rest := WalkRange(p, k, a, s + 1, t, again, again, d);
        Walked(rest.ok, w.out + rest.out)
  }

  /** What is left of a range after one more entry. */
  lemma {:induction false} RangeStep(p: LeafPath, k: nat, a: ArrowArray, j: int, t: int, r: nat, again: nat, d: nat, done: seq<Entry>, total: Walked)
    requires WellFormed(p) && k < |p.steps| && Backed(a) && j < t
    requires total == Walked(WalkRange(p, k, a, j, t, r, again, d).ok, done + WalkRange(p, k, a, j, t, r, again, d).out)
    ensures var w := Walk(p, k, a, j, r, d);
      total == if !w.ok then Walked(false, done + w.out)
               else Walked(WalkRange(p, k, a, j + 1, t, again, again, d).ok, done + w.out + WalkRange(p, k, a, j + 1, t, again, again, d).out)
  {
    var w := Walk(p, k, a, j, r, d);
    assert done + (w.out + WalkRange(p, k, a, j + 1, t, again, again, d).out) == done + w.out + WalkRange(p, k, a, j + 1, t, again, again, d).out;
  }

  /** `write_list_leaf`: the leaf array, found by following the path's steps from the column's array. */
  function LeafArray(steps: seq<PathStep>, k: nat, a: ArrowArray): Option<ArrowArray>
    requires k < |steps|
    decreases |steps| - k
  {
    if steps[k].kind.LeafStep? then Some(a)
    else if Next(steps[k], a).None? || k + 1 == |steps| then None
    else LeafArray(steps, k + 1, Next(steps[k], a).value)
  }

  function Reps(out: seq<Entry>): seq<nat> {
    seq(|out|, i requires 0 <= i < |out| => out[i].rep)
  }

  function Defs(out: seq<Entry>): seq<nat> {
    seq(|out|, i requires 0 <= i < |out| => out[i].def)
  }

  lemma {:induction false} LevelsAppend(a: seq<Entry>, b: seq<Entry>)
    ensures Reps(a + b) == Reps(a) + Reps(b)
    ensures Defs(a + b) == Defs(a) + Defs(b)
  {
  }

  /** The leaf positions of the emitted values, in emission order. */
  function Positions(out: seq<Entry>): seq<nat> {
    if out == [] then [] else
      Positions(out[..|out| - 1]) + (match out[|out| - 1].pos case None => [] case Some(p) => [p])
  }

  lemma {:induction false} PositionsAppend(a: seq<Entry>, b: seq<Entry>)
    ensures Positions(a + b) == Positions(a) + Positions(b)
  {
    if b == [] {
      assert a + b == a;
    } else {
      assert (a + b)[..|a + b| - 1] == a + b[..|b| - 1];
      PositionsAppend(a, b[..|b| - 1]);
    }
  }

  ghost predicate Below(ps: seq<nat>, n: int) {
    forall i :: 0 <= i < |ps| ==> ps[i] < n
  }

  /** The presence bitmap after marking `ps` in it. */
  function Mark(bm: bytes, ps: seq<nat>): (r: bytes)
    requires Below(ps, 8 * |bm|)
    ensures |r| == |bm|
  {
    if ps == [] then bm else SetBit(Mark(bm, ps[..|ps| - 1]), ps[|ps| - 1])
  }

  /** Exactly the marked positions are set besides what was set before, in whatever order they came. */
  lemma {:induction false} MarkSets(bm: bytes, ps: seq<nat>)
    requires Below(ps, 8 * |bm|)
    ensures forall j :: 0 <= j < 8 * |bm| ==> Bit(Mark(bm, ps), j) == (j in ps || Bit(bm, j))
  {
    if ps != [] {
      assert ps == ps[..|ps| - 1] + [ps[|ps| - 1]];
      MarkSets(bm, ps[..|ps| - 1]);
      SetBitSets(Mark(bm, ps[..|ps| - 1]), ps[|ps| - 1]);
    }
  }

  lemma {:induction false} MarkOneMore(bm: bytes, ps: seq<nat>, q: nat)
    requires Below(ps, 8 * |bm|) && q < 8 * |bm|
    ensures Below(ps + [q], 8 * |bm|) && Mark(bm, ps + [q]) == SetBit(Mark(bm, ps), q)
  {
    assert (ps + [q])[..|ps|] == ps;
  }

  lemma {:induction false} MarkOne(bm: bytes, q: nat)
    requires q < 8 * |bm|
    ensures Below([q], 8 * |bm|) && Mark(bm, [q]) == SetBit(bm, q)
  {
    assert [q][..0] == [];
    assert Mark(bm, []) == bm;
  }

  lemma {:induction false} MarkAppend(bm: bytes, a: seq<nat>, b: seq<nat>)
    requires Below(a, 8 * |bm|) && Below(b, 8 * |bm|)
    ensures Mark(bm, a + b) == Mark(Mark(bm, a), b)
  {
    if b == [] {
      assert a + b == a;
    } else {
      assert (a + b)[..|a + b| - 1] == a + b[..|b| - 1];
      MarkAppend(bm, a, b[..|b| - 1]);
    }
  }

  /** One value alone. */
  lemma {:induction false} ValueEntry(r: nat, d: nat, e: nat)
    ensures Positions([Entry(r, d, Some(e))]) == [e] && Reps([Entry(r, d, Some(e))]) == [r] && Defs([Entry(r, d, Some(e))]) == [d]
  {
    var x := [Entry(r, d, Some(e))];
    assert Reps(x)[0] == r && Defs(x)[0] == d;
    assert Positions(x[..0]) == [];
  }

  /** One leaf's levels, and the presence map over its leaf array. */
  datatype Shredded = Shredded(rep: seq<nat>, def: seq<nat>, present: bytes, presentCount: nat) {
    /** Everything in `out` appended, and the position of each of its values marked. */
    function Add(out: seq<Entry>): Shredded
      requires Below(Positions(out), 8 * |present|)
    {
      Shredded(rep + Reps(out), def + Defs(out), Mark(present, Positions(out)), presentCount + |Positions(out)|)
    }

    lemma {:induction false} AddNothing()
      ensures Below(Positions([]), 8 * |present|) && Add([]) == this
    {
      assert rep + Reps([]) == rep && def + Defs([]) == def;
    }

    lemma {:induction false} AddValue(r: nat, d: nat, e: nat)
      requires e < 8 * |present|
      ensures Below(Positions([Entry(r, d, Some(e))]), 8 * |present|)
      ensures Add([Entry(r, d, Some(e))]) == Shredded(rep + [r], def + [d], SetBit(present, e), presentCount + 1)
    {
      ValueEntry(r, d, e);
      MarkOne(present, e);
    }

    lemma {:induction false} AddAppend(a: seq<Entry>, b: seq<Entry>)
      requires Below(Positions(a), 8 * |present|) && Below(Positions(b), 8 * |present|)
      ensures Below(Positions(a + b), 8 * |present|)
      ensures Add(a + b) == Add(a).Add(b)
    {
      PositionsAppend(a, b);
      MarkAppend(present, Positions(a), Positions(b));
      LevelsAppend(a, b);
      assert rep + Reps(a + b) == rep + Reps(a) + Reps(b);
      assert def + Defs(a + b) == def + Defs(a) + Defs(b);
    }
  }

  /** Every position a walk marks lies inside the leaf array that `LeafArray` finds. */
  lemma {:induction false} PositionsInLeaf(p: LeafPath, k: nat, a: ArrowArray, e: int, r: nat, d: nat)
    requires WellFormed(p) && k < |p.steps| && Backed(a) && LeafArray(p.steps, k, a).Some?
    ensures Below(Positions(Walk(p, k, a, e, r, d).out), LeafArray(p.steps, k, a).value.length)
    decreases |p.steps| - k, 0
  {
    var st := p.steps[k];
    if a.offset != 0 || e < 0 || e >= a.length {
    } else if st.optional && IsNull(p, k, a, e) {
    } else if !st.optional && a.nullCount > 0 && !Valid(a, e) {
    } else {
      var d' := if st.optional then d + 1 else d;
      match st.kind
      case LeafStep =>
      case StructStep =>
        PositionsInLeaf(p, k + 1, a.children[st.child], e, r, d');
      case _ =>
        match ListRange(st, a, e)
        case None =>
        case Some(range) =>
          PositionsInLeafRange(p, k + 1, range.elements, range.first, range.end, r, st.repLevel, d' + 1);
    }
  }

  lemma {:induction false} PositionsInLeafRange(p: LeafPath, k: nat, a: ArrowArray, s: int, t: int, r: nat, again: nat, d: nat)
    requires WellFormed(p) && k < |p.steps| && Backed(a) && LeafArray(p.steps, k, a).Some?
    ensures Below(Positions(WalkRange(p, k, a, s, t, r, again, d).out), LeafArray(p.steps, k, a).value.length)
    decreases |p.steps| - k, if s < t then t - s else 0
  {
    if s < t {
      PositionsInLeaf(p, k, a, s, r, d);
      PositionsInLeafRange(p, k, a, s + 1, t, again, again, d);
      PositionsAppend(Walk(p, k, a, s, r, d).out, WalkRange(p, k, a, s + 1, t, again, again, d).out);
    }
  }

  /** The levels shredded so far and the presence map over the leaf array. */
  class Shredder {
    const path: LeafPath
    const present: array<byte>
    var rep: seq<nat>
    var def: seq<nat>
    var presentCount: nat

    constructor (path: LeafPath, leafLength: nat)
      ensures this.path == path && fresh(present)
      ensures rep == [] && def == [] && presentCount == 0
      ensures present[..] == Zeros(leafLength)
    {
      this.path := path;
      present := new byte[(leafLength + 7) / 8](_ => 0);
      rep, def, presentCount := [], [], 0;
      new;
      assert present[..] == Zeros(leafLength);
    }

    /** The presence map has room for every entry of the leaf array below `a`. */
    ghost predicate HasRoom(k: nat, a: ArrowArray)
      requires k < |path.steps|
    {
      var leaf := LeafArray(path.steps, k, a);
      leaf.Some? && leaf.value.length <= 8 * present.Length
    }

    ghost function State(): Shredded
      reads this, present
    {
      Shredded(rep, def, present[..], presentCount)
    }

    method Emit(r: nat, d: nat)
      modifies this`rep, this`def
      ensures Below(Positions([Entry(r, d, None)]), 8 * present.Length)
      ensures State() == old(State()).Add([Entry(r, d, None)])
    {
      assert Reps([Entry(r, d, None)]) == [r] && Defs([Entry(r, d, None)]) == [d];
      assert Positions([Entry(r, d, None)]) == [];
      rep, def := rep + [r], def + [d];
    }

    method EmitValue(r: nat, d: nat, e: nat)
      requires e < 8 * present.Length
      modifies this, present
      ensures Below(Positions([Entry(r, d, Some(e))]), 8 * present.Length)
      ensures State() == old(State()).Add([Entry(r, d, Some(e))])
    {
      State().AddValue(r, d, e);
      rep, def := rep + [r], def + [d];
      present[e / 8] := ByteWithBit(present[e / 8], e % 8);
      presentCount := presentCount + 1;
      assert present[..] == SetBit(old(present[..]), e);
    }

    /** The column's rows, up to the first that is refused. */
    method Rows(column: ArrowArray, rows: nat) returns (ok: bool)
      requires WellFormed(path) && Backed(column) && HasRoom(0, column)
      modifies this, present
      ensures var w := WalkRange(path, 0, column, 0, rows, 0, 0, 0);
        ok == w.ok && Below(Positions(w.out), 8 * present.Length) && State() == old(State()).Add(w.out)
    {
      var e := 0;
      ghost var done, total := [], WalkRange(path, 0, column, 0, rows, 0, 0, 0);
      State().AddNothing();
      while e < rows
        invariant 0 <= e <= rows
        invariant total == Walked(WalkRange(path, 0, column, e, rows, 0, 0, 0).ok, done + WalkRange(path, 0, column, e, rows, 0, 0, 0).out)
        invariant Below(Positions(done), 8 * present.Length) && State() == old(State()).Add(done)
      {
        RangeStep(path, 0, column, e, rows, 0, 0, 0, done, total);
        ghost var w := Walk(path, 0, column, e, 0, 0);
        ok := Row(column, e);
        old(State()).AddAppend(done, w.out);
        done := done + w.out;
        if !ok { return; }
        e := e + 1;
      }
      assert done == total.out;
      return true;
    }

    /** One row of the column. */
    method Row(column: ArrowArray, e: int) returns (ok: bool)
      requires WellFormed(path) && Backed(column) && HasRoom(0, column)
      modifies this, present
      ensures var w := Walk(path, 0, column, e, 0, 0);
        ok == w.ok && Below(Positions(w.out), 8 * present.Length) && State() == old(State()).Add(w.out)
    {
      ok := Step(0, column, e, 0, 0);
    }

    method Step(k: nat, a: ArrowArray, e: int, r: nat, d: nat) returns (ok: bool)
      requires WellFormed(path) && k < |path.steps| && Backed(a) && HasRoom(k, a)
      modifies this, present
      ensures var w := Walk(path, k, a, e, r, d);
        ok == w.ok && Below(Positions(w.out), 8 * present.Length) && State() == old(State()).Add(w.out)
      decreases |path.steps| - k, 1
    {
      var st := path.steps[k];
      State().AddNothing();
      if a.offset != 0 { return false; }
      if e < 0 || e >= a.length { return false; }
      var d' := d;
      if st.optional {
        if IsNull(path, k, a, e) {
          Emit(r, d);
          return true;
        }
        d' := d + 1;
      } else if a.nullCount > 0 && !Valid(a, e) {
        return false;
      }
      ok := Inside(k, a, e, r, d', d);
    }

    /** An entry that is there and not null, and the level inside it. */
    ghost predicate Entered(k: nat, a: ArrowArray, e: int, d: nat, d': nat) {
      && WellFormed(path) && k < |path.steps| && Backed(a) && a.offset == 0 && 0 <= e < a.length
      && if path.steps[k].optional then !IsNull(path, k, a, e) && d' == d + 1 else !(a.nullCount > 0 && !Valid(a, e)) && d' == d
    }

    /** Such an entry: a value, a struct's field, or a list's elements. */
    method Inside(k: nat, a: ArrowArray, e: int, r: nat, d': nat, ghost d: nat) returns (ok: bool)
      requires Entered(k, a, e, d, d') && HasRoom(k, a)
      modifies this, present
      ensures var w := Walk(path, k, a, e, r, d);
        ok == w.ok && Below(Positions(w.out), 8 * present.Length) && State() == old(State()).Add(w.out)
      decreases |path.steps| - k, 0
    {
      var st := path.steps[k];
      State().AddNothing();
      match st.kind {
        case LeafStep =>
          EmitValue(r, d', e);
          return true;
        case StructStep =>
          if st.child >= |a.children| { return false; }
          ok := Step(k + 1, a.children[st.child], e, r, d');
        case _ =>
          ok := InsideList(k, a, e, r, d', d);
      }
    }

    method InsideList(k: nat, a: ArrowArray, e: int, r: nat, d': nat, ghost d: nat) returns (ok: bool)
      requires Entered(k, a, e, d, d') && HasRoom(k, a) && path.steps[k].kind.Repeats()
      modifies this, present
      ensures var w := Walk(path, k, a, e, r, d);
        ok == w.ok && Below(Positions(w.out), 8 * present.Length) && State() == old(State()).Add(w.out)
      decreases |path.steps| - k - 1, 5
    {
      State().AddNothing();
      match ListRange(path.steps[k], a, e) {
        case None => return false;
        case Some(range) => ok := ListEntry(k, range, r, d');
      }
    }

    /** A list or map entry: one level pair if it is empty, the loop over its elements otherwise. */
    method ListEntry(k: nat, range: Range, r: nat, d: nat) returns (ok: bool)
      requires WellFormed(path) && k + 1 < |path.steps| && Backed(range.elements)
      requires range.first <= range.end && HasRoom(k + 1, range.elements)
      modifies this, present
      ensures var w := if range.first == range.end then Walked(true, [Entry(r, d, None)])
          else WalkRange(path, k + 1, range.elements, range.first, range.end, r, path.steps[k].repLevel, d + 1);
        ok == w.ok && Below(Positions(w.out), 8 * present.Length) && State() == old(State()).Add(w.out)
      decreases |path.steps| - k - 1, 4
    {
      if range.first == range.end {
        Emit(r, d);
        return true;
      }
      ok := Elements(k, range, r, d);
    }

    /** The entries have been emitted since the state before. */
    ghost predicate Added(before: Shredded, out: seq<Entry>)
      reads this, present
    {
      Below(Positions(out), 8 * |before.present|) && |before.present| == present.Length && State() == before.Add(out)
    }

    /** One more element, after those done. */
    method Element(k: nat, a: ArrowArray, e: int, r: nat, d: nat, ghost before: Shredded, ghost done: seq<Entry>) returns (ok: bool)
      requires WellFormed(path) && k < |path.steps| && Backed(a) && HasRoom(k, a)
      requires Added(before, done)
      modifies this, present
      ensures ok == Walk(path, k, a, e, r, d).ok && Added(before, done + Walk(path, k, a, e, r, d).out)
      decreases |path.steps| - k, 2
    {
      ok := Step(k, a, e, r, d);
      before.AddAppend(done, Walk(path, k, a, e, r, d).out);
    }

    method Elements(k: nat, range: Range, r: nat, d: nat) returns (ok: bool)
      requires WellFormed(path) && k + 1 < |path.steps| && Backed(range.elements)
      requires range.first <= range.end && HasRoom(k + 1, range.elements)
      modifies this, present
      ensures var w := WalkRange(path, k + 1, range.elements, range.first, range.end, r, path.steps[k].repLevel, d + 1);
        ok == w.ok && Below(Positions(w.out), 8 * present.Length) && State() == old(State()).Add(w.out)
      decreases |path.steps| - k - 1, 3
    {
      var again := path.steps[k].repLevel;
      var j := range.first;
      ghost var r0, done := r, [];
      ghost var total := WalkRange(path, k + 1, range.elements, j, range.end, r, again, d + 1);
      State().AddNothing();
      assert Added(old(State()), done);
      while j < range.end
        invariant range.first <= j <= range.end && Added(old(State()), done)
        invariant r0 == if j == range.first then r else again
        invariant total == Walked(WalkRange(path, k + 1, range.elements, j, range.end, r0, again, d + 1).ok,
          done + WalkRange(path, k + 1, range.elements, j, range.end, r0, again, d + 1).out)
      {
        RangeStep(path, k + 1, range.elements, j, range.end, r0, again, d + 1, done, total);
        ghost var w := Walk(path, k + 1, range.elements, j, r0, d + 1);
        ok := Element(k + 1, range.elements, j, if j == range.first then r else again, d + 1, old(State()), done);
        done := done + w.out;
        if !ok { return; }
        j, r0 := j + 1, again;
      }
      assert done == total.out;
      return true;
    }
  }
}
