/**
 What a column's rows mean along one path, read straight from the Arrow arrays, and the proof that
 an accepted walk emits exactly the canonical level stream of that meaning. With record assembly
 as the inverse, shredding loses nothing.
 */
module Projection {
  import opened Bits
  import opened Arrow
  import opened Records
  import opened Shredding

  /** The elements that a list step, or either side of a map step, finds in entry `i` by the Arrow format. */
  function FormatRange(st: PathStep, a: ArrowArray, i: int): (r: Option<Range>)
    requires Backed(a)
    ensures r.Some? ==> Backed(r.value.elements)
  {
    if !st.kind.MapStep? then ElementsOfList(a, i) else if st.child == 0 then KeysOfMap(a, i) else ValuesOfMap(a, i)
  }

  /** What the writer takes for an entry's elements are its elements: keys are keys, and values values. */
  lemma {:induction false} RangeIsFormat(st: PathStep, a: ArrowArray, i: int)
    requires st.kind.Repeats() && Backed(a) && a.offset <= i < a.offset + a.length && ListRange(st, a, i).Some?
    ensures FormatRange(st, a, i) == ListRange(st, a, i)
  {
  }

  /**
   Entry `e` of an array by the Arrow format: the array's offset applies, a cleared validity bit is a
   null where the field is nullable and is not read where it is not, and offsets delimit a list's
   elements. `at` gives the leaf array's value at a position. Only entries that a walk accepts matter;
   others read as null.
   */
  function Project<V>(p: LeafPath, k: nat, a: ArrowArray, e: int, at: int -> V): Datum<V>
    requires WellFormed(p) && k < |p.steps| && Backed(a)
    decreases |p.steps| - k, 0
  {
    var st := p.steps[k];
    var i := a.offset + e;
    if !(0 <= e < a.length) then Null
    else if st.optional && IsNull(p, k, a, i) then Null
    else match st.kind
      case LeafStep => Value(at(i))
      case StructStep =>
        if st.child >= |a.children| then Null else Record(Project(p, k + 1, a.children[st.child], i, at))
      case _ =>
        match FormatRange(st, a, i)
        case None => Null
        case Some(range) => List(ProjectRange(p, k + 1, range.elements, range.first, range.end, at))
  }

  function ProjectRange<V>(p: LeafPath, k: nat, a: ArrowArray, s: int, t: int, at: int -> V): (xs: seq<Datum<V>>)
    requires WellFormed(p) && k < |p.steps| && Backed(a)
    ensures |xs| == if s < t then t - s else 0
    ensures forall i :: 0 <= i < |xs| ==> xs[i] == Project(p, k, a, s + i, at)
    decreases |p.steps| - k, if s < t then t - s else 0
  {
    if s >= t then [] else [Project(p, k, a, s, at)] + ProjectRange(p, k, a, s + 1, t, at)
  }

  /** A list or map entry that is not null, as the writer finds its elements. */
  lemma {:induction false} ProjectList<V>(p: LeafPath, k: nat, a: ArrowArray, e: int, at: int -> V)
    requires WellFormed(p) && k + 1 < |p.steps| && p.steps[k].kind.Repeats() && Backed(a) && a.offset == 0 && 0 <= e < a.length
    requires !(p.steps[k].optional && IsNull(p, k, a, e)) && ListRange(p.steps[k], a, e).Some?
    ensures var x := ListRange(p.steps[k], a, e).value;
      Project(p, k, a, e, at) == List(ProjectRange(p, k + 1, x.elements, x.first, x.end, at))
  {
    RangeIsFormat(p.steps[k], a, e);
  }

  /** Emitted entries with the values at their positions. */
  function CellOf<V>(x: Entry, at: int -> V): Cell<V> {
    Cell(Level(x.rep, x.def), match x.pos case None => None case Some(q) => Some(at(q)))
  }

  function Cells<V>(out: seq<Entry>, at: int -> V): (cells: seq<Cell<V>>)
    ensures |cells| == |out| && forall i :: 0 <= i < |out| ==> cells[i] == CellOf(out[i], at)
  {
    seq(|out|, i requires 0 <= i < |out| => CellOf(out[i], at))
  }

  lemma {:induction false} CellsOfAppend<V>(a: seq<Entry>, b: seq<Entry>, at: int -> V)
    ensures Cells(a + b, at) == Cells(a, at) + Cells(b, at)
  {
  }

  lemma {:induction false} WalkIsShred<V>(p: LeafPath, k: nat, a: ArrowArray, e: int, r: nat, d: nat, at: int -> V)
    requires WellFormed(p) && k < |p.steps| && Backed(a)
    requires Walk(p, k, a, e, r, d).ok
    ensures var sh := ShapeOf(p.steps);
      var x := Project(p, k, a, e, at);
      Fits(sh, k, x) && Cells(Walk(p, k, a, e, r, d).out, at) == Shred(sh, k, x, r, d)
    decreases |p.steps| - k, 0
  {
    var st := p.steps[k];
    if st.optional && IsNull(p, k, a, e) {
    } else {
      var d' := if st.optional then d + 1 else d;
      match st.kind
      case LeafStep =>
      case StructStep => WalkIsShred(p, k + 1, a.children[st.child], e, r, d', at);
      case _ =>
        RangeIsFormat(st, a, e);
        var range := ListRange(st, a, e).value;
        if range.first < range.end {
          RangeIsShred(p, k + 1, range.elements, range.first, range.end, r, st.repLevel, d' + 1, at);
        }
    }
  }

  lemma {:induction false} RangeIsShred<V>(p: LeafPath, k: nat, a: ArrowArray, s: int, t: int, r: nat, again: nat, d: nat, at: int -> V)
    requires WellFormed(p) && k < |p.steps| && Backed(a)
    requires WalkRange(p, k, a, s, t, r, again, d).ok
    ensures var sh := ShapeOf(p.steps);
      var xs := ProjectRange(p, k, a, s, t, at);
      && (forall i :: 0 <= i < |xs| ==> Fits(sh, k, xs[i]))
      && Cells(WalkRange(p, k, a, s, t, r, again, d).out, at) == ShredItems(sh, k, xs, r, again, d)
    decreases |p.steps| - k, if s < t then t - s else 0
  {
    if s < t {
      WalkIsShred(p, k, a, s, r, d, at);
      RangeIsShred(p, k, a, s + 1, t, again, again, d, at);
      var xs, rest := ProjectRange(p, k, a, s, t, at), ProjectRange(p, k, a, s + 1, t, at);
      assert xs[0] == Project(p, k, a, s, at) && xs[1..] == rest;
      assert forall i :: 0 < i < |xs| ==> xs[i] == rest[i - 1];
      var out, outs := Walk(p, k, a, s, r, d).out, WalkRange(p, k, a, s + 1, t, again, again, d).out;
      CellsOfAppend(out, outs, at);
    }
  }

  /** The dense values are those at the marked positions, in emission order. */
  lemma {:induction false} DenseAtPositions<V>(out: seq<Entry>, at: int -> V)
    ensures |Dense(Cells(out, at))| == |Positions(out)|
    ensures forall i :: 0 <= i < |Positions(out)| ==> Dense(Cells(out, at))[i] == at(Positions(out)[i])
  {
    if out != [] {
      var init, last := out[..|out| - 1], out[|out| - 1];
      DenseAtPositions(init, at);
      assert Cells(out, at) == Cells(init, at) + [CellOf(last, at)];
      CellsAppend(Cells(init, at), [CellOf(last, at)]);
      assert Dense([CellOf(last, at)]) == match last.pos case None => [] case Some(q) => [at(q)];
    }
  }

  /** The reader's view of the two level streams the shredder emits. */
  function ZipLevels(rep: seq<nat>, def: seq<nat>): (ls: seq<Level>)
    requires |rep| == |def|
    ensures |ls| == |rep| && forall i :: 0 <= i < |ls| ==> ls[i] == Level(rep[i], def[i])
  {
    seq(|rep|, i requires 0 <= i < |rep| => Level(rep[i], def[i]))
  }

  /**
   Shredding is lossless: assembling the emitted repetition levels, definition levels and the values
   at the emitted positions gives back every row of the column.
   */
  lemma {:induction false} Lossless<V>(p: LeafPath, column: ArrowArray, rows: nat, at: int -> V, dense: seq<V>)
    requires WellFormed(p) && Backed(column) && WalkRange(p, 0, column, 0, rows, 0, 0, 0).ok
    requires var ps := Positions(WalkRange(p, 0, column, 0, rows, 0, 0, 0).out);
      |dense| == |ps| && forall i :: 0 <= i < |ps| ==> dense[i] == at(ps[i])
    ensures var out := WalkRange(p, 0, column, 0, rows, 0, 0, 0).out;
      AssembleRows(ShapeOf(p.steps), ZipLevels(Reps(out), Defs(out)), dense) == Some(ProjectRange(p, 0, column, 0, rows, at))
  {
    var out := WalkRange(p, 0, column, 0, rows, 0, 0, 0).out;
    var xs := ProjectRange(p, 0, column, 0, rows, at);
    RangeIsShred(p, 0, column, 0, rows, 0, 0, 0, at);
    AssembleShredRows(ShapeOf(p.steps), xs);
    DenseAtPositions(out, at);
    assert dense == Dense(Cells(out, at));
    assert ZipLevels(Reps(out), Defs(out)) == Levels(Cells(out, at));
  }
}
