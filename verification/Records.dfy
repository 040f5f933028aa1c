/**
 Nested values along one column's path, their repetition and definition levels, and record assembly,
 the reader's inverse (sections 4.1 to 4.3 of Melnik et al., VLDB 2010; 'Nested Encoding' in the
 Apache Parquet format specification).
 */
module Records {
  import opened Bits

  /** How a path's node nests what is below it: a group around one, a list of many, or the leaf. */
  datatype Nesting = One | Many | Leaf
  datatype Layer = Layer(nesting: Nesting, optional: bool)
  type Shape = seq<Layer>

  /** The number of repeated layers among the first `k`. */
  function RepAbove(sh: Shape, k: nat): (r: nat)
    requires k <= |sh|
    ensures r <= k
  {
    if k == 0 then 0 else RepAbove(sh, k - 1) + if sh[k - 1].nesting.Many? then 1 else 0
  }

  /** The number of optional layers and of repeated layers among the first `k`. */
  function DefAbove(sh: Shape, k: nat): (d: nat)
    requires k <= |sh|
    ensures d <= 2 * k
  {
    if k == 0 then 0 else
      DefAbove(sh, k - 1) + (if sh[k - 1].optional then 1 else 0) + if sh[k - 1].nesting.Many? then 1 else 0
  }

  lemma {:induction false} AboveMonotone(sh: Shape, k: nat, n: nat)
    requires k <= n <= |sh|
    ensures RepAbove(sh, k) <= RepAbove(sh, n) && DefAbove(sh, k) <= DefAbove(sh, n)
  {
    if k < n { AboveMonotone(sh, k, n - 1); }
  }

  predicate Rooted(sh: Shape) {
    sh != [] && forall i :: 0 <= i < |sh| ==> (sh[i].nesting.Leaf? <==> i == |sh| - 1)
  }

  /** A value projected on one path: null and empty list and list of null are all different. */
  datatype Datum<V> = Null | Value(v: V) | Record(inner: Datum<V>) | List(items: seq<Datum<V>>)

  /** The value has the form that the layers from `k` on describe. */
  ghost predicate Fits<V>(sh: Shape, k: nat, x: Datum<V>)
    requires Rooted(sh) && k < |sh|
    decreases |sh| - k
  {
    match x
    case Null => sh[k].optional
    case Value(_) => sh[k].nesting.Leaf?
    case Record(y) => sh[k].nesting.One? && Fits(sh, k + 1, y)
    case List(xs) => sh[k].nesting.Many? && forall i :: 0 <= i < |xs| ==> Fits(sh, k + 1, xs[i])
  }

  datatype Level = Level(rep: nat, def: nat)

  /** A level pair with the value it stands for, if any. */
  datatype Cell<V> = Cell(level: Level, val: Option<V>)

  function Levels<V>(cells: seq<Cell<V>>): (s: seq<Level>)
    ensures |s| == |cells| && forall i :: 0 <= i < |s| ==> s[i] == cells[i].level
  {
    seq(|cells|, i requires 0 <= i < |cells| => cells[i].level)
  }

  /** The values of the cells that have one, in order. */
  function Dense<V>(cells: seq<Cell<V>>): seq<V> {
    if cells == [] then [] else
      (match cells[0].val case None => [] case Some(v) => [v]) + Dense(cells[1..])
  }

  lemma {:induction false} DenseAppend<V>(a: seq<Cell<V>>, b: seq<Cell<V>>)
    ensures Dense(a + b) == Dense(a) + Dense(b)
  {
    if a == [] {
      assert a + b == b;
    } else {
      assert (a + b)[1..] == a[1..] + b;
      DenseAppend(a[1..], b);
    }
  }

  lemma {:induction false} CellsAppend<V>(a: seq<Cell<V>>, b: seq<Cell<V>>)
    ensures Levels(a + b) == Levels(a) + Levels(b)
    ensures Dense(a + b) == Dense(a) + Dense(b)
  {
    DenseAppend(a, b);
  }

  /** The canonical level stream of a value at layer `k`, entered at repetition `r` and definition `d`. */
  function Shred<V>(sh: Shape, k: nat, x: Datum<V>, r: nat, d: nat): seq<Cell<V>>
    requires Rooted(sh) && k < |sh| && Fits(sh, k, x)
    decreases |sh| - k, 0
  {
    var d' := if sh[k].optional then d + 1 else d;
    match x
    case Null => [Cell(Level(r, d), None)]
    case Value(v) => [Cell(Level(r, d'), Some(v))]
    case Record(y) => Shred(sh, k + 1, y, r, d')
    case List(xs) =>
      if xs == [] then [Cell(Level(r, d'), None)]
      else ShredItems(sh, k + 1, xs, r, RepAbove(sh, k + 1), d' + 1)
  }

  function ShredItems<V>(sh: Shape, k: nat, xs: seq<Datum<V>>, r: nat, again: nat, d: nat): seq<Cell<V>>
    requires Rooted(sh) && k < |sh| && forall i :: 0 <= i < |xs| ==> Fits(sh, k, xs[i])
    decreases |sh| - k, |xs|
  {
    if xs == [] then [] else
      Shred(sh, k, xs[0], r, d) + ShredItems(sh, k, xs[1..], again, again, d)
  }

  // ---- record assembly ------------------------------------------------------------------------

  /** What a reader has read, and the levels and values it has left. */
  datatype Read<X, V> = Bad | Got(x: X, levels: seq<Level>, dense: seq<V>)

  /** Assemble one value of layer `k` from the front of a column's levels and values. */
  function Assemble<V>(sh: Shape, k: nat, d: nat, levels: seq<Level>, dense: seq<V>): (res: Read<Datum<V>, V>)
    requires Rooted(sh) && k < |sh|
    ensures res.Got? ==> |res.levels| < |levels|
    decreases |sh| - k, 0
  {
    if levels == [] then Bad else
    var here := levels[0].def;
    if sh[k].optional && here <= d then Got(Null, levels[1..], dense) else
    var d' := if sh[k].optional then d + 1 else d;
    match sh[k].nesting
    case Leaf => if dense == [] then Bad else Got(Value(dense[0]), levels[1..], dense[1..])
    case One =>
      (match Assemble(sh, k + 1, d', levels, dense)
       case Bad => Bad
       case Got(y, ls, vs) => Got(Record(y), ls, vs))
    case Many =>
      if here <= d' then Got(List([]), levels[1..], dense)
      else match AssembleItems(sh, k + 1, RepAbove(sh, k + 1), d' + 1, levels, dense)
           case Bad => Bad
           case Got(xs, ls, vs) => Got(List(xs), ls, vs)
  }

  /** Elements until an entry that does not repeat at level `again`. */
  function AssembleItems<V>(sh: Shape, k: nat, again: nat, d: nat, levels: seq<Level>, dense: seq<V>): (res: Read<seq<Datum<V>>, V>)
    requires Rooted(sh) && k < |sh|
    ensures res.Got? ==> |res.levels| < |levels|
    decreases |sh| - k, |levels| + 1
  {
    match Assemble(sh, k, d, levels, dense)
    case Bad => Bad
    case Got(x, ls, vs) =>
      if ls == [] || ls[0].rep != again then Got([x], ls, vs)
      else match AssembleItems(sh, k, again, d, ls, vs)
           case Bad => Bad
           case Got(xs, ls', vs') => Got([x] + xs, ls', vs')
  }

  /** All the rows of a column: each starts at repetition level 0. */
  function AssembleRows<V>(sh: Shape, levels: seq<Level>, dense: seq<V>): Option<seq<Datum<V>>>
    requires Rooted(sh)
    decreases |levels|
  {
    if levels == [] then (if dense == [] then Some([]) else None)
    else if levels[0].rep != 0 then None
    else match Assemble(sh, 0, 0, levels, dense)
      case Bad => None
      case Got(x, ls, vs) =>
        match AssembleRows(sh, ls, vs)
        case None => None
        case Some(xs) => Some([x] + xs)
  }

  // ---- what the level stream of a value looks like --------------------------------------------

  /** The first entry is at `r`; later ones repeat below layer `k`, and no level exceeds its maximum. */
  ghost predicate WellLevelled<V>(sh: Shape, k: nat, cells: seq<Cell<V>>, r: nat)
    requires k <= |sh|
  {
    && cells != []
    && cells[0].level.rep == r
    && (forall i :: 1 <= i < |cells| ==> RepAbove(sh, k) < cells[i].level.rep <= RepAbove(sh, |sh|))
    && (forall i :: 0 <= i < |cells| ==> DefAbove(sh, k) <= cells[i].level.def <= DefAbove(sh, |sh|))
    && (forall i :: 0 <= i < |cells| ==> (cells[i].val.Some? <==> cells[i].level.def == DefAbove(sh, |sh|)))
  }

  lemma {:induction false} ShredLevels<V>(sh: Shape, k: nat, x: Datum<V>, r: nat)
    requires Rooted(sh) && k < |sh| && Fits(sh, k, x)
    ensures WellLevelled(sh, k, Shred(sh, k, x, r, DefAbove(sh, k)), r)
    decreases |sh| - k, 0
  {
    AboveMonotone(sh, k + 1, |sh|);
    match x
    case Null =>
    case Value(_) =>
    case Record(y) => ShredLevels(sh, k + 1, y, r);
    case List(xs) =>
      if xs != [] { ShredItemsLevels(sh, k, xs, r); }
  }

  lemma {:induction false} ShredItemsLevels<V>(sh: Shape, k: nat, xs: seq<Datum<V>>, r: nat)
    requires Rooted(sh) && k + 1 < |sh| && xs != [] && forall i :: 0 <= i < |xs| ==> Fits(sh, k + 1, xs[i])
    requires sh[k].nesting.Many?
    ensures WellLevelled(sh, k, ShredItems(sh, k + 1, xs, r, RepAbove(sh, k + 1), DefAbove(sh, k + 1)), r)
    decreases |sh| - k - 1, |xs|
  {
    var again := RepAbove(sh, k + 1);
    AboveMonotone(sh, k + 1, |sh|);
    ShredLevels(sh, k + 1, xs[0], r);
    if |xs| > 1 {
      ShredItemsLevels(sh, k, xs[1..], again);
    } else {
      assert ShredItems(sh, k + 1, xs, r, again, DefAbove(sh, k + 1)) == Shred(sh, k + 1, xs[0], r, DefAbove(sh, k + 1));
    }
  }

  // ---- assembly inverts shredding -------------------------------------------------------------

  /** What follows a value of layer `k` in a column: nothing, or a repetition at or above the layer. */
  ghost predicate Follows(sh: Shape, k: nat, levels: seq<Level>)
    requires k <= |sh|
  {
    levels == [] || levels[0].rep <= RepAbove(sh, k)
  }

  lemma {:induction false} AssembleShred<V>(sh: Shape, k: nat, x: Datum<V>, r: nat, levels: seq<Level>, dense: seq<V>)
    requires Rooted(sh) && k < |sh| && Fits(sh, k, x) && Follows(sh, k, levels)
    ensures var cells := Shred(sh, k, x, r, DefAbove(sh, k));
      Assemble(sh, k, DefAbove(sh, k), Levels(cells) + levels, Dense(cells) + dense) == Got(x, levels, dense)
    decreases |sh| - k, 0
  {
    if x.Record? {
      ShredLevels(sh, k + 1, x.inner, r);
      AssembleShred(sh, k + 1, x.inner, r, levels, dense);
      RecordAssembles(sh, k, x, r, levels, dense);
    } else if x.List? && x.items != [] {
      ListStart(sh, k, x.items, r);
      AssembleShredItems(sh, k, x.items, r, levels, dense);
      ListAssembles(sh, k, x, r, levels, dense);
    } else {
      OneCellAssembles(sh, k, x, r, levels, dense);
    }
  }

  /** A null, a value and an empty list are one cell each. */
  lemma {:induction false} OneCellAssembles<V>(sh: Shape, k: nat, x: Datum<V>, r: nat, levels: seq<Level>, dense: seq<V>)
    requires Rooted(sh) && k < |sh| && Fits(sh, k, x) && (x.Null? || x.Value? || x == List([]))
    ensures var cells := Shred(sh, k, x, r, DefAbove(sh, k));
      Assemble(sh, k, DefAbove(sh, k), Levels(cells) + levels, Dense(cells) + dense) == Got(x, levels, dense)
  {
    var cells := Shred(sh, k, x, r, DefAbove(sh, k));
    assert |cells| == 1 && (Levels(cells) + levels)[0] == cells[0].level;
    assert (Levels(cells) + levels)[1..] == levels;
    if x.Value? { assert Dense(cells) + dense == [x.v] + dense; } else { assert Dense(cells) + dense == dense; }
  }

  lemma {:induction false} RecordAssembles<V>(sh: Shape, k: nat, x: Datum<V>, r: nat, levels: seq<Level>, dense: seq<V>)
    requires Rooted(sh) && k + 1 < |sh| && Fits(sh, k, x) && x.Record?
    requires var cells := Shred(sh, k + 1, x.inner, r, DefAbove(sh, k + 1));
      Assemble(sh, k + 1, DefAbove(sh, k + 1), Levels(cells) + levels, Dense(cells) + dense) == Got(x.inner, levels, dense)
    ensures var cells := Shred(sh, k, x, r, DefAbove(sh, k));
      Assemble(sh, k, DefAbove(sh, k), Levels(cells) + levels, Dense(cells) + dense) == Got(x, levels, dense)
  {
    var cells := Shred(sh, k, x, r, DefAbove(sh, k));
    ShredLevels(sh, k + 1, x.inner, r);
    assert (Levels(cells) + levels)[0] == cells[0].level;
  }

  lemma {:induction false} ListAssembles<V>(sh: Shape, k: nat, x: Datum<V>, r: nat, levels: seq<Level>, dense: seq<V>)
    requires Rooted(sh) && k + 1 < |sh| && Fits(sh, k, x) && x.List? && x.items != []
    requires var again := RepAbove(sh, k + 1);
      var cells := ShredItems(sh, k + 1, x.items, r, again, DefAbove(sh, k + 1));
      AssembleItems(sh, k + 1, again, DefAbove(sh, k + 1), Levels(cells) + levels, Dense(cells) + dense) == Got(x.items, levels, dense)
    ensures var cells := Shred(sh, k, x, r, DefAbove(sh, k));
      Assemble(sh, k, DefAbove(sh, k), Levels(cells) + levels, Dense(cells) + dense) == Got(x, levels, dense)
  {
    var cells := Shred(sh, k, x, r, DefAbove(sh, k));
    ListStart(sh, k, x.items, r);
    assert (Levels(cells) + levels)[0] == cells[0].level;
  }

  /** A non-empty list's first entry is defined beyond the list itself. */
  lemma {:induction false} ListStart<V>(sh: Shape, k: nat, xs: seq<Datum<V>>, r: nat)
    requires Rooted(sh) && k + 1 < |sh| && xs != [] && forall i :: 0 <= i < |xs| ==> Fits(sh, k + 1, xs[i])
    ensures var cells := ShredItems(sh, k + 1, xs, r, RepAbove(sh, k + 1), DefAbove(sh, k + 1));
      cells != [] && cells[0].level.def >= DefAbove(sh, k + 1) && cells[0].level.rep == r
  {
    ShredLevels(sh, k + 1, xs[0], r);
  }

  lemma {:induction false} AssembleShredItems<V>(sh: Shape, k: nat, xs: seq<Datum<V>>, r: nat, levels: seq<Level>, dense: seq<V>)
    requires Rooted(sh) && k + 1 < |sh| && xs != [] && forall i :: 0 <= i < |xs| ==> Fits(sh, k + 1, xs[i])
    requires sh[k].nesting.Many? && Follows(sh, k, levels)
    ensures var again := RepAbove(sh, k + 1);
      var cells := ShredItems(sh, k + 1, xs, r, again, DefAbove(sh, k + 1));
      AssembleItems(sh, k + 1, again, DefAbove(sh, k + 1), Levels(cells) + levels, Dense(cells) + dense) == Got(xs, levels, dense)
    decreases |sh| - k - 1, |xs|
  {
    var again, d := RepAbove(sh, k + 1), DefAbove(sh, k + 1);
    var first, rest := Shred(sh, k + 1, xs[0], r, d), ShredItems(sh, k + 1, xs[1..], again, again, d);
    CellsAppend(first, rest);
    var ls, vs := Levels(rest) + levels, Dense(rest) + dense;
    assert Levels(first + rest) + levels == Levels(first) + ls;
    assert Dense(first + rest) + dense == Dense(first) + vs;
    if |xs| == 1 {
      assert rest == [] && ls == levels && vs == dense;
      assert xs == [xs[0]];
    } else {
      ListStart(sh, k, xs[1..], again);
      assert ls[0].rep == again;
      AssembleShredItems(sh, k, xs[1..], again, levels, dense);
      assert xs == [xs[0]] + xs[1..];
    }
    AssembleShred(sh, k + 1, xs[0], r, ls, vs);
  }

  /** The level stream of a column's rows, one after another. */
  function ShredRows<V>(sh: Shape, rows: seq<Datum<V>>): seq<Cell<V>>
    requires Rooted(sh) && forall i :: 0 <= i < |rows| ==> Fits(sh, 0, rows[i])
  {
    ShredItems(sh, 0, rows, 0, 0, 0)
  }

  /** Assembly returns exactly the rows that were shredded. */
  lemma {:induction false} AssembleShredRows<V>(sh: Shape, rows: seq<Datum<V>>)
    requires Rooted(sh) && forall i :: 0 <= i < |rows| ==> Fits(sh, 0, rows[i])
    ensures AssembleRows(sh, Levels(ShredRows(sh, rows)), Dense(ShredRows(sh, rows))) == Some(rows)
    decreases |rows|
  {
    if rows != [] {
      var first, rest := Shred(sh, 0, rows[0], 0, 0), ShredRows(sh, rows[1..]);
      CellsAppend(first, rest);
      ShredLevels(sh, 0, rows[0], 0);
      if |rows| > 1 { ShredLevels(sh, 0, rows[1], 0); }
      AssembleShred(sh, 0, rows[0], 0, Levels(rest), Dense(rest));
      AssembleShredRows(sh, rows[1..]);
      assert rows == [rows[0]] + rows[1..];
    }
  }

  /** How many rows a level stream starts: its entries at repetition level 0. */
  function RowStarts(levels: seq<Level>): nat {
    if levels == [] then 0 else (if levels[0].rep == 0 then 1 else 0) + RowStarts(levels[1..])
  }

  lemma {:induction false} RowStartsAppend(a: seq<Level>, b: seq<Level>)
    ensures RowStarts(a + b) == RowStarts(a) + RowStarts(b)
  {
    if a == [] {
      assert a + b == b;
    } else {
      assert (a + b)[1..] == a[1..] + b;
      RowStartsAppend(a[1..], b);
    }
  }

  lemma {:induction false} NoRowStarts(levels: seq<Level>)
    requires forall i :: 0 <= i < |levels| ==> levels[i].rep > 0
    ensures RowStarts(levels) == 0
  {
    if levels != [] { NoRowStarts(levels[1..]); }
  }

  /** No level exceeds the path's maximum, and a cell has a value exactly at the maximum definition level. */
  ghost predicate Bounded<V>(sh: Shape, cells: seq<Cell<V>>) {
    forall i :: 0 <= i < |cells| ==>
      && cells[i].level.rep <= RepAbove(sh, |sh|)
      && cells[i].level.def <= DefAbove(sh, |sh|)
      && (cells[i].val.Some? <==> cells[i].level.def == DefAbove(sh, |sh|))
  }

  /** A column's level stream is bounded and has one entry at repetition level 0 for each row. */
  lemma {:induction false} ShredRowsLevels<V>(sh: Shape, rows: seq<Datum<V>>)
    requires Rooted(sh) && forall i :: 0 <= i < |rows| ==> Fits(sh, 0, rows[i])
    ensures Bounded(sh, ShredRows(sh, rows))
    ensures RowStarts(Levels(ShredRows(sh, rows))) == |rows|
    decreases |rows|
  {
    if rows != [] {
      var first, rest := Shred(sh, 0, rows[0], 0, 0), ShredRows(sh, rows[1..]);
      ShredLevels(sh, 0, rows[0], 0);
      ShredRowsLevels(sh, rows[1..]);
      CellsAppend(first, rest);
      RowStartsAppend(Levels(first), Levels(rest));
      NoRowStarts(Levels(first)[1..]);
    }
  }
}
