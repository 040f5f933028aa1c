/**
 Whole records: the nested value of a row, of which every leaf column is a projection. The shredder
 refines the reference recursion of tests/oracle_roundtrip.py over that value, and the projections
 together determine it.
 */
module Nested {
  import opened Bits
  import opened Arrow
  import opened Records
  import opened Shredding
  import opened Projection
  import opened Schema

  datatype Full<V> =
    | Absent
    | Atom(v: V)
    | Fields(fs: seq<Full<V>>)
    | Items(xs: seq<Full<V>>)
    | Pairs(keys: seq<Full<V>>, values: seq<Full<V>>)

  predicate IsMap(node: ArrowSchema) {
    node.format == "+m" && |node.children| == 1 && node.children[0].format == "+s" && |node.children[0].children| == 2
  }

  predicate IsList(node: ArrowSchema) {
    (node.format == "+l" || node.format == "+L") && |node.children| == 1
  }

  /** "+l" has 32-bit offsets, "+L" 64-bit ones. */
  function ListKind(node: ArrowSchema): StepKind { if node.format == "+L" then LargeListStep else ListStep }

  predicate IsLeaf(node: ArrowSchema) {
    node.format != "+s" && node.format != "+l" && node.format != "+L" && node.format != "+m"
  }

  /** The two sides of a map's entries; a key is never null. */
  function SideOf(node: ArrowSchema, side: nat): ArrowSchema
    requires IsMap(node) && side < 2
  {
    node.children[0].children[side]
  }

  predicate SideNullable(node: ArrowSchema, side: nat)
    requires IsMap(node) && side < 2
  {
    side != 0 && NullableChild(SideOf(node, side))
  }

  /** The steps lead from the node to a leaf below it that has the format. */
  predicate PathIn(node: ArrowSchema, nullable: bool, q: seq<PathStep>, format: string)
    decreases node
  {
    && q != [] && q[0].optional == (nullable || node.format == "n")
    && match q[0].kind
       case LeafStep => IsLeaf(node) && |q| == 1 && q[0].child == 0 && format == node.format
       case StructStep =>
         node.format == "+s" && q[0].child < |node.children| &&
         PathIn(node.children[q[0].child], NullableChild(node.children[q[0].child]), q[1..], format)
       case MapStep =>
         IsMap(node) && q[0].child < 2 && PathIn(SideOf(node, q[0].child), SideNullable(node, q[0].child), q[1..], format)
       case _ => IsList(node) && q[0].kind == ListKind(node) && q[0].child == 0 && PathIn(node.children[0], NullableChild(node.children[0]), q[1..], format)
  }

  /** A record's value along one path. */
  function ProjectFull<V>(x: Full<V>, q: seq<PathStep>): Datum<V>
    decreases x
  {
    match x
    case Absent => Null
    case Atom(v) => Value(v)
    case Fields(fs) => if q == [] || q[0].child >= |fs| then Null else Record(ProjectFull(fs[q[0].child], q[1..]))
    case Items(xs) => if q == [] then Null else List(ProjectAll(xs, q[1..]))
    case Pairs(ks, vs) => if q == [] then Null else List(ProjectAll(if q[0].child == 0 then ks else vs, q[1..]))
  }

  function ProjectAll<V>(xs: seq<Full<V>>, q: seq<PathStep>): (ys: seq<Datum<V>>)
    ensures |ys| == |xs|
    decreases xs
  {
    if xs == [] then [] else [ProjectFull(xs[0], q)] + ProjectAll(xs[1..], q)
  }

  // ---- records in Arrow arrays ----------------------------------------------------------------

  /** Entry `e` of an array by the Arrow format, as the schema's node describes it: a field that is not nullable has no nulls. */
  function ReadFull<V>(node: ArrowSchema, nullable: bool, a: ArrowArray, e: int, at: (string, ArrowArray, int) -> V): Full<V>
    requires Backed(a)
    decreases node, 0, 0
  {
    var i := a.offset + e;
    if !(0 <= e < a.length) || node.format == "n" || (nullable && !Valid(a, i)) then Absent
    else if node.format == "+s" then
      Fields(seq(|node.children|, c requires 0 <= c < |node.children| =>
        if c < |a.children| then ReadFull(node.children[c], NullableChild(node.children[c]), a.children[c], i, at) else Absent))
    else if IsList(node) then
      var x := ElementsOfList(a, i);
      if x.None? then Absent else Items(ReadItems(node.children[0], NullableChild(node.children[0]), x, at))
    else if IsMap(node) then
      Pairs(ReadItems(SideOf(node, 0), SideNullable(node, 0), KeysOfMap(a, i), at),
            ReadItems(SideOf(node, 1), SideNullable(node, 1), ValuesOfMap(a, i), at))
    else Atom(at(node.format, a, i))
  }

  function ReadItems<V>(node: ArrowSchema, nullable: bool, x: Option<Range>, at: (string, ArrowArray, int) -> V): seq<Full<V>>
    requires x.Some? ==> Backed(x.value.elements)
    decreases node, 1, if x.Some? && x.value.first < x.value.end then x.value.end - x.value.first else 0
  {
    if x.None? || x.value.first >= x.value.end then [] else
      var a, s, t := x.value.elements, x.value.first, x.value.end;
      [ReadFull(node, nullable, a, s, at)] + ReadItems(node, nullable, Some(Range(a, s + 1, t)), at)
  }

  /** The path's leaf array has the values that the record reading takes from it. */
  ghost predicate Agrees<V>(p: LeafPath, k: nat, a: ArrowArray, format: string, at: int -> V, at': (string, ArrowArray, int) -> V)
    requires k < |p.steps|
  {
    LeafArray(p.steps, k, a).Some? && (p.nullType <==> format == "n") && forall i :: at(i) == at'(format, LeafArray(p.steps, k, a).value, i)
  }

  /** A record of which a field is read. */
  lemma {:induction false} FieldProjects<V>(node: ArrowSchema, nullable: bool, a: ArrowArray, e: int, q: seq<PathStep>, at: (string, ArrowArray, int) -> V)
    requires Backed(a) && q != [] && node.format == "+s" && q[0].child < |node.children| && q[0].child < |a.children|
    ensures var i, c := a.offset + e, q[0].child;
      ProjectFull(ReadFull(node, nullable, a, e, at), q) ==
        if !(0 <= e < a.length) || (nullable && !Valid(a, i)) then Null
        else Record(ProjectFull(ReadFull(node.children[c], NullableChild(node.children[c]), a.children[c], i, at), q[1..]))
  {
  }

  lemma {:induction false} LeafProjects<V>(node: ArrowSchema, nullable: bool, a: ArrowArray, e: int, q: seq<PathStep>, at: (string, ArrowArray, int) -> V)
    requires Backed(a) && IsLeaf(node)
    ensures ProjectFull(ReadFull(node, nullable, a, e, at), q) ==
      if !(0 <= e < a.length) || node.format == "n" || (nullable && !Valid(a, a.offset + e)) then Null
      else Value(at(node.format, a, a.offset + e))
  {
  }

  /** Where the walk accepts an entry, its value along the path is the projection of the record. */
  lemma {:induction false} ProjectionOfRecord<V>(p: LeafPath, k: nat, node: ArrowSchema, nullable: bool, a: ArrowArray, e: int, r: nat, d: nat,
      format: string, at: int -> V, at': (string, ArrowArray, int) -> V)
    requires WellFormed(p) && k < |p.steps| && Backed(a) && Walk(p, k, a, e, r, d).ok
    requires PathIn(node, nullable, p.steps[k..], format) && Agrees(p, k, a, format, at, at')
    ensures Project(p, k, a, e, at) == ProjectFull(ReadFull(node, nullable, a, e, at'), p.steps[k..])
    decreases |p.steps| - k, 2, 0
  {
    match p.steps[k].kind
    case LeafStep => FlatProjectionOfLeaf(p, k, node, nullable, a, e, format, at, at');
    case StructStep => ProjectionOfStruct(p, k, node, nullable, a, e, r, d, format, at, at');
    case _ => ProjectionOfList(p, k, node, nullable, a, e, r, d, format, at, at');
  }

  lemma {:induction false} ProjectionOfStruct<V>(p: LeafPath, k: nat, node: ArrowSchema, nullable: bool, a: ArrowArray, e: int, r: nat, d: nat,
      format: string, at: int -> V, at': (string, ArrowArray, int) -> V)
    requires WellFormed(p) && k < |p.steps| && Backed(a) && Walk(p, k, a, e, r, d).ok
    requires PathIn(node, nullable, p.steps[k..], format) && Agrees(p, k, a, format, at, at')
    requires p.steps[k].kind.StructStep?
    ensures Project(p, k, a, e, at) == ProjectFull(ReadFull(node, nullable, a, e, at'), p.steps[k..])
    decreases |p.steps| - k, 1, 0
  {
    var st, q := p.steps[k], p.steps[k..];
    assert q[0] == st && q[1..] == p.steps[k + 1..];
    if !(st.optional && IsNull(p, k, a, e)) {
      var c := st.child;
      FieldProjects(node, nullable, a, e, q, at');
      ProjectionOfRecord(p, k + 1, node.children[c], NullableChild(node.children[c]), a.children[c], e, r, if st.optional then d + 1 else d,
        format, at, at');
    }
  }

  lemma {:induction false} ProjectionOfList<V>(p: LeafPath, k: nat, node: ArrowSchema, nullable: bool, a: ArrowArray, e: int, r: nat, d: nat,
      format: string, at: int -> V, at': (string, ArrowArray, int) -> V)
    requires WellFormed(p) && k < |p.steps| && Backed(a) && Walk(p, k, a, e, r, d).ok
    requires PathIn(node, nullable, p.steps[k..], format) && Agrees(p, k, a, format, at, at')
    requires p.steps[k].kind.Repeats()
    ensures Project(p, k, a, e, at) == ProjectFull(ReadFull(node, nullable, a, e, at'), p.steps[k..])
    decreases |p.steps| - k, 1, 0
  {
    var st, q := p.steps[k], p.steps[k..];
    assert q[0] == st && q[1..] == p.steps[k + 1..];
    if !(st.optional && IsNull(p, k, a, e)) {
      ProjectList(p, k, a, e, at);
      RangeOfEntry(p, k, node, nullable, a, e, r, if st.optional then d + 1 else d, format, at, at');
    }
  }

  /** Outside lists no walk needs to accept the entry. */
  lemma {:induction false} FlatProjectionOfRecord<V>(p: LeafPath, k: nat, node: ArrowSchema, nullable: bool, a: ArrowArray, e: int,
      format: string, at: int -> V, at': (string, ArrowArray, int) -> V)
    requires WellFormed(p) && k < |p.steps| && Backed(a) && forall i :: 0 <= i < |p.steps| ==> !p.steps[i].kind.Repeats()
    requires PathIn(node, nullable, p.steps[k..], format) && Agrees(p, k, a, format, at, at')
    ensures Project(p, k, a, e, at) == ProjectFull(ReadFull(node, nullable, a, e, at'), p.steps[k..])
    decreases |p.steps| - k
  {
    var st, q := p.steps[k], p.steps[k..];
    assert q[0] == st && q[1..] == p.steps[k + 1..];
    if st.kind.StructStep? {
      var c := st.child;
      FieldProjects(node, nullable, a, e, q, at');
      FlatProjectionOfRecord(p, k + 1, node.children[c], NullableChild(node.children[c]), a.children[c], a.offset + e, format, at, at');
    } else {
      FlatProjectionOfLeaf(p, k, node, nullable, a, e, format, at, at');
    }
  }

  lemma {:induction false} FlatProjectionOfLeaf<V>(p: LeafPath, k: nat, node: ArrowSchema, nullable: bool, a: ArrowArray, e: int,
      format: string, at: int -> V, at': (string, ArrowArray, int) -> V)
    requires WellFormed(p) && k < |p.steps| && Backed(a) && p.steps[k].kind.LeafStep?
    requires PathIn(node, nullable, p.steps[k..], format) && Agrees(p, k, a, format, at, at')
    ensures Project(p, k, a, e, at) == ProjectFull(ReadFull(node, nullable, a, e, at'), p.steps[k..])
  {
    LeafProjects(node, nullable, a, e, p.steps[k..], at');
  }

  /** A list or map entry that is not null. */
  lemma {:induction false} RangeOfEntry<V>(p: LeafPath, k: nat, node: ArrowSchema, nullable: bool, a: ArrowArray, e: int, r: nat, d: nat,
      format: string, at: int -> V, at': (string, ArrowArray, int) -> V)
    requires WellFormed(p) && k + 1 < |p.steps| && Backed(a) && p.steps[k].kind.Repeats()
    requires a.offset == 0 && 0 <= e < a.length && ListRange(p.steps[k], a, e).Some?
    requires var x := ListRange(p.steps[k], a, e).value;
      x.first < x.end ==> WalkRange(p, k + 1, x.elements, x.first, x.end, r, p.steps[k].repLevel, d + 1).ok
    requires PathIn(node, nullable, p.steps[k..], format) && Agrees(p, k, a, format, at, at')
    ensures node.format == "n" || (nullable && !Valid(a, e)) ||
      List(ProjectRange(p, k + 1, ListRange(p.steps[k], a, e).value.elements, ListRange(p.steps[k], a, e).value.first,
        ListRange(p.steps[k], a, e).value.end, at)) == ProjectFull(ReadFull(node, nullable, a, e, at'), p.steps[k..])
    decreases |p.steps| - k, 0, 0
  {
    var st, x := p.steps[k], ListRange(p.steps[k], a, e).value;
    assert p.steps[k..][0] == st && p.steps[k..][1..] == p.steps[k + 1..];
    if !(node.format == "n" || (nullable && !Valid(a, e))) { EntryReads(node, nullable, p.steps[k..], format, a, e, at'); }
    RangeOfRecord(p, k + 1, EntryNode(node, st), EntryNullable(node, st), x, r, st.repLevel, d + 1, format, at, at');
  }

  /** The schema's node for a list's elements, or for the side of a map that the step takes. */
  function EntryNode(node: ArrowSchema, st: PathStep): ArrowSchema
    requires if st.kind.MapStep? then IsMap(node) && st.child < 2 else IsList(node)
  {
    if st.kind.MapStep? then SideOf(node, st.child) else node.children[0]
  }

  predicate EntryNullable(node: ArrowSchema, st: PathStep)
    requires if st.kind.MapStep? then IsMap(node) && st.child < 2 else IsList(node)
  {
    if st.kind.MapStep? then SideNullable(node, st.child) else NullableChild(node.children[0])
  }

  lemma {:induction false} EntryReads<V>(node: ArrowSchema, nullable: bool, q: seq<PathStep>, format: string, a: ArrowArray, e: int,
      at: (string, ArrowArray, int) -> V)
    requires Backed(a) && a.offset == 0 && 0 <= e < a.length && PathIn(node, nullable, q, format) && q[0].kind.Repeats()
    requires ListRange(q[0], a, e).Some? && node.format != "n" && !(nullable && !Valid(a, e))
    ensures ProjectFull(ReadFull(node, nullable, a, e, at), q)
      == List(ProjectAll(ReadItems(EntryNode(node, q[0]), EntryNullable(node, q[0]), ListRange(q[0], a, e), at), q[1..]))
  {
    RangeIsFormat(q[0], a, e);
  }

  lemma {:induction false} RangeOfRecord<V>(p: LeafPath, k: nat, node: ArrowSchema, nullable: bool, x: Range, r: nat, again: nat, d: nat,
      format: string, at: int -> V, at': (string, ArrowArray, int) -> V)
    requires WellFormed(p) && k < |p.steps| && Backed(x.elements)
    requires x.first < x.end ==> WalkRange(p, k, x.elements, x.first, x.end, r, again, d).ok
    requires PathIn(node, nullable, p.steps[k..], format) && Agrees(p, k, x.elements, format, at, at')
    ensures ProjectRange(p, k, x.elements, x.first, x.end, at) == ProjectAll(ReadItems(node, nullable, Some(x), at'), p.steps[k..])
    decreases |p.steps| - k, 2, if x.first < x.end then x.end - x.first else 0
  {
    if x.first < x.end {
      ProjectionOfRecord(p, k, node, nullable, x.elements, x.first, r, d, format, at, at');
      RangeOfRecord(p, k, node, nullable, Range(x.elements, x.first + 1, x.end), again, again, d, format, at, at');
      var rest := ReadItems(node, nullable, Some(Range(x.elements, x.first + 1, x.end)), at');
      assert ReadItems(node, nullable, Some(x), at')[1..] == rest;
    }
  }

  // ---- the reference recursion ----------------------------------------------------------------

  /** `leaf_levels`: how many level entries one row has along a path, and its values that are not null. */
  function LeafLevels<V>(x: Full<V>, q: seq<PathStep>): (nat, seq<V>)
    decreases x
  {
    match x
    case Absent => (1, [])
    case Atom(v) => (1, [v])
    case Fields(fs) => if q == [] || q[0].child >= |fs| then (1, []) else LeafLevels(fs[q[0].child], q[1..])
    case Items(xs) => if xs == [] || q == [] then (1, []) else AllLevels(xs, q[1..])
    case Pairs(ks, vs) =>
      var side := if q != [] && q[0].child == 0 then ks else vs;
      if side == [] || q == [] then (1, []) else AllLevels(side, q[1..])
  }

  function AllLevels<V>(xs: seq<Full<V>>, q: seq<PathStep>): (nat, seq<V>)
    decreases xs
  {
    if xs == [] then (0, []) else
      var (e, v) := LeafLevels(xs[0], q);
      var (es, vs) := AllLevels(xs[1..], q);
      (e + es, v + vs)
  }

  /** The canonical level stream has as many entries as the reference counts, and its values in order. */
  lemma {:induction false} OracleCounts<V>(x: Full<V>, q: seq<PathStep>, sh: Shape, k: nat, r: nat, d: nat)
    requires Rooted(sh) && k < |sh| && |q| == |sh| - k && Fits(sh, k, ProjectFull(x, q))
    ensures var cells := Shred(sh, k, ProjectFull(x, q), r, d);
      |cells| == LeafLevels(x, q).0 && Dense(cells) == LeafLevels(x, q).1
    decreases x
  {
    match x
    case Absent =>
    case Atom(v) => assert Dense([Cell(Level(r, if sh[k].optional then d + 1 else d), Some(v))]) == [v];
    case Fields(fs) =>
      if q[0].child < |fs| { OracleCounts(fs[q[0].child], q[1..], sh, k + 1, r, if sh[k].optional then d + 1 else d); }
    case Items(xs) =>
      if xs != [] { OracleCountsAll(xs, q[1..], sh, k + 1, r, RepAbove(sh, k + 1), (if sh[k].optional then d + 1 else d) + 1); }
    case Pairs(ks, vs) =>
      var side := if q[0].child == 0 then ks else vs;
      if side != [] { OracleCountsAll(side, q[1..], sh, k + 1, r, RepAbove(sh, k + 1), (if sh[k].optional then d + 1 else d) + 1); }
  }

  lemma {:induction false} OracleCountsAll<V>(xs: seq<Full<V>>, q: seq<PathStep>, sh: Shape, k: nat, r: nat, again: nat, d: nat)
    requires Rooted(sh) && k < |sh| && |q| == |sh| - k
    requires forall i :: 0 <= i < |xs| ==> Fits(sh, k, ProjectAll(xs, q)[i])
    ensures var cells := ShredItems(sh, k, ProjectAll(xs, q), r, again, d);
      |cells| == AllLevels(xs, q).0 && Dense(cells) == AllLevels(xs, q).1
    decreases xs
  {
    if xs != [] {
      var ys := ProjectAll(xs, q);
      assert ys[0] == ProjectFull(xs[0], q) && ys[1..] == ProjectAll(xs[1..], q);
      assert forall i :: 0 <= i < |ys| - 1 ==> ys[1..][i] == ys[i + 1];
      OracleCounts(xs[0], q, sh, k, r, d);
      OracleCountsAll(xs[1..], q, sh, k, again, again, d);
      CellsAppend(Shred(sh, k, ys[0], r, d), ShredItems(sh, k, ys[1..], again, again, d));
    }
  }

  /** The shredder refines the reference: per row, the same number of entries and the same values in order. */
  lemma {:induction false} ShredderRefinesOracle<V>(p: LeafPath, node: ArrowSchema, nullable: bool, column: ArrowArray, e: int,
      format: string, at: int -> V, at': (string, ArrowArray, int) -> V)
    requires WellFormed(p) && Backed(column) && Walk(p, 0, column, e, 0, 0).ok
    requires PathIn(node, nullable, p.steps, format) && Agrees(p, 0, column, format, at, at')
    ensures var out, want := Walk(p, 0, column, e, 0, 0).out, LeafLevels(ReadFull(node, nullable, column, e, at'), p.steps);
      |out| == want.0 && Dense(Cells(out, at)) == want.1
  {
    assert p.steps[0..] == p.steps;
    ProjectionOfRecord(p, 0, node, nullable, column, e, 0, 0, format, at, at');
    WalkIsShred(p, 0, column, e, 0, 0, at);
    OracleCounts(ReadFull(node, nullable, column, e, at'), p.steps, ShapeOf(p.steps), 0, 0, 0);
  }

  // ---- the projections determine the record ---------------------------------------------------

  /** The record has the form that the schema's node describes. */
  ghost predicate HasType<V>(node: ArrowSchema, nullable: bool, x: Full<V>)
    decreases node
  {
    match x
    case Absent => nullable || node.format == "n"
    case Atom(_) => IsLeaf(node) && node.format != "n"
    case Fields(fs) =>
      node.format == "+s" && |fs| == |node.children| &&
      forall c :: 0 <= c < |fs| ==> HasType(node.children[c], NullableChild(node.children[c]), fs[c])
    case Items(xs) => IsList(node) && forall i :: 0 <= i < |xs| ==> HasType(node.children[0], NullableChild(node.children[0]), xs[i])
    case Pairs(ks, vs) =>
      IsMap(node) && |ks| == |vs|
      && (forall i :: 0 <= i < |ks| ==> HasType(SideOf(node, 0), SideNullable(node, 0), ks[i]))
      && (forall i :: 0 <= i < |vs| ==> HasType(SideOf(node, 1), SideNullable(node, 1), vs[i]))
  }

  /** Every group has a leaf below it. */
  ghost predicate HasLeaf(node: ArrowSchema)
    decreases node
  {
    IsLeaf(node)
    || (node.format == "+s" && node.children != [] && forall c :: 0 <= c < |node.children| ==> HasLeaf(node.children[c]))
    || (IsList(node) && HasLeaf(node.children[0]))
    || (IsMap(node) && HasLeaf(SideOf(node, 0)) && HasLeaf(SideOf(node, 1)))
  }

  function StepAt(node: ArrowSchema, nullable: bool, kind: StepKind, child: nat): PathStep {
    PathStep(kind, nullable || node.format == "n", child, 0)
  }

  lemma {:induction false} SomePath(node: ArrowSchema, nullable: bool) returns (q: seq<PathStep>, format: string)
    requires HasLeaf(node)
    ensures PathIn(node, nullable, q, format)
    decreases node
  {
    if IsLeaf(node) {
      q, format := [StepAt(node, nullable, LeafStep, 0)], node.format;
    } else if node.format == "+s" {
      var c := node.children[0];
      q, format := SomePath(c, NullableChild(c));
      q := Longer(node, nullable, StepAt(node, nullable, StructStep, 0), q, format);
    } else if IsList(node) {
      q, format := SomePath(node.children[0], NullableChild(node.children[0]));
      q := Longer(node, nullable, StepAt(node, nullable, ListKind(node), 0), q, format);
    } else {
      q, format := SomePath(SideOf(node, 0), SideNullable(node, 0));
      q := Longer(node, nullable, StepAt(node, nullable, MapStep, 0), q, format);
    }
  }

  /** The step leads from the node to a node below it. */
  predicate LeadsTo(node: ArrowSchema, nullable: bool, st: PathStep, below: ArrowSchema, belowNullable: bool) {
    st.optional == (nullable || node.format == "n") && match st.kind
      case LeafStep => false
      case StructStep => node.format == "+s" && st.child < |node.children| && below == node.children[st.child] && belowNullable == NullableChild(below)
      case MapStep => IsMap(node) && st.child < 2 && below == SideOf(node, st.child) && belowNullable == SideNullable(node, st.child)
      case _ => IsList(node) && st.kind == ListKind(node) && st.child == 0 && below == node.children[0] && belowNullable == NullableChild(below)
  }

  lemma {:induction false} Longer(node: ArrowSchema, nullable: bool, st: PathStep, q: seq<PathStep>, format: string) returns (longer: seq<PathStep>)
    requires exists below, belowNullable :: LeadsTo(node, nullable, st, below, belowNullable) && PathIn(below, belowNullable, q, format)
    ensures longer == [st] + q && PathIn(node, nullable, longer, format)
  {
    longer := [st] + q;
    assert longer[1..] == q;
  }

  /** The records agree along every path below the node. */
  ghost predicate SamePaths<V>(node: ArrowSchema, nullable: bool, x: Full<V>, y: Full<V>) {
    forall q, format :: PathIn(node, nullable, q, format) ==> ProjectFull(x, q) == ProjectFull(y, q)
  }

  /** Along a path of its type only an absent record reads as null. */
  lemma {:induction false} NullIsAbsent<V>(node: ArrowSchema, nullable: bool, x: Full<V>, q: seq<PathStep>, format: string)
    requires HasType(node, nullable, x) && PathIn(node, nullable, q, format)
    ensures ProjectFull(x, q) == Null <==> x == Absent
  {
  }

  lemma {:induction false} ProjectAllAt<V>(xs: seq<Full<V>>, q: seq<PathStep>, i: nat)
    requires i < |xs|
    ensures ProjectAll(xs, q)[i] == ProjectFull(xs[i], q)
  {
    if i > 0 { ProjectAllAt(xs[1..], q, i - 1); }
  }

  lemma {:induction false} SameField<V>(node: ArrowSchema, nullable: bool, xs: seq<Full<V>>, ys: seq<Full<V>>, c: nat)
    requires SamePaths(node, nullable, Fields(xs), Fields(ys)) && node.format == "+s" && c < |node.children| == |xs| == |ys|
    ensures SamePaths(node.children[c], NullableChild(node.children[c]), xs[c], ys[c])
  {
    var st := StepAt(node, nullable, StructStep, c);
    forall q, format | PathIn(node.children[c], NullableChild(node.children[c]), q, format) ensures ProjectFull(xs[c], q) == ProjectFull(ys[c], q) {
      assert LeadsTo(node, nullable, st, node.children[c], NullableChild(node.children[c]));
      var longer := Longer(node, nullable, st, q, format);
      assert longer[1..] == q;
      assert ProjectFull(Fields(xs), longer) == ProjectFull(Fields(ys), longer);
    }
  }

  /** Lists whose projections agree along every path have as many elements, which agree in turn. */
  lemma {:induction false} SameElements<V>(below: ArrowSchema, nullable: bool, xs: seq<Full<V>>, ys: seq<Full<V>>)
    requires HasLeaf(below)
    requires forall q, format :: PathIn(below, nullable, q, format) ==> ProjectAll(xs, q) == ProjectAll(ys, q)
    ensures |xs| == |ys| && forall i :: 0 <= i < |xs| ==> SamePaths(below, nullable, xs[i], ys[i])
  {
    var q0, n0 := SomePath(below, nullable);
    assert |ProjectAll(xs, q0)| == |ProjectAll(ys, q0)|;
    forall i, q, format | 0 <= i < |xs| && PathIn(below, nullable, q, format) ensures ProjectFull(xs[i], q) == ProjectFull(ys[i], q) {
      ProjectAllAt(xs, q, i);
      ProjectAllAt(ys, q, i);
    }
  }

  /** Two records of a type that agree along every path are the same record. */
  lemma {:induction false} ProjectionsDetermine<V>(node: ArrowSchema, nullable: bool, x: Full<V>, y: Full<V>)
    requires HasLeaf(node) && HasType(node, nullable, x) && HasType(node, nullable, y) && SamePaths(node, nullable, x, y)
    ensures x == y
    decreases node, 1
  {
    var q, format := SomePath(node, nullable);
    NullIsAbsent(node, nullable, x, q, format);
    NullIsAbsent(node, nullable, y, q, format);
    match x
    case Absent =>
    case Atom(_) =>
    case Fields(xs) =>
      if y.Fields? { FieldsDetermine(node, nullable, xs, y.fs); }
    case Items(xs) =>
      if y.Items? { ItemsDetermine(node, nullable, xs, y.xs); }
    case Pairs(ks, vs) =>
      if y.Pairs? { PairsDetermine(node, nullable, ks, vs, y.keys, y.values); }
  }

  lemma {:induction false} FieldsDetermine<V>(node: ArrowSchema, nullable: bool, xs: seq<Full<V>>, ys: seq<Full<V>>)
    requires HasLeaf(node) && HasType(node, nullable, Fields(xs)) && HasType(node, nullable, Fields(ys))
    requires SamePaths(node, nullable, Fields(xs), Fields(ys))
    ensures xs == ys
    decreases node, 0
  {
    forall c | 0 <= c < |xs| ensures xs[c] == ys[c] {
      SameField(node, nullable, xs, ys, c);
      ProjectionsDetermine(node.children[c], NullableChild(node.children[c]), xs[c], ys[c]);
    }
  }

  lemma {:induction false} ItemsDetermine<V>(node: ArrowSchema, nullable: bool, xs: seq<Full<V>>, ys: seq<Full<V>>)
    requires HasLeaf(node) && HasType(node, nullable, Items(xs)) && HasType(node, nullable, Items(ys))
    requires SamePaths(node, nullable, Items(xs), Items(ys))
    ensures xs == ys
    decreases node, 0
  {
    var below, bn, st := node.children[0], NullableChild(node.children[0]), StepAt(node, nullable, ListKind(node), 0);
    forall q, format | PathIn(below, bn, q, format) ensures ProjectAll(xs, q) == ProjectAll(ys, q) {
      assert LeadsTo(node, nullable, st, below, bn);
      var longer := Longer(node, nullable, st, q, format);
      assert longer[1..] == q;
      assert ProjectFull(Items(xs), longer) == ProjectFull(Items(ys), longer);
    }
    SameElements(below, bn, xs, ys);
    forall i | 0 <= i < |xs| ensures xs[i] == ys[i] { ProjectionsDetermine(below, bn, xs[i], ys[i]); }
  }

  lemma {:induction false} PairsDetermine<V>(node: ArrowSchema, nullable: bool, ks: seq<Full<V>>, vs: seq<Full<V>>, ks': seq<Full<V>>, vs': seq<Full<V>>)
    requires HasLeaf(node) && HasType(node, nullable, Pairs(ks, vs)) && HasType(node, nullable, Pairs(ks', vs'))
    requires SamePaths(node, nullable, Pairs(ks, vs), Pairs(ks', vs'))
    ensures ks == ks' && vs == vs'
    decreases node, 0
  {
    SidesAgree(node, nullable, ks, vs, ks', vs', 0);
    SidesAgree(node, nullable, ks, vs, ks', vs', 1);
    SameElements(SideOf(node, 0), SideNullable(node, 0), ks, ks');
    SameElements(SideOf(node, 1), SideNullable(node, 1), vs, vs');
    forall i | 0 <= i < |ks| ensures ks[i] == ks'[i] { ProjectionsDetermine(SideOf(node, 0), SideNullable(node, 0), ks[i], ks'[i]); }
    forall i | 0 <= i < |vs| ensures vs[i] == vs'[i] { ProjectionsDetermine(SideOf(node, 1), SideNullable(node, 1), vs[i], vs'[i]); }
  }

  lemma {:induction false} SidesAgree<V>(node: ArrowSchema, nullable: bool, ks: seq<Full<V>>, vs: seq<Full<V>>, ks': seq<Full<V>>, vs': seq<Full<V>>, side: nat)
    requires IsMap(node) && side < 2 && SamePaths(node, nullable, Pairs(ks, vs), Pairs(ks', vs'))
    ensures forall q, format :: PathIn(SideOf(node, side), SideNullable(node, side), q, format) ==>
      if side == 0 then ProjectAll(ks, q) == ProjectAll(ks', q) else ProjectAll(vs, q) == ProjectAll(vs', q)
  {
    var st := StepAt(node, nullable, MapStep, side);
    forall q, format | PathIn(SideOf(node, side), SideNullable(node, side), q, format)
      ensures if side == 0 then ProjectAll(ks, q) == ProjectAll(ks', q) else ProjectAll(vs, q) == ProjectAll(vs', q)
    {
      assert LeadsTo(node, nullable, st, SideOf(node, side), SideNullable(node, side));
      var longer := Longer(node, nullable, st, q, format);
      assert longer[1..] == q;
      assert ProjectFull(Pairs(ks, vs), longer) == ProjectFull(Pairs(ks', vs'), longer);
    }
  }
}
