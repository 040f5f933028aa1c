/**
 The records of an accepted batch have the type that the schema says, so the columns that a file gives
 back determine them.
 */
module RecordTypes {
  import opened Bits
  import opened Arrow
  import opened Shredding
  import opened Schema
  import opened Footer
  import opened Projection
  import opened FastPath
  import opened Codecs
  import opened Chunks
  import opened Writing
  import opened Runs
  import opened Readback
  import opened FileReadback
  import opened Nested
  import opened NestedLeaves
  import opened RecordReadback

  // ---- what acceptance along one path means ---------------------------------------------------

  /** Along the path from entry `e` on, everything up to a null or the leaf is there. */
  ghost predicate PathOk(q: seq<PathStep>, a: ArrowArray, e: int)
    requires Backed(a)
    decreases |q|, 0
  {
    && q != [] && 0 <= e < a.length
    && ((q[0].optional && !Valid(a, a.offset + e)) ||
        match q[0].kind
        case LeafStep => true
        case StructStep => q[0].child < |a.children| && PathOk(q[1..], a.children[q[0].child], a.offset + e)
        case _ =>
          var x := ListRange(q[0], a, a.offset + e);
          x.Some? && RangeOk(q[1..], x.value.elements, x.value.first, x.value.end))
  }

  ghost predicate RangeOk(q: seq<PathStep>, a: ArrowArray, s: int, t: int)
    requires Backed(a)
    decreases |q|, 1
  {
    forall j :: s <= j < t ==> PathOk(q, a, j)
  }

  /** Under a list the walk has checked all of it. */
  lemma {:induction false} WalkPathOk(p: LeafPath, k: nat, a: ArrowArray, e: int, r: nat, d: nat)
    requires WellFormed(p) && k < |p.steps| && Backed(a) && Walk(p, k, a, e, r, d).ok
    ensures PathOk(p.steps[k..], a, e)
    decreases |p.steps| - k, 0
  {
    var st, q := p.steps[k], p.steps[k..];
    assert q[0] == st && q[1..] == p.steps[k + 1..];
    var d' := if st.optional then d + 1 else d;
    if !(st.optional && IsNull(p, k, a, e)) && !st.kind.LeafStep? {
      if st.kind.StructStep? {
        WalkPathOk(p, k + 1, a.children[st.child], e, r, d');
      } else {
        var x := ListRange(st, a, e).value;
        WalkRangeOk(p, k + 1, x.elements, x.first, x.end, r, st.repLevel, d' + 1);
      }
    }
  }

  lemma {:induction false} WalkRangeOk(p: LeafPath, k: nat, a: ArrowArray, s: int, t: int, r: nat, again: nat, d: nat)
    requires WellFormed(p) && k < |p.steps| && Backed(a) && (s < t ==> WalkRange(p, k, a, s, t, r, again, d).ok)
    ensures RangeOk(p.steps[k..], a, s, t)
    decreases |p.steps| - k, if s < t then t - s else 0
  {
    if s < t {
      WalkPathOk(p, k, a, s, r, d);
      WalkRangeOk(p, k, a, s + 1, t, again, again, d);
    }
  }

  /** Outside lists it holds of unsliced arrays that are as long as the batch. */
  lemma {:induction false} ChainPathOk(p: LeafPath, nodes: seq<ArrowArray>, n: nat, k: nat, e: nat)
    requires WellFormed(p) && Chain(p, nodes) && Unsliced(nodes, n) && k < |nodes| && e < n
    ensures PathOk(p.steps[k..], nodes[k], e)
    decreases |nodes| - k
  {
    var st, q := p.steps[k], p.steps[k..];
    assert q[0] == st && q[1..] == p.steps[k + 1..];
    if st.kind.StructStep? {
      assert Next(st, nodes[k]) == Some(nodes[k + 1]);
      ChainPathOk(p, nodes, n, k + 1, e);
    }
  }

  /** It does not depend on how the path's steps are numbered. */
  lemma {:induction false} PathOkAlike(node: ArrowSchema, nullable: bool, q: seq<PathStep>, format: string, q': seq<PathStep>, format': string,
      a: ArrowArray, e: int)
    requires Backed(a) && PathIn(node, nullable, q, format) && PathIn(node, nullable, q', format') && Alike(q', q) && PathOk(q', a, e)
    ensures PathOk(q, a, e)
    decreases |q|, 0
  {
    assert q[0].optional == q'[0].optional && q[0].child == q'[0].child;
    assert Alike(q'[1..], q[1..]);
    if !(q[0].optional && !Valid(a, a.offset + e)) {
      match q[0].kind
      case LeafStep =>
      case StructStep =>
        var c := node.children[q[0].child];
        PathOkAlike(c, NullableChild(c), q[1..], format, q'[1..], format', a.children[q[0].child], a.offset + e);
      case _ =>
        assert ListRange(q[0], a, a.offset + e) == ListRange(q'[0], a, a.offset + e);
        var x := ListRange(q[0], a, a.offset + e).value;
        RangeOkAlike(EntryNode(node, q[0]), EntryNullable(node, q[0]), q[1..], format, q'[1..], format', x);
    }
  }

  lemma {:induction false} RangeOkAlike(node: ArrowSchema, nullable: bool, q: seq<PathStep>, format: string, q': seq<PathStep>, format': string, x: Range)
    requires Backed(x.elements) && PathIn(node, nullable, q, format) && PathIn(node, nullable, q', format') && Alike(q', q)
    requires RangeOk(q', x.elements, x.first, x.end)
    ensures RangeOk(q, x.elements, x.first, x.end)
    decreases |q|, 1
  {
    forall j | x.first <= j < x.end ensures PathOk(q, x.elements, j) {
      PathOkAlike(node, nullable, q, format, q', format', x.elements, j);
    }
  }

  // ---- the record's type ----------------------------------------------------------------------

  /** Along every path of the node everything is there. */
  ghost predicate PathsOk(node: ArrowSchema, nullable: bool, a: ArrowArray, e: int)
    requires Backed(a)
  {
    forall q, format :: PathIn(node, nullable, q, format) ==> PathOk(q, a, e)
  }

  lemma {:induction false} PathsOkInRange(node: ArrowSchema, nullable: bool, a: ArrowArray, e: int)
    requires Backed(a) && HasLeaf(node) && PathsOk(node, nullable, a, e)
    ensures 0 <= e < a.length
  {
    var q, format := SomePath(node, nullable);
    assert PathOk(q, a, e);
  }

  /** One step further. */
  lemma {:induction false} LongerOk(node: ArrowSchema, nullable: bool, st: PathStep, below: ArrowSchema, bn: bool, q: seq<PathStep>, format: string,
      a: ArrowArray, e: int)
    requires Backed(a) && PathsOk(node, nullable, a, e) && LeadsTo(node, nullable, st, below, bn) && PathIn(below, bn, q, format)
    requires 0 <= e < a.length && !(st.optional && !Valid(a, a.offset + e))
    ensures st.kind.StructStep? ==> st.child < |a.children| && PathOk(q, a.children[st.child], a.offset + e)
    ensures st.kind.Repeats() ==>
      var x := ListRange(st, a, a.offset + e); x.Some? && RangeOk(q, x.value.elements, x.value.first, x.value.end)
  {
    var longer := Longer(node, nullable, st, q, format);
    assert longer[0] == st && longer[1..] == q;
    assert PathOk(longer, a, e);
  }

  lemma {:induction false} FieldOk(node: ArrowSchema, nullable: bool, c: nat, a: ArrowArray, e: int)
    requires Backed(a) && PathsOk(node, nullable, a, e) && node.format == "+s" && c < |node.children| && HasLeaf(node.children[c])
    requires 0 <= e < a.length && !(nullable && !Valid(a, a.offset + e))
    ensures c < |a.children| && PathsOk(node.children[c], NullableChild(node.children[c]), a.children[c], a.offset + e)
  {
    var st, below, bn := StepAt(node, nullable, StructStep, c), node.children[c], NullableChild(node.children[c]);
    var q0, format0 := SomePath(below, bn);
    LongerOk(node, nullable, st, below, bn, q0, format0, a, e);
    forall q, format | PathIn(below, bn, q, format) ensures PathOk(q, a.children[c], a.offset + e) {
      LongerOk(node, nullable, st, below, bn, q, format, a, e);
    }
  }

  ghost predicate RangesOk(node: ArrowSchema, nullable: bool, x: Option<Range>)
    requires x.Some? ==> Backed(x.value.elements)
  {
    x.Some? && forall j :: x.value.first <= j < x.value.end ==> PathsOk(node, nullable, x.value.elements, j)
  }

  lemma {:induction false} ElementsOk(node: ArrowSchema, nullable: bool, st: PathStep, a: ArrowArray, e: int)
    requires Backed(a) && PathsOk(node, nullable, a, e) && st.kind.Repeats() && st.optional == (nullable || node.format == "n")
    requires if st.kind.MapStep? then IsMap(node) && st.child < 2 else IsList(node) && st.kind == ListKind(node) && st.child == 0
    requires HasLeaf(EntryNode(node, st)) && 0 <= e < a.length && !(nullable && !Valid(a, a.offset + e))
    ensures RangesOk(EntryNode(node, st), EntryNullable(node, st), ListRange(st, a, a.offset + e))
  {
    var below, bn, x := EntryNode(node, st), EntryNullable(node, st), ListRange(st, a, a.offset + e);
    var q0, format0 := SomePath(below, bn);
    LongerOk(node, nullable, st, below, bn, q0, format0, a, e);
    forall j, q, format | x.value.first <= j < x.value.end && PathIn(below, bn, q, format) ensures PathOk(q, x.value.elements, j) {
      LongerOk(node, nullable, st, below, bn, q, format, a, e);
    }
  }

  /** A record all of whose paths are there has the node's type. */
  lemma {:induction false} RecordHasType<V>(node: ArrowSchema, nullable: bool, a: ArrowArray, e: int, at: (string, ArrowArray, int) -> V)
    requires Backed(a) && HasLeaf(node) && PathsOk(node, nullable, a, e)
    ensures HasType(node, nullable, ReadFull(node, nullable, a, e, at))
    decreases node, 2, 0
  {
    PathsOkInRange(node, nullable, a, e);
    if node.format == "n" || (nullable && !Valid(a, a.offset + e)) {
    } else if node.format == "+s" {
      FieldsHaveType(node, nullable, a, e, at);
    } else if IsList(node) {
      ListHasType(node, nullable, a, e, at);
    } else if IsMap(node) {
      MapHasType(node, nullable, a, e, at);
    }
  }

  lemma {:induction false} FieldsHaveType<V>(node: ArrowSchema, nullable: bool, a: ArrowArray, e: int, at: (string, ArrowArray, int) -> V)
    requires Backed(a) && HasLeaf(node) && PathsOk(node, nullable, a, e) && node.format == "+s"
    requires 0 <= e < a.length && !(nullable && !Valid(a, a.offset + e))
    ensures HasType(node, nullable, ReadFull(node, nullable, a, e, at))
    decreases node, 1, 0
  {
    var fs := ReadFull(node, nullable, a, e, at).fs;
    forall c | 0 <= c < |fs| ensures HasType(node.children[c], NullableChild(node.children[c]), fs[c]) {
      FieldOk(node, nullable, c, a, e);
      RecordHasType(node.children[c], NullableChild(node.children[c]), a.children[c], a.offset + e, at);
    }
  }

  lemma {:induction false} ListHasType<V>(node: ArrowSchema, nullable: bool, a: ArrowArray, e: int, at: (string, ArrowArray, int) -> V)
    requires Backed(a) && HasLeaf(node) && PathsOk(node, nullable, a, e) && IsList(node)
    requires 0 <= e < a.length && !(nullable && !Valid(a, a.offset + e))
    ensures HasType(node, nullable, ReadFull(node, nullable, a, e, at))
    decreases node, 1, 0
  {
    var x := ElementsOfList(a, a.offset + e);
    var st := StepAt(node, nullable, ListKind(node), 0);
    ElementsOk(node, nullable, st, a, e);
    RangeIsFormat(st, a, a.offset + e);
    ItemsHaveType(node.children[0], NullableChild(node.children[0]), x.value, at);
  }

  lemma {:induction false} MapHasType<V>(node: ArrowSchema, nullable: bool, a: ArrowArray, e: int, at: (string, ArrowArray, int) -> V)
    requires Backed(a) && HasLeaf(node) && PathsOk(node, nullable, a, e) && IsMap(node)
    requires 0 <= e < a.length && !(nullable && !Valid(a, a.offset + e))
    ensures HasType(node, nullable, ReadFull(node, nullable, a, e, at))
    decreases node, 1, 0
  {
    var keys := SideHasType(node, nullable, a, e, 0, at);
    var values := SideHasType(node, nullable, a, e, 1, at);
    assert ReadFull(node, nullable, a, e, at) == Pairs(keys, values);
  }

  /** Either side of a map, as many entries as the offsets say. */
  lemma {:induction false} SideHasType<V>(node: ArrowSchema, nullable: bool, a: ArrowArray, e: int, side: nat, at: (string, ArrowArray, int) -> V)
    returns (xs: seq<Full<V>>)
    requires Backed(a) && HasLeaf(node) && PathsOk(node, nullable, a, e) && IsMap(node) && side < 2
    requires 0 <= e < a.length && !(nullable && !Valid(a, a.offset + e))
    ensures xs == ReadItems(SideOf(node, side), SideNullable(node, side), if side == 0 then KeysOfMap(a, a.offset + e) else ValuesOfMap(a, a.offset + e), at)
    ensures forall i :: 0 <= i < |xs| ==> HasType(SideOf(node, side), SideNullable(node, side), xs[i])
    ensures a.offsets.Some? && a.offset + e + 1 < |a.offsets.value|
    ensures |xs| == a.offsets.value[a.offset + e + 1] - a.offsets.value[a.offset + e]
    decreases node, 0, 0
  {
    var st := StepAt(node, nullable, MapStep, side);
    ElementsOk(node, nullable, st, a, e);
    RangeIsFormat(st, a, a.offset + e);
    var x := if side == 0 then KeysOfMap(a, a.offset + e) else ValuesOfMap(a, a.offset + e);
    ItemsHaveType(SideOf(node, side), SideNullable(node, side), x.value, at);
    xs := ReadItems(SideOf(node, side), SideNullable(node, side), x, at);
  }

  lemma {:induction false} ItemsHaveType<V>(node: ArrowSchema, nullable: bool, x: Range, at: (string, ArrowArray, int) -> V)
    requires Backed(x.elements) && HasLeaf(node) && RangesOk(node, nullable, Some(x)) && x.first <= x.end
    ensures var xs := ReadItems(node, nullable, Some(x), at);
      |xs| == x.end - x.first && forall i :: 0 <= i < |xs| ==> HasType(node, nullable, xs[i])
    decreases node, 3, x.end - x.first
  {
    if x.first < x.end {
      RecordHasType(node, nullable, x.elements, x.first, at);
      var rest := Range(x.elements, x.first + 1, x.end);
      assert RangesOk(node, nullable, Some(rest));
      ItemsHaveType(node, nullable, rest, at);
      assert ReadItems(node, nullable, Some(x), at)[1..] == ReadItems(node, nullable, Some(rest), at);
    }
  }

  // ---- the records of an accepted batch -------------------------------------------------------

  lemma {:induction false} LeafPathOk(leaf: LeafSpec, batch: ArrowArray, e: nat)
    requires LeafRegular(leaf, batch) && e < batch.length
    ensures batch.offset == 0
    ensures leaf.pathIdx[0] < |batch.children| && PathOk(StepsOf(leaf), batch.children[leaf.pathIdx[0]], e)
  {
    ColumnExists(leaf, batch);
    var p, column := PathOf(leaf), batch.children[leaf.pathIdx[0]];
    assert p.steps[0..] == p.steps;
    if leaf.hasList {
      RowAccepted(p, column, batch.length, e);
      WalkPathOk(p, 0, column, e, 0, 0);
    } else {
      FlatChain(leaf, batch);
      ChainPathOk(p, FlatNodes(leaf, batch).value, batch.length, 0, e);
    }
  }

  ghost predicate AllIn(few: seq<LeafSpec>, many: seq<LeafSpec>) {
    forall leaf :: leaf in few ==> leaf in many
  }

  /** A column's leaves are among the schema's. */
  lemma {:induction false} TopFlattens(schema: ArrowSchema, i: nat, c: nat, all: Flat) returns (column: Flat)
    requires i <= c < |schema.children| && FlattenTop(schema, i) == Some(all)
    ensures Flatten(schema.children[c], TopLevel(c, schema.children[c])) == Some(column) && AllIn(column.leaves, all.leaves)
    decreases c - i
  {
    var first, others := FirstColumn(schema, i, all);
    if i == c {
      column := first;
      InEither(first.leaves, first, others, all);
      return;
    }
    column := TopFlattens(schema, i + 1, c, others);
    InEither(column.leaves, first, others, all);
  }

  lemma {:induction false} InEither(few: seq<LeafSpec>, a: Flat, b: Flat, all: Flat)
    requires all == a.Then(b) && (few == a.leaves || AllIn(few, b.leaves))
    ensures AllIn(few, all.leaves)
  {
  }

  lemma {:induction false} TopWhere(c: nat, node: ArrowSchema)
    ensures WhereOk(TopLevel(c, node), node.format == "n") && TopLevel(c, node).steps == [] && TopLevel(c, node).optional == NullableChild(node)
  {
    assert ShapeOf([]) == [];
  }

  lemma {:induction false} ColumnPathOk(schema: ArrowSchema, batch: ArrowArray, c: nat, e: nat, q: seq<PathStep>, format: string)
    requires FlattenTop(schema, 0).Some? && BatchRegular(FlattenTop(schema, 0).value.leaves, batch)
    requires c < |schema.children| && e < batch.length && PathIn(schema.children[c], NullableChild(schema.children[c]), q, format)
    ensures c < |batch.children| && Backed(batch.children[c]) && PathOk(q, batch.children[c], e) && batch.offset == 0
  {
    var node, w := schema.children[c], TopLevel(c, schema.children[c]);
    var column := TopFlattens(schema, 0, c, FlattenTop(schema, 0).value);
    TopWhere(c, node);
    var leaf := PathsHaveLeaves(node, w, q, format);
    LeafOfTop(schema, c, leaf);
    LeafAmong(FlattenTop(schema, 0).value.leaves, leaf, batch);
    ColumnExists(leaf, batch);
    LeafPathOk(leaf, batch, e);
    LeafAlike(leaf, node, w, q, format, batch.children[c], e);
  }

  lemma {:induction false} LeafAmong(leaves: seq<LeafSpec>, leaf: LeafSpec, batch: ArrowArray)
    requires BatchRegular(leaves, batch) && leaf in leaves
    ensures LeafRegular(leaf, batch)
  {
    var i :| 0 <= i < |leaves| && leaves[i] == leaf;
  }

  lemma {:induction false} LeafAlike(leaf: LeafSpec, node: ArrowSchema, w: Where, q: seq<PathStep>, format: string, a: ArrowArray, e: int)
    requires Along(leaf, w, q) && Through(leaf, node, w) && w.steps == [] && Backed(a)
    requires PathIn(node, w.optional, q, format) && PathOk(StepsOf(leaf), a, e)
    ensures PathOk(q, a, e)
  {
    var format' :| StandsBelow(leaf, node, w, format');
    assert StepsOf(leaf)[0..] == StepsOf(leaf);
    PathOkAlike(node, w.optional, q, format, StepsOf(leaf), format', a, e);
  }

  /** Every record of a batch that is accepted and read rightly has its column's type. */
  lemma {:induction false} RecordsHaveType(schema: ArrowSchema, batch: ArrowArray, c: nat, e: nat)
    requires FlattenTop(schema, 0).Some? && BatchRegular(FlattenTop(schema, 0).value.leaves, batch)
    requires c < |schema.children| && HasLeaf(schema.children[c]) && e < batch.length
    ensures c < |batch.children| && Backed(batch)
    ensures HasType(schema.children[c], NullableChild(schema.children[c]), RowRecord(schema, batch, c, e))
  {
    var node, nullable := schema.children[c], NullableChild(schema.children[c]);
    var q0, format0 := SomePath(node, nullable);
    ColumnPathOk(schema, batch, c, e, q0, format0);
    BatchBacked(schema, batch, c);
    forall q, format | PathIn(node, nullable, q, format) ensures PathOk(q, batch.children[c], e) {
      ColumnPathOk(schema, batch, c, e, q, format);
    }
    RecordHasType(node, nullable, batch.children[c], e, FormatValues());
  }

  lemma {:induction false} BatchBacked(schema: ArrowSchema, batch: ArrowArray, c: nat)
    requires FlattenTop(schema, 0).Some? && BatchRegular(FlattenTop(schema, 0).value.leaves, batch)
    requires c < |schema.children| && HasLeaf(schema.children[c])
    ensures Backed(batch)
  {
    var leaf := ColumnHasLeaf(schema, c);
    var leaves := FlattenTop(schema, 0).value.leaves;
    var i :| 0 <= i < |leaves| && leaves[i] == leaf;
    assert LeafRegular(leaves[i], batch);
  }

  lemma {:induction false} ColumnHasLeaf(schema: ArrowSchema, c: nat) returns (leaf: LeafSpec)
    requires FlattenTop(schema, 0).Some? && c < |schema.children| && HasLeaf(schema.children[c])
    ensures leaf in FlattenTop(schema, 0).value.leaves
  {
    var node := schema.children[c];
    var q, format := SomePath(node, NullableChild(node));
    var column := TopFlattens(schema, 0, c, FlattenTop(schema, 0).value);
    TopWhere(c, node);
    leaf := PathsHaveLeaves(node, TopLevel(c, node), q, format);
  }

  // ---- the tables determine the records -------------------------------------------------------

  /** Two accepted batches of a schema whose leaves read the same have the same records. */
  lemma {:induction false} TablesDetermine(schema: ArrowSchema, x: ArrowArray, y: ArrowArray, c: nat, e: nat)
    requires FlattenTop(schema, 0).Some?
    requires var leaves := FlattenTop(schema, 0).value.leaves;
      BatchRegular(leaves, x) && BatchRegular(leaves, y) && BatchRows(leaves, x) == BatchRows(leaves, y)
    requires c < |schema.children| && HasLeaf(schema.children[c]) && e < x.length
    ensures x.length == y.length && Backed(x) && Backed(y) && c < |x.children| && c < |y.children|
    ensures RowRecord(schema, x, c, e) == RowRecord(schema, y, c, e)
  {
    var node, w := schema.children[c], TopLevel(c, schema.children[c]);
    SameLength(schema, x, y, c);
    RecordsHaveType(schema, x, c, e);
    RecordsHaveType(schema, y, c, e);
    var column := TopFlattens(schema, 0, c, FlattenTop(schema, 0).value);
    TopWhere(c, node);
    forall leaf | leaf in Flatten(node, w).value.leaves && |leaf.pathIdx| == |leaf.pathOptional|
      ensures ProjectFull(RowRecord(schema, x, c, e), StepsOf(leaf)) == ProjectFull(RowRecord(schema, y, c, e), StepsOf(leaf))
    {
      SameProjection(schema, x, y, c, e, leaf);
    }
    LeavesDetermine(node, w, RowRecord(schema, x, c, e), RowRecord(schema, y, c, e));
  }

  lemma {:induction false} SameLength(schema: ArrowSchema, x: ArrowArray, y: ArrowArray, c: nat)
    requires FlattenTop(schema, 0).Some?
    requires var leaves := FlattenTop(schema, 0).value.leaves;
      BatchRegular(leaves, x) && BatchRegular(leaves, y) && BatchRows(leaves, x) == BatchRows(leaves, y)
    requires c < |schema.children| && HasLeaf(schema.children[c])
    ensures x.length == y.length
  {
    var leaves := FlattenTop(schema, 0).value.leaves;
    var leaf := ColumnHasLeaf(schema, c);
    var i :| 0 <= i < |leaves| && leaves[i] == leaf;
    BatchRowsCount(leaves, x);
    BatchRowsCount(leaves, y);
    assert |BatchRows(leaves, x)[i]| == x.length;
  }

  lemma {:induction false} SameProjection(schema: ArrowSchema, x: ArrowArray, y: ArrowArray, c: nat, e: nat, leaf: LeafSpec)
    requires FlattenTop(schema, 0).Some? && c < |schema.children| && e < x.length == y.length && Backed(x) && Backed(y)
    requires c < |x.children| && c < |y.children|
    requires var leaves := FlattenTop(schema, 0).value.leaves;
      BatchRegular(leaves, x) && BatchRegular(leaves, y) && BatchRows(leaves, x) == BatchRows(leaves, y)
    requires Flatten(schema.children[c], TopLevel(c, schema.children[c])).Some?
    requires leaf in Flatten(schema.children[c], TopLevel(c, schema.children[c])).value.leaves && |leaf.pathIdx| == |leaf.pathOptional|
    ensures ProjectFull(RowRecord(schema, x, c, e), StepsOf(leaf)) == ProjectFull(RowRecord(schema, y, c, e), StepsOf(leaf))
  {
    var column := TopFlattens(schema, 0, c, FlattenTop(schema, 0).value);
    LeafOfTop(schema, c, leaf);
    var leaves := FlattenTop(schema, 0).value.leaves;
    var i :| 0 <= i < |leaves| && leaves[i] == leaf;
    RowProjects(schema, x, c, e, leaf, i);
    RowProjects(schema, y, c, e, leaf, i);
  }

  lemma {:induction false} RowProjects(schema: ArrowSchema, batch: ArrowArray, c: nat, e: nat, leaf: LeafSpec, i: nat)
    requires FlattenTop(schema, 0).Some? && c < |schema.children| && e < batch.length && Backed(batch) && c < |batch.children|
    requires var leaves := FlattenTop(schema, 0).value.leaves; BatchRegular(leaves, batch) && i < |leaves| && leaves[i] == leaf
    requires leaf.pathIdx != [] && leaf.pathIdx[0] == c && |leaf.pathIdx| == |leaf.pathOptional|
    ensures var rows := BatchRows(FlattenTop(schema, 0).value.leaves, batch)[i];
      |rows| == batch.length && rows[e] == ProjectFull(RowRecord(schema, batch, c, e), StepsOf(leaf))
  {
    var leaves := FlattenTop(schema, 0).value.leaves;
    assert LeafRegular(leaves[i], batch);
    BatchRowsAt(leaves, batch, i);
    LeafRowsAreProjections(schema, leaf, batch);
  }

  /**
   A later batch is read with the leaves that the first one locked. If its own schema flattens to the
   same leaves, its rows are those of its own records.
   */
  lemma {:induction false} RowsAreItsOwn(leaves: seq<LeafSpec>, schema: ArrowSchema, batch: ArrowArray, i: nat, e: nat)
    requires FlattenTop(schema, 0).Some? && FlattenTop(schema, 0).value.leaves == leaves && BatchRegular(leaves, batch)
    requires i < |leaves| && e < batch.length
    ensures var c := leaves[i].pathIdx[0];
      && |leaves[i].pathIdx| == |leaves[i].pathOptional| > 0 && c < |schema.children| && c < |batch.children| && Backed(batch)
      && |BatchRows(leaves, batch)[i]| == batch.length
      && BatchRows(leaves, batch)[i][e] == ProjectFull(RowRecord(schema, batch, c, e), StepsOf(leaves[i]))
  {
    assert LeafRegular(leaves[i], batch);
    BatchRowsAt(leaves, batch, i);
    LeafRowsAreProjections(schema, leaves[i], batch);
  }

  /** Accepted batches with the same records, row by row, in every column that has a leaf below it. */
  ghost predicate SameRecords(schema: ArrowSchema, x: ArrowArray, y: ArrowArray) {
    && x.length == y.length && Backed(x) && Backed(y)
    && forall c, e :: 0 <= c < |schema.children| && HasLeaf(schema.children[c]) && 0 <= e < x.length ==> SameRecord(schema, x, y, c, e)
  }

  ghost predicate SameRecord(schema: ArrowSchema, x: ArrowArray, y: ArrowArray, c: nat, e: nat)
    requires Backed(x) && Backed(y) && c < |schema.children|
  {
    c < |x.children| && c < |y.children| && RowRecord(schema, x, c, e) == RowRecord(schema, y, c, e)
  }

  /** If every column has a leaf below it, the rows of the batches as a whole are the same. */
  lemma {:induction false} SameRows(schema: ArrowSchema, x: ArrowArray, y: ArrowArray, e: nat)
    requires SameRecords(schema, x, y) && WholeBatch(x) && WholeBatch(y) && schema.format == "+s" && e < x.length
    requires |schema.children| <= |x.children| && |schema.children| <= |y.children|
    requires forall c :: 0 <= c < |schema.children| ==> HasLeaf(schema.children[c])
    ensures BatchRecord(schema, x, e) == BatchRecord(schema, y, e)
  {
    BatchRecordFields(schema, x, e);
    BatchRecordFields(schema, y, e);
    var fs := seq(|schema.children|, c requires 0 <= c < |schema.children| => RowRecord(schema, x, c, e));
    var gs := seq(|schema.children|, c requires 0 <= c < |schema.children| => RowRecord(schema, y, c, e));
    forall c | 0 <= c < |schema.children| ensures fs[c] == gs[c] { assert SameRecord(schema, x, y, c, e); }
    assert Valid(x, x.offset + e) && Valid(y, y.offset + e);
  }

  lemma {:induction false} LeafLengths(leaves: seq<LeafSpec>, x: ArrowArray, y: ArrowArray)
    requires leaves != [] && BatchRegular(leaves, x) && BatchRegular(leaves, y) && BatchRows(leaves, x) == BatchRows(leaves, y)
    ensures x.length == y.length
  {
    BatchRowsCount(leaves, x);
    BatchRowsCount(leaves, y);
    assert |BatchRows(leaves, x)[0]| == x.length;
  }

  lemma {:induction false} SameTables(schema: ArrowSchema, x: ArrowArray, y: ArrowArray)
    requires FlattenTop(schema, 0).Some? && Backed(x) && Backed(y) && FlattenTop(schema, 0).value.leaves != []
    requires var leaves := FlattenTop(schema, 0).value.leaves;
      BatchRegular(leaves, x) && BatchRegular(leaves, y) && BatchRows(leaves, x) == BatchRows(leaves, y)
    ensures SameRecords(schema, x, y)
  {
    LeafLengths(FlattenTop(schema, 0).value.leaves, x, y);
    forall c, e | 0 <= c < |schema.children| && HasLeaf(schema.children[c]) && 0 <= e < x.length ensures SameRecord(schema, x, y, c, e) {
      TablesDetermine(schema, x, y, c, e);
    }
  }

  /** The `i`-th table of a run is its `i`-th accepted batch. */
  ghost predicate TableAt(leaves: seq<LeafSpec>, commits: seq<Commit>, i: nat)
    requires i < |commits|
  {
    && |CommittedTables(leaves, commits)| == |commits|
    && BatchRegular(leaves, commits[i].batch) && CommittedTables(leaves, commits)[i] == BatchRows(leaves, commits[i].batch)
  }

  lemma {:induction false} CommittedAt(codec: Codec, leaves: seq<LeafSpec>, commits: seq<Commit>, i: nat)
    requires AllRegular(codec, leaves, commits) && i < |commits|
    ensures TableAt(leaves, commits, i)
  {
    if i < |commits| - 1 {
      CommittedAt(codec, leaves, commits[..|commits| - 1], i);
      TableStays(leaves, commits, i);
    } else {
      CommittedLast(codec, leaves, commits);
    }
  }

  lemma {:induction false} TableStays(leaves: seq<LeafSpec>, commits: seq<Commit>, i: nat)
    requires i + 1 < |commits| && TableAt(leaves, commits[..|commits| - 1], i)
    ensures TableAt(leaves, commits, i)
  {
  }

  lemma {:induction false} CommittedLast(codec: Codec, leaves: seq<LeafSpec>, commits: seq<Commit>)
    requires AllRegular(codec, leaves, commits) && commits != []
    ensures TableAt(leaves, commits, |commits| - 1)
  {
    CommittedCount(leaves, commits[..|commits| - 1]);
  }

  lemma {:induction false} CommittedCount(leaves: seq<LeafSpec>, commits: seq<Commit>)
    ensures |CommittedTables(leaves, commits)| == |commits|
  {
    if commits != [] { CommittedCount(leaves, commits[..|commits| - 1]); }
  }

  ghost predicate ReadsRightly(f: Foreign, h: History) {
    Inv(f, h) && AllRegular(h.s.codec, h.s.leaves, h.commits) && Closed(f, h.s).status.OK?
  }

  /** Files of one schema that read the same were written from the same records, whatever the settings. */
  lemma {:induction false} FilesDetermine(f: Foreign, ops: seq<Op>, ops': seq<Op>, i: nat)
    requires Faithful(f) && AllAdmissible(f, ops) && AllAdmissible(f, ops')
    requires var h := Run(f, ops); AllRegular(h.s.codec, h.s.leaves, h.commits) && Closed(f, h.s).status.OK?
    requires var h := Run(f, ops'); AllRegular(h.s.codec, h.s.leaves, h.commits) && Closed(f, h.s).status.OK?
    requires Run(f, ops).schema == Run(f, ops').schema && i < |Run(f, ops).commits|
    requires ReadFile(f, Closed(f, Run(f, ops).s).s.file) == ReadFile(f, Closed(f, Run(f, ops').s).s.file)
    ensures var h, h' := Run(f, ops), Run(f, ops');
      |h.commits| == |h'.commits| && h.schema.Some? && SameRecords(h.schema.value, h.commits[i].batch, h'.commits[i].batch)
  {
    RunKeeps(f, ops);
    RunKeeps(f, ops');
    HistoriesDetermine(f, Run(f, ops), Run(f, ops'), i);
  }

  lemma {:induction false} HistoriesDetermine(f: Foreign, h: History, h': History, i: nat)
    requires Faithful(f) && ReadsRightly(f, h) && ReadsRightly(f, h') && h.schema == h'.schema && i < |h.commits|
    requires ReadFile(f, Closed(f, h.s).s.file) == ReadFile(f, Closed(f, h'.s).s.file)
    ensures |h.commits| == |h'.commits| && h.schema.Some? && SameRecords(h.schema.value, h.commits[i].batch, h'.commits[i].batch)
  {
    HistoryReadsBack(f, h);
    HistoryReadsBack(f, h');
    CommittedCount(h.s.leaves, h.commits);
    CommittedCount(h'.s.leaves, h'.commits);
    CommittedAt(h.s.codec, h.s.leaves, h.commits, i);
    CommittedAt(h'.s.codec, h'.s.leaves, h'.commits, i);
    CommitAt(f, h.s.leaves, h.s.file, h.s.rowGroups, h.commits, i);
    CommitAt(f, h'.s.leaves, h'.s.file, h'.s.rowGroups, h'.commits, i);
    SameTables(h.schema.value, h.commits[i].batch, h'.commits[i].batch);
  }
}
