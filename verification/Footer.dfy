/**
 The footer's schema and the leaf columns describe one tree. The footer lists schema elements in
 pre-order; a reader rebuilds the tree from the child counts and derives each column's path, nesting
 and maximum levels from it, and gets exactly the writer's leaf columns, in write order.
 */
module Footer {
  import opened Bits
  import opened Arrow
  import opened Records
  import opened Shredding
  import opened RleBitpack
  import opened Schema

  datatype Repetition = REQUIRED | OPTIONAL | REPEATED

  datatype SchemaElement = SchemaElement(
    repetition: Repetition,
    name: string,
    numChildren: Option<nat>,
    physical: Option<PhysicalType>,
    typeLength: Option<nat>,
    converted: Option<ConvertedType>)

  function TypeLength(col: ColumnSpec): Option<nat> {
    if col.physical == FIXED_LEN_BYTE_ARRAY then Some(col.typeLength) else None
  }

  /** `schema_element` */
  function ElementOf(n: SchemaNode): SchemaElement {
    match n
    case Group(name, optional, repeated, numChildren, annotation) =>
      SchemaElement(if repeated then REPEATED else if optional then OPTIONAL else REQUIRED, name, Some(numChildren), None, None,
        match annotation case Plain => None case ListGroup => Some(LIST) case MapGroup => Some(MAP))
    case Field(name, optional, col) =>
      SchemaElement(if optional then OPTIONAL else REQUIRED, name, None, Some(col.physical), TypeLength(col), col.converted)
  }

  function ElementsOf(nodes: seq<SchemaNode>): seq<SchemaElement> {
    seq(|nodes|, i requires 0 <= i < |nodes| => ElementOf(nodes[i]))
  }

  /** What a reader needs to know of a column. */
  datatype Column = Column(
    path: seq<string>,
    shape: Shape,
    maxDef: nat,
    maxRep: nat,
    physical: PhysicalType,
    typeLength: Option<nat>,
    converted: Option<ConvertedType>)

  // ---- the reader's side ----------------------------------------------------------------------

  datatype Tree = Tree(element: SchemaElement, children: seq<Tree>)

  /** One tree off the front of a pre-order list. */
  function ReadTree(es: seq<SchemaElement>): (r: Option<(Tree, seq<SchemaElement>)>)
    ensures r.Some? ==> |r.value.1| < |es|
    decreases |es|, 0
  {
    if es == [] then None
    else if es[0].numChildren.None? then Some((Tree(es[0], []), es[1..]))
    else match ReadForest(es[0].numChildren.value, es[1..])
      case None => None
      case Some((ts, rest)) => Some((Tree(es[0], ts), rest))
  }

  function ReadForest(n: nat, es: seq<SchemaElement>): (r: Option<(seq<Tree>, seq<SchemaElement>)>)
    ensures r.Some? ==> |r.value.1| <= |es|
    decreases |es|, n + 1
  {
    if n == 0 then Some(([], es))
    else match ReadTree(es)
      case None => None
      case Some((t, rest)) =>
        match ReadForest(n - 1, rest)
        case None => None
        case Some((ts, rest')) => Some(([t] + ts, rest'))
  }

  /** The levels that an element adds to the columns below it, by its repetition alone. */
  function DefOf(e: SchemaElement): nat { if e.repetition.REQUIRED? then 0 else 1 }
  function RepOf(e: SchemaElement): nat { if e.repetition.REPEATED? then 1 else 0 }

  /** The groups above a tree: their path, nesting and levels. */
  datatype Under = Under(path: seq<string>, shape: Shape, def: nat, rep: nat) {
    /** Below one more group, or at a leaf. */
    function Enter(e: SchemaElement, nesting: Nesting): Under {
      Under(path + [e.name], shape + [Layer(nesting, e.repetition.OPTIONAL?)], def + DefOf(e), rep + RepOf(e))
    }
    /** Below the repeated group of a LIST or MAP group: the two make one layer of nesting. */
    function EnterRepeated(outer: SchemaElement, inner: SchemaElement): Under {
      Under(path + [outer.name] + [inner.name], shape + [Layer(Many, outer.repetition.OPTIONAL?)],
            def + DefOf(outer) + DefOf(inner), rep + RepOf(outer) + RepOf(inner))
    }
  }

  /** The columns of a tree. */
  function Columns(t: Tree, u: Under): seq<Column>
    decreases t
  {
    var e := t.element;
    if e.numChildren.None? then
      if e.physical.None? then [] else
      var leaf := u.Enter(e, Leaf);
      [Column(leaf.path, leaf.shape, leaf.def, leaf.rep, e.physical.value, e.typeLength, e.converted)]
    else if (e.converted == Some(LIST) || e.converted == Some(MAP)) && |t.children| == 1 then
      ForestColumns(t.children[0].children, u.EnterRepeated(e, t.children[0].element))
    else ForestColumns(t.children, u.Enter(e, One))
  }

  function ForestColumns(ts: seq<Tree>, u: Under): seq<Column>
    decreases ts
  {
    if ts == [] then [] else Columns(ts[0], u) + ForestColumns(ts[1..], u)
  }

  // ---- the writer's leaf columns --------------------------------------------------------------

  /** A leaf column's path; for a leaf outside any list it is spelled by the child indices and flags. */
  function StepsOf(leaf: LeafSpec): seq<PathStep>
    requires |leaf.pathIdx| == |leaf.pathOptional|
  {
    if leaf.hasList then leaf.steps else
    seq(|leaf.pathIdx|, i requires 0 <= i < |leaf.pathIdx| =>
      if i + 1 < |leaf.pathIdx| then PathStep(StructStep, leaf.pathOptional[i], leaf.pathIdx[i + 1], 0)
      else PathStep(LeafStep, leaf.pathOptional[i], 0, 0))
  }

  function PathOf(leaf: LeafSpec): LeafPath
    requires |leaf.pathIdx| == |leaf.pathOptional|
  {
    LeafPath(StepsOf(leaf), leaf.col.extract.NullValues?)
  }

  function ColumnOf(leaf: LeafSpec): Column
    requires |leaf.pathIdx| == |leaf.pathOptional|
  {
    Column(leaf.pathNames, ShapeOf(StepsOf(leaf)), leaf.maxDef, leaf.maxRep, leaf.col.physical, TypeLength(leaf.col), leaf.col.converted)
  }

  /** What the rest of the writer relies on: the path is well formed and the levels are its own. */
  ghost predicate LeafOk(leaf: LeafSpec) {
    && |leaf.pathIdx| == |leaf.pathOptional| > 0
    && WellFormed(PathOf(leaf))
    && leaf.maxDef == Nullables(StepsOf(leaf)) && leaf.maxRep == Lists(StepsOf(leaf))
    && leaf.defBitWidth == BitWidth(leaf.maxDef + 1) && leaf.repBitWidth == BitWidth(leaf.maxRep + 1)
    && (leaf.hasList <==> leaf.maxRep > 0)
    && StepsOf(leaf)[|StepsOf(leaf)| - 1].optional == leaf.col.nullable
  }

  /** Steps above a node, as flattening accumulates them. */
  ghost predicate AboveOk(steps: seq<PathStep>) {
    && (forall i :: 0 <= i < |steps| ==> !steps[i].kind.LeafStep?)
    && (forall i :: 0 <= i < |steps| && steps[i].kind.Repeats() ==> steps[i].repLevel == RepAbove(ShapeOf(steps), i + 1))
    && (forall i :: 0 <= i < |steps| && steps[i].kind.MapStep? ==> steps[i].child < 2)
  }

  /** Outside lists the indices and flags spell the same path as the steps. */
  ghost predicate WhereOk(w: Where, nullType: bool) {
    && AboveOk(w.steps)
    && w.idx != [] && w.opt != []
    && (if Lists(w.steps) == 0 then
        && |w.idx| == |w.opt| == |w.steps| + 1
        && w.opt[|w.steps|] == w.optional
        && (nullType ==> w.optional)
        && forall i :: 0 <= i < |w.steps| ==> w.steps[i] == PathStep(StructStep, w.opt[i], w.idx[i + 1], 0)
      else |w.idx| == |w.opt|)
  }

  lemma {:induction false} ShapePrefix(steps: seq<PathStep>, st: PathStep, k: nat)
    requires k <= |steps|
    ensures RepAbove(ShapeOf(steps + [st]), k) == RepAbove(ShapeOf(steps), k)
    ensures DefAbove(ShapeOf(steps + [st]), k) == DefAbove(ShapeOf(steps), k)
  {
    if k > 0 { ShapePrefix(steps, st, k - 1); }
  }

  lemma {:induction false} Extend(steps: seq<PathStep>, st: PathStep)
    ensures Lists(steps + [st]) == Lists(steps) + if st.kind.Repeats() then 1 else 0
    ensures Nullables(steps + [st]) == Nullables(steps) + (if st.optional then 1 else 0) + if st.kind.Repeats() then 1 else 0
    ensures ShapeOf(steps + [st]) == ShapeOf(steps) + [LayerOf(st)]
  {
    ShapePrefix(steps, st, |steps|);
  }

  lemma {:induction false} ExtendAbove(steps: seq<PathStep>, st: PathStep)
    requires AboveOk(steps)
    ensures !st.kind.LeafStep? && (st.kind.Repeats() ==> st.repLevel == Lists(steps) + 1) && (st.kind.MapStep? ==> st.child < 2)
      ==> AboveOk(steps + [st])
    ensures st.kind.LeafStep? ==> WellFormed(LeafPath(steps + [st], false)) && (st.optional ==> WellFormed(LeafPath(steps + [st], true)))
  {
    Extend(steps, st);
    forall k | 0 <= k <= |steps| ensures RepAbove(ShapeOf(steps + [st]), k) == RepAbove(ShapeOf(steps), k) {
      ShapePrefix(steps, st, k);
    }
  }

  ghost predicate LeavesOk(leaves: seq<LeafSpec>, top: nat) {
    forall i :: 0 <= i < |leaves| ==> LeafOk(leaves[i]) && leaves[i].pathIdx[0] == top
  }

  /** What the rest of flattening needs to know of a mapped format. */
  lemma {:induction false} MapFormatKeeps(format: string, name: string, nullable: bool)
    requires MapFormat(format, name, nullable).Some?
    ensures var spec := MapFormat(format, name, nullable).value;
      spec.name == name && spec.nullable == (nullable || format == "n") && (spec.extract.NullValues? <==> format == "n")
  {
  }

  lemma {:induction false} LeafColumnOk(spec: ColumnSpec, w: Where, nullType: bool)
    requires WhereOk(w, nullType)
    requires spec.nullable == (w.optional || nullType) && (spec.extract.NullValues? <==> nullType)
    ensures var leaf := LeafColumn(spec, w);
      && LeafOk(leaf) && leaf.pathIdx[0] == w.idx[0]
      && StepsOf(leaf) == w.steps + [PathStep(LeafStep, spec.nullable, 0, 0)]
  {
    var st := PathStep(LeafStep, spec.nullable, 0, 0);
    Extend(w.steps, st);
    ExtendAbove(w.steps, st);
    var leaf := LeafColumn(spec, w);
    if Lists(w.steps) == 0 {
      assert |StepsOf(leaf)| == |w.steps| + 1;
      assert forall i :: 0 <= i < |w.steps| ==> StepsOf(leaf)[i] == w.steps[i];
    }
    assert StepsOf(leaf) == w.steps + [st];
  }

  /** The path down to a child keeps the rule. */
  lemma {:induction false} ChildWhere(w: Where, i: nat, c: ArrowSchema, nullType: bool)
    requires WhereOk(w, nullType)
    ensures WhereOk(w.Child(i, c), c.format == "n")
  {
    Extend(w.steps, PathStep(StructStep, w.optional, i, 0));
    ExtendAbove(w.steps, PathStep(StructStep, w.optional, i, 0));
  }

  lemma {:induction false} ElementWhere(w: Where, c: ArrowSchema, large: bool, nullType: bool)
    requires WhereOk(w, nullType)
    ensures WhereOk(w.Element(c, large), c.format == "n")
  {
    Extend(w.steps, PathStep(if large then LargeListStep else ListStep, w.optional, 0, Lists(w.steps) + 1));
    ExtendAbove(w.steps, PathStep(if large then LargeListStep else ListStep, w.optional, 0, Lists(w.steps) + 1));
  }

  lemma {:induction false} KeyValueWhere(w: Where, i: nat, c: ArrowSchema, nullType: bool)
    requires WhereOk(w, nullType) && i < 2
    ensures WhereOk(w.KeyValue(i, c), c.format == "n")
  {
    Extend(w.steps, PathStep(MapStep, w.optional, i, Lists(w.steps) + 1));
    ExtendAbove(w.steps, PathStep(MapStep, w.optional, i, Lists(w.steps) + 1));
  }

  lemma {:induction false} FlattenLeavesOk(node: ArrowSchema, w: Where)
    requires WhereOk(w, node.format == "n") && Flatten(node, w).Some?
    ensures LeavesOk(Flatten(node, w).value.leaves, w.idx[0])
    decreases node, |node.children| + 1
  {
    if node.format == "+s" {
      FieldsLeavesOk(node, 0, w);
    } else if node.format == "+l" || node.format == "+L" {
      ElementWhere(w, node.children[0], node.format == "+L", false);
      FlattenLeavesOk(node.children[0], w.Element(node.children[0], node.format == "+L"));
    } else if node.format == "+m" {
      EntriesLeavesOk(node.children[0], w);
    } else {
      MapFormatKeeps(node.format, w.name, w.optional);
      LeafColumnOk(MapFormat(node.format, w.name, w.optional).value, w, node.format == "n");
    }
  }

  lemma {:induction false} EntriesLeavesOk(entries: ArrowSchema, w: Where)
    requires WhereOk(w, false) && FlattenEntries(entries, w).Some?
    ensures LeavesOk(FlattenEntries(entries, w).value.leaves, w.idx[0])
    decreases entries, |entries.children| + 1
  {
    KeyValueWhere(w, 0, entries.children[0], false);
    KeyValueWhere(w, 1, entries.children[1], false);
    FlattenLeavesOk(entries.children[0], w.KeyValue(0, entries.children[0]));
    FlattenLeavesOk(entries.children[1], w.KeyValue(1, entries.children[1]));
  }

  lemma {:induction false} FieldsLeavesOk(node: ArrowSchema, i: nat, w: Where)
    requires i <= |node.children| && WhereOk(w, false) && FlattenFields(node, i, w).Some?
    ensures LeavesOk(FlattenFields(node, i, w).value.leaves, w.idx[0])
    decreases node, |node.children| - i
  {
    if i < |node.children| {
      ChildWhere(w, i, node.children[i], false);
      FlattenLeavesOk(node.children[i], w.Child(i, node.children[i]));
      FieldsLeavesOk(node, i + 1, w);
    }
  }

  // ---- the reader finds the writer's columns --------------------------------------------------

  function ColumnsOf(leaves: seq<LeafSpec>): (cs: seq<Column>)
    requires forall i :: 0 <= i < |leaves| ==> |leaves[i].pathIdx| == |leaves[i].pathOptional|
  {
    seq(|leaves|, i requires 0 <= i < |leaves| => ColumnOf(leaves[i]))
  }

  lemma {:induction false} ElementsAppend(a: seq<SchemaNode>, b: seq<SchemaNode>, rest: seq<SchemaElement>)
    ensures ElementsOf(a + b) + rest == ElementsOf(a) + (ElementsOf(b) + rest)
  {
  }

  /** Each leaf's child indices come with their flags. */
  ghost predicate Spelled(leaves: seq<LeafSpec>) {
    forall i :: 0 <= i < |leaves| ==> |leaves[i].pathIdx| == |leaves[i].pathOptional|
  }

  lemma {:induction false} ColumnsAppend(a: seq<LeafSpec>, b: seq<LeafSpec>)
    requires Spelled(a) && Spelled(b)
    ensures Spelled(a + b) && ColumnsOf(a + b) == ColumnsOf(a) + ColumnsOf(b)
  {
  }

  lemma {:induction false} OneForest(es: seq<SchemaElement>, t: Tree, rest: seq<SchemaElement>)
    requires ReadTree(es) == Some((t, rest))
    ensures ReadForest(1, es) == Some(([t], rest))
  {
    assert [t] + [] == [t];
  }

  /** A group in front of the elements that make up its children. */
  lemma {:induction false} GroupReads(group: SchemaNode, below: seq<SchemaNode>, rest: seq<SchemaElement>, ts: seq<Tree>)
    requires group.Group? && ReadForest(group.numChildren, ElementsOf(below) + rest) == Some((ts, rest))
    ensures ReadTree(ElementsOf([group] + below) + rest) == Some((Tree(ElementOf(group), ts), rest))
  {
    var es := ElementsOf([group] + below) + rest;
    assert es[0] == ElementOf(group);
    assert es[1..] == ElementsOf(below) + rest;
  }

  /** One more tree in front of a forest. */
  lemma {:induction false} ForestReads(n: nat, a: seq<SchemaNode>, b: seq<SchemaNode>, rest: seq<SchemaElement>, t: Tree, ts: seq<Tree>)
    requires ReadTree(ElementsOf(a) + (ElementsOf(b) + rest)) == Some((t, ElementsOf(b) + rest))
    requires ReadForest(n, ElementsOf(b) + rest) == Some((ts, rest))
    ensures ReadForest(n + 1, ElementsOf(a + b) + rest) == Some(([t] + ts, rest))
  {
    ElementsAppend(a, b, rest);
  }

  lemma {:induction false} ForestColumnsCons(t: Tree, ts: seq<Tree>, u: Under)
    ensures ForestColumns([t] + ts, u) == Columns(t, u) + ForestColumns(ts, u)
  {
    assert ([t] + ts)[1..] == ts;
  }

  lemma {:induction false} OneColumns(t: Tree, u: Under)
    ensures ForestColumns([t], u) == Columns(t, u)
  {
    assert [t][1..] == [];
    assert Columns(t, u) + [] == Columns(t, u);
  }

  /** The groups above a node, as a reader sees them. */
  function Above(w: Where, path: seq<string>): Under {
    Under(path, ShapeOf(w.steps), Nullables(w.steps), Lists(w.steps))
  }

  lemma {:induction false} AboveChild(w: Where, path: seq<string>, i: nat, c: ArrowSchema, e: SchemaElement)
    requires w.names == path + [w.name] && e.name == w.name && e.repetition == (if w.optional then OPTIONAL else REQUIRED)
    ensures Above(w.Child(i, c), w.names) == Above(w, path).Enter(e, One)
    ensures w.Child(i, c).names == w.names + [c.name]
  {
    Extend(w.steps, PathStep(StructStep, w.optional, i, 0));
  }

  lemma {:induction false} AboveElement(w: Where, path: seq<string>, c: ArrowSchema, large: bool, e: SchemaElement, repeated: SchemaElement)
    requires w.names == path + [w.name] && e.name == w.name && e.repetition == (if w.optional then OPTIONAL else REQUIRED)
    requires repeated.name == "list" && repeated.repetition == REPEATED
    ensures Above(w.Element(c, large), w.names + ["list"]) == Above(w, path).EnterRepeated(e, repeated)
    ensures w.Element(c, large).names == w.names + ["list"] + ["element"]
  {
    Extend(w.steps, PathStep(if large then LargeListStep else ListStep, w.optional, 0, Lists(w.steps) + 1));
  }

  lemma {:induction false} AboveKeyValue(w: Where, path: seq<string>, i: nat, c: ArrowSchema, e: SchemaElement, repeated: SchemaElement)
    requires w.names == path + [w.name] && e.name == w.name && e.repetition == (if w.optional then OPTIONAL else REQUIRED)
    requires repeated.name == "key_value" && repeated.repetition == REPEATED
    ensures Above(w.KeyValue(i, c), w.names + ["key_value"]) == Above(w, path).EnterRepeated(e, repeated)
    ensures w.KeyValue(i, c).names == w.names + ["key_value"] + [w.KeyValue(i, c).name]
  {
    Extend(w.steps, PathStep(MapStep, w.optional, i, Lists(w.steps) + 1));
  }

  /** The tree `t` is read off the front of `nodes`, and holds the columns of `leaves` below the given groups. */
  ghost predicate Reads(nodes: seq<SchemaNode>, leaves: seq<LeafSpec>, u: Under, rest: seq<SchemaElement>, t: Tree) {
    && Spelled(leaves)
    && ReadTree(ElementsOf(nodes) + rest) == Some((t, rest))
    && Columns(t, u) == ColumnsOf(leaves)
  }

  lemma {:induction false} LeafReads(spec: ColumnSpec, w: Where, nullType: bool, path: seq<string>, rest: seq<SchemaElement>) returns (t: Tree)
    requires WhereOk(w, nullType) && w.names == path + [spec.name]
    requires spec.nullable == (w.optional || nullType) && (spec.extract.NullValues? <==> nullType)
    ensures Reads([Field(spec.name, spec.nullable, spec)], [LeafColumn(spec, w)], Above(w, path), rest, t)
  {
    var node := Field(spec.name, spec.nullable, spec);
    t := Tree(ElementOf(node), []);
    var es := ElementsOf([node]) + rest;
    assert es[0] == ElementOf(node) && es[1..] == rest;
    LeafColumnReads(spec, w, nullType, path);
  }

  lemma {:induction false} LeafColumnReads(spec: ColumnSpec, w: Where, nullType: bool, path: seq<string>)
    requires WhereOk(w, nullType) && w.names == path + [spec.name]
    requires spec.nullable == (w.optional || nullType) && (spec.extract.NullValues? <==> nullType)
    ensures var leaf := LeafColumn(spec, w);
      && |leaf.pathIdx| == |leaf.pathOptional|
      && Columns(Tree(ElementOf(Field(spec.name, spec.nullable, spec)), []), Above(w, path)) == ColumnsOf([leaf])
  {
    LeafColumnOk(spec, w, nullType);
    Extend(w.steps, PathStep(LeafStep, spec.nullable, 0, 0));
    var leaf := LeafColumn(spec, w);
    assert ColumnsOf([leaf]) == [ColumnOf(leaf)];
  }

  lemma {:induction false} FlattenReads(node: ArrowSchema, w: Where, path: seq<string>, rest: seq<SchemaElement>) returns (t: Tree)
    requires WhereOk(w, node.format == "n") && Flatten(node, w).Some? && w.names == path + [w.name]
    ensures Reads(Flatten(node, w).value.nodes, Flatten(node, w).value.leaves, Above(w, path), rest, t)
    decreases node, |node.children| + 1, 0
  {
    if node.format == "+s" {
      t := StructReads(node, w, path, rest);
    } else if node.format == "+l" || node.format == "+L" {
      t := ListReads(node, w, path, rest);
    } else if node.format == "+m" {
      t := MapReads(node, w, path, rest);
    } else {
      MapFormatKeeps(node.format, w.name, w.optional);
      t := LeafReads(MapFormat(node.format, w.name, w.optional).value, w, node.format == "n", path, rest);
    }
  }

  lemma {:induction false} StructReads(node: ArrowSchema, w: Where, path: seq<string>, rest: seq<SchemaElement>) returns (t: Tree)
    requires node.format == "+s" && WhereOk(w, false) && Flatten(node, w).Some? && w.names == path + [w.name]
    ensures Reads(Flatten(node, w).value.nodes, Flatten(node, w).value.leaves, Above(w, path), rest, t)
    decreases node, |node.children|, 1
  {
    var fields := FlattenFields(node, 0, w).value;
    var group := Group(w.name, w.optional, false, |node.children|, Plain);
    var ts := FieldsRead(node, |node.children|, w, path, ElementOf(group), Above(w, path).Enter(ElementOf(group), One), rest);
    t := StructGroupReads(group, fields, ts, Above(w, path), rest, w.idx[0]);
    assert [] + fields.leaves == fields.leaves;
  }

  lemma {:induction false} StructGroupReads(group: SchemaNode, below: Flat, ts: seq<Tree>, u: Under, rest: seq<SchemaElement>, top: nat) returns (t: Tree)
    requires group.Group? && group.annotation.Plain? && LeavesOk(below.leaves, top)
    requires ReadForest(group.numChildren, ElementsOf(below.nodes) + rest) == Some((ts, rest))
    requires ForestColumns(ts, u.Enter(ElementOf(group), One)) == ColumnsOf(below.leaves)
    ensures Reads([group] + below.nodes, below.leaves, u, rest, t)
  {
    GroupReads(group, below.nodes, rest, ts);
    t := Tree(ElementOf(group), ts);
  }

  /** A forest of `n` trees in front of the rest, with the leaf columns that were flattened. */
  ghost predicate ForestRead(n: nat, flat: Flat, top: nat, u: Under, rest: seq<SchemaElement>, ts: seq<Tree>) {
    && LeavesOk(flat.leaves, top)
    && ReadForest(n, ElementsOf(flat.nodes) + rest) == Some((ts, rest))
    && ForestColumns(ts, u) == ColumnsOf(flat.leaves)
  }

  /** Below the element that a struct's place is written as. */
  ghost predicate StructBelow(w: Where, path: seq<string>, e: SchemaElement, u: Under) {
    && WhereOk(w, false)
    && w.names == path + [w.name] && e.name == w.name && e.repetition == (if w.optional then OPTIONAL else REQUIRED)
    && u == Above(w, path).Enter(e, One)
  }

  /** What the fields after the `i`-th are written as, and the rest. */
  function AfterField(node: ArrowSchema, i: nat, w: Where, rest: seq<SchemaElement>): seq<SchemaElement>
    requires i < |node.children|
  {
    match FlattenFields(node, i + 1, w) case None => rest case Some(others) => ElementsOf(others.nodes) + rest
  }

  ghost predicate FieldRead(node: ArrowSchema, i: nat, w: Where, u: Under, rest: seq<SchemaElement>, t: Tree)
    requires i < |node.children| && w.idx != []
  {
    match Flatten(node.children[i], w.Child(i, node.children[i]))
    case None => true
    case Some(flat) => LeavesOk(flat.leaves, w.idx[0]) && Reads(flat.nodes, flat.leaves, u, rest, t)
  }

  /** The last `n` fields of a struct. */
  ghost predicate LastFieldsRead(node: ArrowSchema, n: nat, w: Where, u: Under, rest: seq<SchemaElement>, ts: seq<Tree>)
    requires n <= |node.children| && w.idx != []
  {
    match FlattenFields(node, |node.children| - n, w)
    case None => true
    case Some(flat) => ForestRead(n, flat, w.idx[0], u, rest, ts)
  }

  lemma {:induction false} FieldsRead(node: ArrowSchema, n: nat, w: Where, path: seq<string>, e: SchemaElement, u: Under, rest: seq<SchemaElement>)
    returns (ts: seq<Tree>)
    requires n <= |node.children| && StructBelow(w, path, e, u)
    ensures LastFieldsRead(node, n, w, u, rest, ts)
    decreases node, n, 0
  {
    if n == 0 {
      ts := NoFields(node, w, u, rest);
    } else {
      var i := |node.children| - n;
      var t := FieldReads(node, i, w, path, e, u, AfterField(node, i, w, rest));
      ts := FieldsRead(node, n - 1, w, path, e, u, rest);
      ts := FieldsStep(node, i, n, w, u, rest, t, ts);
    }
  }

  lemma {:induction false} NoFields(node: ArrowSchema, w: Where, u: Under, rest: seq<SchemaElement>) returns (ts: seq<Tree>)
    requires w.idx != []
    ensures LastFieldsRead(node, 0, w, u, rest, ts)
  {
    ts := [];
    assert ElementsOf([]) + rest == rest;
  }

  lemma {:induction false} FieldsStep(node: ArrowSchema, i: nat, n: nat, w: Where, u: Under, rest: seq<SchemaElement>, t: Tree, ts: seq<Tree>)
    returns (ts': seq<Tree>)
    requires 0 < n <= |node.children| && i == |node.children| - n && w.idx != []
    requires FieldRead(node, i, w, u, AfterField(node, i, w, rest), t) && LastFieldsRead(node, n - 1, w, u, rest, ts)
    ensures LastFieldsRead(node, n, w, u, rest, ts')
  {
    ts' := [];
    if FlattenFields(node, i, w).Some? {
      var flat := FlattenFields(node, i, w).value;
      var first, others := FirstField(node, i, w, flat);
      ts' := OneMoreField(n, first, others, flat, t, ts, u, rest, w.idx[0]);
    }
  }

  lemma {:induction false} FirstField(node: ArrowSchema, i: nat, w: Where, flat: Flat) returns (first: Flat, others: Flat)
    requires i < |node.children| && FlattenFields(node, i, w) == Some(flat)
    ensures flat == first.Then(others)
    ensures Flatten(node.children[i], w.Child(i, node.children[i])) == Some(first) && FlattenFields(node, i + 1, w) == Some(others)
  {
    first, others := Flatten(node.children[i], w.Child(i, node.children[i])).value, FlattenFields(node, i + 1, w).value;
  }

  lemma {:induction false} OneMoreField(n: nat, a: Flat, b: Flat, flat: Flat, t: Tree, ts: seq<Tree>, u: Under, rest: seq<SchemaElement>, top: nat)
    returns (ts': seq<Tree>)
    requires LeavesOk(a.leaves, top) && Reads(a.nodes, a.leaves, u, ElementsOf(b.nodes) + rest, t) && n > 0 && ForestRead(n - 1, b, top, u, rest, ts)
    requires flat == a.Then(b)
    ensures ForestRead(n, flat, top, u, rest, ts')
  {
    ConsReads(n - 1, a, b, t, ts, u, rest);
    ts' := [t] + ts;
  }

  lemma {:induction false} FieldReads(node: ArrowSchema, i: nat, w: Where, path: seq<string>, e: SchemaElement, u: Under, rest: seq<SchemaElement>)
    returns (t: Tree)
    requires i < |node.children| && StructBelow(w, path, e, u)
    ensures FieldRead(node, i, w, u, rest, t)
    decreases node, |node.children| - i - 1, 1
  {
    var c := node.children[i];
    t := Tree(e, []);
    if Flatten(c, w.Child(i, c)).Some? {
      ChildWhere(w, i, c, false);
      FlattenLeavesOk(c, w.Child(i, c));
      AboveChild(w, path, i, c, e);
      t := FlattenReads(c, w.Child(i, c), w.names, rest);
    }
  }

  /** The outer group of a list or map, and the repeated group inside it. */
  lemma {:induction false} RepeatedReads(outer: SchemaNode, inner: SchemaNode, below: Flat, ts: seq<Tree>, u: Under, rest: seq<SchemaElement>) returns (t: Tree)
    requires outer.Group? && outer.numChildren == 1 && !outer.repeated && !outer.annotation.Plain?
    requires inner.Group? && inner.repeated
    requires ReadForest(inner.numChildren, ElementsOf(below.nodes) + rest) == Some((ts, rest))
    requires forall i :: 0 <= i < |below.leaves| ==> |below.leaves[i].pathIdx| == |below.leaves[i].pathOptional|
    requires ForestColumns(ts, u.EnterRepeated(ElementOf(outer), ElementOf(inner))) == ColumnsOf(below.leaves)
    ensures Reads([outer, inner] + below.nodes, below.leaves, u, rest, t)
  {
    var repeated := Tree(ElementOf(inner), ts);
    GroupReads(inner, below.nodes, rest, ts);
    OneForest(ElementsOf([inner] + below.nodes) + rest, repeated, rest);
    GroupReads(outer, [inner] + below.nodes, rest, [repeated]);
    assert [outer] + ([inner] + below.nodes) == [outer, inner] + below.nodes;
    t := Tree(ElementOf(outer), [repeated]);
  }

  lemma {:induction false} ListReads(node: ArrowSchema, w: Where, path: seq<string>, rest: seq<SchemaElement>) returns (t: Tree)
    requires (node.format == "+l" || node.format == "+L") && WhereOk(w, false) && Flatten(node, w).Some? && w.names == path + [w.name]
    ensures Reads(Flatten(node, w).value.nodes, Flatten(node, w).value.leaves, Above(w, path), rest, t)
    decreases node, |node.children|, 1
  {
    var c, large := node.children[0], node.format == "+L";
    var below := Flatten(c, w.Element(c, large)).value;
    var outer, inner := Group(w.name, w.optional, false, 1, ListGroup), Group("list", false, true, 1, Plain);
    ElementWhere(w, c, large, false);
    AboveElement(w, path, c, large, ElementOf(outer), ElementOf(inner));
    var e := FlattenReads(c, w.Element(c, large), w.names + ["list"], rest);
    OneForest(ElementsOf(below.nodes) + rest, e, rest);
    OneColumns(e, Above(w, path).EnterRepeated(ElementOf(outer), ElementOf(inner)));
    t := RepeatedReads(outer, inner, below, [e], Above(w, path), rest);
    assert [] + below.leaves == below.leaves;
  }

  lemma {:induction false} MapReads(node: ArrowSchema, w: Where, path: seq<string>, rest: seq<SchemaElement>) returns (t: Tree)
    requires node.format == "+m" && WhereOk(w, false) && Flatten(node, w).Some? && w.names == path + [w.name]
    ensures Reads(Flatten(node, w).value.nodes, Flatten(node, w).value.leaves, Above(w, path), rest, t)
    decreases node, |node.children|, 1
  {
    var outer, inner := Group(w.name, w.optional, false, 1, MapGroup), Group("key_value", false, true, 2, Plain);
    var below, ts := EntriesRead(node.children[0], w, path, ElementOf(outer), ElementOf(inner), rest);
    t := RepeatedReads(outer, inner, below, ts, Above(w, path), rest);
    assert [] + ([] + below.leaves) == below.leaves;
    assert [outer] + ([inner] + below.nodes) == [outer, inner] + below.nodes;
  }

  /** A map's key and value below the repeated group. */
  lemma {:induction false} EntriesRead(entries: ArrowSchema, w: Where, path: seq<string>, e: SchemaElement, repeated: SchemaElement,
      rest: seq<SchemaElement>) returns (below: Flat, ts: seq<Tree>)
    requires WhereOk(w, false) && FlattenEntries(entries, w).Some?
    requires w.names == path + [w.name] && e.name == w.name && e.repetition == (if w.optional then OPTIONAL else REQUIRED)
    requires repeated.name == "key_value" && repeated.repetition == REPEATED
    ensures FlattenEntries(entries, w).value == Flat([Group("key_value", false, true, 2, Plain)], []).Then(below)
    ensures LeavesOk(below.leaves, w.idx[0])
    ensures ReadForest(2, ElementsOf(below.nodes) + rest) == Some((ts, rest))
    ensures ForestColumns(ts, Above(w, path).EnterRepeated(e, repeated)) == ColumnsOf(below.leaves)
    decreases entries, |entries.children| + 1, 0
  {
    var k, v := entries.children[0], entries.children[1];
    var key, value := Flatten(k, w.KeyValue(0, k)).value, Flatten(v, w.KeyValue(1, v)).value;
    KeyValueWhere(w, 0, k, false);
    KeyValueWhere(w, 1, v, false);
    FlattenLeavesOk(k, w.KeyValue(0, k));
    FlattenLeavesOk(v, w.KeyValue(1, v));
    AboveKeyValue(w, path, 0, k, e, repeated);
    AboveKeyValue(w, path, 1, v, e, repeated);
    var t0 := FlattenReads(k, w.KeyValue(0, k), w.names + ["key_value"], ElementsOf(value.nodes) + rest);
    var t1 := FlattenReads(v, w.KeyValue(1, v), w.names + ["key_value"], rest);
    below, ts := key.Then(value), [t0] + [t1];
    PairReads(key, value, t0, t1, Above(w, path).EnterRepeated(e, repeated), rest, w.idx[0]);
  }

  lemma {:induction false} PairReads(a: Flat, b: Flat, t0: Tree, t1: Tree, u: Under, rest: seq<SchemaElement>, top: nat)
    requires LeavesOk(a.leaves, top) && LeavesOk(b.leaves, top)
    requires Reads(a.nodes, a.leaves, u, ElementsOf(b.nodes) + rest, t0) && Reads(b.nodes, b.leaves, u, rest, t1)
    ensures LeavesOk(a.Then(b).leaves, top)
    ensures ReadForest(2, ElementsOf(a.Then(b).nodes) + rest) == Some(([t0] + [t1], rest))
    ensures ForestColumns([t0] + [t1], u) == ColumnsOf(a.Then(b).leaves)
  {
    OneForest(ElementsOf(b.nodes) + rest, t1, rest);
    OneColumns(t1, u);
    ConsReads(1, a, b, t0, [t1], u, rest);
  }

  /** One more tree in front of a forest, with its columns. */
  lemma {:induction false} ConsReads(n: nat, a: Flat, b: Flat, t: Tree, ts: seq<Tree>, u: Under, rest: seq<SchemaElement>)
    requires Reads(a.nodes, a.leaves, u, ElementsOf(b.nodes) + rest, t) && Spelled(b.leaves)
    requires ReadForest(n, ElementsOf(b.nodes) + rest) == Some((ts, rest)) && ForestColumns(ts, u) == ColumnsOf(b.leaves)
    ensures Spelled(a.Then(b).leaves)
    ensures ReadForest(n + 1, ElementsOf(a.Then(b).nodes) + rest) == Some(([t] + ts, rest))
    ensures ForestColumns([t] + ts, u) == ColumnsOf(a.Then(b).leaves)
  {
    ForestReads(n, a.nodes, b.nodes, rest, t, ts);
    ColumnsAppend(a.leaves, b.leaves);
    ForestColumnsCons(t, ts, u);
  }

  // ---- a whole record batch schema ------------------------------------------------------------

  /** A top-level column. */
  function TopLevel(i: nat, c: ArrowSchema): Where {
    Where(c.name, NullableChild(c), [i], [c.name], [NullableChild(c)], [])
  }

  /** The top-level columns of a record batch, from the `i`-th on. */
  function FlattenTop(schema: ArrowSchema, i: nat): Option<Flat>
    requires i <= |schema.children|
    decreases |schema.children| - i
  {
    if i == |schema.children| then Some(Flat([], [])) else
    match Flatten(schema.children[i], TopLevel(i, schema.children[i]))
    case None => None
    case Some(first) =>
      match FlattenTop(schema, i + 1)
      case None => None
      case Some(rest) => Some(first.Then(rest))
  }

  ghost predicate AllLeavesOk(leaves: seq<LeafSpec>) {
    forall i :: 0 <= i < |leaves| ==> LeafOk(leaves[i])
  }

  const ROOT := Under([], [], 0, 0)

  /**
   A reader that takes the footer's elements off in pre-order, one tree per top-level column, uses
   all of them up and finds the leaf columns in write order: their paths, their nesting, their
   maximum levels by counting OPTIONAL and REPEATED elements, and their types.
   */
  lemma {:induction false} FooterDescribesLeaves(schema: ArrowSchema, i: nat) returns (ts: seq<Tree>)
    requires i <= |schema.children| && FlattenTop(schema, i).Some?
    ensures var flat := FlattenTop(schema, i).value;
      && AllLeavesOk(flat.leaves)
      && ReadForest(|schema.children| - i, ElementsOf(flat.nodes)) == Some((ts, []))
      && ForestColumns(ts, ROOT) == ColumnsOf(flat.leaves)
    decreases |schema.children| - i
  {
    ts := LastColumnsReadBack(schema, i, |schema.children| - i);
  }

  /** The last `n` columns of the schema, from the `i`-th on. */
  ghost predicate LastColumnsRead(schema: ArrowSchema, i: nat, n: nat, ts: seq<Tree>)
    requires i + n == |schema.children|
  {
    match FlattenTop(schema, i)
    case None => true
    case Some(flat) => TopsRead(n, flat, ts)
  }

  lemma {:induction false} LastColumnsReadBack(schema: ArrowSchema, i: nat, n: nat) returns (ts: seq<Tree>)
    requires i + n == |schema.children|
    ensures LastColumnsRead(schema, i, n, ts)
    decreases n
  {
    if n == 0 {
      ts := [];
    } else {
      ts := LastColumnsReadBack(schema, i + 1, n - 1);
      ts := ColumnsStep(schema, i, n, ts);
    }
  }

  /** A forest of `n` trees, with the leaf columns that were flattened. */
  ghost predicate TopsRead(n: nat, flat: Flat, ts: seq<Tree>) {
    && AllLeavesOk(flat.leaves)
    && ReadForest(n, ElementsOf(flat.nodes)) == Some((ts, []))
    && ForestColumns(ts, ROOT) == ColumnsOf(flat.leaves)
  }

  lemma {:induction false} ColumnsStep(schema: ArrowSchema, i: nat, n: nat, ts: seq<Tree>) returns (ts': seq<Tree>)
    requires n > 0 && i + n == |schema.children| && LastColumnsRead(schema, i + 1, n - 1, ts)
    ensures LastColumnsRead(schema, i, n, ts')
  {
    ts' := [];
    if FlattenTop(schema, i).Some? {
      var flat := FlattenTop(schema, i).value;
      var first, others := FirstColumn(schema, i, flat);
      ts' := ColumnCons(schema, i, n, first, others, flat, ts);
    }
  }

  lemma {:induction false} ColumnCons(schema: ArrowSchema, i: nat, n: nat, first: Flat, others: Flat, flat: Flat, ts: seq<Tree>) returns (ts': seq<Tree>)
    requires i < |schema.children| && n > 0 && Flatten(schema.children[i], TopLevel(i, schema.children[i])) == Some(first)
    requires flat == first.Then(others) && TopsRead(n - 1, others, ts)
    ensures TopsRead(n, flat, ts')
  {
    var t := TopReads(schema, i, ElementsOf(others.nodes) + [], first);
    ts' := TopCons(n, first, others, flat, t, ts);
  }

  lemma {:induction false} FirstColumn(schema: ArrowSchema, i: nat, flat: Flat) returns (first: Flat, others: Flat)
    requires i < |schema.children| && FlattenTop(schema, i) == Some(flat)
    ensures flat == first.Then(others)
    ensures Flatten(schema.children[i], TopLevel(i, schema.children[i])) == Some(first) && FlattenTop(schema, i + 1) == Some(others)
  {
    first, others := Flatten(schema.children[i], TopLevel(i, schema.children[i])).value, FlattenTop(schema, i + 1).value;
  }

  lemma {:induction false} TopCons(n: nat, a: Flat, b: Flat, flat: Flat, t: Tree, ts: seq<Tree>) returns (ts': seq<Tree>)
    requires flat == a.Then(b)
    requires Reads(a.nodes, a.leaves, ROOT, ElementsOf(b.nodes) + [], t) && AllLeavesOk(a.leaves)
    requires n > 0 && TopsRead(n - 1, b, ts)
    ensures TopsRead(n, flat, ts')
  {
    ts' := [t] + ts;
    assert ElementsOf(b.nodes) + [] == ElementsOf(b.nodes);
    assert ElementsOf(a.Then(b).nodes) + [] == ElementsOf(a.Then(b).nodes);
    ConsReads(n - 1, a, b, t, ts, ROOT, []);
  }

  lemma {:induction false} TopReads(schema: ArrowSchema, i: nat, rest: seq<SchemaElement>, flat: Flat) returns (t: Tree)
    requires i < |schema.children| && Flatten(schema.children[i], TopLevel(i, schema.children[i])) == Some(flat)
    ensures AllLeavesOk(flat.leaves) && Reads(flat.nodes, flat.leaves, ROOT, rest, t)
  {
    var c := schema.children[i];
    FlattenLeavesOk(c, TopLevel(i, c));
    assert [] + [c.name] == [c.name];
    assert ShapeOf([]) == [];
    t := FlattenReads(c, TopLevel(i, c), [], rest);
  }
}
