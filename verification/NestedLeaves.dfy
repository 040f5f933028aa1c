/**
 The leaf columns of a schema are exactly its paths, so the rows that a file gives back are the
 projections of whole records, and they determine the records.
 */
module NestedLeaves {
  import opened Bits
  import opened Arrow
  import opened Shredding
  import opened Schema
  import opened Footer
  import opened Nested

  /** The leaf's path goes through the node that the steps so far lead to, on to a leaf below it. */
  ghost predicate Through(leaf: LeafSpec, node: ArrowSchema, w: Where) {
    && |leaf.pathIdx| == |leaf.pathOptional| && |w.steps| <= |StepsOf(leaf)| && StepsOf(leaf)[..|w.steps|] == w.steps
    && exists format :: StandsBelow(leaf, node, w, format)
  }

  ghost predicate StandsBelow(leaf: LeafSpec, node: ArrowSchema, w: Where, format: string)
    requires |leaf.pathIdx| == |leaf.pathOptional| && |w.steps| <= |StepsOf(leaf)|
  {
    && PathIn(node, w.optional, StepsOf(leaf)[|w.steps|..], format)
    && (leaf.col.extract.NullValues? <==> format == "n")
    && SameValues(leaf.col, format)
  }

  /** The column's values are read as the format says, whatever its name and whether it can be null. */
  ghost predicate SameValues(col: ColumnSpec, format: string) {
    exists name, nullable :: MapFormat(format, name, nullable) == Some(col)
  }

  ghost predicate AllThrough(leaves: seq<LeafSpec>, node: ArrowSchema, w: Where) {
    forall i :: 0 <= i < |leaves| ==> Through(leaves[i], node, w)
  }

  lemma {:induction false} LeafBelow(node: ArrowSchema, w: Where)
    requires WhereOk(w, node.format == "n") && IsLeaf(node) && Flatten(node, w).Some?
    ensures AllThrough(Flatten(node, w).value.leaves, node, w)
  {
    var spec := MapFormat(node.format, w.name, w.optional).value;
    var leaf := LeafColumn(spec, w);
    MapFormatKeeps(node.format, w.name, w.optional);
    LeafColumnOk(spec, w, node.format == "n");
    assert Flatten(node, w).value.leaves == [leaf];
    assert StepsOf(leaf)[|w.steps|..] == [PathStep(LeafStep, spec.nullable, 0, 0)];
    assert StandsBelow(leaf, node, w, node.format);
  }

  /** What is below a node that one more step leads to is below the node itself. */
  lemma {:induction false} ThroughUp(leaf: LeafSpec, node: ArrowSchema, w: Where, below: ArrowSchema, w': Where, st: PathStep)
    requires Through(leaf, below, w') && w'.steps == w.steps + [st] && LeadsTo(node, w.optional, st, below, w'.optional)
    ensures Through(leaf, node, w)
  {
    var steps, k := StepsOf(leaf), |w.steps|;
    var format :| StandsBelow(leaf, below, w', format);
    assert steps[..k + 1][..k] == w.steps && steps[..k + 1][k] == st;
    assert steps[k..] == [st] + steps[k + 1..];
    var longer := Longer(node, w.optional, st, steps[k + 1..], format);
    assert StandsBelow(leaf, node, w, format);
  }

  lemma {:induction false} AllThroughUp(leaves: seq<LeafSpec>, node: ArrowSchema, w: Where, below: ArrowSchema, w': Where, st: PathStep)
    requires AllThrough(leaves, below, w') && w'.steps == w.steps + [st] && LeadsTo(node, w.optional, st, below, w'.optional)
    ensures AllThrough(leaves, node, w)
  {
    forall i | 0 <= i < |leaves| ensures Through(leaves[i], node, w) { ThroughUp(leaves[i], node, w, below, w', st); }
  }

  /** Every leaf column that flattening makes of a node is a path of the node. */
  lemma {:induction false} FlattenPaths(node: ArrowSchema, w: Where)
    requires WhereOk(w, node.format == "n") && Flatten(node, w).Some?
    ensures AllThrough(Flatten(node, w).value.leaves, node, w)
    decreases node, |node.children| + 1
  {
    if node.format == "+s" {
      FieldsPaths(node, 0, w);
    } else if node.format == "+l" || node.format == "+L" {
      var c, w' := node.children[0], w.Element(node.children[0], node.format == "+L");
      ElementWhere(w, c, node.format == "+L", false);
      FlattenPaths(c, w');
      AllThroughUp(Flatten(c, w').value.leaves, node, w, c, w', w'.steps[|w.steps|]);
    } else if node.format == "+m" {
      SidePaths(node, 0, w);
      SidePaths(node, 1, w);
    } else {
      LeafBelow(node, w);
    }
  }

  lemma {:induction false} SidePaths(node: ArrowSchema, side: nat, w: Where)
    requires WhereOk(w, false) && IsMap(node) && side < 2 && Flatten(SideOf(node, side), w.KeyValue(side, SideOf(node, side))).Some?
    ensures AllThrough(Flatten(SideOf(node, side), w.KeyValue(side, SideOf(node, side))).value.leaves, node, w)
    decreases node, 0
  {
    var c, w' := SideOf(node, side), w.KeyValue(side, SideOf(node, side));
    KeyValueWhere(w, side, c, false);
    FlattenPaths(c, w');
    AllThroughUp(Flatten(c, w').value.leaves, node, w, c, w', w'.steps[|w.steps|]);
  }

  lemma {:induction false} FieldPaths(node: ArrowSchema, i: nat, w: Where)
    requires node.format == "+s" && i < |node.children| && WhereOk(w, false) && Flatten(node.children[i], w.Child(i, node.children[i])).Some?
    ensures AllThrough(Flatten(node.children[i], w.Child(i, node.children[i])).value.leaves, node, w)
    decreases node, 0
  {
    var c, w' := node.children[i], w.Child(i, node.children[i]);
    ChildWhere(w, i, c, false);
    FlattenPaths(c, w');
    AllThroughUp(Flatten(c, w').value.leaves, node, w, c, w', w'.steps[|w.steps|]);
  }

  lemma {:induction false} FieldsPaths(node: ArrowSchema, i: nat, w: Where)
    requires node.format == "+s" && i <= |node.children| && WhereOk(w, false) && FlattenFields(node, i, w).Some?
    ensures AllThrough(FlattenFields(node, i, w).value.leaves, node, w)
    decreases node, |node.children| - i
  {
    if i < |node.children| {
      FieldPaths(node, i, w);
      FieldsPaths(node, i + 1, w);
    }
  }

  // ---- and every path has a leaf column -------------------------------------------------------

  /** Paths that take the same child everywhere. */
  predicate Alike(q: seq<PathStep>, q': seq<PathStep>) {
    |q| == |q'| && forall i :: 0 <= i < |q| ==> q[i].child == q'[i].child
  }

  lemma {:induction false} AlikeProject<V>(x: Full<V>, q: seq<PathStep>, q': seq<PathStep>)
    requires Alike(q, q')
    ensures ProjectFull(x, q) == ProjectFull(x, q')
    decreases x
  {
    if q != [] {
      assert Alike(q[1..], q'[1..]);
      match x
      case Absent =>
      case Atom(_) =>
      case Fields(fs) => if q[0].child < |fs| { AlikeProject(fs[q[0].child], q[1..], q'[1..]); }
      case Items(xs) => AlikeProjectAll(xs, q[1..], q'[1..]);
      case Pairs(ks, vs) => AlikeProjectAll(if q[0].child == 0 then ks else vs, q[1..], q'[1..]);
    }
  }

  lemma {:induction false} AlikeProjectAll<V>(xs: seq<Full<V>>, q: seq<PathStep>, q': seq<PathStep>)
    requires Alike(q, q')
    ensures ProjectAll(xs, q) == ProjectAll(xs, q')
    decreases xs
  {
    if xs != [] {
      AlikeProject(xs[0], q, q');
      AlikeProjectAll(xs[1..], q, q');
    }
  }

  /** A leaf column follows the path from the node on. */
  ghost predicate Along(leaf: LeafSpec, w: Where, q: seq<PathStep>) {
    |leaf.pathIdx| == |leaf.pathOptional| && |w.steps| <= |StepsOf(leaf)| && Alike(StepsOf(leaf)[|w.steps|..], q)
  }

  lemma {:induction false} AlongUp(leaf: LeafSpec, w: Where, w': Where, st: PathStep, q: seq<PathStep>)
    requires w'.steps == w.steps + [st] && q != [] && st.child == q[0].child
    requires Along(leaf, w', q[1..]) && StepsOf(leaf)[..|w'.steps|] == w'.steps
    ensures Along(leaf, w, q)
  {
    var steps, k := StepsOf(leaf), |w.steps|;
    assert steps[k] == steps[..k + 1][k] == st;
    forall i | 0 <= i < |q| ensures steps[k..][i].child == q[i].child {
      if i > 0 { assert steps[k + 1..][i - 1].child == q[1..][i - 1].child; }
    }
  }

  /** Every path of a node has its leaf column. */
  lemma {:induction false} PathsHaveLeaves(node: ArrowSchema, w: Where, q: seq<PathStep>, format: string) returns (leaf: LeafSpec)
    requires WhereOk(w, node.format == "n") && Flatten(node, w).Some? && PathIn(node, w.optional, q, format)
    ensures leaf in Flatten(node, w).value.leaves && Along(leaf, w, q)
    decreases node, |node.children| + 1
  {
    if node.format == "+s" {
      leaf := FieldHasLeaf(node, w, q, format);
    } else if node.format == "+l" || node.format == "+L" {
      var c, w' := node.children[0], w.Element(node.children[0], node.format == "+L");
      ElementWhere(w, c, node.format == "+L", false);
      leaf := PathsHaveLeaves(c, w', q[1..], format);
      FlattenPaths(c, w');
      LeafSteps(Flatten(c, w').value.leaves, leaf, c, w');
      AlongUp(leaf, w, w', w'.steps[|w.steps|], q);
    } else if node.format == "+m" {
      leaf := SideHasLeaf(node, w, q, format);
    } else {
      leaf := LeafColumn(MapFormat(node.format, w.name, w.optional).value, w);
      LeafIsAlong(node, w, q, format);
    }
  }

  lemma {:induction false} FieldFlattens(node: ArrowSchema, i: nat, c: nat, w: Where)
    requires i <= c < |node.children| && FlattenFields(node, i, w).Some?
    ensures Flatten(node.children[c], w.Child(c, node.children[c])).Some?
    ensures forall leaf :: leaf in Flatten(node.children[c], w.Child(c, node.children[c])).value.leaves ==> leaf in FlattenFields(node, i, w).value.leaves
    decreases c - i
  {
    if i < c { FieldFlattens(node, i + 1, c, w); }
  }

  lemma {:induction false} FieldHasLeaf(node: ArrowSchema, w: Where, q: seq<PathStep>, format: string) returns (leaf: LeafSpec)
    requires node.format == "+s" && WhereOk(w, false) && Flatten(node, w).Some? && PathIn(node, w.optional, q, format)
    ensures leaf in Flatten(node, w).value.leaves && Along(leaf, w, q)
    decreases node, 0
  {
    var i := q[0].child;
    var c, w' := node.children[i], w.Child(i, node.children[i]);
    FieldFlattens(node, 0, i, w);
    ChildWhere(w, i, c, false);
    leaf := PathsHaveLeaves(c, w', q[1..], format);
    FlattenPaths(c, w');
    LeafSteps(Flatten(c, w').value.leaves, leaf, c, w');
    AlongUp(leaf, w, w', w'.steps[|w.steps|], q);
  }

  lemma {:induction false} SideHasLeaf(node: ArrowSchema, w: Where, q: seq<PathStep>, format: string) returns (leaf: LeafSpec)
    requires node.format == "+m" && WhereOk(w, false) && Flatten(node, w).Some? && PathIn(node, w.optional, q, format)
    ensures leaf in Flatten(node, w).value.leaves && Along(leaf, w, q)
    decreases node, 0
  {
    var side := q[0].child;
    var c, w' := SideOf(node, side), w.KeyValue(side, SideOf(node, side));
    KeyValueWhere(w, side, c, false);
    leaf := PathsHaveLeaves(c, w', q[1..], format);
    FlattenPaths(c, w');
    LeafSteps(Flatten(c, w').value.leaves, leaf, c, w');
    AlongUp(leaf, w, w', w'.steps[|w.steps|], q);
  }

  lemma {:induction false} LeafSteps(leaves: seq<LeafSpec>, leaf: LeafSpec, node: ArrowSchema, w: Where)
    requires AllThrough(leaves, node, w) && leaf in leaves
    ensures |leaf.pathIdx| == |leaf.pathOptional| && |w.steps| <= |StepsOf(leaf)| && StepsOf(leaf)[..|w.steps|] == w.steps
  {
    var i :| 0 <= i < |leaves| && leaves[i] == leaf;
    assert Through(leaves[i], node, w);
  }

  lemma {:induction false} LeafIsAlong(node: ArrowSchema, w: Where, q: seq<PathStep>, format: string)
    requires WhereOk(w, node.format == "n") && IsLeaf(node) && Flatten(node, w).Some? && PathIn(node, w.optional, q, format)
    ensures Along(LeafColumn(MapFormat(node.format, w.name, w.optional).value, w), w, q)
  {
    var spec := MapFormat(node.format, w.name, w.optional).value;
    MapFormatKeeps(node.format, w.name, w.optional);
    LeafColumnOk(spec, w, node.format == "n");
    assert StepsOf(LeafColumn(spec, w))[|w.steps|..] == [PathStep(LeafStep, spec.nullable, 0, 0)];
  }

  /** Two records of a column that agree on all of its leaf columns are the same record. */
  lemma {:induction false} LeavesDetermine<V>(node: ArrowSchema, w: Where, x: Full<V>, y: Full<V>)
    requires WhereOk(w, node.format == "n") && w.steps == [] && Flatten(node, w).Some? && HasLeaf(node)
    requires HasType(node, w.optional, x) && HasType(node, w.optional, y)
    requires forall leaf :: leaf in Flatten(node, w).value.leaves && |leaf.pathIdx| == |leaf.pathOptional| ==>
      ProjectFull(x, StepsOf(leaf)) == ProjectFull(y, StepsOf(leaf))
    ensures x == y
  {
    forall q, format | PathIn(node, w.optional, q, format) ensures ProjectFull(x, q) == ProjectFull(y, q) {
      var leaf := PathsHaveLeaves(node, w, q, format);
      assert StepsOf(leaf)[0..] == StepsOf(leaf);
      AlikeProject(x, StepsOf(leaf), q);
      AlikeProject(y, StepsOf(leaf), q);
    }
    ProjectionsDetermine(node, w.optional, x, y);
  }
}
