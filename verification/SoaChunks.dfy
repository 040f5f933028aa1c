/**
 A chunk of the structure-of-arrays front end, written and read back: for every leaf the rows are
 those that were passed.
 */
module SoaChunks {
  import opened Bits
  import opened Arrow
  import opened Records
  import opened Shredding
  import opened Projection
  import opened Schema
  import opened Footer
  import opened FastPath
  import opened PlainValues
  import opened Codecs
  import opened Chunks
  import opened Writing
  import opened Readback
  import opened Soa
  import opened SoaNodes

  ghost predicate Chunk(roots: seq<Node>, n: nat) {
    forall i :: 0 <= i < |roots| ==> Passed(roots[i], n)
  }

  /** The schema and the record batch that `write_chunk_impl` hands to the writer. */
  function ChunkSchema(roots: seq<Node>): ArrowSchema {
    ArrowSchema("+s", "schema", false, seq(|roots|, i requires 0 <= i < |roots| => SchemaOf(roots[i])))
  }

  ghost predicate AllBuildable(roots: seq<Node>, n: nat) {
    forall i :: 0 <= i < |roots| ==> AllMasked(roots[i]) && NoneTooLong(roots[i], n)
  }

  ghost function ChunkBatch(roots: seq<Node>, n: nat): ArrowArray
    requires AllBuildable(roots, n)
  {
    ArrowArray(n, 0, 0, 1, None, None, [], seq(|roots|, i requires 0 <= i < |roots| => ArrayOf(roots[i], n)))
  }

  /** The nodes that the first `k` child indices lead to. */
  function NodesOn(roots: seq<Node>, idx: seq<nat>, k: nat): (r: Option<seq<Node>>)
    requires k <= |idx|
    ensures r.Some? ==> |r.value| == k
  {
    if k == 0 then Some([]) else
    match NodesOn(roots, idx, k - 1)
    case None => None
    case Some(above) =>
      var children := if k == 1 then roots else if above[k - 2].GroupNode? then above[k - 2].children else [];
      if idx[k - 1] >= |children| then None else Some(above + [children[idx[k - 1]]])
  }

  lemma {:induction false} NodesOnPassed(roots: seq<Node>, n: nat, idx: seq<nat>, k: nat)
    requires Chunk(roots, n) && k <= |idx| && NodesOn(roots, idx, k).Some?
    ensures AllPassed(NodesOn(roots, idx, k).value, n)
  {
    if k > 0 {
      NodesOnPassed(roots, n, idx, k - 1);
      if k > 1 { assert Passed(NodesOn(roots, idx, k - 1).value[k - 2], n); } else { assert Passed(roots[idx[0]], n); }
    }
  }

  ghost predicate AllPassed(ns: seq<Node>, n: nat) {
    forall i :: 0 <= i < |ns| ==> Passed(ns[i], n)
  }

  ghost function Arrays(ns: seq<Node>, n: nat): (arrays: seq<ArrowArray>)
    requires AllPassed(ns, n)
    ensures |arrays| == |ns| && forall i :: 0 <= i < |ns| ==> arrays[i] == ArrayOf(ns[i], n)
  {
    seq(|ns|, i requires 0 <= i < |ns| => ArrayOf(ns[i], n))
  }

  /** The writer, following the same indices through the arrays, meets the arrays of the same nodes. */
  lemma {:induction false} PathIsBuilt(roots: seq<Node>, n: nat, idx: seq<nat>, k: nat)
    requires Chunk(roots, n) && k <= |idx| && NodesOn(roots, idx, k).Some?
    ensures AllPassed(NodesOn(roots, idx, k).value, n)
    ensures PathNodes(idx, ChunkBatch(roots, n), k) == Some(Arrays(NodesOn(roots, idx, k).value, n))
  {
    NodesOnPassed(roots, n, idx, k);
    if k > 0 {
      PathIsBuilt(roots, n, idx, k - 1);
      var above := NodesOn(roots, idx, k - 1).value;
      var ns := NodesOn(roots, idx, k).value;
      assert Arrays(ns, n) == Arrays(above, n) + [ArrayOf(ns[k - 1], n)];
    } else {
      assert Arrays([], n) == [];
    }
  }

  // ---- what the rows are ----------------------------------------------------------------------

  /** Groups, and a column at the end. */
  ghost predicate Line(ns: seq<Node>, n: nat) {
    && AllPassed(ns, n)
    && ns != [] && (forall j :: 0 <= j < |ns| ==> (ns[j].GroupNode? <==> j + 1 < |ns|))
    && SpecOf(ns[|ns| - 1]).Some?
  }

  /** Row `i` of the leaf at the end of a line of nodes, from node `k` on: what was passed for it. */
  ghost function Meaning(ns: seq<Node>, n: nat, k: nat, i: nat): Datum<Scalar>
    requires Line(ns, n) && k < |ns| && i < n
    decreases |ns| - k
  {
    assert Passed(ns[k], n);
    if ns[k].nullable && !ValidBit(ns[k].validity.bitmap, i) then Null
    else if k + 1 < |ns| then Record(Meaning(ns, n, k + 1, i))
    else Value(ElementAt(ns[k], i))
  }

  /** The leaf column stands for the column at its child indices. */
  ghost predicate LeafOn(leaf: LeafSpec, roots: seq<Node>)
  {
    var r := NodesOn(roots, leaf.pathIdx, |leaf.pathIdx|);
    && r.Some? && !leaf.hasList && |leaf.pathOptional| == |leaf.pathIdx| > 0
    && (forall j :: 0 <= j < |r.value| ==> leaf.pathOptional[j] == r.value[j].nullable)
    && (forall j :: 0 <= j < |r.value| ==> (r.value[j].GroupNode? <==> j + 1 < |r.value|))
    && SpecOf(r.value[|r.value| - 1]) == Some(leaf.col) && !leaf.col.extract.NullValues?
  }

  lemma {:induction false} PassedArray(node: Node, n: nat)
    requires Passed(node, n)
    ensures var a := ArrayOf(node, n);
      && a.length == n && a.offset == 0 && a.nBuffers > 0 && Covers(a.validity, n)
      && (node.nullable ==> a.validity == node.validity.bitmap && a.nullCount == node.validity.nullCount && Honest(node.validity, n))
      && (!node.nullable ==> a.nullCount == 0)
  {
  }

  lemma {:induction false} ArrayIsBacked(node: Node, n: nat)
    requires Passed(node, n)
    ensures Backed(ArrayOf(node, n))
  {
    PassedArray(node, n);
    if node.GroupNode? {
      forall i | 0 <= i < |node.children| ensures Backed(ArrayOf(node, n).children[i]) { ArrayIsBacked(node.children[i], n); }
    }
  }

  lemma {:induction false} BatchIsBacked(roots: seq<Node>, n: nat)
    requires Chunk(roots, n)
    ensures Backed(ChunkBatch(roots, n))
  {
    forall i | 0 <= i < |roots| ensures Backed(ChunkBatch(roots, n).children[i]) {
      assert Passed(roots[i], n);
      ArrayIsBacked(roots[i], n);
    }
  }

  /** The writer accepts the leaf, and finds what its fast path takes for granted. */
  lemma {:induction false} LeafIsAccepted(roots: seq<Node>, n: nat, leaf: LeafSpec)
    requires Chunk(roots, n) && LeafOk(leaf) && LeafOn(leaf, roots)
    ensures var ns := NodesOn(roots, leaf.pathIdx, |leaf.pathIdx|).value;
      && Line(ns, n)
      && LeafUsable(leaf, ChunkBatch(roots, n)) && FlatNodes(leaf, ChunkBatch(roots, n)) == Some(Arrays(ns, n))
  {
    var ns := NodesOn(roots, leaf.pathIdx, |leaf.pathIdx|).value;
    BatchIsBacked(roots, n);
    NodesOnPassed(roots, n, leaf.pathIdx, |leaf.pathIdx|);
    PathIsBuilt(roots, n, leaf.pathIdx, |leaf.pathIdx|);
    forall i | 0 <= i < |ns| ensures Covers(Arrays(ns, n)[i].validity, n) { assert Passed(ns[i], n); PassedArray(ns[i], n); }
    var last := ns[|ns| - 1];
    assert Passed(last, n);
    PassedArray(last, n);
    LeafHolds(last, n);
    ColumnAccepted(last, n);
    assert PathNodes(leaf.pathIdx, ChunkBatch(roots, n), |leaf.pathIdx|) == Some(Arrays(ns, n));
    assert Arrays(ns, n)[|ns| - 1] == ArrayOf(last, n);
  }

  lemma {:induction false} ColumnAccepted(node: Node, n: nat)
    requires node.LeafNode? && Passed(node, n) && SpecOf(node).Some?
    ensures ValidChild(ArrayOf(node, n), SpecOf(node).value, n)
  {
    MapFormatKeeps(node.elements.Format(), node.name, node.nullable);
  }

  /** The path's flags are the nodes' own. */
  ghost predicate FlagsMatch(p: LeafPath, ns: seq<Node>) {
    |p.steps| == |ns| && !p.nullType && forall j :: 0 <= j < |ns| ==> p.steps[j].optional == ns[j].nullable
  }

  lemma {:induction false} HonestNodes(p: LeafPath, ns: seq<Node>, n: nat, i: nat, k: nat)
    requires AllPassed(ns, n) && FlagsMatch(p, ns) && i < n && k <= |ns| && Readable(Arrays(ns, n), OptionalFlags(p.steps), i + 1)
    ensures HonestCounts(p, Arrays(ns, n), i, k)
    decreases |ns| - k
  {
    if k < |ns| {
      HonestNodes(p, ns, n, i, k + 1);
      if ns[k].nullable { HonestNode(ns, n, i, k); }
      HonestStep(p, Arrays(ns, n), i, k);
    }
  }

  lemma {:induction false} HonestStep(p: LeafPath, nodes: seq<ArrowArray>, i: nat, k: nat)
    requires |nodes| == |p.steps| && k < |nodes| && Readable(nodes, OptionalFlags(p.steps), i + 1) && HonestCounts(p, nodes, i, k + 1)
    requires p.steps[k].optional ==> nodes[k].nBuffers > 0 && (nodes[k].nullCount == 0 ==> ValidBit(nodes[k].validity, i))
    ensures HonestCounts(p, nodes, i, k)
  {
  }

  lemma {:induction false} HonestNode(ns: seq<Node>, n: nat, i: nat, k: nat)
    requires AllPassed(ns, n) && i < n && k < |ns| && ns[k].nullable
    ensures var a := Arrays(ns, n)[k];
      a.nBuffers > 0 && Covers(a.validity, i + 1) && (a.nullCount == 0 ==> ValidBit(a.validity, i))
  {
    assert Passed(ns[k], n);
    PassedArray(ns[k], n);
  }

  /** The leaf array's values are the column's elements, wherever the column is not masked out. */
  ghost predicate Yields(node: Node, n: nat, at: int -> Scalar) {
    node.LeafNode? && node.elements.Count() == n && SpecOf(node).Some? && Covers(node.validity.bitmap, n)
    && forall q: nat :: q < n && ValidBit(node.validity.bitmap, q) ==> at(q) == ElementAt(node, q)
  }

  lemma {:induction false} LeafAtEnd(p: LeafPath, k: nat)
    requires WellFormed(p) && k < |p.steps|
    ensures p.steps[k].kind.LeafStep? <==> k + 1 == |p.steps|
  {
    assert ShapeOf(p.steps)[k].nesting.Leaf? <==> k == |p.steps| - 1;
  }

  /** One level of a row's meaning, in an unsliced array outside lists. */
  lemma {:induction false} ProjectLevel(p: LeafPath, k: nat, a: ArrowArray, i: nat, at: int -> Scalar)
    requires WellFormed(p) && k < |p.steps| && !p.nullType && !p.steps[k].kind.Repeats()
    requires Backed(a) && a.offset == 0 && i < a.length
    ensures Project(p, k, a, i, at) ==
      if p.steps[k].optional && !Valid(a, i) then Null
      else if p.steps[k].kind.LeafStep? then Value(at(i))
      else if Next(p.steps[k], a).None? then Null
      else Record(Project(p, k + 1, Next(p.steps[k], a).value, i, at))
  {
  }

  /** The Arrow meaning of a row is what was passed for it. */
  lemma {:induction false} ProjectIsMeaning(p: LeafPath, ns: seq<Node>, n: nat, k: nat, i: nat, at: int -> Scalar)
    requires WellFormed(p) && Line(ns, n) && FlagsMatch(p, ns) && i < n && k < |ns|
    requires Chain(p, Arrays(ns, n)) && Yields(ns[|ns| - 1], n, at)
    ensures Backed(Arrays(ns, n)[k])
    ensures Project(p, k, Arrays(ns, n)[k], i, at) == Meaning(ns, n, k, i)
    decreases |ns| - k
  {
    assert Passed(ns[k], n);
    PassedArray(ns[k], n);
    LeafAtEnd(p, k);
    ProjectLevel(p, k, Arrays(ns, n)[k], i, at);
    if k + 1 < |ns| {
      assert Next(p.steps[k], Arrays(ns, n)[k]) == Some(Arrays(ns, n)[k + 1]);
      ProjectIsMeaning(p, ns, n, k + 1, i, at);
    }
  }

  /**
   For every leaf of a chunk the writer accepts the arrays, takes nothing for granted that does not
   hold, and its rows are those that were passed.
   */
  lemma {:induction false} ChunkMeansWhatWasPassed(roots: seq<Node>, n: nat, leaf: LeafSpec)
    requires Chunk(roots, n) && LeafOk(leaf) && LeafOn(leaf, roots)
    ensures var batch, ns := ChunkBatch(roots, n), NodesOn(roots, leaf.pathIdx, |leaf.pathIdx|).value;
      && Line(ns, n) && LeafUsable(leaf, batch) && Accepts(leaf, batch) && Regular(leaf, batch)
      && |LeafRows(leaf, batch)| == n
      && forall i :: 0 <= i < n ==> LeafRows(leaf, batch)[i] == Meaning(ns, n, 0, i)
  {
    var batch, ns := ChunkBatch(roots, n), NodesOn(roots, leaf.pathIdx, |leaf.pathIdx|).value;
    LeafIsAccepted(roots, n, leaf);
    PathIsFollowed(roots, leaf);
    LeafIsRegular(roots, n, leaf);
    LeafRowsMean(n, leaf, batch, ns);
  }

  lemma {:induction false} LeafRowsMean(n: nat, leaf: LeafSpec, batch: ArrowArray, ns: seq<Node>)
    requires LeafUsable(leaf, batch) && !leaf.hasList && batch.offset == 0 && batch.length == n && Line(ns, n) && FlagsMatch(PathOf(leaf), ns)
    requires FlatNodes(leaf, batch) == Some(Arrays(ns, n)) && SpecOf(ns[|ns| - 1]) == Some(leaf.col)
    ensures |LeafRows(leaf, batch)| == n && forall i :: 0 <= i < n ==> LeafRows(leaf, batch)[i] == Meaning(ns, n, 0, i)
  {
    FlatChain(leaf, batch);
    var at := LeafValue(leaf.col, LeafArrayIn(leaf, batch));
    assert Passed(ns[|ns| - 1], n);
    LeafYields(ns[|ns| - 1], n, leaf.col, at);
    RowsMean(PathOf(leaf), ns, n, at);
  }

  lemma {:induction false} RowsMean(p: LeafPath, ns: seq<Node>, n: nat, at: int -> Scalar)
    requires WellFormed(p) && Line(ns, n) && FlagsMatch(p, ns) && Chain(p, Arrays(ns, n)) && Yields(ns[|ns| - 1], n, at)
    ensures var xs := ProjectRange(p, 0, Arrays(ns, n)[0], 0, n, at); |xs| == n && forall i :: 0 <= i < n ==> xs[i] == Meaning(ns, n, 0, i)
  {
    forall i | 0 <= i < n ensures ProjectRange(p, 0, Arrays(ns, n)[0], 0, n, at)[i] == Meaning(ns, n, 0, i) {
      ProjectIsMeaning(p, ns, n, 0, i, at);
    }
  }

  lemma {:induction false} PathIsFollowed(roots: seq<Node>, leaf: LeafSpec)
    requires LeafOk(leaf) && LeafOn(leaf, roots)
    ensures FlagsMatch(PathOf(leaf), NodesOn(roots, leaf.pathIdx, |leaf.pathIdx|).value)
  {
    assert forall j :: 0 <= j < |leaf.pathIdx| ==> StepsOf(leaf)[j].optional == leaf.pathOptional[j];
  }

  lemma {:induction false} LeafIsRegular(roots: seq<Node>, n: nat, leaf: LeafSpec)
    requires Chunk(roots, n) && LeafOk(leaf) && LeafOn(leaf, roots)
    ensures LeafUsable(leaf, ChunkBatch(roots, n)) && Accepts(leaf, ChunkBatch(roots, n)) && Regular(leaf, ChunkBatch(roots, n))
  {
    var ns := NodesOn(roots, leaf.pathIdx, |leaf.pathIdx|).value;
    LeafIsAccepted(roots, n, leaf);
    PathIsFollowed(roots, leaf);
    NodesAreUnsliced(ns, n);
    NodesAreHonest(PathOf(leaf), ns, n);
  }

  lemma {:induction false} NodesAreUnsliced(ns: seq<Node>, n: nat)
    requires AllPassed(ns, n)
    ensures Unsliced(Arrays(ns, n), n)
  {
    forall i | 0 <= i < |ns| ensures Arrays(ns, n)[i].offset == 0 && Arrays(ns, n)[i].length == n {
      assert Passed(ns[i], n);
      PassedArray(ns[i], n);
    }
  }

  lemma {:induction false} NodesAreHonest(p: LeafPath, ns: seq<Node>, n: nat)
    requires AllPassed(ns, n) && FlagsMatch(p, ns) && Readable(Arrays(ns, n), OptionalFlags(p.steps), n)
    ensures AllHonest(p, Arrays(ns, n), n)
  {
    forall i | 0 <= i < n ensures HonestCounts(p, Arrays(ns, n), i, 0) { HonestNodes(p, ns, n, i, 0); }
  }

  lemma {:induction false} LeafYields(node: Node, n: nat, col: ColumnSpec, at: int -> Scalar)
    requires Passed(node, n) && node.LeafNode? && SpecOf(node) == Some(col)
    requires LeafBacked(col, ArrayOf(node, n)) && at == LeafValue(col, ArrayOf(node, n))
    ensures Yields(node, n, at)
  {
    LeafHolds(node, n);
    PassedArray(node, n);
  }

  // ---- the leaf columns of the schema ---------------------------------------------------------

  /** The path so far leads to the node. */
  ghost predicate PathTo(w: Where, node: Node, roots: seq<Node>) {
    var r := NodesOn(roots, w.idx, |w.idx|);
    && r.Some? && w.idx != [] && r.value[|w.idx| - 1] == node
    && |w.opt| == |w.idx| && (forall j :: 0 <= j < |w.idx| ==> w.opt[j] == r.value[j].nullable)
    && (forall j :: 0 <= j < |w.idx| - 1 ==> r.value[j].GroupNode?)
    && w.name == node.name && w.optional == node.nullable && Lists(w.steps) == 0
  }

  /** Every column's format is one that the writer takes, and not the null type's. */
  ghost predicate AllTyped(node: Node) {
    match node
    case LeafNode(name, nullable, elements, _) => Typed(name, nullable, elements)
    case GroupNode(_, _, children, _, _) => forall i :: 0 <= i < |children| ==> AllTyped(children[i])
  }

  ghost predicate LeavesOn(leaves: seq<LeafSpec>, roots: seq<Node>) {
    forall i :: 0 <= i < |leaves| ==> LeafOn(leaves[i], roots)
  }

  lemma {:induction false} NodesOnPrefix(roots: seq<Node>, idx: seq<nat>, i: nat, k: nat)
    requires k <= |idx|
    ensures NodesOn(roots, idx + [i], k) == NodesOn(roots, idx, k)
  {
    if k > 0 { NodesOnPrefix(roots, idx, i, k - 1); }
  }

  lemma {:induction false} NotNullType(node: Node)
    requires AllTyped(node)
    ensures NullableChild(SchemaOf(node)) == node.nullable
  {
  }

  lemma {:induction false} LeadsDown(w: Where, node: Node, roots: seq<Node>, i: nat)
    requires PathTo(w, node, roots) && node.GroupNode? && i < |node.children| && AllTyped(node.children[i])
    ensures PathTo(w.Child(i, SchemaOf(node.children[i])), node.children[i], roots)
  {
    NodesOnPrefix(roots, w.idx, i, |w.idx|);
    NotNullType(node.children[i]);
    Extend(w.steps, PathStep(StructStep, w.optional, i, 0));
  }

  lemma {:induction false} FlattenOn(node: Node, w: Where, roots: seq<Node>)
    requires PathTo(w, node, roots) && AllTyped(node) && Flatten(SchemaOf(node), w).Some?
    ensures LeavesOn(Flatten(SchemaOf(node), w).value.leaves, roots)
    decreases node, |SchemaOf(node).children| + 1
  {
    if node.GroupNode? {
      FieldsOn(node, 0, w, roots);
    } else {
      ColumnOn(node, w, roots);
    }
  }

  lemma {:induction false} ColumnOn(node: Node, w: Where, roots: seq<Node>)
    requires PathTo(w, node, roots) && node.LeafNode? && AllTyped(node) && Flatten(SchemaOf(node), w).Some?
    ensures LeavesOn(Flatten(SchemaOf(node), w).value.leaves, roots)
  {
    ColumnFlattens(node, w);
    LeafColumnOn(node, w, roots);
  }

  lemma {:induction false} ColumnFlattens(node: Node, w: Where)
    requires node.LeafNode? && AllTyped(node) && w.name == node.name && w.optional == node.nullable && Flatten(SchemaOf(node), w).Some?
    ensures SpecOf(node).Some? && !SpecOf(node).value.extract.NullValues?
    ensures Flatten(SchemaOf(node), w).value.leaves == [LeafColumn(SpecOf(node).value, w)]
  {
  }

  lemma {:induction false} LeafColumnOn(node: Node, w: Where, roots: seq<Node>)
    requires PathTo(w, node, roots) && node.LeafNode? && SpecOf(node).Some? && !SpecOf(node).value.extract.NullValues?
    ensures LeafOn(LeafColumn(SpecOf(node).value, w), roots)
  {
    Extend(w.steps, PathStep(LeafStep, SpecOf(node).value.nullable, 0, 0));
  }

  lemma {:induction false} FieldsOn(node: Node, i: nat, w: Where, roots: seq<Node>)
    requires PathTo(w, node, roots) && node.GroupNode? && AllTyped(node) && i <= |node.children| && FlattenFields(SchemaOf(node), i, w).Some?
    ensures LeavesOn(FlattenFields(SchemaOf(node), i, w).value.leaves, roots)
    decreases node, |SchemaOf(node).children| - i
  {
    if i < |node.children| {
      LeadsDown(w, node, roots, i);
      FlattenOn(node.children[i], w.Child(i, SchemaOf(node.children[i])), roots);
      FieldsOn(node, i + 1, w, roots);
    }
  }

  lemma {:induction false} RootLeads(roots: seq<Node>, i: nat)
    requires i < |roots| && AllTyped(roots[i])
    ensures PathTo(TopLevel(i, SchemaOf(roots[i])), roots[i], roots)
  {
    var idx := [i];
    NotNullType(roots[i]);
    assert NodesOn(roots, idx, 0) == Some([]);
    assert idx[0] == i && |idx| == 1;
    assert NodesOn(roots, idx, 1) == Some([] + [roots[idx[0]]]);
  }

  /** Flattening a chunk's schema gives leaf columns that stand for the chunk's columns. */
  lemma {:induction false} SchemaLeavesOn(roots: seq<Node>, i: nat)
    requires i <= |roots| && (forall k :: 0 <= k < |roots| ==> AllTyped(roots[k])) && FlattenTop(ChunkSchema(roots), i).Some?
    ensures LeavesOn(FlattenTop(ChunkSchema(roots), i).value.leaves, roots)
    decreases |roots| - i
  {
    if i < |roots| {
      var w := TopLevel(i, SchemaOf(roots[i]));
      NotNullType(roots[i]);
      RootLeads(roots, i);
      FlattenOn(roots[i], w, roots);
      SchemaLeavesOn(roots, i + 1);
    }
  }

  lemma {:induction false} PassedIsTyped(node: Node, n: nat)
    requires AllMasked(node) && Proper(node, n)
    ensures AllTyped(node)
  {
    if node.GroupNode? {
      forall i | 0 <= i < |node.children| ensures AllTyped(node.children[i]) { PassedIsTyped(node.children[i], n); }
    }
  }

  /** So all the leaf columns of a chunk are ones whose rows are what was passed. */
  lemma {:induction false} ChunkLeaves(roots: seq<Node>, n: nat)
    requires Chunk(roots, n) && FlattenTop(ChunkSchema(roots), 0).Some?
    ensures var leaves := FlattenTop(ChunkSchema(roots), 0).value.leaves; AllLeavesOk(leaves) && LeavesOn(leaves, roots)
  {
    forall k | 0 <= k < |roots| ensures AllTyped(roots[k]) {
      assert Passed(roots[k], n);
      PassedIsTyped(roots[k], n);
    }
    SchemaLeavesOn(roots, 0);
    var ts := FooterDescribesLeaves(ChunkSchema(roots), 0);
  }

  // ---- write_chunk ----------------------------------------------------------------------------

  /** A group has at least one child. */
  predicate Peopled(node: Node) {
    node.GroupNode? ==> node.children != [] && Peopled(node.children[0])
  }

  function FirstLeafSize(node: Node): nat
    requires Peopled(node)
  {
    match node
    case LeafNode(_, _, elements, _) => elements.Count()
    case GroupNode(_, _, children, _, _) => FirstLeafSize(children[0])
  }

  /** In a well-formed field every column has the same number of rows, the first as well. */
  lemma {:induction false} FirstLeafFixesRows(node: Node, n: nat)
    requires Peopled(node) && Rectangular(node, n)
    ensures FirstLeafSize(node) == n
  {
    if node.GroupNode? { FirstLeafFixesRows(node.children[0], n); }
  }

  ghost predicate AllRectangular(roots: seq<Node>, n: nat) {
    forall i :: 0 <= i < |roots| ==> Rectangular(roots[i], n)
  }

  ghost predicate NotOverrun(roots: seq<Node>, n: nat) {
    forall i :: 0 <= i < |roots| ==> NoneTooLong(roots[i], n)
  }

  lemma {:induction false} AllRectangularFits(roots: seq<Node>, n: nat)
    requires AllRectangular(roots, n)
    ensures NotOverrun(roots, n)
  {
    forall i | 0 <= i < |roots| ensures NoneTooLong(roots[i], n) { RectangularFits(roots[i], n); }
  }

  /** What a chunk comes to: `None` if a buffer is written beyond its end before the shapes are looked at. */
  ghost predicate ChunkWritten(f: Foreign, before: WriterState, roots: seq<Node>, n: nat, after: WriterState, status: Option<Status>)
    requires forall i :: 0 <= i < |roots| ==> AllMasked(roots[i])
    requires AllRectangular(roots, n) && NotOverrun(roots, n) ==> Usable(before, ChunkSchema(roots), ChunkBatch(roots, n))
  {
    if !NotOverrun(roots, n) then status == None && after == before
    else if AllRectangular(roots, n) then
      status.Some? && Outcome(after, status.value) == Step(f, before, Op.WriteBatch(ChunkSchema(roots), ChunkBatch(roots, n)))
    else status == Some(INVALID_ARGUMENT) && after == before
  }

  /** A well-formed chunk, whatever its row count, is a batch with all that the writer requires. */
  ghost predicate Writable(s: WriterState, roots: seq<Node>) {
    forall n: nat :: AllRectangular(roots, n) && AllBuildable(roots, n) ==> Usable(s, ChunkSchema(roots), ChunkBatch(roots, n))
  }

  /** The chunk is written as one batch of `n` rows. */
  ghost predicate WrittenAs(f: Foreign, before: WriterState, roots: seq<Node>, n: nat, after: WriterState, status: Option<Status>)
  {
    && AllBuildable(roots, n) && Usable(before, ChunkSchema(roots), ChunkBatch(roots, n)) && status.Some?
    && Outcome(after, status.value) == Step(f, before, Op.WriteBatch(ChunkSchema(roots), ChunkBatch(roots, n)))
  }

  /** The columns of a chunk, one after another; a buffer that is overrun leaves nothing to rely on. */
  method BuildRoots(roots: seq<Node>, n: nat) returns (schemas: seq<ArrowSchema>, arrays: seq<ArrowArray>, ok: bool, inside: bool)
    requires forall i :: 0 <= i < |roots| ==> AllMasked(roots[i])
    ensures inside == NotOverrun(roots, n)
    ensures inside ==> schemas == ChunkSchema(roots).children && arrays == ChunkBatch(roots, n).children && ok == AllRectangular(roots, n)
  {
    schemas, arrays, ok := [], [], true;
    for i := 0 to |roots|
      invariant |schemas| == |arrays| == i
      invariant forall k :: 0 <= k < i ==> NoneTooLong(roots[k], n)
      invariant forall k :: 0 <= k < i ==> schemas[k] == SchemaOf(roots[k]) && arrays[k] == ArrayOf(roots[k], n)
      invariant ok <==> forall k :: 0 <= k < i ==> Rectangular(roots[k], n)
    {
      var one := BuildNode(roots[i], n);
      if one.Overrun? { return schemas, arrays, ok, false; }
      schemas, arrays, ok := schemas + [one.schema], arrays + [one.data], ok && one.ok;
    }
    return schemas, arrays, ok, true;
  }

  /**
   `write_chunk_impl`: the first leaf fixes the row count. "Equal row counts are checked at runtime": a
   ragged chunk is refused exactly if no text column has more strings than there are rows and no
   boolean column a true value beyond its bytes.
   */
  method WriteChunk(w: Writer, roots: seq<Node>) returns (status: Option<Status>)
    requires roots != [] && Peopled(roots[0]) && forall i :: 0 <= i < |roots| ==> AllMasked(roots[i])
    requires Writable(w.State(), roots)
    modifies w
    ensures forall n: nat :: AllRectangular(roots, n) ==> WrittenAs(w.f, old(w.State()), roots, n, w.State(), status)
    ensures ChunkWritten(w.f, old(w.State()), roots, FirstLeafSize(roots[0]), w.State(), status)
    ensures !AllRectangular(roots, FirstLeafSize(roots[0])) ==>
      (status == Some(INVALID_ARGUMENT) <==> NotOverrun(roots, FirstLeafSize(roots[0])))
  {
    var n := FirstLeafSize(roots[0]);
    forall k: nat | AllRectangular(roots, k) ensures k == n && NotOverrun(roots, k) {
      FirstLeafFixesRows(roots[0], k);
      AllRectangularFits(roots, k);
    }
    var schemas, arrays, ok, inside := BuildRoots(roots, n);
    if !inside { return None; }
    if !ok { return Some(INVALID_ARGUMENT); }
    var s := w.WriteBatch(ArrowSchema("+s", "schema", false, schemas), ArrowArray(n, 0, 0, 1, None, None, [], arrays));
    return Some(s);
  }

  /** A first leaf of one row beside a text column of two: the check comes too late. */
  lemma {:induction false} LongTextOverruns()
    ensures var roots := [LeafNode("a", false, FixedElements("i", [[1, 0, 0, 0]]), Validity(None, 0)),
        LeafNode("b", false, TextElements(false, false, [[65], [66]]), Validity(None, 0))];
      Peopled(roots[0]) && FirstLeafSize(roots[0]) == 1 && AllMasked(roots[0]) && AllMasked(roots[1])
      && !WritesInside(roots[1].elements, 1) && BuiltOf(roots[1], 1).Overrun? && !NotOverrun(roots, 1) && !AllRectangular(roots, 1)
  {
    var roots := [LeafNode("a", false, FixedElements("i", [[1, 0, 0, 0]]), Validity(None, 0)),
      LeafNode("b", false, TextElements(false, false, [[65], [66]]), Validity(None, 0))];
    FillsInsideIff(roots[1].elements, 1);
    assert !NoneTooLong(roots[1], 1) && !Rectangular(roots[1], 1);
  }

  /** Two booleans beside one row stay inside their one byte and are refused. */
  lemma {:induction false} LongBoolsAreRefused()
    ensures var roots := [LeafNode("a", false, FixedElements("i", [[1, 0, 0, 0]]), Validity(None, 0)),
        LeafNode("b", false, BoolElements([true, true]), Validity(None, 0))];
      NotOverrun(roots, 1) && !AllRectangular(roots, 1)
  {
    var roots := [LeafNode("a", false, FixedElements("i", [[1, 0, 0, 0]]), Validity(None, 0)),
      LeafNode("b", false, BoolElements([true, true]), Validity(None, 0))];
    assert NoneTooLong(roots[0], 1) && NoneTooLong(roots[1], 1) && !Rectangular(roots[1], 1);
  }
}
