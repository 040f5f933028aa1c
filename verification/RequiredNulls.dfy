/**
 Nulls in fields that are not nullable. The writer refuses an array that admits to nulls, not one that
 has them: under a list it looks at a reached entry only if the null count is positive, and outside
 lists it asks the leaf's count alone. A cleared bit that gets past is written as a value.
 */
module RequiredNulls {
  import opened Bits
  import opened Arrow
  import opened Shredding
  import opened Validation
  import opened HiddenOffsets
  import opened Schema
  import opened Footer
  import opened Chunks

  /** The array's bitmap says that the entry is null, whatever its null count says. */
  predicate Cleared(a: ArrowArray, e: int) {
    Backed(a) && a.offset <= e < a.offset + a.length && a.nBuffers > 0 && a.validity.Some? && !ValidBit(a.validity, e)
  }

  /** A null in a field that is not nullable. */
  predicate RequiredNull(p: LeafPath, k: nat, a: ArrowArray, e: int) {
    k < |p.steps| && !p.steps[k].optional && Cleared(a, e)
  }

  // ---- under a list ---------------------------------------------------------------------------

  /** All that is demanded of an entry besides that it is no null in a field that is not nullable. */
  predicate OtherwiseSound(p: LeafPath, k: nat, a: ArrowArray, e: int)
    requires k < |p.steps| && Backed(a)
  {
    var st := p.steps[k];
    && a.offset == 0
    && 0 <= e < a.length
    && (!Ends(p, k, a, e) ==>
      && (st.kind.StructStep? ==> st.child < |a.children|)
      && (st.kind.Repeats() ==> ListRange(st, a, e).Some?))
  }

  lemma {:induction false} SoundIff(p: LeafPath, k: nat, a: ArrowArray, e: int)
    requires k < |p.steps| && Backed(a)
    ensures Sound(p, k, a, e) <==> OtherwiseSound(p, k, a, e) && (RequiredNull(p, k, a, e) ==> a.nullCount <= 0)
  {
  }

  /** Every null in a field that is not nullable, of those that the walk reaches, is one that its array does not admit to. */
  ghost predicate NullsDenied(p: LeafPath, column: ArrowArray, e: int)
    requires WellFormed(p) && Backed(column)
  {
    forall m, b, j :: Reaches(p, 0, column, e, m, b, j) && RequiredNull(p, m, b, j) ==> b.nullCount <= 0
  }

  ghost predicate RowOtherwiseSound(p: LeafPath, column: ArrowArray, e: int)
    requires WellFormed(p) && Backed(column)
  {
    forall m, b, j :: Reaches(p, 0, column, e, m, b, j) ==> OtherwiseSound(p, m, b, j)
  }

  /** Of rows with nothing else wrong, exactly those with a null that is admitted to are refused. */
  lemma {:induction false} NullRefusedIff(p: LeafPath, column: ArrowArray, e: int)
    requires WellFormed(p) && Backed(column) && RowOtherwiseSound(p, column, e)
    ensures Walk(p, 0, column, e, 0, 0).ok <==> NullsDenied(p, column, e)
  {
    WalkAccepts(p, 0, column, e, 0, 0);
    forall m, b, j | Reaches(p, 0, column, e, m, b, j) ensures Sound(p, m, b, j) <==> (RequiredNull(p, m, b, j) ==> b.nullCount <= 0) {
      SoundIff(p, m, b, j);
    }
  }

  /** Unsliced, without nulls that it admits to unless it may have them, and with the buffers of its type. */
  predicate PassesItsChecks(a: ArrowArray, s: ColumnSpec) {
    && a.offset == 0 && (s.nullable || a.nullCount <= 0)
    && match s.extract
       case NullValues => true
       case ByteArray => a.nBuffers >= 3
       case _ => a.nBuffers >= 2
  }

  /** A list leaf is accepted exactly if its array passes the checks of its own and every row is sound. */
  lemma {:induction false} ListAcceptedIff(leaf: LeafSpec, batch: ArrowArray)
    requires LeafUsable(leaf, batch) && leaf.hasList
    ensures ListOut(leaf, batch).Some? <==>
      && ListArray(leaf, batch).Some?
      && PassesItsChecks(ListArray(leaf, batch).value, leaf.col)
      && forall e :: 0 <= e < batch.length ==> AllSound(PathOf(leaf), 0, batch.children[leaf.pathIdx[0]], e)
  {
    if ListArray(leaf, batch).Some? { RowsAccepted(PathOf(leaf), batch.children[leaf.pathIdx[0]], batch.length); }
  }

  // ---- outside lists --------------------------------------------------------------------------

  /** A leaf outside lists is accepted exactly if its path leads to an array of the batch's length that passes them. */
  lemma {:induction false} FlatAcceptedIff(leaf: LeafSpec, batch: ArrowArray)
    requires LeafUsable(leaf, batch) && !leaf.hasList
    ensures FlatNodes(leaf, batch).Some? <==>
      var nodes := PathNodes(leaf.pathIdx, batch, |leaf.pathIdx|);
      nodes.Some? && var a := nodes.value[|nodes.value| - 1]; a.length == batch.length && PassesItsChecks(a, leaf.col)
  {
  }

  /** All that is asked of a leaf array outside lists besides its null count. */
  predicate OtherwiseValid(a: ArrowArray, leaf: LeafSpec, rows: int) {
    ValidChild(a.(nullCount := 0), leaf.col, rows)
  }

  /** A leaf outside lists is refused for its null count exactly if it is not nullable and the count is positive: no bitmap and no group is asked. */
  lemma {:induction false} FlatRefusedIff(leaf: LeafSpec, batch: ArrowArray, nodes: seq<ArrowArray>)
    requires LeafUsable(leaf, batch) && !leaf.hasList && PathNodes(leaf.pathIdx, batch, |leaf.pathIdx|) == Some(nodes)
    requires OtherwiseValid(nodes[|nodes| - 1], leaf, batch.length)
    ensures FlatNodes(leaf, batch).None? <==> !leaf.col.nullable && nodes[|nodes| - 1].nullCount > 0
  {
  }

  // ---- on which paths it is kept --------------------------------------------------------------

  /** "REQUIRED columns reject actual nulls": no accepted column has one that its rows reach. */
  ghost predicate RejectsNulls(p: LeafPath)
    requires WellFormed(p)
  {
    forall column, n: nat, e, m, b, j :: Backed(column) && WalkRange(p, 0, column, 0, n, 0, 0, 0).ok && 0 <= e < n ==>
      !(Reaches(p, 0, column, e, m, b, j) && RequiredNull(p, m, b, j))
  }

  /** One entry, a null at step `m`, whose array does not know how many nulls it has. */
  function Unadmitted(p: LeafPath, k: nat, m: nat): (a: ArrowArray)
    requires WellFormed(p) && k <= m < |p.steps|
    ensures Backed(a) && a.length == 1 && a.offset == 0
    decreases m - k
  {
    if k < m then StepNode(p, k, 1, None, [0, 1], Some(Unadmitted(p, k + 1, m)))
    else StepNode(p, k, 1, Some([0]), [0, 1], if p.steps[k].kind.LeafStep? then None else Some(Untwisted(p, k + 1, 1))).(nullCount := -1)
  }

  lemma {:induction false} NotAtLeaf(p: LeafPath, k: nat, m: nat)
    requires WellFormed(p) && k < m < |p.steps|
    ensures !p.steps[k].kind.LeafStep?
  {
    assert !ShapeOf(p.steps)[k].nesting.Leaf?;
  }

  lemma {:induction false} UnadmittedWalks(p: LeafPath, k: nat, m: nat, r: nat, d: nat)
    requires WellFormed(p) && k <= m < |p.steps| && !p.steps[m].optional
    ensures StartsAt(Walk(p, k, Unadmitted(p, k, m), 0, r, d), d)
    decreases m - k
  {
    var st, a := p.steps[k], Unadmitted(p, k, m);
    var d' := if st.optional then d + 1 else d;
    if k < m {
      var next := Unadmitted(p, k + 1, m);
      NotAtLeaf(p, k, m);
      NodeNext(p, k, 1, None, [0, 1], next);
      if st.kind.StructStep? {
        UnadmittedWalks(p, k + 1, m, r, d');
      } else {
        UnadmittedWalks(p, k + 1, m, r, d' + 1);
        OneElement(p, k, a, next, 0, 0, r, d);
      }
    } else {
      NullWalks(p, k, r, d);
    }
  }

  /** At the null itself the walk goes on as if it were none. */
  lemma {:induction false} NullWalks(p: LeafPath, k: nat, r: nat, d: nat)
    requires WellFormed(p) && k < |p.steps| && !p.steps[k].optional
    ensures StartsAt(Walk(p, k, Unadmitted(p, k, k), 0, r, d), d)
  {
    var st, a := p.steps[k], Unadmitted(p, k, k);
    if !st.kind.LeafStep? {
      var next := Untwisted(p, k + 1, 1);
      NodeNext(p, k, 1, Some([0]), [0, 1], next);
      if st.kind.StructStep? {
        UntwistedStarts(p, k + 1, 1, 0, r, d);
      } else {
        UntwistedStarts(p, k + 1, 1, 0, r, d + 1);
        OneElement(p, k, a, next, 0, 0, r, d);
      }
    }
  }

  lemma {:induction false} UnadmittedReached(p: LeafPath, k: nat, m: nat)
    requires WellFormed(p) && k <= m < |p.steps|
    ensures Reaches(p, k, Unadmitted(p, k, m), 0, m, Unadmitted(p, m, m), 0)
    decreases m - k
  {
    if k < m {
      var st, a, next := p.steps[k], Unadmitted(p, k, m), Unadmitted(p, k + 1, m);
      NotAtLeaf(p, k, m);
      NodeNext(p, k, 1, None, [0, 1], next);
      UnadmittedReached(p, k + 1, m);
      ReachesDown(p, k, a, next, m, Unadmitted(p, m, m), 0);
    }
  }

  /** What the only entry below reaches, its parent reaches. */
  lemma {:induction false} ReachesDown(p: LeafPath, k: nat, a: ArrowArray, next: ArrowArray, m: nat, b: ArrowArray, j: int)
    requires WellFormed(p) && k + 1 < |p.steps| && Backed(a) && a.offset == 0 && a.length == 1 && a.nullCount == 0 && !p.steps[k].kind.LeafStep?
    requires Backed(next) && Next(p.steps[k], a) == Some(next) && Reaches(p, k + 1, next, 0, m, b, j)
    requires p.steps[k].kind.Repeats() ==> ListRange(p.steps[k], a, 0) == Some(Range(next, 0, 1))
    ensures Reaches(p, k, a, 0, m, b, j)
  {
    if p.steps[k].kind.Repeats() { assert ReachesRange(p, k + 1, next, 0, 1, m, b, j); }
  }

  lemma {:induction false} UnadmittedIsNull(p: LeafPath, m: nat)
    requires WellFormed(p) && m < |p.steps| && !p.steps[m].optional
    ensures RequiredNull(p, m, Unadmitted(p, m, m), 0)
  {
    ZeroHasNoBits(0);
  }

  /** It is kept exactly on the paths that have no field that is not nullable. */
  lemma {:induction false} RejectsNullsIff(p: LeafPath)
    requires WellFormed(p)
    ensures RejectsNulls(p) <==> forall m :: 0 <= m < |p.steps| ==> p.steps[m].optional
  {
    if m :| 0 <= m < |p.steps| && !p.steps[m].optional {
      var column := Unadmitted(p, 0, m);
      UnadmittedWalks(p, 0, m, 0, 0);
      UnadmittedReached(p, 0, m);
      UnadmittedIsNull(p, m);
      assert WalkRange(p, 0, column, 1, 1, 0, 0, 0) == Walked(true, []);
      assert WalkRange(p, 0, column, 0, 1, 0, 0, 0).ok;
    }
  }
}
