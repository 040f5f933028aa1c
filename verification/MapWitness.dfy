/**
 A map column of one row, {1: 7}: its key column is written with 1 and its value column with 7.
 */
module MapWitness {
  import opened Bits
  import opened Arrow
  import opened Records
  import opened Shredding
  import opened Order
  import opened Projection
  import opened Schema
  import opened Footer
  import opened PlainValues
  import opened Chunks
  import opened Readback
  import opened FileReadback
  import opened Nested
  import opened RecordReadback

  const KEY := ArrowSchema("i", "k", false, [])
  const VALUE := ArrowSchema("i", "v", false, [])
  const INTEGER_MAP := ArrowSchema("+m", "m", false, [ArrowSchema("+s", "entries", false, [KEY, VALUE])])
  const MAP_SCHEMA := ArrowSchema("+s", "schema", false, [INTEGER_MAP])

  const MAP_KEYS := ArrowArray(1, 0, 0, 2, None, None, [1, 0, 0, 0], [])
  const MAP_VALUES := ArrowArray(1, 0, 0, 2, None, None, [7, 0, 0, 0], [])
  const MAP_ENTRIES := ArrowArray(1, 0, 0, 1, None, None, [], [MAP_KEYS, MAP_VALUES])
  const MAP_COLUMN := ArrowArray(1, 0, 0, 2, None, Some([0, 1]), [], [MAP_ENTRIES])
  const MAP_BATCH := ArrowArray(1, 0, 0, 1, None, None, [], [MAP_COLUMN])

  const ONE_ENTRY := [Entry(0, 1, Some(0))]

  function SideColumn(side: nat): ArrowArray { if side == 0 then MAP_KEYS else MAP_VALUES }

  function FieldOf(side: nat): ArrowSchema { if side == 0 then KEY else VALUE }

  function SideWhere(side: nat): Where { TopLevel(0, INTEGER_MAP).KeyValue(side, FieldOf(side)) }

  function SideLeaf(side: nat): LeafSpec {
    LeafColumn(ColumnSpec(if side == 0 then "key" else "value", INT32, MemcpyFixed, None, 0, 4, false, false, false), SideWhere(side))
  }

  lemma {:induction false} SideLeafIs(side: nat)
    requires side < 2
    ensures LeafOk(SideLeaf(side)) && SideLeaf(side).hasList && SideLeaf(side).pathIdx == [0]
    ensures StepsOf(SideLeaf(side)) == [PathStep(MapStep, false, side, 1), PathStep(LeafStep, false, 0, 0)]
  {
    var w, w' := TopLevel(0, INTEGER_MAP), SideWhere(side);
    assert ShapeOf([]) == [];
    assert Lists([]) == 0;
    KeyValueWhere(w, side, FieldOf(side), false);
    LeafColumnOk(SideLeaf(side).col, w', false);
    Extend([], PathStep(MapStep, false, side, 1));
    assert w'.steps == [] + [PathStep(MapStep, false, side, 1)];
    Extend(w'.steps, PathStep(LeafStep, false, 0, 0));
  }

  lemma {:induction false} MapFlattens()
    ensures var flat := FlattenTop(MAP_SCHEMA, 0); flat.Some? && flat.value.leaves == [SideLeaf(0), SideLeaf(1)]
  {
    var w := TopLevel(0, INTEGER_MAP);
    EntriesFlatten();
    assert Flatten(INTEGER_MAP, w).value.leaves == [] + [SideLeaf(0), SideLeaf(1)];
    assert FlattenTop(MAP_SCHEMA, 1) == Some(Flat([], []));
  }

  lemma {:induction false} SideFlattens(side: nat)
    requires side < 2
    ensures Flatten(FieldOf(side), SideWhere(side)).Some? && Flatten(FieldOf(side), SideWhere(side)).value.leaves == [SideLeaf(side)]
  {
  }

  lemma {:induction false} EntriesFlatten()
    ensures var entries := FlattenEntries(INTEGER_MAP.children[0], TopLevel(0, INTEGER_MAP));
      entries.Some? && entries.value.leaves == [SideLeaf(0), SideLeaf(1)]
  {
    SideFlattens(0);
    SideFlattens(1);
    var entries := FlattenEntries(INTEGER_MAP.children[0], TopLevel(0, INTEGER_MAP));
    assert entries.value.leaves == [] + ([SideLeaf(0)] + [SideLeaf(1)]);
  }

  lemma {:induction false} MapBacked(side: nat)
    requires side < 2
    ensures Backed(MAP_KEYS) && Backed(MAP_VALUES) && Backed(MAP_ENTRIES) && Backed(MAP_COLUMN) && Backed(MAP_BATCH)
    ensures LeafBacked(SideLeaf(side).col, SideColumn(side))
  {
    assert Backed(MAP_KEYS) && Backed(MAP_VALUES);
    assert Backed(MAP_ENTRIES);
    assert Backed(MAP_COLUMN);
    assert SizeOf(1, 4) == SizeOf(0, 4) + 4;
  }

  lemma {:induction false} SideWalks(side: nat)
    requires side < 2
    ensures LeafOk(SideLeaf(side)) && Backed(MAP_COLUMN)
    ensures WalkRange(PathOf(SideLeaf(side)), 0, MAP_COLUMN, 0, 1, 0, 0, 0) == Walked(true, ONE_ENTRY)
  {
    SideLeafIs(side);
    MapBacked(side);
    var p, c := PathOf(SideLeaf(side)), SideColumn(side);
    assert Walk(p, 1, c, 0, 0, 1) == Walked(true, ONE_ENTRY);
    assert WalkRange(p, 1, c, 1, 1, 1, 1, 1) == Walked(true, []);
    assert WalkRange(p, 1, c, 0, 1, 0, 1, 1) == Walked(true, ONE_ENTRY);
    assert Walk(p, 0, MAP_COLUMN, 0, 0, 0) == Walked(true, ONE_ENTRY);
    assert WalkRange(p, 0, MAP_COLUMN, 1, 1, 0, 0, 0) == Walked(true, []);
  }

  function SideRow(side: nat): Datum<Scalar> { List([Value(Raw(SideColumn(side).values))]) }

  lemma {:induction false} SideMeans(side: nat)
    requires side < 2
    ensures LeafOk(SideLeaf(side)) && LeafBacked(SideLeaf(side).col, SideColumn(side)) && Backed(MAP_COLUMN)
    ensures ProjectRange(PathOf(SideLeaf(side)), 0, MAP_COLUMN, 0, 1, LeafValue(SideLeaf(side).col, SideColumn(side))) == [SideRow(side)]
  {
    SideLeafIs(side);
    MapBacked(side);
    var p, c := PathOf(SideLeaf(side)), SideColumn(side);
    var at := LeafValue(SideLeaf(side).col, c);
    SideValue(side);
    assert Project(p, 1, c, 0, at) == Value(at(0));
    assert ProjectRange(p, 1, c, 1, 1, at) == [];
    assert ProjectRange(p, 1, c, 0, 1, at) == [Value(at(0))];
    assert Project(p, 0, MAP_COLUMN, 0, at) == SideRow(side);
    assert ProjectRange(p, 0, MAP_COLUMN, 1, 1, at) == [];
  }

  lemma {:induction false} SideValue(side: nat)
    requires side < 2
    ensures LeafBacked(SideLeaf(side).col, SideColumn(side)) && LeafValue(SideLeaf(side).col, SideColumn(side))(0) == Raw(SideColumn(side).values)
    ensures FormatValue("i", SideColumn(side), 0) == Raw(SideColumn(side).values)
  {
    MapBacked(side);
    var c := SideColumn(side);
    assert SizeOf(1, 4) == SizeOf(0, 4) + 4;
    assert Slot(c.values, 4, 1, 0) == c.values;
  }

  /** The writer accepts both leaves, and a reader gets the key for the one and the value for the other. */
  lemma {:induction false} SideIsRegular(side: nat)
    requires side < 2
    ensures LeafRegular(SideLeaf(side), MAP_BATCH)
    ensures LeafRows(SideLeaf(side), MAP_BATCH) == [List([Value(Raw([if side == 0 then 1 else 7, 0, 0, 0]))])]
    ensures ListOut(SideLeaf(side), MAP_BATCH) == Some(Accepted(SideColumn(side), ONE_ENTRY))
  {
    SideLeafIs(side);
    MapBacked(side);
    SideWalks(side);
    SideMeans(side);
    var leaf := SideLeaf(side);
    assert LeafArray(leaf.steps, 0, MAP_COLUMN) == Some(SideColumn(side));
    assert ListArray(leaf, MAP_BATCH) == Some(SideColumn(side));
    assert ListUsable(leaf, MAP_BATCH);
    assert ListOut(leaf, MAP_BATCH) == Some(Accepted(SideColumn(side), ONE_ENTRY));
    assert Exposed(leaf.steps, 2) == false && Exposed(leaf.steps, 1) == false;
    assert !Exposed(leaf.steps, 0);
  }

  /** As the format has it, the row is the pair of key 1 and value 7. */
  lemma {:induction false} MapRecord()
    ensures Backed(MAP_BATCH) && RowRecord(MAP_SCHEMA, MAP_BATCH, 0, 0) == Pairs([Atom(Raw([1, 0, 0, 0]))], [Atom(Raw([7, 0, 0, 0]))])
  {
    SideRecord(0);
    SideRecord(1);
    MapBacked(0);
    assert KeysOfMap(MAP_COLUMN, 0) == Some(Range(MAP_KEYS, 0, 1));
    assert ValuesOfMap(MAP_COLUMN, 0) == Some(Range(MAP_VALUES, 0, 1));
  }

  lemma {:induction false} SideRecord(side: nat)
    requires side < 2
    ensures Backed(SideColumn(side))
    ensures ReadItems(FieldOf(side), false, Some(Range(SideColumn(side), 0, 1)), FormatValues()) == [Atom(Raw(SideColumn(side).values))]
  {
    MapBacked(side);
    SideValue(side);
    assert ReadFull(FieldOf(side), false, SideColumn(side), 0, FormatValues()) == Atom(Raw(SideColumn(side).values));
    assert ReadItems(FieldOf(side), false, Some(Range(SideColumn(side), 1, 1)), FormatValues()) == [];
  }
}
