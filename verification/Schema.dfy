/**
 Column types and schema flattening: one pass over the Arrow schema tree appends to Parquet's
 pre-order list of schema nodes and to the list of leaf columns. A reader that knows only the
 pre-order list finds the same columns in it.
 */
module Schema {
  import opened Bits
  import opened Arrow
  import opened Records
  import opened Shredding
  import opened RleBitpack
  import opened WidthFormat

  datatype PhysicalType = BOOLEAN | INT32 | INT64 | FLOAT | DOUBLE | BYTE_ARRAY | FIXED_LEN_BYTE_ARRAY
  datatype ConvertedType = UTF8 | LIST | MAP | INT_8 | INT_16 | UINT_8 | UINT_16 | UINT_32 | UINT_64

  datatype Extract = MemcpyFixed | WidenInt | PackedBool | ByteArray | NullValues

  datatype ColumnSpec = ColumnSpec(
    name: string,
    physical: PhysicalType,
    extract: Extract,
    converted: Option<ConvertedType>,
    typeLength: nat,
    srcWidth: nat,
    signExtend: bool,
    largeOffsets: bool,
    nullable: bool)

  /** `map_format`: the column a leaf's Arrow format string stands for, or none if it is unsupported. */
  function MapFormat(format: string, name: string, nullable: bool): Option<ColumnSpec> {
    var s := ColumnSpec(name, INT32, MemcpyFixed, None, 0, 0, false, false, nullable);
    if format == "n" then Some(s.(extract := NullValues, nullable := true))
    else if format == "b" then Some(s.(physical := BOOLEAN, extract := PackedBool))
    else if format == "c" then Some(s.(extract := WidenInt, srcWidth := 1, signExtend := true, converted := Some(INT_8)))
    else if format == "C" then Some(s.(extract := WidenInt, srcWidth := 1, converted := Some(UINT_8)))
    else if format == "s" then Some(s.(extract := WidenInt, srcWidth := 2, signExtend := true, converted := Some(INT_16)))
    else if format == "S" then Some(s.(extract := WidenInt, srcWidth := 2, converted := Some(UINT_16)))
    else if format == "i" then Some(s.(srcWidth := 4))
    else if format == "I" then Some(s.(srcWidth := 4, converted := Some(UINT_32)))
    else if format == "l" then Some(s.(physical := INT64, srcWidth := 8))
    else if format == "L" then Some(s.(physical := INT64, srcWidth := 8, converted := Some(UINT_64)))
    else if format == "f" then Some(s.(physical := FLOAT, srcWidth := 4))
    else if format == "g" then Some(s.(physical := DOUBLE, srcWidth := 8))
    else if |format| >= 2 && format[..2] == "w:" then
      var n := Atoi(format[2..]);
      if n <= 0 then None else Some(s.(physical := FIXED_LEN_BYTE_ARRAY, srcWidth := n, typeLength := n))
    else if format == "u" || format == "U" then
      Some(s.(physical := BYTE_ARRAY, extract := ByteArray, converted := Some(UTF8), largeOffsets := format == "U"))
    else if format == "z" || format == "Z" then
      Some(s.(physical := BYTE_ARRAY, extract := ByteArray, largeOffsets := format == "Z"))
    else None
  }

  /** The format that the column type declares is read back as the declared width, whatever the width. */
  lemma {:induction false} FixedSizeBinaryMaps(n: nat, name: string, nullable: bool)
    ensures var spec := MapFormat(CString("w:" + Decimal(n) + ['\0']), name, nullable);
      spec.None? <==> n == 0
    ensures var spec := MapFormat(CString("w:" + Decimal(n) + ['\0']), name, nullable);
      n > 0 ==> spec.value.physical == FIXED_LEN_BYTE_ARRAY && spec.value.extract == MemcpyFixed && spec.value.srcWidth == spec.value.typeLength == n
  {
    var s := "w:" + Decimal(n);
    CStringStops(s);
    AtoiDecimal(n);
    assert s[..2] == "w:" && s[2..] == Decimal(n);
  }

  // ---- what flattening produces ---------------------------------------------------------------

  datatype Annotation = Plain | ListGroup | MapGroup
  datatype SchemaNode =
    | Group(name: string, optional: bool, repeated: bool, numChildren: nat, annotation: Annotation)
    | Field(name: string, optional: bool, col: ColumnSpec)

  datatype LeafSpec = LeafSpec(
    col: ColumnSpec,
    pathIdx: seq<nat>,
    pathNames: seq<string>,
    pathOptional: seq<bool>,
    maxDef: nat,
    defBitWidth: nat,
    hasList: bool,
    steps: seq<PathStep>,
    maxRep: nat,
    repBitWidth: nat)

  /** Schema nodes in pre-order and leaf columns in write order. */
  datatype Flat = Flat(nodes: seq<SchemaNode>, leaves: seq<LeafSpec>) {
    function Then(next: Flat): Flat {
      Flat(nodes + next.nodes, leaves + next.leaves)
    }

    lemma {:induction false} ThenThen(a: Flat, b: Flat)
      ensures Then(a).Then(b) == Then(a.Then(b))
    {
      assert nodes + a.nodes + b.nodes == nodes + (a.nodes + b.nodes);
      assert leaves + a.leaves + b.leaves == leaves + (a.leaves + b.leaves);
    }
  }

  predicate NullableChild(c: ArrowSchema) {
    c.nullable || c.format == "n"
  }

  /** The arguments that a node's recursive calls extend: the path down to and including the node. */
  datatype Where = Where(name: string, optional: bool, idx: seq<nat>, names: seq<string>, opt: seq<bool>, steps: seq<PathStep>) {
    function Child(i: nat, c: ArrowSchema): Where {
      Where(c.name, NullableChild(c), idx + [i], names + [c.name], opt + [NullableChild(c)],
            steps + [PathStep(StructStep, optional, i, 0)])
    }
    function Element(c: ArrowSchema, large: bool): Where {
      Where("element", NullableChild(c), idx, names + ["list", "element"], opt,
            steps + [PathStep(if large then LargeListStep else ListStep, optional, 0, Lists(steps) + 1)])
    }
    function KeyValue(i: nat, c: ArrowSchema): Where {
      var name := if i == 0 then "key" else "value";
      Where(name, i != 0 && NullableChild(c), idx, names + ["key_value", name], opt,
            steps + [PathStep(MapStep, optional, i, Lists(steps) + 1)])
    }
  }

  function Lists(steps: seq<PathStep>): nat { RepAbove(ShapeOf(steps), |steps|) }
  function Nullables(steps: seq<PathStep>): nat { DefAbove(ShapeOf(steps), |steps|) }

  function LeafColumn(spec: ColumnSpec, w: Where): LeafSpec {
    var steps := w.steps + [PathStep(LeafStep, spec.nullable, 0, 0)];
    var d, r := Nullables(steps), Lists(steps);
    LeafSpec(spec, w.idx, w.names, w.opt, d, BitWidth(d + 1), r > 0, if r > 0 then steps else [], r, BitWidth(r + 1))
  }

  /** What `flatten_node` appends for one node; none if it refuses the node. */
  function Flatten(node: ArrowSchema, w: Where): Option<Flat>
    decreases node, |node.children| + 1
  {
    if node.format == "+s" then
      match FlattenFields(node, 0, w)
      case None => None
      case Some(rest) => Some(Flat([Group(w.name, w.optional, false, |node.children|, Plain)], []).Then(rest))
    else if node.format == "+l" || node.format == "+L" then
      if |node.children| != 1 then None else
      match Flatten(node.children[0], w.Element(node.children[0], node.format == "+L"))
      case None => None
      case Some(rest) => Some(Flat([Group(w.name, w.optional, false, 1, ListGroup), Group("list", false, true, 1, Plain)], []).Then(rest))
    else if node.format == "+m" then
      if |node.children| != 1 then None else
      match FlattenEntries(node.children[0], w)
      case None => None
      case Some(rest) => Some(Flat([Group(w.name, w.optional, false, 1, MapGroup)], []).Then(rest))
    else
      match MapFormat(node.format, w.name, w.optional)
      case None => None
      case Some(spec) => Some(Flat([Field(spec.name, spec.nullable, spec)], [LeafColumn(spec, w)]))
  }

  /** A map's entries: the repeated group of a key and a value. */
  function FlattenEntries(entries: ArrowSchema, w: Where): Option<Flat>
    decreases entries, |entries.children| + 1
  {
    if entries.format != "+s" || |entries.children| != 2 then None else
    match Flatten(entries.children[0], w.KeyValue(0, entries.children[0]))
    case None => None
    case Some(key) =>
      match Flatten(entries.children[1], w.KeyValue(1, entries.children[1]))
      case None => None
      case Some(value) => Some(Flat([Group("key_value", false, true, 2, Plain)], []).Then(key.Then(value)))
  }

  /** A struct's fields from the `i`-th on. */
  function FlattenFields(node: ArrowSchema, i: nat, w: Where): Option<Flat>
    requires i <= |node.children|
    decreases node, |node.children| - i
  {
    if i == |node.children| then Some(Flat([], [])) else
    match Flatten(node.children[i], w.Child(i, node.children[i]))
    case None => None
    case Some(first) =>
      match FlattenFields(node, i + 1, w)
      case None => None
      case Some(rest) => Some(first.Then(rest))
  }

  /** The vectors that `flatten_node` appends to. */
  class Flattener {
    var nodes: seq<SchemaNode>
    var leaves: seq<LeafSpec>

    constructor ()
      ensures nodes == [] && leaves == []
    {
      nodes, leaves := [], [];
    }

    ghost function State(): Flat
      reads this
    {
      Flat(nodes, leaves)
    }

    method PushNode(n: SchemaNode)
      modifies this`nodes
      ensures State() == old(State()).Then(Flat([n], []))
    {
      nodes := nodes + [n];
      assert leaves + [] == leaves;
    }

    method FlattenNode(node: ArrowSchema, w: Where) returns (ok: bool)
      modifies this
      ensures ok == Flatten(node, w).Some?
      ensures ok ==> State() == old(State()).Then(Flatten(node, w).value)
      decreases node, |node.children| + 1
    {
      if node.format == "+s" {
        ok := Struct(node, w);
      } else if node.format == "+l" || node.format == "+L" {
        if |node.children| != 1 { return false; }
        PushNode(Group(w.name, w.optional, false, 1, ListGroup));
        PushNode(Group("list", false, true, 1, Plain));
        ghost var before := State();
        ok := FlattenNode(node.children[0], w.Element(node.children[0], node.format == "+L"));
        if ok {
          var groups := Flat([Group(w.name, w.optional, false, 1, ListGroup), Group("list", false, true, 1, Plain)], []);
          assert before == old(State()).Then(groups);
          old(State()).ThenThen(groups, Flatten(node.children[0], w.Element(node.children[0], node.format == "+L")).value);
        }
      } else if node.format == "+m" {
        if |node.children| != 1 { return false; }
        PushNode(Group(w.name, w.optional, false, 1, MapGroup));
        ok := Entries(node.children[0], w);
        if ok {
          old(State()).ThenThen(Flat([Group(w.name, w.optional, false, 1, MapGroup)], []), FlattenEntries(node.children[0], w).value);
        }
      } else {
        match MapFormat(node.format, w.name, w.optional) {
          case None => return false;
          case Some(spec) =>
            nodes := nodes + [Field(spec.name, spec.nullable, spec)];
            leaves := leaves + [LeafColumn(spec, w)];
            return true;
        }
      }
    }

    method Struct(node: ArrowSchema, w: Where) returns (ok: bool)
      requires node.format == "+s"
      modifies this
      ensures ok == Flatten(node, w).Some?
      ensures ok ==> State() == old(State()).Then(Flatten(node, w).value)
      decreases node, |node.children|
    {
      PushNode(Group(w.name, w.optional, false, |node.children|, Plain));
      ghost var before := State();
      ghost var done := Flat([], []);
      ghost var total := FlattenFields(node, 0, w);
      assert before == before.Then(done);
      assert total.Some? ==> total.value == done.Then(total.value);
      var i := 0;
      while i < |node.children|
        invariant 0 <= i <= |node.children|
        invariant State() == before.Then(done)
        invariant var rest := FlattenFields(node, i, w);
          total.Some? == rest.Some? && (total.Some? ==> total.value == done.Then(rest.value))
      {
        ok := FlattenNode(node.children[i], w.Child(i, node.children[i]));
        if !ok { return; }
        ghost var first := Flatten(node.children[i], w.Child(i, node.children[i])).value;
        before.ThenThen(done, first);
        if total.Some? { done.ThenThen(first, FlattenFields(node, i + 1, w).value); }
        done := done.Then(first);
        i := i + 1;
      }
      assert done.Then(Flat([], [])) == done;
      old(State()).ThenThen(Flat([Group(w.name, w.optional, false, |node.children|, Plain)], []), done);
      return true;
    }

    /** A map's entries, a required key and a value. */
    method Entries(entries: ArrowSchema, w: Where) returns (ok: bool)
      modifies this
      ensures ok == FlattenEntries(entries, w).Some?
      ensures ok ==> State() == old(State()).Then(FlattenEntries(entries, w).value)
      decreases entries, |entries.children| + 1
    {
      if entries.format != "+s" || |entries.children| != 2 { return false; }
      PushNode(Group("key_value", false, true, 2, Plain));
      ghost var s0 := State();
      ok := FlattenNode(entries.children[0], w.KeyValue(0, entries.children[0]));
      if !ok { return; }
      ok := FlattenNode(entries.children[1], w.KeyValue(1, entries.children[1]));
      if ok {
        ghost var key, value := Flatten(entries.children[0], w.KeyValue(0, entries.children[0])).value,
                                Flatten(entries.children[1], w.KeyValue(1, entries.children[1])).value;
        s0.ThenThen(key, value);
        old(State()).ThenThen(Flat([Group("key_value", false, true, 2, Plain)], []), key.Then(value));
      }
    }
  }
}
