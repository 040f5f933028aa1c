/**
 The schema that a file gives back. A reader of the footer's elements rebuilds the Arrow schema: structs,
 lists and maps from the groups and their annotations, leaves from the Parquet types. What is lost is
 how wide a list's or a string's offsets were, the null type, and names that Parquet fixes.
 */
module SchemaReadback {
  import opened Bits
  import opened Arrow
  import opened WidthFormat
  import opened Schema
  import opened Footer

  // ---- the reader's side ----------------------------------------------------------------------

  /** The Arrow format of a Parquet leaf type. */
  function FormatOf(physical: PhysicalType, typeLength: Option<nat>, converted: Option<ConvertedType>): Option<string> {
    match physical
    case BOOLEAN => if converted == None then Some("b") else None
    case INT32 =>
      (match converted
       case None => Some("i")
       case Some(INT_8) => Some("c")
       case Some(UINT_8) => Some("C")
       case Some(INT_16) => Some("s")
       case Some(UINT_16) => Some("S")
       case Some(UINT_32) => Some("I")
       case Some(_) => None)
    case INT64 => if converted == None then Some("l") else if converted == Some(UINT_64) then Some("L") else None
    case FLOAT => if converted == None then Some("f") else None
    case DOUBLE => if converted == None then Some("g") else None
    case BYTE_ARRAY => if converted == None then Some("z") else if converted == Some(UTF8) then Some("u") else None
    case FIXED_LEN_BYTE_ARRAY => if typeLength.Some? && converted == None then Some("w:" + Decimal(typeLength.value)) else None
  }

  /** A group is a list, a map or a struct by its annotation; a list or map whose repeated group has another form is refused. */
  function ReadNode(t: Tree): Option<ArrowSchema>
    decreases t
  {
    var e := t.element;
    if e.repetition == REPEATED then None
    else if e.numChildren == None then ReadLeaf(e)
    else if e.converted == Some(LIST) then
      if !OneRepeated(t, "list", 1) then None else
      match ReadNodes(t.children[0].children)
      case None => None
      case Some(below) => Some(ArrowSchema("+l", e.name, e.repetition == OPTIONAL, below))
    else if e.converted == Some(MAP) then
      if !OneRepeated(t, "key_value", 2) then None else
      match ReadNodes(t.children[0].children)
      case None => None
      case Some(sides) => Some(ArrowSchema("+m", e.name, e.repetition == OPTIONAL, [ArrowSchema("+s", "key_value", false, sides)]))
    else if e.converted != None then None
    else
      match ReadNodes(t.children)
      case None => None
      case Some(fields) => Some(ArrowSchema("+s", e.name, e.repetition == OPTIONAL, fields))
  }

  function ReadLeaf(e: SchemaElement): Option<ArrowSchema> {
    if e.physical == None then None else
    match FormatOf(e.physical.value, e.typeLength, e.converted)
    case None => None
    case Some(format) => Some(ArrowSchema(format, e.name, e.repetition == OPTIONAL, []))
  }

  /** The tree has a single child, a plain repeated group of that name and with that many children. */
  predicate OneRepeated(t: Tree, name: string, n: nat) {
    |t.children| == 1 &&
    var inner := t.children[0];
    && inner.element.repetition == REPEATED && inner.element.name == name
    && inner.element.numChildren == Some(n) && inner.element.converted == None && |inner.children| == n
  }

  function ReadNodes(ts: seq<Tree>): Option<seq<ArrowSchema>>
    decreases ts
  {
    if ts == [] then Some([]) else
    match ReadNode(ts[0])
    case None => None
    case Some(first) =>
      match ReadNodes(ts[1..])
      case None => None
      case Some(rest) => Some([first] + rest)
  }

  // ---- what is kept ---------------------------------------------------------------------------

  predicate WidthGiven(format: string) {
    |format| >= 2 && format[..2] == "w:" && Atoi(format[2..]) > 0
  }

  /** A leaf's format, without the width of its offsets; the null type is kept as integers that are all null. */
  function KeptFormat(format: string): string {
    if format == "n" then "i" else if format == "U" then "u" else if format == "Z" then "z"
    else if WidthGiven(format) then "w:" + Decimal(Atoi(format[2..]))
    else format
  }

  /** The field is nullable as its flags say, or because its type is. */
  predicate MayBeNull(c: ArrowSchema) { c.nullable || c.format == "n" }

  /** The schema as a file keeps it, under the name and the nullability that the field is written with. */
  function Kept(node: ArrowSchema, name: string, nullable: bool): ArrowSchema
    decreases node
  {
    if node.format == "+s" then
      ArrowSchema("+s", name, nullable,
        seq(|node.children|, i requires 0 <= i < |node.children| => Kept(node.children[i], node.children[i].name, MayBeNull(node.children[i]))))
    else if (node.format == "+l" || node.format == "+L") && |node.children| == 1 then
      ArrowSchema("+l", name, nullable, [Kept(node.children[0], "element", MayBeNull(node.children[0]))])
    else if node.format == "+m" && |node.children| == 1 && |node.children[0].children| == 2 then
      var key, value := node.children[0].children[0], node.children[0].children[1];
      ArrowSchema("+m", name, nullable, [ArrowSchema("+s", "key_value", false, [Kept(key, "key", false), Kept(value, "value", MayBeNull(value))])])
    else ArrowSchema(KeptFormat(node.format), name, nullable || node.format == "n", [])
  }

  function KeptFields(nodes: seq<ArrowSchema>, i: nat): (kept: seq<ArrowSchema>)
    requires i <= |nodes|
    ensures |kept| == |nodes| - i
    ensures forall k :: 0 <= k < |kept| ==> kept[k] == Kept(nodes[i + k], nodes[i + k].name, MayBeNull(nodes[i + k]))
    decreases |nodes| - i
  {
    if i == |nodes| then [] else [Kept(nodes[i], nodes[i].name, MayBeNull(nodes[i]))] + KeptFields(nodes, i + 1)
  }

  // ---- the elements give it back --------------------------------------------------------------

  /** Every supported leaf type reads back as its own format. */
  lemma {:induction false} FormatReadsBack(format: string, name: string, nullable: bool)
    requires MapFormat(format, name, nullable).Some?
    ensures var s := MapFormat(format, name, nullable).value; FormatOf(s.physical, TypeLength(s), s.converted) == Some(KeptFormat(format))
  {
  }

  /** The elements of a node, whatever follows them, are one tree, from which the node reads back. */
  ghost predicate TreeReads(nodes: seq<SchemaNode>, rest: seq<SchemaElement>, t: Tree, node: ArrowSchema) {
    ReadTree(ElementsOf(nodes) + rest) == Some((t, rest)) && ReadNode(t) == Some(node)
  }

  lemma {:induction false} NodeReadsBack(node: ArrowSchema, w: Where, rest: seq<SchemaElement>) returns (t: Tree)
    requires Flatten(node, w).Some?
    ensures TreeReads(Flatten(node, w).value.nodes, rest, t, Kept(node, w.name, w.optional))
    decreases node, |node.children| + 1, 0
  {
    if node.format == "+s" {
      t := StructReadsBack(node, w, rest);
    } else if node.format == "+l" || node.format == "+L" {
      t := ListReadsBack(node, w, rest);
    } else if node.format == "+m" {
      t := MapReadsBack(node, w, rest);
    } else {
      t := TypedLeafReadsBack(node, w, rest);
    }
  }

  lemma {:induction false} TypedLeafReadsBack(node: ArrowSchema, w: Where, rest: seq<SchemaElement>) returns (t: Tree)
    requires node.format != "+s" && node.format != "+l" && node.format != "+L" && node.format != "+m" && Flatten(node, w).Some?
    ensures TreeReads(Flatten(node, w).value.nodes, rest, t, Kept(node, w.name, w.optional))
  {
    var spec := MapFormat(node.format, w.name, w.optional).value;
    var field := Field(spec.name, spec.nullable, spec);
    t := Tree(ElementOf(field), []);
    var es := ElementsOf([field]) + rest;
    assert es[0] == ElementOf(field) && es[1..] == rest;
    MapFormatKeeps(node.format, w.name, w.optional);
    FormatReadsBack(node.format, w.name, w.optional);
  }

  lemma {:induction false} ReadNodesCons(t: Tree, ts: seq<Tree>, node: ArrowSchema, nodes: seq<ArrowSchema>)
    requires ReadNode(t) == Some(node) && ReadNodes(ts) == Some(nodes)
    ensures ReadNodes([t] + ts) == Some([node] + nodes)
  {
    assert ([t] + ts)[0] == t && ([t] + ts)[1..] == ts;
  }

  ghost predicate FieldKept(node: ArrowSchema, i: nat, w: Where, rest: seq<SchemaElement>, t: Tree)
    requires i < |node.children|
  {
    var c := node.children[i];
    match Flatten(c, w.Child(i, c))
    case None => true
    case Some(flat) => TreeReads(flat.nodes, rest, t, Kept(c, c.name, MayBeNull(c)))
  }

  /** The last `n` fields of a struct, from the `i`-th on. */
  ghost predicate FieldsKept(node: ArrowSchema, i: nat, n: nat, w: Where, rest: seq<SchemaElement>, ts: seq<Tree>)
    requires i + n == |node.children|
  {
    match FlattenFields(node, i, w)
    case None => true
    case Some(flat) => ForestReadsBack(n, flat.nodes, rest, ts, KeptFields(node.children, i))
  }

  lemma {:induction false} FieldsReadBack(node: ArrowSchema, i: nat, n: nat, w: Where, rest: seq<SchemaElement>) returns (ts: seq<Tree>)
    requires i + n == |node.children|
    ensures FieldsKept(node, i, n, w, rest, ts)
    decreases node, n, 0
  {
    if n == 0 {
      ts := [];
      assert ElementsOf([]) + rest == rest;
    } else {
      var t := FieldReadsBack(node, i, w, AfterField(node, i, w, rest));
      ts := FieldsReadBack(node, i + 1, n - 1, w, rest);
      ts := FieldsKeptStep(node, i, n, w, rest, t, ts);
    }
  }

  lemma {:induction false} FieldReadsBack(node: ArrowSchema, i: nat, w: Where, rest: seq<SchemaElement>) returns (t: Tree)
    requires i < |node.children|
    ensures FieldKept(node, i, w, rest, t)
    decreases node, |node.children| - i - 1, 1
  {
    var c := node.children[i];
    if Flatten(c, w.Child(i, c)).Some? { t := NodeReadsBack(c, w.Child(i, c), rest); } else { t := *; }
  }

  lemma {:induction false} FieldsKeptStep(node: ArrowSchema, i: nat, n: nat, w: Where, rest: seq<SchemaElement>, t: Tree, ts: seq<Tree>)
    returns (ts': seq<Tree>)
    requires n > 0 && i + n == |node.children| && FieldKept(node, i, w, AfterField(node, i, w, rest), t) && FieldsKept(node, i + 1, n - 1, w, rest, ts)
    ensures FieldsKept(node, i, n, w, rest, ts')
  {
    ts' := [];
    if FlattenFields(node, i, w).Some? {
      var c := node.children[i];
      var first, others := FirstField(node, i, w, FlattenFields(node, i, w).value);
      ts' := OneMoreTree(n, first.nodes, others.nodes, rest, t, ts, Kept(c, c.name, MayBeNull(c)), KeptFields(node.children, i + 1));
    }
  }

  ghost predicate ForestReadsBack(n: nat, nodes: seq<SchemaNode>, rest: seq<SchemaElement>, ts: seq<Tree>, kept: seq<ArrowSchema>) {
    |ts| == n && ReadForest(n, ElementsOf(nodes) + rest) == Some((ts, rest)) && ReadNodes(ts) == Some(kept)
  }

  lemma {:induction false} OneMoreTree(n: nat, a: seq<SchemaNode>, b: seq<SchemaNode>, rest: seq<SchemaElement>, t: Tree, ts: seq<Tree>,
      node: ArrowSchema, nodes: seq<ArrowSchema>) returns (ts': seq<Tree>)
    requires n > 0 && TreeReads(a, ElementsOf(b) + rest, t, node) && ForestReadsBack(n - 1, b, rest, ts, nodes)
    ensures ForestReadsBack(n, a + b, rest, ts', [node] + nodes)
  {
    ForestReads(n - 1, a, b, rest, t, ts);
    ReadNodesCons(t, ts, node, nodes);
    ts' := [t] + ts;
  }

  lemma {:induction false} StructReadsBack(node: ArrowSchema, w: Where, rest: seq<SchemaElement>) returns (t: Tree)
    requires node.format == "+s" && Flatten(node, w).Some?
    ensures TreeReads(Flatten(node, w).value.nodes, rest, t, Kept(node, w.name, w.optional))
    decreases node, |node.children|, 1
  {
    var group := Group(w.name, w.optional, false, |node.children|, Plain);
    var ts := FieldsReadBack(node, 0, |node.children|, w, rest);
    t := StructTree(group, FlattenFields(node, 0, w).value.nodes, rest, ts, KeptFields(node.children, 0));
    KeptStruct(node, w.name, w.optional);
  }

  lemma {:induction false} StructTree(group: SchemaNode, nodes: seq<SchemaNode>, rest: seq<SchemaElement>, ts: seq<Tree>, kept: seq<ArrowSchema>)
    returns (t: Tree)
    requires group.Group? && !group.repeated && group.annotation.Plain? && ForestReadsBack(group.numChildren, nodes, rest, ts, kept)
    ensures TreeReads([group] + nodes, rest, t, ArrowSchema("+s", group.name, group.optional, kept))
  {
    GroupReads(group, nodes, rest, ts);
    t := Tree(ElementOf(group), ts);
  }

  lemma {:induction false} KeptStruct(node: ArrowSchema, name: string, nullable: bool)
    requires node.format == "+s"
    ensures Kept(node, name, nullable) == ArrowSchema("+s", name, nullable, KeptFields(node.children, 0))
  {
    assert Kept(node, name, nullable).children == KeptFields(node.children, 0);
  }

  /** A group with one repeated group inside it. */
  lemma {:induction false} RepeatedReadsBack(outer: SchemaNode, inner: SchemaNode, n: nat, below: seq<SchemaNode>, rest: seq<SchemaElement>, ts: seq<Tree>,
      kept: seq<ArrowSchema>) returns (t: Tree)
    requires outer.Group? && outer.numChildren == 1 && !outer.repeated
    requires inner.Group? && inner.repeated && inner.numChildren == n && inner.annotation.Plain?
    requires ForestReadsBack(n, below, rest, ts, kept)
    ensures ReadTree(ElementsOf([outer, inner] + below) + rest) == Some((t, rest))
    ensures t.element == ElementOf(outer) && OneRepeated(t, inner.name, n) && t.children[0].children == ts
  {
    var repeated := Tree(ElementOf(inner), ts);
    GroupReads(inner, below, rest, ts);
    OneForest(ElementsOf([inner] + below) + rest, repeated, rest);
    GroupReads(outer, [inner] + below, rest, [repeated]);
    t := Tree(ElementOf(outer), [repeated]);
    assert [outer] + ([inner] + below) == [outer, inner] + below;
  }

  lemma {:induction false} ListReadsBack(node: ArrowSchema, w: Where, rest: seq<SchemaElement>) returns (t: Tree)
    requires (node.format == "+l" || node.format == "+L") && Flatten(node, w).Some?
    ensures TreeReads(Flatten(node, w).value.nodes, rest, t, Kept(node, w.name, w.optional))
    decreases node, |node.children|, 1
  {
    var c, large := node.children[0], node.format == "+L";
    var below := Flatten(c, w.Element(c, large)).value.nodes;
    var outer, inner := Group(w.name, w.optional, false, 1, ListGroup), Group("list", false, true, 1, Plain);
    var e := NodeReadsBack(c, w.Element(c, large), rest);
    var kept := Kept(c, "element", MayBeNull(c));
    OneForest(ElementsOf(below) + rest, e, rest);
    ReadNodesCons(e, [], kept, []);
    assert [e] + [] == [e] && [kept] + [] == [kept];
    t := RepeatedReadsBack(outer, inner, 1, below, rest, [e], [kept]);
  }

  lemma {:induction false} MapReadsBack(node: ArrowSchema, w: Where, rest: seq<SchemaElement>) returns (t: Tree)
    requires node.format == "+m" && Flatten(node, w).Some?
    ensures TreeReads(Flatten(node, w).value.nodes, rest, t, Kept(node, w.name, w.optional))
    decreases node, |node.children|, 1
  {
    var k, v, key, value := FlattenedMap(node, w);
    var t0 := NodeReadsBack(k, w.KeyValue(0, k), ElementsOf(value) + rest);
    var t1 := NodeReadsBack(v, w.KeyValue(1, v), rest);
    var ts := SidesReadBack(key, value, rest, t0, t1, Kept(k, "key", false), Kept(v, "value", MayBeNull(v)));
    t := MapTree(Group(w.name, w.optional, false, 1, MapGroup), Group("key_value", false, true, 2, Plain), key + value, rest, ts,
      [Kept(k, "key", false), Kept(v, "value", MayBeNull(v))]);
  }

  lemma {:induction false} FlattenedMap(node: ArrowSchema, w: Where) returns (k: ArrowSchema, v: ArrowSchema, key: seq<SchemaNode>, value: seq<SchemaNode>)
    requires node.format == "+m" && Flatten(node, w).Some?
    ensures |node.children| == 1 && node.children[0].children == [k, v] && k < node && v < node
    ensures Flatten(k, w.KeyValue(0, k)).Some? && Flatten(k, w.KeyValue(0, k)).value.nodes == key
    ensures Flatten(v, w.KeyValue(1, v)).Some? && Flatten(v, w.KeyValue(1, v)).value.nodes == value
    ensures Flatten(node, w).value.nodes
      == [Group(w.name, w.optional, false, 1, MapGroup), Group("key_value", false, true, 2, Plain)] + (key + value)
  {
    k, v := node.children[0].children[0], node.children[0].children[1];
    key, value := Flatten(k, w.KeyValue(0, k)).value.nodes, Flatten(v, w.KeyValue(1, v)).value.nodes;
    assert node.children[0].children == [k, v];
    assert node.children[0] < node;
  }

  lemma {:induction false} MapTree(outer: SchemaNode, inner: SchemaNode, below: seq<SchemaNode>, rest: seq<SchemaElement>, ts: seq<Tree>,
      sides: seq<ArrowSchema>) returns (t: Tree)
    requires outer.Group? && outer.numChildren == 1 && !outer.repeated && outer.annotation.MapGroup?
    requires inner == Group("key_value", false, true, 2, Plain) && ForestReadsBack(2, below, rest, ts, sides)
    ensures TreeReads([outer, inner] + below, rest, t, ArrowSchema("+m", outer.name, outer.optional, [ArrowSchema("+s", "key_value", false, sides)]))
  {
    t := RepeatedReadsBack(outer, inner, 2, below, rest, ts, sides);
  }

  lemma {:induction false} SidesReadBack(a: seq<SchemaNode>, b: seq<SchemaNode>, rest: seq<SchemaElement>, t0: Tree, t1: Tree,
      key: ArrowSchema, value: ArrowSchema) returns (ts: seq<Tree>)
    requires TreeReads(a, ElementsOf(b) + rest, t0, key) && TreeReads(b, rest, t1, value)
    ensures ForestReadsBack(2, a + b, rest, ts, [key, value])
  {
    OneForest(ElementsOf(b) + rest, t1, rest);
    ReadNodesCons(t1, [], value, []);
    assert [t1] + [] == [t1] && [value] + [] == [value];
    ts := OneMoreTree(2, a, b, rest, t0, [t1], key, [value]);
    assert [key] + [value] == [key, value];
  }

  // ---- the whole schema -----------------------------------------------------------------------

  lemma {:induction false} TopReadsBack(schema: ArrowSchema, i: nat, n: nat) returns (ts: seq<Tree>)
    requires i + n == |schema.children| && FlattenTop(schema, i).Some?
    ensures ForestReadsBack(n, FlattenTop(schema, i).value.nodes, [], ts, KeptFields(schema.children, i))
    decreases n
  {
    if n == 0 {
      ts := [];
    } else {
      var c := schema.children[i];
      var first, others := FirstColumn(schema, i, FlattenTop(schema, i).value);
      var t := NodeReadsBack(c, TopLevel(i, c), ElementsOf(others.nodes) + []);
      ts := TopReadsBack(schema, i + 1, n - 1);
      ts := OneMoreTree(n, first.nodes, others.nodes, [], t, ts, Kept(c, c.name, MayBeNull(c)), KeptFields(schema.children, i + 1));
    }
  }

  /** The footer's elements give back the schema that locked the writer, as far as Parquet can tell. */
  lemma {:induction false} SchemaReadsBack(schema: ArrowSchema) returns (ts: seq<Tree>)
    requires FlattenTop(schema, 0).Some?
    ensures ReadForest(|schema.children|, ElementsOf(FlattenTop(schema, 0).value.nodes)) == Some((ts, []))
    ensures ReadNodes(ts) == Some(KeptFields(schema.children, 0))
  {
    ts := TopReadsBack(schema, 0, |schema.children|);
    var es := ElementsOf(FlattenTop(schema, 0).value.nodes);
    assert es + [] == es;
  }

  // ---- which schemas are supported ------------------------------------------------------------

  predicate LeafSupported(format: string) {
    format in ["n", "b", "c", "C", "s", "S", "i", "I", "l", "L", "f", "g", "u", "U", "z", "Z"] || WidthGiven(format)
  }

  /** Supported leaves, in structs, in lists of one child, and in maps of a struct of two. */
  predicate Supported(node: ArrowSchema)
    decreases node
  {
    if node.format == "+s" then forall k :: 0 <= k < |node.children| ==> Supported(node.children[k])
    else if node.format == "+l" || node.format == "+L" then |node.children| == 1 && Supported(node.children[0])
    else if node.format == "+m" then
      |node.children| == 1 && node.children[0].format == "+s" && |node.children[0].children| == 2
      && Supported(node.children[0].children[0]) && Supported(node.children[0].children[1])
    else LeafSupported(node.format)
  }

  ghost predicate AllSupported(nodes: seq<ArrowSchema>, i: nat) {
    forall k :: i <= k < |nodes| ==> Supported(nodes[k])
  }

  lemma {:induction false} AllSupportedStep(nodes: seq<ArrowSchema>, i: nat)
    requires i < |nodes|
    ensures AllSupported(nodes, i) <==> Supported(nodes[i]) && AllSupported(nodes, i + 1)
  {
  }

  lemma {:induction false} LeafMapsIff(format: string, name: string, nullable: bool)
    ensures MapFormat(format, name, nullable).Some? <==> LeafSupported(format)
  {
  }

  /** Flattening refuses exactly the schemas that are not supported. */
  lemma {:induction false} FlattensIff(node: ArrowSchema, w: Where)
    ensures Flatten(node, w).Some? <==> Supported(node)
    decreases node, |node.children| + 1
  {
    if node.format == "+s" {
      FieldsFlattenIff(node, 0, w);
    } else if node.format == "+l" || node.format == "+L" {
      if |node.children| == 1 { FlattensIff(node.children[0], w.Element(node.children[0], node.format == "+L")); }
    } else if node.format == "+m" {
      if |node.children| == 1 && |node.children[0].children| == 2 {
        var entries := node.children[0];
        FlattensIff(entries.children[0], w.KeyValue(0, entries.children[0]));
        FlattensIff(entries.children[1], w.KeyValue(1, entries.children[1]));
      }
    } else {
      LeafMapsIff(node.format, w.name, w.optional);
    }
  }

  lemma {:induction false} FieldsFlattenIff(node: ArrowSchema, i: nat, w: Where)
    requires i <= |node.children|
    ensures FlattenFields(node, i, w).Some? <==> AllSupported(node.children, i)
    decreases node, |node.children| - i
  {
    if i < |node.children| {
      FlattensIff(node.children[i], w.Child(i, node.children[i]));
      FieldsFlattenIff(node, i + 1, w);
      AllSupportedStep(node.children, i);
    }
  }

  lemma {:induction false} TopFlattensIff(schema: ArrowSchema, i: nat)
    requires i <= |schema.children|
    ensures FlattenTop(schema, i).Some? <==> AllSupported(schema.children, i)
    decreases |schema.children| - i
  {
    if i < |schema.children| {
      FlattensIff(schema.children[i], TopLevel(i, schema.children[i]));
      TopFlattensIff(schema, i + 1);
      AllSupportedStep(schema.children, i);
    }
  }
}
