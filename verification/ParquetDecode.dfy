/** `_arrow_value`: from native values to plain ones, on counters shared by the whole preview. */
module ParquetDecode {
  import opened Wrappers
  import opened Bytes
  import opened Utf8
  import opened PreviewLimits
  import opened PreviewText

  /** A native scalar; a map is the list of its entries. */
  datatype Scalar =
    | Invalid
    | StructOf(fields: seq<Member>)
    | ListOf(items: seq<Scalar>)
    | StringOf(data: Bytes)
    | BinaryOf(data: Bytes)
    | PlainOf(text: Text)

  datatype Member = Member(name: Text, value: Scalar)

  datatype Value =
    | Null
    | Text(text: Text)
    | Plain(text: Text)
    | Dict(entries: map<Text, Value>)
    | List(items: seq<Value>)

  /** What one conversion gives, with the node and character counters after it. */
  datatype Out = Out(value: Value, cut: bool, nodes: int, chars: int)

  function Min(a: int, b: int): int {
    if a < b then a else b
  }

  predicate Spent(nodes: int, chars: int) {
    chars <= 0 || nodes >= MAX_NODES
  }

  /** How much of a buffer is looked at. */
  function Captured(data: Bytes, chars: int): Bytes {
    data[..Min(|data|, 4 * if chars < 0 then 0 else chars)]
  }

  function Clipped(t: Text): Text {
    t[..Min(|t|, MAX_CELL_CHARS)]
  }

  function FirstBytes(data: Bytes): Bytes {
    data[..Min(|data|, MAX_CELL_CHARS)]
  }

  /** A buffer shown as text: cut when not all of it was captured or shown. */
  function Buffer(data: Bytes, shown: Text, nodes: int, chars: int): Out {
    Out(Text(Clipped(shown)), |data| > |Captured(data, chars)| || |shown| > MAX_CELL_CHARS, nodes, chars - |shown|)
  }

  /** `_arrow_value`; `lossy` is UTF-8 decoding with replacement characters. */
  function Convert(s: Scalar, depth: nat, nodes: int, chars: int, lossy: Bytes -> Text): Out
    decreases MAX_NESTING + 1 - depth, 0
  {
    if nodes >= MAX_NODES || depth > MAX_NESTING || chars <= 0 then Out(Text(SUFFIX), true, nodes, chars)
    else match s
      case Invalid => Out(Null, false, nodes + 1, chars)
      case StructOf(fields) => ConvertFields(fields, map[], false, depth, nodes + 1, chars, lossy)
      case ListOf(items) => ConvertItems(items, [], false, depth, nodes + 1, chars, lossy)
      case StringOf(data) => Buffer(data, lossy(Captured(data, chars)), nodes + 1, chars)
      case BinaryOf(data) => Buffer(data, Hex(FirstBytes(Captured(data, chars))), nodes + 1, chars)
      case PlainOf(text) => Out(Plain(text), false, nodes + 1, chars - |text|)
  }

  function Label(m: Member): Text {
    Shown(m.name, MAX_CELL_CHARS)
  }

  function NameCost(m: Member): int {
    Min(|m.name|, MAX_CELL_CHARS)
  }

  function ConvertFields(
    fields: seq<Member>, done: map<Text, Value>, cut: bool, depth: nat, nodes: int, chars: int,
      lossy: Bytes -> Text): Out
    requires depth <= MAX_NESTING
    decreases MAX_NESTING - depth, |fields| + 1
  {
    if fields == [] then Out(Dict(done), cut, nodes, chars)
    else if Spent(nodes, chars) then Out(Dict(done), true, nodes, chars)
    else
      var o := Convert(fields[0].value, depth + 1, nodes, chars - NameCost(fields[0]), lossy);
      ConvertFields(fields[1..], done[Label(fields[0]) := o.value], cut || o.cut, depth, o.nodes, o.chars, lossy)
  }

  function ConvertItems(
    items: seq<Scalar>, done: seq<Value>, cut: bool, depth: nat, nodes: int, chars: int, lossy: Bytes -> Text): Out
    requires depth <= MAX_NESTING
    decreases MAX_NESTING - depth, |items| + 1
  {
    if items == [] then Out(List(done), cut, nodes, chars)
    else if Spent(nodes, chars) then Out(List(done), true, nodes, chars)
    else
      var o := Convert(items[0], depth + 1, nodes, chars, lossy);
      ConvertItems(items[1..], done + [o.value], cut || o.cut, depth, o.nodes, o.chars, lossy)
  }

  lemma FieldsStep(
    fields: seq<Member>, done: map<Text, Value>, cut: bool, depth: nat, nodes: int, chars: int, lossy: Bytes -> Text)
    requires depth <= MAX_NESTING && fields != [] && !Spent(nodes, chars)
    ensures var o := Convert(fields[0].value, depth + 1, nodes, chars - NameCost(fields[0]), lossy);
            ConvertFields(fields, done, cut, depth, nodes, chars, lossy) ==
            ConvertFields(fields[1..], done[Label(fields[0]) := o.value], cut || o.cut, depth, o.nodes, o.chars, lossy)
  {
  }

  /** The `state` list: nodes expanded in the whole preview, characters left for the present cell. */
  class Meter {
    var nodes: int
    var chars: int

    constructor ()
      ensures nodes == 0 && chars == MAX_CELL_CHARS
    {
      nodes, chars := 0, MAX_CELL_CHARS;
    }

    method ArrowValue(s: Scalar, depth: nat, lossy: Bytes -> Text) returns (value: Value, cut: bool)
      modifies this
      ensures Out(value, cut, nodes, chars) == Convert(s, depth, old(nodes), old(chars), lossy)
      decreases MAX_NESTING + 1 - depth, 0
    {
      if nodes >= MAX_NODES || depth > MAX_NESTING || chars <= 0 { return Text(SUFFIX), true; }
      nodes := nodes + 1;
      match s
      case Invalid => return Null, false;
      case StructOf(fields) => value, cut := StructValue(fields, depth, lossy);
      case ListOf(items) => value, cut := ListValue(items, depth, lossy);
      case StringOf(data) =>
        var captured := Captured(data, chars);
        var text := lossy(captured);
        chars := chars - |text|;
        return Text(Clipped(text)), |data| > |captured| || |text| > MAX_CELL_CHARS;
      case BinaryOf(data) =>
        var captured := Captured(data, chars);
        var text := Hex(FirstBytes(captured));
        chars := chars - |text|;
        return Text(Clipped(text)), |data| > |captured| || |text| > MAX_CELL_CHARS;
      case PlainOf(text) =>
        chars := chars - |text|;
        return Plain(text), false;
    }

    method StructValue(fields: seq<Member>, depth: nat, lossy: Bytes -> Text) returns (value: Value, cut: bool)
      requires depth <= MAX_NESTING
      modifies this
      ensures Out(value, cut, nodes, chars) == ConvertFields(fields, map[], false, depth, old(nodes), old(chars), lossy)
      decreases MAX_NESTING - depth, |fields| + 1
    {
      ghost var goal := ConvertFields(fields, map[], false, depth, nodes, chars, lossy);
      var done: map<Text, Value> := map[];
      cut := false;
      assert fields[0..] == fields;
      for i := 0 to |fields|
        invariant ConvertFields(fields[i..], done, cut, depth, nodes, chars, lossy) == goal
      {
        if Spent(nodes, chars) { return Dict(done), true; }
        FieldsStep(fields[i..], done, cut, depth, nodes, chars, lossy);
        assert fields[i..][1..] == fields[i + 1..];
        chars := chars - NameCost(fields[i]);
        var item, itemCut := ArrowValue(fields[i].value, depth + 1, lossy);
        done := done[Label(fields[i]) := item];
        cut := cut || itemCut;
      }
      value := Dict(done);
    }

    method ListValue(items: seq<Scalar>, depth: nat, lossy: Bytes -> Text) returns (value: Value, cut: bool)
      requires depth <= MAX_NESTING
      modifies this
      ensures Out(value, cut, nodes, chars) == ConvertItems(items, [], false, depth, old(nodes), old(chars), lossy)
      decreases MAX_NESTING - depth, |items| + 1
    {
      ghost var goal := ConvertItems(items, [], false, depth, nodes, chars, lossy);
      var done: seq<Value> := [];
      cut := false;
      assert items[0..] == items;
      for i := 0 to |items|
        invariant ConvertItems(items[i..], done, cut, depth, nodes, chars, lossy) == goal
      {
        if Spent(nodes, chars) { return List(done), true; }
        var item, itemCut := ArrowValue(items[i], depth + 1, lossy);
        done := done + [item];
        cut := cut || itemCut;
        assert items[i..][1..] == items[i + 1..];
      }
      value := List(done);
    }
  }

  // ------------------------------------------------------------ what it promises

  /** What conversion gives with no budget at all: fields still go under their labels. */
  function Full(s: Scalar, lossy: Bytes -> Text): Value
    decreases s
  {
    match s
    case Invalid => Null
    case StructOf(fields) => Dict(FullFields(fields, map[], lossy))
    case ListOf(items) => List(FullItems(items, lossy))
    case StringOf(data) => Text(lossy(data))
    case BinaryOf(data) => Text(Hex(data))
    case PlainOf(text) => Plain(text)
  }

  function FullFields(fields: seq<Member>, done: map<Text, Value>, lossy: Bytes -> Text): map<Text, Value>
    decreases fields
  {
    if fields == [] then done
    else FullFields(fields[1..], done[Label(fields[0]) := Full(fields[0].value, lossy)], lossy)
  }

  function FullItems(items: seq<Scalar>, lossy: Bytes -> Text): seq<Value>
    decreases items
  {
    if items == [] then [] else [Full(items[0], lossy)] + FullItems(items[1..], lossy)
  }

  /**
   What is not marked as cut is what conversion without a budget gives, and the node
   counter grows but never past the limit: no more scalars than that are expanded in
   a preview.
   */
  lemma {:induction false} ConvertIsHonest(s: Scalar, depth: nat, nodes: int, chars: int, lossy: Bytes -> Text)
    ensures var o := Convert(s, depth, nodes, chars, lossy);
            && (!o.cut ==> o.value == Full(s, lossy))
            && nodes <= o.nodes && (nodes <= MAX_NODES ==> o.nodes <= MAX_NODES)
    decreases MAX_NESTING + 1 - depth, 0
  {
    if !(nodes >= MAX_NODES || depth > MAX_NESTING || chars <= 0) {
      match s
      case Invalid =>
      case StructOf(fields) => FieldsAreHonest(fields, map[], false, depth, nodes + 1, chars, lossy);
      case ListOf(items) => ItemsAreHonest(items, [], false, depth, nodes + 1, chars, lossy);
      case StringOf(data) => WholeBuffer(data, chars);
      case BinaryOf(data) => WholeBuffer(data, chars);
      case PlainOf(text) =>
    }
  }

  lemma WholeBuffer(data: Bytes, chars: int)
    ensures |Captured(data, chars)| == |data| ==> Captured(data, chars) == data
    ensures |Hex(FirstBytes(data))| <= MAX_CELL_CHARS ==> FirstBytes(data) == data
    ensures forall t: Text :: |t| <= MAX_CELL_CHARS ==> Clipped(t) == t
  {
  }

  lemma {:induction false} FieldsAreHonest(
    fields: seq<Member>, done: map<Text, Value>, cut: bool, depth: nat, nodes: int, chars: int, lossy: Bytes -> Text)
    requires depth <= MAX_NESTING
    ensures var o := ConvertFields(fields, done, cut, depth, nodes, chars, lossy);
            && (!o.cut ==> !cut && o.value == Dict(FullFields(fields, done, lossy)))
            && nodes <= o.nodes && (nodes <= MAX_NODES ==> o.nodes <= MAX_NODES)
    decreases MAX_NESTING - depth, |fields| + 1
  {
    if fields != [] && !Spent(nodes, chars) {
      ConvertIsHonest(fields[0].value, depth + 1, nodes, chars - NameCost(fields[0]), lossy);
      var o := Convert(fields[0].value, depth + 1, nodes, chars - NameCost(fields[0]), lossy);
      FieldsAreHonest(fields[1..], done[Label(fields[0]) := o.value], cut || o.cut, depth, o.nodes, o.chars, lossy);
    }
  }

  lemma {:induction false} ItemsAreHonest(
    items: seq<Scalar>, done: seq<Value>, cut: bool, depth: nat, nodes: int, chars: int, lossy: Bytes -> Text)
    requires depth <= MAX_NESTING
    ensures var o := ConvertItems(items, done, cut, depth, nodes, chars, lossy);
            && (!o.cut ==> !cut && o.value == List(done + FullItems(items, lossy)))
            && nodes <= o.nodes && (nodes <= MAX_NODES ==> o.nodes <= MAX_NODES)
    decreases MAX_NESTING - depth, |items| + 1
  {
    if items == [] {
      assert done + [] == done;
    } else if !Spent(nodes, chars) {
      ConvertIsHonest(items[0], depth + 1, nodes, chars, lossy);
      var o := Convert(items[0], depth + 1, nodes, chars, lossy);
      ItemsAreHonest(items[1..], done + [o.value], cut || o.cut, depth, o.nodes, o.chars, lossy);
      assert done + [o.value] + FullItems(items[1..], lossy) == done + ([o.value] + FullItems(items[1..], lossy));
    }
  }
}
