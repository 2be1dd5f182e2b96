/**
 When a conversion is not cut: the scalars, levels and characters of a native
 value, counted without converting it, against what is left on the counters.
 */
module ParquetFits {
  import opened Wrappers
  import opened Bytes
  import opened Utf8
  import opened PreviewLimits
  import opened PreviewText
  import opened ParquetDecode

  function Max(a: int, b: int): int {
    if a < b then b else a
  }

  // --------------------------------------------------------- counting a value

  /** The scalars in a value, itself included. */
  function NodesOf(s: Scalar): (n: nat)
    ensures n >= 1
    decreases s
  {
    match s
    case StructOf(fields) => 1 + NodesOfFields(fields)
    case ListOf(items) => 1 + NodesOfItems(items)
    case _ => 1
  }

  function NodesOfFields(fields: seq<Member>): nat
    decreases fields
  {
    if fields == [] then 0 else NodesOf(fields[0].value) + NodesOfFields(fields[1..])
  }

  function NodesOfItems(items: seq<Scalar>): nat
    decreases items
  {
    if items == [] then 0 else NodesOf(items[0]) + NodesOfItems(items[1..])
  }

  /** How deep a value nests. */
  function Levels(s: Scalar): nat
    decreases s
  {
    match s
    case StructOf(fields) => LevelsOfFields(fields)
    case ListOf(items) => LevelsOfItems(items)
    case _ => 0
  }

  function LevelsOfFields(fields: seq<Member>): nat
    decreases fields
  {
    if fields == [] then 0 else Max(1 + Levels(fields[0].value), LevelsOfFields(fields[1..]))
  }

  function LevelsOfItems(items: seq<Scalar>): nat
    decreases items
  {
    if items == [] then 0 else Max(1 + Levels(items[0]), LevelsOfItems(items[1..]))
  }

  /** The characters of a field's name that count. */
  function Counted(m: Member): nat {
    if |m.name| <= MAX_CELL_CHARS then |m.name| else MAX_CELL_CHARS
  }

  /** The characters a whole value takes. */
  function Uses(s: Scalar, lossy: Bytes -> Text): nat
    decreases s
  {
    match s
    case Invalid => 0
    case StructOf(fields) => UsesOfFields(fields, lossy)
    case ListOf(items) => UsesOfItems(items, lossy)
    case StringOf(data) => |lossy(data)|
    case BinaryOf(data) => 2 * |data|
    case PlainOf(text) => |text|
  }

  function UsesOfFields(fields: seq<Member>, lossy: Bytes -> Text): nat
    decreases fields
  {
    if fields == [] then 0 else Counted(fields[0]) + Uses(fields[0].value, lossy) + UsesOfFields(fields[1..], lossy)
  }

  function UsesOfItems(items: seq<Scalar>, lossy: Bytes -> Text): nat
    decreases items
  {
    if items == [] then 0 else Uses(items[0], lossy) + UsesOfItems(items[1..], lossy)
  }

  /**
   The least characters that must be left for a value to be shown whole: one to begin
   it and one for every four bytes of a buffer, on top of what comes before it.  A
   plain value may take more than is left.
   */
  function Need(s: Scalar, lossy: Bytes -> Text): (n: nat)
    ensures n >= 1
    decreases s
  {
    match s
    case StructOf(fields) => if fields == [] then 1 else NeedOfFields(fields, lossy)
    case ListOf(items) => if items == [] then 1 else NeedOfItems(items, lossy)
    case StringOf(data) => Max(1, (|data| + 3) / 4)
    case BinaryOf(data) => Max(1, (|data| + 3) / 4)
    case _ => 1
  }

  function NeedOfFields(fields: seq<Member>, lossy: Bytes -> Text): (n: nat)
    requires fields != []
    ensures n >= 1
    decreases fields
  {
    var first := Counted(fields[0]) + Need(fields[0].value, lossy);
    if |fields| == 1 then first
    else Max(first, Counted(fields[0]) + Uses(fields[0].value, lossy) + NeedOfFields(fields[1..], lossy))
  }

  function NeedOfItems(items: seq<Scalar>, lossy: Bytes -> Text): (n: nat)
    requires items != []
    ensures n >= 1
    decreases items
  {
    var first := Need(items[0], lossy);
    if |items| == 1 then first else Max(first, Uses(items[0], lossy) + NeedOfItems(items[1..], lossy))
  }

  /** No buffer in the value has more than a cell's characters as text, or half as many bytes to be shown in hex. */
  predicate Short(s: Scalar, lossy: Bytes -> Text)
    decreases s
  {
    match s
    case StructOf(fields) => forall i :: 0 <= i < |fields| ==> Short(fields[i].value, lossy)
    case ListOf(items) => forall i :: 0 <= i < |items| ==> Short(items[i], lossy)
    case StringOf(data) => |lossy(data)| <= MAX_CELL_CHARS
    case BinaryOf(data) => 2 * |data| <= MAX_CELL_CHARS
    case _ => true
  }

  // ------------------------------------------------------------- what is whole

  predicate Fits(s: Scalar, depth: nat, nodes: int, chars: int, lossy: Bytes -> Text) {
    && nodes + NodesOf(s) <= MAX_NODES && depth + Levels(s) <= MAX_NESTING && Need(s, lossy) <= chars
    && Short(s, lossy)
  }

  predicate FieldsFit(fields: seq<Member>, depth: nat, nodes: int, chars: int, lossy: Bytes -> Text) {
    fields != [] ==>
      && nodes + NodesOfFields(fields) <= MAX_NODES && depth + LevelsOfFields(fields) <= MAX_NESTING
      && NeedOfFields(fields, lossy) <= chars && Short(StructOf(fields), lossy)
  }

  predicate ItemsFit(items: seq<Scalar>, depth: nat, nodes: int, chars: int, lossy: Bytes -> Text) {
    items != [] ==>
      && nodes + NodesOfItems(items) <= MAX_NODES && depth + LevelsOfItems(items) <= MAX_NESTING
      && NeedOfItems(items, lossy) <= chars && Short(ListOf(items), lossy)
  }

  lemma ShortFields(fields: seq<Member>, lossy: Bytes -> Text)
    requires fields != []
    ensures Short(StructOf(fields), lossy) <==> Short(fields[0].value, lossy) && Short(StructOf(fields[1..]), lossy)
  {
    assert forall i :: 0 <= i < |fields| - 1 ==> fields[1..][i] == fields[i + 1];
    if Short(fields[0].value, lossy) && Short(StructOf(fields[1..]), lossy) {
      forall i | 0 <= i < |fields| ensures Short(fields[i].value, lossy) {
        if i > 0 { assert fields[1..][i - 1] == fields[i]; }
      }
    }
  }

  lemma ShortItems(items: seq<Scalar>, lossy: Bytes -> Text)
    requires items != []
    ensures Short(ListOf(items), lossy) <==> Short(items[0], lossy) && Short(ListOf(items[1..]), lossy)
  {
    assert forall i :: 0 <= i < |items| - 1 ==> items[1..][i] == items[i + 1];
    if Short(items[0], lossy) && Short(ListOf(items[1..]), lossy) {
      forall i | 0 <= i < |items| ensures Short(items[i], lossy) {
        if i > 0 { assert items[1..][i - 1] == items[i]; }
      }
    }
  }

  lemma FieldsFitNext(fields: seq<Member>, depth: nat, nodes: int, chars: int, lossy: Bytes -> Text)
    requires fields != []
    ensures var left := chars - Counted(fields[0]);
            FieldsFit(fields, depth, nodes, chars, lossy) <==>
              && Fits(fields[0].value, depth + 1, nodes, left, lossy)
              && FieldsFit(fields[1..], depth, nodes + NodesOf(fields[0].value),
                  left - Uses(fields[0].value, lossy), lossy)
  {
    ShortFields(fields, lossy);
    if |fields| == 1 {
      assert fields[1..] == [];
      assert NodesOfFields(fields) == NodesOf(fields[0].value) && LevelsOfFields(fields) == 1 + Levels(fields[0].value);
    }
  }

  lemma ItemsFitNext(items: seq<Scalar>, depth: nat, nodes: int, chars: int, lossy: Bytes -> Text)
    requires items != []
    ensures ItemsFit(items, depth, nodes, chars, lossy) <==>
      && Fits(items[0], depth + 1, nodes, chars, lossy)
      && ItemsFit(items[1..], depth, nodes + NodesOf(items[0]), chars - Uses(items[0], lossy), lossy)
  {
    ShortItems(items, lossy);
    if |items| == 1 {
      assert items[1..] == [];
      assert NodesOfItems(items) == NodesOf(items[0]) && LevelsOfItems(items) == 1 + Levels(items[0]);
    }
  }

  lemma StructFits(fields: seq<Member>, depth: nat, nodes: int, chars: int, lossy: Bytes -> Text)
    ensures Fits(StructOf(fields), depth, nodes, chars, lossy) <==>
      nodes < MAX_NODES && depth <= MAX_NESTING && chars > 0 && FieldsFit(fields, depth, nodes + 1, chars, lossy)
  {
    if fields == [] { assert NodesOfFields(fields) == 0 && LevelsOfFields(fields) == 0; }
  }

  lemma ListFits(items: seq<Scalar>, depth: nat, nodes: int, chars: int, lossy: Bytes -> Text)
    ensures Fits(ListOf(items), depth, nodes, chars, lossy) <==>
      nodes < MAX_NODES && depth <= MAX_NESTING && chars > 0 && ItemsFit(items, depth, nodes + 1, chars, lossy)
  {
    if items == [] { assert NodesOfItems(items) == 0 && LevelsOfItems(items) == 0; }
  }

  lemma BufferFits(s: Scalar, depth: nat, nodes: int, chars: int, lossy: Bytes -> Text)
    requires s.StringOf? || s.BinaryOf?
    ensures var o := Convert(s, depth, nodes, chars, lossy);
            && (!o.cut <==> Fits(s, depth, nodes, chars, lossy))
            && (!o.cut ==> o.nodes == nodes + 1 && o.chars == chars - Uses(s, lossy))
  {
    if chars > 0 {
      assert Captured(s.data, chars) == s.data <==> |s.data| <= 4 * chars;
    }
  }

  /** What converting a value gives, and the loop over its fields or items, whatever that began with. */
  ghost predicate ValueDone(o: Out, s: Scalar, depth: nat, nodes: int, chars: int, lossy: Bytes -> Text) {
    && (!o.cut <==> Fits(s, depth, nodes, chars, lossy))
    && (!o.cut ==> o.nodes == nodes + NodesOf(s) && o.chars == chars - Uses(s, lossy))
  }

  ghost predicate FieldsDone(o: Out, fields: seq<Member>, cut: bool, depth: nat, nodes: int, chars: int,
    lossy: Bytes -> Text)
  {
    && (!o.cut <==> !cut && FieldsFit(fields, depth, nodes, chars, lossy))
    && (!o.cut ==> o.nodes == nodes + NodesOfFields(fields) && o.chars == chars - UsesOfFields(fields, lossy))
  }

  ghost predicate ItemsDone(o: Out, items: seq<Scalar>, cut: bool, depth: nat, nodes: int, chars: int,
    lossy: Bytes -> Text)
  {
    && (!o.cut <==> !cut && ItemsFit(items, depth, nodes, chars, lossy))
    && (!o.cut ==> o.nodes == nodes + NodesOfItems(items) && o.chars == chars - UsesOfItems(items, lossy))
  }

  lemma StructDone(fields: seq<Member>, depth: nat, nodes: int, chars: int, lossy: Bytes -> Text)
    requires nodes < MAX_NODES && depth <= MAX_NESTING && chars > 0
    requires FieldsDone(ConvertFields(fields, map[], false, depth, nodes + 1, chars, lossy), fields, false, depth,
        nodes + 1, chars, lossy)
    ensures ValueDone(Convert(StructOf(fields), depth, nodes, chars, lossy), StructOf(fields), depth, nodes, chars,
        lossy)
  {
    StructFits(fields, depth, nodes, chars, lossy);
  }

  lemma ListDone(items: seq<Scalar>, depth: nat, nodes: int, chars: int, lossy: Bytes -> Text)
    requires nodes < MAX_NODES && depth <= MAX_NESTING && chars > 0
    requires ItemsDone(ConvertItems(items, [], false, depth, nodes + 1, chars, lossy), items, false, depth, nodes + 1,
        chars, lossy)
    ensures ValueDone(Convert(ListOf(items), depth, nodes, chars, lossy), ListOf(items), depth, nodes, chars, lossy)
  {
    ListFits(items, depth, nodes, chars, lossy);
  }

  lemma {:induction false} ConvertDone(s: Scalar, depth: nat, nodes: int, chars: int, lossy: Bytes -> Text)
    ensures ValueDone(Convert(s, depth, nodes, chars, lossy), s, depth, nodes, chars, lossy)
    decreases MAX_NESTING + 1 - depth, 0
  {
    if !(nodes >= MAX_NODES || depth > MAX_NESTING || chars <= 0) {
      match s
      case StructOf(fields) =>
        FieldsFitExactly(fields, map[], false, depth, nodes + 1, chars, lossy);
        StructDone(fields, depth, nodes, chars, lossy);
      case ListOf(items) =>
        ItemsFitExactly(items, [], false, depth, nodes + 1, chars, lossy);
        ListDone(items, depth, nodes, chars, lossy);
      case StringOf(_) => BufferFits(s, depth, nodes, chars, lossy);
      case BinaryOf(_) => BufferFits(s, depth, nodes, chars, lossy);
      case _ =>
    }
  }

  lemma FieldsDoneNext(first: Out, o: Out, fields: seq<Member>, cut: bool, depth: nat, nodes: int, chars: int,
    lossy: Bytes -> Text)
    requires fields != [] && FieldsDone(o, fields[1..], cut || first.cut, depth, first.nodes, first.chars, lossy)
    requires ValueDone(first, fields[0].value, depth + 1, nodes, chars - NameCost(fields[0]), lossy)
    ensures FieldsDone(o, fields, cut, depth, nodes, chars, lossy)
  {
    FieldsFitNext(fields, depth, nodes, chars, lossy);
  }

  lemma ItemsDoneNext(first: Out, o: Out, items: seq<Scalar>, cut: bool, depth: nat, nodes: int, chars: int,
    lossy: Bytes -> Text)
    requires items != [] && ItemsDone(o, items[1..], cut || first.cut, depth, first.nodes, first.chars, lossy)
    requires ValueDone(first, items[0], depth + 1, nodes, chars, lossy)
    ensures ItemsDone(o, items, cut, depth, nodes, chars, lossy)
  {
    ItemsFitNext(items, depth, nodes, chars, lossy);
  }

  /** With a counter spent, only an empty rest fits. */
  lemma SpentDone(fields: seq<Member>, items: seq<Scalar>, done: map<Text, Value>, before: seq<Value>, cut: bool,
    depth: nat, nodes: int, chars: int, lossy: Bytes -> Text)
    requires depth <= MAX_NESTING
    ensures fields == [] || Spent(nodes, chars) ==>
      FieldsDone(ConvertFields(fields, done, cut, depth, nodes, chars, lossy), fields, cut, depth, nodes, chars, lossy)
    ensures items == [] || Spent(nodes, chars) ==>
      ItemsDone(ConvertItems(items, before, cut, depth, nodes, chars, lossy), items, cut, depth, nodes, chars, lossy)
  {
    if fields != [] { FieldsFitNext(fields, depth, nodes, chars, lossy); }
    if items != [] { ItemsFitNext(items, depth, nodes, chars, lossy); }
  }

  /** What the first turn of a loop gives, and what it goes on with. */
  lemma FirstField(
    fields: seq<Member>, done: map<Text, Value>, cut: bool, depth: nat, nodes: int, chars: int, lossy: Bytes -> Text)
    returns (first: Out, more: map<Text, Value>)
    requires depth <= MAX_NESTING && fields != [] && !Spent(nodes, chars)
    ensures first == Convert(fields[0].value, depth + 1, nodes, chars - NameCost(fields[0]), lossy)
    ensures ConvertFields(fields, done, cut, depth, nodes, chars, lossy) ==
      ConvertFields(fields[1..], more, cut || first.cut, depth, first.nodes, first.chars, lossy)
  {
    first := Convert(fields[0].value, depth + 1, nodes, chars - NameCost(fields[0]), lossy);
    more := done[Label(fields[0]) := first.value];
    FieldsStep(fields, done, cut, depth, nodes, chars, lossy);
  }

  lemma FirstItem(
    items: seq<Scalar>, done: seq<Value>, cut: bool, depth: nat, nodes: int, chars: int, lossy: Bytes -> Text)
    returns (first: Out, more: seq<Value>)
    requires depth <= MAX_NESTING && items != [] && !Spent(nodes, chars)
    ensures first == Convert(items[0], depth + 1, nodes, chars, lossy)
    ensures ConvertItems(items, done, cut, depth, nodes, chars, lossy) ==
      ConvertItems(items[1..], more, cut || first.cut, depth, first.nodes, first.chars, lossy)
  {
    first := Convert(items[0], depth + 1, nodes, chars, lossy);
    more := done + [first.value];
  }

  lemma {:induction false} FieldsFitExactly(
    fields: seq<Member>, done: map<Text, Value>, cut: bool, depth: nat, nodes: int, chars: int, lossy: Bytes -> Text)
    requires depth <= MAX_NESTING
    ensures FieldsDone(ConvertFields(fields, done, cut, depth, nodes, chars, lossy), fields, cut, depth, nodes, chars,
        lossy)
    decreases MAX_NESTING - depth, |fields| + 1
  {
    if fields != [] && !Spent(nodes, chars) {
      var o, more := FirstField(fields, done, cut, depth, nodes, chars, lossy);
      ConvertDone(fields[0].value, depth + 1, nodes, chars - NameCost(fields[0]), lossy);
      FieldsFitExactly(fields[1..], more, cut || o.cut, depth, o.nodes, o.chars, lossy);
      FieldsDoneNext(o, ConvertFields(fields, done, cut, depth, nodes, chars, lossy), fields, cut, depth, nodes, chars,
        lossy);
    } else {
      SpentDone(fields, [], done, [], cut, depth, nodes, chars, lossy);
    }
  }

  lemma {:induction false} ItemsFitExactly(
    items: seq<Scalar>, done: seq<Value>, cut: bool, depth: nat, nodes: int, chars: int, lossy: Bytes -> Text)
    requires depth <= MAX_NESTING
    ensures ItemsDone(ConvertItems(items, done, cut, depth, nodes, chars, lossy), items, cut, depth, nodes, chars,
        lossy)
    decreases MAX_NESTING - depth, |items| + 1
  {
    if items != [] && !Spent(nodes, chars) {
      var o, more := FirstItem(items, done, cut, depth, nodes, chars, lossy);
      ConvertDone(items[0], depth + 1, nodes, chars, lossy);
      ItemsFitExactly(items[1..], more, cut || o.cut, depth, o.nodes, o.chars, lossy);
      ItemsDoneNext(o, ConvertItems(items, done, cut, depth, nodes, chars, lossy), items, cut, depth, nodes, chars,
        lossy);
    } else {
      SpentDone([], items, map[], done, cut, depth, nodes, chars, lossy);
    }
  }

  /**
   A value is converted whole if and only if its scalars, its levels, its characters
   and its buffers fit what is left; and the counters then go on by just those.
   */
  lemma ConvertFits(s: Scalar, depth: nat, nodes: int, chars: int, lossy: Bytes -> Text)
    ensures var o := Convert(s, depth, nodes, chars, lossy);
            && (!o.cut <==> Fits(s, depth, nodes, chars, lossy))
            && (!o.cut ==> o.nodes == nodes + NodesOf(s) && o.chars == chars - Uses(s, lossy))
  {
    ConvertDone(s, depth, nodes, chars, lossy);
  }

  /** So what fits is shown whole. */
  lemma FittingIsWhole(s: Scalar, depth: nat, nodes: int, chars: int, lossy: Bytes -> Text)
    requires Fits(s, depth, nodes, chars, lossy)
    ensures var o := Convert(s, depth, nodes, chars, lossy);
            !o.cut && o.value == Full(s, lossy) && o.nodes == nodes + NodesOf(s) && o.chars == chars - Uses(s, lossy)
  {
    ConvertFits(s, depth, nodes, chars, lossy);
    ConvertIsHonest(s, depth, nodes, chars, lossy);
  }

  // ---------------------------------------------------------------- what is cut

  /** A list is left off only where a counter is spent. */
  lemma {:induction false} ItemsStop(
    items: seq<Scalar>, done: seq<Value>, cut: bool, depth: nat, nodes: int, chars: int, lossy: Bytes -> Text)
    requires depth <= MAX_NESTING
    ensures var o := ConvertItems(items, done, cut, depth, nodes, chars, lossy);
            && o.value.List? && done <= o.value.items && |o.value.items| <= |done| + |items|
            && (|o.value.items| < |done| + |items| ==> o.cut && Spent(o.nodes, o.chars))
    decreases |items|
  {
    if items != [] && !Spent(nodes, chars) {
      var o := Convert(items[0], depth + 1, nodes, chars, lossy);
      ItemsStop(items[1..], done + [o.value], cut || o.cut, depth, o.nodes, o.chars, lossy);
    }
  }

  function Labels(fields: seq<Member>, k: nat): set<Text>
    requires k <= |fields|
  {
    set i | 0 <= i < k :: Label(fields[i])
  }

  /** And so is a struct; up to there every field has its label. */
  lemma {:induction false} FieldsStop(
    fields: seq<Member>, done: map<Text, Value>, cut: bool, depth: nat, nodes: int, chars: int, lossy: Bytes -> Text)
    returns (k: nat)
    requires depth <= MAX_NESTING
    ensures var o := ConvertFields(fields, done, cut, depth, nodes, chars, lossy);
            && k <= |fields| && o.value.Dict? && o.value.entries.Keys == done.Keys + Labels(fields, k)
            && (k < |fields| ==> o.cut && Spent(o.nodes, o.chars))
    decreases |fields|
  {
    if fields == [] || Spent(nodes, chars) {
      k := 0;
    } else {
      var o := Convert(fields[0].value, depth + 1, nodes, chars - NameCost(fields[0]), lossy);
      var rest := FieldsStop(fields[1..], done[Label(fields[0]) := o.value], cut || o.cut, depth, o.nodes, o.chars,
        lossy);
      k := rest + 1;
      LabelsNext(fields, rest);
    }
  }

  lemma LabelsNext(fields: seq<Member>, k: nat)
    requires k < |fields|
    ensures Labels(fields, k + 1) == {Label(fields[0])} + Labels(fields[1..], k)
  {
    assert forall i :: 0 <= i < k ==> fields[1..][i] == fields[i + 1];
    forall t | t in Labels(fields, k + 1) ensures t in {Label(fields[0])} + Labels(fields[1..], k) {
      var i :| 0 <= i < k + 1 && t == Label(fields[i]);
      if i > 0 { assert fields[1..][i - 1] == fields[i]; }
    }
  }

  /** Bytes that are too many are shown by as many as can be, from the first on. */
  lemma CutBinary(data: Bytes, depth: nat, nodes: int, chars: int, lossy: Bytes -> Text)
    requires nodes < MAX_NODES && depth <= MAX_NESTING && chars > 0
    ensures var o, seen := Convert(BinaryOf(data), depth, nodes, chars, lossy), Min(|data|, 4 * chars);
            o == Out(Text(Hex(data)[..Min(MAX_CELL_CHARS, 2 * seen)]), 2 * |data| > MAX_CELL_CHARS || seen < |data|,
              nodes + 1, chars - 2 * Min(MAX_CELL_CHARS, seen))
  {
    var m := Min(Min(|data|, 4 * chars), MAX_CELL_CHARS);
    assert FirstBytes(Captured(data, chars)) == data[..m];
    HexPrefix(data, m);
    assert Hex(data)[..2 * m][..Min(2 * m, MAX_CELL_CHARS)] == Hex(data)[..Min(2 * m, MAX_CELL_CHARS)];
  }

  lemma {:induction false} HexPrefix(data: Bytes, n: nat)
    requires n <= |data|
    ensures Hex(data[..n]) == Hex(data)[..2 * n]
  {
    if n > 0 {
      HexPrefix(data[1..], n - 1);
      assert data[..n][1..] == data[1..][..n - 1];
    }
  }
}
