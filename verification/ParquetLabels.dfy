/**
 What the parent can take from a value that is not marked as cut: `_arrow_value`
 keys the fields of a struct by their escaped and shortened names.
 */
module ParquetLabels {
  import opened Bytes
  import opened Utf8
  import opened PreviewLimits
  import opened PreviewText
  import opened ParquetDecode

  /** All there is in a native value, before any label is made: every field by its name. */
  datatype Whole =
    | Absent
    | Chars(text: Text)
    | Native(text: Text)
    | Record(fields: seq<Entry>)
    | Items(items: seq<Whole>)

  datatype Entry = Entry(name: Text, value: Whole)

  function WholeOf(s: Scalar, lossy: Bytes -> Text): Whole
    decreases s
  {
    match s
    case Invalid => Absent
    case StructOf(fields) =>
      Record(seq(|fields|, i requires 0 <= i < |fields| => Entry(fields[i].name, WholeOf(fields[i].value, lossy))))
    case ListOf(items) => Items(seq(|items|, i requires 0 <= i < |items| => WholeOf(items[i], lossy)))
    case StringOf(data) => Chars(lossy(data))
    case BinaryOf(data) => Chars(Hex(data))
    case PlainOf(text) => Native(text)
  }

  /** The value holds all of it: each field has an entry of its own, under its whole escaped name. */
  predicate Presents(v: Value, w: Whole)
    decreases w
  {
    match w
    case Absent => v == Null
    case Chars(text) => v == Text(text)
    case Native(text) => v == Plain(text)
    case Record(fields) =>
      v.Dict? && |v.entries.Keys| == |fields|
      && forall i :: 0 <= i < |fields| ==>
           Escaped(fields[i].name) in v.entries && Presents(v.entries[Escaped(fields[i].name)], fields[i].value)
    case Items(items) =>
      v.List? && |v.items| == |items| && forall i :: 0 <= i < |items| ==> Presents(v.items[i], items[i])
  }

  /** In every struct the escaped names fit a cell and differ from each other. */
  predicate Labelled(w: Whole)
    decreases w
  {
    match w
    case Record(fields) =>
      (forall i :: 0 <= i < |fields| ==> |Escaped(fields[i].name)| <= MAX_CELL_CHARS && Labelled(fields[i].value))
      && (forall i, j :: 0 <= i < j < |fields| ==> Escaped(fields[i].name) != Escaped(fields[j].name))
    case Items(items) => forall i :: 0 <= i < |items| ==> Labelled(items[i])
    case _ => true
  }

  function Labels(fields: seq<Member>): set<Text> {
    set i | 0 <= i < |fields| :: Label(fields[i])
  }

  predicate LabelsDiffer(fields: seq<Member>) {
    forall i, j :: 0 <= i < j < |fields| ==> Label(fields[i]) != Label(fields[j])
  }

  lemma LabelsStep(fields: seq<Member>)
    requires fields != []
    ensures Labels(fields) == {Label(fields[0])} + Labels(fields[1..])
    ensures LabelsDiffer(fields) <==> Label(fields[0]) !in Labels(fields[1..]) && LabelsDiffer(fields[1..])
  {
    assert forall i :: 1 <= i < |fields| ==> fields[i] == fields[1..][i - 1];
    if Label(fields[0]) !in Labels(fields[1..]) && LabelsDiffer(fields[1..]) {
      forall i, j | 0 <= i < j < |fields| ensures Label(fields[i]) != Label(fields[j]) {
        assert Label(fields[j]) == Label(fields[1..][j - 1]);
        assert i > 0 ==> Label(fields[i]) == Label(fields[1..][i - 1]);
      }
    }
    if LabelsDiffer(fields) {
      forall i, j | 0 <= i < j < |fields[1..]| ensures Label(fields[1..][i]) != Label(fields[1..][j]) {
        assert Label(fields[i + 1]) != Label(fields[j + 1]);
      }
    }
  }

  lemma {:induction false} LabelCount(fields: seq<Member>)
    ensures |Labels(fields)| <= |fields| && (|Labels(fields)| == |fields| <==> LabelsDiffer(fields))
  {
    if fields != [] {
      LabelsStep(fields);
      LabelCount(fields[1..]);
    }
  }

  /** One entry for each label; where labels differ, each holds its own field. */
  lemma {:induction false} FullFieldsMeaning(fields: seq<Member>, done: map<Text, Value>, lossy: Bytes -> Text)
    ensures var m := FullFields(fields, done, lossy);
            && m.Keys == done.Keys + Labels(fields)
            && (forall k :: k in done && k !in Labels(fields) ==> m[k] == done[k])
            && (LabelsDiffer(fields) ==>
                 forall i :: 0 <= i < |fields| ==>
                   Label(fields[i]) in m && m[Label(fields[i])] == Full(fields[i].value, lossy))
    decreases |fields|
  {
    if fields != [] {
      var next := done[Label(fields[0]) := Full(fields[0].value, lossy)];
      FullFieldsMeaning(fields[1..], next, lossy);
      LabelsStep(fields);
      var m := FullFields(fields, done, lossy);
      if LabelsDiffer(fields) {
        forall i | 0 <= i < |fields|
          ensures Label(fields[i]) in m && m[Label(fields[i])] == Full(fields[i].value, lossy)
        {
          if i > 0 { assert fields[i] == fields[1..][i - 1]; }
        }
      }
    }
  }

  lemma {:induction false} FullItemsMeaning(items: seq<Scalar>, lossy: Bytes -> Text)
    ensures |FullItems(items, lossy)| == |items|
    ensures forall i :: 0 <= i < |items| ==> FullItems(items, lossy)[i] == Full(items[i], lossy)
  {
    if items != [] { FullItemsMeaning(items[1..], lossy); }
  }

  /** A label is never longer than a cell, so a longer name cannot be a key. */
  lemma LabelIsName(m: Member)
    ensures |Label(m)| <= MAX_CELL_CHARS && (|Escaped(m.name)| <= MAX_CELL_CHARS <==> Label(m) == Escaped(m.name))
  {
  }

  lemma {:induction false} FullPresents(s: Scalar, lossy: Bytes -> Text)
    ensures Presents(Full(s, lossy), WholeOf(s, lossy)) <==> Labelled(WholeOf(s, lossy))
    decreases s
  {
    match s
    case StructOf(fields) =>
      forall i | 0 <= i < |fields|
        ensures Presents(Full(fields[i].value, lossy), WholeOf(fields[i].value, lossy)) <==>
          Labelled(WholeOf(fields[i].value, lossy))
      {
        FullPresents(fields[i].value, lossy);
      }
      FieldsPresented(fields, lossy);
    case ListOf(items) =>
      FullItemsMeaning(items, lossy);
      forall i | 0 <= i < |items|
        ensures Presents(Full(items[i], lossy), WholeOf(items[i], lossy)) <==> Labelled(WholeOf(items[i], lossy))
      {
        FullPresents(items[i], lossy);
      }
    case _ =>
  }

  predicate NamesFit(w: seq<Entry>) {
    forall i :: 0 <= i < |w| ==> |Escaped(w[i].name)| <= MAX_CELL_CHARS
  }

  predicate NamesDiffer(w: seq<Entry>) {
    forall i, j :: 0 <= i < j < |w| ==> Escaped(w[i].name) != Escaped(w[j].name)
  }

  /** Every name has a key of its own exactly if the names fit and differ. */
  lemma KeysAreNames(fields: seq<Member>, w: seq<Entry>)
    requires |w| == |fields| && forall i :: 0 <= i < |fields| ==> w[i].name == fields[i].name
    ensures |Labels(fields)| == |fields| && (forall i :: 0 <= i < |w| ==> Escaped(w[i].name) in Labels(fields))
            <==> NamesFit(w) && NamesDiffer(w)
    ensures NamesFit(w) ==> forall i :: 0 <= i < |w| ==> Label(fields[i]) == Escaped(w[i].name)
    ensures NamesFit(w) && NamesDiffer(w) ==> LabelsDiffer(fields)
  {
    LabelCount(fields);
    forall i | 0 <= i < |w|
      ensures |Label(fields[i])| <= MAX_CELL_CHARS
      ensures |Escaped(w[i].name)| <= MAX_CELL_CHARS <==> Label(fields[i]) == Escaped(w[i].name)
    {
      LabelIsName(fields[i]);
    }
    forall k | k in Labels(fields) ensures |k| <= MAX_CELL_CHARS {
      var i :| 0 <= i < |fields| && k == Label(fields[i]);
    }
  }

  lemma FieldsPresented(fields: seq<Member>, lossy: Bytes -> Text)
    requires forall i :: 0 <= i < |fields| ==>
      (Presents(Full(fields[i].value, lossy), WholeOf(fields[i].value, lossy)) <==>
        Labelled(WholeOf(fields[i].value, lossy)))
    ensures Presents(Full(StructOf(fields), lossy), WholeOf(StructOf(fields), lossy)) <==>
      Labelled(WholeOf(StructOf(fields), lossy))
  {
    var m, w := FullFields(fields, map[], lossy), WholeOf(StructOf(fields), lossy).fields;
    assert forall i :: 0 <= i < |fields| ==> w[i] == Entry(fields[i].name, WholeOf(fields[i].value, lossy));
    FullFieldsMeaning(fields, map[], lossy);
    assert m.Keys == Labels(fields);
    KeysAreNames(fields, w);
    Unfolded(m, w);
    if NamesFit(w) && NamesDiffer(w) {
      forall i | 0 <= i < |w| ensures Presents(m[Escaped(w[i].name)], w[i].value) <==> Labelled(w[i].value) {
        assert m[Label(fields[i])] == Full(fields[i].value, lossy);
      }
    }
  }

  lemma Unfolded(m: map<Text, Value>, w: seq<Entry>)
    ensures Presents(Dict(m), Record(w)) <==>
      |m.Keys| == |w| && (forall i :: 0 <= i < |w| ==> Escaped(w[i].name) in m.Keys)
      && (forall i :: 0 <= i < |w| && Escaped(w[i].name) in m ==> Presents(m[Escaped(w[i].name)], w[i].value))
    ensures Labelled(Record(w)) <==> NamesFit(w) && NamesDiffer(w) && forall i :: 0 <= i < |w| ==> Labelled(w[i].value)
  {
  }

  /**
   A value not marked as cut holds the whole native value if and only if, in every
   struct of it, the escaped field names fit a cell and differ from each other.
   */
  lemma UncutIsWhole(s: Scalar, depth: nat, nodes: int, chars: int, lossy: Bytes -> Text)
    requires !Convert(s, depth, nodes, chars, lossy).cut
    ensures Presents(Convert(s, depth, nodes, chars, lossy).value, WholeOf(s, lossy)) <==> Labelled(WholeOf(s, lossy))
  {
    ConvertIsHonest(s, depth, nodes, chars, lossy);
    FullPresents(s, lossy);
  }

  /** The same value, up to the order of fields and how names are escaped. */
  predicate Alike(a: Whole, b: Whole)
    decreases a
  {
    match a
    case Record(fields) =>
      b.Record? && |b.fields| == |fields| && forall i :: 0 <= i < |fields| ==> HasLike(fields[i], b.fields)
    case Items(items) =>
      b.Items? && |b.items| == |items| && forall i :: 0 <= i < |items| ==> Alike(items[i], b.items[i])
    case _ => a == b
  }

  predicate HasLike(e: Entry, fields: seq<Entry>)
    decreases e
  {
    exists j :: 0 <= j < |fields| && Escaped(fields[j].name) == Escaped(e.name) && Alike(e.value, fields[j].value)
  }

  function NamesOf(w: seq<Entry>): (r: seq<Text>)
    ensures |r| == |w| && forall i :: 0 <= i < |w| ==> r[i] == Escaped(w[i].name)
  {
    seq(|w|, i requires 0 <= i < |w| => Escaped(w[i].name))
  }

  function Elements<T>(s: seq<T>): set<T> {
    set x | x in s
  }

  lemma {:induction false} DistinctCount<T>(s: seq<T>)
    requires forall i, j :: 0 <= i < j < |s| ==> s[i] != s[j]
    ensures |Elements(s)| == |s|
  {
    if s != [] {
      var init, last := s[..|s| - 1], s[|s| - 1];
      DistinctCount(init);
      assert last !in init;
      assert Elements(s) == Elements(init) + {last};
    }
  }

  lemma WholeSubset<T>(a: set<T>, b: set<T>)
    requires a <= b && |a| == |b|
    ensures a == b
  {
    assert |b - a| == |b| - |a|;
    assert b == a + (b - a);
  }

  lemma FieldNamed(m: map<Text, Value>, w: seq<Entry>, name: Text) returns (j: nat)
    requires |m.Keys| == |w| && NamesDiffer(w) && (forall i :: 0 <= i < |w| ==> Escaped(w[i].name) in m.Keys)
      && name in m.Keys
    ensures j < |w| && Escaped(w[j].name) == name
  {
    var names := NamesOf(w);
    DistinctCount(names);
    WholeSubset(Elements(names), m.Keys);
    assert name in names;
    j :| 0 <= j < |w| && names[j] == name;
  }

  /** A value tells the whole values it holds apart. */
  lemma {:induction false} HeldAlike(v: Value, a: Whole, b: Whole)
    requires Presents(v, a) && Presents(v, b) && Labelled(b)
    ensures Alike(a, b)
    decreases a
  {
    match a
    case Record(fields) =>
      assert v == Dict(v.entries) && b == Record(b.fields) && |b.fields| == |fields|;
      Unfolded(v.entries, fields);
      Unfolded(v.entries, b.fields);
      forall i | 0 <= i < |fields| ensures HasLike(fields[i], b.fields) {
        var j := FieldNamed(v.entries, b.fields, Escaped(fields[i].name));
        HeldAlike(v.entries[Escaped(fields[i].name)], fields[i].value, b.fields[j].value);
      }
    case Items(items) =>
      forall i | 0 <= i < |items| ensures Alike(items[i], b.items[i]) { HeldAlike(v.items[i], items[i], b.items[i]); }
    case _ =>
  }

  /** So where names allow it, two native values converted to the same uncut value are alike. */
  lemma UncutDetermines(
    s: Scalar, s': Scalar, depth: nat, nodes: int, nodes': int, chars: int, chars': int, lossy: Bytes -> Text)
    requires var o, o' := Convert(s, depth, nodes, chars, lossy), Convert(s', depth, nodes', chars', lossy);
             !o.cut && !o'.cut && o.value == o'.value
    requires Labelled(WholeOf(s, lossy)) && Labelled(WholeOf(s', lossy))
    ensures Alike(WholeOf(s, lossy), WholeOf(s', lossy))
  {
    UncutIsWhole(s, depth, nodes, chars, lossy);
    UncutIsWhole(s', depth, nodes', chars', lossy);
    HeldAlike(Convert(s, depth, nodes, chars, lossy).value, WholeOf(s, lossy), WholeOf(s', lossy));
  }

  /** A line feed and the two characters it is escaped to: the second field silently replaces the first. */
  lemma LabelsCollide(lossy: Bytes -> Text)
    ensures var s := StructOf([Member([10], PlainOf([49])), Member([92, 110], PlainOf([50]))]);
            var o := Convert(s, 0, 0, MAX_CELL_CHARS, lossy);
            !o.cut && o.value == Dict(map[[92, 110] := Plain([50])]) && !Presents(o.value, WholeOf(s, lossy))
  {
    var s := StructOf([Member([10], PlainOf([49])), Member([92, 110], PlainOf([50]))]);
    CollideConvert(lossy);
    UncutIsWhole(s, 0, 0, MAX_CELL_CHARS, lossy);
    TwoPieces();
    var w := WholeOf(s, lossy).fields;
    Unfolded(map[], w);
    assert w[0].name == [10] && w[1].name == [92, 110];
  }

  lemma CollideConvert(lossy: Bytes -> Text)
    ensures var s := StructOf([Member([10], PlainOf([49])), Member([92, 110], PlainOf([50]))]);
            var o := Convert(s, 0, 0, MAX_CELL_CHARS, lossy);
            !o.cut && o.value == Dict(map[[92, 110] := Plain([50])])
  {
    var a, b := Member([10], PlainOf([49])), Member([92, 110], PlainOf([50]));
    TwoPieces();
    LabelIsName(a);
    LabelIsName(b);
    var one := map[[92, 110] := Plain([49])];
    FieldsStep([a, b], map[], false, 0, 1, MAX_CELL_CHARS, lossy);
    assert Convert(a.value, 1, 1, MAX_CELL_CHARS - 1, lossy) == Out(Plain([49]), false, 2, MAX_CELL_CHARS - 2);
    assert [a, b][1..] == [b];
    LastField(b, one, 2, MAX_CELL_CHARS - 2, lossy);
    assert one[[92, 110] := Plain([50])] == map[[92, 110] := Plain([50])];
  }

  lemma LastField(b: Member, done: map<Text, Value>, nodes: int, chars: int, lossy: Bytes -> Text)
    requires b.value.PlainOf? && nodes < MAX_NODES && chars > NameCost(b)
    ensures ConvertFields([b], done, false, 0, nodes, chars, lossy) ==
            Out(Dict(done[Label(b) := Plain(b.value.text)]), false, nodes + 1, chars - NameCost(b) - |b.value.text|)
  {
    FieldsStep([b], done, false, 0, nodes, chars, lossy);
    assert [b][1..] == [];
  }

  lemma TwoPieces()
    ensures Escaped([10]) == [92, 110] == Escaped([92, 110])
  {
    assert Escaped([]) == [] && [10][..0] == [];
    assert [92, 110][..1] == [92] && [92][..0] == [];
    assert Escaped([92]) == [92];
  }

  lemma {:induction false} EscapedControls(n: nat)
    ensures |Escaped(seq(n, _ => 1))| == 4 * n
  {
    if n > 0 {
      EscapedControls(n - 1);
      assert seq(n, _ => 1 as CodePoint)[..n - 1] == seq(n - 1, _ => 1 as CodePoint);
    }
  }

  /** A name that only its escapes make too long is shortened without a mark. */
  lemma LongNameShortened(lossy: Bytes -> Text)
    ensures var s := StructOf([Member(seq(65, _ => 1), PlainOf([49]))]);
            var o := Convert(s, 0, 0, MAX_CELL_CHARS, lossy);
            !o.cut && !Presents(o.value, WholeOf(s, lossy))
  {
    var a := Member(seq(65, _ => 1), PlainOf([49]));
    EscapedControls(65);
    assert [a][1..] == [];
    FieldsStep([a], map[], false, 0, 1, MAX_CELL_CHARS, lossy);
    UncutIsWhole(StructOf([a]), 0, 0, MAX_CELL_CHARS, lossy);
    assert |Escaped(WholeOf(StructOf([a]), lossy).fields[0].name)| > MAX_CELL_CHARS;
  }
}
