/** Which values a stable digest takes, told from the values inside them. */
module StableValues {
  import opened StableDigest

  /** The value, and all values inside of it. */
  function Inside(v: Value): seq<Value>
    decreases v, 0
  {
    match v
    case EnumValue(_, member) => [v] + Inside(member)
    case RecordValue(_, fields) => [v] + InsideFields(fields)
    case TupleValue(items) => [v] + InsideAll(items)
    case ListValue(items) => [v] + InsideAll(items)
    case _ => [v]
  }

  function InsideAll(vs: seq<Value>): seq<Value>
    decreases vs, 1
  {
    if vs == [] then [] else Inside(vs[0]) + InsideAll(vs[1..])
  }

  function InsideFields(fs: seq<Field>): seq<Value>
    decreases fs, 1
  {
    if fs == [] then [] else Inside(fs[0].value) + InsideFields(fs[1..])
  }

  /** The texts that are a value's own. */
  function Texts(v: Value): seq<Text> {
    match v
    case StrValue(t) => [t]
    case EnumValue(name, _) => [name]
    case RecordValue(name, fields) => [name] + seq(|fields|, i requires 0 <= i < |fields| => fields[i].name)
    case _ => []
  }

  /** No surrogate and no noncharacter. */
  predicate Clean(t: Text) {
    forall i :: 0 <= i < |t| ==>
      !(0xD800 <= t[i] <= 0xDFFF) && !(0xFDD0 <= t[i] <= 0xFDEF) && t[i] % 0x1_0000 != 0xFFFE
      && t[i] % 0x1_0000 != 0xFFFF
  }

  lemma CleanIsStrict(t: Text)
    ensures Strict(t) <==> Clean(t)
  {
  }

  predicate Supported(v: Value) {
    !v.OtherValue? && AllClean(Texts(v))
  }

  predicate AllSupported(vs: seq<Value>) {
    forall v <- vs :: Supported(v)
  }

  lemma SupportedAppend(a: seq<Value>, b: seq<Value>)
    ensures AllSupported(a + b) <==> AllSupported(a) && AllSupported(b)
  {
    if AllSupported(a + b) {
      forall v | v in a ensures Supported(v) { assert v in a + b; }
      forall v | v in b ensures Supported(v) { assert v in a + b; }
    }
  }

  /** A value is refused exactly for an object of another kind or an unclean text, however deep inside of it. */
  lemma {:induction false} StableExactly(v: Value)
    ensures Stable(v) <==> AllSupported(Inside(v))
    decreases v, 0
  {
    OwnTexts(v);
    match v
    case EnumValue(_, member) =>
      StableExactly(member);
      SupportedAppend([v], Inside(member));
    case RecordValue(_, fields) =>
      FieldsExactly(fields);
      SupportedAppend([v], InsideFields(fields));
      assert FieldsStable(fields) <==> (forall f <- fields :: Stable(f.value)) && NamesStrict(fields);
    case TupleValue(items) =>
      AllExactly(items);
      SupportedAppend([v], InsideAll(items));
    case ListValue(items) =>
      AllExactly(items);
      SupportedAppend([v], InsideAll(items));
    case _ =>
      assert Inside(v) == [v] && [v][0] == v;
      assert AllSupported([v]) <==> Supported(v);
      assert Stable(v) <==> Supported(v);
  }

  lemma OwnTexts(v: Value)
    ensures v.StrValue? ==> (Supported(v) <==> Strict(v.text))
    ensures v.EnumValue? ==> (Supported(v) <==> Strict(v.enumName))
    ensures v.RecordValue? ==> (Supported(v) <==> Strict(v.className) && NamesStrict(v.fields))
  {
    match v
    case StrValue(t) => OneText(t, []);
    case EnumValue(name, _) => OneText(name, []);
    case RecordValue(name, fields) => RecordTexts(name, fields);
    case _ =>
  }

  predicate NamesStrict(fs: seq<Field>) {
    forall f <- fs :: Strict(f.name)
  }

  predicate AllClean(ts: seq<Text>) {
    forall t <- ts :: Clean(t)
  }

  lemma OneText(t: Text, others: seq<Text>)
    ensures AllClean([t] + others) <==> Strict(t) && AllClean(others)
    ensures [t] + [] == [t]
  {
    CleanIsStrict(t);
    assert ([t] + others)[0] == t;
    if AllClean([t] + others) {
      forall u | u in others ensures Clean(u) { assert u in [t] + others; }
    }
  }

  lemma RecordTexts(name: Text, fields: seq<Field>)
    ensures AllClean(Texts(RecordValue(name, fields))) <==> Strict(name) && NamesStrict(fields)
  {
    var names := seq(|fields|, i requires 0 <= i < |fields| => fields[i].name);
    OneText(name, names);
    forall i | 0 <= i < |fields| ensures names[i] in names && (Clean(names[i]) <==> Strict(fields[i].name)) {
      CleanIsStrict(names[i]);
    }
    if AllClean(names) {
      forall f | f in fields ensures Strict(f.name) {
        var i :| 0 <= i < |fields| && fields[i] == f;
        assert names[i] == f.name;
      }
    }
  }

  lemma {:induction false} AllExactly(vs: seq<Value>)
    ensures AllStable(vs) <==> AllSupported(InsideAll(vs))
    decreases vs, 1
  {
    if vs != [] {
      StableExactly(vs[0]);
      AllExactly(vs[1..]);
      SupportedAppend(Inside(vs[0]), InsideAll(vs[1..]));
      assert vs == [vs[0]] + vs[1..];
    }
  }

  lemma {:induction false} FieldsExactly(fs: seq<Field>)
    ensures (forall f <- fs :: Stable(f.value)) <==> AllSupported(InsideFields(fs))
    decreases fs, 1
  {
    if fs != [] {
      StableExactly(fs[0].value);
      FieldsExactly(fs[1..]);
      SupportedAppend(Inside(fs[0].value), InsideFields(fs[1..]));
      assert fs == [fs[0]] + fs[1..];
    }
  }
}
