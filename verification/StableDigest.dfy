/**
 The byte streams the demo Athena client hashes: `_update_stable_digest`,
 `_collection_fingerprint` and `_fingerprint`.  The streams are proved uniquely
 decodable, so two equal streams come from equal data.
 */
module StableDigest {
  import opened Wrappers
  import opened Bytes
  import Utf8

  type Text = Utf8.Text

  datatype Field = Field(name: Text, value: Value)

  /** The objects a digest can meet.  A datetime is its ASCII isoformat. */
  datatype Value =
    | NoneValue
    | BoolValue(flag: bool)
    | IntValue(n: int)
    | StrValue(text: Text)
    | DateTimeValue(iso: Bytes)
    | EnumValue(enumName: Text, member: Value)
    | RecordValue(className: Text, fields: seq<Field>)
    | TupleValue(items: seq<Value>)
    | ListValue(items: seq<Value>)
    | OtherValue

  predicate IsNonCharacter(c: Utf8.CodePoint) {
    0xFDD0 <= c <= 0xFDEF || c % 0x1_0000 >= 0xFFFE
  }

  /** `_strict_utf8(value) is not None`. */
  predicate Strict(t: Text) {
    Utf8.Encodable(t) && forall i :: 0 <= i < |t| ==> !IsNonCharacter(t[i])
  }

  /** The text that marks an enum member. */
  const ENUM: Text := [101, 110, 117, 109]

  // --------------------------------------------- what can be written, and how

  /** The digest accepts the value. */
  predicate Stable(v: Value) {
    match v
    case StrValue(t) => Strict(t)
    case EnumValue(name, member) => Strict(name) && Stable(member)
    case RecordValue(name, fields) => Strict(name) && forall f <- fields :: Strict(f.name) && Stable(f.value)
    case TupleValue(items) => forall x <- items :: Stable(x)
    case ListValue(items) => forall x <- items :: Stable(x)
    case OtherValue => false
    case _ => true
  }

  predicate AllStable(vs: seq<Value>) {
    forall v <- vs :: Stable(v)
  }

  predicate FieldsStable(fs: seq<Field>) {
    forall f <- fs :: Strict(f.name) && Stable(f.value)
  }

  predicate FitsText(t: Text) {
    Strict(t) ==> |Utf8.Encode(t)| < WORD
  }

  /** Every length fits the eight bytes it is written in. */
  predicate Fits(v: Value) {
    match v
    case IntValue(n) => |Decimal(n)| < WORD
    case StrValue(t) => FitsText(t)
    case DateTimeValue(iso) => |iso| < WORD
    case EnumValue(name, member) => FitsText(name) && Fits(member)
    case RecordValue(name, fields) =>
      FitsText(name) && |fields| < WORD && forall f <- fields :: FitsText(f.name) && Fits(f.value)
    case TupleValue(items) => |items| < WORD && forall x <- items :: Fits(x)
    case ListValue(items) => |items| < WORD && forall x <- items :: Fits(x)
    case _ => true
  }

  predicate Writable(v: Value) {
    Stable(v) && Fits(v)
  }

  predicate AllWritable(vs: seq<Value>) {
    forall v <- vs :: Writable(v)
  }

  predicate FieldsWritable(fs: seq<Field>) {
    forall f <- fs :: Strict(f.name) && FitsText(f.name) && Writable(f.value)
  }

  function Tagged(tag: Byte, payload: Bytes): (r: Bytes)
    requires |payload| < WORD
    ensures |r| == 9 + |payload|
  {
    [tag] + Word(|payload|) + payload
  }

  function EncodeText(t: Text): (r: Bytes)
    requires Strict(t) && FitsText(t)
    ensures |r| >= 9
  {
    Tagged(115, Utf8.Encode(t))
  }

  /** The stream of the tuple ("enum", name, member). */
  function EnumStream(name: Text, member: Bytes): (r: Bytes)
    requires Strict(name) && FitsText(name)
    ensures |r| > 0
  {
    [116] + Word(3) + (EncodeEnumTag() + (EncodeText(name) + member))
  }

  /** The stream one value adds to the digest. */
  function Encode(v: Value): (r: Bytes)
    requires Writable(v)
    ensures |r| > 0
    decreases v, 0
  {
    match v
    case NoneValue => [110]
    case BoolValue(flag) => [98, if flag then 49 else 48]
    case IntValue(n) => Tagged(105, Decimal(n))
    case StrValue(t) => EncodeText(t)
    case DateTimeValue(iso) => Tagged(100, iso)
    case EnumValue(name, member) =>
      EnumStream(name, Encode(member))
    case RecordValue(name, fields) =>
      [99] + (EncodeText(name) + (Word(|fields|) + EncodeFields(fields)))
    case TupleValue(items) => [116] + Word(|items|) + EncodeAll(items)
    case ListValue(items) => [108] + Word(|items|) + EncodeAll(items)
  }

  lemma EnumIsStrict()
    ensures Strict(ENUM) && |Utf8.Encode(ENUM)| == 4
  {
    assert ENUM[1..] == [110, 117, 109] && ENUM[1..][1..] == [117, 109] && ENUM[1..][1..][1..] == [109];
  }

  function EncodeEnumTag(): Bytes {
    EnumIsStrict();
    EncodeText(ENUM)
  }

  function EncodeAll(vs: seq<Value>): Bytes
    requires AllWritable(vs)
    decreases vs, 1
  {
    if vs == [] then [] else Encode(vs[0]) + EncodeAll(vs[1..])
  }

  function EncodeFields(fs: seq<Field>): Bytes
    requires FieldsWritable(fs)
    decreases fs, 1
  {
    if fs == [] then [] else EncodeField(fs[0]) + EncodeFields(fs[1..])
  }

  function EncodeField(f: Field): Bytes
    requires Strict(f.name) && FitsText(f.name) && Writable(f.value)
    decreases f, 1
  {
    EncodeText(f.name) + Encode(f.value)
  }

  // ------------------------------------------------------------- reading back

  datatype Parsed<+T> = Parsed(value: T, rest: Bytes)

  /** A length-prefixed payload. */
  function ParseSized(b: Bytes): (r: Option<Parsed<Bytes>>)
    ensures r.Some? ==> |r.value.rest| + 8 <= |b|
  {
    if |b| < 8 then None
    else
      var n := FromWord(b[..8]);
      if |b| - 8 < n then None else Some(Parsed(b[8..8 + n], b[8 + n..]))
  }

  function ParseCount(b: Bytes): (r: Option<Parsed<nat>>)
    ensures r.Some? ==> |r.value.rest| + 8 == |b|
  {
    if |b| < 8 then None else Some(Parsed(FromWord(b[..8]), b[8..]))
  }

  function ParseText(b: Bytes): (r: Option<Parsed<Text>>)
    ensures r.Some? ==> |r.value.rest| < |b|
  {
    if b == [] || b[0] != 115 then None
    else match ParseSized(b[1..])
      case None => None
      case Some(p) => match Utf8.Decode(p.value)
        case None => None
        case Some(t) => Some(Parsed(t, p.rest))
  }

  /** The decoder: it never looks beyond the value it returns. */
  function Parse(b: Bytes): (r: Option<Parsed<Value>>)
    ensures r.Some? ==> |r.value.rest| < |b|
    decreases |b|, 0
  {
    if b == [] then None
    else if b[0] == 110 then Some(Parsed(NoneValue, b[1..]))
    else if b[0] == 98 then
      if |b| >= 2 && (b[1] == 48 || b[1] == 49) then Some(Parsed(BoolValue(b[1] == 49), b[2..])) else None
    else if b[0] == 105 then
      match ParseSized(b[1..])
      case None => None
      case Some(p) => Some(Parsed(IntValue(FromDecimal(p.value)), p.rest))
    else if b[0] == 115 then
      match ParseText(b)
      case None => None
      case Some(p) => Some(Parsed(StrValue(p.value), p.rest))
    else if b[0] == 100 then
      match ParseSized(b[1..])
      case None => None
      case Some(p) => Some(Parsed(DateTimeValue(p.value), p.rest))
    else if b[0] == 99 then ParseRecordBody(b[1..])
    else if b[0] == 116 || b[0] == 108 then
      match ParseItems(b[1..])
      case None => None
      case Some(p) => Some(Parsed(if b[0] == 116 then TupleValue(p.value) else ListValue(p.value), p.rest))
    else None
  }

  /** A class name, a count and as many fields. */
  function ParseRecordBody(b: Bytes): (r: Option<Parsed<Value>>)
    ensures r.Some? ==> |r.value.rest| <= |b|
    decreases |b|, 2
  {
    match ParseText(b)
    case None => None
    case Some(name) =>
      match ParseCount(name.rest)
      case None => None
      case Some(count) =>
        match ParseFields(count.value, count.rest)
        case None => None
        case Some(p) => Some(Parsed(RecordValue(name.value, p.value), p.rest))
  }

  /** A count and as many values. */
  function ParseItems(b: Bytes): (r: Option<Parsed<seq<Value>>>)
    ensures r.Some? ==> |r.value.rest| <= |b|
    decreases |b|, 2
  {
    match ParseCount(b)
    case None => None
    case Some(count) => ParseAll(count.value, count.rest)
  }

  function ParseAll(n: nat, b: Bytes): (r: Option<Parsed<seq<Value>>>)
    ensures r.Some? ==> |r.value.rest| <= |b|
    decreases |b|, 1
  {
    if n == 0 then Some(Parsed([], b))
    else match Parse(b)
      case None => None
      case Some(head) => match ParseAll(n - 1, head.rest)
        case None => None
        case Some(tail) => Some(Parsed([head.value] + tail.value, tail.rest))
  }

  function ParseFields(n: nat, b: Bytes): (r: Option<Parsed<seq<Field>>>)
    ensures r.Some? ==> |r.value.rest| <= |b|
    decreases |b|, 1
  {
    if n == 0 then Some(Parsed([], b))
    else match ParseText(b)
      case None => None
      case Some(name) => match Parse(name.rest)
        case None => None
        case Some(head) => match ParseFields(n - 1, head.rest)
          case None => None
          case Some(tail) => Some(Parsed([Field(name.value, head.value)] + tail.value, tail.rest))
  }

  // -------------------------------------------------------------- round trips

  /** What a value reads back as: an enum member is written as a tagged tuple. */
  function Canon(v: Value): Value
    decreases v, 0
  {
    match v
    case EnumValue(name, member) => TupleValue([StrValue(ENUM), StrValue(name), Canon(member)])
    case RecordValue(name, fields) => RecordValue(name, CanonFields(fields))
    case TupleValue(items) => TupleValue(CanonAll(items))
    case ListValue(items) => ListValue(CanonAll(items))
    case _ => v
  }

  function CanonAll(vs: seq<Value>): (r: seq<Value>)
    ensures |r| == |vs|
    ensures forall i :: 0 <= i < |vs| ==> r[i] == Canon(vs[i])
    decreases vs, 1
  {
    if vs == [] then [] else [Canon(vs[0])] + CanonAll(vs[1..])
  }

  function CanonFields(fs: seq<Field>): (r: seq<Field>)
    ensures |r| == |fs|
    ensures forall i :: 0 <= i < |fs| ==> r[i] == Field(fs[i].name, Canon(fs[i].value))
    decreases fs, 1
  {
    if fs == [] then [] else [Field(fs[0].name, Canon(fs[0].value))] + CanonFields(fs[1..])
  }

  lemma ParseSizedAfter(payload: Bytes, rest: Bytes)
    requires |payload| < WORD
    ensures ParseSized(Word(|payload|) + payload + rest) == Some(Parsed(payload, rest))
  {
    var b := Word(|payload|) + payload + rest;
    assert b[..8] == Word(|payload|);
    assert b[8..8 + |payload|] == payload && b[8 + |payload|..] == rest;
  }

  lemma ParseTagged(tag: Byte, payload: Bytes, rest: Bytes)
    requires |payload| < WORD
    ensures var b := Tagged(tag, payload) + rest;
            b[0] == tag && ParseSized(b[1..]) == Some(Parsed(payload, rest))
  {
    ParseSizedAfter(payload, rest);
    assert (Tagged(tag, payload) + rest)[1..] == Word(|payload|) + payload + rest;
  }

  lemma ParseTextOfEncode(t: Text, rest: Bytes)
    requires Strict(t) && FitsText(t)
    ensures ParseText(EncodeText(t) + rest) == Some(Parsed(t, rest))
  {
    ParseTagged(115, Utf8.Encode(t), rest);
    Utf8.DecodeOfEncode(t);
  }

  lemma ParseScalar(v: Value, rest: Bytes)
    requires Writable(v)
    requires v.NoneValue? || v.BoolValue? || v.IntValue? || v.StrValue? || v.DateTimeValue?
    ensures Parse(Encode(v) + rest) == Some(Parsed(Canon(v), rest))
  {
    var b := Encode(v) + rest;
    match v
    case NoneValue =>
      assert b[1..] == rest;
    case BoolValue(flag) =>
      assert b[2..] == rest;
    case IntValue(n) =>
      ParseTagged(105, Decimal(n), rest);
      FromDecimalOfDecimal(n);
    case StrValue(t) =>
      ParseTextOfEncode(t, rest);
    case DateTimeValue(iso) =>
      ParseTagged(100, iso, rest);
  }

  /** A tuple or list whose items read back, reads back. */
  lemma ParseContainer(tag: Byte, n: nat, body: Bytes, items: seq<Value>, rest: Bytes)
    requires tag == 116 || tag == 108
    requires n < WORD && ParseAll(n, body + rest) == Some(Parsed(items, rest))
    ensures Parse([tag] + Word(n) + body + rest)
         == Some(Parsed(if tag == 116 then TupleValue(items) else ListValue(items), rest))
  {
    AfterTag(tag, Word(n), body, rest);
    CountOf(n, body + rest);
    ContainerStep([tag] + Word(n) + body + rest, tag, n, body + rest, items, rest);
  }

  lemma AfterTag(tag: Byte, a: Bytes, b: Bytes, c: Bytes)
    ensures var all := [tag] + a + b + c; all != [] && all[0] == tag && all[1..] == a + (b + c)
  {
  }

  lemma CountOf(n: nat, after: Bytes)
    requires n < WORD
    ensures ParseCount(Word(n) + after) == Some(Parsed(n, after))
  {
    var b := Word(n) + after;
    assert b[..8] == Word(n) && b[8..] == after;
  }

  lemma ContainerStep(b: Bytes, tag: Byte, n: nat, after: Bytes, items: seq<Value>, rest: Bytes)
    requires tag == 116 || tag == 108
    requires b != [] && b[0] == tag && ParseCount(b[1..]) == Some(Parsed(n, after))
    requires ParseAll(n, after) == Some(Parsed(items, rest))
    ensures Parse(b) == Some(Parsed(if tag == 116 then TupleValue(items) else ListValue(items), rest))
  {
    assert ParseItems(b[1..]) == Some(Parsed(items, rest));
  }

  lemma DropTag(tag: Byte, name: Bytes, count: Bytes, body: Bytes, rest: Bytes)
    ensures ([tag] + (name + (count + body)) + rest)[1..] == name + (count + (body + rest))
  {
  }

  lemma ParseRecord(b: Bytes, name: Text, tail: Bytes, n: nat, body: Bytes, fields: seq<Field>, rest: Bytes)
    requires b != [] && b[0] == 99 && ParseText(b[1..]) == Some(Parsed(name, tail))
    requires n < WORD && tail == Word(n) + (body + rest)
    requires ParseFields(n, body + rest) == Some(Parsed(fields, rest))
    ensures Parse(b) == Some(Parsed(RecordValue(name, fields), rest))
  {
    CountOf(n, body + rest);
    RecordStep(b, name, tail, n, body + rest, fields, rest);
  }

  lemma RecordStep(b: Bytes, name: Text, tail: Bytes, n: nat, after: Bytes, fields: seq<Field>, rest: Bytes)
    requires b != [] && b[0] == 99 && ParseText(b[1..]) == Some(Parsed(name, tail))
    requires ParseCount(tail) == Some(Parsed(n, after)) && ParseFields(n, after) == Some(Parsed(fields, rest))
    ensures Parse(b) == Some(Parsed(RecordValue(name, fields), rest))
  {
    assert ParseRecordBody(b[1..]) == Some(Parsed(RecordValue(name, fields), rest));
  }

  lemma ParseThree(b: Bytes, x: Value, b1: Bytes, y: Value, b2: Bytes, z: Value, b3: Bytes)
    requires Parse(b) == Some(Parsed(x, b1)) && Parse(b1) == Some(Parsed(y, b2)) && Parse(b2) == Some(Parsed(z, b3))
    ensures ParseAll(3, b) == Some(Parsed([x, y, z], b3))
  {
    assert ParseAll(0, b3) == Some(Parsed([], b3));
    assert ParseAll(1, b2) == Some(Parsed([z] + [], b3));
    assert ParseAll(2, b1) == Some(Parsed([y] + ([z] + []), b3));
    assert [x] + ([y] + ([z] + [])) == [x, y, z];
  }

  lemma ParseEnum(name: Text, member: Value, rest: Bytes)
    requires Writable(EnumValue(name, member)) && Parse(Encode(member) + rest) == Some(Parsed(Canon(member), rest))
    ensures Parse(Encode(EnumValue(name, member)) + rest) == Some(Parsed(Canon(EnumValue(name, member)), rest))
  {
    EnumIsStrict();
    var tag, named, coded := EncodeEnumTag(), EncodeText(name), Encode(member);
    var afterTag := named + (coded + rest);
    JoinFour(tag, named, coded, rest);
    ParseStr(ENUM, afterTag);
    ParseStr(name, coded + rest);
    var body := tag + (named + coded);
    ParseThree(body + rest, StrValue(ENUM), afterTag, StrValue(name), coded + rest, Canon(member), rest);
    ParseContainer(116, 3, body, [StrValue(ENUM), StrValue(name), Canon(member)], rest);
  }

  lemma ParseStr(t: Text, rest: Bytes)
    requires Strict(t) && FitsText(t)
    ensures Parse(EncodeText(t) + rest) == Some(Parsed(StrValue(t), rest))
  {
    ParseScalar(StrValue(t), rest);
  }

  lemma JoinFour(a: Bytes, b: Bytes, c: Bytes, d: Bytes)
    ensures a + (b + c) + d == a + (b + (c + d))
  {
  }

  lemma ParseWholeRecord(name: Text, fields: seq<Field>, rest: Bytes)
    requires Writable(RecordValue(name, fields))
    requires ParseFields(|fields|, EncodeFields(fields) + rest) == Some(Parsed(CanonFields(fields), rest))
    ensures Parse(Encode(RecordValue(name, fields)) + rest) == Some(Parsed(Canon(RecordValue(name, fields)), rest))
  {
    var body := EncodeFields(fields);
    var tail := Word(|fields|) + (body + rest);
    DropTag(99, EncodeText(name), Word(|fields|), body, rest);
    ParseTextOfEncode(name, tail);
    ParseRecord(Encode(RecordValue(name, fields)) + rest, name, tail, |fields|, body, CanonFields(fields), rest);
  }

  /** The stream of a value, followed by anything, reads back as that value and the rest. */
  lemma {:induction false} ParseOfEncode(v: Value, rest: Bytes)
    requires Writable(v)
    ensures Parse(Encode(v) + rest) == Some(Parsed(Canon(v), rest))
    decreases v, 0
  {
    match v
    case EnumValue(name, member) =>
      ParseOfEncode(member, rest);
      ParseEnum(name, member, rest);
    case RecordValue(name, fields) =>
      ParseFieldsOfEncode(fields, rest);
      ParseWholeRecord(name, fields, rest);
    case TupleValue(items) =>
      ParseAllOfEncode(items, rest);
      ParseContainer(116, |items|, EncodeAll(items), CanonAll(items), rest);
    case ListValue(items) =>
      ParseAllOfEncode(items, rest);
      ParseContainer(108, |items|, EncodeAll(items), CanonAll(items), rest);
    case _ =>
      ParseScalar(v, rest);
  }

  lemma {:induction false} ParseAllOfEncode(vs: seq<Value>, rest: Bytes)
    requires AllWritable(vs)
    ensures ParseAll(|vs|, EncodeAll(vs) + rest) == Some(Parsed(CanonAll(vs), rest))
    decreases vs, 1
  {
    if vs == [] {
      assert EncodeAll(vs) + rest == rest;
    } else {
      var tail := EncodeAll(vs[1..]) + rest;
      EncodeAllFirst(vs, rest);
      ParseOfEncode(vs[0], tail);
      ParseAllOfEncode(vs[1..], rest);
      ParseAllStep(EncodeAll(vs) + rest, Canon(vs[0]), tail, |vs| - 1, CanonAll(vs[1..]), rest);
      assert CanonAll(vs) == [Canon(vs[0])] + CanonAll(vs[1..]);
    }
  }

  lemma EncodeAllFirst(vs: seq<Value>, rest: Bytes)
    requires vs != [] && AllWritable(vs)
    ensures EncodeAll(vs) + rest == Encode(vs[0]) + (EncodeAll(vs[1..]) + rest)
  {
    JoinThree(Encode(vs[0]), EncodeAll(vs[1..]), rest);
  }

  lemma JoinThree(a: Bytes, b: Bytes, c: Bytes)
    ensures a + b + c == a + (b + c)
  {
  }

  lemma ParseAllStep(b: Bytes, v: Value, tail: Bytes, n: nat, vs: seq<Value>, rest: Bytes)
    requires Parse(b) == Some(Parsed(v, tail)) && ParseAll(n, tail) == Some(Parsed(vs, rest))
    ensures ParseAll(n + 1, b) == Some(Parsed([v] + vs, rest))
  {
  }

  lemma Assoc(a: Bytes, b: Bytes, c: Bytes, d: Bytes)
    ensures (a + b) + c + d == a + (b + (c + d)) == a + (b + c + d)
  {
  }

  lemma {:induction false} ParseFieldsOfEncode(fs: seq<Field>, rest: Bytes)
    requires FieldsWritable(fs)
    ensures ParseFields(|fs|, EncodeFields(fs) + rest) == Some(Parsed(CanonFields(fs), rest))
    decreases fs, 1
  {
    if fs == [] {
      assert EncodeFields(fs) + rest == rest;
    } else {
      var tail := EncodeFields(fs[1..]) + rest;
      var head := Encode(fs[0].value) + tail;
      Assoc(EncodeText(fs[0].name), Encode(fs[0].value), EncodeFields(fs[1..]), rest);
      ParseTextOfEncode(fs[0].name, head);
      ParseOfEncode(fs[0].value, tail);
      ParseFieldsOfEncode(fs[1..], rest);
    }
  }

  // -------------------------------------------------- equal streams, equal data

  lemma EncodeThree(name: Text, member: Value)
    requires Strict(name) && FitsText(name) && Writable(member)
    ensures var items := [StrValue(ENUM), StrValue(name), member];
            AllWritable(items) && EncodeAll(items) == EncodeEnumTag() + (EncodeText(name) + Encode(member))
  {
    EnumIsStrict();
    var one := [member];
    assert one[1..] == [];
    assert EncodeAll(one) == Encode(member) + [] == Encode(member);
    var two := [StrValue(name), member];
    assert two[1..] == one;
    assert EncodeAll(two) == EncodeText(name) + Encode(member);
    var items := [StrValue(ENUM), StrValue(name), member];
    assert items[1..] == two;
  }

  /** The stream does not tell an enum member from the tuple it is written as. */
  lemma {:induction false} EncodeOfCanon(v: Value)
    requires Writable(v)
    ensures Writable(Canon(v)) && Encode(Canon(v)) == Encode(v)
    decreases v, 0
  {
    match v
    case EnumValue(name, member) =>
      EncodeOfCanon(member);
      EncodeThree(name, Canon(member));
    case RecordValue(name, fields) =>
      EncodeOfCanonFields(fields);
    case TupleValue(items) =>
      EncodeOfCanonAll(items);
    case ListValue(items) =>
      EncodeOfCanonAll(items);
    case _ =>
  }

  lemma {:induction false} EncodeOfCanonAll(vs: seq<Value>)
    requires AllWritable(vs)
    ensures AllWritable(CanonAll(vs)) && EncodeAll(CanonAll(vs)) == EncodeAll(vs)
    decreases vs, 1
  {
    if vs != [] {
      EncodeOfCanon(vs[0]);
      EncodeOfCanonAll(vs[1..]);
      assert CanonAll(vs)[1..] == CanonAll(vs[1..]);
    }
  }

  lemma {:induction false} EncodeOfCanonFields(fs: seq<Field>)
    requires FieldsWritable(fs)
    ensures FieldsWritable(CanonFields(fs)) && EncodeFields(CanonFields(fs)) == EncodeFields(fs)
    decreases fs, 1
  {
    if fs != [] {
      EncodeOfCanon(fs[0].value);
      EncodeOfCanonFields(fs[1..]);
      assert CanonFields(fs)[1..] == CanonFields(fs[1..]);
    }
  }

  /** Two values share a stream exactly when they read back alike. */
  lemma StreamIdentifiesValue(v: Value, w: Value)
    requires Writable(v) && Writable(w)
    ensures Encode(v) == Encode(w) <==> Canon(v) == Canon(w)
  {
    ParseOfEncode(v, []);
    ParseOfEncode(w, []);
    EncodeOfCanon(v);
    EncodeOfCanon(w);
  }

  predicate ListWritable(rows: seq<Value>) {
    AllWritable(rows) && |rows| < WORD
  }

  /** b"athena-list-v1" */
  const LIST_MARK: Bytes := [97, 116, 104, 101, 110, 97, 45, 108, 105, 115, 116, 45, 118, 49]

  /** What `_collection_fingerprint` hashes: the count comes last. */
  function CollectionStream(rows: seq<Value>): Bytes
    requires ListWritable(rows)
  {
    LIST_MARK + EncodeAll(rows) + Word(|rows|)
  }

  /** Two row lists share a stream exactly when their rows read back alike. */
  lemma CollectionStreamIdentifiesList(a: seq<Value>, b: seq<Value>)
    requires ListWritable(a) && ListWritable(b)
    ensures CollectionStream(a) == CollectionStream(b) <==> CanonAll(a) == CanonAll(b)
  {
    if CollectionStream(a) == CollectionStream(b) {
      var s, t := CollectionStream(a), CollectionStream(b);
      assert s[|s| - 8..] == Word(|a|) && t[|t| - 8..] == Word(|b|);
      assert |a| == FromBigEndian(Word(|a|)) == FromBigEndian(Word(|b|)) == |b|;
      assert s[|LIST_MARK|..|s| - 8] == EncodeAll(a) && t[|LIST_MARK|..|t| - 8] == EncodeAll(b);
      ParseAllOfEncode(a, []);
      ParseAllOfEncode(b, []);
      assert EncodeAll(a) + [] == EncodeAll(b) + [];
    }
    EncodeOfCanonAll(a);
    EncodeOfCanonAll(b);
  }

  // ------------------------------------------------------ flat text fingerprints

  predicate TextsWritable(values: seq<Option<Text>>) {
    forall v <- values :: v.Some? ==> Strict(v.value) && FitsText(v.value)
  }

  function EncodeOptional(v: Option<Text>): (r: Bytes)
    requires v.Some? ==> Strict(v.value) && FitsText(v.value)
    ensures |r| >= 9
  {
    match v
    case None => Tagged(0, [])
    case Some(t) => Tagged(1, Utf8.Encode(t))
  }

  /** What `_fingerprint(*values)` hashes. */
  function FingerprintStream(values: seq<Option<Text>>): Bytes
    requires TextsWritable(values)
  {
    if values == [] then [] else EncodeOptional(values[0]) + FingerprintStream(values[1..])
  }

  lemma EncodeOptionalInjective(v: Option<Text>, x: Bytes, w: Option<Text>, y: Bytes)
    requires v.Some? ==> Strict(v.value) && FitsText(v.value)
    requires w.Some? ==> Strict(w.value) && FitsText(w.value)
    requires EncodeOptional(v) + x == EncodeOptional(w) + y
    ensures v == w && x == y
  {
    var p := if v.None? then [] else Utf8.Encode(v.value);
    var q := if w.None? then [] else Utf8.Encode(w.value);
    ParseTagged(if v.None? then 0 else 1, p, x);
    ParseTagged(if w.None? then 0 else 1, q, y);
    if v.Some? && w.Some? {
      Utf8.DecodeOfEncode(v.value);
      Utf8.DecodeOfEncode(w.value);
    }
  }

  /** No count is written, and none is needed: the missing value and "" stay distinct too. */
  lemma {:induction false} FingerprintStreamInjective(a: seq<Option<Text>>, b: seq<Option<Text>>)
    requires TextsWritable(a) && TextsWritable(b)
    requires FingerprintStream(a) == FingerprintStream(b)
    ensures a == b
  {
    if a != [] && b != [] {
      var v, x, w, y := a[0], a[1..], b[0], b[1..];
      EncodeOptionalInjective(v, FingerprintStream(x), w, FingerprintStream(y));
      FingerprintStreamInjective(x, y);
      FirstSplit(a);
      FirstSplit(b);
    }
  }

  lemma FirstSplit<T>(s: seq<T>)
    requires s != []
    ensures s == [s[0]] + s[1..]
  {
  }

  // ------------------------------------------------------- the digest in place

  /** A hashlib object: the bytes it has been fed so far. */
  class Digest {
    var data: Bytes

    constructor ()
      ensures data == []
    {
      data := [];
    }

    method Update(more: Bytes)
      modifies this
      ensures data == old(data) + more
    {
      data := data + more;
    }
  }

  lemma Join(a: Bytes, b: Bytes, c: Bytes)
    ensures a + b + c == a + (b + c)
  {
  }

  method UpdateText(digest: Digest, t: Text) returns (ok: bool)
    requires FitsText(t)
    modifies digest
    ensures ok == Strict(t)
    ensures digest.data == old(digest.data) + if ok then EncodeText(t) else []
  {
    ok := Strict(t);
    if ok {
      var encoded := Utf8.Encode(t);
      digest.Update([115] + Word(|encoded|) + encoded);
    }
  }

  /**
   `_update_stable_digest`.  An enum member takes the tuple branch on
   ("enum", class name, value); a refused value leaves the digest in
   some unfinished state, which no caller looks at.
   */
  method UpdateStableDigest(digest: Digest, v: Value) returns (ok: bool)
    requires Fits(v)
    modifies digest
    ensures ok == Stable(v)
    ensures ok ==> digest.data == old(digest.data) + Encode(v)
    decreases v, 2
  {
    match v
    case EnumValue(name, member) =>
      ok := UpdateEnum(digest, name, member);
    case RecordValue(name, fields) =>
      ok := UpdateRecord(digest, name, fields);
    case TupleValue(items) =>
      ok := UpdateSequence(digest, 116, items);
    case ListValue(items) =>
      ok := UpdateSequence(digest, 108, items);
    case _ =>
      ok := UpdateScalar(digest, v);
  }

  method UpdateScalar(digest: Digest, v: Value) returns (ok: bool)
    requires Fits(v)
    requires !v.EnumValue? && !v.RecordValue? && !v.TupleValue? && !v.ListValue?
    modifies digest
    ensures ok == Stable(v)
    ensures ok ==> digest.data == old(digest.data) + Encode(v)
  {
    ok := true;
    match v
    case NoneValue =>
      digest.Update([110]);
    case BoolValue(flag) =>
      digest.Update(if flag then [98, 49] else [98, 48]);
    case IntValue(n) =>
      var encoded := Decimal(n);
      digest.Update([105] + Word(|encoded|) + encoded);
    case StrValue(t) =>
      ok := UpdateText(digest, t);
    case DateTimeValue(iso) =>
      digest.Update([100] + Word(|iso|) + iso);
    case OtherValue =>
      ok := false;
  }

  method UpdateRecord(digest: Digest, name: Text, fields: seq<Field>) returns (ok: bool)
    requires FitsText(name) && |fields| < WORD && forall f <- fields :: FitsText(f.name) && Fits(f.value)
    modifies digest
    ensures ok == (Strict(name) && FieldsStable(fields))
    ensures ok ==>
      digest.data == old(digest.data) + ([99] + (EncodeText(name) + (Word(|fields|) + EncodeFields(fields))))
    decreases fields, 1
  {
    ghost var was := digest.data;
    digest.Update([99]);
    ok := UpdateText(digest, name);
    if !ok { return false; }
    digest.Update(Word(|fields|));
    ok := UpdateFields(digest, fields);
    if ok {
      Join(was + [99] + EncodeText(name), Word(|fields|), EncodeFields(fields));
      Assoc(was, [99], EncodeText(name), Word(|fields|) + EncodeFields(fields));
    }
  }

  lemma EnumStreamSteps(was: Bytes, name: Text, member: Bytes)
    requires Strict(name) && FitsText(name)
    ensures was + ([116] + Word(3)) + EncodeEnumTag() + EncodeText(name) + member == was + EnumStream(name, member)
  {
    var a, b := EncodeEnumTag(), EncodeText(name);
    Assoc(was, [116] + Word(3), a, b + member);
    Join(was + ([116] + Word(3)) + a, b, member);
    Join(was + ([116] + Word(3)), a, b + member);
  }

  method UpdateEnum(digest: Digest, name: Text, member: Value) returns (ok: bool)
    requires FitsText(name) && Fits(member)
    modifies digest
    ensures ok == (Strict(name) && Stable(member))
    ensures ok ==> digest.data == old(digest.data) + EnumStream(name, Encode(member))
    decreases member, 3
  {
    ghost var was := digest.data;
    EnumIsStrict();
    digest.Update([116] + Word(3));
    ok := UpdateText(digest, ENUM);
    if !ok { return false; }
    ok := UpdateText(digest, name);
    if !ok { return false; }
    ok := UpdateStableDigest(digest, member);
    if ok { EnumStreamSteps(was, name, Encode(member)); }
  }

  method UpdateField(digest: Digest, f: Field) returns (ok: bool)
    requires FitsText(f.name) && Fits(f.value)
    modifies digest
    ensures ok == (Strict(f.name) && Stable(f.value))
    ensures ok ==> digest.data == old(digest.data) + EncodeField(f)
    decreases f
  {
    ghost var was := digest.data;
    ok := UpdateText(digest, f.name);
    if ok {
      ok := UpdateStableDigest(digest, f.value);
      if ok { Join(was, EncodeText(f.name), Encode(f.value)); }
    }
  }

  method UpdateFields(digest: Digest, fields: seq<Field>) returns (ok: bool)
    requires forall f <- fields :: FitsText(f.name) && Fits(f.value)
    modifies digest
    ensures ok == FieldsStable(fields)
    ensures ok ==> digest.data == old(digest.data) + EncodeFields(fields)
    decreases fields, 0
  {
    ghost var was := digest.data;
    for i := 0 to |fields|
      invariant FieldsStable(fields[..i])
      invariant FieldsStable(fields) ==> digest.data + EncodeFields(fields[i..]) == was + EncodeFields(fields)
    {
      var f := fields[i];
      assert f in fields;
      ghost var start := digest.data;
      ok := UpdateField(digest, f);
      if !ok { return false; }
      assert fields[i..][1..] == fields[i + 1..];
      if FieldsStable(fields) { Join(start, EncodeField(f), EncodeFields(fields[i + 1..])); }
    }
    return true;
  }

  method UpdateItems(digest: Digest, items: seq<Value>) returns (ok: bool)
    requires forall v <- items :: Fits(v)
    modifies digest
    ensures ok == AllStable(items)
    ensures ok ==> digest.data == old(digest.data) + EncodeAll(items)
    decreases items, 0
  {
    ghost var was := digest.data;
    for i := 0 to |items|
      invariant AllStable(items[..i])
      invariant AllStable(items) ==> digest.data + EncodeAll(items[i..]) == was + EncodeAll(items)
    {
      var v := items[i];
      assert v in items;
      ghost var start := digest.data;
      ok := UpdateStableDigest(digest, v);
      if !ok { return false; }
      assert items[i..][1..] == items[i + 1..];
      if AllStable(items) { Join(start, Encode(v), EncodeAll(items[i + 1..])); }
    }
    return true;
  }

  method UpdateSequence(digest: Digest, tag: Byte, items: seq<Value>) returns (ok: bool)
    requires |items| < WORD && forall v <- items :: Fits(v)
    modifies digest
    ensures ok == AllStable(items)
    ensures ok ==> digest.data == old(digest.data) + ([tag] + Word(|items|) + EncodeAll(items))
    decreases items, 1
  {
    ghost var was := digest.data;
    digest.Update([tag]);
    digest.Update(Word(|items|));
    ok := UpdateItems(digest, items);
    if ok {
      Join(was, [tag], Word(|items|));
      Join(was, [tag] + Word(|items|), EncodeAll(items));
    }
  }

  /** `_collection_fingerprint`; None is the validation error. */
  method CollectionFingerprint(sha: Bytes -> Bytes, rows: seq<Value>) returns (r: Option<Bytes>)
    requires |rows| < WORD && forall v <- rows :: Fits(v)
    ensures r.Some? <==> AllWritable(rows)
    ensures r.Some? ==> r.value == sha(CollectionStream(rows))
  {
    var digest := new Digest();
    digest.Update(LIST_MARK);
    var count := 0;
    for i := 0 to |rows|
      invariant fresh(digest) && count == i
      invariant AllStable(rows[..i])
      invariant AllStable(rows) ==> digest.data + EncodeAll(rows[i..]) == LIST_MARK + EncodeAll(rows)
    {
      var row := rows[i];
      assert row in rows;
      ghost var start := digest.data;
      var ok := UpdateStableDigest(digest, row);
      if !ok { return None; }
      assert rows[i..][1..] == rows[i + 1..];
      if AllStable(rows) { Join(start, Encode(row), EncodeAll(rows[i + 1..])); }
      count := count + 1;
    }
    assert AllStable(rows) by { assert rows[..|rows|] == rows; }
    assert digest.data + EncodeAll([]) == digest.data;
    digest.Update(Word(count));
    return Some(sha(digest.data));
  }

  method UpdateOptional(digest: Digest, v: Option<Text>) returns (ok: bool)
    requires v.Some? ==> FitsText(v.value)
    modifies digest
    ensures ok == (v.Some? ==> Strict(v.value))
    ensures digest.data == old(digest.data) + if ok then EncodeOptional(v) else []
  {
    var encoded := [];
    if v.Some? {
      if !Strict(v.value) { return false; }
      encoded := Utf8.Encode(v.value);
    }
    digest.Update((if v.None? then [0] else [1]) + Word(|encoded|) + encoded);
    return true;
  }

  /** `_fingerprint(*values)`; None is the validation error. */
  method Fingerprint(sha: Bytes -> Bytes, values: seq<Option<Text>>) returns (r: Option<Bytes>)
    requires forall v <- values :: v.Some? ==> FitsText(v.value)
    ensures r.Some? <==> TextsWritable(values)
    ensures r.Some? ==> r.value == sha(FingerprintStream(values))
  {
    var digest := new Digest();
    for i := 0 to |values|
      invariant fresh(digest) && TextsWritable(values[..i])
      invariant TextsWritable(values) ==>
        digest.data + FingerprintStream(values[i..]) == FingerprintStream(values)
    {
      var v := values[i];
      assert v in values;
      ghost var start := digest.data;
      var ok := UpdateOptional(digest, v);
      if !ok { return None; }
      assert values[i..][1..] == values[i + 1..];
      if TextsWritable(values) { Join(start, EncodeOptional(v), FingerprintStream(values[i + 1..])); }
    }
    assert TextsWritable(values) by { assert values[..|values|] == values; }
    assert digest.data + FingerprintStream([]) == digest.data;
    return Some(sha(digest.data));
  }
}
