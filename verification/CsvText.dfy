/**
 The normalized CSV text of a result, and an independent reader for it: records
 and quoting as in section 2 of RFC 4180 with LF line ends, \N for NULL, and
 doubled backslashes in data.
 */
module CsvText {
  import opened Wrappers
  import Utf8

  type Text = Utf8.Text
  type Cell = Option<Text>
  type Row = seq<Cell>

  const LF: Utf8.CodePoint := 10
  const CR: Utf8.CodePoint := 13
  const QUOTE: Utf8.CodePoint := 34
  const COMMA: Utf8.CodePoint := 44
  const LETTER_N: Utf8.CodePoint := 78
  const BACKSLASH: Utf8.CodePoint := 92
  const NULL: Text := [BACKSLASH, LETTER_N]

  // ------------------------------------------------------------------ writing

  /** `t.replace(c, c + c)`. */
  function Doubled(t: Text, c: Utf8.CodePoint): Text {
    if t == [] then []
    else (if t[0] == c then [c, c] else [t[0]]) + Doubled(t[1..], c)
  }

  predicate Special(c: Utf8.CodePoint) {
    c == COMMA || c == QUOTE || c == CR || c == LF
  }

  predicate Quoted(t: Text, width: nat) {
    (width == 1 && t == []) || exists i :: 0 <= i < |t| && Special(t[i])
  }

  function Body(t: Text, header: bool): Text {
    Doubled(if header then t else Doubled(t, BACKSLASH), QUOTE)
  }

  function Field(cell: Cell, width: nat, header: bool): Text {
    match cell
    case None => NULL
    case Some(t) => if Quoted(t, width) then [QUOTE] + (Body(t, header) + [QUOTE]) else Body(t, header)
  }

  function Fields(row: Row, width: nat, header: bool): Text {
    if row == [] then []
    else Field(row[0], width, header) + (if |row| == 1 then [] else [COMMA] + Fields(row[1..], width, header))
  }

  function Record(row: Row, header: bool): Text {
    Fields(row, |row|, header) + [LF]
  }

  function Records(rows: seq<Row>): Text {
    if rows == [] then [] else Record(rows[0], false) + Records(rows[1..])
  }

  function Names(names: seq<Text>): (r: Row)
    ensures |r| == |names| && forall i :: 0 <= i < |r| ==> r[i] == Some(names[i])
  {
    seq(|names|, i requires 0 <= i < |names| => Some(names[i]))
  }

  function Table(names: seq<Text>, rows: seq<Row>): Text {
    Record(Names(names), true) + Records(rows)
  }

  // ------------------------------------------------------------------ reading

  datatype Raw = Raw(quoted: bool, text: Text)

  datatype Scan<+T> = Scan(value: T, rest: Text)

  /** The content of a quoted field, up to the quote that closes it. */
  function ScanQuoted(t: Text): (r: Option<Scan<Text>>)
    ensures r.Some? ==> |r.value.rest| < |t|
  {
    if t == [] then None
    else if t[0] != QUOTE then Push(t[0], ScanQuoted(t[1..]))
    else if |t| > 1 && t[1] == QUOTE then Push(QUOTE, ScanQuoted(t[2..]))
    else Some(Scan([], t[1..]))
  }

  function Push(c: Utf8.CodePoint, s: Option<Scan<Text>>): Option<Scan<Text>> {
    if s.None? then None else Some(Scan([c] + s.value.value, s.value.rest))
  }

  /** The content of an unquoted field, which holds no quote and no line break of either kind. */
  function ScanPlain(t: Text): (r: Option<Scan<Text>>)
    ensures r.Some? ==> |r.value.rest| <= |t|
  {
    if t == [] || t[0] == COMMA || t[0] == LF then Some(Scan([], t))
    else if t[0] == QUOTE || t[0] == CR then None
    else Push(t[0], ScanPlain(t[1..]))
  }

  function ScanField(t: Text): (r: Option<Scan<Raw>>)
    ensures r.Some? ==> |r.value.rest| <= |t|
  {
    if t != [] && t[0] == QUOTE then
      match ScanQuoted(t[1..])
      case None => None
      case Some(s) => Some(Scan(Raw(true, s.value), s.rest))
    else
      match ScanPlain(t)
      case None => None
      case Some(s) => Some(Scan(Raw(false, s.value), s.rest))
  }

  function ScanFields(t: Text): (r: Option<Scan<seq<Raw>>>)
    ensures r.Some? ==> |r.value.rest| < |t|
    decreases |t|
  {
    match ScanField(t)
    case None => None
    case Some(f) =>
      if f.rest == [] then None
      else if f.rest[0] == LF then Some(Scan([f.value], f.rest[1..]))
      else if f.rest[0] == COMMA then
        match ScanFields(f.rest[1..])
        case None => None
        case Some(s) => Some(Scan([f.value] + s.value, s.rest))
      else None
  }

  /** An empty line is the record without fields: a lone empty field is quoted. */
  function ScanRecord(t: Text): (r: Option<Scan<seq<Raw>>>)
    ensures r.Some? ==> |r.value.rest| < |t|
  {
    if t != [] && t[0] == LF then Some(Scan([], t[1..])) else ScanFields(t)
  }

  function Unescape(t: Text): Option<Text> {
    if t == [] then Some([])
    else if t[0] != BACKSLASH then Cons(t[0], Unescape(t[1..]))
    else if |t| > 1 && t[1] == BACKSLASH then Cons(BACKSLASH, Unescape(t[2..]))
    else None
  }

  function Cons(c: Utf8.CodePoint, t: Option<Text>): Option<Text> {
    if t.None? then None else Some([c] + t.value)
  }

  /** NULL is the unquoted field \N; every other field is unescaped. */
  function CellOf(f: Raw): Option<Cell> {
    if !f.quoted && f.text == NULL then Some(None)
    else match Unescape(f.text)
      case None => None
      case Some(t) => Some(Some(t))
  }

  function CellsOf(fs: seq<Raw>): Option<Row> {
    if fs == [] then Some([])
    else match (CellOf(fs[0]), CellsOf(fs[1..]))
      case (Some(c), Some(cs)) => Some([c] + cs)
      case _ => None
  }

  function NamesOf(fs: seq<Raw>): seq<Text> {
    if fs == [] then [] else [fs[0].text] + NamesOf(fs[1..])
  }

  function ReadRecords(t: Text): Option<seq<Row>>
    decreases |t|
  {
    if t == [] then Some([])
    else match ScanRecord(t)
      case None => None
      case Some(s) => match (CellsOf(s.value), ReadRecords(s.rest))
        case (Some(row), Some(rows)) => Some([row] + rows)
        case _ => None
  }

  datatype Result = Result(names: seq<Text>, rows: seq<Row>)

  function Read(t: Text): Option<Result> {
    match ScanRecord(t)
    case None => None
    case Some(s) => match ReadRecords(s.rest)
      case None => None
      case Some(rows) => Some(Result(NamesOf(s.value), rows))
  }

  // -------------------------------------------------------------- round trips

  lemma ScanQuotedStep(c: Utf8.CodePoint, tail: Text, t: Text, rest: Text)
    requires ScanQuoted(tail) == Some(Scan(t, rest))
    ensures ScanQuoted((if c == QUOTE then [QUOTE, QUOTE] else [c]) + tail) == Some(Scan([c] + t, rest))
  {
    assert ([QUOTE, QUOTE] + tail)[2..] == tail && ([c] + tail)[1..] == tail;
  }

  lemma {:induction false} ScanQuotedOfDoubled(t: Text, rest: Text)
    requires rest == [] || rest[0] != QUOTE
    ensures ScanQuoted(Doubled(t, QUOTE) + ([QUOTE] + rest)) == Some(Scan(t, rest))
  {
    var after := [QUOTE] + rest;
    if t == [] {
      assert Doubled(t, QUOTE) + after == after;
      assert after[1..] == rest;
    } else {
      var tail := Doubled(t[1..], QUOTE) + after;
      ScanQuotedOfDoubled(t[1..], rest);
      ScanQuotedStep(t[0], tail, t[1..], rest);
      assert Doubled(t, QUOTE) + after == (if t[0] == QUOTE then [QUOTE, QUOTE] else [t[0]]) + tail;
      assert [t[0]] + t[1..] == t;
    }
  }

  predicate Plain(t: Text) {
    forall i :: 0 <= i < |t| ==> !Special(t[i])
  }

  lemma {:induction false} DoubledPlain(t: Text, c: Utf8.CodePoint)
    requires Plain(t)
    ensures Plain(Doubled(t, c))
    ensures c == QUOTE ==> Doubled(t, c) == t
  {
    if t != [] {
      DoubledPlain(t[1..], c);
      assert t == [t[0]] + t[1..];
    }
  }

  lemma {:induction false} ScanPlainOf(t: Text, rest: Text)
    requires Plain(t) && rest != [] && (rest[0] == COMMA || rest[0] == LF)
    ensures ScanPlain(t + rest) == Some(Scan(t, rest))
  {
    if t == [] {
      assert t + rest == rest;
    } else {
      assert (t + rest)[1..] == t[1..] + rest;
      ScanPlainOf(t[1..], rest);
      assert t == [t[0]] + t[1..];
    }
  }

  /** The raw field a cell is written as. */
  function RawOf(cell: Cell, width: nat, header: bool): Raw {
    match cell
    case None => Raw(false, NULL)
    case Some(t) => Raw(Quoted(t, width), if header then t else Doubled(t, BACKSLASH))
  }

  lemma ScanFieldQuoted(body: Text, text: Text, rest: Text)
    requires ScanQuoted(body + ([QUOTE] + rest)) == Some(Scan(text, rest))
    ensures ScanField([QUOTE] + (body + [QUOTE]) + rest) == Some(Scan(Raw(true, text), rest))
  {
    assert ([QUOTE] + (body + [QUOTE]) + rest)[1..] == body + ([QUOTE] + rest);
  }

  lemma ScanFieldOf(cell: Cell, width: nat, header: bool, rest: Text)
    requires rest != [] && (rest[0] == COMMA || rest[0] == LF)
    ensures ScanField(Field(cell, width, header) + rest) == Some(Scan(RawOf(cell, width, header), rest))
  {
    var text := RawOf(cell, width, header).text;
    if cell.None? || !Quoted(cell.value, width) {
      if cell.Some? {
        DoubledPlain(cell.value, BACKSLASH);
        DoubledPlain(text, QUOTE);
      }
      ScanPlainOf(text, rest);
    } else {
      ScanQuotedOfDoubled(text, rest);
      ScanFieldQuoted(Doubled(text, QUOTE), text, rest);
    }
  }

  function RawsOf(row: Row, width: nat, header: bool): seq<Raw> {
    if row == [] then [] else [RawOf(row[0], width, header)] + RawsOf(row[1..], width, header)
  }

  lemma ScanFieldsMore(t: Text, raw: Raw, tail: Text, raws: seq<Raw>, rest: Text)
    requires ScanField(t) == Some(Scan(raw, [COMMA] + tail))
    requires ScanFields(tail) == Some(Scan(raws, rest))
    ensures ScanFields(t) == Some(Scan([raw] + raws, rest))
  {
    assert ([COMMA] + tail)[1..] == tail;
  }

  lemma Assoc3(a: Text, b: Text, c: Text, d: Text)
    ensures (a + (b + c)) + d == a + (b + (c + d))
  {
  }

  lemma {:induction false} ScanFieldsOf(row: Row, width: nat, header: bool, rest: Text)
    requires row != []
    ensures ScanFields(Fields(row, width, header) + ([LF] + rest)) == Some(Scan(RawsOf(row, width, header), rest))
  {
    var field, raw, line := Field(row[0], width, header), RawOf(row[0], width, header), [LF] + rest;
    if |row| == 1 {
      ScanFieldOf(row[0], width, header, line);
      assert Fields(row, width, header) == field;
      assert RawsOf(row, width, header) == [raw];
    } else {
      var others := row[1..];
      var tail := Fields(others, width, header) + line;
      ScanFieldsOf(others, width, header, rest);
      ScanFieldOf(row[0], width, header, [COMMA] + tail);
      ScanFieldsMore(field + ([COMMA] + tail), raw, tail, RawsOf(others, width, header), rest);
      Assoc3(field, [COMMA], Fields(others, width, header), line);
    }
  }

  lemma ScanRecordLine(fields: Text, raws: seq<Raw>, rest: Text)
    requires (fields + [LF])[0] != LF && ScanFields(fields + ([LF] + rest)) == Some(Scan(raws, rest))
    ensures ScanRecord((fields + [LF]) + rest) == Some(Scan(raws, rest))
  {
    assert (fields + [LF]) + rest == fields + ([LF] + rest);
  }

  lemma ScanRecordOf(row: Row, header: bool, rest: Text)
    ensures ScanRecord(Record(row, header) + rest) == Some(Scan(RawsOf(row, |row|, header), rest))
  {
    if row == [] {
      assert Record(row, header) == [LF];
      assert ([LF] + rest)[1..] == rest;
    } else {
      ScanFieldsOf(row, |row|, header, rest);
      ScanRecordLine(Fields(row, |row|, header), RawsOf(row, |row|, header), rest);
    }
  }

  lemma {:induction false} UnescapeOfDoubled(t: Text)
    ensures Unescape(Doubled(t, BACKSLASH)) == Some(t)
    ensures Doubled(t, BACKSLASH) != NULL
  {
    if t != [] {
      UnescapeOfDoubled(t[1..]);
      var d, tail := Doubled(t, BACKSLASH), Doubled(t[1..], BACKSLASH);
      if t[0] == BACKSLASH { assert d[2..] == tail && d[1] == BACKSLASH; } else { assert d[1..] == tail; }
      assert t == [t[0]] + t[1..];
    }
  }

  lemma {:induction false} CellsOfRaws(row: Row, width: nat)
    ensures CellsOf(RawsOf(row, width, false)) == Some(row)
  {
    if row != [] {
      if row[0].Some? { UnescapeOfDoubled(row[0].value); }
      CellsOfRaws(row[1..], width);
      assert RawsOf(row, width, false)[1..] == RawsOf(row[1..], width, false);
      assert row == [row[0]] + row[1..];
    }
  }

  lemma {:induction false} NamesOfRaws(names: seq<Text>, width: nat)
    ensures NamesOf(RawsOf(Names(names), width, true)) == names
  {
    if names != [] {
      NamesOfRaws(names[1..], width);
      assert Names(names)[1..] == Names(names[1..]);
      assert names == [names[0]] + names[1..];
    }
  }

  lemma {:induction false} ReadRecordsOf(rows: seq<Row>)
    ensures ReadRecords(Records(rows)) == Some(rows)
  {
    if rows != [] {
      var line, rest := Record(rows[0], false), Records(rows[1..]);
      ReadRecordsOf(rows[1..]);
      ReadRecordsFirst(rows[0], rest);
      ReadRecordsStep(line + rest, RawsOf(rows[0], |rows[0]|, false), rest, rows[0], rows[1..]);
      assert rows == [rows[0]] + rows[1..];
    }
  }

  lemma ReadRecordsFirst(row: Row, rest: Text)
    ensures ScanRecord(Record(row, false) + rest) == Some(Scan(RawsOf(row, |row|, false), rest))
    ensures CellsOf(RawsOf(row, |row|, false)) == Some(row)
  {
    ScanRecordOf(row, false, rest);
    CellsOfRaws(row, |row|);
  }

  lemma ReadRecordsStep(t: Text, raws: seq<Raw>, rest: Text, row: Row, rows: seq<Row>)
    requires t != [] && ScanRecord(t) == Some(Scan(raws, rest)) && CellsOf(raws) == Some(row)
    requires ReadRecords(rest) == Some(rows)
    ensures ReadRecords(t) == Some([row] + rows)
  {
  }

  /** Reading the written table returns its names and rows, for every table. */
  lemma ReadOfTable(names: seq<Text>, rows: seq<Row>)
    ensures Read(Table(names, rows)) == Some(Result(names, rows))
  {
    ScanRecordOf(Names(names), true, Records(rows));
    NamesOfRaws(names, |names|);
    ReadRecordsOf(rows);
  }

  // ------------------------------------------------------- no needless quotes

  lemma {:induction false} ScannedIsPlain(t: Text, rest: Text)
    requires ScanPlain(t + rest).Some? && ScanPlain(t + rest).value.rest == rest
    ensures Plain(t)
  {
    if t != [] {
      assert (t + rest)[1..] == t[1..] + rest;
      ScannedIsPlain(t[1..], rest);
    }
  }

  lemma {:induction false} PlainOfDoubled(t: Text, c: Utf8.CodePoint)
    requires Plain(Doubled(t, c))
    ensures Plain(t)
  {
    if t != [] {
      var first, others := if t[0] == c then [c, c] else [t[0]], Doubled(t[1..], c);
      assert first[0] == t[0] && Doubled(t, c)[|first|..] == others;
      PlainOfDoubled(t[1..], c);
    }
  }

  /**
   A cell is quoted exactly where its text alone would not read back: it would
   end early, be refused, or leave the line of a lone field empty.
   */
  lemma QuotedWhereNeeded(t: Text, width: nat, header: bool)
    ensures Quoted(t, width) <==>
      (width == 1 && t == [])
      || ScanField(Body(t, header) + [LF]) != Some(Scan(Raw(false, if header then t else Doubled(t, BACKSLASH)), [LF]))
  {
    var text := if header then t else Doubled(t, BACKSLASH);
    if Plain(t) {
      DoubledPlain(t, BACKSLASH);
      DoubledPlain(text, QUOTE);
      ScanPlainOf(text, [LF]);
    } else if ScanField(Body(t, header) + [LF]) == Some(Scan(Raw(false, text), [LF])) {
      ScannedIsPlain(Body(t, header), [LF]);
      PlainOfDoubled(text, QUOTE);
      PlainOfDoubled(t, BACKSLASH);
    }
  }

  // ------------------------------------------------- escaping piece by piece

  lemma {:induction false} DoubledAppend(a: Text, b: Text, c: Utf8.CodePoint)
    ensures Doubled(a + b, c) == Doubled(a, c) + Doubled(b, c)
  {
    if a == [] {
      assert a + b == b;
    } else {
      assert (a + b)[1..] == a[1..] + b;
      DoubledAppend(a[1..], b, c);
    }
  }

  lemma BodyAppend(a: Text, b: Text, header: bool)
    ensures Body(a + b, header) == Body(a, header) + Body(b, header)
  {
    if header {
      DoubledAppend(a, b, QUOTE);
    } else {
      DoubledAppend(a, b, BACKSLASH);
      DoubledAppend(Doubled(a, BACKSLASH), Doubled(b, BACKSLASH), QUOTE);
    }
  }
}
