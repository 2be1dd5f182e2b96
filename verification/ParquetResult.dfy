/** `_result_rows`: the parent's reading of the rows a child reports. */
module ParquetResult {
  import opened Wrappers
  import opened Bytes
  import opened Utf8
  import opened PreviewLimits
  import opened ParquetDecode
  import opened ParquetRows
  import opened ParquetAdmission

  /** Too large, not a result, an unknown kind (a ValueError), or no kind at all (a KeyError). */
  datatype RowsFailure = TooLarge | NotAResult | UnknownKind | NoKind

  function KindName(k: Kind): Text {
    match k
    case NullKind => Ascii("null")
    case EmptyKind => Ascii("empty")
    case ScalarKind => Ascii("scalar")
    case NestedKind => Ascii("nested")
    case MissingKind => Ascii("missing")
  }

  function KindOf(w: Wire): Option<Kind> {
    if w == Str(Ascii("null")) then Some(NullKind)
    else if w == Str(Ascii("empty")) then Some(EmptyKind)
    else if w == Str(Ascii("scalar")) then Some(ScalarKind)
    else if w == Str(Ascii("nested")) then Some(NestedKind)
    else if w == Str(Ascii("missing")) then Some(MissingKind)
    else None
  }

  lemma KindOfName(k: Kind)
    ensures KindOf(Str(KindName(k))) == Some(k)
  {
    assert Ascii("scalar")[0] != Ascii("nested")[0];
  }

  function ReadCell(w: Wire): Result<Cell, RowsFailure> {
    if !(w.Object? && IsText(Get(w.entries, "text"), MAX_CELL_CHARS) && Get(w.entries, "truncated").Bool?)
    then Err(TooLarge)
    else if "kind" !in w.entries then Err(NoKind)
    else match KindOf(w.entries["kind"])
      case None => Err(UnknownKind)
      case Some(kind) => Ok(Cell(Get(w.entries, "text").text, kind, Get(w.entries, "truncated").b))
  }

  /** The first n readings, or the failure of the first that cannot be read. */
  function Traverse<T>(items: seq<Wire>, n: nat, read: Wire -> Result<T, RowsFailure>): (r: Result<seq<T>, RowsFailure>)
    requires n <= |items|
    ensures r.Ok? ==> |r.value| == n
  {
    if n == 0 then Ok([])
    else match Traverse(items, n - 1, read)
      case Err(e) => Err(e)
      case Ok(before) =>
        match read(items[n - 1])
        case Err(e) => Err(e)
        case Ok(x) => Ok(before + [x])
  }

  function ReadRow(w: Wire, width: nat): Result<Row, RowsFailure> {
    if !w.Array? || |w.items| != width then Err(TooLarge) else Traverse(w.items, width, ReadCell)
  }

  function RowReader(width: nat): Wire -> Result<Row, RowsFailure> {
    w => ReadRow(w, width)
  }

  /** The rows the parent shows, given the number of columns and the characters of headers and notes. */
  function Reported(m: Message, width: nat, headers: nat): Result<seq<Row>, RowsFailure> {
    if Get(m, "phase") != Str(Ascii("result")) then Err(NotAResult)
    else if !Get(m, "rows").Array? || |Get(m, "rows").items| > MAX_ROWS then Err(TooLarge)
    else Bounded(Traverse(Get(m, "rows").items, |Get(m, "rows").items|, RowReader(width)), headers)
  }

  function Bounded(rows: Result<seq<Row>, RowsFailure>, headers: nat): Result<seq<Row>, RowsFailure> {
    if rows.Ok? && headers + Chars(rows.value) > MAX_RENDER_CHARS then Err(TooLarge) else rows
  }

  lemma {:induction false} StaysErr<T>(items: seq<Wire>, k: nat, n: nat, read: Wire -> Result<T, RowsFailure>)
    requires k <= n <= |items| && Traverse(items, k, read).Err?
    ensures Traverse(items, n, read) == Traverse(items, k, read)
  {
    if k < n { StaysErr(items, k, n - 1, read); }
  }

  /** The inner loop of `_result_rows`, over the cells of one row. */
  method TakeCells(items: seq<Wire>, read: Wire -> Result<Cell, RowsFailure>, characters: nat)
    returns (r: Result<(Row, nat), RowsFailure>)
    ensures r == match Traverse(items, |items|, read)
              case Err(e) => Err(e)
              case Ok(row) => Ok((row, characters + RowChars(row)))
  {
    var cells: Row, total := [], characters;
    for j := 0 to |items|
      invariant Traverse(items, j, read) == Ok(cells) && total == characters + RowChars(cells)
    {
      var cell := read(items[j]);
      if cell.Err? {
        StaysErr(items, j + 1, |items|, read);
        return Err(cell.error);
      }
      RowCharsStep(cells, cell.value);
      total := total + |cell.value.text|;
      cells := cells + [cell.value];
    }
    return Ok((cells, total));
  }

  lemma TraverseStep<T>(items: seq<Wire>, i: nat, read: Wire -> Result<T, RowsFailure>, before: seq<T>)
    requires i < |items| && Traverse(items, i, read) == Ok(before)
    ensures Traverse(items, i + 1, read) ==
      match read(items[i]) case Err(e) => Err(e) case Ok(x) => Ok(before + [x])
  {
  }

  lemma RowReaderAt(w: Wire, width: nat)
    ensures RowReader(width)(w) == ReadRow(w, width)
  {
  }

  /** The body of the outer loop. */
  method TakeRow(item: Wire, width: nat, characters: nat) returns (r: Result<(Row, nat), RowsFailure>)
    ensures r == match ReadRow(item, width)
              case Err(e) => Err(e)
              case Ok(row) => Ok((row, characters + RowChars(row)))
  {
    if !item.Array? || |item.items| != width { return Err(TooLarge); }
    r := TakeCells(item.items, ReadCell, characters);
  }

  /** Its outer loop, over the rows. */
  method TakeRows(items: seq<Wire>, width: nat, characters: nat) returns (r: Result<(seq<Row>, nat), RowsFailure>)
    ensures r == match Traverse(items, |items|, RowReader(width))
              case Err(e) => Err(e)
              case Ok(rows) => Ok((rows, characters + Chars(rows)))
  {
    var rows: seq<Row>, total := [], characters;
    for i := 0 to |items|
      invariant Traverse(items, i, RowReader(width)) == Ok(rows) && total == characters + Chars(rows)
    {
      var row := TakeRow(items[i], width, total);
      if row.Err? {
        RowFails(items, i, width, rows, row.error);
        return Err(row.error);
      }
      RowTaken(items, i, width, rows, row.value.0);
      rows := rows + [row.value.0];
      total := row.value.1;
    }
    return Ok((rows, total));
  }

  lemma RowFails(items: seq<Wire>, i: nat, width: nat, before: seq<Row>, e: RowsFailure)
    requires i < |items| && Traverse(items, i, RowReader(width)) == Ok(before) && ReadRow(items[i], width) == Err(e)
    ensures Traverse(items, |items|, RowReader(width)) == Err(e)
  {
    RowReaderAt(items[i], width);
    TraverseStep(items, i, RowReader(width), before);
    StaysErr(items, i + 1, |items|, RowReader(width));
  }

  lemma RowTaken(items: seq<Wire>, i: nat, width: nat, before: seq<Row>, row: Row)
    requires i < |items| && Traverse(items, i, RowReader(width)) == Ok(before) && ReadRow(items[i], width) == Ok(row)
    ensures Traverse(items, i + 1, RowReader(width)) == Ok(before + [row])
    ensures Chars(before + [row]) == Chars(before) + RowChars(row)
  {
    RowReaderAt(items[i], width);
    TraverseStep(items, i, RowReader(width), before);
    CharsStep(before, row);
  }

  /** `_result_rows`, given the number of columns and the characters of headers and notes. */
  method ReadReport(m: Message, width: nat, headers: nat) returns (r: Result<seq<Row>, RowsFailure>)
    ensures r == Reported(m, width, headers)
  {
    if Get(m, "phase") != Str(Ascii("result")) { return Err(NotAResult); }
    var rows := Get(m, "rows");
    if !rows.Array? || |rows.items| > MAX_ROWS { return Err(TooLarge); }
    var taken := TakeRows(rows.items, width, headers);
    if taken.Err? { return Err(taken.error); }
    if taken.value.1 > MAX_RENDER_CHARS { return Err(TooLarge); }
    return Ok(taken.value.0);
  }

  // ------------------------------------------------------------------ agreement

  function CellMessage(c: Cell): Wire {
    Object(map["text" := Str(c.text), "kind" := Str(KindName(c.kind)), "truncated" := Bool(c.truncated)])
  }

  function RowMessage(row: Row): (r: Wire)
    ensures r.Array? && |r.items| == |row| && forall j :: 0 <= j < |row| ==> r.items[j] == CellMessage(row[j])
  {
    Array(seq(|row|, j requires 0 <= j < |row| => CellMessage(row[j])))
  }

  function RowMessages(rows: seq<Row>): (r: seq<Wire>)
    ensures |r| == |rows| && forall i :: 0 <= i < |rows| ==> r[i] == RowMessage(rows[i])
  {
    seq(|rows|, i requires 0 <= i < |rows| => RowMessage(rows[i]))
  }

  /** The message a child sends for its rows, as the parent decodes it. */
  function ResultMessage(rows: seq<Row>): Message {
    map["phase" := Str(Ascii("result")), "rows" := Array(RowMessages(rows))]
  }

  lemma CellSurvives(c: Cell)
    requires |c.text| <= MAX_CELL_CHARS
    ensures ReadCell(CellMessage(c)) == Ok(c)
  {
    KindOfName(c.kind);
  }

  /** Items that can all be read are read one by one. */
  lemma {:induction false} TraverseAll<T>(
    items: seq<Wire>, n: nat, read: Wire -> Result<T, RowsFailure>, values: seq<T>)
    requires n <= |items| && |values| == |items|
    requires forall i :: 0 <= i < n ==> read(items[i]) == Ok(values[i])
    ensures Traverse(items, n, read) == Ok(values[..n])
  {
    if n > 0 {
      TraverseAll(items, n - 1, read, values);
      TraverseStep(items, n - 1, read, values[..n - 1]);
      assert values[..n] == values[..n - 1] + [values[n - 1]];
    }
  }

  lemma RowSurvives(row: Row)
    requires CellsShort(row)
    ensures RowReader(|row|)(RowMessage(row)) == Ok(row)
  {
    var items := RowMessage(row).items;
    forall j | 0 <= j < |row| ensures ReadCell(items[j]) == Ok(row[j]) { CellSurvives(row[j]); }
    TraverseAll(items, |row|, ReadCell, row);
    assert row[..|row|] == row;
  }

  lemma RowsSurvive(rows: seq<Row>, width: nat)
    requires RowsFit(rows, width)
    ensures Traverse(RowMessages(rows), |rows|, RowReader(width)) == Ok(rows)
  {
    var items, read := RowMessages(rows), RowReader(width);
    forall i | 0 <= i < |rows| ensures read(items[i]) == Ok(rows[i]) { RowSurvives(rows[i]); }
    TraverseAll(items, |rows|, read, rows);
    assert rows[..|rows|] == rows;
  }

  lemma ResultFields(rows: seq<Row>)
    ensures Get(ResultMessage(rows), "phase") == Str(Ascii("result"))
    ensures Get(ResultMessage(rows), "rows") == Array(RowMessages(rows))
  {
  }

  /** The parent shows what a correct child decoded: same rows, same character total. */
  lemma ResultAccepted(rows: seq<Row>, width: nat, headers: nat)
    requires RowsFit(rows, width) && |rows| <= MAX_ROWS
    ensures Reported(ResultMessage(rows), width, headers) ==
      if headers + Chars(rows) <= MAX_RENDER_CHARS then Ok(rows) else Err(TooLarge)
  {
    ResultFields(rows);
    var items := RowMessages(rows);
    RowsSurvive(rows, width);
    assert Traverse(items, |items|, RowReader(width)) == Ok(rows);
  }

  lemma {:induction false} CellsReadShort(items: seq<Wire>, n: nat)
    requires n <= |items| && Traverse(items, n, ReadCell).Ok?
    ensures CellsShort(Traverse(items, n, ReadCell).value)
  {
    if n > 0 { CellsReadShort(items, n - 1); }
  }

  lemma {:induction false} RowsReadFit(items: seq<Wire>, n: nat, width: nat)
    requires n <= |items| && Traverse(items, n, RowReader(width)).Ok?
    ensures RowsFit(Traverse(items, n, RowReader(width)).value, width)
  {
    if n > 0 {
      RowsReadFit(items, n - 1, width);
      assert RowReader(width)(items[n - 1]) == ReadRow(items[n - 1], width);
      CellsReadShort(items[n - 1].items, width);
    }
  }

  /** Whatever a child reports, what the parent shows is within the same limits. */
  lemma ReportedIsBounded(m: Message, width: nat, headers: nat)
    requires Reported(m, width, headers).Ok?
    ensures var rows := Reported(m, width, headers).value;
            |rows| <= MAX_ROWS && RowsFit(rows, width) && headers + Chars(rows) <= MAX_RENDER_CHARS
  {
    var items := Get(m, "rows").items;
    RowsReadFit(items, |items|, width);
  }
}
