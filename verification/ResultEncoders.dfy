/**
 `ResultEncoder` and `encode_result_rows`.  A generator becomes a method that
 returns the fragments or chunks it would yield; `patience` is how many chunks
 the consumer takes before it closes the iterator, or None if it exhausts it.
 */
module ResultEncoders {
  import opened Wrappers
  import opened Bytes
  import Utf8
  import CsvText
  import JsonText

  type Text = Utf8.Text
  type Cell = Option<Text>
  type Row = seq<Cell>

  datatype Column = Column(name: Text, typeName: Text, nullable: Text)
  datatype Format = Csv | Json
  datatype Limits = Limits(maxBytes: int, maxRows: int, chunkBytes: int) {
    /** What `ExportLimits.__post_init__` checks of these budgets. */
    predicate Valid() {
      maxBytes >= 1 && maxRows >= 0 && chunkBytes >= 1
    }
  }
  datatype State = New | Ready | Streaming | Finished | Failed
  datatype Error = LimitError | DataError
  datatype Outcome = Completed | Abandoned | Raised(error: Error)

  // ------------------------------------------------------- joining fragments

  function Join<T>(parts: seq<seq<T>>): seq<T> {
    if parts == [] then [] else Join(parts[..|parts| - 1]) + parts[|parts| - 1]
  }

  /** One more fragment is yielded. */
  function Yield<T>(parts: seq<seq<T>>, part: seq<T>): (r: seq<seq<T>>)
    ensures r == parts + [part] && Join(r) == Join(parts) + part
  {
    assert (parts + [part])[..|parts|] == parts;
    parts + [part]
  }

  lemma JoinTake<T>(parts: seq<seq<T>>, i: nat)
    requires i < |parts|
    ensures Join(parts[..i + 1]) == Join(parts[..i]) + parts[i]
  {
    assert parts[..i + 1] == Yield(parts[..i], parts[i]);
  }

  lemma {:induction false} JoinAppend<T>(a: seq<seq<T>>, b: seq<seq<T>>)
    ensures Join(a + b) == Join(a) + Join(b)
  {
    if b == [] {
      assert a + b == a && Join(a) + [] == Join(a);
    } else {
      var n := |b| - 1;
      JoinAppend(a, b[..n]);
      assert (a + b)[..|a + b| - 1] == a + b[..n];
      Assoc(Join(a), Join(b[..n]), b[n]);
    }
  }

  lemma Assoc<T>(a: seq<T>, b: seq<T>, c: seq<T>)
    ensures (a + b) + c == a + (b + c)
  {
  }

  function Min(a: int, b: int): int {
    if a < b then a else b
  }

  // ---------------------------------------------------- what each step writes

  const COLUMNS: Text := [99, 111, 108, 117, 109, 110, 115]
  const ROWS: Text := [114, 111, 119, 115]
  const NAME: Text := [110, 97, 109, 101]
  const TYPE: Text := [116, 121, 112, 101]
  const NULLABLE: Text := [110, 117, 108, 108, 97, 98, 108, 101]

  /** {"columns":[ */
  const OPENING: Text := [JsonText.BEGIN, JsonText.QUOTE] + COLUMNS + [JsonText.QUOTE, JsonText.COLON, JsonText.OPEN]
  /** ],"rows":[ */
  const MIDDLE: Text :=
    [JsonText.CLOSE, JsonText.COMMA, JsonText.QUOTE] + ROWS + [JsonText.QUOTE, JsonText.COLON, JsonText.OPEN]
  /** ]} */
  const CLOSING: Text := [JsonText.CLOSE, JsonText.END]
  /** {"name": */
  const NAME_KEY: Text := [JsonText.BEGIN, JsonText.QUOTE] + NAME + [JsonText.QUOTE, JsonText.COLON]
  /** ,"type": */
  const TYPE_KEY: Text := [JsonText.COMMA, JsonText.QUOTE] + TYPE + [JsonText.QUOTE, JsonText.COLON]
  /** ,"nullable": */
  const NULLABLE_KEY: Text := [JsonText.COMMA, JsonText.QUOTE] + NULLABLE + [JsonText.QUOTE, JsonText.COLON]

  function ColumnNames(columns: seq<Column>): (r: seq<Text>)
    ensures |r| == |columns|
  {
    seq(|columns|, i requires 0 <= i < |columns| => columns[i].name)
  }

  function ColumnJson(c: Column): JsonText.Json {
    JsonText.Obj([JsonText.Member(NAME, JsonText.Str(c.name)),
                  JsonText.Member(TYPE, JsonText.Str(c.typeName)),
                  JsonText.Member(NULLABLE, JsonText.Str(c.nullable))])
  }

  function ColumnsJson(columns: seq<Column>): (r: seq<JsonText.Json>)
    ensures |r| == |columns|
  {
    seq(|columns|, i requires 0 <= i < |columns| => ColumnJson(columns[i]))
  }

  function CellJson(cell: Cell): JsonText.Json {
    if cell.None? then JsonText.Null else JsonText.Str(cell.value)
  }

  function CellsJson(row: Row): (r: seq<JsonText.Json>)
    ensures |r| == |row|
  {
    seq(|row|, i requires 0 <= i < |row| => CellJson(row[i]))
  }

  function RowsJson(rows: seq<Row>): (r: seq<JsonText.Json>)
    ensures |r| == |rows|
  {
    seq(|rows|, i requires 0 <= i < |rows| => JsonText.Arr(CellsJson(rows[i])))
  }

  /** The whole JSON document, as a value. */
  function TableJson(columns: seq<Column>, rows: seq<Row>): JsonText.Json {
    JsonText.Obj([JsonText.Member(COLUMNS, JsonText.Arr(ColumnsJson(columns))),
                  JsonText.Member(ROWS, JsonText.Arr(RowsJson(rows)))])
  }

  function StartText(format: Format, columns: seq<Column>): Text {
    match format
    case Csv => CsvText.Record(CsvText.Names(ColumnNames(columns)), true)
    case Json => OPENING + (JsonText.RenderItems(ColumnsJson(columns)) + MIDDLE)
  }

  function RowText(format: Format, row: Row, later: bool): Text {
    match format
    case Csv => CsvText.Record(row, false)
    case Json => (if later then [JsonText.COMMA] else []) + JsonText.Render(JsonText.Arr(CellsJson(row)))
  }

  function FinishText(format: Format): Text {
    if format.Json? then CLOSING else []
  }

  function RowsText(format: Format, rows: seq<Row>): Text {
    if rows == [] then []
    else RowsText(format, rows[..|rows| - 1]) + RowText(format, rows[|rows| - 1], |rows| > 1)
  }

  function TableText(format: Format, columns: seq<Column>, rows: seq<Row>): Text {
    StartText(format, columns) + RowsText(format, rows) + FinishText(format)
  }

  // ------------------------------------------------------- limits of a stream

  /** Some encodable prefix of the text already exceeds the byte budget. */
  ghost predicate Overflows(all: Text, written: int, maxBytes: int) {
    exists n :: 0 <= n <= |all| && Utf8.Encodable(all[..n]) && written + |Utf8.Encode(all[..n])| > maxBytes
  }

  lemma OverflowsExactly(all: Text, written: int, maxBytes: int)
    requires Utf8.Encodable(all)
    ensures Overflows(all, written, maxBytes) <==> written + |Utf8.Encode(all)| > maxBytes
  {
    assert all[..|all|] == all;
    forall n | 0 <= n <= |all|
      ensures Utf8.Encodable(all[..n]) && |Utf8.Encode(all[..n])| <= |Utf8.Encode(all)|
    {
      Utf8.EncodeAppend(all[..n], all[n..]);
      assert all == all[..n] + all[n..];
    }
  }

  /** Every chunk is full, except that the last may be shorter but not empty. */
  predicate Chunked(chunks: seq<Bytes>, size: int) {
    forall i :: 0 <= i < |chunks| ==> 0 < |chunks[i]| <= size && (i < |chunks| - 1 ==> |chunks[i]| == size)
  }

  predicate AllFull(chunks: seq<Bytes>, size: int) {
    forall i :: 0 <= i < |chunks| ==> |chunks[i]| == size
  }

  /** `yield part`: what was yielded before, then one more fragment. */
  method Put(parts: seq<Text>, part: Text) returns (r: seq<Text>)
    ensures Join(r) == Join(parts) + part
  {
    r := Yield(parts, part);
  }

  /** `yield from more`. */
  method PutAll(parts: seq<Text>, more: seq<Text>) returns (r: seq<Text>)
    ensures Join(r) == Join(parts) + Join(more)
  {
    JoinAppend(parts, more);
    r := parts + more;
  }

  method PutIf(wanted: bool, parts: seq<Text>, part: Text) returns (r: seq<Text>)
    ensures Join(r) == Join(parts) + if wanted then part else []
  {
    if wanted { r := Put(parts, part); } else { r := parts; }
  }

  /** One fragment before, and one after, those of a body. */
  method Enclose(open: Text, body: seq<Text>, close: Text) returns (r: seq<Text>)
    ensures Join(r) == open + (Join(body) + close)
  {
    r := Put([], open);
    r := PutAll(r, body);
    r := Put(r, close);
    Enclosed(open, Join(body), close);
  }

  lemma Enclosed(open: Text, body: Text, close: Text)
    ensures (([] + open) + body) + close == open + (body + close)
  {
  }

  /** `yield chunk` of a full chunk. */
  method PutChunk(chunks: seq<Bytes>, chunk: Bytes, ghost size: int) returns (r: seq<Bytes>)
    requires AllFull(chunks, size) && |chunk| == size
    ensures AllFull(r, size) && |r| == |chunks| + 1 && Join(r) == Join(chunks) + chunk
  {
    r := Yield(chunks, chunk);
  }

  class ResultEncoder {
    const columns: seq<Column>
    const format: Format
    const limits: Limits
    const textChunkSize: int
    var state: State
    var rowsWritten: int
    var bytesWritten: int

    ghost predicate Valid()
      reads this
    {
      limits.Valid() && textChunkSize >= 1 && 0 <= bytesWritten <= limits.maxBytes && 0 <= rowsWritten <= limits.maxRows
    }

    constructor (columns: seq<Column>, format: Format, limits: Limits)
      requires limits.Valid()
      ensures Valid() && state == New && rowsWritten == bytesWritten == 0
      ensures this.columns == columns && this.format == format && this.limits == limits
    {
      this.columns, this.format, this.limits := columns, format, limits;
      state, rowsWritten, bytesWritten := New, 0, 0;
      textChunkSize := Min(16384, if limits.chunkBytes / 4 > 1 then limits.chunkBytes / 4 else 1);
    }

    /** `_text_parts`. */
    method TextParts(value: Text) returns (parts: seq<Text>)
      requires textChunkSize >= 1
      ensures Join(parts) == value
      ensures forall p <- parts :: 0 < |p| <= textChunkSize
    {
      parts := [];
      var start := 0;
      while start < |value|
        invariant 0 <= start && Join(parts) == value[..Min(start, |value|)]
        invariant forall p <- parts :: 0 < |p| <= textChunkSize
      {
        var end := Min(start + textChunkSize, |value|);
        parts := Yield(parts, value[start..end]);
        assert value[..end] == value[..start] + value[start..end];
        start := start + textChunkSize;
      }
      assert value[..Min(start, |value|)] == value;
    }

    /** Escaping one part after another escapes the whole value. */
    method CsvBody(value: Text, header: bool) returns (fragments: seq<Text>)
      requires textChunkSize >= 1
      ensures Join(fragments) == CsvText.Body(value, header)
    {
      var parts := TextParts(value);
      fragments := [];
      for i := 0 to |parts|
        invariant Join(fragments) == CsvText.Body(Join(parts[..i]), header)
      {
        var part := parts[i];
        if !header { part := CsvText.Doubled(part, CsvText.BACKSLASH); }
        fragments := Put(fragments, CsvText.Doubled(part, CsvText.QUOTE));
        CsvText.BodyAppend(Join(parts[..i]), parts[i], header);
        JoinTake(parts, i);
      }
      assert parts[..|parts|] == parts;
    }

    method CsvField(value: Cell, width: nat, header: bool) returns (fragments: seq<Text>)
      requires textChunkSize >= 1
      ensures Join(fragments) == CsvText.Field(value, width, header)
    {
      if value.None? {
        fragments := Put([], CsvText.NULL);
        return;
      }
      fragments := CsvBody(value.value, header);
      if CsvText.Quoted(value.value, width) {
        fragments := Enclose([CsvText.QUOTE], fragments, [CsvText.QUOTE]);
      }
    }

    /** `_csv_record`. */
    method CsvRecord(row: Row, header: bool) returns (fragments: seq<Text>)
      requires textChunkSize >= 1
      ensures Join(fragments) == CsvText.Record(row, header)
    {
      fragments := [];
      for i := 0 to |row|
        invariant Join(fragments) == CsvUpTo(row, i, header)
      {
        fragments := PutIf(i > 0, fragments, [CsvText.COMMA]);
        var field := CsvField(row[i], |row|, header);
        fragments := PutAll(fragments, field);
        CsvUpToNext(row, i, header);
      }
      CsvRecordText(row, header);
      fragments := Put(fragments, [CsvText.LF]);
    }

    method JsonEscaped(value: Text) returns (fragments: seq<Text>)
      requires textChunkSize >= 1
      ensures Join(fragments) == JsonText.Escape(value)
    {
      var parts := TextParts(value);
      fragments := [];
      for i := 0 to |parts|
        invariant Join(fragments) == JsonText.Escape(Join(parts[..i]))
      {
        fragments := Put(fragments, JsonText.Escape(parts[i]));
        JsonText.EscapeAppend(Join(parts[..i]), parts[i]);
        JoinTake(parts, i);
      }
      assert parts[..|parts|] == parts;
    }

    /** `_json_string`. */
    method JsonString(value: Text) returns (fragments: seq<Text>)
      requires textChunkSize >= 1
      ensures Join(fragments) == JsonText.RenderString(value)
    {
      var body := JsonEscaped(value);
      fragments := Enclose([JsonText.QUOTE], body, [JsonText.QUOTE]);
    }

    method JsonKeyed(key: Text, value: Text) returns (fragments: seq<Text>)
      requires textChunkSize >= 1
      ensures Join(fragments) == key + JsonText.RenderString(value)
    {
      fragments := Put([], key);
      var body := JsonString(value);
      fragments := PutAll(fragments, body);
    }

    method JsonColumn(c: Column) returns (fragments: seq<Text>)
      requires textChunkSize >= 1
      ensures Join(fragments) == JsonText.Render(ColumnJson(c))
    {
      var name := JsonKeyed(NAME_KEY, c.name);
      var typeName := JsonKeyed(TYPE_KEY, c.typeName);
      var nullable := JsonKeyed(NULLABLE_KEY, c.nullable);
      fragments := PutAll(name, typeName);
      fragments := PutAll(fragments, nullable);
      fragments := Put(fragments, [JsonText.END]);
      RenderColumn(c);
    }

    /** `_json_start`. */
    method JsonStart() returns (fragments: seq<Text>)
      requires textChunkSize >= 1
      ensures Join(fragments) == StartText(Json, columns)
    {
      var items := ColumnsJson(columns);
      fragments := [];
      for i := 0 to |columns|
        invariant Join(fragments) == ItemsUpTo(items, i)
      {
        fragments := PutIf(i > 0, fragments, [JsonText.COMMA]);
        var column := JsonColumn(columns[i]);
        fragments := PutAll(fragments, column);
        ItemsUpToNext(items, i);
      }
      ItemsText(items);
      fragments := Enclose(OPENING, fragments, MIDDLE);
    }

    method JsonCell(value: Cell) returns (fragments: seq<Text>)
      requires textChunkSize >= 1
      ensures Join(fragments) == JsonText.Render(CellJson(value))
    {
      if value.None? {
        fragments := Put([], JsonText.NULL);
      } else {
        fragments := JsonString(value.value);
      }
    }

    method JsonCells(row: Row) returns (fragments: seq<Text>)
      requires textChunkSize >= 1
      ensures Join(fragments) == JsonText.RenderItems(CellsJson(row))
    {
      var items := CellsJson(row);
      fragments := [];
      for i := 0 to |row|
        invariant Join(fragments) == ItemsUpTo(items, i)
      {
        fragments := PutIf(i > 0, fragments, [JsonText.COMMA]);
        var cell := JsonCell(row[i]);
        fragments := PutAll(fragments, cell);
        ItemsUpToNext(items, i);
      }
      ItemsText(items);
    }

    /** `_json_row`. */
    method JsonRow(row: Row) returns (fragments: seq<Text>)
      requires textChunkSize >= 1
      ensures Join(fragments) == RowText(Json, row, rowsWritten != 0)
    {
      fragments := PutIf(rowsWritten != 0, [], [JsonText.COMMA]);
      var cells := JsonCells(row);
      var list := Enclose([JsonText.OPEN], cells, [JsonText.CLOSE]);
      fragments := PutAll(fragments, list);
      JsonRowText(row, rowsWritten != 0);
    }

    // --------------------------------------------------------------- streaming

    /** The copy loop of `_stream`: bytes leave the buffer as soon as it is full. */
    method Emit(encoded: Bytes, buffer: Bytes, sent: seq<Bytes>, patience: Option<nat>)
      returns (rest: Bytes, chunks: seq<Bytes>, stop: Option<Outcome>)
      requires Valid() && AllFull(sent, limits.chunkBytes) && |buffer| < limits.chunkBytes
      requires bytesWritten + |buffer| <= limits.maxBytes && (patience.Some? ==> |sent| < patience.value)
      modifies this`bytesWritten
      ensures Valid() && AllFull(chunks, limits.chunkBytes) && |rest| < limits.chunkBytes
      ensures bytesWritten - |Join(chunks)| == old(bytesWritten) - |Join(sent)|
      ensures stop.None? ==>
        && Join(chunks) + rest == Join(sent) + buffer + encoded
        && bytesWritten + |rest| <= limits.maxBytes
        && (patience.Some? ==> |chunks| < patience.value)
      ensures stop.Some? ==> stop == Some(Abandoned) || stop == Some(Raised(LimitError))
      ensures stop == Some(Abandoned) ==> patience == Some(|chunks|) && rest == []
      ensures stop == Some(Raised(LimitError)) ==>
        old(bytesWritten) + |buffer| + |encoded| > limits.maxBytes
    {
      rest, chunks, stop := buffer, sent, None;
      var offset := 0;
      ghost var all := Join(sent) + buffer;
      ghost var flat := Join(sent);
      while offset < |encoded|
        invariant 0 <= offset <= |encoded| && Valid() && flat == Join(chunks)
        invariant AllFull(chunks, limits.chunkBytes) && |rest| < limits.chunkBytes
        invariant flat + rest == all + encoded[..offset]
        invariant bytesWritten - |flat| == old(bytesWritten) - |Join(sent)|
        invariant bytesWritten + |rest| <= limits.maxBytes && (patience.Some? ==> |chunks| < patience.value)
      {
        var size := Min(|encoded| - offset, limits.chunkBytes - |rest|);
        if bytesWritten + |rest| + size > limits.maxBytes {
          Lengths(flat, rest, all, encoded, offset);
          stop := Some(Raised(LimitError));
          return;
        }
        Grow(flat, rest, all, encoded, offset, offset + size);
        rest := rest + encoded[offset..offset + size];
        offset := offset + size;
        if |rest| == limits.chunkBytes {
          chunks := PutChunk(chunks, rest, limits.chunkBytes);
          bytesWritten := bytesWritten + |rest|;
          Flush(flat, rest);
          flat, rest := flat + rest, [];
          if patience == Some(|chunks|) {
            stop := Some(Abandoned);
            return;
          }
        }
      }
      assert encoded[..offset] == encoded;
    }

    /** One piece of a fragment: encoded, and buffered or sent; encoding may fail before any of it is sent. */
    method StreamPiece(
        ghost all: Text, ghost done: Text, piece: Text, buffer: Bytes, sent: seq<Bytes>, patience: Option<nat>,
          ghost was: int)
      returns (rest: Bytes, chunks: seq<Bytes>, stop: Option<Outcome>)
      requires Valid() && Utf8.Encodable(done) && done + piece <= all
      requires Progress(sent, buffer, done, was, patience)
      modifies this`bytesWritten
      ensures Valid() && AllFull(chunks, limits.chunkBytes) && bytesWritten == was + |Join(chunks)|
      ensures stop.None? ==> Utf8.Encodable(done + piece) && Progress(chunks, rest, done + piece, was, patience)
      ensures stop.Some? ==> Stopped(stop.value, all, chunks, was, limits.maxBytes, patience)
    {
      if !Utf8.Encodable(piece) {
        NotEncodable(all, done, piece);
        return buffer, sent, Some(Raised(DataError));
      }
      var encoded := Utf8.Encode(piece);
      Utf8.EncodeAppend(done, piece);
      rest, chunks, stop := Emit(encoded, buffer, sent, patience);
      if stop == Some(Raised(LimitError)) {
        OverflowWitness(all, done + piece, was, limits.maxBytes);
      }
    }

    /** The pieces of one fragment. */
    method StreamFragment(fragments: seq<Text>, f: nat, buffer: Bytes, sent: seq<Bytes>, patience: Option<nat>,
      ghost was: int)
      returns (rest: Bytes, chunks: seq<Bytes>, stop: Option<Outcome>)
      requires f < |fragments| && Valid() && Utf8.Encodable(Join(fragments[..f]))
      requires Progress(sent, buffer, Join(fragments[..f]), was, patience)
      modifies this`bytesWritten
      ensures Valid() && AllFull(chunks, limits.chunkBytes) && bytesWritten == was + |Join(chunks)|
      ensures stop.None? ==>
        Utf8.Encodable(Join(fragments[..f + 1])) && Progress(chunks, rest, Join(fragments[..f + 1]), was, patience)
      ensures stop.Some? ==> Stopped(stop.value, Join(fragments), chunks, was, limits.maxBytes, patience)
    {
      rest, chunks, stop := buffer, sent, None;
      var fragment := fragments[f];
      ghost var before := Join(fragments[..f]);
      ghost var done := before;
      var start := 0;
      while start < |fragment|
        invariant 0 <= start && Valid() && stop.None?
        invariant done == before + fragment[..Min(start, |fragment|)] && Utf8.Encodable(done)
        invariant Progress(chunks, rest, done, was, patience)
      {
        var end := Min(start + textChunkSize, |fragment|);
        var piece := fragment[start..end];
        PrefixOfAll(fragments, f, before, start, end);
        rest, chunks, stop := StreamPiece(Join(fragments), done, piece, rest, chunks, patience, was);
        if stop.Some? { return; }
        NextPiece(before, fragment, start, end);
        done := done + piece;
        start := start + textChunkSize;
      }
      AllPieces(fragments, f, start);
    }

    /** `_stream`. */
    method Stream(fragments: seq<Text>, next: State, completesRow: bool, patience: Option<nat>)
      returns (chunks: seq<Bytes>, outcome: Outcome)
      requires Valid() && (completesRow ==> rowsWritten < limits.maxRows)
      modifies this
      ensures Valid() && Chunked(chunks, limits.chunkBytes)
      ensures bytesWritten == old(bytesWritten) + |Join(chunks)|
      ensures outcome == Completed ==>
        && Utf8.Encodable(Join(fragments)) && Join(chunks) == Utf8.Encode(Join(fragments))
        && state == next && rowsWritten == old(rowsWritten) + (if completesRow then 1 else 0)
      ensures outcome != Completed ==> rowsWritten == old(rowsWritten)
      ensures outcome != Completed ==> state == if patience == Some(0) then old(state) else Failed
      ensures outcome != Completed ==>
        Stopped(outcome, Join(fragments), chunks, old(bytesWritten), limits.maxBytes, patience)
    {
      chunks := [];
      if patience == Some(0) {
        // A generator that is closed before its first step never runs.
        return [], Abandoned;
      }
      var buffer: Bytes := [];
      for f := 0 to |fragments|
        invariant Valid() && unchanged(`state) && unchanged(`rowsWritten)
        invariant Utf8.Encodable(Join(fragments[..f]))
        invariant Progress(chunks, buffer, Join(fragments[..f]), old(bytesWritten), patience)
      {
        var stop;
        buffer, chunks, stop := StreamFragment(fragments, f, buffer, chunks, patience, old(bytesWritten));
        if stop.Some? {
          state := Failed;
          return chunks, stop.value;
        }
      }
      assert fragments[..|fragments|] == fragments;
      if buffer != [] {
        chunks := Yield(chunks, buffer);
        bytesWritten := bytesWritten + |buffer|;
        if patience == Some(|chunks|) {
          state := Failed;
          return chunks, Abandoned;
        }
      } else {
        assert Join(chunks) + buffer == Join(chunks);
      }
      if completesRow { rowsWritten := rowsWritten + 1; }
      state := next;
      return chunks, Completed;
    }

    /** What `_stream` keeps true between two pieces of text. */
    ghost predicate Progress(chunks: seq<Bytes>, buffer: Bytes, done: Text, was: int, patience: Option<nat>)
      requires Utf8.Encodable(done)
      reads this
    {
      && AllFull(chunks, limits.chunkBytes) && |buffer| < limits.chunkBytes
      && Join(chunks) + buffer == Utf8.Encode(done)
      && bytesWritten == was + |Join(chunks)| && bytesWritten + |buffer| <= limits.maxBytes
      && (patience.Some? ==> |chunks| < patience.value)
    }

    // -------------------------------------------------------------- operations

    method Start(patience: Option<nat>) returns (chunks: seq<Bytes>, outcome: Outcome)
      requires Valid()
      modifies this
      ensures Valid() && Chunked(chunks, limits.chunkBytes)
      ensures old(state) != New ==> outcome == Raised(DataError) && chunks == [] && unchanged(this)
      ensures old(state) == New ==>
        && state == (if outcome == Completed then Ready else if patience == Some(0) then Streaming else Failed)
        && Wrote(outcome, StartText(format, columns), chunks, old(bytesWritten), bytesWritten, limits.maxBytes,
          patience)
      ensures rowsWritten == old(rowsWritten)
    {
      if state != New { return [], Raised(DataError); }
      var fragments;
      if format.Csv? {
        fragments := CsvRecord(CsvText.Names(ColumnNames(columns)), true);
      } else {
        fragments := JsonStart();
      }
      state := Streaming;
      chunks, outcome := Stream(fragments, Ready, false, patience);
    }

    method WriteRow(row: Row, patience: Option<nat>) returns (chunks: seq<Bytes>, outcome: Outcome)
      requires Valid()
      modifies this
      ensures Valid() && Chunked(chunks, limits.chunkBytes)
      ensures old(state) != Ready ==> outcome == Raised(DataError) && chunks == [] && unchanged(this)
      ensures old(state) == Ready && |row| != |columns| ==>
        outcome == Raised(DataError) && chunks == [] && state == Failed && bytesWritten == old(bytesWritten)
      ensures old(state) == Ready && |row| == |columns| && old(rowsWritten) >= limits.maxRows ==>
        outcome == Raised(LimitError) && chunks == [] && state == Failed && bytesWritten == old(bytesWritten)
      ensures old(state) == Ready && |row| == |columns| && old(rowsWritten) < limits.maxRows ==>
        && state == (if outcome == Completed then Ready else if patience == Some(0) then Streaming else Failed)
        && Wrote(outcome, RowText(format, row, old(rowsWritten) != 0), chunks,
                 old(bytesWritten), bytesWritten, limits.maxBytes, patience)
      ensures rowsWritten == old(rowsWritten) + if outcome == Completed then 1 else 0
    {
      if state != Ready { return [], Raised(DataError); }
      if |row| != |columns| {
        state := Failed;
        return [], Raised(DataError);
      }
      if rowsWritten >= limits.maxRows {
        state := Failed;
        return [], Raised(LimitError);
      }
      var fragments;
      if format.Csv? { fragments := CsvRecord(row, false); } else { fragments := JsonRow(row); }
      state := Streaming;
      chunks, outcome := Stream(fragments, Ready, true, patience);
    }

    method Finish(patience: Option<nat>) returns (chunks: seq<Bytes>, outcome: Outcome)
      requires Valid()
      modifies this
      ensures Valid() && Chunked(chunks, limits.chunkBytes)
      ensures old(state) != Ready ==> outcome == Raised(DataError) && chunks == [] && unchanged(this)
      ensures old(state) == Ready ==>
        && state == (if outcome == Completed then Finished else if patience == Some(0) then Streaming else Failed)
        && Wrote(outcome, FinishText(format), chunks, old(bytesWritten), bytesWritten, limits.maxBytes, patience)
      ensures rowsWritten == old(rowsWritten)
    {
      if state != Ready { return [], Raised(DataError); }
      var fragments: seq<Text> := [];
      if format.Json? { fragments := Put(fragments, CLOSING); }
      assert Join(fragments) == FinishText(format);
      state := Streaming;
      chunks, outcome := Stream(fragments, Finished, false, patience);
    }
  }

  /** The first i fields of a record, with their separators. */
  function CsvUpTo(row: Row, i: nat, header: bool): Text
    requires i <= |row|
  {
    if i == 0 then []
    else
      CsvUpTo(row, i - 1, header)
      + (if i > 1 then [CsvText.COMMA] else []) + CsvText.Field(row[i - 1], |row|, header)
  }

  lemma {:induction false} CsvUpToAll(row: Row, i: nat, header: bool)
    requires i <= |row|
    ensures CsvUpTo(row, |row|, header)
         == CsvUpTo(row, i, header) + (if 0 < i < |row| then [CsvText.COMMA] else [])
           + CsvText.Fields(row[i..], |row|, header)
    decreases |row| - i
  {
    if i < |row| {
      CsvUpToAll(row, i + 1, header);
      assert row[i..][1..] == row[i + 1..];
      var before := CsvUpTo(row, i, header) + (if i > 0 then [CsvText.COMMA] else []);
      var field := CsvText.Field(row[i], |row|, header);
      var rest := CsvText.Fields(row[i + 1..], |row|, header);
      Assoc(before, field, [CsvText.COMMA] + rest);
      Assoc(before + field, [CsvText.COMMA], rest);
      Assoc(before, field, []);
      assert (before + field) + [] + [] == before + field;
    }
  }

  function ItemsUpTo(items: seq<JsonText.Json>, i: nat): Text
    requires i <= |items|
  {
    if i == 0 then []
    else ItemsUpTo(items, i - 1) + (if i > 1 then [JsonText.COMMA] else []) + JsonText.Render(items[i - 1])
  }

  lemma {:induction false} ItemsUpToAll(items: seq<JsonText.Json>, i: nat)
    requires i <= |items|
    ensures ItemsUpTo(items, |items|)
         == ItemsUpTo(items, i) + (if 0 < i < |items| then [JsonText.COMMA] else []) + JsonText.RenderItems(items[i..])
    decreases |items| - i
  {
    if i < |items| {
      ItemsUpToAll(items, i + 1);
      assert items[i..][1..] == items[i + 1..];
      var before := ItemsUpTo(items, i) + (if i > 0 then [JsonText.COMMA] else []);
      var item, rest := JsonText.Render(items[i]), JsonText.RenderItems(items[i + 1..]);
      Assoc(before, item, [JsonText.COMMA] + rest);
      Assoc(before + item, [JsonText.COMMA], rest);
      Assoc(before, item, []);
      assert (before + item) + [] + [] == before + item;
    }
  }

  lemma CsvUpToNext(row: Row, i: nat, header: bool)
    requires i < |row|
    ensures CsvUpTo(row, i + 1, header) ==
      CsvUpTo(row, i, header) + (if i > 0 then [CsvText.COMMA] else []) + CsvText.Field(row[i], |row|, header)
  {
  }

  lemma CsvRecordText(row: Row, header: bool)
    ensures CsvUpTo(row, |row|, header) + [CsvText.LF] == CsvText.Record(row, header)
  {
    CsvUpToAll(row, 0, header);
    assert row[0..] == row;
    Nothing(CsvText.Fields(row, |row|, header));
  }

  lemma Nothing<T>(s: seq<T>)
    ensures [] + [] + s == s
  {
  }

  lemma ItemsUpToNext(items: seq<JsonText.Json>, i: nat)
    requires i < |items|
    ensures ItemsUpTo(items, i + 1) ==
      ItemsUpTo(items, i) + (if i > 0 then [JsonText.COMMA] else []) + JsonText.Render(items[i])
  {
  }

  lemma ItemsText(items: seq<JsonText.Json>)
    ensures ItemsUpTo(items, |items|) == JsonText.RenderItems(items)
  {
    ItemsUpToAll(items, 0);
    assert items[0..] == items;
    Nothing(JsonText.RenderItems(items));
  }

  lemma JsonRowText(row: Row, later: bool)
    ensures RowText(Json, row, later) == (if later then [JsonText.COMMA] else [])
      + ([JsonText.OPEN] + (JsonText.RenderItems(CellsJson(row)) + [JsonText.CLOSE]))
  {
  }

  predicate PlainKey(t: Text) {
    forall i :: 0 <= i < |t| ==> t[i] >= 97
  }

  lemma {:induction false} EscapeKey(t: Text)
    requires PlainKey(t)
    ensures JsonText.Escape(t) == t
  {
    if t != [] {
      EscapeKey(t[1..]);
      assert t == [t[0]] + t[1..];
    }
  }

  function Keyed(key: Text, value: Text): Text {
    [JsonText.QUOTE] + key + [JsonText.QUOTE, JsonText.COLON] + value
  }

  lemma RenderKeyed(key: Text, value: JsonText.Json)
    requires PlainKey(key)
    ensures JsonText.RenderMember(JsonText.Member(key, value)) == Keyed(key, JsonText.Render(value))
  {
    EscapeKey(key);
  }

  lemma RenderColumn(c: Column)
    ensures JsonText.Render(ColumnJson(c))
         == (NAME_KEY + JsonText.RenderString(c.name)) + (TYPE_KEY + JsonText.RenderString(c.typeName))
          + (NULLABLE_KEY + JsonText.RenderString(c.nullable)) + [JsonText.END]
  {
    var a, b, d := JsonText.Str(c.name), JsonText.Str(c.typeName), JsonText.Str(c.nullable);
    RenderColumnMembers(a, b, d);
    ColumnConcat(JsonText.Render(a), JsonText.Render(b), JsonText.Render(d));
  }

  lemma RenderColumnMembers(a: JsonText.Json, b: JsonText.Json, d: JsonText.Json)
    ensures JsonText.RenderMembers([JsonText.Member(NAME, a), JsonText.Member(TYPE, b), JsonText.Member(NULLABLE, d)])
         == Keyed(NAME, JsonText.Render(a)) + ([JsonText.COMMA] + (Keyed(TYPE, JsonText.Render(b))
            + ([JsonText.COMMA] + Keyed(NULLABLE, JsonText.Render(d)))))
  {
    PlainKeys();
    ThreeKeyed(NAME, a, TYPE, b, NULLABLE, d);
  }

  lemma PlainKeys()
    ensures PlainKey(NAME) && PlainKey(TYPE) && PlainKey(NULLABLE) && PlainKey(COLUMNS) && PlainKey(ROWS)
  {
  }

  lemma ThreeKeyed(k: Text, a: JsonText.Json, l: Text, b: JsonText.Json, m: Text, d: JsonText.Json)
    requires PlainKey(k) && PlainKey(l) && PlainKey(m)
    ensures JsonText.RenderMembers([JsonText.Member(k, a), JsonText.Member(l, b), JsonText.Member(m, d)])
         == Keyed(k, JsonText.Render(a)) + ([JsonText.COMMA] + (Keyed(l, JsonText.Render(b))
            + ([JsonText.COMMA] + Keyed(m, JsonText.Render(d)))))
  {
    RenderKeyed(k, a);
    RenderKeyed(l, b);
    RenderKeyed(m, d);
    RenderThree(JsonText.Member(k, a), JsonText.Member(l, b), JsonText.Member(m, d));
  }

  lemma TwoKeyed(k: Text, a: JsonText.Json, l: Text, b: JsonText.Json)
    requires PlainKey(k) && PlainKey(l)
    ensures JsonText.RenderMembers([JsonText.Member(k, a), JsonText.Member(l, b)])
         == Keyed(k, JsonText.Render(a)) + ([JsonText.COMMA] + Keyed(l, JsonText.Render(b)))
  {
    RenderKeyed(k, a);
    RenderKeyed(l, b);
    RenderTwo(JsonText.Member(k, a), JsonText.Member(l, b));
  }

  lemma RenderThree(a: JsonText.Member, b: JsonText.Member, c: JsonText.Member)
    ensures JsonText.RenderMembers([a, b, c])
         == JsonText.RenderMember(a)
           + ([JsonText.COMMA] + (JsonText.RenderMember(b) + ([JsonText.COMMA] + JsonText.RenderMember(c))))
  {
    assert JsonText.RenderMembers([c]) == JsonText.RenderMember(c) + [];
    assert [b, c][1..] == [c] && [a, b, c][1..] == [b, c];
  }

  lemma ColumnConcat(x: Text, y: Text, z: Text)
    ensures [JsonText.BEGIN]
            + ((Keyed(NAME, x) + ([JsonText.COMMA] + (Keyed(TYPE, y) + ([JsonText.COMMA] + Keyed(NULLABLE, z)))))
               + [JsonText.END])
         == (NAME_KEY + x) + (TYPE_KEY + y) + (NULLABLE_KEY + z) + [JsonText.END]
  {
  }

  /** Why a stream ended early. */
  ghost predicate Stopped(
    outcome: Outcome, all: Text, chunks: seq<Bytes>, was: int, maxBytes: int, patience: Option<nat>)
  {
    match outcome
    case Completed => false
    case Abandoned => patience == Some(|chunks|)
    case Raised(DataError) => !Utf8.Encodable(all)
    case Raised(LimitError) => Overflows(all, was, maxBytes)
  }

  /** The result of one operation that had `text` to write. */
  ghost predicate Wrote(
    outcome: Outcome, text: Text, chunks: seq<Bytes>, was: int, now: int, maxBytes: int, patience: Option<nat>)
  {
    && now == was + |Join(chunks)|
    && (outcome == Completed ==> Utf8.Encodable(text) && Join(chunks) == Utf8.Encode(text))
    && (outcome != Completed ==> Stopped(outcome, text, chunks, was, maxBytes, patience))
  }

  // ------------------------------------------------------- whole result at once

  /** What a caller must supply for an export to succeed. */
  predicate Shaped(columns: seq<Column>, rows: seq<Row>, maxRows: int) {
    |rows| <= maxRows && Rectangular(columns, rows)
  }

  predicate Rectangular(columns: seq<Column>, rows: seq<Row>) {
    forall k :: 0 <= k < |rows| ==> |rows[k]| == |columns|
  }

  predicate Affordable(text: Text, maxBytes: int) {
    Utf8.Encodable(text) && |Utf8.Encode(text)| <= maxBytes
  }

  function Before(format: Format, columns: seq<Column>, rows: seq<Row>, i: nat): Text
    requires i <= |rows|
  {
    StartText(format, columns) + RowsText(format, rows[..i])
  }

  lemma BeforeStep(format: Format, columns: seq<Column>, rows: seq<Row>, i: nat)
    requires i < |rows|
    ensures Before(format, columns, rows, i + 1) == Before(format, columns, rows, i) + RowText(format, rows[i], i > 0)
  {
    assert rows[..i + 1][..i] == rows[..i];
    Assoc(StartText(format, columns), RowsText(format, rows[..i]), RowText(format, rows[i], i > 0));
  }

  lemma {:induction false} BeforeIsPrefix(format: Format, columns: seq<Column>, rows: seq<Row>, i: nat)
    requires i <= |rows|
    ensures Before(format, columns, rows, i) <= TableText(format, columns, rows)
    decreases |rows| - i
  {
    if i < |rows| {
      BeforeIsPrefix(format, columns, rows, i + 1);
      BeforeStep(format, columns, rows, i);
    } else {
      assert rows[..i] == rows;
    }
  }

  lemma TableSplits(format: Format, columns: seq<Column>, rows: seq<Row>)
    ensures TableText(format, columns, rows) == Before(format, columns, rows, |rows|) + FinishText(format)
  {
    assert rows[..|rows|] == rows;
  }

  /** A step that could not be written makes the whole export unaffordable. */
  lemma Unaffordable(table: Text, before: Text, text: Text, outcome: Outcome, chunks: seq<Bytes>, maxBytes: int)
    requires before + text <= table && Utf8.Encodable(before)
    requires Stopped(outcome, text, chunks, |Utf8.Encode(before)|, maxBytes, None)
    ensures !Affordable(table, maxBytes)
    ensures Utf8.Encodable(table) ==> outcome == Raised(LimitError)
  {
    assert table == before + text + table[|before + text|..];
    if Utf8.Encodable(table) {
      Slices(table, before, text);
      Utf8.EncodeAppend(before, text);
      Utf8.EncodeAppend(before + text, table[|before + text|..]);
      OverflowsExactly(text, |Utf8.Encode(before)|, maxBytes);
    }
  }

  lemma Slices(table: Text, before: Text, text: Text)
    requires before + text <= table && Utf8.Encodable(table)
    ensures Utf8.Encodable(text) && Utf8.Encodable(before + text)
  {
    forall i | 0 <= i < |text| ensures !Utf8.IsSurrogate(text[i]) {
      assert table[|before| + i] == (before + text)[|before| + i] == text[i];
    }
    forall i | 0 <= i < |before + text| ensures !Utf8.IsSurrogate((before + text)[i]) {
      assert table[i] == (before + text)[i];
    }
  }

  /** `yield from` of an operation's chunks. */
  method Collect(all: seq<Bytes>, chunks: seq<Bytes>, ghost before: Text, ghost text: Text) returns (r: seq<Bytes>)
    requires Utf8.Encodable(before) && Utf8.Encodable(text)
    requires Join(all) == Utf8.Encode(before) && Join(chunks) == Utf8.Encode(text)
    ensures Utf8.Encodable(before + text) && Join(r) == Utf8.Encode(before + text)
    ensures |Join(r)| == |Join(all)| + |Join(chunks)|
  {
    JoinAppend(all, chunks);
    Utf8.EncodeAppend(before, text);
    r := all + chunks;
  }

  /** Whatever refuses a row makes the whole export fail the same condition. */
  lemma RowRefused(format: Format, columns: seq<Column>, rows: seq<Row>, i: nat, limits: Limits, outcome: Outcome,
    chunks: seq<Bytes>)
    requires i < |rows| && Utf8.Encodable(Before(format, columns, rows, i))
    requires |rows[i]| != |columns| || (i >= limits.maxRows && outcome == Raised(LimitError))
      || Stopped(outcome, RowText(format, rows[i], i > 0), chunks,
                 |Utf8.Encode(Before(format, columns, rows, i))|, limits.maxBytes, None)
    ensures Explained(format, columns, rows, limits, outcome)
  {
    if |rows[i]| == |columns| && !(i >= limits.maxRows && outcome == Raised(LimitError)) {
      BeforeStep(format, columns, rows, i);
      BeforeIsPrefix(format, columns, rows, i + 1);
      Unaffordable(TableText(format, columns, rows), Before(format, columns, rows, i), RowText(format, rows[i], i > 0),
                   outcome, chunks, limits.maxBytes);
    }
  }

  /** An export that failed deserved to, and a well-formed one failed for a limit. */
  ghost predicate Explained(format: Format, columns: seq<Column>, rows: seq<Row>, limits: Limits, outcome: Outcome) {
    && !(Shaped(columns, rows, limits.maxRows) && Affordable(TableText(format, columns, rows), limits.maxBytes))
    && (Rectangular(columns, rows) && Utf8.Encodable(TableText(format, columns, rows)) ==>
      outcome == Raised(LimitError))
  }

  /** The encoder stands before the i-th row and `all` holds what was sent. */
  ghost predicate Reached(encoder: ResultEncoder, rows: seq<Row>, i: nat, all: seq<Bytes>)
    requires i <= |rows|
    reads encoder
  {
    && encoder.Valid() && encoder.state == Ready && encoder.rowsWritten == i
    && Utf8.Encodable(Before(encoder.format, encoder.columns, rows, i))
    && Join(all) == Utf8.Encode(Before(encoder.format, encoder.columns, rows, i))
    && encoder.bytesWritten == |Join(all)|
    && forall k :: 0 <= k < i ==> |rows[k]| == |encoder.columns|
  }

  method EncodeRow(encoder: ResultEncoder, rows: seq<Row>, i: nat, sent: seq<Bytes>)
    returns (all: seq<Bytes>, outcome: Outcome)
    requires i < |rows| && Reached(encoder, rows, i, sent)
    modifies encoder
    ensures outcome == Completed ==> Reached(encoder, rows, i + 1, all)
    ensures outcome != Completed ==> Explained(encoder.format, encoder.columns, rows, encoder.limits, outcome)
  {
    all := sent;
    ghost var before, text := Before(encoder.format, encoder.columns, rows, i), RowText(encoder.format, rows[i], i > 0);
    BeforeStep(encoder.format, encoder.columns, rows, i);
    var chunks;
    chunks, outcome := encoder.WriteRow(rows[i], None);
    if outcome == Completed {
      all := Collect(sent, chunks, before, text);
    } else {
      RowRefused(encoder.format, encoder.columns, rows, i, encoder.limits, outcome, chunks);
    }
  }

  /**
   `encode_result_rows`, consumed to the end: it succeeds exactly for tables that
   have the right shape and fit both budgets, whatever the chunk size, and then
   its chunks join to the UTF-8 of the whole table.
   */
  method EncodeResultRows(columns: seq<Column>, rows: seq<Row>, format: Format, limits: Limits)
    returns (all: seq<Bytes>, outcome: Outcome)
    requires limits.Valid()
    ensures outcome == Completed <==>
      Shaped(columns, rows, limits.maxRows) && Affordable(TableText(format, columns, rows), limits.maxBytes)
    ensures outcome == Completed ==> Join(all) == Utf8.Encode(TableText(format, columns, rows))
    ensures outcome != Completed && Rectangular(columns, rows) ==>
      Utf8.Encodable(TableText(format, columns, rows)) ==> outcome == Raised(LimitError)
  {
    ghost var table := TableText(format, columns, rows);
    var encoder := new ResultEncoder(columns, format, limits);
    var chunks;
    all, outcome := encoder.Start(None);
    BeforeIsPrefix(format, columns, rows, 0);
    assert Before(format, columns, rows, 0) == StartText(format, columns) == [] + StartText(format, columns);
    if outcome != Completed {
      Unaffordable(table, [], StartText(format, columns), outcome, all, limits.maxBytes);
      return;
    }
    for i := 0 to |rows|
      invariant outcome == Completed && fresh(encoder) && Reached(encoder, rows, i, all)
    {
      all, outcome := EncodeRow(encoder, rows, i, all);
      if outcome != Completed { return; }
    }
    ghost var before, text := Before(format, columns, rows, |rows|), FinishText(format);
    TableSplits(format, columns, rows);
    chunks, outcome := encoder.Finish(None);
    if outcome != Completed {
      Unaffordable(table, before, text, outcome, chunks, limits.maxBytes);
      return;
    }
    all := Collect(all, chunks, before, text);
  }

  // ----------------------------------------------- the export reads back

  lemma {:induction false} RecordsSnoc(rows: seq<Row>, row: Row)
    ensures CsvText.Records(rows + [row]) == CsvText.Records(rows) + CsvText.Record(row, false)
  {
    if rows == [] {
      assert ([] + [row])[1..] == [] && ([] + [row])[0] == row;
    } else {
      assert (rows + [row])[1..] == rows[1..] + [row];
      RecordsSnoc(rows[1..], row);
      Assoc(CsvText.Record(rows[0], false), CsvText.Records(rows[1..]), CsvText.Record(row, false));
    }
  }

  lemma {:induction false} CsvRowsText(rows: seq<Row>)
    ensures RowsText(Csv, rows) == CsvText.Records(rows)
  {
    if rows != [] {
      var front := rows[..|rows| - 1];
      CsvRowsText(front);
      LastSplit(rows);
      CsvRowsSnoc(front, rows[|rows| - 1], rows);
    }
  }

  lemma LastSplit<T>(s: seq<T>)
    requires s != []
    ensures s == s[..|s| - 1] + [s[|s| - 1]]
  {
  }

  lemma CsvRowsSnoc(front: seq<Row>, row: Row, rows: seq<Row>)
    requires rows == front + [row] && RowsText(Csv, front) == CsvText.Records(front)
    ensures RowsText(Csv, rows) == CsvText.Records(rows)
  {
    RecordsSnoc(front, row);
    RowsTextSnoc(Csv, front, row);
  }

  lemma RowsTextSnoc(format: Format, front: seq<Row>, row: Row)
    ensures RowsText(format, front + [row]) == RowsText(format, front) + RowText(format, row, front != [])
  {
    assert (front + [row])[..|front|] == front;
  }

  lemma {:induction false} JsonRowsText(rows: seq<Row>, i: nat)
    requires i <= |rows|
    ensures RowsText(Json, rows[..i]) == ItemsUpTo(RowsJson(rows), i)
  {
    if i > 0 {
      JsonRowsText(rows, i - 1);
      assert rows[..i][..i - 1] == rows[..i - 1];
      var comma := if i > 1 then [JsonText.COMMA] else [];
      Assoc(ItemsUpTo(RowsJson(rows), i - 1), comma, JsonText.Render(RowsJson(rows)[i - 1]));
    }
  }

  /** The fragments spell the document that `TableJson` describes. */
  lemma JsonTableText(columns: seq<Column>, rows: seq<Row>)
    ensures TableText(Json, columns, rows) == JsonText.Render(TableJson(columns, rows))
  {
    JsonRowsAll(rows);
    RenderTable(ColumnsJson(columns), RowsJson(rows));
    TableConcat(JsonText.RenderItems(ColumnsJson(columns)), RowsText(Json, rows));
  }

  lemma JsonRowsAll(rows: seq<Row>)
    ensures RowsText(Json, rows) == JsonText.RenderItems(RowsJson(rows))
  {
    var items := RowsJson(rows);
    JsonRowsText(rows, |rows|);
    assert rows[..|rows|] == rows;
    ItemsUpToAll(items, 0);
    assert items[0..] == items;
    assert [] + [] + JsonText.RenderItems(items) == JsonText.RenderItems(items);
  }

  lemma RenderTable(columns: seq<JsonText.Json>, rows: seq<JsonText.Json>)
    ensures JsonText.Render(JsonText.Obj([JsonText.Member(COLUMNS, JsonText.Arr(columns)),
      JsonText.Member(ROWS, JsonText.Arr(rows))]))
         == Document(JsonText.RenderItems(columns), JsonText.RenderItems(rows))
  {
    PlainKeys();
    TwoKeyed(COLUMNS, JsonText.Arr(columns), ROWS, JsonText.Arr(rows));
  }

  function Document(columns: Text, rows: Text): Text {
    [JsonText.BEGIN]
    + ((Keyed(COLUMNS, Bracketed(columns)) + ([JsonText.COMMA] + Keyed(ROWS, Bracketed(rows)))) + [JsonText.END])
  }

  lemma RenderTwo(a: JsonText.Member, b: JsonText.Member)
    ensures JsonText.RenderMembers([a, b]) == JsonText.RenderMember(a) + ([JsonText.COMMA] + JsonText.RenderMember(b))
  {
    assert JsonText.RenderMembers([b]) == JsonText.RenderMember(b) + [];
    assert [a, b][1..] == [b];
  }

  function Bracketed(t: Text): Text {
    [JsonText.OPEN] + (t + [JsonText.CLOSE])
  }

  lemma TableConcat(x: Text, y: Text)
    ensures (OPENING + (x + MIDDLE)) + y + CLOSING == Document(x, y)
  {
    assert OPENING == [JsonText.BEGIN] + Keyed(COLUMNS, [JsonText.OPEN]);
    assert MIDDLE == [JsonText.CLOSE] + ([JsonText.COMMA] + Keyed(ROWS, [JsonText.OPEN]));
  }

  lemma ColumnsIdentify(a: seq<Column>, b: seq<Column>)
    requires ColumnsJson(a) == ColumnsJson(b)
    ensures a == b
  {
    assert |a| == |ColumnsJson(a)| == |b|;
    forall i | 0 <= i < |a| ensures a[i] == b[i] {
      var p, q := ColumnsJson(a)[i].members, ColumnsJson(b)[i].members;
      assert p[0] == q[0] && p[1] == q[1] && p[2] == q[2];
    }
  }

  lemma CellsIdentify(a: Row, b: Row)
    requires CellsJson(a) == CellsJson(b)
    ensures a == b
  {
    assert |a| == |CellsJson(a)| == |b|;
    forall i | 0 <= i < |a| ensures a[i] == b[i] {
      assert CellsJson(a)[i] == CellsJson(b)[i];
    }
  }

  /** Distinct results are distinct documents. */
  lemma TableJsonIdentifies(columns: seq<Column>, rows: seq<Row>, columns': seq<Column>, rows': seq<Row>)
    requires TableJson(columns, rows) == TableJson(columns', rows')
    ensures columns == columns' && rows == rows'
  {
    var p, q := TableJson(columns, rows).members, TableJson(columns', rows').members;
    assert p[0] == q[0] && p[1] == q[1];
    ColumnsIdentify(columns, columns');
    assert |rows| == |RowsJson(rows)| == |rows'|;
    forall i | 0 <= i < |rows| ensures rows[i] == rows'[i] {
      assert RowsJson(rows)[i] == RowsJson(rows')[i];
      CellsIdentify(rows[i], rows'[i]);
    }
  }

  /** The bytes of a CSV export give back exactly its names and rows. */
  lemma CsvExportReadsBack(columns: seq<Column>, rows: seq<Row>)
    requires Utf8.Encodable(TableText(Csv, columns, rows))
    ensures var text := Utf8.Decode(Utf8.Encode(TableText(Csv, columns, rows)));
            text.Some? && CsvText.Read(text.value) == Some(CsvText.Result(ColumnNames(columns), rows))
  {
    Utf8.DecodeOfEncode(TableText(Csv, columns, rows));
    CsvRowsText(rows);
    assert rows[..|rows|] == rows;
    CsvText.ReadOfTable(ColumnNames(columns), rows);
    var t := CsvText.Table(ColumnNames(columns), rows);
    assert t + [] == t;
  }

  /** The bytes of a JSON export parse to the document that holds its columns and rows. */
  lemma JsonExportReadsBack(columns: seq<Column>, rows: seq<Row>)
    requires Utf8.Encodable(TableText(Json, columns, rows))
    ensures var text := Utf8.Decode(Utf8.Encode(TableText(Json, columns, rows)));
            text.Some? && JsonText.Read(text.value) == Some(TableJson(columns, rows))
  {
    Utf8.DecodeOfEncode(TableText(Json, columns, rows));
    JsonTableText(columns, rows);
    JsonText.ReadOfRender(TableJson(columns, rows));
  }

  // ----------------------------------------------- steps of the copying proof

  lemma Lengths(sent: Bytes, rest: Bytes, all: Bytes, encoded: Bytes, from: int)
    requires 0 <= from <= |encoded| && sent + rest == all + encoded[..from]
    ensures |sent| + |rest| == |all| + from
  {
    assert |sent + rest| == |sent| + |rest|;
  }

  lemma Flush(sent: Bytes, rest: Bytes)
    ensures (sent + rest) + [] == sent + rest
  {
  }

  lemma Grow(sent: Bytes, rest: Bytes, all: Bytes, encoded: Bytes, from: int, to: int)
    requires 0 <= from <= to <= |encoded| && sent + rest == all + encoded[..from]
    ensures sent + (rest + encoded[from..to]) == all + encoded[..to]
  {
    assert encoded[..to] == encoded[..from] + encoded[from..to];
    Assoc(all, encoded[..from], encoded[from..to]);
    Assoc(sent, rest, encoded[from..to]);
  }

  lemma NextPiece(before: Text, fragment: Text, start: int, end: int)
    requires 0 <= start <= end <= |fragment|
    ensures (before + fragment[..start]) + fragment[start..end] == before + fragment[..end]
  {
    assert fragment[..end] == fragment[..start] + fragment[start..end];
    Assoc(before, fragment[..start], fragment[start..end]);
  }

  lemma AllPieces(fragments: seq<Text>, f: nat, start: int)
    requires f < |fragments| && start >= |fragments[f]|
    ensures Join(fragments[..f]) + fragments[f][..Min(start, |fragments[f]|)] == Join(fragments[..f + 1])
  {
    assert fragments[f][..|fragments[f]|] == fragments[f];
    JoinTake(fragments, f);
  }

  /** The text up to the end of the current piece is a prefix of the whole. */
  lemma PrefixOfAll(fragments: seq<Text>, f: nat, before: Text, start: int, end: int)
    requires f < |fragments| && before == Join(fragments[..f]) && 0 <= start <= end <= |fragments[f]|
    ensures (before + fragments[f][..start]) + fragments[f][start..end] <= Join(fragments)
  {
    JoinTake(fragments, f);
    assert fragments == fragments[..f + 1] + fragments[f + 1..];
    JoinAppend(fragments[..f + 1], fragments[f + 1..]);
    assert fragments[f][..end] == fragments[f][..start] + fragments[f][start..end];
    Assoc(before, fragments[f][..start], fragments[f][start..end]);
    assert before + fragments[f][..end] <= before + fragments[f];
  }

  lemma NotEncodable(all: Text, done: Text, piece: Text)
    requires done + piece <= all && !Utf8.Encodable(piece)
    ensures !Utf8.Encodable(all)
  {
    var i :| 0 <= i < |piece| && Utf8.IsSurrogate(piece[i]);
    assert all[|done| + i] == (done + piece)[|done| + i] == piece[i];
  }

  lemma OverflowWitness(all: Text, prefix: Text, written: int, maxBytes: int)
    requires prefix <= all && Utf8.Encodable(prefix) && written + |Utf8.Encode(prefix)| > maxBytes
    ensures Overflows(all, written, maxBytes)
  {
    assert all[..|prefix|] == prefix;
  }
}
