/**
 The report of the rows, at both ends: the child and the parent each count the
 characters of headers and notes on their own side, and so agree on every sample.
 */
module ParquetReport {
  import opened Wrappers
  import opened Bytes
  import opened Utf8
  import opened PreviewLimits
  import opened ParquetPlan
  import opened ParquetAdmission
  import opened ParquetRows
  import opened ParquetResult
  import D = ParquetDecode

  // ---------------------------------------------- the characters both sides count

  /** `len(name) + len(type)` over all columns. */
  function HeaderChars(columns: seq<(Text, Text)>): nat {
    if columns == [] then 0
    else HeaderChars(columns[..|columns| - 1]) + |columns[|columns| - 1].0| + |columns[|columns| - 1].1|
  }

  function TextChars(notes: seq<Text>): nat {
    if notes == [] then 0 else TextChars(notes[..|notes| - 1]) + |notes[|notes| - 1]|
  }

  function PlanNotes(p: Plan): seq<Text> {
    if p.overBudget then [BUDGET_MESSAGE] else []
  }

  /** What the child counts before it decodes: the headers and notes of its own plan. */
  function PlanChars(p: Plan): nat {
    HeaderChars(p.columns) + TextChars(PlanNotes(p))
  }

  function NoteTexts(notes: seq<Wire>): (r: seq<Text>)
    ensures |r| == |notes|
  {
    seq(|notes|, i requires 0 <= i < |notes| => if notes[i].Str? then notes[i].text else [])
  }

  /** What the parent counts before it reads the rows: the headers and notes it admitted. */
  function AdmittedChars(a: Admission): nat {
    HeaderChars(a.columns) + TextChars(NoteTexts(a.notes))
  }

  function HeaderText(columns: seq<(Text, Text)>): Text {
    if columns == [] then [] else columns[0].0 + columns[0].1 + HeaderText(columns[1..])
  }

  function NoteText(notes: seq<Text>): Text {
    if notes == [] then [] else notes[0] + NoteText(notes[1..])
  }

  /** The characters counted are those of all names, types and notes strung together. */
  lemma {:induction false} HeadersCounted(columns: seq<(Text, Text)>)
    ensures HeaderChars(columns) == |HeaderText(columns)|
  {
    if columns != [] {
      HeadersCounted(columns[1..]);
      HeaderFirst(columns[0], columns[1..]);
      assert columns == [columns[0]] + columns[1..];
    }
  }

  lemma {:induction false} HeaderFirst(c: (Text, Text), others: seq<(Text, Text)>)
    ensures HeaderChars([c] + others) == |c.0| + |c.1| + HeaderChars(others)
  {
    if others == [] {
      assert [c] + others == [c] && HeaderChars([c][..0]) == 0;
    } else {
      var n := |others| - 1;
      HeaderFirst(c, others[..n]);
      assert ([c] + others)[..n + 1] == [c] + others[..n];
    }
  }

  lemma {:induction false} NotesCounted(notes: seq<Text>)
    ensures TextChars(notes) == |NoteText(notes)|
  {
    if notes != [] {
      NotesCounted(notes[1..]);
      NoteFirst(notes[0], notes[1..]);
      assert notes == [notes[0]] + notes[1..];
    }
  }

  lemma {:induction false} NoteFirst(note: Text, others: seq<Text>)
    ensures TextChars([note] + others) == |note| + TextChars(others)
  {
    if others == [] {
      assert [note] + others == [note] && TextChars([note][..0]) == 0;
    } else {
      var n := |others| - 1;
      NoteFirst(note, others[..n]);
      assert ([note] + others)[..n + 1] == [note] + others[..n];
    }
  }

  lemma {:induction false} HeadersBounded(columns: seq<(Text, Text)>)
    requires forall k :: 0 <= k < |columns| ==> |columns[k].0| <= MAX_CELL_CHARS && |columns[k].1| <= MAX_CELL_CHARS
    ensures HeaderChars(columns) <= 2 * MAX_CELL_CHARS * |columns|
  {
    if columns != [] { HeadersBounded(columns[..|columns| - 1]); }
  }

  /** A plan arrives with its own headers and notes, so both sides count the same characters. */
  lemma TotalsAgree(p: Plan)
    requires WellFormed(PlanMessage(p))
    ensures Admitted(PlanMessage(p)).columns == p.columns && NoteTexts(Admitted(PlanMessage(p)).notes) == PlanNotes(p)
    ensures AdmittedChars(Admitted(PlanMessage(p))) == PlanChars(p)
  {
    var a := Admitted(PlanMessage(p));
    assert Get(PlanMessage(p), "columns") == Array(Pairs(p.columns));
    assert a.columns == p.columns;
    assert a.notes == if p.overBudget then [Str(BUDGET_MESSAGE)] else [];
    assert NoteTexts(a.notes) == PlanNotes(p);
  }

  lemma TotalsBounded(p: Plan, footer: int)
    requires ProperPlan(p, footer) && |p.columns| <= MAX_COLUMNS
    ensures PlanChars(p) <= MAX_RENDER_CHARS
  {
    HeadersBounded(p.columns);
    NoteBounded(p);
  }

  lemma NoteBounded(p: Plan)
    ensures TextChars(PlanNotes(p)) <= |BUDGET_MESSAGE| <= 64
  {
    assert [BUDGET_MESSAGE][..0] == [];
    assert TextChars([]) == 0;
  }

  // ------------------------------------------------------------------ both ends

  /**
   `_decode`: the batches come group by group, in any sizes, and may overshoot.
   Whatever they are, the result is the sample of all rows together.
   */
  method Decode(p: Plan, groups: seq<seq<Batch>>, resolved: bool, style: Style)
    returns (r: Result<seq<Row>, DecodeFailure>)
    ensures r == if p.names == [] then Ok([])
                 else if !resolved then Err(DecodeFailure.Unavailable)
                 else Decoded(Flatten(groups), PlanChars(p), style)
  {
    if p.names == [] { return Ok([]); }
    if !resolved { return Err(DecodeFailure.Unavailable); }
    r := DecodeGroups(groups, PlanChars(p), style);
  }

  /** A child's plan was admitted, and the reader yields one scalar for each of its columns. */
  ghost predicate Decoding(p: Plan, size: int, footer: int, spent: Spent, batches: seq<Batch>) {
    && ProperPlan(p, footer) && footer <= size && Refusal(PlanMessage(p), size, footer, spent).None?
    && (forall i :: 0 <= i < |AllRows(batches)| ==> |AllRows(batches)[i]| == |p.columns|)
  }

  /**
   The budgets of a decoded sample: rows, characters with those of headers and notes,
   nodes over the whole preview, and the length of every cell.
   */
  lemma DecodeBudgets(
    p: Plan, size: int, footer: int, spent: Spent, batches: seq<Batch>, display: D.Value -> Display,
      lossy: Bytes -> Text)
    requires Decoding(p, size, footer, spent, batches)
    requires Decoded(batches, PlanChars(p), StyleOf(display, lossy)).Ok?
    ensures var rows := Decoded(batches, PlanChars(p), StyleOf(display, lossy)).value;
            && |rows| == D.Min(|AllRows(batches)|, MAX_ROWS) && PlanChars(p) + Chars(rows) <= MAX_RENDER_CHARS
            && RowsFit(rows, |p.columns|) && Sample(batches, StyleOf(display, lossy)).nodes <= MAX_NODES
  {
    PlannerSoundness(p, size, footer, spent);
    TotalsBounded(p, footer);
    SampleBudgets(batches, PlanChars(p), |p.columns|, display, lossy);
  }

  /** `_result_rows`. */
  method ResultRows(m: Message, a: Admission) returns (r: Result<seq<Row>, RowsFailure>)
    ensures r == Reported(m, |a.columns|, AdmittedChars(a))
  {
    r := ReadReport(m, |a.columns|, AdmittedChars(a));
  }

  /** So whatever a correct child decodes within its budgets, from whatever batches, the parent shows. */
  lemma ChildIsBelieved(
    p: Plan, size: int, footer: int, spent: Spent, batches: seq<Batch>, display: D.Value -> Display,
      lossy: Bytes -> Text)
    requires Decoding(p, size, footer, spent, batches)
    requires Decoded(batches, PlanChars(p), StyleOf(display, lossy)).Ok?
    ensures var rows, a := Decoded(batches, PlanChars(p), StyleOf(display, lossy)).value, Admitted(PlanMessage(p));
            AdmittedChars(a) == PlanChars(p) && Reported(ResultMessage(rows), |a.columns|, AdmittedChars(a)) == Ok(rows)
  {
    TotalsAgree(p);
    DecodeBudgets(p, size, footer, spent, batches, display, lossy);
    ResultAccepted(Decoded(batches, PlanChars(p), StyleOf(display, lossy)).value, |p.columns|, PlanChars(p));
  }

  // ------------------------------------------------------- what escapes the parent

  predicate Shaped(w: Wire) {
    w.Object? && IsText(Get(w.entries, "text"), MAX_CELL_CHARS) && Get(w.entries, "truncated").Bool?
  }

  predicate Readable(w: Wire) {
    Shaped(w) && "kind" in w.entries && exists k: Kind :: w.entries["kind"] == Str(KindName(k))
  }

  predicate Kindless(w: Wire) {
    Shaped(w) && "kind" !in w.entries
  }

  predicate ReadableRow(w: Wire, width: nat) {
    w.Array? && |w.items| == width && forall j :: 0 <= j < width ==> Readable(w.items[j])
  }

  lemma CellCases(w: Wire)
    ensures ReadCell(w).Ok? <==> Readable(w)
    ensures ReadCell(w) == Err(NoKind) <==> Kindless(w)
  {
    if Readable(w) {
      var k: Kind :| w.entries["kind"] == Str(KindName(k));
      KindOfName(k);
    }
    if ReadCell(w).Ok? {
      assert w.entries["kind"] == Str(KindName(KindOf(w.entries["kind"]).value));
    }
  }

  /** A reading fails as the first item does that cannot be read. */
  lemma {:induction false} FirstFailure<T>(items: seq<Wire>, n: nat, read: Wire -> Result<T, RowsFailure>,
    e: RowsFailure)
    requires n <= |items|
    ensures Traverse(items, n, read).Ok? <==> forall i :: 0 <= i < n ==> read(items[i]).Ok?
    ensures Traverse(items, n, read) == Err(e) <==>
      exists j :: 0 <= j < n && read(items[j]) == Err(e) && forall i :: 0 <= i < j ==> read(items[i]).Ok?
  {
    if n > 0 { FirstFailure(items, n - 1, read, e); }
  }

  lemma RowCases(w: Wire, width: nat)
    ensures ReadRow(w, width).Ok? <==> ReadableRow(w, width)
    ensures ReadRow(w, width) == Err(NoKind) <==> KindlessCell(w, width)
  {
    if w.Array? && |w.items| == width {
      FirstFailure(w.items, width, ReadCell, NoKind);
      forall j | 0 <= j < width
        ensures ReadCell(w.items[j]).Ok? <==> Readable(w.items[j])
        ensures ReadCell(w.items[j]) == Err(NoKind) <==> Kindless(w.items[j])
      {
        CellCases(w.items[j]);
      }
    }
  }

  /** The first cell of the row that cannot be read lacks nothing but its kind. */
  ghost predicate KindlessCell(w: Wire, width: nat) {
    w.Array? && |w.items| == width
    && exists j :: 0 <= j < width && Kindless(w.items[j]) && forall l :: 0 <= l < j ==> Readable(w.items[l])
  }

  /** The first cell of the report that cannot be read lacks nothing but its kind. */
  ghost predicate KindlessFirst(m: Message, width: nat) {
    && Get(m, "phase") == Str(Ascii("result")) && Get(m, "rows").Array? && |Get(m, "rows").items| <= MAX_ROWS
    && exists i :: 0 <= i < |Get(m, "rows").items| && KindlessCell(Get(m, "rows").items[i], width)
                   && forall k :: 0 <= k < i ==> ReadableRow(Get(m, "rows").items[k], width)
  }

  /** How a preview ends on a report: rows, the raw preview, or a KeyError nobody catches. */
  datatype Ending = Rows(rows: seq<Row>) | RawPreview | Uncaught

  function EndingOf(r: Result<seq<Row>, RowsFailure>): Ending {
    match r
    case Ok(rows) => Rows(rows)
    case Err(NoKind) => Uncaught
    case Err(_) => RawPreview
  }

  /**
   A report escapes exactly if its first unreadable cell lacks nothing but its kind;
   any other is shown or falls back.
   */
  lemma EscapesExactly(m: Message, width: nat, headers: nat)
    ensures EndingOf(Reported(m, width, headers)) == Uncaught <==> KindlessFirst(m, width)
  {
    if Get(m, "phase") == Str(Ascii("result")) && Get(m, "rows").Array? {
      var items := Get(m, "rows").items;
      FirstFailure(items, |items|, RowReader(width), NoKind);
      forall i | 0 <= i < |items|
        ensures RowReader(width)(items[i]).Ok? <==> ReadableRow(items[i], width)
        ensures RowReader(width)(items[i]) == Err(NoKind) <==> KindlessCell(items[i], width)
      {
        RowCases(items[i], width);
      }
    }
  }

  /** Such a report: one cell, an empty text not marked as truncated, and no kind. */
  lemma KindlessReport(headers: nat)
    ensures var cell := Object(map["text" := Str([]), "truncated" := Bool(false)]);
            var m: Message := map["phase" := Str(Ascii("result")), "rows" := Array([Array([cell])])];
            Reported(m, 1, headers) == Err(NoKind)
  {
    var cell := Object(map["text" := Str([]), "truncated" := Bool(false)]);
    var m: Message := map["phase" := Str(Ascii("result")), "rows" := Array([Array([cell])])];
    EscapesExactly(m, 1, headers);
    assert Kindless(cell);
    assert Get(m, "rows").items[0] == Array([cell]) && Array([cell]).items[0] == cell;
    assert KindlessCell(Get(m, "rows").items[0], 1);
  }

  // ---------------------------------------------------------- what the parent shows

  predicate Shows(w: Wire, c: Cell) {
    w.Object? && "kind" in w.entries && w.entries["kind"] == Str(KindName(c.kind))
    && Get(w.entries, "text") == Str(c.text) && Get(w.entries, "truncated") == Bool(c.truncated)
  }

  lemma CellShows(w: Wire)
    requires ReadCell(w).Ok?
    ensures Shows(w, ReadCell(w).value)
  {
  }

  lemma {:induction false} TraverseAt<T>(items: seq<Wire>, n: nat, read: Wire -> Result<T, RowsFailure>, i: nat)
    requires n <= |items| && Traverse(items, n, read).Ok? && i < n
    ensures read(items[i]) == Ok(Traverse(items, n, read).value[i])
  {
    if i < n - 1 { TraverseAt(items, n - 1, read, i); }
  }

  /** The wire is the row, cell by cell. */
  predicate RowShows(w: Wire, row: Row) {
    w.Array? && |w.items| == |row| && forall j :: 0 <= j < |row| ==> Shows(w.items[j], row[j])
  }

  lemma ReadRowShows(w: Wire, width: nat)
    requires ReadRow(w, width).Ok?
    ensures RowShows(w, ReadRow(w, width).value) && |ReadRow(w, width).value| == width
  {
    var row := ReadRow(w, width).value;
    forall j | 0 <= j < width ensures Shows(w.items[j], row[j]) {
      TraverseAt(w.items, width, ReadCell, j);
      CellShows(w.items[j]);
    }
  }

  /** What is shown of a report is the report, row by row and cell by cell. */
  lemma ReportMeaning(m: Message, width: nat, headers: nat)
    requires Reported(m, width, headers).Ok?
    ensures var rows := Reported(m, width, headers).value;
            Get(m, "rows").Array? && RowsShow(Get(m, "rows").items, rows, width)
  {
    var items := Get(m, "rows").items;
    ReadRowsShow(items, width);
  }

  predicate RowsShow(items: seq<Wire>, rows: seq<Row>, width: nat) {
    |items| == |rows| && forall i :: 0 <= i < |rows| ==> RowShows(items[i], rows[i]) && |rows[i]| == width
  }

  lemma ReadRowsShow(items: seq<Wire>, width: nat)
    requires Traverse(items, |items|, RowReader(width)).Ok?
    ensures RowsShow(items, Traverse(items, |items|, RowReader(width)).value, width)
  {
    var rows := Traverse(items, |items|, RowReader(width)).value;
    forall i | 0 <= i < |rows| ensures RowShows(items[i], rows[i]) && |rows[i]| == width {
      TraverseAt(items, |items|, RowReader(width), i);
      ReadRowShows(items[i], width);
    }
  }

  // ------------------------------------------------------- which reports it shows

  /** The characters of the texts in a list of cells, and in a list of rows. */
  function WireChars(cells: seq<Wire>): nat {
    if cells == [] then 0
    else
      var last := cells[|cells| - 1];
      WireChars(cells[..|cells| - 1])
        + if last.Object? && Get(last.entries, "text").Str? then |Get(last.entries, "text").text| else 0
  }

  function ReportChars(rows: seq<Wire>): nat {
    if rows == [] then 0
    else
      var last := rows[|rows| - 1];
      ReportChars(rows[..|rows| - 1]) + if last.Array? then WireChars(last.items) else 0
  }

  lemma {:induction false} RowCharsShown(cells: seq<Wire>, row: Row)
    requires |cells| == |row| && forall j :: 0 <= j < |row| ==> Shows(cells[j], row[j])
    ensures WireChars(cells) == RowChars(row)
  {
    if row != [] { RowCharsShown(cells[..|cells| - 1], row[..|row| - 1]); }
  }

  lemma {:induction false} CharsShown(items: seq<Wire>, rows: seq<Row>, width: nat)
    requires RowsShow(items, rows, width)
    ensures ReportChars(items) == Chars(rows)
  {
    if rows != [] {
      var n := |rows| - 1;
      CharsShown(items[..n], rows[..n], width);
      RowCharsShown(items[n].items, rows[n]);
    }
  }

  /**
   A report is shown if and only if it is one, of no more rows than a sample has, every
   cell of it can be read, and its characters with those of headers and notes are within
   the total.
   */
  lemma ReportShownExactly(m: Message, width: nat, headers: nat)
    ensures Reported(m, width, headers).Ok? <==>
      && Get(m, "phase") == Str(Ascii("result")) && Get(m, "rows").Array? && |Get(m, "rows").items| <= MAX_ROWS
      && (forall i :: 0 <= i < |Get(m, "rows").items| ==> ReadableRow(Get(m, "rows").items[i], width))
      && headers + ReportChars(Get(m, "rows").items) <= MAX_RENDER_CHARS
  {
    if Get(m, "phase") == Str(Ascii("result")) && Get(m, "rows").Array? {
      var items := Get(m, "rows").items;
      FirstFailure(items, |items|, RowReader(width), NoKind);
      forall i | 0 <= i < |items| ensures RowReader(width)(items[i]).Ok? <==> ReadableRow(items[i], width) {
        RowCases(items[i], width);
      }
      if Traverse(items, |items|, RowReader(width)).Ok? {
        ReadRowsShow(items, width);
        CharsShown(items, Traverse(items, |items|, RowReader(width)).value, width);
      }
    }
  }
}
