/** When a sample is shown whole, cell by cell, and what a cell shows that is not. */
module ParquetSample {
  import opened Wrappers
  import opened Bytes
  import opened Utf8
  import opened PreviewLimits
  import opened ParquetDecode
  import opened ParquetRows
  import opened ParquetFits
  import PreviewText

  /** A cell on its own: it nests, takes characters and has buffers within the limits. */
  predicate CellFits(s: Scalar, lossy: Bytes -> Text) {
    Levels(s) <= MAX_NESTING && Need(s, lossy) <= MAX_CELL_CHARS && Short(s, lossy)
  }

  /** How a cell shows all of a value, in as many characters as a cell has. */
  function WholeCell(display: Value -> Display, lossy: Bytes -> Text): Scalar -> Cell {
    s => CellOf(Full(s, lossy), false, display)
  }

  /** What fits is rendered whole, and its scalars are counted. */
  ghost predicate ShowsWhole(style: Style, whole: Scalar -> Cell) {
    forall s: Scalar, nodes: int :: CellFits(s, style.lossy) && nodes + NodesOf(s) <= MAX_NODES ==>
      RenderCell(s, nodes, style) == (whole(s), nodes + NodesOf(s))
  }

  lemma StyleShowsWhole(display: Value -> Display, lossy: Bytes -> Text)
    ensures ShowsWhole(StyleOf(display, lossy), WholeCell(display, lossy))
  {
    forall s: Scalar, nodes: int | CellFits(s, lossy) && nodes + NodesOf(s) <= MAX_NODES
      ensures RenderCell(s, nodes, StyleOf(display, lossy)) == (WholeCell(display, lossy)(s), nodes + NodesOf(s))
    {
      FittingIsWhole(s, 0, nodes, MAX_CELL_CHARS, lossy);
    }
  }

  // ---------------------------------------------------------------------- rows

  function NodesOfRow(row: seq<Scalar>): nat {
    if row == [] then 0 else NodesOfRow(row[..|row| - 1]) + NodesOf(row[|row| - 1])
  }

  predicate CellsFit(row: seq<Scalar>, lossy: Bytes -> Text) {
    forall j :: 0 <= j < |row| ==> CellFits(row[j], lossy)
  }

  /** The row shows the whole of every scalar. */
  predicate RowWhole(cells: Row, row: seq<Scalar>, whole: Scalar -> Cell) {
    |cells| == |row| && forall j :: 0 <= j < |row| ==> cells[j] == whole(row[j])
  }

  lemma RowLast(init: seq<Scalar>, last: Scalar, nodes: int, style: Style)
    ensures var before := RenderRow(init, nodes, style);
            var cell := RenderCell(last, before.nodes, style);
            RenderRow(init + [last], nodes, style) == Rendered(before.done + [cell.0], cell.1)
    ensures NodesOfRow(init + [last]) == NodesOfRow(init) + NodesOf(last)
  {
    assert (init + [last])[..|init|] == init;
  }

  lemma {:induction false} RenderedRowWhole(row: seq<Scalar>, nodes: int, style: Style, whole: Scalar -> Cell)
    requires ShowsWhole(style, whole) && CellsFit(row, style.lossy) && nodes + NodesOfRow(row) <= MAX_NODES
    ensures RowWhole(RenderRow(row, nodes, style).done, row, whole)
    ensures RenderRow(row, nodes, style).nodes == nodes + NodesOfRow(row)
  {
    if row != [] {
      var init, last := row[..|row| - 1], row[|row| - 1];
      RenderedRowWhole(init, nodes, style, whole);
      RowLast(init, last, nodes, style);
      assert row == init + [last];
    }
  }

  // ------------------------------------------------------------------- samples

  function FirstColumns(row: seq<Scalar>): seq<Scalar> {
    if |row| <= MAX_COLUMNS then row else row[..MAX_COLUMNS]
  }

  /** The scalars of the columns that are shown. */
  function NodesOfRows(rows: seq<seq<Scalar>>): nat {
    if rows == [] then 0 else NodesOfRows(rows[..|rows| - 1]) + NodesOfRow(FirstColumns(rows[|rows| - 1]))
  }

  predicate RowsWhole(cells: seq<Row>, rows: seq<seq<Scalar>>, whole: Scalar -> Cell) {
    |cells| == |rows| && forall i :: 0 <= i < |rows| ==> RowWhole(cells[i], FirstColumns(rows[i]), whole)
  }

  lemma RowsLast(init: seq<seq<Scalar>>, last: seq<Scalar>, nodes: int, style: Style)
    ensures var before := RenderRows(init, nodes, style);
            var row := RenderRow(FirstColumns(last), before.nodes, style);
            RenderRows(init + [last], nodes, style) == Rendered(before.done + [row.done], row.nodes)
    ensures NodesOfRows(init + [last]) == NodesOfRows(init) + NodesOfRow(FirstColumns(last))
  {
    assert (init + [last])[..|init|] == init;
    assert FirstColumns(last) == ParquetRows.Shown(last);
  }

  predicate AllFit(rows: seq<seq<Scalar>>, lossy: Bytes -> Text) {
    forall i :: 0 <= i < |rows| ==> CellsFit(FirstColumns(rows[i]), lossy)
  }

  lemma LastRow(rows: seq<seq<Scalar>>, lossy: Bytes -> Text)
    requires rows != [] && AllFit(rows, lossy)
    ensures var init, last := rows[..|rows| - 1], rows[|rows| - 1];
            && rows == init + [last] && AllFit(init, lossy) && CellsFit(FirstColumns(last), lossy)
            && NodesOfRows(rows) == NodesOfRows(init) + NodesOfRow(FirstColumns(last))
  {
  }

  /** The rendered rows are whole, and their scalars are counted. */
  predicate Done(r: Rendered<Row>, rows: seq<seq<Scalar>>, nodes: int, whole: Scalar -> Cell) {
    RowsWhole(r.done, rows, whole) && r.nodes == nodes + NodesOfRows(rows)
  }

  lemma RowsDoneNext(init: seq<seq<Scalar>>, last: seq<Scalar>, nodes: int, style: Style, whole: Scalar -> Cell)
    requires ShowsWhole(style, whole) && CellsFit(FirstColumns(last), style.lossy)
    requires nodes + NodesOfRows(init) + NodesOfRow(FirstColumns(last)) <= MAX_NODES
    requires Done(RenderRows(init, nodes, style), init, nodes, whole)
    ensures Done(RenderRows(init + [last], nodes, style), init + [last], nodes, whole)
  {
    var before := RenderRows(init, nodes, style);
    RowsLast(init, last, nodes, style);
    RenderedRowWhole(FirstColumns(last), before.nodes, style, whole);
    RowsWholeNext(before.done, init, RenderRow(FirstColumns(last), before.nodes, style).done, last, whole);
  }

  lemma {:induction false} RenderedRowsWhole(
    rows: seq<seq<Scalar>>, nodes: int, style: Style, whole: Scalar -> Cell)
    requires ShowsWhole(style, whole) && nodes + NodesOfRows(rows) <= MAX_NODES
    requires AllFit(rows, style.lossy)
    ensures Done(RenderRows(rows, nodes, style), rows, nodes, whole)
  {
    if rows != [] {
      var init, last := rows[..|rows| - 1], rows[|rows| - 1];
      LastRow(rows, style.lossy);
      RenderedRowsWhole(init, nodes, style, whole);
      RowsDoneNext(init, last, nodes, style, whole);
    }
  }

  lemma RowsWholeNext(cells: seq<Row>, init: seq<seq<Scalar>>, row: Row, last: seq<Scalar>, whole: Scalar -> Cell)
    requires RowsWhole(cells, init, whole) && RowWhole(row, FirstColumns(last), whole)
    ensures RowsWhole(cells + [row], init + [last], whole)
  {
  }

  /**
   Where every cell fits and all scalars of the sample together do, the preview shows
   the first rows and columns of the file whole, however its rows are batched.
   */
  lemma SampleWhole(batches: seq<Batch>, display: Value -> Display, lossy: Bytes -> Text)
    requires var rows := FirstRows(AllRows(batches), MAX_ROWS); AllFit(rows, lossy) && NodesOfRows(rows) <= MAX_NODES
    ensures RowsWhole(Sample(batches, StyleOf(display, lossy)).done, FirstRows(AllRows(batches), MAX_ROWS),
        WholeCell(display, lossy))
  {
    StyleShowsWhole(display, lossy);
    RenderedRowsWhole(FirstRows(AllRows(batches), MAX_ROWS), 0, StyleOf(display, lossy), WholeCell(display, lossy));
  }

  /** A cell that does not show its whole value shows the beginning of it, as much as fits before the mark. */
  lemma CutCell(value: Value, cut: bool, display: Value -> Display)
    ensures var c, e := CellOf(value, cut, display), PreviewText.Escaped(display(value).text);
            c.truncated ==>
              c.text == e[..Min(|e|, MAX_CELL_CHARS - |PreviewText.SUFFIX|)] + PreviewText.SUFFIX
  {
  }
}
