/** `append_bounded_cells` and `_decode`: the sample of rows a child renders, within its budgets. */
module ParquetRows {
  import opened Wrappers
  import opened Bytes
  import opened Utf8
  import opened PreviewLimits
  import opened ParquetDecode
  import PreviewText

  datatype Kind = NullKind | EmptyKind | ScalarKind | NestedKind | MissingKind

  datatype Cell = Cell(text: Text, kind: Kind, truncated: bool)

  datatype Display = Display(text: Text, kind: Kind)

  /** `normalize_cell` for a given display of values, and the marking of a value that was cut. */
  function CellOf(value: Value, cut: bool, display: Value -> Display): Cell {
    var d := display(value);
    var text := PreviewText.Shown(d.text, MAX_CELL_CHARS);
    var truncated := |PreviewText.Escaped(d.text)| > MAX_CELL_CHARS;
    if cut && !truncated
    then Cell(text[..Min(|text|, MAX_CELL_CHARS - |PreviewText.SUFFIX|)] + PreviewText.SUFFIX, d.kind, true)
    else Cell(text, d.kind, truncated)
  }

  /** A cell is short, and says so if it does not show its whole value. */
  lemma CellMeaning(value: Value, cut: bool, display: Value -> Display)
    ensures var c, d := CellOf(value, cut, display), display(value);
            && |c.text| <= MAX_CELL_CHARS && c.kind == d.kind
            && (c.truncated <==> cut || |PreviewText.Escaped(d.text)| > MAX_CELL_CHARS)
            && (!c.truncated ==> c.text == PreviewText.Escaped(d.text))
  {
  }

  lemma CellIsHarmless(value: Value, cut: bool, display: Value -> Display, i: nat)
    requires i < |CellOf(value, cut, display).text|
    ensures PreviewText.Harmless(CellOf(value, cut, display).text[i])
  {
    var text := PreviewText.Shown(display(value).text, MAX_CELL_CHARS);
    var kept := Min(|text|, MAX_CELL_CHARS - |PreviewText.SUFFIX|);
    assert i < |text| ==> PreviewText.Harmless(text[i]);
    assert 0 <= i - kept < |PreviewText.SUFFIX| ==> PreviewText.Harmless(PreviewText.SUFFIX[i - kept]);
  }

  /** How a converted value becomes a cell, and how buffers are decoded. */
  datatype Style = Style(cell: (Value, bool) -> Cell, lossy: Bytes -> Text)

  function StyleOf(display: Value -> Display, lossy: Bytes -> Text): Style {
    Style((value, cut) => CellOf(value, cut, display), lossy)
  }

  /** One cell, and the node counter after it. */
  function RenderCell(s: Scalar, nodes: int, style: Style): (Cell, int) {
    var o := Convert(s, 0, nodes, MAX_CELL_CHARS, style.lossy);
    (style.cell(o.value, o.cut), o.nodes)
  }

  method ShowCell(s: Scalar, meter: Meter, style: Style) returns (cell: Cell)
    modifies meter
    ensures (cell, meter.nodes) == RenderCell(s, old(meter.nodes), style)
  {
    meter.chars := MAX_CELL_CHARS;
    var value, cut := meter.ArrowValue(s, 0, style.lossy);
    cell := style.cell(value, cut);
  }

  type Row = seq<Cell>

  /** Cells or rows rendered so far, and the nodes expanded for them. */
  datatype Rendered<T> = Rendered(done: seq<T>, nodes: int)

  /** A row, cell by cell; each cell has its own character allowance. */
  function RenderRow(row: seq<Scalar>, nodes: int, style: Style): (r: Rendered<Cell>)
    ensures |r.done| == |row|
  {
    if row == [] then Rendered([], nodes)
    else
      var before := RenderRow(row[..|row| - 1], nodes, style);
      var (cell, n) := RenderCell(row[|row| - 1], before.nodes, style);
      Rendered(before.done + [cell], n)
  }

  function Shown(row: seq<Scalar>): seq<Scalar> {
    row[..Min(|row|, MAX_COLUMNS)]
  }

  /** The rows, one after the other, with the node counter running through all of them. */
  function RenderRows(rows: seq<seq<Scalar>>, nodes: int, style: Style): (r: Rendered<Row>)
    ensures |r.done| == |rows|
  {
    if rows == [] then Rendered([], nodes)
    else
      var before := RenderRows(rows[..|rows| - 1], nodes, style);
      var row := RenderRow(Shown(rows[|rows| - 1]), before.nodes, style);
      Rendered(before.done + [row.done], row.nodes)
  }

  function RowChars(row: Row): nat {
    if row == [] then 0 else RowChars(row[..|row| - 1]) + |row[|row| - 1].text|
  }

  function Chars(rows: seq<Row>): nat {
    if rows == [] then 0 else Chars(rows[..|rows| - 1]) + RowChars(rows[|rows| - 1])
  }

  // -------------------------------------------------------------- one batch

  /** One row of `append_bounded_cells`: None when the character limit is passed. */
  method AppendRow(row: seq<Scalar>, characters: nat, meter: Meter, style: Style) returns (r: Option<(Row, nat)>)
    requires characters <= MAX_RENDER_CHARS
    modifies meter
    ensures var o := RenderRow(row, old(meter.nodes), style);
            if characters + RowChars(o.done) > MAX_RENDER_CHARS then r == None
            else r == Some((o.done, characters + RowChars(o.done))) && meter.nodes == o.nodes
  {
    ghost var start := meter.nodes;
    var cells: Row := [];
    var total := characters;
    for i := 0 to |row|
      invariant RenderRow(row[..i], start, style) == Rendered(cells, meter.nodes)
      invariant total == characters + RowChars(cells) <= MAX_RENDER_CHARS
    {
      RowStep(row, i, start, style);
      var cell := ShowCell(row[i], meter, style);
      total := total + |cell.text|;
      RowCharsStep(cells, cell);
      if total > MAX_RENDER_CHARS {
        RowOnlyGrows(row, i + 1, start, style);
        return None;
      }
      cells := cells + [cell];
    }
    assert row[..|row|] == row;
    return Some((cells, total));
  }

  lemma RowCharsStep(row: Row, cell: Cell)
    ensures RowChars(row + [cell]) == RowChars(row) + |cell.text|
  {
    assert (row + [cell])[..|row|] == row;
  }

  lemma RowStep(row: seq<Scalar>, i: nat, nodes: int, style: Style)
    requires i < |row|
    ensures var before := RenderRow(row[..i], nodes, style);
            var c := RenderCell(row[i], before.nodes, style);
            RenderRow(row[..i + 1], nodes, style) == Rendered(before.done + [c.0], c.1)
  {
    assert row[..i + 1][..i] == row[..i];
  }

  lemma {:induction false} RowOnlyGrows(row: seq<Scalar>, i: nat, nodes: int, style: Style)
    requires i <= |row|
    ensures RowChars(RenderRow(row[..i], nodes, style).done) <= RowChars(RenderRow(row, nodes, style).done)
    decreases |row| - i
  {
    if i < |row| {
      RowStep(row, i, nodes, style);
      var before := RenderRow(row[..i], nodes, style);
      RowCharsStep(before.done, RenderCell(row[i], before.nodes, style).0);
      RowOnlyGrows(row, i + 1, nodes, style);
    } else {
      assert row[..i] == row;
    }
  }

  lemma CharsStep(rows: seq<Row>, row: Row)
    ensures Chars(rows + [row]) == Chars(rows) + RowChars(row)
  {
    assert (rows + [row])[..|rows|] == rows;
  }

  lemma RowsStep(rows: seq<seq<Scalar>>, i: nat, nodes: int, style: Style)
    requires i < |rows|
    ensures var before := RenderRows(rows[..i], nodes, style);
            var row := RenderRow(Shown(rows[i]), before.nodes, style);
            RenderRows(rows[..i + 1], nodes, style) == Rendered(before.done + [row.done], row.nodes)
  {
    assert rows[..i + 1][..i] == rows[..i];
  }

  lemma {:induction false} RowsOnlyGrow(rows: seq<seq<Scalar>>, i: nat, nodes: int, style: Style)
    requires i <= |rows|
    ensures Chars(RenderRows(rows[..i], nodes, style).done) <= Chars(RenderRows(rows, nodes, style).done)
    decreases |rows| - i
  {
    if i < |rows| {
      RowsStep(rows, i, nodes, style);
      var before := RenderRows(rows[..i], nodes, style);
      CharsStep(before.done, RenderRow(Shown(rows[i]), before.nodes, style).done);
      RowsOnlyGrow(rows, i + 1, nodes, style);
    } else {
      assert rows[..i] == rows;
    }
  }

  /** The first n rows, as `range(min(num_rows, n))` counts them: none if n is negative. */
  function FirstRows<T>(rows: seq<T>, n: int): (r: seq<T>)
    ensures |r| == if n < 0 then 0 else Min(|rows|, n)
  {
    if n < 0 then [] else rows[..Min(|rows|, n)]
  }

  /** `append_bounded_cells`. */
  method AppendBoundedCells(batch: seq<seq<Scalar>>, remaining: int, meter: Meter, style: Style)
    returns (r: Option<seq<Row>>)
    modifies meter
    ensures var o := RenderRows(FirstRows(batch, remaining), old(meter.nodes), style);
            if Chars(o.done) > MAX_RENDER_CHARS then r == None else r == Some(o.done) && meter.nodes == o.nodes
  {
    ghost var start := meter.nodes;
    var sample := FirstRows(batch, remaining);
    var rows: seq<Row> := [];
    var characters := 0;
    for i := 0 to |sample|
      invariant RenderRows(sample[..i], start, style) == Rendered(rows, meter.nodes)
      invariant characters == Chars(rows) <= MAX_RENDER_CHARS
    {
      RowsStep(sample, i, start, style);
      ghost var row := RenderRow(Shown(sample[i]), meter.nodes, style);
      CharsStep(rows, row.done);
      var appended := AppendRow(Shown(sample[i]), characters, meter, style);
      if appended.None? {
        RowsOnlyGrow(sample, i + 1, start, style);
        return None;
      }
      rows := rows + [appended.value.0];
      characters := appended.value.1;
    }
    assert sample[..|sample|] == sample;
    return Some(rows);
  }

  // ------------------------------------------------------------ all the batches

  type Batch = seq<seq<Scalar>>

  function AllRows(batches: seq<Batch>): Batch {
    if batches == [] then [] else AllRows(batches[..|batches| - 1]) + batches[|batches| - 1]
  }

  function Flatten(groups: seq<seq<Batch>>): seq<Batch> {
    if groups == [] then [] else Flatten(groups[..|groups| - 1]) + groups[|groups| - 1]
  }

  /** The sample: the first rows of all batches together, however the rows are batched. */
  function Sample(batches: seq<Batch>, style: Style): Rendered<Row> {
    RenderRows(FirstRows(AllRows(batches), MAX_ROWS), 0, style)
  }

  datatype DecodeFailure = Unavailable | Budget

  /** What `_decode` returns, given the characters of the headers and notes. */
  function Decoded(batches: seq<Batch>, headers: nat, style: Style): Result<seq<Row>, DecodeFailure> {
    var rows := Sample(batches, style).done;
    if batches != [] && headers + Chars(rows) > MAX_RENDER_CHARS then Err(Budget) else Ok(rows)
  }

  lemma {:induction false} RenderAppend(a: seq<seq<Scalar>>, b: seq<seq<Scalar>>, nodes: int, style: Style)
    ensures var x := RenderRows(a, nodes, style);
            var y := RenderRows(b, x.nodes, style);
            RenderRows(a + b, nodes, style) == Rendered(x.done + y.done, y.nodes)
  {
    if b == [] {
      assert a + b == a;
      assert RenderRows(a, nodes, style).done + [] == RenderRows(a, nodes, style).done;
    } else {
      var init, last := b[..|b| - 1], b[|b| - 1];
      RenderAppend(a, init, nodes, style);
      assert (a + b)[..|a + b| - 1] == a + init;
      var x := RenderRows(a, nodes, style);
      var y := RenderRows(init, x.nodes, style);
      JoinRows(x.done, y.done, [RenderRow(Shown(last), y.nodes, style).done]);
    }
  }

  lemma JoinRows(a: seq<Row>, b: seq<Row>, c: seq<Row>)
    ensures a + b + c == a + (b + c)
  {
  }

  lemma {:induction false} CharsAppend(a: seq<Row>, b: seq<Row>)
    ensures Chars(a + b) == Chars(a) + Chars(b)
  {
    if b == [] {
      assert a + b == a;
    } else {
      CharsAppend(a, b[..|b| - 1]);
      assert (a + b)[..|a + b| - 1] == a + b[..|b| - 1];
    }
  }

  lemma FirstOfSum<T>(a: seq<T>, b: seq<T>, n: nat)
    ensures FirstRows(a + b, n) == FirstRows(a, n) + FirstRows(b, n - |a|)
  {
  }

  lemma AllStep(done: seq<Batch>, batch: Batch)
    ensures AllRows(done + [batch]) == AllRows(done) + batch
  {
    assert (done + [batch])[..|done|] == done;
  }

  /** One batch more: the sample goes on with as many of its rows as are still wanted. */
  lemma SampleStep(done: seq<Batch>, batch: Batch, style: Style)
    ensures var x := Sample(done, style);
            var y := RenderRows(FirstRows(batch, MAX_ROWS - |AllRows(done)|), x.nodes, style);
            Sample(done + [batch], style) == Rendered(x.done + y.done, y.nodes)
  {
    var wanted := FirstRows(batch, MAX_ROWS - |AllRows(done)|);
    AllStep(done, batch);
    FirstOfSum(AllRows(done), batch, MAX_ROWS);
    RenderAppend(FirstRows(AllRows(done), MAX_ROWS), wanted, 0, style);
  }

  lemma {:induction false} AllAppend(a: seq<Batch>, b: seq<Batch>)
    ensures AllRows(a + b) == AllRows(a) + AllRows(b)
  {
    if b == [] {
      assert a + b == a;
    } else {
      AllAppend(a, b[..|b| - 1]);
      assert (a + b)[..|a + b| - 1] == a + b[..|b| - 1];
      JoinScalars(AllRows(a), AllRows(b[..|b| - 1]), b[|b| - 1]);
    }
  }

  lemma JoinScalars(a: Batch, b: Batch, c: Batch)
    ensures a + b + c == a + (b + c)
  {
  }

  /** Later batches only add to the sample, and nothing once it is full. */
  lemma SampleGrows(done: seq<Batch>, rest: seq<Batch>, style: Style)
    ensures Chars(Sample(done, style).done) <= Chars(Sample(done + rest, style).done)
    ensures |AllRows(done)| >= MAX_ROWS ==> Sample(done + rest, style) == Sample(done, style)
  {
    var a, b := AllRows(done), AllRows(rest);
    AllAppend(done, rest);
    FirstOfSum(a, b, MAX_ROWS);
    var all, first := FirstRows(a + b, MAX_ROWS), FirstRows(a, MAX_ROWS);
    assert all[..|first|] == first;
    RowsOnlyGrow(all, |first|, 0, style);
    if |a| >= MAX_ROWS { assert all == first; }
  }

  /** The variables of `_decode` between two batches. */
  datatype Position = Position(rows: seq<Row>, nodes: int, remaining: int, characters: int)

  function Extended(p: Position, o: Rendered<Row>, n: nat): Position {
    Position(p.rows + o.done, o.nodes, p.remaining - n, p.characters + Chars(o.done))
  }

  function Advance(p: Position, batch: Batch, style: Style): Position {
    Extended(p, RenderRows(FirstRows(batch, p.remaining), p.nodes, style), |batch|)
  }

  function At(done: seq<Batch>, headers: nat, style: Style): Position {
    if done == [] then Position([], 0, MAX_ROWS, headers)
    else Advance(At(done[..|done| - 1], headers, style), done[|done| - 1], style)
  }

  lemma AtStep(done: seq<Batch>, batch: Batch, headers: nat, style: Style)
    ensures At(done + [batch], headers, style) == Advance(At(done, headers, style), batch, style)
  {
    assert (done + [batch])[..|done|] == done;
  }

  function PositionOf(x: Rendered<Row>, rows: nat, headers: nat): Position {
    Position(x.done, x.nodes, MAX_ROWS - rows, headers + Chars(x.done))
  }

  lemma AdvancePosition(x: Rendered<Row>, rows: nat, headers: nat, batch: Batch, style: Style)
    ensures var y := RenderRows(FirstRows(batch, MAX_ROWS - rows), x.nodes, style);
            Advance(PositionOf(x, rows, headers), batch, style) ==
              PositionOf(Rendered(x.done + y.done, y.nodes), rows + |batch|, headers)
  {
    ExtendPosition(x, rows, headers, RenderRows(FirstRows(batch, MAX_ROWS - rows), x.nodes, style), |batch|);
  }

  lemma ExtendPosition(x: Rendered<Row>, rows: nat, headers: nat, y: Rendered<Row>, n: nat)
    ensures Extended(PositionOf(x, rows, headers), y, n) ==
      PositionOf(Rendered(x.done + y.done, y.nodes), rows + n, headers)
  {
    CharsAppend(x.done, y.done);
  }

  /** Batch by batch, `_decode` has the sample of all rows so far, also when a batch overshoots. */
  lemma {:induction false} AtMeaning(done: seq<Batch>, headers: nat, style: Style)
    ensures At(done, headers, style) == PositionOf(Sample(done, style), |AllRows(done)|, headers)
  {
    if done == [] {
      AtStart(headers, style);
    } else {
      var init, last := done[..|done| - 1], done[|done| - 1];
      AtMeaning(init, headers, style);
      NextMeaning(init, last, done, headers, style);
    }
  }

  lemma AtStart(headers: nat, style: Style)
    ensures At([], headers, style) == PositionOf(Sample([], style), 0, headers) && |AllRows([])| == 0
  {
    assert FirstRows(AllRows([]), MAX_ROWS) == [];
  }

  lemma NextMeaning(done: seq<Batch>, batch: Batch, next: seq<Batch>, headers: nat, style: Style)
    requires next == done + [batch]
    requires At(done, headers, style) == PositionOf(Sample(done, style), |AllRows(done)|, headers)
    ensures At(next, headers, style) == PositionOf(Sample(next, style), |AllRows(next)|, headers)
  {
    AtStep(done, batch, headers, style);
    AdvancePosition(Sample(done, style), |AllRows(done)|, headers, batch, style);
    SampleStep(done, batch, style);
    AllStep(done, batch);
  }

  /** The innermost body of `_decode`. */
  method DecodeBatch(p: Position, batch: Batch, meter: Meter, style: Style) returns (r: Option<Position>)
    requires p.nodes == meter.nodes && p.characters >= 0
    modifies meter
    ensures var q := Advance(p, batch, style);
            if q.characters > MAX_RENDER_CHARS then r == None else r == Some(q) && meter.nodes == q.nodes
  {
    var sample := AppendBoundedCells(batch, p.remaining, meter, style);
    if sample.None? { return None; }
    var total := CountChars(sample.value);
    if p.characters + total > MAX_RENDER_CHARS { return None; }
    return Some(Position(p.rows + sample.value, meter.nodes, p.remaining - |batch|, p.characters + total));
  }

  method CountChars(rows: seq<Row>) returns (n: nat)
    ensures n == Chars(rows)
  {
    n := 0;
    for i := 0 to |rows|
      invariant n == Chars(rows[..i])
    {
      assert rows[..i + 1] == rows[..i] + [rows[i]];
      CharsStep(rows[..i], rows[i]);
      for j := 0 to |rows[i]|
        invariant n == Chars(rows[..i]) + RowChars(rows[i][..j])
      {
        assert rows[i][..j + 1] == rows[i][..j] + [rows[i][j]];
        RowCharsStep(rows[i][..j], rows[i][j]);
        n := n + |rows[i][j].text|;
      }
      assert rows[i][..|rows[i]|] == rows[i];
    }
    assert rows[..|rows|] == rows;
  }

  lemma OneBatchMore(done: seq<Batch>, batches: seq<Batch>, b: nat, headers: nat, style: Style)
    requires b < |batches|
    ensures At(done + batches[..b + 1], headers, style) ==
      Advance(At(done + batches[..b], headers, style), batches[b], style)
  {
    assert done + batches[..b + 1] == done + batches[..b] + [batches[b]];
    AtStep(done + batches[..b], batches[b], headers, style);
  }

  /** The batches of one row group: all of them, or up to the one that fills the sample or passes the limit. */
  method DecodeGroup(ghost done: seq<Batch>, ghost headers: nat, p: Position, batches: seq<Batch>, meter: Meter,
    style: Style)
    returns (r: Option<Position>, ghost upto: nat)
    requires p == At(done, headers, style) && p.nodes == meter.nodes && p.characters >= 0 && p.remaining != 0
    modifies meter
    ensures upto <= |batches|
    ensures var q := At(done + batches[..upto], headers, style);
            && (r.None? ==> upto > 0 && q.characters > MAX_RENDER_CHARS)
            && (r.Some? ==> r.value == q && meter.nodes == q.nodes && q.characters >= 0)
            && (r.Some? && upto > 0 ==> q.characters <= MAX_RENDER_CHARS)
            && (r.Some? && q.remaining == 0 ==> upto > 0)
    ensures r.Some? && r.value.remaining != 0 ==> upto == |batches|
  {
    var q := p;
    assert done + batches[..0] == done;
    for b := 0 to |batches|
      invariant q == At(done + batches[..b], headers, style) && q.nodes == meter.nodes
      invariant q.characters >= 0 && (b > 0 ==> q.characters <= MAX_RENDER_CHARS) && q.remaining != 0
    {
      OneBatchMore(done, batches, b, headers, style);
      var next := DecodeBatch(q, batches[b], meter, style);
      if next.None? { return None, b + 1; }
      q := next.value;
      if q.remaining == 0 { return next, b + 1; }
    }
    return Some(q), |batches|;
  }

  lemma GroupDone(groups: seq<seq<Batch>>, g: nat)
    requires g < |groups|
    ensures Flatten(groups[..g + 1]) == Flatten(groups[..g]) + groups[g][..|groups[g]|]
    ensures groups[g] == [] ==> Flatten(groups[..g + 1]) == Flatten(groups[..g])
  {
    assert groups[..g + 1][..g] == groups[..g];
    assert groups[g][..|groups[g]|] == groups[g];
  }

  /** Stopping early is right: by then the sample is full, or too large for good. */
  lemma StoppingIsFinal(groups: seq<seq<Batch>>, g: nat, upto: nat, headers: nat, style: Style)
    requires g < |groups| && 1 <= upto <= |groups[g]|
    ensures var p := At(Flatten(groups[..g]) + groups[g][..upto], headers, style);
            && (p.characters > MAX_RENDER_CHARS ==> Decoded(Flatten(groups), headers, style) == Err(Budget))
            && (p.remaining == 0 && p.characters <= MAX_RENDER_CHARS ==>
              Decoded(Flatten(groups), headers, style) == Ok(p.rows))
  {
    var done := Flatten(groups[..g]) + groups[g][..upto];
    var rest := FlattenAt(groups, g, upto);
    AtMeaning(done, headers, style);
    SampleGrows(done, rest, style);
  }

  /**
   The loops of `_decode`: the batches come group by group, in any sizes, and may overshoot.
   Whatever they are, the result is the sample of all rows together.
   */
  method DecodeGroups(groups: seq<seq<Batch>>, headers: nat, style: Style) returns (r: Result<seq<Row>, DecodeFailure>)
    ensures r == Decoded(Flatten(groups), headers, style)
  {
    var meter := new Meter();
    var p := Position([], 0, MAX_ROWS, headers);
    for g := 0 to |groups|
      invariant fresh(meter) && p == At(Flatten(groups[..g]), headers, style) && p.nodes == meter.nodes
      invariant p.characters >= 0 && p.remaining != 0
      invariant Flatten(groups[..g]) == [] || p.characters <= MAX_RENDER_CHARS
    {
      GroupDone(groups, g);
      var next, upto := DecodeGroup(Flatten(groups[..g]), headers, p, groups[g], meter, style);
      if upto > 0 { StoppingIsFinal(groups, g, upto, headers, style); }
      if next.None? { return Err(Budget); }
      p := next.value;
      if p.remaining == 0 { return Ok(p.rows); }
    }
    assert groups[..|groups|] == groups;
    AtMeaning(Flatten(groups), headers, style);
    return Ok(p.rows);
  }

  /** The batches still to come after some of a group. */
  lemma FlattenAt(groups: seq<seq<Batch>>, g: nat, upto: nat) returns (rest: seq<Batch>)
    requires g < |groups| && upto <= |groups[g]|
    ensures Flatten(groups[..g]) + groups[g][..upto] + rest == Flatten(groups)
  {
    var tail := FlattenSplit(groups, g + 1);
    assert groups[..g + 1][..g] == groups[..g];
    rest := groups[g][upto..] + tail;
    FourParts(Flatten(groups[..g]), groups[g][..upto], groups[g][upto..], tail);
    assert groups[g][..upto] + groups[g][upto..] == groups[g];
  }

  lemma FourParts(a: seq<Batch>, b: seq<Batch>, c: seq<Batch>, d: seq<Batch>)
    ensures a + (b + c) + d == a + b + (c + d)
  {
  }

  lemma {:induction false} FlattenSplit(groups: seq<seq<Batch>>, g: nat) returns (rest: seq<Batch>)
    requires g <= |groups|
    ensures Flatten(groups[..g]) + rest == Flatten(groups)
  {
    if g == |groups| {
      assert groups[..g] == groups;
      rest := [];
    } else {
      var n := |groups| - 1;
      var before := FlattenSplit(groups[..n], g);
      assert groups[..n][..g] == groups[..g];
      rest := before + groups[n];
    }
  }

  // --------------------------------------------------------------- the budgets

  lemma {:induction false} RowNodes(row: seq<Scalar>, nodes: int, style: Style)
    requires nodes <= MAX_NODES
    ensures nodes <= RenderRow(row, nodes, style).nodes <= MAX_NODES
  {
    if row != [] {
      RowNodes(row[..|row| - 1], nodes, style);
      ConvertIsHonest(row[|row| - 1], 0, RenderRow(row[..|row| - 1], nodes, style).nodes, MAX_CELL_CHARS, style.lossy);
    }
  }

  lemma {:induction false} RowsNodes(rows: seq<seq<Scalar>>, nodes: int, style: Style)
    requires nodes <= MAX_NODES
    ensures nodes <= RenderRows(rows, nodes, style).nodes <= MAX_NODES
  {
    if rows != [] {
      RowsNodes(rows[..|rows| - 1], nodes, style);
      RowNodes(Shown(rows[|rows| - 1]), RenderRows(rows[..|rows| - 1], nodes, style).nodes, style);
    }
  }

  predicate CellsShort(row: Row) {
    forall j :: 0 <= j < |row| ==> |row[j].text| <= MAX_CELL_CHARS
  }

  predicate RowsFit(rows: seq<Row>, width: nat) {
    forall i :: 0 <= i < |rows| ==> |rows[i]| == width && CellsShort(rows[i])
  }

  lemma {:induction false} RowFits(row: seq<Scalar>, nodes: int, display: Value -> Display, lossy: Bytes -> Text)
    ensures CellsShort(RenderRow(row, nodes, StyleOf(display, lossy)).done)
  {
    if row != [] {
      var style := StyleOf(display, lossy);
      RowFits(row[..|row| - 1], nodes, display, lossy);
      var o := Convert(row[|row| - 1], 0, RenderRow(row[..|row| - 1], nodes, style).nodes, MAX_CELL_CHARS, lossy);
      CellMeaning(o.value, o.cut, display);
    }
  }

  lemma {:induction false} RenderedFit(rows: seq<seq<Scalar>>, nodes: int, width: nat, display: Value -> Display,
    lossy: Bytes -> Text)
    requires width <= MAX_COLUMNS && forall i :: 0 <= i < |rows| ==> |rows[i]| == width
    ensures RowsFit(RenderRows(rows, nodes, StyleOf(display, lossy)).done, width)
  {
    if rows != [] {
      var before := RenderRows(rows[..|rows| - 1], nodes, StyleOf(display, lossy));
      RenderedFit(rows[..|rows| - 1], nodes, width, display, lossy);
      RowFits(Shown(rows[|rows| - 1]), before.nodes, display, lossy);
    }
  }

  /**
   The budgets of a decoded sample: rows, characters, nodes over the whole preview,
   and the length of every cell.
   */
  lemma SampleBudgets(batches: seq<Batch>, headers: nat, width: nat, display: Value -> Display, lossy: Bytes -> Text)
    requires width <= MAX_COLUMNS && headers <= MAX_RENDER_CHARS
    requires forall i :: 0 <= i < |AllRows(batches)| ==> |AllRows(batches)[i]| == width
    requires Decoded(batches, headers, StyleOf(display, lossy)).Ok?
    ensures var rows := Decoded(batches, headers, StyleOf(display, lossy)).value;
            && |rows| == Min(|AllRows(batches)|, MAX_ROWS) && headers + Chars(rows) <= MAX_RENDER_CHARS
            && RowsFit(rows, width) && Sample(batches, StyleOf(display, lossy)).nodes <= MAX_NODES
  {
    var style := StyleOf(display, lossy);
    RowsNodes(FirstRows(AllRows(batches), MAX_ROWS), 0, style);
    RenderedFit(FirstRows(AllRows(batches), MAX_ROWS), 0, width, display, lossy);
  }
}
