/** What a plan asks for, and when there is one, told from the metadata and the schema alone. */
module ParquetPlanned {
  import opened Wrappers
  import opened Utf8
  import opened PreviewLimits
  import opened ParquetPlan
  import PreviewText
  import A = ParquetAdmission

  // ----------------------------------------------------------------- columns

  /** The column begins with its dictionary page, where it has one, and else with its data. */
  predicate BeginsAt(c: Column, offset: int) {
    && offset <= c.dataPage && (c.dictionaryPage.Some? ==> offset <= c.dictionaryPage.value)
    && (offset == c.dataPage || c.dictionaryPage == Some(offset))
  }

  predicate PagesFit(c: Column, footer: int) {
    4 <= c.dataPage < footer && (c.dictionaryPage.Some? ==> 4 <= c.dictionaryPage.value <= c.dataPage)
  }

  /** All of the chunk is before the footer. */
  predicate EndsInTime(c: Column, footer: int) {
    if c.dictionaryPage.Some? then c.dictionaryPage.value + c.compressed <= footer
    else c.dataPage + c.compressed <= footer
  }

  predicate OffsetFits(c: Column, footer: int) {
    c.fileOffset == 0 || 4 <= c.fileOffset < footer
  }

  predicate Usable(c: Column, footer: int, available: Text -> bool) {
    && available(c.codec) && PagesFit(c, footer) && 1 <= c.compressed <= MAX_BYTES && EndsInTime(c, footer)
    && OffsetFits(c, footer) && 0 <= c.uncompressed <= MAXSIZE
  }

  /** A column is refused for its codec, for pages outside the file, or else for its size. */
  lemma RefusedColumn(c: Column, footer: int, available: Text -> bool)
    ensures ColumnError(c, footer, available).None? <==> Usable(c, footer, available)
    ensures ColumnError(c, footer, available) == Some(Codec(PreviewText.Shown(c.codec, 40))) <==> !available(c.codec)
    ensures ColumnError(c, footer, available) == Some(Footer) <==>
      available(c.codec)
      && (!PagesFit(c, footer)
          || (1 <= c.compressed <= MAX_BYTES && !(EndsInTime(c, footer) && OffsetFits(c, footer))))
    ensures ColumnError(c, footer, available) in {None, Some(Codec(PreviewText.Shown(c.codec, 40))), Some(Footer),
        Some(Budget)}
  {
  }

  lemma UsableChunk(c: Column, footer: int, available: Text -> bool)
    requires Usable(c, footer, available)
    ensures BeginsAt(c, ChunkOf(c).offset) && ChunkOf(c).length == c.compressed
  {
  }

  ghost predicate AllUsable(group: RowGroup, indices: seq<nat>, k: nat, footer: int, available: Text -> bool)
    requires k <= |indices| && Below(indices, |group.columns|)
  {
    forall i :: 0 <= i < k ==> Usable(group.columns[indices[i]], footer, available)
  }

  /** The uncompressed bytes of the first k selected columns of a group. */
  function GroupBytes(group: RowGroup, indices: seq<nat>, k: nat): int
    requires k <= |indices| && Below(indices, |group.columns|)
  {
    if k == 0 then 0 else GroupBytes(group, indices, k - 1) + group.columns[indices[k - 1]].uncompressed
  }

  lemma AllUsableNext(group: RowGroup, indices: seq<nat>, k: nat, footer: int, available: Text -> bool)
    requires k < |indices| && Below(indices, |group.columns|)
    ensures AllUsable(group, indices, k + 1, footer, available) <==>
      AllUsable(group, indices, k, footer, available) && Usable(group.columns[indices[k]], footer, available)
  {
  }

  lemma ColumnsNext(a: Gathered, group: RowGroup, indices: seq<nat>, k: nat, footer: int, available: Text -> bool)
    requires k < |indices| && Below(indices, |group.columns|)
    ensures var r, s, c := AddColumns(a, group, indices, k, footer, available),
              AddColumns(a, group, indices, k + 1, footer, available), group.columns[indices[k]];
            && (s.Ok? <==> r.Ok? && Usable(c, footer, available))
            && (s.Ok? ==> s.value.groups == r.value.groups && s.value.rows == r.value.rows)
            && (s.Ok? ==> s.value.uncompressed == r.value.uncompressed + c.uncompressed)
  {
    RefusedColumn(group.columns[indices[k]], footer, available);
  }

  lemma {:induction false} ColumnsExactly(a: Gathered, group: RowGroup, indices: seq<nat>, k: nat, footer: int,
    available: Text -> bool)
    requires k <= |indices| && Below(indices, |group.columns|)
    ensures var r := AddColumns(a, group, indices, k, footer, available);
            && (r.Ok? <==> AllUsable(group, indices, k, footer, available))
            && (r.Ok? ==> r.value.groups == a.groups && r.value.rows == a.rows)
            && (r.Ok? ==> r.value.uncompressed == a.uncompressed + GroupBytes(group, indices, k))
  {
    if k > 0 {
      ColumnsExactly(a, group, indices, k - 1, footer, available);
      AllUsableNext(group, indices, k - 1, footer, available);
      ColumnsNext(a, group, indices, k - 1, footer, available);
    }
  }

  /** Among the first k selected columns the i-th is the first that is refused, and that is why. */
  ghost predicate FirstBad(group: RowGroup, indices: seq<nat>, i: nat, k: nat, footer: int, available: Text -> bool,
    error: Failure)
    requires k <= |indices| && Below(indices, |group.columns|)
  {
    && i < k && AllUsable(group, indices, i, footer, available)
    && ColumnError(group.columns[indices[i]], footer, available) == Some(error)
  }

  lemma {:induction false} ColumnsRefused(a: Gathered, group: RowGroup, indices: seq<nat>, k: nat, footer: int,
    available: Text -> bool) returns (i: nat)
    requires k <= |indices| && Below(indices, |group.columns|)
    requires AddColumns(a, group, indices, k, footer, available).Err?
    ensures FirstBad(group, indices, i, k, footer, available,
        AddColumns(a, group, indices, k, footer, available).error)
  {
    if AddColumns(a, group, indices, k - 1, footer, available).Err? {
      i := ColumnsRefused(a, group, indices, k - 1, footer, available);
    } else {
      i := k - 1;
      ColumnsExactly(a, group, indices, k - 1, footer, available);
    }
  }

  // -------------------------------------------------------------- row groups

  /** No group before the g-th completes the sample. */
  ghost predicate Examined(m: Metadata, g: nat)
    requires g <= |m.groups|
  {
    forall h :: 0 <= h <= g ==> RowsBefore(m, h) < MAX_ROWS
  }

  /** The groups with rows, up to the one that completes the sample. */
  ghost function Sought(m: Metadata, n: nat): seq<nat>
    requires n <= |m.groups|
  {
    if n == 0 then []
    else Sought(m, n - 1) + (if Examined(m, n - 1) && m.groups[n - 1].rows != 0 then [n - 1] else [])
  }

  ghost predicate GroupFits(m: Metadata, g: nat, indices: seq<nat>, footer: int, available: Text -> bool)
    requires g < |m.groups| && Rectangular(m) && Below(indices, m.numColumns)
  {
    && 0 <= m.groups[g].rows <= MAXSIZE
    && (m.groups[g].rows != 0 ==> AllUsable(m.groups[g], indices, |indices|, footer, available))
  }

  /** Every group that is looked at can be used. */
  ghost predicate GroupsFit(m: Metadata, n: nat, indices: seq<nat>, footer: int, available: Text -> bool)
    requires n <= |m.groups| && Rectangular(m) && Below(indices, m.numColumns)
  {
    forall g :: 0 <= g < n && Examined(m, g) ==> GroupFits(m, g, indices, footer, available)
  }

  function BytesOf(m: Metadata, groups: seq<nat>, indices: seq<nat>): int
    requires Rectangular(m) && Below(groups, |m.groups|) && Below(indices, m.numColumns)
  {
    if groups == [] then 0
    else
      var last := |groups| - 1;
      BytesOf(m, groups[..last], indices) + GroupBytes(m.groups[groups[last]], indices, |indices|)
  }

  lemma {:induction false} SoughtBelow(m: Metadata, n: nat)
    requires n <= |m.groups|
    ensures Below(Sought(m, n), n)
  {
    if n > 0 { SoughtBelow(m, n - 1); }
  }

  lemma SoughtNext(s: seq<nat>, g: nat)
    requires Increasing(s) && Below(s, g)
    ensures Increasing(s + [g]) && forall x: nat :: x in s + [g] <==> x in s || x == g
  {
  }

  /** The groups sought are exactly those looked at that have rows, in order. */
  lemma {:induction false} SoughtMeaning(m: Metadata, n: nat)
    requires n <= |m.groups|
    ensures Increasing(Sought(m, n))
    ensures forall g: nat :: g in Sought(m, n) <==> g < n && Examined(m, g) && m.groups[g].rows != 0
  {
    if n > 0 {
      SoughtMeaning(m, n - 1);
      SoughtBelow(m, n - 1);
      SoughtNext(Sought(m, n - 1), n - 1);
    }
  }

  /** What has been gathered from the first n groups. */
  ghost predicate Exactly(m: Metadata, n: nat, indices: seq<nat>, a: Gathered)
    requires n <= |m.groups| && Rectangular(m) && Below(indices, m.numColumns)
  {
    && a.groups == Sought(m, n) && Below(a.groups, |m.groups|)
    && a.uncompressed == BytesOf(m, a.groups, indices)
    && (if Examined(m, n) then a.rows == RowsBefore(m, n) else a.rows >= MAX_ROWS)
  }

  lemma {:induction false} GatherExactly(m: Metadata, n: nat, indices: seq<nat>, footer: int, available: Text -> bool)
    requires n <= |m.groups| && Rectangular(m) && Below(indices, m.numColumns)
    ensures var r := Gather(m, n, indices, footer, available);
            && (r.Ok? <==> GroupsFit(m, n, indices, footer, available))
            && (r.Ok? ==> Exactly(m, n, indices, r.value))
  {
    if n > 0 {
      GatherExactly(m, n - 1, indices, footer, available);
      GroupsFitNext(m, n - 1, indices, footer, available);
      if Gather(m, n - 1, indices, footer, available).Ok? {
        GroupExactly(Gather(m, n - 1, indices, footer, available).value, m, n - 1, indices, footer, available);
      }
    } else {
      assert RowsBefore(m, 0) == 0;
    }
  }

  lemma GroupsFitNext(m: Metadata, g: nat, indices: seq<nat>, footer: int, available: Text -> bool)
    requires g < |m.groups| && Rectangular(m) && Below(indices, m.numColumns)
    ensures GroupsFit(m, g + 1, indices, footer, available) <==>
      GroupsFit(m, g, indices, footer, available) && (Examined(m, g) ==> GroupFits(m, g, indices, footer, available))
  {
  }

  lemma ExaminedNext(m: Metadata, g: nat)
    requires g < |m.groups|
    ensures Examined(m, g + 1) <==> Examined(m, g) && RowsBefore(m, g) + m.groups[g].rows < MAX_ROWS
  {
    assert RowsBefore(m, g + 1) == RowsBefore(m, g) + m.groups[g].rows;
  }

  lemma BytesNext(m: Metadata, groups: seq<nat>, g: nat, indices: seq<nat>)
    requires g < |m.groups| && Rectangular(m) && Below(groups, |m.groups|) && Below(indices, m.numColumns)
    ensures BytesOf(m, groups + [g], indices) ==
      BytesOf(m, groups, indices) + GroupBytes(m.groups[g], indices, |indices|)
  {
    assert (groups + [g])[..|groups|] == groups;
  }

  lemma GroupExactly(a: Gathered, m: Metadata, g: nat, indices: seq<nat>, footer: int, available: Text -> bool)
    requires g < |m.groups| && Rectangular(m) && Below(indices, m.numColumns) && Exactly(m, g, indices, a)
    ensures var r := AddGroup(a, m, g, indices, footer, available);
            && (r.Ok? <==> (Examined(m, g) ==> GroupFits(m, g, indices, footer, available)))
            && (r.Ok? ==> Exactly(m, g + 1, indices, r.value))
  {
    var group := m.groups[g];
    ExaminedNext(m, g);
    if a.rows < MAX_ROWS && group.rows != 0 {
      TakenExactly(a, m, g, indices, footer, available);
    }
  }

  lemma TakenExactly(a: Gathered, m: Metadata, g: nat, indices: seq<nat>, footer: int, available: Text -> bool)
    requires g < |m.groups| && Rectangular(m) && Below(indices, m.numColumns) && Exactly(m, g, indices, a)
    requires Examined(m, g) && m.groups[g].rows != 0
    ensures var b := a.(groups := a.groups + [g], rows := a.rows + m.groups[g].rows);
            var r := AddColumns(b, m.groups[g], indices, |indices|, footer, available);
            && (r.Ok? <==> AllUsable(m.groups[g], indices, |indices|, footer, available))
            && (r.Ok? ==> Exactly(m, g + 1, indices, r.value))
  {
    var b := a.(groups := a.groups + [g], rows := a.rows + m.groups[g].rows);
    ColumnsExactly(b, m.groups[g], indices, |indices|, footer, available);
    BytesNext(m, a.groups, g, indices);
    ExaminedNext(m, g);
  }

  /** A refusal names the first group looked at, and the first column in it, that cannot be used. */
  ghost predicate FirstRefused(m: Metadata, g: nat, indices: seq<nat>, footer: int, available: Text -> bool,
    error: Failure)
    requires g < |m.groups| && Rectangular(m) && Below(indices, m.numColumns)
  {
    var bad := !(0 <= m.groups[g].rows <= MAXSIZE);
    && Examined(m, g) && GroupsFit(m, g, indices, footer, available)
    && (bad ==> error == Budget)
    && (bad || exists i: nat :: FirstBad(m.groups[g], indices, i, |indices|, footer, available, error))
  }

  lemma {:induction false} GatherError(m: Metadata, n: nat, indices: seq<nat>, footer: int, available: Text -> bool)
    returns (g: nat)
    requires n <= |m.groups| && Rectangular(m) && Below(indices, m.numColumns)
    requires Gather(m, n, indices, footer, available).Err?
    ensures g < n && FirstRefused(m, g, indices, footer, available, Gather(m, n, indices, footer, available).error)
  {
    var r := Gather(m, n - 1, indices, footer, available);
    if r.Err? {
      g := GatherError(m, n - 1, indices, footer, available);
    } else {
      g := n - 1;
      GatherExactly(m, n - 1, indices, footer, available);
      GroupError(r.value, m, n - 1, indices, footer, available);
    }
  }

  lemma GroupError(a: Gathered, m: Metadata, g: nat, indices: seq<nat>, footer: int, available: Text -> bool)
    requires g < |m.groups| && Rectangular(m) && Below(indices, m.numColumns) && Exactly(m, g, indices, a)
    requires GroupsFit(m, g, indices, footer, available) && AddGroup(a, m, g, indices, footer, available).Err?
    ensures FirstRefused(m, g, indices, footer, available, AddGroup(a, m, g, indices, footer, available).error)
  {
    var b := a.(groups := a.groups + [g], rows := a.rows + m.groups[g].rows);
    if 0 <= m.groups[g].rows <= MAXSIZE {
      var i := ColumnsRefused(b, m.groups[g], indices, |indices|, footer, available);
    }
  }

  // ------------------------------------------------------------------ fields

  /** The columns of those fields before the f-th that are taken. */
  function WidthBelow(schema: seq<Field>, taken: seq<nat>, f: nat): nat
    requires f <= |schema|
  {
    if f == 0 then 0
    else WidthBelow(schema, taken, f - 1) + if f - 1 in taken then Width(schema[f - 1].type_) else 0
  }

  /** Each field is taken exactly if there is room for all of its columns after those taken before. */
  ghost predicate TakenInTurn(schema: seq<Field>, taken: seq<nat>, n: nat)
    requires n <= |schema|
  {
    forall f: nat :: f < n ==> InTurn(schema, taken, f)
  }

  predicate InTurn(schema: seq<Field>, taken: seq<nat>, f: nat)
    requires f < |schema|
  {
    f in taken <==> WidthBelow(schema, taken, f) + Width(schema[f].type_) <= MAX_COLUMNS
  }

  ghost predicate Shallow(schema: seq<Field>, n: nat)
    requires n <= |schema|
  {
    forall f :: 0 <= f < n ==> Height(schema[f].type_) <= MAX_NESTING
  }

  lemma {:induction false} WidthBelowKept(schema: seq<Field>, taken: seq<nat>, g: nat, f: nat)
    requires f <= g < |schema|
    ensures WidthBelow(schema, taken + [g], f) == WidthBelow(schema, taken, f)
  {
    if f > 0 { WidthBelowKept(schema, taken, g, f - 1); }
  }

  /** The columns selected from the first n fields are as many as those of the fields taken in turn. */
  ghost predicate Selected(schema: seq<Field>, n: nat, s: Selection)
    requires n <= |schema|
  {
    TakenInTurn(schema, s.taken, n) && |s.indices| == WidthBelow(schema, s.taken, n) && Below(s.taken, n)
  }

  lemma {:induction false} SelectExactly(schema: seq<Field>, n: nat)
    requires n <= |schema|
    ensures Select(schema, n).Some? <==> Shallow(schema, n)
    ensures Select(schema, n).Some? ==> Selected(schema, n, Select(schema, n).value)
  {
    if n > 0 {
      SelectExactly(schema, n - 1);
      LeavesExactly(schema[n - 1].type_, 0);
      assert Shallow(schema, n) <==> Shallow(schema, n - 1) && Height(schema[n - 1].type_) <= MAX_NESTING;
      if Select(schema, n).Some? {
        TakeExactly(schema, n - 1, Select(schema, n - 1).value);
      }
    }
  }

  lemma TakeExactly(schema: seq<Field>, f: nat, s: Selection)
    requires f < |schema| && Selected(schema, f, s)
    ensures Selected(schema, f + 1, Take(s, f, Width(schema[f].type_)))
  {
    var w := Width(schema[f].type_);
    var t := Take(s, f, w);
    if |s.indices| + w <= MAX_COLUMNS {
      TakenNow(schema, s.taken, f);
    } else {
      PassedOver(schema, s.taken, f);
    }
  }

  lemma PassedOver(schema: seq<Field>, taken: seq<nat>, f: nat)
    requires f < |schema| && TakenInTurn(schema, taken, f) && Below(taken, f)
    requires WidthBelow(schema, taken, f) + Width(schema[f].type_) > MAX_COLUMNS
    ensures TakenInTurn(schema, taken, f + 1) && WidthBelow(schema, taken, f + 1) == WidthBelow(schema, taken, f)
  {
    assert InTurn(schema, taken, f);
  }

  lemma TakenNow(schema: seq<Field>, taken: seq<nat>, f: nat)
    requires f < |schema| && TakenInTurn(schema, taken, f) && Below(taken, f)
    requires WidthBelow(schema, taken, f) + Width(schema[f].type_) <= MAX_COLUMNS
    ensures TakenInTurn(schema, taken + [f], f + 1)
    ensures WidthBelow(schema, taken + [f], f + 1) == WidthBelow(schema, taken, f) + Width(schema[f].type_)
  {
    var more := taken + [f];
    assert more[|taken|] == f;
    WidthBelowKept(schema, taken, f, f);
    forall e: nat | e < f + 1 ensures InTurn(schema, more, e) {
      WidthBelowKept(schema, taken, f, e);
      if e < f { assert InTurn(schema, taken, e); }
    }
  }

  // -------------------------------------------------------------------- plans

  /** The file is not too large to look at, is all there, and has the columns its schema says. */
  ghost predicate Readable(m: Metadata, schema: seq<Field>) {
    && m.numColumns * |m.groups| <= MAX_NODES && m.numColumns <= MAX_NODES && |schema| <= MAX_NODES
    && (forall g, i :: 0 <= g < |m.groups| && 0 <= i < |m.groups[g].columns| ==> !m.groups[g].columns[i].external)
    && Shallow(schema, |schema|) && Offset(schema, |schema|) == m.numColumns
  }

  lemma OpeningExactly(m: Metadata, schema: seq<Field>)
    ensures Opening(m, schema).Ok? <==> Readable(m, schema)
    ensures Opening(m, schema).Ok? ==> Select(schema, |schema|) == Some(Opening(m, schema).value)
    ensures Opening(m, schema) == Err(Budget) <==>
      TooLarge(m, schema) || (!External(m) && !Shallow(schema, |schema|))
    ensures Opening(m, schema).Err? ==> Opening(m, schema).error in {Budget, Footer}
  {
    SelectExactly(schema, |schema|);
    if Select(schema, |schema|).Some? { SelectMeaning(schema, |schema|); }
  }

  /** The physical columns of the fields taken, which `SelectMeaning` and `TakenInTurn` tell. */
  function Columns(m: Metadata, schema: seq<Field>): (r: seq<nat>)
    requires Opening(m, schema).Ok?
    ensures Below(r, m.numColumns)
  {
    SelectMeaning(schema, |schema|);
    Opening(m, schema).value.indices
  }

  /** There is a plan exactly for a readable file whose groups can be used as far as they are looked at. */
  lemma PlannedExactly(m: Metadata, schema: seq<Field>, footer: int, available: Text -> bool)
    requires Rectangular(m)
    ensures Readable(m, schema) ==> Opening(m, schema).Ok?
    ensures MakePlan(m, schema, footer, available).Ok? <==>
      Readable(m, schema) && GroupsFit(m, |m.groups|, Columns(m, schema), footer, available)
  {
    OpeningExactly(m, schema);
    if Opening(m, schema).Ok? { GatherExactly(m, |m.groups|, Columns(m, schema), footer, available); }
  }

  /** Any other file is refused at its opening or for the first group and column that cannot be used. */
  lemma PlanError(m: Metadata, schema: seq<Field>, footer: int, available: Text -> bool)
    requires Rectangular(m) && MakePlan(m, schema, footer, available).Err?
    ensures var e := MakePlan(m, schema, footer, available).error;
            if Opening(m, schema).Err? then Opening(m, schema) == Err(e)
            else (exists g :: 0 <= g < |m.groups| && FirstRefused(m, g, Columns(m, schema), footer, available, e))
  {
    if Opening(m, schema).Ok? {
      var g := GatherError(m, |m.groups|, Columns(m, schema), footer, available);
    }
  }

  /** The plan shows exactly the fields taken. */
  ghost predicate Shows(p: Plan, schema: seq<Field>, taken: seq<nat>) {
    && |p.names| == |taken| && |p.columns| == |taken| && Below(taken, |schema|)
    && (forall i :: 0 <= i < |taken| ==> p.names[i] == schema[taken[i]].name)
    && (forall i :: 0 <= i < |taken| ==>
      p.columns[i] == (PreviewText.Shown(schema[taken[i]].name, MAX_CELL_CHARS),
          PreviewText.Shown(schema[taken[i]].typeName, MAX_CELL_CHARS)))
  }

  /**
   A plan shows the fields taken in turn, and asks for the groups sought; or for none
   at all, exactly if the chunks of those groups are too large uncompressed.
   */
  lemma PlanMeaning(m: Metadata, schema: seq<Field>, footer: int, available: Text -> bool)
    requires Rectangular(m) && MakePlan(m, schema, footer, available).Ok?
    ensures var p, groups := MakePlan(m, schema, footer, available).value, Sought(m, |m.groups|);
            && Below(groups, |m.groups|) && Opening(m, schema).Ok? && p.physical == Columns(m, schema)
            && Shows(p, schema, Opening(m, schema).value.taken)
            && TakenInTurn(schema, Opening(m, schema).value.taken, |schema|)
            && (p.overBudget <==> BytesOf(m, groups, p.physical) > MAX_UNCOMPRESSED_BYTES)
            && (if p.overBudget then p.groups == [] && p.chunks == [] && p.uncompressed == 0
                else p.groups == groups && p.uncompressed == BytesOf(m, groups, p.physical))
  {
    SelectExactly(schema, |schema|);
    GatherExactly(m, |m.groups|, Columns(m, schema), footer, available);
  }

  lemma {:induction false} ChunksOfAt(m: Metadata, groups: seq<nat>, indices: seq<nat>, k: nat, i: nat)
    requires Rectangular(m) && Below(groups, |m.groups|) && Below(indices, m.numColumns)
    requires k < |groups| && i < |indices|
    ensures k * |indices| + i < |groups| * |indices|
    ensures ChunksOf(m, groups, indices)[k * |indices| + i] == ChunkOf(m.groups[groups[k]].columns[indices[i]])
  {
    var init, w := groups[..|groups| - 1], |indices|;
    var last := GroupChunks(m.groups[groups[|groups| - 1]], indices, w);
    assert |groups| * w == |init| * w + w;
    assert ChunksOf(m, groups, indices) == ChunksOf(m, init, indices) + last;
    if k < |init| {
      ChunksOfAt(m, init, indices, k, i);
    } else {
      assert ChunksOf(m, groups, indices)[k * w + i] == last[i];
    }
  }

  lemma SoughtUsable(m: Metadata, indices: seq<nat>, footer: int, available: Text -> bool, k: nat, i: nat)
    requires Rectangular(m) && Below(indices, m.numColumns) && i < |indices| && k < |Sought(m, |m.groups|)|
    requires GroupsFit(m, |m.groups|, indices, footer, available)
    ensures var g := Sought(m, |m.groups|)[k];
            g < |m.groups| && Usable(m.groups[g].columns[indices[i]], footer, available)
  {
    SoughtMeaning(m, |m.groups|);
    var g := Sought(m, |m.groups|)[k];
    assert g in Sought(m, |m.groups|);
    assert GroupFits(m, g, indices, footer, available);
  }

  /** Chunk by chunk: the i-th of the k-th group is the whole of its i-th selected column, from its first page on. */
  lemma ChunkMeaning(m: Metadata, schema: seq<Field>, footer: int, available: Text -> bool, k: nat, i: nat)
    requires Rectangular(m) && MakePlan(m, schema, footer, available).Ok?
    requires var p := MakePlan(m, schema, footer, available).value; k < |p.groups| && i < |p.physical|
    ensures var p := MakePlan(m, schema, footer, available).value;
            && p.groups[k] < |m.groups| && p.physical[i] < m.numColumns
            && k * |p.physical| + i < |p.chunks| == |p.groups| * |p.physical|
    ensures var p := MakePlan(m, schema, footer, available).value;
            var c, r := m.groups[p.groups[k]].columns[p.physical[i]], p.chunks[k * |p.physical| + i];
            BeginsAt(c, r.offset) && r.length == c.compressed && Usable(c, footer, available)
  {
    var p, indices := MakePlan(m, schema, footer, available).value, Columns(m, schema);
    PlanMeaning(m, schema, footer, available);
    GatherMeaning(m, |m.groups|, indices, footer, available);
    GatherExactly(m, |m.groups|, indices, footer, available);
    ChunksOfAt(m, p.groups, indices, k, i);
    SoughtUsable(m, indices, footer, available, k, i);
    UsableChunk(m.groups[p.groups[k]].columns[indices[i]], footer, available);
  }

  // ----------------------------------------------------------------- requests

  /** How many requests a chunk takes: each of the range limit, and one for what is left. */
  function Requests(length: nat): nat {
    (length + MAX_RANGE_BYTES - 1) / MAX_RANGE_BYTES
  }

  /** The i-th request of a chunk. */
  function Request(r: Range, i: nat): Range {
    var done := i * MAX_RANGE_BYTES;
    Range(r.offset + done, if r.length - done < MAX_RANGE_BYTES then r.length - done else MAX_RANGE_BYTES)
  }

  lemma RequestNext(r: Range, i: nat)
    requires r.length > MAX_RANGE_BYTES
    ensures Request(Range(r.offset + MAX_RANGE_BYTES, r.length - MAX_RANGE_BYTES), i) == Request(r, i + 1)
    ensures Requests(r.length) == Requests(r.length - MAX_RANGE_BYTES) + 1
  {
  }

  /** A chunk is asked for from its first byte on, in as few requests as the range limit allows. */
  lemma {:induction false} SplitExactly(r: Range)
    requires r.length >= 0
    ensures |A.Split(r)| == Requests(r.length)
    ensures forall i :: 0 <= i < |A.Split(r)| ==> A.Split(r)[i] == Request(r, i)
    decreases r.length
  {
    if r.length > MAX_RANGE_BYTES {
      var rest := Range(r.offset + MAX_RANGE_BYTES, r.length - MAX_RANGE_BYTES);
      SplitExactly(rest);
      RequestNext(r, 0);
      forall i | 0 <= i < |A.Split(r)| ensures A.Split(r)[i] == Request(r, i) {
        if i > 0 { RequestNext(r, i - 1); }
      }
    }
  }

  /** And the requests of all chunks follow each other in the order of the chunks. */
  lemma {:induction false} RequestsInOrder(chunks: seq<Range>, k: nat, i: nat)
    requires k < |chunks| && forall j :: 0 <= j < |chunks| ==> chunks[j].length >= 0
    requires i < Requests(chunks[k].length)
    ensures var before := |A.SplitAll(chunks[..k])|;
            before + i < |A.SplitAll(chunks)| && A.SplitAll(chunks)[before + i] == Request(chunks[k], i)
  {
    var n := |chunks| - 1;
    if k == n {
      SplitExactly(chunks[k]);
    } else {
      RequestsInOrder(chunks[..n], k, i);
      assert chunks[..n][..k] == chunks[..k];
    }
  }
}
