/** `_leaves` and `_plan`: which byte ranges of a Parquet file the child asks for. */
module ParquetPlan {
  import opened Wrappers
  import opened Utf8
  import opened PreviewLimits
  import PreviewText

  const MAXSIZE: int := 0x7fff_ffff_ffff_ffff

  datatype Failure = Budget | Footer | Unavailable | Codec(name: Text)

  // -------------------------------------------------------------- Arrow schema

  datatype ArrowType =
    | Leaf
    | List(value: ArrowType)
    | Struct(fields: seq<ArrowType>)
    | Map(key: ArrowType, item: ArrowType)

  datatype Field = Field(name: Text, typeName: Text, type_: ArrowType)

  /** `_leaves`; None when the nesting limit is passed. */
  function Leaves(t: ArrowType, depth: nat): Option<nat>
    decreases t
  {
    if depth > MAX_NESTING then None
    else match t
      case Leaf => Some(1)
      case List(v) => Leaves(v, depth + 1)
      case Map(k, v) => Plus(Leaves(k, depth + 1), Leaves(v, depth + 1))
      case Struct(fields) => SumLeaves(fields, depth + 1)
  }

  function SumLeaves(fields: seq<ArrowType>, depth: nat): Option<nat>
    decreases fields
  {
    if fields == [] then Some(0) else Plus(Leaves(fields[0], depth), SumLeaves(fields[1..], depth))
  }

  function Plus(a: Option<nat>, b: Option<nat>): Option<nat> {
    if a.Some? && b.Some? then Some(a.value + b.value) else None
  }

  /** How many physical columns a type takes. */
  function Width(t: ArrowType): nat
    decreases t
  {
    match t
    case Leaf => 1
    case List(v) => Width(v)
    case Map(k, v) => Width(k) + Width(v)
    case Struct(fields) => SumWidth(fields)
  }

  function SumWidth(fields: seq<ArrowType>): nat
    decreases fields
  {
    if fields == [] then 0 else Width(fields[0]) + SumWidth(fields[1..])
  }

  /** How deep a type nests. */
  function Height(t: ArrowType): nat
    decreases t
  {
    match t
    case Leaf => 0
    case List(v) => 1 + Height(v)
    case Map(k, v) => 1 + Max(Height(k), Height(v))
    case Struct(fields) => if fields == [] then 0 else 1 + MaxHeight(fields)
  }

  function MaxHeight(fields: seq<ArrowType>): nat
    requires fields != []
    decreases fields
  {
    if |fields| == 1 then Height(fields[0]) else Max(Height(fields[0]), MaxHeight(fields[1..]))
  }

  function Max(a: nat, b: nat): nat {
    if a < b then b else a
  }

  /** Counting succeeds exactly for types that stay within the nesting limit. */
  lemma {:induction false} LeavesExactly(t: ArrowType, depth: nat)
    ensures Leaves(t, depth) == if depth + Height(t) <= MAX_NESTING then Some(Width(t)) else None
    decreases t
  {
    if depth <= MAX_NESTING {
      match t
      case Leaf =>
      case List(v) => LeavesExactly(v, depth + 1);
      case Map(k, v) =>
        LeavesExactly(k, depth + 1);
        LeavesExactly(v, depth + 1);
        MapLeaves(k, v, depth);
      case Struct(fields) =>
        if fields != [] { SumLeavesExactly(fields, depth + 1); }
        StructLeaves(fields, depth);
    }
  }

  predicate Exact(leaves: Option<nat>, height: int, width: nat) {
    leaves == if height <= MAX_NESTING then Some(width) else None
  }

  lemma MapLeaves(k: ArrowType, v: ArrowType, depth: nat)
    requires depth <= MAX_NESTING
    requires Exact(Leaves(k, depth + 1), depth + 1 + Height(k), Width(k))
    requires Exact(Leaves(v, depth + 1), depth + 1 + Height(v), Width(v))
    ensures Exact(Leaves(Map(k, v), depth), depth + Height(Map(k, v)), Width(Map(k, v)))
  {
  }

  lemma StructLeaves(fields: seq<ArrowType>, depth: nat)
    requires depth <= MAX_NESTING
    requires fields != [] ==> Exact(SumLeaves(fields, depth + 1), depth + 1 + MaxHeight(fields), SumWidth(fields))
    ensures Exact(Leaves(Struct(fields), depth), depth + Height(Struct(fields)), Width(Struct(fields)))
  {
  }

  lemma {:induction false} SumLeavesExactly(fields: seq<ArrowType>, depth: nat)
    requires fields != []
    ensures SumLeaves(fields, depth) ==
      if depth + MaxHeight(fields) <= MAX_NESTING then Some(SumWidth(fields)) else None
    decreases fields
  {
    LeavesExactly(fields[0], depth);
    if |fields| == 1 {
      assert fields[1..] == [];
    } else {
      SumLeavesExactly(fields[1..], depth);
    }
  }

  // ---------------------------------------------------------- Parquet metadata

  datatype Column = Column(
    external: bool, codec: Text, dataPage: int, dictionaryPage: Option<int>,
    compressed: int, fileOffset: int, uncompressed: int)

  datatype RowGroup = RowGroup(rows: int, columns: seq<Column>)

  datatype Metadata = Metadata(numColumns: nat, groups: seq<RowGroup>)

  predicate Rectangular(m: Metadata) {
    forall g :: 0 <= g < |m.groups| ==> |m.groups[g].columns| == m.numColumns
  }

  datatype Range = Range(offset: int, length: int)

  // ---------------------------------------------------------------- selection

  /** The fields taken so far, the physical columns they stand for, and the column count. */
  datatype Selection = Selection(taken: seq<nat>, indices: seq<nat>, physical: nat)

  predicate Below(s: seq<nat>, n: nat) {
    forall i :: 0 <= i < |s| ==> s[i] < n
  }

  function Interval(lo: nat, n: nat): (r: seq<nat>)
    ensures |r| == n && forall i :: 0 <= i < n ==> r[i] == lo + i
  {
    seq(n, i requires 0 <= i < n => lo + i)
  }

  /** The first loop of `_plan`, over the first n fields. */
  function Select(schema: seq<Field>, n: nat): (r: Option<Selection>)
    requires n <= |schema|
    ensures r.Some? ==> |r.value.indices| <= MAX_COLUMNS
  {
    if n == 0 then Some(Selection([], [], 0))
    else match Select(schema, n - 1)
      case None => None
      case Some(s) =>
        match Leaves(schema[n - 1].type_, 0)
        case None => None
        case Some(leaves) => Some(Take(s, n - 1, leaves))
  }

  function Take(s: Selection, f: nat, leaves: nat): Selection {
    if |s.indices| + leaves <= MAX_COLUMNS
    then Selection(s.taken + [f], s.indices + Interval(s.physical, leaves), s.physical + leaves)
    else s.(physical := s.physical + leaves)
  }

  method SelectFields(schema: seq<Field>) returns (r: Option<Selection>)
    ensures r == Select(schema, |schema|)
  {
    var s := Selection([], [], 0);
    for n := 0 to |schema|
      invariant Select(schema, n) == Some(s)
    {
      var leaves := Leaves(schema[n].type_, 0);
      if leaves.None? {
        SelectStaysNone(schema, n + 1, |schema|);
        return None;
      }
      s := Take(s, n, leaves.value);
    }
    return Some(s);
  }

  lemma {:induction false} SelectStaysNone(schema: seq<Field>, n: nat, m: nat)
    requires n <= m <= |schema| && Select(schema, n).None?
    ensures Select(schema, m).None?
  {
    if n < m { SelectStaysNone(schema, n, m - 1); }
  }

  // --------------------------------------------------------------- row groups

  predicate Between(n: int, lo: int, hi: int) {
    lo <= n <= hi
  }

  function Start(c: Column): int {
    if c.dictionaryPage.Some? then c.dictionaryPage.value else c.dataPage
  }

  /** Why a column chunk is refused; None if it is planned. */
  function ColumnError(c: Column, footer: int, available: Text -> bool): Option<Failure> {
    if !available(c.codec) then Some(Codec(PreviewText.Shown(c.codec, 40)))
    else if !Between(c.dataPage, 4, footer - 1) then Some(Footer)
    else if c.dictionaryPage.Some? && !Between(c.dictionaryPage.value, 4, c.dataPage) then Some(Footer)
    else if !Between(c.compressed, 1, MAX_BYTES) then Some(Budget)
    else if Start(c) + c.compressed > footer then Some(Footer)
    else if c.fileOffset != 0 && !(4 <= c.fileOffset < footer) then Some(Footer)
    else if !Between(c.uncompressed, 0, MAXSIZE) then Some(Budget)
    else None
  }

  function ChunkOf(c: Column): Range {
    Range(Start(c), c.compressed)
  }

  /** The groups taken so far, their chunks, and the running totals. */
  datatype Gathered = Gathered(groups: seq<nat>, chunks: seq<Range>, rows: int, uncompressed: int)

  /** The innermost loop of `_plan`, over the first k of the selected columns. */
  function AddColumns(a: Gathered, group: RowGroup, indices: seq<nat>, k: nat, footer: int, available: Text -> bool)
    : Result<Gathered, Failure>
    requires k <= |indices| && Below(indices, |group.columns|)
  {
    if k == 0 then Ok(a)
    else match AddColumns(a, group, indices, k - 1, footer, available)
      case Err(e) => Err(e)
      case Ok(b) =>
        var c := group.columns[indices[k - 1]];
        match ColumnError(c, footer, available)
        case Some(e) => Err(e)
        case None => Ok(b.(chunks := b.chunks + [ChunkOf(c)], uncompressed := b.uncompressed + c.uncompressed))
  }

  /** One turn of the second loop of `_plan`. */
  function AddGroup(a: Gathered, m: Metadata, g: nat, indices: seq<nat>, footer: int, available: Text -> bool)
    : Result<Gathered, Failure>
    requires g < |m.groups| && Rectangular(m) && Below(indices, m.numColumns)
  {
    var group := m.groups[g];
    if a.rows >= MAX_ROWS then Ok(a)
    else if !Between(group.rows, 0, MAXSIZE) then Err(Budget)
    else if group.rows == 0 then Ok(a)
    else AddColumns(a.(groups := a.groups + [g], rows := a.rows + group.rows), group, indices, |indices|, footer,
      available)
  }

  /** The second loop of `_plan`, over the first n row groups. */
  function Gather(m: Metadata, n: nat, indices: seq<nat>, footer: int, available: Text -> bool)
    : Result<Gathered, Failure>
    requires n <= |m.groups| && Rectangular(m) && Below(indices, m.numColumns)
  {
    if n == 0 then Ok(Gathered([], [], 0, 0))
    else match Gather(m, n - 1, indices, footer, available)
      case Err(e) => Err(e)
      case Ok(a) => AddGroup(a, m, n - 1, indices, footer, available)
  }

  method GatherColumns(a: Gathered, group: RowGroup, indices: seq<nat>, footer: int, available: Text -> bool)
    returns (r: Result<Gathered, Failure>)
    requires Below(indices, |group.columns|)
    ensures r == AddColumns(a, group, indices, |indices|, footer, available)
  {
    var b := a;
    for k := 0 to |indices|
      invariant AddColumns(a, group, indices, k, footer, available) == Ok(b)
    {
      var c := group.columns[indices[k]];
      var error := ColumnError(c, footer, available);
      if error.Some? {
        ColumnsStayErr(a, group, indices, k + 1, |indices|, footer, available);
        return Err(error.value);
      }
      b := b.(chunks := b.chunks + [ChunkOf(c)], uncompressed := b.uncompressed + c.uncompressed);
    }
    return Ok(b);
  }

  lemma {:induction false} ColumnsStayErr(
    a: Gathered, group: RowGroup, indices: seq<nat>, k: nat, n: nat, footer: int, available: Text -> bool)
    requires k <= n <= |indices| && Below(indices, |group.columns|)
    requires AddColumns(a, group, indices, k, footer, available).Err?
    ensures AddColumns(a, group, indices, n, footer, available) == AddColumns(a, group, indices, k, footer, available)
  {
    if k < n { ColumnsStayErr(a, group, indices, k, n - 1, footer, available); }
  }

  /** The loop stops at the first group that finds enough rows; `Gather` just adds nothing more. */
  method GatherGroups(m: Metadata, indices: seq<nat>, footer: int, available: Text -> bool)
    returns (r: Result<Gathered, Failure>)
    requires Rectangular(m) && Below(indices, m.numColumns)
    ensures r == Gather(m, |m.groups|, indices, footer, available)
  {
    var a := Gathered([], [], 0, 0);
    var g := 0;
    while g < |m.groups|
      invariant g <= |m.groups| && Gather(m, g, indices, footer, available) == Ok(a)
    {
      if a.rows >= MAX_ROWS { break; }
      var group := m.groups[g];
      if !Between(group.rows, 0, MAXSIZE) {
        GatherStays(m, g + 1, |m.groups|, indices, footer, available);
        return Err(Budget);
      }
      if group.rows != 0 {
        var b := GatherColumns(a.(groups := a.groups + [g], rows := a.rows + group.rows), group, indices, footer,
          available);
        if b.Err? {
          GatherStays(m, g + 1, |m.groups|, indices, footer, available);
          return b;
        }
        a := b.value;
      }
      g := g + 1;
    }
    GatherStays(m, g, |m.groups|, indices, footer, available);
    return Ok(a);
  }

  /** An error, or enough rows, is the last word. */
  lemma {:induction false} GatherStays(m: Metadata, g: nat, n: nat, indices: seq<nat>, footer: int,
    available: Text -> bool)
    requires g <= n <= |m.groups| && Rectangular(m) && Below(indices, m.numColumns)
    requires var r := Gather(m, g, indices, footer, available); g < n ==> r.Err? || r.value.rows >= MAX_ROWS
    ensures Gather(m, n, indices, footer, available) == Gather(m, g, indices, footer, available)
  {
    if g < n { GatherStays(m, g, n - 1, indices, footer, available); }
  }

  // --------------------------------------------------------------- the planner

  /** The plan message, field by field; `overBudget` stands for its one note. */
  datatype Plan = Plan(
    columns: seq<(Text, Text)>, names: seq<Text>, physical: seq<nat>,
    groups: seq<nat>, chunks: seq<Range>, uncompressed: int, overBudget: bool)

  function Names(schema: seq<Field>, taken: seq<nat>): (r: seq<Text>)
    requires Below(taken, |schema|)
    ensures |r| == |taken|
  {
    seq(|taken|, i requires 0 <= i < |taken| => schema[taken[i]].name)
  }

  function Headers(schema: seq<Field>, taken: seq<nat>): (r: seq<(Text, Text)>)
    requires Below(taken, |schema|)
    ensures |r| == |taken|
  {
    seq(|taken|, i requires 0 <= i < |taken| =>
      (PreviewText.Shown(schema[taken[i]].name, MAX_CELL_CHARS),
        PreviewText.Shown(schema[taken[i]].typeName, MAX_CELL_CHARS)))
  }

  predicate TooLarge(m: Metadata, schema: seq<Field>) {
    m.numColumns * |m.groups| > MAX_NODES || m.numColumns > MAX_NODES || |schema| > MAX_NODES
  }

  predicate External(m: Metadata) {
    exists g, i :: 0 <= g < |m.groups| && 0 <= i < |m.groups[g].columns| && m.groups[g].columns[i].external
  }

  /** Everything `_plan` decides before it looks at row groups. */
  function Opening(m: Metadata, schema: seq<Field>): Result<Selection, Failure> {
    if TooLarge(m, schema) then Err(Budget)
    else if External(m) then Err(Footer)
    else match Select(schema, |schema|)
      case None => Err(Budget)
      case Some(s) => if s.physical != m.numColumns then Err(Footer) else Ok(s)
  }

  function Closing(schema: seq<Field>, s: Selection, a: Gathered): Plan
    requires Below(s.taken, |schema|)
  {
    var headers, names := Headers(schema, s.taken), Names(schema, s.taken);
    if a.uncompressed > MAX_UNCOMPRESSED_BYTES
    then Plan(headers, names, s.indices, [], [], 0, true)
    else Plan(headers, names, s.indices, a.groups, a.chunks, a.uncompressed, false)
  }

  function MakePlan(m: Metadata, schema: seq<Field>, footer: int, available: Text -> bool): Result<Plan, Failure>
    requires Rectangular(m)
  {
    match Opening(m, schema)
    case Err(e) => Err(e)
    case Ok(s) =>
      SelectMeaning(schema, |schema|);
      match Gather(m, |m.groups|, s.indices, footer, available)
      case Err(e) => Err(e)
      case Ok(a) => Ok(Closing(schema, s, a))
  }

  /** `_plan`. */
  method PlanFile(m: Metadata, schema: seq<Field>, footer: int, available: Text -> bool)
    returns (r: Result<Plan, Failure>)
    requires Rectangular(m)
    ensures r == MakePlan(m, schema, footer, available)
  {
    if TooLarge(m, schema) { return Err(Budget); }
    var external := FindExternal(m);
    if external { return Err(Footer); }
    var selection := SelectFields(schema);
    if selection.None? { return Err(Budget); }
    var s := selection.value;
    if s.physical != m.numColumns { return Err(Footer); }
    SelectMeaning(schema, |schema|);
    var gathered := GatherGroups(m, s.indices, footer, available);
    if gathered.Err? { return Err(gathered.error); }
    return Ok(Closing(schema, s, gathered.value));
  }

  method FindExternal(m: Metadata) returns (found: bool)
    requires Rectangular(m)
    ensures found <==> External(m)
  {
    for g := 0 to |m.groups|
      invariant forall h, i :: 0 <= h < g && 0 <= i < |m.groups[h].columns| ==> !m.groups[h].columns[i].external
    {
      for i := 0 to m.numColumns
        invariant forall j :: 0 <= j < i ==> !m.groups[g].columns[j].external
      {
        if m.groups[g].columns[i].external { return true; }
      }
    }
    return false;
  }

  // ------------------------------------------------------------ what it plans

  predicate Increasing(s: seq<nat>) {
    forall i, j :: 0 <= i < j < |s| ==> s[i] < s[j]
  }

  /** Where the physical columns of field f begin. */
  function Offset(schema: seq<Field>, f: nat): nat
    requires f <= |schema|
  {
    if f == 0 then 0 else Offset(schema, f - 1) + Width(schema[f - 1].type_)
  }

  predicate BelongsTo(schema: seq<Field>, f: nat, i: nat)
    requires f < |schema|
  {
    Offset(schema, f) <= i < Offset(schema, f) + Width(schema[f].type_)
  }

  /** The physical columns are those of the fields taken: each field whole or not at all. */
  lemma {:induction false} SelectMeaning(schema: seq<Field>, n: nat)
    requires n <= |schema| && Select(schema, n).Some?
    ensures var s := Select(schema, n).value;
            && s.physical == Offset(schema, n)
            && Increasing(s.indices) && Below(s.indices, s.physical) && Increasing(s.taken) && Below(s.taken, n)
            && (forall i: nat :: i in s.indices <==> exists k :: 0 <= k < |s.taken| && BelongsTo(schema, s.taken[k], i))
  {
    if n > 0 {
      SelectMeaning(schema, n - 1);
      var s := Select(schema, n - 1).value;
      LeavesExactly(schema[n - 1].type_, 0);
      var w := Width(schema[n - 1].type_);
      if |s.indices| + w <= MAX_COLUMNS {
        TakenMeaning(schema, n - 1, s, w);
      }
    }
  }

  lemma TakenMeaning(schema: seq<Field>, f: nat, s: Selection, w: nat)
    requires f < |schema| && w == Width(schema[f].type_) && s.physical == Offset(schema, f) && Below(s.taken, f)
    requires |s.indices| + w <= MAX_COLUMNS
    requires forall i: nat :: i in s.indices <==> exists k :: 0 <= k < |s.taken| && BelongsTo(schema, s.taken[k], i)
    ensures var t := Take(s, f, w);
            forall i: nat :: i in t.indices <==> exists k :: 0 <= k < |t.taken| && BelongsTo(schema, t.taken[k], i)
  {
    var t := Take(s, f, w);
    forall i: nat ensures i in t.indices <==> exists k :: 0 <= k < |t.taken| && BelongsTo(schema, t.taken[k], i) {
      IntervalHolds(s.physical, w, i);
      if k :| 0 <= k < |s.taken| && BelongsTo(schema, s.taken[k], i) { assert BelongsTo(schema, t.taken[k], i); }
      if BelongsTo(schema, f, i) { assert BelongsTo(schema, t.taken[|s.taken|], i); }
    }
  }

  lemma IntervalHolds(lo: nat, n: nat, i: nat)
    ensures i in Interval(lo, n) <==> lo <= i < lo + n
  {
    if lo <= i < lo + n { assert Interval(lo, n)[i - lo] == i; }
  }

  predicate WithinFile(r: Range, footer: int) {
    4 <= r.offset && 1 <= r.length <= MAX_BYTES && r.offset + r.length <= footer
  }

  predicate AllWithinFile(chunks: seq<Range>, footer: int) {
    forall k :: 0 <= k < |chunks| ==> WithinFile(chunks[k], footer)
  }

  /** The chunks of one group, one for each of the first k selected columns. */
  function GroupChunks(group: RowGroup, indices: seq<nat>, k: nat): (r: seq<Range>)
    requires k <= |indices| && Below(indices, |group.columns|)
    ensures |r| == k && forall i :: 0 <= i < k ==> r[i] == ChunkOf(group.columns[indices[i]])
  {
    seq(k, i requires 0 <= i < k => ChunkOf(group.columns[indices[i]]))
  }

  lemma {:induction false} ColumnsAdd(a: Gathered, group: RowGroup, indices: seq<nat>, k: nat, footer: int,
    available: Text -> bool)
    requires k <= |indices| && Below(indices, |group.columns|)
    requires AddColumns(a, group, indices, k, footer, available).Ok? && AllWithinFile(a.chunks, footer)
    ensures var b := AddColumns(a, group, indices, k, footer, available).value;
            && b.groups == a.groups && b.rows == a.rows && b.uncompressed >= a.uncompressed
            && b.chunks == a.chunks + GroupChunks(group, indices, k) && AllWithinFile(b.chunks, footer)
  {
    if k > 0 {
      ColumnsAdd(a, group, indices, k - 1, footer, available);
      var c := ChunkOf(group.columns[indices[k - 1]]);
      assert GroupChunks(group, indices, k) == GroupChunks(group, indices, k - 1) + [c];
      assert WithinFile(c, footer);
    }
  }

  /** The chunks of the given groups, in order. */
  function ChunksOf(m: Metadata, groups: seq<nat>, indices: seq<nat>): (r: seq<Range>)
    requires Rectangular(m) && Below(groups, |m.groups|) && Below(indices, m.numColumns)
    ensures |r| == |groups| * |indices|
  {
    if groups == [] then []
    else
      var init := groups[..|groups| - 1];
      ChunksOf(m, init, indices) + GroupChunks(m.groups[groups[|groups| - 1]], indices, |indices|)
  }

  function RowsBefore(m: Metadata, n: nat): int
    requires n <= |m.groups|
  {
    if n == 0 then 0 else RowsBefore(m, n - 1) + m.groups[n - 1].rows
  }

  /** What has been gathered holds together. */
  ghost predicate Sampled(m: Metadata, n: nat, indices: seq<nat>, footer: int, a: Gathered)
    requires n <= |m.groups| && Rectangular(m) && Below(indices, m.numColumns)
  {
    && Increasing(a.groups) && Below(a.groups, n) && |a.groups| <= MAX_ROWS && |a.groups| <= a.rows
    && a.chunks == ChunksOf(m, a.groups, indices) && AllWithinFile(a.chunks, footer) && a.uncompressed >= 0
    && (a.rows >= MAX_ROWS || a.rows == RowsBefore(m, n))
  }

  /**
   The groups taken hold enough rows for the sample, or all there are; the chunks
   are those of the selected columns of each of them, and lie within the file.
   */
  lemma {:induction false} GatherMeaning(m: Metadata, n: nat, indices: seq<nat>, footer: int, available: Text -> bool)
    requires n <= |m.groups| && Rectangular(m) && Below(indices, m.numColumns)
    requires Gather(m, n, indices, footer, available).Ok?
    ensures Sampled(m, n, indices, footer, Gather(m, n, indices, footer, available).value)
  {
    if n > 0 {
      GatherMeaning(m, n - 1, indices, footer, available);
      GroupMeaning(Gather(m, n - 1, indices, footer, available).value, m, n - 1, indices, footer, available);
    }
  }

  lemma GroupMeaning(a: Gathered, m: Metadata, g: nat, indices: seq<nat>, footer: int, available: Text -> bool)
    requires g < |m.groups| && Rectangular(m) && Below(indices, m.numColumns)
    requires Sampled(m, g, indices, footer, a) && AddGroup(a, m, g, indices, footer, available).Ok?
    ensures Sampled(m, g + 1, indices, footer, AddGroup(a, m, g, indices, footer, available).value)
  {
    var group := m.groups[g];
    if a.rows < MAX_ROWS && group.rows != 0 {
      var b := a.(groups := a.groups + [g], rows := a.rows + group.rows);
      ColumnsAdd(b, group, indices, |indices|, footer, available);
      assert b.groups[..|b.groups| - 1] == a.groups;
    }
  }
}
