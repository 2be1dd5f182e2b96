/** `_admit_plan`: what the parent lets a child, honest or not, ask for. */
module ParquetAdmission {
  import opened Wrappers
  import opened Utf8
  import opened PreviewLimits
  import opened ParquetPlan

  // ------------------------------------------------------------ decoded JSON

  datatype Wire =
    | Null
    | Bool(b: bool)
    | Number(n: int)
    | Fraction
    | Str(text: Text)
    | Array(items: seq<Wire>)
    | Object(entries: map<string, Wire>)

  type Message = map<string, Wire>

  function Ascii(s: string): (r: Text)
    ensures |r| == |s|
  {
    seq(|s|, i requires 0 <= i < |s| => s[i] as int)
  }

  function Get(m: Message, key: string): Wire {
    if key in m then m[key] else Null
  }

  function GetOr(m: Message, key: string, default: Wire): Wire {
    if key in m then m[key] else default
  }

  const BUDGET_MESSAGE: Text := Ascii("Parquet sample exceeds preview budget")

  /** `_int(value, minimum=lo, maximum=hi)` returns. */
  predicate IsInt(w: Wire, lo: int, hi: int) {
    w.Number? && lo <= w.n <= hi
  }

  predicate IsText(w: Wire, limit: int) {
    w.Str? && |w.text| <= limit
  }

  predicate IsHeader(w: Wire) {
    w.Array? && |w.items| == 2 && IsText(w.items[0], MAX_CELL_CHARS) && IsText(w.items[1], MAX_CELL_CHARS)
  }

  predicate AreTexts(items: seq<Wire>, limit: int) {
    forall i :: 0 <= i < |items| ==> IsText(items[i], limit)
  }

  predicate AreHeaders(items: seq<Wire>) {
    forall i :: 0 <= i < |items| ==> IsHeader(items[i])
  }

  predicate AreInts(items: seq<Wire>, hi: int) {
    forall i :: 0 <= i < |items| ==> IsInt(items[i], 0, hi)
  }

  /** `items == sorted(set(items))`. */
  predicate Ascending(items: seq<Wire>)
    requires AreInts(items, MAX_NODES)
  {
    forall i, j :: 0 <= i < j < |items| ==> items[i].n < items[j].n
  }

  predicate HasLists(m: Message) {
    Get(m, "columns").Array? && Get(m, "names").Array? && Get(m, "groups").Array? && Get(m, "chunks").Array?
      && Get(m, "physical").Array?
  }

  predicate SizesFit(m: Message)
    requires HasLists(m)
  {
    var columns, groups, chunks, physical :=
      |Get(m, "columns").items|, |Get(m, "groups").items|, |Get(m, "chunks").items|, |Get(m, "physical").items|;
    && columns <= MAX_COLUMNS && |Get(m, "names").items| == columns && groups <= MAX_ROWS
    && chunks <= MAX_ROWS * MAX_COLUMNS && physical <= MAX_COLUMNS && chunks == physical * groups
  }

  /** Everything `_admit_plan` asks of the message before it looks at the chunks. */
  predicate WellFormed(m: Message) {
    && HasLists(m) && SizesFit(m)
    && AreTexts(Get(m, "names").items, MAX_FOOTER_BYTES)
    && AreInts(Get(m, "groups").items, MAX_NODES) && AreInts(Get(m, "physical").items, MAX_NODES)
    && Ascending(Get(m, "physical").items) && Ascending(Get(m, "groups").items)
    && IsInt(Get(m, "uncompressed"), 0, MAX_UNCOMPRESSED_BYTES)
    && AreHeaders(Get(m, "columns").items)
  }

  function ChunkError(w: Wire, size: int, footer: int): Option<Failure> {
    if !(w.Array? && |w.items| == 2) then Some(Budget)
    else if !IsInt(w.items[0], 4, size) || !IsInt(w.items[1], 1, MAX_BYTES) then Some(Budget)
    else if w.items[0].n + w.items[1].n > footer then Some(Footer)
    else None
  }

  /** The refusal of the first bad chunk among the first n. */
  function ChunksError(items: seq<Wire>, n: nat, size: int, footer: int): (r: Option<Failure>)
    requires n <= |items|
    ensures r.None? ==> forall k :: 0 <= k < n ==> ChunkError(items[k], size, footer).None?
  {
    if n == 0 then None
    else if ChunksError(items, n - 1, size, footer).Some? then ChunksError(items, n - 1, size, footer)
    else ChunkError(items[n - 1], size, footer)
  }

  function ChunkRange(w: Wire): Range {
    if w.Array? && |w.items| == 2 && w.items[0].Number? && w.items[1].Number?
    then Range(w.items[0].n, w.items[1].n) else Range(0, 0)
  }

  function Chunks(items: seq<Wire>): (r: seq<Range>)
    ensures |r| == |items| && forall k :: 0 <= k < |items| ==> r[k] == ChunkRange(items[k])
  {
    seq(|items|, k requires 0 <= k < |items| => ChunkRange(items[k]))
  }

  // ---------------------------------------------------------- splitting chunks

  /** One chunk in pieces of at most the range limit, in order. */
  function Split(r: Range): seq<Range>
    decreases r.length
  {
    if r.length <= 0 then []
    else if r.length <= MAX_RANGE_BYTES then [r]
    else [Range(r.offset, MAX_RANGE_BYTES)] + Split(Range(r.offset + MAX_RANGE_BYTES, r.length - MAX_RANGE_BYTES))
  }

  function SplitAll(chunks: seq<Range>): seq<Range> {
    if chunks == [] then [] else SplitAll(chunks[..|chunks| - 1]) + Split(chunks[|chunks| - 1])
  }

  function Total(ranges: seq<Range>): int {
    if ranges == [] then 0 else Total(ranges[..|ranges| - 1]) + ranges[|ranges| - 1].length
  }

  /** The `while length` loop, which the parent and the child both have. */
  method SplitOnto(ranges: seq<Range>, chunk: Range) returns (r: seq<Range>)
    requires chunk.length >= 1
    ensures r == ranges + Split(chunk)
  {
    r := ranges;
    var offset, length := chunk.offset, chunk.length;
    while length != 0
      invariant length >= 0 && r + Split(Range(offset, length)) == ranges + Split(chunk)
      decreases length
    {
      var part := if length < MAX_RANGE_BYTES then length else MAX_RANGE_BYTES;
      r := r + [Range(offset, part)];
      offset := offset + part;
      length := length - part;
    }
  }

  /** The child's loop over its own plan: what it expects to be sent. */
  method Expected(chunks: seq<Range>) returns (ranges: seq<Range>)
    requires forall k :: 0 <= k < |chunks| ==> chunks[k].length >= 1
    ensures ranges == SplitAll(chunks)
  {
    ranges := [];
    for k := 0 to |chunks|
      invariant ranges == SplitAll(chunks[..k])
    {
      ranges := SplitOnto(ranges, chunks[k]);
      assert chunks[..k + 1][..k] == chunks[..k];
    }
    assert chunks[..|chunks|] == chunks;
  }

  /** A piece of a chunk lies in it and respects the range limit. */
  predicate PieceOf(p: Range, r: Range) {
    r.offset <= p.offset && 1 <= p.length <= MAX_RANGE_BYTES && p.offset + p.length <= r.offset + r.length
  }

  predicate Covers(ranges: seq<Range>, i: int) {
    exists k :: 0 <= k < |ranges| && ranges[k].offset <= i < ranges[k].offset + ranges[k].length
  }

  /** The pieces of a chunk are within it, cover it, and are no longer than it in all. */
  lemma {:induction false} SplitMeaning(r: Range)
    requires r.length >= 0
    ensures forall k :: 0 <= k < |Split(r)| ==> PieceOf(Split(r)[k], r)
    ensures forall i :: r.offset <= i < r.offset + r.length ==> Covers(Split(r), i)
    ensures Total(Split(r)) == r.length
    decreases r.length
  {
    if r.length > MAX_RANGE_BYTES {
      var first, rest := Range(r.offset, MAX_RANGE_BYTES),
        Range(r.offset + MAX_RANGE_BYTES, r.length - MAX_RANGE_BYTES);
      SplitMeaning(rest);
      TotalAppend([first], Split(rest));
      forall i | r.offset <= i < r.offset + r.length ensures Covers(Split(r), i) {
        CoversAppend([first], Split(rest), i);
        if i < r.offset + MAX_RANGE_BYTES { assert [first][0].offset <= i; }
      }
    } else if r.length > 0 {
      forall i | r.offset <= i < r.offset + r.length ensures Covers(Split(r), i) {
        assert Split(r)[0] == r;
      }
      assert Total([r]) == Total([r][..0]) + r.length;
    }
  }

  lemma {:induction false} TotalAppend(a: seq<Range>, b: seq<Range>)
    ensures Total(a + b) == Total(a) + Total(b)
  {
    if b == [] {
      assert a + b == a;
    } else {
      TotalAppend(a, b[..|b| - 1]);
      assert (a + b)[..|a + b| - 1] == a + b[..|b| - 1];
    }
  }

  lemma CoversAppend(a: seq<Range>, b: seq<Range>, i: int)
    ensures Covers(a + b, i) <==> Covers(a, i) || Covers(b, i)
  {
    var c := a + b;
    if k :| 0 <= k < |a| && a[k].offset <= i < a[k].offset + a[k].length { assert c[k] == a[k]; }
    if k :| 0 <= k < |b| && b[k].offset <= i < b[k].offset + b[k].length { assert c[|a| + k] == b[k]; }
  }

  predicate InSomeChunk(p: Range, chunks: seq<Range>) {
    exists k :: 0 <= k < |chunks| && PieceOf(p, chunks[k])
  }

  /** All chunks together: every piece within some chunk, every byte covered, nothing added. */
  lemma {:induction false} SplitAllMeaning(chunks: seq<Range>)
    requires forall k :: 0 <= k < |chunks| ==> chunks[k].length >= 0
    ensures forall j :: 0 <= j < |SplitAll(chunks)| ==> InSomeChunk(SplitAll(chunks)[j], chunks)
    ensures forall i :: Covers(chunks, i) ==> Covers(SplitAll(chunks), i)
    ensures Total(SplitAll(chunks)) == Total(chunks)
  {
    if chunks != [] {
      var init, last := chunks[..|chunks| - 1], chunks[|chunks| - 1];
      SplitAllMeaning(init);
      SplitMeaning(last);
      var a, b := SplitAll(init), Split(last);
      TotalAppend(a, b);
      assert chunks == init + [last];
      forall j | 0 <= j < |a + b| ensures InSomeChunk((a + b)[j], chunks) {
        PieceKept(a, b, init, last, j);
      }
      forall i | Covers(chunks, i) ensures Covers(a + b, i) {
        CoversAppend(init, [last], i);
        CoversAppend(a, b, i);
      }
    }
  }

  lemma PieceKept(a: seq<Range>, b: seq<Range>, init: seq<Range>, last: Range, j: nat)
    requires j < |a + b| && (j < |a| ==> InSomeChunk(a[j], init)) && (j >= |a| ==> PieceOf(b[j - |a|], last))
    ensures InSomeChunk((a + b)[j], init + [last])
  {
    if j < |a| {
      var k :| 0 <= k < |init| && PieceOf(a[j], init[k]);
      assert (init + [last])[k] == init[k];
    } else {
      assert (init + [last])[|init|] == last;
    }
  }

  // ----------------------------------------------------------------- admission

  /** The requests and bytes a preview has been charged for. */
  datatype Spent = Spent(requests: nat, bytes: nat)

  predicate WithinBudget(ranges: seq<Range>, bytes: int, spent: Spent) {
    spent.bytes + bytes <= MAX_BYTES && spent.requests + |ranges| + 1 <= MAX_REQUESTS
  }

  predicate NotesAllowed(w: Wire) {
    w == Array([]) || w == Array([Str(BUDGET_MESSAGE)])
  }

  /** Why the parent refuses a plan; None if it admits it. */
  function Refusal(m: Message, size: int, footer: int, spent: Spent): Option<Failure> {
    if Get(m, "phase") != Str(Ascii("plan")) then Some(Unavailable)
    else if !WellFormed(m) then Some(Budget)
    else
      var items := Get(m, "chunks").items;
      if ChunksError(items, |items|, size, footer).Some? then ChunksError(items, |items|, size, footer)
      else if !WithinBudget(SplitAll(Chunks(items)), Total(Chunks(items)), spent) then Some(Budget)
      else if !NotesAllowed(GetOr(m, "notes", Array([]))) then Some(Unavailable)
      else None
  }

  datatype Admission = Admission(columns: seq<(Text, Text)>, ranges: seq<Range>, notes: seq<Wire>)

  function ColumnsOf(items: seq<Wire>): (r: seq<(Text, Text)>)
    requires AreHeaders(items)
    ensures |r| == |items|
  {
    seq(|items|, i requires 0 <= i < |items| => (items[i].items[0].text, items[i].items[1].text))
  }

  function Admitted(m: Message): Admission
    requires WellFormed(m) && GetOr(m, "notes", Array([])).Array?
  {
    Admission(ColumnsOf(Get(m, "columns").items), SplitAll(Chunks(Get(m, "chunks").items)),
      GetOr(m, "notes", Array([])).items)
  }

  method CheckTexts(items: seq<Wire>, limit: int) returns (ok: bool)
    ensures ok <==> AreTexts(items, limit)
  {
    for i := 0 to |items|
      invariant AreTexts(items[..i], limit)
    {
      if !items[i].Str? || |items[i].text| > limit { return false; }
    }
    return true;
  }

  method CheckInts(items: seq<Wire>, hi: int) returns (ok: bool)
    ensures ok <==> AreInts(items, hi)
  {
    for i := 0 to |items|
      invariant AreInts(items[..i], hi)
    {
      if !IsInt(items[i], 0, hi) { return false; }
    }
    return true;
  }

  method ReadColumns(items: seq<Wire>) returns (r: Option<seq<(Text, Text)>>)
    ensures r == if AreHeaders(items) then Some(ColumnsOf(items)) else None
  {
    var columns: seq<(Text, Text)> := [];
    for i := 0 to |items|
      invariant AreHeaders(items[..i]) && columns == ColumnsOf(items[..i])
    {
      if !IsHeader(items[i]) { return None; }
      columns := columns + [(items[i].items[0].text, items[i].items[1].text)];
      assert items[..i + 1] == items[..i] + [items[i]];
      assert AreHeaders(items[..i + 1]);
    }
    assert items[..|items|] == items;
    return Some(columns);
  }

  /** The loop over the chunks: bytes are counted and ranges are split as it goes. */
  method ReadChunks(items: seq<Wire>, size: int, footer: int) returns (r: Result<(seq<Range>, int), Failure>)
    ensures var error := ChunksError(items, |items|, size, footer);
            r == if error.Some? then Err(error.value) else Ok((SplitAll(Chunks(items)), Total(Chunks(items))))
  {
    var ranges, bytes := [], 0;
    for k := 0 to |items|
      invariant ChunksError(items, k, size, footer).None?
      invariant ranges == SplitAll(Chunks(items)[..k]) && bytes == Total(Chunks(items)[..k])
    {
      var error := ChunkError(items[k], size, footer);
      if error.Some? {
        FirstErrorStays(items, k + 1, |items|, size, footer);
        return Err(error.value);
      }
      var chunk := Range(items[k].items[0].n, items[k].items[1].n);
      ranges := SplitOnto(ranges, chunk);
      bytes := bytes + chunk.length;
      assert Chunks(items)[..k + 1][..k] == Chunks(items)[..k];
    }
    assert Chunks(items)[..|items|] == Chunks(items);
    return Ok((ranges, bytes));
  }

  lemma {:induction false} FirstErrorStays(items: seq<Wire>, k: nat, n: nat, size: int, footer: int)
    requires k <= n <= |items| && ChunksError(items, k, size, footer).Some?
    ensures ChunksError(items, n, size, footer) == ChunksError(items, k, size, footer)
  {
    if k < n { FirstErrorStays(items, k, n - 1, size, footer); }
  }

  /** `_admit_plan`. */
  method AdmitPlan(m: Message, size: int, footer: int, spent: Spent) returns (r: Result<Admission, Failure>)
    ensures var refusal := Refusal(m, size, footer, spent);
            if refusal.Some? then r == Err(refusal.value)
            else WellFormed(m) && GetOr(m, "notes", Array([])).Array? && r == Ok(Admitted(m))
  {
    if Get(m, "phase") != Str(Ascii("plan")) { return Err(Unavailable); }
    if !HasLists(m) { return Err(Budget); }
    if !SizesFit(m) { return Err(Budget); }
    var ok := CheckTexts(Get(m, "names").items, MAX_FOOTER_BYTES);
    if !ok { return Err(Budget); }
    ok := CheckInts(Get(m, "groups").items, MAX_NODES);
    if !ok { return Err(Budget); }
    ok := CheckInts(Get(m, "physical").items, MAX_NODES);
    if !ok { return Err(Budget); }
    if !Ascending(Get(m, "physical").items) || !Ascending(Get(m, "groups").items) { return Err(Budget); }
    if !IsInt(Get(m, "uncompressed"), 0, MAX_UNCOMPRESSED_BYTES) { return Err(Budget); }
    var columns := ReadColumns(Get(m, "columns").items);
    if columns.None? { return Err(Budget); }
    var read := ReadChunks(Get(m, "chunks").items, size, footer);
    if read.Err? { return Err(read.error); }
    if !WithinBudget(read.value.0, read.value.1, spent) { return Err(Budget); }
    var notes := GetOr(m, "notes", Array([]));
    if !NotesAllowed(notes) { return Err(Unavailable); }
    return Ok(Admission(columns.value, read.value.0, notes.items));
  }

  /** Whatever the child sent, what is admitted stays before the footer and within every limit. */
  lemma AdmittedIsSafe(m: Message, size: int, footer: int, spent: Spent)
    requires Refusal(m, size, footer, spent).None?
    ensures var a := Admitted(m);
            && (forall k :: 0 <= k < |a.ranges| ==>
                 4 <= a.ranges[k].offset && 1 <= a.ranges[k].length <= MAX_RANGE_BYTES
                   && a.ranges[k].offset + a.ranges[k].length <= footer)
            && spent.bytes + Total(a.ranges) <= MAX_BYTES
            && spent.requests + |a.ranges| + 1 <= MAX_REQUESTS
            && |a.columns| <= MAX_COLUMNS
            && (forall k :: 0 <= k < |a.columns| ==>
              |a.columns[k].0| <= MAX_CELL_CHARS && |a.columns[k].1| <= MAX_CELL_CHARS)
  {
    var items := Get(m, "chunks").items;
    SplitAllMeaning(Chunks(items));
    var ranges := Admitted(m).ranges;
    forall j | 0 <= j < |ranges|
      ensures 4 <= ranges[j].offset && 1 <= ranges[j].length <= MAX_RANGE_BYTES
        && ranges[j].offset + ranges[j].length <= footer
    {
      var k :| 0 <= k < |Chunks(items)| && PieceOf(ranges[j], Chunks(items)[k]);
      assert ChunkError(items[k], size, footer).None?;
    }
    assert AreHeaders(Get(m, "columns").items);
  }

  /** What is admitted names as many columns as it shows, and its lists are in order and match. */
  lemma AdmittedIsOrdered(m: Message, size: int, footer: int, spent: Spent)
    requires Refusal(m, size, footer, spent).None?
    ensures Get(m, "physical").Array? && Get(m, "groups").Array? && Get(m, "chunks").Array? && Get(m, "names").Array?
    ensures forall key: string, i :: key in {"physical", "groups"} && 0 <= i < |Get(m, key).items| ==>
      Get(m, key).items[i].Number? && 0 <= Get(m, key).items[i].n <= MAX_NODES
    ensures forall key: string, i, j :: key in {"physical", "groups"} && 0 <= i < j < |Get(m, key).items| ==>
      Get(m, key).items[i].n < Get(m, key).items[j].n
    ensures |Get(m, "chunks").items| == |Get(m, "physical").items| * |Get(m, "groups").items|
    ensures |Get(m, "names").items| == |Admitted(m).columns|
    ensures Get(m, "uncompressed").Number? && 0 <= Get(m, "uncompressed").n <= MAX_UNCOMPRESSED_BYTES
    ensures Admitted(m).notes in {[], [Str(BUDGET_MESSAGE)]}
  {
    assert forall i :: 0 <= i < |Get(m, "physical").items| ==> IsInt(Get(m, "physical").items[i], 0, MAX_NODES);
    assert forall i :: 0 <= i < |Get(m, "groups").items| ==> IsInt(Get(m, "groups").items[i], 0, MAX_NODES);
  }

  // ---------------------------------------------------------- planner soundness

  function Texts(names: seq<Text>): (r: seq<Wire>)
    ensures |r| == |names| && forall i :: 0 <= i < |names| ==> r[i] == Str(names[i])
  {
    seq(|names|, i requires 0 <= i < |names| => Str(names[i]))
  }

  function Numbers(ns: seq<nat>): (r: seq<Wire>)
    ensures |r| == |ns| && forall i :: 0 <= i < |ns| ==> r[i] == Number(ns[i])
  {
    seq(|ns|, i requires 0 <= i < |ns| => Number(ns[i]))
  }

  function Pairs(columns: seq<(Text, Text)>): (r: seq<Wire>)
    ensures |r| == |columns| && forall i :: 0 <= i < |columns| ==> r[i] == Array([Str(columns[i].0), Str(columns[i].1)])
  {
    seq(|columns|, i requires 0 <= i < |columns| => Array([Str(columns[i].0), Str(columns[i].1)]))
  }

  function RangePairs(chunks: seq<Range>): (r: seq<Wire>)
    ensures |r| == |chunks| && forall i :: 0 <= i < |chunks| ==>
      r[i] == Array([Number(chunks[i].offset), Number(chunks[i].length)])
  {
    seq(|chunks|, i requires 0 <= i < |chunks| => Array([Number(chunks[i].offset), Number(chunks[i].length)]))
  }

  /** The message a child sends for its plan, as the parent decodes it. */
  function PlanMessage(p: Plan): Message {
    map["phase" := Str(Ascii("plan")),
        "columns" := Array(Pairs(p.columns)),
        "names" := Array(Texts(p.names)),
        "physical" := Array(Numbers(p.physical)),
        "groups" := Array(Numbers(p.groups)),
        "chunks" := Array(RangePairs(p.chunks)),
        "uncompressed" := Number(p.uncompressed),
        "notes" := Array(if p.overBudget then [Str(BUDGET_MESSAGE)] else [])]
  }

  /** What every plan of a correct child has, whatever the file. */
  ghost predicate ProperPlan(p: Plan, footer: int) {
    && |p.names| == |p.columns| && |p.physical| <= MAX_COLUMNS && |p.groups| <= MAX_ROWS
    && |p.chunks| == |p.physical| * |p.groups|
    && Increasing(p.physical) && Below(p.physical, MAX_NODES) && Increasing(p.groups)
    && AllWithinFile(p.chunks, footer) && 0 <= p.uncompressed <= MAX_UNCOMPRESSED_BYTES
    && (forall k :: 0 <= k < |p.columns| ==> |p.columns[k].0| <= MAX_CELL_CHARS && |p.columns[k].1| <= MAX_CELL_CHARS)
    && (forall k :: 0 <= k < |p.names| ==> |p.names[k]| <= MAX_FOOTER_BYTES)
  }

  /** The native reader holds every name to the footer limit. */
  predicate NamesFit(schema: seq<Field>) {
    forall f :: 0 <= f < |schema| ==> |schema[f].name| <= MAX_FOOTER_BYTES
  }

  lemma PlansAreProper(m: Metadata, schema: seq<Field>, footer: int, available: Text -> bool)
    requires Rectangular(m) && NamesFit(schema) && MakePlan(m, schema, footer, available).Ok?
    ensures ProperPlan(MakePlan(m, schema, footer, available).value, footer)
    ensures Below(MakePlan(m, schema, footer, available).value.groups, |m.groups|)
  {
    var s := Opening(m, schema).value;
    ProperSelection(m, schema, s);
    GatherMeaning(m, |m.groups|, s.indices, footer, available);
    var a := Gather(m, |m.groups|, s.indices, footer, available).value;
    assert |ChunksOf(m, a.groups, s.indices)| == |a.groups| * |s.indices|;
    ClosingIsProper(schema, s, a, footer);
  }

  lemma ClosingIsProper(schema: seq<Field>, s: Selection, a: Gathered, footer: int)
    requires NamesFit(schema) && Below(s.taken, |schema|)
    requires |s.indices| <= MAX_COLUMNS && Increasing(s.indices) && Below(s.indices, MAX_NODES)
    requires Increasing(a.groups) && |a.groups| <= MAX_ROWS && |a.chunks| == |a.groups| * |s.indices|
    requires AllWithinFile(a.chunks, footer) && a.uncompressed >= 0
    ensures ProperPlan(Closing(schema, s, a), footer)
    ensures Closing(schema, s, a).groups == a.groups || Closing(schema, s, a).groups == []
  {
  }

  lemma ProperSelection(m: Metadata, schema: seq<Field>, s: Selection)
    requires Opening(m, schema) == Ok(s)
    ensures |s.indices| <= MAX_COLUMNS && Increasing(s.indices) && Below(s.indices, MAX_NODES)
    ensures Below(s.indices, m.numColumns) && Below(s.taken, |schema|)
  {
    SelectMeaning(schema, |schema|);
  }

  lemma ProperChunks(p: Plan, size: int, footer: int)
    requires ProperPlan(p, footer) && footer <= size
    ensures var items := RangePairs(p.chunks);
            Chunks(items) == p.chunks && ChunksError(items, |items|, size, footer).None?
  {
    var items := RangePairs(p.chunks);
    assert Chunks(items) == p.chunks;
    NoChunkError(p, items, |items|, size, footer);
  }

  lemma {:induction false} NoChunkError(p: Plan, items: seq<Wire>, n: nat, size: int, footer: int)
    requires ProperPlan(p, footer) && footer <= size && items == RangePairs(p.chunks) && n <= |items|
    ensures ChunksError(items, n, size, footer).None?
  {
    if n > 0 {
      NoChunkError(p, items, n - 1, size, footer);
      assert WithinFile(p.chunks[n - 1], footer);
    }
  }

  /**
   The parent admits the plan of a correct child exactly when it lists no more
   than the permitted columns, its groups are within the node limit, and the
   shared budgets allow its ranges: the planner settles every other question.
   */
  lemma PlannerSoundness(p: Plan, size: int, footer: int, spent: Spent)
    requires ProperPlan(p, footer) && footer <= size
    ensures Refusal(PlanMessage(p), size, footer, spent).None? <==>
      |p.columns| <= MAX_COLUMNS && Below(p.groups, MAX_NODES + 1)
        && WithinBudget(SplitAll(p.chunks), Total(p.chunks), spent)
    ensures Refusal(PlanMessage(p), size, footer, spent).None? ==> Admitted(PlanMessage(p)).ranges == SplitAll(p.chunks)
  {
    var m := PlanMessage(p);
    ProperChunks(p, size, footer);
    assert |p.physical| * |p.groups| <= MAX_ROWS * MAX_COLUMNS by { Rectangle(|p.physical|, |p.groups|); }
    WellFormedPlan(p, footer);
  }

  lemma Rectangle(a: nat, b: nat)
    requires a <= MAX_COLUMNS && b <= MAX_ROWS
    ensures a * b <= MAX_ROWS * MAX_COLUMNS
  {
    assert a * b <= MAX_COLUMNS * b;
  }

  lemma WellFormedPlan(p: Plan, footer: int)
    requires ProperPlan(p, footer)
    ensures WellFormed(PlanMessage(p)) <==> |p.columns| <= MAX_COLUMNS && Below(p.groups, MAX_NODES + 1)
  {
    Rectangle(|p.physical|, |p.groups|);
    var m := PlanMessage(p);
    assert AreInts(Numbers(p.physical), MAX_NODES);
    assert AreInts(Numbers(p.groups), MAX_NODES) <==> Below(p.groups, MAX_NODES + 1) by {
      if AreInts(Numbers(p.groups), MAX_NODES) {
        forall i | 0 <= i < |p.groups| ensures p.groups[i] < MAX_NODES + 1 {
          assert IsInt(Numbers(p.groups)[i], 0, MAX_NODES);
        }
      }
    }
    assert AreTexts(Texts(p.names), MAX_FOOTER_BYTES);
    assert AreHeaders(Pairs(p.columns));
  }

  lemma {:induction false} TakenFitsIndices(schema: seq<Field>, n: nat)
    requires n <= |schema| && Select(schema, n).Some?
    requires forall f :: 0 <= f < |schema| ==> Width(schema[f].type_) >= 1
    ensures |Select(schema, n).value.taken| <= |Select(schema, n).value.indices|
  {
    if n > 0 {
      TakenFitsIndices(schema, n - 1);
      LeavesExactly(schema[n - 1].type_, 0);
    }
  }

  /**
   For a schema whose fields all have columns, read by a reader that refuses more
   row groups than the node limit, only the budgets are left to decide.
   */
  lemma CorrectChildIsAdmitted(
    m: Metadata, schema: seq<Field>, size: int, footer: int, available: Text -> bool, spent: Spent)
    requires Rectangular(m) && NamesFit(schema) && footer <= size && |m.groups| <= MAX_NODES
    requires forall f :: 0 <= f < |schema| ==> Width(schema[f].type_) >= 1
    requires MakePlan(m, schema, footer, available).Ok?
    ensures var p := MakePlan(m, schema, footer, available).value;
            Refusal(PlanMessage(p), size, footer, spent).None? <==>
              WithinBudget(SplitAll(p.chunks), Total(p.chunks), spent)
  {
    var p := MakePlan(m, schema, footer, available).value;
    PlansAreProper(m, schema, footer, available);
    PlannerSoundness(p, size, footer, spent);
    TakenFitsIndices(schema, |schema|);
  }

  function EmptyStructs(n: nat): (r: seq<Field>)
    ensures |r| == n && forall i :: 0 <= i < n ==> r[i] == Field([], [], Struct([]))
  {
    seq(n, i => Field([], [], Struct([])))
  }

  lemma {:induction false} EmptyStructsAllTaken(n: nat, m: nat)
    requires m <= n
    ensures var s := Select(EmptyStructs(n), m);
            s.Some? && |s.value.taken| == m && s.value.indices == [] && s.value.physical == 0
  {
    if m > 0 {
      EmptyStructsAllTaken(n, m - 1);
      var s := Select(EmptyStructs(n), m - 1).value;
      assert EmptyStructs(n)[m - 1].type_ == Struct([]);
      assert Leaves(Struct([]), 0) == SumLeaves([], 1) == Some(0);
      assert Interval(0, 0) == [];
      assert Select(EmptyStructs(n), m) == Some(Take(s, m - 1, 0));
    }
  }

  /** Fields without columns escape the column count: twenty-five of them are planned and then refused. */
  lemma EmptyStructsRefused(size: int, footer: int, available: Text -> bool, spent: Spent)
    requires 4 <= footer <= size
    ensures var r := MakePlan(Metadata(0, []), EmptyStructs(MAX_COLUMNS + 1), footer, available);
            r.Ok? && Refusal(PlanMessage(r.value), size, footer, spent) == Some(Budget)
  {
    EmptyStructsPlanned(footer, available);
    var p := MakePlan(Metadata(0, []), EmptyStructs(MAX_COLUMNS + 1), footer, available).value;
    TooManyColumns(p, size, footer, spent);
  }

  lemma EmptyStructsPlanned(footer: int, available: Text -> bool)
    ensures var r := MakePlan(Metadata(0, []), EmptyStructs(MAX_COLUMNS + 1), footer, available);
            r.Ok? && ProperPlan(r.value, footer) && |r.value.columns| == MAX_COLUMNS + 1
  {
    EmptyStructsAllTaken(MAX_COLUMNS + 1, MAX_COLUMNS + 1);
    PlansAreProper(Metadata(0, []), EmptyStructs(MAX_COLUMNS + 1), footer, available);
  }

  lemma TooManyColumns(p: Plan, size: int, footer: int, spent: Spent)
    requires ProperPlan(p, footer) && |p.columns| > MAX_COLUMNS
    ensures Refusal(PlanMessage(p), size, footer, spent) == Some(Budget)
  {
    WellFormedPlan(p, footer);
    assert Get(PlanMessage(p), "phase") == Str(Ascii("plan"));
  }
}
