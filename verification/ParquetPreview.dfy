/** `preview_parquet` as a whole: what the child can read when the session has gone well. */
module ParquetPreview {
  import opened Wrappers
  import opened Bytes
  import opened PreviewLimits
  import opened SparseFiles
  import opened ParquetPlan
  import opened ParquetSession
  import A = ParquetAdmission

  function LittleEndian(b: Bytes): (n: int)
    ensures n >= 0
  {
    if b == [] then 0 else b[0] + 256 * LittleEndian(b[1..])
  }

  // "PARE"
  const ENCRYPTED: Bytes := [80, 65, 82, 69]

  function Lead(raw: Bytes): Bytes {
    raw[..if |raw| < 4 then |raw| else 4]
  }

  /** What `load_preview` reads first, and when it calls `preview_parquet` with it. */
  predicate Dispatched(raw: Bytes, file: Bytes) {
    raw == file[..if |file| < RAW_PREVIEW_BYTES then |file| else RAW_PREVIEW_BYTES]
    && (Lead(raw) == MAGIC || Lead(raw) == ENCRYPTED)
  }

  /** Where the parent finds the footer; None if it does not take the file for readable Parquet. */
  function FooterOffset(file: Bytes, raw: Bytes): (r: Option<int>)
    ensures r.Some? ==> 4 <= r.value < |file| - 8
  {
    if Lead(raw) == ENCRYPTED || |file| < 12 then None
    else
      var tail := file[|file| - 8..];
      if tail[4..] != MAGIC then None
      else
        var length := LittleEndian(tail[..4]);
        if !(0 < length <= MAX_FOOTER_BYTES) || length + 12 > |file| then None else Some(|file| - 8 - length)
  }

  /** A length as Parquet writes it, the lowest byte first. */
  function SizeBytes(n: nat, k: nat): (r: Bytes)
    requires n < Radix(k)
    ensures |r| == k
  {
    if k == 0 then [] else [n % 256] + SizeBytes(n / 256, k - 1)
  }

  lemma {:induction false} SizeRead(n: nat, k: nat)
    requires n < Radix(k)
    ensures LittleEndian(SizeBytes(n, k)) == n
  {
    if k > 0 {
      SizeRead(n / 256, k - 1);
      assert SizeBytes(n, k)[1..] == SizeBytes(n / 256, k - 1);
    }
  }

  lemma {:induction false} SizeWritten(b: Bytes)
    ensures LittleEndian(b) < Radix(|b|) && SizeBytes(LittleEndian(b), |b|) == b
  {
    if b != [] {
      SizeWritten(b[1..]);
      LastDigit(b[0], LittleEndian(b[1..]));
      assert b == [b[0]] + b[1..];
    }
  }

  lemma LastDigit(d: Byte, n: nat)
    ensures (d + 256 * n) % 256 == d && (d + 256 * n) / 256 == n
  {
  }

  /** The footer of a file that ends as Parquet files do is found where it begins, if it is one to be read. */
  lemma FooterFound(body: Bytes, footer: Bytes, raw: Bytes)
    requires |footer| < Radix(4)
    ensures FooterOffset(body + footer + SizeBytes(|footer|, 4) + MAGIC, raw) ==
      if Lead(raw) != ENCRYPTED && |body| >= 4 && 0 < |footer| <= MAX_FOOTER_BYTES then Some(|body|) else None
  {
    var size := SizeBytes(|footer|, 4);
    var file := body + footer + size + MAGIC;
    FileEnd(body + footer, size);
    SizeRead(|footer|, 4);
    FooterAt(file, raw, |footer|);
  }

  lemma FileEnd(front: Bytes, size: Bytes)
    requires |size| == 4
    ensures var file := front + size + MAGIC; file[|file| - 8..][4..] == MAGIC && file[|file| - 8..][..4] == size
  {
  }

  lemma FooterAt(file: Bytes, raw: Bytes, length: nat)
    requires |file| >= 8 && file[|file| - 8..][4..] == MAGIC && LittleEndian(file[|file| - 8..][..4]) == length
    ensures FooterOffset(file, raw) ==
      if Lead(raw) != ENCRYPTED && |file| >= length + 12 && 0 < length <= MAX_FOOTER_BYTES
      then Some(|file| - 8 - length) else None
  {
  }

  /** And no other file has one. */
  lemma FooterIsWhole(file: Bytes, raw: Bytes)
    requires FooterOffset(file, raw).Some?
    ensures var f := FooterOffset(file, raw).value;
            var body, footer := file[..f], file[f..|file| - 8];
            |footer| < Radix(4) && file == body + footer + SizeBytes(|footer|, 4) + MAGIC
  {
    var f, tail := FooterOffset(file, raw).value, file[|file| - 8..];
    SizeWritten(tail[..4]);
    assert tail == tail[..4] + tail[4..];
    assert file == file[..f] + file[f..|file| - 8] + tail;
  }

  function Opening(file: Bytes, f: int): Msg
    requires 0 <= f <= |file|
  {
    Initial(|file|, f, file[f..])
  }

  /** What the parent takes for a footer passes the child's checks. */
  lemma OpeningAgrees(file: Bytes, raw: Bytes)
    requires FooterOffset(file, raw).Some?
    ensures Opens(Opening(file, FooterOffset(file, raw).value))
  {
    var f := FooterOffset(file, raw).value;
    var footer, tail := file[f..], file[|file| - 8..];
    assert footer[|footer| - 4..] == tail[4..];
  }

  /** A file and its first bytes, the plan a correct child makes of it, what was spent before, and the pipes. */
  datatype Setting = Setting(file: Bytes, raw: Bytes, footer: int, plan: Plan, spent: A.Spent, capacity: nat)

  /** The parent was given a Parquet file, took it for one and admits the plan. */
  ghost predicate Proper(c: Setting) {
    && Dispatched(c.raw, c.file) && FooterOffset(c.file, c.raw) == Some(c.footer) && c.capacity >= 1
    && A.ProperPlan(c.plan, c.footer)
    && A.Refusal(A.PlanMessage(c.plan), |c.file|, c.footer, c.spent).None?
  }

  predicate InFile(ranges: seq<Range>, file: Bytes) {
    forall k :: 0 <= k < |ranges| ==>
      0 <= ranges[k].offset && 1 <= ranges[k].length <= MAX_RANGE_BYTES && ranges[k].offset + ranges[k].length <= |file|
  }

  /** The parent's ranges come from the message it got, the child's from its own plan: they are the same. */
  lemma SessionAgreement(c: Setting)
    requires Proper(c)
    ensures var granted := A.Admitted(A.PlanMessage(c.plan)).ranges;
            granted == A.SplitAll(c.plan.chunks) && InFile(granted, c.file) && A.Total(granted) <= MAX_BYTES
  {
    A.PlannerSoundness(c.plan, |c.file|, c.footer, c.spent);
    A.AdmittedIsSafe(A.PlanMessage(c.plan), |c.file|, c.footer, c.spent);
  }

  function Slices(file: Bytes, ranges: seq<Range>): (r: seq<Msg>)
    requires InFile(ranges, file)
    ensures |r| == |ranges|
    ensures forall k :: 0 <= k < |r| ==>
      Answers(r[k], ranges[k]) && r[k].data == file[ranges[k].offset..ranges[k].offset + ranges[k].length]
  {
    seq(|ranges|, k requires 0 <= k < |ranges| =>
      SegmentMsg(ranges[k].offset, file[ranges[k].offset..ranges[k].offset + ranges[k].length]))
  }

  function Script(file: Bytes, f: int, ranges: seq<Range>): (r: seq<Msg>)
    requires 0 <= f <= |file| && InFile(ranges, file)
    ensures |r| == |ranges| + 2
  {
    [Opening(file, f)] + Slices(file, ranges) + [DecodeMsg]
  }

  function LinkOf(c: Setting): Link
    requires Proper(c)
  {
    SessionAgreement(c);
    Link(Script(c.file, c.footer, A.Admitted(A.PlanMessage(c.plan)).ranges), A.SplitAll(c.plan.chunks), c.capacity)
  }

  /** So the parent's frames are what the child expects, and all that is known of a session holds. */
  lemma LinkFits(c: Setting)
    requires Proper(c)
    ensures Fits(LinkOf(c))
  {
    SessionAgreement(c);
    OpeningAgrees(c.file, c.raw);
  }

  // -------------------------------------------------------- what the child sees

  /** The child's segments are the file's own bytes exactly if the file starts with the magic it plants unread. */
  lemma {:induction false} SegmentsTruthful(file: Bytes, f: int, ranges: seq<Range>, k: nat)
    requires 4 <= f <= |file| && InFile(ranges, file) && 1 <= k <= |ranges| + 2
    ensures Truthful(SegmentsAt(Script(file, f, ranges), k), file) <==> file[..4] == MAGIC
  {
    var script := Script(file, f, ranges);
    if k == 1 {
      FirstSegments(file, f);
      assert script[0] == Opening(file, f);
    } else {
      SegmentsTruthful(file, f, ranges, k - 1);
      if k <= |ranges| + 1 {
        var m := script[k - 1];
        assert m == Slices(file, ranges)[k - 2] && Answers(m, ranges[k - 2]);
        OneMore(SegmentsAt(script, k - 1), Segment(m.offset, m.data), file);
      }
    }
  }

  lemma FirstSegments(file: Bytes, f: int)
    requires 4 <= f <= |file|
    ensures Truthful([Segment(0, MAGIC), Segment(f, file[f..])], file) <==> file[..4] == MAGIC
  {
    var g := [Segment(0, MAGIC), Segment(f, file[f..])];
    assert TrueTo(g[1], file) by { assert file[f..f + |g[1].data|] == file[f..]; }
    assert TrueTo(g[0], file) <==> file[..4] == MAGIC;
  }

  lemma OneMore(g: seq<Segment>, last: Segment, file: Bytes)
    requires TrueTo(last, file)
    ensures Truthful(g + [last], file) <==> Truthful(g, file)
  {
    if Truthful(g + [last], file) {
      forall i | 0 <= i < |g| ensures TrueTo(g[i], file) { assert TrueTo((g + [last])[i], file); }
    }
  }

  /** The ranges that have arrived, and the two ends of the file, can be read. */
  predicate Reachable(file: Bytes, f: int, ranges: seq<Range>, k: nat, i: int) {
    0 <= i < 4 || f <= i < |file| || exists j :: 0 <= j < |ranges| && j + 1 < k && Within(ranges[j], i)
  }

  predicate Within(r: Range, i: int) {
    r.offset <= i < r.offset + r.length
  }

  lemma {:induction false} SegmentsKnow(file: Bytes, f: int, ranges: seq<Range>, k: nat, i: int)
    requires 4 <= f <= |file| && InFile(ranges, file) && 1 <= k <= |ranges| + 2 && Reachable(file, f, ranges, k, i)
    ensures Known(SegmentsAt(Script(file, f, ranges), k), i)
  {
    var script := Script(file, f, ranges);
    var g := SegmentsAt(script, k);
    if k == 1 {
      assert script[0] == Opening(file, f);
      assert Holds(g[0], i) || Holds(g[1], i);
    } else if 2 <= k <= |ranges| + 1 && Within(ranges[k - 2], i) {
      assert script[k - 1] == Slices(file, ranges)[k - 2] && Answers(script[k - 1], ranges[k - 2]);
      assert Holds(g[|g| - 1], i);
    } else {
      SegmentsKnow(file, f, ranges, k - 1, i);
      StillKnown(script, k, i);
    }
  }

  lemma StillKnown(script: seq<Msg>, k: nat, i: int)
    requires 1 <= k <= |script| && !script[k - 1].Initial? && Known(SegmentsAt(script, k - 1), i)
    ensures Known(SegmentsAt(script, k), i)
  {
    var g, h := SegmentsAt(script, k - 1), SegmentsAt(script, k);
    var x :| 0 <= x < |g| && Holds(g[x], i);
    assert h[x] == g[x];
  }

  lemma RangesKnown(file: Bytes, f: int, ranges: seq<Range>, lo: int, hi: int)
    requires 4 <= f <= |file| && InFile(ranges, file) && forall i :: lo <= i < hi ==> A.Covers(ranges, i)
    ensures Covered(SegmentsAt(Script(file, f, ranges), |ranges| + 2), lo, hi)
  {
    var g := SegmentsAt(Script(file, f, ranges), |ranges| + 2);
    forall i | lo <= i < hi ensures Known(g, i) {
      assert A.Covers(ranges, i);
      var j :| 0 <= j < |ranges| && ranges[j].offset <= i < ranges[j].offset + ranges[j].length;
      assert Within(ranges[j], i);
      SegmentsKnow(file, f, ranges, |ranges| + 2, i);
    }
  }

  lemma EndsKnown(file: Bytes, f: int, ranges: seq<Range>)
    requires 4 <= f <= |file| && InFile(ranges, file)
    ensures var g := SegmentsAt(Script(file, f, ranges), |ranges| + 2); Covered(g, 0, 4) && Covered(g, f, |file|)
  {
    var g := SegmentsAt(Script(file, f, ranges), |ranges| + 2);
    forall i | 0 <= i < 4 || f <= i < |file| ensures Known(g, i) {
      SegmentsKnow(file, f, ranges, |ranges| + 2, i);
    }
  }

  lemma ChunkCovered(chunks: seq<Range>, chunk: Range)
    requires chunk in chunks && forall k :: 0 <= k < |chunks| ==> chunks[k].length >= 0
    ensures forall i :: chunk.offset <= i < chunk.offset + chunk.length ==> A.Covers(A.SplitAll(chunks), i)
  {
    A.SplitAllMeaning(chunks);
    var k :| 0 <= k < |chunks| && chunks[k] == chunk;
    assert forall i :: chunk.offset <= i < chunk.offset + chunk.length ==> A.Covers(chunks, i);
  }

  lemma LinkScript(c: Setting)
    requires Proper(c)
    ensures var ranges := A.SplitAll(c.plan.chunks);
            4 <= c.footer <= |c.file| && InFile(ranges, c.file) && LinkOf(c).script == Script(c.file, c.footer, ranges)
    ensures forall k :: 0 <= k < |c.plan.chunks| ==> c.plan.chunks[k].length >= 0
  {
    SessionAgreement(c);
    assert forall k :: 0 <= k < |c.plan.chunks| ==> WithinFile(c.plan.chunks[k], c.footer);
  }

  /** At the end the leading magic, the footer and every planned chunk can be read. */
  lemma PlannedIsCovered(c: Setting, chunk: Range, g: seq<Segment>)
    requires Proper(c) && chunk in c.plan.chunks && g == SegmentsAt(LinkOf(c).script, |LinkOf(c).script|)
    ensures Covered(g, 0, 4) && Covered(g, c.footer, |c.file|) && Covered(g, chunk.offset, chunk.offset + chunk.length)
  {
    LinkScript(c);
    AllCovered(c.file, c.footer, c.plan.chunks, chunk);
  }

  lemma AllCovered(file: Bytes, f: int, chunks: seq<Range>, chunk: Range)
    requires 4 <= f <= |file| && InFile(A.SplitAll(chunks), file) && chunk in chunks
    requires forall k :: 0 <= k < |chunks| ==> chunks[k].length >= 0
    ensures var g := SegmentsAt(Script(file, f, A.SplitAll(chunks)), |A.SplitAll(chunks)| + 2);
            Covered(g, 0, 4) && Covered(g, f, |file|) && Covered(g, chunk.offset, chunk.offset + chunk.length)
  {
    EndsKnown(file, f, A.SplitAll(chunks));
    ChunkCovered(chunks, chunk);
    RangesKnown(file, f, A.SplitAll(chunks), chunk.offset, chunk.offset + chunk.length);
  }

  /** The dispatch secures the magic that the child plants without reading it. */
  lemma StartsWithMagic(c: Setting)
    requires Proper(c)
    ensures |c.file| >= 4 && c.file[..4] == MAGIC
  {
    assert |MAGIC| == 4;
    assert c.raw[..4] == c.file[..4];
  }

  /**
   So the child's sparse file is the file: whatever it reads inside a planned chunk,
   the footer or the magic is right.
   */
  lemma SparseFileIsTrue(c: Setting, g: seq<Segment>)
    requires Proper(c) && g == SegmentsAt(LinkOf(c).script, |LinkOf(c).script|)
    ensures Truthful(g, c.file)
  {
    LinkScript(c);
    StartsWithMagic(c);
    var ranges := A.SplitAll(c.plan.chunks);
    SegmentsTruthful(c.file, c.footer, ranges, |ranges| + 2);
  }
}
