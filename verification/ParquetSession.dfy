/**
 The conversation of one preview.  The parent reads the file and answers; the
 child plans, receives and decodes.  Each sends into a pipe that holds a bounded
 number of frames, and either may fail at any moment.
 */
module ParquetSession {
  import opened Bytes
  import opened PreviewLimits
  import opened SparseFiles
  import opened ParquetPlan
  import A = ParquetAdmission

  const MAGIC: Bytes := [80, 65, 82, 49]

  datatype Msg =
    | Initial(size: int, footerOffset: int, footer: Bytes)
    | SegmentMsg(offset: int, data: Bytes)
    | DecodeMsg
    | PlanMsg
    | ResultMsg
    | ErrorMsg

  /** The child's checks on the first frame. */
  predicate Opens(m: Msg) {
    && m.Initial? && 12 <= m.size && |m.footer| <= MAX_FOOTER_BYTES + 8
    && 4 <= m.footerOffset <= m.size - 8 && m.footerOffset + |m.footer| == m.size
    && m.footer[|m.footer| - 4..] == MAGIC
  }

  /** The frames the parent means to send, the ranges the child expects, and the size of the pipes. */
  datatype Link = Link(script: seq<Msg>, asked: seq<Range>, capacity: nat)

  // What the child answers with.
  const REPLIES: seq<Msg> := [PlanMsg, ResultMsg]

  datatype Status = Running | Refusing | Over(ok: bool)

  /** Each side with the number of frames it has sent and taken, and the two pipes. */
  datatype State = State(
    parent: Status, sent: nat, read: nat,
    child: Status, taken: nat, written: nat, total: int, segments: seq<Segment>,
    down: seq<Msg>, up: seq<Msg>)

  const START: State := State(Running, 0, 0, Running, 0, 0, 0, [], [], [])

  datatype Event = ParentStep | ChildStep | ParentQuits | ChildCrashes

  predicate ParentSends(l: Link, s: State) {
    s.sent == 0 || (s.read == 1 && s.sent < |l.script|)
  }

  predicate ChildReceives(l: Link, s: State) {
    s.taken == 0 || (s.written == 1 && s.taken < |l.asked| + 2)
  }

  /** A send waits for room in the pipe and a receive for a frame; both notice that the other side is gone. */
  predicate Enabled(l: Link, s: State, e: Event) {
    match e
    case ParentQuits => s.parent.Running?
    case ChildCrashes => !s.child.Over?
    case ParentStep =>
      s.parent.Running? && (s.child.Over? || if ParentSends(l, s) then |s.down| < l.capacity else s.up != [])
    case ChildStep =>
      !s.child.Over? &&
      (s.parent.Over? || if s.child.Running? && ChildReceives(l, s) then s.down != [] else |s.up| < l.capacity)
  }

  predicate InRange(l: Link, s: State) {
    s.sent <= |l.script| && s.read <= 2 && s.written <= 2 && (s.sent == 0 ==> l.script != [])
  }

  function AfterParent(l: Link, s: State): State
    requires InRange(l, s) && Enabled(l, s, ParentStep)
  {
    if ParentSends(l, s) then
      if s.child.Over? then s.(parent := Over(false)) else s.(sent := s.sent + 1, down := s.down + [l.script[s.sent]])
    else if s.up == [] then s.(parent := Over(false))
    else
      var m, t := s.up[0], s.(up := s.up[1..]);
      if s.read == 2 || m != REPLIES[s.read] then t.(parent := Over(false))
      else if s.read == 0 then t.(read := 1) else t.(read := 2, parent := Over(true))
  }

  /** The child's checks on a frame, in the state it is in. */
  predicate Accepts(l: Link, s: State, m: Msg) {
    if s.taken == 0 then Opens(m)
    else if s.taken <= |l.asked| then
      && m.SegmentMsg? && m.offset == l.asked[s.taken - 1].offset
      && |m.data| <= MAX_RANGE_BYTES && |m.data| == l.asked[s.taken - 1].length && s.total + |m.data| <= MAX_BYTES
    else m.DecodeMsg?
  }

  function Absorb(s: State, m: Msg): State {
    match m
    case Initial(size, f, footer) => s.(taken := s.taken + 1, segments := [Segment(0, MAGIC), Segment(f, footer)])
    case SegmentMsg(o, data) => s.(taken := s.taken + 1, total := s.total + |data|,
      segments := s.segments + [Segment(o, data)])
    case _ => s.(taken := s.taken + 1)
  }

  function AfterChild(l: Link, s: State): State
    requires InRange(l, s) && Enabled(l, s, ChildStep)
  {
    if s.child.Running? && ChildReceives(l, s) then
      if s.down == [] then s.(child := Refusing)
      else
        var m, t := s.down[0], s.(down := s.down[1..]);
        if Accepts(l, s, m) then Absorb(t, m) else t.(child := Refusing)
    else if s.parent.Over? || s.written == 2 then s.(child := Over(false))
    else if s.child.Refusing? then s.(child := Over(false), up := s.up + [ErrorMsg])
    else s.(child := if s.written == 0 then Running else Over(true),
            written := s.written + 1, up := s.up + [REPLIES[s.written]])
  }

  function After(l: Link, s: State, e: Event): State
    requires InRange(l, s) && Enabled(l, s, e)
  {
    match e
    case ParentStep => AfterParent(l, s)
    case ChildStep => AfterChild(l, s)
    case ParentQuits => s.(parent := Over(false))
    case ChildCrashes => s.(child := Over(false))
  }

  // ------------------------------------------------------------- the invariant

  /** The segments the child holds once it has taken the first k frames. */
  function SegmentsAt(script: seq<Msg>, k: nat): seq<Segment>
    requires k <= |script|
  {
    if k == 0 then []
    else match script[k - 1]
      case Initial(size, f, footer) => [Segment(0, MAGIC), Segment(f, footer)]
      case SegmentMsg(o, data) => SegmentsAt(script, k - 1) + [Segment(o, data)]
      case _ => SegmentsAt(script, k - 1)
  }

  /** The bytes of the segments among the first k frames. */
  function TotalAt(script: seq<Msg>, k: nat): int
    requires k <= |script|
  {
    if k == 0 then 0 else TotalAt(script, k - 1) + if script[k - 1].SegmentMsg? then |script[k - 1].data| else 0
  }

  predicate Answers(m: Msg, r: Range) {
    m.SegmentMsg? && m.offset == r.offset && |m.data| == r.length <= MAX_RANGE_BYTES
  }

  /** The parent's frames are what the child expects. */
  ghost predicate Fits(l: Link) {
    && l.capacity >= 1 && |l.script| == |l.asked| + 2 && A.Total(l.asked) <= MAX_BYTES
    && Opens(l.script[0]) && l.script[|l.script| - 1].DecodeMsg?
    && (forall k :: 0 <= k < |l.asked| ==> Answers(l.script[k + 1], l.asked[k]))
  }

  /** Sends and receives pair up: each pipe holds just what lies between the two counts. */
  predicate Paired(l: Link, s: State) {
    && s.taken <= s.sent <= |l.script| && s.down == l.script[s.taken..s.sent]
    && s.read <= s.written <= 2 && (s.parent != Over(false) ==> s.up == REPLIES[s.read..s.written])
  }

  /** How far each side can be, given the other. */
  predicate InStep(l: Link, s: State) {
    && |l.script| == |l.asked| + 2 && l.capacity >= 1
    && (s.read == 0 ==> s.sent <= 1) && (s.sent == 0 ==> s.read == 0)
    && (s.written == 0 ==> s.taken <= 1) && (s.taken == 0 ==> s.written == 0)
    && (s.written == 2 ==> s.taken == |l.script| && s.child == Over(true))
    && (s.read == 2 ==> s.parent.Over?) && (s.parent == Over(true) ==> s.read == 2)
    && (s.child == Over(true) ==> s.written == 2)
    && !s.parent.Refusing? && (s.child.Refusing? ==> s.parent.Over?)
  }

  predicate Collected(l: Link, s: State) {
    s.taken <= |l.script| && s.segments == SegmentsAt(l.script, s.taken) && s.total == TotalAt(l.script, s.taken)
  }

  predicate Inv(l: Link, s: State) {
    Paired(l, s) && InStep(l, s) && Collected(l, s)
  }

  lemma {:induction false} TotalGrows(script: seq<Msg>, k: nat, n: nat)
    requires k <= n <= |script|
    ensures TotalAt(script, k) <= TotalAt(script, n)
  {
    if k < n { TotalGrows(script, k, n - 1); }
  }

  lemma {:induction false} TotalAsked(l: Link, k: nat)
    requires Fits(l) && 1 <= k <= |l.asked| + 1
    ensures TotalAt(l.script, k) == A.Total(l.asked[..k - 1])
  {
    if k == 1 {
      assert TotalAt(l.script, 0) == 0;
    } else {
      TotalAsked(l, k - 1);
      assert Answers(l.script[k - 2 + 1], l.asked[k - 2]);
      assert l.asked[..k - 1][..k - 2] == l.asked[..k - 2];
    }
  }

  /** Every frame the parent sends passes the checks the child makes when it takes it. */
  lemma ScriptAccepted(l: Link, s: State)
    requires Fits(l) && Collected(l, s) && s.taken < |l.script|
    ensures Accepts(l, s, l.script[s.taken])
  {
    var k := s.taken;
    if 1 <= k <= |l.asked| {
      assert Answers(l.script[k - 1 + 1], l.asked[k - 1]);
      TotalGrows(l.script, k + 1, |l.asked| + 1);
      TotalAsked(l, |l.asked| + 1);
      assert l.asked[..|l.asked|] == l.asked;
    }
  }

  lemma Received(l: Link, s: State)
    requires Fits(l) && Inv(l, s) && Enabled(l, s, ChildStep) && s.child.Running? && ChildReceives(l, s) && s.down != []
    ensures Inv(l, AfterChild(l, s))
  {
    ScriptAccepted(l, s);
    assert s.down[0] == l.script[s.taken];
    assert s.down[1..] == l.script[s.taken + 1..s.sent];
  }

  lemma ChildStepInv(l: Link, s: State)
    requires Fits(l) && Inv(l, s) && Enabled(l, s, ChildStep)
    ensures Inv(l, AfterChild(l, s))
  {
    if s.child.Running? && ChildReceives(l, s) && s.down != [] {
      Received(l, s);
    }
  }

  lemma ParentStepInv(l: Link, s: State)
    requires Fits(l) && Inv(l, s) && Enabled(l, s, ParentStep)
    ensures Inv(l, AfterParent(l, s))
  {
    if ParentSends(l, s) {
      if !s.child.Over? { assert l.script[s.taken..s.sent] + [l.script[s.sent]] == l.script[s.taken..s.sent + 1]; }
    } else if s.up != [] {
      assert s.up[0] == REPLIES[s.read] && s.up[1..] == REPLIES[s.read + 1..s.written];
    }
  }

  /** Every step, faults included, keeps the invariant. */
  lemma StepInv(l: Link, s: State, e: Event)
    requires Fits(l) && Inv(l, s) && Enabled(l, s, e)
    ensures Inv(l, After(l, s, e))
  {
    match e
    case ParentStep => ParentStepInv(l, s);
    case ChildStep => ChildStepInv(l, s);
    case ParentQuits =>
    case ChildCrashes =>
  }

  // ------------------------------------------------------- progress and ending

  /** Neither side waits forever: while one is not over, one of them can move. */
  lemma SomeoneCanMove(l: Link, s: State)
    requires Inv(l, s) && !(s.parent.Over? && s.child.Over?)
    ensures Enabled(l, s, ParentStep) || Enabled(l, s, ChildStep)
  {
    if s.parent.Running? && s.child.Running? {
      assert |s.down| == s.sent - s.taken && |s.up| == s.written - s.read;
    }
  }

  function Left(l: Link, s: State): int {
    (|l.script| - s.sent) + (|l.script| - s.taken) + (2 - s.read) + (2 - s.written)
    + (if s.parent.Over? then 0 else 1) + (if s.child.Over? then 0 else if s.child.Refusing? then 1 else 2)
  }

  lemma StepLeaves(l: Link, s: State, e: Event)
    requires Inv(l, s) && Enabled(l, s, e)
    ensures Left(l, After(l, s, e)) < Left(l, s)
  {
  }

  /** A run, as the states it goes through. */
  ghost predicate IsRun(l: Link, states: seq<State>, events: seq<Event>) {
    && |states| == |events| + 1 && states[0] == START
    && (forall i {:trigger events[i]} :: 0 <= i < |events| ==>
          InRange(l, states[i]) && Enabled(l, states[i], events[i]) && states[i + 1] == After(l, states[i], events[i]))
  }

  lemma StartInv(l: Link)
    requires Fits(l)
    ensures Inv(l, START) && Left(l, START) <= 2 * |l.asked| + 11
  {
  }

  lemma NextInv(l: Link, s: State, e: Event, t: State)
    requires Fits(l) && Inv(l, s) && Enabled(l, s, e) && t == After(l, s, e)
    ensures Inv(l, t) && Left(l, t) < Left(l, s)
  {
    StepInv(l, s, e);
    StepLeaves(l, s, e);
  }

  lemma {:induction false} RunHolds(l: Link, states: seq<State>, events: seq<Event>, n: nat)
    requires Fits(l) && IsRun(l, states, events) && n <= |events|
    ensures Inv(l, states[n])
  {
    if n == 0 {
      StartInv(l);
    } else {
      RunHolds(l, states, events, n - 1);
      NextInv(l, states[n - 1], events[n - 1], states[n]);
    }
  }

  lemma RunFalls(l: Link, states: seq<State>, events: seq<Event>, i: nat)
    requires Fits(l) && IsRun(l, states, events) && i < |events| && Inv(l, states[i])
    ensures Left(l, states[i + 1]) < Left(l, states[i])
  {
    NextInv(l, states[i], events[i], states[i + 1]);
  }

  lemma {:induction false} RunShort(l: Link, states: seq<State>, events: seq<Event>, n: nat)
    requires Fits(l) && IsRun(l, states, events) && n <= |events|
    ensures n + Left(l, states[n]) <= 2 * |l.asked| + 11
  {
    if n == 0 {
      StartInv(l);
    } else {
      RunShort(l, states, events, n - 1);
      RunHolds(l, states, events, n - 1);
      RunFalls(l, states, events, n - 1);
    }
  }

  /** The invariant holds throughout a run, and every run is short. */
  lemma RunInv(l: Link, states: seq<State>, events: seq<Event>, n: nat)
    requires Fits(l) && IsRun(l, states, events) && n <= |events|
    ensures Inv(l, states[n]) && n + Left(l, states[n]) <= 2 * |l.asked| + 11
  {
    RunHolds(l, states, events, n);
    RunShort(l, states, events, n);
  }

  predicate Faultless(events: seq<Event>) {
    forall i :: 0 <= i < |events| ==> events[i].ParentStep? || events[i].ChildStep?
  }

  predicate Healthy(s: State) {
    (s.parent.Running? || s.parent == Over(true)) && (s.child.Running? || s.child == Over(true))
  }

  lemma HealthyStep(l: Link, s: State, e: Event)
    requires Fits(l) && Inv(l, s) && Enabled(l, s, e) && Healthy(s) && (e.ParentStep? || e.ChildStep?)
    ensures Healthy(After(l, s, e))
  {
    if e.ChildStep? && s.down != [] {
      assert s.down[0] == l.script[s.taken];
      ScriptAccepted(l, s);
    }
  }

  lemma {:induction false} RunHealthy(l: Link, states: seq<State>, events: seq<Event>, n: nat)
    requires Fits(l) && IsRun(l, states, events) && Faultless(events) && n <= |events|
    ensures Healthy(states[n])
  {
    if n > 0 {
      RunHealthy(l, states, events, n - 1);
      RunInv(l, states, events, n - 1);
      HealthyStep(l, states[n - 1], events[n - 1]);
    }
  }

  /**
   A session that has come to rest is over on both sides; if nothing failed from
   outside, both ended well and the child had every frame of the script.
   */
  lemma SessionEnds(l: Link, states: seq<State>, events: seq<Event>)
    requires Fits(l) && IsRun(l, states, events)
    requires var s := states[|events|]; !Enabled(l, s, ParentStep) && !Enabled(l, s, ChildStep)
    ensures var s := states[|events|]; s.parent.Over? && s.child.Over?
    ensures var s := states[|events|];
            Faultless(events) ==>
              s.parent.ok && s.child.ok && s.segments == SegmentsAt(l.script, |l.script|) && s.down == [] && s.up == []
  {
    var n := |events|;
    RunInv(l, states, events, n);
    if !(states[n].parent.Over? && states[n].child.Over?) { SomeoneCanMove(l, states[n]); }
    if Faultless(events) { RunHealthy(l, states, events, n); }
  }

  lemma NextAccepted(l: Link, s: State)
    requires Fits(l) && Inv(l, s) && s.down != []
    ensures Accepts(l, s, s.down[0])
  {
    assert s.down[0] == l.script[s.taken];
    ScriptAccepted(l, s);
  }

  /** The child never refuses a frame: only losing the parent makes it give up. */
  lemma ChildNeverRefuses(l: Link, states: seq<State>, events: seq<Event>, n: nat)
    requires Fits(l) && IsRun(l, states, events) && n <= |events| && states[n].down != []
    ensures Accepts(l, states[n], states[n].down[0])
    ensures states[n].child.Refusing? ==> states[n].parent.Over?
  {
    RunInv(l, states, events, n);
    NextAccepted(l, states[n]);
  }

  // ------------------------------------------------------- any parent whatever

  /** The child takes these frames one after the other and refuses none. */
  predicate TakesAll(l: Link, s: State, frames: seq<Msg>)
    decreases |frames|
  {
    frames == [] || (Accepts(l, s, frames[0]) && TakesAll(l, Absorb(s, frames[0]), frames[1..]))
  }

  function AfterAll(s: State, frames: seq<Msg>): State
    decreases |frames|
  {
    if frames == [] then s else AfterAll(Absorb(s, frames[0]), frames[1..])
  }

  /** What the child holds is the planted magic, one footer, and data for the first ranges it asked for. */
  predicate HoldsAsked(l: Link, s: State) {
    var n := if s.taken == 0 then 0 else if s.taken <= |l.asked| then s.taken - 1 else |l.asked|;
    && |s.segments| == (if s.taken == 0 then 0 else n + 2)
    && (s.taken > 0 ==> s.segments[0] == Segment(0, MAGIC))
    && (forall k :: 0 <= k < n && n + 2 <= |s.segments| ==> Fills(s.segments[k + 2], l.asked[k]))
    && 0 <= s.total <= MAX_BYTES
  }

  predicate Fills(g: Segment, r: Range) {
    g.offset == r.offset && |g.data| == r.length <= MAX_RANGE_BYTES
  }

  lemma TakeOne(l: Link, s: State, m: Msg)
    requires HoldsAsked(l, s) && s.taken < |l.asked| + 2 && Accepts(l, s, m)
    ensures HoldsAsked(l, Absorb(s, m)) && Absorb(s, m).taken == s.taken + 1
  {
    var t := Absorb(s, m);
    if 1 <= s.taken <= |l.asked| {
      assert Fills(t.segments[s.taken + 1], l.asked[s.taken - 1]);
      assert forall k :: 0 <= k < |s.segments| ==> t.segments[k] == s.segments[k];
    }
  }

  /**
   Whatever frames a parent sends, a child that takes them all ends with data for
   exactly the ranges of its own plan, in their order, and no more than the byte limit.
   */
  lemma {:induction false} ChildHoldsWhatItAsked(l: Link, s: State, frames: seq<Msg>)
    requires HoldsAsked(l, s) && s.taken + |frames| <= |l.asked| + 2 && TakesAll(l, s, frames)
    ensures HoldsAsked(l, AfterAll(s, frames)) && AfterAll(s, frames).taken == s.taken + |frames|
    decreases |frames|
  {
    if frames != [] {
      TakeOne(l, s, frames[0]);
      ChildHoldsWhatItAsked(l, Absorb(s, frames[0]), frames[1..]);
    }
  }
}
