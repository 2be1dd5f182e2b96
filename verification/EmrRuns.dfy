/**
 The demo EMR client: starting runs under client tokens, the walkers that move
 them along, and cancellation, as functions on its dictionaries.  Times are whole
 seconds.  `home` records, for the statements only, where each started run is.
 */
module EmrRuns {
  import opened Wrappers
  import opened Bytes

  type Text = seq<int>
  type Id = Text
  type Key = (Text, Id)

  datatype RunState = Submitted | Scheduled | Running | Success | Failed | Cancelled

  const CHAIN: seq<RunState> := [Submitted, Scheduled, Running, Success]

  predicate Terminal(s: RunState) {
    s.Success? || s.Failed? || s.Cancelled?
  }

  datatype Summary = Summary(state: RunState, created: int, updated: int)

  datatype Detail = Detail(state: RunState, created: int, updated: int, duration: Option<int>)

  /** The client; `walkers` holds, for each walk still going, how many steps it has made. */
  datatype Emr = Emr(
    apps: set<Text>, runs: map<Key, Summary>, details: map<Key, Detail>, tokens: map<Text, Id>,
    clock: int, next: nat, walkers: map<Key, Steps>, home: map<Id, Text>)

  /** A walker ends with its third step. */
  type Steps = k: nat | k < 3

  datatype Error = NotFound | Refused

  datatype Outcome<+T> = Outcome(emr: Emr, result: Result<T, Error>)

  // "r-clone-"
  const CLONE: Text := [114, 45, 99, 108, 111, 110, 101, 45]

  function RunId(n: nat): Id {
    CLONE + Padded(n, 3)
  }

  lemma RunIdInjective(m: nat, n: nat)
    requires RunId(m) == RunId(n)
    ensures m == n
  {
    assert RunId(m)[|CLONE|..] == Padded(m, 3) && RunId(n)[|CLONE|..] == Padded(n, 3);
    PaddedInjective(m, n, 3);
  }

  // --------------------------------------------------------------- operations

  function Later(a: int, b: int): int {
    if a < b then b else a
  }

  function MoveSummary(s: Summary, state: RunState, at: int): Summary {
    s.(state := state, updated := at)
  }

  function MoveDetail(d: Detail, state: RunState, at: int): Detail {
    d.(state := state, updated := at, duration := if Terminal(state) then Some(1000 * (at - d.created)) else d.duration)
  }

  /** When a state change happens: after the run's own last update, whatever the clock says. */
  function ChangeTime(e: Emr, k: Key, seconds: int): int {
    seconds + if k in e.runs then e.runs[k].updated else if k in e.details then e.details[k].updated else e.clock
  }

  /** `_set_run_state`. */
  function SetState(e: Emr, k: Key, state: RunState, seconds: int): Emr {
    var at := ChangeTime(e, k, seconds);
    e.(clock := Later(e.clock, at),
       runs := if k in e.runs then e.runs[k := MoveSummary(e.runs[k], state, at)] else e.runs,
       details := if k in e.details then e.details[k := MoveDetail(e.details[k], state, at)] else e.details)
  }

  function CancelRun(e: Emr, k: Key): Outcome<()> {
    if k.0 !in e.apps || k !in e.runs then Outcome(e, Err(NotFound))
    else if Terminal(e.runs[k].state) then Outcome(e, Ok(()))
    else Outcome(SetState(e, k, Cancelled, 1), Ok(()))
  }

  /** The writes of a fresh start. */
  function Launch(e: Emr, app: Text, token: Text): Emr {
    var id, at := RunId(e.next), e.clock + 1;
    e.(next := e.next + 1, tokens := e.tokens[token := id], clock := at,
       runs := e.runs[(app, id) := Summary(Submitted, at, at)],
       details := e.details[(app, id) := Detail(Submitted, at, at, None)],
       walkers := e.walkers[(app, id) := 0], home := e.home[id := app])
  }

  /** `start_job_run` after its sleep; `refused` is the hook that makes it raise. */
  function StartRun(e: Emr, app: Text, token: Text, refused: bool): Outcome<Id> {
    if refused then Outcome(e, Err(Refused))
    else if token in e.tokens then Outcome(e, Ok(e.tokens[token]))
    else Outcome(Launch(e, app, token), Ok(RunId(e.next)))
  }

  const PAUSES: seq<int> := [1, 1, 3]

  /** One turn of the loop in `_advance_state`, after its sleep. */
  function Walk(e: Emr, k: Key): Emr {
    if k !in e.walkers then e
    else if k in e.runs && e.runs[k].state.Cancelled? then e.(walkers := e.walkers - {k})
    else
      var n := e.walkers[k];
      var f := SetState(e, k, CHAIN[n + 1], PAUSES[n]);
      f.(walkers := if n == 2 then e.walkers - {k} else e.walkers[k := n + 1])
  }

  // ---------------------------------------------------------------- invariant

  /** The seconds after its creation at which a run that made n steps was last updated. */
  const OFFSETS: seq<int> := [0, 1, 2, 5]

  /** A started run that made n steps, and was perhaps cancelled after them. */
  predicate Reached(s: Summary, d: Detail, n: nat) {
    && n < |CHAIN| && d.state == s.state && d.created == s.created && d.updated == s.updated
    && (if s.state.Cancelled? then n < 3 && s.updated == s.created + OFFSETS[n] + 1
        else s.state == CHAIN[n] && s.updated == s.created + OFFSETS[n])
    && d.duration == if Terminal(s.state) then Some(1000 * (s.updated - s.created)) else None
  }

  predicate Consistent(e: Emr, k: Key) {
    && k in e.runs && k in e.details
    && (exists n :: 0 <= n < 4 && Reached(e.runs[k], e.details[k], n))
    && (k in e.walkers ==> Reached(e.runs[k], e.details[k], e.walkers[k]))
  }

  predicate Started(e: Emr, k: Key) {
    k.1 in e.home && e.home[k.1] == k.0
  }

  /** Every started run is recorded twice, alike, and its walker is where the record says. */
  ghost predicate RunsInStep(e: Emr) {
    && (forall k :: Started(e, k) ==> Consistent(e, k))
    && (forall k :: k in e.walkers ==> Started(e, k))
  }

  /** No update lies ahead of the clock. */
  ghost predicate ClockAhead(e: Emr) {
    && (forall k :: k in e.runs ==> e.runs[k].updated <= e.clock)
    && (forall k :: k in e.details ==> e.details[k].updated <= e.clock)
  }

  ghost predicate Unused(e: Emr, id: Id) {
    id !in e.home && (forall a: Text :: (a, id) !in e.runs && (a, id) !in e.details)
  }

  /** Each token owns a started run of its own, and unused numbers name no run. */
  ghost predicate TokensOwn(e: Emr) {
    && (forall t :: t in e.tokens ==> e.tokens[t] in e.home)
    && (forall t, u :: t in e.tokens && u in e.tokens && e.tokens[t] == e.tokens[u] ==> t == u)
    && (forall n: nat :: n >= e.next ==> Unused(e, RunId(n)))
  }

  ghost predicate Inv(e: Emr) {
    RunsInStep(e) && ClockAhead(e) && TokensOwn(e)
  }

  // ----------------------------------------------------------- each operation

  lemma WalkRuns(e: Emr, k: Key)
    requires RunsInStep(e)
    ensures RunsInStep(Walk(e, k))
  {
    var f := Walk(e, k);
    if k in e.walkers {
      assert Started(e, k) && Consistent(e, k);
      forall x | Started(f, x) ensures Consistent(f, x) {
        assert Started(e, x) && Consistent(e, x);
        if x == k { WalkOne(e, k); }
      }
      assert forall x :: x in f.walkers ==> x in e.walkers;
    }
  }

  lemma WalkOne(e: Emr, k: Key)
    requires k in e.walkers && Consistent(e, k)
    ensures Consistent(Walk(e, k), k)
  {
    var s, d := e.runs[k], e.details[k];
    var n: nat := e.walkers[k];
    if !s.state.Cancelled? {
      var at := s.updated + PAUSES[n];
      assert Reached(MoveSummary(s, CHAIN[n + 1], at), MoveDetail(d, CHAIN[n + 1], at), n + 1);
    }
  }

  lemma CancelRuns(e: Emr, k: Key)
    requires RunsInStep(e)
    ensures RunsInStep(CancelRun(e, k).emr)
  {
    var f := CancelRun(e, k).emr;
    if f != e {
      forall x | Started(f, x) ensures Consistent(f, x) {
        assert Started(e, x) && Consistent(e, x);
        if x == k { CancelOne(e, k); }
      }
    }
  }

  lemma CancelOne(e: Emr, k: Key)
    requires Consistent(e, k) && !Terminal(e.runs[k].state)
    ensures Consistent(SetState(e, k, Cancelled, 1), k)
  {
    var s, d := e.runs[k], e.details[k];
    var n :| 0 <= n < 4 && Reached(s, d, n);
    assert Reached(SetState(e, k, Cancelled, 1).runs[k], SetState(e, k, Cancelled, 1).details[k], n);
  }

  lemma LaunchRuns(e: Emr, app: Text, token: Text)
    requires RunsInStep(e) && TokensOwn(e)
    ensures RunsInStep(Launch(e, app, token))
  {
    var f, k := Launch(e, app, token), (app, RunId(e.next));
    assert Unused(e, RunId(e.next));
    forall x | Started(f, x) ensures Consistent(f, x) {
      if x == k {
        assert Reached(f.runs[k], f.details[k], 0);
      } else {
        assert Started(e, x) && Consistent(e, x);
        var n :| 0 <= n < 4 && Reached(e.runs[x], e.details[x], n);
        assert Reached(f.runs[x], f.details[x], n);
      }
    }
  }

  lemma LaunchTokens(e: Emr, app: Text, token: Text)
    requires TokensOwn(e) && token !in e.tokens
    ensures TokensOwn(Launch(e, app, token))
  {
    var f := Launch(e, app, token);
    forall n: nat | n >= f.next ensures Unused(f, RunId(n)) {
      assert Unused(e, RunId(n));
      if RunId(n) == RunId(e.next) { RunIdInjective(n, e.next); }
    }
    assert Unused(e, RunId(e.next));
  }

  // ---------------------------------------------------------------------- runs

  datatype Op =
    | StartOp(app: Text, token: Text, refused: bool)
    | WalkOp(key: Key)
    | CancelOp(key: Key)
    | DropWalkerOp(key: Key)

  /** Any schedule of starts, walkers, cancellations and walkers cancelled by shutdown. */
  function Next(e: Emr, op: Op): Emr {
    match op
    case StartOp(app, token, refused) => StartRun(e, app, token, refused).emr
    case WalkOp(k) => Walk(e, k)
    case CancelOp(k) => CancelRun(e, k).emr
    case DropWalkerOp(k) => e.(walkers := e.walkers - {k})
  }

  lemma StartInv(e: Emr, app: Text, token: Text, refused: bool)
    requires Inv(e)
    ensures Inv(StartRun(e, app, token, refused).emr)
  {
    if token !in e.tokens {
      LaunchRuns(e, app, token);
      LaunchTokens(e, app, token);
    }
  }

  lemma WalkInv(e: Emr, k: Key)
    requires Inv(e)
    ensures Inv(Walk(e, k))
  {
    WalkRuns(e, k);
  }

  lemma CancelInv(e: Emr, k: Key)
    requires Inv(e)
    ensures Inv(CancelRun(e, k).emr)
  {
    CancelRuns(e, k);
  }

  lemma DropInv(e: Emr, k: Key)
    requires Inv(e)
    ensures Inv(e.(walkers := e.walkers - {k}))
  {
    var f := e.(walkers := e.walkers - {k});
    forall x | Started(f, x) ensures Consistent(f, x) {
      assert Started(e, x) && Consistent(e, x);
    }
    forall x | x in f.walkers ensures Started(f, x) {
      assert Started(e, x);
    }
  }

  lemma NextInv(e: Emr, op: Op)
    requires Inv(e)
    ensures Inv(Next(e, op))
  {
    match op
    case StartOp(app, token, refused) => StartInv(e, app, token, refused);
    case WalkOp(k) => WalkInv(e, k);
    case CancelOp(k) => CancelInv(e, k);
    case DropWalkerOp(k) => DropInv(e, k);
  }

  ghost predicate IsRun(states: seq<Emr>, ops: seq<Op>) {
    |states| == |ops| + 1 && forall i :: 0 <= i < |ops| ==> states[i + 1] == Next(states[i], ops[i])
  }

  /** Under every schedule the records agree, the clock is ahead and tokens own their runs. */
  lemma {:induction false} RunInv(states: seq<Emr>, ops: seq<Op>, n: nat)
    requires IsRun(states, ops) && Inv(states[0]) && n <= |ops|
    ensures Inv(states[n])
  {
    if n > 0 {
      RunInv(states, ops, n - 1);
      NextInv(states[n - 1], ops[n - 1]);
    }
  }

  // ------------------------------------------------------------- the state trace

  /** The states a run has been in, each once, oldest first. */
  function Trace(states: seq<Emr>, k: Key, n: nat): seq<RunState>
    requires n < |states|
  {
    var before := if n == 0 then [] else Trace(states, k, n - 1);
    if k in states[n].runs then Noted(before, states[n].runs[k].state) else before
  }

  /** A state is noted when it is new. */
  function Noted(trace: seq<RunState>, s: RunState): seq<RunState> {
    if trace != [] && trace[|trace| - 1] == s then trace else trace + [s]
  }

  /** A prefix of the chain, or one cut off before its end by a cancellation. */
  predicate Legal(trace: seq<RunState>) {
    exists n :: 0 <= n <= |CHAIN| && (trace == CHAIN[..n] || (1 <= n < |CHAIN| && trace == CHAIN[..n] + [Cancelled]))
  }

  /** The trace, and the last of it, of a run that made n steps. */
  predicate TraceAt(trace: seq<RunState>, s: Summary, n: nat) {
    n < |CHAIN| && trace == if s.state.Cancelled? then CHAIN[..n + 1] + [Cancelled] else CHAIN[..n + 1]
  }

  /** The record of k made n steps in e, and its trace says so. */
  predicate Follows(e: Emr, k: Key, trace: seq<RunState>, n: nat) {
    k in e.runs && k in e.details && Reached(e.runs[k], e.details[k], n) && TraceAt(trace, e.runs[k], n)
  }

  /** What one operation may do to a started run: nothing, one step, or a cancellation. */
  predicate Progress(s: Summary, t: Summary, n: nat, m: nat) {
    || (t.state == s.state && m == n)
    || (n < 3 && s.state == CHAIN[n] && m == n + 1 && t.state == CHAIN[n + 1])
    || (n < 3 && s.state == CHAIN[n] && m == n && t.state.Cancelled?)
  }

  lemma WalkProgress(e: Emr, k: Key, n: nat)
    requires k in e.walkers && Consistent(e, k) && Reached(e.runs[k], e.details[k], n)
    ensures k in Walk(e, k).runs && k in Walk(e, k).details
    ensures exists m ::
      Reached(Walk(e, k).runs[k], Walk(e, k).details[k], m) && Progress(e.runs[k], Walk(e, k).runs[k], n, m)
  {
    if !e.runs[k].state.Cancelled? {
      assert Reached(Walk(e, k).runs[k], Walk(e, k).details[k], n + 1);
    }
  }

  lemma CancelProgress(e: Emr, k: Key, n: nat)
    requires Consistent(e, k) && Reached(e.runs[k], e.details[k], n)
    ensures var f := CancelRun(e, k).emr;
            k in f.runs && k in f.details && Reached(f.runs[k], f.details[k], n) && Progress(e.runs[k], f.runs[k], n, n)
  {
  }

  lemma NextProgress(e: Emr, op: Op, k: Key, n: nat)
    requires Inv(e) && Started(e, k) && k in e.runs && k in e.details && Reached(e.runs[k], e.details[k], n)
    ensures var f := Next(e, op);
            k in f.runs && k in f.details
            && exists m :: Reached(f.runs[k], f.details[k], m) && Progress(e.runs[k], f.runs[k], n, m)
  {
    assert Consistent(e, k);
    if op.WalkOp? && op.key == k {
      if k in e.walkers { WalkProgress(e, k, n); } else { assert Progress(e.runs[k], e.runs[k], n, n); }
    } else if op.CancelOp? && op.key == k {
      CancelProgress(e, k, n);
    } else {
      assert Progress(e.runs[k], Next(e, op).runs[k], n, n);
    }
  }

  lemma TraceGrows(trace: seq<RunState>, s: Summary, t: Summary, d: Detail, d': Detail, n: nat, m: nat)
    requires TraceAt(trace, s, n) && Reached(s, d, n) && Reached(t, d', m) && Progress(s, t, n, m)
    ensures TraceAt(Noted(trace, t.state), t, m)
  {
    assert n == 0 || n == 1 || n == 2 || n == 3;
  }

  lemma FollowsOn(e: Emr, op: Op, k: Key, trace: seq<RunState>, n: nat) returns (m: nat)
    requires Inv(e) && Started(e, k) && Follows(e, k, trace, n)
    ensures k in Next(e, op).runs && Follows(Next(e, op), k, Noted(trace, Next(e, op).runs[k].state), m)
  {
    var f := Next(e, op);
    NextProgress(e, op, k, n);
    m :| Reached(f.runs[k], f.details[k], m) && Progress(e.runs[k], f.runs[k], n, m);
    TraceGrows(trace, e.runs[k], f.runs[k], e.details[k], f.details[k], n, m);
  }

  lemma FollowsFirst(e: Emr, k: Key) returns (m: nat)
    requires Consistent(e, k) && e.runs[k].state.Submitted?
    ensures Follows(e, k, Noted([], e.runs[k].state), m)
  {
    m :| 0 <= m < 4 && Reached(e.runs[k], e.details[k], m);
    assert m == 0 || m == 1 || m == 2 || m == 3;
  }

  /** A run that is there was started here, and its trace leads to where it is. */
  ghost predicate Traced(e: Emr, k: Key, trace: seq<RunState>) {
    if k in e.runs then Started(e, k) && exists m :: Follows(e, k, trace, m) else trace == []
  }

  lemma TracedOn(e: Emr, op: Op, k: Key, trace: seq<RunState>)
    requires Inv(e) && Inv(Next(e, op)) && Traced(e, k, trace)
    ensures var f := Next(e, op); Traced(f, k, if k in f.runs then Noted(trace, f.runs[k].state) else trace)
  {
    if k in e.runs {
      var x :| Follows(e, k, trace, x);
      var m := FollowsOn(e, op, k, trace, x);
    } else if k in Next(e, op).runs {
      assert Consistent(Next(e, op), k);
      var m := FollowsFirst(Next(e, op), k);
    }
  }

  lemma {:induction false} TraceFollows(states: seq<Emr>, ops: seq<Op>, k: Key, n: nat)
    requires IsRun(states, ops) && Inv(states[0]) && k !in states[0].runs && n <= |ops|
    ensures Traced(states[n], k, Trace(states, k, n))
  {
    if n > 0 {
      TraceFollows(states, ops, k, n - 1);
      RunInv(states, ops, n - 1);
      RunInv(states, ops, n);
      TracedOn(states[n - 1], ops[n - 1], k, Trace(states, k, n - 1));
    }
  }

  /**
   Under every schedule a started run goes through a prefix of SUBMITTED, SCHEDULED,
   RUNNING, SUCCESS, possibly cut off by a final CANCELLED.
   */
  lemma TraceIsLegal(states: seq<Emr>, ops: seq<Op>, k: Key, n: nat)
    requires IsRun(states, ops) && Inv(states[0]) && k !in states[0].runs && n <= |ops|
    ensures Legal(Trace(states, k, n))
  {
    TraceFollows(states, ops, k, n);
    var trace := Trace(states, k, n);
    if k in states[n].runs {
      var m :| Follows(states[n], k, trace, m);
      assert trace == CHAIN[..m + 1] + if states[n].runs[k].state.Cancelled? then [Cancelled] else [];
    } else {
      assert trace == CHAIN[..0];
    }
  }

  /** Whenever it is looked at, a started run reads the same in both records, and a success took five seconds. */
  lemma RecordsAgree(states: seq<Emr>, ops: seq<Op>, k: Key, n: nat)
    requires IsRun(states, ops) && Inv(states[0]) && n <= |ops| && Started(states[n], k)
    ensures var e := states[n];
            && k in e.runs && k in e.details
            && e.details[k].state == e.runs[k].state && e.details[k].updated == e.runs[k].updated <= e.clock
            && (e.details[k].duration.Some? <==> Terminal(e.runs[k].state))
            && (e.runs[k].state.Success? ==> e.details[k].duration == Some(5000))
            && (e.runs[k].state.Cancelled? ==> e.details[k].duration in {Some(1000), Some(2000), Some(3000)})
  {
    RunInv(states, ops, n);
    assert Consistent(states[n], k);
    var m :| 0 <= m < 4 && Reached(states[n].runs[k], states[n].details[k], m);
    assert m == 0 || m == 1 || m == 2 || m == 3;
  }

  // -------------------------------------------------------------------- tokens

  lemma {:induction false} TokensLast(states: seq<Emr>, ops: seq<Op>, m: nat, n: nat, token: Text)
    requires IsRun(states, ops) && m <= n <= |ops| && token in states[m].tokens
    ensures token in states[n].tokens && states[n].tokens[token] == states[m].tokens[token]
  {
    if m < n { TokensLast(states, ops, m, n - 1, token); }
  }

  /**
   A token used again, any time later and for any application, names the run it
   started: no second run and no second walker come of it.
   */
  lemma TokenOwnsOneRun(states: seq<Emr>, ops: seq<Op>, m: nat, n: nat, app: Text, app': Text, token: Text)
    requires IsRun(states, ops) && Inv(states[0]) && m < n <= |ops|
    requires ops[m] == StartOp(app, token, false)
    ensures var id := StartRun(states[m], app, token, false).result.value;
            && StartRun(states[n], app', token, false) == Outcome(states[n], Ok(id))
            && (forall other :: other in states[n].tokens && states[n].tokens[other] == id ==> other == token)
            && (forall k, l :: k in states[n].walkers && l in states[n].walkers && k.1 == id && l.1 == id ==> k == l)
  {
    TokensLast(states, ops, m + 1, n, token);
    RunInv(states, ops, n);
    var id := states[n].tokens[token];
    forall k, l | k in states[n].walkers && l in states[n].walkers && k.1 == id && l.1 == id ensures k == l {
      assert Started(states[n], k) && Started(states[n], l);
    }
  }
}
