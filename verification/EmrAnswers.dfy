/** What each call on a run does, told from the records it finds, and where runs end. */
module EmrAnswers {
  import opened Wrappers
  import opened EmrRuns

  // ----------------------------------------------------------------- each call

  /** A run of its own, submitted now, with a walker that has not moved yet. */
  predicate Fresh(e: Emr, app: Text, token: Text, id: Id, f: Emr) {
    var k, now := (app, id), e.clock + 1;
    && k !in e.runs && k !in e.details && k !in e.walkers && id !in e.home
    && f.runs == e.runs[k := Summary(Submitted, now, now)]
    && f.details == e.details[k := Detail(Submitted, now, now, None)]
    && f.tokens == e.tokens[token := id] && f.walkers == e.walkers[k := 0] && f.home == e.home[id := app]
    && f.clock == now && f.next == e.next + 1 && f.apps == e.apps
  }

  /** A start is answered by the run its token already has, and else by a new one. */
  lemma StartMeaning(e: Emr, app: Text, token: Text, refused: bool)
    requires Inv(e)
    ensures var o := StartRun(e, app, token, refused);
            && (refused ==> o == Outcome(e, Err(Refused)))
            && (!refused && token in e.tokens ==> o == Outcome(e, Ok(e.tokens[token])))
            && (!refused && token !in e.tokens ==> o.result.Ok? && Fresh(e, app, token, o.result.value, o.emr))
  {
    assert Unused(e, RunId(e.next));
    assert (app, RunId(e.next)) in e.walkers ==> Started(e, (app, RunId(e.next)));
  }

  /** The records of k now have this state, some seconds later, and nothing else about any run has changed. */
  predicate Entered(e: Emr, k: Key, state: RunState, seconds: int, f: Emr)
    requires k in e.runs && k in e.details
  {
    var s, d := e.runs[k], e.details[k];
    && f.runs == e.runs[k := Summary(state, s.created, s.updated + seconds)]
    && f.details == e.details[k := Detail(state, d.created, s.updated + seconds,
        if state in {Success, Failed, Cancelled} then Some(1000 * (s.updated + seconds - d.created)) else d.duration)]
    && f.clock == (if e.clock < s.updated + seconds then s.updated + seconds else e.clock)
    && f.tokens == e.tokens && f.next == e.next && f.apps == e.apps && f.home == e.home
  }

  /** A cancellation ends every run under way, leaves ended ones alone, and refuses only what is not there. */
  lemma CancelMeaning(e: Emr, k: Key)
    requires k in e.runs ==> k in e.details
    ensures var o := CancelRun(e, k);
            && (o.result == Err(NotFound) <==> k.0 !in e.apps || k !in e.runs)
            && (o.result.Err? ==> o == Outcome(e, Err(NotFound)))
            && (o.result.Ok? && e.runs[k].state in {Success, Failed, Cancelled} ==> o.emr == e)
            && (o.result.Ok? && e.runs[k].state !in {Success, Failed, Cancelled} ==>
              Entered(e, k, Cancelled, 1, o.emr) && o.emr.walkers == e.walkers)
  {
  }

  /** A turn of a walker takes its run one state on, in one, one and three seconds, unless it was cancelled. */
  lemma WalkMeaning(e: Emr, k: Key)
    requires RunsInStep(e) && k in e.walkers
    ensures k in e.runs && k in e.details
    ensures var n := e.walkers[k];
            var state := if n == 0 then Scheduled else if n == 1 then Running else Success;
            var walkers := if n < 2 then e.walkers[k := n + 1] else e.walkers - {k};
            && (e.runs[k].state.Cancelled? ==> Walk(e, k) == e.(walkers := e.walkers - {k}))
            && (!e.runs[k].state.Cancelled? ==> Entered(e, k, state, if n < 2 then 1 else 3, Walk(e, k)))
            && (!e.runs[k].state.Cancelled? ==> Walk(e, k).walkers == walkers)
  {
    assert Started(e, k) && Consistent(e, k);
  }

  // -------------------------------------------------------------- ended for good

  predicate Ended(e: Emr, k: Key) {
    Started(e, k) && k in e.runs && k in e.details && Terminal(e.runs[k].state)
  }

  predicate SameRecords(e: Emr, f: Emr, k: Key)
    requires k in e.runs && k in e.details
  {
    k in f.runs && k in f.details && f.runs[k] == e.runs[k] && f.details[k] == e.details[k] && f.home == e.home
  }

  /** The walker of a run that has ended finds it cancelled, and other walkers have their own runs. */
  lemma EndedWalk(e: Emr, x: Key, k: Key)
    requires RunsInStep(e) && Ended(e, k)
    ensures SameRecords(e, Walk(e, x), k)
  {
    if x in e.walkers {
      WalkMeaning(e, x);
      assert Started(e, x) && Consistent(e, x);
    }
  }

  lemma EndedStart(e: Emr, app: Text, token: Text, refused: bool, k: Key)
    requires TokensOwn(e) && Ended(e, k)
    ensures var f := StartRun(e, app, token, refused).emr;
            Ended(f, k) && f.runs[k] == e.runs[k] && f.details[k] == e.details[k]
  {
    assert Unused(e, RunId(e.next));
  }

  lemma EndedStep(e: Emr, op: Op, f: Emr, k: Key)
    requires Inv(e) && Ended(e, k) && f == Next(e, op)
    ensures Ended(f, k) && f.runs[k] == e.runs[k] && f.details[k] == e.details[k]
  {
    match op
    case StartOp(app, token, refused) => EndedStart(e, app, token, refused, k);
    case WalkOp(x) => EndedWalk(e, x, k);
    case _ =>
  }

  lemma EndedOnce(states: seq<Emr>, ops: seq<Op>, n: nat, k: Key)
    requires IsRun(states, ops) && n < |ops| && Inv(states[n]) && Ended(states[n], k)
    ensures Ended(states[n + 1], k) && states[n + 1].runs[k] == states[n].runs[k]
    ensures states[n + 1].details[k] == states[n].details[k]
  {
    EndedStep(states[n], ops[n], states[n + 1], k);
  }

  /** Under every schedule the records of a run that has ended never change. */
  lemma {:induction false} EndedForGood(states: seq<Emr>, ops: seq<Op>, m: nat, n: nat, k: Key)
    requires IsRun(states, ops) && Inv(states[0]) && m <= n <= |ops| && Ended(states[m], k)
    ensures Ended(states[n], k) && states[n].runs[k] == states[m].runs[k]
    ensures states[n].details[k] == states[m].details[k]
  {
    if m < n {
      EndedForGood(states, ops, m, n - 1, k);
      RunInv(states, ops, n - 1);
      EndedOnce(states, ops, n - 1, k);
    }
  }

  lemma CancelEnds(e: Emr, k: Key, f: Emr)
    requires Inv(e) && Started(e, k) && k.0 in e.apps && k in e.runs && !Terminal(e.runs[k].state)
    requires f == Next(e, CancelOp(k))
    ensures Ended(f, k) && f.runs[k].state.Cancelled?
  {
    assert Consistent(e, k);
    CancelMeaning(e, k);
  }

  /** A run cancelled while under way reads CANCELLED ever after, whatever its walker does. */
  lemma CancelledForGood(states: seq<Emr>, ops: seq<Op>, m: nat, n: nat, k: Key)
    requires IsRun(states, ops) && Inv(states[0]) && m < n <= |ops| && ops[m] == CancelOp(k)
    requires var e := states[m]; Started(e, k) && k.0 in e.apps && k in e.runs && !Terminal(e.runs[k].state)
    ensures k in states[n].runs && k in states[n].details
    ensures states[n].runs[k].state.Cancelled? && states[n].details[k].state.Cancelled?
  {
    RunInv(states, ops, m);
    CancelEnds(states[m], k, states[m + 1]);
    EndedForGood(states, ops, m + 1, n, k);
    RecordsAgree(states, ops, k, n);
  }

  // ---------------------------------------------------------------- to its end

  /** Where a run is that its walker has taken j steps. */
  predicate AfterSteps(e: Emr, k: Key, j: nat) {
    && Started(e, k) && k in e.runs && j < |CHAIN| && e.runs[k].state == CHAIN[j]
    && (if j < 3 then k in e.walkers && e.walkers[k] == j else k !in e.walkers)
  }

  predicate Disturbs(op: Op, k: Key) {
    (op.CancelOp? || op.DropWalkerOp?) && op.key == k
  }

  /** The turns that the walker of k has had between m and n. */
  function Turns(ops: seq<Op>, k: Key, m: nat, n: nat): nat
    requires m <= n <= |ops|
  {
    if m == n then 0 else Turns(ops, k, m, n - 1) + if ops[n - 1] == WalkOp(k) then 1 else 0
  }

  function Stage(turns: nat): nat {
    if turns < 3 then turns else 3
  }

  lemma WalkSteps(e: Emr, k: Key, j: nat)
    requires Inv(e) && AfterSteps(e, k, j)
    ensures AfterSteps(Walk(e, k), k, Stage(j + 1))
  {
    if j < 3 { WalkMeaning(e, k); }
  }

  lemma OthersStay(e: Emr, op: Op, k: Key, j: nat)
    requires Inv(e) && AfterSteps(e, k, j) && !Disturbs(op, k) && op != WalkOp(k)
    ensures AfterSteps(Next(e, op), k, j)
  {
    if op.StartOp? { assert Unused(e, RunId(e.next)); }
  }

  lemma StepOn(e: Emr, op: Op, f: Emr, k: Key, turns: nat)
    requires Inv(e) && AfterSteps(e, k, Stage(turns)) && !Disturbs(op, k) && f == Next(e, op)
    ensures AfterSteps(f, k, Stage(if op == WalkOp(k) then turns + 1 else turns))
  {
    if op == WalkOp(k) { WalkSteps(e, k, Stage(turns)); } else { OthersStay(e, op, k, Stage(turns)); }
  }

  /**
   A run that nobody cancels and whose walker is not dropped is SUBMITTED, SCHEDULED,
   RUNNING and, from the third turn of its walker on, SUCCESS, whatever happens to others.
   */
  lemma {:induction false} UndisturbedRunSucceeds(states: seq<Emr>, ops: seq<Op>, m: nat, n: nat, k: Key)
    requires IsRun(states, ops) && Inv(states[0]) && m <= n <= |ops|
    requires forall i :: m <= i < n ==> !Disturbs(ops[i], k)
    requires AfterSteps(states[m], k, 0)
    ensures AfterSteps(states[n], k, Stage(Turns(ops, k, m, n)))
  {
    if m < n {
      UndisturbedRunSucceeds(states, ops, m, n - 1, k);
      RunInv(states, ops, n - 1);
      StepOn(states[n - 1], ops[n - 1], states[n], k, Turns(ops, k, m, n - 1));
    }
  }

  /** Every run begins there. */
  lemma StartedAtFirst(e: Emr, app: Text, token: Text)
    requires Inv(e) && token !in e.tokens
    ensures var o := StartRun(e, app, token, false); o.result.Ok? && AfterSteps(o.emr, (app, o.result.value), 0)
  {
    StartMeaning(e, app, token, false);
  }
}
