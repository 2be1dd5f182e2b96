/**
 Preparing a saved workspace off-screen: every candidate view model that is built
 must end with the caller, or be shut down and disposed.  Whatever is awaited may
 return, fail or be cancelled, and the caller may be cancelled again and again;
 all of that is left open here.
 */
module WorkspaceRestore {
  import opened Wrappers

  type Candidate = nat

  datatype Call = Shutdown(c: Candidate) | Dispose(c: Candidate)

  datatype Failure = Invalid | Failed | Cancelled

  /** The calls that retire the candidates, one after the other. */
  function Retirement(cs: seq<Candidate>): seq<Call> {
    if cs == [] then [] else Retirement(cs[..|cs| - 1]) + [Shutdown(cs[|cs| - 1]), Dispose(cs[|cs| - 1])]
  }

  /** The candidate was shut down, and disposed of next. */
  predicate Retired(log: seq<Call>, c: Candidate) {
    exists i :: 0 <= i < |log| - 1 && log[i] == Shutdown(c) && log[i + 1] == Dispose(c)
  }

  predicate Untouched(log: seq<Call>, c: Candidate) {
    Shutdown(c) !in log && Dispose(c) !in log
  }

  lemma {:induction false} RetirementRetires(cs: seq<Candidate>, c: Candidate)
    ensures c in cs ==> Retired(Retirement(cs), c)
    ensures c !in cs ==> Untouched(Retirement(cs), c)
  {
    if cs != [] {
      var init, last := cs[..|cs| - 1], cs[|cs| - 1];
      RetirementRetires(init, c);
      assert cs == init + [last];
      var log := Retirement(init);
      if c == last {
        assert Retirement(cs)[|log|] == Shutdown(c) && Retirement(cs)[|log| + 1] == Dispose(c);
      } else if c in init {
        StillRetired(log, [Shutdown(last), Dispose(last)], c);
      }
    }
  }

  lemma StillRetired(a: seq<Call>, b: seq<Call>, c: Candidate)
    ensures Retired(a, c) ==> Retired(a + b, c)
    ensures Retired(b, c) ==> Retired(a + b, c)
  {
    if i :| 0 <= i < |a| - 1 && a[i] == Shutdown(c) && a[i + 1] == Dispose(c) {
      assert (a + b)[i] == Shutdown(c) && (a + b)[i + 1] == Dispose(c);
    }
    if i :| 0 <= i < |b| - 1 && b[i] == Shutdown(c) && b[i + 1] == Dispose(c) {
      assert (a + b)[|a| + i] == Shutdown(c) && (a + b)[|a| + i + 1] == Dispose(c);
    }
  }

  // ------------------------------------------------------------ the workspace

  datatype Scope = Scope(service: string, connection: Option<string>, region: Option<string>)

  datatype Workspace = Workspace(active: Scope, scopes: seq<Scope>, filePanes: bool)

  predicate IsNavigable(service: string) {
    service == "athena" || service == "glue" || service == "emr-serverless"
  }

  /** How many of the first n scopes are the active one. */
  function Matches(w: Workspace, n: nat): nat
    requires n <= |w.scopes|
  {
    if n == 0 then 0 else Matches(w, n - 1) + if w.scopes[n - 1] == w.active then 1 else 0
  }

  /** What the checks before any building ask of the scopes. */
  predicate Navigable(w: Workspace) {
    forall i :: 0 <= i < |w.scopes| ==> IsNavigable(w.scopes[i].service)
  }

  lemma {:induction false} FileBrowserMatchesNoScope(w: Workspace, n: nat)
    requires n <= |w.scopes| && Navigable(w) && w.active.service == "s3"
    ensures Matches(w, n) == 0
  {
    if n > 0 { FileBrowserMatchesNoScope(w, n - 1); }
  }

  // What `Workspace` checks when it is constructed.

  predicate DistinctScopes(w: Workspace) {
    forall i, j :: 0 <= i < j < |w.scopes| ==> w.scopes[i] != w.scopes[j]
  }

  /** No scope twice and none of the file browser; the active one is among them, or the file panes are. */
  predicate Accepted(w: Workspace) {
    DistinctScopes(w) && Navigable(w) && if w.active.service == "s3" then w.filePanes else w.active in w.scopes
  }

  lemma {:induction false} ActiveOccurs(w: Workspace, n: nat)
    requires n <= |w.scopes| && DistinctScopes(w)
    ensures Matches(w, n) == if w.active in w.scopes[..n] then 1 else 0
  {
    if n > 0 {
      ActiveOccurs(w, n - 1);
      assert w.scopes[..n] == w.scopes[..n - 1] + [w.scopes[n - 1]];
    }
  }

  /** So an accepted workspace keeps exactly one candidate. */
  lemma ActiveIsUnique(w: Workspace)
    requires Accepted(w)
    ensures Matches(w, |w.scopes|) <= 1 && Wanted(w, Turns(w)) == 1
  {
    ActiveOccurs(w, |w.scopes|);
    assert w.scopes[..|w.scopes|] == w.scopes;
    if w.active.service == "s3" { FileBrowserMatchesNoScope(w, |w.scopes|); }
  }

  /** One turn for each scope, and one for the file panes. */
  function Turns(w: Workspace): nat {
    |w.scopes| + if w.filePanes then 1 else 0
  }

  /** The candidate of this turn is the active one. */
  predicate Keeps(w: Workspace, turn: nat)
    requires turn < Turns(w)
  {
    if turn < |w.scopes| then w.scopes[turn] == w.active else w.active.service == "s3"
  }

  /** How many candidates the first n turns keep. */
  function Wanted(w: Workspace, n: nat): nat
    requires n <= Turns(w)
  {
    if n <= |w.scopes| then Matches(w, n) else Matches(w, |w.scopes|) + if w.active.service == "s3" then 1 else 0
  }

  /** Candidates are numbered by their turns; these are all active ones. */
  ghost predicate AllActive(w: Workspace, cs: seq<Candidate>) {
    forall c <- cs :: c < Turns(w) && Keeps(w, c)
  }

  lemma OneMoreActive(w: Workspace, cs: seq<Candidate>, turn: nat)
    requires AllActive(w, cs) && turn < Turns(w) && Keeps(w, turn)
    ensures AllActive(w, cs + [turn]) && Wanted(w, turn + 1) == Wanted(w, turn) + 1
  {
  }

  // -------------------------------------------------------------- retirements

  /** A retirement under way: the members before `next` are done, and whether its caller was cancelled. */
  datatype Cleanup = Cleanup(
    members: seq<Candidate>, next: nat, shutting: bool, failure: Option<Failure>, cancelled: bool)

  function Begin(members: seq<Candidate>): Cleanup {
    Cleanup(members, 0, false, None, false)
  }

  predicate UnderWay(k: Cleanup) {
    k.next <= |k.members| && (k.shutting ==> k.next < |k.members|)
  }

  /** The calls it has made. */
  function Calls(k: Cleanup): seq<Call>
    requires UnderWay(k)
  {
    Retirement(k.members[..k.next]) + if k.shutting then [Shutdown(k.members[k.next])] else []
  }

  function CallsLeft(k: Cleanup): nat
    requires UnderWay(k)
  {
    2 * (|k.members| - k.next) - if k.shutting then 1 else 0
  }

  /** What its caller gets in the end. */
  function Raises(k: Cleanup): Option<Failure> {
    if k.cancelled then Some(Cancelled) else k.failure
  }

  // --------------------------------------------------------------- an attempt

  /** Where the child task waits. */
  datatype Phase =
    | Created
    | Resolving(turn: nat)
    | Dropping(turn: nat, cleanup: Cleanup)
    | Unwinding(reason: Failure, cleanup: Cleanup)
    | Done(result: Result<Candidate, Failure>)

  datatype Distance = Distance(stage: nat, turns: nat, calls: nat, waiting: nat)

  predicate Nearer(d: Distance, e: Distance) {
    || d.stage < e.stage
    || (d.stage == e.stage && d.turns < e.turns)
    || (d.stage == e.stage && d.turns == e.turns && d.calls < e.calls)
    || (d.stage == e.stage && d.turns == e.turns && d.calls == e.calls && d.waiting < e.waiting)
  }

  /** An attempt: the child task that prepares, and the caller that waits for it. */
  class Attempt {
    // What was built, and the shutdown and dispose calls so far.
    var built: nat
    var log: seq<Call>
    // The child task and its local list; `base` is the log its retirement began with.
    var phase: Phase
    var owned: seq<Candidate>
    ghost var base: seq<Call>
    // For the statements only: something that was called or awaited raised, or the checks before building refused.
    ghost var troubled: bool
    ghost var refused: bool
    // The calls of task.cancel(), and whether one is still to be delivered.
    var cancels: nat
    var pending: bool
    // How often the caller will still be cancelled: any number, but finite.
    var cancellations: nat

    constructor (cancellations: nat)
      ensures JustCreated() && phase.Created?
    {
      built, log, phase, owned, base := 0, [], Created, [], [];
      cancels, pending, this.cancellations := 0, false, cancellations;
      troubled, refused := false, false;
    }

    ghost predicate JustCreated()
      reads this
    {
      built == 0 && log == [] && owned == [] && cancels == 0 && !pending && !troubled && !refused
    }

    /** Waiting on a shielded task: either the wait is cancelled, or the task goes on. */
    method Interrupted() returns (yes: bool)
      modifies this`cancellations
      ensures if yes then cancellations < old(cancellations) else cancellations == old(cancellations)
    {
      yes := false;
      if cancellations > 0 {
        yes := *;
        if yes { cancellations := cancellations - 1; }
      }
    }

    /** The inner task of a retirement makes its next call, whatever the earlier ones raised. */
    method NextCall(k: Cleanup, ghost before: seq<Call>) returns (k': Cleanup)
      requires UnderWay(k) && k.next < |k.members| && log == before + Calls(k)
      modifies this`log, this`troubled
      ensures UnderWay(k') && k'.members == k.members && k'.cancelled == k.cancelled
      ensures log == before + Calls(k') && CallsLeft(k') < CallsLeft(k)
      ensures (old(troubled) ==> troubled) && (k'.failure.Some? ==> k.failure.Some? || troubled)
      ensures troubled ==> old(troubled) || k'.failure.Some?
      ensures k.failure.Some? ==> k'.failure == k.failure
    {
      var raised := Risk();
      var failure := if k.failure.None? then raised else k.failure;
      if !k.shutting {
        log := log + [Shutdown(k.members[k.next])];
        k' := k.(shutting := true, failure := failure);
        assert Calls(k') == Calls(k) + [Shutdown(k.members[k.next])];
      } else {
        log := log + [Dispose(k.members[k.next])];
        RetirementStep(before, k.members, k.next);
        k' := k.(shutting := false, next := k.next + 1, failure := failure);
        assert Calls(k') == Retirement(k.members[..k.next + 1]);
      }
    }

    /** `_retire_candidates`: its caller waits for the inner task however often it is cancelled. */
    method RetireCandidates(candidates: seq<Candidate>) returns (r: Option<Failure>)
      modifies this`log, this`cancellations, this`troubled
      ensures log == old(log) + Retirement(candidates)
      ensures cancellations <= old(cancellations) && (old(troubled) ==> troubled)
      ensures cancellations < old(cancellations) ==> r == Some(Cancelled)
      ensures r.Some? ==> cancellations < old(cancellations) || troubled
      ensures troubled ==> old(troubled) || r.Some?
    {
      var k := Begin(candidates);
      while k.next < |candidates|
        invariant UnderWay(k) && k.members == candidates && log == old(log) + Calls(k)
        invariant cancellations <= old(cancellations) && (k.cancelled <==> cancellations < old(cancellations))
        invariant (old(troubled) ==> troubled) && (k.failure.Some? ==> troubled)
        invariant troubled ==> old(troubled) || k.failure.Some?
        decreases cancellations, CallsLeft(k)
      {
        var interrupted := Interrupted();
        if interrupted {
          k := k.(cancelled := true);
        } else {
          k := NextCall(k, old(log));
        }
      }
      assert candidates[..k.next] == candidates;
      r := Raises(k);
    }

    /** A candidate is built and recorded as owned; building itself may fail. */
    method Build() returns (c: Option<Candidate>)
      modifies this`built, this`troubled
      ensures c.Some? ==> c.value == old(built) && built == old(built) + 1 && troubled == old(troubled)
      ensures c.None? ==> built == old(built) && troubled
    {
      var failed := Risk();
      if failed.Some? { return None; }
      c := Some(built);
      built := built + 1;
    }

    /** Anything else that is awaited or called: it may raise. */
    method Risk() returns (raised: Option<Failure>)
      modifies this`troubled
      ensures troubled == (old(troubled) || raised.Some?)
    {
      raised := *;
      troubled := troubled || raised.Some?;
    }

    /** What the child has built and owns at each of its awaits, and what it leaves at its end. */
    ghost predicate ChildInv(w: Workspace)
      reads this
    {
      (refused ==> phase == Done(Err(Invalid)) && built == 0) &&
      match phase
      case Created => built == 0 && log == [] && owned == []
      case Resolving(turn) => InTurn(w, turn, log)
      case Dropping(turn, k) =>
        InTurn(w, turn, base) && !Keeps(w, turn) && UnderWay(k) && k.members == [built - 1] && log == base + Calls(k)
        && (Raises(k).Some? ==> troubled)
      case Unwinding(reason, k) =>
        Accounted(built, base, owned) && UnderWay(k) && k.members == Reversed(owned) && log == base + Calls(k)
        && Blamed(w, reason)
      case Done(r) => !pending && Ended(w, r)
    }

    /** The candidate of the turn was built last; all earlier ones are kept whole or retired. */
    ghost predicate InTurn(w: Workspace, turn: nat, calls: seq<Call>)
      reads this
    {
      && Navigable(w) && turn < Turns(w) && built > 0 && owned != [] && owned[|owned| - 1] == built - 1
      && InHand(built - 1, calls, owned[..|owned| - 1]) && |owned| == Wanted(w, turn) + 1
      && built == turn + 1 && AllActive(w, owned[..|owned| - 1])
    }

    /** There is a failure only if something raised, the checks refused, or no candidate is the active one. */
    ghost predicate Blamed(w: Workspace, reason: Failure)
      reads this
    {
      troubled || (reason.Invalid? && (refused || Wanted(w, Turns(w)) == 0))
    }

    ghost predicate Ended(w: Workspace, r: Result<Candidate, Failure>)
      reads this
    {
      && (r.Err? ==> Settled(built, log, None) && Blamed(w, r.error))
      && (r.Ok? ==> Navigable(w) && built == Turns(w) && r.value < built && Keeps(w, r.value) && Untouched(log, r.value)
                    && (Settled(built, log, Some(r.value)) <==> Matches(w, |w.scopes|) <= 1))
    }

    /** How far the child still is from its end. */
    ghost function Ahead(w: Workspace): Distance
      requires ChildInv(w)
      reads this
    {
      var waiting := if pending then 1 else 0;
      match phase
      case Created => Distance(3, 0, 0, waiting)
      case Resolving(turn) => Distance(2, 2 * (Turns(w) - turn) + 1, 0, waiting)
      case Dropping(turn, k) => Distance(2, 2 * (Turns(w) - turn), CallsLeft(k), waiting)
      case Unwinding(_, k) => Distance(1, 0, CallsLeft(k), waiting)
      case Done(_) => Distance(0, 0, 0, waiting)
    }

    /** The exception handler takes over. */
    method Unwind(reason: Failure, w: Workspace)
      requires Accounted(built, log, owned) && Blamed(w, reason) && !refused
      modifies this`phase, this`base
      ensures phase.Unwinding? && ChildInv(w)
    {
      base := log;
      phase := Unwinding(reason, Begin(Reversed(owned)));
      assert Reversed(owned)[..0] == [];
    }

    /** The head of the loop: build the candidate of the next turn, or hand over the active one. */
    method NextTurn(w: Workspace, turn: nat)
      requires Navigable(w) && turn <= Turns(w) && InHand(built, log, owned) && |owned| == Wanted(w, turn)
      requires built == turn && AllActive(w, owned) && !pending && !refused
      modifies this`phase, this`built, this`owned, this`base, this`troubled
      ensures ChildInv(w) && (phase == Resolving(turn) || phase.Unwinding? || phase.Done?)
    {
      if turn == Turns(w) {
        if owned == [] {
          Unwind(Invalid, w);
        } else {
          if w.active.service == "s3" { FileBrowserMatchesNoScope(w, |w.scopes|); }
          HandedOver(built, log, owned);
          assert owned[|owned| - 1] in owned;
          phase := Done(Ok(owned[|owned| - 1]));
        }
        return;
      }
      var stage := Build();
      if stage.None? { Unwind(Failed, w); return; }
      ghost var before := owned;
      owned := owned + [stage.value];
      assert owned[..|owned| - 1] == before;
      var failed := Risk();
      if failed.Some? {
        BuildAccounts(built - 1, log, before);
        Unwind(failed.value, w);
        return;
      }
      phase := Resolving(turn);
    }

    /**
     The child runs on to its next await, or the inner task of its retirement makes a
     call.  A cancellation is thrown into the await it meets: what is awaited may
     raise it or not, a retirement only remembers it, and the handler swallows it.
     */
    method ChildTurn(w: Workspace, valid: bool)
      requires ChildInv(w) && !phase.Done?
      modifies this`built, this`log, this`phase, this`owned, this`base, this`pending, this`troubled, this`refused
      ensures ChildInv(w) && (pending ==> old(pending)) && Nearer(Ahead(w), old(Ahead(w)))
      ensures refused ==> old(refused) || !valid || !Navigable(w)
      ensures old(phase.Created? && !pending) ==> refused || (valid && Navigable(w))
    {
      match phase
      case Created => Start(w, valid);
      case Resolving(turn) => Resolved(w, turn);
      case Dropping(turn, k) => Drop(w, turn, k);
      case Unwinding(reason, k) => UnwindOn(w, reason, k);
    }

    /** The child begins, unless it is cancelled before it has run at all. */
    method Start(w: Workspace, valid: bool)
      requires phase.Created? && ChildInv(w)
      modifies this`built, this`phase, this`owned, this`base, this`pending, this`troubled, this`refused
      ensures refused ==> !valid || !Navigable(w)
      ensures old(!pending) ==> refused || (valid && Navigable(w))
      ensures ChildInv(w) && !pending && !phase.Created? && (phase.Resolving? ==> phase.turn == 0) && !phase.Dropping?
    {
      if pending {
        pending, troubled := false, true;
        phase := Done(Err(Cancelled));
      } else if !valid || exists i :: 0 <= i < |w.scopes| && !IsNavigable(w.scopes[i].service) {
        refused := true;
        phase := Done(Err(Invalid));
      } else {
        NextTurn(w, 0);
      }
    }

    method Drop(w: Workspace, turn: nat, k: Cleanup)
      requires phase == Dropping(turn, k) && ChildInv(w)
      modifies this`built, this`log, this`phase, this`owned, this`base, this`pending, this`troubled
      ensures ChildInv(w) && (pending ==> old(pending)) && Nearer(Ahead(w), old(Ahead(w)))
    {
      var heard: bool := *;
      if pending && heard {
        pending, troubled := false, true;
        phase := Dropping(turn, k.(cancelled := true));
      } else if k.next < |k.members| {
        DropOn(w, turn, k);
      } else {
        Dropped(w, turn, k);
      }
    }

    method DropOn(w: Workspace, turn: nat, k: Cleanup)
      requires phase == Dropping(turn, k) && ChildInv(w) && k.next < |k.members|
      modifies this`log, this`phase, this`troubled
      ensures ChildInv(w) && Nearer(Ahead(w), old(Ahead(w)))
    {
      var k' := NextCall(k, base);
      phase := Dropping(turn, k');
    }

    /** The handler's own retirement; what it raises is suppressed, a cancellation included. */
    method UnwindOn(w: Workspace, reason: Failure, k: Cleanup)
      requires phase == Unwinding(reason, k) && ChildInv(w)
      modifies this`log, this`phase, this`pending, this`troubled
      ensures ChildInv(w) && (pending ==> old(pending)) && Nearer(Ahead(w), old(Ahead(w)))
    {
      var heard: bool := *;
      if pending && heard {
        pending := false;
        phase := Unwinding(reason, k.(cancelled := true));
      } else if k.next < |k.members| {
        var k' := NextCall(k, base);
        phase := Unwinding(reason, k');
      } else {
        pending := false;
        assert k.members[..k.next] == k.members && log == base + Retirement(k.members);
        RetireAll(built, base, owned);
        phase := Done(Err(reason));
      }
    }

    /** `resolve_service_target` or `setup` is over. */
    method Resolved(w: Workspace, turn: nat)
      requires phase == Resolving(turn) && ChildInv(w)
      modifies this`built, this`phase, this`owned, this`base, this`pending, this`troubled
      ensures ChildInv(w) && !pending
      ensures phase == Resolving(turn + 1) || phase.Unwinding? || phase.Done? || (phase.Dropping? && phase.turn == turn)
    {
      pending := false;
      var failed := Risk();
      if failed.Some? {
        FailTurn(w, turn, failed.value);
      } else if Keeps(w, turn) {
        KeepTurn(w, turn);
      } else {
        base := log;
        phase := Dropping(turn, Begin([built - 1]));
        assert [built - 1][..0] == [];
      }
    }

    method FailTurn(w: Workspace, turn: nat, failure: Failure)
      requires InTurn(w, turn, log) && troubled && !refused
      modifies this`phase, this`base
      ensures ChildInv(w) && phase.Unwinding?
    {
      LastSplit(owned);
      BuildAccounts(built - 1, log, owned[..|owned| - 1]);
      Unwind(failure, w);
    }

    /** The candidate just resolved is the active one. */
    method KeepTurn(w: Workspace, turn: nat)
      requires InTurn(w, turn, log) && Keeps(w, turn) && !pending && !refused
      modifies this`built, this`phase, this`owned, this`base, this`troubled
      ensures ChildInv(w) && (phase == Resolving(turn + 1) || phase.Unwinding? || phase.Done?)
    {
      LastSplit(owned);
      BuildInHand(built - 1, log, owned[..|owned| - 1]);
      OneMoreActive(w, owned[..|owned| - 1], turn);
      NextTurn(w, turn + 1);
    }

    /** The retirement of the candidate of a turn is over. */
    method Dropped(w: Workspace, turn: nat, k: Cleanup)
      requires phase == Dropping(turn, k) && ChildInv(w) && k.next == |k.members|
      modifies this`built, this`phase, this`owned, this`base, this`pending, this`troubled
      ensures ChildInv(w) && !pending && (phase == Resolving(turn + 1) || phase.Unwinding? || phase.Done?)
    {
      var failed := Raises(k.(cancelled := k.cancelled || pending));
      pending, troubled := false, troubled || pending;
      assert k.members[..k.next] == [built - 1];
      if failed.Some? { DropFailed(w, turn, failed.value); } else { LetGo(w, turn); }
    }

    method DropFailed(w: Workspace, turn: nat, failure: Failure)
      requires InTurn(w, turn, base) && log == base + Retirement([built - 1]) && troubled && !refused
      modifies this`phase, this`base
      ensures ChildInv(w) && phase.Unwinding?
    {
      LastSplit(owned);
      RetireLast(built, base, owned[..|owned| - 1], built - 1);
      Unwind(failure, w);
    }

    /** The candidate just retired is no longer owned. */
    method LetGo(w: Workspace, turn: nat)
      requires InTurn(w, turn, base) && log == base + Retirement([built - 1]) && !Keeps(w, turn) && !pending && !refused
      modifies this`built, this`phase, this`owned, this`base, this`troubled
      ensures ChildInv(w) && (phase == Resolving(turn + 1) || phase.Unwinding? || phase.Done?)
    {
      RetireLast(built, base, owned[..|owned| - 1], built - 1);
      owned := owned[..|owned| - 1];
      NextTurn(w, turn + 1);
    }

    /** The caller waits for the child until one of them is done waiting. */
    method AwaitChild(w: Workspace, valid: bool) returns (interrupted: bool)
      requires phase.Created? && ChildInv(w) && !pending
      modifies this`built, this`log, this`phase, this`owned, this`base, this`pending, this`cancellations,
        this`troubled, this`refused
      ensures ChildInv(w) && !pending && (interrupted || phase.Done?)
      ensures if interrupted then cancellations < old(cancellations) else cancellations == old(cancellations)
      ensures refused ==> !valid || !Navigable(w)
      ensures !phase.Created? ==> refused || (valid && Navigable(w))
    {
      interrupted := false;
      while !interrupted && !phase.Done?
        invariant ChildInv(w) && !pending && (refused ==> !valid || !Navigable(w))
        invariant !phase.Created? ==> refused || (valid && Navigable(w))
        invariant if interrupted then cancellations < old(cancellations) else cancellations == old(cancellations)
        decreases cancellations, Ahead(w).stage, Ahead(w).turns, Ahead(w).calls, Ahead(w).waiting
      {
        interrupted := Interrupted();
        if !interrupted { ChildTurn(w, valid); }
      }
      // The child may be done and the caller cancelled before it resumes.
      if !interrupted { interrupted := Interrupted(); }
    }

    /** The loop `while not task.done()`: nothing but the end of the child ends it. */
    method DrainChild(w: Workspace, valid: bool)
      requires ChildInv(w)
      modifies this`built, this`log, this`phase, this`owned, this`base, this`pending, this`cancellations,
        this`troubled, this`refused
      ensures ChildInv(w) && phase.Done? && cancellations <= old(cancellations)
      ensures Accepted(w) ==> Settled(built, log, if phase.result.Ok? then Some(phase.result.value) else None)
    {
      while !phase.Done?
        invariant ChildInv(w) && cancellations <= old(cancellations)
        decreases cancellations, Ahead(w).stage, Ahead(w).turns, Ahead(w).calls, Ahead(w).waiting
      {
        WaitOnce(w, valid);
      }
      DoneSettles(w);
    }

    /** One wait for the child: it is cancelled, or the child goes on. */
    method WaitOnce(w: Workspace, valid: bool)
      requires ChildInv(w) && !phase.Done?
      modifies this`built, this`log, this`phase, this`owned, this`base, this`pending, this`cancellations,
        this`troubled, this`refused
      ensures ChildInv(w)
      ensures cancellations < old(cancellations)
        || (cancellations == old(cancellations) && Nearer(Ahead(w), old(Ahead(w))))
    {
      var interrupted := Interrupted();
      if !interrupted { ChildTurn(w, valid); }
    }

    lemma DoneSettles(w: Workspace)
      requires phase.Done? && ChildInv(w)
      ensures Accepted(w) ==> Settled(built, log, if phase.result.Ok? then Some(phase.result.value) else None)
    {
      if Accepted(w) { ActiveIsUnique(w); }
    }

    /**
     `prepare_workspace`.  The caller waits for the child it made; when it is
     cancelled it passes that on once, waits on until the child is done, however often
     it is cancelled meanwhile, and retires the candidate it will not receive.
     */
    method PrepareWorkspace(w: Workspace, valid: bool) returns (r: Result<Candidate, Failure>, ghost prepared: bool)
      requires JustCreated() && phase.Created?
      modifies this
      ensures phase.Done? && cancels <= 1 && !pending
      ensures prepared == phase.result.Ok? && (r.Ok? ==> r == phase.result && cancels == 0)
      ensures prepared ==> Navigable(w)
      ensures r.Ok? ==> r.value < built == Turns(w) && Keeps(w, r.value) && Untouched(log, r.value)
      ensures cancellations == old(cancellations) && !troubled && valid && Navigable(w) ==>
        r == if prepared then phase.result else Err(Invalid)
      ensures cancellations == old(cancellations) && !troubled && valid && Navigable(w) && Wanted(w, Turns(w)) > 0 ==>
        prepared
      ensures cancellations == old(cancellations) && !(valid && Navigable(w)) ==> r == Err(Invalid) && built == 0
      ensures Accepted(w) && valid && !troubled && cancellations == old(cancellations) ==> r.Ok?
      ensures Accepted(w) ==> Settled(built, log, if r.Ok? then Some(r.value) else None)
      ensures Settled(built, log, if r.Ok? then Some(r.value) else None) <==> (prepared ==> Matches(w, |w.scopes|) <= 1)
    {
      r, prepared := PrepareAny(w, valid);
      if Accepted(w) { ActiveIsUnique(w); }
    }

    /** The same of any scopes, checked or not: why two alike have to be refused. */
    method PrepareAny(w: Workspace, valid: bool) returns (r: Result<Candidate, Failure>, ghost prepared: bool)
      requires JustCreated() && phase.Created?
      modifies this
      ensures phase.Done? && cancels <= 1 && !pending
      ensures prepared == phase.result.Ok? && (r.Ok? ==> r == phase.result && cancels == 0)
      ensures prepared ==> Navigable(w)
      ensures r.Ok? ==> r.value < built == Turns(w) && Keeps(w, r.value) && Untouched(log, r.value)
      ensures cancellations == old(cancellations) && !troubled && valid && Navigable(w) ==>
        r == if prepared then phase.result else Err(Invalid)
      ensures cancellations == old(cancellations) && !troubled && valid && Navigable(w) && Wanted(w, Turns(w)) > 0 ==>
        prepared
      ensures cancellations == old(cancellations) && !(valid && Navigable(w)) ==> r == Err(Invalid) && built == 0
      ensures Settled(built, log, if r.Ok? then Some(r.value) else None) <==> (prepared ==> Matches(w, |w.scopes|) <= 1)
    {
      var interrupted := AwaitChild(w, valid);
      if !interrupted { return phase.result, phase.result.Ok?; }
      if !phase.Done? && cancels == 0 { cancels, pending := cancels + 1, true; }
      DrainChild(w, valid);
      prepared := phase.result.Ok?;
      r := Err(Cancelled);
      if phase.result.Ok? {
        var failed := RetireLost(w, phase.result.value);
        if failed.Some? { r := Err(failed.value); }
      }
    }

    /** The candidate that the caller will not receive. */
    method RetireLost(w: Workspace, c: Candidate) returns (failed: Option<Failure>)
      requires Ended(w, Ok(c))
      modifies this`log, this`cancellations, this`troubled
      ensures cancellations <= old(cancellations)
      ensures Settled(built, log, None) <==> Matches(w, |w.scopes|) <= 1
    {
      LostIsRetired(built, log, c);
      failed := RetireCandidates([c]);
    }
  }

  lemma LastSplit(s: seq<Candidate>)
    requires s != []
    ensures s == s[..|s| - 1] + [s[|s| - 1]]
  {
  }

  lemma RetirementStep(was: seq<Call>, cs: seq<Candidate>, n: nat)
    requires n < |cs|
    ensures was + Retirement(cs[..n]) + [Shutdown(cs[n])] + [Dispose(cs[n])] == was + Retirement(cs[..n + 1])
  {
    assert cs[..n + 1][..n] == cs[..n];
  }

  // ------------------------------------------------------- who owns what, when

  /** Every candidate is owned or retired, and what is owned has not been touched. */
  ghost predicate Accounted(built: nat, log: seq<Call>, owned: seq<Candidate>) {
    && (forall c: Candidate :: c < built ==> c in owned || Retired(log, c))
    && (forall c <- owned :: c < built)
  }

  ghost predicate Kept(log: seq<Call>, kept: seq<Candidate>) {
    forall c <- kept :: Untouched(log, c)
  }

  lemma BuildAccounts(built: nat, log: seq<Call>, owned: seq<Candidate>)
    requires Accounted(built, log, owned)
    ensures Accounted(built + 1, log, owned + [built])
  {
  }

  /** Retiring some of the owned candidates lets them go. */
  lemma RetireAccounts(built: nat, log: seq<Call>, owned: seq<Candidate>, gone: seq<Candidate>, rest: seq<Candidate>)
    requires Accounted(built, log, owned) && (forall c <- owned :: c in rest || c in gone)
      && (forall c <- rest :: c in owned)
    ensures Accounted(built, log + Retirement(gone), rest)
  {
    forall c: Candidate | c < built ensures c in rest || Retired(log + Retirement(gone), c) {
      RetirementRetires(gone, c);
      StillRetired(log, Retirement(gone), c);
    }
  }

  lemma RetireKeeps(log: seq<Call>, kept: seq<Candidate>, gone: seq<Candidate>)
    requires Kept(log, kept) && forall c <- kept :: c !in gone
    ensures Kept(log + Retirement(gone), kept)
  {
    forall c | c in kept ensures Untouched(log + Retirement(gone), c) { RetirementRetires(gone, c); }
  }

  /** The calls so far are about candidates that exist. */
  predicate Past(log: seq<Call>, built: nat) {
    forall i :: 0 <= i < |log| ==> log[i].c < built
  }

  predicate Increasing(s: seq<Candidate>) {
    forall i, j :: 0 <= i < j < |s| ==> s[i] < s[j]
  }

  /** Nothing has failed yet: what is owned is whole, and everything else is retired. */
  ghost predicate InHand(built: nat, log: seq<Call>, owned: seq<Candidate>) {
    Accounted(built, log, owned) && Past(log, built) && Kept(log, owned) && Increasing(owned)
  }

  /** At the end: the one handed over is untouched, every other candidate is retired. */
  ghost predicate Settled(built: nat, log: seq<Call>, handed: Option<Candidate>) {
    forall c: Candidate :: c < built ==> if handed == Some(c) then Untouched(log, c) else Retired(log, c)
  }

  lemma BuildInHand(built: nat, log: seq<Call>, owned: seq<Candidate>)
    requires InHand(built, log, owned)
    ensures InHand(built + 1, log, owned + [built])
  {
    BuildAccounts(built, log, owned);
    assert forall i :: 0 <= i < |owned| ==> owned[i] in owned;
    forall c | c in owned + [built] ensures Untouched(log, c) {
      if c == built { NotYetTouched(log, built); }
    }
  }

  lemma NotYetTouched(log: seq<Call>, built: nat)
    requires Past(log, built)
    ensures Untouched(log, built)
  {
  }

  lemma {:induction false} RetirementPast(cs: seq<Candidate>, built: nat)
    requires forall c <- cs :: c < built
    ensures Past(Retirement(cs), built)
  {
    if cs != [] {
      var init, last := cs[..|cs| - 1], cs[|cs| - 1];
      assert last in cs && forall c <- init :: c in cs;
      RetirementPast(init, built);
    }
  }

  /** Retiring the candidate just built leaves the others in hand. */
  lemma RetireLast(built: nat, log: seq<Call>, owned: seq<Candidate>, last: Candidate)
    requires built > 0 && last == built - 1 && InHand(built - 1, log, owned)
    ensures InHand(built, log + Retirement([last]), owned)
    ensures Accounted(built, log + Retirement([last]), owned + [last])
  {
    BuildAccounts(built - 1, log, owned);
    RetireAccounts(built, log, owned + [last], [last], owned);
    RetireAccounts(built, log, owned + [last], [last], owned + [last]);
    RetireKeeps(log, owned, [last]);
    RetirementPast([last], built);
  }

  function Reversed(s: seq<Candidate>): (r: seq<Candidate>)
    ensures |r| == |s| && forall i :: 0 <= i < |s| ==> r[i] == s[|s| - 1 - i]
  {
    seq(|s|, i requires 0 <= i < |s| => s[|s| - 1 - i])
  }

  /** The exception handler retires whatever is still owned, again if need be. */
  lemma RetireAll(built: nat, log: seq<Call>, owned: seq<Candidate>)
    requires Accounted(built, log, owned)
    ensures Settled(built, log + Retirement(Reversed(owned)), None)
  {
    forall c | c in owned ensures c in Reversed(owned) {
      var i :| 0 <= i < |owned| && owned[i] == c;
      assert Reversed(owned)[|owned| - 1 - i] == c;
    }
    RetireAccounts(built, log, owned, Reversed(owned), []);
  }

  /** All is settled exactly if the candidate handed over is the only one still owned. */
  lemma HandedOver(built: nat, log: seq<Call>, owned: seq<Candidate>)
    requires InHand(built, log, owned) && owned != []
    ensures var c := owned[|owned| - 1];
            c < built && Untouched(log, c) && (Settled(built, log, Some(c)) <==> |owned| <= 1)
  {
    assert owned[|owned| - 1] in owned;
    if |owned| == 1 {
      assert owned == [owned[0]];
    } else {
      assert owned[0] in owned && Untouched(log, owned[0]) && owned[0] < owned[|owned| - 1];
    }
  }

  /** Retiring the candidate that was prepared settles what was settled but for it. */
  lemma LostIsRetired(built: nat, log: seq<Call>, c: Candidate)
    requires c < built && Untouched(log, c)
    ensures Settled(built, log + Retirement([c]), None) <==> Settled(built, log, Some(c))
  {
    var after := log + Retirement([c]);
    RetirementRetires([c], c);
    StillRetired(log, Retirement([c]), c);
    forall d: Candidate | d < built && d != c ensures Retired(after, d) <==> Retired(log, d) {
      RetirementRetires([c], d);
      StillRetired(log, Retirement([c]), d);
      OnlyThere(log, Retirement([c]), d);
    }
  }

  lemma InOneOfTwo(a: seq<Call>, b: seq<Call>, i: nat)
    requires i < |a + b|
    ensures (i < |a| && a[i] == (a + b)[i]) || (a + b)[i] in b
  {
  }

  lemma OnlyThere(a: seq<Call>, b: seq<Call>, c: Candidate)
    requires Untouched(b, c)
    ensures Retired(a + b, c) ==> Retired(a, c)
  {
    if i :| 0 <= i < |a + b| - 1 && (a + b)[i] == Shutdown(c) && (a + b)[i + 1] == Dispose(c) {
      InOneOfTwo(a, b, i);
      InOneOfTwo(a, b, i + 1);
    }
  }
}
