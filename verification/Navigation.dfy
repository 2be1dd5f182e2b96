/**
 Service navigation: an owner token that fences views, and the attempts to mount
 a service that it fences.  A stretch of an attempt between two awaits is one
 step; anything may happen in between.
 */
module Navigation {
  import opened Wrappers

  datatype Owner = Owner(name: string, generation: int)

  /** What `ServiceNavigation` keeps about ownership. */
  datatype Nav = Nav(generation: int, owner: Option<Owner>, closed: bool)

  const FRESH: Nav := Nav(0, None, false)

  function Advance(n: Nav, name: string): Nav {
    Nav(n.generation + 1, Some(Owner(name, n.generation + 1)), n.closed)
  }

  /** `claim_table`: within the current generation the table takes over. */
  function Claim(n: Nav, generation: int): Nav {
    if generation != n.generation then n else n.(owner := Some(Owner("table", generation)))
  }

  predicate Owns(n: Nav, name: string, generation: int) {
    n.owner == Some(Owner(name, generation))
  }

  datatype NavOp = AdvanceOp(name: string) | ClaimOp(generation: int) | CloseOp

  function Apply(n: Nav, op: NavOp): Nav {
    match op
    case AdvanceOp(name) => Advance(n, name)
    case ClaimOp(g) => Claim(n, g)
    case CloseOp => n.(closed := true)
  }

  // ---------------------------------------------------------------- the fence

  /** An owner has the current generation. */
  predicate Current(n: Nav) {
    n.generation >= 0 && (n.owner.Some? ==> n.owner.value.generation == n.generation)
  }

  /** Ownership only ever moves up: a generation, and within it the table last. */
  function Rank(n: Nav): int {
    if n.owner.None? then -1 else 2 * n.owner.value.generation + if n.owner.value.name == "table" then 1 else 0
  }

  // -------------------------------------------------------------- the attempts

  /** Where a mount is waiting; `Mounting` is the call that puts the view on its host. */
  datatype Phase =
    | Draining
    | Retrying
    | FallingBack
    | Switching
    | Resetting(captured: Option<Owner>)
    | Removing(captured: Option<Owner>)
    | Mounting
    | Recovering
    | Ended(ok: bool, ordinary: bool)

  datatype Attempt = Attempt(owner: Option<Owner>, phase: Phase)

  /** How an await ended, and what the attempt finds then. */
  datatype Choice = Fails | Mismatch | RetryFallback | MissingView | HostTaken | Succeeds

  predicate OwnsMount(n: Nav, a: Attempt) {
    !n.closed && n.owner == a.owner
  }

  /** `_replace_content_widget` gives up unless the owner it captured still owns. */
  predicate StillCaptured(n: Nav, captured: Option<Owner>) {
    !n.closed && n.owner == captured
  }

  function Fail(a: Attempt): Attempt {
    a.(phase := Ended(false, true))
  }

  /** One stretch of `mount_service`, with the `_replace_content_widget` it publishes through. */
  function Resume(n: Nav, a: Attempt, c: Choice): Attempt {
    match a.phase
    case Draining =>
      if c.Fails? || !OwnsMount(n, a) || c.Mismatch? then Fail(a)
      else if c.RetryFallback? then a.(phase := Retrying)
      else a.(phase := Switching)
    case Retrying => if c.Succeeds? then a.(phase := Ended(true, false)) else a.(phase := FallingBack)
    case FallingBack => a.(phase := Ended(c.Succeeds?, false))
    case Switching =>
      if c.Fails? || !OwnsMount(n, a) || c.MissingView? then Fail(a)
      else if c.HostTaken? then a.(phase := Resetting(n.owner))
      else a.(phase := Removing(n.owner))
    case Resetting(captured) =>
      if c.Fails? then Fail(a)
      else if StillCaptured(n, captured) then a.(phase := Removing(captured))
      else a.(phase := Ended(OwnsMount(n, a), true))
    case Removing(captured) =>
      if c.Fails? then Fail(a)
      else if StillCaptured(n, captured) then a.(phase := Mounting)
      else a.(phase := Ended(OwnsMount(n, a), true))
    case Mounting => if c.Fails? then a.(phase := Recovering) else a.(phase := Ended(OwnsMount(n, a), true))
    case Recovering => Fail(a)
    case Ended(ok, ordinary) => a
  }

  datatype World = World(nav: Nav, attempts: map<nat, Attempt>)

  datatype Event = NavEvent(op: NavOp) | Begin(id: nat) | Go(id: nat, choice: Choice)

  function Next(w: World, e: Event): World {
    match e
    case NavEvent(op) => w.(nav := Apply(w.nav, op))
    case Begin(id) => if id in w.attempts then w else w.(attempts := w.attempts[id := Attempt(w.nav.owner, Draining)])
    case Go(id, c) => if id in w.attempts then w.(attempts := w.attempts[id := Resume(w.nav, w.attempts[id], c)]) else w
  }

  ghost predicate IsRun(worlds: seq<World>, events: seq<Event>) {
    |worlds| == |events| + 1 && forall i :: 0 <= i < |events| ==> worlds[i + 1] == Next(worlds[i], events[i])
  }

  lemma {:induction false} RunRaises(worlds: seq<World>, events: seq<Event>, m: nat, n: nat)
    requires IsRun(worlds, events) && Current(worlds[0].nav) && m <= n <= |events|
    ensures Current(worlds[m].nav) && Current(worlds[n].nav) && (worlds[m].nav.closed ==> worlds[n].nav.closed)
    ensures Rank(worlds[m].nav) <= Rank(worlds[n].nav)
    ensures worlds[n].nav.owner != worlds[m].nav.owner ==> Rank(worlds[m].nav) < Rank(worlds[n].nav)
    decreases n
  {
    if n > 0 {
      RunRaises(worlds, events, if m == n then n - 1 else m, n - 1);
    }
  }

  /** In every state an owner's generation is the current one. */
  lemma OwnerIsCurrent(worlds: seq<World>, events: seq<Event>, n: nat)
    requires IsRun(worlds, events) && worlds[0].nav == FRESH && n <= |events|
    ensures worlds[n].nav.owner.Some? ==> worlds[n].nav.owner.value.generation == worlds[n].nav.generation
  {
    RunRaises(worlds, events, 0, n);
  }

  /** Once another owner has taken over, the earlier token never owns again. */
  lemma SupersededForGood(worlds: seq<World>, events: seq<Event>, a: nat, b: nat, c: nat, name: string, generation: int)
    requires IsRun(worlds, events) && Current(worlds[0].nav) && a <= b <= c <= |events|
    requires Owns(worlds[a].nav, name, generation) && !Owns(worlds[b].nav, name, generation)
    ensures !Owns(worlds[c].nav, name, generation)
  {
    RunRaises(worlds, events, a, b);
    RunRaises(worlds, events, b, c);
  }

  /** An owner that owns at both ends of a stretch owned all along it. */
  lemma OwnedBetween(worlds: seq<World>, events: seq<Event>, a: nat, b: nat, c: nat)
    requires IsRun(worlds, events) && Current(worlds[0].nav) && a <= b <= c <= |events|
    requires worlds[a].nav.owner == worlds[c].nav.owner && !worlds[c].nav.closed
    ensures worlds[b].nav.owner == worlds[a].nav.owner && !worlds[b].nav.closed
  {
    RunRaises(worlds, events, a, b);
    RunRaises(worlds, events, b, c);
  }

  /** The owner an attempt captured, here and in the view it publishes. */
  predicate Captured(a: Attempt, owner: Option<Owner>) {
    a.owner == owner
    && (a.phase.Resetting? ==> a.phase.captured == owner) && (a.phase.Removing? ==> a.phase.captured == owner)
  }

  lemma {:induction false} CapturedThroughout(worlds: seq<World>, events: seq<Event>, begun: nat, n: nat, id: nat)
    requires IsRun(worlds, events) && begun < n <= |events|
    requires events[begun] == Begin(id) && id !in worlds[begun].attempts
    ensures id in worlds[n].attempts && Captured(worlds[n].attempts[id], worlds[begun].nav.owner)
  {
    if n > begun + 1 { CapturedThroughout(worlds, events, begun, n - 1, id); }
  }

  /** The stretch takes the mount further: to its next await, or to reporting success. */
  predicate GoesOn(before: Attempt, after: Attempt) {
    || (before.phase.Draining? && (after.phase.Retrying? || after.phase.Switching?))
    || (before.phase.Switching? && (after.phase.Resetting? || after.phase.Removing?))
    || (before.phase.Resetting? && after.phase.Removing?)
    || (before.phase.Removing? && after.phase.Mounting?)
    || (!before.phase.Ended? && after.phase == Ended(true, true))
  }

  /**
   A mount drains, switches, prepares its host, puts its view there and reports
   success, each only if ownership never changed and intake never closed since the
   mount began.
   */
  lemma MountIsFenced(worlds: seq<World>, events: seq<Event>, begun: nat, n: nat, id: nat, c: Choice, k: nat)
    requires IsRun(worlds, events) && Current(worlds[0].nav) && begun < n < |events| && begun <= k <= n
    requires events[begun] == Begin(id) && id !in worlds[begun].attempts && events[n] == Go(id, c)
    requires id in worlds[n].attempts
      && GoesOn(worlds[n].attempts[id], Resume(worlds[n].nav, worlds[n].attempts[id], c))
    ensures worlds[k].nav.owner == worlds[begun].nav.owner && !worlds[k].nav.closed
  {
    CapturedThroughout(worlds, events, begun, n, id);
    OwnedBetween(worlds, events, begun, k, n);
  }

  // ---------------------------------------------------------- what is not fenced

  function ApplyAll(n: Nav, ops: seq<NavOp>): Nav
    decreases |ops|
  {
    if ops == [] then n else ApplyAll(Apply(n, ops[0]), ops[1..])
  }

  /** Whatever happens to ownership before its next stretch, a success it then reports means it owns. */
  ghost predicate Fenced(n: Nav, a: Attempt) {
    forall ops: seq<NavOp>, c: Choice :: FencedAfter(ApplyAll(n, ops), a, c)
  }

  predicate FencedAfter(n: Nav, a: Attempt, c: Choice) {
    var after := Resume(n, a, c);
    after.phase.Ended? && after.phase.ok ==> OwnsMount(n, a)
  }

  /**
   At every moment of a mount, whatever was captured: it is fenced if and only if it
   is not retrying a remembered connection or falling back from that.
   */
  lemma RetryIsNotFenced(n: Nav, a: Attempt)
    requires !a.phase.Ended?
    ensures Fenced(n, a) <==> !a.phase.Retrying? && !a.phase.FallingBack?
  {
    if a.phase.Retrying? || a.phase.FallingBack? {
      assert ApplyAll(n, [CloseOp]) == Apply(n, CloseOp) by { assert [CloseOp][1..] == []; }
      assert !FencedAfter(ApplyAll(n, [CloseOp]), a, Succeeds);
    }
  }

  /** Not even the owner need be the same: any other owner may have taken over meanwhile. */
  lemma RetryOutlivesOwner(w: World, id: nat, name: string)
    requires id in w.attempts && (w.attempts[id].phase.Retrying? || w.attempts[id].phase.FallingBack?)
    requires w.attempts[id].owner != Some(Owner(name, w.nav.generation + 1))
    ensures var v := Next(Next(w, NavEvent(AdvanceOp(name))), Go(id, Succeeds));
            v.attempts[id].phase == Ended(true, false) && v.nav.owner != v.attempts[id].owner
  {
  }

  /** A retrying mount can be met: it is one step from a mount that has just begun, in any state. */
  lemma RetryIsReached(w: World, id: nat)
    requires id !in w.attempts && !w.nav.closed
    ensures Next(Next(w, Begin(id)), Go(id, RetryFallback)).attempts[id] == Attempt(w.nav.owner, Retrying)
  {
  }

  /** Setting the generation back lets a superseded token own again. */
  lemma SettingGenerationRevives(name: string)
    ensures var n1 := Advance(FRESH, name);
            var n2 := Advance(n1, "external");
            var n3 := n2.(generation := 0);
            Owns(n1, name, 1) && !Owns(n2, name, 1) && Owns(Advance(n3, name), name, 1)
  {
  }

  // ------------------------------------------------------------------- draining

  /** The tracked tasks, which are done or in their last clause, which `drain` cancelled, and how far it is. */
  datatype Tasks = Tasks(
    navigations: set<nat>, rollbacks: set<nat>, finished: set<nat>, cancelled: set<nat>, drain: Drain)

  datatype Drain =
    | Idle
    | AwaitNavigations(snapshot: set<nat>)
    | AwaitRollbacks(snapshot: set<nat>)
    | Drained

  datatype TaskEvent =
    | TrackNavigation(task: nat)
    | TrackRollback(task: nat)
    | Finish(task: nat)
    | Untrack(task: nat)
    | DrainStep

  /** The head of the loop, and the rollback half of its body. */
  function LoopHead(t: Tasks): Tasks {
    if t.navigations == {} && t.rollbacks == {} then t.(drain := Drained)
    else t.(cancelled := t.cancelled + (t.navigations - t.finished), drain := AwaitNavigations(t.navigations))
  }

  /** Awaiting ends when all of the snapshot has finished; a cancelled caller goes on awaiting. */
  function DrainOn(t: Tasks): Tasks {
    match t.drain
    case Idle => LoopHead(t)
    case AwaitNavigations(s) =>
      if s <= t.finished then t.(navigations := t.navigations - s, drain := AwaitRollbacks(t.rollbacks)) else t
    case AwaitRollbacks(s) =>
      if s <= t.finished then LoopHead(t.(rollbacks := t.rollbacks - s)) else t
    case Drained => t
  }

  function Happen(t: Tasks, e: TaskEvent): Tasks {
    match e
    case TrackNavigation(x) => t.(navigations := t.navigations + {x})
    case TrackRollback(x) => t.(rollbacks := t.rollbacks + {x})
    case Finish(x) => t.(finished := t.finished + {x})
    case Untrack(x) =>
      if x in t.finished then t.(navigations := t.navigations - {x}, rollbacks := t.rollbacks - {x}) else t
    case DrainStep => DrainOn(t)
  }

  ghost predicate IsTaskRun(states: seq<Tasks>, events: seq<TaskEvent>) {
    |states| == |events| + 1 && forall i :: 0 <= i < |events| ==> states[i + 1] == Happen(states[i], events[i])
  }

  predicate Tracked(t: Tasks, x: nat) {
    x in t.navigations || x in t.rollbacks
  }

  lemma {:induction false} LeavesFinished(states: seq<Tasks>, events: seq<TaskEvent>, m: nat, n: nat, x: nat)
    requires IsTaskRun(states, events) && m <= n <= |events| && Tracked(states[m], x)
    ensures Tracked(states[n], x) || x in states[n].finished
  {
    if m < n { LeavesFinished(states, events, m, n - 1, x); }
  }

  /** When `drain` returns nothing is tracked, and every task ever tracked before has finished. */
  lemma DrainedMeansFinished(states: seq<Tasks>, events: seq<TaskEvent>, m: nat, n: nat, x: nat)
    requires IsTaskRun(states, events) && m <= n < |events| && Tracked(states[m], x)
    requires !states[n].drain.Drained? && states[n + 1].drain.Drained?
    ensures states[n + 1].navigations == {} && states[n + 1].rollbacks == {} && x in states[n + 1].finished
  {
    LeavesFinished(states, events, m, n + 1, x);
  }
}
