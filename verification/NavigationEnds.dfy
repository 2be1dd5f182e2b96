/** How a mount ends that nothing disturbs or that something fails in, and that draining ends. */
module NavigationEnds {
  import opened Wrappers
  import opened Navigation

  // ---------------------------------------------------------------- undisturbed

  /** The await ended well, and there was nothing that turns a mount aside. */
  predicate Smooth(c: Choice) {
    c.Succeeds? || c.HostTaken?
  }

  /** The mount is on its ordinary way, with the owner it began with, or at its good end. */
  predicate OnItsWay(a: Attempt, owner: Option<Owner>) {
    Captured(a, owner)
    && !a.phase.Retrying? && !a.phase.FallingBack? && !a.phase.Recovering?
    && (a.phase.Ended? ==> a.phase == Ended(true, true))
  }

  /** How many stretches it has left at most. */
  function Left(p: Phase): nat {
    match p
    case Draining => 5
    case Switching => 4
    case Resetting(_) => 3
    case Removing(_) => 2
    case Mounting => 1
    case _ => 0
  }

  lemma ResumeOn(n: Nav, a: Attempt, c: Choice)
    requires OnItsWay(a, n.owner) && !n.closed && Smooth(c)
    ensures OnItsWay(Resume(n, a, c), n.owner)
    ensures Left(Resume(n, a, c).phase) <= if Left(a.phase) == 0 then 0 else Left(a.phase) - 1
  {
  }

  /** The stretches an attempt has had from m up to n. */
  function Stretches(events: seq<Event>, id: nat, m: nat, n: nat): nat
    requires m <= n <= |events|
  {
    if m == n then 0
    else Stretches(events, id, m, n - 1) + if events[n - 1].Go? && events[n - 1].id == id then 1 else 0
  }

  /** From m up to n the attempt owns, and none of its awaits goes wrong. */
  ghost predicate Undisturbed(worlds: seq<World>, events: seq<Event>, m: nat, n: nat, id: nat)
    requires m <= n <= |events| <= |worlds|
  {
    && (forall k :: m <= k < n ==> worlds[k].nav.owner == worlds[m].nav.owner && !worlds[k].nav.closed)
    && (forall k :: m <= k < n ==> events[k].Go? && events[k].id == id ==> Smooth(events[k].choice))
  }

  lemma StepOn(w: World, e: Event, id: nat, owner: Option<Owner>, left: int)
    requires id in w.attempts && OnItsWay(w.attempts[id], owner) && Left(w.attempts[id].phase) <= left
    requires w.nav.owner == owner && !w.nav.closed && (e.Go? && e.id == id ==> Smooth(e.choice))
    ensures var v := Next(w, e);
            && id in v.attempts && OnItsWay(v.attempts[id], owner)
            && Left(v.attempts[id].phase) <= if e.Go? && e.id == id && left > 0 then left - 1 else left
  {
    if e.Go? && e.id == id { ResumeOn(w.nav, w.attempts[id], e.choice); }
  }

  function Less(a: nat, b: nat): nat {
    if a < b then 0 else a - b
  }

  lemma {:induction false} StaysOnItsWay(worlds: seq<World>, events: seq<Event>, m: nat, n: nat, id: nat)
    requires IsRun(worlds, events) && m <= n <= |events| && Undisturbed(worlds, events, m, n, id)
    requires id in worlds[m].attempts && OnItsWay(worlds[m].attempts[id], worlds[m].nav.owner)
    ensures id in worlds[n].attempts && OnItsWay(worlds[n].attempts[id], worlds[m].nav.owner)
    ensures Left(worlds[n].attempts[id].phase) <=
      Less(Left(worlds[m].attempts[id].phase), Stretches(events, id, m, n))
  {
    if m < n {
      StaysOnItsWay(worlds, events, m, n - 1, id);
      StepOn(worlds[n - 1], events[n - 1], id, worlds[m].nav.owner,
        Less(Left(worlds[m].attempts[id].phase), Stretches(events, id, m, n - 1)));
    }
  }

  /** A mount that keeps its ownership and meets no failure reports success after at most five stretches. */
  lemma UndisturbedMountSucceeds(worlds: seq<World>, events: seq<Event>, begun: nat, n: nat, id: nat)
    requires IsRun(worlds, events) && begun < n <= |events|
    requires events[begun] == Begin(id) && id !in worlds[begun].attempts
    requires Undisturbed(worlds, events, begun, n, id) && Stretches(events, id, begun + 1, n) >= 5
    ensures id in worlds[n].attempts && worlds[n].attempts[id].phase == Ended(true, true)
  {
    var m := begun + 1;
    assert worlds[m] == Next(worlds[begun], events[begun]);
    assert worlds[m].nav == worlds[begun].nav;
    StaysOnItsWay(worlds, events, m, n, id);
  }

  // ------------------------------------------------------------------- failures

  /** What the stretch meets cannot lead to a view on its host. */
  predicate Faulty(p: Phase, c: Choice) {
    match p
    case Draining => c.Fails? || c.Mismatch?
    case Switching => c.Fails? || c.MissingView?
    case FallingBack => !c.Succeeds?
    case Resetting(_) => c.Fails?
    case Removing(_) => c.Fails?
    case Mounting => c.Fails?
    case Recovering => true
    case _ => false
  }

  predicate Failed(a: Attempt) {
    a.phase.Recovering? || (a.phase.Ended? && !a.phase.ok)
  }

  /** Once a stretch of a mount meets a failure, the mount never reports success. */
  lemma {:induction false} FailureIsReported(
    worlds: seq<World>, events: seq<Event>, m: nat, n: nat, id: nat, c: Choice)
    requires IsRun(worlds, events) && m < n <= |events| && events[m] == Go(id, c) && id in worlds[m].attempts
    requires Faulty(worlds[m].attempts[id].phase, c)
    ensures id in worlds[n].attempts && Failed(worlds[n].attempts[id])
  {
    if n == m + 1 {
      assert worlds[m + 1] == Next(worlds[m], events[m]);
    } else {
      FailureIsReported(worlds, events, m, n - 1, id, c);
      assert worlds[n] == Next(worlds[n - 1], events[n - 1]);
    }
  }

  /** A retry that fails is not the end: the fallback that follows it decides. */
  lemma RetryFallsBack(w: World, id: nat, first: Choice, then_: Choice)
    requires id in w.attempts && w.attempts[id].phase.Retrying? && !first.Succeeds?
    ensures Next(Next(w, Go(id, first)), Go(id, then_)).attempts[id].phase == Ended(then_.Succeeds?, false)
  {
  }

  // ------------------------------------------------------------------- draining

  /** Every task that is tracked or waited for has finished. */
  predicate Settled(t: Tasks) {
    && t.navigations <= t.finished && t.rollbacks <= t.finished
    && (t.drain.AwaitNavigations? || t.drain.AwaitRollbacks? ==> t.drain.snapshot <= t.finished)
  }

  /** How many more times the drain wakes at most. */
  function Wakes(t: Tasks): nat {
    match t.drain
    case Idle => 3
    case AwaitNavigations(s) => if t.navigations <= s then 2 else 4
    case AwaitRollbacks(s) => if t.navigations == {} && t.rollbacks <= s then 1 else 3
    case Drained => 0
  }

  predicate Tracks(e: TaskEvent) {
    e.TrackNavigation? || e.TrackRollback?
  }

  lemma HappenSettled(t: Tasks, e: TaskEvent)
    requires Settled(t) && !Tracks(e)
    ensures Settled(Happen(t, e))
    ensures Wakes(Happen(t, e)) <= if e.DrainStep? then Less(Wakes(t), 1) else Wakes(t)
  {
  }

  function Steps(events: seq<TaskEvent>, m: nat, n: nat): nat
    requires m <= n <= |events|
  {
    if m == n then 0 else Steps(events, m, n - 1) + if events[n - 1].DrainStep? then 1 else 0
  }

  lemma {:induction false} DrainGoesOn(states: seq<Tasks>, events: seq<TaskEvent>, m: nat, n: nat)
    requires IsTaskRun(states, events) && m <= n <= |events| && Settled(states[m])
    requires forall k :: m <= k < n ==> !Tracks(events[k])
    ensures Settled(states[n]) && Wakes(states[n]) <= Less(Wakes(states[m]), Steps(events, m, n))
  {
    if m < n {
      DrainGoesOn(states, events, m, n - 1);
      HappenSettled(states[n - 1], events[n - 1]);
    }
  }

  /** Draining ends: once all tasks have finished and no new ones come, it wakes at most four times more. */
  lemma DrainEnds(states: seq<Tasks>, events: seq<TaskEvent>, m: nat, n: nat)
    requires IsTaskRun(states, events) && m <= n <= |events| && Settled(states[m])
    requires forall k :: m <= k < n ==> !Tracks(events[k])
    requires Steps(events, m, n) >= 4
    ensures states[n].drain.Drained?
  {
    DrainGoesOn(states, events, m, n);
  }

  /** Every navigation that is waited for has finished or was cancelled. */
  lemma {:induction false} DrainCancels(states: seq<Tasks>, events: seq<TaskEvent>, n: nat)
    requires IsTaskRun(states, events) && n <= |events| && states[0].drain.Idle?
    ensures states[n].drain.AwaitNavigations? ==>
      states[n].drain.snapshot <= states[n].finished + states[n].cancelled
  {
    if n > 0 {
      DrainCancels(states, events, n - 1);
      assert states[n] == Happen(states[n - 1], events[n - 1]);
    }
  }

  /** Nothing else is cancelled: it was tracked as a navigation then, and had not finished. */
  lemma {:induction false} OnlyNavigationsCancelled(states: seq<Tasks>, events: seq<TaskEvent>, n: nat, x: nat)
    returns (m: nat)
    requires IsTaskRun(states, events) && n <= |events| && x in states[n].cancelled && x !in states[0].cancelled
    ensures m < n && events[m].DrainStep? && x in states[m].navigations && x !in states[m].finished
  {
    if x in states[n - 1].cancelled {
      m := OnlyNavigationsCancelled(states, events, n - 1, x);
    } else {
      m := n - 1;
      assert states[n] == Happen(states[m], events[m]);
    }
  }
}
