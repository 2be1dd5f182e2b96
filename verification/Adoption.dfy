/**
 `_commit_staged_service_recovery`: a candidate and its staged view are adopted by
 a step of the root model that is left open, under a caller that may be cancelled
 again and again.
 */
module Adoption {
  import opened Wrappers

  datatype View = Staged | Shown | Removed

  datatype Failure = Cancelled | Failed

  /** How an adoption ended: it said whether it adopted, or it raised. */
  datatype Receipt = Said(adopted: bool) | Raised(failure: Failure)

  /** The model's host, the staged view and the input area, as one attempt sees them. */
  class StagedRecovery {
    // `root.content_host.current is recovery.vm`
    var hosted: bool
    var view: View
    // How often the navigation selection has been committed.
    var commits: nat
    var discarded: bool
    // The input area: whether it is disabled, and the app's claim on it.
    var areaDisabled: bool
    var workspaceClaimed: bool
    // The outgoing Athena page: disabled, its editor read-only and its admission closed.
    var pageClosed: bool
    // The local variables of the attempt.
    var inputClaimed: bool
    var savedDisabled: Option<bool>
    // Calls of claim_outgoing_input that reached the input area, and cancel() calls on the adoption.
    var claims: nat
    var cancelsSent: nat
    var cancelsAfterClaim: nat
    // How many more cancellations the caller gets: any number, but finite.
    var cancellations: nat

    constructor (areaDisabled: bool, cancellations: nat)
      ensures AfterStaging() && this.areaDisabled == areaDisabled
    {
      hosted, view, commits, discarded := false, Staged, 0, false;
      this.areaDisabled, workspaceClaimed, inputClaimed, savedDisabled := areaDisabled, false, false, None;
      pageClosed := false;
      claims, cancelsSent, cancelsAfterClaim, this.cancellations := 0, 0, 0, cancellations;
    }

    /** The staging host is mounted and hidden; adoption has not begun. */
    predicate AfterStaging()
      reads this
    {
      view == Staged && commits == 0 && !workspaceClaimed && !inputClaimed && !pageClosed && savedDisabled == None
      && claims == 0 && cancelsSent == 0 && cancelsAfterClaim == 0
    }

    /** The claim, and what it will put back. */
    predicate ClaimKept(wasDisabled: bool)
      reads this
    {
      && (workspaceClaimed ==> savedDisabled.Some?) && (claims > 0 <==> savedDisabled.Some?)
      && (if claims == 0 then areaDisabled == wasDisabled else areaDisabled)
      && (claims == 1 ==> savedDisabled == Some(wasDisabled))
      && (claims > 1 ==> savedDisabled == Some(true))
      && (pageClosed ==> inputClaimed)
    }

    /**
     `claim_outgoing_input`; `athena` tells whether an Athena page is going, `settled`
     whether it is attached with a settled editor, and `owns` and `stillOwns` what the
     two checks of ownership find.
     */
    method ClaimOutgoingInput(
      protect: bool, athena: bool, owns: bool, stillOwns: bool, settled: bool, ghost wasDisabled: bool)
      returns (ok: bool)
      requires ClaimKept(wasDisabled)
      modifies this`areaDisabled, this`workspaceClaimed, this`savedDisabled, this`claims, this`inputClaimed,
        this`pageClosed
      ensures ClaimKept(wasDisabled) && inputClaimed == (old(inputClaimed) || ok)
      ensures pageClosed == (old(pageClosed) || (ok && athena))
      ensures ok <==> owns && stillOwns && (athena ==> settled)
      ensures claims == old(claims) + if owns && protect then 1 else 0
      ensures workspaceClaimed == (old(workspaceClaimed) || (owns && protect))
    {
      if !owns { return false; }
      if protect {
        savedDisabled := Some(areaDisabled);
        areaDisabled := true;
        workspaceClaimed := true;
        claims := claims + 1;
      }
      if !stillOwns { return false; }
      if athena {
        if !settled { return false; }
        pageClosed := true;
      }
      inputClaimed := true;
      return true;
    }

    /** The adoption runs on to its next await, or to its end; it may claim and it may publish. */
    method AdoptionStep(protect: bool, ghost wasDisabled: bool, last: bool) returns (r: Option<Receipt>)
      requires ClaimKept(wasDisabled)
      modifies this`hosted, this`areaDisabled, this`workspaceClaimed, this`savedDisabled, this`claims,
        this`inputClaimed, this`pageClosed
      ensures ClaimKept(wasDisabled) && (old(inputClaimed) ==> inputClaimed) && (last ==> r.Some?)
      ensures !protect ==> claims == old(claims) && workspaceClaimed == old(workspaceClaimed)
    {
      var claimsNow: bool := *;
      if claimsNow {
        var athena: bool, owns: bool, stillOwns: bool, settled: bool := *, *, *, *;
        var ok := ClaimOutgoingInput(protect, athena, owns, stillOwns, settled, wasDisabled);
      }
      hosted := *;
      var receipt: Receipt := *;
      var more: bool := *;
      r := if more && !last then None else Some(receipt);
    }

    /** `adoption.cancel()`. */
    method CancelAdoption()
      modifies this`cancelsSent, this`cancelsAfterClaim
      ensures cancelsSent == old(cancelsSent) + 1
      ensures cancelsAfterClaim == old(cancelsAfterClaim) + if inputClaimed then 1 else 0
    {
      cancelsSent := cancelsSent + 1;
      if inputClaimed { cancelsAfterClaim := cancelsAfterClaim + 1; }
    }

    /**
     `protected_adopt`: the adoption is its own task.  A cancelled caller passes the
     cancellation on once, and only as long as the input is not claimed; it hears of its
     cancellation unless the adoption raised.
     */
    method ProtectedAdopt(steps: nat, ghost wasDisabled: bool) returns (r: Receipt, ghost own: Receipt)
      requires ClaimKept(wasDisabled) && cancelsSent == 0 && cancelsAfterClaim == 0
      modifies this
      ensures ClaimKept(wasDisabled) && view == old(view) && commits == old(commits) && discarded == old(discarded)
      ensures cancelsSent <= 1 && cancelsAfterClaim == 0 && cancellations <= old(cancellations)
      ensures cancellations == old(cancellations) ==> cancelsSent == 0
      ensures cancellations < old(cancellations) && !inputClaimed ==> cancelsSent == 1
      ensures r == if cancellations < old(cancellations) && own.Said? then Raised(Cancelled) else own
    {
      var done: Option<Receipt>, cancelled, left: nat := None, false, steps;
      while done.None?
        invariant ClaimKept(wasDisabled) && view == old(view) && commits == old(commits) && discarded == old(discarded)
        invariant cancelsSent <= 1 && cancelsAfterClaim == 0 && cancellations <= old(cancellations)
        invariant cancelled <==> cancellations < old(cancellations)
        invariant if cancelled then !inputClaimed ==> cancelsSent == 1 else cancelsSent == 0
        decreases left + cancellations, if done.None? then 1 else 0
      {
        var interrupted: bool := *;
        if interrupted && cancellations > 0 {
          cancellations := cancellations - 1;
          cancelled := true;
          if !inputClaimed && cancelsSent == 0 { CancelAdoption(); }
        } else {
          done := AdoptionStep(true, wasDisabled, left == 0);
          left := if left == 0 then 0 else left - 1;
        }
      }
      own := done.value;
      r := if cancelled && done.value.Said? then Raised(Cancelled) else done.value;
    }

    /** Adoption without protection is awaited in place. */
    method PlainAdopt(steps: nat, ghost wasDisabled: bool) returns (r: Receipt)
      requires ClaimKept(wasDisabled)
      modifies this`hosted, this`areaDisabled, this`workspaceClaimed, this`savedDisabled, this`claims,
        this`inputClaimed, this`pageClosed
      ensures ClaimKept(wasDisabled) && claims == old(claims) && workspaceClaimed == old(workspaceClaimed)
    {
      var done: Option<Receipt>, left: nat := None, steps;
      while done.None?
        invariant ClaimKept(wasDisabled) && claims == old(claims) && workspaceClaimed == old(workspaceClaimed)
        decreases left, if done.None? then 1 else 0
      {
        done := AdoptionStep(false, wasDisabled, left == 0);
        left := if left == 0 then 0 else left - 1;
      }
      r := done.value;
    }

    /**
     `finish_publication`: its own task commits the selection and shows the view, and
     is waited for whatever the caller gets.  Only a commit that raises stops it.
     */
    method FinishPublication(commitRaises: bool) returns (raised: Option<Failure>)
      modifies this`view, this`commits, this`cancellations, this`hosted
      ensures if commitRaises then view == old(view) && commits == old(commits)
              else view == Shown && commits == old(commits) + 1
      ensures cancellations <= old(cancellations)
      ensures raised == if commitRaises then Some(Failed)
                        else if cancellations < old(cancellations) then Some(Cancelled) else None
    {
      var begun, cleanups, cancelled := false, 2, false;
      while !begun || cleanups > 0
        invariant if begun then view == Shown && commits == old(commits) + 1 && !commitRaises
                  else view == old(view) && commits == old(commits)
        invariant cancellations <= old(cancellations) && (cancelled <==> cancellations < old(cancellations))
        decreases cancellations, cleanups, if begun then 0 else 1
      {
        var interrupted: bool := *;
        if interrupted && cancellations > 0 {
          cancellations := cancellations - 1;
          cancelled := true;
        } else if !begun {
          if commitRaises { return Some(Failed); }
          commits := commits + 1;
          view := Shown;
          begun := true;
        } else {
          // An outgoing child is removed; a failure to do so is only logged.
          cleanups := cleanups - 1;
          MoveOn();
        }
      }
      raised := if cancelled then Some(Cancelled) else None;
    }

    /** Once the adoption is over nothing hosts the candidate any more, but the host may move on. */
    method MoveOn()
      modifies this`hosted
      ensures hosted ==> old(hosted)
    {
      var leaves: bool := *;
      if leaves { hosted := false; }
    }

    /** `staging_host.remove()`: if it raises, the view may be gone or not. */
    method RemoveView(removal: Option<Failure>)
      requires view != Shown
      modifies this`view
      ensures removal.None? || old(view) == Removed ==> view == Removed
      ensures view != Shown
    {
      var stays: bool := *;
      if removal.None? || !stays { view := Removed; }
    }

    /** What became of the view: shown once if it was published, else taken away as far as that succeeded. */
    predicate Outcome(published: bool, commitRaises: bool, removal: Option<Failure>)
      reads this
    {
      if published then if commitRaises then view == Staged && commits == 0 else view == Shown && commits == 1
      else commits == 0 && view != Shown && (removal.None? ==> view == Removed)
    }

    /** What the caller gets when the candidate was neither adopted nor hosted and is taken away. */
    function TakenAway(removal: Option<Failure>, discard: Option<Failure>, second: Option<Failure>)
      : Result<bool, Failure>
    {
      if removal.None? && discard.None? then Ok(false)
      else if second == Some(Cancelled) then Err(Cancelled)
      else Err(if discard.Some? then discard.value else removal.value)
    }

    /**
     Adopt, then publish or take away, as `root.content_host.current` decides when the
     adoption is over; `hostedThen` is what it was.  `removal` and `second` are how the
     first and a second removal of the view end, `discard` how discarding the candidate does.
     */
    method AdoptAndPublish(protect: bool, steps: nat, commitRaises: bool, removal: Option<Failure>,
      discard: Option<Failure>, second: Option<Failure>, ghost wasDisabled: bool)
      returns (r: Result<bool, Failure>, ghost receipt: Receipt, ghost hostedThen: bool)
      requires AfterStaging() && areaDisabled == wasDisabled
      modifies this
      ensures ClaimKept(wasDisabled) && cancelsSent <= 1 && cancelsAfterClaim == 0
      ensures !protect ==> claims == 0 && !workspaceClaimed
      ensures Outcome(hostedThen || receipt == Said(true), commitRaises, removal)
      ensures r == Ok(false) ==> view == Removed && discarded
      ensures r == Ok(true) ==> view == Shown
      ensures r == Ok(true) <==>
        receipt.Said? && (receipt.adopted || hostedThen) && !commitRaises && cancellations == old(cancellations)
      ensures receipt == Said(false) && !hostedThen ==> r == TakenAway(removal, discard, second) && discarded
      ensures cancellations <= old(cancellations)
      ensures receipt.Raised? && !hostedThen ==>
        r == Err(if removal == Some(Cancelled) then Cancelled else receipt.failure)
      ensures receipt.Raised? && hostedThen && !commitRaises && cancellations == old(cancellations) ==>
        r == Err(receipt.failure)
    {
      var ended;
      ghost var own;
      if protect { ended, own := ProtectedAdopt(steps, wasDisabled); } else { ended := PlainAdopt(steps, wasDisabled); }
      receipt, hostedThen := ended, hosted;
      if ended.Said? && (ended.adopted || hosted) {
        var failed := FinishPublication(commitRaises);
        r := if failed.Some? then Err(failed.value) else Ok(true);
        return;
      }
      if ended.Raised? {
        var failure := HandleFailure(ended.failure, commitRaises, removal);
        r := Err(failure);
      } else {
        r := TakeAway(commitRaises, removal, discard, second);
      }
    }

    /** What was neither adopted nor hosted is taken away. */
    method TakeAway(commitRaises: bool, removal: Option<Failure>, discard: Option<Failure>, second: Option<Failure>)
      returns (r: Result<bool, Failure>)
      requires view == Staged && commits == 0 && !hosted
      modifies this`view, this`commits, this`cancellations, this`hosted, this`discarded
      ensures commits == 0 && view != Shown && (removal.None? ==> view == Removed) && discarded
      ensures r == TakenAway(removal, discard, second)
      ensures cancellations <= old(cancellations)
    {
      RemoveView(removal);
      discarded := true;
      MoveOn();
      if removal.None? && discard.None? { return Ok(false); }
      var failure := if discard.Some? then discard.value else removal.value;
      failure := HandleFailure(failure, commitRaises, second);
      r := Err(failure);
    }

    /** The exception handler: a hosted candidate is published all the same, else its view is removed. */
    method HandleFailure(failure: Failure, commitRaises: bool, removal: Option<Failure>) returns (raised: Failure)
      requires view != Shown && commits == 0 && (hosted ==> view == Staged)
      modifies this`view, this`commits, this`cancellations, this`hosted
      ensures cancellations <= old(cancellations)
      ensures if old(hosted) then if commitRaises then view == Staged && commits == 0 else view == Shown && commits == 1
              else commits == 0 && view != Shown && (removal.None? || old(view) == Removed ==> view == Removed)
      ensures !old(hosted) ==> raised == if removal == Some(Cancelled) then Cancelled else failure
      ensures old(hosted) && !commitRaises && cancellations == old(cancellations) ==> raised == failure
    {
      if hosted {
        var failed := FinishPublication(commitRaises);
        raised := if failed.Some? then failed.value else failure;
      } else {
        // An exception of this removal is suppressed; a cancellation is not one.
        RemoveView(removal);
        raised := if removal == Some(Cancelled) then Cancelled else failure;
      }
    }

    /**
     On every exit after staging the claim is released and the input area is as it
     was, unless it was claimed twice; an Athena page is closed only by a claim that
     succeeded.  The view is shown with its selection committed once, or removed with
     nothing committed as far as removing it succeeds, or left staged if the commit raised.
     */
    method CommitStagedRecovery(protect: bool, steps: nat, commitRaises: bool, removal: Option<Failure>,
      discard: Option<Failure>, second: Option<Failure>)
      returns (r: Result<bool, Failure>, ghost receipt: Receipt, ghost hostedThen: bool)
      requires AfterStaging()
      modifies this
      ensures !workspaceClaimed && (pageClosed ==> inputClaimed)
      ensures claims <= 1 || old(areaDisabled) ==> areaDisabled == old(areaDisabled)
      ensures claims > 1 && !old(areaDisabled) ==> areaDisabled
      ensures cancelsSent <= 1 && cancelsAfterClaim == 0
      ensures Outcome(hostedThen || receipt == Said(true), commitRaises, removal)
      ensures r == Ok(false) ==> view == Removed && discarded
      ensures r == Ok(true) ==> view == Shown
      ensures r == Ok(true) <==>
        receipt.Said? && (receipt.adopted || hostedThen) && !commitRaises && cancellations == old(cancellations)
      ensures receipt == Said(false) && !hostedThen ==> r == TakenAway(removal, discard, second) && discarded
    {
      ghost var wasDisabled := areaDisabled;
      r, receipt, hostedThen := AdoptAndPublish(protect, steps, commitRaises, removal, discard, second, wasDisabled);
      if protect && savedDisabled.Some? {
        areaDisabled := savedDisabled.value;
        workspaceClaimed := false;
      }
    }
  }
}
