/**
 The child process of a preview, from its start to its end: `_await_owned`, and the
 `finally` of `preview_parquet` that reaps it.  The caller may be cancelled again and
 again, by its deadline too.
 */
module OwnedProcess {
  import opened Wrappers

  datatype Failure = Cancelled | Failed

  datatype Process = Absent | Running | Reaped

  /** How a task ends. */
  datatype End = Returned | Raised | TaskCancelled

  /** A task that is owned: what it does to the process happens at its last step. */
  datatype Task = Starting | Reaping

  class Preview {
    var process: Process
    // How often the caller will still be cancelled: any number, but finite.
    var cancellations: nat

    constructor (cancellations: nat)
      ensures process == Absent
    {
      process, this.cancellations := Absent, cancellations;
    }

    /** The last step of a task. */
    method Conclude(task: Task, end: End)
      modifies this`process
      ensures process == if end != Returned then old(process) else if task == Starting then Running else Reaped
    {
      if end == Returned { process := if task == Starting then Running else Reaped; }
    }

    /**
     `_await_owned`: the task is waited for to its very end, and the cancellations met
     meanwhile are reported.  A cancellation is raised here only if the task itself was
     cancelled, or raised while the caller had been cancelled.
     */
    method AwaitOwned(task: Task, steps: nat, end: End) returns (r: Result<bool, Failure>)
      modifies this
      ensures process == if end != Returned then old(process) else if task == Starting then Running else Reaped
      ensures r.Ok? <==> end == Returned
      ensures end == TaskCancelled ==> r == Err(Cancelled)
      ensures cancellations <= old(cancellations)
      ensures old(cancellations) == cancellations ==> r == match end
        case Returned => Ok(false)
        case Raised => Err(Failed)
        case TaskCancelled => Err(Cancelled)
      ensures old(cancellations) > cancellations && end == Returned ==> r == Ok(true)
      ensures old(cancellations) > cancellations && end != Returned ==> r == Err(Cancelled)
    {
      var cancelled, left: nat := false, steps;
      while left > 0
        invariant process == old(process) && cancellations <= old(cancellations)
        invariant cancelled <==> cancellations < old(cancellations)
        decreases left + cancellations
      {
        var interrupted: bool := *;
        if interrupted && cancellations > 0 {
          cancellations := cancellations - 1;
          cancelled := true;
        } else {
          left := left - 1;
        }
      }
      Conclude(task, end);
      // The task may be over and the caller cancelled before it resumes.
      var late: bool := *;
      if late && cancellations > 0 {
        cancellations := cancellations - 1;
        cancelled := true;
      }
      match end
      case Returned => return Ok(cancelled);
      case Raised => return Err(if cancelled then Cancelled else Failed);
      case TaskCancelled => return Err(Cancelled);
    }

    /** Reading, sending and receiving: it goes as it goes, unless it is cancelled. */
    method Converse(goes: Option<Failure>) returns (raised: Option<Failure>)
      modifies this`cancellations
      ensures cancellations <= old(cancellations)
      ensures raised == if cancellations < old(cancellations) then Some(Cancelled) else goes
    {
      var interrupted: bool := *;
      if interrupted && cancellations > 0 {
        cancellations := cancellations - 1;
        return Some(Cancelled);
      }
      raised := goes;
    }

    /** What a task that did not return raises, to a caller that nothing cancelled. */
    function Reason(end: End): Failure {
      if end == Raised then Failed else Cancelled
    }

    /**
     `preview_parquet` around its conversation, which goes as `before` until the process
     is started and as `talk` after that; `caught` tells whether a failure becomes a raw
     preview.  A process that was started is kept even if the caller was cancelled
     meanwhile, and reaped on every exit; and no cancellation is lost.
     */
    method PreviewParquet(before: Option<Failure>, startSteps: nat, start: End, talk: Option<Failure>, caught: bool,
      reapSteps: nat, reap: End)
      returns (raised: Option<Failure>, ghost started: bool)
      requires process == Absent
      modifies this
      ensures process == if !started then Absent else if reap == Returned then Reaped else Running
      ensures started ==> before.None? && start == Returned
      ensures started && reap != Returned ==> raised.Some?
      ensures cancellations <= old(cancellations)
      ensures cancellations < old(cancellations) ==> raised == Some(Cancelled) || (started && reap != Returned)
      ensures cancellations == old(cancellations) ==> (started <==> before.None? && start == Returned)
      ensures cancellations == old(cancellations) ==>
        var met := if before.Some? then before else if started then talk else Some(Reason(start));
        raised == if started && reap != Returned then Some(Reason(reap))
                  else if met == Some(Failed) && caught then None else met
    {
      started := false;
      var kept := false;
      raised := Converse(before);
      if raised.None? {
        var owned := AwaitOwned(Starting, startSteps, start);
        match owned {
          case Err(failure) => raised := Some(failure);
          case Ok(cancelled) =>
            started, kept := true, true;
            if cancelled { raised := Some(Cancelled); } else { raised := Converse(talk); }
        }
      }
      // A failure becomes a raw preview, or is passed on.
      if raised == Some(Failed) && caught { raised := None; }
      if kept {
        var owned := AwaitOwned(Reaping, reapSteps, reap);
        match owned {
          case Err(failure) => raised := Some(failure);
          case Ok(cancelled) => if cancelled { raised := Some(Cancelled); }
        }
      }
    }
  }
}
