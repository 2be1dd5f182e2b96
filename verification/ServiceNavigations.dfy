/** The `ServiceNavigation` class: its fields, changed in place. */
module ServiceNavigations {
  import opened Wrappers
  import opened Navigation

  type Task = nat

  class ServiceNavigation {
    var generation: int
    var owner: Option<Owner>
    var closed: bool
    var navigations: set<Task>
    // The tasks cancel() has been called on.
    var cancelRequested: set<Task>

    function State(): Nav
      reads this
    {
      Nav(generation, owner, closed)
    }

    constructor ()
      ensures State() == FRESH && navigations == {} && cancelRequested == {}
    {
      generation, owner, closed, navigations, cancelRequested := 0, None, false, {}, {};
    }

    /** `finished` are the tasks that are done, `current` is the task that calls. */
    method AdvanceTo(name: string, cancelTableTasks: bool, current: Option<Task>, finished: set<Task>) returns (g: int)
      modifies this`generation, this`owner, this`cancelRequested
      ensures State() == Advance(old(State()), name) && Owns(State(), name, g)
      ensures forall t :: t in cancelRequested <==>
        t in old(cancelRequested) || (cancelTableTasks && t in navigations && Some(t) != current && t !in finished)
    {
      generation := generation + 1;
      owner := Some(Owner(name, generation));
      if cancelTableTasks {
        var rest := navigations;
        while rest != {}
          invariant rest <= navigations
          invariant forall t :: t in cancelRequested <==>
            t in old(cancelRequested) || (t in navigations - rest && Some(t) != current && t !in finished)
          decreases rest
          modifies this`cancelRequested
        {
          var task :| task in rest;
          if Some(task) != current && task !in finished { cancelRequested := cancelRequested + {task}; }
          rest := rest - {task};
        }
        assert navigations - rest == navigations;
      }
      g := generation;
    }

    method Supersede(current: Option<Task>, finished: set<Task>) returns (g: int)
      modifies this`generation, this`owner, this`cancelRequested
      ensures State() == Advance(old(State()), "external") && Owns(State(), "external", g)
      ensures forall t :: t in cancelRequested <==>
        t in old(cancelRequested) || (t in navigations && Some(t) != current && t !in finished)
    {
      g := AdvanceTo("external", true, current, finished);
    }

    /** The table takes over within the current generation; a stale generation changes nothing. */
    method ClaimTable(g: int) returns (ok: bool)
      modifies this`owner
      ensures State() == Claim(old(State()), g) && (ok <==> g == generation) && (ok ==> Owns(State(), "table", g))
    {
      if g != generation { return false; }
      owner := Some(Owner("table", g));
      return true;
    }

    method CloseIntake()
      modifies this`closed
      ensures State() == Apply(old(State()), CloseOp)
    {
      closed := true;
    }
  }
}
