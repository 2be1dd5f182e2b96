/** `InMemoryEmr` on its dictionaries; each method is what runs between two awaits. */
module EmrClient {
  import opened Wrappers
  import R = EmrRuns

  class InMemoryEmr {
    var apps: set<R.Text>
    var runs: map<R.Key, R.Summary>
    var details: map<R.Key, R.Detail>
    var runIdsByToken: map<R.Text, R.Id>
    var clock: int
    var nextRunSeq: nat
    var stateTasks: map<R.Key, R.Steps>
    ghost var home: map<R.Id, R.Text>

    ghost function State(): R.Emr
      reads this
    {
      R.Emr(apps, runs, details, runIdsByToken, clock, nextRunSeq, stateTasks, home)
    }

    constructor (clock: int)
      ensures State() == R.Emr({}, map[], map[], map[], clock, 1, map[], map[]) && R.Inv(State())
    {
      apps, runs, details, runIdsByToken, stateTasks, home := {}, map[], map[], map[], map[], map[];
      this.clock, nextRunSeq := clock, 1;
    }

    method ObserveTimestamp(timestamp: int)
      modifies this`clock
      ensures clock >= old(clock) && clock >= timestamp && (clock == old(clock) || clock == timestamp)
    {
      if timestamp > clock { clock := timestamp; }
    }

    method Tick(seconds: int) returns (now: int)
      modifies this`clock
      ensures now == clock == old(clock) + seconds
    {
      clock := clock + seconds;
      now := clock;
    }

    method SetRunState(k: R.Key, state: R.RunState, advanceSeconds: int)
      modifies this
      ensures State() == R.SetState(old(State()), k, state, advanceSeconds)
    {
      var priorUpdated :=
        if k in runs then runs[k].updated else if k in details then details[k].updated else clock;
      var updated := priorUpdated + advanceSeconds;
      ObserveTimestamp(updated);
      if k in runs { runs := runs[k := runs[k].(state := state, updated := updated)]; }
      if k in details {
        var detail := details[k];
        var duration := if R.Terminal(state) then Some(1000 * (updated - detail.created)) else detail.duration;
        details := details[k := detail.(state := state, updated := updated, duration := duration)];
      }
    }

    method CancelJobRun(k: R.Key) returns (r: Result<(), R.Error>)
      modifies this
      ensures R.Outcome(State(), r) == R.CancelRun(old(State()), k)
    {
      if k.0 !in apps || k !in runs { return Err(R.NotFound); }
      if runs[k].state in {R.Success, R.Failed, R.Cancelled} { return Ok(()); }
      SetRunState(k, R.Cancelled, 1);
      return Ok(());
    }

    method StartJobRun(app: R.Text, clientToken: R.Text, refused: bool) returns (r: Result<R.Id, R.Error>)
      modifies this
      ensures R.Outcome(State(), r) == R.StartRun(old(State()), app, clientToken, refused)
    {
      if refused { return Err(R.Refused); }
      if clientToken in runIdsByToken { return Ok(runIdsByToken[clientToken]); }
      var newId := R.RunId(nextRunSeq);
      nextRunSeq := nextRunSeq + 1;
      runIdsByToken := runIdsByToken[clientToken := newId];
      var ts := Tick(1);
      runs := runs[(app, newId) := R.Summary(R.Submitted, ts, ts)];
      details := details[(app, newId) := R.Detail(R.Submitted, ts, ts, None)];
      stateTasks := stateTasks[(app, newId) := 0];
      home := home[newId := app];
      return Ok(newId);
    }

    /** `_advance_state` from the end of one sleep to the start of the next. */
    method AdvanceState(k: R.Key)
      requires k in stateTasks
      modifies this
      ensures State() == R.Walk(old(State()), k)
    {
      if k in runs && runs[k].state.Cancelled? {
        stateTasks := stateTasks - {k};
        return;
      }
      var step := stateTasks[k];
      SetRunState(k, R.CHAIN[step + 1], R.PAUSES[step]);
      if step == 2 { stateTasks := stateTasks - {k}; } else { stateTasks := stateTasks[k := step + 1]; }
    }
  }
}
