/** What each lifecycle call answers, told from the dictionaries it finds, and what later polls answer. */
module AthenaAnswers {
  import opened Wrappers
  import opened Bytes
  import opened StableDigest
  import opened AthenaQueries

  // --------------------------------------------------------------------- polls

  /** The next answer about this query says that it has succeeded, so its result is published first. */
  predicate SucceedsNext(c: Client, id: Id)
    requires id in c.executions
  {
    if id in c.indexes then c.indexes[id] == 2 else c.executions[id].state.Succeeded?
  }

  /** The next step of a query that was started here, told from its stored detail. */
  predicate StepTaken(c: Client, id: Id, d: Detail, e: Client)
    requires id in c.executions && id in c.indexes
  {
    var was, k := c.executions[id], c.indexes[id];
    && d.state == (if k == 0 then Queued else if k == 1 then Running else Succeeded)
    && (d.completed <==> d.state.Succeeded?)
    && d.context == was.context && d.location == was.location && d.reason == was.reason
    && e.executions == c.executions[id := d]
    && (if k < 2 then e.indexes == c.indexes[id := k + 1] && e.active == c.active
        else e.indexes == c.indexes - {id} && e.active == c.active - {id})
    && e.history == c.history && e.tokens == c.tokens && e.next == c.next && e.connection == c.connection
  }

  /**
   A poll is refused exactly for an unknown query or for a success that cannot be
   published; otherwise it answers the stored detail, or takes the query one step on.
   */
  lemma PollMeaning(c: Client, id: Id, published: bool)
    requires InStep(c)
    ensures var o := Poll(c, id, published);
            && (o.result == Err(NotFound) <==> id !in c.executions)
            && (o.result == Err(PublicationFailed) <==> id in c.executions && SucceedsNext(c, id) && !published)
            && (o.result.Err? ==> o.client == c && o.result.error in {NotFound, PublicationFailed})
            && (o.result.Ok? && id !in c.indexes ==> o == Outcome(c, Ok(c.executions[id])))
            && (o.result.Ok? && id in c.indexes ==> StepTaken(c, id, o.result.value, o.client))
  {
  }

  // --------------------------------------------------------------------- stops

  /** A stop succeeds exactly on a query under way; it cancels that one and touches nothing else. */
  lemma StopMeaning(c: Client, id: Id)
    requires InStep(c)
    ensures var o := Stop(c, id);
            && (o.result.Ok? <==> id in c.indexes)
            && (o.result.Err? ==> o == Outcome(c, Err(NotActive)))
            && (o.result.Ok? ==>
              var d := c.executions[id];
              && o.client.executions == c.executions[id := Detail(d.context, Cancelled, true, d.location, true)]
              && o.client.indexes == c.indexes - {id} && o.client.active == c.active - {id}
              && o.client.history == c.history && o.client.tokens == c.tokens && o.client.next == c.next
              && o.client.connection == c.connection)
  {
  }

  // -------------------------------------------------------------------- starts

  /** Where results go: the caller's choice counts only if there is one and the workgroup does not insist. */
  predicate RootOf(w: Workgroup, location: Option<Text>, root: Option<Text>) {
    if w.enforced || location.None? || location.value == [] then root == w.location else root == location
  }

  predicate Slashes(t: Text) {
    forall i :: 0 <= i < |t| ==> t[i] == 47
  }

  lemma {:induction false} TrimMeaning(t: Text) returns (slashes: Text)
    ensures t == TrimSlashes(t) + slashes && Slashes(slashes)
    ensures TrimSlashes(t) == [] || TrimSlashes(t)[|TrimSlashes(t)| - 1] != 47
  {
    if t != [] && t[|t| - 1] == 47 {
      var rest := TrimMeaning(t[..|t| - 1]);
      slashes := rest + [47];
      assert t == t[..|t| - 1] + [47];
    } else {
      slashes := [];
    }
  }

  /** A query that has just been started. */
  predicate Started(c: Client, s: Call, id: Id, e: Client, location: Option<Text>) {
    var w := s.request.context.workgroup;
    && id !in c.executions
    && e.executions == c.executions[id := Detail(s.request.context, Queued, false, location, false)]
    && e.indexes == c.indexes[id := 0] && e.active == c.active + {id}
    && e.history == c.history[w := [id] + Listing(c, w)]
    && e.tokens == c.tokens[s.token := Known(s.fingerprint, id)]
    && e.next == c.next + 1 && e.connection == c.connection
  }

  /**
   A start is refused for what was checked before, for a token used by another
   request, or for want of a place for its results; a known token is answered by its
   first query; any other starts one new query with its own place.
   */
  lemma StartMeaning(c: Client, s: Call)
    requires Fresh(c)
    ensures var o, known := Start(c, s), s.token in c.tokens;
            && (o.result == Err(Refused) <==> !s.admitted)
            && (o.result == Err(TokenReused) <==> s.admitted && known && c.tokens[s.token].fingerprint != s.fingerprint)
            && (o.result == Err(ResultConfigurationRequired) <==>
              s.admitted && !known && !s.workgroup.managed && RootOf(s.workgroup, s.request.location, None))
            && (o.result.Err? ==> o.client == c)
            && (o.result.Err? ==> o.result.error in {Refused, TokenReused, ResultConfigurationRequired})
            && (o.result.Ok? && known ==> o == Outcome(c, Ok(c.tokens[s.token].id)))
            && (o.result.Ok? && !known ==> exists root: Option<Text> ::
                  RootOf(s.workgroup, s.request.location, root)
                  && Started(c, s, o.result.value, o.client, OutputLocation(root, o.result.value)))
  {
    assert RootOf(s.workgroup, s.request.location, ResultRoot(s.workgroup, s.request.location));
  }

  // --------------------------------------------------------- what stays answered

  lemma EndedIsSettled(c: Client, id: Id)
    requires InStep(c) && id in c.executions
    ensures Terminal(c.executions[id].state) ==> id !in c.indexes
  {
    assert id in c.indexes ==> Current(c, id);
  }

  /** In a run whose calls do not overlap, every answer about a query that has ended is the same detail. */
  lemma EndedAnswers(worlds: seq<World>, ops: seq<Op>, m: nat, n: nat, id: Id, published: bool)
    requires IsRun(worlds, ops) && Sound(worlds[0]) && m <= n <= |ops|
    requires forall i :: 0 <= i < |ops| ==> Apart(ops[i])
    requires id in worlds[m].client.executions && Terminal(worlds[m].client.executions[id].state)
    ensures var r := Poll(worlds[n].client, id, published).result;
            if r.Ok? then r.value == worlds[m].client.executions[id]
            else r == Err(PublicationFailed) && worlds[m].client.executions[id].state.Succeeded? && !published
  {
    EndedForGood(worlds, ops, m, n, id);
    RunSound(worlds, ops, n);
    EndedIsSettled(worlds[n].client, id);
    PollMeaning(worlds[n].client, id, published);
  }

  lemma StopCancels(w: World, v: World, id: Id)
    requires InStep(w.client) && Stop(w.client, id).result.Ok? && v == Next(w, StopOp(id))
    ensures id in v.client.executions && Stopped(v.client.executions[id])
  {
    StopMeaning(w.client, id);
  }

  predicate Stopped(d: Detail) {
    d.state.Cancelled? && d.completed && d.reason
  }

  lemma StopInRun(worlds: seq<World>, ops: seq<Op>, m: nat, id: Id)
    requires IsRun(worlds, ops) && Sound(worlds[0]) && m < |ops| && ops[m] == StopOp(id)
    requires Stop(worlds[m].client, id).result.Ok?
    ensures id in worlds[m + 1].client.executions && Stopped(worlds[m + 1].client.executions[id])
  {
    RunSound(worlds, ops, m);
    StopCancels(worlds[m], Next(worlds[m], ops[m]), id);
  }

  /** And so, once a stop has succeeded, every later poll of that query reports it cancelled. */
  lemma StoppedStaysCancelled(worlds: seq<World>, ops: seq<Op>, m: nat, n: nat, id: Id, published: bool)
    requires IsRun(worlds, ops) && Sound(worlds[0]) && m < n <= |ops| && ops[m] == StopOp(id)
    requires forall i :: 0 <= i < |ops| ==> Apart(ops[i])
    requires Stop(worlds[m].client, id).result.Ok?
    ensures var r := Poll(worlds[n].client, id, published).result;
            r.Ok? && Stopped(r.value)
  {
    StopInRun(worlds, ops, m, id);
    EndedAnswers(worlds, ops, m + 1, n, id, published);
  }
}
