/**
 The query lifecycle of the demo Athena client, as functions on its dictionaries:
 starting with an idempotent request token, polling and stopping.
 */
module AthenaQueries {
  import opened Wrappers
  import opened Bytes
  import opened StableDigest
  import ListTokens

  type Hash = ListTokens.Hash

  datatype QueryState = Queued | Running | Succeeded | Failed | Cancelled

  const STARTED_STATES: seq<QueryState> := [Queued, Running, Succeeded]

  predicate Terminal(s: QueryState) {
    s.Succeeded? || s.Failed? || s.Cancelled?
  }

  datatype Context = Context(connection: Text, region: Text, workgroup: Text, catalog: Text, database: Text)

  /** A start request; the reuse age is its decimal text. */
  datatype Request = Request(sql: Text, context: Context, location: Option<Text>, age: Option<Text>)

  type Id = Text

  /** A place in `_STARTED_STATES`. */
  type Index = k: nat | k < 3

  datatype Detail = Detail(context: Context, state: QueryState, completed: bool, location: Option<Text>, reason: bool)

  datatype Known = Known(fingerprint: Bytes, id: Id)

  datatype Error = NotFound | TokenReused | ResultConfigurationRequired | NotActive | Refused | PublicationFailed

  /** The client: its two texts, and its dictionaries. */
  datatype Client = Client(
    connection: Text, executions: map<Id, Detail>, history: map<Text, seq<Id>>, tokens: map<Bytes, Known>,
    indexes: map<Id, Index>, active: set<Id>, next: nat)

  // -------------------------------------------------------------- fingerprints

  function Labels(r: Request): seq<Option<Text>> {
    [Some(r.sql), Some(r.context.connection), Some(r.context.region), Some(r.context.workgroup),
     Some(r.context.catalog), Some(r.context.database), r.location]
  }

  predicate RequestWritable(r: Request) {
    TextsWritable(Labels(r)) && TextsWritable([r.age])
  }

  /** `request_fingerprint`. */
  function RequestPrint(sha: Bytes -> Hash, r: Request): Bytes
    requires RequestWritable(r)
  {
    sha(FingerprintStream(Labels(r))) + AgePrint(sha, r.age)
  }

  /** `token_fingerprint`. */
  function TokenPrint(sha: Bytes -> Hash, token: Text): Bytes
    requires TextsWritable([Some(token)])
  {
    sha(FingerprintStream([Some(token)]))
  }

  predicate NoCollision(sha: Bytes -> Hash, a: Bytes, b: Bytes) {
    sha(a) == sha(b) ==> a == b
  }

  predicate Distinguishes(sha: Bytes -> Hash, a: Request, b: Request)
    requires RequestWritable(a) && RequestWritable(b)
  {
    && NoCollision(sha, FingerprintStream(Labels(a)), FingerprintStream(Labels(b)))
    && NoCollision(sha, FingerprintStream([a.age]), FingerprintStream([b.age]))
  }

  lemma SplitPrint(a: Hash, x: Bytes, b: Hash, y: Bytes)
    requires a + x == b + y
    ensures a == b && x == y
  {
    assert (a + x)[..32] == a && (a + x)[32..] == x;
    assert (b + y)[..32] == b && (b + y)[32..] == y;
  }

  /** A print is a hash, and for a reuse age a second one: the lengths tell the two kinds apart. */
  function AgePrint(sha: Bytes -> Hash, age: Option<Text>): Bytes
    requires TextsWritable([age])
  {
    if age.Some? then sha(FingerprintStream([age])) else []
  }

  lemma AgePrintIdentifies(sha: Bytes -> Hash, a: Option<Text>, b: Option<Text>)
    requires TextsWritable([a]) && TextsWritable([b])
    requires NoCollision(sha, FingerprintStream([a]), FingerprintStream([b]))
    requires AgePrint(sha, a) == AgePrint(sha, b)
    ensures a == b
  {
    if a.Some? && b.Some? {
      FingerprintStreamInjective([a], [b]);
      assert [a][0] == [b][0];
    }
  }

  /** Where the hash does not collide on their streams, equal fingerprints mean equal requests. */
  lemma RequestPrintIdentifies(sha: Bytes -> Hash, a: Request, b: Request)
    requires RequestWritable(a) && RequestWritable(b) && Distinguishes(sha, a, b)
    ensures RequestPrint(sha, a) == RequestPrint(sha, b) <==> a == b
  {
    if RequestPrint(sha, a) == RequestPrint(sha, b) {
      SplitPrint(sha(FingerprintStream(Labels(a))), AgePrint(sha, a.age), sha(FingerprintStream(Labels(b))),
        AgePrint(sha, b.age));
      FingerprintStreamInjective(Labels(a), Labels(b));
      AgePrintIdentifies(sha, a.age, b.age);
    }
  }

  // ------------------------------------------------------------- execution ids

  /** `"-app-"`. */
  const APP: Text := [45, 97, 112, 112, 45]

  function ExecutionId(connection: Text, n: nat): Id {
    connection + APP + Padded(n, 4)
  }

  /** Padding to four digits never makes two execution numbers alike. */
  lemma ExecutionIdInjective(connection: Text, m: nat, n: nat)
    requires ExecutionId(connection, m) == ExecutionId(connection, n)
    ensures m == n
  {
    var k := |connection + APP|;
    assert ExecutionId(connection, m)[k..] == Padded(m, 4) && ExecutionId(connection, n)[k..] == Padded(n, 4);
    PaddedInjective(m, n, 4);
  }

  // --------------------------------------------------------------- operations

  datatype Outcome<+T> = Outcome(client: Client, result: Result<T, Error>)

  /** The workgroup settings a start depends on. */
  datatype Workgroup = Workgroup(location: Option<Text>, enforced: bool, managed: bool)

  function ResultRoot(w: Workgroup, location: Option<Text>): Option<Text> {
    if w.enforced then w.location else if location.Some? && location.value != [] then location else w.location
  }

  /** `root.rstrip("/")`. */
  function TrimSlashes(t: Text): Text {
    if t != [] && t[|t| - 1] == 47 then TrimSlashes(t[..|t| - 1]) else t
  }

  const CSV: Text := [46, 99, 115, 118]

  function OutputLocation(root: Option<Text>, id: Id): Option<Text> {
    if root.None? then None else Some(TrimSlashes(root.value) + [47] + id + CSV)
  }

  function Listing(c: Client, workgroup: Text): seq<Id> {
    if workgroup in c.history then c.history[workgroup] else []
  }

  /** The client after a fresh start. */
  function Launch(c: Client, request: Request, root: Option<Text>, token: Bytes, fingerprint: Bytes): Client {
    var id, w := ExecutionId(c.connection, c.next), request.context.workgroup;
    c.(executions := c.executions[id := Detail(request.context, Queued, false, OutputLocation(root, id), false)],
       history := c.history[w := [id] + Listing(c, w)],
       tokens := c.tokens[token := Known(fingerprint, id)],
       indexes := c.indexes[id := 0], active := c.active + {id}, next := c.next + 1)
  }

  /** A start as it reaches the dictionaries: the request, and the fingerprints of its token and of itself. */
  datatype Call = Call(request: Request, token: Bytes, fingerprint: Bytes, admitted: bool, workgroup: Workgroup)

  /** `start_query`; `admitted` says whether everything checked before the token passes. */
  function Start(c: Client, s: Call): Outcome<Id> {
    var root := ResultRoot(s.workgroup, s.request.location);
    if !s.admitted then Outcome(c, Err(Refused))
    else if s.token in c.tokens then
      if c.tokens[s.token].fingerprint != s.fingerprint then Outcome(c, Err(TokenReused))
      else Outcome(c, Ok(c.tokens[s.token].id))
    else if root.None? && !s.workgroup.managed then Outcome(c, Err(ResultConfigurationRequired))
    else Outcome(Launch(c, s.request, root, s.token, s.fingerprint), Ok(ExecutionId(c.connection, c.next)))
  }

  predicate CallWritable(token: Text, request: Request) {
    RequestWritable(request) && TextsWritable([Some(token)])
  }

  /** The call a client makes with a token and a request; what has no fingerprint is refused. */
  function CallOf(sha: Bytes -> Hash, token: Text, request: Request, admitted: bool, w: Workgroup): Call {
    if CallWritable(token, request) then Call(request, TokenPrint(sha, token), RequestPrint(sha, request), admitted, w)
    else Call(request, [], [], false, w)
  }

  /** What `get_query_execution` has found when it may have to wait for a publication. */
  datatype Look =
    | Missing
    | Settled(detail: Detail)
    | Republish(detail: Detail)
    | Step(detail: Detail)
    | PublishThenStep(detail: Detail)

  function Moved(d: Detail, s: QueryState): Detail {
    d.(state := s, completed := Terminal(s))
  }

  function LookAt(c: Client, id: Id): Look {
    if id !in c.executions then Missing
    else if id !in c.indexes then
      if c.executions[id].state.Succeeded? then Republish(c.executions[id]) else Settled(c.executions[id])
    else
      var d := Moved(c.executions[id], STARTED_STATES[c.indexes[id]]);
      if d.state.Succeeded? then PublishThenStep(d) else Step(d)
  }

  /** The writes of a poll that read the state index k. */
  function Write(c: Client, id: Id, d: Detail, k: Index): Client {
    var e := c.(executions := c.executions[id := d]);
    if k < 2 then e.(indexes := c.indexes[id := k + 1])
    else e.(active := c.active - {id}, indexes := c.indexes - {id})
  }

  /** `get_query_execution`, when nothing else runs while it publishes. */
  function Poll(c: Client, id: Id, published: bool): Outcome<Detail> {
    match LookAt(c, id)
    case Missing => Outcome(c, Err(NotFound))
    case Settled(d) => Outcome(c, Ok(d))
    case Republish(d) => Outcome(c, if published then Ok(d) else Err(PublicationFailed))
    case Step(d) => Outcome(Write(c, id, d, c.indexes[id]), Ok(d))
    case PublishThenStep(d) =>
      if published then Outcome(Write(c, id, d, 2), Ok(d)) else Outcome(c, Err(PublicationFailed))
  }

  /** `stop_query`. */
  function Stop(c: Client, id: Id): Outcome<()> {
    if id !in c.active || id !in c.executions then Outcome(c, Err(NotActive))
    else
      Outcome(c.(executions := c.executions[id := Moved(c.executions[id], Cancelled).(reason := true)],
                 active := c.active - {id}, indexes := c.indexes - {id}), Ok(()))
  }

  // ------------------------------------------------------------------ invariant

  /** The active queries are those with a state index, and their state is the one before it. */
  ghost predicate InStep(c: Client) {
    && c.active == c.indexes.Keys
    && (forall id :: id in c.indexes ==> id in c.executions && Current(c, id))
  }

  predicate Current(c: Client, id: Id)
    requires id in c.indexes && id in c.executions
  {
    var d := c.executions[id];
    d.state == STARTED_STATES[if c.indexes[id] == 0 then 0 else c.indexes[id] - 1] && !d.completed
  }

  /** The history lists every execution once, under its workgroup. */
  ghost predicate Listed(c: Client) {
    && (forall w, i :: w in c.history && 0 <= i < |c.history[w]| ==>
          c.history[w][i] in c.executions && c.executions[c.history[w][i]].context.workgroup == w)
    && (forall w, i, j :: w in c.history && 0 <= i < j < |c.history[w]| ==> c.history[w][i] != c.history[w][j])
    && (forall id :: id in c.executions ==> id in Listing(c, c.executions[id].context.workgroup))
  }

  /** Numbers not yet used name no execution; tokens stand for different executions. */
  ghost predicate Fresh(c: Client) {
    && (forall n: nat :: n >= c.next ==> ExecutionId(c.connection, n) !in c.executions)
    && (forall t :: t in c.tokens ==> c.tokens[t].id in c.executions)
    && (forall t, u :: t in c.tokens && u in c.tokens && c.tokens[t].id == c.tokens[u].id ==> t == u)
  }

  ghost predicate Inv(c: Client) {
    InStep(c) && Listed(c) && Fresh(c)
  }

  /** The detail of one execution was replaced. */
  predicate Replaced(c: Client, id: Id, d: Detail, e: Client) {
    && id in c.executions && d.context == c.executions[id].context
    && e.executions == c.executions[id := d] && e.history == c.history
    && e.tokens == c.tokens && e.connection == c.connection && e.next == c.next
  }

  lemma ReplacedListed(c: Client, id: Id, d: Detail, e: Client)
    requires Listed(c) && Replaced(c, id, d, e)
    ensures Listed(e)
  {
  }

  lemma LaunchListed(c: Client, request: Request, root: Option<Text>, token: Bytes, fingerprint: Bytes)
    requires Listed(c) && Fresh(c)
    ensures Listed(Launch(c, request, root, token, fingerprint))
  {
    var e := Launch(c, request, root, token, fingerprint);
    var id, w := ExecutionId(c.connection, c.next), request.context.workgroup;
    var old_, new_ := Listing(c, w), [id] + Listing(c, w);
    assert id !in c.executions;
    assert id !in old_;
    forall x | x in e.executions ensures x in Listing(e, e.executions[x].context.workgroup) {
      if x == id {
        assert new_[0] == id;
      } else if c.executions[x].context.workgroup == w {
        var i :| 0 <= i < |old_| && old_[i] == x;
        assert new_[i + 1] == x;
      }
    }
  }

  lemma LaunchFresh(c: Client, request: Request, root: Option<Text>, token: Bytes, fingerprint: Bytes)
    requires Fresh(c) && token !in c.tokens
    ensures Fresh(Launch(c, request, root, token, fingerprint))
  {
    var e := Launch(c, request, root, token, fingerprint);
    forall n: nat | n >= e.next ensures ExecutionId(e.connection, n) !in e.executions {
      if ExecutionId(c.connection, n) == ExecutionId(c.connection, c.next) {
        ExecutionIdInjective(c.connection, n, c.next);
      }
    }
  }

  lemma LaunchInStep(c: Client, request: Request, root: Option<Text>, token: Bytes, fingerprint: Bytes)
    requires InStep(c)
    ensures InStep(Launch(c, request, root, token, fingerprint))
  {
    var e := Launch(c, request, root, token, fingerprint);
    var id := ExecutionId(c.connection, c.next);
    forall x | x in e.indexes ensures x in e.executions && Current(e, x) {
      if x != id { assert Current(c, x); }
    }
  }

  lemma LaunchKeepsInv(c: Client, request: Request, root: Option<Text>, token: Bytes, fingerprint: Bytes)
    requires Inv(c) && token !in c.tokens
    ensures Inv(Launch(c, request, root, token, fingerprint))
  {
    LaunchInStep(c, request, root, token, fingerprint);
    LaunchListed(c, request, root, token, fingerprint);
    LaunchFresh(c, request, root, token, fingerprint);
  }

  lemma StartKeepsInv(c: Client, s: Call)
    requires Inv(c)
    ensures Inv(Start(c, s).client)
  {
    if s.token !in c.tokens {
      LaunchKeepsInv(c, s.request, ResultRoot(s.workgroup, s.request.location), s.token, s.fingerprint);
    }
  }

  lemma WriteInStep(c: Client, id: Id, k: Index)
    requires InStep(c) && id in c.indexes && c.indexes[id] == k
    ensures id in c.executions && InStep(Write(c, id, Moved(c.executions[id], STARTED_STATES[k]), k))
  {
    var e := Write(c, id, Moved(c.executions[id], STARTED_STATES[k]), k);
    forall x | x in e.indexes ensures x in e.executions && Current(e, x) {
      assert Current(c, x);
    }
  }

  lemma WriteKeepsInv(c: Client, id: Id, k: Index)
    requires Inv(c) && id in c.indexes && c.indexes[id] == k
    ensures id in c.executions && Inv(Write(c, id, Moved(c.executions[id], STARTED_STATES[k]), k))
  {
    WriteInStep(c, id, k);
    var d := Moved(c.executions[id], STARTED_STATES[k]);
    ReplacedListed(c, id, d, Write(c, id, d, k));
  }

  lemma PollWrites(c: Client, id: Id, published: bool)
    ensures var e := Poll(c, id, published).client;
            e == c || (id in c.indexes && id in c.executions
                       && e == Write(c, id, Moved(c.executions[id], STARTED_STATES[c.indexes[id]]), c.indexes[id]))
  {
  }

  lemma PollKeepsInv(c: Client, id: Id, published: bool)
    requires Inv(c)
    ensures Inv(Poll(c, id, published).client)
  {
    PollWrites(c, id, published);
    if Poll(c, id, published).client != c {
      WriteKeepsInv(c, id, c.indexes[id]);
    }
  }

  lemma StopInStep(c: Client, id: Id)
    requires InStep(c)
    ensures InStep(Stop(c, id).client)
  {
    var e := Stop(c, id).client;
    forall x | x in e.indexes ensures x in e.executions && Current(e, x) {
      assert Current(c, x);
    }
  }

  lemma StopKeepsInv(c: Client, id: Id)
    requires Inv(c)
    ensures Inv(Stop(c, id).client)
  {
    StopInStep(c, id);
    if Stop(c, id).result.Ok? {
      var e := Stop(c, id).client;
      ReplacedListed(c, id, e.executions[id], e);
    }
  }

  // ----------------------------------------------------------------------- runs

  /** A poll that is waiting for its publication. */
  datatype Pending = Pending(id: Id, detail: Detail)

  datatype World = World(client: Client, open: map<nat, Pending>)

  /** Whole calls, and the two halves of a poll that publishes while other calls run. */
  datatype Op =
    | StartOp(call: Call)
    | PollOp(id: Id, published: bool)
    | StopOp(id: Id)
    | OpenOp(handle: nat, id: Id)
    | CloseOp(handle: nat, published: bool)

  function Next(w: World, op: Op): World {
    var c := w.client;
    match op
    case StartOp(s) => w.(client := Start(c, s).client)
    case PollOp(id, published) => w.(client := Poll(c, id, published).client)
    case StopOp(id) => w.(client := Stop(c, id).client)
    case OpenOp(h, id) =>
      if h !in w.open && LookAt(c, id).PublishThenStep?
      then w.(open := w.open[h := Pending(id, LookAt(c, id).detail)])
      else w
    case CloseOp(h, published) =>
      if h !in w.open then w
      else World(if published then Write(c, w.open[h].id, w.open[h].detail, 2) else c, w.open - {h})
  }

  /** A waiting poll belongs to a query that is at its last step, or has ended meanwhile. */
  predicate Waits(c: Client, p: Pending) {
    && p.id in c.executions && p.detail.context == c.executions[p.id].context && p.detail.state.Succeeded?
    && (if p.id in c.indexes then p.detail == Moved(c.executions[p.id], Succeeded) && c.indexes[p.id] == 2
        else Terminal(c.executions[p.id].state))
  }

  ghost predicate Sound(w: World) {
    Inv(w.client) && forall h :: h in w.open ==> Waits(w.client, w.open[h])
  }

  lemma CloseInStep(c: Client, p: Pending)
    requires InStep(c) && Waits(c, p)
    ensures InStep(Write(c, p.id, p.detail, 2))
  {
    var e := Write(c, p.id, p.detail, 2);
    forall x | x in e.indexes ensures x in e.executions && Current(e, x) { assert Current(c, x); }
  }

  lemma CloseKeepsInv(c: Client, p: Pending)
    requires Inv(c) && Waits(c, p)
    ensures Inv(Write(c, p.id, p.detail, 2))
  {
    CloseInStep(c, p);
    ReplacedListed(c, p.id, p.detail, Write(c, p.id, p.detail, 2));
  }

  lemma StartWaits(c: Client, s: Call, p: Pending)
    requires Fresh(c) && Waits(c, p)
    ensures Waits(Start(c, s).client, p)
  {
    assert ExecutionId(c.connection, c.next) !in c.executions;
  }

  lemma PollWaits(c: Client, id: Id, published: bool, p: Pending)
    requires InStep(c) && Waits(c, p)
    ensures Waits(Poll(c, id, published).client, p)
  {
    PollWrites(c, id, published);
  }

  lemma CloseWaits(c: Client, q: Pending, p: Pending)
    requires InStep(c) && Waits(c, q) && Waits(c, p)
    ensures Waits(Write(c, q.id, q.detail, 2), p)
  {
  }

  /** Every step keeps the dictionaries in order, overlapping publications included. */
  lemma NextSound(w: World, op: Op)
    requires Sound(w)
    ensures Sound(Next(w, op))
  {
    var c, v := w.client, Next(w, op);
    match op
    case StartOp(s) =>
      StartKeepsInv(c, s);
      forall h | h in w.open ensures Waits(v.client, w.open[h]) { StartWaits(c, s, w.open[h]); }
    case PollOp(id, published) =>
      PollKeepsInv(c, id, published);
      forall h | h in w.open ensures Waits(v.client, w.open[h]) { PollWaits(c, id, published, w.open[h]); }
    case StopOp(id) => StopKeepsInv(c, id);
    case OpenOp(h, id) => OpenWaits(c, id);
    case CloseOp(h, published) =>
      if h in w.open {
        CloseKeepsInv(c, w.open[h]);
        forall x | x in v.open ensures Waits(v.client, v.open[x]) { CloseWaits(c, w.open[h], w.open[x]); }
      }
  }

  lemma OpenWaits(c: Client, id: Id)
    requires InStep(c)
    ensures LookAt(c, id).PublishThenStep? ==> Waits(c, Pending(id, LookAt(c, id).detail))
  {
  }

  // ------------------------------------------------------- terminal for good

  /** A publication that was overtaken by a stop ends after it. */
  predicate Overwrites(w: World, op: Op) {
    op.CloseOp? && op.published && op.handle in w.open
    && var p := w.open[op.handle];
       p.id in w.client.executions && p.id !in w.client.active && w.client.executions[p.id] != p.detail
  }

  ghost predicate TerminalKept(c: Client, e: Client) {
    forall id :: id in c.executions && Terminal(c.executions[id].state) ==>
      id in e.executions && e.executions[id] == c.executions[id]
  }

  lemma StartKeepsTerminal(c: Client, s: Call)
    requires Fresh(c)
    ensures TerminalKept(c, Start(c, s).client)
  {
    assert ExecutionId(c.connection, c.next) !in c.executions;
  }

  lemma PollKeepsTerminal(c: Client, id: Id, published: bool)
    requires InStep(c)
    ensures TerminalKept(c, Poll(c, id, published).client)
  {
    PollWrites(c, id, published);
    if id in c.indexes { assert Current(c, id); }
  }

  lemma StopKeepsTerminal(c: Client, id: Id)
    requires InStep(c)
    ensures TerminalKept(c, Stop(c, id).client)
  {
    if id in c.active { assert id in c.indexes && Current(c, id); }
  }

  lemma CloseOverwrites(c: Client, p: Pending)
    requires InStep(c) && Waits(c, p)
    ensures TerminalKept(c, Write(c, p.id, p.detail, 2)) <==> p.id in c.active || c.executions[p.id] == p.detail
  {
    var e := Write(c, p.id, p.detail, 2);
    assert e.executions[p.id] == p.detail;
    if p.id in c.indexes { assert Current(c, p.id); }
  }

  /** A query that has ended stays as it is, except exactly when a late publication overwrites it. */
  lemma TerminalStays(w: World, op: Op)
    requires Sound(w)
    ensures TerminalKept(w.client, Next(w, op).client) <==> !Overwrites(w, op)
  {
    var c := w.client;
    match op
    case StartOp(s) => StartKeepsTerminal(c, s);
    case PollOp(id, published) => PollKeepsTerminal(c, id, published);
    case StopOp(id) => StopKeepsTerminal(c, id);
    case OpenOp(h, id) =>
    case CloseOp(h, published) =>
      if h in w.open {
        CloseOverwrites(c, w.open[h]);
      }
  }

  /** It can happen: a stop lands while the third poll is publishing, and is undone. */
  lemma StopDuringPublication(c: Client, id: Id, h: nat)
    requires InStep(c) && id in c.indexes && c.indexes[id] == 2
    ensures LookAt(c, id).PublishThenStep?
    ensures var p, stopped := Pending(id, LookAt(c, id).detail), Stop(c, id).client;
            && id in stopped.executions && stopped.executions[id].state.Cancelled?
            && Overwrites(World(stopped, map[h := p]), CloseOp(h, true))
            && Write(stopped, id, p.detail, 2).executions[id].state.Succeeded?
  {
  }

  // ---------------------------------------------------------- whole histories

  ghost predicate IsRun(worlds: seq<World>, ops: seq<Op>) {
    && |worlds| == |ops| + 1
    && (forall i {:trigger ops[i]} :: 0 <= i < |ops| ==> worlds[i + 1] == Next(worlds[i], ops[i]))
  }

  lemma {:induction false} RunSound(worlds: seq<World>, ops: seq<Op>, n: nat)
    requires IsRun(worlds, ops) && Sound(worlds[0]) && n <= |ops|
    ensures Sound(worlds[n])
  {
    if n > 0 {
      RunSound(worlds, ops, n - 1);
      NextSound(worlds[n - 1], ops[n - 1]);
    }
  }

  predicate Apart(op: Op) {
    !op.OpenOp? && !op.CloseOp?
  }

  /** In a run whose calls do not overlap, a query that has ended never changes again. */
  lemma {:induction false} EndedForGood(worlds: seq<World>, ops: seq<Op>, m: nat, n: nat, id: Id)
    requires IsRun(worlds, ops) && Sound(worlds[0]) && m <= n <= |ops|
    requires forall i :: 0 <= i < |ops| ==> Apart(ops[i])
    requires id in worlds[m].client.executions && Terminal(worlds[m].client.executions[id].state)
    ensures id in worlds[n].client.executions && worlds[n].client.executions[id] == worlds[m].client.executions[id]
  {
    if m < n {
      EndedForGood(worlds, ops, m, n - 1, id);
      RunSound(worlds, ops, n - 1);
      assert Apart(ops[n - 1]);
      TerminalStays(worlds[n - 1], ops[n - 1]);
    }
  }

  /** A poll of the query answers, at once or after its publication, and so takes the query a step on. */
  predicate Answers(w: World, op: Op, id: Id) {
    || (op.PollOp? && op.id == id && Poll(w.client, id, op.published).result.Ok?)
    || (op.CloseOp? && op.published && op.handle in w.open && w.open[op.handle].id == id)
  }

  predicate Disturbs(op: Op, id: Id) {
    op.StopOp? && op.id == id
  }

  /** How many of the steps from m up to n are answered polls of the query. */
  function Polls(worlds: seq<World>, ops: seq<Op>, id: Id, m: nat, n: nat): nat
    requires m <= n <= |ops| <= |worlds|
    decreases n
  {
    if m == n then 0 else Polls(worlds, ops, id, m, n - 1) + if Answers(worlds[n - 1], ops[n - 1], id) then 1 else 0
  }

  /** Where a query is after k answered polls. */
  predicate AfterPolls(c: Client, id: Id, k: nat) {
    && id in c.executions
    && (if k < 3 then id in c.indexes && c.indexes[id] == k else id !in c.indexes && c.executions[id].state.Succeeded?)
  }

  lemma PollAdvances(c: Client, id: Id, published: bool, k: nat)
    requires InStep(c) && AfterPolls(c, id, k)
    ensures var o := Poll(c, id, published);
            && AfterPolls(o.client, id, if o.result.Ok? then k + 1 else k)
            && (o.result.Ok? ==> o.result.value.state == STARTED_STATES[if k < 2 then k else 2])
            && (o.result.Err? ==> o.client == c && k >= 2 && !published)
  {
  }

  lemma StartLeavesAlone(c: Client, s: Call, id: Id, k: nat)
    requires Fresh(c) && AfterPolls(c, id, k)
    ensures AfterPolls(Start(c, s).client, id, k)
  {
    assert ExecutionId(c.connection, c.next) !in c.executions;
  }

  lemma PollLeavesAlone(c: Client, other: Id, published: bool, id: Id, k: nat)
    requires InStep(c) && AfterPolls(c, id, k) && other != id
    ensures AfterPolls(Poll(c, other, published).client, id, k)
  {
    PollWrites(c, other, published);
  }

  lemma OthersLeaveAlone(w: World, op: Op, id: Id, k: nat)
    requires Sound(w) && AfterPolls(w.client, id, k) && !Disturbs(op, id)
    requires !(op.PollOp? && op.id == id) && !(op.CloseOp? && op.handle in w.open && w.open[op.handle].id == id)
    ensures AfterPolls(Next(w, op).client, id, k)
  {
    match op
    case StartOp(s) => StartLeavesAlone(w.client, s, id, k);
    case PollOp(other, published) => PollLeavesAlone(w.client, other, published, id, k);
    case _ =>
  }

  /** A publication that ends is one of the last step, or of a query that has succeeded meanwhile. */
  lemma CloseAdvances(c: Client, p: Pending, k: nat)
    requires Waits(c, p) && AfterPolls(c, p.id, k)
    ensures k >= 2 && AfterPolls(Write(c, p.id, p.detail, 2), p.id, k + 1)
  {
  }

  lemma StepPolls(w: World, op: Op, id: Id, k: nat)
    requires Sound(w) && AfterPolls(w.client, id, k) && !Disturbs(op, id)
    ensures AfterPolls(Next(w, op).client, id, if Answers(w, op, id) then k + 1 else k)
  {
    if op.PollOp? && op.id == id {
      PollAdvances(w.client, id, op.published, k);
    } else if op.CloseOp? && op.handle in w.open && w.open[op.handle].id == id {
      CloseAdvances(w.client, w.open[op.handle], k);
    } else {
      OthersLeaveAlone(w, op, id, k);
    }
  }

  lemma StepPollsAt(worlds: seq<World>, ops: seq<Op>, id: Id, m: nat, n: nat)
    requires IsRun(worlds, ops) && m < n <= |ops| && Sound(worlds[n - 1]) && !Disturbs(ops[n - 1], id)
    requires AfterPolls(worlds[n - 1].client, id, Polls(worlds, ops, id, m, n - 1))
    ensures AfterPolls(worlds[n].client, id, Polls(worlds, ops, id, m, n))
  {
    StepPolls(worlds[n - 1], ops[n - 1], id, Polls(worlds, ops, id, m, n - 1));
  }

  /**
   A query that nobody stops succeeds on its third answered poll, whatever happens to
   other queries, however often its own publication fails and whatever overlaps it.
   */
  lemma {:induction false} ThirdPollSucceeds(worlds: seq<World>, ops: seq<Op>, m: nat, n: nat, id: Id)
    requires IsRun(worlds, ops) && Sound(worlds[0]) && m <= n <= |ops|
    requires forall i :: m <= i < n ==> !Disturbs(ops[i], id)
    requires AfterPolls(worlds[m].client, id, 0)
    ensures AfterPolls(worlds[n].client, id, Polls(worlds, ops, id, m, n))
  {
    if m < n {
      ThirdPollSucceeds(worlds, ops, m, n - 1, id);
      RunSound(worlds, ops, n - 1);
      StepPollsAt(worlds, ops, id, m, n);
    }
  }

  // ------------------------------------------------------------ request tokens

  lemma NextRemembers(w: World, op: Op, t: Bytes)
    requires t in w.client.tokens
    ensures t in Next(w, op).client.tokens && Next(w, op).client.tokens[t] == w.client.tokens[t]
  {
    match op
    case StartOp(s) =>
    case PollOp(id, published) => PollWrites(w.client, id, published);
    case _ =>
  }

  lemma {:induction false} RunRemembers(worlds: seq<World>, ops: seq<Op>, m: nat, n: nat, t: Bytes)
    requires IsRun(worlds, ops) && m <= n <= |ops| && t in worlds[m].client.tokens
    ensures t in worlds[n].client.tokens && worlds[n].client.tokens[t] == worlds[m].client.tokens[t]
  {
    if m < n {
      RunRemembers(worlds, ops, m, n - 1, t);
      NextRemembers(worlds[n - 1], ops[n - 1], t);
    }
  }

  /** A token fingerprint used again, any time later, is answered by what its first use left behind. */
  lemma RepeatedCall(worlds: seq<World>, ops: seq<Op>, m: nat, n: nat, first: Call, again: Call)
    requires IsRun(worlds, ops) && m < n <= |ops| && ops[m] == StartOp(first)
      && Start(worlds[m].client, first).result.Ok?
    requires again.admitted && again.token == first.token
    ensures var id := Start(worlds[m].client, first).result.value;
            Start(worlds[n].client, again) ==
            Outcome(worlds[n].client, if again.fingerprint == first.fingerprint then Ok(id) else Err(TokenReused))
  {
    assert worlds[m + 1] == Next(worlds[m], ops[m]);
    RunRemembers(worlds, ops, m + 1, n, first.token);
  }

  /**
   A request token used again, any time later: the same request gets the same
   execution and starts nothing; another request is refused.
   */
  lemma RepeatedStart(
    worlds: seq<World>, ops: seq<Op>, m: nat, n: nat,
    sha: Bytes -> Hash, token: Text, first: Request, again: Request, w: Workgroup, w2: Workgroup)
    requires RequestWritable(first) && RequestWritable(again) && TextsWritable([Some(token)])
    requires Distinguishes(sha, first, again)
    requires IsRun(worlds, ops) && m < n <= |ops| && ops[m] == StartOp(CallOf(sha, token, first, true, w))
    requires Start(worlds[m].client, CallOf(sha, token, first, true, w)).result.Ok?
    ensures var id := Start(worlds[m].client, CallOf(sha, token, first, true, w)).result.value;
            Start(worlds[n].client, CallOf(sha, token, again, true, w2)) ==
            Outcome(worlds[n].client, if again == first then Ok(id) else Err(TokenReused))
  {
    RequestPrintIdentifies(sha, first, again);
    RepeatedCall(worlds, ops, m, n, CallOf(sha, token, first, true, w), CallOf(sha, token, again, true, w2));
  }

  /** In every state of a run the history lists each execution exactly once, under its workgroup. */
  lemma ListedOnce(worlds: seq<World>, ops: seq<Op>, n: nat, id: Id)
    requires IsRun(worlds, ops) && Sound(worlds[0]) && n <= |ops| && id in worlds[n].client.executions
    ensures var c := worlds[n].client;
            var list := Listing(c, c.executions[id].context.workgroup);
            && (exists i :: 0 <= i < |list| && list[i] == id)
            && (forall i, j :: 0 <= i < j < |list| ==> !(list[i] == id && list[j] == id))
            && (forall g :: g in c.history && g != c.executions[id].context.workgroup ==> id !in c.history[g])
  {
    RunSound(worlds, ops, n);
    var c := worlds[n].client;
    assert id in Listing(c, c.executions[id].context.workgroup);
  }
}
