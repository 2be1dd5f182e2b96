/** The lifecycle calls of `InMemoryAthena` on its dictionaries, and the pages of a result. */
module AthenaClient {
  import opened Wrappers
  import opened Bytes
  import opened StableDigest
  import Q = AthenaQueries

  datatype Page = Page(columns: seq<Text>, rows: seq<Row>, next: Option<Text>)

  type Row = seq<Option<Text>>

  /** `seed_query_result`: a response is cut into pages when it is registered, one at least. */
  function SeededPages(columns: seq<Text>, rows: seq<Row>, size: int): (pages: seq<Page>)
    requires size > 0
    ensures pages != [] && SameColumns(pages)
    ensures forall i :: 0 <= i < |pages| ==> pages[i].columns == columns
    decreases |rows|
  {
    if |rows| <= size then [Page(columns, rows, None)]
    else [Page(columns, rows[..size], None)] + SeededPages(columns, rows[size..], size)
  }

  predicate SameColumns(pages: seq<Page>) {
    forall i :: 0 <= i < |pages| ==> pages[i].columns == pages[0].columns
  }

  lemma {:induction false} SeededRows(columns: seq<Text>, rows: seq<Row>, size: int)
    requires size > 0
    ensures Rows(SeededPages(columns, rows, size)) == rows
    decreases |rows|
  {
    if |rows| <= size {
      assert [Page(columns, rows, None)][1..] == [];
      assert rows + [] == rows;
    } else {
      var first, rest := Page(columns, rows[..size], None), SeededPages(columns, rows[size..], size);
      SeededRows(columns, rows[size..], size);
      assert ([first] + rest)[1..] == rest;
      assert rows[..size] + rows[size..] == rows;
    }
  }

  /** Every page but the last is full, and the last one is not over-full; no page is empty but a lone one. */
  lemma {:induction false} SeededSizes(columns: seq<Text>, rows: seq<Row>, size: int, i: nat)
    requires size > 0 && i < |SeededPages(columns, rows, size)|
    ensures var pages := SeededPages(columns, rows, size);
            && |pages[i].rows| <= size && (i + 1 < |pages| ==> |pages[i].rows| == size)
            && (|pages| > 1 ==> pages[i].rows != [])
    decreases |rows|
  {
    if |rows| > size && i > 0 { SeededSizes(columns, rows[size..], size, i - 1); }
    if |rows| > size { SeededNotEmpty(columns, rows[size..], size); }
  }

  lemma SeededNotEmpty(columns: seq<Text>, rows: seq<Row>, size: int)
    requires size > 0 && rows != []
    ensures SeededPages(columns, rows, size)[0].rows != []
  {
  }

  type PageKey = (Q.Id, Option<Text>)

  class InMemoryAthena {
    const connection: Text
    var queryExecutions: map<Q.Id, Q.Detail>
    var history: map<Text, seq<Q.Id>>
    var requestTokens: map<Bytes, Q.Known>
    var startedStateIndexes: map<Q.Id, Q.Index>
    var activeAppStarted: set<Q.Id>
    var nextExecutionNumber: nat
    var resultPages: map<PageKey, Page>

    function State(): Q.Client
      reads this
    {
      Q.Client(connection, queryExecutions, history, requestTokens, startedStateIndexes, activeAppStarted,
        nextExecutionNumber)
    }

    constructor (connection: Text)
      ensures State() == Q.Client(connection, map[], map[], map[], map[], {}, 1) && resultPages == map[]
      ensures Q.Inv(State())
    {
      this.connection := connection;
      queryExecutions, history, requestTokens, startedStateIndexes := map[], map[], map[], map[];
      activeAppStarted, nextExecutionNumber, resultPages := {}, 1, map[];
    }

    /** `published` tells whether the result store accepts the object. */
    method GetQueryExecution(id: Q.Id, published: bool) returns (r: Result<Q.Detail, Q.Error>)
      modifies this
      ensures Q.Outcome(State(), r) == Q.Poll(old(State()), id, published) && resultPages == old(resultPages)
    {
      if id !in queryExecutions { return Err(Q.NotFound); }
      var detail := queryExecutions[id];
      if id !in startedStateIndexes {
        if detail.state.Succeeded? && !published { return Err(Q.PublicationFailed); }
        return Ok(detail);
      }
      var stateIndex := startedStateIndexes[id];
      var state := Q.STARTED_STATES[stateIndex];
      var updated := detail.(state := state, completed := Q.Terminal(state));
      if state.Succeeded? && !published { return Err(Q.PublicationFailed); }
      queryExecutions := queryExecutions[id := updated];
      if stateIndex + 1 < |Q.STARTED_STATES| {
        startedStateIndexes := startedStateIndexes[id := stateIndex + 1];
      } else {
        activeAppStarted := activeAppStarted - {id};
        startedStateIndexes := startedStateIndexes - {id};
      }
      return Ok(updated);
    }

    /** `pages` are those registered for the statement. */
    method StartQuery(
        sha: Bytes -> Q.Hash, token: Text, request: Q.Request, admitted: bool, workgroup: Q.Workgroup,
        pages: seq<Page>, pageToken: (Q.Id, nat) -> Text)
      returns (r: Result<Q.Id, Q.Error>)
      requires exists columns, rows, size :: size > 0 && pages == SeededPages(columns, rows, size)
      modifies this
      ensures Q.Outcome(State(), r) == Q.Start(old(State()), Q.CallOf(sha, token, request, admitted, workgroup))
      ensures if nextExecutionNumber == old(nextExecutionNumber) then resultPages == old(resultPages)
              else r.Ok? && Chained(resultPages, old(resultPages), r.value, pages, pageToken, |pages|)
    {
      if !admitted || !Q.CallWritable(token, request) { return Err(Q.Refused); }
      var tokenFingerprint := Q.TokenPrint(sha, token);
      var requestFingerprint := Q.RequestPrint(sha, request);
      if tokenFingerprint in requestTokens {
        var known := requestTokens[tokenFingerprint];
        if known.fingerprint != requestFingerprint { return Err(Q.TokenReused); }
        return Ok(known.id);
      }
      r := StartNew(Q.Call(request, tokenFingerprint, requestFingerprint, true, workgroup), pages, pageToken);
    }

    /** A start whose token has not been used. */
    method StartNew(call: Q.Call, pages: seq<Page>, pageToken: (Q.Id, nat) -> Text) returns (r: Result<Q.Id, Q.Error>)
      requires call.admitted && call.token !in requestTokens && SameColumns(pages)
      modifies this
      ensures Q.Outcome(State(), r) == Q.Start(old(State()), call)
      ensures if nextExecutionNumber == old(nextExecutionNumber) then resultPages == old(resultPages)
              else r.Ok? && Chained(resultPages, old(resultPages), r.value, pages, pageToken, |pages|)
    {
      var resultRoot := Q.ResultRoot(call.workgroup, call.request.location);
      if resultRoot.None? && !call.workgroup.managed { return Err(Q.ResultConfigurationRequired); }
      var id := NewExecution(call.request, resultRoot, call.token, call.fingerprint);
      var installed := InstallResultPages(id, pages, pageToken);
      return Ok(id);
    }

    /** The writes of a fresh start: nothing is awaited between them. */
    method NewExecution(request: Q.Request, resultRoot: Option<Text>, token: Bytes, fingerprint: Bytes)
      returns (id: Q.Id)
      modifies this
      ensures State() == Q.Launch(old(State()), request, resultRoot, token, fingerprint)
      ensures id == Q.ExecutionId(connection, old(nextExecutionNumber)) && resultPages == old(resultPages)
    {
      id := Q.ExecutionId(connection, nextExecutionNumber);
      nextExecutionNumber := nextExecutionNumber + 1;
      queryExecutions := queryExecutions[id := Q.Detail(request.context, Q.Queued, false,
        Q.OutputLocation(resultRoot, id), false)];
      var group := request.context.workgroup;
      history := history[group := [id] + if group in history then history[group] else []];
      requestTokens := requestTokens[token := Q.Known(fingerprint, id)];
      startedStateIndexes := startedStateIndexes[id := 0];
      activeAppStarted := activeAppStarted + {id};
    }

    method StopQuery(id: Q.Id) returns (r: Result<(), Q.Error>)
      requires activeAppStarted <= queryExecutions.Keys
      modifies this
      ensures Q.Outcome(State(), r) == Q.Stop(old(State()), id) && resultPages == old(resultPages)
    {
      if id !in activeAppStarted { return Err(Q.NotActive); }
      var detail := queryExecutions[id];
      queryExecutions := queryExecutions[id := detail.(state := Q.Cancelled, completed := true, reason := true)];
      activeAppStarted := activeAppStarted - {id};
      startedStateIndexes := startedStateIndexes - {id};
      return Ok(());
    }

    /**
     Each page is stored under its token and names the token of the next one; pages
     with inconsistent columns are refused before any is stored.
     */
    method InstallResultPages(id: Q.Id, pages: seq<Page>, pageToken: (Q.Id, nat) -> Text) returns (ok: bool)
      modifies this`resultPages
      ensures ok <==> SameColumns(pages)
      ensures if ok then Chained(resultPages, old(resultPages), id, pages, pageToken, |pages|)
              else resultPages == old(resultPages)
    {
      if exists i :: 0 <= i < |pages| && pages[i].columns != pages[0].columns { return false; }
      for index := 0 to |pages|
        invariant Chained(resultPages, old(resultPages), id, pages, pageToken, index)
      {
        ChainStep(resultPages, old(resultPages), id, pages, pageToken, index);
        var next := if index + 1 < |pages| then Some(pageToken(id, index + 1)) else None;
        resultPages := resultPages[(id, TokenAt(id, pageToken, index)) := pages[index].(next := next)];
      }
      return true;
    }
  }

  function TokenAt(id: Q.Id, pageToken: (Q.Id, nat) -> Text, index: nat): Option<Text> {
    if index == 0 then None else Some(pageToken(id, index))
  }

  /** The page tokens of one execution are all different. */
  ghost predicate TokensDiffer(id: Q.Id, pageToken: (Q.Id, nat) -> Text, n: nat) {
    forall i, j :: 1 <= i < j < n ==> pageToken(id, i) != pageToken(id, j)
  }

  /** The first n pages are installed; where tokens collide, a later page may hide an earlier one. */
  ghost predicate Chained(
    m: map<PageKey, Page>, was: map<PageKey, Page>, id: Q.Id, pages: seq<Page>, pageToken: (Q.Id, nat) -> Text, n: nat)
  {
    && n <= |pages| && (forall k :: k in was && k.0 != id ==> k in m && m[k] == was[k])
    && (TokensDiffer(id, pageToken, |pages|) ==> forall i :: 0 <= i < n ==> Installed(m, id, pages, pageToken, i))
  }

  predicate Installed(m: map<PageKey, Page>, id: Q.Id, pages: seq<Page>, pageToken: (Q.Id, nat) -> Text, i: nat) {
    i < |pages| && (id, TokenAt(id, pageToken, i)) in m
    && m[(id, TokenAt(id, pageToken, i))] ==
      pages[i].(next := if i + 1 < |pages| then Some(pageToken(id, i + 1)) else None)
  }

  lemma ChainStep(
    m: map<PageKey, Page>, was: map<PageKey, Page>, id: Q.Id, pages: seq<Page>, pageToken: (Q.Id, nat) -> Text, n: nat)
    requires Chained(m, was, id, pages, pageToken, n) && n < |pages|
    ensures var page := pages[n].(next := if n + 1 < |pages| then Some(pageToken(id, n + 1)) else None);
            Chained(m[(id, TokenAt(id, pageToken, n)) := page], was, id, pages, pageToken, n + 1)
  {
    var page := pages[n].(next := if n + 1 < |pages| then Some(pageToken(id, n + 1)) else None);
    var e := m[(id, TokenAt(id, pageToken, n)) := page];
    if TokensDiffer(id, pageToken, |pages|) {
      forall i | 0 <= i < n + 1 ensures Installed(e, id, pages, pageToken, i) {
        if i < n {
          assert Installed(m, id, pages, pageToken, i);
          assert i >= 1 ==> pageToken(id, i) != pageToken(id, n);
        }
      }
    }
  }

  function Rows(pages: seq<Page>): seq<Row> {
    if pages == [] then [] else pages[0].rows + Rows(pages[1..])
  }

  /** What a reader gets that follows next tokens, for at most `fuel` pages. */
  function Follow(m: map<PageKey, Page>, id: Q.Id, token: Option<Text>, fuel: nat): Option<seq<Row>>
    decreases fuel
  {
    if fuel == 0 || (id, token) !in m then None
    else
      var page := m[(id, token)];
      if page.next.None? then Some(page.rows)
      else match Follow(m, id, page.next, fuel - 1)
        case None => None
        case Some(rest) => Some(page.rows + rest)
  }

  /** Following the tokens from the first page gives every row once, in order, and stops. */
  lemma {:induction false} FollowReadsAll(
    m: map<PageKey, Page>, was: map<PageKey, Page>, id: Q.Id, pages: seq<Page>, pageToken: (Q.Id, nat) -> Text, i: nat)
    requires Chained(m, was, id, pages, pageToken, |pages|) && TokensDiffer(id, pageToken, |pages|) && i < |pages|
    ensures Follow(m, id, TokenAt(id, pageToken, i), |pages| - i) == Some(Rows(pages[i..]))
    decreases |pages| - i
  {
    assert Installed(m, id, pages, pageToken, i);
    assert pages[i..][1..] == pages[i + 1..];
    if i + 1 < |pages| {
      FollowReadsAll(m, was, id, pages, pageToken, i + 1);
    } else {
      assert pages[i].rows + [] == pages[i].rows;
    }
  }
}
