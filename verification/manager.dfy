/** The connection and query bookkeeping of `MysqliManager`, as a record of the
    manager's fields transformed by pure step functions. The mysqli driver is an
    oracle: each step receives the driver's answers and returns the new record,
    its normal or exceptional outcome, and the driver calls it made.

    Driver calls on a client that is not connected answer `null` without raising,
    the PHP 7 behaviour on which the lazy connect inside `query` relies. */
module Manager {
  import opened Wrappers
  import opened Statements

  /** One fetched row, whatever the fetch mode shapes it into. */
  datatype Row = Row(fields: seq<string>)

  /** What `$this->result` can hold. */
  datatype ResultHandle =
    | NoHandle                 // null
    | FalseHandle              // false: the driver reported a failure
    | TrueHandle               // true: a statement without a result set succeeded
    | RowSet(rows: seq<Row>)   // a live mysqli_result
    | FreedRowSet              // a mysqli_result already released by mysqli_free_result

  /** PHP truthiness of the handle: objects and `true`. */
  predicate Truthy(h: ResultHandle)
  {
    h.TrueHandle? || h.RowSet? || h.FreedRowSet?
  }

  /** `$this->result instanceof mysqli_result`. */
  predicate IsResultObject(h: ResultHandle)
  {
    h.RowSet? || h.FreedRowSet?
  }

  /** MYSQLI_STORE_RESULT (buffered) or MYSQLI_USE_RESULT (streamed). */
  datatype ResultMode = Store | Use

  /** `$this->client`: null, a mysqli object whose real_connect failed, or a
      connected mysqli object. */
  datatype Client = NoClient | Unconnected | Live

  /** The fields of a manager instance that the modelled operations touch. */
  datatype Manager = Manager(
    client: Client,
    result: ResultHandle,
    resultMode: ResultMode,
    lastQuery: string,
    lastResult: Option<seq<Row>>,
    lastNumRows: nat,
    lastAffectedRows: Option<int>,
    lastInsertId: Option<int>,
    inTransaction: bool,
    reconnectRetries: int,
    dbName: string)

  /** A freshly constructed manager: no client, nothing queried, five retries. */
  function Fresh(dbName: string): Manager
  {
    Manager(NoClient, NoHandle, Store, "", None, 0, Some(0), Some(0), false, 5, dbName)
  }

  /** The driver's answer to one `mysqli_query`: the handle, `mysqli_errno` and `mysqli_error`. */
  datatype Answer = Answer(result: ResultHandle, errno: int, error: string)

  /** The driver's answers for one operation. */
  datatype Driver = Driver(
    initOk: bool,
    connectOk: bool,
    connectError: string,
    pingOk: bool,
    first: Answer,
    retry: Answer,
    affectedRows: int,
    insertId: int,
    closeOk: bool,
    beginOk: bool,
    commitOk: bool,
    rollbackOk: bool)

  /** The driver calls an operation makes, in order. */
  datatype Call =
    | Init | RealConnect | SetCharset | Ping
    | Send(sql: string, mode: ResultMode)
    | FreeResult | DrainResults | CloseLink
    | Autocommit(on: bool) | BeginTx | CommitTx | RollbackTx

  /** The exceptions the manager raises. */
  datatype DbError =
    | InvalidArgument
    | ConnectionError(message: string)
    | QueryError(dbName: string, sql: string, errno: Option<int>, message: string)

  /** The record after an operation, its return value or exception, and its driver calls. */
  datatype Step<T> = Step(state: Manager, out: Result<T, DbError>, calls: seq<Call>)

  /** The record after an operation without a return value, and its driver calls. */
  datatype Effect = Effect(state: Manager, calls: seq<Call>)

  // ---------------------------------------------------------------- connect

  /** `connect()` as written: a failed `mysqli_real_connect` leaves the mysqli object
      from `mysqli_init` in `$client`. */
  function ConnectAsWritten(m: Manager, d: Driver): (r: Step<bool>)
    ensures m.client != NoClient ==> r == Step(m, Ok(true), [])
    ensures r.out.Ok? ==> r.out.value
    ensures m.client == NoClient ==> (r.out.Ok? <==> d.initOk && d.connectOk)
    ensures m.client == NoClient && r.out.Ok? ==> r.state == m.(client := Live)
    ensures r.out.Err? ==> r.state == m.(client := if d.initOk then Unconnected else NoClient)
    ensures r.calls <= [Init, RealConnect, SetCharset]
    ensures m.client == NoClient && d.initOk <==> RealConnect in r.calls
  {
    if m.client != NoClient then Step(m, Ok(true), [])
    else if !d.initOk then Step(m, Err(ConnectionError("Connection error " + d.connectError)), [Init])
    else if d.connectOk then Step(m.(client := Live), Ok(true), [Init, RealConnect, SetCharset])
    else Step(m.(client := Unconnected), Err(ConnectionError("Connection error. " + d.connectError)), [Init, RealConnect])
  }

  /** After one failed attempt the as-written `connect()` answers true without
      connecting: the manager believes it has a client that never connected. */
  lemma ConnectAsWrittenStaysUnconnected(m: Manager, d: Driver, d2: Driver)
    requires m.client == NoClient && d.initOk && !d.connectOk
    ensures ConnectAsWritten(m, d).out.Err?
    ensures var again := ConnectAsWritten(ConnectAsWritten(m, d).state, d2);
      again.out == Ok(true) && again.state.client != Live && RealConnect !in again.calls
  {
  }

  /** `connect()` with the failed handle discarded: idempotent on a present client,
      true only with a live client, and a failure leaves the record as it was so that
      the next call tries again. */
  function Connect(m: Manager, d: Driver): (r: Step<bool>)
    ensures m.client != NoClient ==> r == Step(m, Ok(true), [])
    ensures r.out.Ok? ==> r.out.value
    ensures m.client == NoClient ==> (r.out.Ok? <==> d.initOk && d.connectOk)
    ensures m.client == NoClient && r.out.Ok? ==> r.state == m.(client := Live)
    ensures r.out.Err? ==> r.state == m
    ensures multiset(r.calls)[RealConnect] <= 1
    ensures r.calls <= [Init, RealConnect, SetCharset]
    ensures m.client == NoClient && d.initOk <==> RealConnect in r.calls
  {
    if m.client != NoClient then Step(m, Ok(true), [])
    else if !d.initOk then Step(m, Err(ConnectionError("Connection error " + d.connectError)), [Init])
    else if d.connectOk then Step(m.(client := Live), Ok(true), [Init, RealConnect, SetCharset])
    else Step(m, Err(ConnectionError("Connection error. " + d.connectError)), [Init, RealConnect])
  }

  /** Connecting twice is connecting once. */
  lemma ConnectIdempotent(m: Manager, d: Driver, d2: Driver)
    requires Connect(m, d).out.Ok?
    ensures Connect(Connect(m, d).state, d2) == Step(Connect(m, d).state, Ok(true), [])
    ensures m.client != Unconnected ==> Connect(m, d).state.client == Live
  {
  }

  /** With the correction a failed attempt is retried by the next call. */
  lemma ConnectRetriesAfterFailure(m: Manager, d: Driver, d2: Driver)
    requires m.client == NoClient && Connect(m, d).out.Err?
    ensures var again := Connect(Connect(m, d).state, d2);
      (d2.initOk ==> RealConnect in again.calls) &&
      (again.out.Ok? <==> again.state.client == Live)
  {
  }

  /** Which `connect()` the heartbeat, and so `query`, calls: the code as written or
      the correction. */
  datatype Version = AsWritten | Corrected

  /** The connect step of the chosen version. The two differ only in what a failure
      after `mysqli_init` leaves behind: the unconnected object, or nothing. */
  function ConnectBy(v: Version, m: Manager, d: Driver): (r: Step<bool>)
    ensures r.out.Err? ==> m.client == NoClient && r.out.error.ConnectionError?
    ensures r.out.Err? ==> r.state == m.(client := if v == AsWritten && d.initOk then Unconnected else NoClient)
  {
    if v == AsWritten then ConnectAsWritten(m, d) else Connect(m, d)
  }

  /** The two versions answer and call the driver alike. */
  lemma ConnectVersionsAgree(m: Manager, d: Driver)
    ensures ConnectAsWritten(m, d).out == Connect(m, d).out
    ensures ConnectAsWritten(m, d).calls == Connect(m, d).calls
    ensures ConnectAsWritten(m, d).out.Ok? ==> ConnectAsWritten(m, d).state == Connect(m, d).state
  {
  }

  // ---------------------------------------------------------------- close

  /** `close()`: true at once without a client; otherwise closes the link and drops
      the client only when the driver reports success. */
  function Close(m: Manager, d: Driver): (r: Step<bool>)
    ensures r.out.Ok?
    ensures r.out.value <==> m.client == NoClient || d.closeOk
    ensures r.out.value ==> r.state == m.(client := NoClient)
    ensures !r.out.value ==> r.state == m
    ensures m.client == NoClient <==> r.calls == []
  {
    if m.client == NoClient then Step(m, Ok(true), [])
    else if d.closeOk then Step(m.(client := NoClient), Ok(true), [CloseLink])
    else Step(m, Ok(false), [CloseLink])
  }

  /** Closing an already closed manager is a no-op that answers true. */
  lemma CloseIdempotent(m: Manager, d: Driver, d2: Driver)
    requires Close(m, d).out == Ok(true)
    ensures Close(Close(m, d).state, d2) == Step(Close(m, d).state, Ok(true), [])
  {
  }

  // ---------------------------------------------------------------- heartbeat

  /** `heartbeatClient()`: answers true after a successful ping of a present client;
      otherwise, with at least one retry allowed, calls `connect()`. That call either
      returns true (at once, if any client object is present) or raises, so the retry
      loop never reaches a second iteration and at most one real connection attempt
      is made whatever the retry bound. With no retries allowed it answers false
      without connecting. A client object that never connected fails the ping, and
      `connect()` then answers true for it without connecting. */
  function Heartbeat(m: Manager, d: Driver, v: Version): (r: Step<bool>)
    ensures m.client == Live && d.pingOk ==> r == Step(m, Ok(true), [Ping])
    ensures !(m.client == Live && d.pingOk) && m.reconnectRetries <= 0 ==>
      r.out == Ok(false) && r.state == m && RealConnect !in r.calls
    ensures m.client == Unconnected && m.reconnectRetries >= 1 ==> r == Step(m, Ok(true), [Ping])
    ensures r.out == Ok(true) ==> r.state.client != NoClient
    ensures r.out.Err? ==> m.client == NoClient && r.out.error.ConnectionError?
    ensures r.out.Err? ==> r.state == m.(client := if v == AsWritten && d.initOk then Unconnected else NoClient)
    ensures r.out.Ok? ==> r.state == m || r.state == m.(client := Live)
    ensures r.calls <= [Ping] || r.calls <= [Init, RealConnect, SetCharset]
  {
    var pinged := if m.client != NoClient then [Ping] else [];
    if m.client == Live && d.pingOk then Step(m, Ok(true), pinged)
    else if m.reconnectRetries < 1 then Step(m, Ok(false), pinged)
    else
      var c := ConnectBy(v, m, d);
      Step(c.state, c.out, pinged + c.calls)
  }

  /** With a permanently unreachable server and any retry bound, the heartbeat makes
      one connection attempt and raises `ConnectionError`, rather than retrying. */
  lemma HeartbeatSingleAttempt(m: Manager, d: Driver, v: Version)
    requires m.client == NoClient && m.reconnectRetries >= 1 && d.initOk && !d.connectOk
    ensures Heartbeat(m, d, v).out.Err? && Heartbeat(m, d, v).out.error.ConnectionError?
    ensures multiset(Heartbeat(m, d, v).calls)[RealConnect] == 1
  {
  }

  /** The heartbeat sends no statement and makes at most one connection attempt. */
  lemma HeartbeatCalls(m: Manager, d: Driver, v: Version)
    ensures forall c :: c in Heartbeat(m, d, v).calls ==> !c.Send?
    ensures multiset(Heartbeat(m, d, v).calls)[RealConnect] <= 1
  {
    FewCalls(Heartbeat(m, d, v).calls);
  }

  lemma FewCalls(calls: seq<Call>)
    requires calls <= [Ping] || calls <= [Init, RealConnect, SetCharset]
    ensures forall c :: c in calls ==> !c.Send?
    ensures multiset(calls)[RealConnect] <= 1
  {
    if |calls| == 0 {
    } else if calls[0] == Ping {
      assert calls == [Ping];
    } else if |calls| == 1 {
      assert calls == [Init];
    } else if |calls| == 2 {
      assert calls == [Init, RealConnect];
    } else {
      assert calls == [Init, RealConnect, SetCharset];
    }
  }

  // ---------------------------------------------------------------- flush

  /** The fields `flush()` resets, whatever happens to the result handle. */
  function Cleared(m: Manager): Manager
  {
    m.(lastQuery := "", lastNumRows := 0, lastInsertId := Some(0), lastAffectedRows := Some(0),
       lastResult := None, resultMode := Store)
  }

  /** `flush()` as written: with a result object but no client it returns after
      freeing the object and before clearing `$result`, which keeps the freed object. */
  function FlushAsWritten(m: Manager): (r: Effect)
    ensures r.state.(result := m.result) == Cleared(m)
    ensures IsResultObject(m.result) <==> FreeResult in r.calls
  {
    if IsResultObject(m.result) then
      if m.client == NoClient then Effect(Cleared(m).(result := FreedRowSet), [FreeResult])
      else Effect(Cleared(m).(result := NoHandle), [FreeResult, DrainResults])
    else Effect(Cleared(m).(result := NoHandle), [])
  }

  /** A result set read before `close()` survives the as-written flush as a freed
      handle, and a second flush frees it again. */
  lemma FlushAsWrittenKeepsFreedHandle(rows: seq<Row>)
    ensures var m := Fresh("db").(result := RowSet(rows));
      var once := FlushAsWritten(m);
      once.state.result == FreedRowSet && FlushAsWritten(once.state).calls == [FreeResult]
  {
  }

  /** `flush()` with `$result` cleared on every path: the last-query bookkeeping is
      reset, the result handle is dropped (freed first if it is a result object, and
      pending multi-query results drained if a client is present), and the client,
      transaction flag and configuration are untouched. */
  function Flush(m: Manager): (r: Effect)
    ensures r.state.lastQuery == "" && r.state.lastNumRows == 0
    ensures r.state.lastInsertId == Some(0) && r.state.lastAffectedRows == Some(0)
    ensures r.state.lastResult == None && r.state.resultMode == Store && r.state.result == NoHandle
    ensures r.state.client == m.client && r.state.inTransaction == m.inTransaction
    ensures r.state.reconnectRetries == m.reconnectRetries && r.state.dbName == m.dbName
    ensures IsResultObject(m.result) <==> FreeResult in r.calls
    ensures DrainResults in r.calls <==> IsResultObject(m.result) && m.client != NoClient
    ensures forall c :: c in r.calls ==> !c.Send? && c != RealConnect && c != Ping
  {
    if IsResultObject(m.result) then
      if m.client == NoClient then Effect(Cleared(m).(result := NoHandle), [FreeResult])
      else Effect(Cleared(m).(result := NoHandle), [FreeResult, DrainResults])
    else Effect(Cleared(m).(result := NoHandle), [])
  }

  /** Flushing a flushed manager changes nothing and calls nothing. */
  lemma FlushIdempotent(m: Manager)
    ensures Flush(Flush(m).state) == Effect(Flush(m).state, [])
  {
  }

  /** The correction only differs from the code where the code keeps the freed handle. */
  lemma FlushAgreesWithAsWritten(m: Manager)
    ensures !(IsResultObject(m.result) && m.client == NoClient) ==> Flush(m) == FlushAsWritten(m)
    ensures Flush(m).state == FlushAsWritten(m).state.(result := NoHandle)
  {
  }

  // ---------------------------------------------------------------- rows

  /** The rows a handle yields: those of a live result set, none otherwise. */
  function HandleRows(h: ResultHandle): seq<Row>
  {
    if h.RowSet? then h.rows else []
  }

  /** `mysqli_fetch_*` after `pos` rows were fetched: the next row, or null. */
  function FetchNext(h: ResultHandle, pos: nat): Option<Row>
  {
    if h.RowSet? && pos < |h.rows| then Some(h.rows[pos]) else None
  }

  /** What `@mysqli_data_seek($result, pos)` answers under PHP 7: true or false on a
      live result set, false (with a silenced "Couldn't fetch" warning) on a freed
      result, and null (with a silenced warning) on anything that is not a result
      object. */
  datatype SeekAnswer = SeekTrue | SeekFalse | SeekNull

  function Seek(h: ResultHandle, pos: nat): SeekAnswer
  {
    if h.RowSet? then (if pos < |h.rows| then SeekTrue else SeekFalse)
    else if h.FreedRowSet? then SeekFalse
    else SeekNull
  }

  /** The buffered-mode loop of `rowsToArray` as written, `while (seek(n) !== false)`,
      appending one fetched row (or null) per turn, run for at most `fuel` turns:
      the rows collected once the seek answers false, or None if it had not yet. */
  function StoreLoopAsWritten(h: ResultHandle, numRows: nat, fuel: nat): (r: Option<seq<Option<Row>>>)
    decreases fuel
  {
    if Seek(h, numRows) == SeekFalse then Some([])
    else if fuel == 0 then None
    else
      match StoreLoopAsWritten(h, numRows + 1, fuel - 1)
      case None => None
      case Some(rest) => Some([FetchNext(h, numRows)] + rest)
  }

  /** On anything that is not a result object the seek answers null, which is not
      `false`, so the loop never stops: no amount of fuel is enough. */
  lemma {:induction false} StoreLoopAsWrittenNeverStops(h: ResultHandle, numRows: nat, fuel: nat)
    requires !IsResultObject(h)
    ensures StoreLoopAsWritten(h, numRows, fuel) == None
    decreases fuel
  {
    if fuel > 0 {
      StoreLoopAsWrittenNeverStops(h, numRows + 1, fuel - 1);
    }
  }

  /** On a live result set the loop stops after one turn per remaining row and
      collects exactly those rows, in order. */
  lemma {:induction false} StoreLoopAsWrittenOnRowSet(h: ResultHandle, numRows: nat, fuel: nat)
    requires h.RowSet? && numRows <= |h.rows| && fuel >= |h.rows| - numRows
    ensures var r := StoreLoopAsWritten(h, numRows, fuel);
      && r.Some? && |r.value| == |h.rows| - numRows
      && forall i :: 0 <= i < |r.value| ==> r.value[i] == Some(h.rows[numRows + i])
    decreases |h.rows| - numRows
  {
    if numRows < |h.rows| {
      StoreLoopAsWrittenOnRowSet(h, numRows + 1, fuel - 1);
      var rest := StoreLoopAsWritten(h, numRows + 1, fuel - 1).value;
      assert StoreLoopAsWritten(h, numRows, fuel).value == [Some(h.rows[numRows])] + rest;
    }
  }

  /** After a `flush()` that drops the handle the mode is buffered, no rows are cached
      and `$result` is null, so a following `rowsToArray()` as written loops for ever.
      The as-written flush drops it unless it freed a result object without a client;
      only then does the seek answer false and the loop stop with no rows. */
  lemma FlushThenRowsToArrayHangs(m: Manager, fuel: nat)
    ensures var f := Flush(m).state;
      && f.resultMode == Store && !HasCachedRows(f)
      && StoreLoopAsWritten(f.result, 0, fuel) == None
    ensures var g := FlushAsWritten(m).state;
      && g.resultMode == Store && !HasCachedRows(g)
      && (IsResultObject(m.result) && m.client == NoClient <==> StoreLoopAsWritten(g.result, 0, fuel).Some?)
      && (StoreLoopAsWritten(g.result, 0, fuel).Some? ==> StoreLoopAsWritten(g.result, 0, fuel).value == [])
  {
    StoreLoopAsWrittenNeverStops(Flush(m).state.result, 0, fuel);
    if !(IsResultObject(m.result) && m.client == NoClient) {
      StoreLoopAsWrittenNeverStops(FlushAsWritten(m).state.result, 0, fuel);
    }
  }

  /** A result set read, the client closed, and the as-written `flush()` keeps the
      freed handle in buffered mode with the last query cleared. `parseResults()` then
      takes the read branch on a result object, and the loop as written stops at the
      first seek with no rows, which is what the model's `parseResults` returns. */
  lemma ParseResultsAfterClose(m: Manager, d: Driver, fuel: nat)
    requires m.client == NoClient && m.result.RowSet?
    ensures var f := FlushAsWritten(m).state;
      && Classify(f.lastQuery) == Read && f.result == FreedRowSet
      && f.resultMode == Store && !HasCachedRows(f)
      && StoreLoopAsWritten(f.result, 0, fuel) == Some([])
      && ParseResults(f, d).1 == Rows([])
  {
  }

  /** The two fetch loops of `rowsToArray`, with the buffered loop stopping as soon as
      the seek does not answer true: streamed mode fetches until the driver answers
      null, buffered mode seeks to 0, 1, 2, … Both collect every row of a result set
      in order and count them, and nothing from any other handle. */
  method FetchAll(h: ResultHandle, mode: ResultMode) returns (rows: seq<Row>, numRows: nat)
    ensures rows == HandleRows(h) && numRows == |rows|
  {
    rows := [];
    numRows := 0;
    if mode == Use {
      var row := FetchNext(h, numRows);
      while row.Some?
        invariant numRows <= |HandleRows(h)|
        invariant rows == HandleRows(h)[..numRows]
        invariant row == FetchNext(h, numRows)
        decreases |HandleRows(h)| - numRows
      {
        rows := rows + [row.value];
        numRows := numRows + 1;
        row := FetchNext(h, numRows);
      }
    } else {
      while Seek(h, numRows) == SeekTrue
        invariant numRows <= |HandleRows(h)|
        invariant rows == HandleRows(h)[..numRows]
        decreases |HandleRows(h)| - numRows
      {
        rows := rows + [FetchNext(h, numRows).value];
        numRows := numRows + 1;
      }
    }
  }

  /** A non-empty cached row set, which `rowsToArray` returns as it is. */
  predicate HasCachedRows(m: Manager)
  {
    m.lastResult.Some? && |m.lastResult.value| > 0
  }

  /** `rowsToArray()` with the buffered loop stopping on a handle that is not a result
      object: a non-empty cached row set is returned unchanged and nothing else
      moves; otherwise every row of the current result (none, for any other handle) is
      fetched, counted into `lastNumRows` and cached in `lastResult`. */
  function RowsToArray(m: Manager): (r: (Manager, seq<Row>))
    ensures HasCachedRows(m) ==> r.0 == m && r.1 == m.lastResult.value
    ensures !HasCachedRows(m) ==> r.1 == HandleRows(m.result)
    ensures !HasCachedRows(m) && !m.result.RowSet? ==> r.1 == []
    ensures r.0.lastResult == Some(r.1) && (HasCachedRows(m) || r.0.lastNumRows == |r.1|)
    ensures r.0.(lastResult := m.lastResult, lastNumRows := m.lastNumRows) == m
  {
    if HasCachedRows(m) then (m, m.lastResult.value)
    else
      var rows := HandleRows(m.result);
      (m.(lastNumRows := |rows|, lastResult := Some(rows)), rows)
  }

  /** On a result object, live or freed, in buffered mode the corrected `rowsToArray`
      collects what the loop as written collects. */
  lemma RowsToArrayAgreesWithLoop(m: Manager)
    requires !HasCachedRows(m) && IsResultObject(m.result)
    ensures var loop := StoreLoopAsWritten(m.result, 0, |HandleRows(m.result)|);
      && loop.Some? && |loop.value| == |RowsToArray(m).1|
      && forall i :: 0 <= i < |loop.value| ==> loop.value[i] == Some(RowsToArray(m).1[i])
  {
    if m.result.RowSet? {
      StoreLoopAsWrittenOnRowSet(m.result, 0, |m.result.rows|);
    } else {
      assert StoreLoopAsWritten(FreedRowSet, 0, 0) == Some([]);
      assert RowsToArray(m).1 == [];
    }
  }

  /** Materialising twice gives the same rows and the same record as once. */
  lemma RowsToArrayIdempotent(m: Manager)
    ensures RowsToArray(RowsToArray(m).0) == RowsToArray(m)
  {
  }

  // ---------------------------------------------------------------- parse results

  /** What `query` and `parseResults` return. */
  datatype QueryValue =
    | RawResult(handle: ResultHandle)
    | AffectedRows(count: Option<int>)
    | Rows(rows: seq<Row>)
    | FalseValue

  /** `getAffectedRows()`: null unless a client is connected. */
  function DriverAffectedRows(m: Manager, d: Driver): Option<int>
  {
    if m.client == Live then Some(d.affectedRows) else None
  }

  /** `getInsertId()`: null unless a client is connected. */
  function DriverInsertId(m: Manager, d: Driver): Option<int>
  {
    if m.client == Live then Some(d.insertId) else None
  }

  /** `parseResults()`: the class of `lastQuery` decides the return value. Schema
      changes return the raw handle and leave the counters alone; mutations record
      and return the affected-row count, and insert or replace also record the
      generated id; anything else returns the materialised rows of a result object
      (freed or not), or false. On a result object the corrected `RowsToArray` agrees
      with the loop as written (`RowsToArrayAgreesWithLoop`). */
  function ParseResults(m: Manager, d: Driver): (r: (Manager, QueryValue))
    ensures Classify(m.lastQuery) == SchemaChange ==> r == (m, RawResult(m.result))
    ensures Classify(m.lastQuery).Mutation? ==>
      r.1 == AffectedRows(DriverAffectedRows(m, d)) && r.0.lastAffectedRows == DriverAffectedRows(m, d)
    ensures Classify(m.lastQuery) == Mutation(true) ==> r.0.lastInsertId == DriverInsertId(m, d)
    ensures Classify(m.lastQuery) == Mutation(false) ==> r.0.lastInsertId == m.lastInsertId
    ensures Classify(m.lastQuery).Mutation? ==>
      r.0.(lastAffectedRows := m.lastAffectedRows, lastInsertId := m.lastInsertId) == m
    ensures Classify(m.lastQuery) == Read && IsResultObject(m.result) ==>
      r == (RowsToArray(m).0, Rows(RowsToArray(m).1))
    ensures Classify(m.lastQuery) == Read && !IsResultObject(m.result) ==> r == (m, FalseValue)
    ensures r.0.result == m.result && r.0.client == m.client && r.0.lastQuery == m.lastQuery
  {
    match Classify(m.lastQuery)
    case SchemaChange => (m, RawResult(m.result))
    case Mutation(setsInsertId) =>
      var affected := DriverAffectedRows(m, d);
      var m1 := m.(lastAffectedRows := affected);
      var m2 := if setsInsertId then m1.(lastInsertId := DriverInsertId(m, d)) else m1;
      (m2, AffectedRows(affected))
    case Read =>
      if IsResultObject(m.result) then
        var (m1, rows) := RowsToArray(m);
        (m1, Rows(rows))
      else (m, FalseValue)
  }

  // ---------------------------------------------------------------- query

  /** The argument of `query`: a PHP string, or anything else. */
  datatype SqlInput = Text(sql: string) | NotText

  /** One `mysqli_query`: the driver's answer on a connected client, null and no
      error number otherwise. */
  function Issue(m: Manager, a: Answer): (r: (ResultHandle, Option<int>, string))
    ensures Truthy(r.0) ==> m.client == Live
  {
    if m.client == Live then (a.result, Some(a.errno), a.error) else (NoHandle, None, "")
  }

  /** The final test of `query`: a falsy handle raises with the error number read
      after the first attempt, a non-zero current error number raises with that
      number, and anything else goes to `parseResults`. */
  function Finish(m: Manager, sql: string, errBefore: Option<int>, errNow: Option<int>, message: string,
                  calls: seq<Call>, d: Driver): (r: Step<QueryValue>)
    ensures r.out.Ok? <==> Truthy(m.result) && errNow == Some(0)
    ensures r.state.client == m.client && r.state.result == m.result && r.state.lastQuery == m.lastQuery
    ensures r.state.resultMode == m.resultMode && r.state.inTransaction == m.inTransaction
    ensures r.state.dbName == m.dbName && r.calls == calls
  {
    if !Truthy(m.result) then Step(m, Err(QueryError(m.dbName, sql, errBefore, message)), calls)
    else if errNow != Some(0) then Step(m, Err(QueryError(m.dbName, sql, errNow, message)), calls)
    else
      var p := ParseResults(m, d);
      Step(p.0, Ok(p.1), calls)
  }

  /** The record, error numbers, driver message and calls of `query` up to its final
      test, or the connection error the heartbeat raised. */
  datatype Attempt = Attempt(
    state: Manager, raised: Option<DbError>,
    errBefore: Option<int>, errNow: Option<int>, message: string, calls: seq<Call>)

  /** The body of `query` up to its final test: flush, record the statement and mode,
      issue the statement, and on a missing client or error 2006 hand over to the
      heartbeat. Both versions use the corrected `Flush`: the as-written one differs
      only in the result handle (`FlushAgreesWithAsWritten`), which the first
      `mysqli_query` overwrites at once. */
  function Issued(m: Manager, sql: string, mode: ResultMode, d: Driver, v: Version): (a: Attempt)
    ensures a.state.lastQuery == sql && a.state.resultMode == mode
    ensures a.state.inTransaction == m.inTransaction && a.state.dbName == m.dbName
    ensures a.raised.Some? ==> a.raised.value.ConnectionError? && m.client == NoClient
    ensures a.raised.Some? ==> a.state.client == (if v == AsWritten && d.initOk then Unconnected else NoClient)
    ensures Truthy(a.state.result) ==> a.state.client == Live
    ensures m.client != Unconnected && a.raised.None? ==> a.state.client != Unconnected
    ensures m.client == Unconnected ==> a.state.client == Unconnected
  {
    var flushed := Flush(m);
    var m1 := flushed.state.(resultMode := mode, lastQuery := sql);
    var (h1, e1, msg1) := Issue(m1, d.first);
    var m2 := m1.(result := h1);
    var calls1 := flushed.calls + [Send(sql, mode)];
    if m2.client == NoClient || e1 == Some(2006) then Reissued(m2, sql, mode, e1, msg1, calls1, d, v)
    else Attempt(m2, None, e1, e1, msg1, calls1)
  }

  /** The recovery branch of `query`: run the heartbeat and, if it answers true, issue
      the statement a second time. */
  function Reissued(m: Manager, sql: string, mode: ResultMode, e1: Option<int>, msg1: string,
                    calls: seq<Call>, d: Driver, v: Version): (a: Attempt)
    requires forall c :: c in calls && c.Send? ==> c == Send(sql, mode)
    requires Truthy(m.result) ==> m.client == Live
    ensures a.state.lastQuery == m.lastQuery && a.state.resultMode == m.resultMode
    ensures a.state.inTransaction == m.inTransaction && a.state.dbName == m.dbName
    ensures a.raised.Some? ==> a.raised.value.ConnectionError? && m.client == NoClient
    ensures a.raised.Some? ==> a.state.client == (if v == AsWritten && d.initOk then Unconnected else NoClient)
    ensures Truthy(a.state.result) ==> a.state.client == Live
    ensures m.client != Unconnected && a.raised.None? ==> a.state.client != Unconnected
    ensures m.client == Unconnected ==> a.state.client == Unconnected
    ensures a.calls == calls + Heartbeat(m, d, v).calls + (if Heartbeat(m, d, v).out == Ok(true) then [Send(sql, mode)] else [])
  {
    var hb := Heartbeat(m, d, v);
    if hb.out.Err? then Attempt(hb.state, Some(hb.out.error), e1, e1, msg1, calls + hb.calls)
    else if hb.out.value then
      var (h2, e2, msg2) := Issue(hb.state, d.retry);
      Attempt(hb.state.(result := h2), None, e1, e2, msg2, calls + hb.calls + [Send(sql, mode)])
    else Attempt(hb.state, None, e1, e1, msg1, calls + hb.calls)
  }

  /** `query($sql, $useMode)`. A non-string argument raises `InvalidArgument` before
      anything changes. Otherwise the record is flushed, the statement is issued once,
      and issued a second time only when there was no client or the driver answered
      error 2006 ("server has gone away") and the heartbeat succeeded. The call
      raises `QueryError` unless the final handle is truthy and the error number is
      0, in which case it returns what `parseResults` returns. */
  function Query(m: Manager, input: SqlInput, useMode: bool, d: Driver, v: Version): (r: Step<QueryValue>)
    ensures input.NotText? ==> r == Step(m, Err(InvalidArgument), [])
    ensures input.Text? ==>
      r.state.lastQuery == input.sql && r.state.resultMode == (if useMode then Use else Store)
    ensures r.out.Ok? ==> r.state.client == Live && Truthy(r.state.result)
    ensures r.out.Err? && r.out.error.ConnectionError? ==> m.client == NoClient && input.Text?
    ensures r.out.Err? && r.out.error.ConnectionError? ==>
      r.state.client == (if v == AsWritten && d.initOk then Unconnected else NoClient)
    ensures m.client != Unconnected && r.state.client == Unconnected ==>
      v == AsWritten && r.out.Err? && r.out.error.ConnectionError?
    ensures m.client == Unconnected ==> r.state.client == Unconnected
    ensures r.state.inTransaction == m.inTransaction && r.state.dbName == m.dbName
    ensures input.Text? ==> r.calls == Issued(m, input.sql, if useMode then Use else Store, d, v).calls
  {
    match input
    case NotText => Step(m, Err(InvalidArgument), [])
    case Text(sql) =>
      var a := Issued(m, sql, if useMode then Use else Store, d, v);
      if a.raised.Some? then Step(a.state, Err(a.raised.value), a.calls)
      else Finish(a.state, sql, a.errBefore, a.errNow, a.message, a.calls, d)
  }

  /** The statements sent to the driver among some calls, in order. */
  function SendsOf(calls: seq<Call>): seq<Call>
  {
    if |calls| == 0 then [] else (if calls[0].Send? then [calls[0]] else []) + SendsOf(calls[1..])
  }

  lemma {:induction false} SendsOfAppend(a: seq<Call>, b: seq<Call>)
    ensures SendsOf(a + b) == SendsOf(a) + SendsOf(b)
  {
    if |a| > 0 {
      assert (a + b)[1..] == a[1..] + b;
      SendsOfAppend(a[1..], b);
    } else {
      assert a + b == b;
    }
  }

  lemma {:induction false} NoSends(calls: seq<Call>)
    requires forall c :: c in calls ==> !c.Send?
    ensures SendsOf(calls) == []
  {
    if |calls| > 0 {
      assert calls[0] in calls;
      NoSends(calls[1..]);
    }
  }

  /** The calls of `query` are the flush's, the first send, and in the recovery
      branch the heartbeat's followed by the second send when the heartbeat succeeded. */
  lemma IssuedShape(m: Manager, sql: string, mode: ResultMode, d: Driver, v: Version)
    ensures var flushed := Flush(m);
      var m1 := flushed.state.(resultMode := mode, lastQuery := sql);
      var m2 := m1.(result := Issue(m1, d.first).0);
      var hb := Heartbeat(m2, d, v);
      && (m2.client == m.client)
      && (Issue(m1, d.first).1 == Some(2006) ==> m.client == Live && d.first.errno == 2006)
      && (!(m2.client == NoClient || Issue(m1, d.first).1 == Some(2006)) ==>
            Issued(m, sql, mode, d, v).calls == flushed.calls + [Send(sql, mode)])
      && ((m2.client == NoClient || Issue(m1, d.first).1 == Some(2006)) ==>
            Issued(m, sql, mode, d, v).calls ==
              flushed.calls + [Send(sql, mode)] + hb.calls + (if hb.out == Ok(true) then [Send(sql, mode)] else []))
  {
  }

  /** Counting the sends and connection attempts of calls shaped like those of `query`. */
  lemma SendCount(flushCalls: seq<Call>, hbCalls: seq<Call>, extra: seq<Call>, s: Call)
    requires s.Send? && (extra == [] || extra == [s])
    requires forall c :: c in flushCalls ==> !c.Send? && c != RealConnect
    requires forall c :: c in hbCalls ==> !c.Send?
    ensures SendsOf(flushCalls + [s]) == [s]
    ensures SendsOf(flushCalls + [s] + hbCalls + extra) == [s] + extra
    ensures multiset(flushCalls + [s])[RealConnect] == 0
    ensures multiset(flushCalls + [s] + hbCalls + extra)[RealConnect] == multiset(hbCalls)[RealConnect]
  {
    var first := flushCalls + [s];
    var recovered := first + hbCalls;
    NoSends(flushCalls);
    NoSends(hbCalls);
    SendsOfAppend(flushCalls, [s]);
    SendsOfAppend(first, hbCalls);
    SendsOfAppend(recovered, extra);
    assert SendsOf([s]) == [s];
    assert SendsOf(extra) == extra;
    assert RealConnect !in flushCalls;
    assert multiset(first) == multiset(flushCalls) + multiset([s]);
    assert multiset(first)[RealConnect] == 0;
    assert multiset(recovered + extra) == multiset(first) + multiset(hbCalls) + multiset(extra);
    assert multiset(extra)[RealConnect] == 0;
  }

  /** `query` sends its statement once or twice and nothing else, the second time
      only when there was no client or the first answer was error 2006, and makes at
      most one connection attempt. */
  lemma QueryIssuesAtMostTwice(m: Manager, sql: string, useMode: bool, d: Driver, v: Version)
    ensures var r := Query(m, Text(sql), useMode, d, v);
      var s := Send(sql, if useMode then Use else Store);
      && (SendsOf(r.calls) == [s] || SendsOf(r.calls) == [s, s])
      && (SendsOf(r.calls) == [s, s] ==>
            m.client == NoClient || (m.client == Live && d.first.errno == 2006))
      && multiset(r.calls)[RealConnect] <= 1
  {
    var mode := if useMode then Use else Store;
    var calls := Query(m, Text(sql), useMode, d, v).calls;
    assert calls == Issued(m, sql, mode, d, v).calls;
    IssuedSends(m, sql, mode, d, v);
  }

  lemma IssuedSends(m: Manager, sql: string, mode: ResultMode, d: Driver, v: Version)
    ensures var calls := Issued(m, sql, mode, d, v).calls;
      var s := Send(sql, mode);
      && (SendsOf(calls) == [s] || SendsOf(calls) == [s, s])
      && (SendsOf(calls) == [s, s] ==>
            m.client == NoClient || (m.client == Live && d.first.errno == 2006))
      && multiset(calls)[RealConnect] <= 1
  {
    var s := Send(sql, mode);
    var flushed := Flush(m);
    var m1 := flushed.state.(resultMode := mode, lastQuery := sql);
    var (h1, e1, msg1) := Issue(m1, d.first);
    var m2 := m1.(result := h1);
    var calls1 := flushed.calls + [s];
    SendCount(flushed.calls, [], [], s);
    if m2.client == NoClient || e1 == Some(2006) {
      ReissuedSends(m2, sql, mode, e1, msg1, calls1, d, v);
    }
  }

  /** The recovery branch adds at most one send and one connection attempt. */
  lemma ReissuedSends(m: Manager, sql: string, mode: ResultMode, e1: Option<int>, msg1: string,
                      calls: seq<Call>, d: Driver, v: Version)
    requires forall c :: c in calls && c.Send? ==> c == Send(sql, mode)
    requires Truthy(m.result) ==> m.client == Live
    requires SendsOf(calls) == [Send(sql, mode)] && multiset(calls)[RealConnect] == 0
    ensures var a := Reissued(m, sql, mode, e1, msg1, calls, d, v).calls;
      && (SendsOf(a) == [Send(sql, mode)] || SendsOf(a) == [Send(sql, mode), Send(sql, mode)])
      && multiset(a)[RealConnect] <= 1
  {
    var hb := Heartbeat(m, d, v);
    var extra := if hb.out == Ok(true) then [Send(sql, mode)] else [];
    assert Reissued(m, sql, mode, e1, msg1, calls, d, v).calls == calls + hb.calls + extra;
    HeartbeatCalls(m, d, v);
    AppendSends(calls, hb.calls, extra, Send(sql, mode));
  }

  lemma AppendSends(calls: seq<Call>, hbCalls: seq<Call>, extra: seq<Call>, s: Call)
    requires s.Send? && (extra == [] || extra == [s])
    requires SendsOf(calls) == [s] && multiset(calls)[RealConnect] == 0
    requires (forall c :: c in hbCalls ==> !c.Send?) && multiset(hbCalls)[RealConnect] <= 1
    ensures SendsOf(calls + hbCalls + extra) == [s] + extra
    ensures multiset(calls + hbCalls + extra)[RealConnect] <= 1
  {
    NoSends(hbCalls);
    SendsOfAppend(calls, hbCalls);
    SendsOfAppend(calls + hbCalls, extra);
    assert SendsOf(extra) == extra;
  }

  /** On a connected manager whose driver answers the statement well, `query` sends
      it once and returns what its class promises: the raw handle for a schema change,
      the driver's affected-row count for a mutation, the rows of the result set for a
      read. */
  lemma QueryOnLiveConnection(m: Manager, sql: string, useMode: bool, d: Driver, v: Version)
    requires m.client == Live && d.first.errno == 0 && Truthy(d.first.result)
    ensures var r := Query(m, Text(sql), useMode, d, v);
      && r.out.Ok?
      && multiset(r.calls)[Send(sql, if useMode then Use else Store)] == 1
      && RealConnect !in r.calls
      && (Classify(sql) == SchemaChange ==>
            r.out.value == RawResult(d.first.result) &&
            r.state.lastAffectedRows == Some(0) && r.state.lastInsertId == Some(0))
      && (Classify(sql).Mutation? ==>
            r.out.value == AffectedRows(Some(d.affectedRows)) && r.state.lastAffectedRows == Some(d.affectedRows))
      && (Classify(sql) == Mutation(true) ==> r.state.lastInsertId == Some(d.insertId))
      && (Classify(sql) == Mutation(false) ==> r.state.lastInsertId == Some(0))
      && (Classify(sql) == Read && d.first.result.RowSet? ==>
            r.out.value == Rows(d.first.result.rows) && r.state.lastNumRows == |d.first.result.rows|)
      && (Classify(sql) == Read && d.first.result.FreedRowSet? ==> r.out.value == Rows([]))
      && (Classify(sql) == Read && d.first.result.TrueHandle? ==> r.out.value == FalseValue)
  {
  }

  /** A manager without a client connects lazily: the first attempt goes nowhere,
      the heartbeat makes one connection, and the statement is issued again on it. */
  lemma QueryConnectsLazily(m: Manager, sql: string, useMode: bool, d: Driver, v: Version)
    requires m.client == NoClient && m.reconnectRetries >= 1 && d.initOk && d.connectOk
    ensures var r := Query(m, Text(sql), useMode, d, v);
      && multiset(r.calls)[RealConnect] == 1
      && multiset(r.calls)[Send(sql, if useMode then Use else Store)] == 2
      && r.state.client == Live
      && (r.out.Ok? <==> d.retry.errno == 0 && Truthy(d.retry.result))
  {
    var mode := if useMode then Use else Store;
    var s := Send(sql, mode);
    var a := Issued(m, sql, mode, d, v);
    IssuedConnectsLazily(m, sql, mode, d, v);
    var r := Query(m, Text(sql), useMode, d, v);
    assert r == Finish(a.state, sql, a.errBefore, a.errNow, a.message, a.calls, d);
    assert multiset(a.calls) ==
      multiset(Flush(m).calls) + multiset([s]) + multiset([Init, RealConnect, SetCharset]) + multiset([s]);
    assert s !in Flush(m).calls && RealConnect !in Flush(m).calls;
  }

  /** The issuing part of a lazy connect: the first send goes nowhere, the heartbeat
      connects, and the second send is answered by the live client. */
  lemma IssuedConnectsLazily(m: Manager, sql: string, mode: ResultMode, d: Driver, v: Version)
    requires m.client == NoClient && m.reconnectRetries >= 1 && d.initOk && d.connectOk
    ensures var a := Issued(m, sql, mode, d, v);
      && a.raised.None? && a.state.client == Live
      && a.state.result == d.retry.result && a.errNow == Some(d.retry.errno)
      && a.calls == Flush(m).calls + [Send(sql, mode)] + [Init, RealConnect, SetCharset] + [Send(sql, mode)]
  {
    var m1 := Flush(m).state.(resultMode := mode, lastQuery := sql);
    assert Issue(m1, d.first) == (NoHandle, None, "");
    var m2 := m1.(result := NoHandle);
    var calls1 := Flush(m).calls + [Send(sql, mode)];
    assert Issued(m, sql, mode, d, v) == Reissued(m2, sql, mode, None, "", calls1, d, v);
    var hb := Heartbeat(m2, d, v);
    assert hb == Step(m2.(client := Live), Ok(true), [Init, RealConnect, SetCharset]);
    assert Issue(hb.state, d.retry) == (d.retry.result, Some(d.retry.errno), d.retry.error);
    assert Reissued(m2, sql, mode, None, "", calls1, d, v) ==
      Attempt(hb.state.(result := d.retry.result), None, None, Some(d.retry.errno), d.retry.error,
              calls1 + hb.calls + [Send(sql, mode)]);
  }

  /** A manager without a client makes a connection attempt inside `query` whenever
      `mysqli_init` succeeds, and is connected afterwards when the attempt succeeds. */
  lemma QueryTriesToConnect(m: Manager, sql: string, useMode: bool, d: Driver, v: Version)
    requires m.client == NoClient && m.reconnectRetries >= 1 && d.initOk
    ensures var r := Query(m, Text(sql), useMode, d, v);
      && RealConnect in r.calls
      && (d.connectOk <==> r.state.client == Live)
  {
  }

  /** Any error other than 2006 on a connected manager is raised at once with its
      number, without reconnecting or re-issuing the statement. */
  lemma QueryFailsFast(m: Manager, sql: string, useMode: bool, d: Driver, v: Version)
    requires m.client == Live && d.first.errno != 0 && d.first.errno != 2006
    ensures var r := Query(m, Text(sql), useMode, d, v);
      && r.out.Err? && r.out.error.QueryError?
      && r.out.error.sql == sql && r.out.error.dbName == m.dbName
      && (Truthy(d.first.result) ==> r.out.error.errno == Some(d.first.errno))
      && multiset(r.calls)[Send(sql, if useMode then Use else Store)] == 1
      && Ping !in r.calls && RealConnect !in r.calls
  {
  }

  /** A client object that never connected is neither null nor answers error 2006,
      so `query` skips the heartbeat: the statement goes out once to nowhere and the
      call raises `QueryError` with no error number, leaving the dead client in place. */
  lemma QueryOnDeadClient(m: Manager, sql: string, useMode: bool, d: Driver, v: Version)
    requires m.client == Unconnected
    ensures var r := Query(m, Text(sql), useMode, d, v);
      && r.out == Err(QueryError(m.dbName, sql, None, ""))
      && r.state.client == Unconnected
      && SendsOf(r.calls) == [Send(sql, if useMode then Use else Store)]
      && Ping !in r.calls && RealConnect !in r.calls
  {
    var mode := if useMode then Use else Store;
    var a := Issued(m, sql, mode, d, v);
    IssuedOnDeadClient(m, sql, mode, d, v);
    var r := Query(m, Text(sql), useMode, d, v);
    assert r == Finish(a.state, sql, None, None, "", a.calls, d);
    assert r.calls == Flush(m).calls + [Send(sql, mode)];
    SendCount(Flush(m).calls, [], [], Send(sql, mode));
    assert Ping !in Flush(m).calls;
  }

  lemma IssuedOnDeadClient(m: Manager, sql: string, mode: ResultMode, d: Driver, v: Version)
    requires m.client == Unconnected
    ensures var a := Issued(m, sql, mode, d, v);
      && a.raised.None? && a.errBefore.None? && a.errNow.None? && a.message == ""
      && a.state.result == NoHandle
      && a.calls == Flush(m).calls + [Send(sql, mode)]
  {
  }

  /** As written, one failed connection inside `query` disables the manager: the
      exception leaves the unconnected object behind, and every later `query` raises
      `QueryError` without trying to connect, whatever the server then answers. */
  lemma QueryAsWrittenNeverReconnects(m: Manager, sql: string, sql2: string, useMode: bool, d: Driver, d2: Driver)
    requires m.client == NoClient && m.reconnectRetries >= 1 && d.initOk && !d.connectOk
    ensures var r := Query(m, Text(sql), useMode, d, AsWritten);
      var r2 := Query(r.state, Text(sql2), useMode, d2, AsWritten);
      && r.out.Err? && r.out.error.ConnectionError? && r.state.client == Unconnected
      && r2.out.Err? && r2.out.error.QueryError? && r2.state.client == Unconnected
      && RealConnect !in r2.calls
  {
    var r := Query(m, Text(sql), useMode, d, AsWritten);
    assert r.out.Err? && r.out.error.ConnectionError?;
    QueryOnDeadClient(r.state, sql2, useMode, d2, AsWritten);
  }

  /** With the correction the failed connection leaves no client, so the next
      `query` connects again, and succeeds in connecting when the server is back. */
  lemma QueryCorrectedRetries(m: Manager, sql: string, sql2: string, useMode: bool, d: Driver, d2: Driver)
    requires m.client == NoClient && m.reconnectRetries >= 1 && d.initOk && !d.connectOk
    ensures var r := Query(m, Text(sql), useMode, d, Corrected);
      var r2 := Query(r.state, Text(sql2), useMode, d2, Corrected);
      && r.out.Err? && r.out.error.ConnectionError? && r.state.client == NoClient
      && (d2.initOk ==> RealConnect in r2.calls)
      && (d2.initOk && d2.connectOk ==> r2.state.client == Live)
  {
    var r := Query(m, Text(sql), useMode, d, Corrected);
    assert r.out.Err? && r.out.error.ConnectionError?;
    assert r.state.reconnectRetries == m.reconnectRetries;
    if d2.initOk {
      QueryTriesToConnect(r.state, sql2, useMode, d2, Corrected);
    }
  }

  // ---------------------------------------------------------------- transactions

  /** `begin()`: autocommit off, transaction started, flag set; the answer is the
      driver's, and false without a connected client. */
  function Begin(m: Manager, d: Driver): (r: Step<bool>)
    ensures r.state.inTransaction && r.state.(inTransaction := m.inTransaction) == m
    ensures r.out.Ok? && (r.out.value <==> m.client == Live && d.beginOk)
    ensures r.calls == [Autocommit(false), BeginTx]
  {
    Step(m.(inTransaction := true), Ok(m.client == Live && d.beginOk), [Autocommit(false), BeginTx])
  }

  /** `commit()`: commits, restores autocommit and clears the flag whatever the
      driver answers; the answer is the driver's. */
  function Commit(m: Manager, d: Driver): (r: Step<bool>)
    ensures !r.state.inTransaction && r.state.(inTransaction := m.inTransaction) == m
    ensures r.out.Ok? && (r.out.value <==> m.client == Live && d.commitOk)
    ensures r.calls == [CommitTx, Autocommit(true)]
  {
    Step(m.(inTransaction := false), Ok(m.client == Live && d.commitOk), [CommitTx, Autocommit(true)])
  }

  /** `rollback()`: rolls back, restores autocommit and clears the flag whatever the
      driver answers; the answer is the driver's. */
  function Rollback(m: Manager, d: Driver): (r: Step<bool>)
    ensures !r.state.inTransaction && r.state.(inTransaction := m.inTransaction) == m
    ensures r.out.Ok? && (r.out.value <==> m.client == Live && d.rollbackOk)
    ensures r.calls == [RollbackTx, Autocommit(true)]
  {
    Step(m.(inTransaction := false), Ok(m.client == Live && d.rollbackOk), [RollbackTx, Autocommit(true)])
  }

  /** A bracket closed by commit or rollback leaves the record as before except for
      a cleared flag, even when the commit fails, and autocommit is switched off
      before the bracket and back on after it. */
  lemma TransactionBracket(m: Manager, d: Driver, d2: Driver, commit: bool)
    ensures var b := Begin(m, d);
      var e := if commit then Commit(b.state, d2) else Rollback(b.state, d2);
      && e.state == m.(inTransaction := false)
      && (b.calls + e.calls)[0] == Autocommit(false)
      && (b.calls + e.calls)[|b.calls + e.calls| - 1] == Autocommit(true)
  {
  }
}
