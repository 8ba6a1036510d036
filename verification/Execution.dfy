// From a query to its effect: executeStmt, ExecContext and QueryContext.
module Execution {
  import opened Wrappers
  import opened Integers
  import opened Values
  import opened Tokens
  import opened SplitSpec
  import opened StatementIterators
  import opened Hrana
  import opened BatchCompiler
  import opened BatchMeaning
  import opened Results
  import opened Accounting
  import opened RowCursor
  import opened Arguments
  import opened ConnectionRuns
  import opened Connection
  import opened Chunks

  // ---- from statements to a request ----------------------------------------------------------

  // A statement that owns its text, as it goes out.
  function WireOf(s: StmtValue): WireStmt {
    WireStmt(if s.sql.Own? then Some(s.sql.text) else None, s.args, s.namedArgs, s.wantRows, s.replicationIndex)
  }

  function WiresOf(stmts: seq<StmtValue>): (ws: seq<WireStmt>)
    ensures |ws| == |stmts| && forall i :: 0 <= i < |stmts| ==> ws[i] == WireOf(stmts[i])
  {
    if stmts == [] then [] else WiresOf(stmts[..|stmts| - 1]) + [WireOf(stmts[|stmts| - 1])]
  }

  // The request for some statements: one goes out alone, several are compiled.
  function RequestOf(ws: seq<WireStmt>, transactional: bool): WireRequest {
    if |ws| == 1 then WireExecute(ws[0])
    else WireBatch(Compile(ws, WireOf(RollbackStmt()), transactional), None)
  }

  // The statements stand for the texts and their parameters.
  predicate Represented(stmts: seq<StmtValue>, sqls: seq<string>, params: seq<Params>, wantRows: bool) {
    |stmts| == |sqls| && forall i :: 0 <= i < |sqls| ==> Represents(stmts[i], sqls[i], ParamsOf(params, i), wantRows)
  }

  predicate Unsupported(sqls: seq<string>, params: seq<Params>)
    requires params == [] || |params| >= |sqls|
  {
    params != [] && exists i :: 0 <= i < |sqls| && !ParamsSupported(params[i])
  }

  // A compiled batch goes out as the compilation of what its statements go out as.
  lemma {:induction false} CompiledMarshals(stmts: seq<StmtValue>, transactional: bool)
    requires forall i :: 0 <= i < |stmts| ==> stmts[i].sql.Own?
    ensures MarshalSteps(Compile(stmts, RollbackStmt(), transactional)) ==
      Compile(WiresOf(stmts), WireOf(RollbackStmt()), transactional)
  {
    var steps := Compile(stmts, RollbackStmt(), transactional);
    var wire := Compile(WiresOf(stmts), WireOf(RollbackStmt()), transactional);
    forall i | 0 <= i < |steps|
      ensures MarshalSteps(steps)[i] == wire[i]
    {
      if i < |stmts| {
        PrefixAt(stmts, transactional, |stmts|, i);
        PrefixAt(WiresOf(stmts), transactional, |stmts|, i);
      }
    }
  }

  method ExecuteStream(sql: string, params: Option<Params>, wantRows: bool)
    returns (request: Option<StreamRequest>, ghost stmt: StmtValue)
    ensures request.None? <==> params.Some? && !ParamsSupported(params.value)
    ensures request.Some? ==>
      request.value == StreamRequest("execute", Some(stmt), null) && Represents(stmt, sql, params, wantRows)
  {
    var s := NewStmt(sql, params, wantRows);
    stmt := if s.Some? then s.value else StmtValue(NoSql, [], [], false, None);
    request := if s.Some? then Some(StreamRequest("execute", Some(s.value), null)) else None;
  }

  method BuildRequest(sqls: seq<string>, params: seq<Params>, wantRows: bool, schemaDb: bool)
    returns (request: Option<StreamRequest>, ghost stmts: seq<StmtValue>)
    requires params == [] || |params| >= |sqls|
    ensures request.None? <==> Unsupported(sqls, params)
    ensures request.Some? ==>
      && Represented(stmts, sqls, params, wantRows)
      && (request.value.batch != null ==> request.value.stmt.None? && fresh(request.value.batch))
      && MarshalRequest(request.value) == RequestOf(WiresOf(stmts), !schemaDb)
  {
    if |sqls| == 1 {
      ghost var stmt;
      request, stmt := ExecuteStream(sqls[0], if |params| > 0 then Some(params[0]) else None, wantRows);
      stmts := [stmt];
    } else {
      var batch;
      batch, stmts := BatchStream(sqls, params, wantRows, !schemaDb);
      if batch == null {
        return None, stmts;
      }
      CompiledMarshals(stmts, !schemaDb);
      request := Some(StreamRequest("batch", None, batch));
    }
  }

  // ---- executeStmt ---------------------------------------------------------------------------

  // A connection in state c posted this one request, or refused to.
  ghost predicate PostedOnce(before: seq<Exchange>, log: seq<Exchange>, c: Conn, w: WireRequest,
                             r: Result<PipelineResponse>) {
    if c.streamClosed then r.Err? && log == before
    else
      && |log| == |before| + 1 && log[..|before|] == before
      && log[|before|].wire.requests == [WithIndex(w, c.replicationIndex)]
      && if Succeeds(log[|before|].reply) then r == Ok(log[|before|].reply.response) else r.Err?
  }

  // A message with this one request is posted.
  method PostRequest(h: HranaV2Conn, request: StreamRequest) returns (r: Result<PipelineResponse>)
    requires h.Valid() && (request.batch != null ==> request.stmt.None?)
    modifies h, h.server`log, if request.batch != null then {request.batch} else {}
    ensures h.Valid()
    ensures PostedOnce(old(h.server.log), h.server.log, old(h.State()), old(MarshalRequest(request)), r)
  {
    ghost var before, c, w := h.server.log, h.State(), MarshalRequest(request);
    var msg := new PipelineRequest();
    msg.Add(request);
    assert msg.requests == [request];
    assert MarshalRequest(request) == w;
    ghost var wire := MarshalAll(msg.requests);
    assert wire[0] == w;
    r := h.ExecuteMsg(msg);
    assert !c.streamClosed ==> h.server.log[|before|].wire.requests == WithIndexes([w], c.replicationIndex);
    assert WithIndexes([w], c.replicationIndex) == [WithIndex(w, c.replicationIndex)];
  }

  method SendStatements(h: HranaV2Conn, sqls: seq<string>, params: seq<Params>, wantRows: bool, schemaDb: bool)
    returns (r: Result<PipelineResponse>, ghost stmts: seq<StmtValue>)
    requires h.Valid() && (params == [] || |params| >= |sqls|)
    modifies h, h.server`log
    ensures h.Valid()
    ensures Unsupported(sqls, params) ==> r.Err? && h.server.log == old(h.server.log) && h.State() == old(h.State())
    ensures !Unsupported(sqls, params) ==>
      && Represented(stmts, sqls, params, wantRows)
      && PostedOnce(old(h.server.log), h.server.log, old(h.State()), RequestOf(WiresOf(stmts), !schemaDb), r)
  {
    var request;
    request, stmts := BuildRequest(sqls, params, wantRows, schemaDb);
    if request.None? {
      return Err("failed to execute SQL"), stmts;
    }
    r := PostRequest(h, request.value);
  }

  const QUERY_SIZE_LIMIT_FOR_CHUNKING: nat := 20 * 1024 * 1024

  predicate GoesInChunks(input: string, args: seq<NamedValue>, schemaDb: bool) {
    args == [] && |input| > QUERY_SIZE_LIMIT_FOR_CHUNKING && !schemaDb
  }

  predicate BadArguments(lexed: seq<Lexed>, args: seq<NamedValue>) {
    args != [] && (Mixed(args) || exists i :: 0 <= i < |lexed| && !Extractable(lexed[i]))
  }

  // The statements have got their arguments; without arguments there are no parameters at all.
  ghost predicate DealtTo(lexed: seq<Lexed>, args: seq<NamedValue>, sorted: seq<NamedValue>, params: seq<Params>) {
    if args == [] then params == []
    else
      && |params| == |lexed|
      && if IsNamed(args[0]) then NamedDealt(lexed, params, NamesOf(sorted))
         else Dealt(lexed, params, ValuesOf(sorted), |lexed|)
  }

  // What a query of these texts sends when it does not go in chunks: its statements with their
  // arguments, in one request; nothing at all when the arguments do not fit.
  ghost predicate Queried(before: seq<Exchange>, log: seq<Exchange>, c: Conn, texts: seq<string>, lexed: seq<Lexed>,
                          args: seq<NamedValue>, sorted: seq<NamedValue>, params: seq<Params>, stmts: seq<StmtValue>,
                          wantRows: bool, schemaDb: bool, r: Result<PipelineResponse>)
    requires |lexed| == |texts|
  {
    if BadArguments(lexed, args) then r.Err? && log == before
    else
      && DealtTo(lexed, args, sorted, params)
      && if Unsupported(texts, params) then r.Err? && log == before
         else
           && Represented(stmts, texts, params, wantRows)
           && PostedOnce(before, log, c, RequestOf(WiresOf(stmts), !schemaDb), r)
  }

  ghost function TextsOf(source: TokenSource): seq<string> {
    Texts(source.input, Split(Visible(source.tokens)))
  }

  // lexed is the lexer's view of the statements, sorted what the library sort makes of args.
  method ExecuteStmt(h: HranaV2Conn, source: TokenSource, lexed: seq<Lexed>, args: seq<NamedValue>,
                     sorted: seq<NamedValue>, wantRows: bool, schemaDb: bool)
    returns (r: Result<PipelineResponse>, ghost params: seq<Params>, ghost stmts: seq<StmtValue>)
    requires h.Valid() && source.Valid() && source.pos == 0
    requires |lexed| == |TextsOf(source)| && SortedVersion(args, sorted)
    requires forall i :: 0 <= i < |lexed| ==> LexerParams(lexed[i])
    modifies h, h.server`log, h.server`closed, source
    ensures h.Valid()
    ensures args == [] && |source.input| > 20_971_520 && !schemaDb ==>
      var texts := Wanted(TextsOf(source));
      RanInChunks(old(h.server.log), h.server.log, texts, r, |texts| == 1, wantRows, 4096)
    ensures args != [] || |source.input| <= 20_971_520 || schemaDb ==>
      Queried(old(h.server.log), h.server.log, old(h.State()), TextsOf(source), lexed, args, sorted, params, stmts,
              wantRows, schemaDb, r)
  {
    params, stmts := [], [];
    if |args| == 0 && |source.input| > QUERY_SIZE_LIMIT_FOR_CHUNKING && !schemaDb {
      ghost var single;
      r, single := ExecuteInChunks(h, source, wantRows, CHUNK_SIZE);
      return;
    }
    var sqls, info := SplitStatement(source);
    var dealt := ParseStatementAndArgs(lexed, args, sorted);
    if dealt.Err? {
      return Err("failed to execute SQL"), [], [];
    }
    params := dealt.value;
    r, stmts := SendStatements(h, sqls, dealt.value, wantRows, schemaDb);
  }

  // ---- ExecContext and QueryContext ----------------------------------------------------------

  // For a single statement the row id is reported as it is, even when it is not positive.
  function CountsOne(res: StmtResult): Counted {
    Counted(res.GetLastInsertRowId(), res.affectedRowCount)
  }

  // What ExecContext makes of the response to its one request.
  ghost predicate CountedAs(response: StreamResponse, schemaDb: bool, r: Result<Counted>) {
    if response.typ == "execute" then
      match response.ExecuteResult()
      case Ok(res) => r == Ok(CountsOne(res))
      case Err(message) => r == Err(message)
    else if response.typ == "batch" then
      match response.BatchResult()
      case Err(message) => r == Err(message)
      case Ok(res) =>
        && r.Ok?
        && (r.value.Panicked? <==> exists i :: 0 <= i < UpperBound(res, schemaDb) && res.stepResults[i].None?)
        && forall results: seq<StmtResult> ::
             |results| == Entries(res, schemaDb) && Somes(results) <= res.stepResults ==> r.value == Counts(results)
    else r.Err?
  }

  method CountResponse(response: StreamResponse, schemaDb: bool) returns (r: Result<Counted>)
    ensures CountedAs(response, schemaDb, r)
  {
    if response.typ == "execute" {
      var res := response.ExecuteResult();
      if res.Err? {
        return Err(res.error);
      }
      r := Ok(Counted(res.value.GetLastInsertRowId(), res.value.affectedRowCount));
    } else if response.typ == "batch" {
      var res := response.BatchResult();
      if res.Err? {
        return Err(res.error);
      }
      var counted := CountBatch(res.value, schemaDb);
      r := Ok(counted);
    } else {
      r := Err("unknown response type");
    }
  }

  // What QueryContext makes of it: None is a panic in Go.
  ghost predicate ShownAs(response: StreamResponse, schemaDb: bool, r: Result<Option<Provider>>) {
    if response.typ == "execute" then
      match response.ExecuteResult()
      case Ok(res) => r == Ok(Some(Single(res)))
      case Err(message) => r == Err(message)
    else if response.typ == "batch" then
      match response.BatchResult()
      case Err(message) => r == Err(message)
      case Ok(res) =>
        match WithoutRollback(res, schemaDb)
        case None => r == Ok(None)
        case Some(shown) => r == Ok(Some(Many(shown)))
    else r.Err?
  }

  method ShowResponse(response: StreamResponse, schemaDb: bool) returns (r: Result<Option<Provider>>)
    ensures ShownAs(response, schemaDb, r)
  {
    if response.typ == "execute" {
      var res := response.ExecuteResult();
      if res.Err? {
        return Err(res.error);
      }
      r := Ok(Some(Single(res.value)));
    } else if response.typ == "batch" {
      var res := response.BatchResult();
      if res.Err? {
        return Err(res.error);
      }
      var shown := WithoutRollback(res.value, schemaDb);
      r := Ok(if shown.None? then None else Some(Many(shown.value)));
    } else {
      r := Err("unknown response type");
    }
  }

  // A server that runs what it is sent, from a state, and answers with what happened.
  function ResultFor<S>(w: WireRequest, exec: (S, WireStmt) -> (S, Executed<StmtResult>), state: S, index: Option<nat>)
    : StreamResult
  {
    match w
    case WireExecute(stmt) =>
      (match exec(state, stmt).1
       case Done(res) => StreamResult(Some(StreamResponse("execute", Some(res), None)), None)
       case Error(message) => StreamResult(None, Some(message)))
    case WireBatch(steps, _) => StreamResult(Some(BatchAnswer(steps, exec, state, index)), None)
    case WireOther(_) => StreamResult(None, Some("unknown request"))
  }

  ghost predicate Served<S>(e: Exchange, exec: (S, WireStmt) -> (S, Executed<StmtResult>), state: S,
                            index: Option<nat>) {
    && e.reply.Answer? && |e.wire.requests| == 1
    && e.reply.response.results == [ResultFor(e.wire.requests[0], exec, state, index)]
  }

  // The statements as the server saw them: one that is sent alone may carry the connection's index.
  function AsSent(ws: seq<WireStmt>, index: nat): seq<WireStmt> {
    if |ws| == 1 then [WithIndex(WireExecute(ws[0]), index).stmt] else ws
  }

  // The results of statements that a server runs from a state, or an error: a statement alone runs as
  // it is, several run in order up to the first error, and none are a ROLLBACK that has to succeed.
  // On a schema database each runs, whatever happened to the ones before it.
  ghost function StatementResults<S>(ws: seq<WireStmt>, exec: (S, WireStmt) -> (S, Executed<StmtResult>), state: S,
                                     schemaDb: bool): (results: Result<seq<StmtResult>>)
    ensures results.Ok? ==> |results.value| == |ws|
  {
    if schemaDb && |ws| != 1 then
      var executed := RunAll(ws, exec, state).executed;
      if AllDone(executed) then Ok(ResultsIn(executed)) else Err("a statement failed")
    else if ws == [] then
      match exec(state, WireOf(RollbackStmt())).1
      case Done(_) => Ok([])
      case Error(message) => Err(message)
    else
      var u := UntilError(ws, exec, state);
      if u.error.Some? then Err(u.error.value) else Ok(u.results)
  }

  // A batch of more statements than fit 32 bits has conditions that mean something else.
  predicate Fits(ws: seq<WireStmt>, schemaDb: bool) {
    schemaDb || |ws| <= TWO_31
  }

  // What ExecContext reports when the statements had these results.
  ghost predicate Reports(results: Result<seq<StmtResult>>, r: Result<Counted>) {
    match results
    case Err(_) => r.Err?
    case Ok(all) => r == Ok(if |all| == 1 then CountsOne(all[0]) else Counts(all))
  }

  // What QueryContext shows: one result set a statement, in order.
  ghost predicate ShowsAll(results: Result<seq<StmtResult>>, r: Result<Option<Provider>>) {
    match results
    case Err(_) => r.Err?
    case Ok(all) =>
      && r.Ok? && r.value.Some? && r.value.value.SetsCount() == |all|
      && forall i :: 0 <= i < |all| ==> r.value.value.SetAt(i) == Some(all[i])
  }

  // A batch was answered with these results.
  ghost predicate HasResults(answer: StreamResponse, results: Result<seq<StmtResult>>, schemaDb: bool,
                             index: Option<nat>) {
    && answer.typ == "batch"
    && match results
       case Err(_) => answer.BatchResult().Err?
       case Ok(all) =>
         && answer.BatchResult().Ok?
         && var b := answer.BatchResult().value;
         && WithoutRollback(b, schemaDb) == Some(BatchResult(Somes(all), Nones(|all|), index))
         && Entries(b, schemaDb) == |all| && Somes(all) <= b.stepResults
  }

  lemma {:induction false} InOrderAnswered<S>(ws: seq<WireStmt>, exec: (S, WireStmt) -> (S, Executed<StmtResult>),
                                              state: S, index: Option<nat>)
    requires 2 <= |ws| <= TWO_31
    ensures HasResults(BatchAnswer(Compile(ws, WireOf(RollbackStmt()), true), exec, state, index),
                       StatementResults(ws, exec, state, false), false, index)
  {
    TransactionalAnswer(ws, WireOf(RollbackStmt()), exec, state, index);
    if UntilError(ws, exec, state).error.None? {
      TransactionalCount(ws, WireOf(RollbackStmt()), exec, state, index);
    }
  }

  lemma {:induction false} NoneAnswered<S>(exec: (S, WireStmt) -> (S, Executed<StmtResult>), state: S,
                                           index: Option<nat>)
    ensures HasResults(BatchAnswer(Compile([], WireOf(RollbackStmt()), true), exec, state, index),
                       StatementResults([], exec, state, false), false, index)
  {
    EmptyAnswer(WireOf(RollbackStmt()), exec, state, index);
  }

  lemma {:induction false} BatchAnswered<S>(ws: seq<WireStmt>, exec: (S, WireStmt) -> (S, Executed<StmtResult>),
                                            state: S, index: Option<nat>, schemaDb: bool)
    requires |ws| != 1 && Fits(ws, schemaDb)
    ensures HasResults(BatchAnswer(Compile(ws, WireOf(RollbackStmt()), !schemaDb), exec, state, index),
                       StatementResults(ws, exec, state, schemaDb), schemaDb, index)
  {
    if schemaDb {
      PlainAnswer(ws, WireOf(RollbackStmt()), exec, state, index);
    } else if ws == [] {
      NoneAnswered(exec, state, index);
    } else {
      InOrderAnswered(ws, exec, state, index);
    }
  }

  // The first result of a response to a request for these statements.
  ghost predicate IsAnswer(result: StreamResult, results: Result<seq<StmtResult>>, single: bool, schemaDb: bool,
                           index: Option<nat>) {
    if single then
      match results
      case Err(message) => result == StreamResult(None, Some(message))
      case Ok(all) => |all| == 1 && result == StreamResult(Some(StreamResponse("execute", Some(all[0]), None)), None)
    else
      && result.error.None? && result.response.Some?
      && HasResults(result.response.value, results, schemaDb, index)
      && (results.Ok? ==> |results.value| != 1)
  }

  lemma {:induction false} RequestAnswered<S>(ws: seq<WireStmt>, own: nat,
                                              exec: (S, WireStmt) -> (S, Executed<StmtResult>), state: S,
                                              index: Option<nat>, schemaDb: bool)
    requires Fits(ws, schemaDb)
    ensures IsAnswer(ResultFor(WithIndex(RequestOf(ws, !schemaDb), own), exec, state, index),
                     StatementResults(AsSent(ws, own), exec, state, schemaDb), |ws| == 1, schemaDb, index)
  {
    if |ws| == 1 {
      var w := AsSent(ws, own)[0];
      UntilErrorSnoc([], w, exec, state);
      assert [] + [w] == [w];
    } else {
      BatchAnswered(ws, exec, state, index, schemaDb);
    }
  }

  lemma AnswerIsCounted(result: StreamResult, results: Result<seq<StmtResult>>, single: bool, schemaDb: bool,
                        index: Option<nat>, r: Result<Counted>)
    requires IsAnswer(result, results, single, schemaDb, index)
    requires if result.response.Some? then CountedAs(result.response.value, schemaDb, r) else r.Err?
    ensures Reports(results, r)
  {
  }

  lemma AnswerIsShown(result: StreamResult, results: Result<seq<StmtResult>>, single: bool, schemaDb: bool,
                      index: Option<nat>, r: Result<Option<Provider>>)
    requires IsAnswer(result, results, single, schemaDb, index)
    requires if result.response.Some? then ShownAs(result.response.value, schemaDb, r) else r.Err?
    ensures ShowsAll(results, r)
  {
  }

  // The query went out in one request; if the server ran it from this state, r reports what happened.
  ghost predicate Performed<S>(before: seq<Exchange>, log: seq<Exchange>, own: nat, ws: seq<WireStmt>,
                               exec: (S, WireStmt) -> (S, Executed<StmtResult>), state: S, index: Option<nat>,
                               schemaDb: bool, r: Result<Counted>) {
    && |log| == |before| + 1 && log[..|before|] == before
    && log[|before|].wire.requests == [WithIndex(RequestOf(ws, !schemaDb), own)]
    && (Served(log[|before|], exec, state, index) && Fits(ws, schemaDb) ==>
          Reports(StatementResults(AsSent(ws, own), exec, state, schemaDb), r))
  }

  ghost predicate CountedFrom(result: Result<PipelineResponse>, schemaDb: bool, r: Result<Counted>) {
    match result
    case Err(message) => r == Err(message)
    case Ok(response) =>
      if response.results == [] || response.results[0].response.None? then r == Ok(Panicked)
      else CountedAs(response.results[0].response.value, schemaDb, r)
  }

  method CountResult(result: Result<PipelineResponse>, schemaDb: bool) returns (r: Result<Counted>)
    ensures CountedFrom(result, schemaDb, r)
  {
    if result.Err? {
      r := Err(result.error);
    } else if result.value.results == [] || result.value.results[0].response.None? {
      r := Ok(Panicked);
    } else {
      r := CountResponse(result.value.results[0].response.value, schemaDb);
    }
  }

  lemma PostedIsPerformed<S>(before: seq<Exchange>, log: seq<Exchange>, c: Conn, ws: seq<WireStmt>,
                             result: Result<PipelineResponse>, exec: (S, WireStmt) -> (S, Executed<StmtResult>),
                             state: S, index: Option<nat>, schemaDb: bool, r: Result<Counted>)
    requires PostedOnce(before, log, c, RequestOf(ws, !schemaDb), result) && !c.streamClosed
    requires CountedFrom(result, schemaDb, r)
    ensures Performed(before, log, c.replicationIndex, ws, exec, state, index, schemaDb, r)
  {
    if Served(log[|before|], exec, state, index) && Fits(ws, schemaDb) {
      var e, results := log[|before|], StatementResults(AsSent(ws, c.replicationIndex), exec, state, schemaDb);
      RequestAnswered(ws, c.replicationIndex, exec, state, index, schemaDb);
      AnswerIsCounted(e.reply.response.results[0], results, |ws| == 1, schemaDb, index, r);
    }
  }

  // What ExecContext does for a query of these texts that does not go in chunks.
  ghost predicate Answers<S>(before: seq<Exchange>, log: seq<Exchange>, c: Conn, texts: seq<string>, lexed: seq<Lexed>,
                             args: seq<NamedValue>, sorted: seq<NamedValue>, params: seq<Params>,
                             stmts: seq<StmtValue>, exec: (S, WireStmt) -> (S, Executed<StmtResult>), state: S,
                             index: Option<nat>, schemaDb: bool, r: Result<Counted>)
    requires |lexed| == |texts|
  {
    if BadArguments(lexed, args) then r.Err? && log == before
    else
      && DealtTo(lexed, args, sorted, params)
      && if Unsupported(texts, params) || c.streamClosed then r.Err? && log == before
         else
           && Represented(stmts, texts, params, false)
           && Performed(before, log, c.replicationIndex, WiresOf(stmts), exec, state, index, schemaDb, r)
  }

  lemma QueryIsAnswered<S>(before: seq<Exchange>, log: seq<Exchange>, c: Conn, texts: seq<string>, lexed: seq<Lexed>,
                           args: seq<NamedValue>, sorted: seq<NamedValue>, params: seq<Params>, stmts: seq<StmtValue>,
                           exec: (S, WireStmt) -> (S, Executed<StmtResult>), state: S, index: Option<nat>,
                           schemaDb: bool, result: Result<PipelineResponse>, r: Result<Counted>)
    requires |lexed| == |texts|
    requires Queried(before, log, c, texts, lexed, args, sorted, params, stmts, false, schemaDb, result)
    requires CountedFrom(result, schemaDb, r)
    ensures Answers(before, log, c, texts, lexed, args, sorted, params, stmts, exec, state, index, schemaDb, r)
  {
    if !BadArguments(lexed, args) && !Unsupported(texts, params) && !c.streamClosed {
      PostedIsPerformed(before, log, c, WiresOf(stmts), result, exec, state, index, schemaDb, r);
    }
  }

  // Whatever the server does to run them, the statements of a query that does not go in chunks are
  // sent with their arguments, and what the driver reports is what the server did. A query in chunks
  // is sent as a script, and the report is read from the first of its results.
  method ExecContext<S>(h: HranaV2Conn, source: TokenSource, lexed: seq<Lexed>, args: seq<NamedValue>,
                        sorted: seq<NamedValue>, schemaDb: bool,
                        ghost exec: (S, WireStmt) -> (S, Executed<StmtResult>), ghost state: S,
                        ghost index: Option<nat>)
    returns (r: Result<Counted>, ghost result: Result<PipelineResponse>, ghost params: seq<Params>,
             ghost stmts: seq<StmtValue>)
    requires h.Valid() && source.Valid() && source.pos == 0
    requires |lexed| == |TextsOf(source)| && SortedVersion(args, sorted)
    requires forall i :: 0 <= i < |lexed| ==> LexerParams(lexed[i])
    modifies h, h.server`log, h.server`closed, source
    ensures h.Valid()
    ensures !GoesInChunks(source.input, args, schemaDb) ==>
      Answers(old(h.server.log), h.server.log, old(h.State()), TextsOf(source), lexed, args, sorted, params, stmts,
              exec, state, index, schemaDb, r)
    ensures CountedFrom(result, schemaDb, r)
    ensures GoesInChunks(source.input, args, schemaDb) ==>
      var texts := Wanted(TextsOf(source));
      RanInChunks(old(h.server.log), h.server.log, texts, result, |texts| == 1, false, CHUNK_SIZE)
  {
    ghost var before, c := h.server.log, h.State();
    var res;
    res, params, stmts := ExecuteStmt(h, source, lexed, args, sorted, false, schemaDb);
    r := CountResult(res, schemaDb);
    result := res;
    if !GoesInChunks(source.input, args, schemaDb) {
      QueryIsAnswered(before, h.server.log, c, TextsOf(source), lexed, args, sorted, params, stmts, exec, state, index,
                      schemaDb, result, r);
    }
  }

  ghost predicate ShownFrom(result: Result<PipelineResponse>, schemaDb: bool, r: Result<Option<Provider>>) {
    match result
    case Err(message) => r == Err(message)
    case Ok(response) =>
      if response.results == [] || response.results[0].response.None? then r == Ok(None)
      else ShownAs(response.results[0].response.value, schemaDb, r)
  }

  method QueryContext(h: HranaV2Conn, source: TokenSource, lexed: seq<Lexed>, args: seq<NamedValue>,
                      sorted: seq<NamedValue>, schemaDb: bool)
    returns (r: Result<Option<Provider>>, ghost result: Result<PipelineResponse>, ghost params: seq<Params>,
             ghost stmts: seq<StmtValue>)
    requires h.Valid() && source.Valid() && source.pos == 0
    requires |lexed| == |TextsOf(source)| && SortedVersion(args, sorted)
    requires forall i :: 0 <= i < |lexed| ==> LexerParams(lexed[i])
    modifies h, h.server`log, h.server`closed, source
    ensures h.Valid()
    ensures ShownFrom(result, schemaDb, r)
    ensures !GoesInChunks(source.input, args, schemaDb) ==>
      Queried(old(h.server.log), h.server.log, old(h.State()), TextsOf(source), lexed, args, sorted, params, stmts,
              true, schemaDb, result)
    ensures GoesInChunks(source.input, args, schemaDb) ==>
      var texts := Wanted(TextsOf(source));
      RanInChunks(old(h.server.log), h.server.log, texts, result, |texts| == 1, true, CHUNK_SIZE)
  {
    var res;
    res, params, stmts := ExecuteStmt(h, source, lexed, args, sorted, true, schemaDb);
    result := res;
    if res.Err? {
      r := Err(res.error);
    } else if res.value.results == [] || res.value.results[0].response.None? {
      r := Ok(None);
    } else {
      r := ShowResponse(res.value.results[0].response.value, schemaDb);
    }
  }

  // What QueryContext shows for the one request it posted is what the server did.
  lemma PostedIsShown<S>(before: seq<Exchange>, log: seq<Exchange>, c: Conn, ws: seq<WireStmt>,
                         result: Result<PipelineResponse>, exec: (S, WireStmt) -> (S, Executed<StmtResult>), state: S,
                         index: Option<nat>, schemaDb: bool, r: Result<Option<Provider>>)
    requires PostedOnce(before, log, c, RequestOf(ws, !schemaDb), result) && !c.streamClosed && Fits(ws, schemaDb)
    requires ShownFrom(result, schemaDb, r) && Served(log[|before|], exec, state, index)
    ensures ShowsAll(StatementResults(AsSent(ws, c.replicationIndex), exec, state, schemaDb), r)
  {
    var e, results := log[|before|], StatementResults(AsSent(ws, c.replicationIndex), exec, state, schemaDb);
    RequestAnswered(ws, c.replicationIndex, exec, state, index, schemaDb);
    AnswerIsShown(e.reply.response.results[0], results, |ws| == 1, schemaDb, index, r);
  }

  // ---- the numbers of a report, as they are sent ---------------------------------------------

  // For an execute response the row id reported is the integer whose text was sent, and the count is the
  // number of affected rows that was sent.
  lemma ExecuteNumbers(cols: seq<Column>, rows: seq<seq<Value>>, m: int, n: int, index: Option<nat>,
                       more: Option<BatchResult>, schemaDb: bool, r: Result<Counted>)
    requires IsInt64(n)
    requires var result := StmtResult(cols, rows, m, Some(FormatInt(n)), index);
      CountedAs(StreamResponse("execute", Some(result), more), schemaDb, r)
    ensures r == Ok(Counted(n, m))
  {
    RowIdExactly(StmtResult(cols, rows, m, Some(FormatInt(n)), index), n);
  }

  // Without a row id that can be read, 0 is reported.
  lemma ExecuteWithoutRowId(cols: seq<Column>, rows: seq<seq<Value>>, m: int, id: Option<string>, index: Option<nat>,
                            more: Option<BatchResult>, schemaDb: bool, r: Result<Counted>)
    requires id == None || ParseInt(id.value) == None
    requires CountedAs(StreamResponse("execute", Some(StmtResult(cols, rows, m, id, index)), more), schemaDb, r)
    ensures r == Ok(Counted(0, m))
  {
    NoRowId(StmtResult(cols, rows, m, id, index));
  }

  // For a batch response without errors, whose last entry is the skipped ROLLBACK, the row id is the last
  // positive one that was sent, and the count is the sum.
  lemma {:induction false} BatchNumbers(results: seq<StmtResult>, ns: seq<int>, ms: seq<int>,
                                        errors: seq<Option<string>>, index: Option<nat>, less: Option<StmtResult>,
                                        r: Result<Counted>)
    requires HasNumbers(results, ns, ms) && forall i :: 0 <= i < |errors| ==> errors[i].None?
    requires var b := BatchResult(Somes(results) + [None], errors, index);
      CountedAs(StreamResponse("batch", less, Some(b)), false, r)
    ensures r.Ok? && r.value.Counted?
    ensures IsLastPositive(ns, r.value.lastInsertRowId) && r.value.affectedRowCount == SumOf(ms)
  {
    var b := BatchResult(Somes(results) + [None], errors, index);
    NumbersSummed(results, ns, ms);
    LastNumber(results, ns, ms);
    assert |results| == Entries(b, false) && Somes(results) <= b.stepResults;
    assert r == Ok(Counts(results));
  }

  // ---- the statements, as they are sent ------------------------------------------------------

  // What goes out for the statements of a query: each text, whether rows are wanted, and one value for
  // each positional argument or an entry for each named one, as the text and its parameters say.
  lemma WiresCarry(stmts: seq<StmtValue>, sqls: seq<string>, params: seq<Params>, wantRows: bool, i: nat)
    requires Represented(stmts, sqls, params, wantRows) && i < |sqls|
    ensures var w := WiresOf(stmts)[i];
      && |WiresOf(stmts)| == |sqls|
      && w.sql == Some(sqls[i]) && w.wantRows == wantRows && w.replicationIndex == None
      && if i >= |params| then w.args == [] && w.namedArgs == []
         else if params[i].named.Some? && |params[i].named.value| > 0
         then Named(w.namedArgs, params[i].named.value) && w.args == []
         else Positional(w.args, params[i].positional) && w.namedArgs == []
  {
  }

  // A transactional batch ends in the text ROLLBACK, without arguments.
  lemma EndsInRollback(ws: seq<WireStmt>)
    requires |ws| != 1
    ensures var w := RequestOf(ws, true);
      && w.WireBatch? && |w.steps| == |ws| + 1
      && w.steps[|ws|].stmt == WireStmt(Some("ROLLBACK"), [], [], false, None)
  {
  }
}
