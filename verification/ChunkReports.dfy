// What ExecContext and QueryContext make of a script that went out in chunks: both read the response
// of its first batch, and take the last statement of that for a ROLLBACK.
module ChunkReports {
  import opened Wrappers
  import opened Sequences
  import opened BatchMeaning
  import opened Results
  import opened Accounting
  import opened RowCursor
  import opened Connection
  import opened Chunks
  import opened ChunkEffects
  import opened Execution

  // A server that runs what each exchange brings, one after the other, and answers for it.
  ghost predicate ServedInTurn<S>(exchanges: seq<Exchange>, exec: (S, Option<string>) -> (S, Executed<StmtResult>),
                                  state: S, indexes: nat -> Option<nat>) {
    exchanges == [] || var n := |exchanges| - 1;
      && ServedInTurn(exchanges[..n], exec, state, indexes)
      && Served(exchanges[n], OnText(exec), RunExchanges(exchanges[..n], exec, state).state, indexes(n))
  }

  lemma {:induction false} ServedAt<S>(exchanges: seq<Exchange>, j: nat,
                                       exec: (S, Option<string>) -> (S, Executed<StmtResult>), state: S,
                                       indexes: nat -> Option<nat>)
    requires ServedInTurn(exchanges, exec, state, indexes) && j < |exchanges|
    ensures Served(exchanges[j], OnText(exec), RunExchanges(exchanges[..j], exec, state).state, indexes(j))
  {
    var n := |exchanges| - 1;
    if j < n {
      ServedAt(exchanges[..n], j, exec, state, indexes);
      assert exchanges[..n][..j] == exchanges[..j];
    }
  }

  // What became of the statements of a script, which the server runs after BEGIN.
  function BodyOutcomes<S>(texts: seq<string>, exec: (S, Option<string>) -> (S, Executed<StmtResult>), state: S)
    : (executed: seq<Executed<StmtResult>>)
    ensures |executed| == |texts|
  {
    RunAll(Somes(texts), exec, RunAll([Some("BEGIN")], exec, state).state).executed
  }

  // What became of those that are in the first chunk.
  function FirstOutcomes<S>(texts: seq<string>, limit: nat, exec: (S, Option<string>) -> (S, Executed<StmtResult>),
                            state: S): (executed: seq<Executed<StmtResult>>)
    ensures |executed| == |FirstChunk(texts, limit)|
  {
    BodyOutcomes(texts, exec, state)[..|FirstChunk(texts, limit)|]
  }

  lemma FirstChunkOutcomes<S>(texts: seq<string>, limit: nat, exec: (S, Option<string>) -> (S, Executed<StmtResult>),
                              state: S)
    ensures var first := FirstChunk(texts, limit);
      RunAll(Somes(first), exec, state).executed == RunAll(Somes(texts), exec, state).executed[..|first|]
  {
    var first := FirstChunk(texts, limit);
    var rest := texts[|first|..];
    assert texts == first + rest;
    SomesAppend(first, rest);
    RunAllAppend(Somes(first), Somes(rest), exec, state);
  }

  lemma FirstOfAll(exchanges: seq<Exchange>, wantRows: bool, limit: nat)
    requires exchanges != [] && AllSent(exchanges, wantRows, limit).plain
    ensures IsPlainExchange(exchanges[0], wantRows, limit)
    ensures ResultsOf(exchanges[0]) <= AllSent(exchanges, wantRows, limit).results
  {
    var first, rest := exchanges[0], exchanges[1..];
    assert exchanges == [first] + rest;
    SentAppend([first], rest, wantRows, limit);
    SentSnoc([], first, wantRows, limit);
    assert [] + [first] == [first];
  }

  // The response to a batch whose statements run without conditions and fare like this.
  function PlainResponse(executed: seq<Executed<StmtResult>>, index: Option<nat>): StreamResponse {
    StreamResponse("batch", None, Some(Report(OutcomesOf(executed), index)))
  }

  lemma BatchResponse<S>(e: Exchange, texts: seq<string>, wantRows: bool, limit: nat,
                         exec: (S, Option<string>) -> (S, Executed<StmtResult>), state: S, index: Option<nat>)
    requires IsBatch(e) && IsPlainExchange(e, wantRows, limit) && SqlOfExchange(e) == Somes(texts)
    requires Served(e, OnText(exec), state, index)
    ensures ResultsOf(e) ==
      [StreamResult(Some(PlainResponse(RunAll(Somes(texts), exec, state).executed, index)), None)]
  {
    UnconditionalBatch(e.wire.requests[0].steps, exec, state);
  }

  lemma {:induction false} BeginSent(before: seq<Exchange>, log: seq<Exchange>, texts: seq<string>,
                                     results: seq<StreamResult>, wantRows: bool, limit: nat)
    requires RanScript(before, log, texts, results, wantRows, limit)
    ensures var s := AllSent(log[..|before| + 1][|before|..], wantRows, limit); s.plain && s.sqls == Somes(["BEGIN"])
  {
  }

  // The state in which the first batch of a script runs.
  lemma {:induction false} AfterBegin<S>(log: seq<Exchange>, n: nat, wantRows: bool, limit: nat,
                                         exec: (S, Option<string>) -> (S, Executed<StmtResult>), state: S)
    requires n < |log|
    requires var s := AllSent(log[..n + 1][n..], wantRows, limit); s.plain && s.sqls == Somes(["BEGIN"])
    ensures RunExchanges(log[n..][..1], exec, state).state == RunAll([Some("BEGIN")], exec, state).state
  {
    TakeOfDrop(log, n, 1);
    OneRuns(log[..n + 1][n..], "BEGIN", wantRows, limit, exec, state);
  }

  lemma {:induction false} OneRuns<S>(exchanges: seq<Exchange>, text: string, wantRows: bool, limit: nat,
                                      exec: (S, Option<string>) -> (S, Executed<StmtResult>), state: S)
    requires AllSent(exchanges, wantRows, limit).plain && AllSent(exchanges, wantRows, limit).sqls == Somes([text])
    ensures RunExchanges(exchanges, exec, state).state == RunAll([Some(text)], exec, state).state
  {
    assert Somes([text]) == [Some(text)];
    PlainExchangesRun(exchanges, wantRows, limit, exec, state);
  }

  // Behind BEGIN comes the first batch, and its result is the first of the script.
  lemma {:induction false} FirstBatch(before: seq<Exchange>, log: seq<Exchange>, texts: seq<string>,
                                      results: seq<StreamResult>, wantRows: bool, limit: nat)
    requires RanScript(before, log, texts, results, wantRows, limit)
    ensures var e := log[|before| + 1];
      && log[|before|..][1] == e
      && IsBatch(e) && SqlOfExchange(e) == Somes(FirstChunk(texts, limit)) && IsPlainExchange(e, wantRows, limit)
      && ResultsOf(e) <= results
  {
    var mid := log[..|log| - 1][|before| + 1..];
    assert mid[0] == log[|before| + 1];
    FirstOfAll(mid, wantRows, limit);
  }

  // The first result of a script is the response for as many of its statements as a chunk can hold.
  lemma {:induction false} FirstResult<S>(before: seq<Exchange>, log: seq<Exchange>, texts: seq<string>,
                                          results: seq<StreamResult>, wantRows: bool, limit: nat,
                                          exec: (S, Option<string>) -> (S, Executed<StmtResult>), state: S,
                                          indexes: nat -> Option<nat>)
    requires RanScript(before, log, texts, results, wantRows, limit)
    requires ServedInTurn(log[|before|..], exec, state, indexes)
    ensures results != []
    ensures results[0] == StreamResult(Some(PlainResponse(FirstOutcomes(texts, limit, exec, state), indexes(1))), None)
  {
    var n := |before|;
    ServedAt(log[n..], 1, exec, state, indexes);
    BeginSent(before, log, texts, results, wantRows, limit);
    AfterBegin(log, n, wantRows, limit, exec, state);
    FirstBatch(before, log, texts, results, wantRows, limit);
    var begun := RunAll([Some("BEGIN")], exec, state).state;
    BatchResponse(log[n + 1], FirstChunk(texts, limit), wantRows, limit, exec, begun, indexes(1));
    FirstChunkOutcomes(texts, limit, exec, begun);
  }

  function ButLast(results: seq<StmtResult>): seq<StmtResult> {
    if results == [] then [] else results[..|results| - 1]
  }

  lemma {:induction false} PlainResult(executed: seq<Executed<StmtResult>>, index: Option<nat>)
    ensures AllDone(executed) ==>
      PlainResponse(executed, index).BatchResult() ==
        Ok(BatchResult(Somes(ResultsIn(executed)), Nones(|executed|), index))
    ensures !AllDone(executed) ==> PlainResponse(executed, index).BatchResult().Err?
  {
    if AllDone(executed) {
      AllDoneIsReported(executed, index);
      NoErrors(Nones(|executed|));
    } else {
      ErrorIsReported(executed, index);
    }
  }

  lemma NoErrors(errors: seq<Option<string>>)
    requires forall i :: 0 <= i < |errors| ==> errors[i].None?
    ensures FirstError(errors) == None
  {
  }

  lemma SomesOfPart(results: seq<StmtResult>)
    requires results != []
    ensures Somes(results)[..|results| - 1] == Somes(ButLast(results))
  {
  }

  lemma NonesOfPart(n: nat)
    requires n > 0
    ensures Nones(n)[..n - 1] == Nones(n - 1)
  {
  }

  // The report on a first chunk whose statements fared like this: an error if and only if one failed,
  // and else the count without the last one.
  ghost predicate ReportsPart(executed: seq<Executed<StmtResult>>, r: Result<Counted>) {
    if AllDone(executed) then r == Ok(Counts(ButLast(ResultsIn(executed)))) else r.Err?
  }

  // What is shown of it: the results without the last one. Without a statement there is nothing to take
  // off, and Go would stop.
  ghost predicate ShowsPart(executed: seq<Executed<StmtResult>>, index: Option<nat>, r: Result<Option<Provider>>) {
    if !AllDone(executed) then r.Err?
    else if executed == [] then r == Ok(None)
    else r == Ok(Some(Many(BatchResult(Somes(ButLast(ResultsIn(executed))), Nones(|executed| - 1), index))))
  }

  lemma CountedOk(response: StreamResponse, b: BatchResult, part: seq<StmtResult>, r: Result<Counted>)
    requires response.typ == "batch" && response.BatchResult() == Ok(b) && CountedAs(response, false, r)
    requires |part| == Entries(b, false) && Somes(part) <= b.stepResults
    ensures r == Ok(Counts(part))
  {
  }

  lemma SomesOfButLast(results: seq<StmtResult>)
    ensures Somes(ButLast(results)) <= Somes(results)
  {
    if results != [] {
      SomesOfPart(results);
    }
  }

  lemma {:induction false} PlainCounted(executed: seq<Executed<StmtResult>>, index: Option<nat>, r: Result<Counted>)
    requires CountedAs(PlainResponse(executed, index), false, r)
    ensures ReportsPart(executed, r)
  {
    PlainResult(executed, index);
    if AllDone(executed) {
      var all := ResultsIn(executed);
      SomesOfButLast(all);
      CountedOk(PlainResponse(executed, index), BatchResult(Somes(all), Nones(|executed|), index), ButLast(all), r);
    }
  }

  lemma {:induction false} PlainShown(executed: seq<Executed<StmtResult>>, index: Option<nat>,
                                      r: Result<Option<Provider>>)
    requires ShownAs(PlainResponse(executed, index), false, r)
    ensures ShowsPart(executed, index, r)
  {
    PlainResult(executed, index);
    if AllDone(executed) && executed != [] {
      SomesOfPart(ResultsIn(executed));
      NonesOfPart(|executed|);
    }
  }

  // ExecContext reports a script in chunks as failed if and only if a statement of its first chunk
  // failed. Otherwise it reports the count of the first chunk without the last statement of that.
  lemma ScriptReported<S>(before: seq<Exchange>, log: seq<Exchange>, texts: seq<string>, response: PipelineResponse,
                          wantRows: bool, limit: nat, exec: (S, Option<string>) -> (S, Executed<StmtResult>), state: S,
                          indexes: nat -> Option<nat>, r: Result<Counted>)
    requires RanScript(before, log, texts, response.results, wantRows, limit)
    requires ServedInTurn(log[|before|..], exec, state, indexes) && CountedFrom(Ok(response), false, r)
    ensures ReportsPart(FirstOutcomes(texts, limit, exec, state), r)
  {
    FirstResult(before, log, texts, response.results, wantRows, limit, exec, state, indexes);
    PlainCounted(FirstOutcomes(texts, limit, exec, state), indexes(1), r);
  }

  // QueryContext shows the results of the first chunk without the last one.
  lemma ScriptShown<S>(before: seq<Exchange>, log: seq<Exchange>, texts: seq<string>, response: PipelineResponse,
                       wantRows: bool, limit: nat, exec: (S, Option<string>) -> (S, Executed<StmtResult>), state: S,
                       indexes: nat -> Option<nat>, r: Result<Option<Provider>>)
    requires RanScript(before, log, texts, response.results, wantRows, limit)
    requires ServedInTurn(log[|before|..], exec, state, indexes) && ShownFrom(Ok(response), false, r)
    ensures ShowsPart(FirstOutcomes(texts, limit, exec, state), indexes(1), r)
  {
    FirstResult(before, log, texts, response.results, wantRows, limit, exec, state, indexes);
    PlainShown(FirstOutcomes(texts, limit, exec, state), indexes(1), r);
  }

  lemma {:induction false} ResultsOfPart(executed: seq<Executed<StmtResult>>, k: nat)
    requires AllDone(executed) && k <= |executed|
    ensures AllDone(executed[..k]) && ResultsIn(executed[..k]) == ResultsIn(executed)[..k]
  {
    forall i | 0 <= i < k
      ensures ResultsIn(executed[..k])[i] == ResultsIn(executed)[i]
    {
      assert executed[..k][i] == executed[i];
    }
  }

  // The number of statements that the report of a script counts.
  function CountedOf(texts: seq<string>, limit: nat): (n: nat)
    ensures n <= |texts|
  {
    var k := |FirstChunk(texts, limit)|;
    if k == 0 then 0 else k - 1
  }

  // The report r is right about all the results if and only if those from n on changed no row, and have
  // no row id to report or the same one.
  ghost predicate RightExactly(all: seq<StmtResult>, n: nat, r: Result<Counted>)
    requires n <= |all|
  {
    var rest := all[n..];
    && (r == Ok(Counts(all)) <==>
          SumAffected(rest) == 0 && (LastRowId(rest) == 0 || LastRowId(rest) == LastRowId(all[..n])))
    && r.Ok? && r.value.Counted?
    && (r.value.affectedRowCount == SumAffected(all) <==> SumAffected(rest) == 0)
  }

  lemma PartIsRightExactly(all: seq<StmtResult>, n: nat, r: Result<Counted>)
    requires n <= |all| && r == Ok(Counts(all[..n]))
    ensures RightExactly(all, n, r)
  {
    assert all == all[..n] + all[n..];
    PartCountsExactly(all[..n], all[n..]);
  }

  lemma {:induction false} PartIsCounted(executed: seq<Executed<StmtResult>>, k: nat, n: nat, r: Result<Counted>)
    requires AllDone(executed) && k <= |executed| && ReportsPart(executed[..k], r)
    requires n == if k == 0 then 0 else k - 1
    ensures RightExactly(ResultsIn(executed), n, r)
  {
    ResultsOfPart(executed, k);
    var all := ResultsIn(executed);
    assert ButLast(all[..k]) == all[..n];
    PartIsRightExactly(all, n, r);
  }

  lemma {:induction false} PartIsRight<S>(texts: seq<string>, limit: nat,
                                          exec: (S, Option<string>) -> (S, Executed<StmtResult>), state: S,
                                          r: Result<Counted>)
    requires AllDone(BodyOutcomes(texts, exec, state)) && ReportsPart(FirstOutcomes(texts, limit, exec, state), r)
    ensures RightExactly(ResultsIn(BodyOutcomes(texts, exec, state)), CountedOf(texts, limit), r)
  {
    PartIsCounted(BodyOutcomes(texts, exec, state), |FirstChunk(texts, limit)|, CountedOf(texts, limit), r);
  }

  // When every statement of a script in chunks succeeds, the report is right if and only if the
  // statements from the last one of the first chunk on changed no row, and have no row id to report or
  // the same one.
  lemma {:induction false} ScriptReportIsRightExactly<S>(before: seq<Exchange>, log: seq<Exchange>, texts: seq<string>,
                                      response: PipelineResponse, wantRows: bool, limit: nat,
                                      exec: (S, Option<string>) -> (S, Executed<StmtResult>), state: S,
                                      indexes: nat -> Option<nat>, r: Result<Counted>)
    requires RanScript(before, log, texts, response.results, wantRows, limit)
    requires ServedInTurn(log[|before|..], exec, state, indexes) && CountedFrom(Ok(response), false, r)
    requires AllDone(BodyOutcomes(texts, exec, state))
    ensures RightExactly(ResultsIn(BodyOutcomes(texts, exec, state)), CountedOf(texts, limit), r)
  {
    ScriptReported(before, log, texts, response, wantRows, limit, exec, state, indexes, r);
    PartIsRight(texts, limit, exec, state, r);
  }

  // A script of a single statement is reported like any single statement.
  lemma SingleReported<S>(before: seq<Exchange>, log: seq<Exchange>, text: string, response: PipelineResponse,
                          exec: (S, WireStmt) -> (S, Executed<StmtResult>), state: S, index: Option<nat>,
                          r: Result<Counted>)
    requires SentAlone(before, log, text, false, response) && CountedFrom(Ok(response), false, r)
    requires Served(log[|before|], exec, state, index)
    ensures Reports(StatementResults([log[|before|].wire.requests[0].stmt], exec, state, false), r)
  {
    var ws := [log[|before|].wire.requests[0].stmt];
    RequestAnswered(ws, 0, exec, state, index, false);
    assert AsSent(ws, 0) == ws;
    assert WithIndex(RequestOf(ws, true), 0) == log[|before|].wire.requests[0];
    AnswerIsCounted(response.results[0], StatementResults(ws, exec, state, false), true, false, index, r);
  }
}
