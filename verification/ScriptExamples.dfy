// Two runs of scripts in chunks as the driver writes them and a server answers them: one that commits
// half of a script, and one whose failure is not reported.
module ScriptExamples {
  import opened Wrappers
  import opened Hrana
  import opened BatchMeaning
  import opened Atomicity
  import opened Results
  import opened Accounting
  import opened ConnectionRuns
  import opened Connection
  import opened Chunks
  import opened ChunkEffects
  import opened Execution
  import opened ChunkReports
  import opened ChunkOutcomes

  // ---- the driver's side ---------------------------------------------------------------------

  function PlainStmt(text: string): WireStmt {
    WireStmt(Some(text), [], [], false, None)
  }

  function PlainSteps(texts: seq<string>): (steps: seq<Step<WireStmt>>)
    ensures |steps| == |texts| && forall i :: 0 <= i < |texts| ==> steps[i] == Step(PlainStmt(texts[i]), None)
  {
    if texts == [] then [] else PlainSteps(texts[..|texts| - 1]) + [Step(PlainStmt(texts[|texts| - 1]), None)]
  }

  function AloneOf(text: string): WireRequest {
    WireExecute(PlainStmt(text))
  }

  function BatchOf(texts: seq<string>): WireRequest {
    WireBatch(PlainSteps(texts), None)
  }

  const START := Conn("url", "", false, 0)

  function ConnAfter(log: seq<Exchange>): Conn {
    if log == [] then START else Received(ConnAfter(log[..|log| - 1]), false, log[|log| - 1].reply)
  }

  // A fresh connection posted these requests, each in a message of its own, and was never refused.
  ghost predicate Written(log: seq<Exchange>, ws: seq<WireRequest>) {
    && |ws| == |log|
    && (log != [] ==>
          var n := |log| - 1;
          && Written(log[..n], ws[..n]) && !ConnAfter(log[..n]).streamClosed
          && IsExchange(ConnAfter(log[..n]), "", [ws[n]], false, log[n], ConnAfter(log)))
  }

  // ---- the server's side ---------------------------------------------------------------------

  function NoIndex(): nat -> Option<nat> {
    n => None
  }

  function HonestReply<S>(w: WireRequest, exec: (S, Option<string>) -> (S, Executed<StmtResult>), state: S): Reply {
    Answer(PipelineResponse("baton", "", [ResultFor(w, OnText(exec), state, None)]))
  }

  // The exchange that a connection and a server that keeps the stream add to a log.
  function HonestNext<S>(log: seq<Exchange>, w: WireRequest, exec: (S, Option<string>) -> (S, Executed<StmtResult>),
                         state: S): Exchange
  {
    Exchange("url", Wire(if log == [] then "" else "baton", [w]),
             HonestReply(w, exec, RunExchanges(log, exec, state).state))
  }

  // The server's results carry no replication index.
  ghost predicate IndexFree<S(!new)>(exec: (S, Option<string>) -> (S, Executed<StmtResult>)) {
    forall s: S, t: Option<string> :: exec(s, t).1.Done? ==> exec(s, t).1.result.replicationIndex.None?
  }

  lemma NothingReported<S(!new)>(w: WireRequest, exec: (S, Option<string>) -> (S, Executed<StmtResult>), state: S)
    requires IndexFree(exec)
    ensures MaxIndex([ResultFor(w, OnText(exec), state, None)]) == 0
  {
    var result := ResultFor(w, OnText(exec), state, None);
    match w {
      case WireExecute(stmt) =>
        var x := exec(state, stmt.sql).1;
        assert OnText(exec)(state, stmt).1 == x;
        assert x.Done? ==> x.result.replicationIndex.None?;
      case WireBatch(steps, _) =>
        assert BatchAnswer(steps, OnText(exec), state, None).batch.value.replicationIndex.None?;
      case _ =>
    }
    NoReport(result);
  }

  lemma NoReport(result: StreamResult)
    requires Reported(result).None?
    ensures MaxIndex([result]) == 0
  {
    assert [result][..0] == [];
  }

  // A log that a fresh connection writes with a server that runs what it is sent, and keeps the stream.
  ghost predicate Honest<S>(log: seq<Exchange>, ws: seq<WireRequest>,
                            exec: (S, Option<string>) -> (S, Executed<StmtResult>), state: S) {
    && ServedInTurn(log, exec, state, NoIndex()) && Written(log, ws)
    && ConnAfter(log) == Conn("url", if log == [] then "" else "baton", false, 0)
  }

  lemma {:induction false} ServedSnoc<S>(log: seq<Exchange>, w: WireRequest,
                                         exec: (S, Option<string>) -> (S, Executed<StmtResult>), state: S)
    requires ServedInTurn(log, exec, state, NoIndex())
    ensures ServedInTurn(log + [HonestNext(log, w, exec, state)], exec, state, NoIndex())
  {
    assert (log + [HonestNext(log, w, exec, state)])[..|log|] == log;
  }

  lemma {:induction false} ConnSnoc(log: seq<Exchange>, x: Exchange)
    ensures ConnAfter(log + [x]) == Received(ConnAfter(log), false, x.reply)
  {
    assert (log + [x])[..|log|] == log;
  }

  lemma {:induction false} WrittenSnoc(log: seq<Exchange>, ws: seq<WireRequest>, x: Exchange, w: WireRequest)
    requires Written(log, ws) && !ConnAfter(log).streamClosed
    requires IsExchange(ConnAfter(log), "", [w], false, x, ConnAfter(log + [x]))
    ensures Written(log + [x], ws + [w])
  {
    assert (log + [x])[..|log|] == log;
    assert (ws + [w])[..|ws|] == ws;
  }

  lemma HonestIsExchange(c: Conn, w: WireRequest, x: Exchange)
    requires c.url == x.url == "url" && c.replicationIndex == 0 && x.wire == Wire(c.baton, [w])
    ensures IsExchange(c, "", [w], false, x, Received(c, false, x.reply))
  {
    WithNoIndex([w]);
  }

  // The connection after one more exchange.
  lemma {:induction false} HonestConn<S(!new)>(log: seq<Exchange>, w: WireRequest, x: Exchange,
                                               exec: (S, Option<string>) -> (S, Executed<StmtResult>), state: S)
    requires IndexFree(exec) && x.reply == HonestReply(w, exec, state)
    requires ConnAfter(log) == Conn("url", if log == [] then "" else "baton", false, 0)
    ensures ConnAfter(log + [x]) == Conn("url", "baton", false, 0)
  {
    ConnSnoc(log, x);
    NothingReported(w, exec, state);
  }

  lemma {:induction false} HonestSnoc<S(!new)>(log: seq<Exchange>, ws: seq<WireRequest>, w: WireRequest,
                                               exec: (S, Option<string>) -> (S, Executed<StmtResult>), state: S)
    requires Honest(log, ws, exec, state) && IndexFree(exec)
    ensures Honest(log + [HonestNext(log, w, exec, state)], ws + [w], exec, state)
  {
    var x := HonestNext(log, w, exec, state);
    ServedSnoc(log, w, exec, state);
    HonestConn(log, w, x, exec, RunExchanges(log, exec, state).state);
    HonestWritten(log, ws, w, x);
  }

  lemma {:induction false} HonestWritten(log: seq<Exchange>, ws: seq<WireRequest>, w: WireRequest, x: Exchange)
    requires Written(log, ws) && ConnAfter(log) == Conn("url", if log == [] then "" else "baton", false, 0)
    requires x.url == "url" && x.wire == Wire(if log == [] then "" else "baton", [w])
    ensures Written(log + [x], ws + [w])
  {
    ConnSnoc(log, x);
    HonestIsExchange(ConnAfter(log), w, x);
    WrittenSnoc(log, ws, x, w);
  }

  // ---- scripts -------------------------------------------------------------------------------

  lemma {:induction false} StepsSql(texts: seq<string>)
    ensures SqlOfSteps(PlainSteps(texts)) == Somes(texts)
  {
    forall i | 0 <= i < |texts|
      ensures SqlOfSteps(PlainSteps(texts))[i] == Somes(texts)[i]
    {
    }
  }

  lemma {:induction false} BatchSends(x: Exchange, texts: seq<string>, limit: nat)
    requires x.wire.requests == [BatchOf(texts)] && |texts| <= limit
    ensures IsBatch(x) && SqlOfExchange(x) == Somes(texts) && IsPlainExchange(x, false, limit)
  {
    StepsSql(texts);
  }

  lemma {:induction false} BatchSucceeds<S>(texts: seq<string>, exec: (S, Option<string>) -> (S, Executed<StmtResult>),
                                            state: S)
    ensures Succeeds(HonestReply(BatchOf(texts), exec, state))
  {
  }

  lemma {:induction false} BatchGrows<S>(log: seq<Exchange>, x: Exchange, texts: seq<string>, limit: nat,
                                         exec: (S, Option<string>) -> (S, Executed<StmtResult>), state: S)
    requires x.wire.requests == [BatchOf(texts)] && |texts| <= limit
    requires x.reply == HonestReply(BatchOf(texts), exec, state)
    ensures SentChunk(log, log + [x], texts)
    ensures HasSent(log, log + [x], texts, ResultsOf(x), false, limit)
  {
    BatchSends(x, texts, limit);
    BatchSucceeds(texts, exec, state);
    GrowsByOne(log, x, Somes(texts), limit);
    GrewHasSent(log, log + [x], texts, false, limit, true);
  }

  lemma GrowsByOne(log: seq<Exchange>, x: Exchange, sqls: seq<Option<string>>, limit: nat)
    requires Succeeds(x.reply) && IsPlainExchange(x, false, limit) && SqlOfExchange(x) == sqls
    ensures Grew(log, log + [x], sqls, false, limit, true)
    ensures (log + [x])[..|log|] == log
  {
  }

  lemma {:induction false} AloneGrows<S>(log: seq<Exchange>, x: Exchange, text: string, limit: nat,
                                         exec: (S, Option<string>) -> (S, Executed<StmtResult>), state: S)
    requires x.wire.requests == [AloneOf(text)] && x.reply == HonestReply(AloneOf(text), exec, state)
    requires exec(state, Some(text)).1.Done?
    ensures GrewAlone(log, log + [x], text, false, limit, true)
  {
    assert OnText(exec)(state, PlainStmt(text)) == exec(state, Some(text));
    GrowsByOne(log, x, [Some(text)], limit);
  }

  // A log goes on with a statement alone, or with a batch.
  function WithAlone<S>(log: seq<Exchange>, text: string, exec: (S, Option<string>) -> (S, Executed<StmtResult>),
                        state: S): seq<Exchange>
  {
    log + [HonestNext(log, AloneOf(text), exec, state)]
  }

  function WithBatch<S>(log: seq<Exchange>, texts: seq<string>, exec: (S, Option<string>) -> (S, Executed<StmtResult>),
                        state: S): seq<Exchange>
  {
    log + [HonestNext(log, BatchOf(texts), exec, state)]
  }

  lemma {:induction false} AloneFollows<S>(log: seq<Exchange>, text: string, limit: nat,
                                           exec: (S, Option<string>) -> (S, Executed<StmtResult>), state: S)
    requires exec(RunExchanges(log, exec, state).state, Some(text)).1.Done?
    ensures GrewAlone(log, WithAlone(log, text, exec, state), text, false, limit, true)
  {
    AloneGrows(log, HonestNext(log, AloneOf(text), exec, state), text, limit, exec,
               RunExchanges(log, exec, state).state);
  }

  // A script with one batch, as the log shows it after BEGIN, the batch and COMMIT.
  lemma {:induction false} OneBatchScript<S>(texts: seq<string>, limit: nat,
                                             exec: (S, Option<string>) -> (S, Executed<StmtResult>), state: S,
                                             log1: seq<Exchange>, log2: seq<Exchange>)
    requires log1 == WithAlone([], "BEGIN", exec, state) && log2 == WithBatch(log1, texts, exec, state)
    requires |texts| <= limit && exec(state, Some("BEGIN")).1.Done?
    requires exec(RunExchanges(log2, exec, state).state, Some("COMMIT")).1.Done?
    ensures RanScript([], WithAlone(log2, "COMMIT", exec, state), texts, ResultsOf(log2[1]), false, limit)
  {
    AloneFollows([], "BEGIN", limit, exec, state);
    BatchGrows(log1, log2[1], texts, limit, exec, RunExchanges(log1, exec, state).state);
    AloneFollows(log2, "COMMIT", limit, exec, state);
    ScriptRan([], log1, log2, WithAlone(log2, "COMMIT", exec, state), texts, ResultsOf(log2[1]), false, limit);
  }

  // A script with two batches, the first of them full.
  lemma {:induction false} TwoBatchScript<S>(first: seq<string>, second: seq<string>,
                                             exec: (S, Option<string>) -> (S, Executed<StmtResult>), state: S,
                                             log1: seq<Exchange>, log2: seq<Exchange>, log3: seq<Exchange>)
    requires 0 < |first| && |second| <= |first|
    requires log1 == WithAlone([], "BEGIN", exec, state) && log2 == WithBatch(log1, first, exec, state)
    requires log3 == WithBatch(log2, second, exec, state)
    requires exec(state, Some("BEGIN")).1.Done? && exec(RunExchanges(log3, exec, state).state, Some("COMMIT")).1.Done?
    ensures RanScript([], WithAlone(log3, "COMMIT", exec, state), first + second,
                      ResultsOf(log2[1]) + ResultsOf(log3[2]), false, |first|)
  {
    var log := WithAlone(log3, "COMMIT", exec, state);
    AloneFollows([], "BEGIN", |first|, exec, state);
    BatchGrows(log1, log2[1], first, |first|, exec, RunExchanges(log1, exec, state).state);
    BatchGrows(log2, log3[2], second, |first|, exec, RunExchanges(log2, exec, state).state);
    AloneFollows(log3, "COMMIT", |first|, exec, state);
    JoinSent(log1, log2, log3, first, second, ResultsOf(log2[1]), ResultsOf(log3[2]), false, |first|);
    FirstOfTwo(log1, log2, log3, first, second);
    ScriptRan([], log1, log3, log, first + second, ResultsOf(log2[1]) + ResultsOf(log3[2]), false, |first|);
  }

  lemma FirstOfTwo(log1: seq<Exchange>, log2: seq<Exchange>, log3: seq<Exchange>, first: seq<string>,
                   second: seq<string>)
    requires SentChunk(log1, log2, first) && SentChunk(log2, log3, second) && 0 < |first|
    ensures FirstIsFull(log1, log3, first + second, |first|)
  {
    assert FirstChunk(first + second, |first|) == first;
    assert log3[|log1|] == log3[..|log2|][|log1|];
  }

  // ---- a script that is committed half way ---------------------------------------------------

  function OneBatchLog<S>(texts: seq<string>, exec: (S, Option<string>) -> (S, Executed<StmtResult>), state: S)
    : seq<Exchange>
  {
    WithAlone(WithBatch(WithAlone([], "BEGIN", exec, state), texts, exec, state), "COMMIT", exec, state)
  }

  function OneBatchRequests(texts: seq<string>): seq<WireRequest> {
    [] + [AloneOf("BEGIN")] + [BatchOf(texts)] + [AloneOf("COMMIT")]
  }

  lemma {:induction false} OneBatchIsHonest<S(!new)>(texts: seq<string>,
                                                     exec: (S, Option<string>) -> (S, Executed<StmtResult>), state: S)
    requires IndexFree(exec)
    ensures Honest(OneBatchLog(texts, exec, state), OneBatchRequests(texts), exec, state)
  {
    var log1 := WithAlone([], "BEGIN", exec, state);
    var log2 := WithBatch(log1, texts, exec, state);
    HonestSnoc([], [], AloneOf("BEGIN"), exec, state);
    HonestSnoc(log1, [] + [AloneOf("BEGIN")], BatchOf(texts), exec, state);
    HonestSnoc(log2, [] + [AloneOf("BEGIN")] + [BatchOf(texts)], AloneOf("COMMIT"), exec, state);
  }

  lemma NeverAborts<D, R>(e: Engine<D, Option<string>, R>, n: nat, len: nat)
    requires forall i :: e.verdict(i) == Allowed
    ensures Clear(e, n, len)
  {
  }

  lemma {:induction false} BeginAndBatch<S>(texts: seq<string>, exec: (S, Option<string>) -> (S, Executed<StmtResult>),
                                            state: S, limit: nat, log1: seq<Exchange>, log2: seq<Exchange>)
    requires |texts| <= limit && exec(state, Some("BEGIN")).1.Done?
    requires log1 == WithAlone([], "BEGIN", exec, state) && log2 == WithBatch(log1, texts, exec, state)
    ensures |log2| == 2
    ensures HasSent([], log2, ["BEGIN"] + texts, ResultsOf(log1[0]) + ResultsOf(log2[1]), false, limit)
  {
    AloneGrows([], log1[0], "BEGIN", limit, exec, state);
    AloneHasSent([], log1, "BEGIN", false, limit, true);
    BatchGrows(log1, log2[1], texts, limit, exec, RunExchanges(log1, exec, state).state);
    JoinSent([], log1, log2, ["BEGIN"], texts, ResultsOf(log1[0]), ResultsOf(log2[1]), false, limit);
  }

  lemma {:induction false} SentFromStart(log: seq<Exchange>, texts: seq<string>, results: seq<StreamResult>, limit: nat)
    requires HasSent([], log, texts, results, false, limit)
    ensures AllSent(log, false, limit).plain && AllSent(log, false, limit).sqls == Somes(texts)
  {
    assert log[0..] == log;
  }

  // When BEGIN and the texts have gone out to a server that refuses nothing, COMMIT comes through.
  lemma {:induction false} CommitComesThrough<D>(stmts: seq<string>, e: Engine<D, Option<string>, StmtResult>,
                                                 db: Db<D>, limit: nat, log: seq<Exchange>, results: seq<StreamResult>)
    requires ReadsText(e) && db.txn.None? && forall i :: e.verdict(i) == Allowed
    requires HasSent([], log, ["BEGIN"] + Wanted(stmts), results, false, limit)
    ensures Executor(e)(RunExchanges(log, Executor(e), db).state, Some("COMMIT")).1.Done?
  {
    BeginAndTexts(Wanted(stmts));
    SentFromStart(log, ["BEGIN"] + Wanted(stmts), results, limit);
    ExchangesHaveEffect(log, stmts, |Wanted(stmts)| + 1, false, limit, e, db);
    NeverAborts(e, db.executed, |Wanted(stmts)|);
    CommitVerdict(e, Body(stmts), db, RunExchanges(log, Executor(e), db).state);
  }

  lemma BeginAndTexts(texts: seq<string>)
    ensures Somes(["BEGIN"] + texts) == Somes(Script(texts, false))[..|texts| + 1]
  {
    SomesAppend(["BEGIN"] + texts, ["COMMIT"]);
    assert Somes(["BEGIN"] + texts + ["COMMIT"])[..|texts| + 1] == Somes(["BEGIN"] + texts);
  }

  // What such a script of one batch commits.
  lemma {:induction false} AllowedScript<D(!new)>(stmts: seq<string>, e: Engine<D, Option<string>, StmtResult>,
                                                  db: Db<D>, limit: nat)
    requires ReadsText(e) && db.txn.None? && |Wanted(stmts)| <= limit && forall i :: e.verdict(i) == Allowed
    requires IndexFree(Executor(e))
    ensures var log := OneBatchLog(Wanted(stmts), Executor(e), db);
      && Honest(log, OneBatchRequests(Wanted(stmts)), Executor(e), db)
      && RanScript([], log, Wanted(stmts), ResultsOf(log[1]), false, limit)
      && RunExchanges(log, Executor(e), db).state ==
           Db(Survivors(e, db.committed, Body(stmts), db.executed + 1), None, db.executed + |Body(stmts)| + 2)
  {
    var texts := Wanted(stmts);
    var log1 := WithAlone([], "BEGIN", Executor(e), db);
    var log2 := WithBatch(log1, texts, Executor(e), db);
    var log := OneBatchLog(texts, Executor(e), db);
    BeginAndBatch(texts, Executor(e), db, limit, log1, log2);
    CommitComesThrough(stmts, e, db, limit, log2, ResultsOf(log1[0]) + ResultsOf(log2[1]));
    OneBatchScript(texts, limit, Executor(e), db, log1, log2);
    OneBatchIsHonest(texts, Executor(e), db);
    assert log[0..] == log && log[1] == log2[1];
    SentScriptCommits([], log, stmts, ResultsOf(log[1]), false, limit, e, db, NoIndex());
  }

  // A database that keeps a list of the statements it ran, and fails "no" only.
  function PickyEngine(): Engine<seq<string>, Option<string>, StmtResult> {
    var row := StmtResult([], [], 1, None, None);
    Engine(
      (t: Option<string>) =>
        if t == Some("BEGIN") then Begin else if t == Some("COMMIT") then Commit
        else if t == Some("ROLLBACK") then Rollback else Other,
      (d: seq<string>, t: Option<string>) =>
        if t.None? || t == Some("no") then None else Some((d + [t.value], row)),
      (n: nat) => Allowed,
      row)
  }

  lemma PickyReadsText()
    ensures ReadsText(PickyEngine()) && IndexFree(Executor(PickyEngine()))
  {
  }

  lemma HalfIsWanted()
    ensures Wanted(["ok", "no"]) == ["ok", "no"] && Body(["ok", "no"]) == [Some("ok"), Some("no")]
  {
    var no := ["no"];
    assert no[1..] == [] && ["ok", "no"][1..] == no;
    assert Wanted(no) == ["no"];
  }

  lemma HalfSurvives()
    ensures Survivors(PickyEngine(), [], [Some("ok"), Some("no")], 1) == ["ok"]
    ensures ApplyAll(PickyEngine(), [], [Some("ok"), Some("no")]).None?
  {
    var e, body, one := PickyEngine(), [Some("ok"), Some("no")], [Some("ok")];
    assert body[..1] == one && one[..0] == [];
    assert Survivors(e, [], one, 1) == ["ok"];
    assert ApplyAll(e, [], one) == Some(["ok"]);
    assert e.apply(["ok"], Some("no")) == None;
  }

  // The script "ok; no", as the driver sends it and the server answers it: the body does not apply, but
  // its first statement is committed, and the run is reported as sent.
  lemma ScriptIsNotAtomic()
    ensures var e, log := PickyEngine(), OneBatchLog(["ok", "no"], Executor(PickyEngine()), Db([], None, 0));
      && Honest(log, OneBatchRequests(["ok", "no"]), Executor(e), Db([], None, 0))
      && RanScript([], log, Wanted(["ok", "no"]), ResultsOf(log[1]), false, CHUNK_SIZE)
      && ApplyAll(e, [], Body(["ok", "no"])).None?
      && RunExchanges(log, Executor(e), Db([], None, 0)).state == Db(["ok"], None, 4)
  {
    HalfIsWanted();
    HalfSurvives();
    PickyReadsText();
    AllowedScript(["ok", "no"], PickyEngine(), Db([], None, 0), CHUNK_SIZE);
  }

  // ---- a failure that is not reported --------------------------------------------------------

  const ONE_ROW := StmtResult([], [], 1, None, None)

  // A server without a state that fails "no" and changes a row for any other statement.
  function FailsNo(): ((), Option<string>) -> ((), Executed<StmtResult>) {
    (s: (), t: Option<string>) => (s, if t == Some("no") then Error("no") else Done(ONE_ROW))
  }

  function Oks(n: nat): (texts: seq<string>)
    ensures |texts| == n && forall i :: 0 <= i < n ==> texts[i] == "ok"
  {
    if n == 0 then [] else Oks(n - 1) + ["ok"]
  }

  lemma {:induction false} OksSucceed(n: nat)
    ensures var x := RunAll(Somes(Oks(n)), FailsNo(), ()).executed;
      |x| == n && forall i :: 0 <= i < n ==> x[i] == Done(ONE_ROW)
  {
    if n > 0 {
      OksSucceed(n - 1);
      SomesAppend(Oks(n - 1), ["ok"]);
      assert Somes(["ok"]) == [Some("ok")];
      RunAllSnoc(Somes(Oks(n - 1)), Some("ok"), FailsNo(), ());
    }
  }

  lemma {:induction false} SumOfOnes(results: seq<StmtResult>)
    requires forall i :: 0 <= i < |results| ==> results[i] == ONE_ROW
    ensures Counts(results) == Counted(0, |results|)
  {
    if results != [] {
      SumOfOnes(results[..|results| - 1]);
    }
  }

  // n statements that succeed, and one more that fails.
  function LateTexts(n: nat): seq<string> {
    Oks(n) + ["no"]
  }

  lemma {:induction false} LateOutcomes(n: nat)
    ensures var x := BodyOutcomes(LateTexts(n), FailsNo(), ());
      && |x| == n + 1 && x[n].Error?
      && forall i :: 0 <= i < n ==> x[i] == Done(ONE_ROW)
  {
    OksSucceed(n);
    SomesAppend(Oks(n), ["no"]);
    assert Somes(["no"]) == [Some("no")];
    RunAllSnoc(Somes(Oks(n)), Some("no"), FailsNo(), ());
  }

  function LateLog(n: nat): seq<Exchange> {
    WithAlone(WithBatch(WithBatch(WithAlone([], "BEGIN", FailsNo(), ()), Oks(n), FailsNo(), ()), ["no"], FailsNo(), ()),
              "COMMIT", FailsNo(), ())
  }

  function LateRequests(n: nat): seq<WireRequest> {
    [] + [AloneOf("BEGIN")] + [BatchOf(Oks(n))] + [BatchOf(["no"])] + [AloneOf("COMMIT")]
  }

  function LateResults(n: nat): seq<StreamResult> {
    ResultsOf(LateLog(n)[1]) + ResultsOf(LateLog(n)[2])
  }

  lemma {:induction false} LateIsHonest(n: nat)
    ensures Honest(LateLog(n), LateRequests(n), FailsNo(), ())
  {
    var log1 := WithAlone([], "BEGIN", FailsNo(), ());
    var log2 := WithBatch(log1, Oks(n), FailsNo(), ());
    var log3 := WithBatch(log2, ["no"], FailsNo(), ());
    var ws1 := [] + [AloneOf("BEGIN")];
    HonestSnoc([], [], AloneOf("BEGIN"), FailsNo(), ());
    HonestSnoc(log1, ws1, BatchOf(Oks(n)), FailsNo(), ());
    HonestSnoc(log2, ws1 + [BatchOf(Oks(n))], BatchOf(["no"]), FailsNo(), ());
    HonestSnoc(log3, ws1 + [BatchOf(Oks(n))] + [BatchOf(["no"])], AloneOf("COMMIT"), FailsNo(), ());
  }

  lemma {:induction false} LateIsAScript(n: nat)
    requires n > 0
    ensures RanScript([], LateLog(n), LateTexts(n), LateResults(n), false, n)
  {
    var log1 := WithAlone([], "BEGIN", FailsNo(), ());
    var log2 := WithBatch(log1, Oks(n), FailsNo(), ());
    var log3 := WithBatch(log2, ["no"], FailsNo(), ());
    TwoBatchScript(Oks(n), ["no"], FailsNo(), (), log1, log2, log3);
    assert LateLog(n)[1] == log2[1] && LateLog(n)[2] == log3[2];
  }

  lemma {:induction false} LateReport(executed: seq<Executed<StmtResult>>, r: Result<Counted>)
    requires executed != [] && forall i :: 0 <= i < |executed| ==> executed[i] == Done(ONE_ROW)
    requires ReportsPart(executed, r)
    ensures r == Ok(Counted(0, |executed| - 1))
  {
    SumOfOnes(ButLast(ResultsIn(executed)));
  }

  lemma {:induction false} ReportedFromStart<S>(log: seq<Exchange>, texts: seq<string>, response: PipelineResponse,
                                                limit: nat, exec: (S, Option<string>) -> (S, Executed<StmtResult>),
                                                state: S, r: Result<Counted>)
    requires RanScript([], log, texts, response.results, false, limit) && ServedInTurn(log, exec, state, NoIndex())
    requires CountedFrom(Ok(response), false, r)
    ensures ReportsPart(FirstOutcomes(texts, limit, exec, state), r)
  {
    assert log[0..] == log;
    ScriptReported([], log, texts, response, false, limit, exec, state, NoIndex(), r);
  }

  lemma {:induction false} LateFirst(n: nat)
    requires n > 0
    ensures var x := FirstOutcomes(LateTexts(n), n, FailsNo(), ());
      |x| == n && forall i :: 0 <= i < n ==> x[i] == Done(ONE_ROW)
  {
    LateOutcomes(n);
    assert FirstChunk(LateTexts(n), n) == Oks(n);
  }

  lemma {:induction false} LateIsReported(n: nat, log: seq<Exchange>, response: PipelineResponse, r: Result<Counted>)
    requires n > 0 && RanScript([], log, LateTexts(n), response.results, false, n)
    requires ServedInTurn(log, FailsNo(), (), NoIndex()) && CountedFrom(Ok(response), false, r)
    ensures r == Ok(Counted(0, n - 1))
  {
    ReportedFromStart(log, LateTexts(n), response, n, FailsNo(), (), r);
    LateFirst(n);
    LateReport(FirstOutcomes(LateTexts(n), n, FailsNo(), ()), r);
  }

  // With chunks of n statements: the statement after n that succeed fails, in a chunk of its own. The
  // report is no error, and one row less than the n rows that were changed.
  lemma {:induction false} LateFailureIn(n: nat, r: Result<Counted>)
    requires n > 0 && CountedFrom(Ok(PipelineResponse("baton", "", LateResults(n))), false, r)
    ensures Honest(LateLog(n), LateRequests(n), FailsNo(), ())
    ensures RanScript([], LateLog(n), LateTexts(n), LateResults(n), false, n)
    ensures BodyOutcomes(LateTexts(n), FailsNo(), ())[n].Error?
    ensures r == Ok(Counted(0, n - 1))
  {
    LateIsHonest(n);
    LateIsAScript(n);
    LateOutcomes(n);
    LateIsReported(n, LateLog(n), PipelineResponse("baton", "", LateResults(n)), r);
  }

  // The driver's chunks hold 4096 statements.
  lemma LateFailureIsNotReported(r: Result<Counted>)
    requires CountedFrom(Ok(PipelineResponse("baton", "", LateResults(CHUNK_SIZE))), false, r)
    ensures Honest(LateLog(CHUNK_SIZE), LateRequests(CHUNK_SIZE), FailsNo(), ())
    ensures RanScript([], LateLog(CHUNK_SIZE), LateTexts(CHUNK_SIZE), LateResults(CHUNK_SIZE), false, CHUNK_SIZE)
    ensures BodyOutcomes(LateTexts(CHUNK_SIZE), FailsNo(), ())[CHUNK_SIZE].Error?
    ensures r == Ok(Counted(0, 4095))
  {
    LateFailureIn(CHUNK_SIZE, r);
  }
}
