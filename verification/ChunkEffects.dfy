// What a script that went out in chunks does to the server.
module ChunkEffects {
  import opened Wrappers
  import opened Hrana
  import opened BatchMeaning
  import opened Atomicity
  import opened Results
  import opened Connection
  import opened Chunks

  // A server that runs SQL text, given the statements of a request.
  function OnText<S, R>(exec: (S, Option<string>) -> (S, Executed<R>)): (S, WireStmt) -> (S, Executed<R>) {
    (s, w: WireStmt) => exec(s, w.sql)
  }

  function RunRequest<S, R>(w: WireRequest, exec: (S, Option<string>) -> (S, Executed<R>), state: S): Progress<S, R> {
    match w
    case WireExecute(stmt) =>
      var (s, executed) := exec(state, stmt.sql);
      Progress(s, [OutcomeOf(executed)])
    case WireBatch(steps, _) => BatchMeaning.Run(steps, OnText(exec), state)
    case WireOther(_) => Progress(state, [])
  }

  // One exchange after the other.
  function RunExchanges<S, R>(exchanges: seq<Exchange>, exec: (S, Option<string>) -> (S, Executed<R>), state: S)
    : Progress<S, R>
  {
    if exchanges == [] then Progress(state, [])
    else
      var p := RunExchanges(exchanges[..|exchanges| - 1], exec, state);
      var e := exchanges[|exchanges| - 1];
      if |e.wire.requests| != 1 then p
      else
        var q := RunRequest(e.wire.requests[0], exec, p.state);
        Progress(q.state, p.done + q.done)
  }

  function ProgressOf<S, R>(a: Independent<S, R>): Progress<S, R> {
    Progress(a.state, OutcomesOf(a.executed))
  }

  lemma OutcomesAppend<R>(a: seq<Executed<R>>, b: seq<Executed<R>>)
    ensures OutcomesOf(a + b) == OutcomesOf(a) + OutcomesOf(b)
  {
  }

  lemma {:induction false} UnconditionalBatch<S, R>(steps: seq<Step<WireStmt>>,
                                                     exec: (S, Option<string>) -> (S, Executed<R>), state: S)
    requires forall i :: 0 <= i < |steps| ==> steps[i].condition.None?
    ensures BatchMeaning.Run(steps, OnText(exec), state) == ProgressOf(RunAll(SqlOfSteps(steps), exec, state))
  {
    if steps != [] {
      var init, last := steps[..|steps| - 1], steps[|steps| - 1];
      UnconditionalBatch(init, exec, state);
      RunAllSnoc(SqlOfSteps(init), last.stmt.sql, exec, state);
      var a := RunAll(SqlOfSteps(init), exec, state);
      OutcomesAppend(a.executed, [exec(a.state, last.stmt.sql).1]);
    }
  }

  // A plain exchange runs its statements one by one, whatever happens to them.
  lemma PlainExchangeRuns<S, R>(e: Exchange, wantRows: bool, limit: nat,
                                exec: (S, Option<string>) -> (S, Executed<R>), state: S)
    requires IsPlainExchange(e, wantRows, limit)
    ensures RunRequest(e.wire.requests[0], exec, state) == ProgressOf(RunAll(SqlOfExchange(e), exec, state))
  {
    match e.wire.requests[0] {
      case WireExecute(stmt) =>
        RunAllSnoc([], stmt.sql, exec, state);
        assert [] + [stmt.sql] == [stmt.sql];
      case WireBatch(steps, _) =>
        UnconditionalBatch(steps, exec, state);
    }
  }

  // So does a row of plain exchanges: only the list of statements matters, not how it was divided.
  lemma {:induction false} PlainExchangesRun<S, R>(exchanges: seq<Exchange>, wantRows: bool, limit: nat,
                                                   exec: (S, Option<string>) -> (S, Executed<R>), state: S)
    requires AllSent(exchanges, wantRows, limit).plain
    ensures RunExchanges(exchanges, exec, state) ==
      ProgressOf(RunAll(AllSent(exchanges, wantRows, limit).sqls, exec, state))
  {
    if exchanges != [] {
      var init, e := exchanges[..|exchanges| - 1], exchanges[|exchanges| - 1];
      PlainExchangesRun(init, wantRows, limit, exec, state);
      var sqls := AllSent(init, wantRows, limit).sqls;
      var a := RunAll(sqls, exec, state);
      PlainExchangeRuns(e, wantRows, limit, exec, a.state);
      RunAllAppend(sqls, SqlOfExchange(e), exec, state);
      OutcomesAppend(a.executed, RunAll(SqlOfExchange(e), exec, a.state).executed);
    }
  }

  // A script that went out in chunks of any size runs as BEGIN, its statements and COMMIT would one by one.
  lemma ScriptRuns<S, R>(before: seq<Exchange>, log: seq<Exchange>, texts: seq<string>, results: seq<StreamResult>,
                         wantRows: bool, limit: nat, exec: (S, Option<string>) -> (S, Executed<R>), state: S)
    requires RanScript(before, log, texts, results, wantRows, limit)
    ensures RunExchanges(log[|before|..], exec, state) ==
      ProgressOf(RunAll(Somes(["BEGIN"] + texts + ["COMMIT"]), exec, state))
  {
    ScriptIsSent(before, log, texts, results, wantRows, limit);
    PlainExchangesRun(log[|before|..], wantRows, limit, exec, state);
  }

  lemma {:induction false} WantedAreNoTransactions(stmts: seq<string>, i: nat)
    requires i < |Wanted(stmts)|
    ensures !SaysTransaction(Wanted(stmts)[i])
  {
    TransactionWordsExactly(stmts[0]);
    if IsTransactionStatement(stmts[0]) {
      WantedAreNoTransactions(stmts[1..], i);
    } else if i > 0 {
      WantedAreNoTransactions(stmts[1..], i - 1);
    }
  }

  // A database for which the statements the chunker lets through do not touch transactions.
  ghost predicate ReadsText<D, R>(e: Engine<D, Option<string>, R>) {
    && e.kind(Some("BEGIN")) == Begin && e.kind(Some("COMMIT")) == Commit && e.kind(Some("ROLLBACK")) == Rollback
    && forall text: string :: !SaysTransaction(text) ==> e.kind(Some(text)) == Other
  }

  lemma WantedIsABody<D, R>(e: Engine<D, Option<string>, R>, stmts: seq<string>)
    requires ReadsText(e)
    ensures IsTransaction(e, Some("BEGIN"), Somes(Wanted(stmts)), Some("COMMIT"), Some("ROLLBACK"))
  {
    forall i | 0 <= i < |Wanted(stmts)|
      ensures e.kind(Somes(Wanted(stmts))[i]) == Other
    {
      WantedAreNoTransactions(stmts, i);
    }
  }

  lemma ScriptTexts(texts: seq<string>)
    ensures Somes(["BEGIN"] + texts + ["COMMIT"]) == [Some("BEGIN")] + Somes(texts) + [Some("COMMIT")]
  {
  }

  predicate AllSucceeded<R>(done: seq<Outcome<R>>) {
    forall i :: 0 <= i < |done| ==> done[i].Succeeded?
  }

  lemma AllDoneSucceeded<R>(executed: seq<Executed<R>>)
    ensures AllSucceeded(OutcomesOf(executed)) <==> AllDone(executed)
  {
    forall i | 0 <= i < |executed|
      ensures OutcomesOf(executed)[i].Succeeded? <==> executed[i].Done?
    {
    }
    if !AllDone(executed) {
      var i :| 0 <= i < |executed| && !executed[i].Done?;
      assert !OutcomesOf(executed)[i].Succeeded?;
    }
  }

  // Every statement of a run succeeded if and only if the server let each of them through and all of
  // the body applies, one after the other. Then the whole body is committed, and no transaction is open.
  ghost predicate WholeExactlyWhen<D, R>(p: Progress<Db<D>, R>, e: Engine<D, Option<string>, R>,
                                         body: seq<Option<string>>, db: Db<D>) {
    && (AllSucceeded(p.done) <==>
          AllAllowed(e, db.executed, |body| + 2) && ApplyAll(e, db.committed, body).Some?)
    && (AllSucceeded(p.done) ==>
          p.state.txn.None? && Some(p.state.committed) == ApplyAll(e, db.committed, body))
  }

  lemma {:induction false} WholeRun<D, R>(e: Engine<D, Option<string>, R>, body: seq<Option<string>>, db: Db<D>)
    requires db.txn.None? && IsTransaction(e, Some("BEGIN"), body, Some("COMMIT"), Some("ROLLBACK"))
    ensures var a := RunAll([Some("BEGIN")] + body + [Some("COMMIT")], Executor(e), db);
      WholeExactlyWhen(ProgressOf(a), e, body, db)
  {
    WholeExactly(e, Some("BEGIN"), body, Some("COMMIT"), Some("ROLLBACK"), db);
    AllDoneSucceeded(RunAll([Some("BEGIN")] + body + [Some("COMMIT")], Executor(e), db).executed);
  }

  // For a script in chunks.
  lemma {:induction false} ScriptIsWholeExactly<D, R>(before: seq<Exchange>, log: seq<Exchange>, stmts: seq<string>,
                                                      results: seq<StreamResult>, wantRows: bool, limit: nat,
                                                      e: Engine<D, Option<string>, R>, db: Db<D>)
    requires RanScript(before, log, Wanted(stmts), results, wantRows, limit)
    requires ReadsText(e) && db.txn.None?
    ensures WholeExactlyWhen(RunExchanges(log[|before|..], Executor(e), db), e, Somes(Wanted(stmts)), db)
  {
    ScriptRuns(before, log, Wanted(stmts), results, wantRows, limit, Executor(e), db);
    ScriptTexts(Wanted(stmts));
    WantedIsABody(e, stmts);
    WholeRun(e, Somes(Wanted(stmts)), db);
  }

  // Two rows of plain exchanges that send the same statements have the same effect and the same
  // outcomes: how a script is cut into chunks makes no difference.
  lemma ChunkingDoesNotMatter<S, R>(a: seq<Exchange>, b: seq<Exchange>, wantRows: bool, limit: nat, limit': nat,
                                    exec: (S, Option<string>) -> (S, Executed<R>), state: S)
    requires AllSent(a, wantRows, limit).plain && AllSent(b, wantRows, limit').plain
    requires AllSent(a, wantRows, limit).sqls == AllSent(b, wantRows, limit').sqls
    ensures RunExchanges(a, exec, state) == RunExchanges(b, exec, state)
  {
    PlainExchangesRun(a, wantRows, limit, exec, state);
    PlainExchangesRun(b, wantRows, limit', exec, state);
  }
}
