// A query that brings its own BEGIN and COMMIT, from ExecContext to the database.
module Transactions {
  import opened Wrappers
  import opened BatchCompiler
  import opened BatchMeaning
  import opened Atomicity
  import opened Results
  import opened Accounting
  import opened Connection
  import opened Hrana
  import opened Chunks
  import opened Execution

  // What the server's database is after it ran a batch that it was sent.
  function DatabaseAfter<D>(w: WireRequest, e: Engine<D, WireStmt, StmtResult>, db: Db<D>): Db<D> {
    if w.WireBatch? then BatchMeaning.Run(w.steps, Executor(e), db).state else db
  }

  // ExecContext reports an error, and nothing of the query is committed; or it reports no error, all of
  // the body is committed, and the counts are those of all the statements.
  ghost predicate AllOrNothing<D>(body: seq<WireStmt>, results: seq<StmtResult>, e: Engine<D, WireStmt, StmtResult>,
                                  db: Db<D>, after: Db<D>, r: Result<Counted>) {
    if r.Err? then after.committed == db.committed
    else
      && after.txn.None? && ApplyAll(e, db.committed, body) == Some(after.committed)
      && |results| == |body| + 2 && r == Ok(Counts(results))
  }

  // A database that knows what a statement is by its text: the three words, and whatever begins with no
  // transaction word.
  ghost predicate KnowsByText<D>(e: Engine<D, WireStmt, StmtResult>) {
    forall w: WireStmt ::
      && (w.sql == Some("BEGIN") ==> e.kind(w) == Begin)
      && (w.sql == Some("COMMIT") ==> e.kind(w) == Commit)
      && (w.sql == Some("ROLLBACK") ==> e.kind(w) == Rollback)
      && (w.sql.Some? && !SaysTransaction(w.sql.value) ==> e.kind(w) == Other)
  }

  lemma OtherByText<D>(e: Engine<D, WireStmt, StmtResult>, w: WireStmt, text: string)
    requires KnowsByText(e) && w.sql == Some(text) && !SaysTransaction(text)
    ensures e.kind(w) == Other
  {
  }

  // These statements are BEGIN, the texts and COMMIT.
  ghost predicate AreTexts(ws: seq<WireStmt>, texts: seq<string>) {
    && |ws| == |texts| + 2
    && ws[0].sql == Some("BEGIN") && ws[|texts| + 1].sql == Some("COMMIT")
    && forall i :: 0 <= i < |texts| ==> ws[i + 1].sql == Some(texts[i]) && !SaysTransaction(texts[i])
  }

  lemma {:induction false} TextsAreATransaction<D>(e: Engine<D, WireStmt, StmtResult>, ws: seq<WireStmt>,
                                                   texts: seq<string>)
    requires KnowsByText(e) && AreTexts(ws, texts)
    ensures ws == [ws[0]] + ws[1..|texts| + 1] + [ws[|texts| + 1]]
    ensures IsTransaction(e, ws[0], ws[1..|texts| + 1], ws[|texts| + 1], WireOf(RollbackStmt()))
  {
    var body := ws[1..|texts| + 1];
    forall i | 0 <= i < |body|
      ensures e.kind(body[i]) == Other
    {
      OtherByText(e, ws[i + 1], texts[i]);
    }
    assert WireOf(RollbackStmt()).sql == Some("ROLLBACK");
  }

  lemma {:induction false} RepresentedTexts(stmts: seq<StmtValue>, texts: seq<string>, params: seq<Params>)
    requires Represented(stmts, ["BEGIN"] + texts + ["COMMIT"], params, false)
    requires forall i :: 0 <= i < |texts| ==> !SaysTransaction(texts[i])
    ensures AreTexts(WiresOf(stmts), texts)
  {
    var all := ["BEGIN"] + texts + ["COMMIT"];
    forall i | 0 <= i < |all|
      ensures WiresOf(stmts)[i].sql == Some(all[i])
    {
      WiresCarry(stmts, all, params, false, i);
    }
    forall i | 0 <= i < |texts|
      ensures WiresOf(stmts)[i + 1].sql == Some(texts[i])
    {
      assert all[i + 1] == texts[i];
    }
  }

  lemma {:induction false} SentTransaction<D>(before: seq<Exchange>, log: seq<Exchange>, own: nat, ws: seq<WireStmt>,
                                              texts: seq<string>, e: Engine<D, WireStmt, StmtResult>, db: Db<D>,
                                              index: Option<nat>, r: Result<Counted>)
    requires AreTexts(ws, texts) && |texts| + 2 <= TWO_31
    requires Performed(before, log, own, ws, Executor(e), db, index, false, r)
    requires Served(log[|before|], Executor(e), db, index) && db.txn.None? && KnowsByText(e)
    ensures AllOrNothing(ws[1..|texts| + 1], UntilError(ws, Executor(e), db).results, e, db,
                         DatabaseAfter(log[|before|].wire.requests[0], e, db), r)
  {
    var n := |texts| + 1;
    TextsAreATransaction(e, ws, texts);
    Atomic(e, ws[0], ws[1..n], ws[n], WireOf(RollbackStmt()), db);
    assert AsSent(ws, own) == ws;
  }

  // For the texts BEGIN, some that begin with no transaction word, and COMMIT, with their parameters,
  // which went out in one request, and every server that runs it.
  lemma {:induction false} TransactionIsReported<D>(before: seq<Exchange>, log: seq<Exchange>, own: nat,
                                                    texts: seq<string>, params: seq<Params>, stmts: seq<StmtValue>,
                                                    e: Engine<D, WireStmt, StmtResult>, db: Db<D>,
                                                    index: Option<nat>, r: Result<Counted>)
    requires Represented(stmts, ["BEGIN"] + texts + ["COMMIT"], params, false) && |texts| + 2 <= TWO_31
    requires forall i :: 0 <= i < |texts| ==> !SaysTransaction(texts[i])
    requires Performed(before, log, own, WiresOf(stmts), Executor(e), db, index, false, r)
    requires Served(log[|before|], Executor(e), db, index) && db.txn.None? && KnowsByText(e)
    ensures var ws := WiresOf(stmts);
      AllOrNothing(ws[1..|texts| + 1], UntilError(ws, Executor(e), db).results, e, db,
                   DatabaseAfter(log[|before|].wire.requests[0], e, db), r)
  {
    RepresentedTexts(stmts, texts, params);
    SentTransaction(before, log, own, WiresOf(stmts), texts, e, db, index, r);
  }
}
