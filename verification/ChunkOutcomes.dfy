// What is committed when a script goes out in chunks, in every run: one that is reported as sent, and
// one that broke off.
module ChunkOutcomes {
  import opened Wrappers
  import opened Sequences
  import opened BatchMeaning
  import opened Atomicity
  import opened Results
  import opened Connection
  import opened Chunks
  import opened ChunkEffects
  import opened Execution
  import opened ChunkReports

  function Body(stmts: seq<string>): (body: seq<Option<string>>)
    ensures |body| == |Wanted(stmts)|
  {
    Somes(Wanted(stmts))
  }

  // How many statements have gone out since the log was `before`.
  function SentSince(before: seq<Exchange>, log: seq<Exchange>, wantRows: bool, limit: nat): nat
    requires |before| <= |log|
  {
    |AllSent(log[|before|..], wantRows, limit).sqls|
  }

  lemma ScriptList(stmts: seq<string>)
    ensures Somes(Script(Wanted(stmts), false)) == [Some("BEGIN")] + Body(stmts) + [Some("COMMIT")]
  {
    ScriptTexts(Wanted(stmts));
  }

  // Some exchanges that sent the first m statements of a script.
  lemma {:induction false} ExchangesHaveEffect<D, R>(exchanges: seq<Exchange>, stmts: seq<string>, m: nat,
                                                     wantRows: bool, limit: nat,
                                                     e: Engine<D, Option<string>, R>, db: Db<D>)
    requires AllSent(exchanges, wantRows, limit).plain && m <= |Wanted(stmts)| + 2
    requires AllSent(exchanges, wantRows, limit).sqls == Somes(Script(Wanted(stmts), false))[..m]
    requires ReadsText(e) && db.txn.None?
    ensures RunExchanges(exchanges, Executor(e), db).state == PrefixEffect(e, Body(stmts), m, db)
  {
    PlainExchangesRun(exchanges, wantRows, limit, Executor(e), db);
    ScriptList(stmts);
    WantedIsABody(e, stmts);
    PrefixRun(e, Some("BEGIN"), Body(stmts), Some("COMMIT"), Some("ROLLBACK"), m, db);
  }

  // Whatever the server answered, the part of a script that went out had this effect, if the server ran
  // what it was sent.
  lemma {:induction false} PartHasEffect<D, R>(before: seq<Exchange>, log: seq<Exchange>, stmts: seq<string>,
                                               wantRows: bool, limit: nat, e: Engine<D, Option<string>, R>, db: Db<D>)
    requires HasSentPart(before, log, Script(Wanted(stmts), false), wantRows, limit)
    requires ReadsText(e) && db.txn.None?
    ensures SentSince(before, log, wantRows, limit) <= |Wanted(stmts)| + 2
    ensures RunExchanges(log[|before|..], Executor(e), db).state ==
      PrefixEffect(e, Body(stmts), SentSince(before, log, wantRows, limit), db)
  {
    ExchangesHaveEffect(log[|before|..], stmts, SentSince(before, log, wantRows, limit), wantRows, limit, e, db);
  }

  // ---- what the answers say ------------------------------------------------------------------

  // A statement that went out alone succeeded at the server exactly when the request did.
  lemma AloneSucceeds<S>(x: Exchange, stmt: string, exec: (S, Option<string>) -> (S, Executed<StmtResult>), state: S,
                         index: Option<nat>)
    requires CarriesAlone(x, stmt) && Served(x, OnText(exec), state, index)
    ensures Succeeds(x.reply) <==> exec(state, Some(stmt)).1.Done?
  {
    assert x.reply.response.results[0] == ResultFor(x.wire.requests[0], OnText(exec), state, index);
  }

  lemma BeginAnswered<D>(exchanges: seq<Exchange>, e: Engine<D, Option<string>, StmtResult>, db: Db<D>,
                         indexes: nat -> Option<nat>)
    requires exchanges != [] && CarriesAlone(exchanges[0], "BEGIN") && ReadsText(e) && db.txn.None?
    requires ServedInTurn(exchanges, Executor(e), db, indexes)
    ensures Succeeds(exchanges[0].reply) <==> e.verdict(db.executed) == Allowed
  {
    ServedAt(exchanges, 0, Executor(e), db, indexes);
    assert exchanges[..0] == [];
    AloneSucceeds(exchanges[0], "BEGIN", Executor(e), db, indexes(0));
  }

  // These exchanges carry a whole script, with COMMIT alone in the last one.
  ghost predicate IsWhole(exchanges: seq<Exchange>, texts: seq<string>, wantRows: bool, limit: nat) {
    && exchanges != [] && CarriesAlone(exchanges[|exchanges| - 1], "COMMIT")
    && var s := AllSent(exchanges, wantRows, limit);
    && s.plain && s.sqls == Somes(Script(texts, false))
  }

  lemma {:induction false} SentBeforeCommit(exchanges: seq<Exchange>, texts: seq<string>, wantRows: bool, limit: nat)
    requires IsWhole(exchanges, texts, wantRows, limit)
    ensures var s := AllSent(exchanges[..|exchanges| - 1], wantRows, limit);
      s.plain && s.sqls == Somes(Script(texts, false))[..|texts| + 1]
  {
    var sqls := AllSent(exchanges[..|exchanges| - 1], wantRows, limit).sqls;
    TakeOfAppend(sqls, SqlOfExchange(exchanges[|exchanges| - 1]));
    assert |Somes(Script(texts, false))| == |texts| + 2;
  }

  // The state in which COMMIT arrives.
  lemma {:induction false} BeforeCommit<D, R>(exchanges: seq<Exchange>, stmts: seq<string>, wantRows: bool, limit: nat,
                                              e: Engine<D, Option<string>, R>, db: Db<D>)
    requires IsWhole(exchanges, Wanted(stmts), wantRows, limit)
    requires ReadsText(e) && db.txn.None?
    ensures RunExchanges(exchanges[..|exchanges| - 1], Executor(e), db).state ==
      PrefixEffect(e, Body(stmts), |Wanted(stmts)| + 1, db)
  {
    SentBeforeCommit(exchanges, Wanted(stmts), wantRows, limit);
    ExchangesHaveEffect(exchanges[..|exchanges| - 1], stmts, |Wanted(stmts)| + 1, wantRows, limit, e, db);
  }

  // BEGIN got through, no statement of the body was aborted, and COMMIT got through.
  ghost predicate Clear<D, R>(e: Engine<D, Option<string>, R>, n: nat, len: nat) {
    e.verdict(n) == Allowed && FirstAbort(e, n + 1, len) == len && e.verdict(n + 1 + len) == Allowed
  }

  lemma CommitVerdict<D, R>(e: Engine<D, Option<string>, R>, body: seq<Option<string>>, db: Db<D>, s: Db<D>)
    requires s == PrefixEffect(e, body, |body| + 1, db) && ReadsText(e)
    ensures Exec(e, s, Some("COMMIT")).1.Done? <==> Clear(e, db.executed, |body|)
  {
  }

  lemma {:induction false} CommitAnswered<D>(exchanges: seq<Exchange>, stmts: seq<string>, wantRows: bool, limit: nat,
                                             e: Engine<D, Option<string>, StmtResult>, db: Db<D>,
                                             indexes: nat -> Option<nat>)
    requires IsWhole(exchanges, Wanted(stmts), wantRows, limit)
    requires ReadsText(e) && db.txn.None? && ServedInTurn(exchanges, Executor(e), db, indexes)
    ensures Succeeds(exchanges[|exchanges| - 1].reply) <==> Clear(e, db.executed, |Wanted(stmts)|)
  {
    var k := |exchanges| - 1;
    var s := RunExchanges(exchanges[..k], Executor(e), db).state;
    ServedAt(exchanges, k, Executor(e), db, indexes);
    BeforeCommit(exchanges, stmts, wantRows, limit, e, db);
    AloneSucceeds(exchanges[k], "COMMIT", Executor(e), s, indexes(k));
    CommitVerdict(e, Body(stmts), db, s);
  }

  // ---- a run that is reported as sent --------------------------------------------------------

  lemma {:induction false} SentIsWhole(before: seq<Exchange>, log: seq<Exchange>, texts: seq<string>,
                                       results: seq<StreamResult>, wantRows: bool, limit: nat,
                                       exchanges: seq<Exchange>)
    requires RanScript(before, log, texts, results, wantRows, limit) && exchanges == log[|before|..]
    ensures IsWhole(exchanges, texts, wantRows, limit) && Succeeds(exchanges[|exchanges| - 1].reply)
  {
    ScriptIsSent(before, log, texts, results, wantRows, limit);
    assert exchanges[|exchanges| - 1] == log[|log| - 1];
  }

  lemma ClearEffect<D, R>(e: Engine<D, Option<string>, R>, body: seq<Option<string>>, db: Db<D>)
    requires Clear(e, db.executed, |body|)
    ensures PrefixEffect(e, body, |body| + 2, db) ==
      Db(Survivors(e, db.committed, body, db.executed + 1), None, db.executed + |body| + 2)
  {
  }

  lemma {:induction false} SentExchangesCommit<D>(exchanges: seq<Exchange>, stmts: seq<string>, wantRows: bool,
                                                  limit: nat, e: Engine<D, Option<string>, StmtResult>, db: Db<D>,
                                                  indexes: nat -> Option<nat>)
    requires IsWhole(exchanges, Wanted(stmts), wantRows, limit) && Succeeds(exchanges[|exchanges| - 1].reply)
    requires ReadsText(e) && db.txn.None? && ServedInTurn(exchanges, Executor(e), db, indexes)
    ensures Clear(e, db.executed, |Body(stmts)|)
    ensures RunExchanges(exchanges, Executor(e), db).state ==
      Db(Survivors(e, db.committed, Body(stmts), db.executed + 1), None, db.executed + |Body(stmts)| + 2)
  {
    var all := Somes(Script(Wanted(stmts), false));
    CommitAnswered(exchanges, stmts, wantRows, limit, e, db, indexes);
    assert all[..|Wanted(stmts)| + 2] == all;
    ExchangesHaveEffect(exchanges, stmts, |Wanted(stmts)| + 2, wantRows, limit, e, db);
    ClearEffect(e, Body(stmts), db);
  }

  // No statement was aborted, and the statements of the script that applied are committed, the others
  // left out. No transaction is open.
  lemma {:induction false} SentScriptCommits<D>(before: seq<Exchange>, log: seq<Exchange>, stmts: seq<string>,
                                                results: seq<StreamResult>, wantRows: bool, limit: nat,
                                                e: Engine<D, Option<string>, StmtResult>, db: Db<D>,
                                                indexes: nat -> Option<nat>)
    requires RanScript(before, log, Wanted(stmts), results, wantRows, limit)
    requires ReadsText(e) && db.txn.None? && ServedInTurn(log[|before|..], Executor(e), db, indexes)
    ensures Clear(e, db.executed, |Body(stmts)|)
    ensures RunExchanges(log[|before|..], Executor(e), db).state ==
      Db(Survivors(e, db.committed, Body(stmts), db.executed + 1), None, db.executed + |Body(stmts)| + 2)
  {
    var exchanges := log[|before|..];
    SentIsWhole(before, log, Wanted(stmts), results, wantRows, limit, exchanges);
    SentExchangesCommit(exchanges, stmts, wantRows, limit, e, db, indexes);
  }

  // ---- a run that broke off ------------------------------------------------------------------

  // What is committed after m statements when the run is reported as failed: what was committed before
  // it, unless the server aborted a statement of the body. Then what applied after the abort stays.
  function Leftover<D, R>(e: Engine<D, Option<string>, R>, body: seq<Option<string>>, m: nat, db: Db<D>): D {
    var k := if m == 0 then 0 else if m <= |body| + 1 then m - 1 else |body|;
    var j := FirstAbort(e, db.executed + 1, k);
    if j < k then Survivors(e, db.committed, body[j + 1..k], db.executed + j + 2) else db.committed
  }

  // Whether the server still holds a transaction open: BEGIN got through, nothing was aborted, and
  // COMMIT has not gone out or was refused.
  predicate LeftOpen<D, R>(e: Engine<D, Option<string>, R>, len: nat, m: nat, db: Db<D>) {
    && 0 < m && e.verdict(db.executed) == Allowed
    && if m <= len + 1 then FirstAbort(e, db.executed + 1, m - 1) == m - 1
       else FirstAbort(e, db.executed + 1, len) == len && e.verdict(db.executed + 1 + len) == Refused
  }

  lemma LeftInside<D, R>(e: Engine<D, Option<string>, R>, body: seq<Option<string>>, m: nat, db: Db<D>)
    requires db.txn.None? && 0 < m <= |body| + 1 && (1 < m ==> e.verdict(db.executed) == Allowed)
    ensures PrefixEffect(e, body, m, db).committed == Leftover(e, body, m, db)
    ensures PrefixEffect(e, body, m, db).txn.Some? <==> LeftOpen(e, |body|, m, db)
  {
    if m == 1 {
      assert body[..m - 1] == [];
    }
  }

  lemma LeftAtCommit<D, R>(e: Engine<D, Option<string>, R>, body: seq<Option<string>>, m: nat, db: Db<D>)
    requires db.txn.None? && m == |body| + 2
    requires e.verdict(db.executed) == Allowed && !Clear(e, db.executed, |body|)
    ensures PrefixEffect(e, body, m, db).committed == Leftover(e, body, m, db)
    ensures PrefixEffect(e, body, m, db).txn.Some? <==> LeftOpen(e, |body|, m, db)
  {
    var j := FirstAbort(e, db.executed + 1, |body|);
    if j < |body| {
      assert body[j + 1..|body|] == body[j + 1..];
    }
  }

  lemma LeftBehind<D, R>(e: Engine<D, Option<string>, R>, body: seq<Option<string>>, m: nat, db: Db<D>)
    requires db.txn.None? && m <= |body| + 2
    requires 1 < m ==> e.verdict(db.executed) == Allowed
    requires m == |body| + 2 ==> !Clear(e, db.executed, |body|)
    ensures PrefixEffect(e, body, m, db).committed == Leftover(e, body, m, db)
    ensures PrefixEffect(e, body, m, db).txn.Some? <==> LeftOpen(e, |body|, m, db)
  {
    if m == |body| + 2 {
      LeftAtCommit(e, body, m, db);
    } else if m > 0 {
      LeftInside(e, body, m, db);
    }
  }

  // When the server answers everything it is sent, a run that is reported as failed leaves this behind.
  lemma {:induction false} BrokenScriptLeaves<D>(before: seq<Exchange>, log: seq<Exchange>, stmts: seq<string>,
                                                 wantRows: bool, limit: nat,
                                                 e: Engine<D, Option<string>, StmtResult>, db: Db<D>,
                                                 indexes: nat -> Option<nat>)
    requires BrokeOff(before, log, Wanted(stmts), wantRows, limit)
    requires ReadsText(e) && db.txn.None? && ServedInTurn(log[|before|..], Executor(e), db, indexes)
    ensures var m := SentSince(before, log, wantRows, limit);
      var left := RunExchanges(log[|before|..], Executor(e), db).state;
      && left.committed == Leftover(e, Body(stmts), m, db)
      && (left.txn.Some? <==> LeftOpen(e, |Body(stmts)|, m, db))
  {
    var m := SentSince(before, log, wantRows, limit);
    PartHasEffect(before, log, stmts, wantRows, limit, e, db);
    if 1 < m {
      ManyNeedBegin(before, log, stmts, wantRows, limit, e, db, indexes);
    }
    if m == |Body(stmts)| + 2 {
      FailedCommit(before, log, stmts, wantRows, limit, e, db, indexes);
    }
    LeftBehind(e, Body(stmts), m, db);
  }

  lemma SentByOne(exchanges: seq<Exchange>, wantRows: bool, limit: nat)
    ensures |exchanges| == 1 && CarriesAlone(exchanges[0], "BEGIN") ==>
      |AllSent(exchanges, wantRows, limit).sqls| == 1
  {
    if |exchanges| == 1 {
      SentSnoc([], exchanges[0], wantRows, limit);
      assert exchanges == [] + [exchanges[0]];
    }
  }

  // More than one statement has gone out only after a BEGIN that succeeded.
  lemma {:induction false} ManyNeedBegin<D>(before: seq<Exchange>, log: seq<Exchange>, stmts: seq<string>,
                                            wantRows: bool, limit: nat,
                                            e: Engine<D, Option<string>, StmtResult>, db: Db<D>,
                                            indexes: nat -> Option<nat>)
    requires BrokeOff(before, log, Wanted(stmts), wantRows, limit) && 1 < SentSince(before, log, wantRows, limit)
    requires ReadsText(e) && db.txn.None? && ServedInTurn(log[|before|..], Executor(e), db, indexes)
    ensures e.verdict(db.executed) == Allowed
  {
    var exchanges := log[|before|..];
    assert exchanges != [] && exchanges[0] == log[|before|];
    SentByOne(exchanges, wantRows, limit);
    BeginAnswered(exchanges, e, db, indexes);
  }

  lemma {:induction false} BrokenIsWhole(before: seq<Exchange>, log: seq<Exchange>, texts: seq<string>,
                                         wantRows: bool, limit: nat, exchanges: seq<Exchange>)
    requires BrokeOff(before, log, texts, wantRows, limit) && exchanges == log[|before|..]
    requires SentSince(before, log, wantRows, limit) == |texts| + 2
    ensures IsWhole(exchanges, texts, wantRows, limit) && !Succeeds(exchanges[|exchanges| - 1].reply)
  {
    assert exchanges[|exchanges| - 1] == log[|log| - 1];
    PrefixIsAll(AllSent(exchanges, wantRows, limit).sqls, Somes(Script(texts, false)));
  }

  lemma {:induction false} FailedCommit<D>(before: seq<Exchange>, log: seq<Exchange>, stmts: seq<string>,
                                           wantRows: bool, limit: nat,
                                           e: Engine<D, Option<string>, StmtResult>, db: Db<D>,
                                           indexes: nat -> Option<nat>)
    requires BrokeOff(before, log, Wanted(stmts), wantRows, limit)
    requires SentSince(before, log, wantRows, limit) == |Wanted(stmts)| + 2
    requires ReadsText(e) && db.txn.None? && ServedInTurn(log[|before|..], Executor(e), db, indexes)
    ensures !Clear(e, db.executed, |Wanted(stmts)|)
  {
    var exchanges := log[|before|..];
    BrokenIsWhole(before, log, Wanted(stmts), wantRows, limit, exchanges);
    CommitAnswered(exchanges, stmts, wantRows, limit, e, db, indexes);
  }

  lemma {:induction false} SentBeforeLast(before: seq<Exchange>, init: seq<Exchange>, last: Exchange, wantRows: bool,
                                          limit: nat)
    requires |before| <= |init|
    ensures AllSent((init + [last])[|before|..], wantRows, limit) ==
      Combine(AllSent(init[|before|..], wantRows, limit), SentBy(last, wantRows, limit))
  {
    assert (init + [last])[|before|..] == init[|before|..] + [last];
    SentSnoc(init[|before|..], last, wantRows, limit);
  }

  lemma {:induction false} PartBeforeLast(before: seq<Exchange>, init: seq<Exchange>, last: Exchange,
                                          script: seq<string>, wantRows: bool, limit: nat)
    requires HasSentPart(before, init + [last], script, wantRows, limit) && |before| <= |init|
    ensures HasSentPart(before, init, script, wantRows, limit)
    ensures SentSince(before, init, wantRows, limit) + |SqlOfExchange(last)| <= |script|
    ensures SentSince(before, init + [last], wantRows, limit) ==
      SentSince(before, init, wantRows, limit) + |SqlOfExchange(last)|
  {
    SentBeforeLast(before, init, last, wantRows, limit);
    assert init[..|before|] == (init + [last])[..|before|];
  }

  // The last exchange may have had no answer: whether the server ran it or not, what went out before it
  // is a run that broke off too.
  lemma {:induction false} UnansweredLast(before: seq<Exchange>, init: seq<Exchange>, last: Exchange,
                                          texts: seq<string>, wantRows: bool, limit: nat)
    requires BrokeOff(before, init + [last], texts, wantRows, limit) && |before| <= |init|
    ensures BrokeOff(before, init, texts, wantRows, limit)
  {
    var log := init + [last];
    PartBeforeLast(before, init, last, Script(texts, false), wantRows, limit);
    assert log[|log| - 1] == last && forall i :: 0 <= i < |init| ==> log[i] == init[i];
    assert CarriesAlone(last, "COMMIT") ==> |SqlOfExchange(last)| == 1;
  }
}
