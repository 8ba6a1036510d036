// How ExecContext and QueryContext read the result of a batch.
module Accounting {
  import opened Wrappers
  import opened Integers
  import opened Hrana
  import opened BatchCompiler
  import opened BatchMeaning
  import opened Results

  // What Exec reports, or the nil dereference Go would stop at.
  datatype Counted = Panicked | Counted(lastInsertRowId: int, affectedRowCount: int)

  function SumAffected(results: seq<StmtResult>): int {
    if results == [] then 0 else SumAffected(results[..|results| - 1]) + results[|results| - 1].affectedRowCount
  }

  // The last row id that is positive, or 0.
  function LastRowId(results: seq<StmtResult>): int {
    if results == [] then 0
    else
      var id := results[|results| - 1].GetLastInsertRowId();
      if id > 0 then id else LastRowId(results[..|results| - 1])
  }

  lemma {:induction false} LastRowIdIsLastPositive(results: seq<StmtResult>)
    ensures var id := LastRowId(results);
      || (id == 0 && forall i :: 0 <= i < |results| ==> results[i].GetLastInsertRowId() <= 0)
      || (exists k :: 0 <= k < |results| && id == results[k].GetLastInsertRowId() && id > 0
           && forall i :: k < i < |results| ==> results[i].GetLastInsertRowId() <= 0)
  {
    if results != [] {
      LastRowIdIsLastPositive(results[..|results| - 1]);
    }
  }

  function Counts(results: seq<StmtResult>): Counted {
    Counted(LastRowId(results), SumAffected(results))
  }

  // The number of entries ExecContext adds up: without a schema database the last one is the ROLLBACK.
  function UpperBound(res: BatchResult, schemaDb: bool): int {
    if schemaDb then |res.stepResults| else |res.stepResults| - 1
  }

  // A bound below zero counts nothing.
  function Entries(res: BatchResult, schemaDb: bool): nat {
    if UpperBound(res, schemaDb) < 0 then 0 else UpperBound(res, schemaDb)
  }

  // The batch branch of ExecContext.
  method CountBatch(res: BatchResult, schemaDb: bool) returns (counted: Counted)
    ensures counted.Panicked? <==> exists i :: 0 <= i < UpperBound(res, schemaDb) && res.stepResults[i].None?
    ensures forall results: seq<StmtResult> ::
      |results| == Entries(res, schemaDb) && Somes(results) <= res.stepResults ==> counted == Counts(results)
  {
    var lastInsertRowId := 0;
    var affectedRowCount := 0;
    var upperBound := |res.stepResults|;
    if !schemaDb {
      upperBound := upperBound - 1;
    }
    ghost var seen: seq<StmtResult> := [];
    var idx := 0;
    while idx < upperBound
      invariant 0 <= idx == |seen| && (idx <= upperBound || idx == 0)
      invariant forall i :: 0 <= i < idx ==> res.stepResults[i] == Some(seen[i])
      invariant Counted(lastInsertRowId, affectedRowCount) == Counts(seen)
    {
      if res.stepResults[idx].None? {
        return Panicked;
      }
      var r := res.stepResults[idx].value;
      var rowId := r.GetLastInsertRowId();
      if rowId > 0 {
        lastInsertRowId := rowId;
      }
      affectedRowCount := affectedRowCount + r.affectedRowCount;
      assert (seen + [r])[..|seen|] == seen;
      seen := seen + [r];
      idx := idx + 1;
    }
    counted := Counted(lastInsertRowId, affectedRowCount);
    forall results: seq<StmtResult> | |results| == Entries(res, schemaDb) && Somes(results) <= res.stepResults
      ensures counted == Counts(results)
    {
      assert forall i :: 0 <= i < |results| ==> res.stepResults[i] == Somes(results)[i];
      assert results == seen;
    }
  }

  // The batch branch of QueryContext: None is the slice that Go would stop at.
  function WithoutRollback(res: BatchResult, schemaDb: bool): Option<BatchResult> {
    if schemaDb then Some(res)
    else if res.stepResults == [] || res.stepErrors == [] then None
    else Some(res.(stepResults := res.stepResults[..|res.stepResults| - 1],
                   stepErrors := res.stepErrors[..|res.stepErrors| - 1]))
  }

  // A server's answer to a batch.
  function BatchAnswer<S, T>(steps: seq<Step<T>>, exec: (S, T) -> (S, Executed<StmtResult>), state: S,
                             index: Option<nat>)
    : StreamResponse
  {
    StreamResponse("batch", None, Some(Report(Run(steps, exec, state).done, index)))
  }

  // A transactional batch answers with the error of the first statement that failed, if one did.
  // Otherwise every statement has a result, the entry after them is the skipped ROLLBACK, and
  // dropping that entry leaves exactly the statements' results.
  lemma {:induction false} TransactionalAnswer<S, T>(stmts: seq<T>, rollback: T,
                                                     exec: (S, T) -> (S, Executed<StmtResult>), state: S,
                                                     index: Option<nat>)
    requires 1 <= |stmts| <= TWO_31
    ensures var u := UntilError(stmts, exec, state);
      Answered(u, |stmts|, index, BatchAnswer(Compile(stmts, rollback, true), exec, state, index))
  {
    var u := UntilError(stmts, exec, state);
    StopAtFirstError(stmts, rollback, exec, state);
    if u.error.Some? {
      FailureIsReported(u, |stmts|, OutcomeOf(exec(u.state, rollback).1), index);
    } else {
      SuccessIsReported(u, index);
    }
  }

  // What the driver makes of the answer to n statements run in order.
  ghost predicate Answered<S>(u: Sequential<S, StmtResult>, n: nat, index: Option<nat>, answer: StreamResponse) {
    match u.error
    case Some(message) => answer.BatchResult() == Err(message)
    case None =>
      && answer.BatchResult() == Ok(BatchResult(Somes(u.results) + [None], Nones(n + 1), index))
      && WithoutRollback(answer.BatchResult().value, false) == Some(BatchResult(Somes(u.results), Nones(n), index))
  }

  function Nones(n: nat): (r: seq<Option<string>>)
    ensures |r| == n && forall i :: 0 <= i < n ==> r[i] == None
  {
    if n == 0 then [] else Nones(n - 1) + [None]
  }

  lemma {:induction false} FailureIsReported<S>(u: Sequential<S, StmtResult>, n: nat, last: Outcome<StmtResult>,
                                                index: Option<nat>)
    requires u.error.Some? && |u.results| < n
    ensures FirstError(Report(Outcomes(u, n) + [last], index).stepErrors) == u.error
  {
    FirstErrorAt(Report(Outcomes(u, n) + [last], index).stepErrors, |u.results|);
  }

  lemma {:induction false} SuccessIsReported<S>(u: Sequential<S, StmtResult>, index: Option<nat>)
    requires u.error.None?
    ensures var res := Report(Successes(u.results) + [Skipped], index); var n := |u.results|;
      && res == BatchResult(Somes(u.results) + [None], Nones(n + 1), index)
      && FirstError(res.stepErrors) == None
      && WithoutRollback(res, false) == Some(BatchResult(Somes(u.results), Nones(n), index))
  {
    var res, n := Report(Successes(u.results) + [Skipped], index), |u.results|;
    assert res.stepResults == Somes(u.results) + [None];
    assert res.stepErrors == Nones(n + 1);
    assert res.stepResults[..n] == Somes(u.results);
    assert res.stepErrors[..n] == Nones(n);
  }

  // An empty list is answered for its ROLLBACK.
  lemma {:induction false} EmptyAnswer<S, T>(rollback: T, exec: (S, T) -> (S, Executed<StmtResult>), state: S,
                                             index: Option<nat>)
    ensures var answer := BatchAnswer(Compile([], rollback, true), exec, state, index);
      answer.BatchResult() ==
        match exec(state, rollback).1
        case Error(message) => Err(message)
        case Done(res) => Ok(BatchResult([Some(res)], [None], index))
  {
    EmptyListRollsBack(rollback, exec, state);
    var last := OutcomeOf(exec(state, rollback).1);
    var res := Report([last], index);
    assert res == BatchResult([ResultOf(last)], [ErrorOf(last)], index);
    if last.Failed? {
      FirstErrorAt(res.stepErrors, 0);
    }
  }

  // On that path Exec never meets a missing result and reports the sums over all statements.
  lemma {:induction false} TransactionalCount<S, T>(stmts: seq<T>, rollback: T,
                                                    exec: (S, T) -> (S, Executed<StmtResult>), state: S,
                                                    index: Option<nat>)
    requires 1 <= |stmts| <= TWO_31
    requires UntilError(stmts, exec, state).error.None?
    ensures var u := UntilError(stmts, exec, state);
      var res := Report(Run(Compile(stmts, rollback, true), exec, state).done, index);
      && |u.results| == |stmts| == UpperBound(res, false)
      && Somes(u.results) <= res.stepResults
  {
    var u := UntilError(stmts, exec, state);
    var answer := BatchAnswer(Compile(stmts, rollback, true), exec, state, index);
    TransactionalAnswer(stmts, rollback, exec, state, index);
    assert answer.batch.value.stepResults == Somes(u.results) + [None];
  }

  // ---- batches without conditions ------------------------------------------------------------

  function ResultsIn(executed: seq<Executed<StmtResult>>): (results: seq<StmtResult>)
    requires AllDone(executed)
    ensures |results| == |executed| && forall i :: 0 <= i < |executed| ==> executed[i] == Done(results[i])
  {
    if executed == [] then [] else ResultsIn(executed[..|executed| - 1]) + [executed[|executed| - 1].result]
  }

  lemma {:induction false} AllDoneIsReported(executed: seq<Executed<StmtResult>>, index: Option<nat>)
    requires AllDone(executed)
    ensures Report(OutcomesOf(executed), index) ==
      BatchResult(Somes(ResultsIn(executed)), Nones(|executed|), index)
  {
    var res := Report(OutcomesOf(executed), index);
    forall i | 0 <= i < |executed|
      ensures res.stepResults[i] == Somes(ResultsIn(executed))[i] && res.stepErrors[i].None?
    {
      assert OutcomesOf(executed)[i] == Succeeded(ResultsIn(executed)[i]);
    }
    assert res.stepResults == Somes(ResultsIn(executed));
    assert res.stepErrors == Nones(|executed|);
  }

  lemma {:induction false} ErrorIsReported(executed: seq<Executed<StmtResult>>, index: Option<nat>)
    requires !AllDone(executed)
    ensures FirstError(Report(OutcomesOf(executed), index).stepErrors).Some?
  {
    var i :| 0 <= i < |executed| && executed[i].Error?;
    assert Report(OutcomesOf(executed), index).stepErrors[i].Some?;
  }

  // On a schema database an answer without errors has every result and nothing else.
  lemma {:induction false} PlainAnswer<S, T>(stmts: seq<T>, rollback: T,
                                             exec: (S, T) -> (S, Executed<StmtResult>), state: S,
                                             index: Option<nat>)
    ensures var executed := RunAll(stmts, exec, state).executed;
      var answer := BatchAnswer(Compile(stmts, rollback, false), exec, state, index);
      if AllDone(executed)
      then answer.BatchResult() == Ok(BatchResult(Somes(ResultsIn(executed)), Nones(|stmts|), index))
      else answer.BatchResult().Err?
  {
    var executed := RunAll(stmts, exec, state).executed;
    PlainBatchRunsAll(stmts, rollback, exec, state);
    if AllDone(executed) {
      AllDoneIsReported(executed, index);
    } else {
      ErrorIsReported(executed, index);
    }
  }

  // ---- counting a part -----------------------------------------------------------------------

  lemma {:induction false} CountsAppend(a: seq<StmtResult>, b: seq<StmtResult>)
    ensures SumAffected(a + b) == SumAffected(a) + SumAffected(b)
    ensures LastRowId(a + b) == if LastRowId(b) > 0 then LastRowId(b) else LastRowId(a)
    ensures LastRowId(b) >= 0
  {
    if b == [] {
      assert a + b == a;
    } else {
      var n := |b| - 1;
      CountsAppend(a, b[..n]);
      assert (a + b)[..|a + b| - 1] == a + b[..n];
    }
  }

  // The count of a part is the count of the whole exactly when the rest changed no row and has no
  // row id to report, or the same one.
  lemma PartCountsExactly(part: seq<StmtResult>, rest: seq<StmtResult>)
    ensures Counts(part) == Counts(part + rest) <==>
      SumAffected(rest) == 0 && (LastRowId(rest) == 0 || LastRowId(rest) == LastRowId(part))
    ensures Counts(part).affectedRowCount == Counts(part + rest).affectedRowCount <==> SumAffected(rest) == 0
  {
    CountsAppend(part, rest);
  }

  // ---- the row id ----------------------------------------------------------------------------

  // A row id that is sent as the text of a 64-bit integer is read as that integer.
  lemma RowIdExactly(r: StmtResult, n: int)
    requires IsInt64(n) && r.lastInsertRowId == Some(FormatInt(n))
    ensures r.GetLastInsertRowId() == n
  {
    ParseFormatInt(n);
  }

  // One that is absent, or a text that no 64-bit integer can be read from, is read as 0.
  lemma NoRowId(r: StmtResult)
    requires r.lastInsertRowId == None || ParseInt(r.lastInsertRowId.value) == None
    ensures r.GetLastInsertRowId() == 0
  {
  }

  function SumOf(ms: seq<int>): int {
    if ms == [] then 0 else ms[0] + SumOf(ms[1..])
  }

  lemma {:induction false} SumOfSnoc(ms: seq<int>, m: int)
    ensures SumOf(ms + [m]) == SumOf(ms) + m
  {
    if ms == [] {
      assert ms + [m] == [m] && [m][1..] == [];
    } else {
      SumOfSnoc(ms[1..], m);
      assert (ms + [m])[1..] == ms[1..] + [m];
    }
  }

  // id is the last positive number of the list, or 0 when there is none.
  ghost predicate IsLastPositive(ns: seq<int>, id: int) {
    || (id == 0 && forall i :: 0 <= i < |ns| ==> ns[i] <= 0)
    || exists k :: 0 <= k < |ns| && id == ns[k] && ns[k] > 0 && forall i :: k < i < |ns| ==> ns[i] <= 0
  }

  // The results carry these row ids, as texts, and these numbers of affected rows.
  ghost predicate HasNumbers(results: seq<StmtResult>, ns: seq<int>, ms: seq<int>) {
    && |results| == |ns| == |ms|
    && forall i :: 0 <= i < |results| ==>
      IsInt64(ns[i]) && results[i].lastInsertRowId == Some(FormatInt(ns[i])) && results[i].affectedRowCount == ms[i]
  }

  lemma {:induction false} NumbersSummed(results: seq<StmtResult>, ns: seq<int>, ms: seq<int>)
    requires HasNumbers(results, ns, ms)
    ensures SumAffected(results) == SumOf(ms)
  {
    if results != [] {
      var k := |results| - 1;
      NumbersSummed(results[..k], ns[..k], ms[..k]);
      SumOfSnoc(ms[..k], ms[k]);
      assert ms == ms[..k] + [ms[k]];
    }
  }

  lemma {:induction false} LastNumber(results: seq<StmtResult>, ns: seq<int>, ms: seq<int>)
    requires HasNumbers(results, ns, ms)
    ensures IsLastPositive(ns, LastRowId(results))
  {
    forall i | 0 <= i < |results|
      ensures results[i].GetLastInsertRowId() == ns[i]
    {
      RowIdExactly(results[i], ns[i]);
    }
    LastRowIdIsLastPositive(results);
  }
}
