// What comes back from the server.
module Results {
  import opened Wrappers
  import opened Values
  import opened Integers
  import opened BatchMeaning

  datatype Column = Column(name: Option<string>, decltype: Option<string>)

  datatype StmtResult = StmtResult(
    cols: seq<Column>,
    rows: seq<seq<Value>>,
    affectedRowCount: int,
    lastInsertRowId: Option<string>,
    replicationIndex: Option<nat>)
  {
    function GetLastInsertRowId(): int {
      if lastInsertRowId.Some? && ParseInt(lastInsertRowId.value).Some? then ParseInt(lastInsertRowId.value).value
      else 0
    }
  }

  datatype BatchResult = BatchResult(
    stepResults: seq<Option<StmtResult>>,
    stepErrors: seq<Option<string>>,
    replicationIndex: Option<nat>)

  // The result text of a response, read as either kind of result; None is text that does not decode.
  datatype StreamResponse = StreamResponse(typ: string, stmt: Option<StmtResult>, batch: Option<BatchResult>)
  {
    function ExecuteResult(): Result<StmtResult> {
      if typ != "execute" then Err("invalid response type")
      else if stmt.None? then Err("invalid result")
      else Ok(stmt.value)
    }

    function BatchResult(): Result<BatchResult> {
      if typ != "batch" then Err("invalid response type")
      else if batch.None? then Err("invalid result")
      else
        match FirstError(batch.value.stepErrors)
        case Some(message) => Err(message)
        case None => Ok(batch.value)
    }
  }

  datatype StreamResult = StreamResult(response: Option<StreamResponse>, error: Option<string>)

  datatype PipelineResponse = PipelineResponse(baton: string, baseUrl: string, results: seq<StreamResult>)

  function FirstError(errors: seq<Option<string>>): (e: Option<string>)
    ensures e.None? <==> forall i :: 0 <= i < |errors| ==> errors[i].None?
  {
    if errors == [] then None
    else if errors[0].Some? then errors[0]
    else FirstError(errors[1..])
  }

  lemma {:induction false} FirstErrorAt(errors: seq<Option<string>>, k: nat)
    requires k < |errors| && errors[k].Some? && forall i :: 0 <= i < k ==> errors[i].None?
    ensures FirstError(errors) == errors[k]
  {
    if k > 0 {
      FirstErrorAt(errors[1..], k - 1);
    }
  }

  // A batch result reports an outcome a step; a skipped step has neither result nor error.
  function ResultOf(o: Outcome<StmtResult>): Option<StmtResult> {
    if o.Succeeded? then Some(o.result) else None
  }

  function ErrorOf(o: Outcome<StmtResult>): Option<string> {
    if o.Failed? then Some(o.message) else None
  }

  function Report(done: seq<Outcome<StmtResult>>, index: Option<nat>): BatchResult {
    BatchResult(seq(|done|, i requires 0 <= i < |done| => ResultOf(done[i])),
                seq(|done|, i requires 0 <= i < |done| => ErrorOf(done[i])), index)
  }
}
