// The state of a connection over a whole run of requests, against a server that may answer anything.
module ConnectionRuns {
  import opened Wrappers
  import opened Results

  // What becomes of a request: no usable answer, an answer with an error status, or a response.
  datatype Reply = Unreachable | Refused(message: string) | Answer(response: PipelineResponse)

  datatype Conn = Conn(url: string, baton: string, streamClosed: bool, replicationIndex: nat)

  // ---- replication index of a response -------------------------------------------------------

  // The index a result reports, if it is the result of an execute or of a batch without errors.
  function Reported(r: StreamResult): Option<nat> {
    if r.response.None? then None
    else
      var response := r.response.value;
      if response.typ == "execute" then
        match response.ExecuteResult() { case Ok(res) => res.replicationIndex case Err(_) => None }
      else if response.typ == "batch" then
        match response.BatchResult() { case Ok(res) => res.replicationIndex case Err(_) => None }
      else None
  }

  // The results that report an index: a statement's result its own, a batch's result its own when no
  // step failed, and nothing else.
  lemma ReportedExactly(result: StmtResult, batch: BatchResult, typ: string, more: Option<BatchResult>,
                        less: Option<StmtResult>, error: Option<string>)
    ensures Reported(StreamResult(Some(StreamResponse("execute", Some(result), more)), error)) ==
      result.replicationIndex
    ensures Reported(StreamResult(Some(StreamResponse("batch", less, Some(batch))), error)) ==
      if forall i :: 0 <= i < |batch.stepErrors| ==> batch.stepErrors[i].None? then batch.replicationIndex else None
    ensures typ != "execute" && typ != "batch" ==>
      Reported(StreamResult(Some(StreamResponse(typ, less, more)), error)) == None
    ensures Reported(StreamResult(None, error)) == None
  {
  }

  function Max(a: nat, b: nat): nat {
    if a < b then b else a
  }

  function MaxIndex(results: seq<StreamResult>): nat {
    if results == [] then 0
    else
      var before := MaxIndex(results[..|results| - 1]);
      match Reported(results[|results| - 1])
      case Some(index) => Max(before, index)
      case None => before
  }

  // It is the largest index reported, or 0.
  lemma {:induction false} MaxIndexIsMax(results: seq<StreamResult>)
    ensures forall i :: 0 <= i < |results| && Reported(results[i]).Some? ==>
      Reported(results[i]).value <= MaxIndex(results)
    ensures MaxIndex(results) == 0
      || exists i :: 0 <= i < |results| && Reported(results[i]) == Some(MaxIndex(results))
  {
    if results != [] {
      var init, last := results[..|results| - 1], results[|results| - 1];
      MaxIndexIsMax(init);
      if MaxIndex(results) != 0 && MaxIndex(results) == MaxIndex(init) {
        var i :| 0 <= i < |init| && Reported(init[i]) == Some(MaxIndex(init));
        assert results[i] == init[i];
      }
    }
  }

  // ---- one request ---------------------------------------------------------------------------

  // The connection after a request was sent and this came back. streamClose is the caller's word
  // that the request closes the stream itself.
  function Received(c: Conn, streamClose: bool, reply: Reply): Conn {
    match reply
    case Unreachable => c
    case Refused(_) => c.(streamClosed := true)
    case Answer(r) =>
      Conn(if r.baseUrl != "" then r.baseUrl else c.url,
           r.baton,
           c.streamClosed || (r.baton == "" && !streamClose),
           Max(c.replicationIndex, MaxIndex(r.results)))
  }

  // The baton a message goes out with.
  function Carried(c: Conn, own: string): string {
    if c.baton != "" then c.baton else own
  }

  // ---- runs ----------------------------------------------------------------------------------

  datatype Action =
    | Send(own: string, streamClose: bool, reply: Reply)
    | CloseStream

  // What the server sees: a request with the connection's index at that time and the caller's word on
  // whether it closes the stream, or the stream given up.
  datatype Entry =
    | Sent(url: string, baton: string, index: nat, closes: bool, reply: Reply)
    | GivenUp(baton: string)

  datatype Trace = Trace(conn: Conn, log: seq<Entry>)

  function Act(t: Trace, a: Action): Trace {
    var c := t.conn;
    match a
    case Send(own, streamClose, reply) =>
      if c.streamClosed then t
      else
        Trace(Received(c, streamClose, reply),
              t.log + [Sent(c.url, Carried(c, own), c.replicationIndex, streamClose, reply)])
    case CloseStream =>
      if c.baton == "" then t else Trace(c.(baton := ""), t.log + [GivenUp(c.baton)])
  }

  function Run(url: string, actions: seq<Action>): Trace {
    if actions == [] then Trace(Conn(url, "", false, 0), [])
    else Act(Run(url, actions[..|actions| - 1]), actions[|actions| - 1])
  }

  // The baton of the last response on the current stream, None before the first one.
  function LatestBaton(log: seq<Entry>): Option<string> {
    if log == [] then None
    else
      match log[|log| - 1]
      case GivenUp(_) => None
      case Sent(_, _, _, _, reply) =>
        if reply.Answer? then Some(reply.response.baton) else LatestBaton(log[..|log| - 1])
  }

  // The largest index reported so far.
  function MaxReported(log: seq<Entry>): nat {
    if log == [] then 0
    else
      var before := MaxReported(log[..|log| - 1]);
      match log[|log| - 1]
      case GivenUp(_) => before
      case Sent(_, _, _, _, reply) => if reply.Answer? then Max(before, MaxIndex(reply.response.results)) else before
  }

  // The base URL in force: the last one a response gave, or the one the connection was opened with.
  function LatestUrl(url: string, log: seq<Entry>): string {
    if log == [] then url
    else
      match log[|log| - 1]
      case GivenUp(_) => LatestUrl(url, log[..|log| - 1])
      case Sent(_, _, _, _, reply) =>
        if reply.Answer? && reply.response.baseUrl != "" then reply.response.baseUrl
        else LatestUrl(url, log[..|log| - 1])
  }

  // No request says that it closes the stream itself; the driver sends none that does.
  predicate NeverCloses(actions: seq<Action>) {
    forall i :: 0 <= i < |actions| && actions[i].Send? ==> !actions[i].streamClose
  }

  // What the connection remembers of its log.
  ghost predicate Remembers(url: string, t: Trace) {
    && t.conn.url == LatestUrl(url, t.log)
    && t.conn.replicationIndex == MaxReported(t.log)
    && (LatestBaton(t.log).Some? ==>
          t.conn.baton == LatestBaton(t.log).value && (t.conn.baton == "" ==> t.conn.streamClosed))
  }

  lemma LogSnoc(url: string, log: seq<Entry>, e: Entry)
    ensures LatestUrl(url, log + [e]) ==
      if e.Sent? && e.reply.Answer? && e.reply.response.baseUrl != "" then e.reply.response.baseUrl
      else LatestUrl(url, log)
    ensures MaxReported(log + [e]) ==
      if e.Sent? && e.reply.Answer? then Max(MaxReported(log), MaxIndex(e.reply.response.results)) else MaxReported(log)
    ensures LatestBaton(log + [e]) ==
      if e.GivenUp? then None else if e.reply.Answer? then Some(e.reply.response.baton) else LatestBaton(log)
  {
    assert (log + [e])[..|log|] == log;
  }

  lemma RemembersStep(url: string, t: Trace, a: Action)
    requires Remembers(url, t) && (a.Send? ==> !a.streamClose)
    ensures Remembers(url, Act(t, a))
  {
    if a.CloseStream? {
      LogSnoc(url, t.log, GivenUp(t.conn.baton));
    } else {
      LogSnoc(url, t.log, Sent(t.conn.url, Carried(t.conn, a.own), t.conn.replicationIndex, a.streamClose, a.reply));
    }
  }

  lemma {:induction false} RunRemembers(url: string, actions: seq<Action>)
    requires NeverCloses(actions)
    ensures Remembers(url, Run(url, actions))
  {
    if actions != [] {
      RunRemembers(url, actions[..|actions| - 1]);
      RemembersStep(url, Run(url, actions[..|actions| - 1]), actions[|actions| - 1]);
    }
  }

  // Request number j of the log goes to the base URL in force, tells of the largest index reported
  // before it and, once a response has come back on the stream, carries the latest baton and never
  // an empty one: it cannot land on another stream.
  ghost predicate InStep(url: string, log: seq<Entry>, j: nat)
    requires j < |log|
  {
    log[j].Sent? ==>
      && log[j].url == LatestUrl(url, log[..j])
      && log[j].index == MaxReported(log[..j])
      && (LatestBaton(log[..j]).Some? ==> log[j].baton == LatestBaton(log[..j]).value && log[j].baton != "")
  }

  lemma {:induction false} StreamAffinity(url: string, actions: seq<Action>, j: nat)
    requires NeverCloses(actions) && j < |Run(url, actions).log|
    ensures InStep(url, Run(url, actions).log, j)
  {
    if actions != [] {
      var init := actions[..|actions| - 1];
      var before, log := Run(url, init), Run(url, actions).log;
      RunRemembers(url, init);
      if j < |before.log| {
        StreamAffinity(url, init, j);
        assert log[..j] == before.log[..j];
      } else {
        assert log[..j] == before.log;
      }
    }
  }

  // The index never goes down, and a closed stream stays closed without another request.
  lemma {:induction false} ClosedIsFinal(url: string, actions: seq<Action>, more: seq<Action>)
    ensures var t, u := Run(url, actions), Run(url, actions + more);
      && t.conn.replicationIndex <= u.conn.replicationIndex
      && t.log <= u.log
      && (t.conn.streamClosed ==> u.conn.streamClosed && forall j :: |t.log| <= j < |u.log| ==> u.log[j].GivenUp?)
  {
    if more == [] {
      assert actions + more == actions;
    } else {
      var init, last := more[..|more| - 1], more[|more| - 1];
      ClosedIsFinal(url, actions, init);
      assert actions + more == (actions + init) + [last];
      assert (actions + more)[..|actions + more| - 1] == actions + init;
    }
  }

  // What an action adds to the log: one entry or none.
  function Added(t: Trace, a: Action): (more: seq<Entry>)
    ensures |more| <= 1
    ensures Act(t, a).log == t.log + more
  {
    match a
    case Send(own, streamClose, reply) =>
      if t.conn.streamClosed then []
      else [Sent(t.conn.url, Carried(t.conn, own), t.conn.replicationIndex, streamClose, reply)]
    case CloseStream => if t.conn.baton == "" then [] else [GivenUp(t.conn.baton)]
  }

  // ---- when the stream is closed -------------------------------------------------------------

  // An entry after which the stream is closed: an error status, or an answer without a baton to a
  // request that did not say it closes the stream.
  predicate EndsStream(e: Entry) {
    e.Sent? && (e.reply.Refused? || (e.reply.Answer? && e.reply.response.baton == "" && !e.closes))
  }

  ghost predicate Ended(log: seq<Entry>) {
    exists j :: 0 <= j < |log| && EndsStream(log[j])
  }

  // Nothing is sent after such an entry.
  ghost predicate NothingAfterEnd(log: seq<Entry>) {
    forall i, j :: 0 <= i < j < |log| && EndsStream(log[i]) ==> !log[j].Sent?
  }

  lemma {:induction false} EndedSnoc(log: seq<Entry>, e: Entry)
    ensures Ended(log + [e]) <==> Ended(log) || EndsStream(e)
    ensures NothingAfterEnd(log + [e]) <==> NothingAfterEnd(log) && (Ended(log) ==> !e.Sent?)
  {
    var more := log + [e];
    assert more[|log|] == e && forall i :: 0 <= i < |log| ==> more[i] == log[i];
    if Ended(log) {
      var j :| 0 <= j < |log| && EndsStream(log[j]);
      assert EndsStream(more[j]);
    }
  }

  lemma ClosesOnEnd(t: Trace, a: Action)
    ensures var more := Added(t, a);
      Act(t, a).conn.streamClosed <==> t.conn.streamClosed || (more != [] && EndsStream(more[0]))
    ensures t.conn.streamClosed && Added(t, a) != [] ==> !Added(t, a)[0].Sent?
  {
  }

  // The connection is closed if and only if its log shows an error status, or an answer without a baton
  // to a request that did not say it closes the stream; and after that it sends nothing.
  lemma {:induction false} ClosedExactly(url: string, actions: seq<Action>)
    ensures Run(url, actions).conn.streamClosed <==> Ended(Run(url, actions).log)
    ensures NothingAfterEnd(Run(url, actions).log)
  {
    if actions != [] {
      var init, last := actions[..|actions| - 1], actions[|actions| - 1];
      ClosedExactly(url, init);
      var t := Run(url, init);
      var more := Added(t, last);
      ClosesOnEnd(t, last);
      assert Act(t, last).log == t.log + more;
      if more != [] {
        EndedSnoc(t.log, more[0]);
        assert more == [more[0]];
      } else {
        assert t.log + more == t.log;
      }
    }
  }

  // ---- requests that say they close the stream -----------------------------------------------

  // A request that says it closes the stream was answered without a baton: the connection stays open.
  predicate Loses(c: Conn, a: Action) {
    !c.streamClosed && a.Send? && a.streamClose && a.reply.Answer? && a.reply.response.baton == ""
  }

  ghost predicate Lost(url: string, actions: seq<Action>) {
    actions != [] && var init := actions[..|actions| - 1];
      Lost(url, init) || Loses(Run(url, init).conn, actions[|actions| - 1])
  }

  // Nothing is sent after such an answer.
  ghost predicate NothingAfterLoss(url: string, actions: seq<Action>) {
    actions == [] || var init := actions[..|actions| - 1];
      NothingAfterLoss(url, init) && (actions[|actions| - 1].Send? ==> !Lost(url, init))
  }

  // What the connection remembers then.
  ghost predicate RemembersLoss(url: string, t: Trace, lost: bool) {
    if lost then
      && t.conn.url == LatestUrl(url, t.log)
      && t.conn.replicationIndex == MaxReported(t.log)
      && LatestBaton(t.log) == Some("") && t.conn.baton == "" && !t.conn.streamClosed
    else Remembers(url, t)
  }

  lemma {:induction false} LossStep(url: string, t: Trace, a: Action, lost: bool)
    requires RemembersLoss(url, t, lost) && (a.Send? ==> !lost)
    ensures RemembersLoss(url, Act(t, a), lost || Loses(t.conn, a))
  {
    if a.CloseStream? {
      LogSnoc(url, t.log, GivenUp(t.conn.baton));
    } else {
      LogSnoc(url, t.log, Sent(t.conn.url, Carried(t.conn, a.own), t.conn.replicationIndex, a.streamClose, a.reply));
    }
  }

  lemma {:induction false} RunRemembersLoss(url: string, actions: seq<Action>)
    requires NothingAfterLoss(url, actions)
    ensures RemembersLoss(url, Run(url, actions), Lost(url, actions))
  {
    if actions != [] {
      var init, last := actions[..|actions| - 1], actions[|actions| - 1];
      RunRemembersLoss(url, init);
      LossStep(url, Run(url, init), last, Lost(url, init));
    }
  }

  ghost predicate AllInStep(url: string, log: seq<Entry>) {
    forall j :: 0 <= j < |log| ==> InStep(url, log, j)
  }

  lemma InStepOfPrefix(url: string, log: seq<Entry>, e: Entry, j: nat)
    requires j < |log|
    ensures InStep(url, log + [e], j) <==> InStep(url, log, j)
  {
    assert (log + [e])[..j] == log[..j];
  }

  lemma AllInStepSnoc(url: string, log: seq<Entry>, e: Entry)
    ensures AllInStep(url, log + [e]) <==> AllInStep(url, log) && InStep(url, log + [e], |log|)
  {
    forall j | 0 <= j < |log|
      ensures InStep(url, log + [e], j) <==> InStep(url, log, j)
    {
      InStepOfPrefix(url, log, e, j);
    }
    if AllInStep(url, log) && InStep(url, log + [e], |log|) {
      forall j | 0 <= j < |log + [e]|
        ensures InStep(url, log + [e], j)
      {
      }
    }
  }

  // Giving the stream up is always in step.
  lemma GivenUpInStep(url: string, log: seq<Entry>, baton: string)
    ensures InStep(url, log + [GivenUp(baton)], |log|)
  {
  }

  // A request is in step exactly when no such answer came before it.
  lemma SentInStep(url: string, t: Trace, a: Action, lost: bool)
    requires RemembersLoss(url, t, lost) && a.Send? && !t.conn.streamClosed
    ensures InStep(url, t.log + Added(t, a), |t.log|) <==> !lost
  {
    assert (t.log + Added(t, a))[..|t.log|] == t.log;
  }

  // One more action after a run that has kept the rule.
  lemma AffinityStep(url: string, t: Trace, a: Action, lost: bool)
    requires RemembersLoss(url, t, lost) && AllInStep(url, t.log)
    ensures AllInStep(url, Act(t, a).log) <==> (a.Send? ==> !lost)
  {
    var more := Added(t, a);
    if more == [] {
      assert t.log + more == t.log;
    } else {
      AllInStepSnoc(url, t.log, more[0]);
      assert more == [more[0]];
      if a.Send? {
        SentInStep(url, t, a, lost);
      } else {
        GivenUpInStep(url, t.log, t.conn.baton);
      }
    }
  }

  // What is out of step stays so.
  lemma OutOfStepStays(url: string, t: Trace, a: Action)
    requires !AllInStep(url, t.log)
    ensures !AllInStep(url, Act(t, a).log)
  {
    var more := Added(t, a);
    if more == [] {
      assert t.log + more == t.log;
    } else {
      AllInStepSnoc(url, t.log, more[0]);
      assert more == [more[0]];
    }
  }

  // Every request is in step if and only if nothing is sent after a request that said it closes the
  // stream and was answered without a baton.
  lemma {:induction false} AffinityExactly(url: string, actions: seq<Action>)
    ensures AllInStep(url, Run(url, actions).log) <==> NothingAfterLoss(url, actions)
  {
    if actions != [] {
      var init, last := actions[..|actions| - 1], actions[|actions| - 1];
      AffinityExactly(url, init);
      if NothingAfterLoss(url, init) {
        RunRemembersLoss(url, init);
        AffinityStep(url, Run(url, init), last, Lost(url, init));
      } else {
        OutOfStepStays(url, Run(url, init), last);
      }
    }
  }

  // The driver's own calls never say that they close the stream.
  lemma {:induction false} DriverKeepsAffinity(url: string, actions: seq<Action>)
    requires NeverCloses(actions)
    ensures NothingAfterLoss(url, actions) && !Lost(url, actions)
  {
    if actions != [] {
      DriverKeepsAffinity(url, actions[..|actions| - 1]);
    }
  }
}
