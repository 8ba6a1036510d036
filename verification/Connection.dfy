// The connection object: it sends pipeline requests and keeps baton, base URL and index up to date.
module Connection {
  import opened Wrappers
  import opened Values
  import opened Hrana
  import opened Results
  import opened ConnectionRuns

  // ---- what goes over the wire ---------------------------------------------------------------

  datatype WireStmt = WireStmt(
    sql: Option<string>,
    args: seq<Value>,
    namedArgs: seq<NamedArg>,
    wantRows: bool,
    replicationIndex: Option<nat>)

  datatype WireRequest =
    | WireExecute(stmt: WireStmt)
    | WireBatch(steps: seq<Step<WireStmt>>, replicationIndex: Option<nat>)
    | WireOther(typ: string)

  datatype Wire = Wire(baton: string, requests: seq<WireRequest>)

  // The text a pointer leads to at the moment.
  function TextAt(sql: SqlRef): Option<string>
    reads if sql.Cell? then {sql.cells} else {}
  {
    match sql
    case NoSql => None
    case Own(text) => Some(text)
    case Cell(cells, idx) => if idx < cells.Length then Some(cells[idx]) else None
  }

  function MarshalStmt(s: StmtValue): WireStmt
    reads if s.sql.Cell? then {s.sql.cells} else {}
  {
    WireStmt(TextAt(s.sql), s.args, s.namedArgs, s.wantRows, s.replicationIndex)
  }

  function Cells(steps: seq<Step<StmtValue>>): set<array<string>> {
    set s | s in steps && s.stmt.sql.Cell? :: s.stmt.sql.cells
  }

  function MarshalSteps(steps: seq<Step<StmtValue>>): (wire: seq<Step<WireStmt>>)
    reads Cells(steps)
    ensures |wire| == |steps|
    ensures forall i :: 0 <= i < |steps| ==>
      wire[i] == Step(WireStmt(TextAt(steps[i].stmt.sql), steps[i].stmt.args, steps[i].stmt.namedArgs,
                               steps[i].stmt.wantRows, steps[i].stmt.replicationIndex), steps[i].condition)
  {
    seq(|steps|, i requires 0 <= i < |steps| reads Cells(steps) =>
      Step(MarshalStmt(steps[i].stmt), steps[i].condition))
  }

  // A statement is owned by its request; a batch may be shared with the code that built it.
  datatype StreamRequest = StreamRequest(typ: string, stmt: Option<StmtValue>, batch: Batch?)

  function CellsOf(r: StreamRequest): set<array<string>>
    reads r.batch
  {
    (if r.stmt.Some? && r.stmt.value.sql.Cell? then {r.stmt.value.sql.cells} else {})
    + (if r.batch != null then Cells(r.batch.steps) else {})
  }

  function MarshalRequest(r: StreamRequest): WireRequest
    reads r.batch, CellsOf(r)
  {
    if r.stmt.Some? then WireExecute(MarshalStmt(r.stmt.value))
    else if r.batch != null then WireBatch(MarshalSteps(r.batch.steps), r.batch.replicationIndex)
    else WireOther(r.typ)
  }

  class PipelineRequest {
    var baton: string
    var requests: seq<StreamRequest>

    constructor ()
      ensures baton == "" && requests == []
    {
      baton := "";
      requests := [];
    }

    method Add(request: StreamRequest)
      modifies this`requests
      ensures requests == old(requests) + [request]
    {
      requests := requests + [request];
    }
  }

  function Batches(requests: seq<StreamRequest>): set<Batch> {
    set r | r in requests && r.batch != null :: r.batch
  }

  // The driver's requests hold a statement or a batch, not both.
  predicate OneContent(requests: seq<StreamRequest>) {
    forall i :: 0 <= i < |requests| ==> requests[i].stmt.None? || requests[i].batch == null
  }

  function AllCells(requests: seq<StreamRequest>): set<array<string>>
    reads Batches(requests)
  {
    set r, c | r in requests && c in CellsOf(r) :: c
  }

  // All requests as they would go out now.
  function MarshalAll(requests: seq<StreamRequest>): (wire: seq<WireRequest>)
    reads Batches(requests), AllCells(requests)
    ensures |wire| == |requests| && forall i :: 0 <= i < |requests| ==> wire[i] == MarshalRequest(requests[i])
  {
    seq(|requests|, i requires 0 <= i < |requests| reads Batches(requests), AllCells(requests) =>
      MarshalRequest(requests[i]))
  }

  // A known index is attached to every request that has none yet.
  function IndexOr(own: Option<nat>, index: nat): Option<nat> {
    if own.None? && index > 0 then Some(index) else own
  }

  function WithIndex(w: WireRequest, index: nat): WireRequest {
    match w
    case WireExecute(stmt) => WireExecute(stmt.(replicationIndex := IndexOr(stmt.replicationIndex, index)))
    case WireBatch(steps, own) => WireBatch(steps, IndexOr(own, index))
    case WireOther(typ) => w
  }

  function WithIndexes(ws: seq<WireRequest>, index: nat): (r: seq<WireRequest>)
    ensures |r| == |ws| && forall i :: 0 <= i < |ws| ==> r[i] == WithIndex(ws[i], index)
  {
    if ws == [] then [] else WithIndexes(ws[..|ws| - 1], index) + [WithIndex(ws[|ws| - 1], index)]
  }

  // A request sent to the server and what came back.
  datatype Exchange = Exchange(url: string, wire: Wire, reply: Reply)

  // The far side: any fixed list of replies, and the record of what was sent.
  class Server {
    const replies: nat -> Reply
    var log: seq<Exchange>
    // Batons of the close requests sent in the background.
    var closed: seq<string>

    constructor (replies: nat -> Reply)
      ensures log == [] && closed == [] && this.replies == replies
    {
      this.replies := replies;
      log := [];
      closed := [];
    }

    method Post(url: string, wire: Wire) returns (reply: Reply)
      modifies this`log
      ensures reply == replies(|old(log)|)
      ensures log == old(log) + [Exchange(url, wire, reply)]
    {
      reply := replies(|log|);
      log := log + [Exchange(url, wire, reply)];
    }

    method PostClose(baton: string)
      modifies this`closed
      ensures closed == old(closed) + [baton]
    {
      closed := closed + [baton];
    }
  }

  // One exchange of a connection in state c: a message with its own baton and these requests goes
  // out as e, and leaves the connection in state d.
  ghost predicate IsExchange(c: Conn, own: string, requests: seq<WireRequest>, streamClose: bool, e: Exchange,
                             d: Conn) {
    && e.url == c.url
    && e.wire == Wire(Carried(c, own), WithIndexes(requests, c.replicationIndex))
    && d == Received(c, streamClose, e.reply)
  }

  // No request failed and every request has a response.
  predicate Clean(results: seq<StreamResult>) {
    forall i :: 0 <= i < |results| ==> results[i].error.None? && results[i].response.Some?
  }

  method AddReplicationIndex(msg: PipelineRequest, replicationIndex: nat)
    requires OneContent(msg.requests) && replicationIndex > 0
    modifies msg`requests, Batches(msg.requests)
    ensures SameButIndex(msg.requests, old(msg.requests))
    ensures forall b :: b in Batches(msg.requests) ==> b.steps == old(b.steps)
    ensures MarshalAll(msg.requests) == WithIndexes(old(MarshalAll(msg.requests)), replicationIndex)
  {
    ghost var was := msg.requests;
    for i := 0 to |msg.requests|
      invariant |msg.requests| == |was|
      invariant forall j :: 0 <= j < |was| ==>
        msg.requests[j] == if j < i then IndexedStmt(was[j], replicationIndex) else was[j]
      invariant forall b :: b in Batches(was) ==> b.steps == old(b.steps)
      invariant forall b :: b in Batches(was) ==>
        || b.replicationIndex == old(b.replicationIndex)
        || b.replicationIndex == IndexOr(old(b.replicationIndex), replicationIndex)
      invariant forall j :: 0 <= j < i && was[j].batch != null ==>
        was[j].batch.replicationIndex == IndexOr(old(was[j].batch.replicationIndex), replicationIndex)
    {
      var r := msg.requests[i];
      assert r == was[i] && r in was;
      if r.stmt.Some? && r.stmt.value.replicationIndex.None? {
        msg.requests := msg.requests[i := IndexedStmt(r, replicationIndex)];
      } else if r.batch != null && r.batch.replicationIndex.None? {
        r.batch.replicationIndex := Some(replicationIndex);
      }
    }
    forall j | 0 <= j < |was|
      ensures MarshalRequest(msg.requests[j]) == WithIndex(old(MarshalRequest(was[j])), replicationIndex)
    {
      assert was[j] in was;
    }
  }

  function IndexedStmt(r: StreamRequest, index: nat): StreamRequest {
    if r.stmt.None? then r
    else r.(stmt := Some(r.stmt.value.(replicationIndex := IndexOr(r.stmt.value.replicationIndex, index))))
  }

  // The requests differ at most in the indexes of their own statements.
  ghost predicate SameButIndex(requests: seq<StreamRequest>, was: seq<StreamRequest>) {
    |requests| == |was| && forall i :: 0 <= i < |was| ==>
      && requests[i].typ == was[i].typ
      && requests[i].batch == was[i].batch
      && requests[i].stmt.Some? == was[i].stmt.Some?
  }

  predicate Succeeds(reply: Reply) {
    reply.Answer? && Clean(reply.response.results)
  }

  method FirstFailure(results: seq<StreamResult>) returns (error: Option<string>)
    ensures error.None? <==>
      forall i :: 0 <= i < |results| ==> results[i].error.None? && results[i].response.Some?
  {
    for i := 0 to |results|
      invariant Clean(results[..i])
    {
      if results[i].error.Some? {
        return Some(results[i].error.value);
      }
      if results[i].response.None? {
        return Some("no response received");
      }
    }
    error := None;
  }

  method GetReplicationIndex(results: seq<StreamResult>) returns (replicationIndex: nat)
    ensures replicationIndex == MaxIndex(results)
  {
    replicationIndex := 0;
    for i := 0 to |results|
      invariant replicationIndex == MaxIndex(results[..i])
    {
      var result := results[i];
      assert results[..i + 1][..i] == results[..i];
      if result.response.None? {
        continue;
      }
      var response := result.response.value;
      if response.typ == "execute" {
        var res := response.ExecuteResult();
        if res.Ok? && res.value.replicationIndex.Some? {
          if res.value.replicationIndex.value > replicationIndex {
            replicationIndex := res.value.replicationIndex.value;
          }
        }
      } else if response.typ == "batch" {
        var res := response.BatchResult();
        if res.Ok? && res.value.replicationIndex.Some? {
          if res.value.replicationIndex.value > replicationIndex {
            replicationIndex := res.value.replicationIndex.value;
          }
        }
      }
    }
    assert results[..|results|] == results;
  }

  // An exchange is what an entry of the run says, and carries requests that were built like this.
  predicate Shows(e: Exchange, built: seq<WireRequest>, entry: Entry) {
    && entry.Sent? && entry == Sent(e.url, e.wire.baton, entry.index, entry.closes, e.reply)
    && e.wire.requests == WithIndexes(built, entry.index)
  }

  // The exchanges are the requests of the run, in order.
  ghost predicate Matches(exchanges: seq<Exchange>, built: seq<seq<WireRequest>>, entries: seq<Entry>)
    decreases |entries|
  {
    if entries == [] then exchanges == [] && built == []
    else
      var init, last := entries[..|entries| - 1], entries[|entries| - 1];
      if last.GivenUp? then Matches(exchanges, built, init)
      else
        && exchanges != [] && built != []
        && Shows(exchanges[|exchanges| - 1], built[|built| - 1], last)
        && Matches(exchanges[..|exchanges| - 1], built[..|built| - 1], init)
  }

  lemma MatchesSnoc(exchanges: seq<Exchange>, built: seq<seq<WireRequest>>, entries: seq<Entry>, e: Exchange,
                    requests: seq<WireRequest>, entry: Entry)
    requires Matches(exchanges, built, entries) && Shows(e, requests, entry)
    ensures Matches(exchanges + [e], built + [requests], entries + [entry])
  {
    assert (exchanges + [e])[..|exchanges|] == exchanges;
    assert (built + [requests])[..|built|] == built;
    assert (entries + [entry])[..|entries|] == entries;
  }

  lemma MatchesGivenUp(exchanges: seq<Exchange>, built: seq<seq<WireRequest>>, entries: seq<Entry>, baton: string)
    requires Matches(exchanges, built, entries)
    ensures Matches(exchanges, built, entries + [GivenUp(baton)])
  {
    assert (entries + [GivenUp(baton)])[..|entries|] == entries;
  }

  class HranaV2Conn {
    const server: Server
    var url: string
    var baton: string
    var streamClosed: bool
    var replicationIndex: nat
    // The base URL it was opened with, and everything it has done since.
    ghost const home: string
    ghost var actions: seq<Action>
    // The requests of every message it has sent, as the caller built them.
    ghost var built: seq<seq<WireRequest>>

    // The fields are what the run so far leads to, and the server has seen what the run says.
    ghost predicate Valid()
      reads this, server
    {
      && Run(home, actions).conn == State()
      && Matches(server.log, built, Run(home, actions).log)
    }

    // The server is the far side as this connection sees it.
    constructor (server: Server, url: string)
      requires server.log == []
      ensures Valid() && State() == Conn(url, "", false, 0)
      ensures this.server == server && home == url && actions == [] && built == []
    {
      this.server := server;
      this.url := url;
      baton := "";
      streamClosed := false;
      replicationIndex := 0;
      home := url;
      actions := [];
      built := [];
    }

    function State(): Conn
      reads this
    {
      Conn(url, baton, streamClosed, replicationIndex)
    }

    predicate IsValid()
      reads this
    {
      !streamClosed
    }

    method SendPipelineRequest(msg: PipelineRequest, streamClose: bool) returns (r: Result<PipelineResponse>)
      requires Valid() && OneContent(msg.requests)
      modifies this, server`log, msg, Batches(msg.requests)
      ensures Valid()
      ensures !old(IsValid()) ==> r.Err? && State() == old(State()) && server.log == old(server.log)
      ensures !old(IsValid()) ==> actions == old(actions) + [Send(old(msg.baton), streamClose, Unreachable)]
      ensures old(IsValid()) ==>
        && |server.log| == |old(server.log)| + 1 && server.log[..|old(server.log)|] == old(server.log)
        && var e := server.log[|old(server.log)|];
        && e.reply == server.replies(|old(server.log)|)
        && e.url == old(url) && e.wire.baton == (if old(baton) != "" then old(baton) else old(msg.baton))
        && IsExchange(old(State()), old(msg.baton), old(MarshalAll(msg.requests)), streamClose, e, State())
        && actions == old(actions) + [Send(old(msg.baton), streamClose, e.reply)]
        && built == old(built) + [old(MarshalAll(msg.requests))]
        && if e.reply.Answer? then r == Ok(e.reply.response) else r.Err?
      ensures SameButIndex(msg.requests, old(msg.requests))
      ensures forall b :: b in old(Batches(msg.requests)) ==> b.steps == old(b.steps)
    {
      RunSnoc(home, actions, Send(msg.baton, streamClose, Unreachable));
      if streamClosed {
        actions := actions + [Send(msg.baton, streamClose, Unreachable)];
        return Err("stream is closed");
      }
      ghost var own, unsent, before, c := msg.baton, MarshalAll(msg.requests), server.log, State();
      var reply := Transmit(msg);
      RunSnoc(home, actions, Send(own, streamClose, reply));
      MatchesSnoc(before, built, Run(home, actions).log, server.log[|before|], unsent,
                  Sent(c.url, Carried(c, own), c.replicationIndex, streamClose, reply));
      r := Receive(reply, streamClose);
      actions := actions + [Send(own, streamClose, reply)];
      built := built + [unsent];
    }

    // Prepares a message and posts it.
    method Transmit(msg: PipelineRequest) returns (reply: Reply)
      requires OneContent(msg.requests)
      modifies server`log, msg, Batches(msg.requests)
      ensures reply == server.replies(|old(server.log)|)
      ensures server.log == old(server.log)
        + [Exchange(url, Wire(Carried(State(), old(msg.baton)),
                              WithIndexes(old(MarshalAll(msg.requests)), replicationIndex)), reply)]
      ensures SameButIndex(msg.requests, old(msg.requests))
      ensures forall b :: b in old(Batches(msg.requests)) ==> b.steps == old(b.steps)
    {
      Prepare(msg);
      var requests := MarshalAll(msg.requests);
      reply := server.Post(url, Wire(msg.baton, requests));
    }

    // Sends a message whose requests must all succeed.
    method ExecuteMsg(msg: PipelineRequest) returns (r: Result<PipelineResponse>)
      requires Valid() && OneContent(msg.requests)
      modifies this, server`log, msg, Batches(msg.requests)
      ensures Valid()
      ensures !old(IsValid()) ==> r.Err? && State() == old(State()) && server.log == old(server.log)
      ensures !old(IsValid()) ==> actions == old(actions) + [Send(old(msg.baton), false, Unreachable)]
      ensures old(IsValid()) ==>
        && |server.log| == |old(server.log)| + 1 && server.log[..|old(server.log)|] == old(server.log)
        && var e := server.log[|old(server.log)|];
        && e.reply == server.replies(|old(server.log)|)
        && IsExchange(old(State()), old(msg.baton), old(MarshalAll(msg.requests)), false, e, State())
        && actions == old(actions) + [Send(old(msg.baton), false, e.reply)]
        && built == old(built) + [old(MarshalAll(msg.requests))]
        && if Succeeds(e.reply) then r == Ok(e.reply.response) else r.Err?
      ensures SameButIndex(msg.requests, old(msg.requests))
      ensures forall b :: b in old(Batches(msg.requests)) ==> b.steps == old(b.steps)
    {
      r := SendPipelineRequest(msg, false);
      if r.Err? {
        return;
      }
      var error := FirstFailure(r.value.results);
      if error.Some? {
        r := Err(error.value);
      }
    }

    // Gives the stream up: a close request goes out in the background.
    method CloseStream()
      requires Valid()
      modifies this, server`closed
      ensures Valid() && actions == old(actions) + [ConnectionRuns.CloseStream]
      ensures State() == old(State()).(baton := "")
      ensures server.closed == old(server.closed) + if old(baton) != "" then [old(baton)] else []
    {
      RunSnoc(home, actions, ConnectionRuns.CloseStream);
      MatchesGivenUp(server.log, built, Run(home, actions).log, baton);
      if baton != "" {
        server.PostClose(baton);
        baton := "";
      }
      actions := actions + [ConnectionRuns.CloseStream];
    }

    // Puts the connection's baton and index on a message.
    method Prepare(msg: PipelineRequest)
      requires OneContent(msg.requests)
      modifies msg, Batches(msg.requests)
      ensures msg.baton == Carried(State(), old(msg.baton))
      ensures SameButIndex(msg.requests, old(msg.requests))
      ensures forall b :: b in old(Batches(msg.requests)) ==> b.steps == old(b.steps)
      ensures MarshalAll(msg.requests) == WithIndexes(old(MarshalAll(msg.requests)), replicationIndex)
    {
      TakeBaton(msg);
      if replicationIndex > 0 {
        AddReplicationIndex(msg, replicationIndex);
      } else {
        WithNoIndex(MarshalAll(msg.requests));
      }
    }

    method TakeBaton(msg: PipelineRequest)
      modifies msg`baton
      ensures msg.baton == Carried(State(), old(msg.baton))
      ensures MarshalAll(msg.requests) == old(MarshalAll(msg.requests))
    {
      if baton != "" {
        msg.baton := baton;
      }
      forall j | 0 <= j < |msg.requests|
        ensures MarshalRequest(msg.requests[j]) == old(MarshalRequest(msg.requests[j]))
      {
      }
    }

    // Takes in what came back.
    method Receive(reply: Reply, streamClose: bool) returns (r: Result<PipelineResponse>)
      modifies this`url, this`baton, this`streamClosed, this`replicationIndex
      ensures State() == Received(old(State()), streamClose, reply)
      ensures if reply.Answer? then r == Ok(reply.response) else r.Err?
    {
      if reply.Refused? {
        streamClosed := true;
      }
      if !reply.Answer? {
        return Err(if reply.Refused? then reply.message else "request failed");
      }
      var result := reply.response;
      baton := result.baton;
      if result.baton == "" && !streamClose {
        streamClosed := true;
      }
      if result.baseUrl != "" {
        url := result.baseUrl;
      }
      var idx := GetReplicationIndex(result.results);
      if idx > replicationIndex {
        replicationIndex := idx;
      }
      r := Ok(result);
    }
  }

  lemma RunSnoc(url: string, actions: seq<Action>, a: Action)
    ensures Run(url, actions + [a]) == Act(Run(url, actions), a)
  {
    assert (actions + [a])[..|actions|] == actions;
  }

  // The largest index that the responses of these exchanges report.
  function MaxAnswered(exchanges: seq<Exchange>): nat {
    if exchanges == [] then 0
    else
      var before, reply := MaxAnswered(exchanges[..|exchanges| - 1]), exchanges[|exchanges| - 1].reply;
      if reply.Answer? then Max(before, MaxIndex(reply.response.results)) else before
  }

  // Exchange j is the entry at position k of the run, and reports the index as the server's log does.
  lemma {:induction false} ExchangeInRun(exchanges: seq<Exchange>, built: seq<seq<WireRequest>>, entries: seq<Entry>,
                                         j: nat) returns (k: nat)
    requires Matches(exchanges, built, entries) && j < |exchanges|
    ensures |built| == |exchanges| && k < |entries| && Shows(exchanges[j], built[j], entries[k])
    ensures Matches(exchanges[..j], built[..j], entries[..k])
    decreases |entries|
  {
    MatchesCounts(exchanges, built, entries);
    var init, last := entries[..|entries| - 1], entries[|entries| - 1];
    if last.GivenUp? {
      k := ExchangeInRun(exchanges, built, init, j);
      assert init[..k] == entries[..k];
    } else if j < |exchanges| - 1 {
      var n := |exchanges| - 1;
      k := ExchangeInRun(exchanges[..n], built[..n], init, j);
      assert init[..k] == entries[..k];
      assert exchanges[..n][..j] == exchanges[..j] && built[..n][..j] == built[..j];
    } else {
      k := |entries| - 1;
    }
  }

  lemma {:induction false} MatchesCounts(exchanges: seq<Exchange>, built: seq<seq<WireRequest>>, entries: seq<Entry>)
    requires Matches(exchanges, built, entries)
    ensures |built| == |exchanges| && MaxAnswered(exchanges) == MaxReported(entries)
    decreases |entries|
  {
    if entries != [] {
      var init, last := entries[..|entries| - 1], entries[|entries| - 1];
      if last.GivenUp? {
        MatchesCounts(exchanges, built, init);
      } else {
        MatchesCounts(exchanges[..|exchanges| - 1], built[..|built| - 1], init);
      }
    }
  }

  // Every request a connection has sent is in step with the responses before it: request j of the
  // server's log is the entry at position k of the run, goes to the URL in force, carries the latest
  // baton, and tells of the largest index that the responses before it reported.
  lemma {:induction false} ConnectionStaysInStep(h: HranaV2Conn, j: nat) returns (k: nat)
    requires h.Valid() && NothingAfterLoss(h.home, h.actions) && j < |h.server.log|
    ensures var entries := Run(h.home, h.actions).log;
      && |h.built| == |h.server.log| && k < |entries|
      && Shows(h.server.log[j], h.built[j], entries[k]) && InStep(h.home, entries, k)
      && entries[k].index == MaxAnswered(h.server.log[..j])
  {
    var entries := Run(h.home, h.actions).log;
    k := ExchangeInRun(h.server.log, h.built, entries, j);
    MatchesCounts(h.server.log[..j], h.built[..j], entries[..k]);
    AffinityExactly(h.home, h.actions);
    assert InStep(h.home, entries, k);
  }

  // The same, seen from the object: when its callers never say that a request closes the stream, it is
  // valid if and only if the server has answered nothing with an error status or without a baton; and
  // only the last exchange can have been answered so.
  lemma {:induction false} ValidExactly(h: HranaV2Conn)
    requires h.Valid() && NeverCloses(h.actions)
    ensures h.IsValid() <==> forall j :: 0 <= j < |h.server.log| ==> !ClosesStream(h.server.log[j].reply)
    ensures forall j :: 0 <= j < |h.server.log| - 1 ==> !ClosesStream(h.server.log[j].reply)
  {
    var entries := Run(h.home, h.actions).log;
    ClosedExactly(h.home, h.actions);
    NoneCloses(h.home, h.actions);
    EndsMatch(h.server.log, h.built, entries);
  }

  predicate ClosesStream(reply: Reply) {
    reply.Refused? || (reply.Answer? && reply.response.baton == "")
  }

  lemma {:induction false} NoneCloses(url: string, actions: seq<Action>)
    requires NeverCloses(actions)
    ensures forall e :: e in Run(url, actions).log && e.Sent? ==> !e.closes
  {
    if actions != [] {
      var init, last := actions[..|actions| - 1], actions[|actions| - 1];
      NoneCloses(url, init);
      assert Act(Run(url, init), last).log == Run(url, init).log + Added(Run(url, init), last);
    }
  }

  // The exchanges end the stream as the entries do.
  lemma {:induction false} EndsMatch(exchanges: seq<Exchange>, built: seq<seq<WireRequest>>, entries: seq<Entry>)
    requires Matches(exchanges, built, entries) && NothingAfterEnd(entries)
    requires forall e :: e in entries && e.Sent? ==> !e.closes
    ensures Ended(entries) <==> exists j :: 0 <= j < |exchanges| && ClosesStream(exchanges[j].reply)
    ensures forall j :: 0 <= j < |exchanges| - 1 ==> !ClosesStream(exchanges[j].reply)
    decreases |entries|
  {
    if entries != [] {
      var init, last := entries[..|entries| - 1], entries[|entries| - 1];
      assert entries == init + [last];
      EndedSnoc(init, last);
      if last.GivenUp? {
        EndsMatch(exchanges, built, init);
      } else {
        var n := |exchanges| - 1;
        EndsMatch(exchanges[..n], built[..|built| - 1], init);
        assert last in entries;
        assert !Ended(init) && (EndsStream(last) <==> ClosesStream(exchanges[n].reply));
        forall j | 0 <= j < n
          ensures !ClosesStream(exchanges[j].reply)
        {
          assert exchanges[..n][j] == exchanges[j];
        }
      }
    }
  }

  // A request as it was built, and as it went out when the connection knew this index.
  predicate CarriesIndex(built: WireRequest, wire: WireRequest, index: nat) {
    match built
    case WireExecute(stmt) =>
      wire == if index > 0 && stmt.replicationIndex.None?
        then WireExecute(stmt.(replicationIndex := Some(index))) else built
    case WireBatch(steps, own) =>
      wire == if index > 0 && own.None? then WireBatch(steps, Some(index)) else built
    case WireOther(_) => wire == built
  }

  // In every run, each request that was built without an index went out with the largest one that the
  // responses before it reported, if there was one; any other went out as it was built.
  lemma {:induction false} FreshRequestsCarryTheIndex(h: HranaV2Conn, j: nat, i: nat)
    requires h.Valid() && NothingAfterLoss(h.home, h.actions) && j < |h.server.log|
    requires j < |h.built| && i < |h.built[j]|
    ensures i < |h.server.log[j].wire.requests|
    ensures CarriesIndex(h.built[j][i], h.server.log[j].wire.requests[i], MaxAnswered(h.server.log[..j]))
  {
    var k := ConnectionStaysInStep(h, j);
  }

  lemma WithNoIndex(ws: seq<WireRequest>)
    ensures WithIndexes(ws, 0) == ws
  {
    forall i | 0 <= i < |ws|
      ensures WithIndexes(ws, 0)[i] == ws[i]
    {
    }
  }
}
