// Long scripts are sent in chunks: BEGIN, batches that reuse one buffer and one batch object, COMMIT.
module Chunks {
  import opened Wrappers
  import opened Sequences
  import opened Tokens
  import opened SplitSpec
  import opened StatementIterators
  import opened Values
  import opened Hrana
  import opened Results
  import opened ConnectionRuns
  import opened Connection

  // ---- which statements are sent -------------------------------------------------------------

  predicate StartsWith(stmt: string, pattern: string) {
    |stmt| >= |pattern| && ToLower(stmt[..|pattern|]) == pattern
  }

  predicate IsTransactionStatement(stmt: string) {
    StartsWith(stmt, "begin") || StartsWith(stmt, "commit") || StartsWith(stmt, "end") || StartsWith(stmt, "rollback")
  }

  // The words letter by letter, in any case.
  predicate SaysBegin(s: string) {
    && |s| >= 5 && s[0] in {'b', 'B'} && s[1] in {'e', 'E'} && s[2] in {'g', 'G'} && s[3] in {'i', 'I'}
    && s[4] in {'n', 'N'}
  }

  predicate SaysCommit(s: string) {
    && |s| >= 6 && s[0] in {'c', 'C'} && s[1] in {'o', 'O'} && s[2] in {'m', 'M'} && s[3] in {'m', 'M'}
    && s[4] in {'i', 'I'} && s[5] in {'t', 'T'}
  }

  predicate SaysEnd(s: string) {
    |s| >= 3 && s[0] in {'e', 'E'} && s[1] in {'n', 'N'} && s[2] in {'d', 'D'}
  }

  predicate SaysRollback(s: string) {
    && |s| >= 8 && s[0] in {'r', 'R'} && s[1] in {'o', 'O'} && s[2] in {'l', 'L'} && s[3] in {'l', 'L'}
    && s[4] in {'b', 'B'} && s[5] in {'a', 'A'} && s[6] in {'c', 'C'} && s[7] in {'k', 'K'}
  }

  // The text begins with one of the four transaction words.
  predicate SaysTransaction(s: string) {
    SaysBegin(s) || SaysCommit(s) || SaysEnd(s) || SaysRollback(s)
  }

  lemma LowerIs(c: char, small: char)
    requires 'a' <= small <= 'z'
    ensures Lower(c) == small <==> c == small || c as int == small as int - 32
  {
  }

  // A pattern of small letters is found exactly when the text has them, small or capital.
  lemma {:induction false} StartsWithLetters(s: string, pattern: string)
    requires forall i :: 0 <= i < |pattern| ==> 'a' <= pattern[i] <= 'z'
    ensures StartsWith(s, pattern) <==>
      |s| >= |pattern|
      && forall i :: 0 <= i < |pattern| ==> s[i] == pattern[i] || s[i] as int == pattern[i] as int - 32
  {
    if |s| >= |pattern| {
      var head := s[..|pattern|];
      forall i | 0 <= i < |pattern|
        ensures ToLower(head)[i] == pattern[i] <==> s[i] == pattern[i] || s[i] as int == pattern[i] as int - 32
      {
        ToLowerAt(head, i);
        LowerIs(s[i], pattern[i]);
      }
    }
  }

  lemma BeginLetters(s: string)
    ensures StartsWith(s, "begin") <==> SaysBegin(s)
  {
    StartsWithLetters(s, "begin");
  }

  lemma CommitLetters(s: string)
    ensures StartsWith(s, "commit") <==> SaysCommit(s)
  {
    StartsWithLetters(s, "commit");
  }

  lemma EndLetters(s: string)
    ensures StartsWith(s, "end") <==> SaysEnd(s)
  {
    StartsWithLetters(s, "end");
  }

  lemma RollbackLetters(s: string)
    ensures StartsWith(s, "rollback") <==> SaysRollback(s)
  {
    StartsWithLetters(s, "rollback");
  }

  // Exactly the statements that begin with BEGIN, COMMIT, END or ROLLBACK are taken for transaction
  // statements.
  lemma TransactionWordsExactly(s: string)
    ensures IsTransactionStatement(s) <==> SaysTransaction(s)
  {
    BeginLetters(s);
    CommitLetters(s);
    EndLetters(s);
    RollbackLetters(s);
  }

  // Transaction statements are left out: chunks run in a transaction of their own.
  function Wanted(stmts: seq<string>): seq<string> {
    if stmts == [] then []
    else (if IsTransactionStatement(stmts[0]) then [] else [stmts[0]]) + Wanted(stmts[1..])
  }

  lemma {:induction false} WantedAppend(a: seq<string>, b: seq<string>)
    ensures Wanted(a + b) == Wanted(a) + Wanted(b)
  {
    if a == [] {
      assert a + b == b;
    } else {
      WantedAppend(a[1..], b);
      assert (a + b)[1..] == a[1..] + b;
      Associative(if IsTransactionStatement(a[0]) then [] else [a[0]], Wanted(a[1..]), Wanted(b));
    }
  }

  // The positions of the statements that begin with none of the words.
  ghost function SentPositions(stmts: seq<string>): (positions: seq<nat>)
    ensures forall j :: 0 <= j < |positions| ==> positions[j] < |stmts| && !SaysTransaction(stmts[positions[j]])
    ensures forall i, j :: 0 <= i < j < |positions| ==> positions[i] < positions[j]
    ensures forall i :: 0 <= i < |stmts| && !SaysTransaction(stmts[i]) ==> i in positions
  {
    if stmts == [] then []
    else
      SentPositions(stmts[..|stmts| - 1])
      + if SaysTransaction(stmts[|stmts| - 1]) then [] else [|stmts| - 1]
  }

  // Of the statements of a text exactly those are sent, once and in order.
  lemma {:induction false} SentExactly(stmts: seq<string>)
    ensures |Wanted(stmts)| == |SentPositions(stmts)|
    ensures forall j :: 0 <= j < |Wanted(stmts)| ==> Wanted(stmts)[j] == stmts[SentPositions(stmts)[j]]
  {
    if stmts != [] {
      var init, last := stmts[..|stmts| - 1], stmts[|stmts| - 1];
      SentExactly(init);
      TransactionWordsExactly(last);
      WantedAppend(init, [last]);
      assert [last][1..] == [] && init + [last] == stmts;
    }
  }

  // ---- the chunker ---------------------------------------------------------------------------

  class Chunker {
    const splitter: StatementIterator
    const limit: nat
    // The chunk is the first len cells of a buffer that every call overwrites.
    const cells: array<string>
    var len: nat

    ghost predicate Valid()
      reads this, splitter, splitter.tokenizer, splitter.tokenizer.source, splitter.tokenizer.tokens
    {
      && splitter.Valid()
      && cells.Length == limit && len <= limit
    }

    // What is still to be sent.
    ghost function Left(): seq<string>
      requires Valid()
      reads this, splitter, splitter.tokenizer, splitter.tokenizer.source, splitter.tokenizer.tokens
    {
      Wanted(Texts(splitter.Input(), Split(splitter.Remaining())))
    }

    ghost function Footprint(): set<object> {
      {this, cells} + splitter.Footprint()
    }

    constructor (splitter: StatementIterator, limit: nat)
      requires splitter.Valid()
      ensures Valid() && fresh(this) && fresh(cells)
      ensures this.splitter == splitter && this.limit == limit
      ensures Left() == Wanted(Texts(splitter.Input(), Split(splitter.Remaining())))
    {
      this.splitter := splitter;
      this.limit := limit;
      cells := new string[limit](_ => "");
      len := 0;
    }

    // A chunk shorter than the limit is the last one.
    method Next() returns (isEOF: bool)
      requires Valid()
      modifies Footprint()
      ensures Valid()
      ensures cells[..len] + Left() == old(Left())
      ensures len < limit ==> isEOF
      ensures isEOF ==> Left() == []
      ensures 0 < limit && !isEOF ==> |splitter.Remaining()| < |old(splitter.Remaining())|
    {
      Empty();
      isEOF := false;
      while !isEOF && len < limit
        invariant Valid()
        invariant cells[..len] + Left() == old(Left())
        invariant isEOF ==> Left() == []
        invariant |splitter.Remaining()| <= |old(splitter.Remaining())|
        invariant 0 < len && !isEOF ==> |splitter.Remaining()| < |old(splitter.Remaining())|
        decreases !isEOF, |splitter.Remaining()|
      {
        isEOF := Pull();
      }
    }

    method Empty()
      requires Valid()
      modifies this`len
      ensures Valid() && len == 0
      ensures cells[..len] + Left() == old(Left()) && splitter.Remaining() == old(splitter.Remaining())
    {
      len := 0;
    }

    // One turn of the loop: a statement moves from what is left to the chunk, or is dropped.
    method Pull() returns (isEOF: bool)
      requires Valid() && len < limit
      modifies Footprint()
      ensures Valid() && cells[..len] + Left() == old(cells[..len] + Left())
      ensures if isEOF then Left() == [] && |splitter.Remaining()| <= |old(splitter.Remaining())|
              else |splitter.Remaining()| < |old(splitter.Remaining())|
    {
      ghost var before, left := cells[..len], Left();
      var stmt;
      stmt, isEOF := NextStatement();
      Keep(stmt);
      Associative(before, Kept(stmt), Left());
      assert left == Kept(stmt) + Left() && cells[..len] == before + Kept(stmt);
    }

    // One statement from the splitter.
    method NextStatement() returns (stmt: string, isEOF: bool)
      requires Valid()
      modifies splitter.Footprint()
      ensures Valid() && cells[..len] == old(cells[..len]) && len == old(len)
      ensures old(Left()) == Kept(stmt) + Left()
      ensures if isEOF then Left() == [] && |splitter.Remaining()| <= |old(splitter.Remaining())|
              else |splitter.Remaining()| < |old(splitter.Remaining())|
    {
      ghost var ts := splitter.Remaining();
      assert this !in splitter.Footprint() && cells !in splitter.Footprint();
      var info;
      stmt, info, isEOF := splitter.Next();
      assert splitter.Valid() && len == old(len);
      NextWanted(splitter.Input(), ts, stmt, isEOF);
    }

    // Appends a statement to the chunk if it is one to be sent.
    method Keep(stmt: string)
      requires Valid() && len < limit
      modifies this`len, cells
      ensures Valid() && cells[..len] == old(cells[..len]) + Kept(stmt)
      ensures Left() == old(Left()) && splitter.Remaining() == old(splitter.Remaining())
    {
      if stmt != "" && !IsTransactionStatement(stmt) {
        cells[len] := stmt;
        len := len + 1;
      }
    }
  }

  function Kept(stmt: string): seq<string> {
    if stmt != "" && !IsTransactionStatement(stmt) then [stmt] else []
  }

  lemma NextWanted(input: string, ts: seq<Token>, stmt: string, isEOF: bool)
    requires IsNext(input, ts, stmt, isEOF)
    ensures var rest := ts[NextCut(ts).used..];
      && Wanted(Texts(input, Split(ts))) == Kept(stmt) + Wanted(Texts(input, Split(rest)))
      && if isEOF then Wanted(Texts(input, Split(rest))) == [] else |rest| < |ts|
  {
    var rest := ts[NextCut(ts).used..];
    NextSplits(input, ts);
    WantedAppend(Texts(input, CutOut(ts)), Texts(input, Split(rest)));
    assert Wanted(Texts(input, CutOut(ts))) == Kept(stmt);
  }

  // ---- what is sent --------------------------------------------------------------------------

  function SqlOfSteps(steps: seq<Step<WireStmt>>): (sqls: seq<Option<string>>)
    ensures |sqls| == |steps| && forall i :: 0 <= i < |steps| ==> sqls[i] == steps[i].stmt.sql
  {
    if steps == [] then [] else SqlOfSteps(steps[..|steps| - 1]) + [steps[|steps| - 1].stmt.sql]
  }

  function SqlOf(w: WireRequest): seq<Option<string>> {
    match w
    case WireExecute(stmt) => [stmt.sql]
    case WireBatch(steps, _) => SqlOfSteps(steps)
    case WireOther(_) => []
  }

  // The statements of an exchange that holds a single request.
  function SqlOfExchange(e: Exchange): seq<Option<string>> {
    if |e.wire.requests| == 1 then SqlOf(e.wire.requests[0]) else []
  }

  function ResultsOf(e: Exchange): seq<StreamResult> {
    if e.reply.Answer? then e.reply.response.results else []
  }

  // One plain request: a statement without arguments, or a batch of at most limit of them that all
  // run unconditionally.
  predicate IsPlain(w: WireRequest, wantRows: bool, limit: nat) {
    match w
    case WireExecute(stmt) => stmt.args == [] && stmt.namedArgs == [] && stmt.wantRows == wantRows
    case WireBatch(steps, _) =>
      |steps| <= limit && forall i :: 0 <= i < |steps| ==>
        && steps[i].condition.None? && steps[i].stmt.wantRows == wantRows
        && steps[i].stmt.args == [] && steps[i].stmt.namedArgs == []
    case WireOther(_) => false
  }

  // An exchange of a script: one plain request. BEGIN and COMMIT never ask for rows.
  predicate IsPlainExchange(e: Exchange, wantRows: bool, limit: nat) {
    && |e.wire.requests| == 1
    && (IsPlain(e.wire.requests[0], wantRows, limit)
        || (e.wire.requests[0].WireExecute? && IsPlain(e.wire.requests[0], false, limit)))
  }

  // What went out in some exchanges, what came back, and whether they were all plain.
  datatype Summary = Summary(sqls: seq<Option<string>>, results: seq<StreamResult>, plain: bool)

  function Combine(s: Summary, t: Summary): Summary {
    Summary(s.sqls + t.sqls, s.results + t.results, s.plain && t.plain)
  }

  function SentBy(e: Exchange, wantRows: bool, limit: nat): Summary {
    Summary(SqlOfExchange(e), ResultsOf(e), IsPlainExchange(e, wantRows, limit))
  }

  function AllSent(exchanges: seq<Exchange>, wantRows: bool, limit: nat): Summary {
    if exchanges == [] then Summary([], [], true)
    else Combine(AllSent(exchanges[..|exchanges| - 1], wantRows, limit),
                 SentBy(exchanges[|exchanges| - 1], wantRows, limit))
  }

  lemma CombineAssociative(s: Summary, t: Summary, u: Summary)
    ensures Combine(Combine(s, t), u) == Combine(s, Combine(t, u))
  {
    Associative(s.sqls, t.sqls, u.sqls);
    Associative(s.results, t.results, u.results);
  }

  lemma SentSnoc(exchanges: seq<Exchange>, e: Exchange, wantRows: bool, limit: nat)
    ensures AllSent(exchanges + [e], wantRows, limit) ==
      Combine(AllSent(exchanges, wantRows, limit), SentBy(e, wantRows, limit))
  {
    assert (exchanges + [e])[..|exchanges|] == exchanges;
  }

  lemma {:induction false} SentAppend(a: seq<Exchange>, b: seq<Exchange>, wantRows: bool, limit: nat)
    ensures AllSent(a + b, wantRows, limit) == Combine(AllSent(a, wantRows, limit), AllSent(b, wantRows, limit))
  {
    if b == [] {
      assert a + b == a;
    } else {
      var n := |b| - 1;
      SentAppend(a, b[..n], wantRows, limit);
      AppendSnoc(a, b);
      SentSnoc(a + b[..n], b[n], wantRows, limit);
      CombineAssociative(AllSent(a, wantRows, limit), AllSent(b[..n], wantRows, limit),
                         SentBy(b[n], wantRows, limit));
    }
  }

  lemma AppendSnoc<T>(a: seq<T>, b: seq<T>)
    requires b != []
    ensures a + b == (a + b[..|b| - 1]) + [b[|b| - 1]]
  {
  }

  // The log grew by one exchange that sends these statements and went well exactly when ok holds,
  // or nothing was sent.
  ghost predicate Grew(before: seq<Exchange>, after: seq<Exchange>, sqls: seq<Option<string>>, wantRows: bool,
                       limit: nat, ok: bool) {
    || (after == before && !ok)
    || (&& |after| == |before| + 1 && after[..|before|] == before
        && var e := after[|before|];
        && IsPlainExchange(e, wantRows, limit)
        && SqlOfExchange(e) == sqls
        && (ok <==> Succeeds(e.reply)))
  }

  predicate IsBatch(e: Exchange) {
    |e.wire.requests| == 1 && e.wire.requests[0].WireBatch?
  }

  // Attaching an index changes neither the statements nor the shape of a request.
  lemma ExchangeOfOne(c: Conn, own: string, w: WireRequest, e: Exchange, d: Conn, wantRows: bool, limit: nat)
    requires IsExchange(c, own, [w], false, e, d) && IsPlain(w, wantRows, limit)
    ensures |e.wire.requests| == 1 && IsPlain(e.wire.requests[0], wantRows, limit)
    ensures SqlOfExchange(e) == SqlOf(w) && IsBatch(e) == w.WireBatch?
  {
    assert e.wire.requests[0] == WithIndex(w, c.replicationIndex);
  }

  // The exchange carries this statement and nothing else.
  predicate CarriesAlone(e: Exchange, stmt: string) {
    |e.wire.requests| == 1 && e.wire.requests[0].WireExecute? && e.wire.requests[0].stmt.sql == Some(stmt)
  }

  // The log grew by an exchange with this statement alone, which went well exactly when ok holds, or
  // nothing was sent.
  ghost predicate GrewAlone(before: seq<Exchange>, after: seq<Exchange>, stmt: string, wantRows: bool, limit: nat,
                            ok: bool) {
    && Grew(before, after, [Some(stmt)], wantRows, limit, ok)
    && (after != before ==> CarriesAlone(after[|before|], stmt))
  }

  // The statement went out alone, and this is the response.
  ghost predicate SentAlone(before: seq<Exchange>, log: seq<Exchange>, stmt: string, wantRows: bool,
                            response: PipelineResponse) {
    && |log| == |before| + 1 && log[..|before|] == before
    && var e := log[|before|];
    && Succeeds(e.reply) && e.reply.response == response
    && |e.wire.requests| == 1 && e.wire.requests[0].WireExecute?
    && var w := e.wire.requests[0].stmt;
    && w == WireStmt(Some(stmt), [], [], wantRows, w.replicationIndex)
  }

  method ExecuteSingleStmt(h: HranaV2Conn, stmt: string, wantRows: bool) returns (r: Result<PipelineResponse>)
    requires h.Valid()
    modifies h, h.server`log
    ensures h.Valid()
    ensures GrewAlone(old(h.server.log), h.server.log, stmt, wantRows, 0, r.Ok?)
    ensures r.Ok? ==> SentAlone(old(h.server.log), h.server.log, stmt, wantRows, r.value)
  {
    var msg := new PipelineRequest();
    msg.Add(StreamRequest("execute", Some(StmtValue(Own(stmt), [], [], wantRows, None)), null));
    r := h.ExecuteMsg(msg);
  }

  // ---- one chunk -----------------------------------------------------------------------------

  // Steps as the loop leaves them: no condition, no arguments, and a pointer somewhere.
  predicate Blank(steps: seq<Step<StmtValue>>, wantRows: bool) {
    forall i :: 0 <= i < |steps| ==>
      && steps[i].condition.None?
      && steps[i].stmt == StmtValue(steps[i].stmt.sql, [], [], wantRows, None)
  }

  // The message of the chunks: one batch, shared with the code that fills it.
  ghost predicate Shares(msg: PipelineRequest, batch: Batch)
    reads msg
  {
    |msg.requests| == 1 && msg.requests[0].stmt.None? && msg.requests[0].batch == batch
  }

  // Points the steps of the batch at the cells of the chunk, and cuts the batch when the chunk is short.
  method FillBatch(batch: Batch, cells: array<string>, len: nat, wantRows: bool)
    requires len <= cells.Length == |batch.steps| && Blank(batch.steps, wantRows)
    modifies batch`steps
    ensures |batch.steps| == len && Blank(batch.steps, wantRows)
    ensures forall i :: 0 <= i < len ==> batch.steps[i].stmt.sql == Cell(cells, i)
  {
    for idx := 0 to len
      invariant |batch.steps| == cells.Length && Blank(batch.steps, wantRows)
      invariant forall i :: 0 <= i < idx ==> batch.steps[i].stmt.sql == Cell(cells, i)
    {
      var step := batch.steps[idx];
      batch.steps := batch.steps[idx := step.(stmt := step.stmt.(sql := Cell(cells, idx)))];
    }
    if len < cells.Length {
      batch.steps := batch.steps[..len];
    }
  }

  // A filled batch goes out with the text the cells hold now.
  lemma FilledBatchMarshals(batch: Batch, cells: array<string>, len: nat, wantRows: bool)
    requires len <= cells.Length && |batch.steps| == len && Blank(batch.steps, wantRows)
    requires forall i :: 0 <= i < len ==> batch.steps[i].stmt.sql == Cell(cells, i)
    ensures var steps := MarshalSteps(batch.steps);
      && SqlOfSteps(steps) == Somes(cells[..len])
      && IsPlain(WireBatch(steps, None), wantRows, cells.Length)
  {
  }

  method SendChunk(h: HranaV2Conn, msg: PipelineRequest, batch: Batch, cells: array<string>, len: nat, wantRows: bool)
    returns (r: Result<PipelineResponse>)
    requires h.Valid() && Shares(msg, batch)
    requires len <= cells.Length == |batch.steps| && Blank(batch.steps, wantRows)
    modifies h, h.server`log, msg, batch
    ensures h.Valid() && Shares(msg, batch)
    ensures |batch.steps| == len && Blank(batch.steps, wantRows)
    ensures Grew(old(h.server.log), h.server.log, Somes(cells[..len]), wantRows, cells.Length, r.Ok?)
    ensures r.Ok? ==>
      r.value == h.server.log[|old(h.server.log)|].reply.response && IsBatch(h.server.log[|old(h.server.log)|])
  {
    FillBatch(batch, cells, len, wantRows);
    FilledBatchMarshals(batch, cells, len, wantRows);
    assert batch in Batches(msg.requests);
    ghost var c, own := h.State(), msg.baton;
    ghost var w := MarshalRequest(msg.requests[0]);
    assert MarshalAll(msg.requests) == [w];
    ghost var valid := h.IsValid();
    r := h.ExecuteMsg(msg);
    if valid {
      ExchangeOfOne(c, own, w, h.server.log[|old(h.server.log)|], h.State(), wantRows, cells.Length);
    }
  }

  // ---- the whole script ----------------------------------------------------------------------

  // What the run of a script should send.
  function Script(texts: seq<string>, single: bool): seq<string> {
    if single then texts else ["BEGIN"] + texts + ["COMMIT"]
  }

  lemma SomesAppend(a: seq<string>, b: seq<string>)
    ensures Somes(a + b) == Somes(a) + Somes(b)
  {
  }

  // From log before on, exactly the statements `sent` have gone out, in plain requests and with these
  // results.
  ghost predicate HasSent(before: seq<Exchange>, log: seq<Exchange>, sent: seq<string>, results: seq<StreamResult>,
                          wantRows: bool, limit: nat) {
    && |before| <= |log| && log[..|before|] == before
    && AllSent(log[|before|..], wantRows, limit) == Summary(Somes(sent), results, true)
  }

  // From log before on, only statements from the head of the script have gone out.
  ghost predicate HasSentPart(before: seq<Exchange>, log: seq<Exchange>, script: seq<string>, wantRows: bool,
                              limit: nat) {
    && |before| <= |log| && log[..|before|] == before
    && var s := AllSent(log[|before|..], wantRows, limit);
    && s.sqls <= Somes(script) && s.plain
  }

  lemma NothingSent(log: seq<Exchange>, wantRows: bool, limit: nat)
    ensures HasSent(log, log, [], [], wantRows, limit)
  {
  }

  // First the statements a went out, then some of b.
  lemma JoinPart(before: seq<Exchange>, log: seq<Exchange>, log': seq<Exchange>, a: seq<string>, b: seq<string>,
                 results: seq<StreamResult>, wantRows: bool, limit: nat)
    requires HasSent(before, log, a, results, wantRows, limit) && HasSentPart(log, log', b, wantRows, limit)
    ensures HasSentPart(before, log', a + b, wantRows, limit)
  {
    JoinLogs(before, log, log', wantRows, limit);
    SomesAppend(a, b);
  }

  // First the statements a went out, then b.
  lemma JoinSent(before: seq<Exchange>, log: seq<Exchange>, log': seq<Exchange>, a: seq<string>, b: seq<string>,
                 results: seq<StreamResult>, more: seq<StreamResult>, wantRows: bool, limit: nat)
    requires HasSent(before, log, a, results, wantRows, limit) && HasSent(log, log', b, more, wantRows, limit)
    ensures HasSent(before, log', a + b, results + more, wantRows, limit)
  {
    JoinLogs(before, log, log', wantRows, limit);
    SomesAppend(a, b);
  }

  lemma JoinLogs(before: seq<Exchange>, log: seq<Exchange>, log': seq<Exchange>, wantRows: bool, limit: nat)
    requires |before| <= |log| <= |log'| && log[..|before|] == before && log'[..|log|] == log
    ensures log'[..|before|] == before
    ensures AllSent(log'[|before|..], wantRows, limit) ==
      Combine(AllSent(log[|before|..], wantRows, limit), AllSent(log'[|log|..], wantRows, limit))
  {
    assert log'[..|before|] == log'[..|log|][..|before|];
    assert log'[|before|..] == log[|before|..] + log'[|log|..];
    SentAppend(log[|before|..], log'[|log|..], wantRows, limit);
  }

  // One exchange: its statements went out, or none of them.
  lemma GrewHasSent(log: seq<Exchange>, log': seq<Exchange>, more: seq<string>, wantRows: bool, limit: nat, ok: bool)
    requires Grew(log, log', Somes(more), wantRows, limit, ok)
    ensures ok ==> |log'| == |log| + 1 && HasSent(log, log', more, ResultsOf(log'[|log|]), wantRows, limit)
    ensures HasSentPart(log, log', more, wantRows, limit)
  {
    NothingSent(log, wantRows, limit);
    if log' != log {
      assert log'[|log|..] == [] + [log'[|log|]];
      SentSnoc([], log'[|log|], wantRows, limit);
    }
  }

  lemma PartOfMore(before: seq<Exchange>, log: seq<Exchange>, script: seq<string>, more: seq<string>, wantRows: bool,
                   limit: nat)
    requires HasSentPart(before, log, script, wantRows, limit)
    ensures HasSentPart(before, log, script + more, wantRows, limit)
  {
    SomesAppend(script, more);
  }

  // A step of a script: the next statements go out, or the run stops in front of them or with them.
  lemma Sends(before: seq<Exchange>, log: seq<Exchange>, log': seq<Exchange>, sent: seq<string>, more: seq<string>,
              results: seq<StreamResult>, wantRows: bool, limit: nat, ok: bool)
    requires HasSent(before, log, sent, results, wantRows, limit) && Grew(log, log', Somes(more), wantRows, limit, ok)
    ensures ok ==>
      |log'| == |log| + 1 && HasSent(before, log', sent + more, results + ResultsOf(log'[|log|]), wantRows, limit)
    ensures HasSentPart(before, log', sent + more, wantRows, limit)
  {
    GrewHasSent(log, log', more, wantRows, limit, ok);
    JoinPart(before, log, log', sent, more, results, wantRows, limit);
    if ok {
      JoinSent(before, log, log', sent, more, results, ResultsOf(log'[|log|]), wantRows, limit);
    }
  }

  // The log grew by one batch that carries this chunk.
  ghost predicate SentChunk(log: seq<Exchange>, log': seq<Exchange>, chunk: seq<string>) {
    && |log'| == |log| + 1 && log'[..|log|] == log
    && IsBatch(log'[|log|]) && SqlOfExchange(log'[|log|]) == Somes(chunk)
  }

  function FirstChunk(texts: seq<string>, limit: nat): (chunk: seq<string>)
    ensures |chunk| <= |texts|
  {
    if |texts| <= limit then texts else texts[..limit]
  }

  // The first exchange since `before` is a batch that carries as many of the texts as a chunk can hold.
  ghost predicate FirstIsFull(before: seq<Exchange>, log: seq<Exchange>, texts: seq<string>, limit: nat) {
    |before| < |log| && IsBatch(log[|before|]) && SqlOfExchange(log[|before|]) == Somes(FirstChunk(texts, limit))
  }

  lemma FirstTurn(before: seq<Exchange>, log: seq<Exchange>, log': seq<Exchange>, texts: seq<string>,
                  done: seq<string>, chunk: seq<string>, left: seq<string>, limit: nat)
    requires SentChunk(log, log', chunk) && |before| <= |log|
    requires texts == done + (chunk + left) && |chunk| <= limit && (|chunk| < limit ==> left == [])
    requires if |log| == |before| then done == [] else FirstIsFull(before, log, texts, limit)
    ensures FirstIsFull(before, log', texts, limit)
  {
    if |log| == |before| {
      assert texts == chunk + left;
      assert FirstChunk(texts, limit) == chunk;
    } else {
      assert log'[|before|] == log[|before|];
    }
  }

  // Sends the current chunk, when `done` has gone out since the log was `before`.
  method SendCurrent(h: HranaV2Conn, msg: PipelineRequest, batch: Batch, chunker: Chunker, wantRows: bool,
                     ghost before: seq<Exchange>, ghost done: seq<string>, ghost got: seq<StreamResult>)
    returns (res: Result<PipelineResponse>)
    requires {h, h.server, msg, batch} !! chunker.Footprint()
    requires h.Valid() && Shares(msg, batch) && chunker.Valid()
    requires |batch.steps| == chunker.limit && Blank(batch.steps, wantRows)
    requires HasSent(before, h.server.log, done, got, wantRows, chunker.limit)
    modifies h, h.server`log, msg, batch
    ensures h.Valid() && Shares(msg, batch) && chunker.Valid()
    ensures |batch.steps| == chunker.len && Blank(batch.steps, wantRows)
    ensures res.Ok? ==> SentChunk(old(h.server.log), h.server.log, chunker.cells[..chunker.len])
    ensures res.Ok? ==> HasSent(before, h.server.log, done + chunker.cells[..chunker.len], got + res.value.results,
                                wantRows, chunker.limit)
    ensures res.Err? ==> HasSentPart(before, h.server.log, done + chunker.cells[..chunker.len], wantRows, chunker.limit)
  {
    ghost var log, chunk := h.server.log, chunker.cells[..chunker.len];
    res := SendChunk(h, msg, batch, chunker.cells, chunker.len, wantRows);
    Sends(before, log, h.server.log, done, chunk, got, wantRows, chunker.limit, res.Ok?);
  }

  // The batch and the chunk stand ready for the next send.
  ghost predicate Ready(h: HranaV2Conn, msg: PipelineRequest, batch: Batch, chunker: Chunker, wantRows: bool,
                        lastChunk: bool)
    reads h, h.server, msg, batch, chunker, chunker.splitter, chunker.splitter.tokenizer,
          chunker.splitter.tokenizer.source, chunker.splitter.tokenizer.tokens
  {
    && h.Valid() && Shares(msg, batch) && chunker.Valid() && 0 < chunker.limit
    && |batch.steps| == chunker.limit && Blank(batch.steps, wantRows)
    && (chunker.len < chunker.limit ==> lastChunk)
    && (lastChunk ==> chunker.Left() == [])
  }

  // One turn of the loop: send the chunk, and fetch the next one unless this was the last.
  method Turn(h: HranaV2Conn, msg: PipelineRequest, batch: Batch, chunker: Chunker, wantRows: bool, lastChunk: bool,
              ghost before: seq<Exchange>, ghost done: seq<string>, ghost got: seq<StreamResult>,
              ghost script: seq<string>)
    returns (res: Result<PipelineResponse>, isEOF: bool, ghost sent: seq<string>)
    requires {h, h.server, msg, batch} !! chunker.Footprint()
    requires Ready(h, msg, batch, chunker, wantRows, lastChunk)
    requires HasSent(before, h.server.log, done, got, wantRows, chunker.limit)
    requires script == done + (chunker.cells[..chunker.len] + chunker.Left())
    modifies h, h.server`log, msg, batch, chunker.Footprint()
    ensures h.Valid()
    ensures res.Err? ==> HasSentPart(before, h.server.log, script, wantRows, chunker.limit)
    ensures res.Ok? ==> SentChunk(old(h.server.log), h.server.log, old(chunker.cells[..chunker.len]))
    ensures res.Ok? ==> HasSent(before, h.server.log, sent, got + res.value.results, wantRows, chunker.limit)
    ensures res.Ok? && lastChunk ==> sent == script
    ensures res.Ok? && !lastChunk ==>
      && Ready(h, msg, batch, chunker, wantRows, isEOF)
      && script == sent + (chunker.cells[..chunker.len] + chunker.Left())
      && (isEOF || |chunker.splitter.Remaining()| < |old(chunker.splitter.Remaining())|)
  {
    ghost var chunk, left := chunker.cells[..chunker.len], chunker.Left();
    isEOF := lastChunk;
    res := SendCurrent(h, msg, batch, chunker, wantRows, before, done, got);
    Associative(done, chunk, left);
    sent := done + chunk;
    if res.Err? {
      PartOfMore(before, h.server.log, sent, left, wantRows, chunker.limit);
    } else if !lastChunk {
      isEOF := chunker.Next();
    }
  }

  // Sends the current chunk and then chunk after chunk, down to the last of the texts.
  method SendChunks(h: HranaV2Conn, msg: PipelineRequest, batch: Batch, chunker: Chunker, wantRows: bool,
                    lastChunk: bool, ghost texts: seq<string>)
    returns (ok: bool, result: PipelineResponse)
    requires {h, h.server, msg, batch} !! chunker.Footprint()
    requires Ready(h, msg, batch, chunker, wantRows, lastChunk)
    requires texts == chunker.cells[..chunker.len] + chunker.Left()
    modifies h, h.server`log, msg, batch, chunker.Footprint()
    ensures h.Valid()
    ensures if ok then HasSent(old(h.server.log), h.server.log, texts, result.results, wantRows, chunker.limit)
            else HasSentPart(old(h.server.log), h.server.log, texts, wantRows, chunker.limit)
    ensures ok ==> FirstIsFull(old(h.server.log), h.server.log, texts, chunker.limit)
  {
    ghost var before, done := h.server.log, [];
    var isEOF := lastChunk;
    result := PipelineResponse("", "", []);
    NothingSent(before, wantRows, chunker.limit);
    assert texts == done + texts;
    while true
      invariant Ready(h, msg, batch, chunker, wantRows, isEOF)
      invariant HasSent(before, h.server.log, done, result.results, wantRows, chunker.limit)
      invariant texts == done + (chunker.cells[..chunker.len] + chunker.Left())
      invariant if |h.server.log| == |before| then done == []
                else FirstIsFull(before, h.server.log, texts, chunker.limit)
      decreases !isEOF, |chunker.splitter.Remaining()|
    {
      var last := isEOF;
      var res;
      ghost var log, sent := h.server.log, done;
      ghost var chunk, left := chunker.cells[..chunker.len], chunker.Left();
      res, isEOF, done := Turn(h, msg, batch, chunker, wantRows, last, before, done, result.results, texts);
      if res.Err? {
        return false, result;
      }
      FirstTurn(before, log, h.server.log, texts, sent, chunk, left, chunker.limit);
      result := res.value.(results := result.results + res.value.results);
      if last {
        return true, result;
      }
    }
  }

  // The one batch object for all the chunks: as many steps as a chunk can hold.
  method NewBatch(chunkSize: nat, wantRows: bool) returns (batch: Batch)
    ensures fresh(batch) && |batch.steps| == chunkSize && Blank(batch.steps, wantRows)
  {
    batch := new Batch();
    batch.steps := seq(chunkSize, _ => Step(StmtValue(NoSql, [], [], false, None), None));
    for idx := 0 to chunkSize
      invariant |batch.steps| == chunkSize
      invariant forall i :: 0 <= i < chunkSize ==>
        batch.steps[i] == Step(StmtValue(NoSql, [], [], if i < idx then wantRows else false, None), None)
    {
      var step := batch.steps[idx];
      batch.steps := batch.steps[idx := step.(stmt := step.stmt.(wantRows := wantRows))];
    }
  }

  // A whole script went out between two states of the log: BEGIN alone and with success, then the texts
  // with these results, as many as fit in the first batch, then COMMIT alone and with success.
  ghost predicate RanScript(before: seq<Exchange>, log: seq<Exchange>, texts: seq<string>, results: seq<StreamResult>,
                            wantRows: bool, limit: nat) {
    && |before| + 3 <= |log|
    && FirstIsFull(log[..|before| + 1], log[..|log| - 1], texts, limit)
    && var first, last := log[|before|], log[|log| - 1];
    && CarriesAlone(first, "BEGIN") && Succeeds(first.reply)
    && CarriesAlone(last, "COMMIT") && Succeeds(last.reply)
    && HasSent(before, log[..|before| + 1], ["BEGIN"], ResultsOf(first), wantRows, limit)
    && HasSent(log[..|before| + 1], log[..|log| - 1], texts, results, wantRows, limit)
    && HasSent(log[..|log| - 1], log, ["COMMIT"], ResultsOf(last), wantRows, limit)
  }

  lemma ScriptIsSent(before: seq<Exchange>, log: seq<Exchange>, texts: seq<string>, results: seq<StreamResult>,
                     wantRows: bool, limit: nat)
    requires RanScript(before, log, texts, results, wantRows, limit)
    ensures HasSent(before, log, Script(texts, false),
                    ResultsOf(log[|before|]) + results + ResultsOf(log[|log| - 1]), wantRows, limit)
  {
    var log1, log2 := log[..|before| + 1], log[..|log| - 1];
    var first, last := ResultsOf(log[|before|]), ResultsOf(log[|log| - 1]);
    JoinSent(before, log1, log2, ["BEGIN"], texts, first, results, wantRows, limit);
    JoinSent(before, log2, log, ["BEGIN"] + texts, ["COMMIT"], first + results, last, wantRows, limit);
  }

  // A run broke off: only statements from the head of the script have gone out, nothing after a BEGIN
  // that failed, and if COMMIT has gone out as well, it failed.
  ghost predicate BrokeOff(before: seq<Exchange>, log: seq<Exchange>, texts: seq<string>, wantRows: bool, limit: nat) {
    && HasSentPart(before, log, Script(texts, false), wantRows, limit)
    && (|before| < |log| ==> CarriesAlone(log[|before|], "BEGIN"))
    && (|before| + 1 < |log| ==> Succeeds(log[|before|].reply))
    && (WholeScript(before, log, texts, wantRows, limit) ==>
          |before| + 1 < |log| && CarriesAlone(log[|log| - 1], "COMMIT") && !Succeeds(log[|log| - 1].reply))
  }

  // BEGIN, all the texts and COMMIT have gone out.
  ghost predicate WholeScript(before: seq<Exchange>, log: seq<Exchange>, texts: seq<string>, wantRows: bool,
                              limit: nat)
    requires |before| <= |log|
  {
    |AllSent(log[|before|..], wantRows, limit).sqls| == |texts| + 2
  }

  // BEGIN and COMMIT may go out in a run that wants rows.
  lemma SingleIsPlain(log: seq<Exchange>, log': seq<Exchange>, stmt: string, wantRows: bool, limit: nat, ok: bool)
    requires GrewAlone(log, log', stmt, false, 0, ok)
    ensures GrewAlone(log, log', stmt, wantRows, limit, ok)
  {
  }

  lemma AloneHasSent(log: seq<Exchange>, log': seq<Exchange>, stmt: string, wantRows: bool, limit: nat, ok: bool)
    requires GrewAlone(log, log', stmt, wantRows, limit, ok)
    ensures ok ==> |log'| == |log| + 1 && HasSent(log, log', [stmt], ResultsOf(log'[|log|]), wantRows, limit)
    ensures ok ==> CarriesAlone(log'[|log|], stmt) && Succeeds(log'[|log|].reply)
    ensures HasSentPart(log, log', [stmt], wantRows, limit) && |log'| <= |log| + 1
  {
    assert Somes([stmt]) == [Some(stmt)];
    GrewHasSent(log, log', [stmt], wantRows, limit, ok);
  }

  lemma ScriptRan(before: seq<Exchange>, log1: seq<Exchange>, log2: seq<Exchange>, log: seq<Exchange>,
                  texts: seq<string>, results: seq<StreamResult>, wantRows: bool, limit: nat)
    requires GrewAlone(before, log1, "BEGIN", wantRows, limit, true)
    requires HasSent(log1, log2, texts, results, wantRows, limit) && FirstIsFull(log1, log2, texts, limit)
    requires GrewAlone(log2, log, "COMMIT", wantRows, limit, true)
    ensures RanScript(before, log, texts, results, wantRows, limit)
  {
    AloneHasSent(before, log1, "BEGIN", wantRows, limit, true);
    AloneHasSent(log2, log, "COMMIT", wantRows, limit, true);
    Prefixes(before, log1, log2, log);
  }

  lemma Prefixes(before: seq<Exchange>, log1: seq<Exchange>, log2: seq<Exchange>, log: seq<Exchange>)
    requires |log1| == |before| + 1 <= |log2| && |log| == |log2| + 1
    requires log2[..|log1|] == log1 && log[..|log2|] == log2
    ensures log[..|before| + 1] == log1 && log[..|log| - 1] == log2 && log[|before|] == log1[|before|]
  {
    assert log[..|log1|] == log[..|log2|][..|log1|];
    assert log[|before|] == log[..|log1|][|before|];
  }

  // The script broke off at BEGIN.
  lemma BrokeOffFirst(before: seq<Exchange>, log: seq<Exchange>, texts: seq<string>, wantRows: bool, limit: nat)
    requires GrewAlone(before, log, "BEGIN", wantRows, limit, false)
    ensures BrokeOff(before, log, texts, wantRows, limit)
  {
    AloneHasSent(before, log, "BEGIN", wantRows, limit, false);
    PartOfMore(before, log, ["BEGIN"], texts, wantRows, limit);
    PartOfMore(before, log, ["BEGIN"] + texts, ["COMMIT"], wantRows, limit);
  }

  // It broke off between BEGIN and COMMIT.
  lemma BrokeOffInside(before: seq<Exchange>, log1: seq<Exchange>, log: seq<Exchange>, texts: seq<string>,
                       wantRows: bool, limit: nat)
    requires GrewAlone(before, log1, "BEGIN", wantRows, limit, true)
    requires HasSentPart(log1, log, texts, wantRows, limit)
    ensures BrokeOff(before, log, texts, wantRows, limit)
  {
    AloneHasSent(before, log1, "BEGIN", wantRows, limit, true);
    JoinPart(before, log1, log, ["BEGIN"], texts, ResultsOf(log1[|before|]), wantRows, limit);
    PartOfMore(before, log, ["BEGIN"] + texts, ["COMMIT"], wantRows, limit);
    assert log[|before|] == log[..|log1|][|before|];
  }

  // It broke off at COMMIT.
  lemma BrokeOffLast(before: seq<Exchange>, log1: seq<Exchange>, log2: seq<Exchange>, log: seq<Exchange>,
                     texts: seq<string>, results: seq<StreamResult>, wantRows: bool, limit: nat)
    requires GrewAlone(before, log1, "BEGIN", wantRows, limit, true)
    requires HasSent(log1, log2, texts, results, wantRows, limit)
    requires GrewAlone(log2, log, "COMMIT", wantRows, limit, false)
    ensures BrokeOff(before, log, texts, wantRows, limit)
  {
    if log == log2 {
      BrokeOffInside(before, log1, log, texts, wantRows, limit);
    } else {
      var first := ResultsOf(log1[|before|]);
      AloneHasSent(before, log1, "BEGIN", wantRows, limit, true);
      AloneHasSent(log2, log, "COMMIT", wantRows, limit, false);
      JoinSent(before, log1, log2, ["BEGIN"], texts, first, results, wantRows, limit);
      JoinPart(before, log2, log, ["BEGIN"] + texts, ["COMMIT"], first + results, wantRows, limit);
      Prefixes(before, log1, log2, log);
    }
  }

  // The chunks of a transaction that is open, each in the same batch of the same message.
  method SendBatches(h: HranaV2Conn, chunker: Chunker, wantRows: bool, isEOF: bool, ghost texts: seq<string>)
    returns (ok: bool, result: PipelineResponse)
    requires {h, h.server} !! chunker.Footprint()
    requires h.Valid() && chunker.Valid() && 0 < chunker.limit
    requires (chunker.len < chunker.limit ==> isEOF) && (isEOF ==> chunker.Left() == [])
    requires texts == chunker.cells[..chunker.len] + chunker.Left()
    modifies h, h.server`log, chunker.Footprint()
    ensures h.Valid()
    ensures if ok then HasSent(old(h.server.log), h.server.log, texts, result.results, wantRows, chunker.limit)
            else HasSentPart(old(h.server.log), h.server.log, texts, wantRows, chunker.limit)
    ensures ok ==> FirstIsFull(old(h.server.log), h.server.log, texts, chunker.limit)
  {
    var batch := NewBatch(chunker.limit, wantRows);
    var msg := new PipelineRequest();
    msg.Add(StreamRequest("batch", None, batch));
    ok, result := SendChunks(h, msg, batch, chunker, wantRows, isEOF, texts);
  }

  // BEGIN, the chunks, COMMIT. When a chunk or COMMIT fails, the stream is given up.
  method ExecuteScript(h: HranaV2Conn, chunker: Chunker, wantRows: bool, isEOF: bool, ghost texts: seq<string>)
    returns (r: Result<PipelineResponse>)
    requires {h, h.server} !! chunker.Footprint()
    requires h.Valid() && chunker.Valid() && 0 < chunker.limit
    requires (chunker.len < chunker.limit ==> isEOF) && (isEOF ==> chunker.Left() == [])
    requires texts == chunker.cells[..chunker.len] + chunker.Left()
    modifies h, h.server`log, h.server`closed, chunker.Footprint()
    ensures h.Valid()
    ensures r.Ok? ==>
      RanScript(old(h.server.log), h.server.log, texts, r.value.results, wantRows, chunker.limit)
    ensures r.Err? ==>
      && BrokeOff(old(h.server.log), h.server.log, texts, wantRows, chunker.limit)
      && (h.baton == "" || |h.server.log| <= |old(h.server.log)| + 1)
    ensures r.Ok? ==> h.server.closed == old(h.server.closed)
  {
    ghost var before := h.server.log;
    r := ExecuteSingleStmt(h, "BEGIN", false);
    ghost var log1 := h.server.log;
    SingleIsPlain(before, log1, "BEGIN", wantRows, chunker.limit, r.Ok?);
    if r.Err? {
      BrokeOffFirst(before, log1, texts, wantRows, chunker.limit);
      return;
    }
    var ok, result := SendBatches(h, chunker, wantRows, isEOF, texts);
    ghost var log2 := h.server.log;
    if !ok {
      h.CloseStream();
      BrokeOffInside(before, log1, log2, texts, wantRows, chunker.limit);
      return Err("failed to execute SQL");
    }
    r := ExecuteSingleStmt(h, "COMMIT", false);
    SingleIsPlain(log2, h.server.log, "COMMIT", wantRows, chunker.limit, r.Ok?);
    if r.Err? {
      h.CloseStream();
      BrokeOffLast(before, log1, log2, h.server.log, texts, result.results, wantRows, chunker.limit);
      return;
    }
    ScriptRan(before, log1, log2, h.server.log, texts, result.results, wantRows, chunker.limit);
    r := Ok(result);
  }

  // How many statements go out in one batch at most.
  const CHUNK_SIZE: nat := 4096

  method NewChunker(source: TokenSource, chunkSize: nat) returns (chunker: Chunker)
    requires source.Valid() && source.pos == 0
    modifies source
    ensures chunker.Valid() && fresh(chunker.Footprint() - {source}) && chunker.limit == chunkSize
    ensures chunker.Left() == Wanted(Texts(source.input, Split(Visible(source.tokens))))
  {
    var splitter := new StatementIterator(source);
    chunker := new Chunker(splitter, chunkSize);
  }

  // How a query of these texts went: on its own when it is a single statement, else as a script.
  ghost predicate RanInChunks(before: seq<Exchange>, log: seq<Exchange>, texts: seq<string>,
                             r: Result<PipelineResponse>, single: bool, wantRows: bool, limit: nat) {
    && (single ==> |texts| == 1)
    && (|texts| == 1 && 1 < limit ==> single)
    && if r.Err? then
         if single then HasSentPart(before, log, texts, wantRows, limit)
         else BrokeOff(before, log, texts, wantRows, limit)
       else if single then SentAlone(before, log, texts[0], wantRows, r.value)
       else RanScript(before, log, texts, r.value.results, wantRows, limit)
  }

  method ExecuteFirst(h: HranaV2Conn, chunker: Chunker, wantRows: bool, ghost texts: seq<string>)
    returns (r: Result<PipelineResponse>)
    requires h.Valid() && chunker.len == 1 <= chunker.cells.Length && texts == chunker.cells[..1]
    modifies h, h.server`log
    ensures h.Valid()
    ensures RanInChunks(old(h.server.log), h.server.log, texts, r, true, wantRows, chunker.limit)
    ensures r.Err? ==> |h.server.log| <= |old(h.server.log)| + 1
  {
    ghost var before := h.server.log;
    r := ExecuteSingleStmt(h, chunker.cells[0], wantRows);
    assert texts == [chunker.cells[0]];
    GrewHasSent(before, h.server.log, texts, wantRows, chunker.limit, r.Ok?);
  }

  // A full first chunk, or a last chunk of another size, is not a single statement.
  lemma NotSingle(chunk: seq<string>, left: seq<string>, isEOF: bool, limit: nat)
    requires (|chunk| < limit ==> isEOF) && (isEOF ==> left == []) && (isEOF ==> |chunk| != 1)
    ensures limit <= 1 || |chunk + left| != 1
  {
  }

  method ExecuteChunked(h: HranaV2Conn, chunker: Chunker, wantRows: bool, ghost texts: seq<string>)
    returns (r: Result<PipelineResponse>, ghost single: bool)
    requires {h, h.server} !! chunker.Footprint()
    requires h.Valid() && chunker.Valid() && 0 < chunker.limit && texts == chunker.Left()
    modifies h, h.server`log, h.server`closed, chunker.Footprint()
    ensures h.Valid()
    ensures RanInChunks(old(h.server.log), h.server.log, texts, r, single, wantRows, chunker.limit)
    ensures r.Ok? ==> h.server.closed == old(h.server.closed)
    ensures r.Err? ==> h.baton == "" || |h.server.log| <= |old(h.server.log)| + 1
  {
    var isEOF := chunker.Next();
    single := isEOF && chunker.len == 1;
    if isEOF && chunker.len == 1 {
      assert texts == chunker.cells[..1];
      r := ExecuteFirst(h, chunker, wantRows, texts);
    } else {
      NotSingle(chunker.cells[..chunker.len], chunker.Left(), isEOF, chunker.limit);
      r := ExecuteScript(h, chunker, wantRows, isEOF, texts);
    }
  }

  // Sends a script of any length.
  method ExecuteInChunks(h: HranaV2Conn, source: TokenSource, wantRows: bool, chunkSize: nat)
    returns (r: Result<PipelineResponse>, ghost single: bool)
    requires h.Valid() && source.Valid() && source.pos == 0 && 0 < chunkSize
    modifies h, h.server`log, h.server`closed, source
    ensures h.Valid()
    ensures RanInChunks(old(h.server.log), h.server.log, Wanted(Texts(source.input, Split(Visible(source.tokens)))),
                     r, single, wantRows, chunkSize)
    ensures r.Ok? ==> h.server.closed == old(h.server.closed)
    ensures r.Err? ==> h.baton == "" || |h.server.log| <= |old(h.server.log)| + 1
  {
    var chunker := NewChunker(source, chunkSize);
    r, single := ExecuteChunked(h, chunker, wantRows, chunker.Left());
  }
}
