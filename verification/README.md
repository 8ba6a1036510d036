# A verified model of the libSQL client for Go

The client takes a text of SQL statements, cuts it into statements, deals the arguments out, compiles
the statements into a request of the Hrana 2 protocol, sends it over a connection that has to stay on
one stream, and reads the results back. This project models that path from end to end, and two small
concurrent parts beside it: the pool of request ids and the keepalive of a suspending server.

Where the source changes things step by step, the model does too: the token ring, the splitter, the
chunker with its reused buffer and batch, the connection, the row cursor and the id pool are classes with
loops, each proved against a specification that is stated without the loop. What the specification
promises is then proved in lemmas. The keepalive is a step protocol whose steps may interleave in any
order, and the server is an arbitrary list of replies.

| files | part of the client |
|---|---|
| `Tokens`, `BufferedTokenizer`, `SplitSpec`, `SplitTheorems`, `StatementIterator`, `SplitLaws` | the statement splitter over a three-token window, and its laws over the kinds of the tokens |
| `Integers`, `Base64`, `Values` | values on the wire |
| `Hrana`, `BatchCompiler`, `BatchMeaning`, `Atomicity` | statements and batches, what a server does with them |
| `Results`, `Accounting`, `Rows` | reading results |
| `Arguments` | dealing arguments out to statements |
| `ConnectionRuns`, `Connection` | one stream: baton, base URL, replication index |
| `Chunks`, `ChunkEffects`, `ChunkReports`, `ChunkOutcomes`, `ScriptExamples` | long scripts in chunks, what they do to the server, what is reported, and what is committed in every run |
| `Execution`, `Transactions` | `executeStmt`, `ExecContext`, `QueryContext` from text to answer, and down to the database |
| `IdPool`, `Keepalive`, `KeepaliveTiming` | the concurrent parts |
| `Wrappers`, `Sequences` | helpers |

The lexer is a finite list of tokens with channels and increasing spans, followed by EOF for ever. A
server that runs statements is any function from a state and a statement to a new state and a result or
an error; everything said about answers holds for every such function.

## Where the code does less than one might expect

Each of these is proved: by an input on which the promise fails, by the condition under which it holds, or by both.

- `SplitStatement` takes a slash and a star with a blank between them for an unfinished comment
  (`SlashBlankStarIsCut`), although the comment at `sqliteparserutils/utils.go:36` says that this cannot
  be; it is right exactly when no hidden token follows the slash (`UnfinishedCommentIsReal`).
- The conditions `BatchStream` writes refer to earlier steps exactly for 1 to 2^31 statements
  (`ConditionsLookBack`); for none it sends a lone ROLLBACK that always runs (`EmptyListRollsBack`).
- A transactional batch is atomic for a list that brings its own BEGIN and COMMIT (`Atomic`). Without
  them it commits what ran before the first error (`WithoutBegin`), and inside a transaction of the
  caller its ROLLBACK takes the caller's own work (`InsideTransaction`); for any other list it commits up
  to the last closed point (`CommitsUpToLastClosed`).
- A script in chunks is not atomic: its batches carry no conditions and `executeMsg` does not look at
  step errors (`ScriptIsNotAtomic`). When it is reported as sent, what applied is committed
  (`SentScriptCommits`), and that is the whole script if and only if the server lets each statement
  through and all of them apply (`ScriptIsWholeExactly`). When it is reported as failed, and the server
  answered all it was sent, nothing of it is committed, unless the server aborted a statement: then what
  applied after the abort is (`BrokenScriptLeaves`).
- The report on a script in chunks is read from its first batch as if that ended in a ROLLBACK: a
  failure in a later chunk is not reported (`ScriptReported`, `LateFailureIsNotReported`), the counts
  are right exactly when the statements from the last one of the first chunk on have nothing to add
  (`ScriptReportIsRightExactly`), and a query without statements panics (`ScriptShown`).
- Positional arguments that no statement asks for are dropped without an error; all of them are used
  exactly when enough are asked for (`AllArgumentsUsed`).
- The keepalive lets gaps of just under two intervals occur, so 25 seconds do not stay under a threshold
  of 30 (`GapsExactly`).
- A touch can still come after a Close that found nothing started has returned (`LateLoopMayTouch`),
  exactly until the loop takes its way out (`TouchExactly`). Such a loop finds `stop` closed and leaves
  at its first select, unless that is delayed by an interval until a tick is ready as well.
- With 2^32 - 1 ids held, and only then, `Get` hands out 0 (`GetIsFreshExactly`, `WrapIsReached`).

## Model

| member | source | states |
|---|---|---|
| BufferedTokenizers.BufferedTokenizer.constructor | sqliteparserutils/buffered_tokenizer.go:18-23 | a fresh window shows the first tokens of the stream, with EOF tokens after its end |
| BufferedTokenizers.BufferedTokenizer.Load | sqliteparserutils/buffered_tokenizer.go:25-36 | the n oldest slots hold the next n default-channel tokens, the others are untouched, and it ends because hidden tokens are finitely many |
| BufferedTokenizers.BufferedTokenizer.Consume | sqliteparserutils/buffered_tokenizer.go:38-40 | the window moves on by one token of the stream |
| BufferedTokenizers.BufferedTokenizer.Get | sqliteparserutils/buffered_tokenizer.go:42-47 | after any number of Consume calls, element k of the window is element consumed + k of the filtered stream |
| BufferedTokenizers.BufferedTokenizer.IsEOF | sqliteparserutils/buffered_tokenizer.go:49-51 | true exactly when the whole filtered stream has been consumed |
| BufferedTokenizers.WindowMoves | sqliteparserutils/buffered_tokenizer.go:25-40 | overwriting the oldest slot turns a window from one position into the window from the next |
| StatementIterators.StatementIterator.AtCreateTriggerStart | sqliteparserutils/utils.go:108-122 | looks at hidden-filtered tokens only and is true exactly at CREATE [TEMP or TEMPORARY] TRIGGER |
| StatementIterators.StatementIterator.AtIncompleteMultilineCommentStart | sqliteparserutils/utils.go:124-130 | true exactly in front of a slash and a star |
| StatementIterators.StatementIterator.ScanLoop | sqliteparserutils/utils.go:35-76 | the loop over depth, flags and positions, with what its variables mean when it stops and why it stops |
| StatementIterators.StatementIterator.Scan | sqliteparserutils/utils.go:26-76 | the loop stops where the declarative cut says, with first and last token of the statement |
| StatementIterators.TrackToken | sqliteparserutils/utils.go:55-71 | the branches on BEGIN, CASE and END are one step of the trigger tracker |
| StatementIterators.LoopFollows | sqliteparserutils/utils.go:35-76 | after any number of turns the loop's variables mean what the declarative specification of the first statement says |
| StatementIterators.StatementIterator.Next | sqliteparserutils/utils.go:26-91 | returns the source text of the first statement, the rest of the tokens, the extra information and whether it was the last |
| StatementIterators.NextSplits | sqliteparserutils/utils.go:26-91 | one call takes the first statement off and leaves a list whose statements are the others; unless it was the last it consumes a token |
| StatementIterators.SplitStatement | sqliteparserutils/utils.go:93-106 | repeated Next calls return exactly the texts of the statements cut at top-level semicolons, and the extra information of the whole text |
| StatementIterators.CutTextInside | sqliteparserutils/utils.go:87-89 | the positions that GetText is given lie inside the text and in order |
| SplitSpec.OpenDepthIsPositive | sqliteparserutils/utils.go:61-70 | while a trigger is open its BEGIN/CASE/END depth is positive, so it is never negative |
| SplitSpec.ReadingGoesOn | sqliteparserutils/utils.go:55-71 | the flags and the depth counter decide, token by token, whether the statement is an open trigger |
| SplitTheorems.RoundTrip | sqliteparserutils/utils.go:93-106 | joining the split statements with single semicolons and splitting again returns the same list, inner trigger semicolons and a last unfinished trigger included |
| SplitTheorems.RoundTripExactly | sqliteparserutils/utils.go:93-106 | the lists that survive join and split are exactly the well-formed ones |
| SplitTheorems.SplitIsWellFormed | sqliteparserutils/utils.go:93-106 | every returned statement is non-empty, starts with no semicolon, ends at its first top-level semicolon, and only the last can be an unfinished trigger |
| SplitTheorems.TokenConservation | sqliteparserutils/utils.go:35-90 | every default-channel token before the cut lies in exactly one returned source range, or is a semicolon in none; the ranges are ordered and disjoint |
| SplitTheorems.OnlyTriggersHoldSemicolons | sqliteparserutils/utils.go:54-75 | a semicolon inside a statement stands in an open trigger, and only the last statement can be left open |
| SplitTheorems.SlashBlankStarIsCut | sqliteparserutils/utils.go:36-40 | a slash and a star apart from each other are cut off as an unfinished comment |
| StatementIterators.UnfinishedCommentIsReal | sqliteparserutils/utils.go:36-40 | where SplitStatement reports an unfinished comment, the text starts one if and only if no hidden token follows the slash |
| SplitLaws.TriggerIsOne | sqliteparserutils/utils.go:47-73 | a head CREATE TRIGGER, CREATE TEMP TRIGGER or CREATE TEMPORARY TRIGGER, any tokens but BEGIN, then BEGIN, a block of balanced CASE and END with semicolons anywhere, and END make one statement that is finished, and the next semicolon ends it |
| SplitLaws.HeadIsOne | sqliteparserutils/utils.go:47-57 | after such a head everything belongs to the one statement while no BEGIN has come, and it is unfinished |
| SplitLaws.OpenTriggerIsOne | sqliteparserutils/utils.go:51-68 | so does everything after BEGIN while the block is not closed by an END of its own |
| SplitLaws.OtherIsCut | sqliteparserutils/utils.go:69-73 | a statement with none of the three heads ends at its first semicolon and is finished |
| SplitLaws.EmptyIsSkipped | sqliteparserutils/utils.go:42-46 | semicolons in front of a statement are skipped, and no tokens make no statement |
| SplitLaws.CommentIsDropped | sqliteparserutils/utils.go:36-40 | from the first slash followed by a star on, the tokens belong to no statement, and the unfinished comment is reported; it is reported only then |
| SplitLaws.VisibleExactly | sqliteparserutils/buffered_tokenizer.go:25-36 | the splitter sees exactly the tokens of channel 0 |
| SplitLaws.TextsExactly | sqliteparserutils/utils.go:86-106 | text k is the source from the first character of the first token of statement k to the last character of its last token |
| Integers.ParseFormatInt | libsql/internal/hrana/value.go:29-34 | the decimal text of a number reads back exactly when it fits 64 bits, the minimum included |
| Integers.IntIsDecimal | libsql/internal/hrana/value.go:60-66 | the text written for an integer is its decimal numeral: the digits weighed by powers of ten, with a minus sign for a negative one |
| Integers.ParseExactly | libsql/internal/hrana/value.go:28-33 | a text is read as an integer exactly when it is the decimal numeral of it behind an optional sign and the integer fits 64 bits |
| Base64.DecodeEncode | libsql/internal/hrana/value.go:68-71 | unpadded base64 (sections 3.2 and 4 of RFC 4648) reads back for every length mod 3 |
| Base64.EncodeDecode | libsql/internal/hrana/value.go:22-26 | a text that decodes is the encoding of its bytes exactly when it holds no line break and its spare bits are zero |
| Base64.EncodeIsRfc | libsql/internal/hrana/value.go:68-71 | the encoding is that of section 4 of RFC 4648 without padding: three bytes are four sextets of its alphabet, and a rest of one or two bytes is two or three |
| Values.ValueRoundTrip | libsql/internal/hrana/value.go:17-89 | ToValue and back is the identity for nil, int64, string, bytes and float, and up to the stated normal form for the rest, exactly unless a time column parses the text |
| Values.WireFormIsFaithful | libsql/internal/hrana/value.go:56-89 | two values with one wire form have the same normal form |
| Values.WireFormExactly | libsql/internal/hrana/value.go:56-89 | each kind of value has its own tag of the protocol and carries just what belongs to it |
| Values.TimeColumnsExactly | libsql/internal/hrana/value.go:34-36 | time columns are exactly those declared timestamp or datetime, in any case |
| Hrana.Stmt.AddPositionalArgs | libsql/internal/hrana/stmt.go:29-39 | fills in the arguments one for one, or fails on an unsupported one and leaves the statement alone |
| Hrana.Stmt.AddNamedArgs | libsql/internal/hrana/stmt.go:41-58 | lists every entry of the map once in some order, or fails and leaves the statement alone |
| Hrana.Stmt.AddArgs | libsql/internal/hrana/stmt.go:21-27 | named when the map has entries, positional otherwise |
| Hrana.NamedIsComplete | libsql/internal/hrana/stmt.go:41-58 | every named argument is on the wire with a value that reads back as it was |
| Hrana.Batch.Add | libsql/internal/hrana/batch.go:20-22 | appends a step |
| BatchCompiler.BatchStream | libsql/internal/hrana/stream_request.go:43-80 | the batch built by the loop is the compilation of statements that stand for the texts and parameters, the last step of a transactional one is the text ROLLBACK without arguments, and there is no batch exactly when a value is unsupported |
| BatchCompiler.ConditionsLookBack | libsql/internal/hrana/stream_request.go:59-78 | every condition refers only to earlier steps if and only if there are 1 to 2^31 statements |
| BatchMeaning.StopAtFirstError | libsql/internal/hrana/stream_request.go:50-78 | for every server, the executed statements are a prefix up to the first failure, the rest is skipped, and ROLLBACK runs exactly when one failed |
| BatchMeaning.EmptyListRollsBack | libsql/internal/hrana/stream_request.go:73-78 | an empty list runs ROLLBACK although nothing failed |
| BatchMeaning.PlainBatchRunsAll | libsql/internal/hrana/stream_request.go:58-72 | without conditions every statement runs, whatever happened before it |
| Atomicity.Atomic | libsql/internal/hrana/stream_request.go:43-80 | BEGIN, body, COMMIT commits the whole body when all succeeded and otherwise nothing, whichever statements fail or abort; a transaction stays open if and only if the failing statement left it open and the server refuses the ROLLBACK too |
| Atomicity.CommitsWhatApplies | libsql/internal/hrana/stream_request.go:43-80 | with a server that refuses nothing the body is committed exactly when all of it applies |
| Atomicity.BodyIsUncommitted | libsql/internal/hrana/stream_request.go:50-72 | nothing is committed before COMMIT, and an open transaction holds exactly the part that ran |
| Atomicity.WithoutBegin | libsql/internal/hrana/stream_request.go:43-80 | a transactional batch that opens no transaction commits exactly the statements before its first error |
| Atomicity.InsideTransaction | libsql/internal/hrana/stream_request.go:73-78 | sent inside the caller's transaction, the batch adds to it when all succeed, and on an error rolls the caller's own work back unless the server refuses that |
| Atomicity.CommitsUpToLastClosed | libsql/internal/hrana/stream_request.go:43-80 | for any list, with BEGIN and COMMIT anywhere or not at all, a transactional batch commits what was committed at the last closed point before the first error, and a transaction stays open exactly when a list without an error leaves one open or the ROLLBACK is refused |
| Atomicity.PlainRun | libsql/internal/hrana/stream_request.go:58-72 | in a batch without conditions, as on a schema database, BEGIN, body, COMMIT have one stated effect for every pattern of refusals and aborts: survivors committed, or those after the first abort, or nothing, or a transaction left open |
| Atomicity.WholeExactly | libsql/internal/hrana/stream_request.go:58-72 | in such a batch all of them succeed if and only if the server lets each through and the body applies as a whole, which is then committed |
| Results.FirstErrorAt | libsql/internal/hrana/stream_result.go:41-45 | the scan returns the first step error |
| Accounting.TransactionalAnswer | libsql/internal/http/hranaV2/hranaV2.go:642-651 | the driver sees the error of the first failing statement, or one result a statement after the entry of the skipped ROLLBACK is dropped, and nothing else is dropped |
| Accounting.EmptyAnswer | libsql/internal/http/hranaV2/hranaV2.go:642-651 | an empty list is answered with the outcome of its lone ROLLBACK |
| Accounting.TransactionalCount | libsql/internal/http/hranaV2/hranaV2.go:523-534 | on that path the accounting never meets a missing result |
| Accounting.CountBatch | libsql/internal/http/hranaV2/hranaV2.go:519-535 | returns the sum of affected rows and the last positive row id of the entries before the bound, of none when the bound is negative, and panics exactly when one of them is missing |
| Accounting.LastRowIdIsLastPositive | libsql/internal/http/hranaV2/hranaV2.go:527-532 | the reported row id is that of the last result with a positive one, or 0 when there is none |
| Accounting.RowIdExactly | libsql/internal/hrana/stmt_result.go:22-29 | a row id sent as the text of a 64-bit integer is read as that integer |
| Accounting.NoRowId | libsql/internal/hrana/stmt_result.go:22-29 | a row id that is absent or cannot be read is 0 |
| Accounting.PlainAnswer | libsql/internal/http/hranaV2/hranaV2.go:523-526 | without ROLLBACK, on a schema database, an answer is free of errors exactly when all statements succeeded, and then holds just their results |
| Accounting.PartCountsExactly | libsql/internal/http/hranaV2/hranaV2.go:522-534 | the count of a part is that of the whole exactly when the rest changed no row and has no row id to report or the same one |
| RowCursor.Rows.Next | libsql/internal/http/shared/rows.go:36-46 | fills dest with the converted values of the current row and moves on, or reports the end at the row count and changes nothing; both indices stay in range |
| RowCursor.Rows.NextResultSet | libsql/internal/http/shared/rows.go:52-69 | moves to row 0 of the next set while there is one, and tells whether it has a result |
| RowCursor.Drain | libsql/internal/http/shared/rows.go:36-69 | reading to the end yields every row of every set once and in order, and leaves the cursor in range on the last set |
| RowCursor.CellsExactly | libsql/internal/http/hranaV2/hranaV2.go:556-617 | cell c of row j of set i is value c of that row, read with the declared type of column c, under the name of column c |
| RowCursor.DrainedExactly | libsql/internal/http/shared/rows.go:36-69 | row j of set i comes after all the rows of the sets before it and the j rows before it in its set |
| Arguments.ConvertArgs | libsql/internal/http/shared/statement.go:123-151 | fails exactly when named and positional arguments are mixed, and otherwise keeps them in ordinal order, as named ones when the first has a name |
| Arguments.ValuesAt | libsql/internal/http/shared/statement.go:144-146 | value i of the positional arguments is that of argument i in ordinal order |
| Arguments.NamedLast | libsql/internal/http/shared/statement.go:147-148 | of several arguments with one name the last one counts |
| Arguments.NamedOnly | libsql/internal/http/shared/statement.go:147-148 | no name comes up that no argument has |
| Arguments.SortedOnce | libsql/internal/http/shared/statement.go:128-134 | any two sorted versions of arguments with distinct ordinals are the same, whatever the sort does with ties |
| Arguments.ExtractParameters | libsql/internal/http/shared/statement.go:197-250 | the names, and one position for each bare ? and each distinct number text; fails exactly on a parameter with another prefix |
| Arguments.PositionalExactly | libsql/internal/http/shared/statement.go:207-211 | a positional parameter is a question mark followed by decimal digits or by nothing |
| Arguments.NamesExactly | libsql/internal/http/shared/statement.go:252-257 | the names are exactly what follows a colon, an at sign or a dollar sign |
| Arguments.IndexesExactly | libsql/internal/http/shared/statement.go:236-240 | the number texts are exactly the digits that follow a question mark |
| Arguments.CountExactly | libsql/internal/http/shared/statement.go:231-247 | the positional count is the number of bare question marks and of different number texts |
| Arguments.GenerateStatementParameters | libsql/internal/http/shared/statement.go:162-195 | a slice of the statement's share from the offset, or the named arguments that the statement mentions |
| Arguments.DealArguments | libsql/internal/http/shared/statement.go:45-55 | the running offset deals every statement its share of what is left, the slices joined in statement order are a prefix of the sorted arguments, and the offset never exceeds their count |
| Arguments.ParseStatementAndArgs | libsql/internal/http/shared/statement.go:34-56 | the same from the driver's arguments, with every error case |
| Arguments.Partition | libsql/internal/http/shared/statement.go:45-55 | statement i gets the arguments from the number asked for before it to the number with its own, both cut off at the end; an EXPLAIN statement that cannot be served asks for none |
| Arguments.AskedWithoutExplain | libsql/internal/http/shared/statement.go:172-175 | without EXPLAIN the number asked for is the sum of the parameter counts |
| Arguments.AllArgumentsUsed | libsql/internal/http/shared/statement.go:162-195 | every argument reaches a statement exactly when the statements ask for enough of them, EXPLAIN statements that cannot be served left out |
| ConnectionRuns.MaxIndexIsMax | libsql/internal/http/hranaV2/hranaV2.go:265-289 | the scan of a response finds the largest index of execute results and error-free batch results, or 0 |
| ConnectionRuns.ReportedExactly | libsql/internal/http/hranaV2/hranaV2.go:269-287 | an execute result reports its own index, a batch result its own when no step failed, anything else none |
| ConnectionRuns.RunRemembers | libsql/internal/http/hranaV2/hranaV2.go:223-253 | over every run, baton, base URL and index are the latest baton, the latest URL and the largest index of all responses |
| ConnectionRuns.StreamAffinity | libsql/internal/http/hranaV2/hranaV2.go:223-253 | once a response has come back on the stream no later request carries an empty baton; each carries the latest one and the largest index so far, or is refused locally |
| ConnectionRuns.ClosedIsFinal | libsql/internal/http/hranaV2/hranaV2.go:224-227 | a closed stream stays closed and sends nothing, and the index never goes down |
| ConnectionRuns.ClosedExactly | libsql/internal/http/hranaV2/hranaV2.go:223-253 | in every run the stream is closed if and only if the log shows a request that was refused, or answered without a baton though it did not say that it closes the stream; and nothing is sent after such an entry |
| ConnectionRuns.AffinityExactly | libsql/internal/http/hranaV2/hranaV2.go:223-253 | every request is in step if and only if nothing is sent after a request that said it closes the stream and was answered without a baton |
| ConnectionRuns.DriverKeepsAffinity | libsql/internal/http/hranaV2/hranaV2.go:352-356 | requests that never say so, as those of the driver, keep that rule |
| Connection.AddReplicationIndex | libsql/internal/http/hranaV2/hranaV2.go:255-263 | puts the index in place on the requests that have none, shared batches included, and changes nothing else |
| Connection.GetReplicationIndex | libsql/internal/http/hranaV2/hranaV2.go:265-289 | is the largest index of the response |
| Connection.HranaV2Conn.SendPipelineRequest | libsql/internal/http/hranaV2/hranaV2.go:223-253 | one exchange with the connection's baton, or the message's own when it has none, its URL and index, whose fields afterwards are what the response says; refused without one on a closed stream |
| Connection.HranaV2Conn.ExecuteMsg | libsql/internal/http/hranaV2/hranaV2.go:352-367 | the same, with success exactly when every result has a response and no error |
| Connection.FirstFailure | libsql/internal/http/hranaV2/hranaV2.go:358-365 | finds a failed or missing result exactly when there is one |
| Connection.HranaV2Conn.CloseStream | libsql/internal/http/hranaV2/hranaV2.go:657-666 | one close request with the baton, if there is one, and the baton is gone |
| Connection.ConnectionStaysInStep | libsql/internal/http/hranaV2/hranaV2.go:223-289 | in every run, request j of the server's log goes to the URL in force, carries the latest baton and tells of the largest index that the responses before it in that log reported |
| Connection.ValidExactly | libsql/internal/http/hranaV2/hranaV2.go:132-134 | a connection whose requests never say that they close it is valid if and only if no exchange in the server's log was refused or answered without a baton; only the last one can be |
| Connection.FreshRequestsCarryTheIndex | libsql/internal/http/hranaV2/hranaV2.go:255-263 | in every run, each request that was built without an index went out with the largest one reported before it in the server's log, and any other as it was built |
| Chunks.Chunker.Next | libsql/internal/http/hranaV2/hranaV2.go:389-400 | the chunk followed by what is left are the wanted statements that were left before; a short chunk is the last one; otherwise tokens were used up |
| Chunks.Chunker.Pull | libsql/internal/http/hranaV2/hranaV2.go:392-398 | one turn moves one statement over or drops a transaction statement |
| Chunks.NextWanted | libsql/internal/http/hranaV2/hranaV2.go:393-397 | what one call of the splitter returns is the head of the wanted statements, or not wanted |
| Chunks.TransactionWordsExactly | libsql/internal/http/hranaV2/hranaV2.go:379-387 | a statement is left out if and only if its first letters are begin, commit, end or rollback in any case, character by character |
| Chunks.SentExactly | libsql/internal/http/hranaV2/hranaV2.go:389-400 | the statements sent are those at exactly the other positions, once each and in order |
| Chunks.FillBatch | libsql/internal/http/hranaV2/hranaV2.go:440-447 | every step points at the cell of its own statement, and a short chunk cuts the batch |
| Chunks.FilledBatchMarshals | libsql/internal/http/hranaV2/hranaV2.go:440-447 | what goes out is the text the cells hold now: no stale entry, no condition, no arguments |
| Chunks.ExecuteSingleStmt | libsql/internal/http/hranaV2/hranaV2.go:402-414 | one exchange that sends this statement alone |
| Chunks.SendChunks | libsql/internal/http/hranaV2/hranaV2.go:438-461 | the reused batch and message send all the wanted statements once and in order, and the results are collected in order; a failure leaves a prefix sent |
| Chunks.ExecuteScript | libsql/internal/http/hranaV2/hranaV2.go:426-466 | BEGIN, the chunks, COMMIT: with success, BEGIN and COMMIT went out alone and succeeded; with an error, nothing follows a BEGIN that failed, a COMMIT that went out failed, and the stream is given up past BEGIN |
| Chunks.ExecuteInChunks | libsql/internal/http/hranaV2/hranaV2.go:416-467 | for every positive limit the SQL sent is BEGIN, every non-transaction statement once and in order, the first batch as full as it can be, COMMIT, or just the statement when there is one; on an error it is a head of that, broken off as stated |
| Chunks.ScriptIsSent | libsql/internal/http/hranaV2/hranaV2.go:426-466 | the whole list of texts sent in a run without a failure, and the results in order |
| Chunks.SentAppend | libsql/internal/http/hranaV2/hranaV2.go:438-461 | what two stretches of exchanges sent is what the one sent followed by what the other sent |
| ChunkEffects.PlainExchangesRun | libsql/internal/http/hranaV2/hranaV2.go:438-461 | a server runs unconditional requests as the list of their statements, however the list was divided into chunks |
| ChunkEffects.ChunkingDoesNotMatter | libsql/internal/http/hranaV2/hranaV2.go:438-461 | two rows of plain exchanges that send the same statements have the same effect and the same outcomes |
| ChunkEffects.ScriptRuns | libsql/internal/http/hranaV2/hranaV2.go:416-467 | for every server, a script in chunks has the effect and the outcomes of BEGIN, its statements and COMMIT one by one |
| ChunkEffects.WantedAreNoTransactions | libsql/internal/http/hranaV2/hranaV2.go:379-387 | no statement that is sent begins with begin, commit, end or rollback, in any case |
| ChunkEffects.ScriptIsWholeExactly | libsql/internal/http/hranaV2/hranaV2.go:416-467 | every statement of a script in chunks succeeds if and only if the server lets each through and all apply one after the other; then the whole script is committed |
| ChunkOutcomes.PartHasEffect | libsql/internal/http/hranaV2/hranaV2.go:416-467 | whatever was answered, the statements of a script that went out have one stated effect at the server for every pattern of refusals and aborts |
| ChunkOutcomes.CommitAnswered | libsql/internal/http/hranaV2/hranaV2.go:462-466 | COMMIT succeeds if and only if BEGIN got through, no statement of the body was aborted, and COMMIT got through |
| ChunkOutcomes.SentScriptCommits | libsql/internal/http/hranaV2/hranaV2.go:426-466 | a script that is reported as sent, by a server that answers for what it ran: nothing was aborted, exactly the statements that applied are committed, and no transaction is open |
| ChunkOutcomes.BrokenScriptLeaves | libsql/internal/http/hranaV2/hranaV2.go:426-466 | a script that is reported as failed: committed is what was before it, unless a statement of the body was aborted; then what applied after the abort stays committed; and when the server still holds a transaction open |
| ChunkOutcomes.UnansweredLast | libsql/internal/http/hranaV2/hranaV2.go:448-452 | when the last request of such a run had no answer, what went out before it is a run that broke off too, so that both states are covered |
| Execution.ExecuteStream | libsql/internal/hrana/stream_request.go:19-30 | one statement with its parameters, or none because a value is unsupported |
| Execution.CompiledMarshals | libsql/internal/hrana/stream_request.go:50-79 | marshalling a compiled batch is compiling the marshalled statements |
| Execution.SendStatements | libsql/internal/http/hranaV2/hranaV2.go:478-501 | one request that holds the statements with their parameters, alone or compiled, and nothing when a value is unsupported |
| Execution.WiresCarry | libsql/internal/http/hranaV2/hranaV2.go:478-494 | each statement goes out with its own text, with whether rows are wanted, and with one value for each positional argument or one entry for each named one |
| Execution.EndsInRollback | libsql/internal/hrana/stream_request.go:73-78 | what is sent for several statements in a transactional batch ends in a step whose text is ROLLBACK, without arguments |
| Execution.ExecuteStmt | libsql/internal/http/hranaV2/hranaV2.go:469-502 | from text and arguments to the request: a text of more than 20971520 characters without arguments goes in chunks of 4096, any other in one request, and nothing when the arguments do not fit |
| Execution.CountResponse | libsql/internal/http/hranaV2/hranaV2.go:509-538 | what is reported for every kind of response |
| Execution.ExecuteNumbers | libsql/internal/http/hranaV2/hranaV2.go:510-515 | for an execute response the row id is the integer whose text was sent, and the count the number of affected rows that was sent |
| Execution.ExecuteWithoutRowId | libsql/internal/http/hranaV2/hranaV2.go:510-515 | without a readable row id it is 0, and the count the same |
| Execution.BatchNumbers | libsql/internal/http/hranaV2/hranaV2.go:516-535 | for a batch response that ends in a skipped ROLLBACK the row id is the last positive one sent, or 0, and the count the sum of those sent |
| Execution.BatchAnswered | libsql/internal/http/hranaV2/hranaV2.go:516-535 | the same for a batch, whose results are those before the bound and those left when the ROLLBACK is taken off |
| Execution.RequestAnswered | libsql/internal/http/hranaV2/hranaV2.go:469-502 | a server that runs the request it is sent answers with the results of the statements, or for the first failure; the lone ROLLBACK of an empty list and schema databases included |
| Execution.QueryIsAnswered | libsql/internal/http/hranaV2/hranaV2.go:504-539 | if the server ran what it was sent, from any state and by any semantics, the report says what happened |
| Execution.ExecContext | libsql/internal/http/hranaV2/hranaV2.go:504-539 | from text and arguments to the reported counts: outside chunks they are what the server did, and for a script in chunks they are read from the first result of the script that was sent |
| Transactions.TransactionIsReported | libsql/internal/http/hranaV2/hranaV2.go:504-539 | for the texts BEGIN, body, COMMIT in one request and every database that reads BEGIN, COMMIT and ROLLBACK by their text: an error means that what is committed is unchanged, no error means that the whole body is committed and the counts are those of all statements |
| Execution.QueryContext | libsql/internal/http/hranaV2/hranaV2.go:630-655 | sends what ExecuteStmt sends, a script in chunks included, and shows the first result of the response as result sets, the ROLLBACK taken off |
| Execution.PostedIsShown | libsql/internal/http/hranaV2/hranaV2.go:630-655 | the result sets shown are the results of the statements, one each and in order, and the query fails exactly when the run failed; schema databases and the empty list included |
| ChunkReports.ScriptReported | libsql/internal/http/hranaV2/hranaV2.go:504-539 | for a script in chunks and every server, ExecContext fails if and only if a statement of the first chunk failed, and else counts the first chunk without its last statement |
| ChunkReports.ScriptReportIsRightExactly | libsql/internal/http/hranaV2/hranaV2.go:516-535 | when all statements succeed, that report is right if and only if the statements from the last one of the first chunk on changed no row and have no other row id to report |
| ChunkReports.ScriptShown | libsql/internal/http/hranaV2/hranaV2.go:642-651 | QueryContext shows the results of the first chunk without the last one, and panics for a script without statements |
| ChunkReports.SingleReported | libsql/internal/http/hranaV2/hranaV2.go:422-424 | a script of a single statement is reported like any single statement |
| ScriptExamples.ScriptIsNotAtomic | libsql/internal/http/hranaV2/hranaV2.go:416-467 | a script of two statements as the connection writes it and a server answers it: the body does not apply, its first statement is committed, and the run is reported as sent |
| ScriptExamples.LateFailureIsNotReported | libsql/internal/http/hranaV2/hranaV2.go:504-539 | a script of 4096 statements that succeed and one that fails, as the connection writes it and a server answers it: the report is no error, and 4095 rows of 4096 |
| ScriptExamples.LateFailureIn | libsql/internal/http/hranaV2/hranaV2.go:504-539 | the same for chunks of every positive size |
| IdPools.IdPool.Get | libsql/internal/ws/websockets.go:283-297 | any recycled id, else the counter goes up with the wrap of uint32 |
| IdPools.IdPool.Put | libsql/internal/ws/websockets.go:299-322 | refuses, shrinks or recycles as the source does |
| IdPools.PoolInvariant | libsql/internal/ws/websockets.go:266-322 | in every state of every run the ids held are exactly 1 to maxUsed without the recycled ones, and maxUsed is at most the peak |
| IdPools.IdsAreUnique | libsql/internal/ws/websockets.go:261-263 | Get never returns a held id nor one above the peak, and Put accepts exactly the held ones |
| IdPools.GetIsFreshExactly | libsql/internal/ws/websockets.go:283-297 | after every run with at most 2^32 - 1 ids held at a time, Get hands out a new id and keeps the pool in order if and only if fewer than 2^32 - 1 are held; with all of them held it hands out 0 |
| IdPools.WrapIsReached | libsql/internal/ws/websockets.go:294-296 | 2^32 - 1 calls of Get lead there |
| Keepalive.ProtocolIsSafe | libsql/keepalive.go:108-165 | under every interleaving at most one loop runs, each channel is closed at most once, and a Close waits only for a loop that was or will be spawned |
| Keepalive.NoTouchAfterClose | libsql/keepalive.go:132-145 | after a Close that saw the loop started has returned there is no tick, touch or new loop |
| Keepalive.TouchExactly | libsql/keepalive.go:132-165 | in every reachable state, however far any Close has come, a touch can still come if and only if the loop has not taken its way out |
| Keepalive.LateLoopMayTouch | libsql/keepalive.go:132-165 | a Close that saw nothing started has returned and a touch can still come |
| Keepalive.WaitCanEnd | libsql/keepalive.go:132-165 | from every reachable state a waiting Close is released by steps of the loop and its own |
| KeepaliveTiming.NeverColdForTwoIntervals | libsql/keepalive.go:147-164 | while the loop runs consecutive activity stamps are less than two intervals apart |
| KeepaliveTiming.TouchesOnlyWhenIdle | libsql/keepalive.go:121-160 | a touch is decided exactly when nothing was stamped in the interval before |
| KeepaliveTiming.GapsExactly | libsql/keepalive.go:41-43 | the gaps that occur are exactly those below two intervals |

## Left out

- The lexer and the parser tables: a token list stands for them. That a returned statement text lexes to the same tokens again is not modelled, because unterminated quotes break it.
- HTTP, JSON, headers, timeouts and the text of error messages: a reply is a response, a refusal or nothing. Errors of a connection that has expired are refusals like the others.
- URL, TLS and option handling in `libsql/sql.go`, and the hiding of credentials in `libsql/redact.go`: case splits over `net/url`.
- The `exec` and `connect` calls of the WebSocket transport: network code. Of that file only the id pool is modelled.
- Parsing and formatting of times, and the lower case of letters outside ASCII: parameters of the value codec. Integers returned by the server are unbounded, so the wrap of the int64 sum of affected rows is not modelled.
- Characters of more than one byte: a text is a sequence of characters, and its length and the limit for chunks are counted in them, where Go counts bytes.
- The order in which a Go map is walked, and what `sort.Slice` does with ties: any order is allowed, so the results hold for each.
- A statement that is sent alone is held by value in its request; the driver keeps no second pointer to it.
- The close request that runs in a goroutine is recorded when it is started; its answer is ignored, as in the source.
- A shared message keeps the first replication index that was attached to it, as the code does: a request that already has one goes out as it was built.
- A COMMIT of a script in chunks that had no answer: the server may have run it, so that the script may be committed although an error is reported; `ChunkOutcomes.PartHasEffect` states both effects.
- A server object records what one connection sent; what several connections do to one server is not modelled.
- A list of more than 2^31 statements: its conditions name negative steps (`BatchCompiler.ConditionsLookBack`), and what is reported then is not stated.
- `hranaV2Conn.Close`: one close request like that of `CloseStream`, on a connection that is not used again.
- `Ping` and transactions are calls of `executeStmt` with fixed texts; `PrepareContext` reports the parameter count that `Arguments.ExtractParameters` finds.
- IdPools.PoolInvariant: assumes that the peak number of ids held fits 32 bits; `IdPools.GetIsFreshExactly` says what happens beyond.
- KeepaliveTiming.NeverColdForTwoIntervals: time is whole numbers, ticks are punctual, and a touch stamps at its tick; the delays of a real ticker are not modelled.
- Keepalive.WaitCanEnd: says that a release is always possible, not that a fair scheduler brings it about.
