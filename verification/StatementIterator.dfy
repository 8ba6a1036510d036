// The streaming splitter: one statement per call, constant memory.
module StatementIterators {
  import opened Sequences
  import opened Wrappers
  import opened Tokens
  import opened BufferedTokenizers
  import opened SplitSpec
  import opened SplitTheorems

  datatype ExtraInfo = ExtraInfo(
    incompleteCreateTriggerStatement: bool,
    incompleteMultilineComment: bool,
    lastTokenType: Kind)

  // The source text from the first to the last of the tokens, hidden ones in between included.
  function TextOf(input: string, st: seq<Token>): string {
    if st == [] then "" else Span(input, st[0].start, st[|st| - 1].stop)
  }

  // The text between two positions, both included.
  function Span(input: string, start: nat, stop: int): string {
    if start <= stop < |input| then input[start..stop + 1] else ""
  }

  function Texts(input: string, sts: seq<seq<Token>>): seq<string> {
    if sts == [] then [] else [TextOf(input, sts[0])] + Texts(input, sts[1..])
  }

  function LastKind(ts: seq<Token>): Kind {
    if ts == [] then Invalid else ts[|ts| - 1].kind
  }

  function KindOf(token: Option<Token>): Kind {
    if token.None? then Invalid else token.value.kind
  }

  // The text of the first statement of ts, empty when there is none.
  ghost predicate IsNextText(input: string, ts: seq<Token>, statement: string) {
    var c := NextCut(ts);
    && statement == TextOf(input, ts[c.first..c.end])
    && (statement == "" <==> c.first == c.end)
  }

  // That text, and whether it was the last.
  ghost predicate IsNext(input: string, ts: seq<Token>, statement: string, isEOF: bool) {
    var c := NextCut(ts);
    IsNextText(input, ts, statement) && isEOF == (c.openComment || c.used == |ts|)
  }

  // Where the first statement of ts starts, -1 when there is none, and its last token.
  ghost predicate IsScanned(ts: seq<Token>, startPosition: int, previousToken: Option<Token>) {
    var c := NextCut(ts);
    && (startPosition == -1 <==> c.first == c.end)
    && (c.first < c.end ==> startPosition == ts[c.first].start && previousToken == Some(ts[c.end - 1]))
  }

  // The variables of Next's loop: first and last token of the statement, and the trigger tracker.
  datatype Loop = Loop(first: Option<Token>, last: Option<Token>, tracker: Tracker)

  function LoopStep(l: Loop, ts: seq<Token>, i: nat): Loop
    requires i < |ts|
  {
    if l.first.None? then
      if ts[i].kind == Scol then l
      else Loop(Some(ts[i]), Some(ts[i]), Tracker(StartsTrigger(ts[i..]), false, 0))
    else Loop(l.first, Some(ts[i]), Track(l.tracker, ts[i].kind))
  }

  function LoopAfter(ts: seq<Token>, i: nat): Loop
    requires i <= |ts|
  {
    if i == 0 then Loop(None, None, Tracker(false, false, 0)) else LoopStep(LoopAfter(ts, i - 1), ts, i - 1)
  }

  predicate LoopStops(l: Loop, token: Token) {
    l.first.Some? && !l.tracker.inside && token.kind == Scol
  }

  // The loop gets past the first i tokens.
  predicate LoopGoesOn(ts: seq<Token>, i: nat)
    requires i <= |ts|
  {
    i == 0
    || (LoopGoesOn(ts, i - 1) && !CommentAt(ts, i - 1) && !LoopStops(LoopAfter(ts, i - 1), ts[i - 1]))
  }

  lemma {:induction false} GoesOn(ts: seq<Token>, i: nat)
    requires i < |ts| && LoopGoesOn(ts, i) && !CommentAt(ts, i) && !LoopStops(LoopAfter(ts, i), ts[i])
    ensures LoopGoesOn(ts, i + 1)
  {
  }

  // Where the first statement of ts starts, and the tokens from there to the cut.
  ghost function First(ts: seq<Token>): nat {
    LeadingSemicolons(BeforeComment(ts))
  }

  ghost function FromFirst(ts: seq<Token>): seq<Token> {
    BeforeComment(ts)[First(ts)..]
  }

  // What the variables say about the statement that NextCut finds.
  ghost predicate Follows(ts: seq<Token>, i: nat, l: Loop)
    requires i <= |ts|
  {
    && i <= CommentStart(ts)
    && if l.first.None? then i <= First(ts) && l.tracker == Tracker(false, false, 0)
       else
         && First(ts) < i
         && l.first == Some(ts[First(ts)])
         && l.last == Some(ts[i - 1])
         && Reading(FromFirst(ts), i - First(ts), l.tracker)
  }

  lemma {:induction false} LoopFollows(ts: seq<Token>, i: nat)
    requires i <= |ts| && LoopGoesOn(ts, i)
    ensures Follows(ts, i, LoopAfter(ts, i))
  {
    if i > 0 {
      LoopFollows(ts, i - 1);
      CommentStartIsFirst(ts, i - 1);
      FollowsStep(ts, i - 1, LoopAfter(ts, i - 1));
    }
  }

  lemma FollowsStep(ts: seq<Token>, i: nat, l: Loop)
    requires i < CommentStart(ts) && Follows(ts, i, l) && !LoopStops(l, ts[i])
    ensures Follows(ts, i + 1, LoopStep(l, ts, i))
  {
    if l.first.Some? {
      FollowsNext(ts, i, l.tracker);
    } else {
      FollowsFirst(ts, i);
    }
  }

  lemma FollowsNext(ts: seq<Token>, i: nat, t: Tracker)
    requires First(ts) < i < CommentStart(ts) && Reading(FromFirst(ts), i - First(ts), t)
    requires t.inside || ts[i].kind != Scol
    ensures Reading(FromFirst(ts), i + 1 - First(ts), Track(t, ts[i].kind))
  {
    DropOfTakeAt(ts, CommentStart(ts), First(ts), i);
    ReadingGoesOn(FromFirst(ts), i - First(ts), t);
  }

  lemma FollowsFirst(ts: seq<Token>, i: nat)
    requires i < CommentStart(ts) && i <= First(ts)
    ensures ts[i].kind == Scol ==> i < First(ts)
    ensures ts[i].kind != Scol ==>
      i == First(ts) && Reading(FromFirst(ts), 1, Tracker(StartsTrigger(ts[i..]), false, 0))
  {
    if i < First(ts) {
      LeadingAreSemicolons(BeforeComment(ts), i);
    } else {
      DropOfTakeAt(ts, CommentStart(ts), i, i);
      StartsTriggerBeforeComment(ts, i);
      ReadingStarts(FromFirst(ts));
    }
  }

  // The loop ran out of tokens or stands in front of an unfinished comment.
  lemma LoopEndsOpen(ts: seq<Token>, i: nat)
    requires i <= |ts| && LoopGoesOn(ts, i) && (i < |ts| ==> CommentAt(ts, i))
    ensures var c, l := NextCut(ts), LoopAfter(ts, i);
      && c.used == c.end == i && c.openTrigger == l.tracker.inside && c.openComment == (i < |ts|)
      && (c.first == c.end <==> l.first.None?)
      && (l.first.Some? ==> l.first == Some(ts[c.first]) && l.last == Some(ts[c.end - 1]))
  {
    LoopFollows(ts, i);
    CommentStartIsFirst(ts, i);
    assert i == CommentStart(ts);
  }

  // The loop stops at a semicolon.
  lemma LoopEndsClosed(ts: seq<Token>, i: nat)
    requires i < |ts| && LoopGoesOn(ts, i) && !CommentAt(ts, i) && LoopStops(LoopAfter(ts, i), ts[i])
    ensures var c, l := NextCut(ts), LoopAfter(ts, i);
      && c == Cut(c.first, i, i + 1, false, false) && c.first < i
      && l.first == Some(ts[c.first]) && l.last == Some(ts[i - 1])
  {
    LoopFollows(ts, i);
    CommentStartIsFirst(ts, i);
    DropOfTakeAt(ts, CommentStart(ts), First(ts), i);
    ReadingStops(FromFirst(ts), i - First(ts), LoopAfter(ts, i).tracker);
  }

  // What the loop's variables hold after the first i tokens of ts.
  ghost predicate AtLoop(ts: seq<Token>, i: nat, startPosition: int, previousToken: Option<Token>,
                         tracker: Tracker) {
    && i <= |ts|
    && var l := LoopAfter(ts, i);
    && l.tracker == tracker
    && (startPosition == -1 <==> l.first.None?)
    && (startPosition == -1 ==> tracker == Tracker(false, false, 0))
    && (startPosition != -1 ==> startPosition == l.first.value.start && l.last == previousToken)
  }

  // What the loop leaves behind at the end of the tokens or in front of an unfinished comment.
  lemma ScanEndsOpen(ts: seq<Token>, i: nat, startPosition: int, previousToken: Option<Token>, tracker: Tracker)
    requires i <= |ts| && LoopGoesOn(ts, i) && (i < |ts| ==> CommentAt(ts, i))
    requires AtLoop(ts, i, startPosition, previousToken, tracker)
    ensures var c := NextCut(ts); c.used == i && c.openTrigger == tracker.inside && c.openComment == (i < |ts|)
    ensures IsScanned(ts, startPosition, previousToken)
  {
    LoopEndsOpen(ts, i);
  }

  // What it leaves behind at a semicolon.
  lemma ScanEndsClosed(ts: seq<Token>, i: nat, startPosition: int, previousToken: Option<Token>, tracker: Tracker)
    requires i < |ts| && LoopGoesOn(ts, i) && !CommentAt(ts, i) && LoopStops(LoopAfter(ts, i), ts[i])
    requires AtLoop(ts, i, startPosition, previousToken, tracker)
    ensures var c := NextCut(ts); c.used == i + 1 && !tracker.inside && !c.openTrigger && !c.openComment
    ensures IsScanned(ts, startPosition, previousToken)
  {
    LoopEndsClosed(ts, i);
  }

  class StatementIterator {
    const tokenizer: BufferedTokenizer
    var currentToken: Option<Token>

    ghost predicate Valid()
      reads this, tokenizer, tokenizer.source, tokenizer.tokens
    {
      && tokenizer.Valid()
      && tokenizer.tokens.Length == 3
      && tokenizer.consumed <= |tokenizer.All()|
      && currentToken == if tokenizer.consumed == 0 then None
                         else Some(tokenizer.All()[tokenizer.consumed - 1])
    }

    // The default-channel tokens not consumed yet.
    ghost function Remaining(): seq<Token>
      requires Valid()
      reads this, tokenizer, tokenizer.source, tokenizer.tokens
    {
      tokenizer.All()[tokenizer.consumed..]
    }

    ghost function Input(): string {
      tokenizer.source.input
    }

    ghost function Footprint(): set<object> {
      {this, tokenizer, tokenizer.source, tokenizer.tokens}
    }

    constructor (source: TokenSource)
      requires source.Valid() && source.pos == 0
      modifies source
      ensures Valid() && fresh(Footprint() - {source})
      ensures tokenizer.source == source && Remaining() == Visible(source.tokens)
    {
      tokenizer := new BufferedTokenizer(source, 3);
      currentToken := None;
    }

    // Looks at the next three tokens, hidden ones skipped.
    method AtCreateTriggerStart() returns (r: bool)
      requires Valid()
      ensures r <==> StartsTrigger(Remaining())
    {
      var token1 := tokenizer.Get(0).kind;
      var token2 := tokenizer.Get(1).kind;
      var token3 := tokenizer.Get(2).kind;
      r :=
        || (token1 == Create && token2 == Trigger)
        || (token1 == Create && (token2 == Temp || token2 == Temporary) && token3 == Trigger);
    }

    method AtIncompleteMultilineCommentStart() returns (r: bool)
      requires Valid()
      ensures r <==> CommentAt(Remaining(), 0)
    {
      r := tokenizer.Get(0).kind == Div && tokenizer.Get(1).kind == Star;
    }

    method Peek() returns (token: Token)
      requires Valid() && Remaining() != []
      ensures token == Remaining()[0]
    {
      token := tokenizer.Get(0);
    }

    // Makes the next token, number i of ts, the current one and consumes it.
    method Take(ghost ts: seq<Token>, ghost i: nat)
      requires Valid() && i < |ts| && Remaining() == ts[i..]
      modifies Footprint()
      ensures Valid() && Remaining() == ts[i + 1..]
      ensures currentToken == Some(ts[i])
    {
      currentToken := Some(tokenizer.Get(0));
      tokenizer.Consume();
    }

    // The first statement of what remains, cut as NextCut says.
    method Next() returns (statement: string, info: ExtraInfo, isEOF: bool)
      requires Valid()
      modifies Footprint()
      ensures Valid()
      ensures Remaining() == old(Remaining())[NextCut(old(Remaining())).used..]
      ensures IsNext(Input(), old(Remaining()), statement, isEOF)
      ensures info == ExtraInfo(NextCut(old(Remaining())).openTrigger, NextCut(old(Remaining())).openComment,
                                KindOf(currentToken))
    {
      var insideCreateTriggerStmt, insideMultilineComment;
      statement, insideCreateTriggerStmt, insideMultilineComment := ScanStatement();
      var lastTokenType := Invalid;
      if currentToken.Some? {
        lastTokenType := currentToken.value.kind;
      }
      info := ExtraInfo(insideCreateTriggerStmt, insideMultilineComment, lastTokenType);
      var atEnd := AtEnd();
      isEOF := atEnd || insideMultilineComment;
    }

    // Nothing is left to consume.
    method AtEnd() returns (r: bool)
      requires Valid()
      ensures r <==> |Remaining()| == 0
    {
      r := tokenizer.IsEOF();
    }

    // Scans the first statement and takes its text.
    method ScanStatement() returns (statement: string, insideCreateTriggerStmt: bool, insideMultilineComment: bool)
      requires Valid()
      modifies Footprint()
      ensures Valid()
      ensures var ts := old(Remaining()); var c := NextCut(ts);
        && Remaining() == ts[c.used..]
        && insideCreateTriggerStmt == c.openTrigger
        && insideMultilineComment == c.openComment
        && IsNextText(Input(), ts, statement)
    {
      ghost var ts := Remaining();
      RemainingIsLexerOutput();
      var startPosition, previousToken;
      startPosition, previousToken, insideCreateTriggerStmt, insideMultilineComment := Scan();
      statement := StatementText(startPosition, previousToken, ts);
    }

    // The source text of a statement that was scanned.
    method StatementText(startPosition: int, previousToken: Option<Token>, ghost ts: seq<Token>)
      returns (statement: string)
      requires LexerOutput(ts, |Input()|) && IsScanned(ts, startPosition, previousToken)
      ensures IsNextText(Input(), ts, statement)
    {
      CutTextInside(Input(), ts);
      statement := "";
      if startPosition != -1 {
        statement := tokenizer.source.GetText(startPosition, previousToken.value.stop);
      }
      TextIsCut(Input(), ts, statement);
    }

    // Where the first statement starts and ends. The start position is -1 when there is none.
    method Scan() returns (startPosition: int, previousToken: Option<Token>,
                           insideCreateTriggerStmt: bool, insideMultilineComment: bool)
      requires Valid()
      modifies Footprint()
      ensures Valid()
      ensures var ts := old(Remaining()); var c := NextCut(ts);
        && Remaining() == ts[c.used..]
        && insideCreateTriggerStmt == c.openTrigger
        && insideMultilineComment == c.openComment
        && IsScanned(ts, startPosition, previousToken)
    {
      ghost var ts, i, tracker := Remaining(), 0, Tracker(false, false, 0);
      var done;
      startPosition, previousToken, insideCreateTriggerStmt, insideMultilineComment, i, tracker, done := ScanLoop(ts);
      if done {
        ScanEndsClosed(ts, i, startPosition, previousToken, tracker);
      } else {
        ScanEndsOpen(ts, i, startPosition, previousToken, tracker);
      }
    }

    // The loop of Next. It gets past i tokens, and past the semicolon after them when done holds.
    method ScanLoop(ghost ts: seq<Token>)
      returns (startPosition: int, previousToken: Option<Token>,
               insideCreateTriggerStmt: bool, insideMultilineComment: bool,
               ghost i: nat, ghost tracker: Tracker, done: bool)
      requires Valid() && Remaining() == ts
      modifies Footprint()
      ensures Valid() && i <= |ts| && LoopGoesOn(ts, i)
      ensures AtLoop(ts, i, startPosition, previousToken, tracker)
      ensures insideCreateTriggerStmt == tracker.inside
      ensures
        if done then
          && i < |ts| && Remaining() == ts[i + 1..] && !insideMultilineComment
          && !CommentAt(ts, i) && LoopStops(LoopAfter(ts, i), ts[i])
        else
          && Remaining() == ts[i..] && insideMultilineComment == (i < |ts|)
          && (i < |ts| ==> CommentAt(ts, i))
    {
      insideCreateTriggerStmt := false;
      insideMultilineComment := false;
      var sawTriggerBegin := false;
      var triggerBlockDepth := 0;
      startPosition := -1;
      previousToken := currentToken;

      i, tracker, done := 0, Tracker(false, false, 0), false;
      while !tokenizer.IsEOF()
        invariant i <= |ts| && Valid() && Remaining() == ts[i..]
        invariant LoopGoesOn(ts, i)
        invariant !insideMultilineComment && !done
        invariant tracker == Tracker(insideCreateTriggerStmt, sawTriggerBegin, triggerBlockDepth)
        invariant AtLoop(ts, i, startPosition, previousToken, tracker)
        decreases |ts| - i
      {
        insideMultilineComment, done, startPosition, previousToken, insideCreateTriggerStmt, sawTriggerBegin,
          triggerBlockDepth :=
          ScanTurn(startPosition, previousToken, insideCreateTriggerStmt, sawTriggerBegin, triggerBlockDepth, ts, i);
        tracker := Tracker(insideCreateTriggerStmt, sawTriggerBegin, triggerBlockDepth);
        if insideMultilineComment || done {
          return;
        }
        i := i + 1;
      }
    }

    // The loop stands in front of token i.
    method AtComment(ghost ts: seq<Token>, ghost i: nat) returns (r: bool)
      requires Valid() && i < |ts| && Remaining() == ts[i..]
      ensures r <==> CommentAt(ts, i)
    {
      r := AtIncompleteMultilineCommentStart();
      assert CommentAt(ts[i..], 0) <==> CommentAt(ts, i);
    }

    // One turn of the loop: it breaks off in front of an unfinished comment, or handles a token.
    method ScanTurn(start: int, previous: Option<Token>, inside: bool, sawBegin: bool, depth: int,
                    ghost ts: seq<Token>, ghost i: nat)
      returns (comment: bool, done: bool, startPosition: int, previousToken: Option<Token>,
               insideCreateTriggerStmt: bool, sawTriggerBegin: bool, triggerBlockDepth: int)
      requires Valid() && i < |ts| && Remaining() == ts[i..] && LoopGoesOn(ts, i)
      requires AtLoop(ts, i, start, previous, Tracker(inside, sawBegin, depth))
      modifies Footprint()
      ensures Valid() && comment == CommentAt(ts, i)
      ensures Remaining() == if comment then ts[i..] else ts[i + 1..]
      ensures done == (!comment && LoopStops(LoopAfter(ts, i), ts[i]))
      ensures !comment && !done ==> LoopGoesOn(ts, i + 1)
      ensures AtLoop(ts, if comment || done then i else i + 1, startPosition, previousToken,
                     Tracker(insideCreateTriggerStmt, sawTriggerBegin, triggerBlockDepth))
    {
      comment := AtComment(ts, i);
      done, startPosition, previousToken := false, start, previous;
      insideCreateTriggerStmt, sawTriggerBegin, triggerBlockDepth := inside, sawBegin, depth;
      if !comment {
        done, startPosition, previousToken, insideCreateTriggerStmt, sawTriggerBegin, triggerBlockDepth :=
          ScanToken(start, previous, inside, sawBegin, depth, ts, i);
        if !done {
          GoesOn(ts, i);
        }
      }
    }

    // One token; done means that the token was the semicolon that ends the statement.
    method ScanToken(start: int, previous: Option<Token>, inside: bool, sawBegin: bool, depth: int,
                     ghost ts: seq<Token>, ghost i: nat)
      returns (done: bool, startPosition: int, previousToken: Option<Token>,
               insideCreateTriggerStmt: bool, sawTriggerBegin: bool, triggerBlockDepth: int)
      requires Valid() && i < |ts| && Remaining() == ts[i..]
      requires AtLoop(ts, i, start, previous, Tracker(inside, sawBegin, depth))
      modifies Footprint()
      ensures Valid() && Remaining() == ts[i + 1..]
      ensures done == LoopStops(LoopAfter(ts, i), ts[i])
      ensures AtLoop(ts, if done then i else i + 1, startPosition, previousToken,
                     Tracker(insideCreateTriggerStmt, sawTriggerBegin, triggerBlockDepth))
    {
      done, startPosition, previousToken := false, start, previous;
      insideCreateTriggerStmt, sawTriggerBegin, triggerBlockDepth := inside, sawBegin, depth;
      var token := Peek();
      if startPosition == -1 {
        // skip empty statements
        if token.kind != Scol {
          insideCreateTriggerStmt := AtCreateTriggerStart();
          startPosition := token.start;
          previousToken := Some(token);
        }
      } else if insideCreateTriggerStmt {
        insideCreateTriggerStmt, sawTriggerBegin, triggerBlockDepth :=
          TrackToken(token.kind, sawTriggerBegin, triggerBlockDepth);
        previousToken := Some(token);
      } else if token.kind == Scol {
        // the statement ends in front of this token, which is consumed as well
        done := true;
      } else {
        previousToken := Some(token);
      }
      Take(ts, i);
    }

    lemma LastIsCurrent()
      requires Valid() && tokenizer.consumed == CommentStart(tokenizer.All())
      ensures KindOf(currentToken) == LastKind(BeforeComment(tokenizer.All()))
    {
    }

    lemma RemainingIsLexerOutput()
      requires Valid()
      ensures LexerOutput(Remaining(), |Input()|)
    {
      VisibleIsLexerOutput(tokenizer.source.tokens, |Input()|);
      DropIsLexerOutput(tokenizer.All(), tokenizer.consumed, |Input()|);
    }
  }

  // The positions that GetText is given lie inside the source text.
  lemma {:induction false} CutTextInside(input: string, ts: seq<Token>)
    requires LexerOutput(ts, |input|)
    ensures var c := NextCut(ts); c.first < c.end ==> TextInside(input, ts, c.first, c.end)
  {
    var c := NextCut(ts);
    if c.first < c.end {
      SliceTextInside(input, ts, c.first, c.end);
    }
  }

  lemma {:induction false} TextIsCut(input: string, ts: seq<Token>, statement: string)
    requires var c := NextCut(ts); c.first < c.end ==>
      && TextInside(input, ts, c.first, c.end)
      && statement == input[ts[c.first].start..ts[c.end - 1].stop + 1]
    requires var c := NextCut(ts); c.first == c.end ==> statement == ""
    ensures IsNextText(input, ts, statement)
  {
    var c := NextCut(ts);
    if c.first == c.end {
      assert ts[c.first..c.end] == [];
    } else {
      assert |statement| > 0;
    }
  }

  // The text of the tokens from lo to hi is a piece of the source text.
  ghost predicate TextInside(input: string, ts: seq<Token>, lo: nat, hi: nat)
    requires lo < hi <= |ts|
  {
    && ts[lo].start <= ts[hi - 1].stop < |input|
    && TextOf(input, ts[lo..hi]) == input[ts[lo].start..ts[hi - 1].stop + 1]
  }

  lemma {:induction false} SliceTextInside(input: string, ts: seq<Token>, lo: nat, hi: nat)
    requires LexerOutput(ts, |input|) && lo < hi <= |ts|
    ensures TextInside(input, ts, lo, hi)
  {
    TokensInOrder(ts, |input|, lo, hi - 1);
    SliceEnds(ts, lo, hi);
  }

  // The statements after a cut: the first of s is s[k..k + n].
  ghost function StatementsAfter(s: seq<Token>, k: nat, n: nat): seq<seq<Token>>
    requires k + n <= |s|
  {
    [s[k..k + n]] + if k + n < |s| then Statements(s[k + n + 1..]) else []
  }

  lemma StatementsAfterDrop(s: seq<Token>, k: nat, n: nat)
    requires 0 < k && k + n <= |s|
    ensures StatementsAfter(s[1..], k - 1, n) == StatementsAfter(s, k, n)
  {
    SliceOfDrop(s, 1, k - 1, k - 1 + n);
    if k + n < |s| {
      DropOfDrop(s, 1, k + n);
    }
  }

  lemma {:induction false} StatementsFirst(s: seq<Token>, k: nat, n: nat)
    requires k == LeadingSemicolons(s) && n == StatementEnd(s[k..])
    ensures Statements(s) == if k == |s| then [] else StatementsAfter(s, k, n)
  {
    if k == 0 {
      assert s[0..] == s;
      assert s[0..n] == s[..n];
    } else {
      DropOfDrop(s, 1, k - 1);
      StatementsFirst(s[1..], k - 1, n);
      if k < |s| {
        StatementsAfterDrop(s, k, n);
      }
    }
  }

  lemma BeforeCommentOfDrop(ts: seq<Token>, n: nat)
    requires n <= CommentStart(ts)
    ensures CommentStart(ts[n..]) == CommentStart(ts) - n
    ensures BeforeComment(ts[n..]) == BeforeComment(ts)[n..]
  {
    CommentStartOfDrop(ts, n);
    SliceOfDrop(ts, n, 0, CommentStart(ts) - n);
  }

  lemma {:induction false} CommentStartOfDrop(ts: seq<Token>, n: nat)
    requires n <= CommentStart(ts)
    ensures CommentStart(ts[n..]) == CommentStart(ts) - n
  {
    if n == 0 {
      assert ts[0..] == ts;
    } else {
      CommentStartOfDrop(ts[1..], n - 1);
      DropOfDrop(ts, 1, n - 1);
    }
  }

  ghost function CutOut(ts: seq<Token>): seq<seq<Token>> {
    var c := NextCut(ts);
    if c.first < c.end then [ts[c.first..c.end]] else []
  }

  // Behind the last statement there is nothing.
  lemma {:induction false} NothingAfterLast(ts: seq<Token>)
    requires NextCut(ts).openComment || NextCut(ts).used == |ts|
    ensures Split(ts[NextCut(ts).used..]) == []
  {
    BeforeCommentOfDrop(ts, NextCut(ts).used);
  }

  // The first statement, its semicolon if it has one, and the others.
  lemma {:induction false} StatementsCut(s: seq<Token>, k: nat, n: nat, used: nat)
    requires k == LeadingSemicolons(s) && n == StatementEnd(s[k..])
    requires used == if k + n < |s| then k + n + 1 else k + n
    ensures k < |s| ==> Statements(s) == [s[k..k + n]] + Statements(s[used..])
    ensures k == |s| ==> Statements(s) == [] && used == |s|
  {
    StatementsFirst(s, k, n);
    if k + n == |s| {
      assert s[used..] == [];
    }
  }

  lemma {:induction false} SplitFirst(ts: seq<Token>)
    ensures var c := NextCut(ts); Split(ts) == CutOut(ts) + Split(ts[c.used..])
  {
    var c, s := NextCut(ts), BeforeComment(ts);
    StatementsCut(s, First(ts), StatementEnd(FromFirst(ts)), c.used);
    BeforeCommentOfDrop(ts, c.used);
    assert Split(ts[c.used..]) == Statements(s[c.used..]);
    if c.first < c.end {
      SliceOfTake(ts, CommentStart(ts), c.first, c.end);
      assert CutOut(ts) == [s[c.first..c.end]];
    } else {
      assert s[c.used..] == [];
    }
  }

  lemma {:induction false} TextsAppend(input: string, a: seq<seq<Token>>, b: seq<seq<Token>>)
    ensures Texts(input, a + b) == Texts(input, a) + Texts(input, b)
  {
    if a == [] {
      assert a + b == b;
    } else {
      TextsAppend(input, a[1..], b);
      assert (a + b)[1..] == a[1..] + b;
      Associative([TextOf(input, a[0])], Texts(input, a[1..]), Texts(input, b));
    }
  }

  // The last statement is a trigger whose block is still open.
  ghost predicate EndsInTrigger(sts: seq<seq<Token>>) {
    sts != [] && Unfinished(sts[|sts| - 1])
  }

  // NextCut tells an unfinished statement from a finished one.
  lemma CutIsUnfinished(ts: seq<Token>)
    ensures EndsInTrigger(CutOut(ts)) == NextCut(ts).openTrigger
    ensures var c := NextCut(ts); c.openTrigger ==> c.openComment || c.used == |ts|
  {
    var c, s := NextCut(ts), FromFirst(ts);
    if c.first < c.end {
      SliceOfTake(ts, CommentStart(ts), c.first, c.end);
      SliceOfDrop(BeforeComment(ts), c.first, 0, c.end - c.first);
      assert s[0..c.end - c.first] == s[..c.end - c.first];
      CutOutStatement(s, StatementEnd(s));
    }
  }

  // The statements found so far, and what the rest ts of the text still holds.
  ghost predicate AtStatement(input: string, all: seq<Token>, ts: seq<Token>, found: seq<string>) {
    && |ts| <= |all|
    && found + Texts(input, Split(ts)) == Texts(input, Split(all))
    && EndsInTrigger(Split(ts)) == EndsInTrigger(Split(all))
    && CommentStart(ts) == CommentStart(all) - (|all| - |ts|)
  }

  // One call of Next takes the first statement of what is left.
  lemma NextSplits(input: string, ts: seq<Token>)
    ensures AtStatement(input, ts, ts[NextCut(ts).used..], Texts(input, CutOut(ts))) || NextCut(ts).openTrigger
    ensures Texts(input, Split(ts)) == Texts(input, CutOut(ts)) + Texts(input, Split(ts[NextCut(ts).used..]))
    ensures Texts(input, CutOut(ts)) ==
      var c := NextCut(ts); if c.first < c.end then [TextOf(input, ts[c.first..c.end])] else []
    ensures var c := NextCut(ts);
      if c.openComment || c.used == |ts|
      then Split(ts[c.used..]) == [] && EndsInTrigger(Split(ts)) == c.openTrigger
           && c.used == CommentStart(ts) && c.openComment == (CommentStart(ts) < |ts|)
      else 0 < c.used
  {
    var c := NextCut(ts);
    SplitFirst(ts);
    if c.openComment || c.used == |ts| {
      NothingAfterLast(ts);
    }
    CutIsUnfinished(ts);
    BeforeCommentOfDrop(ts, c.used);
    LastOfTwo(CutOut(ts), Split(ts[c.used..]));
    TextsAppend(input, CutOut(ts), Split(ts[c.used..]));
  }

  lemma LastOfTwo(a: seq<seq<Token>>, b: seq<seq<Token>>)
    ensures EndsInTrigger(a + b) == if b == [] then EndsInTrigger(a) else EndsInTrigger(b)
  {
  }

  function Add(found: seq<string>, statement: string): seq<string> {
    if statement == "" then found else found + [statement]
  }

  lemma AddStatement(input: string, ts: seq<Token>, found: seq<string>, statement: string, isEOF: bool)
    requires IsNext(input, ts, statement, isEOF)
    ensures Add(found, statement) + Texts(input, Split(ts[NextCut(ts).used..])) == found + Texts(input, Split(ts))
  {
    NextSplits(input, ts);
    var rest := Texts(input, Split(ts[NextCut(ts).used..]));
    assert (found + Texts(input, CutOut(ts))) + rest == found + (Texts(input, CutOut(ts)) + rest);
    assert statement == "" ==> found + Texts(input, CutOut(ts)) == found;
  }

  lemma AtNextStatement(input: string, all: seq<Token>, ts: seq<Token>, found: seq<string>, statement: string)
    requires AtStatement(input, all, ts, found) && IsNext(input, ts, statement, false)
    ensures AtStatement(input, all, ts[NextCut(ts).used..], Add(found, statement))
    ensures 0 < NextCut(ts).used
  {
    NextSplits(input, ts);
    CutIsUnfinished(ts);
    AddStatement(input, ts, found, statement, false);
  }

  lemma AtLastStatement(input: string, all: seq<Token>, ts: seq<Token>, found: seq<string>, statement: string)
    requires AtStatement(input, all, ts, found) && IsNext(input, ts, statement, true)
    ensures Add(found, statement) == Texts(input, Split(all))
    ensures var c := NextCut(ts);
      && c.openTrigger == EndsInTrigger(Split(all))
      && c.openComment == (CommentStart(all) < |all|)
      && |all| - |ts| + c.used == CommentStart(all)
  {
    NextSplits(input, ts);
    AddStatement(input, ts, found, statement, true);
  }

  // What SplitStatement says about the end of the text.
  ghost function EndInfo(ts: seq<Token>): ExtraInfo {
    ExtraInfo(EndsInTrigger(Split(ts)), CommentStart(ts) < |ts|, LastKind(BeforeComment(ts)))
  }

  // All the statements of a text, and what the end of the text looks like.
  method SplitStatement(source: TokenSource) returns (statements: seq<string>, extraInfo: ExtraInfo)
    requires source.Valid() && source.pos == 0
    modifies source
    ensures statements == Texts(source.input, Split(Visible(source.tokens)))
    ensures extraInfo == EndInfo(Visible(source.tokens))
  {
    var splitter := new StatementIterator(source);
    ghost var all := Visible(source.tokens);
    ghost var ts := all;
    statements := [];
    while true
      invariant splitter.Valid() && fresh(splitter.Footprint() - {source})
      invariant splitter.tokenizer.source == source && splitter.Remaining() == ts
      invariant AtStatement(source.input, all, ts, statements)
      decreases |ts|
    {
      var statement, info, isEOF := splitter.Next();
      if isEOF {
        AtLastStatement(source.input, all, ts, statements, statement);
        splitter.LastIsCurrent();
      } else {
        AtNextStatement(source.input, all, ts, statements, statement);
      }
      ts := splitter.Remaining();
      if statement != "" {
        statements := statements + [statement];
      }
      if isEOF {
        return statements, info;
      }
    }
  }

  // One token inside a CREATE TRIGGER statement.
  method TrackToken(tokenType: Kind, sawBegin: bool, depth: int)
    returns (inside: bool, sawBegin': bool, depth': int)
    ensures Tracker(inside, sawBegin', depth') == Track(Tracker(true, sawBegin, depth), tokenType)
  {
    inside, sawBegin', depth' := true, sawBegin, depth;
    if !sawBegin {
      if tokenType == Begin {
        sawBegin' := true;
        depth' := 1;
      }
    } else {
      match tokenType {
        case Case =>
          depth' := depth + 1;
        case End =>
          depth' := depth - 1;
          if depth' == 0 {
            inside := false;
          }
        case _ =>
      }
    }
  }

  // ---- the cut at an unfinished comment ------------------------------------------------------

  predicate SpellsComment(input: string, position: nat) {
    position + 1 < |input| && input[position] == '/' && input[position + 1] == '*'
  }

  // The tokens are what their names say, and a hidden token, which is white space or a finished
  // comment, does not start with a star.
  predicate Spelled(input: string, t: Token) {
    && t.start < |input|
    && (t.kind == Div ==> t.stop == t.start && input[t.start] == '/')
    && (t.kind == Star ==> t.stop == t.start && input[t.start] == '*')
    && (t.channel != DEFAULT_CHANNEL ==> input[t.start] != '*')
  }

  // Every character belongs to a token.
  ghost predicate Gapless(tokens: seq<Token>) {
    forall i, j :: 0 <= i < j < |tokens| && j == i + 1 ==> tokens[j].start == tokens[i].stop + 1
  }

  ghost predicate LexedText(input: string, tokens: seq<Token>) {
    Gapless(tokens) && forall i :: 0 <= i < |tokens| ==> Spelled(input, tokens[i])
  }

  lemma {:induction false} VisibleAt(tokens: seq<Token>, i: nat) returns (k: nat)
    requires i < |Visible(tokens)|
    ensures k < |tokens| && tokens[k].channel == DEFAULT_CHANNEL
    ensures Visible(tokens[k..]) == Visible(tokens)[i..]
  {
    if tokens[0].channel == DEFAULT_CHANNEL && i == 0 {
      k := 0;
      assert tokens[0..] == tokens;
    } else {
      var rest := VisibleAt(tokens[1..], if tokens[0].channel == DEFAULT_CHANNEL then i - 1 else i);
      k := rest + 1;
      assert tokens[1..][rest..] == tokens[k..];
    }
  }

  // The slash at which SplitStatement sees an unfinished comment is token k of the text. A comment
  // starts there if and only if the next token is not a hidden one.
  lemma UnfinishedCommentIsReal(input: string, tokens: seq<Token>) returns (k: nat)
    requires LexedText(input, tokens) && EndInfo(Visible(tokens)).incompleteMultilineComment
    ensures k + 1 < |tokens| && tokens[k] == Visible(tokens)[CommentStart(Visible(tokens))]
    ensures SpellsComment(input, tokens[k].start) <==> tokens[k + 1].channel == DEFAULT_CHANNEL
  {
    var ts := Visible(tokens);
    var i := CommentStart(ts);
    CommentStartIsFirst(ts, i);
    k := VisibleAt(tokens, i);
    assert tokens[k..][1..] == tokens[k + 1..];
    assert Visible(tokens[k..]) == [tokens[k]] + Visible(tokens[k + 1..]);
    assert Visible(tokens[k..])[0] == ts[i] && Visible(tokens[k..])[1] == ts[i + 1];
    assert Spelled(input, tokens[k]) && Spelled(input, tokens[k + 1]);
  }
}
