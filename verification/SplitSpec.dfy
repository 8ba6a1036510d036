// What it means to cut a token list at its top-level semicolons, said without the loop:
// a semicolon is top level unless the statement it follows is a trigger whose block is still open.
module SplitSpec {
  import opened Sequences
  import opened Tokens

  // ---- unfinished comments -------------------------------------------------------------------

  predicate CommentAt(ts: seq<Token>, i: nat) {
    i + 1 < |ts| && ts[i].kind == Div && ts[i + 1].kind == Star
  }

  // Position of the first "/" directly followed by "*" on the default channel, or the length.
  function CommentStart(ts: seq<Token>): (i: nat)
    ensures i <= |ts|
  {
    if ts == [] || CommentAt(ts, 0) then 0 else 1 + CommentStart(ts[1..])
  }

  lemma {:induction false} CommentStartIsFirst(ts: seq<Token>, j: nat)
    ensures j < CommentStart(ts) ==> !CommentAt(ts, j)
    ensures j == CommentStart(ts) && j < |ts| ==> CommentAt(ts, j)
  {
    if ts != [] && !CommentAt(ts, 0) && j > 0 {
      CommentStartIsFirst(ts[1..], j - 1);
      assert CommentAt(ts[1..], j - 1) == CommentAt(ts, j);
    }
  }

  function BeforeComment(ts: seq<Token>): seq<Token> {
    ts[..CommentStart(ts)]
  }

  // ---- triggers ------------------------------------------------------------------------------

  predicate StartsTrigger(s: seq<Token>) {
    || (|s| >= 2 && s[0].kind == Create && s[1].kind == Trigger)
    || (|s| >= 3 && s[0].kind == Create && s[1].kind in {Temp, Temporary} && s[2].kind == Trigger)
  }

  function Count(s: seq<Token>, kind: Kind): nat {
    if s == [] then 0
    else Count(s[..|s| - 1], kind) + if s[|s| - 1].kind == kind then 1 else 0
  }

  function BeginIndex(s: seq<Token>): (i: nat)
    ensures i <= |s|
    ensures i < |s| ==> s[i].kind == Begin
    ensures forall j :: 0 <= j < i ==> s[j].kind != Begin
  {
    if s == [] || s[0].kind == Begin then 0 else 1 + BeginIndex(s[1..])
  }

  // One for BEGIN, plus the CASEs, minus the ENDs among the tokens up to n.
  function BlockDepth(s: seq<Token>, n: nat): int
    requires BeginIndex(s) < n <= |s|
  {
    var block := s[BeginIndex(s) + 1..n];
    1 + Count(block, Case) - Count(block, End)
  }

  ghost predicate BlockClosedAt(s: seq<Token>, n: nat)
    requires n <= |s|
  {
    BeginIndex(s) < n && BlockDepth(s, n) == 0
  }

  // After its first n tokens the statement is a trigger whose block has not been closed.
  ghost predicate InTrigger(s: seq<Token>, n: nat)
    requires n <= |s|
  {
    StartsTrigger(s) && forall e :: 0 <= e <= n ==> !BlockClosedAt(s, e)
  }

  // ---- statements ----------------------------------------------------------------------------

  ghost predicate TopLevelSemicolon(s: seq<Token>, i: nat) {
    i < |s| && s[i].kind == Scol && !InTrigger(s, i)
  }

  // First top-level semicolon at or after i, or the length.
  ghost function EndFrom(s: seq<Token>, i: nat): (n: nat)
    requires i <= |s|
    ensures i <= n <= |s|
    decreases |s| - i
  {
    if i == |s| || TopLevelSemicolon(s, i) then i else EndFrom(s, i + 1)
  }

  lemma {:induction false} EndFromIsFirst(s: seq<Token>, i: nat, j: nat)
    requires i <= j < |s|
    ensures j < EndFrom(s, i) ==> !TopLevelSemicolon(s, j)
    ensures j == EndFrom(s, i) ==> TopLevelSemicolon(s, j)
    decreases |s| - i
  {
    if !TopLevelSemicolon(s, i) && i < j {
      EndFromIsFirst(s, i + 1, j);
    }
  }

  ghost function StatementEnd(s: seq<Token>): nat {
    EndFrom(s, 0)
  }

  function LeadingSemicolons(s: seq<Token>): (k: nat)
    ensures k <= |s|
    ensures k < |s| ==> s[k].kind != Scol
  {
    if s == [] || s[0].kind != Scol then 0 else 1 + LeadingSemicolons(s[1..])
  }

  lemma {:induction false} LeadingAreSemicolons(s: seq<Token>, j: nat)
    requires j < LeadingSemicolons(s)
    ensures s[j].kind == Scol
  {
    if j > 0 {
      LeadingAreSemicolons(s[1..], j - 1);
    }
  }

  lemma StatementEndIsFirst(s: seq<Token>, j: nat)
    requires j < |s|
    ensures j < StatementEnd(s) ==> !TopLevelSemicolon(s, j)
    ensures j == StatementEnd(s) ==> TopLevelSemicolon(s, j)
  {
    EndFromIsFirst(s, 0, j);
  }

  // The statements of a token list, empty ones left out.
  ghost function Statements(s: seq<Token>): seq<seq<Token>>
    decreases |s|
  {
    if s == [] then []
    else if s[0].kind == Scol then Statements(s[1..])
    else
      var n := StatementEnd(s);
      [s[..n]] + if n < |s| then Statements(s[n + 1..]) else []
  }

  ghost function Split(ts: seq<Token>): seq<seq<Token>> {
    Statements(BeforeComment(ts))
  }

  // ---- one cut -------------------------------------------------------------------------------

  datatype Cut = Cut(first: nat, end: nat, used: nat, openTrigger: bool, openComment: bool)

  // The statement found first is ts[first..end]; used counts the tokens it took, semicolons included.
  ghost function NextCut(ts: seq<Token>): (c: Cut)
    ensures c.first <= c.end <= c.used <= CommentStart(ts)
    ensures c.first == c.end ==> c.used == CommentStart(ts) && c.openComment == (c.used < |ts|)
    ensures c.first < c.end ==> ts[c.first].kind != Scol
  {
    var vis := BeforeComment(ts);
    var k := LeadingSemicolons(vis);
    var s := vis[k..];
    var n := StatementEnd(s);
    assert s != [] ==> n > 0 by { if s != [] { NonSemicolonIsNoEnd(s); } }
    Cut(k, k + n, if n < |s| then k + n + 1 else k + n, InTrigger(s, n), n == |s| && |vis| < |ts|)
  }

  lemma NonSemicolonIsNoEnd(s: seq<Token>)
    requires s != [] && s[0].kind != Scol
    ensures StatementEnd(s) > 0
  {
  }

  // ---- facts about the parts -----------------------------------------------------------------

  lemma {:induction false} CountAppend(s: seq<Token>, t: Token, kind: Kind)
    ensures Count(s + [t], kind) == Count(s, kind) + if t.kind == kind then 1 else 0
  {
    assert (s + [t])[..|s|] == s;
  }

  // The depth after one more token.
  lemma {:induction false} BlockDepthStep(s: seq<Token>, n: nat)
    requires BeginIndex(s) < n < |s|
    ensures BlockDepth(s, n + 1) == BlockDepth(s, n)
      + (if s[n].kind == Case then 1 else 0) - (if s[n].kind == End then 1 else 0)
  {
    var b := BeginIndex(s);
    SliceSnoc(s, b + 1, n);
    CountAppend(s[b + 1..n], s[n], Case);
    CountAppend(s[b + 1..n], s[n], End);
  }

  // While a trigger is open and its BEGIN has been seen, the depth is at least one.
  lemma {:induction false} OpenDepthIsPositive(s: seq<Token>, n: nat)
    requires n <= |s| && InTrigger(s, n) && BeginIndex(s) < n
    ensures BlockDepth(s, n) >= 1
    decreases n
  {
    var b := BeginIndex(s);
    assert !BlockClosedAt(s, n);
    if n == b + 1 {
      assert s[b + 1..n] == [];
    } else {
      assert InTrigger(s, n - 1);
      OpenDepthIsPositive(s, n - 1);
      BlockDepthStep(s, n - 1);
    }
  }

  // Reading one more token of an open trigger leaves it open unless that token is the END that closes it.
  lemma InTriggerStep(s: seq<Token>, n: nat)
    requires n < |s| && InTrigger(s, n)
    ensures BeginIndex(s) < n ==>
      (InTrigger(s, n + 1) <==> !(s[n].kind == End && BlockDepth(s, n) == 1))
    ensures n <= BeginIndex(s) ==> InTrigger(s, n + 1)
    ensures n == BeginIndex(s) ==> BlockDepth(s, n + 1) == 1
  {
    var b := BeginIndex(s);
    assert InTrigger(s, n + 1) <==> !BlockClosedAt(s, n + 1);
    if b < n {
      OpenDepthIsPositive(s, n);
      BlockDepthStep(s, n);
    } else if b == n {
      assert s[b + 1..n + 1] == [];
    }
  }

  // Once closed, a trigger stays closed.
  lemma ClosedStaysClosed(s: seq<Token>, m: nat, n: nat)
    requires m <= n <= |s| && !InTrigger(s, m)
    ensures !InTrigger(s, n)
  {
  }

  // The splitter's three variables, and how one more token changes them.
  datatype Tracker = Tracker(inside: bool, sawBegin: bool, depth: int)

  function Track(t: Tracker, kind: Kind): Tracker {
    if !t.inside then t
    else if !t.sawBegin then
      if kind == Begin then Tracker(true, true, 1) else t
    else
      match kind
      case Case => t.(depth := t.depth + 1)
      case End => t.(depth := t.depth - 1, inside := t.depth != 1)
      case _ => t
  }

  // The variables mean what the declarative definitions say.
  ghost predicate Tracks(s: seq<Token>, n: nat, t: Tracker)
    requires n <= |s|
  {
    && t.inside == InTrigger(s, n)
    && (t.inside ==> t.sawBegin == (BeginIndex(s) < n))
    && (t.inside && t.sawBegin ==> t.depth == BlockDepth(s, n))
  }

  // The splitter has read n tokens of the statement s and not passed its end.
  ghost predicate Reading(s: seq<Token>, n: nat, t: Tracker) {
    0 < n <= StatementEnd(s) && Tracks(s, n, t)
  }

  lemma ReadingStarts(s: seq<Token>)
    requires s != [] && s[0].kind != Scol
    ensures Reading(s, 1, Tracker(StartsTrigger(s), false, 0))
  {
    NonSemicolonIsNoEnd(s);
  }

  // Every token but a semicolon outside a trigger is read; in a trigger the depth stays positive.
  lemma ReadingGoesOn(s: seq<Token>, n: nat, t: Tracker)
    requires n < |s| && Reading(s, n, t) && (t.inside || s[n].kind != Scol)
    ensures Reading(s, n + 1, Track(t, s[n].kind))
    ensures t.inside && t.sawBegin ==> t.depth >= 1
  {
    StatementEndIsFirst(s, n);
    if t.inside {
      InTriggerStep(s, n);
      if t.sawBegin {
        OpenDepthIsPositive(s, n);
        BlockDepthStep(s, n);
      }
    } else {
      ClosedStaysClosed(s, n, n + 1);
    }
  }

  lemma ReadingStops(s: seq<Token>, n: nat, t: Tracker)
    requires n < |s| && Reading(s, n, t) && !t.inside && s[n].kind == Scol
    ensures n == StatementEnd(s)
  {
    StatementEndIsFirst(s, n);
  }

  // ---- looking at a prefix only --------------------------------------------------------------

  lemma BeginIndexOfPrefix(s: seq<Token>, n: nat)
    requires n <= |s|
    ensures BeginIndex(s) < n ==> BeginIndex(s[..n]) == BeginIndex(s)
    ensures BeginIndex(s) >= n ==> BeginIndex(s[..n]) == n
  {
    assert forall i :: 0 <= i < n ==> s[..n][i] == s[i];
  }

  lemma BlockClosedOfPrefix(s: seq<Token>, n: nat, e: nat)
    requires e <= n <= |s|
    ensures BlockClosedAt(s[..n], e) == BlockClosedAt(s, e)
  {
    BeginIndexOfPrefix(s, n);
    var b := BeginIndex(s);
    if b < e {
      SliceOfTake(s, n, b + 1, e);
    }
  }

  lemma InTriggerOfPrefix(s: seq<Token>, n: nat, e: nat)
    requires e <= n <= |s| && StartsTrigger(s) == StartsTrigger(s[..n])
    ensures InTrigger(s[..n], e) == InTrigger(s, e)
  {
    forall i | 0 <= i <= e
      ensures BlockClosedAt(s[..n], i) == BlockClosedAt(s, i)
    {
      BlockClosedOfPrefix(s, n, i);
    }
  }

  lemma StartsTriggerBeforeComment(ts: seq<Token>, k: nat)
    requires k < CommentStart(ts)
    ensures StartsTrigger(BeforeComment(ts)[k..]) == StartsTrigger(ts[k..])
  {
    var n := CommentStart(ts) - k;
    CommentStartIsFirst(ts, CommentStart(ts));
    assert BeforeComment(ts)[k..] == ts[k..][..n];
    StartsTriggerLocal(ts[k..], n);
  }

  // The trigger test looks three tokens ahead, but never past a semicolon or an unfinished comment.
  lemma StartsTriggerLocal(s: seq<Token>, n: nat)
    requires 0 < n <= |s|
    requires n < |s| ==> s[n].kind in {Scol, Div}
    ensures StartsTrigger(s[..n]) == StartsTrigger(s)
  {
  }

  // A statement cut out of a longer list is a whole statement when looked at alone.
  lemma CutOutStatement(s: seq<Token>, n: nat)
    requires s != [] && s[0].kind != Scol && n == StatementEnd(s)
    ensures 0 < n && StatementEnd(s[..n]) == n
    ensures InTrigger(s[..n], n) == InTrigger(s, n)
    ensures n < |s| ==> !InTrigger(s[..n], n)
  {
    NonSemicolonIsNoEnd(s);
    if n < |s| {
      StatementEndIsFirst(s, n);
    }
    StartsTriggerLocal(s, n);
    InTriggerOfPrefix(s, n, n);
    var m := StatementEnd(s[..n]);
    if m < n {
      StatementEndIsFirst(s[..n], m);
      InTriggerOfPrefix(s, n, m);
      StatementEndIsFirst(s, m);
    }
  }

  // And put in front of a semicolon it is cut out again.
  lemma PutBackStatement(st: seq<Token>, semi: Token, rest: seq<Token>)
    requires st != [] && st[0].kind != Scol && semi.kind == Scol
    requires StatementEnd(st) == |st| && !InTrigger(st, |st|)
    ensures StatementEnd(st + [semi] + rest) == |st|
  {
    var s, n := st + [semi] + rest, |st|;
    assert s[..n] == st && s[n] == semi;
    StartsTriggerLocal(s, n);
    InTriggerOfPrefix(s, n, n);
    StatementEndIsFirst(s, n);
    var m := StatementEnd(s);
    if m < n {
      StatementEndIsFirst(s, m);
      InTriggerOfPrefix(s, n, m);
      StatementEndIsFirst(st, m);
    }
  }
}
