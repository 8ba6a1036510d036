// The splitter's laws over the kinds of the tokens alone: what is one statement, said by a grammar of
// its own. Together they say where every text without an unfinished comment is cut.
module SplitLaws {
  import opened Tokens
  import opened SplitSpec
  import opened SplitTheorems
  import opened StatementIterators

  // ---- the grammar ---------------------------------------------------------------------------

  // CREATE TRIGGER, CREATE TEMP TRIGGER or CREATE TEMPORARY TRIGGER.
  predicate IsHead(h: seq<Token>) {
    || (|h| == 2 && h[0].kind == Create && h[1].kind == Trigger)
    || (|h| == 3 && h[0].kind == Create && h[1].kind == Temp && h[2].kind == Trigger)
    || (|h| == 3 && h[0].kind == Create && h[1].kind == Temporary && h[2].kind == Trigger)
  }

  predicate HasHead(s: seq<Token>) {
    (|s| >= 2 && IsHead(s[..2])) || (|s| >= 3 && IsHead(s[..3]))
  }

  predicate Without(s: seq<Token>, kind: Kind) {
    forall i :: 0 <= i < |s| ==> s[i].kind != kind
  }

  // A block in which every CASE has its END, semicolons anywhere.
  ghost predicate Balanced(b: seq<Token>)
    decreases |b|
  {
    || b == []
    || (b[0].kind != Case && b[0].kind != End && Balanced(b[1..]))
    || (b[0].kind == Case && exists k :: (
          0 < k < |b| && b[k].kind == End && Balanced(b[1..k]) && Balanced(b[k + 1..])))
  }

  // The head of a block: some of its CASEs have no END yet.
  ghost predicate OpenBlock(b: seq<Token>)
    decreases |b|
  {
    || Balanced(b)
    || exists k :: 0 <= k < |b| && b[k].kind == Case && Balanced(b[..k]) && OpenBlock(b[k + 1..])
  }

  predicate NoComment(s: seq<Token>) {
    forall i :: 0 <= i < |s| - 1 ==> s[i].kind != Div || s[i + 1].kind != Star
  }

  // ---- counting ------------------------------------------------------------------------------

  function Excess(b: seq<Token>): int {
    Count(b, Case) - Count(b, End)
  }

  lemma {:induction false} ExcessOfTwo(a: seq<Token>, b: seq<Token>)
    ensures Excess(a + b) == Excess(a) + Excess(b)
  {
    if b == [] {
      assert a + b == a;
    } else {
      var init, last := b[..|b| - 1], b[|b| - 1];
      ExcessOfTwo(a, init);
      assert a + b == (a + init) + [last] && b == init + [last];
      CountAppend(a + init, last, Case);
      CountAppend(a + init, last, End);
      CountAppend(init, last, Case);
      CountAppend(init, last, End);
    }
  }

  lemma ExcessOfOne(t: Token)
    ensures Excess([t]) == if t.kind == Case then 1 else if t.kind == End then -1 else 0
  {
    CountAppend([], t, Case);
    CountAppend([], t, End);
    assert [] + [t] == [t];
  }

  lemma ExcessOfCons(t: Token, b: seq<Token>)
    ensures Excess([t] + b) == (if t.kind == Case then 1 else if t.kind == End then -1 else 0) + Excess(b)
  {
    ExcessOfTwo([t], b);
    ExcessOfOne(t);
  }

  // The parts of a block that starts with CASE.
  lemma CaseParts(b: seq<Token>, k: nat)
    requires 0 < k < |b| && b[0].kind == Case && b[k].kind == End
    ensures Excess(b) == Excess(b[1..k]) + Excess(b[k + 1..])
  {
    var inner, rest := b[1..k], b[k + 1..];
    assert b == [b[0]] + (inner + ([b[k]] + rest));
    ExcessOfCons(b[0], inner + ([b[k]] + rest));
    ExcessOfTwo(inner, [b[k]] + rest);
    ExcessOfCons(b[k], rest);
  }

  lemma {:induction false} BalancedExcess(b: seq<Token>)
    requires Balanced(b)
    ensures Excess(b) == 0
    decreases |b|
  {
    if b != [] {
      if b[0].kind == Case {
        var k :| 0 < k < |b| && b[k].kind == End && Balanced(b[1..k]) && Balanced(b[k + 1..]);
        BalancedExcess(b[1..k]);
        BalancedExcess(b[k + 1..]);
        CaseParts(b, k);
      } else {
        BalancedExcess(b[1..]);
        ExcessOfCons(b[0], b[1..]);
        assert [b[0]] + b[1..] == b;
      }
    }
  }

  // No prefix of a balanced block closes more than it opens.
  lemma {:induction false} BalancedPrefix(b: seq<Token>, n: nat)
    requires Balanced(b) && n <= |b|
    ensures Excess(b[..n]) >= 0
    decreases |b|
  {
    if n > 0 {
      if b[0].kind == Case {
        var k :| 0 < k < |b| && b[k].kind == End && Balanced(b[1..k]) && Balanced(b[k + 1..]);
        CasePrefix(b, k, n);
        if n <= k {
          BalancedPrefix(b[1..k], n - 1);
        } else {
          BalancedExcess(b[1..k]);
          BalancedPrefix(b[k + 1..], n - k - 1);
        }
      } else {
        BalancedPrefix(b[1..], n - 1);
        ExcessOfCons(b[0], b[1..][..n - 1]);
        assert [b[0]] + b[1..][..n - 1] == b[..n];
      }
    }
  }

  lemma CasePrefix(b: seq<Token>, k: nat, n: nat)
    requires 0 < k < |b| && b[0].kind == Case && b[k].kind == End && 0 < n <= |b|
    ensures n <= k ==> Excess(b[..n]) == 1 + Excess(b[1..k][..n - 1])
    ensures k < n ==> Excess(b[..n]) == Excess(b[1..k]) + Excess(b[k + 1..][..n - k - 1])
  {
    if n <= k {
      assert b[..n] == [b[0]] + b[1..k][..n - 1];
      ExcessOfCons(b[0], b[1..k][..n - 1]);
    } else {
      CaseParts(b[..n], k);
      assert b[..n][1..k] == b[1..k] && b[..n][k + 1..] == b[k + 1..][..n - k - 1];
    }
  }

  lemma {:induction false} OpenPrefix(b: seq<Token>, n: nat)
    requires OpenBlock(b) && n <= |b|
    ensures Excess(b[..n]) >= 0
    decreases |b|
  {
    if Balanced(b) {
      BalancedPrefix(b, n);
    } else {
      var k :| 0 <= k < |b| && b[k].kind == Case && Balanced(b[..k]) && OpenBlock(b[k + 1..]);
      if n <= k {
        BalancedPrefix(b[..k], n);
        assert b[..k][..n] == b[..n];
      } else {
        OpenPrefix(b[k + 1..], n - k - 1);
        BalancedExcess(b[..k]);
        OpenParts(b, k, n);
      }
    }
  }

  lemma OpenParts(b: seq<Token>, k: nat, n: nat)
    requires k < n <= |b| && b[k].kind == Case
    ensures Excess(b[..n]) == Excess(b[..k]) + 1 + Excess(b[k + 1..][..n - k - 1])
  {
    var rest := b[k + 1..][..n - k - 1];
    assert b[..n] == b[..k] + ([b[k]] + rest);
    ExcessOfTwo(b[..k], [b[k]] + rest);
    ExcessOfCons(b[k], rest);
  }

  // ---- inside and outside a trigger ----------------------------------------------------------

  lemma HeadStarts(s: seq<Token>)
    ensures StartsTrigger(s) <==> HasHead(s)
  {
  }

  // In s, a head and a BEGIN at position `at` are followed by this block.
  ghost predicate HasBlock(s: seq<Token>, at: nat, block: seq<Token>) {
    && StartsTrigger(s) && BeginIndex(s) == at && at + 1 + |block| <= |s|
    && s[at + 1..at + 1 + |block|] == block
  }

  lemma DepthInBlock(s: seq<Token>, at: nat, block: seq<Token>, e: nat)
    requires HasBlock(s, at, block) && at < e <= at + 1 + |block|
    ensures BlockDepth(s, e) == 1 + Excess(block[..e - at - 1])
  {
    assert s[at + 1..e] == block[..e - at - 1];
  }

  // As far as the block goes, the trigger is open.
  lemma {:induction false} OpenInBlock(s: seq<Token>, at: nat, block: seq<Token>, i: nat)
    requires HasBlock(s, at, block) && OpenBlock(block) && i <= at + 1 + |block|
    ensures InTrigger(s, i)
  {
    forall e | 0 <= e <= i
      ensures !BlockClosedAt(s, e)
    {
      if at < e {
        DepthInBlock(s, at, block, e);
        OpenPrefix(block, e - at - 1);
      }
    }
  }

  // The END after a balanced block closes it.
  lemma {:induction false} ClosedAfterBlock(s: seq<Token>, at: nat, block: seq<Token>, i: nat)
    requires HasBlock(s, at, block) && Balanced(block)
    requires at + 1 + |block| < i <= |s| && s[at + 1 + |block|].kind == End
    ensures !InTrigger(s, i)
  {
    var e := at + 1 + |block|;
    DepthInBlock(s, at, block, e);
    BalancedExcess(block);
    assert block[..|block|] == block;
    BlockDepthStep(s, e);
    assert BlockClosedAt(s, e + 1);
  }

  lemma BeginIsAt(s: seq<Token>, at: nat)
    requires at <= |s| && Without(s[..at], Begin) && (at < |s| ==> s[at].kind == Begin)
    ensures BeginIndex(s) == at
  {
    forall i | 0 <= i < at
      ensures s[i].kind != Begin
    {
      assert s[..at][i] == s[i];
    }
  }

  // ---- statements ----------------------------------------------------------------------------

  lemma NoCommentStarts(s: seq<Token>)
    requires NoComment(s)
    ensures CommentStart(s) == |s|
  {
    forall j | 0 <= j < |s|
      ensures !CommentAt(s, j)
    {
    }
    CommentStartAtLeast(s, |s|);
  }

  // No semicolon of the list stands outside a trigger.
  lemma EndsNowhere(s: seq<Token>)
    requires s != [] && s[0].kind != Scol && NoComment(s)
    requires forall i :: 0 <= i < |s| && s[i].kind == Scol ==> InTrigger(s, i)
    ensures IsStatement(s)
  {
    NoCommentStarts(s);
    var m := StatementEnd(s);
    if m < |s| {
      StatementEndIsFirst(s, m);
    }
  }

  lemma SplitAlone(s: seq<Token>)
    requires IsStatement(s)
    ensures Split(s) == [s]
  {
    assert BeforeComment(s) == s && s[..|s|] == s;
  }

  lemma {:induction false} CommentAfter(a: seq<Token>, semi: Token, rest: seq<Token>)
    requires CommentStart(a) == |a| && semi.kind == Scol
    ensures CommentStart(a + [semi] + rest) == |a| + 1 + CommentStart(rest)
  {
    var s := a + [semi] + rest;
    if a == [] {
      assert s[1..] == rest;
    } else {
      CommentStartIsFirst(a, 0);
      CommentAfter(a[1..], semi, rest);
      assert s[1..] == a[1..] + [semi] + rest;
      assert !CommentAt(s, 0);
    }
  }

  // A finished statement and its semicolon are cut off.
  lemma SplitAcross(st: seq<Token>, semi: Token, rest: seq<Token>)
    requires IsStatement(st) && !Unfinished(st) && semi.kind == Scol
    ensures Split(st + [semi] + rest) == [st] + Split(rest)
  {
    var vis := BeforeComment(rest);
    CommentAfter(st, semi, rest);
    PutBackStatement(st, semi, vis);
    var s := st + [semi] + vis;
    assert BeforeComment(st + [semi] + rest) == s;
    assert s[..|st|] == st && s[|st| + 1..] == vis;
    assert s[0] == st[0];
  }

  // ---- the laws ------------------------------------------------------------------------------

  // A finished trigger: its head, tokens without BEGIN, BEGIN, a balanced block, END, and what follows
  // up to the next semicolon.
  function TriggerText(h: seq<Token>, pre: seq<Token>, begin: Token, block: seq<Token>, end: Token, tail: seq<Token>)
    : seq<Token>
  {
    h + pre + [begin] + block + [end] + tail
  }

  ghost predicate IsTrigger(h: seq<Token>, pre: seq<Token>, begin: Token, block: seq<Token>, end: Token,
                            tail: seq<Token>) {
    && IsHead(h) && Without(pre, Begin) && begin.kind == Begin && Balanced(block) && end.kind == End
    && Without(tail, Scol)
  }

  lemma HeadOf(h: seq<Token>, rest: seq<Token>)
    requires IsHead(h)
    ensures StartsTrigger(h + rest) && Without(h, Begin) && (h + rest)[0].kind != Scol
  {
    assert (h + rest)[..|h|] == h;
    HeadStarts(h + rest);
  }

  lemma {:induction false} BlockOf(h: seq<Token>, pre: seq<Token>, begin: Token, block: seq<Token>, more: seq<Token>)
    requires IsHead(h) && Without(pre, Begin) && begin.kind == Begin
    ensures var s := h + pre + [begin] + block + more;
      HasBlock(s, |h| + |pre|, block) && s[0].kind != Scol && s != []
  {
    var s, at := h + pre + [begin] + block + more, |h| + |pre|;
    assert s == h + (pre + [begin] + block + more);
    HeadOf(h, pre + [begin] + block + more);
    assert s[..at] == h + pre && s[at] == begin;
    BeginIsAt(s, at);
    assert s[at + 1..at + 1 + |block|] == block;
  }

  lemma {:induction false} TriggerIsStatement(h: seq<Token>, pre: seq<Token>, begin: Token, block: seq<Token>,
                                              end: Token, tail: seq<Token>)
    requires IsTrigger(h, pre, begin, block, end, tail) && NoComment(TriggerText(h, pre, begin, block, end, tail))
    ensures var st := TriggerText(h, pre, begin, block, end, tail); IsStatement(st) && !Unfinished(st)
  {
    var st, at := TriggerText(h, pre, begin, block, end, tail), |h| + |pre|;
    var close := at + 1 + |block|;
    assert st == h + pre + [begin] + block + ([end] + tail);
    BlockOf(h, pre, begin, block, [end] + tail);
    assert st[close] == end && st[close + 1..] == tail;
    forall i | close < i < |st|
      ensures st[i].kind != Scol
    {
      assert st[i] == st[close + 1..][i - close - 1];
    }
    forall i | 0 <= i <= close
      ensures InTrigger(st, i)
    {
      OpenInBlock(st, at, block, i);
    }
    EndsNowhere(st);
    ClosedAfterBlock(st, at, block, |st|);
  }

  // A finished trigger is one statement, whatever semicolons its block holds, and the next semicolon
  // ends it.
  lemma {:induction false} TriggerIsOne(h: seq<Token>, pre: seq<Token>, begin: Token, block: seq<Token>, end: Token,
                                        tail: seq<Token>, semi: Token, rest: seq<Token>)
    requires IsTrigger(h, pre, begin, block, end, tail) && NoComment(TriggerText(h, pre, begin, block, end, tail))
    requires semi.kind == Scol
    ensures var st := TriggerText(h, pre, begin, block, end, tail);
      && Split(st) == [st] && Split(st + [semi] + rest) == [st] + Split(rest)
      && !EndInfo(st).incompleteCreateTriggerStatement
  {
    var st := TriggerText(h, pre, begin, block, end, tail);
    TriggerIsStatement(h, pre, begin, block, end, tail);
    SplitAlone(st);
    SplitAcross(st, semi, rest);
  }

  // A trigger without its BEGIN, or without the END of its block, takes all that follows, and is
  // unfinished.
  lemma {:induction false} HeadIsOne(h: seq<Token>, pre: seq<Token>)
    requires IsHead(h) && Without(pre, Begin) && NoComment(h + pre)
    ensures Split(h + pre) == [h + pre] && EndInfo(h + pre).incompleteCreateTriggerStatement
  {
    var st := h + pre;
    HeadOf(h, pre);
    assert st[..|st|] == st;
    BeginIsAt(st, |st|);
    EndsNowhere(st);
    SplitAlone(st);
  }

  lemma {:induction false} OpenTriggerIsOne(h: seq<Token>, pre: seq<Token>, begin: Token, block: seq<Token>)
    requires IsHead(h) && Without(pre, Begin) && begin.kind == Begin && OpenBlock(block)
    requires NoComment(h + pre + [begin] + block)
    ensures var st := h + pre + [begin] + block;
      Split(st) == [st] && EndInfo(st).incompleteCreateTriggerStatement
  {
    var st, at := h + pre + [begin] + block, |h| + |pre|;
    assert st == h + pre + [begin] + block + [];
    BlockOf(h, pre, begin, block, []);
    forall i | 0 <= i <= |st|
      ensures InTrigger(st, i)
    {
      OpenInBlock(st, at, block, i);
    }
    EndsNowhere(st);
    SplitAlone(st);
  }

  // Any other statement ends at its first semicolon.
  lemma {:induction false} OtherIsCut(st: seq<Token>, semi: Token, rest: seq<Token>)
    requires st != [] && Without(st, Scol) && !HasHead(st) && NoComment(st) && semi.kind == Scol
    ensures Split(st) == [st] && Split(st + [semi] + rest) == [st] + Split(rest)
    ensures !EndInfo(st).incompleteCreateTriggerStatement
  {
    HeadStarts(st);
    EndsNowhere(st);
    SplitAlone(st);
    SplitAcross(st, semi, rest);
  }

  // A semicolon without a statement in front of it is skipped.
  lemma {:induction false} EmptyIsSkipped(semi: Token, rest: seq<Token>)
    requires semi.kind == Scol
    ensures Split([]) == [] && Split([semi] + rest) == Split(rest)
  {
    CommentAfter([], semi, rest);
    assert [] + [semi] + rest == [semi] + rest;
    assert BeforeComment([semi] + rest) == [semi] + BeforeComment(rest);
    assert ([semi] + BeforeComment(rest))[1..] == BeforeComment(rest);
  }

  // The text from an unfinished comment on is left out: it takes no part in any statement.
  lemma {:induction false} CommentIsDropped(before: seq<Token>, slash: Token, star: Token, rest: seq<Token>)
    requires NoComment(before + [slash]) && slash.kind == Div && star.kind == Star
    ensures Split(before + [slash, star] + rest) == Split(before)
    ensures EndInfo(before + [slash, star] + rest).incompleteMultilineComment
    ensures !EndInfo(before).incompleteMultilineComment
  {
    var ts := before + [slash, star] + rest;
    assert before + [slash] == ts[..|before| + 1];
    forall j | 0 <= j < |before|
      ensures !CommentAt(ts, j)
    {
      assert ts[j] == (before + [slash])[j] && ts[j + 1] == (before + [slash])[j + 1];
    }
    CommentStartAtLeast(ts, |before|);
    CommentStartIsFirst(ts, |before|);
    assert CommentAt(ts, |before|);
    assert BeforeComment(ts) == before;
    assert NoComment(before) by {
      forall i | 0 <= i < |before| - 1
        ensures before[i].kind != Div || before[i + 1].kind != Star
      {
        assert (before + [slash])[i] == before[i] && (before + [slash])[i + 1] == before[i + 1];
      }
    }
    NoCommentStarts(before);
    assert BeforeComment(before) == before;
  }

  // ---- texts ---------------------------------------------------------------------------------

  // What is looked at is what the lexer put on channel 0.
  lemma {:induction false} VisibleExactly(tokens: seq<Token>, t: Token)
    ensures t in Visible(tokens) <==> t in tokens && t.channel == 0
  {
    if tokens != [] {
      VisibleExactly(tokens[1..], t);
      assert tokens == [tokens[0]] + tokens[1..];
    }
  }

  lemma {:induction false} TokensOfStatements(s: seq<Token>, k: nat, j: nat)
    requires k < |Statements(s)| && j < |Statements(s)[k]|
    ensures Statements(s)[k][j] in s
    decreases |s|
  {
    if s[0].kind == Scol {
      TokensOfStatements(s[1..], k, j);
    } else if k > 0 {
      TokensOfStatements(s[StatementEnd(s) + 1..], k - 1, j);
    }
  }

  lemma {:induction false} TextsAt(input: string, sts: seq<seq<Token>>, k: nat)
    requires k < |sts|
    ensures |Texts(input, sts)| == |sts| && Texts(input, sts)[k] == TextOf(input, sts[k])
  {
    if k > 0 {
      TextsAt(input, sts[1..], k - 1);
    } else if |sts| > 1 {
      TextsAt(input, sts[1..], 0);
    }
  }

  // The tokens of a statement lie in the source text.
  lemma {:induction false} EndsInside(ts: seq<Token>, size: nat, k: nat)
    requires LexerOutput(ts, size) && k < |Split(ts)|
    ensures var st := Split(ts)[k]; st != [] && st[0].start <= st[|st| - 1].stop < size
  {
    SplitIsWellFormed(ts);
    TokenConservation(ts, size);
    var st := Split(ts)[k];
    assert IsStatement(st);
    TokensOfStatements(BeforeComment(ts), k, |st| - 1);
    var i :| 0 <= i < |ts| && ts[i] == st[|st| - 1];
    TokenAt(ts, size, i);
  }

  // Text k of SplitStatement is the source from the first character of its first token to the last
  // character of its last token.
  lemma {:induction false} TextsExactly(input: string, tokens: seq<Token>, k: nat)
    requires LexerOutput(tokens, |input|) && k < |Split(Visible(tokens))|
    ensures |Texts(input, Split(Visible(tokens)))| == |Split(Visible(tokens))|
    ensures var st := Split(Visible(tokens))[k];
      && st != [] && st[0].start <= st[|st| - 1].stop < |input|
      && Texts(input, Split(Visible(tokens)))[k] == input[st[0].start..st[|st| - 1].stop + 1]
  {
    var ts := Visible(tokens);
    VisibleIsLexerOutput(tokens, |input|);
    EndsInside(ts, |input|, k);
    TextsAt(input, Split(ts), k);
  }
}
