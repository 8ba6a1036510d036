// Split and join undo each other, and splitting loses no token.
module SplitTheorems {
  import opened Tokens
  import opened SplitSpec

  // ---- round trip ----------------------------------------------------------------------------

  // A token list the splitter can return as one statement.
  ghost predicate IsStatement(st: seq<Token>) {
    && st != []
    && st[0].kind != Scol
    && CommentStart(st) == |st|
    && StatementEnd(st) == |st|
  }

  ghost predicate Unfinished(st: seq<Token>) {
    InTrigger(st, |st|)
  }

  // Statement lists the splitter can return: only the last one may be an unfinished trigger.
  ghost predicate WellFormed(sts: seq<seq<Token>>) {
    && (forall k :: 0 <= k < |sts| ==> IsStatement(sts[k]))
    && (forall k :: 0 <= k < |sts| - 1 ==> !Unfinished(sts[k]))
  }

  function Join(sts: seq<seq<Token>>, semi: Token): seq<Token> {
    if sts == [] then []
    else if |sts| == 1 then sts[0]
    else sts[0] + [semi] + Join(sts[1..], semi)
  }

  // No unfinished comment starts before position i.
  lemma {:induction false} CommentStartAtLeast(ts: seq<Token>, i: nat)
    requires i <= |ts| && forall j :: 0 <= j < i ==> !CommentAt(ts, j)
    ensures i <= CommentStart(ts)
  {
    CommentStartIsFirst(ts, CommentStart(ts));
  }

  lemma NoCommentInSlice(ts: seq<Token>, lo: nat, hi: nat)
    requires lo <= hi <= |ts| && CommentStart(ts) == |ts|
    ensures CommentStart(ts[lo..hi]) == hi - lo
  {
    forall j | 0 <= j < hi - lo
      ensures !CommentAt(ts[lo..hi], j)
    {
      CommentStartIsFirst(ts, lo + j);
    }
    CommentStartAtLeast(ts[lo..hi], hi - lo);
  }

  lemma BeforeCommentHasNone(ts: seq<Token>)
    ensures CommentStart(BeforeComment(ts)) == |BeforeComment(ts)|
  {
    var vis := BeforeComment(ts);
    forall j | 0 <= j < |vis|
      ensures !CommentAt(vis, j)
    {
      CommentStartIsFirst(ts, j);
    }
    CommentStartAtLeast(vis, |vis|);
  }

  lemma WellFormedCons(st: seq<Token>, rest: seq<seq<Token>>)
    requires IsStatement(st) && WellFormed(rest) && (rest != [] ==> !Unfinished(st))
    ensures WellFormed([st] + rest)
  {
  }

  lemma {:induction false} StatementsAreWellFormed(s: seq<Token>)
    requires CommentStart(s) == |s|
    ensures WellFormed(Statements(s))
    decreases |s|
  {
    if s == [] {
    } else if s[0].kind == Scol {
      NoCommentInSlice(s, 1, |s|);
      StatementsAreWellFormed(s[1..]);
    } else {
      var n := StatementEnd(s);
      CutOutStatement(s, n);
      NoCommentInSlice(s, 0, n);
      assert s[0..n] == s[..n];
      assert IsStatement(s[..n]);
      if n < |s| {
        NoCommentInSlice(s, n + 1, |s|);
        assert s[n + 1..|s|] == s[n + 1..];
        StatementsAreWellFormed(s[n + 1..]);
      }
      WellFormedCons(s[..n], if n < |s| then Statements(s[n + 1..]) else []);
    }
  }

  lemma SplitIsWellFormed(ts: seq<Token>)
    ensures WellFormed(Split(ts))
  {
    BeforeCommentHasNone(ts);
    StatementsAreWellFormed(BeforeComment(ts));
  }

  lemma NoCommentAcrossSemicolon(a: seq<Token>, semi: Token, b: seq<Token>)
    requires CommentStart(a) == |a| && CommentStart(b) == |b| && semi.kind == Scol
    ensures CommentStart(a + [semi] + b) == |a| + 1 + |b|
  {
    var s := a + [semi] + b;
    forall j | 0 <= j < |s|
      ensures !CommentAt(s, j)
    {
      if j < |a| {
        CommentStartIsFirst(a, j);
      } else if |a| < j {
        CommentStartIsFirst(b, j - |a| - 1);
      }
    }
    CommentStartAtLeast(s, |s|);
  }

  lemma {:induction false} SplitOfJoin(sts: seq<seq<Token>>, semi: Token)
    requires semi.kind == Scol && WellFormed(sts)
    ensures CommentStart(Join(sts, semi)) == |Join(sts, semi)|
    ensures Statements(Join(sts, semi)) == sts
  {
    if sts == [] {
    } else if |sts| == 1 {
      var st := sts[0];
      assert st[..|st|] == st;
    } else {
      var st, rest := sts[0], Join(sts[1..], semi);
      assert IsStatement(st) && !Unfinished(st);
      SplitOfJoin(sts[1..], semi);
      NoCommentAcrossSemicolon(st, semi, rest);
      PutBackStatement(st, semi, rest);
      var s := st + [semi] + rest;
      assert s[..|st|] == st && s[|st| + 1..] == rest;
      assert s[0] == st[0];
      assert rest == [] ==> Statements(rest) == [];
    }
  }

  // Joining what Split returned with single semicolons and splitting again returns the same list.
  lemma RoundTrip(ts: seq<Token>, semi: Token)
    requires semi.kind == Scol
    ensures Split(Join(Split(ts), semi)) == Split(ts)
  {
    SplitIsWellFormed(ts);
    SplitOfJoin(Split(ts), semi);
    assert BeforeComment(Join(Split(ts), semi)) == Join(Split(ts), semi);
  }

  // The lists that survive a join and a split are exactly the well-formed ones.
  lemma RoundTripExactly(sts: seq<seq<Token>>, semi: Token)
    requires semi.kind == Scol
    ensures Split(Join(sts, semi)) == sts <==> WellFormed(sts)
  {
    if WellFormed(sts) {
      SplitOfJoin(sts, semi);
      assert BeforeComment(Join(sts, semi)) == Join(sts, semi);
    } else {
      SplitIsWellFormed(Join(sts, semi));
    }
  }

  // ---- conservation --------------------------------------------------------------------------

  // Token t lies inside the characters from the first to the last token of the statement.
  predicate Holds(st: seq<Token>, t: Token) {
    st != [] && st[0].start <= t.start && t.stop <= st[|st| - 1].stop
  }

  ghost predicate HeldByOne(sts: seq<seq<Token>>, t: Token) {
    exists k :: 0 <= k < |sts| && t in sts[k] && HeldOnlyBy(sts, t, k)
  }

  ghost predicate HeldOnlyBy(sts: seq<seq<Token>>, t: Token, k: nat) {
    forall l :: 0 <= l < |sts| ==> (Holds(sts[l], t) <==> l == k)
  }

  ghost predicate HeldByNone(sts: seq<seq<Token>>, t: Token) {
    forall l :: 0 <= l < |sts| ==> !Holds(sts[l], t)
  }

  // The source texts of the statements come one after the other, all of them from position p on.
  ghost predicate InOrder(sts: seq<seq<Token>>, p: int) {
    && (forall k :: 0 <= k < |sts| ==> sts[k] != [] && p <= sts[k][0].start <= sts[k][|sts[k]| - 1].stop)
    && (forall k, l :: 0 <= k < l < |sts| ==> EndsBefore(sts[k], sts[l]))
  }

  predicate EndsBefore(a: seq<Token>, b: seq<Token>) {
    a != [] && b != [] && a[|a| - 1].stop < b[0].start
  }

  lemma InOrderCons(st: seq<Token>, rest: seq<seq<Token>>, p: int, q: int)
    requires st != [] && p <= st[0].start <= st[|st| - 1].stop < q && InOrder(rest, q)
    ensures InOrder([st] + rest, p)
  {
    var sts := [st] + rest;
    forall k, l | 0 <= k < l < |sts|
      ensures EndsBefore(sts[k], sts[l])
    {
      assert sts[l] == rest[l - 1];
      assert k > 0 ==> sts[k] == rest[k - 1];
    }
  }

  // The statement texts of s lie one after the other.
  lemma {:induction false} StatementsInOrder(s: seq<Token>, size: nat, p: int)
    requires LexerOutput(s, size) && (s != [] ==> p <= s[0].start)
    ensures InOrder(Statements(s), p)
    decreases |s|
  {
    if s == [] {
    } else if s[0].kind == Scol {
      DropIsLexerOutput(s, 1, size);
      StatementsInOrder(s[1..], size, p);
    } else {
      var n := StatementEnd(s);
      NonSemicolonIsNoEnd(s);
      TokensInOrder(s, size, 0, n - 1);
      var q := s[n - 1].stop + 1;
      if n < |s| {
        DropIsLexerOutput(s, n + 1, size);
        if n + 1 < |s| {
          TokensInOrder(s, size, n - 1, n + 1);
        }
        StatementsInOrder(s[n + 1..], size, q);
        InOrderCons(s[..n], Statements(s[n + 1..]), p, q);
      } else {
        InOrderCons(s[..n], [], p, q);
      }
    }
  }

  lemma HeldByTail(st: seq<Token>, rest: seq<seq<Token>>, t: Token)
    requires !Holds(st, t)
    ensures HeldByOne(rest, t) ==> HeldByOne([st] + rest, t)
    ensures HeldByNone(rest, t) ==> HeldByNone([st] + rest, t)
  {
    var sts := [st] + rest;
    if HeldByOne(rest, t) {
      var k :| 0 <= k < |rest| && t in rest[k] && HeldOnlyBy(rest, t, k);
      assert sts[k + 1] == rest[k];
      assert HeldOnlyBy(sts, t, k + 1);
    }
  }

  lemma HeldByHead(st: seq<Token>, rest: seq<seq<Token>>, t: Token, p: int)
    requires t in st && Holds(st, t) && InOrder(rest, p) && t.start < p
    ensures HeldByOne([st] + rest, t)
  {
    assert HeldOnlyBy([st] + rest, t, 0);
  }

  ghost predicate Conserved(sts: seq<seq<Token>>, t: Token) {
    HeldByOne(sts, t) || (t.kind == Scol && HeldByNone(sts, t))
  }

  // The tokens after the semicolon that ends the first statement.
  lemma RestInOrder(s: seq<Token>, size: nat, n: nat)
    requires LexerOutput(s, size) && n < |s|
    ensures LexerOutput(s[n + 1..], size)
    ensures InOrder(Statements(s[n + 1..]), s[n].stop + 1)
    ensures n > 0 ==> s[n - 1].stop < s[n].stop
  {
    DropIsLexerOutput(s, n + 1, size);
    TokenAt(s, size, n);
    if n > 0 {
      TokensInOrder(s, size, n - 1, n);
    }
    var t := s[n + 1..];
    if t != [] {
      TokensInOrder(s, size, n, n + 1);
    }
    StatementsInOrder(t, size, s[n].stop + 1);
  }

  // The first statement of s and the statements after it.
  lemma StatementsCons(s: seq<Token>, size: nat) returns (n: nat, rest: seq<seq<Token>>)
    requires LexerOutput(s, size) && s != [] && s[0].kind != Scol
    ensures 0 < n <= |s| && Statements(s) == [s[..n]] + rest
    ensures if n == |s| then rest == [] else s[n].kind == Scol && rest == Statements(s[n + 1..])
    ensures InOrder(rest, s[n - 1].stop + 1)
  {
    n := StatementEnd(s);
    NonSemicolonIsNoEnd(s);
    rest := [];
    if n < |s| {
      StatementEndIsFirst(s, n);
      RestInOrder(s, size, n);
      rest := Statements(s[n + 1..]);
    }
  }

  lemma HeadConserved(st: seq<Token>, rest: seq<seq<Token>>, size: nat, i: nat)
    requires LexerOutput(st, size) && i < |st| && InOrder(rest, st[|st| - 1].stop + 1)
    ensures Conserved([st] + rest, st[i])
  {
    TokensInOrder(st, size, 0, i);
    TokensInOrder(st, size, i, |st| - 1);
    HeldByHead(st, rest, st[i], st[|st| - 1].stop + 1);
  }

  // Token number i is in the source text of exactly one statement, or is a semicolon in none.
  lemma {:induction false} TokenConserved(s: seq<Token>, size: nat, i: nat)
    requires LexerOutput(s, size) && i < |s|
    ensures Conserved(Statements(s), s[i])
    decreases |s|
  {
    if s[0].kind == Scol {
      DropIsLexerOutput(s, 1, size);
      if i == 0 {
        StatementsInOrder(s[1..], size, s[0].stop + 1);
      } else {
        TokenConserved(s[1..], size, i - 1);
      }
    } else {
      var n, rest := StatementsCons(s, size);
      if i < n {
        TakeIsLexerOutput(s, n, size);
        HeadConserved(s[..n], rest, size, i);
      } else {
        RestInOrder(s, size, n);
        if i > n {
          TokenConserved(s[n + 1..], size, i - n - 1);
        }
        TokensInOrder(s, size, n - 1, i);
        TokenAt(s, size, i);
        HeldByTail(s[..n], rest, s[i]);
      }
    }
  }

  // Every default-channel token before the cut is in the source text of exactly one statement,
  // or is a semicolon in none; the texts come in order and do not overlap.
  lemma TokenConservation(ts: seq<Token>, size: nat)
    requires LexerOutput(ts, size)
    ensures forall t :: t in BeforeComment(ts) ==> Conserved(Split(ts), t)
    ensures InOrder(Split(ts), 0)
  {
    var vis := BeforeComment(ts);
    TakeIsLexerOutput(ts, |vis|, size);
    StatementsInOrder(vis, size, 0);
    forall t | t in vis
      ensures Conserved(Split(ts), t)
    {
      var i :| 0 <= i < |vis| && vis[i] == t;
      TokenConserved(vis, size, i);
    }
  }

  // A semicolon inside a returned statement stands in a trigger whose block is open, and only the
  // last statement can be an unfinished trigger.
  lemma OnlyTriggersHoldSemicolons(ts: seq<Token>, k: nat, j: nat)
    requires k < |Split(ts)| && j < |Split(ts)[k]|
    ensures Split(ts)[k][j].kind == Scol ==> InTrigger(Split(ts)[k], j)
    ensures Unfinished(Split(ts)[k]) ==> k == |Split(ts)| - 1
  {
    SplitIsWellFormed(ts);
    var st := Split(ts)[k];
    assert IsStatement(st);
    StatementEndIsFirst(st, j);
  }

  // A slash and a star with a blank between them are cut off as well: the blank is hidden, and only
  // the tokens that are left are compared.
  lemma SlashBlankStarIsCut(blank: Token)
    requires blank.channel != DEFAULT_CHANNEL && blank.kind != Eof && blank.start == blank.stop == 1
    ensures var ts := [Token(Div, DEFAULT_CHANNEL, 0, 0), blank, Token(Star, DEFAULT_CHANNEL, 2, 2)];
      LexerOutput(ts, 3) && CommentStart(Visible(ts)) == 0 && Split(Visible(ts)) == []
  {
    var slash, star := Token(Div, DEFAULT_CHANNEL, 0, 0), Token(Star, DEFAULT_CHANNEL, 2, 2);
    var ts := [slash, blank, star];
    assert [star][1..] == [];
    assert [blank, star][1..] == [star];
    assert ts[1..] == [blank, star];
    assert LexerOutput([star], 3) && LexerOutput([blank, star], 3);
    assert Visible([star]) == [star] + [];
    assert Visible(ts) == [slash, star];
    assert CommentAt(Visible(ts), 0);
    assert BeforeComment(Visible(ts)) == [];
  }
}
