// What a batch does to a transactional database in which a failed statement has no effect,
// or at most ends the open transaction.
module Atomicity {
  import opened Wrappers
  import opened Sequences
  import opened BatchCompiler
  import opened BatchMeaning

  datatype Kind = Begin | Commit | Rollback | Other

  // Aborted is a failure that takes the open transaction with it.
  datatype Verdict = Allowed | Refused | Aborted

  // verdict says for every statement, counted from the start, whether the server lets it through.
  datatype Engine<!D, !T, !R> = Engine(
    kind: T -> Kind,
    apply: (D, T) -> Option<(D, R)>,
    verdict: nat -> Verdict,
    ack: R)

  datatype Db<D> = Db(committed: D, txn: Option<D>, executed: nat)

  function Fail<D, R>(db: Db<D>, verdict: Verdict): (Db<D>, Executed<R>) {
    (db.(txn := if verdict == Aborted then None else db.txn, executed := db.executed + 1), Error("failed"))
  }

  function Exec<D, T, R>(e: Engine<D, T, R>, db: Db<D>, t: T): (Db<D>, Executed<R>) {
    var verdict := e.verdict(db.executed);
    var next := db.executed + 1;
    match e.kind(t)
    case Begin =>
      if db.txn.Some? || verdict != Allowed then Fail(db, verdict)
      else (db.(txn := Some(db.committed), executed := next), Done(e.ack))
    case Commit =>
      if db.txn.None? || verdict != Allowed then Fail(db, verdict)
      else (Db(db.txn.value, None, next), Done(e.ack))
    case Rollback =>
      if db.txn.None? || verdict != Allowed then Fail(db, verdict)
      else (db.(txn := None, executed := next), Done(e.ack))
    case Other =>
      if verdict != Allowed then Fail(db, verdict)
      else
        match e.apply(if db.txn.Some? then db.txn.value else db.committed, t)
        case None => Fail(db, Refused)
        case Some((d, r)) =>
          if db.txn.Some? then (db.(txn := Some(d), executed := next), Done(r))
          else (Db(d, None, next), Done(r))
  }

  function Executor<D, T, R>(e: Engine<D, T, R>): (Db<D>, T) -> (Db<D>, Executed<R>) {
    (db, t) => Exec(e, db, t)
  }

  // The effect of the whole body, if every statement of it applies.
  function ApplyAll<D, T, R>(e: Engine<D, T, R>, d: D, body: seq<T>): Option<D> {
    if body == [] then Some(d)
    else
      match ApplyAll(e, d, body[..|body| - 1])
      case None => None
      case Some(d') =>
        match e.apply(d', body[|body| - 1])
        case None => None
        case Some((d'', _)) => Some(d'')
  }

  predicate IsTransaction<D, T, R>(e: Engine<D, T, R>, begin: T, body: seq<T>, commit: T, rollback: T) {
    && e.kind(begin) == Begin && e.kind(commit) == Commit && e.kind(rollback) == Rollback
    && forall i :: 0 <= i < |body| ==> e.kind(body[i]) == Other
  }

  // After BEGIN and a part of the body nothing is committed, and an open transaction without an
  // error holds exactly that part.
  lemma {:induction false} BodyIsUncommitted<D, T, R>(e: Engine<D, T, R>, begin: T, body: seq<T>, db: Db<D>)
    requires db.txn.None? && e.kind(begin) == Begin
    requires forall i :: 0 <= i < |body| ==> e.kind(body[i]) == Other
    ensures var u := UntilError([begin] + body, Executor(e), db);
      && u.state.committed == db.committed
      && (u.error.None? ==> u.state.txn.Some? && u.state.txn == ApplyAll(e, db.committed, body))
  {
    if body == [] {
      UntilErrorSnoc([], begin, Executor(e), db);
      assert [] + [begin] == [begin] == [begin] + body;
    } else {
      var init, last := body[..|body| - 1], body[|body| - 1];
      BodyIsUncommitted(e, begin, init, db);
      UntilErrorSnoc([begin] + init, last, Executor(e), db);
      assert ([begin] + init) + [last] == [begin] + body;
    }
  }

  // COMMIT is what commits the body, and ends the transaction.
  lemma {:induction false} CommitEnds<D, T, R>(e: Engine<D, T, R>, begin: T, body: seq<T>, commit: T, db: Db<D>)
    requires db.txn.None? && e.kind(begin) == Begin && e.kind(commit) == Commit
    requires forall i :: 0 <= i < |body| ==> e.kind(body[i]) == Other
    ensures var u := UntilError([begin] + body + [commit], Executor(e), db);
      if u.error.None? then u.state.txn.None? && ApplyAll(e, db.committed, body) == Some(u.state.committed)
      else u.state.committed == db.committed
  {
    BodyIsUncommitted(e, begin, body, db);
    UntilErrorSnoc([begin] + body, commit, Executor(e), db);
  }

  lemma {:induction false} RollbackUndoes<D, T, R>(e: Engine<D, T, R>, db: Db<D>, rollback: T)
    requires e.kind(rollback) == Rollback
    ensures var after := Executor(e)(db, rollback).0;
      && after.committed == db.committed
      && (after.txn.Some? <==> db.txn.Some? && e.verdict(db.executed) == Refused)
  {
  }

  // Whichever statements fail, the batch has committed the whole body when every statement succeeded,
  // and nothing otherwise. A transaction stays open exactly when the failing statement left it open
  // and the server refuses the ROLLBACK as well.
  lemma {:induction false} Atomic<D, T, R>(e: Engine<D, T, R>, begin: T, body: seq<T>, commit: T, rollback: T,
                                           db: Db<D>)
    requires db.txn.None? && IsTransaction(e, begin, body, commit, rollback) && |body| + 2 <= TWO_31
    ensures var stmts := [begin] + body + [commit];
      var u := UntilError(stmts, Executor(e), db);
      var p := Run(Compile(stmts, rollback, true), Executor(e), db);
      && (u.error.None? ==> ApplyAll(e, db.committed, body) == Some(p.state.committed))
      && (u.error.Some? ==> p.state.committed == db.committed)
      && (p.state.txn.Some? <==> u.error.Some? && u.state.txn.Some? && e.verdict(u.state.executed) == Refused)
  {
    var stmts := [begin] + body + [commit];
    CommitEnds(e, begin, body, commit, db);
    StopAtFirstError(stmts, rollback, Executor(e), db);
    RollbackUndoes(e, UntilError(stmts, Executor(e), db).state, rollback);
  }

  // With a server that refuses nothing, the body is committed exactly when all of it applies.
  lemma CommitsWhatApplies<D, T, R>(e: Engine<D, T, R>, begin: T, body: seq<T>, commit: T, rollback: T, db: Db<D>)
    requires db.txn.None? && IsTransaction(e, begin, body, commit, rollback) && |body| + 2 <= TWO_31
    requires forall n :: e.verdict(n) == Allowed
    ensures var p := Run(Compile([begin] + body + [commit], rollback, true), Executor(e), db);
      p.state.committed == match ApplyAll(e, db.committed, body) { case Some(d) => d case None => db.committed }
  {
    Atomic(e, begin, body, commit, rollback, db);
    BodyIsUncommitted(e, begin, body, db);
    UntilErrorSnoc([begin] + body, commit, Executor(e), db);
    AppliesWhenAllowed(e, begin, body, db);
  }

  lemma {:induction false} AppliesWhenAllowed<D, T, R>(e: Engine<D, T, R>, begin: T, body: seq<T>, db: Db<D>)
    requires db.txn.None? && e.kind(begin) == Begin
    requires forall i :: 0 <= i < |body| ==> e.kind(body[i]) == Other
    requires forall n :: e.verdict(n) == Allowed
    ensures UntilError([begin] + body, Executor(e), db).error.None? <==> ApplyAll(e, db.committed, body).Some?
  {
    if body == [] {
      UntilErrorSnoc([], begin, Executor(e), db);
      assert [] + [begin] == [begin] == [begin] + body;
    } else {
      var init, last := body[..|body| - 1], body[|body| - 1];
      AppliesWhenAllowed(e, begin, init, db);
      BodyIsUncommitted(e, begin, init, db);
      UntilErrorSnoc([begin] + init, last, Executor(e), db);
      assert ([begin] + init) + [last] == [begin] + body;
    }
  }

  // ---- lists without BEGIN -------------------------------------------------------------------

  lemma TakeOfSnoc<T>(s: seq<T>, t: T, n: nat)
    requires n <= |s|
    ensures (s + [t])[..n] == s[..n]
  {
  }

  lemma ApplyAllSnoc<D, T, R>(e: Engine<D, T, R>, d: D, body: seq<T>, t: T)
    ensures ApplyAll(e, d, body + [t]) ==
      match ApplyAll(e, d, body)
      case None => None
      case Some(d') => (match e.apply(d', t) case None => None case Some((d'', _)) => Some(d''))
  {
    assert (body + [t])[..|body|] == body;
  }

  // What ran of a list without transaction statements, when no transaction is open.
  ghost predicate IsApplied<D, T, R>(e: Engine<D, T, R>, body: seq<T>, db: Db<D>) {
    var u := UntilError(body, Executor(e), db);
    u.state.txn.None? && ApplyAll(e, db.committed, body[..|u.results|]) == Some(u.state.committed)
  }

  lemma {:induction false} PrefixAppliedStep<D, T, R>(e: Engine<D, T, R>, init: seq<T>, last: T, db: Db<D>)
    requires IsApplied(e, init, db) && e.kind(last) == Other
    ensures IsApplied(e, init + [last], db)
  {
    var u, v := UntilError(init, Executor(e), db), UntilError(init + [last], Executor(e), db);
    UntilErrorSnoc(init, last, Executor(e), db);
    TakeOfSnoc(init, last, |u.results|);
    if v.error.None? {
      TakeIsAll(init, |u.results|);
      TakeIsAll(init + [last], |v.results|);
      ApplyAllSnoc(e, db.committed, init, last);
    }
  }

  lemma {:induction false} PrefixApplied<D, T, R>(e: Engine<D, T, R>, body: seq<T>, db: Db<D>)
    requires db.txn.None? && forall i :: 0 <= i < |body| ==> e.kind(body[i]) == Other
    ensures IsApplied(e, body, db)
  {
    if body != [] {
      var init, last := body[..|body| - 1], body[|body| - 1];
      PrefixApplied(e, init, db);
      PrefixAppliedStep(e, init, last, db);
      assert init + [last] == body;
    }
  }

  // A transactional batch whose statements open no transaction is not atomic: what ran before the
  // first error stays committed, and the ROLLBACK has nothing to undo.
  lemma WithoutBegin<D, T, R>(e: Engine<D, T, R>, body: seq<T>, rollback: T, db: Db<D>)
    requires db.txn.None? && e.kind(rollback) == Rollback && 1 <= |body| <= TWO_31
    requires forall i :: 0 <= i < |body| ==> e.kind(body[i]) == Other
    ensures var u := UntilError(body, Executor(e), db);
      var p := Run(Compile(body, rollback, true), Executor(e), db);
      p.state.txn.None? && ApplyAll(e, db.committed, body[..|u.results|]) == Some(p.state.committed)
  {
    PrefixApplied(e, body, db);
    StopAtFirstError(body, rollback, Executor(e), db);
  }

  // What ran of such a list inside a transaction that was open before.
  ghost predicate IsPending<D, T, R>(e: Engine<D, T, R>, body: seq<T>, db: Db<D>)
    requires db.txn.Some?
  {
    var u := UntilError(body, Executor(e), db);
    && u.state.committed == db.committed
    && (u.error.None? ==> u.state.txn.Some?)
    && (u.state.txn.Some? ==> u.state.txn == ApplyAll(e, db.txn.value, body[..|u.results|]))
  }

  lemma {:induction false} PrefixPendingStep<D, T, R>(e: Engine<D, T, R>, init: seq<T>, last: T, db: Db<D>)
    requires db.txn.Some? && IsPending(e, init, db) && e.kind(last) == Other
    ensures IsPending(e, init + [last], db)
  {
    var u, v := UntilError(init, Executor(e), db), UntilError(init + [last], Executor(e), db);
    UntilErrorSnoc(init, last, Executor(e), db);
    TakeOfSnoc(init, last, |u.results|);
    if v.error.None? {
      TakeIsAll(init, |u.results|);
      TakeIsAll(init + [last], |v.results|);
      ApplyAllSnoc(e, db.txn.value, init, last);
    }
  }

  lemma {:induction false} PrefixInTransaction<D, T, R>(e: Engine<D, T, R>, body: seq<T>, db: Db<D>)
    requires db.txn.Some? && forall i :: 0 <= i < |body| ==> e.kind(body[i]) == Other
    ensures IsPending(e, body, db)
  {
    if body != [] {
      var init, last := body[..|body| - 1], body[|body| - 1];
      PrefixInTransaction(e, init, db);
      PrefixPendingStep(e, init, last, db);
      assert init + [last] == body;
    }
  }

  // Sent inside a transaction of the caller, the batch adds to it when every statement succeeds. On
  // an error its ROLLBACK takes the caller's whole transaction, unless the server refuses that too.
  lemma InsideTransaction<D, T, R>(e: Engine<D, T, R>, body: seq<T>, rollback: T, db: Db<D>)
    requires db.txn.Some? && e.kind(rollback) == Rollback && 1 <= |body| <= TWO_31
    requires forall i :: 0 <= i < |body| ==> e.kind(body[i]) == Other
    ensures var u := UntilError(body, Executor(e), db);
      var p := Run(Compile(body, rollback, true), Executor(e), db);
      && p.state.committed == db.committed
      && if u.error.None? then p.state.txn.Some? && p.state.txn == ApplyAll(e, db.txn.value, body)
         else if u.state.txn.Some? && e.verdict(u.state.executed) == Refused
         then p.state.txn == ApplyAll(e, db.txn.value, body[..|u.results|])
         else p.state.txn.None?
  {
    PrefixInTransaction(e, body, db);
    StopAtFirstError(body, rollback, Executor(e), db);
    var u := UntilError(body, Executor(e), db);
    if u.error.None? {
      TakeIsAll(body, |u.results|);
    }
  }

  // ---- any list ------------------------------------------------------------------------------

  // Whether a transaction is open after statements that all succeeded, when none was before.
  predicate OpenAfter<D, T, R>(e: Engine<D, T, R>, stmts: seq<T>) {
    stmts != [] &&
    match e.kind(stmts[|stmts| - 1])
    case Begin => true
    case Commit => false
    case Rollback => false
    case Other => OpenAfter(e, stmts[..|stmts| - 1])
  }

  // The last point of the list, from its end, at which no transaction is open.
  function LastClosed<D, T, R>(e: Engine<D, T, R>, stmts: seq<T>): (i: nat)
    ensures i <= |stmts|
  {
    if !OpenAfter(e, stmts) then |stmts| else LastClosed(e, stmts[..|stmts| - 1])
  }

  // What a list without an error leaves behind: what was committed at its last closed point.
  ghost predicate IsClosed<D, T, R>(e: Engine<D, T, R>, stmts: seq<T>, db: Db<D>) {
    var u, v := UntilError(stmts, Executor(e), db), UntilError(stmts[..LastClosed(e, stmts)], Executor(e), db);
    && (u.state.txn.Some? <==> OpenAfter(e, stmts))
    && v.error.None? && v.state.txn.None? && u.state.committed == v.state.committed
  }

  lemma {:induction false} LastClosedSnoc<D, T, R>(e: Engine<D, T, R>, init: seq<T>, last: T)
    ensures LastClosed(e, init + [last]) ==
      if OpenAfter(e, init + [last]) then LastClosed(e, init) else |init| + 1
    ensures OpenAfter(e, init + [last]) <==> e.kind(last) == Begin || (e.kind(last) == Other && OpenAfter(e, init))
    ensures OpenAfter(e, init + [last]) ==> (init + [last])[..LastClosed(e, init)] == init[..LastClosed(e, init)]
  {
    assert (init + [last])[..|init|] == init;
  }

  // A statement that succeeds and leaves a transaction open commits nothing.
  lemma OpenCommitsNothing<D, T, R>(e: Engine<D, T, R>, t: T, db: Db<D>)
    requires Exec(e, db, t).1.Done?
    ensures Exec(e, db, t).0.txn.Some? <==> e.kind(t) == Begin || (e.kind(t) == Other && db.txn.Some?)
    ensures Exec(e, db, t).0.txn.Some? ==> Exec(e, db, t).0.committed == db.committed
  {
  }

  lemma {:induction false} ClosedStep<D, T, R>(e: Engine<D, T, R>, init: seq<T>, last: T, db: Db<D>)
    requires UntilError(init, Executor(e), db).error.None? && IsClosed(e, init, db)
    requires UntilError(init + [last], Executor(e), db).error.None?
    ensures IsClosed(e, init + [last], db)
  {
    var all, u := init + [last], UntilError(init, Executor(e), db);
    UntilErrorSnoc(init, last, Executor(e), db);
    OpenCommitsNothing(e, last, u.state);
    LastClosedSnoc(e, init, last);
    if !OpenAfter(e, all) {
      assert all[..|all|] == all;
    }
  }

  lemma {:induction false} CommittedAtClosed<D, T, R>(e: Engine<D, T, R>, stmts: seq<T>, db: Db<D>)
    requires db.txn.None? && UntilError(stmts, Executor(e), db).error.None?
    ensures IsClosed(e, stmts, db)
  {
    if stmts == [] {
      assert stmts[..0] == [];
    } else {
      var init, last := stmts[..|stmts| - 1], stmts[|stmts| - 1];
      UntilErrorSnoc(init, last, Executor(e), db);
      assert init + [last] == stmts;
      CommittedAtClosed(e, init, db);
      ClosedStep(e, init, last, db);
    }
  }

  // What ran without an error, and what the failing statement changed: at most it ended the transaction.
  lemma {:induction false} BeforeError<D, T, R>(e: Engine<D, T, R>, stmts: seq<T>, db: Db<D>)
    ensures var u := UntilError(stmts, Executor(e), db);
      var v := UntilError(stmts[..|u.results|], Executor(e), db);
      v.error.None? && v.results == u.results && v.state.committed == u.state.committed
  {
    var u := UntilError(stmts, Executor(e), db);
    if u.error.None? {
      assert stmts[..|u.results|] == stmts;
    } else {
      var init, last := stmts[..|stmts| - 1], stmts[|stmts| - 1];
      BeforeError(e, init, db);
      UntilErrorSnoc(init, last, Executor(e), db);
      assert init + [last] == stmts;
      assert init[..|u.results|] == stmts[..|u.results|];
    }
  }

  // Whatever the list, with BEGIN and COMMIT anywhere in it or not at all: committed is what was
  // committed at the last closed point before the first error. A transaction stays open exactly when
  // one is open at the end of a list without an error, or the server refuses the ROLLBACK of one that
  // the failing statement left open.
  lemma {:induction false} CommitsUpToLastClosed<D, T, R>(e: Engine<D, T, R>, stmts: seq<T>, rollback: T, db: Db<D>)
    requires db.txn.None? && e.kind(rollback) == Rollback && 1 <= |stmts| <= TWO_31
    ensures var u := UntilError(stmts, Executor(e), db);
      var p := Run(Compile(stmts, rollback, true), Executor(e), db);
      var v := UntilError(stmts[..LastClosed(e, stmts[..|u.results|])], Executor(e), db);
      && v.error.None? && v.state.txn.None? && p.state.committed == v.state.committed
      && (p.state.txn.Some? <==>
            u.state.txn.Some? && (u.error.None? || e.verdict(u.state.executed) == Refused))
  {
    var u := UntilError(stmts, Executor(e), db);
    var done := stmts[..|u.results|];
    BeforeError(e, stmts, db);
    CommittedAtClosed(e, done, db);
    assert done[..LastClosed(e, done)] == stmts[..LastClosed(e, done)];
    RollbackLeaves(e, stmts, rollback, db);
  }

  // The ROLLBACK at the end commits nothing, and ends a transaction unless it is refused.
  lemma {:induction false} RollbackLeaves<D, T, R>(e: Engine<D, T, R>, stmts: seq<T>, rollback: T, db: Db<D>)
    requires e.kind(rollback) == Rollback && 1 <= |stmts| <= TWO_31
    ensures var u := UntilError(stmts, Executor(e), db);
      var p := Run(Compile(stmts, rollback, true), Executor(e), db);
      && p.state.committed == u.state.committed
      && (p.state.txn.Some? <==>
            u.state.txn.Some? && (u.error.None? || e.verdict(u.state.executed) == Refused))
  {
    StopAtFirstError(stmts, rollback, Executor(e), db);
  }

  // ---- batches without conditions ------------------------------------------------------------

  // The effect of the statements of the body that the server lets through and that apply, the
  // others left out. The first of them is statement number n of the server's life.
  function Survivors<D, T, R>(e: Engine<D, T, R>, d: D, body: seq<T>, n: nat): D {
    if body == [] then d
    else
      var i := |body| - 1;
      var d' := Survivors(e, d, body[..i], n);
      if e.verdict(n + i) != Allowed then d'
      else
        match e.apply(d', body[i])
        case None => d'
        case Some((d'', _)) => d''
  }

  // With no transaction open, each statement is committed by itself.
  lemma {:induction false} Autocommits<D, T, R>(e: Engine<D, T, R>, body: seq<T>, db: Db<D>)
    requires db.txn.None? && forall i :: 0 <= i < |body| ==> e.kind(body[i]) == Other
    ensures RunAll(body, Executor(e), db).state ==
      Db(Survivors(e, db.committed, body, db.executed), None, db.executed + |body|)
  {
    if body != [] {
      Autocommits(e, body[..|body| - 1], db);
    }
  }

  // None of the next len statements is aborted.
  predicate NoAbort<D, T, R>(e: Engine<D, T, R>, n: nat, len: nat) {
    len == 0 || (NoAbort(e, n, len - 1) && e.verdict(n + len - 1) != Aborted)
  }

  // With one open, and no statement that ends it, each is added to it.
  lemma {:induction false} StaysOpen<D, T, R>(e: Engine<D, T, R>, body: seq<T>, db: Db<D>)
    requires db.txn.Some? && forall i :: 0 <= i < |body| ==> e.kind(body[i]) == Other
    requires NoAbort(e, db.executed, |body|)
    ensures RunAll(body, Executor(e), db).state ==
      Db(db.committed, Some(Survivors(e, db.txn.value, body, db.executed)), db.executed + |body|)
  {
    if body != [] {
      StaysOpen(e, body[..|body| - 1], db);
    }
  }

  // The first of the next len statements that the server aborts, or len.
  function FirstAbort<D, T, R>(e: Engine<D, T, R>, n: nat, len: nat): (j: nat)
    ensures j <= len && (j < len ==> e.verdict(n + j) == Aborted)
    ensures NoAbort(e, n, j)
    decreases len
  {
    if len == 0 then 0
    else
      var j := FirstAbort(e, n, len - 1);
      if j < len - 1 then j else if e.verdict(n + len - 1) == Aborted then len - 1 else len
  }

  // What BEGIN, body and COMMIT leave behind when each of them runs whatever became of the others.
  function PlainEffect<D, T, R>(e: Engine<D, T, R>, body: seq<T>, db: Db<D>): Db<D> {
    var n, after := db.executed, db.executed + |body| + 2;
    var j := FirstAbort(e, n + 1, |body|);
    if e.verdict(n) != Allowed then
      // No transaction: everything is committed on the spot.
      Db(Survivors(e, db.committed, body, n + 1), None, after)
    else if j < |body| then
      // The abort takes what came before it; what comes after it is committed on the spot.
      Db(Survivors(e, db.committed, body[j + 1..], n + j + 2), None, after)
    else
      var d := Survivors(e, db.committed, body, n + 1);
      match e.verdict(n + 1 + |body|)
      case Allowed => Db(d, None, after)
      case Refused => Db(db.committed, Some(d), after)
      case Aborted => Db(db.committed, None, after)
  }

  lemma {:induction false} AbortsAt<D, T, R>(e: Engine<D, T, R>, before: seq<T>, t: T, db: Db<D>)
    requires db.txn.Some? && e.kind(t) == Other && forall i :: 0 <= i < |before| ==> e.kind(before[i]) == Other
    requires NoAbort(e, db.executed, |before|) && e.verdict(db.executed + |before|) == Aborted
    ensures RunAll(before + [t], Executor(e), db).state == Db(db.committed, None, db.executed + |before| + 1)
  {
    StaysOpen(e, before, db);
    RunAllSnoc(before, t, Executor(e), db);
  }

  lemma {:induction false} AbortsInside<D, T, R>(e: Engine<D, T, R>, before: seq<T>, t: T, rest: seq<T>, db: Db<D>)
    requires db.txn.Some? && e.kind(t) == Other
    requires forall i :: 0 <= i < |before| ==> e.kind(before[i]) == Other
    requires forall i :: 0 <= i < |rest| ==> e.kind(rest[i]) == Other
    requires NoAbort(e, db.executed, |before|) && e.verdict(db.executed + |before|) == Aborted
    ensures RunAll(before + [t] + rest, Executor(e), db).state ==
      Db(Survivors(e, db.committed, rest, db.executed + |before| + 1), None, db.executed + |before| + 1 + |rest|)
  {
    AbortsAt(e, before, t, db);
    Autocommits(e, rest, RunAll(before + [t], Executor(e), db).state);
    RunAllAppend(before + [t], rest, Executor(e), db);
  }

  lemma {:induction false} BodyAborts<D, T, R>(e: Engine<D, T, R>, body: seq<T>, j: nat, db: Db<D>)
    requires db.txn.Some? && forall i :: 0 <= i < |body| ==> e.kind(body[i]) == Other
    requires j < |body| && e.verdict(db.executed + j) == Aborted && NoAbort(e, db.executed, j)
    ensures RunAll(body, Executor(e), db).state ==
      Db(Survivors(e, db.committed, body[j + 1..], db.executed + j + 1), None, db.executed + |body|)
  {
    AbortsInside(e, body[..j], body[j], body[j + 1..], db);
    assert body[..j] + [body[j]] + body[j + 1..] == body;
  }

  // What the body leaves behind, with or without a transaction open before it.
  function BodyEffect<D, T, R>(e: Engine<D, T, R>, body: seq<T>, db: Db<D>): Db<D> {
    var n, after := db.executed, db.executed + |body|;
    var j := FirstAbort(e, n, |body|);
    if db.txn.None? then Db(Survivors(e, db.committed, body, n), None, after)
    else if j < |body| then Db(Survivors(e, db.committed, body[j + 1..], n + j + 1), None, after)
    else Db(db.committed, Some(Survivors(e, db.txn.value, body, n)), after)
  }

  lemma {:induction false} BodyRuns<D, T, R>(e: Engine<D, T, R>, body: seq<T>, db: Db<D>)
    requires forall i :: 0 <= i < |body| ==> e.kind(body[i]) == Other
    ensures RunAll(body, Executor(e), db).state == BodyEffect(e, body, db)
  {
    var j := FirstAbort(e, db.executed, |body|);
    if db.txn.None? {
      Autocommits(e, body, db);
    } else if j < |body| {
      BodyAborts(e, body, j, db);
    } else {
      StaysOpen(e, body, db);
    }
  }

  // Run without conditions, as in chunks or on a schema database, BEGIN, body and COMMIT have this
  // effect whatever the server refuses or aborts.
  lemma {:induction false} PlainRun<D, T, R>(e: Engine<D, T, R>, begin: T, body: seq<T>, commit: T, rollback: T,
                                             db: Db<D>)
    requires db.txn.None? && IsTransaction(e, begin, body, commit, rollback)
    ensures RunAll([begin] + body + [commit], Executor(e), db).state == PlainEffect(e, body, db)
  {
    RunAllSnoc([], begin, Executor(e), db);
    assert [] + [begin] == [begin];
    BodyRuns(e, body, Exec(e, db, begin).0);
    RunAllAppend([begin], body, Executor(e), db);
    RunAllSnoc([begin] + body, commit, Executor(e), db);
    StepByStep(e, begin, body, commit, db);
  }

  lemma {:induction false} StepByStep<D, T, R>(e: Engine<D, T, R>, begin: T, body: seq<T>, commit: T, db: Db<D>)
    requires db.txn.None? && e.kind(begin) == Begin && e.kind(commit) == Commit
    ensures Exec(e, BodyEffect(e, body, Exec(e, db, begin).0), commit).0 == PlainEffect(e, body, db)
  {
  }

  // What the first m statements of BEGIN, body and COMMIT leave behind.
  function PrefixEffect<D, T, R>(e: Engine<D, T, R>, body: seq<T>, m: nat, db: Db<D>): Db<D> {
    if m == 0 then db
    else if m <= |body| + 1 then
      var n, k := db.executed, m - 1;
      var j := FirstAbort(e, n + 1, k);
      if e.verdict(n) != Allowed then Db(Survivors(e, db.committed, body[..k], n + 1), None, n + m)
      else if j < k then Db(Survivors(e, db.committed, body[j + 1..k], n + j + 2), None, n + m)
      else Db(db.committed, Some(Survivors(e, db.committed, body[..k], n + 1)), n + m)
    else PlainEffect(e, body, db)
  }

  lemma {:induction false} BeginAndPart<D, T, R>(e: Engine<D, T, R>, begin: T, part: seq<T>, db: Db<D>)
    requires db.txn.None? && e.kind(begin) == Begin
    requires forall i :: 0 <= i < |part| ==> e.kind(part[i]) == Other
    ensures RunAll([begin] + part, Executor(e), db).state == BodyEffect(e, part, Exec(e, db, begin).0)
  {
    RunAllSnoc([], begin, Executor(e), db);
    assert [] + [begin] == [begin];
    BodyRuns(e, part, Exec(e, db, begin).0);
    RunAllAppend([begin], part, Executor(e), db);
  }

  lemma {:induction false} PartEffect<D, T, R>(e: Engine<D, T, R>, begin: T, body: seq<T>, k: nat, db: Db<D>)
    requires db.txn.None? && e.kind(begin) == Begin && k <= |body|
    ensures BodyEffect(e, body[..k], Exec(e, db, begin).0) == PrefixEffect(e, body, k + 1, db)
  {
    var j := FirstAbort(e, db.executed + 1, k);
    if j < k {
      assert body[..k][j + 1..] == body[j + 1..k];
    }
  }

  // The first m of them, each run whatever became of the others.
  lemma {:induction false} PrefixRun<D, T, R>(e: Engine<D, T, R>, begin: T, body: seq<T>, commit: T, rollback: T,
                                              m: nat, db: Db<D>)
    requires db.txn.None? && IsTransaction(e, begin, body, commit, rollback) && m <= |body| + 2
    ensures RunAll(([begin] + body + [commit])[..m], Executor(e), db).state == PrefixEffect(e, body, m, db)
  {
    TakeOfTransaction(begin, body, commit, m);
    if 0 < m <= |body| + 1 {
      BeginAndPart(e, begin, body[..m - 1], db);
      PartEffect(e, begin, body, m - 1, db);
    } else if m > 0 {
      PlainRun(e, begin, body, commit, rollback, db);
    }
  }

  lemma TakeOfTransaction<T>(begin: T, body: seq<T>, commit: T, m: nat)
    requires m <= |body| + 2
    ensures ([begin] + body + [commit])[..m] ==
      if m == 0 then [] else if m <= |body| + 1 then [begin] + body[..m - 1] else [begin] + body + [commit]
  {
  }

  // The server lets the next len statements through.
  predicate AllAllowed<D, T, R>(e: Engine<D, T, R>, n: nat, len: nat) {
    len == 0 || (AllAllowed(e, n, len - 1) && e.verdict(n + len - 1) == Allowed)
  }

  // How BEGIN and a body fare when each runs whatever became of the others.
  ghost predicate IsDoneExactly<D, T, R>(e: Engine<D, T, R>, begin: T, body: seq<T>, db: Db<D>) {
    var a := RunAll([begin] + body, Executor(e), db);
    && (AllDone(a.executed) <==>
          AllAllowed(e, db.executed, |body| + 1) && ApplyAll(e, db.committed, body).Some?)
    && (AllDone(a.executed) ==>
          a.state == Db(db.committed, ApplyAll(e, db.committed, body), db.executed + |body| + 1))
  }

  lemma {:induction false} BeginDoneExactly<D, T, R>(e: Engine<D, T, R>, begin: T, db: Db<D>)
    requires db.txn.None? && e.kind(begin) == Begin
    ensures IsDoneExactly(e, begin, [], db)
  {
    RunAllSnoc([], begin, Executor(e), db);
    assert [] + [begin] == [begin] == [begin] + [];
    AllDoneSnoc([], Exec(e, db, begin).1);
  }

  // One more statement inside a transaction.
  lemma DoneInside<D, T, R>(e: Engine<D, T, R>, t: T, db: Db<D>)
    requires db.txn.Some? && e.kind(t) == Other
    ensures Exec(e, db, t).1.Done? <==> e.verdict(db.executed) == Allowed && e.apply(db.txn.value, t).Some?
    ensures Exec(e, db, t).1.Done? ==>
      Exec(e, db, t).0 == Db(db.committed, Some(e.apply(db.txn.value, t).value.0), db.executed + 1)
  {
  }

  lemma {:induction false} BodyDoneStep<D, T, R>(e: Engine<D, T, R>, begin: T, init: seq<T>, last: T, db: Db<D>)
    requires IsDoneExactly(e, begin, init, db) && e.kind(last) == Other
    ensures IsDoneExactly(e, begin, init + [last], db)
  {
    var stmts := [begin] + init;
    var b := RunAll(stmts, Executor(e), db);
    RunAllSnoc(stmts, last, Executor(e), db);
    assert stmts + [last] == [begin] + (init + [last]);
    AllDoneSnoc(b.executed, Exec(e, b.state, last).1);
    ApplyAllSnoc(e, db.committed, init, last);
    if AllDone(b.executed) {
      DoneInside(e, last, b.state);
    }
  }

  lemma {:induction false} BodyDoneExactly<D, T, R>(e: Engine<D, T, R>, begin: T, body: seq<T>, db: Db<D>)
    requires db.txn.None? && e.kind(begin) == Begin
    requires forall i :: 0 <= i < |body| ==> e.kind(body[i]) == Other
    ensures IsDoneExactly(e, begin, body, db)
  {
    if body == [] {
      BeginDoneExactly(e, begin, db);
    } else {
      var init, last := body[..|body| - 1], body[|body| - 1];
      BodyDoneExactly(e, begin, init, db);
      BodyDoneStep(e, begin, init, last, db);
      assert init + [last] == body;
    }
  }

  lemma AllDoneSnoc<R>(executed: seq<Executed<R>>, x: Executed<R>)
    ensures AllDone(executed + [x]) <==> AllDone(executed) && x.Done?
  {
    assert AllDone(executed + [x]) ==> (executed + [x])[|executed|].Done?;
    assert forall i :: 0 <= i < |executed| ==> (executed + [x])[i] == executed[i];
  }

  // Every statement of such a run succeeds if and only if the server lets each of them through and
  // the whole body applies; then the whole body is committed.
  lemma {:induction false} WholeExactly<D, T, R>(e: Engine<D, T, R>, begin: T, body: seq<T>, commit: T,
                                                 rollback: T, db: Db<D>)
    requires db.txn.None? && IsTransaction(e, begin, body, commit, rollback)
    ensures var a := RunAll([begin] + body + [commit], Executor(e), db);
      && (AllDone(a.executed) <==>
            AllAllowed(e, db.executed, |body| + 2) && ApplyAll(e, db.committed, body).Some?)
      && (AllDone(a.executed) ==>
            a.state.txn.None? && Some(a.state.committed) == ApplyAll(e, db.committed, body))
  {
    var b := RunAll([begin] + body, Executor(e), db);
    BodyDoneExactly(e, begin, body, db);
    RunAllSnoc([begin] + body, commit, Executor(e), db);
    AllDoneSnoc(b.executed, Exec(e, b.state, commit).1);
  }
}
