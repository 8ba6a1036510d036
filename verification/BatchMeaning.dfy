// How a server runs a batch ("Execute a batch" in the Hrana 2 specification), and what that means
// for the batches the driver compiles: run in order, stop at the first error, then roll back.
module BatchMeaning {
  import opened Wrappers
  import opened Sequences
  import opened Hrana
  import opened BatchCompiler

  datatype Executed<+R> = Done(result: R) | Error(message: string)

  datatype Outcome<+R> = Skipped | Succeeded(result: R) | Failed(message: string)

  function OutcomeOf<R>(e: Executed<R>): Outcome<R> {
    match e
    case Done(r) => Succeeded(r)
    case Error(m) => Failed(m)
  }

  // A skipped step is neither ok nor an error.
  predicate Holds<R>(c: BatchCondition, done: seq<Outcome<R>>) {
    match c
    case OkStep(step) => 0 <= step < |done| && done[step].Succeeded?
    case ErrorStep(step) => 0 <= step < |done| && done[step].Failed?
    case Not(cond) => !Holds(cond, done)
    case And(conds) => forall i :: 0 <= i < |conds| ==> Holds(conds[i], done)
    case Or(conds) => exists i :: 0 <= i < |conds| && Holds(conds[i], done)
  }

  // The server's state and the outcomes so far.
  datatype Progress<S, R> = Progress(state: S, done: seq<Outcome<R>>)

  function RunStep<S, T, R>(step: Step<T>, exec: (S, T) -> (S, Executed<R>), p: Progress<S, R>): Progress<S, R> {
    if step.condition.None? || Holds(step.condition.value, p.done) then
      var (state, executed) := exec(p.state, step.stmt);
      Progress(state, p.done + [OutcomeOf(executed)])
    else
      Progress(p.state, p.done + [Skipped])
  }

  function Run<S, T, R>(steps: seq<Step<T>>, exec: (S, T) -> (S, Executed<R>), state: S): (p: Progress<S, R>)
    ensures |p.done| == |steps|
  {
    if steps == [] then Progress(state, [])
    else RunStep(steps[|steps| - 1], exec, Run(steps[..|steps| - 1], exec, state))
  }

  // ---- running in order and stopping at the first error --------------------------------------

  datatype Sequential<S, R> = Sequential(state: S, results: seq<R>, error: Option<string>)

  function UntilError<S, T, R>(stmts: seq<T>, exec: (S, T) -> (S, Executed<R>), state: S): (u: Sequential<S, R>)
    ensures if u.error.None? then |u.results| == |stmts| else |u.results| < |stmts|
  {
    if stmts == [] then Sequential(state, [], None)
    else
      var u := UntilError(stmts[..|stmts| - 1], exec, state);
      if u.error.Some? then u
      else
        match exec(u.state, stmts[|stmts| - 1])
        case (s, Done(r)) => Sequential(s, u.results + [r], None)
        case (s, Error(m)) => Sequential(s, u.results, Some(m))
  }

  function Successes<R>(results: seq<R>): (o: seq<Outcome<R>>)
    ensures |o| == |results|
    ensures forall i :: 0 <= i < |results| ==> o[i] == Succeeded(results[i])
  {
    if results == [] then []
    else Successes(results[..|results| - 1]) + [Succeeded(results[|results| - 1])]
  }

  function Skips<R>(n: nat): (o: seq<Outcome<R>>)
    ensures |o| == n
    ensures forall i :: 0 <= i < n ==> o[i] == Skipped
  {
    if n == 0 then [] else Skips<R>(n - 1) + [Skipped]
  }

  // One outcome a statement: the successes, the failure if there was one, and the rest skipped.
  function Outcomes<S, R>(u: Sequential<S, R>, n: nat): (o: seq<Outcome<R>>)
    requires if u.error.None? then |u.results| == n else |u.results| < n
    ensures |o| == n
  {
    if u.error.None? then Successes(u.results)
    else Successes(u.results) + [Failed(u.error.value)] + Skips<R>(n - |u.results| - 1)
  }

  lemma SuccessesSnoc<R>(results: seq<R>, r: R)
    ensures Successes(results + [r]) == Successes(results) + [Succeeded(r)]
  {
    assert (results + [r])[..|results|] == results;
  }

  lemma LastOutcome<S, R>(u: Sequential<S, R>, n: nat)
    requires 0 < n && if u.error.None? then |u.results| == n else |u.results| < n
    ensures Outcomes(u, n)[n - 1].Succeeded? <==> u.error.None?
  {
  }

  lemma OutcomesSkipMore<S, R>(u: Sequential<S, R>, n: nat)
    requires u.error.Some? && |u.results| < n
    ensures Outcomes(u, n + 1) == Outcomes(u, n) + [Skipped]
  {
    assert Skips<R>(n + 1 - |u.results| - 1) == Skips<R>(n - |u.results| - 1) + [Skipped];
  }

  lemma {:induction false} RunAppend<S, T, R>(steps: seq<Step<T>>, step: Step<T>,
                                              exec: (S, T) -> (S, Executed<R>), state: S)
    ensures Run(steps + [step], exec, state) == RunStep(step, exec, Run(steps, exec, state))
  {
    assert (steps + [step])[..|steps|] == steps;
  }

  // The user statements behave like running them in order until an error.
  lemma {:induction false} PrefixStopsAtError<S, T, R>(stmts: seq<T>, exec: (S, T) -> (S, Executed<R>), state: S)
    requires |stmts| <= TWO_31
    ensures var u := UntilError(stmts, exec, state);
      Run(Prefix(stmts, true, |stmts|), exec, state) == Progress(u.state, Outcomes(u, |stmts|))
  {
    if stmts != [] {
      var init, last := stmts[..|stmts| - 1], stmts[|stmts| - 1];
      PrefixStopsAtError(init, exec, state);
      PrefixStep(init, last, Prefix(init, true, |init|), exec, state);
      PrefixSnoc(init, last, true);
      assert init + [last] == stmts;
    }
  }

  lemma PrefixStep<S, T, R>(init: seq<T>, last: T, steps: seq<Step<T>>, exec: (S, T) -> (S, Executed<R>), state: S)
    requires |init| < TWO_31
    requires var u := UntilError(init, exec, state);
      Run(steps, exec, state) == Progress(u.state, Outcomes(u, |init|))
    ensures var u := UntilError(init + [last], exec, state);
      Run(steps + [Step(last, ConditionAt(|init|, true))], exec, state) ==
        Progress(u.state, Outcomes(u, |init| + 1))
  {
    var step := Step(last, ConditionAt(|init|, true));
    RunAppend(steps, step, exec, state);
    StepAfter(UntilError(init, exec, state), |init| + 1, step, exec);
    UntilErrorSnoc(init, last, exec, state);
  }

  lemma UntilErrorSnoc<S, T, R>(stmts: seq<T>, stmt: T, exec: (S, T) -> (S, Executed<R>), state: S)
    ensures var u := UntilError(stmts, exec, state);
      UntilError(stmts + [stmt], exec, state) ==
        if u.error.Some? then u
        else
          match exec(u.state, stmt)
          case (s, Done(r)) => Sequential(s, u.results + [r], None)
          case (s, Error(m)) => Sequential(s, u.results, Some(m))
  {
    assert (stmts + [stmt])[..|stmts|] == stmts;
  }

  // One more step after n - 1 statements.
  lemma StepAfter<S, T, R>(u: Sequential<S, R>, n: nat, step: Step<T>, exec: (S, T) -> (S, Executed<R>))
    requires 0 < n <= TWO_31 && step.condition == ConditionAt(n - 1, true)
    requires if u.error.None? then |u.results| == n - 1 else |u.results| < n - 1
    ensures RunStep(step, exec, Progress(u.state, Outcomes(u, n - 1))) ==
      if u.error.Some? then Progress(u.state, Outcomes(u, n))
      else
        match exec(u.state, step.stmt)
        case (s, Done(r)) => Progress(s, Outcomes(Sequential(s, u.results + [r], None), n))
        case (s, Error(m)) => Progress(s, Outcomes(Sequential(s, u.results, Some(m)), n))
  {
    if n > 1 {
      ToInt32Small(n - 2);
      LastOutcome(u, n - 1);
    }
    if u.error.Some? {
      OutcomesSkipMore(u, n - 1);
    } else {
      match exec(u.state, step.stmt) {
        case (s, Done(r)) => SuccessesSnoc(u.results, r);
        case (s, Error(m)) =>
      }
    }
  }

  // The last step, after n statements.
  lemma RollbackStep<S, T, R>(u: Sequential<S, R>, n: nat, rollback: T, exec: (S, T) -> (S, Executed<R>))
    requires 0 < n <= TWO_31 && if u.error.None? then |u.results| == n else |u.results| < n
    ensures RunStep(Step(rollback, Some(RollbackCondition(n))), exec, Progress(u.state, Outcomes(u, n))) ==
      if u.error.None? then Progress(u.state, Successes(u.results) + [Skipped])
      else
        var (s, executed) := exec(u.state, rollback);
        Progress(s, Outcomes(u, n) + [OutcomeOf(executed)])
  {
    ToInt32Small(n - 1);
    LastOutcome(u, n);
    var last, o := OkStep(ToInt32(n - 1)), Outcomes(u, n);
    assert Holds(last, o) <==> u.error.None?;
    assert Holds(Not(last), o) <==> u.error.Some?;
  }

  // A transactional batch runs its statements in order up to the first error and skips the others;
  // ROLLBACK runs exactly when there was an error.
  lemma StopAtFirstError<S, T, R>(stmts: seq<T>, rollback: T, exec: (S, T) -> (S, Executed<R>), state: S)
    requires 1 <= |stmts| <= TWO_31
    ensures var u := UntilError(stmts, exec, state);
      Run(Compile(stmts, rollback, true), exec, state) ==
        if u.error.None? then Progress(u.state, Successes(u.results) + [Skipped])
        else
          var (s, executed) := exec(u.state, rollback);
          Progress(s, Outcomes(u, |stmts|) + [OutcomeOf(executed)])
  {
    var n := |stmts|;
    var u := UntilError(stmts, exec, state);
    PrefixStopsAtError(stmts, exec, state);
    RunAppend(Prefix(stmts, true, n), Step(rollback, Some(RollbackCondition(n))), exec, state);
    RollbackStep(u, n, rollback, exec);
  }

  // The empty list is the exception: nothing failed, and ROLLBACK runs all the same.
  lemma EmptyListRollsBack<S, T, R>(rollback: T, exec: (S, T) -> (S, Executed<R>), state: S)
    ensures var (s, executed) := exec(state, rollback);
      Run(Compile([], rollback, true), exec, state) == Progress(s, [OutcomeOf(executed)])
  {
    var step := Step(rollback, Some(RollbackCondition(0)));
    assert Compile([], rollback, true) == [] + [step];
    RunAppend([], step, exec, state);
    assert ToInt32(-1) == -1;
  }

  // ---- batches without conditions ------------------------------------------------------------

  datatype Independent<S, R> = Independent(state: S, executed: seq<Executed<R>>)

  // Every statement runs, whatever happened to the ones before it.
  function RunAll<S, T, R>(stmts: seq<T>, exec: (S, T) -> (S, Executed<R>), state: S): (a: Independent<S, R>)
    ensures |a.executed| == |stmts|
  {
    if stmts == [] then Independent(state, [])
    else
      var a := RunAll(stmts[..|stmts| - 1], exec, state);
      var (s, e) := exec(a.state, stmts[|stmts| - 1]);
      Independent(s, a.executed + [e])
  }

  predicate AllDone<R>(executed: seq<Executed<R>>) {
    forall i :: 0 <= i < |executed| ==> executed[i].Done?
  }

  function OutcomesOf<R>(executed: seq<Executed<R>>): (o: seq<Outcome<R>>)
    ensures |o| == |executed|
    ensures forall i :: 0 <= i < |o| ==> o[i] == OutcomeOf(executed[i])
  {
    if executed == [] then []
    else OutcomesOf(executed[..|executed| - 1]) + [OutcomeOf(executed[|executed| - 1])]
  }

  lemma RunAllSnoc<S, T, R>(stmts: seq<T>, stmt: T, exec: (S, T) -> (S, Executed<R>), state: S)
    ensures var a := RunAll(stmts, exec, state);
      var (s, x) := exec(a.state, stmt);
      RunAll(stmts + [stmt], exec, state) == Independent(s, a.executed + [x])
  {
    assert (stmts + [stmt])[..|stmts|] == stmts;
  }

  lemma {:induction false} RunAllAppend<S, T, R>(a: seq<T>, b: seq<T>, exec: (S, T) -> (S, Executed<R>), state: S)
    ensures var x := RunAll(a, exec, state);
      var y := RunAll(b, exec, x.state);
      RunAll(a + b, exec, state) == Independent(y.state, x.executed + y.executed)
  {
    if b == [] {
      assert a + b == a;
    } else {
      var init, last := b[..|b| - 1], b[|b| - 1];
      RunAllAppend(a, init, exec, state);
      RunAllSnoc(a + init, last, exec, state);
      var x := RunAll(a, exec, state);
      var y := RunAll(init, exec, x.state);
      RunAllSnoc(init, last, exec, x.state);
      assert init + [last] == b;
      Associative(x.executed, y.executed, [exec(y.state, last).1]);
      assert (a + init) + [last] == a + b;
    }
  }

  lemma OutcomesSnoc<R>(executed: seq<Executed<R>>, x: Executed<R>)
    ensures OutcomesOf(executed + [x]) == OutcomesOf(executed) + [OutcomeOf(x)]
  {
    assert (executed + [x])[..|executed|] == executed;
  }

  lemma CompileSnoc<T>(init: seq<T>, last: T, rollback: T)
    ensures Compile(init + [last], rollback, false) == Compile(init, rollback, false) + [Step(last, None)]
  {
    PrefixSnoc(init, last, false);
  }

  lemma {:induction false} PlainStep<S, T, R>(init: seq<T>, last: T, rollback: T,
                                              exec: (S, T) -> (S, Executed<R>), state: S)
    requires var a := RunAll(init, exec, state);
      Run(Compile(init, rollback, false), exec, state) == Progress(a.state, OutcomesOf(a.executed))
    ensures var a := RunAll(init + [last], exec, state);
      Run(Compile(init + [last], rollback, false), exec, state) == Progress(a.state, OutcomesOf(a.executed))
  {
    var a := RunAll(init, exec, state);
    CompileSnoc(init, last, rollback);
    RunAppend(Compile(init, rollback, false), Step(last, None), exec, state);
    RunAllSnoc(init, last, exec, state);
    OutcomesSnoc(a.executed, exec(a.state, last).1);
  }

  lemma {:induction false} PlainBatchRunsAll<S, T, R>(stmts: seq<T>, rollback: T,
                                                      exec: (S, T) -> (S, Executed<R>), state: S)
    ensures var a := RunAll(stmts, exec, state);
      Run(Compile(stmts, rollback, false), exec, state) == Progress(a.state, OutcomesOf(a.executed))
  {
    if stmts != [] {
      var init, last := stmts[..|stmts| - 1], stmts[|stmts| - 1];
      PlainBatchRunsAll(init, rollback, exec, state);
      PlainStep(init, last, rollback, exec, state);
      assert init + [last] == stmts;
    } else {
      assert Compile(stmts, rollback, false) == [];
    }
  }
}
