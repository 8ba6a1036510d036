// BatchStream: a statement list becomes a batch whose steps run only while the step before succeeded,
// with a ROLLBACK at the end that runs when the last statement did not.
module BatchCompiler {
  import opened Wrappers
  import opened Integers
  import opened Hrana

  const TWO_31: int := 0x8000_0000

  // The int32 conversion of a Go int.
  function ToInt32(x: int): int {
    var m := x % TWO_32;
    if m < TWO_31 then m else m - TWO_32
  }

  function ConditionAt(idx: nat, transactional: bool): Option<BatchCondition> {
    if transactional && idx > 0 then Some(OkStep(ToInt32(idx - 1))) else None
  }

  function RollbackCondition(count: nat): BatchCondition {
    Not(OkStep(ToInt32(count - 1)))
  }

  // The first n steps.
  function Prefix<T>(stmts: seq<T>, transactional: bool, n: nat): (steps: seq<Step<T>>)
    requires n <= |stmts|
    ensures |steps| == n
  {
    if n == 0 then []
    else Prefix(stmts, transactional, n - 1) + [Step(stmts[n - 1], ConditionAt(n - 1, transactional))]
  }

  function Compile<T>(stmts: seq<T>, rollback: T, transactional: bool): seq<Step<T>> {
    Prefix(stmts, transactional, |stmts|)
    + if transactional then [Step(rollback, Some(RollbackCondition(|stmts|)))] else []
  }

  lemma {:induction false} PrefixAt<T>(stmts: seq<T>, transactional: bool, n: nat, i: nat)
    requires i < n <= |stmts|
    ensures Prefix(stmts, transactional, n)[i] == Step(stmts[i], ConditionAt(i, transactional))
  {
    if i < n - 1 {
      PrefixAt(stmts, transactional, n - 1, i);
    }
  }

  lemma {:induction false} PrefixOfLonger<T>(stmts: seq<T>, more: seq<T>, transactional: bool, n: nat)
    requires n <= |stmts|
    ensures Prefix(stmts + more, transactional, n) == Prefix(stmts, transactional, n)
  {
    if n > 0 {
      PrefixOfLonger(stmts, more, transactional, n - 1);
    }
  }

  lemma PrefixSnoc<T>(stmts: seq<T>, stmt: T, transactional: bool)
    ensures Prefix(stmts + [stmt], transactional, |stmts| + 1) ==
      Prefix(stmts, transactional, |stmts|) + [Step(stmt, ConditionAt(|stmts|, transactional))]
  {
    PrefixOfLonger(stmts, [stmt], transactional, |stmts|);
  }

  // ---- conditions look back ------------------------------------------------------------------

  // Every step a condition names is one of the first n.
  predicate NamesOnlyBefore(c: BatchCondition, n: nat) {
    match c
    case OkStep(step) => 0 <= step < n
    case ErrorStep(step) => 0 <= step < n
    case Not(cond) => NamesOnlyBefore(cond, n)
    case And(conds) => forall i :: 0 <= i < |conds| ==> NamesOnlyBefore(conds[i], n)
    case Or(conds) => forall i :: 0 <= i < |conds| ==> NamesOnlyBefore(conds[i], n)
  }

  predicate LooksBack<T>(steps: seq<Step<T>>) {
    forall i :: 0 <= i < |steps| && steps[i].condition.Some? ==> NamesOnlyBefore(steps[i].condition.value, i)
  }

  lemma ToInt32Small(x: int)
    requires 0 <= x < TWO_32
    ensures ToInt32(x) == if x < TWO_31 then x else x - TWO_32
  {
  }

  // Every condition refers to an earlier step exactly when the list is not empty and its indices
  // fit 32 bits.
  lemma ConditionsLookBack<T>(stmts: seq<T>, rollback: T)
    ensures LooksBack(Compile(stmts, rollback, true)) <==> 1 <= |stmts| <= TWO_31
  {
    var steps, n := Compile(stmts, rollback, true), |stmts|;
    assert steps[n].condition == Some(RollbackCondition(n));
    if 1 <= n <= TWO_31 {
      forall i | 0 <= i < |steps| && steps[i].condition.Some?
        ensures NamesOnlyBefore(steps[i].condition.value, i)
      {
        ToInt32Small(n - 1);
        if i < n {
          PrefixAt(stmts, true, n, i);
          ToInt32Small(i - 1);
        }
      }
    } else if n <= TWO_31 + 1 {
      assert ToInt32(n - 1) < 0;
      assert !NamesOnlyBefore(steps[n].condition.value, n);
    } else {
      var i := TWO_31 + 1;
      PrefixAt(stmts, true, n, i);
      assert !NamesOnlyBefore(steps[i].condition.value, i);
    }
  }

  // ---- the method ----------------------------------------------------------------------------

  function RollbackStmt(): StmtValue {
    StmtValue(Own("ROLLBACK"), [], [], false, None)
  }

  // The statement of a step stands for its text and its parameters.
  predicate Represents(s: StmtValue, sql: string, params: Option<Params>, wantRows: bool) {
    && s.sql == Own(sql) && s.wantRows == wantRows && s.replicationIndex == None
    && if params.Some? then Carries(s, params.value) else s.args == [] && s.namedArgs == []
  }

  // Without parameters the statements carry none; with fewer parameters than statements Go would panic.
  function ParamsOf(params: seq<Params>, idx: nat): Option<Params> {
    if idx < |params| then Some(params[idx]) else None
  }

  // One statement with its arguments, if it has parameters; none when a value is unsupported.
  method NewStmt(sql: string, params: Option<Params>, wantRows: bool) returns (stmt: Option<StmtValue>)
    ensures stmt.None? <==> params.Some? && !ParamsSupported(params.value)
    ensures stmt.Some? ==> Represents(stmt.value, sql, params, wantRows)
  {
    var s := new Stmt(sql, wantRows);
    if params.Some? {
      var ok := s.AddArgs(params.value);
      if !ok {
        return None;
      }
    }
    stmt := Some(s.Contents());
  }

  method BatchStream(sqls: seq<string>, params: seq<Params>, wantRows: bool, transactional: bool)
    returns (batch: Batch?, ghost stmts: seq<StmtValue>)
    requires params == [] || |params| >= |sqls|
    ensures batch == null <==> params != [] && exists i :: 0 <= i < |sqls| && !ParamsSupported(params[i])
    ensures batch != null ==>
      && fresh(batch) && batch.replicationIndex == None
      && |stmts| == |sqls|
      && (forall i :: 0 <= i < |sqls| ==> Represents(stmts[i], sqls[i], ParamsOf(params, i), wantRows))
      && batch.steps == Compile(stmts, RollbackStmt(), transactional)
      && (transactional ==>
            && |batch.steps| == |sqls| + 1
            && batch.steps[|sqls|].stmt == StmtValue(Own("ROLLBACK"), [], [], false, None))
  {
    var result := new Batch();
    var addArgs := |params| > 0;
    stmts := [];
    for idx := 0 to |sqls|
      invariant fresh(result) && result.replicationIndex == None && |stmts| == idx
      invariant addArgs ==> forall i :: 0 <= i < idx ==> ParamsSupported(params[i])
      invariant forall i :: 0 <= i < idx ==> Represents(stmts[i], sqls[i], ParamsOf(params, i), wantRows)
      invariant result.steps == Prefix(stmts, transactional, idx)
    {
      var stmt := NewStmt(sqls[idx], if addArgs then Some(params[idx]) else None, wantRows);
      if stmt.None? {
        return null, [];
      }
      var condition := None;
      if transactional {
        if idx > 0 {
          var prev_idx := ToInt32(idx - 1);
          condition := Some(OkStep(prev_idx));
        }
      }
      result.Add(stmt.value, condition);
      PrefixSnoc(stmts, stmt.value, transactional);
      stmts := stmts + [stmt.value];
    }
    if transactional {
      var last_idx := ToInt32(|sqls| - 1);
      result.Add(StmtValue(Own("ROLLBACK"), [], [], false, None), Some(Not(OkStep(last_idx))));
    }
    batch := result;
  }
}
