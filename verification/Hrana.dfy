// The requests of the Hrana 2 protocol as the driver builds them.
module Hrana {
  import opened Wrappers
  import opened Values

  // Arguments of one statement: named when the map is present, positional otherwise.
  datatype Params = Params(positional: seq<GoValue>, named: Option<map<string, GoValue>>)
  {
    function Len(): nat {
      if named.Some? then |named.value| else |positional|
    }
  }

  datatype NamedArg = NamedArg(name: string, value: Value)

  // A pointer to SQL text: to a copy of its own, or to a cell of a shared buffer.
  datatype SqlRef = NoSql | Own(text: string) | Cell(cells: array<string>, idx: nat)

  datatype StmtValue = StmtValue(
    sql: SqlRef,
    args: seq<Value>,
    namedArgs: seq<NamedArg>,
    wantRows: bool,
    replicationIndex: Option<nat>)

  datatype BatchCondition =
    | OkStep(step: int)
    | ErrorStep(step: int)
    | Not(cond: BatchCondition)
    | And(conds: seq<BatchCondition>)
    | Or(conds: seq<BatchCondition>)

  datatype Step<T> = Step(stmt: T, condition: Option<BatchCondition>)

  // ---- arguments -----------------------------------------------------------------------------

  predicate Supported(v: GoValue) {
    ToValue(v).Ok?
  }

  predicate AllSupported(args: seq<GoValue>) {
    forall i :: 0 <= i < |args| ==> Supported(args[i])
  }

  predicate AllNamedSupported(args: map<string, GoValue>) {
    forall name :: name in args ==> Supported(args[name])
  }

  predicate ParamsSupported(p: Params) {
    if p.named.Some? && |p.named.value| > 0 then AllNamedSupported(p.named.value) else AllSupported(p.positional)
  }

  // The wire arguments stand for the positional arguments, one for one.
  predicate Positional(wire: seq<Value>, args: seq<GoValue>) {
    |wire| == |args| && forall i :: 0 <= i < |args| ==> Ok(wire[i]) == ToValue(args[i])
  }

  // The wire arguments list every named argument once, in some order.
  predicate Named(wire: seq<NamedArg>, args: map<string, GoValue>) {
    && |wire| == |args|
    && (forall i :: 0 <= i < |wire| ==> wire[i].name in args && Ok(wire[i].value) == ToValue(args[wire[i].name]))
    && (forall i, j :: 0 <= i < j < |wire| ==> wire[i].name != wire[j].name)
  }

  // What a statement carries for its parameters.
  predicate Carries(s: StmtValue, p: Params) {
    if p.named.Some? && |p.named.value| > 0 then Named(s.namedArgs, p.named.value) && s.args == []
    else Positional(s.args, p.positional) && s.namedArgs == []
  }

  lemma {:induction false} KeysCounted(names: seq<string>, keys: set<string>)
    requires forall i :: 0 <= i < |names| ==> names[i] in keys
    requires forall i, j :: 0 <= i < j < |names| ==> names[i] != names[j]
    requires |names| == |keys|
    ensures forall k :: k in keys ==> k in names
  {
    if names != [] {
      var last := names[|names| - 1];
      KeysCounted(names[..|names| - 1], keys - {last});
      forall k | k in keys
        ensures k in names
      {
        assert k != last ==> k in names[..|names| - 1];
      }
    }
  }

  // Every named argument is there, with the value it reads back as.
  lemma NamedIsComplete(wire: seq<NamedArg>, args: map<string, GoValue>, name: string)
    requires Named(wire, args) && name in args && IsGoValue(args[name])
    ensures exists i :: (
      0 <= i < |wire| && wire[i].name == name
      && FromValue(wire[i].value, None, _ => None) == Read(Normal(args[name])))
  {
    var names := seq(|wire|, i requires 0 <= i < |wire| => wire[i].name);
    KeysCounted(names, args.Keys);
    var i :| 0 <= i < |names| && names[i] == name;
    assert wire[i].name == name;
    ValueRoundTrip(args[name], None, _ => None);
  }

  class Stmt {
    var sql: SqlRef
    var args: seq<Value>
    var namedArgs: seq<NamedArg>
    var wantRows: bool
    var replicationIndex: Option<nat>

    constructor (sql: string, wantRows: bool)
      ensures Contents() == StmtValue(Own(sql), [], [], wantRows, None)
    {
      this.sql := Own(sql);
      this.wantRows := wantRows;
      args := [];
      namedArgs := [];
      replicationIndex := None;
    }

    function Contents(): StmtValue
      reads this
    {
      StmtValue(sql, args, namedArgs, wantRows, replicationIndex)
    }

    method AddArgs(params: Params) returns (ok: bool)
      modifies this`args, this`namedArgs
      ensures ok == ParamsSupported(params)
      ensures !ok ==> Contents() == old(Contents())
      ensures ok && old(args) == [] && old(namedArgs) == [] ==> Carries(Contents(), params)
    {
      if params.named.Some? && |params.named.value| > 0 {
        ok := AddNamedArgs(params.named.value);
      } else {
        ok := AddPositionalArgs(params.positional);
      }
    }

    // On an unsupported value the statement is left as it was.
    method AddPositionalArgs(args: seq<GoValue>) returns (ok: bool)
      modifies this`args
      ensures ok == AllSupported(args)
      ensures if ok then Positional(this.args, args) else this.args == old(this.args)
    {
      var argValues: seq<Value> := [];
      for idx := 0 to |args|
        invariant Positional(argValues, args[..idx])
      {
        var value := ToValue(args[idx]);
        if value.Err? {
          assert !Supported(args[idx]);
          return false;
        }
        argValues := argValues + [value.value];
      }
      assert args[..|args|] == args;
      this.args := argValues;
      ok := true;
    }

    // The order in which the map gives its entries is arbitrary.
    method AddNamedArgs(args: map<string, GoValue>) returns (ok: bool)
      modifies this`namedArgs
      ensures ok == AllNamedSupported(args)
      ensures if ok then Named(namedArgs, args) else namedArgs == old(namedArgs)
    {
      var argValues: seq<NamedArg> := [];
      var keys := args.Keys;
      while keys != {}
        invariant keys <= args.Keys && |argValues| + |keys| == |args.Keys|
        invariant forall i :: 0 <= i < |argValues| ==>
          && argValues[i].name in args.Keys - keys
          && Ok(argValues[i].value) == ToValue(args[argValues[i].name])
        invariant forall i, j :: 0 <= i < j < |argValues| ==> argValues[i].name != argValues[j].name
        invariant forall name :: name in args.Keys - keys ==> Supported(args[name])
        decreases |keys|
      {
        var key :| key in keys;
        var v := ToValue(args[key]);
        if v.Err? {
          assert !Supported(args[key]);
          return false;
        }
        argValues := argValues + [NamedArg(key, v.value)];
        keys := keys - {key};
      }
      namedArgs := argValues;
      ok := true;
    }
  }

  class Batch {
    var steps: seq<Step<StmtValue>>
    var replicationIndex: Option<nat>

    constructor ()
      ensures steps == [] && replicationIndex == None
    {
      steps := [];
      replicationIndex := None;
    }

    method Add(stmt: StmtValue, condition: Option<BatchCondition>)
      modifies this`steps
      ensures steps == old(steps) + [Step(stmt, condition)]
    {
      steps := steps + [Step(stmt, condition)];
    }
  }
}
