// How the arguments of a query are dealt out to its statements.
module Arguments {
  import opened Wrappers
  import opened Sequences
  import opened Values
  import opened Hrana

  datatype NamedValue = NamedValue(name: string, ordinal: int, value: GoValue)

  // ---- ConvertArgs ---------------------------------------------------------------------------

  // What sort.Slice promises: the same arguments, ordinals not decreasing, ties in any order.
  predicate SortedVersion(args: seq<NamedValue>, sorted: seq<NamedValue>) {
    && multiset(sorted) == multiset(args)
    && forall i, j :: 0 <= i < j < |sorted| ==> sorted[i].ordinal <= sorted[j].ordinal
  }

  predicate DistinctOrdinals(args: seq<NamedValue>) {
    forall i, j :: 0 <= i < j < |args| ==> args[i].ordinal != args[j].ordinal
  }

  predicate IsNamed(arg: NamedValue) {
    arg.name != ""
  }

  predicate Mixed(args: seq<NamedValue>) {
    exists i, j :: 0 <= i < |args| && 0 <= j < |args| && IsNamed(args[i]) && !IsNamed(args[j])
  }

  function ValuesOf(args: seq<NamedValue>): (values: seq<GoValue>)
    ensures |values| == |args|
  {
    if args == [] then [] else ValuesOf(args[..|args| - 1]) + [args[|args| - 1].value]
  }

  // A later argument overrides an earlier one of the same name.
  function NamesOf(args: seq<NamedValue>): map<string, GoValue> {
    if args == [] then map[]
    else NamesOf(args[..|args| - 1])[args[|args| - 1].name := args[|args| - 1].value]
  }

  // The parameters that arguments of one kind stand for.
  function ParamsFrom(args: seq<NamedValue>, named: bool): Params {
    if named then Params([], Some(NamesOf(args))) else Params(ValuesOf(args), None)
  }

  predicate AllOfKind(args: seq<NamedValue>, named: bool) {
    forall i :: 0 <= i < |args| ==> IsNamed(args[i]) == named
  }

  // sorted is what the library sort makes of args.
  method ConvertArgs(args: seq<NamedValue>, sorted: seq<NamedValue>) returns (r: Result<Params>)
    requires SortedVersion(args, sorted)
    ensures r.Err? <==> exists i, j :: 0 <= i < |args| && 0 <= j < |args| && args[i].name != "" && args[j].name == ""
    ensures r.Err? <==> Mixed(args)
    ensures r.Ok? ==> r.value == ParamsFrom(sorted, args != [] && args[0].name != "")
  {
    SameElements(args, sorted);
    if |args| == 0 {
      return Ok(Params([], None));
    }
    r := Collect(sorted);
  }

  method Collect(sortedArgs: seq<NamedValue>) returns (r: Result<Params>)
    requires sortedArgs != []
    ensures r.Err? <==> Mixed(sortedArgs)
    ensures r.Ok? ==> r.value == ParamsFrom(sortedArgs, IsNamed(sortedArgs[0]))
  {
    var parametersType := IsNamed(sortedArgs[0]);
    var parameters := Params([], if parametersType then Some(map[]) else None);
    for i := 0 to |sortedArgs|
      invariant AllOfKind(sortedArgs[..i], parametersType)
      invariant parameters == ParamsFrom(sortedArgs[..i], parametersType)
    {
      var arg := sortedArgs[i];
      if parametersType != IsNamed(arg) {
        assert Mixed(sortedArgs);
        return Err("driver does not accept positional and named parameters at the same time");
      }
      ParamsFromSnoc(sortedArgs[..i], arg, parametersType);
      assert sortedArgs[..i + 1] == sortedArgs[..i] + [arg];
      if parametersType {
        parameters := parameters.(named := Some(parameters.named.value[arg.name := arg.value]));
      } else {
        parameters := parameters.(positional := parameters.positional + [arg.value]);
      }
    }
    assert sortedArgs[..|sortedArgs|] == sortedArgs;
    r := Ok(parameters);
  }

  lemma ParamsFromSnoc(args: seq<NamedValue>, arg: NamedValue, named: bool)
    ensures ParamsFrom(args + [arg], named) ==
      if named then Params([], Some(NamesOf(args)[arg.name := arg.value]))
      else Params(ValuesOf(args) + [arg.value], None)
  {
    assert (args + [arg])[..|args|] == args;
  }

  lemma SameElements(args: seq<NamedValue>, sorted: seq<NamedValue>)
    requires multiset(sorted) == multiset(args)
    ensures |args| == |sorted|
    ensures forall x :: x in args <==> x in sorted
    ensures Mixed(args) <==> Mixed(sorted)
    ensures !Mixed(args) && args != [] ==> IsNamed(sorted[0]) == IsNamed(args[0])
  {
    assert |multiset(args)| == |args| && |multiset(sorted)| == |sorted|;
    assert forall x :: x in args <==> x in multiset(args);
    assert forall x :: x in sorted <==> x in multiset(sorted);
    MixedAmong(args, sorted);
    MixedAmong(sorted, args);
    if args != [] && IsNamed(sorted[0]) != IsNamed(args[0]) {
      assert sorted[0] in args;
      var i :| 0 <= i < |args| && args[i] == sorted[0];
      assert IsNamed(args[i]) != IsNamed(args[0]);
    }
  }

  lemma MixedAmong(a: seq<NamedValue>, b: seq<NamedValue>)
    requires forall x :: x in a ==> x in b
    ensures Mixed(a) ==> Mixed(b)
  {
    if i, j :| 0 <= i < |a| && 0 <= j < |a| && IsNamed(a[i]) && !IsNamed(a[j]) {
      assert a[i] in b && a[j] in b;
      var k :| 0 <= k < |b| && b[k] == a[i];
      var l :| 0 <= l < |b| && b[l] == a[j];
      assert IsNamed(b[k]) && !IsNamed(b[l]);
    }
  }

  // With distinct ordinals, as database/sql gives them, there is one sorted version, whatever the
  // sort does with ties.
  lemma SortedOnce(args: seq<NamedValue>, a: seq<NamedValue>, b: seq<NamedValue>)
    requires DistinctOrdinals(args) && SortedVersion(args, a) && SortedVersion(args, b)
    ensures a == b
  {
    DistinctInAnyOrder(args, a);
    SortedStays(a, b);
  }

  lemma DistinctInAnyOrder(args: seq<NamedValue>, a: seq<NamedValue>)
    requires DistinctOrdinals(args) && multiset(a) == multiset(args)
    ensures DistinctOrdinals(a)
  {
    SameElements(args, a);
    forall i, j | 0 <= i < j < |a|
      ensures a[i].ordinal != a[j].ordinal
    {
      var x, y := a[i], a[j];
      if x == y {
        assert a == a[..j] + a[j..];
        assert x in a[..j] && x in a[j..];
        OnceEach(args, x);
      } else {
        assert x in a && y in a;
        assert x in args && y in args;
        var k :| 0 <= k < |args| && args[k] == x;
        var l :| 0 <= l < |args| && args[l] == y;
        assert k < l || l < k;
      }
    }
  }

  lemma {:induction false} OnceEach(args: seq<NamedValue>, x: NamedValue)
    requires DistinctOrdinals(args)
    ensures multiset(args)[x] <= 1
  {
    if args != [] {
      MultisetTail(args);
      OnceEach(args[1..], x);
      if args[0] == x {
        assert x !in args[1..];
      }
    }
  }

  lemma {:induction false} SortedStays(a: seq<NamedValue>, b: seq<NamedValue>)
    requires SortedVersion(a, b) && SortedVersion(a, a) && DistinctOrdinals(a)
    ensures a == b
  {
    SameElements(a, b);
    if a != [] {
      SmallestFirst(a, b);
      MultisetTail(a);
      MultisetTail(b);
      SortedStays(a[1..], b[1..]);
      assert a == [a[0]] + a[1..] && b == [b[0]] + b[1..];
    }
  }

  lemma MultisetTail(a: seq<NamedValue>)
    requires a != []
    ensures multiset(a[1..]) == multiset(a) - multiset{a[0]}
  {
    assert a == [a[0]] + a[1..];
  }

  lemma SmallestFirst(a: seq<NamedValue>, b: seq<NamedValue>)
    requires a != [] && SortedVersion(a, b) && SortedVersion(a, a) && DistinctOrdinals(a)
    ensures b != [] && a[0] == b[0]
  {
    SameElements(a, b);
    assert b[0] in multiset(b) && a[0] in multiset(a);
    var i :| 0 <= i < |a| && a[i] == b[0];
    var j :| 0 <= j < |b| && b[j] == a[0];
    assert a[0].ordinal <= a[i].ordinal && b[0].ordinal <= b[j].ordinal;
  }

  // ---- parameters of a statement -------------------------------------------------------------

  predicate IsPositional(p: string) {
    p != "" && p[0] == '?' && forall i :: 1 <= i < |p| ==> '0' <= p[i] <= '9'
  }

  predicate HasPrefix(p: string) {
    p != "" && p[0] in {':', '@', '$'}
  }

  function Bare(params: seq<string>): nat {
    if params == [] then 0 else Bare(params[..|params| - 1]) + if params[|params| - 1] == "?" then 1 else 0
  }

  function Indexes(params: seq<string>): set<string> {
    set p | p in params && IsPositional(p) && p != "?" :: p[1..]
  }

  function Names(params: seq<string>): set<string> {
    set p | p in params && HasPrefix(p) :: p[1..]
  }

  // Every parameter without a number counts; the numbered ones count once for each number text.
  function PositionalCount(params: seq<string>): nat {
    Bare(params) + |Indexes(params)|
  }

  datatype ParamsInfo = ParamsInfo(names: set<string>, positionalCount: nat)

  method ExtractParameters(params: seq<string>) returns (r: Result<ParamsInfo>)
    requires forall i :: 0 <= i < |params| ==> params[i] != ""
    ensures r.Err? <==> exists p :: p in params && !IsPositional(p) && !HasPrefix(p)
    ensures r.Ok? ==> r.value == ParamsInfo(Names(params), PositionalCount(params))
  {
    var nameParamsSet: set<string> := {};
    var positionalParamsWithIndexesSet: set<string> := {};
    var positionalParamsCount := 0;
    for i := 0 to |params|
      invariant forall p :: p in params[..i] ==> IsPositional(p) || HasPrefix(p)
      invariant nameParamsSet == Names(params[..i])
      invariant positionalParamsWithIndexesSet == Indexes(params[..i])
      invariant positionalParamsCount == Bare(params[..i])
    {
      var parameter := params[i];
      assert params[..i + 1] == params[..i] + [parameter];
      assert params[..i + 1][..i] == params[..i];
      if !IsPositional(parameter) {
        if !HasPrefix(parameter) {
          assert parameter in params;
          return Err("all named parameters must start with ':', or '@' or '$'");
        }
        nameParamsSet := nameParamsSet + {parameter[1..]};
        continue;
      }
      if parameter[1..] == "" {
        assert parameter == "?";
        positionalParamsCount := positionalParamsCount + 1;
      } else {
        positionalParamsWithIndexesSet := positionalParamsWithIndexesSet + {parameter[1..]};
      }
    }
    assert params[..|params|] == params;
    r := Ok(ParamsInfo(nameParamsSet, positionalParamsCount + |positionalParamsWithIndexesSet|));
  }

  // The lexer's view of a statement: its bind parameters in order, and whether it starts with EXPLAIN.
  datatype Lexed = Lexed(params: seq<string>, explain: bool)

  predicate LexerParams(l: Lexed) {
    forall i :: 0 <= i < |l.params| ==> l.params[i] != ""
  }

  predicate Extractable(l: Lexed) {
    forall p :: p in l.params ==> IsPositional(p) || HasPrefix(p)
  }

  // How many of the arguments left a statement takes.
  function Share(l: Lexed, left: nat): nat {
    if PositionalCount(l.params) <= left then PositionalCount(l.params)
    else if l.explain then 0
    else left
  }

  // The named arguments that a statement mentions.
  function Mentioned(l: Lexed, args: map<string, GoValue>): map<string, GoValue> {
    map name | name in args && name in Names(l.params) :: args[name]
  }

  method GenerateStatementParameters(l: Lexed, queryParams: Params, positionalParametersOffset: nat)
    returns (r: Result<Params>)
    requires LexerParams(l) && (queryParams.named.None? ==> positionalParametersOffset <= |queryParams.positional|)
    ensures r.Err? <==> !Extractable(l)
    ensures r.Ok? && queryParams.named.None? ==>
      var from := positionalParametersOffset;
      var share := Share(l, |queryParams.positional| - from);
      r.value == Params(queryParams.positional[from..from + share], None)
    ensures r.Ok? && queryParams.named.Some? ==>
      r.value == Params([], Some(Mentioned(l, queryParams.named.value)))
  {
    var info := ExtractParameters(l.params);
    if info.Err? {
      return Err(info.error);
    }
    var nameParams, positionalParamsCount := info.value.names, info.value.positionalCount;
    if queryParams.named.None? {
      if positionalParametersOffset + positionalParamsCount > |queryParams.positional| {
        if l.explain {
          return Ok(Params([], None));
        }
        return Ok(Params(queryParams.positional[positionalParametersOffset..], None));
      }
      var end := positionalParametersOffset + positionalParamsCount;
      return Ok(Params(queryParams.positional[positionalParametersOffset..end], None));
    }
    var given := queryParams.named.value;
    var needed := nameParams;
    var named: map<string, GoValue> := map[];
    var keys := given.Keys;
    while keys != {}
      invariant keys <= given.Keys
      invariant needed == nameParams - (given.Keys - keys)
      invariant named == map name | name in given && name !in keys && name in nameParams :: given[name]
      decreases |keys|
    {
      var key :| key in keys;
      keys := keys - {key};
      if key in needed {
        named := named[key := given[key]];
        needed := needed - {key};
      }
    }
    assert named == Mentioned(l, given);
    r := Ok(Params([], Some(named)));
  }

  // ---- dealing out ---------------------------------------------------------------------------

  // All the positional arguments handed out, in statement order.
  function Flat(params: seq<Params>): seq<GoValue> {
    if params == [] then [] else Flat(params[..|params| - 1]) + params[|params| - 1].positional
  }

  lemma FlatSnoc(params: seq<Params>, p: Params)
    ensures Flat(params + [p]) == Flat(params) + p.positional
  {
    assert (params + [p])[..|params|] == params;
  }

  // The first n statements took the next arguments in turn, each its share of what was left.
  predicate Dealt(lexed: seq<Lexed>, params: seq<Params>, args: seq<GoValue>, n: nat) {
    n == 0 || (
      && n <= |lexed| && n <= |params|
      && Dealt(lexed, params, args, n - 1)
      && Flat(params[..n]) <= args
      && params[n - 1].named.None?
      && |params[n - 1].positional| == Share(lexed[n - 1], |args| - |Flat(params[..n - 1])|))
  }

  predicate NamedDealt(lexed: seq<Lexed>, params: seq<Params>, args: map<string, GoValue>) {
    |params| == |lexed| && forall i :: 0 <= i < |lexed| ==> params[i] == Params([], Some(Mentioned(lexed[i], args)))
  }

  lemma {:induction false} DealtAppend(lexed: seq<Lexed>, params: seq<Params>, p: Params, args: seq<GoValue>, n: nat)
    requires n <= |params| && Dealt(lexed, params, args, n)
    ensures Dealt(lexed, params + [p], args, n)
  {
    if n > 0 {
      DealtAppend(lexed, params, p, args, n - 1);
      assert (params + [p])[..n] == params[..n];
      assert (params + [p])[..n - 1] == params[..n - 1];
    }
  }

  // The first statements have been dealt with, and used arguments are gone.
  predicate SoFar(lexed: seq<Lexed>, params: seq<Params>, query: Params, used: nat) {
    && |params| <= |lexed|
    && if query.named.Some? then NamedDealt(lexed[..|params|], params, query.named.value)
       else
         && used <= |query.positional|
         && Dealt(lexed, params, query.positional, |params|)
         && Flat(params) == query.positional[..used]
  }

  // lexed stands for the statements; parameters is the outcome of ConvertArgs on the arguments.
  method DealArguments(lexed: seq<Lexed>, parameters: Params) returns (r: Result<seq<Params>>)
    requires forall i :: 0 <= i < |lexed| ==> LexerParams(lexed[i])
    ensures r.Err? <==> exists i :: 0 <= i < |lexed| && !Extractable(lexed[i])
    ensures r.Ok? ==> |r.value| == |lexed|
    ensures r.Ok? && parameters.named.None? ==> Dealt(lexed, r.value, parameters.positional, |lexed|)
    ensures r.Ok? && parameters.named.Some? ==> NamedDealt(lexed, r.value, parameters.named.value)
  {
    var stmtsParams: seq<Params> := [];
    var totalParametersAlreadyUsed := 0;
    for idx := 0 to |lexed|
      invariant |stmtsParams| == idx && 0 <= totalParametersAlreadyUsed
      invariant forall i :: 0 <= i < idx ==> Extractable(lexed[i])
      invariant SoFar(lexed, stmtsParams, parameters, totalParametersAlreadyUsed)
    {
      var stmtParams := GenerateStatementParameters(lexed[idx], parameters, totalParametersAlreadyUsed);
      if stmtParams.Err? {
        return Err("fail to generate statement parameter");
      }
      DealNext(lexed, stmtsParams, stmtParams.value, parameters, totalParametersAlreadyUsed);
      stmtsParams := stmtsParams + [stmtParams.value];
      totalParametersAlreadyUsed := totalParametersAlreadyUsed + stmtParams.value.Len();
    }
    assert lexed[..|lexed|] == lexed;
    r := Ok(stmtsParams);
  }

  lemma DealNext(lexed: seq<Lexed>, params: seq<Params>, p: Params, query: Params, used: nat)
    requires SoFar(lexed, params, query, used) && |params| < |lexed|
    requires var l := lexed[|params|];
      p == if query.named.Some? then Params([], Some(Mentioned(l, query.named.value)))
           else Params(query.positional[used..used + Share(l, |query.positional| - used)], None)
    ensures SoFar(lexed, params + [p], query, used + p.Len())
  {
    if query.named.Some? {
      assert lexed[..|params| + 1] == lexed[..|params|] + [lexed[|params|]];
    } else {
      DealNextPositional(lexed, params, p, query.positional, used);
    }
  }

  lemma DealNextPositional(lexed: seq<Lexed>, params: seq<Params>, p: Params, args: seq<GoValue>, used: nat)
    requires |params| < |lexed| && used <= |args|
    requires Dealt(lexed, params, args, |params|) && Flat(params) == args[..used]
    requires p == Params(args[used..used + Share(lexed[|params|], |args| - used)], None)
    ensures Dealt(lexed, params + [p], args, |params| + 1)
    ensures Flat(params + [p]) == args[..used + |p.positional|]
  {
    var share := Share(lexed[|params|], |args| - used);
    FlatSnoc(params, p);
    TakePlus(args, used, share);
    TakeIsPrefix(args, used);
    TakeIsPrefix(args, used + share);
    DealtAppend(lexed, params, p, args, |params|);
    DealtSnoc(lexed, params, p, args);
  }

  lemma DealtSnoc(lexed: seq<Lexed>, params: seq<Params>, p: Params, args: seq<GoValue>)
    requires |params| < |lexed| && Dealt(lexed, params + [p], args, |params|)
    requires Flat(params) <= args && Flat(params + [p]) <= args && p.named.None?
    requires |p.positional| == Share(lexed[|params|], |args| - |Flat(params)|)
    ensures Dealt(lexed, params + [p], args, |params| + 1)
  {
    var n, all := |params|, params + [p];
    assert all[..n] == params && all[..n + 1] == all;
  }

  method ParseStatementAndArgs(lexed: seq<Lexed>, args: seq<NamedValue>, sorted: seq<NamedValue>)
    returns (r: Result<seq<Params>>)
    requires SortedVersion(args, sorted)
    requires forall i :: 0 <= i < |lexed| ==> LexerParams(lexed[i])
    ensures args == [] ==> r == Ok([])
    ensures args != [] ==> (r.Err? <==> Mixed(args) || exists i :: 0 <= i < |lexed| && !Extractable(lexed[i]))
    ensures args != [] && r.Ok? ==> |r.value| == |lexed|
    ensures args != [] && r.Ok? && args[0].name == "" ==> Dealt(lexed, r.value, ValuesOf(sorted), |lexed|)
    ensures args != [] && r.Ok? && args[0].name != "" ==> NamedDealt(lexed, r.value, NamesOf(sorted))
  {
    if |args| == 0 {
      return Ok([]);
    }
    var parameters := ConvertArgs(args, sorted);
    if parameters.Err? {
      return Err(parameters.error);
    }
    r := DealArguments(lexed, parameters.value);
  }

  // ---- the partition -------------------------------------------------------------------------

  // How many arguments the first n statements ask for when m are given; an EXPLAIN statement whose
  // arguments are not all there is not counted.
  function Asked(lexed: seq<Lexed>, n: nat, m: nat): nat
    requires n <= |lexed|
  {
    if n == 0 then 0
    else
      var before, count := Asked(lexed, n - 1, m), PositionalCount(lexed[n - 1].params);
      if lexed[n - 1].explain && before + count > m then before else before + count
  }

  // Without EXPLAIN it is the sum of the counts.
  lemma {:induction false} AskedWithoutExplain(lexed: seq<Lexed>, n: nat, m: nat)
    requires n <= |lexed| && forall i :: 0 <= i < n ==> !lexed[i].explain
    ensures Asked(lexed, n, m) == Total(lexed, n)
  {
    if n > 0 {
      AskedWithoutExplain(lexed, n - 1, m);
    }
  }

  function Total(lexed: seq<Lexed>, n: nat): nat
    requires n <= |lexed|
  {
    if n == 0 then 0 else Total(lexed, n - 1) + PositionalCount(lexed[n - 1].params)
  }

  function Min(a: nat, b: nat): nat {
    if a < b then a else b
  }

  // Statement i gets the arguments from the number asked for before it to the number asked for with
  // its own, both cut off at the end of the arguments.
  lemma {:induction false} Partition(lexed: seq<Lexed>, params: seq<Params>, args: seq<GoValue>, n: nat)
    requires n <= |params| && n <= |lexed| && Dealt(lexed, params, args, n)
    ensures Flat(params[..n]) == args[..Min(Asked(lexed, n, |args|), |args|)]
    ensures n > 0 ==>
      params[n - 1].positional ==
        args[Min(Asked(lexed, n - 1, |args|), |args|)..Min(Asked(lexed, n, |args|), |args|)]
  {
    if n == 0 {
      assert params[..0] == [];
    } else {
      Partition(lexed, params, args, n - 1);
      var before, after := Min(Asked(lexed, n - 1, |args|), |args|), Min(Asked(lexed, n, |args|), |args|);
      assert after == before + Share(lexed[n - 1], |args| - before);
      PartitionStep(params, args, n, before, after);
    }
  }

  lemma PartitionStep(params: seq<Params>, args: seq<GoValue>, n: nat, before: nat, after: nat)
    requires 0 < n <= |params| && before <= after <= |args|
    requires Flat(params[..n - 1]) == args[..before] && Flat(params[..n]) <= args
    requires |params[n - 1].positional| == after - before
    ensures Flat(params[..n]) == args[..after] && params[n - 1].positional == args[before..after]
  {
    assert params[..n] == params[..n - 1] + [params[n - 1]];
    FlatSnoc(params[..n - 1], params[n - 1]);
    var flat := Flat(params[..n]);
    assert flat == args[..after];
    assert params[n - 1].positional == flat[before..];
    SliceOfTake(args, after, before, after);
  }

  // Every argument reaches a statement exactly when the statements ask for enough of them; what is
  // left over is dropped without an error.
  lemma {:induction false} AllArgumentsUsed(lexed: seq<Lexed>, params: seq<Params>, args: seq<GoValue>)
    requires |params| == |lexed| && Dealt(lexed, params, args, |lexed|)
    ensures Flat(params) == args <==> |args| <= Asked(lexed, |lexed|, |args|)
  {
    var asked := Asked(lexed, |lexed|, |args|);
    var used := Min(asked, |args|);
    Partition(lexed, params, args, |lexed|);
    assert params[..|lexed|] == params;
    TakeIsAll(args, used);
  }

  // ---- parameters, character by character ----------------------------------------------------

  predicate AreDigits(s: string) {
    forall i :: 0 <= i < |s| ==> s[i] in {'0', '1', '2', '3', '4', '5', '6', '7', '8', '9'}
  }

  // A parameter is positional exactly when it is a question mark and digits, or none.
  lemma PositionalExactly(p: string)
    ensures IsPositional(p) <==> p != "" && p[0] == '?' && AreDigits(p[1..])
  {
    if p != "" && AreDigits(p[1..]) {
      forall i | 1 <= i < |p|
        ensures '0' <= p[i] <= '9'
      {
        assert p[1..][i - 1] == p[i];
      }
    }
  }

  // The names of a statement are what follows a colon, an at sign or a dollar sign.
  lemma NamesExactly(params: seq<string>, name: string)
    ensures name in Names(params) <==> ":" + name in params || "@" + name in params || "$" + name in params
  {
    forall c: char
      ensures ([c] + name)[1..] == name
    {
    }
    if name in Names(params) {
      var p :| p in params && HasPrefix(p) && p[1..] == name;
      assert p == [p[0]] + name;
    }
  }

  // The number texts are the digits that follow a question mark.
  lemma IndexesExactly(params: seq<string>, digits: string)
    ensures digits in Indexes(params) <==> digits != "" && AreDigits(digits) && "?" + digits in params
  {
    var p := "?" + digits;
    PositionalExactly(p);
    assert p[1..] == digits;
    if digits in Indexes(params) {
      var q :| q in params && IsPositional(q) && q != "?" && q[1..] == digits;
      assert q == p;
    }
  }

  // The bare question marks are counted one by one.
  lemma {:induction false} BareExactly(params: seq<string>)
    ensures Bare(params) == |set i | 0 <= i < |params| && params[i] == "?"|
  {
    var marks := set i | 0 <= i < |params| && params[i] == "?";
    if params == [] {
      assert marks == {};
    } else {
      var n := |params| - 1;
      var before := set i | 0 <= i < n && params[..n][i] == "?";
      BareExactly(params[..n]);
      assert marks == before + if params[n] == "?" then {n} else {};
      assert n !in before;
    }
  }

  // Positional parameters are the bare question marks, one by one, and the different number texts.
  lemma CountExactly(params: seq<string>)
    ensures PositionalCount(params) ==
      |set i | 0 <= i < |params| && params[i] == "?"|
      + |set p | p in params && |p| > 1 && p[0] == '?' && AreDigits(p[1..]) :: p[1..]|
  {
    BareExactly(params);
    var digits := set p | p in params && |p| > 1 && p[0] == '?' && AreDigits(p[1..]) :: p[1..];
    forall d ensures d in digits <==> d in Indexes(params) {
      IndexesExactly(params, d);
      if d in Indexes(params) {
        assert ("?" + d)[1..] == d;
      }
      if d in digits {
        var p :| p in params && |p| > 1 && p[0] == '?' && AreDigits(p[1..]) && p[1..] == d;
        assert p == "?" + d;
      }
    }
    assert digits == Indexes(params);
  }

  // Positional arguments keep the values in order; a later named argument overrides an earlier one.
  lemma {:induction false} ValuesAt(args: seq<NamedValue>, i: nat)
    requires i < |args|
    ensures ValuesOf(args)[i] == args[i].value
  {
    if i < |args| - 1 {
      ValuesAt(args[..|args| - 1], i);
    }
  }

  lemma {:induction false} NamedLast(args: seq<NamedValue>, i: nat)
    requires i < |args| && forall j :: i < j < |args| ==> args[j].name != args[i].name
    ensures args[i].name in NamesOf(args) && NamesOf(args)[args[i].name] == args[i].value
  {
    if i < |args| - 1 {
      NamedLast(args[..|args| - 1], i);
    }
  }

  lemma {:induction false} NamedOnly(args: seq<NamedValue>, name: string)
    requires name in NamesOf(args)
    ensures exists i :: 0 <= i < |args| && args[i].name == name
  {
    var n := |args| - 1;
    if args[n].name != name {
      NamedOnly(args[..n], name);
      var i :| 0 <= i < n && args[..n][i].name == name;
      assert args[i].name == name;
    }
  }
}
