// The cursor over result sets that database/sql reads.
module RowCursor {
  import opened Wrappers
  import opened Values
  import opened Results

  // The result of one statement, or of a batch with its trailing ROLLBACK taken off.
  datatype Provider = Single(r: StmtResult) | Many(b: BatchResult)
  {
    function SetsCount(): nat {
      if Single? then 1 else |b.stepResults|
    }

    // The result shown as set number i, None when there is nothing to show.
    function SetAt(i: nat): Option<StmtResult> {
      if Single? then (if i == 0 then Some(r) else None)
      else if i < |b.stepResults| then b.stepResults[i]
      else None
    }

    function RowsCount(i: nat): nat {
      if SetAt(i).Some? then |SetAt(i).value.rows| else 0
    }

    function Columns(i: nat): seq<string> {
      if SetAt(i).None? then [] else Names(SetAt(i).value.cols)
    }

    function Error(i: nat): string {
      if Many? && i < |b.stepErrors| && b.stepErrors[i].Some? then b.stepErrors[i].value else ""
    }

    predicate HasResult(i: nat) {
      SetAt(i).Some?
    }
  }

  function Names(cols: seq<Column>): (names: seq<string>)
    ensures |names| == |cols|
  {
    if cols == [] then []
    else
      Names(cols[..|cols| - 1]) + [if cols[|cols| - 1].name.Some? then cols[|cols| - 1].name.value else ""]
  }

  // The server sends a value for every column of every row, and integers as text.
  predicate WellFormedRow(row: seq<Value>, cols: nat) {
    |row| >= cols && forall i :: 0 <= i < cols ==>
      ((row[i].typ == "integer" || row[i].typ == "text") ==> row[i].value.Text?)
  }

  predicate WellFormed(p: Provider) {
    forall i, j :: 0 <= i < p.SetsCount() && 0 <= j < p.RowsCount(i) ==>
      WellFormedRow(p.SetAt(i).value.rows[j], |p.SetAt(i).value.cols|)
  }

  // The Go values of a row.
  function Converted(row: seq<Value>, cols: seq<Column>, parseTime: string -> Option<string>, n: nat)
    : (values: seq<GoValue>)
    requires n <= |cols| && WellFormedRow(row, |cols|)
    ensures |values| == n
  {
    if n == 0 then []
    else
      Converted(row, cols, parseTime, n - 1) + [FromValue(row[n - 1], cols[n - 1].decltype, parseTime).value]
  }

  function RowAt(p: Provider, parseTime: string -> Option<string>, i: nat, j: nat): seq<GoValue>
    requires WellFormed(p) && i < p.SetsCount() && j < p.RowsCount(i)
  {
    var set0 := p.SetAt(i).value;
    Converted(set0.rows[j], set0.cols, parseTime, |set0.cols|)
  }

  // The first n rows of set i, and all rows of the first n sets.
  function RowsOfSet(p: Provider, parseTime: string -> Option<string>, i: nat, n: nat): seq<seq<GoValue>>
    requires WellFormed(p) && (i < p.SetsCount() || n == 0) && n <= p.RowsCount(i)
  {
    if n == 0 then [] else RowsOfSet(p, parseTime, i, n - 1) + [RowAt(p, parseTime, i, n - 1)]
  }

  function RowsOfSets(p: Provider, parseTime: string -> Option<string>, n: nat): seq<seq<GoValue>>
    requires WellFormed(p) && n <= p.SetsCount()
  {
    if n == 0 then []
    else RowsOfSets(p, parseTime, n - 1) + RowsOfSet(p, parseTime, n - 1, p.RowsCount(n - 1))
  }

  datatype NextSet = EOF | Ready | NotReady(message: string)

  class Rows {
    const result: Provider
    const parseTime: string -> Option<string>
    var currentResultSetIndex: nat
    var currentRowIdx: nat

    ghost predicate Valid()
      reads this
    {
      && WellFormed(result)
      && (currentResultSetIndex < result.SetsCount() || currentResultSetIndex == 0)
      && currentRowIdx <= result.RowsCount(currentResultSetIndex)
    }

    constructor (result: Provider, parseTime: string -> Option<string>)
      requires WellFormed(result)
      ensures Valid() && currentResultSetIndex == 0 && currentRowIdx == 0
      ensures this.result == result && this.parseTime == parseTime
    {
      this.result := result;
      this.parseTime := parseTime;
      currentResultSetIndex := 0;
      currentRowIdx := 0;
    }

    method Next(dest: array<GoValue>) returns (eof: bool)
      requires Valid() && dest.Length >= |result.Columns(currentResultSetIndex)|
      modifies dest, this`currentRowIdx
      ensures Valid()
      ensures eof == (old(currentRowIdx) == result.RowsCount(currentResultSetIndex))
      ensures eof ==> currentRowIdx == old(currentRowIdx) && dest[..] == old(dest[..])
      ensures !eof ==>
        && currentRowIdx == old(currentRowIdx) + 1
        && dest[..|result.Columns(currentResultSetIndex)|] ==
             RowAt(result, parseTime, currentResultSetIndex, old(currentRowIdx))
    {
      if currentRowIdx == result.RowsCount(currentResultSetIndex) {
        return true;
      }
      var count := |result.Columns(currentResultSetIndex)|;
      var shown := result.SetAt(currentResultSetIndex).value;
      FillRow(dest, count, shown.rows[currentRowIdx], shown.cols);
      currentRowIdx := currentRowIdx + 1;
      eof := false;
    }

    // The loop of Next over the columns.
    method FillRow(dest: array<GoValue>, count: nat, row: seq<Value>, cols: seq<Column>)
      requires count == |cols| <= dest.Length && WellFormedRow(row, |cols|)
      modifies dest
      ensures dest[..count] == Converted(row, cols, parseTime, count)
    {
      for idx := 0 to count
        invariant dest[..idx] == Converted(row, cols, parseTime, idx)
      {
        dest[idx] := FromValue(row[idx], cols[idx].decltype, parseTime).value;
      }
    }

    predicate HasNextResultSet()
      reads this
    {
      currentResultSetIndex < result.SetsCount() - 1
    }

    method NextResultSet() returns (r: NextSet)
      requires Valid()
      modifies this
      ensures Valid()
      ensures r == EOF <==> old(currentResultSetIndex) + 1 >= result.SetsCount()
      ensures r == EOF ==> currentResultSetIndex == old(currentResultSetIndex) && currentRowIdx == old(currentRowIdx)
      ensures r != EOF ==> currentResultSetIndex == old(currentResultSetIndex) + 1 && currentRowIdx == 0
      ensures r.NotReady? ==> result.Error(currentResultSetIndex) != "" || !result.HasResult(currentResultSetIndex)
      ensures r == Ready ==> result.Error(currentResultSetIndex) == "" && result.HasResult(currentResultSetIndex)
    {
      if !HasNextResultSet() {
        return EOF;
      }
      currentResultSetIndex := currentResultSetIndex + 1;
      currentRowIdx := 0;
      var errStr := result.Error(currentResultSetIndex);
      if errStr != "" {
        return NotReady("failed to execute statement\n" + errStr);
      }
      if !result.HasResult(currentResultSetIndex) {
        return NotReady("no results for statement");
      }
      r := Ready;
    }
  }

  lemma RowsOfSetSnoc(p: Provider, parseTime: string -> Option<string>, i: nat, n: nat)
    requires WellFormed(p) && i < p.SetsCount() && n < p.RowsCount(i)
    ensures RowsOfSet(p, parseTime, i, n + 1) == RowsOfSet(p, parseTime, i, n) + [RowAt(p, parseTime, i, n)]
  {
  }

  // Reading one row.
  method ReadRow(rows: Rows) returns (eof: bool, row: seq<GoValue>)
    requires rows.Valid()
    modifies rows`currentRowIdx
    ensures rows.Valid() && eof == (old(rows.currentRowIdx) == rows.result.RowsCount(rows.currentResultSetIndex))
    ensures eof ==> rows.currentRowIdx == old(rows.currentRowIdx)
    ensures !eof ==>
      && rows.currentRowIdx == old(rows.currentRowIdx) + 1
      && row == RowAt(rows.result, rows.parseTime, rows.currentResultSetIndex, old(rows.currentRowIdx))
  {
    var dest := new GoValue[|rows.result.Columns(rows.currentResultSetIndex)|];
    eof := rows.Next(dest);
    row := dest[..];
    assert dest[..dest.Length] == dest[..];
  }

  // Reading one set to its end.
  method DrainSet(rows: Rows) returns (all: seq<seq<GoValue>>)
    requires rows.Valid() && rows.currentRowIdx == 0
    modifies rows`currentRowIdx
    ensures rows.Valid()
    ensures var i := rows.currentResultSetIndex;
      all == RowsOfSet(rows.result, rows.parseTime, i, rows.result.RowsCount(i))
  {
    all := [];
    while true
      invariant rows.Valid()
      invariant all == RowsOfSet(rows.result, rows.parseTime, rows.currentResultSetIndex, rows.currentRowIdx)
      decreases rows.result.RowsCount(rows.currentResultSetIndex) - rows.currentRowIdx
    {
      ghost var n := rows.currentRowIdx;
      var eof, row := ReadRow(rows);
      if eof {
        return;
      }
      RowsOfSetSnoc(rows.result, rows.parseTime, rows.currentResultSetIndex, n);
      all := all + [row];
    }
  }

  // A client that reads a fresh cursor to its end gets every row of every set, once and in order.
  method Drain(rows: Rows) returns (all: seq<seq<GoValue>>)
    requires rows.Valid() && rows.currentResultSetIndex == 0 && rows.currentRowIdx == 0
    modifies rows
    ensures rows.Valid() && rows.currentResultSetIndex + 1 >= rows.result.SetsCount()
    ensures all == RowsOfSets(rows.result, rows.parseTime, rows.result.SetsCount())
  {
    all := DrainSet(rows);
    if rows.result.SetsCount() > 0 {
      FirstSet(rows.result, rows.parseTime);
    }
    while true
      invariant rows.Valid()
      invariant if rows.result.SetsCount() == 0 then all == []
        else all == RowsOfSets(rows.result, rows.parseTime, rows.currentResultSetIndex + 1)
      decreases rows.result.SetsCount() - rows.currentResultSetIndex
    {
      var r := rows.NextResultSet();
      if r == EOF {
        return;
      }
      var more := DrainSet(rows);
      all := all + more;
    }
  }

  lemma FirstSet(p: Provider, parseTime: string -> Option<string>)
    requires WellFormed(p) && p.SetsCount() > 0
    ensures RowsOfSets(p, parseTime, 1) == RowsOfSet(p, parseTime, 0, p.RowsCount(0))
  {
    assert RowsOfSets(p, parseTime, 0) == [];
  }

  // ---- cell by cell --------------------------------------------------------------------------

  lemma {:induction false} ConvertedAt(row: seq<Value>, cols: seq<Column>, parseTime: string -> Option<string>, n: nat,
                                       c: nat)
    requires c < n <= |cols| && WellFormedRow(row, |cols|)
    ensures Converted(row, cols, parseTime, n)[c] == FromValue(row[c], cols[c].decltype, parseTime).value
  {
    if c < n - 1 {
      ConvertedAt(row, cols, parseTime, n - 1, c);
    }
  }

  // Cell c of a row is value c of that row, read with the type of column c; its name is that of column c.
  lemma {:induction false} CellsExactly(p: Provider, parseTime: string -> Option<string>, i: nat, j: nat, c: nat)
    requires WellFormed(p) && i < p.SetsCount() && j < p.RowsCount(i) && c < |p.SetAt(i).value.cols|
    ensures var shown := p.SetAt(i).value;
      && |RowAt(p, parseTime, i, j)| == |p.Columns(i)| == |shown.cols|
      && RowAt(p, parseTime, i, j)[c] == FromValue(shown.rows[j][c], shown.cols[c].decltype, parseTime).value
      && p.Columns(i)[c] == if shown.cols[c].name.Some? then shown.cols[c].name.value else ""
  {
    var shown := p.SetAt(i).value;
    ConvertedAt(shown.rows[j], shown.cols, parseTime, |shown.cols|, c);
    NamesAt(shown.cols, c);
  }

  lemma {:induction false} NamesAt(cols: seq<Column>, c: nat)
    requires c < |cols|
    ensures Names(cols)[c] == if cols[c].name.Some? then cols[c].name.value else ""
  {
    if c < |cols| - 1 {
      NamesAt(cols[..|cols| - 1], c);
    }
  }

  lemma {:induction false} RowsOfSetAt(p: Provider, parseTime: string -> Option<string>, i: nat, n: nat, j: nat)
    requires WellFormed(p) && i < p.SetsCount() && j < n <= p.RowsCount(i)
    ensures |RowsOfSet(p, parseTime, i, n)| == n && RowsOfSet(p, parseTime, i, n)[j] == RowAt(p, parseTime, i, j)
  {
    SizeOfSet(p, parseTime, i, n);
    SizeOfSet(p, parseTime, i, n - 1);
    if j < n - 1 {
      RowsOfSetAt(p, parseTime, i, n - 1, j);
    }
  }

  lemma {:induction false} SizeOfSet(p: Provider, parseTime: string -> Option<string>, i: nat, n: nat)
    requires WellFormed(p) && i < p.SetsCount() && n <= p.RowsCount(i)
    ensures |RowsOfSet(p, parseTime, i, n)| == n
  {
    if n > 0 {
      SizeOfSet(p, parseTime, i, n - 1);
    }
  }

  // How many rows the first n sets have.
  function RowsBefore(p: Provider, n: nat): nat {
    if n == 0 then 0 else RowsBefore(p, n - 1) + p.RowsCount(n - 1)
  }

  lemma {:induction false} SizeOfSets(p: Provider, parseTime: string -> Option<string>, n: nat)
    requires WellFormed(p) && n <= p.SetsCount()
    ensures |RowsOfSets(p, parseTime, n)| == RowsBefore(p, n)
  {
    if n > 0 {
      SizeOfSets(p, parseTime, n - 1);
      SizeOfSet(p, parseTime, n - 1, p.RowsCount(n - 1));
    }
  }

  // Row j of set i comes after the rows of the sets before it and the j rows before it in its set.
  lemma {:induction false} DrainedExactly(p: Provider, parseTime: string -> Option<string>, n: nat, i: nat, j: nat)
    requires WellFormed(p) && i < n <= p.SetsCount() && j < p.RowsCount(i)
    ensures |RowsOfSets(p, parseTime, n)| == RowsBefore(p, n)
    ensures RowsBefore(p, i) + j < RowsBefore(p, n)
    ensures RowsOfSets(p, parseTime, n)[RowsBefore(p, i) + j] == RowAt(p, parseTime, i, j)
  {
    SizeOfSets(p, parseTime, n);
    SizeOfSets(p, parseTime, n - 1);
    if i < n - 1 {
      DrainedExactly(p, parseTime, n - 1, i, j);
    } else {
      RowsOfSetAt(p, parseTime, i, p.RowsCount(i), j);
    }
  }
}
