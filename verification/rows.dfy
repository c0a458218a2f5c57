/**
 * The in-memory table the views show: one RowData per result row, each with
 * its string cells and the checkbox flag used by the batch delete.
 */
module Rows {
  import opened Outcomes
  import opened Selection

  /** One displayed row: its cells, copied from the query, and its selection flag. */
  class RowData {
    var selected: bool
    var data: seq<string>

    constructor (cells: seq<string>)
      ensures !selected && data == cells
    {
      selected := false;
      data := cells;
    }

    method SetSelected(value: bool)
      modifies this
      ensures selected == value && data == old(data)
    {
      selected := value;
    }
  }

  function FlagsOf(rows: seq<RowData>): seq<bool>
    reads rows
  {
    seq(|rows|, i reads rows requires 0 <= i < |rows| => rows[i].selected)
  }

  function CellsOf(rows: seq<RowData>): seq<seq<string>>
    reads rows
  {
    seq(|rows|, i reads rows requires 0 <= i < |rows| => rows[i].data)
  }

  /** The rows whose flag is set, in table order. */
  function SelectedOf(rows: seq<RowData>): (r: seq<RowData>)
    reads rows
    ensures |r| <= |rows|
    ensures forall i :: 0 <= i < |r| ==> r[i] in rows && r[i].selected
  {
    if rows == [] then []
    else
      var last := rows[|rows| - 1];
      SelectedOf(rows[..|rows| - 1]) + (if last.selected then [last] else [])
  }

  /** Filtering a concatenation filters each part, keeping their order. */
  lemma {:induction false} SelectedOfAppend(a: seq<RowData>, b: seq<RowData>)
    ensures SelectedOf(a + b) == SelectedOf(a) + SelectedOf(b)
  {
    if b == [] {
      assert a + b == a;
    } else {
      assert (a + b)[..|a + b| - 1] == a + b[..|b| - 1];
      SelectedOfAppend(a, b[..|b| - 1]);
    }
  }

  /** The filter keeps exactly the selected rows. */
  lemma {:induction false} SelectedOfMembers(rows: seq<RowData>)
    ensures forall r :: r in SelectedOf(rows) ==> r in rows && r.selected
    ensures forall i :: 0 <= i < |rows| && rows[i].selected ==> rows[i] in SelectedOf(rows)
  {
    if rows != [] {
      var init := rows[..|rows| - 1];
      SelectedOfMembers(init);
      forall i | 0 <= i < |rows| - 1 && rows[i].selected ensures rows[i] in SelectedOf(rows) {
        assert rows[i] == init[i];
      }
    }
  }

  /** The filter has one entry per set flag. */
  lemma {:induction false} SelectedOfCount(rows: seq<RowData>)
    ensures |SelectedOf(rows)| == CountSelected(FlagsOf(rows))
  {
    if rows != [] {
      var init := rows[..|rows| - 1];
      SelectedOfCount(init);
      assert FlagsOf(rows)[..|rows| - 1] == FlagsOf(init);
    }
  }

  /** The delete handler finds nothing to delete exactly when the header summary is "none selected". */
  lemma NothingSelectedIffNoneSummary(rows: seq<RowData>)
    ensures SelectedOf(rows) == [] <==> Classify(FlagsOf(rows)) == NoneSelected
  {
    SelectedOfCount(rows);
    CountSelectedNone(FlagsOf(rows));
  }

  /** One result row as the driver gives it: ResultSet.getString by column name. */
  type ResultRow = map<string, string>

  /** The cells of one result row, one per column in column order; None if a column is missing. */
  function RowCells(columns: seq<string>, row: ResultRow): Option<seq<string>>
  {
    if forall j :: 0 <= j < |columns| ==> columns[j] in row
    then Some(seq(|columns|, j requires 0 <= j < |columns| && columns[j] in row => row[columns[j]]))
    else None
  }

  /** The rows a load keeps, and whether it read every result row. */
  datatype Loaded = Loaded(cells: seq<seq<string>>, complete: bool)

  /**
   * Reading the result rows in order; the first row that cannot be read stops
   * the load (an SQLException mid-load), leaving the rows read before it.
   */
  function Materialise(columns: seq<string>, results: seq<ResultRow>): (r: Loaded)
    ensures |r.cells| <= |results|
    ensures r.complete ==> |r.cells| == |results|
    ensures !r.complete ==> results != []
  {
    if results == [] then Loaded([], true)
    else
      var before := Materialise(columns, results[..|results| - 1]);
      if !before.complete then before
      else match RowCells(columns, results[|results| - 1])
        case None => Loaded(before.cells, false)
        case Some(cells) => Loaded(before.cells + [cells], true)
  }

  /** Row i of a load holds, in column order, the value of each column in result row i. */
  lemma {:induction false} MaterialiseShape(columns: seq<string>, results: seq<ResultRow>)
    ensures var m := Materialise(columns, results);
      && |m.cells| <= |results|
      && (m.complete ==> |m.cells| == |results|)
      && (!m.complete ==> |m.cells| < |results| && RowCells(columns, results[|m.cells|]).None?)
      && forall i :: 0 <= i < |m.cells| ==> RowCells(columns, results[i]) == Some(m.cells[i])
  {
    if results != [] {
      var init := results[..|results| - 1];
      MaterialiseShape(columns, init);
      var m := Materialise(columns, results);
      forall i | 0 <= i < |m.cells| ensures RowCells(columns, results[i]) == Some(m.cells[i]) {
        if i < |results| - 1 { assert results[i] == init[i]; }
      }
      if !m.complete {
        var b := Materialise(columns, init);
        if !b.complete { assert results[|m.cells|] == init[|b.cells|]; }
      }
    }
  }

  /** A load that read every row kept all of them. */
  lemma MaterialiseComplete(columns: seq<string>, results: seq<ResultRow>)
    requires forall i :: 0 <= i < |results| ==> RowCells(columns, results[i]).Some?
    ensures Materialise(columns, results).complete
    ensures |Materialise(columns, results).cells| == |results|
  {
    MaterialiseShape(columns, results);
  }

  /** Once a prefix stopped the load, the later rows change nothing. */
  lemma {:induction false} MaterialiseStopped(columns: seq<string>, results: seq<ResultRow>, i: nat)
    requires i <= |results| && !Materialise(columns, results[..i]).complete
    ensures Materialise(columns, results) == Materialise(columns, results[..i])
  {
    if i < |results| {
      var init := results[..|results| - 1];
      assert init[..i] == results[..i];
      MaterialiseStopped(columns, init, i);
    } else {
      assert results[..i] == results;
    }
  }

  /** The cells of one result row, read column by column (the inner loop of a load). */
  method ReadRow(columns: seq<string>, row: ResultRow) returns (r: Option<seq<string>>)
    ensures r.Some? <==> forall j :: 0 <= j < |columns| ==> columns[j] in row
    ensures r.Some? ==> |r.value| == |columns| && forall j :: 0 <= j < |columns| ==> r.value[j] == row[columns[j]]
  {
    var values: seq<string> := [];
    for j := 0 to |columns|
      invariant forall k :: 0 <= k < j ==> columns[k] in row
      invariant |values| == j && forall k :: 0 <= k < j ==> values[k] == row[columns[k]]
    {
      if columns[j] !in row {
        return None;
      }
      values := values + [row[columns[j]]];
    }
    r := Some(values);
  }

  /** The table's current rows; every reload replaces them wholesale. */
  class TableData {
    var rows: seq<RowData>

    constructor ()
      ensures rows == []
    {
      rows := [];
    }

    /**
     * Clears the table and appends one fresh, unselected row per result row.
     * `query` is None when the SELECT itself failed.
     */
    method Load(columns: seq<string>, query: Option<seq<ResultRow>>) returns (complete: bool)
      modifies this
      ensures forall i :: 0 <= i < |rows| ==> fresh(rows[i]) && !rows[i].selected
      ensures forall i, j :: 0 <= i < j < |rows| ==> rows[i] != rows[j]
      ensures query.None? ==> rows == [] && !complete
      ensures query.Some? ==> var m := Materialise(columns, query.value);
        CellsOf(rows) == m.cells && complete == m.complete
    {
      rows := [];
      if query.None? {
        return false;
      }
      var results := query.value;
      var i := 0;
      while i < |results|
        invariant 0 <= i <= |results|
        invariant Materialise(columns, results[..i]).complete
        invariant CellsOf(rows) == Materialise(columns, results[..i]).cells
        invariant forall k :: 0 <= k < |rows| ==> fresh(rows[k]) && !rows[k].selected
        invariant forall k, l :: 0 <= k < l < |rows| ==> rows[k] != rows[l]
      {
        assert results[..i + 1][..i] == results[..i];
        var cells := ReadRow(columns, results[i]);
        if cells.None? {
          MaterialiseStopped(columns, results, i + 1);
          return false;
        }
        assert cells.value == seq(|columns|, j requires 0 <= j < |columns| && columns[j] in results[i] => results[i][columns[j]]);
        assert RowCells(columns, results[i]) == cells;
        ghost var before := CellsOf(rows);
        var row := new RowData(cells.value);
        assert CellsOf(rows) == before;
        rows := rows + [row];
        assert CellsOf(rows) == before + [cells.value];
        i := i + 1;
      }
      assert results[..i] == results;
      complete := true;
    }

    /** The header's select-all action: every row takes the header's value. */
    method SetAllSelected(value: bool)
      modifies rows
      ensures FlagsOf(rows) == seq(|rows|, _ => value)
      ensures CellsOf(rows) == old(CellsOf(rows))
    {
      for i := 0 to |rows|
        invariant forall k :: 0 <= k < i ==> rows[k].selected == value
        invariant forall k :: 0 <= k < |rows| ==> rows[k].data == old(rows[k].data)
      {
        rows[i].SetSelected(value);
      }
    }

    /** The rows the delete handler collects: the selected ones, in table order. */
    method CollectSelected() returns (chosen: seq<RowData>)
      ensures chosen == SelectedOf(rows)
    {
      chosen := [];
      for i := 0 to |rows|
        invariant chosen == SelectedOf(rows[..i])
      {
        assert rows[..i + 1][..i] == rows[..i];
        if rows[i].selected {
          chosen := chosen + [rows[i]];
        }
      }
      assert rows[..|rows|] == rows;
    }
  }
}
