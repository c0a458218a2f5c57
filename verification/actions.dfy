/**
 * The event handlers of the operation views, with the database and the
 * dialogs as inputs: each turns what the operator typed, picked or confirmed
 * into the statement it would run, or into the reason it stops.
 */
module Actions {
  import opened Outcomes
  import opened JavaText
  import opened SqlText
  import opened Binding
  import opened Rows

  /** Why a handler sends nothing to the database. */
  datatype Refusal =
    | EmptyInput              // CREATE with a blank table name or blank definitions
    | SelectionRequired       // INSERT before a table was chosen
    | NoColumns               // the catalog gave no columns for the chosen table
    | PrimaryKeyUndetermined  // no first column, or no first cell, to identify the row
    | NoRowsSelected          // DELETE with no row ticked
    | Dismissed               // the operator cancelled the dialog or the confirmation
    | Unhandled               // an exception the handler does not catch ends it; no alert is shown

  /** SQL text and the parameters bound to it. */
  datatype Statement = Statement(sql: string, binds: seq<Bind>)

  /** A prepared statement and its addBatch entries. */
  datatype Batch = Batch(sql: string, entries: seq<seq<Bind>>)

  function TrimAll(texts: seq<string>): seq<string>
  {
    seq(|texts|, i requires 0 <= i < |texts| => Trim(texts[i]))
  }

  /**
   * CREATE: both inputs are trimmed and must be non-blank; the definitions,
   * one per line, become a comma-separated list inside the parentheses.
   */
  function CreateTable(nameText: string, definitionsText: string): (r: Result<string, Refusal>)
    ensures r.Err? <==> Trim(nameText) == [] || Trim(definitionsText) == []
    ensures r.Err? ==> r.error == EmptyInput
    ensures r.Ok? ==>
      var name := Trim(nameText);
      var defs := Trim(definitionsText);
      var sql := r.value;
      && |sql| == |name| + |defs| + 16
      && sql[..13] == "CREATE TABLE " && sql[13..13 + |name|] == name
      && sql[13 + |name|..15 + |name|] == " (" && sql[|sql| - 1] == ')'
      && sql[15 + |name|..|sql| - 1] == ReplaceChar(defs, '\n', ',')
      && '\n' !in sql[15 + |name|..|sql| - 1]
  {
    var name := Trim(nameText);
    var defs := Trim(definitionsText);
    if name == [] || defs == [] then Err(EmptyInput)
    else
      Ok(CreateTableSql(name, defs))
  }

  /**
   * INSERT: needs a chosen table and its columns; one value per input field,
   * trimmed, bound to the placeholders in order.
   */
  method InsertAction(table: Option<string>, columns: Option<seq<string>>, fieldTexts: seq<string>)
    returns (r: Result<Statement, Refusal>)
    ensures r.Err? <==> table.None? || columns.None?
    ensures r.Err? ==> r.error == SelectionRequired
    ensures r.Ok? ==> r.value.sql == InsertSql(table.value, columns.value, |fieldTexts|)
    ensures r.Ok? ==> InOrder(r.value.binds) && ValuesOf(r.value.binds) == TrimAll(fieldTexts)
  {
    if table.None? || columns.None? {
      return Err(SelectionRequired);
    }
    var values := TrimAll(fieldTexts);
    var sql := InsertSql(table.value, columns.value, |values|);
    var binds := BindInsert(values);
    r := Ok(Statement(sql, binds));
  }

  /**
   * With one input field per column, an INSERT's placeholders are exactly the
   * parameters its binds fill: parameter i receives the i-th field's value.
   */
  lemma InsertFillsEveryPlaceholder(table: string, columns: seq<string>, values: seq<string>, s: Statement)
    requires |values| == |columns| && NoMarks([table] + columns)
    requires s.sql == InsertSql(table, columns, |values|)
    requires InOrder(s.binds) && ValuesOf(s.binds) == values
    ensures CountChar('?', s.sql) == |columns| == |s.binds|
    ensures forall i :: i in Parameters(s.binds) <==> 1 <= i <= |columns|
    ensures forall i :: 1 <= i <= |columns| ==> Parameters(s.binds)[i] == values[i - 1]
  {
    InsertPlaceholderCount(table, columns, |values|);
    assert |s.binds| == |ValuesOf(s.binds)|;
    InOrderParameters(s.binds);
  }

  /**
   * UPDATE of the row picked in the table. `columns` is the catalog's column
   * list (None when that query failed, which leaves earlier rows on screen);
   * `edited` is the dialog's raw field texts (None when cancelled), which its
   * result converter trims. The
   * dialog is pre-filled with the row's cells, one per column, before it is
   * shown and outside any handler, so a missing list or a row with fewer cells
   * than columns ends the action with an uncaught exception. The first column
   * is taken as the primary key and the row's original first cell as its value.
   */
  method UpdateAction(table: string, columns: Option<seq<string>>, row: RowData, edited: Option<seq<string>>)
    returns (r: Result<Statement, Refusal>)
    ensures columns.None? || |row.data| < |columns.value| ==> r == Err(Unhandled)
    ensures columns.Some? && |row.data| >= |columns.value| && edited.None? ==> r == Err(Dismissed)
    ensures columns.Some? && |row.data| >= |columns.value| && edited.Some? && |columns.value| == 0
      ==> r == Err(PrimaryKeyUndetermined)
    ensures r.Ok? <==> columns.Some? && |row.data| >= |columns.value| > 0 && edited.Some?
    ensures r.Ok? ==> r.value.sql == UpdateSql(table, columns.value, columns.value[0])
    ensures r.Ok? ==> InOrder(r.value.binds) && ValuesOf(r.value.binds) == TrimAll(edited.value) + [row.data[0]]
  {
    if columns.None? || |row.data| < |columns.value| {
      return Err(Unhandled);
    }
    if edited.None? {
      return Err(Dismissed);
    }
    var values := TrimAll(edited.value);
    if |columns.value| == 0 {
      return Err(PrimaryKeyUndetermined);
    }
    var pkColumn := columns.value[0];
    var pkValue := row.data[0];
    var sql := BuildUpdateSql(table, columns.value, pkColumn);
    var binds := BindUpdate(values, pkValue);
    r := Ok(Statement(sql, binds));
  }

  /**
   * With one dialog field per column, an UPDATE binds |columns| + 1 parameters,
   * exactly its placeholders: the SET values in column order, then the key.
   */
  lemma UpdateFillsEveryPlaceholder(table: string, columns: seq<string>, values: seq<string>, pkValue: string, s: Statement)
    requires |values| == |columns| > 0 && NoMarks([table, columns[0]] + columns)
    requires s.sql == UpdateSql(table, columns, columns[0])
    requires InOrder(s.binds) && ValuesOf(s.binds) == values + [pkValue]
    ensures CountChar('?', s.sql) == |s.binds| == |columns| + 1
    ensures forall i :: i in Parameters(s.binds) <==> 1 <= i <= |s.binds|
    ensures forall i :: 1 <= i <= |columns| ==> Parameters(s.binds)[i] == values[i - 1]
    ensures Parameters(s.binds)[|s.binds|] == pkValue
  {
    UpdatePlaceholderCount(table, columns, columns[0]);
    assert |s.binds| == |ValuesOf(s.binds)|;
    InOrderParameters(s.binds);
  }

  /**
   * The delete handler up to executeBatch: collect the ticked rows, refuse an
   * empty selection, ask for confirmation, then bind each row's first cell as
   * the key of one batch entry. `columns` is None when the catalog query
   * failed; reading the key column then throws an exception nobody catches.
   */
  method PrepareDelete(data: TableData, table: string, columns: Option<seq<string>>, confirmed: bool)
    returns (r: Result<Batch, Refusal>)
    ensures SelectedOf(data.rows) == [] ==> r == Err(NoRowsSelected)
    ensures SelectedOf(data.rows) != [] && !confirmed ==> r == Err(Dismissed)
    ensures SelectedOf(data.rows) != [] && confirmed && columns.None? ==> r == Err(Unhandled)
    ensures SelectedOf(data.rows) != [] && confirmed && columns.Some? && r.Err?
      ==> r.error == PrimaryKeyUndetermined
    ensures r.Ok? <==>
      && SelectedOf(data.rows) != [] && confirmed && columns.Some? && |columns.value| > 0
      && forall i :: 0 <= i < |SelectedOf(data.rows)| ==> |SelectedOf(data.rows)[i].data| > 0
    ensures r.Ok? ==> r.value.sql == DeleteSql(table, columns.value[0])
    ensures r.Ok? ==> var chosen := SelectedOf(data.rows);
      |r.value.entries| == |chosen|
      && forall i :: 0 <= i < |chosen| ==> r.value.entries[i] == [Bind(1, chosen[i].data[0])]
  {
    var chosen := data.CollectSelected();
    if chosen == [] {
      return Err(NoRowsSelected);
    }
    if !confirmed {
      return Err(Dismissed);
    }
    if columns.None? {
      return Err(Unhandled);
    }
    if |columns.value| == 0 {
      return Err(PrimaryKeyUndetermined);
    }
    var sql := DeleteSql(table, columns.value[0]);
    var entries := BindBatch(chosen);
    if entries.None? {
      return Err(PrimaryKeyUndetermined);
    }
    r := Ok(Batch(sql, entries.value));
  }

  /**
   * SELECT (also the reload before UPDATE and DELETE): with columns known,
   * query every row and rebuild the table; otherwise leave the table alone.
   */
  method SelectAction(data: TableData, table: string, columns: Option<seq<string>>, query: Option<seq<ResultRow>>)
    returns (r: Result<string, Refusal>)
    modifies data
    ensures columns.None? || columns.value == [] ==> r == Err(NoColumns) && data.rows == old(data.rows)
    ensures columns.Some? && columns.value != [] ==> r == Ok(SelectAllSql(table))
    ensures columns.Some? && columns.value != [] ==>
      && (forall i :: 0 <= i < |data.rows| ==> fresh(data.rows[i]) && !data.rows[i].selected)
      && (query.None? ==> data.rows == [])
      && (query.Some? ==> CellsOf(data.rows) == Materialise(columns.value, query.value).cells)
  {
    if columns.None? || columns.value == [] {
      return Err(NoColumns);
    }
    var sql := SelectAllSql(table);
    var _ := data.Load(columns.value, query);
    r := Ok(sql);
  }

  /** DROP runs only for a chosen table and a confirmed dialog. */
  function DropAction(chosen: Option<string>, confirmed: bool): (r: Option<string>)
    ensures r.Some? <==> chosen.Some? && confirmed
    ensures r.Some? ==> r.value == DropSql(chosen.value)
  {
    if chosen.Some? && confirmed then Some(DropSql(chosen.value)) else None
  }

  /** TRUNCATE runs only for a chosen table and a confirmed dialog. */
  function TruncateAction(chosen: Option<string>, confirmed: bool): (r: Option<string>)
    ensures r.Some? <==> chosen.Some? && confirmed
    ensures r.Some? ==> r.value == TruncateSql(chosen.value)
  {
    if chosen.Some? && confirmed then Some(TruncateSql(chosen.value)) else None
  }
}
