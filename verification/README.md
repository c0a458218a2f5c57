# CRUD statement engine of CrudOperations

`CrudOperations.java` is a JavaFX desktop tool. It lets an operator create,
fill, edit, empty and drop tables of an Oracle database without writing SQL.
Inside its event handlers sits a small engine:

- builders that turn a table name, the catalog's column list and the typed
  values into SQL text;
- the `setString` calls that bind values to the `?` placeholders;
- the tally of the driver's `executeBatch` counts after a batch delete;
- the in-memory table of `RowData` rows, with a selection flag per row, the
  "select all" header and its three-state summary.

This project models that engine in Dafny and proves what the handlers
promise. The database, the catalog and the dialogs become inputs:

- a column list;
- result rows, as maps from column name to text;
- the batch result array;
- booleans for the confirmations;
- `Option` values for dialogs that can be cancelled, and for the catalog's
  column list, which is missing when its query failed.

Modules, one per part of the engine:

- `JavaText` (text.dfy): `String.trim` (chars up to U+0020 stripped at both
  ends), one-character `replace`, `String.join`, and a character count.
- `SqlText` (statements.dfy): the CREATE, INSERT, SELECT, UPDATE, DELETE,
  DROP and TRUNCATE texts. The UPDATE text is also built by the
  StringBuilder loop, `BuildUpdateSql`. The module proves placeholder counts,
  the shape of the SET clause, and two worked examples on an `EMPLOYEES` table.
- `Binding` (binding.dfy): binding is the sequence of (1-based index, value)
  pairs handed to `setString`. `Parameters` gives the statement's parameter
  map after those calls.
- `BatchTally` (tally.dfy): the `deletedCount` loop. The count is a Java `int`,
  so additions wrap at 2^31.
- `Selection` (selection.dfy): the count of selected rows, the three-state
  classification, and the header checkbox update.
- `Rows` (rows.dfy): the `RowData` and `TableData` classes. `TableData` has
  the row-by-row load, the select-all action and the ordered filter of
  selected rows.
- `Actions` (actions.dfy): the handlers themselves, with their refusals:
  - blank CREATE input;
  - INSERT before a table is chosen;
  - no columns;
  - primary key undetermined;
  - nothing selected;
  - a dismissed dialog or confirmation;
  - an exception the handler does not catch, which sends nothing and shows no alert.

The primary key is always the first column, and its value is the row's
original first cell. Identifiers are concatenated without quoting. The model
states exactly that raw concatenation. The placeholder-count lemmas assume
identifiers that contain no `?`. That assumption is stated as a hypothesis,
not as a guarantee.

Points where the code does less than a caller might expect, each modelled as written:

- INSERT does not check that the value count equals the column count. The
  placeholder count comes from the values, and the column list is joined
  separately. The two agree because the form makes one field per column.
  `InsertFillsEveryPlaceholder` takes that as a hypothesis.
- CREATE's `replace` turns each `'\n'` into `','` and changes no other
  char; the definitions are otherwise sent as typed.
- The batch total ignores every entry that is not positive. That includes
  `SUCCESS_NO_INFO`, which a driver may answer for every entry, and then the
  handler reports zero deletions (`NoInfoReportsZero`). The total is a Java
  `int`: it is exact while the true sum fits (`TallyExact`) and wraps past
  2^31 - 1 (`TallyWraps`).
- A load appends rows one at a time, so an SQLException raised in the middle
  of it (a failed fetch in `rs.next()`, or a `getString` that cannot read a
  cell) leaves the rows appended before it in the table
  (`Materialise`, `MaterialiseStopped`). Each result row is a map from column
  name to text, and a row that cannot be read stands for any such exception.
  A column missing from the result as a whole fails on the first row, so
  nothing is kept.
- When the catalog query for the update or delete view fails, the load
  handler returns without clearing the rows of an earlier table, and the
  column list is null. Updating such a row then throws before the dialog
  appears; deleting one throws after the confirmation. These exceptions are
  not caught and no alert is shown (`Unhandled` in `UpdateAction` and
  `PrepareDelete`). `UpdateAction` also gives `Unhandled` for a row with
  fewer cells than columns, which is what the dialog's pre-fill does on such
  an input; the handlers never produce one, since every non-empty column
  list is followed by a reload that clears the table first.

## Model

| member | source | states |
|---|---|---|
| `JavaText.Trim` | CrudOperations.java:305-306 | the trimmed text is empty exactly when every char is at most U+0020; otherwise it starts and ends with a char above U+0020 |
| `JavaText.TrimSlice` | CrudOperations.java:305-306 | the trimmed text is the slice of the input that follows its leading chars up to U+0020 and precedes its trailing ones |
| `JavaText.ReplaceChar` | CrudOperations.java:315 | the replaced text has the same length, with each `'\n'` turned into `','` and every other char kept in place |
| `JavaText.ReplaceCharRemoves` | CrudOperations.java:315 | no `'\n'` is left after the replacement |
| `JavaText.JoinEnds` | CrudOperations.java:391-392 | `String.join` of no parts is empty; otherwise the joined text begins with the first part and ends with the last, with no separator at either end |
| `JavaText.JoinCount` | CrudOperations.java:391-392 | when the separator has no `?` and every part has k of them, the joined text has k per part |
| `SqlText.CreateTableSql` | CrudOperations.java:315 | the CREATE text has `CREATE TABLE `, the table name, ` (`, the definitions with each `'\n'` replaced by `','`, and `)` at fixed offsets, and no line break remains between the parentheses |
| `Actions.CreateTable` | CrudOperations.java:305-315 | refused (EmptyInput) exactly when the trimmed name or the trimmed definitions are empty; otherwise the text is `CREATE TABLE `, the trimmed name, ` (`, the trimmed definitions with newlines as commas, and `)`, with no newline inside |
| `SqlText.Placeholders` | CrudOperations.java:391 | the placeholder list is empty exactly for zero values; otherwise it begins and ends with `?` |
| `SqlText.PlaceholdersShape` | CrudOperations.java:391 | the placeholder list for n values has length 2n-1 (0 for none) and alternates `?` and `,`, beginning and ending with `?` |
| `SqlText.PlaceholdersCount` | CrudOperations.java:391 | the placeholder list for n values holds exactly n `?` |
| `SqlText.InsertSqlLayout` | CrudOperations.java:392 | the INSERT text has `INSERT INTO `, the table, ` (`, the columns joined by `,`, `) VALUES (`, the placeholder list and `)` at fixed offsets |
| `SqlText.InsertPlaceholderCount` | CrudOperations.java:391-392 | an INSERT built for n values holds exactly n `?` when the table and column names contain none |
| `SqlText.InsertEmployees` | CrudOperations.java:391-392 | the INSERT for EMPLOYEES(ID, NAME, AGE) with three values is `INSERT INTO EMPLOYEES (ID,NAME,AGE) VALUES (?,?,?)` |
| `Actions.InsertAction` | CrudOperations.java:376-399 | refused (SelectionRequired) exactly when no table or no column list is set; otherwise the INSERT text for the field count, with the trimmed field texts bound in order to parameters 1, 2, ... |
| `Actions.InsertFillsEveryPlaceholder` | CrudOperations.java:365-399 | with one field per column, the INSERT has as many `?` as columns and binds; its parameters are exactly 1..n, and parameter i holds the i-th collected value |
| `Binding.BindInsert` | CrudOperations.java:397-399 | the i-th call sets parameter i+1, and the bound values are the given values in order |
| `Binding.BindUpdate` | CrudOperations.java:622-628 | parameters 1..n+1 are set in order, with the n new values followed by the primary-key value |
| `Binding.InOrderParameters` | CrudOperations.java:397-399 | calls made in index order set exactly parameters 1..n, with parameter i holding the i-th value |
| `SqlText.UpdateSqlLayout` | CrudOperations.java:608-616 | the UPDATE text has `UPDATE `, the table, ` SET `, the SET clause, ` WHERE `, the key column and ` = ?` at fixed offsets |
| `SqlText.BuildUpdateSql` | CrudOperations.java:608-616 | the StringBuilder loop yields `UPDATE t SET c1 = ?, ..., cn = ? WHERE pk = ?`, with a separator only between assignments |
| `SqlText.SetClauseEnds` | CrudOperations.java:610-615 | the SET clause begins with the first column's `c = ?` and ends with the last column's, so no separator trails |
| `SqlText.UpdatePlaceholderCount` | CrudOperations.java:608-616 | an UPDATE over n columns holds n+1 `?` when the identifiers contain none |
| `SqlText.SetClauseThree` | CrudOperations.java:610-615 | the SET clause over three columns is the three `c = ?` assignments separated by `, ` |
| `SqlText.UpdateEmployees` | CrudOperations.java:608-616 | the UPDATE for EMPLOYEES(ID, NAME, AGE) is `UPDATE EMPLOYEES SET ID = ?, NAME = ?, AGE = ? WHERE ID = ?` |
| `Actions.UpdateAction` | CrudOperations.java:562-643 | a missing column list, or a row with fewer cells than columns, ends it with an uncaught exception (Unhandled) before the dialog appears; then a cancelled dialog sends nothing (Dismissed) and an empty column list is refused (PrimaryKeyUndetermined); otherwise the WHERE column is the first column, and the binds are the trimmed edits followed by the row's original first cell |
| `Actions.UpdateFillsEveryPlaceholder` | CrudOperations.java:605-628 | with one edit per column, the UPDATE's `?` count equals its n+1 binds; parameters 1..n hold the edits and parameter n+1 holds the key |
| `SqlText.DeleteSql` | CrudOperations.java:710 | the DELETE text has `DELETE FROM `, the table, ` WHERE `, the key column and ` = ?` at fixed offsets |
| `SqlText.DeletePlaceholderCount` | CrudOperations.java:709-710 | the DELETE template holds a single `?`, for the key |
| `Binding.BindBatch` | CrudOperations.java:714-717 | one batch entry per chosen row, in order, each binding that row's first cell to parameter 1; a row without cells aborts the batch |
| `Actions.PrepareDelete` | CrudOperations.java:685-733 | refused with NoRowsSelected when no row is ticked, then Dismissed without confirmation; after confirmation a missing column list throws uncaught (Unhandled), and every other refusal is PrimaryKeyUndetermined, which happens exactly for an empty column list or a selected row without cells; otherwise the DELETE by the first column and one entry per selected row in table order |
| `BatchTally.Add32` | CrudOperations.java:723 | Java `int` addition agrees with the true sum modulo 2^32 |
| `BatchTally.SumPositive` | CrudOperations.java:720-725 | the exact deleted count is zero exactly when no entry is positive |
| `BatchTally.JavaTally` | CrudOperations.java:720-725 | the Java-int tally agrees with the exact count of deleted rows modulo 2^32 |
| `BatchTally.DeletedCount` | CrudOperations.java:718-725 | the loop's result is the Java-int tally of the positive entries, and equals their exact sum whenever that sum fits in an `int` |
| `BatchTally.TallyExact` | CrudOperations.java:720-725 | while the sum of positive entries is at most 2^31-1, the reported count equals it (and so is non-negative) |
| `BatchTally.SumPositiveAppend` | CrudOperations.java:720-725 | the deleted count of two result arrays put together is the sum of their counts |
| `BatchTally.NonPositiveIgnored` | CrudOperations.java:721-724 | an entry of zero or a negative status code changes neither the exact sum nor the reported count |
| `BatchTally.PositiveAdded` | CrudOperations.java:722-723 | a positive entry adds its whole count |
| `BatchTally.NoInfoReportsZero` | CrudOperations.java:718-726 | a batch answered with SUCCESS_NO_INFO throughout is reported as zero rows deleted |
| `BatchTally.OneOfTwoDeleted` | CrudOperations.java:720-726 | the result array [1, 0] (one of two keys found) is reported as one row |
| `BatchTally.TallyWraps` | CrudOperations.java:720-725 | positive entries 2^31-1 and 1 make the Java `int` count wrap to -2^31 |
| `Rows.RowData.constructor` | CrudOperations.java:45-54 | a new row is unselected and holds exactly the given cells |
| `Rows.RowData.SetSelected` | CrudOperations.java:67-69 | the flag takes the value and the cells are unchanged |
| `Rows.ReadRow` | CrudOperations.java:487-491 | a row is read exactly when every column is present; then it has one cell per column, in column order, each the column's value |
| `Rows.Materialise` | CrudOperations.java:484-500 | a load keeps at most one row per result row, and one per result row when it reads them all; only a non-empty result can stop it |
| `Rows.MaterialiseShape` | CrudOperations.java:484-493 | loaded row i holds result row i's values in column order; a stopped load ends just before the first row that cannot be read |
| `Rows.MaterialiseComplete` | CrudOperations.java:484-493 | when every result row has every column, the load keeps one row per result row |
| `Rows.MaterialiseStopped` | CrudOperations.java:484-500 | once a result row has stopped the load, later result rows change nothing |
| `Rows.TableData.Load` | CrudOperations.java:467-500 | the table is cleared, then holds fresh, distinct, unselected rows whose cells are the load's rows; a failed query leaves it empty |
| `Rows.TableData.SetAllSelected` | CrudOperations.java:761-765 | every row's flag equals the header's value, and every row's cells are unchanged |
| `Rows.TableData.CollectSelected` | CrudOperations.java:686-692 | the collected rows are the selected rows in table order |
| `Rows.SelectedOf` | CrudOperations.java:686-692 | the collected rows are no more than the table's rows, and each is a selected row of the table |
| `Rows.SelectedOfAppend` | CrudOperations.java:686-692 | filtering a table split in two gives the first part's selected rows, then the second's |
| `Rows.SelectedOfMembers` | CrudOperations.java:686-692 | every collected row is a selected row of the table, and every selected row is collected |
| `Rows.SelectedOfCount` | CrudOperations.java:686-692 | the number of collected rows is the number of set flags |
| `Rows.NothingSelectedIffNoneSummary` | CrudOperations.java:694-697 | the delete handler finds nothing to delete exactly when the header summary is "none selected" |
| `Selection.CountSelectedAll` | CrudOperations.java:821-823 | the selected count equals the row count exactly when every flag is set |
| `Selection.CountSelectedNone` | CrudOperations.java:821-827 | the selected count is zero exactly when no flag is set |
| `Selection.Classify` | CrudOperations.java:813-834 | "all" exactly when the table is non-empty and every flag is set; "none" exactly when no flag is set, the empty table included; otherwise "indeterminate" exactly when some flags are set and some are not |
| `Selection.RefreshSelectAll` | CrudOperations.java:813-834 | the header is indeterminate exactly on a mixed selection, and then keeps its checked mark; otherwise it is checked exactly when the table is non-empty and fully selected |
| `Selection.SelectAllSummary` | CrudOperations.java:761-765 | after select-all with value v on n rows, the summary is "all" if n > 0 and v, otherwise "none" |
| `Selection.DeselectOneOfAll` | CrudOperations.java:823-834 | clearing one flag of a fully selected table of two or more rows makes the summary indeterminate |
| `Selection.SelectOneOfNone` | CrudOperations.java:823-834 | setting one flag of an unselected table of two or more rows makes the summary indeterminate |
| `SqlText.SelectAllSql` | CrudOperations.java:481 | the text is `SELECT * FROM ` followed by the table name |
| `Actions.SelectAction` | CrudOperations.java:443-454 | with no columns it is refused (NoColumns) and the table is untouched; otherwise it issues `SELECT * FROM t` and reloads the table from the result |
| `SqlText.DropSql` | CrudOperations.java:867 | the text is `DROP TABLE `, the table name, then ` CASCADE CONSTRAINTS` |
| `SqlText.TruncateSql` | CrudOperations.java:913 | the text is `TRUNCATE TABLE ` followed by the table name |
| `Actions.DropAction` | CrudOperations.java:853-869 | a DROP is issued exactly when a table is chosen and the confirmation is accepted |
| `Actions.TruncateAction` | CrudOperations.java:900-915 | a TRUNCATE is issued exactly when a table is chosen and the confirmation is accepted |

## Left out

- Connection set-up and shutdown (`connectDB`, `stop`): driver loading and network I/O.
- The catalog queries (`loadTablesInto`, `getColumnsForTable`): these are foreign calls. The column list is an input, `None` when the query failed. The locale-sensitive `toUpperCase` on the table name is not modelled.
- Statement execution (`execute`, `executeUpdate`, `executeQuery`, `executeBatch`) and SQLException paths after a statement is sent. Their results are inputs. The alerts chosen from the affected-row count are presentation.
- What DDL and DML do inside the database, including constraint checks and what DROP and TRUNCATE remove. None of this is visible in the code.
- SQL NULL: `ResultSet.getString` may return null. Cells are modelled as strings.
- JavaFX presentation: layouts, tree colours, alerts, button enabling, and the one text field per column. The last appears as a hypothesis of the placeholder lemmas.
- The update dialog's pre-filled field texts. Only the failure of the pre-fill is modelled; the edited texts are an input.
- The listeners that re-run the header update after each toggle. The update is modelled as a function of the flags; event delivery is not modelled.
- The reload after a successful update, delete or truncate. The truncate reload uses a case-insensitive table-name comparison. A caller reloads by calling `TableData.Load` again.
- Identifier quoting: the source has none, and the model claims no identifier safety.
- SqlText.InsertPlaceholderCount: holds only for table and column names without `?`, because identifiers are concatenated raw.
- SqlText.UpdatePlaceholderCount: holds only for identifiers without `?`, for the same reason.
- Actions.InsertFillsEveryPlaceholder: assumes one field per column and identifiers without `?`.
- Actions.UpdateFillsEveryPlaceholder: assumes one edit per column and identifiers without `?`.
