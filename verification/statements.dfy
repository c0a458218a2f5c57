/**
 * The SQL text the operations send to the database. Table and column
 * identifiers are concatenated verbatim (no quoting or escaping); bind
 * values never appear in the text, only `?` placeholders do.
 */
module SqlText {
  import opened JavaText

  /**
   * CREATE TABLE with the operator's definitions, each line break turned into
   * a comma: the keyword, the table name, ` (`, the definitions and `)` sit at
   * fixed offsets, and no line break is left between the parentheses.
   */
  function CreateTableSql(table: string, definitions: string): (r: string)
    ensures |r| == |table| + |definitions| + 16
    ensures r[..13] == "CREATE TABLE " && r[13..13 + |table|] == table
    ensures r[13 + |table|..15 + |table|] == " (" && r[|r| - 1] == ')'
    ensures r[15 + |table|..|r| - 1] == ReplaceChar(definitions, '\n', ',')
    ensures '\n' !in r[15 + |table|..|r| - 1]
  {
    var head := "CREATE TABLE " + table + " (";
    var list := ReplaceChar(definitions, '\n', ',');
    ReplaceCharRemoves(definitions, '\n', ',');
    assert (head + list + ")")[|head|..|head| + |list|] == list;
    head + list + ")"
  }

  /** `n` placeholders separated by commas: String.join(",", Collections.nCopies(n, "?")). */
  function Placeholders(n: nat): (r: string)
    ensures r == [] <==> n == 0
    ensures n > 0 ==> r[0] == '?' && r[|r| - 1] == '?'
  {
    var marks := seq(n, _ => "?");
    JoinEnds(",", marks);
    var r := Join(",", marks);
    assert n > 0 ==> r[|r| - 1..][0] == '?';
    r
  }

  /** The INSERT statement for `n` collected values. */
  function InsertSql(table: string, columns: seq<string>, n: nat): string
  {
    "INSERT INTO " + table + " (" + Join(",", columns) + ") VALUES (" + Placeholders(n) + ")"
  }

  /** The table, the comma-joined column list and the placeholder list each sit at their place in an INSERT. */
  lemma InsertSqlLayout(table: string, columns: seq<string>, n: nat)
    ensures var r := InsertSql(table, columns, n); var cols := Join(",", columns); var marks := Placeholders(n);
      && |r| == |table| + |cols| + |marks| + 25
      && r[..12] == "INSERT INTO " && r[12..12 + |table|] == table
      && r[12 + |table|..14 + |table|] == " ("
      && r[14 + |table|..14 + |table| + |cols|] == cols
      && r[14 + |table| + |cols|..24 + |table| + |cols|] == ") VALUES ("
      && r[24 + |table| + |cols|..|r| - 1] == marks && r[|r| - 1] == ')'
  {
    var head := "INSERT INTO " + table + " (";
    var cols := Join(",", columns);
    var tail := ") VALUES (" + Placeholders(n) + ")";
    assert InsertSql(table, columns, n) == head + cols + tail;
    assert (head + cols + tail)[|head|..|head| + |cols|] == cols;
  }

  function SelectAllSql(table: string): (r: string)
    ensures |r| == |table| + 14 && r[..14] == "SELECT * FROM " && r[14..] == table
  {
    "SELECT * FROM " + table
  }

  /** One `col = ?` assignment of the SET clause. */
  function Assignment(column: string): string
  {
    column + " = ?"
  }

  function SetClause(columns: seq<string>): string
  {
    Join(", ", seq(|columns|, i requires 0 <= i < |columns| => Assignment(columns[i])))
  }

  /** The UPDATE statement: every column assigned, the row chosen by `pkColumn`. */
  function UpdateSql(table: string, columns: seq<string>, pkColumn: string): string
  {
    "UPDATE " + table + " SET " + SetClause(columns) + " WHERE " + pkColumn + " = ?"
  }

  /** The table, the SET clause and the key column each sit at their place in an UPDATE. */
  lemma UpdateSqlLayout(table: string, columns: seq<string>, pkColumn: string)
    ensures var r := UpdateSql(table, columns, pkColumn); var set_ := SetClause(columns);
      && |r| == |table| + |set_| + |pkColumn| + 23
      && r[..7] == "UPDATE " && r[7..7 + |table|] == table
      && r[7 + |table|..12 + |table|] == " SET "
      && r[12 + |table|..12 + |table| + |set_|] == set_
      && r[12 + |table| + |set_|..19 + |table| + |set_|] == " WHERE "
      && r[19 + |table| + |set_|..|r| - 4] == pkColumn && r[|r| - 4..] == " = ?"
  {
    var head := "UPDATE " + table + " SET ";
    var set_ := SetClause(columns);
    var tail := " WHERE " + pkColumn + " = ?";
    assert UpdateSql(table, columns, pkColumn) == head + set_ + tail;
    assert (head + set_ + tail)[|head|..|head| + |set_|] == set_;
  }

  /** The UPDATE text as the StringBuilder loop assembles it, separator after all but the last column. */
  method BuildUpdateSql(table: string, columns: seq<string>, pkColumn: string) returns (sql: string)
    ensures sql == UpdateSql(table, columns, pkColumn)
  {
    var assignments := seq(|columns|, i requires 0 <= i < |columns| => Assignment(columns[i]));
    var head := "UPDATE " + table + " SET ";
    var sb := head;
    var i := 0;
    while i < |columns|
      invariant 0 <= i <= |columns|
      invariant i == 0 ==> sb == head
      invariant 0 < i < |columns| ==> sb == head + Join(", ", assignments[..i]) + ", "
      invariant 0 < i == |columns| ==> sb == head + Join(", ", assignments[..i])
    {
      assert i > 0 ==> assignments[..i + 1][..i] == assignments[..i];
      sb := sb + columns[i] + " = ?";
      if i < |columns| - 1 {
        sb := sb + ", ";
      }
      i := i + 1;
    }
    assert assignments[..|columns|] == assignments;
    sql := sb + " WHERE " + pkColumn + " = ?";
  }

  /** The batch DELETE template; the primary-key value is bound per batch entry. */
  function DeleteSql(table: string, pkColumn: string): (r: string)
    ensures |r| == |table| + |pkColumn| + 23
    ensures r[..12] == "DELETE FROM " && r[12..12 + |table|] == table
    ensures r[12 + |table|..19 + |table|] == " WHERE "
    ensures r[19 + |table|..|r| - 4] == pkColumn && r[|r| - 4..] == " = ?"
  {
    "DELETE FROM " + table + " WHERE " + pkColumn + " = ?"
  }

  function DropSql(table: string): (r: string)
    ensures |r| == |table| + 31
    ensures r[..11] == "DROP TABLE " && r[11..11 + |table|] == table && r[11 + |table|..] == " CASCADE CONSTRAINTS"
  {
    "DROP TABLE " + table + " CASCADE CONSTRAINTS"
  }

  function TruncateSql(table: string): (r: string)
    ensures |r| == |table| + 15 && r[..15] == "TRUNCATE TABLE " && r[15..] == table
  {
    "TRUNCATE TABLE " + table
  }

  /** Identifiers with no `?` of their own, so that every `?` in a statement is a placeholder. */
  predicate NoMarks(ids: seq<string>)
  {
    forall i :: 0 <= i < |ids| ==> '?' !in ids[i]
  }

  /** The placeholder list alternates `?` and `,`, starting and ending with `?`. */
  lemma {:induction false} PlaceholdersShape(n: nat)
    ensures |Placeholders(n)| == if n == 0 then 0 else 2 * n - 1
    ensures forall k :: 0 <= k < |Placeholders(n)| ==> Placeholders(n)[k] == if k % 2 == 0 then '?' else ','
  {
    if n > 1 {
      PlaceholdersShape(n - 1);
      assert seq(n, _ => "?")[..n - 1] == seq(n - 1, _ => "?");
      assert Placeholders(n) == Placeholders(n - 1) + "," + "?";
    } else if n == 1 {
      assert Placeholders(1) == "?";
    }
  }

  lemma PlaceholdersCount(n: nat)
    ensures CountChar('?', Placeholders(n)) == n
  {
    var marks := seq(n, _ => "?");
    forall i | 0 <= i < n ensures CountChar('?', marks[i]) == 1 {
      assert marks[i] == [] + ['?'];
    }
    JoinCount('?', ",", marks, 1);
  }

  lemma JoinedIdentifiersCount(sep: string, ids: seq<string>)
    requires '?' !in sep && NoMarks(ids)
    ensures CountChar('?', Join(sep, ids)) == 0
  {
    forall i | 0 <= i < |ids| ensures CountChar('?', ids[i]) == 0 {
      CountCharAbsent('?', ids[i]);
    }
    JoinCount('?', sep, ids, 0);
  }

  /** An INSERT for `n` values carries exactly `n` placeholders. */
  lemma InsertPlaceholderCount(table: string, columns: seq<string>, n: nat)
    requires NoMarks([table] + columns)
    ensures CountChar('?', InsertSql(table, columns, n)) == n
  {
    assert '?' !in table by { assert ([table] + columns)[0] == table; }
    assert NoMarks(columns) by {
      forall i | 0 <= i < |columns| ensures '?' !in columns[i] {
        assert ([table] + columns)[i + 1] == columns[i];
      }
    }
    JoinedIdentifiersCount(",", columns);
    PlaceholdersCount(n);
    CountCharAbsent('?', table);
    CountCharAbsent('?', "INSERT INTO ");
    CountCharAbsent('?', " (");
    CountCharAbsent('?', ") VALUES (");
    CountCharAbsent('?', ")");
    var s1 := "INSERT INTO " + table;
    CountCharAppend('?', "INSERT INTO ", table);
    CountCharAppend('?', s1, " (");
    CountCharAppend('?', s1 + " (", Join(",", columns));
    CountCharAppend('?', s1 + " (" + Join(",", columns), ") VALUES (");
    CountCharAppend('?', s1 + " (" + Join(",", columns) + ") VALUES (", Placeholders(n));
    CountCharAppend('?', s1 + " (" + Join(",", columns) + ") VALUES (" + Placeholders(n), ")");
  }

  lemma AssignmentCount(column: string)
    requires '?' !in column
    ensures CountChar('?', Assignment(column)) == 1
  {
    CountCharAbsent('?', column);
    CountCharAppend('?', column, " = ");
    CountCharAbsent('?', " = ");
    assert Assignment(column) == column + " = " + "?";
    CountCharAppend('?', column + " = ", "?");
    assert "?" == [] + ['?'];
  }

  /** An UPDATE carries one placeholder per column plus the one of its WHERE clause. */
  lemma UpdatePlaceholderCount(table: string, columns: seq<string>, pkColumn: string)
    requires NoMarks([table, pkColumn] + columns)
    ensures CountChar('?', UpdateSql(table, columns, pkColumn)) == |columns| + 1
  {
    var ids := [table, pkColumn] + columns;
    assert '?' !in table && '?' !in pkColumn by { assert ids[0] == table && ids[1] == pkColumn; }
    var assignments := seq(|columns|, i requires 0 <= i < |columns| => Assignment(columns[i]));
    forall i | 0 <= i < |columns| ensures CountChar('?', assignments[i]) == 1 {
      assert ids[i + 2] == columns[i];
      AssignmentCount(columns[i]);
    }
    JoinCount('?', ", ", assignments, 1);
    CountCharAbsent('?', table);
    CountCharAbsent('?', pkColumn);
    CountCharAbsent('?', "UPDATE ");
    CountCharAbsent('?', " SET ");
    CountCharAbsent('?', " WHERE ");
    AssignmentCount(pkColumn);
    var s1 := "UPDATE " + table;
    CountCharAppend('?', "UPDATE ", table);
    CountCharAppend('?', s1, " SET ");
    CountCharAppend('?', s1 + " SET ", SetClause(columns));
    CountCharAppend('?', s1 + " SET " + SetClause(columns), " WHERE ");
    CountCharAppend('?', s1 + " SET " + SetClause(columns) + " WHERE ", pkColumn + " = ?");
    assert UpdateSql(table, columns, pkColumn) == s1 + " SET " + SetClause(columns) + " WHERE " + (pkColumn + " = ?");
  }

  /**
   * The SET clause starts with the first column's assignment and ends with the
   * last column's: there is no separator at either end.
   */
  lemma {:induction false} SetClauseEnds(columns: seq<string>)
    requires |columns| > 0
    ensures var s := SetClause(columns);
      |s| >= |Assignment(columns[0])| && s[..|Assignment(columns[0])|] == Assignment(columns[0])
    ensures var s := SetClause(columns); var last := Assignment(columns[|columns| - 1]);
      |s| >= |last| && s[|s| - |last|..] == last
  {
    var n := |columns|;
    var assignments := seq(n, i requires 0 <= i < n => Assignment(columns[i]));
    if n > 1 {
      var init := columns[..n - 1];
      SetClauseEnds(init);
      assert seq(n - 1, i requires 0 <= i < n - 1 => Assignment(init[i])) == assignments[..n - 1];
      assert SetClause(columns) == SetClause(init) + ", " + Assignment(columns[n - 1]);
    }
  }

  /** A DELETE template carries a single placeholder, the primary-key value. */
  lemma DeletePlaceholderCount(table: string, pkColumn: string)
    requires NoMarks([table, pkColumn])
    ensures CountChar('?', DeleteSql(table, pkColumn)) == 1
  {
    assert '?' !in table && '?' !in pkColumn by { assert [table, pkColumn][0] == table && [table, pkColumn][1] == pkColumn; }
    CountCharAbsent('?', table);
    CountCharAbsent('?', "DELETE FROM ");
    CountCharAbsent('?', " WHERE ");
    AssignmentCount(pkColumn);
    var s1 := "DELETE FROM " + table;
    CountCharAppend('?', "DELETE FROM ", table);
    CountCharAppend('?', s1, " WHERE ");
    CountCharAppend('?', s1 + " WHERE ", pkColumn + " = ?");
    assert DeleteSql(table, pkColumn) == s1 + " WHERE " + (pkColumn + " = ?");
  }

  lemma InsertEmployees()
    ensures InsertSql("EMPLOYEES", ["ID", "NAME", "AGE"], 3)
         == "INSERT INTO EMPLOYEES (ID,NAME,AGE) VALUES (?,?,?)"
  {
    JoinThree(",", "ID", "NAME", "AGE");
    assert seq(3, _ => "?") == ["?", "?", "?"];
    JoinThree(",", "?", "?", "?");
  }

  lemma SetClauseThree(a: string, b: string, c: string)
    ensures SetClause([a, b, c]) == Assignment(a) + ", " + Assignment(b) + ", " + Assignment(c)
  {
    var cols := [a, b, c];
    assert seq(3, i requires 0 <= i < 3 => Assignment(cols[i])) == [Assignment(a), Assignment(b), Assignment(c)];
    JoinThree(", ", Assignment(a), Assignment(b), Assignment(c));
  }

  lemma SetClauseEmployees()
    ensures SetClause(["ID", "NAME", "AGE"]) == "ID = ?, NAME = ?, AGE = ?"
  {
    SetClauseThree("ID", "NAME", "AGE");
    assert Assignment("ID") == "ID = ?";
    assert Assignment("NAME") == "NAME = ?";
    assert Assignment("AGE") == "AGE = ?";
  }

  lemma UpdateEmployeesAround(columns: seq<string>)
    ensures UpdateSql("EMPLOYEES", columns, "ID") == "UPDATE EMPLOYEES SET " + SetClause(columns) + " WHERE ID = ?"
  {
    assert "UPDATE " + "EMPLOYEES" + " SET " == "UPDATE EMPLOYEES SET ";
    assert " WHERE " + "ID" + " = ?" == " WHERE ID = ?";
  }

  lemma UpdateEmployees()
    ensures UpdateSql("EMPLOYEES", ["ID", "NAME", "AGE"], "ID")
         == "UPDATE EMPLOYEES SET ID = ?, NAME = ?, AGE = ? WHERE ID = ?"
  {
    UpdateEmployeesAround(["ID", "NAME", "AGE"]);
    SetClauseEmployees();
    assert "UPDATE EMPLOYEES SET " + "ID = ?, NAME = ?, AGE = ?" == "UPDATE EMPLOYEES SET ID = ?, NAME = ?, AGE = ?";
  }
}
