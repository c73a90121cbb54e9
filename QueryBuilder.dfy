/**
 * The SQL text builders of `DB_Statement`: `useDB`, `createTable`,
 * `insertIntoTable`, `selectColumnsFromTableWhere` and its three delegating
 * wrappers. Each builder starts from a fixed prefix, appends every list
 * element followed by a separator, cuts the trailing separator off and
 * appends the rest of the statement. Executing the statement is not part of
 * this model: every builder returns the text it would hand to the database.
 *
 * The cut is done on the whole accumulated text, so with an EMPTY list it
 * removes the last characters of the fixed prefix instead of a separator
 * (`CREATE TABLE t )`, `SELECFROM t`). The model reproduces this exactly.
 * Values are single-quoted but never escaped.
 */
module QueryBuilder {
  import opened Nullable
  import opened Strings

  /**
   * A list clause as the builders leave it: `stem`, the `opener` and the
   * items joined by `sep`. For an empty list the cut that should remove the
   * trailing separator removes the opener instead, leaving only `stem`.
   */
  function ListAfter(stem: string, opener: string, items: seq<string>, sep: string): string
  {
    if |items| == 0 then stem else stem + opener + Join(items, sep)
  }

  /**
   * The builders' idiom: starting from `stem + opener`, append `item + sep`
   * for every item, then keep all but the last `|sep|` characters. When the
   * opener is as long as the separator, the result is `ListAfter`.
   */
  lemma TrimmedIsListAfter(prefix: string, stem: string, opener: string, items: seq<string>, sep: string)
    requires prefix == stem + opener && |opener| == |sep|
    ensures |prefix + Terminated(items, sep)| >= |sep|
    ensures (prefix + Terminated(items, sep))[..|prefix + Terminated(items, sep)| - |sep|]
            == ListAfter(stem, opener, items, sep)
  {
    var t := prefix + Terminated(items, sep);
    if |items| == 0 {
      assert t == stem + opener;
      assert t[..|t| - |sep|] == stem;
    } else {
      TerminatedIsJoinPlusSep(items, sep);
      assert t == stem + opener + Join(items, sep) + sep;
      assert t[..|t| - |sep|] == stem + opener + Join(items, sep);
    }
  }

  /** `a + " ("` is `a + " "` followed by the opener `(`. */
  lemma OpenParenthesis(a: string)
    ensures a + " (" == (a + " ") + "("
  {
  }

  /** `q + ") values ("` is `q + ") values "` followed by the opener `(`. */
  lemma ValuesOpener(q: string)
    ensures q + ") values (" == (q + ") values ") + "("
  {
  }

  /** Round trip through a one-character separator: the items can be read back from the text after the opener. */
  lemma ListAfterRecoverable(stem: string, opener: string, items: seq<string>, c: char)
    requires |items| > 0 && NoneContains(items, c)
    ensures var l := ListAfter(stem, opener, items, [c]);
            |stem + opener| <= |l| && l[..|stem + opener|] == stem + opener
            && Split(l[|stem + opener|..], c) == items
  {
    var l := ListAfter(stem, opener, items, [c]);
    assert l == (stem + opener) + Join(items, [c]);
    assert l[|stem + opener|..] == Join(items, [c]);
    SplitJoin(items, c);
  }

  // ---------------------------------------------------------------- useDB

  /** The statement `useDB` executes: the database name after `USE `. */
  function UseDb(dbName: string): (query: string)
    ensures |query| == |dbName| + 4
    ensures query[..4] == "USE " && query[4..] == dbName
  {
    "USE " + dbName
  }

  // ---------------------------------------------------------------- createTable

  /** The CREATE TABLE text up to (not including) the `(` that opens the column list. */
  function CreateTableStem(tableName: string): string
  {
    "CREATE TABLE " + tableName + " "
  }

  /** The statement `createTable` executes. */
  function CreateTableQuery(tableName: string, columns: seq<string>): string
  {
    ListAfter(CreateTableStem(tableName), "(", columns, ",") + ")"
  }

  /** Builds the CREATE TABLE text the way `createTable` does, one column at a time. */
  method CreateTable(tableName: string, columns: seq<string>) returns (query: string)
    ensures query == CreateTableQuery(tableName, columns)
  {
    query := "CREATE TABLE " + tableName + " (";
    ghost var start := query;
    ghost var added := "";
    for i := 0 to |columns|
      invariant added == Terminated(columns[..i], ",")
      invariant query == start + added
    {
      query := query + columns[i];
      query := query + ",";
      AppendAssoc(start + added, columns[i], ",");
      AppendAssoc(start, added, columns[i] + ",");
      TerminatedStep(columns, i, ",");
      added := added + (columns[i] + ",");
    }
    assert columns[..|columns|] == columns;
    OpenParenthesis("CREATE TABLE " + tableName);
    TrimmedIsListAfter(start, CreateTableStem(tableName), "(", columns, ",");
    query := query[..|query| - 1];
    query := query + ")";
  }

  /**
   * With columns, the text is the column definitions joined by commas inside
   * parentheses; with none, the cut eats the opening parenthesis.
   */
  lemma CreateTableShape(tableName: string, columns: seq<string>)
    ensures |columns| > 0 ==>
      CreateTableQuery(tableName, columns) == "CREATE TABLE " + tableName + " (" + Join(columns, ",") + ")"
    ensures |columns| == 0 ==>
      CreateTableQuery(tableName, columns) == "CREATE TABLE " + tableName + " )"
  {
    var a := "CREATE TABLE " + tableName;
    OpenParenthesis(a);
    if |columns| > 0 {
      var j := Join(columns, ",");
      assert CreateTableQuery(tableName, columns) == ((a + " ") + "(") + j + ")";
    } else {
      AppendAssoc(a, " ", ")");
      assert " " + ")" == " )";
    }
  }

  /** When no column definition contains a comma, the definitions can be read back from the text. */
  lemma CreateTableColumnsRecoverable(tableName: string, columns: seq<string>)
    requires |columns| > 0 && NoneContains(columns, ',')
    ensures var q := CreateTableQuery(tableName, columns);
            var n := |CreateTableStem(tableName)| + 1;
            n < |q| && q[..n] == "CREATE TABLE " + tableName + " (" && q[|q| - 1] == ')'
            && Split(q[n..|q| - 1], ',') == columns
  {
    var stem := CreateTableStem(tableName);
    ListAfterRecoverable(stem, "(", columns, ',');
    var l := ListAfter(stem, "(", columns, ",");
    var q := l + ")";
    var n := |stem + "("|;
    assert q[..n] == l[..n];
    assert q[n..|q| - 1] == l[n..];
  }

  // ---------------------------------------------------------------- insertIntoTable

  /** A value as `insertIntoTable` writes it: in single quotes, not escaped. */
  function Quote(value: string): string
  {
    "'" + value + "'"
  }

  /** Every value of a tuple quoted, in order. */
  function QuoteAll(values: seq<string>): (literals: seq<string>)
    ensures |literals| == |values|
  {
    if |values| == 0 then [] else QuoteAll(values[..|values| - 1]) + [Quote(values[|values| - 1])]
  }

  /** The `k`-th literal is the `k`-th value in quotes: quoting keeps the order and the values. */
  lemma {:induction false} QuoteAllAt(values: seq<string>, k: nat)
    requires k < |values|
    ensures QuoteAll(values)[k] == "'" + values[k] + "'"
    decreases |values|
  {
    if k < |values| - 1 {
      QuoteAllAt(values[..|values| - 1], k);
    }
  }

  lemma QuoteAllSnoc(values: seq<string>, i: nat)
    requires i < |values|
    ensures QuoteAll(values[..i + 1]) == QuoteAll(values[..i]) + [Quote(values[i])]
  {
    assert values[..i + 1][..i] == values[..i];
  }

  /** The INSERT text up to (not including) the `(` that opens the column list. */
  function InsertStem(tableName: string): string
  {
    "INSERT INTO " + tableName + " "
  }

  /** The statement `insertIntoTable` executes. */
  function InsertQuery(tableName: string, colNames: seq<string>, tuple: seq<string>): string
  {
    ListAfter(ListAfter(InsertStem(tableName), "(", colNames, ",") + ") values ", "(", QuoteAll(tuple), ",") + ")"
  }

  /** Builds the INSERT text the way `insertIntoTable` does: the column loop, a cut, the value loop, a cut. */
  method InsertIntoTable(tableName: string, colNames: seq<string>, tuple: seq<string>) returns (query: string)
    ensures query == InsertQuery(tableName, colNames, tuple)
  {
    query := "INSERT INTO " + tableName + " (";
    ghost var start := query;
    ghost var added := "";
    for i := 0 to |colNames|
      invariant added == Terminated(colNames[..i], ",")
      invariant query == start + added
    {
      query := query + (colNames[i] + ",");
      AppendAssoc(start, added, colNames[i] + ",");
      TerminatedStep(colNames, i, ",");
      added := added + (colNames[i] + ",");
    }
    assert colNames[..|colNames|] == colNames;
    OpenParenthesis("INSERT INTO " + tableName);
    TrimmedIsListAfter(start, InsertStem(tableName), "(", colNames, ",");
    query := query[..|query| - 1];
    ghost var columnList := ListAfter(InsertStem(tableName), "(", colNames, ",");
    assert query == columnList;
    ghost var head := query + ") values ";
    ValuesOpener(query);
    query := query + ") values (";
    ghost var middle := query;
    added := "";
    for i := 0 to |tuple|
      invariant added == Terminated(QuoteAll(tuple[..i]), ",")
      invariant query == middle + added
    {
      query := query + (Quote(tuple[i]) + ",");
      AppendAssoc(middle, added, Quote(tuple[i]) + ",");
      QuoteAllSnoc(tuple, i);
      TerminatedSnoc(QuoteAll(tuple[..i]), Quote(tuple[i]), ",");
      added := added + (Quote(tuple[i]) + ",");
    }
    assert tuple[..|tuple|] == tuple;
    TrimmedIsListAfter(middle, head, "(", QuoteAll(tuple), ",");
    query := query[..|query| - 1];
    assert query == ListAfter(head, "(", QuoteAll(tuple), ",");
    query := query + ")";
    assert InsertQuery(tableName, colNames, tuple) == ListAfter(columnList + ") values ", "(", QuoteAll(tuple), ",") + ")";
  }

  /**
   * With columns and values, the text lists the column names joined by commas
   * and then the quoted values joined by commas; column names and values can
   * be read back when none of them contains a comma.
   */
  lemma InsertShape(tableName: string, colNames: seq<string>, tuple: seq<string>)
    requires |colNames| > 0 && |tuple| > 0
    ensures InsertQuery(tableName, colNames, tuple)
            == "INSERT INTO " + tableName + " (" + Join(colNames, ",") + ") values (" + Join(QuoteAll(tuple), ",") + ")"
    ensures NoneContains(colNames, ',') ==> Split(Join(colNames, ","), ',') == colNames
    ensures NoneContains(tuple, ',') ==> Split(Join(QuoteAll(tuple), ","), ',') == QuoteAll(tuple)
  {
    assert ") values " + "(" == ") values (";
    if NoneContains(colNames, ',') {
      SplitJoin(colNames, ',');
    }
    if NoneContains(tuple, ',') {
      var qs := QuoteAll(tuple);
      forall k | 0 <= k < |qs| ensures ',' !in qs[k] {
        QuoteAllAt(tuple, k);
        assert qs[k] == "'" + tuple[k] + "'";
      }
      SplitJoin(qs, ',');
    }
  }

  /** Without columns or without values, the cuts eat the opening parentheses. */
  lemma InsertWithEmptyLists(tableName: string, colNames: seq<string>, tuple: seq<string>)
    ensures |colNames| == 0 && |tuple| > 0 ==>
      InsertQuery(tableName, colNames, tuple)
      == "INSERT INTO " + tableName + " ) values (" + Join(QuoteAll(tuple), ",") + ")"
    ensures |colNames| > 0 && |tuple| == 0 ==>
      InsertQuery(tableName, colNames, tuple)
      == "INSERT INTO " + tableName + " (" + Join(colNames, ",") + ") values )"
    ensures |colNames| == 0 && |tuple| == 0 ==>
      InsertQuery(tableName, colNames, tuple) == "INSERT INTO " + tableName + " ) values )"
  {
    var stem := InsertStem(tableName);
    if |colNames| == 0 {
      assert ListAfter(stem, "(", colNames, ",") + ") values " == "INSERT INTO " + tableName + " ) values ";
    }
    assert ") values " + "(" == ") values (";
    assert ") values " + ")" == ") values )";
  }

  /**
   * Values are not escaped: a value holding `','` produces the same statement
   * as two separate values, so different tuples can yield identical SQL.
   */
  lemma InsertValuesNotEscaped(tableName: string, colNames: seq<string>)
    ensures ["a','b"] != ["a", "b"]
    ensures InsertQuery(tableName, colNames, ["a','b"]) == InsertQuery(tableName, colNames, ["a", "b"])
  {
    var one := QuoteAll(["a','b"]);
    var two := QuoteAll(["a", "b"]);
    QuoteAllAt(["a','b"], 0);
    QuoteAllAt(["a", "b"], 0);
    QuoteAllAt(["a", "b"], 1);
    assert Join(one, ",") == "'a','b'";
    assert Join(two, ",") == Join(two[..1], ",") + "," + two[1];
    assert Join(two, ",") == "'a','b'";
  }

  // ---------------------------------------------------------------- selectColumnsFromTableWhere

  /** What follows the table name: `WHERE ` and the condition, or nothing for a null condition. */
  function WhereClause(condition: Option<string>): string
  {
    match condition
    case None => ""
    case Some(c) => "WHERE " + c
  }

  /**
   * The statement `selectColumnsFromTableWhere` executes. The list opens after
   * `SELECT `, and its two-character separator `, ` means that with no columns
   * the cut eats `T ` (stem `SELEC`). No space precedes `FROM` or `WHERE`.
   */
  function SelectQuery(columns: seq<string>, tableName: string, condition: Option<string>): string
  {
    ListAfter("SELEC", "T ", columns, ", ") + "FROM " + tableName + WhereClause(condition)
  }

  /** Builds the SELECT text the way `selectColumnsFromTableWhere` does. */
  method SelectColumnsFromTableWhere(columns: seq<string>, tableName: string, condition: Option<string>)
    returns (query: string)
    ensures query == SelectQuery(columns, tableName, condition)
  {
    query := "SELECT ";
    ghost var added := "";
    for i := 0 to |columns|
      invariant added == Terminated(columns[..i], ", ")
      invariant query == "SELECT " + added
    {
      query := query + (columns[i] + ", ");
      AppendAssoc("SELECT ", added, columns[i] + ", ");
      TerminatedStep(columns, i, ", ");
      added := added + (columns[i] + ", ");
    }
    assert columns[..|columns|] == columns;
    assert "SELECT " == "SELEC" + "T ";
    TrimmedIsListAfter("SELECT ", "SELEC", "T ", columns, ", ");
    query := query[..|query| - 2];
    query := query + ("FROM " + tableName);
    if condition.Some? {
      query := query + ("WHERE " + condition.value);
    }
  }

  /**
   * The exact SELECT text: columns joined by `, `, glued to `FROM`, and
   * `WHERE ` plus the condition glued on exactly when a condition is given.
   */
  lemma SelectShape(columns: seq<string>, tableName: string, condition: Option<string>)
    requires |columns| > 0
    ensures condition.None? ==>
      SelectQuery(columns, tableName, condition) == "SELECT " + Join(columns, ", ") + "FROM " + tableName
    ensures condition.Some? ==>
      SelectQuery(columns, tableName, condition)
      == "SELECT " + Join(columns, ", ") + "FROM " + tableName + "WHERE " + condition.value
  {
    var j := Join(columns, ", ");
    assert "SELEC" + "T " == "SELECT ";
    var base := "SELECT " + j + "FROM " + tableName;
    assert ListAfter("SELEC", "T ", columns, ", ") == "SELECT " + j;
    match condition {
      case None =>
        assert SelectQuery(columns, tableName, condition) == base + "";
      case Some(c) =>
        AppendAssoc(base, "WHERE ", c);
    }
  }

  /** With no columns the cut eats `T ` of `SELECT `. */
  lemma SelectWithoutColumns(tableName: string, condition: Option<string>)
    ensures SelectQuery([], tableName, condition) == "SELECFROM " + tableName + WhereClause(condition)
  {
    assert "SELEC" + "FROM " == "SELECFROM ";
    AppendAssoc("SELEC", "FROM ", tableName);
  }

  /** `selectAllFromTable`: every column, no condition. */
  method SelectAllFromTable(tableName: string) returns (query: string)
    ensures query == SelectQuery(["*"], tableName, None)
    ensures query == "SELECT *FROM " + tableName
  {
    query := SelectColumnsFromTableWhere(["*"], tableName, None);
    SelectShape(["*"], tableName, None);
  }

  /** `selectAllFromTableWhere`: every column, the given (possibly null) condition. */
  method SelectAllFromTableWhere(tableName: string, condition: Option<string>) returns (query: string)
    ensures query == SelectQuery(["*"], tableName, condition)
    ensures query == "SELECT *FROM " + tableName + WhereClause(condition)
  {
    query := SelectColumnsFromTableWhere(["*"], tableName, condition);
    SelectShape(["*"], tableName, condition);
  }

  /** `selectColumnsFromTable`: the given columns, no condition. */
  method SelectColumnsFromTable(columns: seq<string>, tableName: string) returns (query: string)
    ensures query == SelectQuery(columns, tableName, None)
    ensures |columns| > 0 ==> query == "SELECT " + Join(columns, ", ") + "FROM " + tableName
  {
    query := SelectColumnsFromTableWhere(columns, tableName, None);
    if |columns| > 0 {
      SelectShape(columns, tableName, None);
    }
  }
}
