# DB_Statement: SQL text builders and ASCII table formatter

`DB_Statement` is the database helper class of a small restaurant-management
application. This Dafny project models its two parts that contain logic of
their own.

- **The SQL text builders.** `useDB` puts `USE ` before the database
  name. Three builders take lists: `createTable`, `insertIntoTable` and
  `selectColumnsFromTableWhere`. Each starts from a fixed prefix and
  appends every list element followed by a separator. It then cuts as many
  characters as the separator has off the end with `substring`, and
  appends the rest of the statement. The three delegating methods
  `selectAllFromTable`, `selectAllFromTableWhere` and
  `selectColumnsFromTable` call `selectColumnsFromTableWhere` with fixed
  arguments. The model is in `QueryBuilder.dfy`. `UseDb` is a function.
  Each list builder is a method with the source's loop and cut, proved
  equal to a specification function of its inputs. The delegating methods
  call the general method. Lemmas state the exact text each builder
  produces.
- **The table formatter** is the second half of `resultSetToString`, plus
  its helper `repeat`. It is modelled in `TableFormat.dfy`. The result set
  has already been copied into a relation: row 0 holds the column names,
  the other rows the tuples, and SQL NULL is shown as `""`. The formatter
  computes every column's width as the longest cell in it, and draws
  borders of `width + 4` dashes. It centres the column names and
  right-justifies the values, with two spaces and a bar around every
  cell. `TableExample.dfy` works one small table through to its exact
  lines.

`Strings.dfy` holds the specification functions over text: `Join`,
`Terminated` (every element followed by the separator, which is what the
builders' loops accumulate), `Split` and `Repeated`. It also holds their
lemmas. `Nullable.dfy` models a Java reference that may be `null` as
`Option`. It has two uses: the nullable `condition` of a SELECT, and a
database value that may be SQL NULL (`TableFormat.CellText` and
`TableFormat.Relation`).

The model reproduces three quirks of the builders exactly:

- No space is inserted before `FROM` or before `WHERE`. The select query
  for columns `a`, `b` of table `t` with condition `x` is
  `SELECT a, bFROM tWHERE x`.
- Values are put in single quotes but not escaped. A value holding `','`
  gives the same statement as two values (`InsertValuesNotEscaped`).
- With an empty list, the cut removes the last characters of the fixed
  prefix instead of a separator. `createTable(t, [])` builds
  `CREATE TABLE t )` and `selectColumnsFromTableWhere([], t, null)` builds
  `SELECFROM t`. Every prefix is longer than its separator, so `substring`
  never fails on an empty list.

A table without tuples has four lines: the column names between two
borders, then the closing border (`TableLineCount`).

## Model

| member | source | states |
|---|---|---|
| Strings.TerminatedIsJoinPlusSep | DB_Statement.java:61-65 | appending every element followed by the separator gives the joined text plus one separator, so cutting the separator's length off the end leaves exactly the join |
| Strings.RepeatedLength | DB_Statement.java:269-276 | `s` repeated `n` times has `n` times the length of `s`, and is empty when `n <= 0` |
| Strings.RepeatedChar | DB_Statement.java:269-276 | a one-character text repeated `n` times has `n` characters (none when `n <= 0`), all equal to that character |
| Strings.SplitJoin | DB_Statement.java:61-65 | when no element contains the separator character, splitting the joined text gives back the elements |
| QueryBuilder.TrimmedIsListAfter | DB_Statement.java:59-65 | the builders' append-then-cut idiom yields the stem, the opener and the joined items, or only the stem (the opener cut off) when the list is empty |
| QueryBuilder.ListAfterRecoverable | DB_Statement.java:59-65 | for a non-empty list whose items avoid the separator character, the clause starts with stem and opener, and the items can be split back out of the rest |
| QueryBuilder.UseDb | DB_Statement.java:43-44 | the statement is `USE ` followed by exactly the database name |
| QueryBuilder.CreateTable | DB_Statement.java:57-66 | the loop, cut and closing parenthesis build exactly `CreateTableQuery(tableName, columns)` for every input, the empty column list included |
| QueryBuilder.CreateTableShape | DB_Statement.java:57-66 | with columns: `CREATE TABLE t (` + columns joined by `,` + `)`; with none: `CREATE TABLE t )` |
| QueryBuilder.CreateTableColumnsRecoverable | DB_Statement.java:59-66 | the text starts with `CREATE TABLE t (`, ends with `)`, and the column definitions between them split back into the input list when none contains a comma |
| QueryBuilder.QuoteAll | DB_Statement.java:93-94 | one literal per value |
| QueryBuilder.QuoteAllAt | DB_Statement.java:94 | the k-th literal is the k-th value between single quotes, unescaped |
| QueryBuilder.QuoteAllSnoc | DB_Statement.java:93-94 | quoting one more value appends its literal at the end |
| QueryBuilder.InsertIntoTable | DB_Statement.java:83-97 | the two loops and two cuts build exactly `InsertQuery(tableName, colNames, tuple)` for every input, empty lists included |
| QueryBuilder.InsertShape | DB_Statement.java:83-97 | with columns and values: `INSERT INTO t (` + names joined by `,` + `) values (` + quoted values joined by `,` + `)`; names and quoted values split back out when they contain no comma |
| QueryBuilder.InsertWithEmptyLists | DB_Statement.java:85-97 | an empty list loses its opening parenthesis: `INSERT INTO t ) values (...)`, `... values )`, and both |
| QueryBuilder.InsertValuesNotEscaped | DB_Statement.java:94 | the tuple `["a','b"]` and the distinct tuple `["a", "b"]` produce the same statement |
| QueryBuilder.SelectColumnsFromTableWhere | DB_Statement.java:145-157 | the loop, the two-character cut, `FROM` + table and the optional `WHERE` + condition build exactly `SelectQuery(columns, tableName, condition)` |
| QueryBuilder.SelectShape | DB_Statement.java:147-157 | with columns: `SELECT ` + columns joined by `, ` + `FROM ` + table, followed by `WHERE ` + condition exactly when the condition is not null, with no space inserted |
| QueryBuilder.SelectWithoutColumns | DB_Statement.java:147-153 | with no columns the cut eats `T ` and the text is `SELECFROM ` + table (+ the WHERE clause) |
| QueryBuilder.SelectAllFromTable | DB_Statement.java:112-115 | the general builder with columns `["*"]` and a null condition: `SELECT *FROM t` |
| QueryBuilder.SelectAllFromTableWhere | DB_Statement.java:123-126 | the general builder with columns `["*"]` and the given condition: `SELECT *FROM t` + the WHERE clause |
| QueryBuilder.SelectColumnsFromTable | DB_Statement.java:134-136 | the general builder with a null condition, `SELECT ` + columns joined by `, ` + `FROM t` when there are columns |
| TableFormat.Relation | DB_Statement.java:184-207 | the relation is rectangular: the column names, then one row per tuple whose cells are the values with NULL replaced by `""` |
| TableFormat.ColumnMax | DB_Statement.java:213-221 | a column width is never negative |
| TableFormat.ColumnMaxStep | DB_Statement.java:215-218 | one more row sets the width to `Math.max` of that row's cell length and the width so far |
| TableFormat.ColumnMaxIsMax | DB_Statement.java:213-221 | a column's width bounds every cell length in the column and equals one of them when there is a row |
| TableFormat.CellsFitWidths | DB_Statement.java:234-252 | every padding count `width - length` is at least 0 |
| TableFormat.ColumnWidths | DB_Statement.java:211-221 | the nested loop over the zero-initialised `int` array yields, for every column, the longest cell length in it |
| TableFormat.Repeat | DB_Statement.java:269-276 | the counting loop returns `Repeated(s, times)`: `times` copies of `s`, or `""` when `times <= 0` |
| TableFormat.Half | DB_Statement.java:237-238 | Java's `numSpaces / 2`, truncated toward zero: twice the half is `n` or `n - 1` when `n >= 0`, and `n` or `n + 1` when `n < 0` |
| TableFormat.BorderLine | DB_Statement.java:225-229 | the loop builds `Border(colWidths)`: `+`, then per column `width + 4` dashes and `+` |
| TableFormat.AppendNameCells | DB_Statement.java:233-244 | the column-name loop appends exactly the centred cells of the names |
| TableFormat.AppendTupleCells | DB_Statement.java:249-255 | the inner tuple loop appends exactly the right-justified cells of the tuple |
| TableFormat.ResultSetToString | DB_Statement.java:211-260 | the formatter returns exactly the table lines, border, names, border, tuples, border, separated by newlines |
| TableFormat.BorderLength | DB_Statement.java:226-230 | the border is `1 + Σ width + 5 · columns` characters long |
| TableFormat.CellLength | DB_Statement.java:234-255 | a cell whose text fits its width is `width + 5` characters long |
| TableFormat.CellsLength | DB_Statement.java:233-256 | a row's cells take `width + 5` characters per column |
| TableFormat.CentredCell | DB_Statement.java:234-243 | a name cell is `\|  `, `before` spaces, the name, `after` spaces, two spaces, with `before = (width - length) / 2` and `after` equal to `before` or one more |
| TableFormat.RightJustifiedCell | DB_Statement.java:250-255 | a value cell is `\|  `, `width - length` spaces, the value, two spaces |
| TableFormat.TableLineCount | DB_Statement.java:231-259 | the table has one line per relation row plus three borders; with no tuple it is border, names, border, border |
| TableFormat.LineAsLongAsBorder | DB_Statement.java:226-256 | the line of any relation row is exactly as long as the border |
| TableFormat.LinesAsLongAsBorder | DB_Statement.java:226-259 | every line of the table is exactly as long as the border |
| TableFormat.RepeatedNoLineBreak | DB_Statement.java:269-276 | repeating a text with no line break adds none |
| TableFormat.BorderNoLineBreak | DB_Statement.java:226-230 | the border holds no line break |
| TableFormat.CellNoLineBreak | DB_Statement.java:234-255 | a cell holds a line break only if its text does |
| TableFormat.CellsNoLineBreak | DB_Statement.java:233-256 | a row's cells hold no line break when its texts hold none |
| TableFormat.SplitTable | DB_Statement.java:231-259 | when no cell holds a line break, splitting the table text at line breaks gives back exactly its lines |
| TableFormat.BorderEndsWithPlus | DB_Statement.java:228 | the border ends with `+` |
| TableFormat.EndsWithBorder | DB_Statement.java:259 | the text ends with the border and no newline after it |
| TableExample.SampleWidths | DB_Statement.java:213-221 | the relation `id, name / 1, ann` has column widths 2 and 4 |
| TableExample.SampleBorder | DB_Statement.java:226-230 | widths 2 and 4 give the border `+------+--------+` |
| TableExample.SampleNameCells | DB_Statement.java:234-244 | names that fill their columns are not padded: `\|  id  \|  name  ` |
| TableExample.SampleShortNamesStart | DB_Statement.java:234-244 | names that fill columns 1 and 2 wide are not padded: `\|  a  \|  bb  ` |
| TableExample.SampleEvenCentring | DB_Statement.java:234-244 | `c` in a column 3 wide gets one spare space on either side: `\|   c   ` |
| TableExample.SampleOddCentring | DB_Statement.java:234-244 | `c` in a column 4 wide has three spare spaces, and the odd one goes after the name: `\|   c    ` |
| TableExample.SampleTupleCells | DB_Statement.java:249-256 | values one character short get one space before them: `\|   1  \|   ann  ` |
| TableExample.SampleTable | DB_Statement.java:211-260 | the whole table of the sample relation, line by line |

## Left out

- Executing statements is not modelled. This covers `statement`, `createStatement`, `executeUpdate` and `executeQuery` (DB_Statement.java:28-37, 159-169). Each builder returns the text it would execute. The `ResultSet` that the select builders return is foreign database state.
- Reading the `ResultSet` is not modelled (`getMetaData`, `getColumnCount`, `getColumnName`, `next`, `getObject(...).toString()`, DB_Statement.java:182-207). These are foreign calls. `TableFormat.Relation` states what the copy produces, and `TableFormat.ResultSetToString` takes that relation as its input.
- `TableFormat.ResultSetToString` requires a rectangular relation with a header row. The copy at DB_Statement.java:184-207 always produces one.
- The static connection fields `stmt`, `pStmt`, `rs` and `CONNECTION` are not modelled (DB_Statement.java:17-20). They are shared connection state with no logic.
- Exceptions that are printed and swallowed are not modelled. This is console output only.
- Null table names, null column or value strings, and null arrays are not modelled. Java would write `null` into the text or throw. Only `condition` is nullable in the model.
- Java's `int` overflow of lengths and widths is not modelled. Java's UTF-16 `length()` is not modelled either: a string is a sequence of characters and its length is the number of characters.
