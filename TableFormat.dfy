/**
 * The formatting half of `resultSetToString`: once a result set has been
 * copied into a relation (its first row the column names, one row per
 * tuple, SQL NULL shown as ""), the relation is drawn as an ASCII table.
 *
 * Every column is as wide as its longest cell.  A border line frames the
 * table; column names are centred (an odd spare space goes after the
 * name) and values are right-justified; each cell is padded by two spaces
 * on either side:
 *
 *   +------+--------+
 *   |  id  |  name  |
 *   +------+--------+
 *   |   1  |   ann  |
 *   +------+--------+
 */
module TableFormat {
  import opened Nullable
  import opened Strings

  // ------------------------------------------------------------------
  // The relation
  // ------------------------------------------------------------------

  /** A database value as the table shows it: SQL NULL becomes the empty text. */
  function CellText(value: Option<string>): string
  {
    match value
    case None => ""
    case Some(text) => text
  }

  /** A relation: a row of column names, then rows with one cell per column. */
  predicate Rectangular(relation: seq<seq<string>>)
  {
    |relation| > 0 && forall r :: 0 <= r < |relation| ==> |relation[r]| == |relation[0]|
  }

  /**
   * The relation the formatter is given: the column names, then each
   * tuple's values with NULL shown as "".
   */
  function Relation(columnNames: seq<string>, tuples: seq<seq<Option<string>>>): (relation: seq<seq<string>>)
    requires forall t :: 0 <= t < |tuples| ==> |tuples[t]| == |columnNames|
    ensures Rectangular(relation)
    ensures |relation| == |tuples| + 1 && relation[0] == columnNames
    ensures forall t, i :: 0 <= t < |tuples| && 0 <= i < |columnNames| ==>
      relation[t + 1][i] == (if tuples[t][i].None? then "" else tuples[t][i].value)
  {
    [columnNames] + seq(|tuples|, t requires 0 <= t < |tuples| =>
      seq(|columnNames|, i requires 0 <= i < |columnNames| => CellText(tuples[t][i])))
  }

  // ------------------------------------------------------------------
  // Column widths
  // ------------------------------------------------------------------

  /** Whether every row of `relation` has a cell in column `i`. */
  predicate HasColumn(relation: seq<seq<string>>, i: nat)
  {
    forall r :: 0 <= r < |relation| ==> i < |relation[r]|
  }

  /** The length of the longest cell in column `i` (0 for no rows). */
  function ColumnMax(relation: seq<seq<string>>, i: nat): (width: int)
    requires HasColumn(relation, i)
    ensures width >= 0
  {
    if |relation| == 0 then 0
    else
      var last := |relation[|relation| - 1][i]|;
      var rest := ColumnMax(relation[..|relation| - 1], i);
      if last > rest then last else rest
  }

  /** The width of every column of a relation. */
  function Widths(relation: seq<seq<string>>): (widths: seq<int>)
    requires Rectangular(relation)
    ensures |widths| == |relation[0]|
  {
    seq(|relation[0]|, i requires 0 <= i < |relation[0]| => ColumnMax(relation, i))
  }

  /** Adding one more row to the maximum: `Math.max` of its cell and the maximum so far. */
  lemma ColumnMaxStep(relation: seq<seq<string>>, r: nat, i: nat)
    requires r < |relation| && HasColumn(relation, i)
    ensures HasColumn(relation[..r], i) && HasColumn(relation[..r + 1], i)
    ensures ColumnMax(relation[..r + 1], i)
      == (if |relation[r][i]| > ColumnMax(relation[..r], i) then |relation[r][i]| else ColumnMax(relation[..r], i))
  {
    assert relation[..r + 1][..r] == relation[..r];
  }

  /**
   * The width of a column is an upper bound of the length of every cell in
   * it, and the length of one of them when there is a row.
   */
  lemma {:induction false} ColumnMaxIsMax(relation: seq<seq<string>>, i: nat)
    requires HasColumn(relation, i)
    ensures forall r :: 0 <= r < |relation| ==> |relation[r][i]| <= ColumnMax(relation, i)
    ensures |relation| > 0 ==> exists r :: 0 <= r < |relation| && |relation[r][i]| == ColumnMax(relation, i)
    decreases |relation|
  {
    if |relation| > 0 {
      var n := |relation| - 1;
      var init := relation[..n];
      ColumnMaxIsMax(init, i);
      assert forall r :: 0 <= r < n ==> init[r] == relation[r];
      if n > 0 && ColumnMax(init, i) >= |relation[n][i]| {
        var r :| 0 <= r < n && |init[r][i]| == ColumnMax(init, i);
        assert |relation[r][i]| == ColumnMax(relation, i);
      }
    }
  }

  /**
   * Every cell fits its column, so every padding count `width - length`
   * the formatter computes is at least 0.
   */
  lemma CellsFitWidths(relation: seq<seq<string>>)
    requires Rectangular(relation)
    ensures forall r, i :: 0 <= r < |relation| && 0 <= i < |relation[0]| ==>
      0 <= Widths(relation)[i] - |relation[r][i]|
  {
    forall r, i | 0 <= r < |relation| && 0 <= i < |relation[0]|
      ensures 0 <= Widths(relation)[i] - |relation[r][i]|
    {
      ColumnMaxIsMax(relation, i);
    }
  }

  /**
   * The column widths as the formatter computes them: an `int` array, all
   * zero at first, raised to each cell's length row by row.
   */
  method ColumnWidths(relation: seq<seq<string>>) returns (widths: seq<int>)
    requires Rectangular(relation)
    ensures widths == Widths(relation)
  {
    var numCol := |relation[0]|;
    var colWidths := new int[numCol];
    forall j | 0 <= j < numCol {
      colWidths[j] := 0;
    }
    var activeTuple := 0;
    while activeTuple < |relation|
      invariant 0 <= activeTuple <= |relation|
      invariant forall j :: 0 <= j < numCol ==> HasColumn(relation[..activeTuple], j)
      invariant forall j :: 0 <= j < numCol ==> colWidths[j] == ColumnMax(relation[..activeTuple], j)
    {
      for i := 0 to numCol
        invariant forall j :: 0 <= j < i ==> colWidths[j] == ColumnMax(relation[..activeTuple + 1], j)
        invariant forall j :: i <= j < numCol ==> colWidths[j] == ColumnMax(relation[..activeTuple], j)
      {
        var valLength := |relation[activeTuple][i]|;
        ColumnMaxStep(relation, activeTuple, i);
        colWidths[i] := if valLength > colWidths[i] then valLength else colWidths[i];
      }
      activeTuple := activeTuple + 1;
    }
    assert relation[..|relation|] == relation;
    widths := colWidths[..];
  }

  // ------------------------------------------------------------------
  // The pieces of the table
  // ------------------------------------------------------------------

  /**
   * `repeat`: `s` concatenated `times` times by a counting loop, so the
   * empty text when `times <= 0`.
   */
  method Repeat(s: string, times: int) returns (r: string)
    ensures r == Repeated(s, times)
  {
    r := "";
    var i := 0;
    while i < times
      invariant 0 <= i && (i <= times || i == 0)
      invariant r == Repeated(s, i)
      decreases times - i
    {
      r := r + s;
      i := i + 1;
    }
  }

  /** `n` spaces (none when `n <= 0`). */
  function Spaces(n: int): string
  {
    Repeated(" ", n)
  }

  /** Java's `n / 2` on an `int`: the quotient truncated toward zero. */
  function Half(n: int): (h: int)
    ensures n >= 0 ==> 0 <= h && h + h <= n <= h + h + 1
    ensures n < 0 ==> n <= h + h <= n + 1 && h <= 0
  {
    if n >= 0 then n / 2 else -((-n) / 2)
  }

  /** How a cell's text is placed: column names are centred, values right-justified. */
  datatype Align = Centre | Right

  /** One cell: a bar, two spaces, the padded text, two spaces. */
  function Cell(align: Align, value: string, width: int): string
  {
    var numSpaces := width - |value|;
    match align
    case Centre =>
      var spacesBefore := Half(numSpaces);
      "|  " + Spaces(spacesBefore) + value + Spaces(numSpaces - spacesBefore) + "  "
    case Right =>
      "|  " + Spaces(numSpaces) + (value + "  ")
  }

  /** The cells of one row, column `k` drawn at width `widths[k]` (no closing bar). */
  function Cells(align: Align, values: seq<string>, widths: seq<int>): string
    requires |values| <= |widths|
  {
    if |values| == 0 then ""
    else
      var n := |values| - 1;
      Cells(align, values[..n], widths) + Cell(align, values[n], widths[n])
  }

  /** The border line: a `+`, then per column `width + 4` dashes and a `+`. */
  function Border(widths: seq<int>): string
  {
    if |widths| == 0 then "+"
    else
      var n := |widths| - 1;
      Border(widths[..n]) + (Repeated("-", widths[n] + 4) + "+")
  }

  /** One line of cells with its closing bar. */
  function Line(align: Align, values: seq<string>, widths: seq<int>): string
    requires |values| <= |widths|
  {
    Cells(align, values, widths) + "|"
  }

  /** The line of every data row, in order. */
  function DataLines(rows: seq<seq<string>>, widths: seq<int>): (lines: seq<string>)
    requires forall r :: 0 <= r < |rows| ==> |rows[r]| <= |widths|
    ensures |lines| == |rows|
  {
    seq(|rows|, r requires 0 <= r < |rows| => Line(Right, rows[r], widths))
  }

  /**
   * The lines of the table: border, column names, border, one line per
   * tuple, border.
   */
  function TableLines(relation: seq<seq<string>>): seq<string>
    requires Rectangular(relation)
  {
    var widths := Widths(relation);
    var border := Border(widths);
    [border, Line(Centre, relation[0], widths), border]
      + DataLines(relation[1..], widths) + [border]
  }

  /** The table text: its lines separated by newlines, no newline after the last. */
  function FormatTable(relation: seq<seq<string>>): string
    requires Rectangular(relation)
  {
    Join(TableLines(relation), "\n")
  }

  /** One more cell of a row. */
  lemma CellsStep(align: Align, values: seq<string>, i: nat, widths: seq<int>)
    requires i < |values| <= |widths|
    ensures Cells(align, values[..i + 1], widths) == Cells(align, values[..i], widths) + Cell(align, values[i], widths[i])
  {
    assert values[..i + 1][..i] == values[..i];
  }

  /** Regrouping the five appends that write a centred cell after the cells before it. */
  lemma AppendCentred(top: string, cells: string, bar: string, before: string, value: string, after: string, gap: string)
    ensures ((((top + cells) + bar) + before) + value + after) + gap
      == top + (cells + ((((bar + before) + value) + after) + gap))
  {
  }

  /** Regrouping the three appends that write a right-justified cell after the cells before it. */
  lemma AppendRight(top: string, cells: string, bar: string, pad: string, rest: string)
    ensures ((top + cells) + bar) + pad + rest == top + (cells + ((bar + pad) + rest))
  {
  }

  /** Writing the centred cell of column `i` extends the cells before it by that cell. */
  lemma AppendCentredCell(top: string, values: seq<string>, i: nat, widths: seq<int>,
                           numSpaces: int, spacesBefore: int, before: string, after: string)
    requires i < |values| <= |widths|
    requires numSpaces == widths[i] - |values[i]| && spacesBefore == Half(numSpaces)
    requires before == Repeated(" ", spacesBefore) && after == Repeated(" ", numSpaces - spacesBefore)
    ensures ((((top + Cells(Centre, values[..i], widths)) + "|  ") + before) + values[i] + after) + "  "
      == top + Cells(Centre, values[..i + 1], widths)
  {
    assert Cell(Centre, values[i], widths[i]) == (((("|  " + before) + values[i]) + after) + "  ");
    AppendCentred(top, Cells(Centre, values[..i], widths), "|  ", before, values[i], after, "  ");
    CellsStep(Centre, values, i, widths);
  }

  /** Writing the right-justified cell of column `i` extends the cells before it by that cell. */
  lemma AppendRightCell(top: string, values: seq<string>, i: nat, widths: seq<int>, numSpaces: int, pad: string)
    requires i < |values| <= |widths|
    requires numSpaces == widths[i] - |values[i]| && pad == Repeated(" ", numSpaces)
    ensures ((top + Cells(Right, values[..i], widths)) + "|  ") + pad + (values[i] + "  ")
      == top + Cells(Right, values[..i + 1], widths)
  {
    assert Cell(Right, values[i], widths[i]) == ("|  " + pad) + (values[i] + "  ");
    AppendRight(top, Cells(Right, values[..i], widths), "|  ", pad, values[i] + "  ");
    CellsStep(Right, values, i, widths);
  }

  /** Closing a data row with `"|\n"` completes its line and its newline. */
  lemma CloseRow(head: string, done: string, cells: string)
    ensures ((head + done) + cells) + "|\n" == head + (done + ((cells + "|") + "\n"))
  {
    assert "|\n" == "|" + "\n";
  }

  /** The text before the data rows: border, column names, border, each followed by a newline. */
  lemma HeadLines(border: string, nameCells: string)
    ensures (border + "\n") + nameCells + ("|\n" + border + "\n")
      == Terminated([border, nameCells + "|", border], "\n")
  {
    var lines := [border, nameCells + "|", border];
    assert lines[..2][..1] == [border];
    assert lines[..2] == [border, nameCells + "|"];
    assert Terminated([border], "\n") == border + "\n";
    assert "|\n" == "|" + "\n";
  }

  /** The whole text: the head, the data lines each with its newline, the final border. */
  lemma WholeTable(head: seq<string>, lines: seq<string>, border: string)
    ensures Join(head + lines + [border], "\n") == Terminated(head, "\n") + Terminated(lines, "\n") + border
  {
    var all := head + lines + [border];
    JoinAsTerminated(all, "\n");
    assert all[..|all| - 1] == head + lines;
    TerminatedAppend(head, lines, "\n");
  }

  /** The border line: `"+"`, then per column `width + 4` dashes and a `"+"`. */
  method BorderLine(colWidths: seq<int>) returns (hLine: string)
    ensures hLine == Border(colWidths)
  {
    hLine := "+";
    for i := 0 to |colWidths|
      invariant hLine == Border(colWidths[..i])
    {
      var numDashes := colWidths[i] + 4;
      var dashes := Repeat("-", numDashes);
      assert colWidths[..i + 1][..i] == colWidths[..i];
      hLine := hLine + (dashes + "+");
    }
    assert colWidths[..|colWidths|] == colWidths;
  }

  /** Appends the column names to `table`, each centred in its column. */
  method AppendNameCells(start: string, names: seq<string>, colWidths: seq<int>) returns (table: string)
    requires |names| <= |colWidths|
    ensures table == start + Cells(Centre, names, colWidths)
  {
    table := start;
    for i := 0 to |names|
      invariant table == start + Cells(Centre, names[..i], colWidths)
    {
      table := table + "|  ";
      var value := names[i];
      var numSpaces := colWidths[i] - |value|;
      var spacesBefore := Half(numSpaces);
      var spacesAfter := numSpaces - spacesBefore;
      var before := Repeat(" ", spacesBefore);
      table := table + before;
      table := table + value;
      var after := Repeat(" ", spacesAfter);
      table := table + after;
      table := table + "  ";
      AppendCentredCell(start, names, i, colWidths, numSpaces, spacesBefore, before, after);
    }
    assert names[..|names|] == names;
  }

  /** Appends the values of one tuple to `table`, each right-justified in its column. */
  method AppendTupleCells(start: string, tuple: seq<string>, colWidths: seq<int>) returns (table: string)
    requires |tuple| <= |colWidths|
    ensures table == start + Cells(Right, tuple, colWidths)
  {
    table := start;
    for i := 0 to |tuple|
      invariant table == start + Cells(Right, tuple[..i], colWidths)
    {
      table := table + "|  ";
      var value := tuple[i];
      var numSpaces := colWidths[i] - |value|;
      var pad := Repeat(" ", numSpaces);
      table := table + pad;
      table := table + (value + "  ");
      AppendRightCell(start, tuple, i, colWidths, numSpaces, pad);
    }
    assert tuple[..|tuple|] == tuple;
  }

  /**
   * `resultSetToString` after the copy into `relation`: the column widths,
   * the border line, the centred column names, one right-justified line per
   * tuple, the final border.
   */
  method ResultSetToString(relation: seq<seq<string>>) returns (table: string)
    requires Rectangular(relation)
    ensures table == FormatTable(relation)
  {
    var colWidths := ColumnWidths(relation);
    var hLine := BorderLine(colWidths);
    table := hLine + "\n";
    ghost var top := table;
    table := AppendNameCells(table, relation[0], colWidths);
    ghost var nameCells := Cells(Centre, relation[0], colWidths);
    table := table + ("|\n" + hLine + "\n");
    HeadLines(hLine, nameCells);
    ghost var head := [hLine, nameCells + "|", hLine];

    ghost var lines := DataLines(relation[1..], colWidths);
    for activeTuple := 1 to |relation|
      invariant table == Terminated(head, "\n") + Terminated(lines[..activeTuple - 1], "\n")
    {
      ghost var done := Terminated(lines[..activeTuple - 1], "\n");
      var tuple := relation[activeTuple];
      table := AppendTupleCells(table, tuple, colWidths);
      ghost var cells := Cells(Right, tuple, colWidths);
      table := table + "|\n";
      CloseRow(Terminated(head, "\n"), done, cells);
      assert lines[activeTuple - 1] == cells + "|";
      TerminatedStep(lines, activeTuple - 1, "\n");
    }
    assert lines[..|relation| - 1] == lines;
    table := table + hLine;
    WholeTable(head, lines, hLine);
  }

  // ------------------------------------------------------------------
  // Layout lemmas
  // ------------------------------------------------------------------

  /** The sum of `widths`. */
  function Sum(widths: seq<int>): int
  {
    if |widths| == 0 then 0 else Sum(widths[..|widths| - 1]) + widths[|widths| - 1]
  }

  /** The border has one `+`, then `width + 5` characters per column. */
  lemma {:induction false} BorderLength(widths: seq<int>)
    requires forall k :: 0 <= k < |widths| ==> widths[k] >= 0
    ensures |Border(widths)| == 1 + Sum(widths) + 5 * |widths|
    decreases |widths|
  {
    if |widths| > 0 {
      var n := |widths| - 1;
      BorderLength(widths[..n]);
      RepeatedLength("-", widths[n] + 4);
    }
  }

  /** A cell whose text fits its width is `width + 5` characters long. */
  lemma CellLength(align: Align, value: string, width: int)
    requires |value| <= width
    ensures |Cell(align, value, width)| == width + 5
  {
    var numSpaces := width - |value|;
    RepeatedLength(" ", numSpaces);
    RepeatedLength(" ", Half(numSpaces));
    RepeatedLength(" ", numSpaces - Half(numSpaces));
  }

  /** Cells that fit their widths take `width + 5` characters each. */
  lemma {:induction false} CellsLength(align: Align, values: seq<string>, widths: seq<int>)
    requires |values| <= |widths|
    requires forall k :: 0 <= k < |values| ==> |values[k]| <= widths[k]
    ensures |Cells(align, values, widths)| == Sum(widths[..|values|]) + 5 * |values|
    decreases |values|
  {
    if |values| > 0 {
      var n := |values| - 1;
      CellsLength(align, values[..n], widths);
      CellLength(align, values[n], widths[n]);
      assert widths[..n + 1][..n] == widths[..n];
    }
  }

  /** Every character of `Spaces(n)` is a space. */
  lemma AllSpaces(n: int)
    ensures |Spaces(n)| == (if n <= 0 then 0 else n)
    ensures forall k :: 0 <= k < |Spaces(n)| ==> Spaces(n)[k] == ' '
  {
    RepeatedChar(' ', n);
  }

  /**
   * A column name is centred: `before` spaces, the name, then `after`
   * spaces, where `after` is `before` or one more.
   */
  lemma CentredCell(value: string, width: int)
    requires |value| <= width
    ensures var before := (width - |value|) / 2;
      var after := width - |value| - before;
      var cell := Cell(Centre, value, width);
      |cell| == width + 5
      && (after == before || after == before + 1)
      && cell[..3] == "|  "
      && (forall k :: 3 <= k < 3 + before ==> cell[k] == ' ')
      && cell[3 + before..3 + before + |value|] == value
      && (forall k :: 3 + before + |value| <= k < width + 3 ==> cell[k] == ' ')
      && cell[width + 3..] == "  "
  {
    var numSpaces := width - |value|;
    var before := Half(numSpaces);
    var after := numSpaces - before;
    AllSpaces(before);
    AllSpaces(after);
    var cell := Cell(Centre, value, width);
    var s1, s2 := Spaces(before), Spaces(after);
    assert cell == "|  " + s1 + value + s2 + "  ";
    forall k | 3 <= k < 3 + before ensures cell[k] == ' ' {
      assert cell[k] == s1[k - 3];
    }
    forall k | 3 + before + |value| <= k < width + 3 ensures cell[k] == ' ' {
      assert cell[k] == s2[k - 3 - before - |value|];
    }
  }

  /** A value is right-justified: `width - length` spaces, then the value. */
  lemma RightJustifiedCell(value: string, width: int)
    requires |value| <= width
    ensures var pad := width - |value|;
      var cell := Cell(Right, value, width);
      |cell| == width + 5
      && cell[..3] == "|  "
      && (forall k :: 3 <= k < 3 + pad ==> cell[k] == ' ')
      && cell[3 + pad..width + 3] == value
      && cell[width + 3..] == "  "
  {
    var pad := width - |value|;
    AllSpaces(pad);
    var cell := Cell(Right, value, width);
    var s := Spaces(pad);
    assert cell == "|  " + s + value + "  ";
    forall k | 3 <= k < 3 + pad ensures cell[k] == ' ' {
      assert cell[k] == s[k - 3];
    }
  }

  /** There is one line per relation row plus three borders; with no tuple, four lines. */
  lemma TableLineCount(relation: seq<seq<string>>)
    requires Rectangular(relation)
    ensures |TableLines(relation)| == |relation| + 3
    ensures |relation| == 1 ==>
      (var border := Border(Widths(relation));
       TableLines(relation) == [border, Line(Centre, relation[0], Widths(relation)), border, border])
  {
  }

  /** A line of relation row `r` is exactly as long as the border. */
  lemma LineAsLongAsBorder(relation: seq<seq<string>>, r: nat, align: Align)
    requires Rectangular(relation) && r < |relation|
    ensures |Line(align, relation[r], Widths(relation))| == |Border(Widths(relation))|
  {
    var widths := Widths(relation);
    CellsFitWidths(relation);
    assert forall k :: 0 <= k < |widths| ==> widths[k] == ColumnMax(relation, k) >= 0;
    BorderLength(widths);
    CellsLength(align, relation[r], widths);
    assert widths[..|relation[r]|] == widths;
  }

  /** Every line of the table is exactly as long as the border. */
  lemma LinesAsLongAsBorder(relation: seq<seq<string>>)
    requires Rectangular(relation)
    ensures forall k :: 0 <= k < |TableLines(relation)| ==>
      |TableLines(relation)[k]| == |Border(Widths(relation))|
  {
    var widths := Widths(relation);
    var lines := TableLines(relation);
    forall k | 0 <= k < |lines| ensures |lines[k]| == |Border(widths)| {
      if k == 1 {
        LineAsLongAsBorder(relation, 0, Centre);
      } else if 3 <= k < |relation| + 2 {
        assert lines[k] == Line(Right, relation[k - 2], widths);
        LineAsLongAsBorder(relation, k - 2, Right);
      }
    }
  }

  /** Whether no cell of `relation` holds a line break. */
  predicate NoLineBreaks(relation: seq<seq<string>>)
  {
    forall r, i :: 0 <= r < |relation| && 0 <= i < |relation[r]| ==> '\n' !in relation[r][i]
  }

  /** `s` repeated holds a line break only if `s` does. */
  lemma {:induction false} RepeatedNoLineBreak(s: string, n: int)
    requires '\n' !in s
    ensures '\n' !in Repeated(s, n)
    decreases if n <= 0 then 0 else n
  {
    if n > 0 {
      RepeatedNoLineBreak(s, n - 1);
    }
  }

  /** The border line holds no line break. */
  lemma {:induction false} BorderNoLineBreak(widths: seq<int>)
    ensures '\n' !in Border(widths)
    decreases |widths|
  {
    if |widths| > 0 {
      var n := |widths| - 1;
      BorderNoLineBreak(widths[..n]);
      RepeatedNoLineBreak("-", widths[n] + 4);
    }
  }

  /** A cell holds no line break when its text holds none. */
  lemma CellNoLineBreak(align: Align, value: string, width: int)
    requires '\n' !in value
    ensures '\n' !in Cell(align, value, width)
  {
    var numSpaces := width - |value|;
    RepeatedNoLineBreak(" ", numSpaces);
    RepeatedNoLineBreak(" ", Half(numSpaces));
    RepeatedNoLineBreak(" ", numSpaces - Half(numSpaces));
  }

  /** Cells hold no line break when their texts hold none. */
  lemma {:induction false} CellsNoLineBreak(align: Align, values: seq<string>, widths: seq<int>)
    requires |values| <= |widths|
    requires forall k :: 0 <= k < |values| ==> '\n' !in values[k]
    ensures '\n' !in Cells(align, values, widths)
    decreases |values|
  {
    if |values| > 0 {
      var n := |values| - 1;
      var init := values[..n];
      assert forall k :: 0 <= k < |init| ==> init[k] == values[k];
      CellsNoLineBreak(align, init, widths);
      CellNoLineBreak(align, values[n], widths[n]);
      assert Cells(align, values, widths) == Cells(align, init, widths) + Cell(align, values[n], widths[n]);
    }
  }

  /**
   * Round trip: when no cell holds a line break, splitting the table text
   * at line breaks gives back exactly its lines.
   */
  lemma SplitTable(relation: seq<seq<string>>)
    requires Rectangular(relation) && NoLineBreaks(relation)
    ensures Split(FormatTable(relation), '\n') == TableLines(relation)
  {
    var widths := Widths(relation);
    var lines := TableLines(relation);
    BorderNoLineBreak(widths);
    forall k | 0 <= k < |lines| ensures '\n' !in lines[k] {
      if k == 1 {
        CellsNoLineBreak(Centre, relation[0], widths);
      } else if 3 <= k < |relation| + 2 {
        assert lines[k] == Line(Right, relation[k - 2], widths);
        CellsNoLineBreak(Right, relation[k - 2], widths);
      }
    }
    SplitJoin(lines, '\n');
  }

  /** The border line ends with a `+`. */
  lemma BorderEndsWithPlus(widths: seq<int>)
    ensures |Border(widths)| > 0 && Border(widths)[|Border(widths)| - 1] == '+'
  {
    if |widths| > 0 {
      var n := |widths| - 1;
      var tail := Repeated("-", widths[n] + 4) + "+";
      assert Border(widths) == Border(widths[..n]) + tail;
      assert tail[|tail| - 1] == '+';
    }
  }

  /** The text ends with the final border: no newline after it. */
  lemma EndsWithBorder(relation: seq<seq<string>>)
    requires Rectangular(relation)
    ensures var table := FormatTable(relation);
      var border := Border(Widths(relation));
      |border| <= |table| && table[|table| - |border|..] == border
      && table[|table| - 1] == '+'
  {
    var lines := TableLines(relation);
    var border := Border(Widths(relation));
    JoinAsTerminated(lines, "\n");
    var before := Terminated(lines[..|lines| - 1], "\n");
    var table := FormatTable(relation);
    assert table == before + border;
    assert table[|before|..] == border;
    BorderEndsWithPlus(Widths(relation));
  }
}
