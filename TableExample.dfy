/** Worked examples of the table layout: a two-column table with one tuple, and centred names with even and odd spare space. */
module TableExample {
  import opened Strings
  import opened TableFormat

  /** A relation with columns "id" and "name" and the one tuple ("1", "ann"). */
  function Sample(): seq<seq<string>>
  {
    [["id", "name"], ["1", "ann"]]
  }

  /** The columns are as wide as "id" and "name". */
  lemma SampleWidths()
    ensures Rectangular(Sample()) && Widths(Sample()) == [2, 4]
  {
    var rel := Sample();
    assert rel[..1] == [["id", "name"]];
    assert rel[..1][..0] == [];
    assert ColumnMax(rel, 0) == 2;
    assert ColumnMax(rel, 1) == 4;
  }

  /** Six and eight dashes. */
  lemma SampleBorder()
    ensures Border([2, 4]) == "+------+--------+"
  {
    var w := [2, 4];
    assert w[..1] == [2] && w[..1][..0] == [];
    assert Repeated("-", 6) == "------";
    assert Repeated("-", 8) == "--------";
    assert Border(w[..1]) == "+" + ("------" + "+");
    assert Border(w) == "+------+" + ("--------" + "+");
  }

  /** "id" and "name" fill their columns: no padding. */
  lemma SampleNameCells()
    ensures Cells(Centre, ["id", "name"], [2, 4]) == "|  id  |  name  "
  {
    var names, w := ["id", "name"], [2, 4];
    assert Spaces(0) == "" && Half(0) == 0;
    assert Cell(Centre, "id", 2) == "|  id  ";
    assert Cell(Centre, "name", 4) == "|  name  ";
    assert names[..1] == ["id"] && names[..1][..0] == [];
    assert Cells(Centre, names[..1], w) == "" + "|  id  ";
  }

  /** "a" and "bb" fill columns 1 and 2 wide: no padding. */
  lemma SampleShortNamesStart(widths: seq<int>)
    requires |widths| >= 2 && widths[0] == 1 && widths[1] == 2
    ensures Cells(Centre, ["a", "bb"], widths) == "|  a  |  bb  "
  {
    var names := ["a", "bb"];
    assert Spaces(0) == "" && Half(0) == 0;
    assert Cell(Centre, "a", 1) == "|  a  ";
    assert Cell(Centre, "bb", 2) == "|  bb  ";
    assert names[..1] == ["a"] && names[..1][..0] == [];
    assert Cells(Centre, names[..1], widths) == "" + "|  a  ";
  }

  /** "c" in a column 3 wide: one spare space on either side. */
  lemma SampleEvenCentring()
    ensures Cells(Centre, ["a", "bb", "c"], [1, 2, 3]) == "|  a  |  bb  |   c   "
  {
    var names := ["a", "bb", "c"];
    assert Spaces(1) == " " && Half(2) == 1;
    assert Cell(Centre, "c", 3) == "|   c   ";
    assert names[..2] == ["a", "bb"];
    SampleShortNamesStart([1, 2, 3]);
  }

  /** "c" in a column 4 wide: three spare spaces, the odd one after the name. */
  lemma SampleOddCentring()
    ensures Cells(Centre, ["a", "bb", "c"], [1, 2, 4]) == "|  a  |  bb  |   c    "
  {
    var names := ["a", "bb", "c"];
    assert Spaces(1) == " " && Spaces(2) == "  " && Half(3) == 1;
    assert Cell(Centre, "c", 4) == "|   c    ";
    assert names[..2] == ["a", "bb"];
    SampleShortNamesStart([1, 2, 4]);
  }

  /** "1" and "ann" are one character short: one space before each. */
  lemma SampleTupleCells()
    ensures Cells(Right, ["1", "ann"], [2, 4]) == "|   1  |   ann  "
  {
    var tuple, w := ["1", "ann"], [2, 4];
    assert Spaces(1) == " ";
    assert Cell(Right, "1", 2) == "|   1  ";
    assert Cell(Right, "ann", 4) == "|   ann  ";
    assert tuple[..1] == ["1"] && tuple[..1][..0] == [];
    assert Cells(Right, tuple[..1], w) == "" + "|   1  ";
  }

  /** Column names centred, values right-justified, two spaces either side. */
  lemma SampleTable()
    ensures Rectangular(Sample())
    ensures TableLines(Sample())
      == ["+------+--------+", "|  id  |  name  |", "+------+--------+", "|   1  |   ann  |", "+------+--------+"]
  {
    SampleWidths();
    SampleBorder();
    SampleNameCells();
    SampleTupleCells();
    var rel := Sample();
    var w := Widths(rel);
    assert rel[1..] == [["1", "ann"]];
    assert Line(Centre, rel[0], w) == "|  id  |  name  " + "|";
    assert DataLines(rel[1..], w) == [Line(Right, ["1", "ann"], w)];
    assert Line(Right, ["1", "ann"], w) == "|   1  |   ann  " + "|";
    assert "|  id  |  name  " + "|" == "|  id  |  name  |";
    assert "|   1  |   ann  " + "|" == "|   1  |   ann  |";
    var b := "+------+--------+";
    assert TableLines(rel) == [b, "|  id  |  name  |", b] + ["|   1  |   ann  |"] + [b];
  }
}
