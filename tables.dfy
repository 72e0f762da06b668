/**
 * The MRML table node the results are written into, reduced to what the
 * logic uses: named string columns of equal length, blank rows appended at
 * the bottom, and single cells overwritten.
 */
module Tables {

  datatype Column = Column(name: string, cells: seq<string>)

  /** The content of a table: its columns, left to right, and its number of rows. */
  datatype TableValue = TableValue(columns: seq<Column>, rowCount: nat)

  /** Every column holds one cell per row. */
  ghost predicate WellFormed(t: TableValue)
  {
    forall j :: 0 <= j < |t.columns| ==> |t.columns[j].cells| == t.rowCount
  }

  /** The column names, left to right. */
  function Names(t: TableValue): (names: seq<string>)
    ensures |names| == |t.columns|
    ensures forall j :: 0 <= j < |t.columns| ==> names[j] == t.columns[j].name
  {
    seq(|t.columns|, j requires 0 <= j < |t.columns| => t.columns[j].name)
  }

  function Cell(t: TableValue, row: nat, col: nat): string
    requires WellFormed(t) && row < t.rowCount && col < |t.columns|
  {
    t.columns[col].cells[row]
  }

  function Blank(n: nat): (cells: seq<string>)
    ensures |cells| == n
    ensures forall i :: 0 <= i < n ==> cells[i] == ""
  {
    seq(n, _ => "")
  }

  /** The table after appending a blank column called `name`. */
  function WithColumn(t: TableValue, name: string): (r: TableValue)
    requires WellFormed(t)
    ensures WellFormed(r) && r.rowCount == t.rowCount
    ensures Names(r) == Names(t) + [name]
    ensures forall i, j :: 0 <= i < r.rowCount && 0 <= j < |r.columns| ==>
      Cell(r, i, j) == if j < |t.columns| then Cell(t, i, j) else ""
  {
    var r := TableValue(t.columns + [Column(name, Blank(t.rowCount))], t.rowCount);
    assert Names(r) == Names(t) + [name];
    r
  }

  /** The table after appending a blank row. */
  function WithEmptyRow(t: TableValue): (r: TableValue)
    requires WellFormed(t)
    ensures WellFormed(r) && r.rowCount == t.rowCount + 1 && Names(r) == Names(t)
    ensures forall i, j :: 0 <= i < r.rowCount && 0 <= j < |r.columns| ==>
      Cell(r, i, j) == if i < t.rowCount then Cell(t, i, j) else ""
  {
    var r := TableValue(
      seq(|t.columns|, j requires 0 <= j < |t.columns| => Column(t.columns[j].name, t.columns[j].cells + [""])),
      t.rowCount + 1);
    assert Names(r) == Names(t);
    r
  }

  /** The table after overwriting the cell at (`row`, `col`) with `text`. */
  function WithCell(t: TableValue, row: nat, col: nat, text: string): (r: TableValue)
    requires WellFormed(t) && row < t.rowCount && col < |t.columns|
    ensures WellFormed(r) && r.rowCount == t.rowCount && Names(r) == Names(t)
    ensures forall i, j :: 0 <= i < r.rowCount && 0 <= j < |r.columns| ==>
      Cell(r, i, j) == if i == row && j == col then text else Cell(t, i, j)
  {
    var r := t.(columns := t.columns[col := Column(t.columns[col].name, t.columns[col].cells[row := text])]);
    assert Names(r) == Names(t);
    r
  }

  /** The table after appending a row whose leading cells hold `texts`, blank in the remaining columns. */
  function WithRow(t: TableValue, texts: seq<string>): (r: TableValue)
    requires WellFormed(t) && |texts| <= |t.columns|
    ensures WellFormed(r) && r.rowCount == t.rowCount + 1 && Names(r) == Names(t)
    ensures forall i, j :: 0 <= i < r.rowCount && 0 <= j < |r.columns| ==>
      Cell(r, i, j) == if i < t.rowCount then Cell(t, i, j) else if j < |texts| then texts[j] else ""
  {
    var r := TableValue(
      seq(|t.columns|, j requires 0 <= j < |t.columns| =>
        Column(t.columns[j].name, t.columns[j].cells + [if j < |texts| then texts[j] else ""])),
      t.rowCount + 1);
    assert Names(r) == Names(t);
    r
  }

  /** Two well-formed tables with the same column names and the same cells are the same table. */
  lemma SameTable(r: TableValue, t: TableValue)
    requires WellFormed(r) && WellFormed(t) && r.rowCount == t.rowCount && Names(r) == Names(t)
    requires forall i, j :: 0 <= i < r.rowCount && 0 <= j < |r.columns| ==> Cell(r, i, j) == Cell(t, i, j)
    ensures r == t
  {
    assert |r.columns| == |Names(r)|;
    forall j | 0 <= j < |r.columns| ensures r.columns[j] == t.columns[j] {
      assert r.columns[j].name == Names(r)[j];
      forall i | 0 <= i < r.rowCount ensures r.columns[j].cells[i] == t.columns[j].cells[i] {
        assert Cell(r, i, j) == Cell(t, i, j);
      }
    }
  }

  /**
   * `AddEmptyRow` followed by `SetCellText` on the first three cells of
   * the new row appends exactly the row holding those three texts.
   */
  lemma FilledRow(t: TableValue, a: string, b: string, c: string)
    requires WellFormed(t) && |t.columns| >= 3
    ensures var n := t.rowCount;
      WithCell(WithCell(WithCell(WithEmptyRow(t), n, 0, a), n, 1, b), n, 2, c) == WithRow(t, [a, b, c])
  {
    var n := t.rowCount;
    var t0 := WithEmptyRow(t);
    var t1 := WithCell(t0, n, 0, a);
    var t2 := WithCell(t1, n, 1, b);
    var t3 := WithCell(t2, n, 2, c);
    var w := WithRow(t, [a, b, c]);
    forall i, j | 0 <= i < t3.rowCount && 0 <= j < |t3.columns| ensures Cell(t3, i, j) == Cell(w, i, j) {
      assert Cell(t3, i, j) == if i == n && j == 2 then c else Cell(t2, i, j);
      assert Cell(t2, i, j) == if i == n && j == 1 then b else Cell(t1, i, j);
      assert Cell(t1, i, j) == if i == n && j == 0 then a else Cell(t0, i, j);
    }
    SameTable(t3, w);
  }

  /** A table node (`vtkMRMLTableNode`), updated in place. */
  class Table {
    var columns: seq<Column>
    var rowCount: nat

    function Value(): TableValue
      reads this
    {
      TableValue(columns, rowCount)
    }

    ghost predicate Valid()
      reads this
    {
      WellFormed(Value())
    }

    constructor ()
      ensures Valid() && Value() == TableValue([], 0)
    {
      columns, rowCount := [], 0;
    }

    /** `RemoveAllColumns`: without columns the table has no rows either. */
    method RemoveAllColumns()
      modifies this
      ensures Valid() && Value() == TableValue([], 0)
    {
      columns, rowCount := [], 0;
    }

    /** `AddColumn` followed by `SetName`: returns the new column's index. */
    method AddColumn(name: string) returns (col: nat)
      requires Valid()
      modifies this
      ensures Valid() && Value() == WithColumn(old(Value()), name)
      ensures col == |old(columns)| && col < |columns|
    {
      col := |columns|;
      columns := columns + [Column(name, Blank(rowCount))];
    }

    /** `AddEmptyRow`: returns the new row's index. */
    method AddEmptyRow() returns (row: nat)
      requires Valid()
      modifies this
      ensures Valid() && Value() == WithEmptyRow(old(Value()))
      ensures row == old(rowCount) && row < rowCount
    {
      row := rowCount;
      var grown := WithEmptyRow(Value());
      columns, rowCount := grown.columns, grown.rowCount;
    }

    /** `SetCellText`, and `SetValue` on a column array. */
    method SetCellText(row: nat, col: nat, text: string)
      requires Valid() && row < rowCount && col < |columns|
      modifies this
      ensures Valid() && Value() == WithCell(old(Value()), row, col, text)
    {
      columns := columns[col := Column(columns[col].name, columns[col].cells[row := text])];
    }
  }
}
