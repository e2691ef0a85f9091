/**
 * The document model's table: rows of cells, each cell with its text and its column and row
 * spans.
 */
module DataTable {

  /** A cell: its text and how many columns and rows it spans. */
  datatype TableCell = TableCell(content: string, colSpan: nat, rowSpan: nat)
  {
    /** `with_col_span`: sets the column span and nothing else. */
    function WithColSpan(span: nat): (c: TableCell)
      ensures c.colSpan == span
      ensures c.(colSpan := this.colSpan) == this
    {
      this.(colSpan := span)
    }

    /** `with_row_span`: sets the row span and nothing else. */
    function WithRowSpan(span: nat): (c: TableCell)
      ensures c.rowSpan == span
      ensures c.(rowSpan := this.rowSpan) == this
    {
      this.(rowSpan := span)
    }
  }

  /** `TableCell::new`: the given text, spanning one column and one row. */
  function NewTableCell(content: string): (c: TableCell)
    ensures c.content == content && c.colSpan == 1 && c.rowSpan == 1
  {
    TableCell(content, 1, 1)
  }

  /** The span setters touch different fields, so their order does not matter. */
  lemma SpansCommute(c: TableCell, cols: nat, rows: nat)
    ensures c.WithColSpan(cols).WithRowSpan(rows) == c.WithRowSpan(rows).WithColSpan(cols)
    ensures c.WithColSpan(cols).WithRowSpan(rows) == TableCell(c.content, cols, rows)
  {
  }

  /** A row of cells. */
  datatype TableRow = TableRow(cells: seq<TableCell>)

  /** `TableRow::new`: the row holds the given cells, in order. */
  function NewTableRow(cells: seq<TableCell>): (r: TableRow)
    ensures r.cells == cells
  {
    TableRow(cells)
  }

  /** A table: its rows, in order. */
  datatype TableData = TableData(rows: seq<TableRow>)
  {
    /** `with_row`: the row goes after the existing ones. */
    function WithRow(row: TableRow): (t: TableData)
      ensures |t.rows| == |rows| + 1
      ensures t.rows[..|rows|] == rows && t.rows[|rows|] == row
    {
      TableData(rows + [row])
    }

    /** `num_cols`: the cell count of the first row, or 0 for a table without rows. */
    function NumCols(): (n: nat)
    {
      if rows == [] then 0 else |rows[0].cells|
    }
  }

  /** `TableData::new` (and `Default`): no rows, and so no columns. */
  function NewTableData(): (t: TableData)
    ensures t.rows == [] && t.NumCols() == 0
  {
    TableData([])
  }

  /** Adding a row to a table with rows leaves its column count alone. */
  lemma NumColsAfterWithRow(t: TableData, row: TableRow)
    ensures t.WithRow(row).NumCols() == if t.rows == [] then |row.cells| else t.NumCols()
  {
  }

  /** A new table with the rows added one after another by `with_row`. */
  function WithRows(rs: seq<TableRow>): (t: TableData)
  {
    if rs == [] then NewTableData() else WithRows(rs[..|rs| - 1]).WithRow(rs[|rs| - 1])
  }

  /**
   * Building a table row by row keeps the rows, in order, and its column count is the first
   * row's cell count whatever the later rows hold.
   */
  lemma {:induction false} WithRowsKeepsRows(rs: seq<TableRow>)
    ensures WithRows(rs).rows == rs
    ensures WithRows(rs).NumCols() == if rs == [] then 0 else |rs[0].cells|
  {
    if rs != [] {
      var init := rs[..|rs| - 1];
      WithRowsKeepsRows(init);
      assert init + [rs[|rs| - 1]] == rs;
    }
  }

  /** Two rows of two cells each: a table of two rows and two columns. */
  lemma TwoRowsExample()
    ensures var t := NewTableData()
                       .WithRow(NewTableRow([NewTableCell("A1"), NewTableCell("B1")]))
                       .WithRow(NewTableRow([NewTableCell("A2"), NewTableCell("B2")]));
            |t.rows| == 2 && t.NumCols() == 2
  {
  }

  /** A cell given a column span of 2 and then a row span of 3 has both. */
  lemma SpanExample()
    ensures NewTableCell("Merged").WithColSpan(2).WithRowSpan(3) == TableCell("Merged", 2, 3)
  {
  }
}
