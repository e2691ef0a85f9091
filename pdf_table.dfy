/**
 * Tables found on a PDF page: cells with positions and spans, a structure giving the grid's
 * size and its merged cells, and the table holding both.
 */
module PdfTable {
  import opened Wrappers
  import opened PdfTypes

  /** A table cell: row and column (0-based), spans, text, box and header flag. */
  datatype TableCell = TableCell(row: nat, col: nat, rowspan: nat, colspan: nat, content: string,
                                 bbox: BoundingBox, isHeader: bool)
  {
    /** `with_header`: sets the header flag and nothing else. */
    function WithHeader(isHeader: bool): (c: TableCell)
      ensures c.isHeader == isHeader
      ensures c.(isHeader := this.isHeader) == this
    {
      this.(isHeader := isHeader)
    }

    /** `with_rowspan`: sets the row span and nothing else. */
    function WithRowspan(rowspan: nat): (c: TableCell)
      ensures c.rowspan == rowspan
      ensures c.(rowspan := this.rowspan) == this
    {
      this.(rowspan := rowspan)
    }

    /** `with_colspan`: sets the column span and nothing else. */
    function WithColspan(colspan: nat): (c: TableCell)
      ensures c.colspan == colspan
      ensures c.(colspan := this.colspan) == this
    {
      this.(colspan := colspan)
    }

    predicate IsMultirow()
    {
      rowspan > 1
    }

    predicate IsMulticolumn()
    {
      colspan > 1
    }

    /** `is_merged`: the cell spans more than one row or more than one column. */
    predicate IsMerged()
    {
      IsMultirow() || IsMulticolumn()
    }
  }

  /** `TableCell::new`: spans of one and not a header. */
  function NewTableCell(row: nat, col: nat, content: string, bbox: BoundingBox): (c: TableCell)
    ensures c.row == row && c.col == col && c.content == content && c.bbox == bbox
    ensures c.rowspan == 1 && c.colspan == 1 && !c.isHeader
  {
    TableCell(row, col, 1, 1, content, bbox, false)
  }

  /**
   * A new cell is not merged; setting a span above one makes it merged, and the merge test
   * looks at nothing but the two spans.
   */
  lemma MergedIffSpans(c: TableCell, row: nat, col: nat, content: string, bbox: BoundingBox, n: nat)
    ensures !NewTableCell(row, col, content, bbox).IsMerged()
    ensures c.IsMerged() <==> c.rowspan > 1 || c.colspan > 1
    ensures c.WithRowspan(n).IsMerged() <==> n > 1 || c.colspan > 1
    ensures c.WithColspan(n).IsMerged() <==> c.rowspan > 1 || n > 1
    ensures c.WithHeader(true).IsMerged() == c.IsMerged()
  {
  }

  /** The first cell of `cells` at (row, col), as `Iterator::find` gives it. */
  function FindCell(cells: seq<TableCell>, row: nat, col: nat): (r: Option<TableCell>)
    ensures r.Some? ==> exists i | 0 <= i < |cells| :: cells[i] == r.value
                          && (forall j | 0 <= j < i :: !(cells[j].row == row && cells[j].col == col))
    ensures r.Some? ==> r.value.row == row && r.value.col == col
    ensures r.None? <==> forall i | 0 <= i < |cells| :: !(cells[i].row == row && cells[i].col == col)
  {
    if cells == [] then None
    else if cells[0].row == row && cells[0].col == col then Some(cells[0])
    else
      var r := FindCell(cells[1..], row, col);
      assert r.Some? ==> exists i | 0 <= i < |cells| :: cells[i] == r.value
                          && (forall j | 0 <= j < i :: !(cells[j].row == row && cells[j].col == col)) by {
        if r.Some? {
          var i :| 0 <= i < |cells[1..]| && cells[1..][i] == r.value
                   && (forall j | 0 <= j < i :: !(cells[1..][j].row == row && cells[1..][j].col == col));
          assert cells[i + 1] == r.value;
          assert forall j | 0 <= j < i + 1 :: !(cells[j].row == row && cells[j].col == col) by {
            forall j | 0 <= j < i + 1
              ensures !(cells[j].row == row && cells[j].col == col)
            {
              if j > 0 {
                assert cells[j] == cells[1..][j - 1];
              }
            }
          }
        }
      }
      assert r.None? ==> forall i | 0 <= i < |cells| :: !(cells[i].row == row && cells[i].col == col) by {
        if r.None? {
          forall i | 0 <= i < |cells|
            ensures !(cells[i].row == row && cells[i].col == col)
          {
            if i > 0 {
              assert cells[i] == cells[1..][i - 1];
            }
          }
        }
      }
      r
  }

  /** A merged-cell record: row, column, row span, column span. */
  type MergedCell = (nat, nat, nat, nat)

  /** `TableStructure`: the grid's size and the merged cells recorded on it. */
  class TableStructure {
    var rows: nat
    var cols: nat
    var mergedCells: seq<MergedCell>

    /** Every recorded merged cell spans more than one row or column. */
    ghost predicate Valid()
      reads this
    {
      forall i | 0 <= i < |mergedCells| :: mergedCells[i].2 > 1 || mergedCells[i].3 > 1
    }

    /** `TableStructure::new`: the given size and no merged cells. */
    constructor (rows: nat, cols: nat)
      ensures this.rows == rows && this.cols == cols && mergedCells == []
      ensures Valid()
    {
      this.rows := rows;
      this.cols := cols;
      mergedCells := [];
    }

    /** `add_merged_cell`: records the cell only when it spans more than one row or column. */
    method AddMergedCell(row: nat, col: nat, rowspan: nat, colspan: nat)
      requires Valid()
      modifies this
      ensures Valid()
      ensures mergedCells == old(mergedCells) + (if rowspan > 1 || colspan > 1 then [(row, col, rowspan, colspan)] else [])
      ensures rows == old(rows) && cols == old(cols)
      ensures HasMergedCells() <==> old(HasMergedCells()) || rowspan > 1 || colspan > 1
    {
      if rowspan > 1 || colspan > 1 {
        mergedCells := mergedCells + [(row, col, rowspan, colspan)];
      }
    }

    /** `total_cells`: the number of grid positions. */
    function TotalCells(): (n: nat)
      reads this
      ensures n == |ValidPositions(rows, cols)|
    {
      ValidPositionCount(rows, cols);
      rows * cols
    }

    /** `is_valid_position`. */
    predicate IsValidPosition(row: nat, col: nat)
      reads this
    {
      row < rows && col < cols
    }

    /** `has_merged_cells`. */
    predicate HasMergedCells()
      reads this
    {
      mergedCells != []
    }
  }

  /** The positions of a grid with `rows` rows and `cols` columns. */
  function ValidPositions(rows: nat, cols: nat): set<(nat, nat)>
  {
    set r: nat, c: nat | r < rows && c < cols :: (r, c)
  }

  /** The positions of one row. */
  function RowPositions(r: nat, cols: nat): set<(nat, nat)>
  {
    set c: nat | c < cols :: (r, c)
  }

  lemma {:induction false} RowPositionCount(r: nat, cols: nat)
    ensures |RowPositions(r, cols)| == cols
  {
    if cols > 0 {
      RowPositionCount(r, cols - 1);
      assert RowPositions(r, cols) == RowPositions(r, cols - 1) + {(r, cols - 1)};
    } else {
      assert RowPositions(r, cols) == {};
    }
  }

  /** A grid has exactly rows × cols positions, so `total_cells` counts the valid positions. */
  lemma {:induction false} ValidPositionCount(rows: nat, cols: nat)
    ensures |ValidPositions(rows, cols)| == rows * cols
  {
    if rows > 0 {
      var before, last := ValidPositions(rows - 1, cols), RowPositions(rows - 1, cols);
      assert |before| == (rows - 1) * cols by {
        ValidPositionCount(rows - 1, cols);
      }
      assert |last| == cols by {
        RowPositionCount(rows - 1, cols);
      }
      assert ValidPositions(rows, cols) == before + last by {
        forall p | p in ValidPositions(rows, cols)
          ensures p in before + last
        {
          if p.0 < rows - 1 {
            assert p in before;
          } else {
            assert p in last;
          }
        }
      }
      assert |before + last| == |before| + |last| by {
        assert before * last == {};
      }
      assert (rows - 1) * cols + cols == rows * cols;
    } else {
      assert ValidPositions(rows, cols) == {};
    }
  }

  /** `pdf::Table`: box, cells in insertion order, structure, header-row count and confidence. */
  class Table {
    var bbox: BoundingBox
    var cells: seq<TableCell>
    var structure: TableStructure
    var headerRows: nat
    var confidence: Option<real>

    /** `Table::new`: no cells, no header rows, no confidence; the structure is kept. */
    constructor (bbox: BoundingBox, structure: TableStructure)
      ensures this.bbox == bbox && this.structure == structure
      ensures cells == [] && headerRows == 0 && confidence == None
    {
      this.bbox := bbox;
      this.structure := structure;
      cells := [];
      headerRows := 0;
      confidence := None;
    }

    /** `add_cell`: appends one cell, so the cell count grows by one. */
    method AddCell(cell: TableCell)
      modifies this
      ensures cells == old(cells) + [cell]
      ensures CellCount() == old(CellCount()) + 1
      ensures bbox == old(bbox) && structure == old(structure)
      ensures headerRows == old(headerRows) && confidence == old(confidence)
    {
      cells := cells + [cell];
    }

    /** `with_header_rows`: sets the header-row count and hands the same table back. */
    method WithHeaderRows(headerRows: nat) returns (t: Table)
      modifies this
      ensures t == this && this.headerRows == headerRows
      ensures bbox == old(bbox) && cells == old(cells) && structure == old(structure)
      ensures confidence == old(confidence)
    {
      this.headerRows := headerRows;
      t := this;
    }

    /** `with_confidence`: sets the confidence and hands the same table back. */
    method WithConfidence(confidence: real) returns (t: Table)
      modifies this
      ensures t == this && this.confidence == Some(confidence)
      ensures bbox == old(bbox) && cells == old(cells) && structure == old(structure)
      ensures headerRows == old(headerRows)
    {
      this.confidence := Some(confidence);
      t := this;
    }

    /** `cell_count`. */
    function CellCount(): nat
      reads this
    {
      |cells|
    }

    /** `get_cell`: the first cell added at (row, col), or None if there is none. */
    function GetCell(row: nat, col: nat): (r: Option<TableCell>)
      reads this
      ensures r.Some? ==> r.value in cells && r.value.row == row && r.value.col == col
      ensures r.Some? ==> exists i | 0 <= i < |cells| :: cells[i] == r.value
                            && (forall j | 0 <= j < i :: !(cells[j].row == row && cells[j].col == col))
      ensures r.None? <==> forall i | 0 <= i < |cells| :: !(cells[i].row == row && cells[i].col == col)
    {
      FindCell(cells, row, col)
    }
  }
}
