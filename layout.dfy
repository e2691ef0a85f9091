/**
 * The layout record of a PDF page: the columns found on it, each holding the indices of its
 * text blocks, and the reading order of the page's text blocks.
 */
module PdfLayout {
  import opened PdfTypes

  /** The part of the page a column holds. */
  datatype ColumnType = MainContent | Sidebar | Header | Footer

  /** `Default for ColumnType`. */
  function DefaultColumnType(): (t: ColumnType)
    ensures t == MainContent
  {
    MainContent
  }

  /** A column of the page, with the indices (into the page's text blocks) that belong to it. */
  class Column {
    var id: nat
    var bbox: BoundingBox
    var textBlockIndices: seq<nat>
    var columnType: ColumnType

    /** `Column::new`: no text blocks yet, main content. */
    constructor (id: nat, bbox: BoundingBox)
      ensures this.id == id && this.bbox == bbox
      ensures textBlockIndices == [] && columnType == MainContent
      ensures TextBlockCount() == 0
    {
      this.id := id;
      this.bbox := bbox;
      textBlockIndices := [];
      columnType := MainContent;
    }

    /** `add_text_block`: the index goes at the end, and the count grows by one. */
    method AddTextBlock(index: nat)
      modifies this
      ensures textBlockIndices == old(textBlockIndices) + [index]
      ensures TextBlockCount() == old(TextBlockCount()) + 1
      ensures textBlockIndices[TextBlockCount() - 1] == index
      ensures id == old(id) && bbox == old(bbox) && columnType == old(columnType)
    {
      textBlockIndices := textBlockIndices + [index];
    }

    /** `text_block_count`. */
    function TextBlockCount(): (n: nat)
      reads this
    {
      |textBlockIndices|
    }

    /** `with_type`: sets the column type, keeps everything else, and hands back the column. */
    method WithType(columnType: ColumnType) returns (c: Column)
      modifies this
      ensures c == this && this.columnType == columnType
      ensures id == old(id) && bbox == old(bbox) && textBlockIndices == old(textBlockIndices)
    {
      this.columnType := columnType;
      c := this;
    }
  }

  /** The layout of one page. */
  class LayoutInfo {
    var columns: seq<Column>
    var readingOrder: seq<nat>
    var pageWidth: real
    var pageHeight: real

    /** `LayoutInfo::new`: no columns and an empty reading order, for a page of the given size. */
    constructor (pageWidth: real, pageHeight: real)
      ensures this.pageWidth == pageWidth && this.pageHeight == pageHeight
      ensures columns == [] && readingOrder == []
      ensures ColumnCount() == 0 && !IsSingleColumn() && !IsMultiColumn()
    {
      this.pageWidth := pageWidth;
      this.pageHeight := pageHeight;
      columns := [];
      readingOrder := [];
    }

    /**
     * `add_column`: the column goes at the end; the count grows by one, so the layout becomes
     * single-column from none and multi-column from one or more.
     */
    method AddColumn(column: Column)
      modifies this
      ensures columns == old(columns) + [column]
      ensures ColumnCount() == old(ColumnCount()) + 1
      ensures IsSingleColumn() <==> old(ColumnCount()) == 0
      ensures IsMultiColumn() <==> old(ColumnCount()) >= 1
      ensures readingOrder == old(readingOrder)
      ensures pageWidth == old(pageWidth) && pageHeight == old(pageHeight)
    {
      columns := columns + [column];
    }

    /** `set_reading_order`: the old order is dropped whole and replaced. */
    method SetReadingOrder(order: seq<nat>)
      modifies this
      ensures readingOrder == order
      ensures columns == old(columns)
      ensures pageWidth == old(pageWidth) && pageHeight == old(pageHeight)
    {
      readingOrder := order;
    }

    /** `column_count`. */
    function ColumnCount(): (n: nat)
      reads this
    {
      |columns|
    }

    /** `is_single_column`. */
    predicate IsSingleColumn()
      reads this
    {
      |columns| == 1
    }

    /** `is_multi_column`. */
    predicate IsMultiColumn()
      reads this
    {
      |columns| > 1
    }
  }

  /**
   * A layout is single-column or multi-column exactly when it has one or more than one
   * column, never both, and neither only when it has no columns.
   */
  lemma ColumnKinds(layout: LayoutInfo)
    ensures layout.IsSingleColumn() <==> layout.ColumnCount() == 1
    ensures layout.IsMultiColumn() <==> layout.ColumnCount() > 1
    ensures !(layout.IsSingleColumn() && layout.IsMultiColumn())
    ensures !layout.IsSingleColumn() && !layout.IsMultiColumn() <==> layout.columns == []
  {
  }

  /** A new layout with one column added is a single-column layout. */
  method SingleColumnExample() returns (count: nat, single: bool, multi: bool)
    ensures count == 1 && single && !multi
  {
    var layout := new LayoutInfo(600.0, 800.0);
    var col := new Column(0, BoundingBox(0.0, 0.0, 300.0, 800.0));
    layout.AddColumn(col);
    count := layout.ColumnCount();
    single := layout.IsSingleColumn();
    multi := layout.IsMultiColumn();
  }

  /** A new layout with two columns added is a multi-column layout. */
  method MultiColumnExample() returns (count: nat, single: bool, multi: bool)
    ensures count == 2 && !single && multi
  {
    var layout := new LayoutInfo(600.0, 800.0);
    var left := new Column(0, BoundingBox(0.0, 0.0, 280.0, 800.0));
    layout.AddColumn(left);
    var right := new Column(1, BoundingBox(320.0, 0.0, 280.0, 800.0));
    layout.AddColumn(right);
    count := layout.ColumnCount();
    single := layout.IsSingleColumn();
    multi := layout.IsMultiColumn();
  }

  /** Setting the reading order 0, 1, 3, 2, 4 gives back exactly that order. */
  method ReadingOrderExample() returns (order: seq<nat>)
    ensures order == [0, 1, 3, 2, 4]
  {
    var layout := new LayoutInfo(600.0, 800.0);
    layout.SetReadingOrder([0, 1, 3, 2, 4]);
    order := layout.readingOrder;
  }

  /** Blocks 0, 1 and 2 added to a column are held in that order. */
  method ColumnTextBlocksExample() returns (count: nat, indices: seq<nat>)
    ensures count == 3 && indices == [0, 1, 2]
  {
    var col := new Column(0, BoundingBox(0.0, 0.0, 300.0, 800.0));
    col.AddTextBlock(0);
    col.AddTextBlock(1);
    col.AddTextBlock(2);
    count := col.TextBlockCount();
    indices := col.textBlockIndices;
  }

  /** A new column given the sidebar type has that type and still no text blocks. */
  method ColumnTypeExample() returns (t: ColumnType, count: nat)
    ensures t == Sidebar && count == 0
  {
    var col := new Column(0, BoundingBox(0.0, 0.0, 300.0, 800.0));
    col := col.WithType(Sidebar);
    t := col.columnType;
    count := col.TextBlockCount();
  }
}
