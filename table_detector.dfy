/**
 * The grid-based table detector of the PDF backend. Text blocks are grouped into rows of
 * vertically aligned blocks, the rows ordered top to bottom and the blocks of each row left
 * to right; when the rows look like a grid, they become a table with one cell per block.
 *
 * The alignment test compares two `f64` coordinates against the detector's tolerance; it is
 * a parameter `near` here, so every property holds for any such test. Coordinates are reals.
 */
module TableDetector {
  import opened Wrappers
  import opened Text
  import opened PdfTypes
  import opened PdfTable

  /** The part of a page's text block the detector reads: its text and its box. */
  datatype TextBlock = TextBlock(text: string, bbox: BoundingBox)

  /** `near(y, y0, tolerance)`: the test `(y - y0).abs() < tolerance`. */
  type Near = (real, real, real) -> bool

  // ---------------------------------------------------------------------------------------
  // Stable sorting by a key (`slice::sort_by` with `partial_cmp`)
  // ---------------------------------------------------------------------------------------

  predicate SortedBy<T>(xs: seq<T>, key: T -> real)
  {
    forall i, j | 0 <= i < j < |xs| :: key(xs[i]) <= key(xs[j])
  }

  /** `x` placed before the first element whose key is not smaller than its own. */
  function Insert<T>(x: T, ys: seq<T>, key: T -> real): (r: seq<T>)
    ensures |r| == |ys| + 1
  {
    if ys == [] then [x]
    else if key(x) <= key(ys[0]) then [x] + ys
    else [ys[0]] + Insert(x, ys[1..], key)
  }

  /** Insertion sort; an element goes in front of later elements with an equal key. */
  function SortByKey<T>(xs: seq<T>, key: T -> real): (r: seq<T>)
    ensures |r| == |xs|
  {
    if xs == [] then [] else Insert(xs[0], SortByKey(xs[1..], key), key)
  }

  /** The elements whose key is `k`, in their order. */
  function WithKey<T>(xs: seq<T>, key: T -> real, k: real): seq<T>
  {
    if xs == [] then [] else (if key(xs[0]) == k then [xs[0]] else []) + WithKey(xs[1..], key, k)
  }

  lemma {:induction false} InsertPermutes<T>(x: T, ys: seq<T>, key: T -> real)
    ensures multiset(Insert(x, ys, key)) == multiset(ys) + multiset{x}
  {
    if ys != [] && key(x) > key(ys[0]) {
      InsertPermutes(x, ys[1..], key);
      assert ys == [ys[0]] + ys[1..];
    }
  }

  /** An element no larger than everything in a sorted sequence can go in front of it. */
  lemma ConsSorted<T>(h: T, t: seq<T>, key: T -> real)
    requires SortedBy(t, key)
    requires forall j | 0 <= j < |t| :: key(h) <= key(t[j])
    ensures SortedBy([h] + t, key)
  {
    var r := [h] + t;
    forall i, j | 0 <= i < j < |r|
      ensures key(r[i]) <= key(r[j])
    {
      assert r[j] == t[j - 1];
      if i > 0 {
        assert r[i] == t[i - 1];
      }
    }
  }

  lemma {:induction false} InsertSorted<T>(x: T, ys: seq<T>, key: T -> real)
    requires SortedBy(ys, key)
    ensures SortedBy(Insert(x, ys, key), key)
  {
    if ys == [] {
    } else if key(x) <= key(ys[0]) {
      ConsSorted(x, ys, key);
    } else {
      var tail := Insert(x, ys[1..], key);
      InsertSorted(x, ys[1..], key);
      InsertPermutes(x, ys[1..], key);
      forall j | 0 <= j < |tail|
        ensures key(ys[0]) <= key(tail[j])
      {
        assert tail[j] in multiset(ys[1..]) + multiset{x};
        if tail[j] != x {
          assert tail[j] in ys[1..];
        }
      }
      ConsSorted(ys[0], tail, key);
    }
  }

  /** Inserting `x` leaves the order of every other key class alone. */
  lemma {:induction false} InsertStable<T>(x: T, ys: seq<T>, key: T -> real, k: real)
    ensures WithKey(Insert(x, ys, key), key, k) == (if key(x) == k then [x] else []) + WithKey(ys, key, k)
  {
    var mine := if key(x) == k then [x] else [];
    if ys == [] {
      assert [x][1..] == [];
    } else if key(x) <= key(ys[0]) {
      assert ([x] + ys)[1..] == ys;
    } else {
      var tail := Insert(x, ys[1..], key);
      var head := if key(ys[0]) == k then [ys[0]] else [];
      assert ([ys[0]] + tail)[1..] == tail;
      assert WithKey(Insert(x, ys, key), key, k) == head + WithKey(tail, key, k);
      InsertStable(x, ys[1..], key, k);
      assert WithKey(ys, key, k) == head + WithKey(ys[1..], key, k);
      assert head == [] || mine == [];
      if head == [] {
        assert head + (mine + WithKey(ys[1..], key, k)) == mine + (head + WithKey(ys[1..], key, k));
      } else {
        assert head + (mine + WithKey(ys[1..], key, k)) == mine + (head + WithKey(ys[1..], key, k));
      }
    }
  }

  /** The sorted sequence is ordered by the key ... */
  lemma {:induction false} SortByKeySorted<T>(xs: seq<T>, key: T -> real)
    ensures SortedBy(SortByKey(xs, key), key)
  {
    if xs != [] {
      SortByKeySorted(xs[1..], key);
      InsertSorted(xs[0], SortByKey(xs[1..], key), key);
    }
  }

  /** ... is a permutation of the input ... */
  lemma {:induction false} SortByKeyPermutes<T>(xs: seq<T>, key: T -> real)
    ensures multiset(SortByKey(xs, key)) == multiset(xs)
  {
    if xs != [] {
      SortByKeyPermutes(xs[1..], key);
      InsertPermutes(xs[0], SortByKey(xs[1..], key), key);
      assert xs == [xs[0]] + xs[1..];
    }
  }

  /** ... and keeps elements with equal keys in their input order: the sort is stable. */
  lemma {:induction false} SortByKeyStable<T>(xs: seq<T>, key: T -> real, k: real)
    ensures WithKey(SortByKey(xs, key), key, k) == WithKey(xs, key, k)
  {
    if xs != [] {
      SortByKeyStable(xs[1..], key, k);
      InsertStable(xs[0], SortByKey(xs[1..], key), key, k);
    }
  }

  /** Sorting groups keeps the multiset of their members. */
  lemma {:induction false} FlattenInsert<U>(x: seq<U>, ys: seq<seq<U>>, key: seq<U> -> real)
    ensures multiset(Flatten(Insert(x, ys, key))) == multiset(x) + multiset(Flatten(ys))
  {
    if ys == [] {
      assert Flatten([x]) == x + Flatten([x][1..]);
    } else if key(x) <= key(ys[0]) {
      assert ([x] + ys)[1..] == ys;
    } else {
      var tail := Insert(x, ys[1..], key);
      assert ([ys[0]] + tail)[1..] == tail;
      FlattenInsert(x, ys[1..], key);
    }
  }

  lemma {:induction false} FlattenSortByKey<U>(gs: seq<seq<U>>, key: seq<U> -> real)
    ensures multiset(Flatten(SortByKey(gs, key))) == multiset(Flatten(gs))
  {
    if gs != [] {
      FlattenSortByKey(gs[1..], key);
      FlattenInsert(gs[0], SortByKey(gs[1..], key), key);
    }
  }

  /** Each group sorted on its own. */
  function SortWithin<U>(gs: seq<seq<U>>, key: U -> real): (r: seq<seq<U>>)
    ensures |r| == |gs|
  {
    seq(|gs|, i requires 0 <= i < |gs| => SortByKey(gs[i], key))
  }

  lemma {:induction false} FlattenSortWithin<U>(gs: seq<seq<U>>, key: U -> real)
    ensures multiset(Flatten(SortWithin(gs, key))) == multiset(Flatten(gs))
  {
    if gs != [] {
      var s := SortWithin(gs, key);
      assert s[1..] == SortWithin(gs[1..], key);
      FlattenSortWithin(gs[1..], key);
      SortByKeyPermutes(gs[0], key);
    }
  }

  // ---------------------------------------------------------------------------------------
  // Row groups of block indices
  // ---------------------------------------------------------------------------------------

  /** Every index in the groups names one of `n` blocks. */
  predicate IndicesBelow(gs: seq<seq<nat>>, n: nat)
  {
    forall i, j | 0 <= i < |gs| && 0 <= j < |gs[i]| :: gs[i][j] < n
  }

  predicate NonEmptyGroups<T>(gs: seq<seq<T>>)
  {
    forall i | 0 <= i < |gs| :: gs[i] != []
  }

  lemma {:induction false} FlattenBelow(gs: seq<seq<nat>>, n: nat)
    requires IndicesBelow(gs, n)
    ensures forall x | x in Flatten<nat>(gs) :: x < n
    ensures forall k | 0 <= k < |Flatten<nat>(gs)| :: Flatten<nat>(gs)[k] < n
  {
    if gs != [] {
      FlattenBelow(gs[1..], n);
      assert IndicesBelow(gs[1..], n);
    }
  }

  /** Sorting brings in nothing new. */
  lemma SortByKeyMembers<T>(xs: seq<T>, key: T -> real)
    ensures forall y | y in SortByKey(xs, key) :: y in xs
  {
    SortByKeyPermutes(xs, key);
    forall y | y in SortByKey(xs, key)
      ensures y in xs
    {
      assert y in multiset(SortByKey(xs, key));
    }
  }

  /** Sorting the groups keeps them in range and non-empty ... */
  lemma SortedGroupsBelow(gs: seq<seq<nat>>, n: nat, key: seq<nat> -> real)
    requires IndicesBelow(gs, n)
    ensures IndicesBelow(SortByKey(gs, key), n)
    ensures NonEmptyGroups(gs) ==> NonEmptyGroups(SortByKey(gs, key))
  {
    var s := SortByKey(gs, key);
    SortByKeyMembers(gs, key);
    forall i | 0 <= i < |s|
      ensures exists h | 0 <= h < |gs| :: gs[h] == s[i]
    {
      assert s[i] in gs;
    }
  }

  /** ... and so does sorting within each group. */
  lemma WithinGroupsBelow(gs: seq<seq<nat>>, n: nat, key: nat -> real)
    requires IndicesBelow(gs, n)
    ensures IndicesBelow(SortWithin(gs, key), n)
    ensures NonEmptyGroups(gs) ==> NonEmptyGroups(SortWithin(gs, key))
  {
    var s := SortWithin(gs, key);
    forall i, j | 0 <= i < |s| && 0 <= j < |s[i]|
      ensures s[i][j] < n
    {
      SortByKeyMembers(gs[i], key);
      assert s[i][j] in gs[i];
    }
  }

  /** The indices 0 .. n-1 in order. */
  function Indices(n: nat): (r: seq<nat>)
    ensures |r| == n
  {
    if n == 0 then [] else Indices(n - 1) + [n - 1]
  }

  lemma {:induction false} IndicesOnce(n: nat)
    ensures forall i: nat :: multiset(Indices(n))[i] == if i < n then 1 else 0
  {
    if n > 0 {
      var last: nat := n - 1;
      IndicesOnce(last);
      assert multiset(Indices(n)) == multiset(Indices(last)) + multiset{last};
    }
  }

  /** The y of a row's first block, the key the rows are sorted by. */
  function RowY(blocks: seq<TextBlock>, g: seq<nat>): real
  {
    if g != [] && g[0] < |blocks| then blocks[g[0]].bbox.y else 0.0
  }

  /** The x of a block, the key each row is sorted by. */
  function BlockX(blocks: seq<TextBlock>, i: nat): real
  {
    if i < |blocks| then blocks[i].bbox.x else 0.0
  }

  function RowKey(blocks: seq<TextBlock>): seq<nat> -> real
  {
    g => RowY(blocks, g)
  }

  function ColumnKey(blocks: seq<TextBlock>): nat -> real
  {
    (i: nat) => BlockX(blocks, i)
  }

  /** The mapping `BoundingBox::new` builds the table's box from its extreme coordinates. */
  function BoxOf(minX: real, minY: real, maxX: real, maxY: real): (b: BoundingBox)
    ensures b.x == minX && b.y == minY && b.x + b.width == maxX && b.y + b.height == maxY
  {
    BoundingBox(minX, minY, maxX - minX, maxY - minY)
  }

  /** Appending to one group adds that member to the grouped multiset. */
  lemma {:induction false} FlattenUpdate<T>(gs: seq<seq<T>>, k: nat, x: T)
    requires k < |gs|
    ensures multiset(Flatten(gs[k := gs[k] + [x]])) == multiset(Flatten(gs)) + multiset{x}
  {
    var u := gs[k := gs[k] + [x]];
    if k == 0 {
      assert u[1..] == gs[1..];
    } else {
      assert u[1..] == gs[1..][k - 1 := gs[k] + [x]];
      FlattenUpdate(gs[1..], k - 1, x);
    }
  }

  /** `iter().map(len).max().unwrap_or(0)`: the longest group's length, 0 for no groups. */
  function MaxLen<T>(gs: seq<seq<T>>): (m: nat)
    ensures forall i | 0 <= i < |gs| :: |gs[i]| <= m
    ensures gs == [] ==> m == 0
    ensures gs != [] ==> exists i | 0 <= i < |gs| :: |gs[i]| == m
  {
    if gs == [] then 0
    else
      var rest := MaxLen(gs[1..]);
      assert forall i | 1 <= i < |gs| :: gs[i] == gs[1..][i - 1];
      if |gs[0]| >= rest then |gs[0]| else rest
  }

  /** `min_by(partial_cmp).unwrap_or(0.0)`. */
  function MinOr(xs: seq<real>): (m: real)
    ensures xs == [] ==> m == 0.0
    ensures xs != [] ==> m in xs && forall i | 0 <= i < |xs| :: m <= xs[i]
  {
    if xs == [] then 0.0
    else if |xs| == 1 then xs[0]
    else
      var rest := MinOr(xs[1..]);
      assert forall i | 1 <= i < |xs| :: xs[i] == xs[1..][i - 1];
      if xs[0] <= rest then xs[0] else rest
  }

  /** `max_by(partial_cmp).unwrap_or(0.0)`. */
  function MaxOr(xs: seq<real>): (m: real)
    ensures xs == [] ==> m == 0.0
    ensures xs != [] ==> m in xs && forall i | 0 <= i < |xs| :: xs[i] <= m
  {
    if xs == [] then 0.0
    else if |xs| == 1 then xs[0]
    else
      var rest := MaxOr(xs[1..]);
      assert forall i | 1 <= i < |xs| :: xs[i] == xs[1..][i - 1];
      if xs[0] >= rest then xs[0] else rest
  }

  function Left(b: BoundingBox): real { b.x }
  function Top(b: BoundingBox): real { b.y }
  function Right(b: BoundingBox): real { b.x + b.width }
  function Bottom(b: BoundingBox): real { b.y + b.height }

  /** One coordinate of each listed block. */
  function Coords(blocks: seq<TextBlock>, idx: seq<nat>, f: BoundingBox -> real): (cs: seq<real>)
    requires forall k | 0 <= k < |idx| :: idx[k] < |blocks|
    ensures |cs| == |idx|
  {
    seq(|idx|, k requires 0 <= k < |idx| => f(blocks[idx[k]].bbox))
  }

  /** The box around every grouped block, 0.0 on each side when nothing is grouped. */
  function TableBox(rowGroups: seq<seq<nat>>, blocks: seq<TextBlock>): BoundingBox
    requires IndicesBelow(rowGroups, |blocks|)
  {
    var idx: seq<nat> := Flatten<nat>(rowGroups);
    FlattenBelow(rowGroups, |blocks|);
    BoxOf(MinOr(Coords(blocks, idx, Left)), MinOr(Coords(blocks, idx, Top)),
          MaxOr(Coords(blocks, idx, Right)), MaxOr(Coords(blocks, idx, Bottom)))
  }

  /** The table's box contains the box of every grouped block. */
  lemma TableBoxCovers(rowGroups: seq<seq<nat>>, blocks: seq<TextBlock>, i: nat, j: nat)
    requires IndicesBelow(rowGroups, |blocks|)
    requires i < |rowGroups| && j < |rowGroups[i]|
    ensures var t, b := TableBox(rowGroups, blocks), blocks[rowGroups[i][j]].bbox;
      t.x <= b.x && b.x + b.width <= t.x + t.width && t.y <= b.y && b.y + b.height <= t.y + t.height
  {
    var idx: seq<nat> := Flatten<nat>(rowGroups);
    FlattenBelow(rowGroups, |blocks|);
    FlattenHas<nat>(rowGroups, i, j);
    var k :| 0 <= k < |idx| && idx[k] == rowGroups[i][j];
    var b := blocks[idx[k]].bbox;
    assert Coords(blocks, idx, Left)[k] == Left(b);
    assert Coords(blocks, idx, Top)[k] == Top(b);
    assert Coords(blocks, idx, Right)[k] == Right(b);
    assert Coords(blocks, idx, Bottom)[k] == Bottom(b);
  }

  /** The cell `build_table` makes for the block at column `col` of row `row`. */
  function MakeCell(row: nat, col: nat, b: TextBlock): (c: TableCell)
    ensures c.row == row && c.col == col && c.content == b.text && c.bbox == b.bbox
    ensures c.rowspan == 1 && c.colspan == 1 && (c.isHeader <==> row == 0)
  {
    NewTableCell(row, col, b.text, b.bbox).WithHeader(row == 0)
  }

  /** The cells of one row, added left to right. */
  function RowCells(row: nat, g: seq<nat>, blocks: seq<TextBlock>): seq<TableCell>
    requires forall j | 0 <= j < |g| :: g[j] < |blocks|
  {
    if g == [] then [] else RowCells(row, g[..|g| - 1], blocks) + [MakeCell(row, |g| - 1, blocks[g[|g| - 1]])]
  }

  /** The cells of all rows, added top to bottom. */
  function CellsOf(rowGroups: seq<seq<nat>>, blocks: seq<TextBlock>): seq<TableCell>
    requires IndicesBelow(rowGroups, |blocks|)
  {
    if rowGroups == [] then []
    else
      var n := |rowGroups| - 1;
      CellsOf(rowGroups[..n], blocks) + RowCells(n, rowGroups[n], blocks)
  }

  /** Cell `j` of a row is the cell of block `g[j]` at column `j`. */
  lemma {:induction false} RowCellsAre(row: nat, g: seq<nat>, blocks: seq<TextBlock>)
    requires forall j | 0 <= j < |g| :: g[j] < |blocks|
    ensures |RowCells(row, g, blocks)| == |g|
    ensures forall j | 0 <= j < |g| :: RowCells(row, g, blocks)[j] == MakeCell(row, j, blocks[g[j]])
  {
    if g != [] {
      RowCellsAre(row, g[..|g| - 1], blocks);
    }
  }

  /** The rows before `i`, and one more. */
  lemma CellsOfStep(rowGroups: seq<seq<nat>>, blocks: seq<TextBlock>, i: nat)
    requires IndicesBelow(rowGroups, |blocks|) && i < |rowGroups|
    ensures IndicesBelow(rowGroups[..i], |blocks|) && IndicesBelow(rowGroups[..i + 1], |blocks|)
    ensures CellsOf(rowGroups[..i + 1], blocks) == CellsOf(rowGroups[..i], blocks) + RowCells(i, rowGroups[i], blocks)
  {
    assert rowGroups[..i + 1][..i] == rowGroups[..i];
  }

  /** One cell per grouped block. */
  lemma {:induction false} CellsOfCount(rowGroups: seq<seq<nat>>, blocks: seq<TextBlock>)
    requires IndicesBelow(rowGroups, |blocks|)
    ensures |CellsOf(rowGroups, blocks)| == |Flatten<nat>(rowGroups)|
  {
    if rowGroups != [] {
      var n := |rowGroups| - 1;
      var init, last := rowGroups[..n], rowGroups[n];
      assert rowGroups == init + [last];
      assert IndicesBelow(init, |blocks|);
      CellsOfCount(init, blocks);
      RowCellsAre(n, last, blocks);
      FlattenAppend<nat>(init, [last]);
      assert Flatten<nat>([last]) == last + Flatten<nat>([last][1..]);
    }
  }

  /** Every cell is the cell of some grouped block at its (row, column) position ... */
  lemma {:induction false} CellsOfSound(rowGroups: seq<seq<nat>>, blocks: seq<TextBlock>)
    requires IndicesBelow(rowGroups, |blocks|)
    ensures forall c | c in CellsOf(rowGroups, blocks) ::
      exists i, j | 0 <= i < |rowGroups| && 0 <= j < |rowGroups[i]| :: c == MakeCell(i, j, blocks[rowGroups[i][j]])
  {
    if rowGroups != [] {
      var n := |rowGroups| - 1;
      var init, last := rowGroups[..n], rowGroups[n];
      assert IndicesBelow(init, |blocks|);
      CellsOfSound(init, blocks);
      RowCellsAre(n, last, blocks);
      forall c | c in CellsOf(rowGroups, blocks)
        ensures exists i, j | 0 <= i < |rowGroups| && 0 <= j < |rowGroups[i]| :: c == MakeCell(i, j, blocks[rowGroups[i][j]])
      {
        if c in CellsOf(init, blocks) {
          var i, j :| 0 <= i < |init| && 0 <= j < |init[i]| && c == MakeCell(i, j, blocks[init[i][j]]);
          assert rowGroups[i] == init[i];
        } else {
          var j :| 0 <= j < |last| && RowCells(n, last, blocks)[j] == c;
          assert c == MakeCell(n, j, blocks[rowGroups[n][j]]);
        }
      }
    }
  }

  /** ... and every grouped block's cell is there. */
  lemma {:induction false} CellsOfComplete(rowGroups: seq<seq<nat>>, blocks: seq<TextBlock>)
    requires IndicesBelow(rowGroups, |blocks|)
    ensures forall i, j | 0 <= i < |rowGroups| && 0 <= j < |rowGroups[i]| ::
      MakeCell(i, j, blocks[rowGroups[i][j]]) in CellsOf(rowGroups, blocks)
  {
    if rowGroups != [] {
      var n := |rowGroups| - 1;
      var init, last := rowGroups[..n], rowGroups[n];
      assert IndicesBelow(init, |blocks|);
      CellsOfComplete(init, blocks);
      RowCellsAre(n, last, blocks);
      forall i, j | 0 <= i < |rowGroups| && 0 <= j < |rowGroups[i]|
        ensures MakeCell(i, j, blocks[rowGroups[i][j]]) in CellsOf(rowGroups, blocks)
      {
        if i < n {
          assert rowGroups[i] == init[i];
        } else {
          assert RowCells(n, last, blocks)[j] == MakeCell(i, j, blocks[rowGroups[i][j]]);
        }
      }
    }
  }

  /** The inner loop of `build_table`: one cell per block of row `rowIdx`, left to right. */
  method AddRowCells(table: Table, rowIdx: nat, rowGroup: seq<nat>, blocks: seq<TextBlock>)
    requires forall j | 0 <= j < |rowGroup| :: rowGroup[j] < |blocks|
    modifies table
    ensures table.cells == old(table.cells) + RowCells(rowIdx, rowGroup, blocks)
    ensures table.bbox == old(table.bbox) && table.structure == old(table.structure)
    ensures table.headerRows == old(table.headerRows) && table.confidence == old(table.confidence)
  {
    for colIdx := 0 to |rowGroup|
      invariant table.bbox == old(table.bbox) && table.structure == old(table.structure)
      invariant table.headerRows == old(table.headerRows) && table.confidence == old(table.confidence)
      invariant table.cells == old(table.cells) + RowCells(rowIdx, rowGroup[..colIdx], blocks)
    {
      var block := blocks[rowGroup[colIdx]];
      var cell := NewTableCell(rowIdx, colIdx, block.text, block.bbox).WithHeader(rowIdx == 0);
      table.AddCell(cell);
      assert rowGroup[..colIdx + 1][..colIdx] == rowGroup[..colIdx];
    }
    assert rowGroup[..|rowGroup|] == rowGroup;
  }

  /** What `build_table` hands back for the given row groups. */
  ghost predicate Built(t: Table, rowGroups: seq<seq<nat>>, blocks: seq<TextBlock>)
    requires IndicesBelow(rowGroups, |blocks|)
    reads t, t.structure
  {
    && t.structure.rows == |rowGroups| && t.structure.cols == MaxLen(rowGroups)
    && t.structure.mergedCells == []
    && t.bbox == TableBox(rowGroups, blocks)
    && t.headerRows == 1 && t.confidence == None
    && t.cells == CellsOf(rowGroups, blocks)
  }

  /**
   * A built table has one cell per grouped block; each sits at a valid grid position, spans a
   * single row and column, and is a header exactly when it is in the first row.
   */
  lemma BuiltCells(t: Table, rowGroups: seq<seq<nat>>, blocks: seq<TextBlock>)
    requires IndicesBelow(rowGroups, |blocks|)
    requires Built(t, rowGroups, blocks)
    ensures t.CellCount() == |Flatten<nat>(rowGroups)|
    ensures forall c | c in t.cells :: t.structure.IsValidPosition(c.row, c.col)
    ensures forall c | c in t.cells :: c.rowspan == 1 && c.colspan == 1 && (c.isHeader <==> c.row == 0)
  {
    CellsOfCount(rowGroups, blocks);
    CellsOfSound(rowGroups, blocks);
  }

  /** `is_table_grid`'s allowance for merged cells: rows may differ by this many blocks. */
  const MaxVariation: int := 2

  /** The grid detector's settings. */
  datatype GridBasedTableDetector = GridBasedTableDetector(
    minRows: nat, minCols: nat, alignmentTolerance: real, minConfidence: real)
  {
    /** Block `idx` joins group `g` when `g` has a first block and `idx` is near it in y. */
    predicate Joins(blocks: seq<TextBlock>, g: seq<nat>, idx: nat, near: Near)
      requires idx < |blocks| && (g == [] || g[0] < |blocks|)
    {
      g != [] && near(blocks[idx].bbox.y, blocks[g[0]].bbox.y, alignmentTolerance)
    }

    /** The first group from position `from` on that block `idx` joins, if any. */
    function FirstAligned(blocks: seq<TextBlock>, gs: seq<seq<nat>>, idx: nat, near: Near, from: nat): (r: Option<nat>)
      requires idx < |blocks| && IndicesBelow(gs, |blocks|)
      ensures r.Some? ==> from <= r.value < |gs| && Joins(blocks, gs[r.value], idx, near)
      ensures r.Some? ==> forall k | from <= k < r.value :: !Joins(blocks, gs[k], idx, near)
      ensures r.None? ==> forall k | from <= k < |gs| :: !Joins(blocks, gs[k], idx, near)
      decreases |gs| - from
    {
      if from >= |gs| then None
      else if Joins(blocks, gs[from], idx, near) then Some(from)
      else FirstAligned(blocks, gs, idx, near, from + 1)
    }

    /** Block `idx` appended to the first group it joins, or opening a group of its own. */
    function Place(blocks: seq<TextBlock>, gs: seq<seq<nat>>, idx: nat, near: Near): (r: seq<seq<nat>>)
      requires idx < |blocks| && IndicesBelow(gs, |blocks|)
      ensures IndicesBelow(r, |blocks|)
    {
      match FirstAligned(blocks, gs, idx, near, 0)
      case Some(k) => gs[k := gs[k] + [idx]]
      case None => gs + [[idx]]
    }

    /** The row groups after the first `n` blocks have been placed, in block order. */
    function Grouped(blocks: seq<TextBlock>, n: nat, near: Near): (gs: seq<seq<nat>>)
      requires n <= |blocks|
      ensures IndicesBelow(gs, |blocks|)
    {
      if n == 0 then [] else Place(blocks, Grouped(blocks, n - 1, near), n - 1, near)
    }

    /**
     * `find_grid_groups`: nothing for fewer than `minRows * minCols` blocks; otherwise the
     * row groups, sorted by the y of their first block, each sorted by x.
     */
    function GridGroups(blocks: seq<TextBlock>, near: Near): (r: seq<seq<nat>>)
      ensures IndicesBelow(r, |blocks|)
    {
      if |blocks| < minRows * minCols then []
      else
        var rows := SortByKey(Grouped(blocks, |blocks|, near), RowKey(blocks));
        SortedGroupsBelow(Grouped(blocks, |blocks|, near), |blocks|, RowKey(blocks));
        WithinGroupsBelow(rows, |blocks|, ColumnKey(blocks));
        SortWithin(rows, ColumnKey(blocks))
    }

    /** `find_grid_groups`, with its loops: placing each block, then the two sorts. */
    method FindGridGroups(blocks: seq<TextBlock>, near: Near) returns (rowGroups: seq<seq<nat>>)
      ensures rowGroups == GridGroups(blocks, near)
    {
      if |blocks| < minRows * minCols {
        return [];
      }
      rowGroups := [];
      for idx := 0 to |blocks|
        invariant rowGroups == Grouped(blocks, idx, near)
      {
        ghost var before := rowGroups;
        var found := false;
        var j := 0;
        while j < |rowGroups| && !found
          invariant 0 <= j <= |rowGroups| == |before|
          invariant !found ==> rowGroups == before
          invariant !found ==> FirstAligned(blocks, before, idx, near, 0) == FirstAligned(blocks, before, idx, near, j)
          invariant found ==> rowGroups == Place(blocks, before, idx, near)
        {
          if rowGroups[j] != [] {
            var firstIdx := rowGroups[j][0];
            if near(blocks[idx].bbox.y, blocks[firstIdx].bbox.y, alignmentTolerance) {
              rowGroups := rowGroups[j := rowGroups[j] + [idx]];
              found := true;
            }
          }
          j := j + 1;
        }
        if !found {
          rowGroups := rowGroups + [[idx]];
        }
      }
      var rows := SortByKey(rowGroups, RowKey(blocks));
      rowGroups := rows;
      for k := 0 to |rowGroups|
        invariant |rowGroups| == |rows|
        invariant forall i | 0 <= i < k :: rowGroups[i] == SortByKey(rows[i], ColumnKey(blocks))
        invariant forall i | k <= i < |rows| :: rowGroups[i] == rows[i]
      {
        rowGroups := rowGroups[k := SortByKey(rowGroups[k], ColumnKey(blocks))];
      }
      assert rowGroups == SortWithin(rows, ColumnKey(blocks));
    }

    /** Placing a block adds exactly its index to the grouped indices. */
    lemma PlaceAddsIndex(blocks: seq<TextBlock>, gs: seq<seq<nat>>, idx: nat, near: Near)
      requires idx < |blocks| && IndicesBelow(gs, |blocks|)
      ensures multiset(Flatten<nat>(Place(blocks, gs, idx, near))) == multiset(Flatten<nat>(gs)) + multiset{idx}
    {
      match FirstAligned(blocks, gs, idx, near, 0)
      case Some(k) =>
        FlattenUpdate<nat>(gs, k, idx);
      case None =>
        FlattenAppend<nat>(gs, [[idx]]);
        assert Flatten<nat>([[idx]]) == [idx] + Flatten<nat>([[idx]][1..]);
    }

    /** Every later member of a row is near the row's first block. */
    predicate FollowLeaders(blocks: seq<TextBlock>, gs: seq<seq<nat>>, near: Near)
      requires IndicesBelow(gs, |blocks|)
    {
      forall i, j | 0 <= i < |gs| && 0 < j < |gs[i]| ::
        near(blocks[gs[i][j]].bbox.y, blocks[gs[i][0]].bbox.y, alignmentTolerance)
    }

    /** No row's first block is near the first block of an earlier row. */
    predicate LeadersApart(blocks: seq<TextBlock>, gs: seq<seq<nat>>, near: Near)
      requires IndicesBelow(gs, |blocks|) && NonEmptyGroups(gs)
    {
      forall i, j | 0 <= i < j < |gs| ::
        !near(blocks[gs[j][0]].bbox.y, blocks[gs[i][0]].bbox.y, alignmentTolerance)
    }

    lemma PlaceKeepsRows(blocks: seq<TextBlock>, gs: seq<seq<nat>>, idx: nat, near: Near)
      requires idx < |blocks| && IndicesBelow(gs, |blocks|) && NonEmptyGroups(gs)
      requires FollowLeaders(blocks, gs, near) && LeadersApart(blocks, gs, near)
      ensures var r := Place(blocks, gs, idx, near);
        NonEmptyGroups(r) && FollowLeaders(blocks, r, near) && LeadersApart(blocks, r, near)
    {
      var r := Place(blocks, gs, idx, near);
      match FirstAligned(blocks, gs, idx, near, 0)
      case Some(k) =>
        assert forall i | 0 <= i < |r| :: r[i][0] == gs[i][0];
        forall i, j | 0 <= i < |r| && 0 < j < |r[i]|
          ensures near(blocks[r[i][j]].bbox.y, blocks[r[i][0]].bbox.y, alignmentTolerance)
        {
          if i != k || j < |gs[k]| {
            assert r[i][j] == gs[i][j];
          }
        }
      case None =>
        forall i, j | 0 <= i < j < |r|
          ensures !near(blocks[r[j][0]].bbox.y, blocks[r[i][0]].bbox.y, alignmentTolerance)
        {
          if j == |gs| {
            assert !Joins(blocks, gs[i], idx, near);
          }
        }
    }

    /** Grouping the first `n` blocks puts each of the indices 0 .. n-1 in exactly one row. */
    lemma {:induction false} GroupedPartition(blocks: seq<TextBlock>, n: nat, near: Near)
      requires n <= |blocks|
      ensures multiset(Flatten<nat>(Grouped(blocks, n, near))) == multiset(Indices(n))
    {
      if n > 0 {
        var last: nat := n - 1;
        var gs := Grouped(blocks, last, near);
        GroupedPartition(blocks, last, near);
        PlaceAddsIndex(blocks, gs, last, near);
        assert multiset(Indices(n)) == multiset(Indices(last)) + multiset{last} by {
          assert Indices(n) == Indices(last) + [last];
        }
      }
    }

    /**
     * The rows are non-empty; every later member of a row is near its first block, and no
     * row's first block is near an earlier row's first block.
     */
    lemma {:induction false} GroupedRows(blocks: seq<TextBlock>, n: nat, near: Near)
      requires n <= |blocks|
      ensures NonEmptyGroups(Grouped(blocks, n, near))
      ensures FollowLeaders(blocks, Grouped(blocks, n, near), near)
      ensures LeadersApart(blocks, Grouped(blocks, n, near), near)
    {
      if n > 0 {
        GroupedRows(blocks, n - 1, near);
        PlaceKeepsRows(blocks, Grouped(blocks, n - 1, near), n - 1, near);
      }
    }

    /**
     * Above the size guard, the groups `find_grid_groups` returns partition the block indices:
     * every index 0 .. |blocks|-1 is in exactly one group, and no group is empty.
     */
    lemma GridGroupsPartition(blocks: seq<TextBlock>, near: Near)
      requires |blocks| >= minRows * minCols
      ensures NonEmptyGroups(GridGroups(blocks, near))
      ensures forall i: nat :: multiset(Flatten<nat>(GridGroups(blocks, near)))[i] == if i < |blocks| then 1 else 0
    {
      var gs := Grouped(blocks, |blocks|, near);
      var rows := SortByKey(gs, RowKey(blocks));
      GroupedRows(blocks, |blocks|, near);
      SortedGroupsBelow(gs, |blocks|, RowKey(blocks));
      WithinGroupsBelow(rows, |blocks|, ColumnKey(blocks));
      assert multiset(Flatten<nat>(GridGroups(blocks, near))) == multiset(Indices(|blocks|)) by {
        GroupedPartition(blocks, |blocks|, near);
        FlattenSortByKey<nat>(gs, RowKey(blocks));
        FlattenSortWithin<nat>(rows, ColumnKey(blocks));
      }
      IndicesOnce(|blocks|);
    }

    /** Rows are ordered by the y of their first block, and each row by x. */
    lemma GridGroupsOrdered(blocks: seq<TextBlock>, near: Near)
      requires |blocks| >= minRows * minCols
      ensures var rows := SortByKey(Grouped(blocks, |blocks|, near), RowKey(blocks));
        var out := GridGroups(blocks, near);
        && SortedBy(rows, RowKey(blocks)) && |out| == |rows|
        && forall i | 0 <= i < |out| :: multiset(out[i]) == multiset(rows[i]) && SortedBy(out[i], ColumnKey(blocks))
    {
      var rows := SortByKey(Grouped(blocks, |blocks|, near), RowKey(blocks));
      SortByKeySorted(Grouped(blocks, |blocks|, near), RowKey(blocks));
      forall i | 0 <= i < |rows|
        ensures multiset(SortByKey(rows[i], ColumnKey(blocks))) == multiset(rows[i])
        ensures SortedBy(SortByKey(rows[i], ColumnKey(blocks)), ColumnKey(blocks))
      {
        SortByKeyPermutes(rows[i], ColumnKey(blocks));
        SortByKeySorted(rows[i], ColumnKey(blocks));
      }
    }

    /** No groups exactly when the size guard fires or there are no blocks. */
    lemma GridGroupsEmpty(blocks: seq<TextBlock>, near: Near)
      ensures GridGroups(blocks, near) == [] <==> |blocks| < minRows * minCols || blocks == []
    {
      if |blocks| >= minRows * minCols && blocks != [] {
        GroupedPartition(blocks, |blocks|, near);
        assert |Grouped(blocks, |blocks|, near)| > 0 by {
          assert multiset(Indices(|blocks|))[0] == 1 by { IndicesOnce(|blocks|); }
        }
      }
    }

    /** Every row's length is within `MaxVariation` of `first`. */
    predicate LengthsNear(gs: seq<seq<nat>>, first: nat): (b: bool)
      ensures b <==> forall i | 0 <= i < |gs| :: -MaxVariation <= |gs[i]| - first <= MaxVariation
    {
      gs == [] || (-MaxVariation <= |gs[0]| - first <= MaxVariation && LengthsNear(gs[1..], first))
    }

    /**
     * `is_table_grid`: at least `minRows` rows, a first row of at least `minCols` blocks, and
     * every row within two blocks of the first row's length. The Rust code indexes the first
     * row, so it needs a row when `minRows` is 0.
     */
    predicate IsTableGrid(rowGroups: seq<seq<nat>>): (b: bool)
      requires rowGroups != [] || minRows > 0
      ensures b <==> (|rowGroups| >= minRows && |rowGroups[0]| >= minCols
        && forall i | 0 <= i < |rowGroups| :: -MaxVariation <= |rowGroups[i]| - |rowGroups[0]| <= MaxVariation)
    {
      if |rowGroups| < minRows then false
      else
        var firstColCount := |rowGroups[0]|;
        firstColCount >= minCols && LengthsNear(rowGroups, firstColCount)
    }

    /** `build_table`: None unless the groups form a grid; otherwise the table of their cells. */
    method BuildTable(rowGroups: seq<seq<nat>>, blocks: seq<TextBlock>) returns (r: Option<Table>)
      requires rowGroups != [] || minRows > 0
      requires IndicesBelow(rowGroups, |blocks|)
      ensures r.None? <==> !IsTableGrid(rowGroups)
      ensures r.Some? ==> fresh(r.value) && fresh(r.value.structure) && Built(r.value, rowGroups, blocks)
    {
      if !IsTableGrid(rowGroups) {
        return None;
      }
      var rows := |rowGroups|;
      var cols := MaxLen(rowGroups);
      var tableBbox := TableBox(rowGroups, blocks);
      var structure := new TableStructure(rows, cols);
      var table := new Table(tableBbox, structure);
      table := table.WithHeaderRows(1);
      assert rowGroups[..0] == [];
      for rowIdx := 0 to |rowGroups|
        invariant fresh(table) && table.structure == structure
        invariant IndicesBelow(rowGroups[..rowIdx], |blocks|)
        invariant structure.rows == rows && structure.cols == cols && structure.mergedCells == []
        invariant table.bbox == tableBbox && table.headerRows == 1 && table.confidence == None
        invariant table.cells == CellsOf(rowGroups[..rowIdx], blocks)
      {
        AddRowCells(table, rowIdx, rowGroups[rowIdx], blocks);
        CellsOfStep(rowGroups, blocks, rowIdx);
      }
      assert rowGroups[..|rowGroups|] == rowGroups;
      return Some(table);
    }

    /** Whether `detect_tables` finds a table among the blocks. */
    predicate FindsTable(blocks: seq<TextBlock>, near: Near)
    {
      blocks != [] && (GridGroupsEmpty(blocks, near); IsTableGrid(GridGroups(blocks, near)))
    }

    /**
     * `detect_tables`: nothing for no blocks; otherwise the one table built from the grid
     * groups, if they form a grid. The page size is not used.
     */
    method DetectTables(textBlocks: seq<TextBlock>, pageWidth: real, pageHeight: real, near: Near)
      returns (tables: seq<Table>)
      ensures textBlocks == [] ==> tables == []
      ensures |tables| <= 1
      ensures |tables| == 1 <==> FindsTable(textBlocks, near)
      ensures forall t | t in tables :: fresh(t) && fresh(t.structure)
      ensures textBlocks != [] ==> GridGroups(textBlocks, near) != [] || minRows > 0
      ensures forall t | t in tables :: Built(t, GridGroups(textBlocks, near), textBlocks)
    {
      if textBlocks == [] {
        return [];
      }
      tables := [];
      var rowGroups := FindGridGroups(textBlocks, near);
      GridGroupsEmpty(textBlocks, near);
      if |textBlocks| >= minRows * minCols {
        GridGroupsPartition(textBlocks, near);
      }
      var table := BuildTable(rowGroups, textBlocks);
      if table.Some? {
        tables := tables + [table.value];
      }
    }
  }

  /** `GridBasedTableDetector::new`, which is also its `Default`. */
  function NewDetector(): (d: GridBasedTableDetector)
    ensures d.minRows == 2 && d.minCols == 2 && d.alignmentTolerance == 5.0 && d.minConfidence == 0.5
  {
    GridBasedTableDetector(2, 2, 5.0, 0.5)
  }

  /** With the default settings, fewer than four blocks never make a table. */
  lemma DefaultNeedsFourBlocks(blocks: seq<TextBlock>, near: Near)
    requires |blocks| < 4
    ensures NewDetector().GridGroups(blocks, near) == []
    ensures !NewDetector().FindsTable(blocks, near)
  {
  }

  /** `f64::abs(y - y0) < tolerance`, taken exactly. */
  function ExactNear(): Near
  {
    (y: real, y0: real, tol: real) => -tol < y - y0 < tol
  }

  function Block(text: string, x: real, y: real): TextBlock
  {
    TextBlock(text, BoundingBox(x, y, 100.0, 40.0))
  }

  /** The four blocks of the 2 x 2 example. */
  function TwoByTwo(): seq<TextBlock>
  {
    [Block("A", 100.0, 100.0), Block("B", 210.0, 100.0), Block("C", 100.0, 150.0), Block("D", 210.0, 150.0)]
  }

  /** Four blocks in two rows of two, 50 points apart, group into those two rows. */
  lemma TwoByTwoGroups()
    ensures NewDetector().Grouped(TwoByTwo(), 4, ExactNear()) == [[0, 1], [2, 3]]
  {
    var d, near, blocks := NewDetector(), ExactNear(), TwoByTwo();
    assert d.Grouped(blocks, 1, near) == [[0]];
    assert d.FirstAligned(blocks, [[0]], 1, near, 0) == Some(0);
    assert [0] + [1] == [0, 1];
    assert d.Place(blocks, [[0]], 1, near) == [[0, 1]];
    assert d.Grouped(blocks, 2, near) == [[0, 1]];
    assert d.FirstAligned(blocks, [[0, 1]], 2, near, 0) == None;
    assert d.Place(blocks, [[0, 1]], 2, near) == [[0, 1], [2]];
    assert d.Grouped(blocks, 3, near) == [[0, 1], [2]];
    assert !d.Joins(blocks, [0, 1], 3, near);
    assert d.FirstAligned(blocks, [[0, 1], [2]], 3, near, 0) == Some(1);
    assert [2] + [3] == [2, 3];
    assert d.Place(blocks, [[0, 1], [2]], 3, near) == [[0, 1], [2, 3]];
  }

  /** ... which are already in order: top row first, each row left to right ... */
  lemma TwoByTwoSorted()
    ensures SortByKey<seq<nat>>([[0, 1], [2, 3]], RowKey(TwoByTwo())) == [[0, 1], [2, 3]]
    ensures SortWithin<nat>([[0, 1], [2, 3]], ColumnKey(TwoByTwo())) == [[0, 1], [2, 3]]
  {
    var blocks := TwoByTwo();
    var rows: seq<seq<nat>> := [[0, 1], [2, 3]];
    assert SortByKey(rows, RowKey(blocks)) == rows by {
      assert SortByKey(rows[1..], RowKey(blocks)) == [[2, 3]];
    }
    assert SortByKey<nat>(rows[0], ColumnKey(blocks)) == [0, 1] by {
      assert SortByKey<nat>([1], ColumnKey(blocks)) == [1];
    }
    assert SortByKey<nat>(rows[1], ColumnKey(blocks)) == [2, 3] by {
      assert SortByKey<nat>([3], ColumnKey(blocks)) == [3];
    }
  }

  /** ... and form a 2 x 2 grid, so `detect_tables` finds a table of 2 rows and 2 columns. */
  lemma TwoByTwoTable()
    ensures NewDetector().GridGroups(TwoByTwo(), ExactNear()) == [[0, 1], [2, 3]]
    ensures NewDetector().FindsTable(TwoByTwo(), ExactNear())
    ensures MaxLen(NewDetector().GridGroups(TwoByTwo(), ExactNear())) == 2
  {
    TwoByTwoGroups();
    TwoByTwoSorted();
  }
}
