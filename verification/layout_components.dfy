/**
 * The responsive layout components: the one-or-two-column decision of the
 * master-detail layout and the partition of a grid's children into rows of
 * a fixed number of columns. Rendered views are not modelled; a child is an
 * opaque value of type T, and a cell records what the grid places where.
 */
module LayoutComponents {
  import opened Wrappers
  import opened LayoutHooks

  /** Gap between grid cells when the caller gives none (dp). */
  const DefaultGridGap: real := 8.0

  // ---------------------------------------------------------------------
  // MasterDetailLayout
  // ---------------------------------------------------------------------

  /** What the master-detail layout renders: the detail content alone, padded,
      or both columns side by side with their widths and paddings. */
  datatype MasterDetailView<T> =
    | DetailOnly(detail: T, padding: real)
    | SideBySide(master: T, masterWidth: real, masterPaddingLeft: real,
                 detail: T, detailWidth: real, detailPaddingRight: real, gap: real)

  /** `MasterDetailLayout`; `showMasterDetail` defaults to true. */
  function MasterDetailLayout<T>(master: T, detail: T, showMasterDetail: Option<bool>, info: LayoutInfo)
    : (view: MasterDetailView<T>)
    ensures view.SideBySide? <==> info.isTablet && showMasterDetail.GetOr(true)
    ensures view.detail == detail
    ensures view.SideBySide? ==> view.master == master
    ensures view.SideBySide? ==>
      && view.masterWidth == info.masterDetailColumnWidth
      && view.detailWidth == info.detailColumnWidth
      && view.masterPaddingLeft == view.detailPaddingRight == view.gap == ResponsivePadding(info)
    ensures view.DetailOnly? ==> view.padding == ResponsivePadding(info)
  {
    var padding := ResponsivePadding(info);
    if !info.isTablet || !showMasterDetail.GetOr(true) then
      DetailOnly(detail, padding)
    else
      SideBySide(master, info.masterDetailColumnWidth, padding,
                 detail, info.detailColumnWidth, padding, padding)
  }

  /** For a window's own layout, the two columns appear exactly on tablets
      (unless switched off), and then fill the screen width between them, the
      master column at most 400 dp and narrower than the detail column. */
  lemma MasterDetailFillsWidth<T>(master: T, detail: T, show: Option<bool>, window: Window, insets: Insets)
    ensures var view := MasterDetailLayout(master, detail, show, Layout(window, insets));
      && (view.SideBySide? <==> window.width >= TabletBreakpoint && show != Some(false))
      && (view.SideBySide? ==>
            && view.masterWidth + view.detailWidth == window.width
            && view.masterWidth <= MasterColumnMaxWidth
            && view.masterWidth < view.detailWidth)
  {
    var view := MasterDetailLayout(master, detail, show, Layout(window, insets));
    if view.SideBySide? {
      MasterDetailWidths(window, insets);
    }
  }

  // ---------------------------------------------------------------------
  // GridLayout
  // ---------------------------------------------------------------------

  /** A grid cell: a child, keyed by its index, with its right margin, or an
      empty spacer that fills out the last row, keyed by its position. */
  datatype Cell<T> =
    | Child(key: nat, content: T, marginRight: real)
    | Spacer(key: nat)

  /** `columnCount || getGridColumns()`: an absent or zero column count falls
      back to the device's grid columns. */
  function EffectiveColumns(columnCount: Option<int>, info: LayoutInfo): (columns: int)
    ensures columnCount.Some? && columnCount.value != 0 ==> columns == columnCount.value
    ensures (columnCount == None || columnCount == Some(0)) ==> columns == GridColumns(info)
    ensures columns != 0
    ensures columnCount.None? || columnCount.value >= 0 ==> columns >= 1
  {
    if columnCount.Some? && columnCount.value != 0 then columnCount.value else GridColumns(info)
  }

  /** `Math.ceil(n / columns)` as a loop bound: for a positive column count the
      ceiling of the quotient; for a negative one the source's ceiling is at
      most 0, so no row is built. */
  function RowCount(n: nat, columns: int): (rows: nat)
    ensures columns <= 0 || n == 0 ==> rows == 0
    ensures columns > 0 && n > 0 ==> 1 <= rows <= n
  {
    if columns > 0 then
      CeilingBounds(n, columns);
      (n + columns - 1) / columns
    else 0
  }

  /** For n > 0 children, the ceiling of n / columns lies between 1 and n. */
  lemma CeilingBounds(n: nat, columns: int)
    requires columns > 0
    ensures n > 0 ==> 1 <= (n + columns - 1) / columns <= n
  {
    var q, m := (n + columns - 1) / columns, (n + columns - 1) % columns;
    assert q * columns + m == n + columns - 1 && 0 <= m < columns;
    if n > 0 && q > n {
      MulMonotone(n + 1, q, columns);
      MulMonotone(1, columns, n);
      assert false;
    }
  }

  /** The cell the grid places at flat position `index`, in column `col`. */
  function CellAt<T>(children: seq<T>, columns: int, gap: real, index: nat, col: int): Cell<T> {
    if index < |children| then
      Child(index, children[index], if col < columns - 1 then gap else 0.0)
    else
      Spacer(index)
  }

  /** Row `row` of the grid: `columns` cells. */
  function GridRow<T>(children: seq<T>, columns: nat, gap: real, row: nat): seq<Cell<T>> {
    seq(columns, col requires 0 <= col < columns => CellAt(children, columns, gap, row * columns + col, col))
  }

  /** The rows the grid builds, as a specification of the nested loops. */
  function GridRows<T>(children: seq<T>, columns: int, gap: real): (grid: seq<seq<Cell<T>>>)
    ensures |grid| == RowCount(|children|, columns)
    ensures forall r :: 0 <= r < |grid| ==> |grid[r]| == columns
  {
    if columns <= 0 then []
    else seq(RowCount(|children|, columns), row requires 0 <= row => GridRow(children, columns, gap, row))
  }

  /** What `GridLayout` renders: its padding, its gap and its rows of cells. */
  datatype GridView<T> = GridView(paddingHorizontal: real, gap: real, rows: seq<seq<Cell<T>>>)

  /** `GridLayout`: chop the children into rows of `columns` cells, padding the
      last row with spacers. */
  method GridLayout<T>(children: seq<T>, columnCount: Option<int>, gap: Option<real>, info: LayoutInfo)
    returns (view: GridView<T>)
    ensures view.rows == GridRows(children, EffectiveColumns(columnCount, info), gap.GetOr(DefaultGridGap))
    ensures view.paddingHorizontal == ResponsivePadding(info)
    ensures view.gap == gap.GetOr(DefaultGridGap)
  {
    var g := gap.GetOr(DefaultGridGap);
    var columns := EffectiveColumns(columnCount, info);
    var padding := ResponsivePadding(info);
    var rows := RowCount(|children|, columns);
    var cells: seq<seq<Cell<T>>> := [];
    var row := 0;
    while row < rows
      invariant 0 <= row <= rows
      invariant rows > 0 ==> columns > 0
      invariant |cells| == row
      invariant forall r :: 0 <= r < row ==> cells[r] == GridRow(children, columns, g, r)
    {
      var rowCells: seq<Cell<T>> := [];
      var col := 0;
      while col < columns
        invariant 0 <= col <= columns
        invariant |rowCells| == col
        invariant forall k :: 0 <= k < col ==> rowCells[k] == CellAt(children, columns, g, row * columns + k, k)
      {
        var index := row * columns + col;
        if index < |children| {
          rowCells := rowCells + [Child(index, children[index], if col < columns - 1 then g else 0.0)];
        } else {
          rowCells := rowCells + [Spacer(index)];
        }
        col := col + 1;
      }
      cells := cells + [rowCells];
      row := row + 1;
    }
    view := GridView(padding, g, cells);
  }

  // ---------------------------------------------------------------------
  // Properties of the grid partition
  // ---------------------------------------------------------------------

  /** The cells of all rows, row after row. */
  function Flatten<T>(rows: seq<seq<Cell<T>>>): seq<Cell<T>> {
    if rows == [] then [] else rows[0] + Flatten(rows[1..])
  }

  /** The children a sequence of cells shows, in order, spacers dropped. */
  function ChildrenOf<T>(cells: seq<Cell<T>>): seq<T> {
    if cells == [] then []
    else (if cells[0].Child? then [cells[0].content] else []) + ChildrenOf(cells[1..])
  }

  /** The column count the grid uses is the caller's when it is non-zero, the
      device's otherwise, so it is at least one unless the caller passes a
      negative count. */
  lemma EffectiveColumnsForWindow(columnCount: Option<int>, window: Window, insets: Insets)
    ensures var c := EffectiveColumns(columnCount, Layout(window, insets));
      && (columnCount.None? || columnCount.value >= 0 ==> 1 <= c)
      && (columnCount.None? || columnCount.value == 0 ==> c <= 3)
  {
  }

  /** The number of rows is the ceiling of children over columns: enough rows
      for every child, and no row beyond the one holding the last child. */
  lemma {:induction false} RowCountIsCeiling(n: nat, columns: int)
    requires columns > 0
    ensures RowCount(n, columns) * columns >= n
    ensures n > 0 ==> (RowCount(n, columns) - 1) * columns < n
    ensures n == 0 <==> RowCount(n, columns) == 0
    ensures RowCount(n, columns) * columns - n < columns
  {
    var q, m := (n + columns - 1) / columns, (n + columns - 1) % columns;
    assert n + columns - 1 == q * columns + m;
    assert 0 <= m < columns;
    assert q * columns == n + columns - 1 - m;
    assert (q - 1) * columns == q * columns - columns;
  }

  /** Every row holds exactly `columns` cells, and the rows hold rows × columns cells in all. */
  lemma {:induction false} GridShape<T>(children: seq<T>, columns: int, gap: real)
    requires columns > 0
    ensures var grid := GridRows(children, columns, gap);
      && |grid| == RowCount(|children|, columns)
      && (forall r :: 0 <= r < |grid| ==> |grid[r]| == columns)
      && |Flatten(grid)| == |grid| * columns
  {
    FlattenLength(GridRows(children, columns, gap), columns);
  }

  /** Rows of equal width `width` flatten to |rows| × width cells. */
  lemma {:induction false} FlattenLength<T>(rows: seq<seq<Cell<T>>>, width: nat)
    requires forall r :: 0 <= r < |rows| ==> |rows[r]| == width
    ensures |Flatten(rows)| == |rows| * width
  {
    if rows != [] {
      FlattenLength(rows[1..], width);
      assert |rows| * width == width + (|rows| - 1) * width;
    }
  }

  /** Flattening rows of equal width `width` puts cell (r, k) at position r × width + k. */
  lemma {:induction false} FlattenAt<T>(rows: seq<seq<Cell<T>>>, width: nat, r: nat, k: nat)
    requires forall i :: 0 <= i < |rows| ==> |rows[i]| == width
    requires r < |rows| && k < width
    ensures r * width + k < |Flatten(rows)|
    ensures Flatten(rows)[r * width + k] == rows[r][k]
  {
    if r == 0 {
      FlattenLength(rows, width);
    } else {
      FlattenAt(rows[1..], width, r - 1, k);
      assert r * width + k == width + ((r - 1) * width + k);
    }
  }

  /** Cell (row, col) holds child row × columns + col when that index is a
      child's, with right margin `gap` except in the last column, and a spacer
      otherwise. */
  lemma GridCellPlacement<T>(children: seq<T>, columns: int, gap: real, row: nat, col: nat)
    requires columns > 0
    requires row < RowCount(|children|, columns) && col < columns
    ensures var cell := GridRows(children, columns, gap)[row][col];
      var index := row * columns + col;
      && cell.key == index
      && (cell.Child? <==> index < |children|)
      && (cell.Child? ==> cell.content == children[index])
      && (cell.Child? ==> cell.marginRight == if col == columns - 1 then 0.0 else gap)
  {
    var index := row * columns + col;
    assert 0 <= row * columns;
    assert GridRows(children, columns, gap)[row] == GridRow(children, columns, gap, row);
    assert GridRow(children, columns, gap, row)[col] == CellAt(children, columns, gap, index, col);
  }

  /** a <= b implies a × c <= b × c for a non-negative c. */
  lemma MulMonotone(a: int, b: int, c: nat)
    requires a <= b
    ensures a * c <= b * c
  {
    assert b * c - a * c == (b - a) * c;
  }

  /** A position p before rows × columns splits into row p / columns < rows
      and column p mod columns. */
  lemma PositionSplit(p: nat, columns: int, rows: nat)
    requires columns > 0 && p < rows * columns
    ensures p == (p / columns) * columns + p % columns
    ensures 0 <= p % columns < columns && p / columns < rows
  {
    if p / columns >= rows {
      MulMonotone(rows, p / columns, columns);
    }
  }

  /** Position p of the flattened grid holds the cell for index p, in column p mod columns. */
  lemma FlattenedGridAt<T>(children: seq<T>, columns: int, gap: real, p: nat)
    requires columns > 0
    requires p < |Flatten(GridRows(children, columns, gap))|
    ensures Flatten(GridRows(children, columns, gap))[p] == CellAt(children, columns, gap, p, p % columns)
  {
    var grid := GridRows(children, columns, gap);
    GridShape(children, columns, gap);
    PositionSplit(p, columns, |grid|);
    var r, k := p / columns, p % columns;
    FlattenAt(grid, columns, r, k);
    assert Flatten(grid)[p] == grid[r][k];
    assert grid[r] == GridRow(children, columns, gap, r);
    assert grid[r][k] == CellAt(children, columns, gap, p, k);
  }

  /** Flattening the grid gives each child at its own index, and a spacer at
      every position past the last child. */
  lemma {:induction false} FlattenedGrid<T>(children: seq<T>, columns: int, gap: real)
    requires columns > 0
    ensures var flat := Flatten(GridRows(children, columns, gap));
      && |flat| >= |children|
      && (forall p :: 0 <= p < |flat| ==> flat[p].key == p)
      && (forall p :: 0 <= p < |flat| ==> (flat[p].Child? <==> p < |children|))
      && (forall p :: 0 <= p < |children| ==> flat[p].Child? && flat[p].content == children[p])
  {
    var flat := Flatten(GridRows(children, columns, gap));
    GridShape(children, columns, gap);
    RowCountIsCeiling(|children|, columns);
    forall p | 0 <= p < |flat|
      ensures flat[p] == CellAt(children, columns, gap, p, p % columns)
    {
      FlattenedGridAt(children, columns, gap, p);
    }
  }

  /** A sequence of cells that shows `xs[p]` at each position p < m and a
      spacer at every later position shows exactly the first m of `xs`. */
  lemma {:induction false} ChildrenOfPrefix<T>(cells: seq<Cell<T>>, xs: seq<T>, m: nat)
    requires m <= |cells| && m <= |xs|
    requires forall p :: 0 <= p < |cells| ==> (cells[p].Child? <==> p < m)
    requires forall p :: 0 <= p < m ==> cells[p].content == xs[p]
    ensures ChildrenOf(cells) == xs[..m]
  {
    if cells == [] {
    } else if m == 0 {
      ChildrenOfPrefix(cells[1..], xs, 0);
    } else {
      ChildrenOfPrefix(cells[1..], xs[1..], m - 1);
      assert xs[..m] == [xs[0]] + xs[1..][..m - 1];
    }
  }

  /** Dropping the spacers from the flattened grid gives back the children,
      in their original order, each exactly once. */
  lemma GridPreservesChildren<T>(children: seq<T>, columns: int, gap: real)
    requires columns > 0
    ensures ChildrenOf(Flatten(GridRows(children, columns, gap))) == children
  {
    var flat := Flatten(GridRows(children, columns, gap));
    FlattenedGrid(children, columns, gap);
    ChildrenOfPrefix(flat, children, |children|);
    assert children[..|children|] == children;
  }

  /** A flat index r × columns + k before the row above the last lies before
      the last row's first index. */
  lemma BeforeLastRow(r: nat, k: nat, columns: int, rows: nat)
    requires columns > 0 && k < columns && r < rows - 1
    ensures r * columns + k < (rows - 1) * columns
  {
    MulMonotone(r + 1, rows - 1, columns);
  }

  /** A spacer at (r, k) lies in the last row. */
  lemma SpacerInLastRow<T>(children: seq<T>, columns: int, gap: real, r: nat, k: nat)
    requires columns > 0
    requires r < RowCount(|children|, columns) && k < columns
    requires GridRows(children, columns, gap)[r][k].Spacer?
    ensures r == RowCount(|children|, columns) - 1
  {
    var rows := RowCount(|children|, columns);
    GridCellPlacement(children, columns, gap, r, k);
    RowCountIsCeiling(|children|, columns);
    if r < rows - 1 {
      BeforeLastRow(r, k, columns, rows);
      assert false;
    }
  }

  /** Spacers fill out only the last row, and there are fewer of them than columns. */
  lemma SpacersOnlyInLastRow<T>(children: seq<T>, columns: int, gap: real)
    requires columns > 0
    ensures var grid := GridRows(children, columns, gap);
      && (forall r, k :: 0 <= r < |grid| && 0 <= k < |grid[r]| && grid[r][k].Spacer? ==> r == |grid| - 1)
      && |Flatten(grid)| - |children| < columns
  {
    var grid: seq<seq<Cell<T>>> := GridRows(children, columns, gap);
    GridShape(children, columns, gap);
    RowCountIsCeiling(|children|, columns);
    forall r, k | 0 <= r < |grid| && 0 <= k < |grid[r]| && grid[r][k].Spacer?
      ensures r == |grid| - 1
    {
      SpacerInLastRow(children, columns, gap, r, k);
    }
  }

  /** No children, no rows; and a negative column count builds no rows at all,
      so none of the children is shown. */
  lemma EmptyGrids<T>(children: seq<T>, columns: int, gap: real)
    ensures children == [] ==> GridRows(children, columns, gap) == []
    ensures columns < 0 ==> GridRows(children, columns, gap) == []
  {
  }
}
