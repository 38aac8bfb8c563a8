/**
 * The part of a spreadsheet sheet that the table helpers of SheetUtils.js
 * read and write: the values of its data range (row 1, the header, first)
 * and its filter. `Sheet` offers the service calls the helpers make:
 * `getLastRow`, `getLastColumn`, `getRange(...).getValues()`,
 * `getRange(...).setValues(...)`, `appendRow`, `getFilter().remove()` and
 * `getRange(...).createFilter()`.
 */
module SheetGrid {
  import opened JsValues

  /**
   * The data range of a sheet: `rows` from row 1 on, every one `width`
   * cells wide; an empty sheet has no rows and no columns. Cells outside the
   * data range read as the empty string.
   */
  datatype Grid = Grid(rows: seq<seq<Value>>, width: nat)

  predicate WellFormed(g: Grid)
  {
    && (g.rows == [] <==> g.width == 0)
    && forall i :: 0 <= i < |g.rows| ==> |g.rows[i]| == g.width
  }

  /** The value of the cell in 0-based row `i` and column `j`. */
  function CellAt(g: Grid, i: int, j: int): Value
  {
    if 0 <= i < |g.rows| && 0 <= j < |g.rows[i]| then g.rows[i][j] else Str("")
  }

  /** Every row of `block` has `w` cells. */
  predicate Rectangular(block: seq<seq<Value>>, w: nat)
  {
    forall i :: 0 <= i < |block| ==> |block[i]| == w
  }

  function Max(a: int, b: int): int
  {
    if a < b then b else a
  }

  /** `block` is inside the `h` by `w` rectangle whose top-left cell is at 0-based `(r0, c0)`. */
  predicate InBlock(r0: nat, c0: nat, h: nat, w: nat, i: int, j: int)
  {
    r0 <= i < r0 + h && c0 <= j < c0 + w
  }

  /**
   * `g` after the rectangle `block` (every row `w` wide) is written with its
   * top-left cell at 0-based `(r0, c0)`: the data range grows to cover it.
   */
  function Overwrite(g: Grid, r0: nat, c0: nat, block: seq<seq<Value>>, w: nat): (r: Grid)
    requires Rectangular(block, w) && block != [] && w > 0
    ensures |r.rows| == Max(|g.rows|, r0 + |block|) && r.width == Max(g.width, c0 + w)
    ensures WellFormed(r)
  {
    var h := Max(|g.rows|, r0 + |block|);
    var width := Max(g.width, c0 + w);
    Grid(seq(h, i requires 0 <= i < h =>
           seq(width, j requires 0 <= j < width =>
             if InBlock(r0, c0, |block|, w, i, j) then block[i - r0][j - c0] else CellAt(g, i, j))),
         width)
  }

  /** After a write, the cells of the block hold the block and every other cell keeps its value. */
  lemma OverwriteCells(g: Grid, r0: nat, c0: nat, block: seq<seq<Value>>, w: nat, i: int, j: int)
    requires WellFormed(g) && Rectangular(block, w) && block != [] && w > 0
    ensures InBlock(r0, c0, |block|, w, i, j) ==> CellAt(Overwrite(g, r0, c0, block, w), i, j) == block[i - r0][j - c0]
    ensures !InBlock(r0, c0, |block|, w, i, j) ==> CellAt(Overwrite(g, r0, c0, block, w), i, j) == CellAt(g, i, j)
  {
  }

  /** The values of the `h` by `w` rectangle at 0-based `(r0, c0)`, as `getValues()` returns them. */
  function Values(g: Grid, r0: nat, c0: nat, h: nat, w: nat): (r: seq<seq<Value>>)
    ensures |r| == h && Rectangular(r, w)
    ensures forall i, j :: 0 <= i < h && 0 <= j < w ==> r[i][j] == CellAt(g, r0 + i, c0 + j)
  {
    seq(h, i requires 0 <= i < h => seq(w, j requires 0 <= j < w => CellAt(g, r0 + i, c0 + j)))
  }

  /** Reading back a rectangle just written gives the values written. */
  lemma ValuesOfOverwrite(g: Grid, r0: nat, c0: nat, block: seq<seq<Value>>, w: nat)
    requires WellFormed(g) && Rectangular(block, w) && block != [] && w > 0
    ensures Values(Overwrite(g, r0, c0, block, w), r0, c0, |block|, w) == block
  {
    var v := Values(Overwrite(g, r0, c0, block, w), r0, c0, |block|, w);
    forall i | 0 <= i < |block|
      ensures v[i] == block[i]
    {
      forall j | 0 <= j < w
        ensures v[i][j] == block[i][j]
      {
        OverwriteCells(g, r0, c0, block, w, r0 + i, c0 + j);
      }
    }
  }

  /** `0, 1, ..., n - 1`. */
  function Range(n: nat): (r: seq<nat>)
    ensures |r| == n && forall i :: 0 <= i < n ==> r[i] == i
  {
    seq(n, i requires 0 <= i < n => i)
  }

  /** `order` lists every index below `n` exactly once. */
  predicate IsOrder(order: seq<nat>, n: nat)
  {
    (forall k :: 0 <= k < |order| ==> order[k] < n) && multiset(order) == multiset(Range(n))
  }

  /** The rows taken in the order of the indices `order`. */
  function Reorder<T>(rows: seq<T>, order: seq<nat>): (r: seq<T>)
    requires forall k :: 0 <= k < |order| ==> order[k] < |rows|
    ensures |r| == |order| && forall k :: 0 <= k < |order| ==> r[k] == rows[order[k]]
  {
    seq(|order|, k requires 0 <= k < |order| => rows[order[k]])
  }

  /** A filter, given by the range it covers (1-based first row and column, and size). */
  datatype FilterRange = FilterRange(row: int, column: int, numRows: int, numColumns: int)

  /** A sheet: its data range and the filter on it, if any. */
  class Sheet {
    var grid: Grid
    var filter: Option<FilterRange>

    predicate Valid()
      reads this
    {
      WellFormed(grid)
    }

    /** A new, empty sheet. */
    constructor()
      ensures grid == Grid([], 0) && filter == None
      ensures Valid()
    {
      grid := Grid([], 0);
      filter := None;
    }

    /**
     * `getLastRow()`: the number of rows in the stored data range, 0 for an
     * empty sheet. Trailing rows of blank cells count, unlike the service.
     */
    function LastRow(): nat
      reads this
    {
      |grid.rows|
    }

    /** `getLastColumn()`. */
    function LastColumn(): nat
      reads this
    {
      grid.width
    }

    /**
     * `getRange(row, column, numRows, numColumns).getValues()`: the service
     * rejects a start before row or column 1 and an empty range.
     */
    function GetValues(row: int, column: int, numRows: int, numColumns: int): (r: Result<seq<seq<Value>>>)
      reads this
      ensures r.Ok? <==> row >= 1 && column >= 1 && numRows >= 1 && numColumns >= 1
      ensures r.Ok? ==> r.value == Values(grid, row - 1, column - 1, numRows, numColumns)
    {
      if row < 1 || column < 1 || numRows < 1 || numColumns < 1 then Throw(HostError)
      else Ok(Values(grid, row - 1, column - 1, numRows, numColumns))
    }

    /**
     * `getRange(row, column, numRows, numColumns).setValues(values)`: the
     * service rejects a bad range, and values that are not exactly
     * `numRows` rows of `numColumns` cells.
     */
    method SetValues(row: int, column: int, numRows: int, numColumns: int, values: seq<seq<Value>>) returns (r: Outcome)
      requires Valid()
      modifies this
      ensures Valid()
      ensures r == Done <==> SetValuesAccepted(row, column, numRows, numColumns, values)
      ensures r == Done ==> grid == Overwrite(old(grid), row - 1, column - 1, values, numColumns)
      ensures r != Done ==> r == Raised(HostError) && grid == old(grid)
      ensures filter == old(filter)
    {
      if !SetValuesAccepted(row, column, numRows, numColumns, values) {
        return Raised(HostError);
      }
      grid := Overwrite(grid, row - 1, column - 1, values, numColumns);
      r := Done;
    }

    /** `appendRow(values)`: the values become a new row after the last one. */
    method AppendRow(values: seq<Value>)
      requires Valid() && values != []
      modifies this
      ensures Valid()
      ensures grid == Overwrite(old(grid), |old(grid).rows|, 0, [values], |values|)
      ensures filter == old(filter)
    {
      grid := Overwrite(grid, |grid.rows|, 0, [values], |values|);
    }

    /**
     * `getRange(2, 1, lastRow - 1, lastColumn).sort(criteria)`: the service
     * puts the data rows (all but the header) in the order `order` it
     * chooses; an `order` that is not a permutation of them stands for a
     * sort the service rejects.
     */
    method SortData(order: seq<nat>) returns (r: Outcome)
      requires Valid() && |grid.rows| >= 2
      modifies this
      ensures Valid() && filter == old(filter)
      ensures r == Done <==> IsOrder(order, |old(grid).rows| - 1)
      ensures r == Done ==> grid == Grid([old(grid).rows[0]] + Reorder(old(grid).rows[1..], order), old(grid).width)
      ensures r != Done ==> r == Raised(HostError) && grid == old(grid)
    {
      if !IsOrder(order, |grid.rows| - 1) {
        return Raised(HostError);
      }
      grid := Grid([grid.rows[0]] + Reorder(grid.rows[1..], order), grid.width);
      r := Done;
    }

    /** `getFilter().remove()`. */
    method RemoveFilter()
      requires filter.Some?
      modifies this
      ensures filter == None && grid == old(grid)
    {
      filter := None;
    }

    /** `getRange(row, column, numRows, numColumns).createFilter()` on a sheet without a filter. */
    method CreateFilter(row: int, column: int, numRows: int, numColumns: int)
      requires filter.None?
      modifies this
      ensures filter == Some(FilterRange(row, column, numRows, numColumns))
      ensures grid == old(grid)
    {
      filter := Some(FilterRange(row, column, numRows, numColumns));
    }
  }

  /** What `setValues` accepts: a range from row and column 1 on, and values of its exact size. */
  predicate SetValuesAccepted(row: int, column: int, numRows: int, numColumns: int, values: seq<seq<Value>>)
  {
    row >= 1 && column >= 1 && numRows >= 1 && numColumns >= 1 && |values| == numRows && Rectangular(values, numColumns)
  }
}
