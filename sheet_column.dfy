/**
 * `getValuesFromColumn` and `getUniqueValuesFromColumn` of SheetUtils.js:
 * the values of one column of a sheet's data range, header included, after
 * three optional handlers (a row filter, a cell formatter, a cell filter).
 * Whatever a handler throws is caught and the result is `null`.
 */
module SheetColumn {
  import opened JsValues
  import opened SheetGrid

  /**
   * The optional handlers. Each is called like the array method that runs
   * it: a filter with the element, its index and the whole array, and its
   * answer read for truthiness; the formatter with the cell only.
   */
  datatype Handlers = Handlers(
    filterRows: Option<(seq<Value>, nat, seq<seq<Value>>) -> Result<Value>>,
    formatCell: Option<Value -> Result<Value>>,
    filterCells: Option<(Value, nat, seq<Value>) -> Result<Value>>)

  /** `{}`: no handlers. */
  const NoHandlers: Handlers := Handlers(None, None, None)

  /** `keep` accepts the element at `i`: it returns a truthy value. */
  predicate Accepts<T>(xs: seq<T>, keep: (T, nat, seq<T>) -> Result<Value>, i: int)
    requires 0 <= i < |xs|
  {
    keep(xs[i], i, xs).Ok? && Truthy(keep(xs[i], i, xs).value)
  }

  /** `keep` throws on the element at `i`. */
  predicate Throws<T>(xs: seq<T>, keep: (T, nat, seq<T>) -> Result<Value>, i: int)
    requires 0 <= i < |xs|
  {
    keep(xs[i], i, xs).Throw?
  }

  /** `xs.filter(keep)` from index `k` on: the callback runs in index order and the first throw ends it. */
  function FilterFrom<T>(xs: seq<T>, keep: (T, nat, seq<T>) -> Result<Value>, k: nat): Result<seq<T>>
    requires k <= |xs|
    decreases |xs| - k
  {
    if k == |xs| then Ok([])
    else
      match keep(xs[k], k, xs)
      case Throw(e) => Throw(e)
      case Ok(v) =>
        match FilterFrom(xs, keep, k + 1)
        case Throw(e) => Throw(e)
        case Ok(rest) => Ok(if Truthy(v) then [xs[k]] + rest else rest)
  }

  /** `filter` fails exactly when the callback throws on some element. */
  lemma {:induction false} FilterFromThrows<T>(xs: seq<T>, keep: (T, nat, seq<T>) -> Result<Value>, k: nat)
    requires k <= |xs|
    ensures FilterFrom(xs, keep, k).Throw? <==> exists i :: k <= i < |xs| && Throws(xs, keep, i)
    decreases |xs| - k
  {
    if k < |xs| {
      FilterFromThrows(xs, keep, k + 1);
      if !Throws(xs, keep, k) {
        assert (exists i :: k <= i < |xs| && Throws(xs, keep, i)) ==> exists i :: k + 1 <= i < |xs| && Throws(xs, keep, i);
      }
    }
  }

  /** What `filter` keeps comes from the array, in no greater number. */
  lemma {:induction false} FilterFromMembers<T>(xs: seq<T>, keep: (T, nat, seq<T>) -> Result<Value>, k: nat)
    requires k <= |xs|
    ensures var r := FilterFrom(xs, keep, k);
      r.Ok? ==> |r.value| <= |xs| - k && forall y :: y in r.value ==> y in xs[k..]
    decreases |xs| - k
  {
    if k < |xs| {
      FilterFromMembers(xs, keep, k + 1);
      assert xs[k..] == [xs[k]] + xs[k + 1..];
    }
  }

  /** Every element the callback accepts is kept. */
  lemma {:induction false} FilterFromComplete<T>(xs: seq<T>, keep: (T, nat, seq<T>) -> Result<Value>, k: nat)
    requires k <= |xs|
    ensures var r := FilterFrom(xs, keep, k);
      r.Ok? ==> forall i :: k <= i < |xs| && Accepts(xs, keep, i) ==> xs[i] in r.value
    decreases |xs| - k
  {
    if k < |xs| {
      FilterFromComplete(xs, keep, k + 1);
    }
  }

  /** A callback that accepts every element keeps the whole array. */
  lemma {:induction false} FilterFromAll<T>(xs: seq<T>, keep: (T, nat, seq<T>) -> Result<Value>, k: nat)
    requires k <= |xs|
    requires forall i :: k <= i < |xs| ==> Accepts(xs, keep, i)
    ensures FilterFrom(xs, keep, k) == Ok(xs[k..])
    decreases |xs| - k
  {
    if k < |xs| {
      assert Accepts(xs, keep, k);
      FilterFromAll(xs, keep, k + 1);
      assert xs[k..] == [xs[k]] + xs[k + 1..];
    }
  }

  /** `xs.map(f)` from index `k` on: in index order, and the first throw ends it. */
  function MapFrom(xs: seq<Value>, f: Value -> Result<Value>, k: nat): (r: Result<seq<Value>>)
    requires k <= |xs|
    ensures r.Ok? ==> |r.value| == |xs| - k
    decreases |xs| - k
  {
    if k == |xs| then Ok([])
    else
      match f(xs[k])
      case Throw(e) => Throw(e)
      case Ok(v) =>
        match MapFrom(xs, f, k + 1)
        case Throw(e) => Throw(e)
        case Ok(rest) => Ok([v] + rest)
  }

  /** `map` gives each element's image in place, or fails exactly when `f` throws on some element. */
  lemma {:induction false} MapFromFacts(xs: seq<Value>, f: Value -> Result<Value>, k: nat)
    requires k <= |xs|
    ensures var r := MapFrom(xs, f, k);
      && (r.Throw? <==> exists i :: k <= i < |xs| && f(xs[i]).Throw?)
      && (r.Ok? ==> forall i :: k <= i < |xs| ==> f(xs[i]) == Ok(r.value[i - k]))
    decreases |xs| - k
  {
    if k < |xs| {
      MapFromFacts(xs, f, k + 1);
    }
  }

  /** The `c`-th (0-based) value of every row. */
  function Column(rows: seq<seq<Value>>, c: nat): (r: seq<Value>)
    requires forall i :: 0 <= i < |rows| ==> c < |rows[i]|
    ensures |r| == |rows| && forall i :: 0 <= i < |rows| ==> r[i] == rows[i][c]
  {
    seq(|rows|, i requires 0 <= i < |rows| => rows[i][c])
  }

  /** The three steps after the rows are read: filter rows, take (and format) the cell, filter cells. */
  function Pipeline(rows: seq<seq<Value>>, c: nat, h: Handlers): Result<seq<Value>>
    requires forall i :: 0 <= i < |rows| ==> c < |rows[i]|
  {
    var kept := if h.filterRows.Some? then FilterFrom(rows, h.filterRows.value, 0) else Ok(rows);
    match kept
    case Throw(e) => Throw(e)
    case Ok(filteredRows) =>
      assert forall i :: 0 <= i < |filteredRows| ==> c < |filteredRows[i]| by {
        if h.filterRows.Some? {
          FilterFromMembers(rows, h.filterRows.value, 0);
          assert rows[0..] == rows;
          forall i | 0 <= i < |filteredRows|
            ensures c < |filteredRows[i]|
          {
            assert filteredRows[i] in rows;
          }
        }
      }
      var column := Column(filteredRows, c);
      var cells := if h.formatCell.Some? then MapFrom(column, h.formatCell.value, 0) else Ok(column);
      match cells
      case Throw(e) => Throw(e)
      case Ok(cs) => if h.filterCells.Some? then FilterFrom(cs, h.filterCells.value, 0) else Ok(cs)
  }

  /** `Number.isInteger(v) && v >= 0`. */
  predicate IsColumnIndex(v: Value)
  {
    IsInteger(v) && v.n >= 0.0
  }

  /**
   * `getValuesFromColumn(sheet, columnNumber, handlers)`: null (`None`) for
   * something that is not a sheet, a bad column index, a column past the
   * data range, or a handler that throws; `[]` for a sheet whose data range
   * is a single cell (a new sheet); otherwise the pipeline's result over all
   * rows, header included. A null `sheet` stands for any argument that is
   * not a sheet.
   */
  function GetValuesFromColumn(sheet: Sheet?, columnNumber: Value, h: Handlers): (r: Option<seq<Value>>)
    requires sheet != null ==> sheet.Valid()
    reads sheet
    ensures sheet == null || !IsColumnIndex(columnNumber) ==> r.None?
  {
    if sheet == null || !IsColumnIndex(columnNumber) then None
    else
      var g := sheet.grid;
      var c := columnNumber.n.Floor;
      if |g.rows| <= 1 && g.width <= 1 then Some([])
      else if c >= g.width then None
      else
        match Pipeline(g.rows, c, h)
        case Throw(_) => None
        case Ok(vs) => Some(vs)
  }

  /** `getUniqueValuesFromColumn`: the same values as a set, or null when those are null. */
  function GetUniqueValuesFromColumn(sheet: Sheet?, columnNumber: Value, h: Handlers): (r: Option<set<Value>>)
    requires sheet != null ==> sheet.Valid()
    reads sheet
    ensures var vs := GetValuesFromColumn(sheet, columnNumber, h);
      && (r.Some? <==> vs.Some?)
      && (r.Some? ==> forall v :: v in r.value <==> v in vs.value)
  {
    match GetValuesFromColumn(sheet, columnNumber, h)
    case None => None
    case Some(vs) => Some(set v | v in vs)
  }

  /** With no handlers, a sheet of more than one cell gives the column's values from the header row down. */
  lemma GetValuesFromColumnPlain(sheet: Sheet, c: nat)
    requires sheet.Valid() && c < sheet.grid.width && (|sheet.grid.rows| > 1 || sheet.grid.width > 1)
    ensures GetValuesFromColumn(sheet, Num(c as real), NoHandlers) == Some(Column(sheet.grid.rows, c))
  {
  }

  /** A column index at or past the last column gives null, unless the data range is a single cell. */
  lemma GetValuesFromColumnPastEnd(sheet: Sheet, c: nat)
    requires sheet.Valid() && c >= sheet.grid.width && (|sheet.grid.rows| > 1 || sheet.grid.width > 1)
    ensures GetValuesFromColumn(sheet, Num(c as real), NoHandlers).None?
  {
  }

  /** A sheet whose data range is one cell (or none) gives `[]` for any valid column index. */
  lemma GetValuesFromColumnNewSheet(sheet: Sheet, columnNumber: Value, h: Handlers)
    requires sheet.Valid() && |sheet.grid.rows| <= 1 && sheet.grid.width <= 1 && IsColumnIndex(columnNumber)
    ensures GetValuesFromColumn(sheet, columnNumber, h) == Some([])
  {
  }

  /**
   * Without a formatter, every value returned is a value of the column,
   * and there are no more of them than rows.
   */
  lemma GetValuesFromColumnMembers(sheet: Sheet, columnNumber: Value, h: Handlers)
    requires sheet.Valid() && h.formatCell.None?
    ensures var r := GetValuesFromColumn(sheet, columnNumber, h);
      r.Some? && r.value != [] ==>
        var c := columnNumber.n.Floor;
        0 <= c < sheet.grid.width && |r.value| <= |sheet.grid.rows|
        && forall v :: v in r.value ==> v in Column(sheet.grid.rows, c)
  {
    var r := GetValuesFromColumn(sheet, columnNumber, h);
    if r.Some? && r.value != [] {
      var g := sheet.grid;
      var c := columnNumber.n.Floor;
      var rows := g.rows;
      var kept := if h.filterRows.Some? then FilterFrom(rows, h.filterRows.value, 0) else Ok(rows);
      if h.filterRows.Some? {
        FilterFromMembers(rows, h.filterRows.value, 0);
        assert rows[0..] == rows;
      }
      var filteredRows := kept.value;
      assert forall y :: y in filteredRows ==> y in rows;
      forall i | 0 <= i < |filteredRows|
        ensures c < |filteredRows[i]|
      {
        assert filteredRows[i] in rows;
      }
      var column := Column(filteredRows, c);
      forall v | v in column
        ensures v in Column(rows, c)
      {
        var i :| 0 <= i < |column| && column[i] == v;
        assert filteredRows[i] in rows;
        var j :| 0 <= j < |rows| && rows[j] == filteredRows[i];
        assert Column(rows, c)[j] == v;
      }
      if h.filterCells.Some? {
        FilterFromMembers(column, h.filterCells.value, 0);
        assert column[0..] == column;
      }
    }
  }

  /** A handler that throws on the first row (or cell) it sees makes the result null. */
  lemma GetValuesFromColumnRowFilterThrows(sheet: Sheet, c: nat, h: Handlers)
    requires sheet.Valid() && c < sheet.grid.width && |sheet.grid.rows| > 1
    requires h.filterRows.Some? && h.filterRows.value(sheet.grid.rows[0], 0, sheet.grid.rows).Throw?
    ensures GetValuesFromColumn(sheet, Num(c as real), h).None?
  {
  }
}
