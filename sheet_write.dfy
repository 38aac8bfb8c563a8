/**
 * Writing tables into a sheet, as SheetUtils.js does it: `writeTableToSheet`
 * (ragged rows padded with `''` to the widest one, written in one
 * `setValues`) and `appendRowsToSheet` (titles on an empty sheet, then the
 * rows after the last one, with `__ROW__` in a text cell replaced by the
 * row's number).
 */
module SheetWrite {
  import opened JsValues
  import JsText
  import opened JsNumbers
  import opened SheetGrid

  const NotSheetMessage: string := "El parámetro 'sheet' no es un objeto Sheet válido."
  const NotTableMessage: string := "El parámetro 'table' no es una matriz de datos."
  const SheetMessage: string := "El parámetro 'sheet' no es válido."
  const RowsMessage: string := "El parámetro 'rows' no es válido."
  /** The message `appendRowsToSheet` raises for bad column titles (it names `sortCriteria`). */
  const TitlesMessage: string := "El parámetro 'sortCriteria' no es válido."

  /** Every element of `vs` is an array. */
  predicate AllArrays(vs: seq<Value>)
  {
    forall i :: 0 <= i < |vs| ==> vs[i].Arr?
  }

  /** The cells of an array of arrays. */
  function Rows(vs: seq<Value>): (r: seq<seq<Value>>)
    requires AllArrays(vs)
    ensures |r| == |vs| && forall i :: 0 <= i < |vs| ==> r[i] == vs[i].elems
  {
    seq(|vs|, i requires 0 <= i < |vs| => vs[i].elems)
  }

  /** `Math.max(...rows.map(row => row.length))` for at least one row; 0 for none. */
  function MaxWidth(rows: seq<seq<Value>>): (w: nat)
    ensures forall i :: 0 <= i < |rows| ==> |rows[i]| <= w
    ensures rows != [] ==> exists i :: 0 <= i < |rows| && |rows[i]| == w
    ensures rows == [] ==> w == 0
  {
    if rows == [] then 0
    else
      var m := MaxWidth(rows[1..]);
      assert forall i :: 1 <= i < |rows| ==> |rows[i]| == |rows[1..][i - 1]|;
      if |rows[0]| >= m then |rows[0]| else m
  }

  /** `row` followed by `''` up to `w` cells. */
  function PadRow(row: seq<Value>, w: nat): (r: seq<Value>)
    requires |row| <= w
    ensures |r| == w && r[..|row|] == row && forall j :: |row| <= j < w ==> r[j] == Str("")
  {
    row + seq(w - |row|, _ => Str(""))
  }

  /** Every row padded to `w` cells. */
  function PadTable(rows: seq<seq<Value>>, w: nat): (r: seq<seq<Value>>)
    requires forall i :: 0 <= i < |rows| ==> |rows[i]| <= w
    ensures |r| == |rows| && Rectangular(r, w)
    ensures forall i :: 0 <= i < |rows| ==> r[i] == PadRow(rows[i], w)
  {
    seq(|rows|, i requires 0 <= i < |rows| => PadRow(rows[i], w))
  }

  /** `options.startRow ?? 1` and `options.startCol ?? 1`. */
  function StartOr(v: Option<int>): int
  {
    if v.Some? then v.value else 1
  }

  /**
   * The outcome of `writeTableToSheet` on a sheet whose data range is `g`,
   * and the data range after it.
   */
  function WriteTable(g: Grid, table: Value, startRow: Option<int>, startCol: Option<int>): (Outcome, Grid)
  {
    if !table.Arr? || !AllArrays(table.elems) then (Raised(Error(NotTableMessage)), g)
    else
      var rows := Rows(table.elems);
      var w := MaxWidth(rows);
      var output := PadTable(rows, w);
      var r0 := StartOr(startRow);
      var c0 := StartOr(startCol);
      if rows == [] then (Done, g)
      else if !SetValuesAccepted(r0, c0, |rows|, w, output) then (Raised(HostError), g)
      else (Done, Overwrite(g, r0 - 1, c0 - 1, output, w))
  }

  /** `new Array(w).fill('')` with `row`'s values copied over its first cells. */
  method PadRowInPlace(row: seq<Value>, w: nat) returns (padded: seq<Value>)
    requires |row| <= w
    ensures padded == PadRow(row, w)
  {
    var a := new Value[w](_ => Str(""));
    for j := 0 to |row|
      invariant forall k :: 0 <= k < j ==> a[k] == row[k]
      invariant forall k :: j <= k < w ==> a[k] == Str("")
    {
      a[j] := row[j];
    }
    padded := a[..];
    assert padded == PadRow(row, w) by {
      forall k | 0 <= k < w
        ensures padded[k] == PadRow(row, w)[k]
      {
        if k < |row| {
          assert PadRow(row, w)[..|row|][k] == row[k];
        }
      }
    }
  }

  /** `table.map(row => ...)`: every row padded to `w` cells. */
  method PadRows(rows: seq<seq<Value>>, w: nat) returns (output: seq<seq<Value>>)
    requires forall k :: 0 <= k < |rows| ==> |rows[k]| <= w
    ensures output == PadTable(rows, w)
  {
    output := [];
    for i := 0 to |rows|
      invariant |output| == i
      invariant forall k :: 0 <= k < i ==> output[k] == PadRow(rows[k], w)
    {
      var padded := PadRowInPlace(rows[i], w);
      output := output + [padded];
    }
  }

  /**
   * `writeTableToSheet(sheet, table, { startRow, startCol })`. A null
   * `sheet` stands for any argument that is not a sheet.
   */
  method WriteTableToSheet(sheet: Sheet?, table: Value, startRow: Option<int>, startCol: Option<int>) returns (r: Outcome)
    requires sheet != null ==> sheet.Valid()
    modifies sheet
    ensures sheet == null ==> r == Raised(Error(NotSheetMessage))
    ensures sheet != null ==> sheet.Valid() && sheet.filter == old(sheet.filter)
    ensures sheet != null ==> (r, sheet.grid) == WriteTable(old(sheet.grid), table, startRow, startCol)
  {
    if sheet == null {
      return Raised(Error(NotSheetMessage));
    }
    if !table.Arr? || !AllArrays(table.elems) {
      return Raised(Error(NotTableMessage));
    }
    var rows := Rows(table.elems);
    var w := MaxWidth(rows);
    var output := PadRows(rows, w);
    r := Done;
    if |output| > 0 {
      r := sheet.SetValues(StartOr(startRow), StartOr(startCol), |output|, w, output);
    }
  }

  /**
   * Cell `(i, j)` of `g'` is what writing `rows`, padded to width `w`, at
   * 0-based `(r0, c0)` over `g` leaves there: the row's value inside the
   * block, `''` past the row's end, and `g`'s value outside the block.
   */
  predicate PaddedCell(g: Grid, g': Grid, rows: seq<seq<Value>>, w: nat, r0: nat, c0: nat, i: int, j: int)
  {
    && (InBlock(r0, c0, |rows|, w, i, j) && j - c0 < |rows[i - r0]| ==> CellAt(g', i, j) == rows[i - r0][j - c0])
    && (InBlock(r0, c0, |rows|, w, i, j) && j - c0 >= |rows[i - r0]| ==> CellAt(g', i, j) == Str(""))
    && (!InBlock(r0, c0, |rows|, w, i, j) ==> CellAt(g', i, j) == CellAt(g, i, j))
  }

  /**
   * A write that succeeds puts the table, padded with `''` to its widest
   * row, at the start position; `PaddedBlockCells` gives the cells this
   * leaves.
   */
  lemma WriteTableWrites(g: Grid, table: Value, startRow: Option<int>, startCol: Option<int>)
    requires table.Arr? && table.elems != []
    requires WriteTable(g, table, startRow, startCol).0 == Done
    ensures AllArrays(table.elems) && StartOr(startRow) >= 1 && StartOr(startCol) >= 1
    ensures var rows := Rows(table.elems);
      && MaxWidth(rows) > 0
      && WriteTable(g, table, startRow, startCol).1 ==
           Overwrite(g, StartOr(startRow) - 1, StartOr(startCol) - 1, PadTable(rows, MaxWidth(rows)), MaxWidth(rows))
  {
  }

  /** The cells after rows padded to width `w` are written at 0-based `(r0, c0)`. */
  lemma PaddedBlockCells(g: Grid, rows: seq<seq<Value>>, w: nat, r0: nat, c0: nat, i: int, j: int)
    requires WellFormed(g) && rows != [] && w > 0
    requires forall k :: 0 <= k < |rows| ==> |rows[k]| <= w
    ensures PaddedCell(g, Overwrite(g, r0, c0, PadTable(rows, w), w), rows, w, r0, c0, i, j)
  {
    OverwriteCells(g, r0, c0, PadTable(rows, w), w, i, j);
    if InBlock(r0, c0, |rows|, w, i, j) && j - c0 < |rows[i - r0]| {
      assert PadRow(rows[i - r0], w)[..|rows[i - r0]|][j - c0] == rows[i - r0][j - c0];
    }
  }

  /** A write that fails, a table that is not an array of arrays, and an empty table change nothing. */
  lemma WriteTableFailsCleanly(g: Grid, table: Value, startRow: Option<int>, startCol: Option<int>)
    ensures var (r, g') := WriteTable(g, table, startRow, startCol);
      r != Done || (table.Arr? && table.elems == []) ==> g' == g
    ensures (!table.Arr? || !AllArrays(table.elems)) ==> WriteTable(g, table, startRow, startCol).0 == Raised(Error(NotTableMessage))
  {
  }

  /**
   * A table of rows that are all empty has width 0, which the service
   * rejects; a start before row or column 1 is rejected too.
   */
  lemma WriteTableRejects(g: Grid, table: Value, startRow: Option<int>, startCol: Option<int>)
    requires table.Arr? && AllArrays(table.elems) && table.elems != []
    ensures WriteTable(g, table, startRow, startCol).0 == Raised(HostError) <==>
      MaxWidth(Rows(table.elems)) == 0 || StartOr(startRow) < 1 || StartOr(startCol) < 1
  {
  }

  // ---------------------------------------------------------------------
  // appendRowsToSheet and the `__ROW__` marker

  const RowMarker: string := "__ROW__"

  /** `typeof cell === 'string' && cell.includes('__ROW__') ? cell.replace(/__ROW__/g, n) : cell`. */
  function MarkCell(cell: Value, n: nat): (r: Value)
    ensures !cell.Str? ==> r == cell
    ensures cell.Str? ==> r.Str?
  {
    if cell.Str? && JsText.Contains(cell.s, RowMarker) then Str(JsText.ReplaceAll(cell.s, RowMarker, NatToDecimal(n)))
    else cell
  }

  /** A text cell without the marker is left as it is. */
  lemma MarkCellWithoutMarker(s: string, n: nat)
    requires !JsText.Contains(s, RowMarker)
    ensures MarkCell(Str(s), n) == Str(s)
  {
  }

  /** A cell that is just the marker becomes the row number. */
  lemma MarkCellOfMarker(n: nat)
    ensures MarkCell(Str(RowMarker), n) == Str(NatToDecimal(n))
  {
    assert JsText.StartsWith(RowMarker, RowMarker);
    assert RowMarker[|RowMarker|..] == [];
  }

  /** Text before and after the marker, with no marker of its own, is kept around the row number. */
  lemma {:induction false} MarkCellAround(a: string, b: string, n: nat)
    requires !JsText.Contains(a + "__", RowMarker) && !JsText.Contains(b, RowMarker)
    ensures MarkCell(Str(a + RowMarker + b), n) == Str(a + NatToDecimal(n) + b)
  {
    ReplaceAllAround(a, b, NatToDecimal(n));
    assert JsText.Contains(a + RowMarker + b, RowMarker) by {
      ContainsAfter(a, RowMarker + b);
      assert a + RowMarker + b == a + (RowMarker + b);
    }
  }

  /** The marker is found after any prefix. */
  lemma {:induction false} ContainsAfter(a: string, u: string)
    requires JsText.StartsWith(u, RowMarker)
    ensures JsText.Contains(a + u, RowMarker)
  {
    if a != [] {
      assert (a + u)[1..] == a[1..] + u;
      ContainsAfter(a[1..], u);
    } else {
      assert a + u == u;
    }
  }

  /** Replacing every marker in `a + marker + b`, when neither side holds one and `a` does not end in a start of one. */
  lemma ReplaceAllAround(a: string, b: string, d: string)
    requires !JsText.Contains(a + "__", RowMarker) && !JsText.Contains(b, RowMarker)
    ensures JsText.ReplaceAll(a + RowMarker + b, RowMarker, d) == a + d + b
  {
    forall k | 0 <= k < |a| ensures !JsText.StartsWith(a[k..] + RowMarker + b, RowMarker) {
      assert (a + "__")[k..] == a[k..] + "__";
      if JsText.StartsWith(a[k..] + "__", RowMarker) {
        ContainsSuffix(a + "__", RowMarker, k);
      }
      NoMarkerAtStart(a[k..], b);
    }
    ReplaceAllKeepsAround(RowMarker, a, b, d);
  }

  /** A text that has `p` at some position contains `p`. */
  lemma {:induction false} ContainsSuffix(s: string, p: string, k: nat)
    requires k <= |s| && JsText.StartsWith(s[k..], p)
    ensures JsText.Contains(s, p)
    decreases k
  {
    if k > 0 {
      assert s[1..][k - 1..] == s[k..];
      ContainsSuffix(s[1..], p, k - 1);
    }
  }

  /**
   * `a + pat + b` with no occurrence of `pat` starting inside `a` or inside
   * `b`: the one in the middle is the only one replaced.
   */
  lemma {:induction false} ReplaceAllKeepsAround(pat: string, a: string, b: string, d: string)
    requires pat != [] && !JsText.Contains(b, pat)
    requires forall k :: 0 <= k < |a| ==> !JsText.StartsWith(a[k..] + pat + b, pat)
    ensures JsText.ReplaceAll(a + pat + b, pat, d) == a + d + b
  {
    var s := a + pat + b;
    if a == [] {
      assert s == pat + b;
      assert JsText.StartsWith(s, pat);
      assert s[|pat|..] == b;
    } else {
      assert a[0..] == a;
      assert !JsText.StartsWith(s, pat);
      assert s[1..] == a[1..] + pat + b;
      forall k | 0 <= k < |a[1..]| ensures !JsText.StartsWith(a[1..][k..] + pat + b, pat) {
        assert a[1..][k..] == a[k + 1..];
      }
      ReplaceAllKeepsAround(pat, a[1..], b, d);
    }
  }

  /**
   * When `a + "__"` does not start with the marker, neither does
   * `a + marker + b`: the marker's only borders are `_` and `__`.
   */
  lemma NoMarkerAtStart(a: string, b: string)
    requires a != [] && !JsText.StartsWith(a + "__", RowMarker)
    ensures !JsText.StartsWith(a + RowMarker + b, RowMarker)
  {
    var s := a + RowMarker + b;
    var t := a + "__";
    if |a| >= 5 {
      assert s[..|RowMarker|] == t[..|RowMarker|];
    } else {
      var k := if |a| == 1 then 2 else |a|;
      assert s[k] == '_' && RowMarker[k] != '_';
      assert s[..|RowMarker|][k] != RowMarker[k];
    }
  }

  /** `row.map(cell => ...)` for the row that lands in row `n`. */
  function MarkRow(row: seq<Value>, n: nat): (r: seq<Value>)
    ensures |r| == |row| && forall k :: 0 <= k < |row| ==> r[k] == MarkCell(row[k], n)
  {
    seq(|row|, k requires 0 <= k < |row| => MarkCell(row[k], n))
  }

  /** Every title is a string. */
  predicate AllStrings(vs: seq<Value>)
  {
    forall i :: 0 <= i < |vs| ==> vs[i].Str?
  }

  /** The rows as `processedRows`, the one at index `i` landing in row `last + 1 + i`. */
  function MarkRows(rows: seq<seq<Value>>, last: nat): (r: seq<seq<Value>>)
    ensures |r| == |rows| && forall i :: 0 <= i < |rows| ==> r[i] == MarkRow(rows[i], last + 1 + i)
  {
    seq(|rows|, i requires 0 <= i < |rows| => MarkRow(rows[i], last + 1 + i))
  }

  /** The data range after the titles are added to an empty sheet, and its last row. */
  function WithTitles(g: Grid, titles: seq<Value>): (Grid, nat)
  {
    if |g.rows| == 0 && titles != [] then (Overwrite(g, 0, 0, [titles], |titles|), 1) else (g, |g.rows|)
  }

  /**
   * The outcome of `appendRowsToSheet` on a sheet whose data range is `g`,
   * and the data range after it. A row that is not an array raises a
   * TypeError (`row.map` is not a function) after the titles were added.
   */
  function AppendRows(g: Grid, rows: Value, titles: Value): (Outcome, Grid)
  {
    if !rows.Arr? then (Raised(Error(RowsMessage)), g)
    else if !titles.Arr? || !AllStrings(titles.elems) then (Raised(Error(TitlesMessage)), g)
    else if rows.elems == [] then (Done, g)
    else
      var (g1, last) := WithTitles(g, titles.elems);
      if !AllArrays(rows.elems) then (Raised(TypeError), g1)
      else
        var output := MarkRows(Rows(rows.elems), last);
        var w := |output[0]|;
        if !SetValuesAccepted(last + 1, 1, |output|, w, output) then (Raised(HostError), g1)
        else (Done, Overwrite(g1, last, 0, output, w))
  }

  /**
   * `appendRowsToSheet(sheet, rows, columnTitles)`. A null `sheet` stands
   * for any argument that is not a sheet.
   */
  method AppendRowsToSheet(sheet: Sheet?, rows: Value, columnTitles: Value) returns (r: Outcome)
    requires sheet != null ==> sheet.Valid()
    modifies sheet
    ensures sheet == null ==> r == Raised(Error(SheetMessage))
    ensures sheet != null ==> sheet.Valid() && sheet.filter == old(sheet.filter)
    ensures sheet != null ==> (r, sheet.grid) == AppendRows(old(sheet.grid), rows, columnTitles)
  {
    if sheet == null {
      return Raised(Error(SheetMessage));
    }
    if !rows.Arr? {
      return Raised(Error(RowsMessage));
    }
    if !columnTitles.Arr? || !AllStrings(columnTitles.elems) {
      return Raised(Error(TitlesMessage));
    }
    if rows.elems == [] {
      return Done;
    }
    var lastRow := sheet.LastRow();
    if lastRow == 0 && columnTitles.elems != [] {
      sheet.AppendRow(columnTitles.elems);
      lastRow := 1;
    }
    assert (sheet.grid, lastRow) == WithTitles(old(sheet.grid), columnTitles.elems);
    var output: seq<seq<Value>> := [];
    for i := 0 to |rows.elems|
      invariant |output| == i
      invariant forall k :: 0 <= k < i ==> rows.elems[k].Arr? && output[k] == MarkRow(rows.elems[k].elems, lastRow + 1 + k)
      invariant sheet.Valid() && sheet.filter == old(sheet.filter)
    {
      var row := rows.elems[i];
      if !row.Arr? {
        return Raised(TypeError);
      }
      output := output + [MarkRow(row.elems, lastRow + 1 + i)];
    }
    assert output == MarkRows(Rows(rows.elems), lastRow);
    r := sheet.SetValues(lastRow + 1, 1, |output|, |output[0]|, output);
  }

  /** The last row before the new rows: 1 when titles go into an empty sheet, else the sheet's last row. */
  function LastBeforeRows(g: Grid, titles: seq<Value>): nat
  {
    if |g.rows| == 0 && titles != [] then 1 else |g.rows|
  }

  /**
   * After `appendRowsToSheet` succeeds, the rows that were there are kept,
   * the titles are the first row when the sheet was empty and titles were
   * given, the marked rows follow (the one at index `k` in 0-based row
   * `last + k`, with its 1-based number `last + 1 + k` for `__ROW__`), and
   * nothing lies below them.
   */
  lemma AppendRowsPlacement(g: Grid, rows: Value, titles: Value, i: int, j: int)
    requires WellFormed(g)
    requires rows.Arr? && rows.elems != [] && AppendRows(g, rows, titles).0 == Done
    ensures titles.Arr? && AllArrays(rows.elems)
    ensures var g' := AppendRows(g, rows, titles).1;
      var last := LastBeforeRows(g, titles.elems);
      && (0 <= i < |g.rows| ==> CellAt(g', i, j) == CellAt(g, i, j))
      && (|g.rows| == 0 && titles.elems != [] && i == 0 ==>
            CellAt(g', i, j) == if 0 <= j < |titles.elems| then titles.elems[j] else Str(""))
      && (last <= i < last + |rows.elems| ==>
            var row := rows.elems[i - last].elems;
            CellAt(g', i, j) == if 0 <= j < |row| then MarkCell(row[j], i + 1) else Str(""))
      && (i >= last + |rows.elems| ==> CellAt(g', i, j) == Str(""))
  {
    AppendRowsWrites(g, rows, titles);
    AppendedCells(g, titles.elems, Rows(rows.elems), i, j);
  }

  /** An append that succeeds writes the marked rows after the last row, below the titles on an empty sheet. */
  lemma AppendRowsWrites(g: Grid, rows: Value, titles: Value)
    requires rows.Arr? && rows.elems != [] && AppendRows(g, rows, titles).0 == Done
    ensures titles.Arr? && AllArrays(rows.elems)
    ensures var (g1, last) := WithTitles(g, titles.elems);
      var output := MarkRows(Rows(rows.elems), last);
      && |output[0]| > 0 && Rectangular(output, |output[0]|)
      && AppendRows(g, rows, titles).1 == Overwrite(g1, last, 0, output, |output[0]|)
  {
  }

  /** The cells after the titles, if any, and then the marked rows `rs` are written. */
  lemma AppendedCells(g: Grid, titles: seq<Value>, rs: seq<seq<Value>>, i: int, j: int)
    requires WellFormed(g) && rs != []
    requires var output := MarkRows(rs, WithTitles(g, titles).1);
      |output[0]| > 0 && Rectangular(output, |output[0]|)
    ensures var (g1, last) := WithTitles(g, titles);
      var output := MarkRows(rs, last);
      var g' := Overwrite(g1, last, 0, output, |output[0]|);
      && last == LastBeforeRows(g, titles)
      && (0 <= i < |g.rows| ==> CellAt(g', i, j) == CellAt(g, i, j))
      && (|g.rows| == 0 && titles != [] && i == 0 ==>
            CellAt(g', i, j) == if 0 <= j < |titles| then titles[j] else Str(""))
      && (last <= i < last + |rs| ==>
            CellAt(g', i, j) == if 0 <= j < |rs[i - last]| then MarkCell(rs[i - last][j], i + 1) else Str(""))
      && (i >= last + |rs| ==> CellAt(g', i, j) == Str(""))
  {
    var (g1, last) := WithTitles(g, titles);
    var output := MarkRows(rs, last);
    OverwriteCells(g1, last, 0, output, |output[0]|, i, j);
    if |g.rows| == 0 && titles != [] {
      OverwriteCells(g, 0, 0, [titles], |titles|, i, j);
    }
  }

  /** The row `["__ROW__", "data"]` appended below a title row becomes `["2", "data"]`. */
  lemma AppendRowsMarkerExample()
    ensures MarkRow([Str(RowMarker), Str("data")], 2) == [Str("2"), Str("data")]
  {
    MarkCellOfMarker(2);
    assert NatToDecimal(2) == "2";
    assert !JsText.Contains("data", RowMarker) by {
      assert !JsText.Contains("ata", RowMarker) by {
        assert !JsText.Contains("ta", RowMarker) by {
          assert !JsText.Contains("a", RowMarker) by {
            assert !JsText.Contains("", RowMarker);
          }
        }
      }
    }
    MarkCellWithoutMarker("data", 2);
  }
}
