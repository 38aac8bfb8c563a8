/**
 * `updateRowsInSheet` of SheetUtils.js: the rows of a sheet are found by
 * the (normalised) values of a key column, and each incoming record whose
 * defined cells differ from the row's current values is written over it,
 * cells left `undefined` keeping the old value and `__ROW__` in a text cell
 * becoming the row's number. The result is the number of rows written.
 */
module SheetUpdate {
  import opened JsValues
  import opened SheetValues
  import opened SheetGrid
  import opened SheetWrite

  const KeyColumnMessage: string := "El parámetro 'keyColumn' no es válido."
  const RowsMapMessage: string := "El parámetro 'rowsMap' no es válido."

  // ---------------------------------------------------------------------
  // The key map

  /** A key cell that is skipped: `''`, null or undefined. */
  predicate Blank(v: Value)
  {
    v == Str("") || v.Null? || v.Undefined?
  }

  /** What a key cell contributes: nothing when blank, else its normalised value. */
  function Slot(host: Host, t: Option<CellType>, v: Value): (r: Option<Value>)
    ensures r.None? <==> Blank(v)
    ensures r.Some? ==> r.value == Normalize(host, t, v)
  {
    if Blank(v) then None else Some(Normalize(host, t, v))
  }

  function Slots(host: Host, t: Option<CellType>, keys: seq<Value>): (r: seq<Option<Value>>)
    ensures |r| == |keys| && forall i :: 0 <= i < |keys| ==> r[i] == Slot(host, t, keys[i])
  {
    seq(|keys|, i requires 0 <= i < |keys| => Slot(host, t, keys[i]))
  }

  /**
   * The map from key to 1-based row after the slots of rows 2, 3, ... were
   * visited in order, a later row replacing an earlier one.
   */
  function RowMap(ks: seq<Option<Value>>): map<Value, nat>
  {
    if ks == [] then map[]
    else
      var m := RowMap(ks[..|ks| - 1]);
      match ks[|ks| - 1]
      case None => m
      case Some(k) => m[k := |ks| + 1]
  }

  /** `keyToRowMap` after the key cells `keys` (those of rows 2, 3, ...) were visited. */
  function KeyMap(host: Host, t: Option<CellType>, keys: seq<Value>): map<Value, nat>
  {
    RowMap(Slots(host, t, keys))
  }

  lemma {:induction false} RowMapDomain(ks: seq<Option<Value>>, k: Value)
    ensures k in RowMap(ks) <==> exists i :: 0 <= i < |ks| && ks[i] == Some(k)
  {
    if ks != [] {
      var n := |ks| - 1;
      var p := ks[..n];
      RowMapDomain(p, k);
      if ks[n] != Some(k) {
        if i :| 0 <= i < |ks| && ks[i] == Some(k) {
          assert p[i] == ks[i];
        }
        if i :| 0 <= i < |p| && p[i] == Some(k) {
          assert ks[i] == p[i];
        }
      }
    }
  }

  lemma {:induction false} RowMapLastWins(ks: seq<Option<Value>>, k: Value)
    requires k in RowMap(ks)
    ensures
      var i := RowMap(ks)[k] as int - 2;
      && 0 <= i < |ks| && ks[i] == Some(k)
      && forall j :: i < j < |ks| ==> ks[j] != Some(k)
  {
    var n := |ks| - 1;
    if ks[n] != Some(k) {
      var p := ks[..n];
      RowMapLastWins(p, k);
      var i := RowMap(p)[k] as int - 2;
      assert ks[i] == p[i];
      forall j | i < j < n ensures ks[j] != Some(k) {
        assert ks[j] == p[j];
      }
    }
  }

  lemma {:induction false} RowMapRows(ks: seq<Option<Value>>)
    ensures forall k :: k in RowMap(ks) ==> 2 <= RowMap(ks)[k] <= |ks| + 1
  {
    if ks != [] {
      RowMapRows(ks[..|ks| - 1]);
    }
  }

  /** A key is in the map exactly when some non-blank key cell normalises to it. */
  lemma KeyMapDomain(host: Host, t: Option<CellType>, keys: seq<Value>, k: Value)
    ensures k in KeyMap(host, t, keys) <==> exists i :: 0 <= i < |keys| && !Blank(keys[i]) && Normalize(host, t, keys[i]) == k
  {
    var ks := Slots(host, t, keys);
    RowMapDomain(ks, k);
    if i :| 0 <= i < |keys| && !Blank(keys[i]) && Normalize(host, t, keys[i]) == k {
      assert ks[i] == Some(k);
    }
  }

  /**
   * A key in the map maps to the row of the LAST key cell that normalises to
   * it: with duplicate keys the last, highest-numbered row wins.
   */
  lemma KeyMapLastWins(host: Host, t: Option<CellType>, keys: seq<Value>, k: Value)
    requires k in KeyMap(host, t, keys)
    ensures
      var i := KeyMap(host, t, keys)[k] as int - 2;
      && 0 <= i < |keys| && !Blank(keys[i]) && Normalize(host, t, keys[i]) == k
      && forall j :: i < j < |keys| && !Blank(keys[j]) ==> Normalize(host, t, keys[j]) != k
  {
    var ks := Slots(host, t, keys);
    RowMapLastWins(ks, k);
    var i := RowMap(ks)[k] as int - 2;
    forall j | i < j < |keys| && !Blank(keys[j])
      ensures Normalize(host, t, keys[j]) != k
    {
      assert ks[j] != Some(k);
    }
  }

  /** Every row the key map names is a data row of the key range, 2 to `|keys| + 1`. */
  lemma KeyMapRows(host: Host, t: Option<CellType>, keys: seq<Value>)
    ensures forall k :: k in KeyMap(host, t, keys) ==> 2 <= KeyMap(host, t, keys)[k] <= |keys| + 1
  {
    RowMapRows(Slots(host, t, keys));
  }

  /** The `keyValues.forEach(...)` that fills `keyToRowMap`. */
  method BuildKeyMap(host: Host, t: Option<CellType>, keys: seq<Value>) returns (m: map<Value, nat>)
    ensures m == KeyMap(host, t, keys)
  {
    ghost var ks := Slots(host, t, keys);
    m := map[];
    for i := 0 to |keys|
      invariant m == RowMap(ks[..i])
    {
      assert ks[..i + 1][..i] == ks[..i];
      if !Blank(keys[i]) {
        m := m[Normalize(host, t, keys[i]) := i + 2];
      }
    }
    assert ks[..|keys|] == ks;
  }

  /** A value a `Map` lookup can find again: dates, arrays and objects are looked up by identity. */
  predicate ByValue(v: Value)
  {
    v.Null? || v.Undefined? || v.Bool? || v.Num? || v.Str?
  }

  /**
   * `keyToRowMap.get(key)`. The incoming key is not normalised, and a Date,
   * array or object key is never the object the map holds.
   */
  function Lookup(m: map<Value, nat>, key: Value): (r: Option<nat>)
    ensures r.Some? <==> ByValue(key) && key in m
    ensures r.Some? ==> r.value == m[key]
  {
    if ByValue(key) && key in m then Some(m[key]) else None
  }

  /** The key cells: column `c` (0-based) of rows 2 to `lastRow`, i.e. `getRange(2, c + 1, lastRow - 1).getValues().flat()`. */
  function KeyCells(g: Grid, c: nat, lastRow: nat): (r: seq<Value>)
    requires lastRow >= 2
    ensures |r| == lastRow - 1 && forall i :: 0 <= i < |r| ==> r[i] == CellAt(g, i + 1, c)
  {
    seq(lastRow - 1, i requires 0 <= i < lastRow - 1 => CellAt(g, i + 1, c))
  }

  // ---------------------------------------------------------------------
  // One record

  /**
   * `rowsMap[0].row.length`: a TypeError for a null or undefined record or
   * row; the length of an array or a text; an object's own `length`; and
   * undefined for anything else.
   */
  function RowLength(e: Value): (r: Result<Value>)
    ensures r.Throw? <==> e.Null? || e.Undefined? || Prop(e, "row").Null? || Prop(e, "row").Undefined?
    ensures r.Throw? ==> r.error == TypeError
    ensures Prop(e, "row").Arr? ==> r == Ok(Num(|Prop(e, "row").elems| as real))
  {
    if e.Null? || e.Undefined? then Throw(TypeError)
    else
      var row := Prop(e, "row");
      match row
      case Null => Throw(TypeError)
      case Undefined => Throw(TypeError)
      case Arr(elems) => Ok(Num(|elems| as real))
      case Str(s) => Ok(Num(|s| as real))
      case Obj(_) => Ok(Prop(row, "length"))
      case _ => Ok(Undefined)
  }

  /** A column count `getRange` accepts: an integer of at least 1. */
  predicate IsColumnCount(n: Value)
  {
    IsInteger(n) && n.n >= 1.0
  }

  /** `originalRow[i]`, undefined past its end. */
  function At(row: seq<Value>, i: nat): Value
  {
    if i < |row| then row[i] else Undefined
  }

  /**
   * `incomingRow.some((val, i) => val !== undefined && !areEqual(val, originalRow[i]))`,
   * from index `i` on: the first defined cell that differs gives true, and
   * an `areEqual` that throws ends the search with its error.
   */
  function HasChanges(host: Host, incoming: seq<Value>, original: seq<Value>, i: nat): Result<bool>
    decreases |incoming| - i
  {
    if i >= |incoming| then Ok(false)
    else if incoming[i].Undefined? then HasChanges(host, incoming, original, i + 1)
    else match AreEqual(host, incoming[i], At(original, i), Undefined)
      case Throw(err) => Throw(err)
      case Ok(same) => if !same then Ok(true) else HasChanges(host, incoming, original, i + 1)
  }

  /**
   * When it returns, `HasChanges` answers whether some defined cell from
   * `i` on is not equal to the original one, every defined cell before that
   * one comparing without error.
   */
  lemma {:induction false} HasChangesMeaning(host: Host, incoming: seq<Value>, original: seq<Value>, i: nat)
    requires HasChanges(host, incoming, original, i).Ok?
    ensures HasChanges(host, incoming, original, i).value <==>
      exists k :: i <= k < |incoming| && !incoming[k].Undefined? && AreEqual(host, incoming[k], At(original, k), Undefined) == Ok(false)
    decreases |incoming| - i
  {
    if i < |incoming| {
      if incoming[i].Undefined? || AreEqual(host, incoming[i], At(original, i), Undefined) == Ok(true) {
        HasChangesMeaning(host, incoming, original, i + 1);
      }
    }
  }

  /** Cells whose every defined value equals the original one raise nothing and give no change. */
  lemma {:induction false} HasChangesOfEqual(host: Host, incoming: seq<Value>, original: seq<Value>, i: nat)
    requires forall k :: i <= k < |incoming| && !incoming[k].Undefined? ==> AreEqual(host, incoming[k], At(original, k), Undefined) == Ok(true)
    ensures HasChanges(host, incoming, original, i) == Ok(false)
    decreases |incoming| - i
  {
    if i < |incoming| {
      HasChangesOfEqual(host, incoming, original, i + 1);
    }
  }

  /** `originalRow.map((val, i) => processedRow[i] === undefined ? val : processedRow[i])`. */
  function FinalRow(original: seq<Value>, processed: seq<Value>): (r: seq<Value>)
    ensures |r| == |original|
    ensures forall j :: 0 <= j < |original| ==> r[j] == if At(processed, j).Undefined? then original[j] else processed[j]
  {
    seq(|original|, j requires 0 <= j < |original| => if At(processed, j).Undefined? then original[j] else processed[j])
  }

  /** The first `n` cells of 0-based row `i`: `getRange(i + 1, 1, 1, n).getValues()[0]`. */
  function RowCells(g: Grid, i: nat, n: nat): (r: seq<Value>)
    ensures |r| == n && forall j :: 0 <= j < n ==> r[j] == CellAt(g, i, j)
  {
    Values(g, i, 0, 1, n)[0]
  }

  /**
   * The callback of `rowsMap.map(...)` for record `e`, given the key map and
   * the column count read from the first record: the rows written (0 or 1)
   * and the sheet after it.
   */
  function UpdateEntry(host: Host, g: Grid, m: map<Value, nat>, numColumns: Value, e: Value): (Result<int>, Grid)
  {
    if e.Null? || e.Undefined? then (Throw(TypeError), g)
    else match Lookup(m, Prop(e, "key"))
      case None => (Ok(0), g)
      case Some(t) =>
        if !IsColumnCount(numColumns) || t < 1 then (Throw(HostError), g)
        else
          var incoming := Prop(e, "row");
          if !incoming.Arr? then (Throw(TypeError), g)
          else WriteChangedRow(host, g, t, numColumns.n.Floor, incoming.elems)
  }

  /**
   * The end of that callback, once the record's cells `incoming` and its
   * 1-based target row `t` are known: the row is written when some defined
   * cell differs from the first `n` current ones.
   */
  function WriteChangedRow(host: Host, g: Grid, t: nat, n: nat, incoming: seq<Value>): (Result<int>, Grid)
    requires t >= 1 && n >= 1
  {
    var original := RowCells(g, t - 1, n);
    match HasChanges(host, incoming, original, 0)
    case Throw(err) => (Throw(err), g)
    case Ok(changed) =>
      if !changed then (Ok(0), g)
      else (Ok(1), Overwrite(g, t - 1, 0, [FinalRow(original, MarkRow(incoming, t))], n))
  }

  /** The 1-based row record `e` is written to, if its key is found. */
  function Target(m: map<Value, nat>, e: Value): Option<nat>
  {
    if e.Null? || e.Undefined? then None else Lookup(m, Prop(e, "key"))
  }

  /** A record counts 0 or 1, and only a record whose key was found touches the sheet. */
  lemma UpdateEntryBounds(host: Host, g: Grid, m: map<Value, nat>, numColumns: Value, e: Value)
    ensures var (r, g') := UpdateEntry(host, g, m, numColumns, e);
      && (r.Ok? ==> r.value == 0 || r.value == 1)
      && (r != Ok(1) ==> g' == g)
      && (Target(m, e).None? ==> r.Throw? || g' == g)
  {
  }

  /**
   * A record that writes changes exactly the first `n` cells of its target
   * row: each defined incoming cell, with `__ROW__` replaced by the row
   * number, and the original value where the incoming cell is undefined or
   * missing. Every other cell keeps its value.
   */
  lemma UpdateEntryWrites(host: Host, g: Grid, m: map<Value, nat>, numColumns: Value, e: Value, i: int, j: int)
    requires WellFormed(g)
    requires UpdateEntry(host, g, m, numColumns, e).0 == Ok(1)
    ensures Target(m, e).Some? && Target(m, e).value >= 1 && IsColumnCount(numColumns) && Prop(e, "row").Arr?
    ensures var t := Target(m, e).value;
      var n := numColumns.n.Floor;
      var incoming := Prop(e, "row").elems;
      var g' := UpdateEntry(host, g, m, numColumns, e).1;
      && (i == t - 1 && 0 <= j < n ==>
            CellAt(g', i, j) == if At(incoming, j).Undefined? then CellAt(g, i, j) else MarkCell(incoming[j], t))
      && (!(i == t - 1 && 0 <= j < n) ==> CellAt(g', i, j) == CellAt(g, i, j))
  {
    UpdateEntryWritesRow(host, g, m, numColumns, e);
    var t := Target(m, e).value;
    RowWriteCells(g, t, numColumns.n.Floor, Prop(e, "row").elems, i, j);
  }

  /** A record that writes puts the merged row over its target row. */
  lemma UpdateEntryWritesRow(host: Host, g: Grid, m: map<Value, nat>, numColumns: Value, e: Value)
    requires UpdateEntry(host, g, m, numColumns, e).0 == Ok(1)
    ensures Target(m, e).Some? && Target(m, e).value >= 1 && IsColumnCount(numColumns) && Prop(e, "row").Arr?
    ensures var t := Target(m, e).value;
      var n := numColumns.n.Floor;
      UpdateEntry(host, g, m, numColumns, e).1 ==
        Overwrite(g, t - 1, 0, [FinalRow(RowCells(g, t - 1, n), MarkRow(Prop(e, "row").elems, t))], n)
  {
  }

  /** The cells after the merged row is written over 1-based row `t`. */
  lemma RowWriteCells(g: Grid, t: nat, n: nat, incoming: seq<Value>, i: int, j: int)
    requires WellFormed(g) && t >= 1 && n >= 1
    ensures var g' := Overwrite(g, t - 1, 0, [FinalRow(RowCells(g, t - 1, n), MarkRow(incoming, t))], n);
      && (i == t - 1 && 0 <= j < n ==>
            CellAt(g', i, j) == if At(incoming, j).Undefined? then CellAt(g, i, j) else MarkCell(incoming[j], t))
      && (!(i == t - 1 && 0 <= j < n) ==> CellAt(g', i, j) == CellAt(g, i, j))
  {
    var final := FinalRow(RowCells(g, t - 1, n), MarkRow(incoming, t));
    OverwriteCells(g, t - 1, 0, [final], n, i, j);
  }

  predicate AllComparable(row: seq<Value>)
  {
    forall j :: 0 <= j < |row| ==> Comparable(row[j])
  }

  /**
   * A record that repeats its target row's current values, in cells the
   * comparison accepts, changes nothing and is not counted.
   */
  lemma UpdateEntrySameValues(host: Host, g: Grid, m: map<Value, nat>, numColumns: Value, e: Value)
    requires Target(m, e).Some? && Target(m, e).value >= 1 && IsColumnCount(numColumns)
    requires Prop(e, "row") == Arr(RowCells(g, Target(m, e).value - 1, numColumns.n.Floor))
    requires AllComparable(RowCells(g, Target(m, e).value - 1, numColumns.n.Floor))
    ensures UpdateEntry(host, g, m, numColumns, e) == (Ok(0), g)
  {
    var original := RowCells(g, Target(m, e).value - 1, numColumns.n.Floor);
    forall k | 0 <= k < |original| && !original[k].Undefined?
      ensures AreEqual(host, original[k], At(original, k), Undefined) == Ok(true)
    {
      AreEqualReflexive(host, original[k], Undefined);
    }
    HasChangesOfEqual(host, original, original, 0);
  }

  // ---------------------------------------------------------------------
  // All records

  /** The count so far added to the outcome of the remaining records. */
  function Add(total: int, rest: (Result<int>, Grid)): (Result<int>, Grid)
  {
    if rest.0.Ok? then (Ok(total + rest.0.value), rest.1) else rest
  }

  /**
   * `rowsMap.map(...).reduce((acc, v) => acc + v, 0)`: the records in order,
   * each seeing the sheet the earlier ones left; the first error ends it.
   */
  function UpdateAll(host: Host, g: Grid, m: map<Value, nat>, numColumns: Value, entries: seq<Value>): (Result<int>, Grid)
    decreases |entries|
  {
    if entries == [] then (Ok(0), g)
    else
      var (r, g1) := UpdateEntry(host, g, m, numColumns, entries[0]);
      if r.Throw? then (r, g1)
      else Add(r.value, UpdateAll(host, g1, m, numColumns, entries[1..]))
  }

  /** The count is between 0 and the number of records, and a sheet stays well formed. */
  lemma {:induction false} UpdateAllBounds(host: Host, g: Grid, m: map<Value, nat>, numColumns: Value, entries: seq<Value>)
    ensures var (r, g') := UpdateAll(host, g, m, numColumns, entries);
      && (r.Ok? ==> 0 <= r.value <= |entries|)
      && (WellFormed(g) ==> WellFormed(g'))
    decreases |entries|
  {
    if entries != [] {
      UpdateEntryBounds(host, g, m, numColumns, entries[0]);
      UpdateAllBounds(host, UpdateEntry(host, g, m, numColumns, entries[0]).1, m, numColumns, entries[1..]);
    }
  }

  /** A count of 0 means the sheet was not written at all. */
  lemma {:induction false} UpdateAllNothingCounted(host: Host, g: Grid, m: map<Value, nat>, numColumns: Value, entries: seq<Value>)
    requires UpdateAll(host, g, m, numColumns, entries).0 == Ok(0)
    ensures UpdateAll(host, g, m, numColumns, entries).1 == g
    decreases |entries|
  {
    if entries != [] {
      var (r, g1) := UpdateEntry(host, g, m, numColumns, entries[0]);
      UpdateEntryBounds(host, g, m, numColumns, entries[0]);
      UpdateAllBounds(host, g1, m, numColumns, entries[1..]);
      UpdateAllNothingCounted(host, g1, m, numColumns, entries[1..]);
    }
  }

  /** A row that no record targets keeps every cell, whatever the outcome. */
  lemma {:induction false} UpdateAllUntargetedRow(host: Host, g: Grid, m: map<Value, nat>, numColumns: Value, entries: seq<Value>, i: int, j: int)
    requires WellFormed(g)
    requires forall k :: 0 <= k < |entries| ==> Target(m, entries[k]) != Some(i + 1)
    ensures CellAt(UpdateAll(host, g, m, numColumns, entries).1, i, j) == CellAt(g, i, j)
    decreases |entries|
  {
    if entries != [] {
      var (r, g1) := UpdateEntry(host, g, m, numColumns, entries[0]);
      UpdateEntryBounds(host, g, m, numColumns, entries[0]);
      if r == Ok(1) {
        UpdateEntryWrites(host, g, m, numColumns, entries[0], i, j);
      }
      if r.Ok? {
        UpdateEntryBounds(host, g, m, numColumns, entries[0]);
        assert WellFormed(g1) by {
          UpdateAllBounds(host, g, m, numColumns, entries[..1]);
          assert entries[..1][1..] == [];
        }
        UpdateAllUntargetedRow(host, g1, m, numColumns, entries[1..], i, j);
      }
    }
  }

  // ---------------------------------------------------------------------
  // updateRowsInSheet

  /**
   * `updateRowsInSheet(sheet, keyColumn, keyType, rowsMap)` on a sheet
   * whose data range is `g`: the checks on the arguments, then the key map
   * of rows 2 to the last row, then the records. A `keyType` that is not a
   * string raises the ReferenceError of the check's misspelt `type`.
   */
  function UpdateRows(host: Host, g: Grid, keyColumn: Value, keyType: Value, rowsMap: Value): (Result<int>, Grid)
  {
    if !IsInteger(keyColumn) || keyColumn.n < 0.0 then (Throw(Error(KeyColumnMessage)), g)
    else if !keyType.Str? then (Throw(ReferenceError), g)
    else if !rowsMap.Arr? then (Throw(Error(RowsMapMessage)), g)
    else if rowsMap.elems == [] || |g.rows| < 2 then (Ok(0), g)
    else match RowLength(rowsMap.elems[0])
      case Throw(err) => (Throw(err), g)
      case Ok(numColumns) =>
        var m := KeyMap(host, ParseCellType(keyType), KeyCells(g, keyColumn.n.Floor, |g.rows|));
        UpdateAll(host, g, m, numColumns, rowsMap.elems)
  }

  /** With no records, or no data row, nothing is written and 0 is returned. */
  lemma UpdateRowsNothingToDo(host: Host, g: Grid, keyColumn: Value, keyType: Value, rowsMap: Value)
    requires IsInteger(keyColumn) && keyColumn.n >= 0.0 && keyType.Str? && rowsMap.Arr?
    requires rowsMap.elems == [] || |g.rows| < 2
    ensures UpdateRows(host, g, keyColumn, keyType, rowsMap) == (Ok(0), g)
  {
  }

  /** A rejected argument changes nothing. */
  lemma UpdateRowsRejects(host: Host, g: Grid, keyColumn: Value, keyType: Value, rowsMap: Value)
    requires !IsInteger(keyColumn) || keyColumn.n < 0.0 || !keyType.Str? || !rowsMap.Arr?
    ensures UpdateRows(host, g, keyColumn, keyType, rowsMap).0.Throw?
    ensures UpdateRows(host, g, keyColumn, keyType, rowsMap).1 == g
  {
  }

  /**
   * After the call the count is at most the number of records, the title
   * row is never written, and a count of 0 leaves the sheet as it was.
   */
  lemma UpdateRowsKeepsTitles(host: Host, g: Grid, keyColumn: Value, keyType: Value, rowsMap: Value, j: int)
    requires WellFormed(g)
    ensures var (r, g') := UpdateRows(host, g, keyColumn, keyType, rowsMap);
      && CellAt(g', 0, j) == CellAt(g, 0, j)
      && WellFormed(g')
      && (r.Ok? ==> 0 <= r.value && (rowsMap.Arr? ==> r.value <= |rowsMap.elems|))
      && (r == Ok(0) ==> g' == g)
  {
    if IsInteger(keyColumn) && keyColumn.n >= 0.0 && keyType.Str? && rowsMap.Arr? && rowsMap.elems != [] && |g.rows| >= 2 {
      var rl := RowLength(rowsMap.elems[0]);
      if rl.Ok? {
        var keys := KeyCells(g, keyColumn.n.Floor, |g.rows|);
        var m := KeyMap(host, ParseCellType(keyType), keys);
        KeyMapRows(host, ParseCellType(keyType), keys);
        UpdateAllBounds(host, g, m, rl.value, rowsMap.elems);
        forall k | 0 <= k < |rowsMap.elems|
          ensures Target(m, rowsMap.elems[k]) != Some(1)
        {
        }
        UpdateAllUntargetedRow(host, g, m, rl.value, rowsMap.elems, 0, j);
        if UpdateAll(host, g, m, rl.value, rowsMap.elems).0 == Ok(0) {
          UpdateAllNothingCounted(host, g, m, rl.value, rowsMap.elems);
        }
      }
    }
  }

  /** The callback of `rowsMap.map(...)` for one record, on the sheet. */
  method UpdateEntryInSheet(host: Host, sheet: Sheet, keyToRow: map<Value, nat>, numColumns: Value, e: Value) returns (r: Result<int>)
    requires sheet.Valid()
    modifies sheet
    ensures sheet.Valid() && sheet.filter == old(sheet.filter)
    ensures (r, sheet.grid) == UpdateEntry(host, old(sheet.grid), keyToRow, numColumns, e)
  {
    if e.Null? || e.Undefined? {
      return Throw(TypeError);
    }
    var targetRow := Lookup(keyToRow, Prop(e, "key"));
    if targetRow.None? {
      return Ok(0);
    }
    var t := targetRow.value;
    if !IsColumnCount(numColumns) || t < 1 {
      return Throw(HostError);
    }
    var incomingRow := Prop(e, "row");
    if !incomingRow.Arr? {
      return Throw(TypeError);
    }
    r := WriteChangedRowInSheet(host, sheet, t, numColumns.n.Floor, incomingRow.elems);
  }

  /** The row read, compared and, when it changed, written back. */
  method WriteChangedRowInSheet(host: Host, sheet: Sheet, t: nat, n: nat, incoming: seq<Value>) returns (r: Result<int>)
    requires sheet.Valid() && t >= 1 && n >= 1
    modifies sheet
    ensures sheet.Valid() && sheet.filter == old(sheet.filter)
    ensures (r, sheet.grid) == WriteChangedRow(host, old(sheet.grid), t, n, incoming)
  {
    var range := sheet.GetValues(t, 1, 1, n);
    var originalRow := range.value[0];
    assert originalRow == RowCells(sheet.grid, t - 1, n);
    var hasChanges := HasChanges(host, incoming, originalRow, 0);
    if hasChanges.Throw? {
      return Throw(hasChanges.error);
    }
    if !hasChanges.value {
      return Ok(0);
    }
    var processedRow := MarkRow(incoming, t);
    var finalRow := FinalRow(originalRow, processedRow);
    var _ := sheet.SetValues(t, 1, 1, n, [finalRow]);
    r := Ok(1);
  }

  /**
   * `updateRowsInSheet`. A null `sheet` stands for any argument that is not
   * a sheet.
   */
  method UpdateRowsInSheet(host: Host, sheet: Sheet?, keyColumn: Value, keyType: Value, rowsMap: Value) returns (r: Result<int>)
    requires sheet != null ==> sheet.Valid()
    modifies sheet
    ensures sheet == null ==> r == Throw(Error(SheetMessage))
    ensures sheet != null ==> sheet.Valid() && sheet.filter == old(sheet.filter)
    ensures sheet != null ==> (r, sheet.grid) == UpdateRows(host, old(sheet.grid), keyColumn, keyType, rowsMap)
  {
    if sheet == null {
      return Throw(Error(SheetMessage));
    }
    if !IsInteger(keyColumn) || keyColumn.n < 0.0 {
      return Throw(Error(KeyColumnMessage));
    }
    if !keyType.Str? {
      return Throw(ReferenceError);
    }
    if !rowsMap.Arr? {
      return Throw(Error(RowsMapMessage));
    }
    var entries := rowsMap.elems;
    if |entries| == 0 {
      return Ok(0);
    }
    var lastRow := sheet.LastRow();
    if lastRow < 2 {
      return Ok(0);
    }
    var keyColumnIndex := keyColumn.n.Floor + 1;
    var rowLength := RowLength(entries[0]);
    if rowLength.Throw? {
      return Throw(rowLength.error);
    }
    var numColumns := rowLength.value;
    var keyRange := sheet.GetValues(2, keyColumnIndex, lastRow - 1, 1);
    var keyValues := seq(lastRow - 1, i requires 0 <= i < lastRow - 1 => keyRange.value[i][0]);
    assert keyValues == KeyCells(sheet.grid, keyColumnIndex - 1, lastRow);
    var keyToRow := BuildKeyMap(host, ParseCellType(keyType), keyValues);

    r := UpdateEntriesInSheet(host, sheet, keyToRow, numColumns, entries);
  }

  /**
   * `rowsMap.map(...).reduce(...)` on the sheet: the records in order, each
   * on the sheet the earlier ones left, until one fails; the sum of their
   * counts.
   */
  method UpdateEntriesInSheet(host: Host, sheet: Sheet, keyToRow: map<Value, nat>, numColumns: Value, entries: seq<Value>)
    returns (r: Result<int>)
    requires sheet.Valid()
    modifies sheet
    ensures sheet.Valid() && sheet.filter == old(sheet.filter)
    ensures (r, sheet.grid) == UpdateAll(host, old(sheet.grid), keyToRow, numColumns, entries)
    decreases |entries|
  {
    if entries == [] {
      return Ok(0);
    }
    var first := UpdateEntryInSheet(host, sheet, keyToRow, numColumns, entries[0]);
    if first.Throw? {
      return first;
    }
    var rest := UpdateEntriesInSheet(host, sheet, keyToRow, numColumns, entries[1..]);
    r := if rest.Ok? then Ok(first.value + rest.value) else rest;
  }
}
