/**
 * `sortSheet` of SheetUtils.js: the sort criteria are checked one by one,
 * then the data rows (all but the header) are sorted with the filter, if
 * any, taken off and put back on the header row. The order the service
 * sorts into is a parameter: only that it is a permutation of the data rows
 * is modelled.
 */
module SheetSort {
  import opened JsValues
  import opened JsNumbers
  import opened SheetGrid
  import opened SheetWrite

  /** The message for a criteria list that is not an array and for a criterion that is not an object. */
  const CriteriaMessage: string := "El parámetro 'sortCriteria' no es válido."

  function ColumnMessage(i: nat): string
  {
    "Criterio de ordenamiento inválido en la posición " + NatToDecimal(i) + ": número de columna fuera de rango."
  }

  function AscendingMessage(i: nat): string
  {
    "Criterio de ordenamiento inválido en la posición " + NatToDecimal(i) + ": el valor 'ascending' debe ser booleano."
  }

  /** `typeof v === 'object'` for a value that is not null: arrays and dates are objects too. */
  predicate IsObject(v: Value)
  {
    v.Obj? || v.Arr? || v.Date?
  }

  /** A column a criterion may name: an integer from 1 to the sheet's last column. */
  predicate InColumnRange(v: Value, columnCount: nat)
  {
    IsInteger(v) && 1.0 <= v.n && v.n <= columnCount as real
  }

  /** The checks on the criterion at position `i`, in the source's order; the first one's error. */
  function CriterionError(c: Value, i: nat, columnCount: nat): (r: Option<JsError>)
    ensures r.None? <==> IsObject(c) && InColumnRange(Prop(c, "column"), columnCount) && Prop(c, "ascending").Bool?
  {
    if !Truthy(c) || !IsObject(c) then Some(Error(CriteriaMessage))
    else if !InColumnRange(Prop(c, "column"), columnCount) then Some(Error(ColumnMessage(i)))
    else if !Prop(c, "ascending").Bool? then Some(Error(AscendingMessage(i)))
    else None
  }

  /** The error of the first bad criterion from position `k` on. */
  function FirstCriterionError(cs: seq<Value>, columnCount: nat, k: nat): Option<JsError>
    decreases |cs| - k
  {
    if k >= |cs| then None
    else if CriterionError(cs[k], k, columnCount).Some? then CriterionError(cs[k], k, columnCount)
    else FirstCriterionError(cs, columnCount, k + 1)
  }

  /**
   * The criteria from `k` on are rejected exactly when one of them is bad,
   * and the error is the one of the first bad criterion.
   */
  lemma {:induction false} FirstCriterionErrorIsFirst(cs: seq<Value>, columnCount: nat, k: nat)
    ensures FirstCriterionError(cs, columnCount, k).None? <==>
      forall i :: k <= i < |cs| ==> CriterionError(cs[i], i, columnCount).None?
    ensures FirstCriterionError(cs, columnCount, k).Some? ==>
      exists i :: k <= i < |cs| && FirstCriterionError(cs, columnCount, k) == CriterionError(cs[i], i, columnCount)
        && forall j :: k <= j < i ==> CriterionError(cs[j], j, columnCount).None?
    decreases |cs| - k
  {
    if k < |cs| && CriterionError(cs[k], k, columnCount).None? {
      FirstCriterionErrorIsFirst(cs, columnCount, k + 1);
    }
  }

  /**
   * `sortSheet(sheet, sortCriteria)` on a sheet with data range `g` and
   * filter `filter`, the service sorting into `order`: the outcome, the new
   * data range and the new filter. A failing sort is caught (only logged);
   * the filter is put back either way.
   */
  function SortSheetSpec(g: Grid, filter: Option<FilterRange>, criteria: Value, order: seq<nat>): (Outcome, Grid, Option<FilterRange>)
  {
    if !criteria.Arr? then (Raised(Error(CriteriaMessage)), g, filter)
    else if criteria.elems == [] then (Done, g, filter)
    else match FirstCriterionError(criteria.elems, g.width, 0)
      case Some(err) => (Raised(err), g, filter)
      case None =>
        if |g.rows| <= 1 then (Done, g, filter)
        else
          var sorted := if IsOrder(order, |g.rows| - 1) then Grid([g.rows[0]] + Reorder(g.rows[1..], order), g.width) else g;
          (Done, sorted, if filter.Some? then Some(FilterRange(1, 1, 1, g.width)) else None)
  }

  /** A rejected call leaves the rows and the filter as they were. */
  lemma SortSheetRejectsUnchanged(g: Grid, filter: Option<FilterRange>, criteria: Value, order: seq<nat>)
    requires SortSheetSpec(g, filter, criteria, order).0 != Done
    ensures SortSheetSpec(g, filter, criteria, order).1 == g
    ensures SortSheetSpec(g, filter, criteria, order).2 == filter
  {
  }

  /** A call is rejected exactly when the criteria are not an array or one criterion is bad. */
  lemma SortSheetRejects(g: Grid, filter: Option<FilterRange>, criteria: Value, order: seq<nat>)
    ensures SortSheetSpec(g, filter, criteria, order).0 != Done <==>
      !criteria.Arr? || exists i :: 0 <= i < |criteria.elems| && CriterionError(criteria.elems[i], i, g.width).Some?
  {
    if criteria.Arr? {
      FirstCriterionErrorIsFirst(criteria.elems, g.width, 0);
    }
  }

  /**
   * Whatever the outcome, the header row stays first, the number of rows
   * is the same and the data rows are a permutation of the old ones; a
   * sheet stays well formed.
   */
  lemma SortSheetPermutes(g: Grid, filter: Option<FilterRange>, criteria: Value, order: seq<nat>)
    requires WellFormed(g)
    ensures var g' := SortSheetSpec(g, filter, criteria, order).1;
      && |g'.rows| == |g.rows| && g'.width == g.width && WellFormed(g')
      && (|g.rows| >= 1 ==> g'.rows[0] == g.rows[0] && multiset(g'.rows[1..]) == multiset(g.rows[1..]))
  {
    var g' := SortSheetSpec(g, filter, criteria, order).1;
    if g' != g {
      var data := g.rows[1..];
      ReorderPermutes(data, order);
      assert g'.rows[1..] == Reorder(data, order);
    }
  }

  /**
   * A sort that goes ahead (valid criteria, at least one data row) leaves a
   * filter on the header row exactly when the sheet had one.
   */
  lemma SortSheetRestoresFilter(g: Grid, filter: Option<FilterRange>, criteria: Value, order: seq<nat>)
    requires criteria.Arr? && criteria.elems != [] && |g.rows| >= 2
    requires forall i :: 0 <= i < |criteria.elems| ==> CriterionError(criteria.elems[i], i, g.width).None?
    ensures SortSheetSpec(g, filter, criteria, order).0 == Done
    ensures SortSheetSpec(g, filter, criteria, order).2.Some? <==> filter.Some?
    ensures filter.Some? ==> SortSheetSpec(g, filter, criteria, order).2 == Some(FilterRange(1, 1, 1, g.width))
  {
    FirstCriterionErrorIsFirst(criteria.elems, g.width, 0);
  }

  /** Rows taken in an order that is a permutation of their indices are a permutation of the rows. */
  lemma ReorderPermutes<T>(rows: seq<T>, order: seq<nat>)
    requires IsOrder(order, |rows|)
    ensures multiset(Reorder(rows, order)) == multiset(rows)
  {
    var identity := Range(|rows|);
    ReorderSameIndices(rows, order, identity);
    assert Reorder(rows, identity) == rows;
  }

  /** Index lists with the same elements select the same rows, in some order. */
  lemma {:induction false} ReorderSameIndices<T>(rows: seq<T>, a: seq<nat>, b: seq<nat>)
    requires forall k :: 0 <= k < |a| ==> a[k] < |rows|
    requires forall k :: 0 <= k < |b| ==> b[k] < |rows|
    requires multiset(a) == multiset(b)
    ensures multiset(Reorder(rows, a)) == multiset(Reorder(rows, b))
    decreases |a|
  {
    if a == [] {
      assert |b| == |multiset(b)|;
    } else {
      var x := a[0];
      assert x in multiset(b);
      var p :| 0 <= p < |b| && b[p] == x;
      RemoveAt(a, b, p);
      ReorderSameIndices(rows, a[1..], b[..p] + b[p + 1..]);
      ReorderSplit(rows, a, b, p);
    }
  }

  /** Taking the first element off `a` and the same element at `p` off `b` keeps the multisets equal. */
  lemma RemoveAt(a: seq<nat>, b: seq<nat>, p: nat)
    requires a != [] && multiset(a) == multiset(b) && p < |b| && b[p] == a[0]
    ensures multiset(a[1..]) == multiset(b[..p] + b[p + 1..])
  {
    assert a == [a[0]] + a[1..];
    assert multiset(a) == multiset{a[0]} + multiset(a[1..]);
    assert b == b[..p] + [b[p]] + b[p + 1..];
    assert multiset(b) == multiset(b[..p]) + multiset{b[p]} + multiset(b[p + 1..]);
    assert multiset(b[..p] + b[p + 1..]) == multiset(b[..p]) + multiset(b[p + 1..]);
    assert multiset(a[1..]) == multiset(a) - multiset{a[0]};
    assert multiset(b[..p]) + multiset(b[p + 1..]) == multiset(b) - multiset{b[p]};
  }

  /** The step of `ReorderSameIndices`: the row at `a[0]` and at `b[p]` is the same, the rest match up. */
  lemma ReorderSplit<T>(rows: seq<T>, a: seq<nat>, b: seq<nat>, p: nat)
    requires forall k :: 0 <= k < |a| ==> a[k] < |rows|
    requires forall k :: 0 <= k < |b| ==> b[k] < |rows|
    requires a != [] && p < |b| && b[p] == a[0]
    requires multiset(Reorder(rows, a[1..])) == multiset(Reorder(rows, b[..p] + b[p + 1..]))
    ensures multiset(Reorder(rows, a)) == multiset(Reorder(rows, b))
  {
    var x := rows[a[0]];
    var rest := Reorder(rows, a[1..]);
    var front := Reorder(rows, b[..p]);
    var back := Reorder(rows, b[p + 1..]);
    assert Reorder(rows, a) == [x] + rest;
    assert Reorder(rows, b) == front + [x] + back;
    assert Reorder(rows, b[..p] + b[p + 1..]) == front + back;
    assert multiset(front + back) == multiset(front) + multiset(back);
    assert multiset(front + [x] + back) == multiset(front) + multiset{x} + multiset(back);
  }

  /**
   * `sortSheet`. A null `sheet` stands for any argument that is not a
   * sheet; `order` is the order the service's sort puts the data rows in.
   */
  method SortSheet(sheet: Sheet?, criteria: Value, order: seq<nat>) returns (r: Outcome)
    requires sheet != null ==> sheet.Valid()
    modifies sheet
    ensures sheet == null ==> r == Raised(Error(SheetMessage))
    ensures sheet != null ==> sheet.Valid()
    ensures sheet != null ==> (r, sheet.grid, sheet.filter) == SortSheetSpec(old(sheet.grid), old(sheet.filter), criteria, order)
  {
    if sheet == null {
      return Raised(Error(SheetMessage));
    }
    if !criteria.Arr? {
      return Raised(Error(CriteriaMessage));
    }
    var cs := criteria.elems;
    if |cs| == 0 {
      return Done;
    }
    var columnCount := sheet.LastColumn();
    for i := 0 to |cs|
      invariant FirstCriterionError(cs, columnCount, 0) == FirstCriterionError(cs, columnCount, i)
    {
      var criterion := cs[i];
      if !Truthy(criterion) || !IsObject(criterion) {
        return Raised(Error(CriteriaMessage));
      }
      if !InColumnRange(Prop(criterion, "column"), columnCount) {
        return Raised(Error(ColumnMessage(i)));
      }
      if !Prop(criterion, "ascending").Bool? {
        return Raised(Error(AscendingMessage(i)));
      }
    }
    var lastRow := sheet.LastRow();
    if lastRow <= 1 {
      return Done;
    }
    var hadFilter := sheet.filter.Some?;
    if hadFilter {
      sheet.RemoveFilter();
    }
    var _ := sheet.SortData(order);
    if hadFilter {
      sheet.CreateFilter(1, 1, 1, columnCount);
    }
    r := Done;
  }
}
