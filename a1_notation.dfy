/**
 * A1 notation in SheetUtils.js: `columnToLetter`, which writes a column
 * number as bijective base-26 letters (A..Z, then AA), and
 * `buildRowRangeAddress`, which validates its arguments and writes the
 * address of a one-row range such as `Hoja 1!B2:D2`.
 */
module A1Notation {
  import opened JsValues
  import JsText
  import opened JsNumbers

  /** The letter of one bijective base-26 digit, 0 giving `A` and 25 giving `Z`. */
  function Letter(d: int): (c: char)
    requires 0 <= d < 26
    ensures 'A' <= c <= 'Z' && c as int - 'A' as int == d
  {
    (65 + d) as char
  }

  /** The column name of `col` in bijective base 26; nothing for a column below 1. */
  function ColumnName(col: int): string
    decreases col
  {
    if col <= 0 then "" else ColumnName((col - 1) / 26) + [Letter((col - 1) % 26)]
  }

  predicate IsColumnLetter(c: char)
  {
    'A' <= c <= 'Z'
  }

  /** `s` is a column name: one or more capital letters. */
  predicate IsColumnName(s: string)
  {
    s != [] && forall i :: 0 <= i < |s| ==> IsColumnLetter(s[i])
  }

  /** The column that a string of capital letters names, reading `A` as 1 and `Z` as 26. */
  function ColumnNumber(s: string): int
  {
    if s == [] then 0 else 26 * ColumnNumber(s[..|s| - 1]) + (s[|s| - 1] as int - 'A' as int + 1)
  }

  /** Every column from 1 on has a name made of capital letters only. */
  lemma {:induction false} ColumnNameShape(col: int)
    requires col >= 1
    ensures IsColumnName(ColumnName(col))
  {
    var q := (col - 1) / 26;
    if q >= 1 {
      ColumnNameShape(q);
    }
  }

  /** A column name read back as bijective base-26 digits gives the column. */
  lemma {:induction false} ColumnNumberOfName(col: int)
    requires col >= 0
    ensures ColumnNumber(ColumnName(col)) == col
  {
    if col > 0 {
      var q := (col - 1) / 26;
      var s := ColumnName(col);
      assert s[..|s| - 1] == ColumnName(q);
      ColumnNumberOfName(q);
    }
  }

  /** A string of capital letters is the name of the column it reads as: the names are exactly these strings. */
  lemma {:induction false} ColumnNameOfNumber(s: string)
    requires IsColumnName(s)
    ensures ColumnName(ColumnNumber(s)) == s
  {
    var p := s[..|s| - 1];
    var d := s[|s| - 1] as int - 'A' as int;
    if p != [] {
      assert IsColumnName(p) by {
        assert forall i :: 0 <= i < |p| ==> p[i] == s[i];
      }
      ColumnNameOfNumber(p);
      ColumnNumberPositive(p);
    }
    var n := ColumnNumber(s);
    assert n == 26 * ColumnNumber(p) + d + 1;
    assert (n - 1) / 26 == ColumnNumber(p) && (n - 1) % 26 == d;
    assert s == p + [s[|s| - 1]];
  }

  lemma {:induction false} ColumnNumberPositive(s: string)
    requires IsColumnName(s)
    ensures ColumnNumber(s) >= 1
  {
    var p := s[..|s| - 1];
    if p != [] {
      assert IsColumnName(p) by {
        assert forall i :: 0 <= i < |p| ==> p[i] == s[i];
      }
      ColumnNumberPositive(p);
    }
  }

  /** Different columns have different names. */
  lemma ColumnNameInjective(c: int, d: int)
    requires c >= 0 && d >= 0 && ColumnName(c) == ColumnName(d)
    ensures c == d
  {
    ColumnNumberOfName(c);
    ColumnNumberOfName(d);
  }

  lemma ColumnNameOne() ensures ColumnName(1) == "A" {}
  lemma ColumnNameTwentySix() ensures ColumnName(26) == "Z" {}
  lemma ColumnNameTwentySeven() ensures ColumnName(27) == "AA" {}
  lemma ColumnNameFiftyTwo() ensures ColumnName(52) == "AZ" {}
  lemma ColumnNameFiftyThree() ensures ColumnName(53) == "BA" {}

  /**
   * `columnToLetter(col)`: while `col > 0` the letter of `(col - 1) % 26` is
   * put in front and `col` becomes `floor((col - 1) / 26)`.
   */
  method ColumnToLetter(col: int) returns (letter: string)
    ensures letter == ColumnName(col)
    ensures col >= 1 ==> IsColumnName(letter) && ColumnNumber(letter) == col
    ensures col <= 0 ==> letter == ""
  {
    letter := "";
    var c := col;
    while c > 0
      invariant c <= 0 ==> c == col || c == 0
      invariant ColumnName(c) + letter == ColumnName(col)
      decreases c
    {
      var m := (c - 1) % 26;
      letter := [Letter(m)] + letter;
      c := (c - 1) / 26;
    }
    assert ColumnName(c) == "";
    assert letter == ColumnName(c) + letter;
    if col >= 1 {
      ColumnNameShape(col);
      ColumnNumberOfName(col);
    }
  }

  // ---------------------------------------------------------------------
  // buildRowRangeAddress

  const SheetNameMessage: string := "El parámetro 'sheetName' debe ser una cadena no vacía."
  const RowMessage: string := "El parámetro 'row' debe ser un número entero positivo (base 1)."
  const StartColMessage: string := "El parámetro 'startCol' debe ser un número entero positivo (base 1)."
  const LengthMessage: string := "El parámetro 'length' debe ser un número entero positivo."

  /** `Number.isInteger(v) && v > 0`. */
  predicate IsPositiveInteger(v: Value)
  {
    IsInteger(v) && v.n > 0.0
  }

  /** A sheet name that is a string with something other than whitespace in it. */
  predicate IsSheetName(v: Value)
  {
    v.Str? && JsText.Trim(v.s) != ""
  }

  /** The four arguments, checked in the source's order; the first failing check's error. */
  function AddressError(sheetName: Value, row: Value, startCol: Value, length: Value): (r: Option<JsError>)
    ensures r == None <==> IsSheetName(sheetName) && IsPositiveInteger(row) && IsPositiveInteger(startCol) && IsPositiveInteger(length)
  {
    if !IsSheetName(sheetName) then Some(Error(SheetNameMessage))
    else if !IsPositiveInteger(row) then Some(Error(RowMessage))
    else if !IsPositiveInteger(startCol) then Some(Error(StartColMessage))
    else if !IsPositiveInteger(length) then Some(Error(LengthMessage))
    else None
  }

  /**
   * `buildRowRangeAddress(sheetName, row, startCol, length)`: after the
   * checks, `name!<col><row>` for one cell and
   * `name!<first col><row>:<last col><row>` otherwise. The row is written
   * with `String(row)`; the sheet name is used as it is, with or without
   * spaces.
   */
  function BuildRowRangeAddress(host: Host, sheetName: Value, row: Value, startCol: Value, length: Value): (r: Result<string>)
    ensures r.Throw? <==> AddressError(sheetName, row, startCol, length).Some?
  {
    var err := AddressError(sheetName, row, startCol, length);
    if err.Some? then Throw(err.value)
    else
      var c := startCol.n.Floor;
      var rowText := NumberToString(host, row.n);
      var colStart := ColumnName(c);
      if length.n == 1.0 then Ok(sheetName.s + "!" + colStart + rowText)
      else Ok(sheetName.s + "!" + colStart + rowText + ":" + ColumnName(c + length.n.Floor - 1) + rowText)
  }

  /** The integer a positive integer number stands for. */
  function PositiveValue(v: Value): int
    requires IsPositiveInteger(v)
  {
    v.n.Floor
  }

  /**
   * For valid arguments, the address names the sheet, then the first
   * column and the row, and, for more than one cell, the last column
   * `startCol + length - 1` and the row again; each column name reads back
   * as its column and each row text as the row.
   */
  lemma BuildRowRangeAddressParts(host: Host, sheetName: Value, row: Value, startCol: Value, length: Value)
    requires IsSheetName(sheetName) && IsPositiveInteger(row) && IsPositiveInteger(startCol) && IsPositiveInteger(length)
    requires row.n < PlainLimit
    ensures var c := PositiveValue(startCol);
      var n := PositiveValue(length);
      var rowText := NatToDecimal(PositiveValue(row));
      && (n == 1 ==> BuildRowRangeAddress(host, sheetName, row, startCol, length) == Ok(sheetName.s + "!" + ColumnName(c) + rowText))
      && (n > 1 ==>
            BuildRowRangeAddress(host, sheetName, row, startCol, length)
            == Ok(sheetName.s + "!" + ColumnName(c) + rowText + ":" + ColumnName(c + n - 1) + rowText))
  {
  }

  // ---------------------------------------------------------------------
  // Reading an address back

  /** The parts of a one-row range address: the sheet, the first and last column, and the row. */
  datatype RowRange = RowRange(sheet: string, firstColumn: int, lastColumn: int, row: int)

  /** `s` split around its last `c`, if it has one. */
  function SplitLast(s: string, c: char): Option<(string, string)>
  {
    if s == [] then None
    else if s[|s| - 1] == c then Some((s[..|s| - 1], ""))
    else
      var r := SplitLast(s[..|s| - 1], c);
      if r.None? then None else Some((r.value.0, r.value.1 + [s[|s| - 1]]))
  }

  /** `s` split around its first `c`, if it has one. */
  function SplitFirst(s: string, c: char): Option<(string, string)>
  {
    if s == [] then None
    else if s[0] == c then Some(("", s[1..]))
    else
      var r := SplitFirst(s[1..], c);
      if r.None? then None else Some(([s[0]] + r.value.0, r.value.1))
  }

  /** The number of capital letters `t` starts with. */
  function CapitalRun(t: string): (k: nat)
    ensures k <= |t|
  {
    if t != [] && IsColumnLetter(t[0]) then 1 + CapitalRun(t[1..]) else 0
  }

  /** A cell reference `ColRow`: a column name, then the digits of the row. */
  function ParseCell(t: string): Option<(int, int)>
  {
    var k := CapitalRun(t);
    if k == 0 || k == |t| || !AllDigits(t[k..]) then None
    else Some((ColumnNumber(t[..k]), DigitsValue(t[k..])))
  }

  /**
   * Reads `sheet!ColRow` or `sheet!ColRow:ColRow` (both cells on one row).
   * The sheet name is everything before the last `!`, since the cells
   * hold none.
   */
  function ParseAddress(a: string): Option<RowRange>
  {
    var parts := SplitLast(a, '!');
    if parts.None? then None
    else
      var (sheet, cells) := parts.value;
      var pair := SplitFirst(cells, ':');
      if pair.None? then
        var cell := ParseCell(cells);
        if cell.None? then None else Some(RowRange(sheet, cell.value.0, cell.value.0, cell.value.1))
      else
        var first := ParseCell(pair.value.0);
        var last := ParseCell(pair.value.1);
        if first.None? || last.None? || first.value.1 != last.value.1 then None
        else Some(RowRange(sheet, first.value.0, last.value.0, first.value.1))
  }

  lemma {:induction false} SplitLastOf(a: string, c: char, b: string)
    requires c !in b
    ensures SplitLast(a + [c] + b, c) == Some((a, b))
    decreases |b|
  {
    var s := a + [c] + b;
    if b == [] {
      assert s[..|s| - 1] == a;
    } else {
      var b' := b[..|b| - 1];
      assert s[..|s| - 1] == a + [c] + b';
      assert s[|s| - 1] == b[|b| - 1];
      SplitLastOf(a, c, b');
      assert b' + [b[|b| - 1]] == b;
    }
  }

  lemma {:induction false} SplitFirstOf(a: string, c: char, b: string)
    requires c !in a
    ensures SplitFirst(a + [c] + b, c) == Some((a, b))
    decreases |a|
  {
    var s := a + [c] + b;
    if a == [] {
      assert s[1..] == b;
    } else {
      assert s[0] == a[0];
      assert s[1..] == a[1..] + [c] + b;
      SplitFirstOf(a[1..], c, b);
      assert [a[0]] + a[1..] == a;
    }
  }

  lemma {:induction false} SplitFirstNone(s: string, c: char)
    requires c !in s
    ensures SplitFirst(s, c) == None
    decreases |s|
  {
    if s != [] {
      assert s[0] != c;
      SplitFirstNone(s[1..], c);
    }
  }

  /** The text of the cell at column `c` and row `r`. */
  function CellText(c: int, r: nat): string
  {
    ColumnName(c) + NatToDecimal(r)
  }

  lemma {:induction false} CapitalRunOfName(name: string, digits: string)
    requires IsColumnName(name) && digits != [] && IsDigit(digits[0])
    ensures CapitalRun(name + digits) == |name|
    decreases |name|
  {
    var t := name + digits;
    assert t[0] == name[0];
    if |name| == 1 {
      assert t[1..] == digits;
    } else {
      assert t[1..] == name[1..] + digits;
      CapitalRunOfName(name[1..], digits);
    }
  }

  /** A cell text is letters and digits only. */
  lemma CellTextShape(c: int, r: nat)
    requires c >= 1
    ensures forall i :: 0 <= i < |CellText(c, r)| ==> IsColumnLetter(CellText(c, r)[i]) || IsDigit(CellText(c, r)[i])
  {
    ColumnNameShape(c);
  }

  /** A cell text reads back as its column and row. */
  lemma CellTextReadsBack(c: int, r: nat)
    requires c >= 1
    ensures ParseCell(CellText(c, r)) == Some((c, r))
  {
    var name := ColumnName(c);
    var digits := NatToDecimal(r);
    var t := name + digits;
    ColumnNameShape(c);
    CapitalRunOfName(name, digits);
    assert t[..|name|] == name && t[|name|..] == digits;
    ColumnNumberOfName(c);
    DecimalRoundTrip(r);
  }

  /** `sheet!cell` reads back as the sheet and the one cell. */
  lemma ParseAddressOfCell(sheet: string, cell: string, c: int, r: int)
    requires '!' !in cell && ':' !in cell && ParseCell(cell) == Some((c, r))
    ensures ParseAddress(sheet + "!" + cell) == Some(RowRange(sheet, c, c, r))
  {
    SplitLastOf(sheet, '!', cell);
    SplitFirstNone(cell, ':');
  }

  /** `sheet!one:two` reads back as the sheet and the two cells, when they are on one row. */
  lemma ParseAddressOfCells(sheet: string, one: string, two: string, c: int, d: int, r: int)
    requires '!' !in one && ':' !in one && '!' !in two
    requires ParseCell(one) == Some((c, r)) && ParseCell(two) == Some((d, r))
    ensures ParseAddress(sheet + "!" + (one + ":" + two)) == Some(RowRange(sheet, c, d, r))
  {
    var cells := one + ":" + two;
    assert '!' !in cells by {
      assert forall i :: 0 <= i < |cells| ==> cells[i] == (if i < |one| then one[i] else if i == |one| then ':' else two[i - |one| - 1]);
    }
    SplitLastOf(sheet, '!', cells);
    SplitFirstOf(one, ':', two);
  }

  /** The text of the cells of a one-row range: one cell, or the first and the last joined by `:`. */
  function CellsText(c: int, n: int, r: nat): string
  {
    if n == 1 then CellText(c, r) else CellText(c, r) + ":" + CellText(c + n - 1, r)
  }

  /** The cells of a one-row range read back as its columns and row. */
  lemma ParseAddressOfCellsText(sheet: string, c: int, n: int, r: nat)
    requires c >= 1 && n >= 1
    ensures ParseAddress(sheet + "!" + CellsText(c, n, r)) == Some(RowRange(sheet, c, c + n - 1, r))
  {
    CellTextReadsBack(c, r);
    CellTextPunctuation(c, r);
    if n == 1 {
      ParseAddressOfCell(sheet, CellText(c, r), c, r);
    } else {
      CellTextReadsBack(c + n - 1, r);
      CellTextPunctuation(c + n - 1, r);
      ParseAddressOfCells(sheet, CellText(c, r), CellText(c + n - 1, r), c, c + n - 1, r);
    }
  }

  /** For valid arguments, the address is the sheet name, `!` and the cells text. */
  lemma BuildRowRangeAddressText(host: Host, sheetName: Value, row: Value, startCol: Value, length: Value)
    requires IsSheetName(sheetName) && IsPositiveInteger(row) && IsPositiveInteger(startCol) && IsPositiveInteger(length)
    requires row.n < PlainLimit
    ensures BuildRowRangeAddress(host, sheetName, row, startCol, length)
      == Ok(sheetName.s + "!" + CellsText(PositiveValue(startCol), PositiveValue(length), PositiveValue(row)))
  {
    var c := PositiveValue(startCol);
    var n := PositiveValue(length);
    var digits := NatToDecimal(PositiveValue(row));
    BuildRowRangeAddressParts(host, sheetName, row, startCol, length);
    if n == 1 {
      JoinCell(sheetName.s, ColumnName(c), digits);
    } else {
      JoinCells(sheetName.s, ColumnName(c), digits, ColumnName(c + n - 1));
    }
  }

  lemma JoinCell(sheet: string, name: string, digits: string)
    ensures sheet + "!" + name + digits == sheet + "!" + (name + digits)
  {
  }

  lemma JoinCells(sheet: string, name: string, digits: string, last: string)
    ensures sheet + "!" + name + digits + ":" + last + digits == sheet + "!" + ((name + digits) + ":" + (last + digits))
  {
  }

  /** No cell text holds `!` or `:`. */
  lemma CellTextPunctuation(c: int, r: nat)
    requires c >= 1
    ensures '!' !in CellText(c, r) && ':' !in CellText(c, r)
  {
    CellTextShape(c, r);
  }

  /** The text built from valid arguments parses back to the same row range. */
  lemma RowRangeTextReadsBack(sheetName: Value, row: Value, startCol: Value, length: Value)
    requires IsSheetName(sheetName) && IsPositiveInteger(row) && IsPositiveInteger(startCol) && IsPositiveInteger(length)
    ensures var c := PositiveValue(startCol);
      ParseAddress(sheetName.s + "!" + CellsText(c, PositiveValue(length), PositiveValue(row)))
        == Some(RowRange(sheetName.s, c, c + PositiveValue(length) - 1, PositiveValue(row)))
  {
    ParseAddressOfCellsText(sheetName.s, PositiveValue(startCol), PositiveValue(length), PositiveValue(row));
  }

  /**
   * For valid arguments, the address reads back as the sheet name, the
   * first column `startCol`, the last column `startCol + length - 1` and
   * the row.
   */
  lemma BuildRowRangeAddressReadsBack(host: Host, sheetName: Value, row: Value, startCol: Value, length: Value)
    requires IsSheetName(sheetName) && IsPositiveInteger(row) && IsPositiveInteger(startCol) && IsPositiveInteger(length)
    requires row.n < PlainLimit
    ensures var r := BuildRowRangeAddress(host, sheetName, row, startCol, length);
      var c := PositiveValue(startCol);
      r.Ok? && ParseAddress(r.value) == Some(RowRange(sheetName.s, c, c + PositiveValue(length) - 1, PositiveValue(row)))
  {
    BuildRowRangeAddressText(host, sheetName, row, startCol, length);
    RowRangeTextReadsBack(sheetName, row, startCol, length);
  }

  /** `buildRowRangeAddress("Hoja 1", 2, 2, 3)` is `Hoja 1!B2:D2`. */
  lemma BuildRowRangeAddressExample(host: Host)
    ensures BuildRowRangeAddress(host, Str("Hoja 1"), Num(2.0), Num(2.0), Num(3.0)) == Ok("Hoja 1!B2:D2")
  {
    assert JsText.Trim("Hoja 1") != "" by {
      assert JsText.TrimStart("Hoja 1") == "Hoja 1";
    }
    assert NumberToString(host, 2.0) == "2" by {
      assert IsIntegral(2.0) && (2.0).Floor == 2;
      assert NatToDecimal(2) == "2";
    }
    assert (3.0).Floor == 3;
    assert ColumnName(2) == "B";
    assert ColumnName(4) == "D";
    assert "Hoja 1" + "!" + "B" + "2" + ":" + "D" + "2" == "Hoja 1!B2:D2";
  }
}
