# A verified model of the Apps Script utility library

This project models the core of a Google Apps Script utility library in
Dafny and proves properties of the model. The library handles spreadsheet
cells, text, dates, duck-typed validation and testing. The model covers:

- **Sheet cell values (SheetUtils.js).**
  - The five normalisers that turn a cell value into a string, float, integer, boolean or date.
  - `getNormalizer` and the cell-type list.
  - `areEqual`, with its type resolution exactly as written.
  - A1 addressing: `columnToLetter` and `buildRowRangeAddress`.
- **Sheet table operations (SheetUtils.js).**
  - `getValuesFromColumn` and `getUniqueValuesFromColumn`.
  - `writeTableToSheet`, `appendRowsToSheet`, `updateRowsInSheet`, and the validation and filter handling of `sortSheet`.
  - These run on a `Sheet` class that holds the sheet's data range and its filter. Its methods stand for the spreadsheet service calls the library makes: `getRange(...).getValues()`, `setValues`, `appendRow`, `sort`, `getFilter().remove()` and `createFilter()`.
- **Text (StringUtils.js).**
  - `toSlug` and `toSlugMemoized`, whose slug cache is a class whose entries the method updates.
  - `isISODateString`.
- **Timestamps (DateUtils.js).** `getTimestamp`, with the clock passed in as a parameter.
- **Duck typing (OtherUtils.js).** `_validate` and `isMap`.
- **Test harness (TestingUtils.js).**
  - `describe`, `it` and their counters, on a `TestRunner` class that holds the global summary and the current block.
  - `assertTrue`, `assertFalse` and `assertFunctionParams`.

## Modules

| module | file | what it holds |
|---|---|---|
| `JsValues` | js_values.dfy | the JavaScript values the library handles, its errors, truthiness and property reads |
| `JsText` | js_text.dfy | `trim`, `toLowerCase`, `indexOf` and `replace` on text |
| `JsNumbers` | js_numbers.dfy | decimal text of integers, `parseInt`, `parseFloat` |
| `JsCoerce` | js_coerce.dfy | `String(v)` |
| `SheetValues` | sheet_values.dfy | `cellValueTypes`, the normalisers, `getNormalizer`, `areEqual` |
| `A1Notation` | a1_notation.dfy | `columnToLetter`, `buildRowRangeAddress` |
| `SheetGrid` | sheet_grid.dfy | the data range of a sheet, the `Sheet` class and its service calls |
| `SheetColumn` | sheet_column.dfy | `getValuesFromColumn`, `getUniqueValuesFromColumn` |
| `SheetWrite` | sheet_write.dfy | `writeTableToSheet`, `appendRowsToSheet` |
| `SheetUpdate` | sheet_update.dfy | `updateRowsInSheet` |
| `SheetSort` | sheet_sort.dfy | `sortSheet` |
| `StringUtils` | string_utils.dfy | `toSlug`, `toSlugMemoized`, `isISODateString` |
| `SlugExamples` | slug_examples.dfy | the slugs of the library's own examples |
| `DateUtils` | date_utils.dfy | `getTimestamp` |
| `OtherUtils` | other_utils.dfy | `_validate`, `isMap` |
| `TestingUtils` | testing_utils.dfy | `describe`, `it`, the assertions |

### How the model is set up

- **Host oracle.** Some behaviour lives in code outside this model, in the
  JavaScript engine or in the time zone. The model takes it as a parameter
  `host: Host`, and every theorem holds for every host. That covers:
  - the text of a Date;
  - the text of a non-integral number, or of one at or beyond 1e21;
  - the local date that `new Date(isoString)` denotes;
  - `isDDMMYYYY` and `parseDDMMYYYY`.
- **Dates.** A Date is a local day number plus the milliseconds into that day.
- **Numbers.** A number is a `real`. Integers below 1e21 in magnitude print as
  their decimal digits. `parseFloat` reads the exact decimal value.
- **The spreadsheet service.** The service's own range errors (a start
  before row or column 1, an empty range, values of the wrong size) are the
  error `HostError`.
  - The sheet grows without bound: the service's maximum rows and columns are not modelled.
  - Its last row is the last row of the stored data range, trailing blank rows included.
  - A cell holds exactly the value written and reads back as it: formulas are not evaluated and text is not converted to numbers, dates or booleans.
- **Quirks kept as written.**
  - `appendRowsToSheet` rejects bad column titles with the message that names `sortCriteria` (SheetUtils.js:543-545).
  - `buildRowRangeAddress` uses the sheet name as it is: its `safeSheetName` (SheetUtils.js:495) quotes nothing.
  - `updateRowsInSheet` raises a ReferenceError for a `keyType` that is not a string, because its check reads an undefined `type` (SheetUtils.js:600). A string `keyType` that names no type is accepted and normalises nothing.
  - Error messages are the source's own Spanish texts.

## Model

| member | source | states |
|---|---|---|
| SheetValues.ParseCellType | SheetUtils.js:45 | a value is recognised as a cell type only when it is that type's name |
| SheetValues.ParseCellTypeOfName | SheetUtils.js:45 | every one of the five type names is recognised as its own type |
| SheetValues.GetNormalizer | SheetUtils.js:73-79 | succeeds exactly for the five type names and gives the named type; any other value raises the invalid-type error |
| SheetValues.NormalizeStringTrimmed | SheetUtils.js:88-91 | the normalised text has no surrounding whitespace |
| SheetValues.NormalizeStringIdempotent | SheetUtils.js:88-91 | normalising a normalised text again changes nothing |
| SheetValues.NormalizeStringOfText | SheetUtils.js:88-91 | a text normalises to its trim |
| SheetValues.NormalizeIntegerOfNumber | SheetUtils.js:100-109 | an integer below 1e21 in magnitude normalises to itself |
| SheetValues.NormalizeIntegerOfDecimal | SheetUtils.js:100-109 | the decimal text of an integer normalises to that integer |
| SheetValues.NormalizeIntegerTruncates | SheetUtils.js:100-109 | `parseInt` stops at the decimal point: `ip.fp` normalises to `ip` |
| SheetValues.NormalizeIntegerRejects | SheetUtils.js:100-109 | a text starting with anything other than whitespace, a sign or a digit gives null |
| SheetValues.NormalizeIntegerOfNull | SheetUtils.js:100-109 | null gives null, because its text is "null" |
| SheetValues.RewriteSeparators | SheetUtils.js:125-140 | with no comma the text is unchanged; a comma before the first point leaves no comma; a point before the first comma shortens the text |
| SheetValues.NormalizeFloat | SheetUtils.js:118-152 | a number is returned unchanged; anything that is neither a number nor a text gives null |
| SheetValues.NormalizeFloatOfText | SheetUtils.js:124-143 | a text normalises to `parseFloat` of its trimmed, rewritten form |
| SheetValues.NormalizeFloatOfDecimal | SheetUtils.js:124-143 | a text rewritten to `ip.fp` normalises to that exact decimal value |
| SheetValues.RewriteThousandsComma | SheetUtils.js:127-130 | with a comma before the first point, every comma is removed |
| SheetValues.RewriteThousandsPoint | SheetUtils.js:131-134 | with a point before the first comma, every point is removed and the first comma becomes the point |
| SheetValues.RewriteEnglish | SheetUtils.js:125-140 | `a,b.c` is rewritten to `ab.c` |
| SheetValues.RewriteSpanish | SheetUtils.js:125-140 | `a.b,c` is rewritten to `ab.c` |
| SheetValues.RewriteDecimalComma | SheetUtils.js:135-137 | a lone comma becomes the decimal point |
| SheetValues.RewriteDecimalPoint | SheetUtils.js:138-140 | a lone point is kept |
| SheetValues.NormalizeFloatEnglish | SheetUtils.js:118-152 | digits, a thousands comma, digits, a point and digits read as the same number without the comma |
| SheetValues.NormalizeFloatSpanish | SheetUtils.js:118-152 | digits, a thousands point, digits, a comma and digits read as the same number with the comma as the point |
| SheetValues.NormalizeFloatDecimalComma | SheetUtils.js:118-152 | `a,c` normalises to the decimal `a.c` |
| SheetValues.NormalizeFloatDecimalPoint | SheetUtils.js:118-152 | `a.c` normalises to the decimal `a.c` |
| SheetValues.NormalizeFloatEnglishExample | SheetUtils.js:118-152 | "1,234.56" is 1234.56 |
| SheetValues.NormalizeFloatSpanishExample | SheetUtils.js:118-152 | "1.234,56" is 1234.56 |
| SheetValues.NormalizeFloatCommaExample | SheetUtils.js:118-152 | "3,14" is 3.14 |
| SheetValues.WordValue | SheetUtils.js:208-209 | a word is true exactly when it is in the true list, and false exactly when it is in the false list |
| SheetValues.NormalizeBoolean | SheetUtils.js:202-223 | a boolean is kept; the number 1 is true and 0 is false, and no other number gives either; anything that is not a boolean, number or text gives null |
| SheetValues.BooleanWordsDisjoint | SheetUtils.js:208-209 | no word is in both lists |
| SheetValues.NormalizeBooleanOfString | SheetUtils.js:206-210 | a text is looked up in the two word lists once trimmed and lower-cased |
| SheetValues.NormalizeBooleanWords | SheetUtils.js:208-209 | each listed word, as written, reads as its own truth value |
| SheetValues.NormalizeBooleanCanonical | SheetUtils.js:206-210 | capitals and surrounding whitespace make no difference |
| SheetValues.NormalizeBooleanOfText | SheetUtils.js:202-223 | the text of a boolean reads back as that boolean |
| SheetValues.NormalizeBooleanRejects | SheetUtils.js:202-223 | a text gives null exactly when its trimmed lower-case form is in neither word list |
| SheetValues.DaysFromCivilFacts | SheetUtils.js:179-181 | the day count is 0 on 1970-01-01 and advances by one each day |
| SheetValues.NormalizeDate | SheetUtils.js:163-193 | a Date becomes the same day at midnight; a number n becomes the serial origin plus floor(n) days at midnight; anything that is not a Date, number or text gives null; every result is at midnight |
| SheetValues.NormalizeDateSerial | SheetUtils.js:178-185 | serial 1 is 1899-12-31; the fractional part is dropped; each whole unit is one day |
| SheetValues.ShortIsoIsNotIsoDateString | StringUtils.js:66-69 | an ISO text without milliseconds is not taken as an ISO date-time string |
| SheetValues.NormalizeDateIdempotent | SheetUtils.js:163-193 | a normalised date normalises to itself |
| SheetValues.Normalize | SheetUtils.js:59-65 | no type leaves the value unchanged; each normaliser gives its own kind of value or null, and a date at midnight |
| SheetValues.ResultValuesInjective | SheetUtils.js:100-223 | distinct normaliser results are distinct JavaScript values |
| SheetValues.NormalizeIdempotent | SheetUtils.js:59-65 | every normaliser except the integer one is idempotent |
| SheetValues.NormalizeIntegerIdempotent | SheetUtils.js:100-109 | the integer normaliser is idempotent below 1e21 in magnitude |
| SheetValues.Detect | SheetUtils.js:255-262 | no type is detected exactly for values that are not a Date, boolean, number or text |
| SheetValues.CompareAsCases | SheetUtils.js:268-284 | under each resolved type, two values are equal exactly when that type's normaliser makes the same of both; with no type, when their trimmed texts agree |
| SheetValues.CompareAsString | SheetUtils.js:283-284 | under the string type, equal exactly when the normalised texts are |
| SheetValues.CompareAsFloat | SheetUtils.js:279-281 | under the float type, equal exactly when `normalizeFloat` gives the same for both |
| SheetValues.CompareAsInteger | SheetUtils.js:279-281 | under the integer type, equal exactly when `normalizeInteger` gives the same for both |
| SheetValues.CompareAsBoolean | SheetUtils.js:279-281 | under the boolean type, equal exactly when `normalizeBoolean` gives the same for both |
| SheetValues.CompareAsDate | SheetUtils.js:273-277 | under the date type, equal exactly when both normalise to the same midnight or both to null |
| SheetValues.CompareAsUntyped | SheetUtils.js:268-284 | with no type, the values' own trimmed texts are compared |
| SheetValues.CompareAsReflexive | SheetUtils.js:268-284 | under any type a value equals itself |
| SheetValues.CompareAsSymmetric | SheetUtils.js:268-284 | under any type the comparison is symmetric |
| SheetValues.ResolveAsWritten | SheetUtils.js:267 | a given type selects `a`'s detected type; without one, a non-string `a` gives its own type and a string `a` gives `b`'s type or string |
| SheetValues.ResolveCorrected | SheetUtils.js:267 | the given type when there is one, else the as-written resolution |
| SheetValues.AreEqual | SheetUtils.js:234-290 | throws exactly for an invalid type or a value that is not comparable, with the two messages in that order |
| SheetValues.AreEqualCorrected | SheetUtils.js:234-290 | raises the same errors as the as-written version |
| SheetValues.AreEqualGivenTypeIgnored | SheetUtils.js:267 | as written, a given type compares under `a`'s detected type |
| SheetValues.AreEqualCorrectedUsesGivenType | SheetUtils.js:267 | corrected, a given type is the comparison type |
| SheetValues.AreEqualCorrectedOfBooleans | SheetUtils.js:267 | corrected, under the boolean type, two comparable values that `normalizeBoolean` reads alike are equal |
| SheetValues.AreEqualCorrectedAgrees | SheetUtils.js:267 | without a type, both versions agree |
| SheetValues.AreEqualBooleanText | SheetUtils.js:267 | as written, a true word other than "true" is not equal to `true` under the boolean type |
| SheetValues.AreEqualCorrectedBooleanText | SheetUtils.js:267 | corrected, every true word equals `true` under the boolean type |
| SheetValues.AreEqualReflexive | SheetUtils.js:234-290 | a comparable value equals itself under any valid type, in both versions |
| SheetValues.AreEqualSymmetricSameKind | SheetUtils.js:264-284 | values of the same detected kind compare the same in either order |
| SheetValues.AreEqualTextNull | SheetUtils.js:267-284 | `areEqual("", null)` is true |
| SheetValues.AreEqualNullText | SheetUtils.js:267-284 | `areEqual(null, "")` is false |
| SheetValues.AreEqualNullNullText | SheetUtils.js:267-284 | null against the text "null" resolves to no type and compares "null" with "null", so true |
| SheetValues.AreEqualNullUndefined | SheetUtils.js:267-284 | null and undefined are not equal |
| SheetValues.AreEqualNullZero | SheetUtils.js:267-284 | null and 0 are not equal |
| SheetValues.AreEqualDates | SheetUtils.js:273-277 | two Dates are equal exactly when they fall on the same day, under any valid type |
| SheetValues.AreEqualNumbers | SheetUtils.js:279-281 | two numbers are equal exactly when they are the same number, under any valid type |
| SheetValues.AreEqualStrings | SheetUtils.js:283-284 | two texts are equal exactly when their trims agree, under any valid type |
| SheetValues.AreEqualTextAndNumber | SheetUtils.js:267-281 | a text against a number is compared as the number `normalizeFloat` reads from the text |
| A1Notation.Letter | SheetUtils.js:521 | a digit from 0 to 25 becomes the capital letter at that distance from `A` |
| A1Notation.ColumnToLetter | SheetUtils.js:517-525 | the loop computes the bijective base-26 name; from column 1 on it is made of capitals and reads back as the column; below 1 it is empty |
| A1Notation.ColumnNameShape | SheetUtils.js:517-525 | every column from 1 on has a name of capital letters only |
| A1Notation.ColumnNumberOfName | SheetUtils.js:517-525 | a column name reads back as its column |
| A1Notation.ColumnNameOfNumber | SheetUtils.js:517-525 | every string of capitals is the name of the column it reads as |
| A1Notation.ColumnNumberPositive | SheetUtils.js:517-525 | every name reads as a column of at least 1 |
| A1Notation.ColumnNameInjective | SheetUtils.js:517-525 | different columns have different names |
| A1Notation.ColumnNameOne | SheetUtils.js:517-525 | column 1 is `A` |
| A1Notation.ColumnNameTwentySix | SheetUtils.js:517-525 | column 26 is `Z` |
| A1Notation.ColumnNameTwentySeven | SheetUtils.js:517-525 | column 27 is `AA` |
| A1Notation.ColumnNameFiftyTwo | SheetUtils.js:517-525 | column 52 is `AZ` |
| A1Notation.ColumnNameFiftyThree | SheetUtils.js:517-525 | column 53 is `BA` |
| A1Notation.AddressError | SheetUtils.js:480-491 | no error exactly when the sheet name is a non-blank string and the row, start column and length are positive integers |
| A1Notation.BuildRowRangeAddress | SheetUtils.js:479-508 | throws exactly when an argument check fails |
| A1Notation.BuildRowRangeAddressParts | SheetUtils.js:493-502 | a valid length 1 gives `name!<col><row>`; a longer one adds `:<last col><row>`, the last column being `startCol + length - 1` |
| A1Notation.BuildRowRangeAddressText | SheetUtils.js:493-502 | for valid arguments the result is the sheet name, `!`, and the cell text (one cell, or first and last cell joined by `:`) |
| A1Notation.BuildRowRangeAddressReadsBack | SheetUtils.js:494-502 | for valid arguments the address text parses back to the same sheet name, first column `startCol`, last column `startCol + length - 1` and row |
| A1Notation.BuildRowRangeAddressExample | SheetUtils.js:479-508 | `("Hoja 1", 2, 2, 3)` gives `Hoja 1!B2:D2` |
| SheetGrid.Overwrite | SheetUtils.js:429 | the data range grows to cover the written block and stays well formed |
| SheetGrid.OverwriteCells | SheetUtils.js:429 | a write puts the block in its cells and leaves every other cell as it was |
| SheetGrid.Values | SheetUtils.js:638-639 | a read gives a rectangle of the requested size whose cells are the sheet's |
| SheetGrid.ValuesOfOverwrite | SheetUtils.js:660 | reading back a block just written gives the block |
| SheetGrid.Reorder | SheetUtils.js:734-735 | the rows taken in the given order of indices |
| SheetGrid.Sheet.constructor | SheetUtils.js:457 | a new sheet is empty and has no filter |
| SheetGrid.Sheet.GetValues | SheetUtils.js:638-639 | a read succeeds exactly for a range starting at row and column 1 or later and at least one cell high and wide, and gives that range's values |
| SheetGrid.Sheet.SetValues | SheetUtils.js:429 | succeeds exactly for a valid range with values of its exact size, and overwrites that block; a rejected write changes nothing; the filter is kept |
| SheetGrid.Sheet.AppendRow | SheetUtils.js:552-555 | the values become a new row after the last one |
| SheetGrid.Sheet.SortData | SheetUtils.js:734-735 | succeeds exactly when the order is a permutation of the data rows, and reorders them with the header row kept first |
| SheetGrid.Sheet.RemoveFilter | SheetUtils.js:729-731 | the filter is gone and the cells are unchanged |
| SheetGrid.Sheet.CreateFilter | SheetUtils.js:739-741 | the filter covers the given range and the cells are unchanged |
| SheetColumn.FilterFromThrows | SheetUtils.js:343-354 | the filter fails exactly when the callback throws on some element |
| SheetColumn.FilterFromMembers | SheetUtils.js:343-354 | the filter keeps only elements of the array, and no more of them than the array has |
| SheetColumn.FilterFromComplete | SheetUtils.js:343-354 | every element the callback accepts is kept |
| SheetColumn.FilterFromAll | SheetUtils.js:343-354 | a callback that accepts everything keeps the whole array |
| SheetColumn.MapFrom | SheetUtils.js:347-350 | a successful map has one image per element |
| SheetColumn.MapFromFacts | SheetUtils.js:347-350 | the map gives each element's image in place, or fails exactly when the function throws on some element |
| SheetColumn.Column | SheetUtils.js:347-350 | the given 0-based cell of every row |
| SheetColumn.GetValuesFromColumn | SheetUtils.js:314-362 | something that is not a sheet, or a column index that is not a non-negative integer, gives null |
| SheetColumn.GetUniqueValuesFromColumn | SheetUtils.js:386-389 | null exactly when the column's values are null; otherwise the set of those values |
| SheetColumn.GetValuesFromColumnPlain | SheetUtils.js:314-362 | with no handlers, the column's values from the header row down |
| SheetColumn.GetValuesFromColumnPastEnd | SheetUtils.js:337-340 | a column at or past the last one gives null |
| SheetColumn.GetValuesFromColumnNewSheet | SheetUtils.js:326-333 | a data range of one cell gives `[]` |
| SheetColumn.GetValuesFromColumnMembers | SheetUtils.js:314-362 | without a formatter, every value returned is from the column, and there are no more values than rows |
| SheetColumn.GetValuesFromColumnRowFilterThrows | SheetUtils.js:343-361 | a row filter that throws makes the result null |
| SheetWrite.Rows | SheetUtils.js:407-415 | the cells of each row of an array of arrays |
| SheetWrite.MaxWidth | SheetUtils.js:410-415 | the largest row length, attained by some row; 0 for no rows |
| SheetWrite.PadRow | SheetUtils.js:418-422 | the row followed by `''` cells up to the width |
| SheetWrite.PadTable | SheetUtils.js:418-422 | every row padded to the width |
| SheetWrite.PadRowInPlace | SheetUtils.js:419-421 | the filled array with the row written over its first cells is the padded row |
| SheetWrite.PadRows | SheetUtils.js:418-422 | mapping every row through the padding gives the table padded to width w |
| SheetWrite.WriteTableToSheet | SheetUtils.js:402-436 | something that is not a sheet raises the sheet error; otherwise the outcome and the new data range are those of the write, and the filter is kept |
| SheetWrite.WriteTableWrites | SheetUtils.js:402-436 | a successful write had an array of arrays, starts of at least 1 and a non-zero width, and overwrote the block at the start position with the table padded to its widest row |
| SheetWrite.PaddedBlockCells | SheetUtils.js:419-433 | after rows padded to the widest are written, each cell of the block holds the row's value, or `''` past the row's end, and every other cell is as before |
| SheetWrite.WriteTableFailsCleanly | SheetUtils.js:402-436 | a failed write and an empty table change nothing; a table that is not an array of arrays raises the table error |
| SheetWrite.WriteTableRejects | SheetUtils.js:410-430 | the service rejects the write exactly when every row is empty or the start is before row or column 1 |
| SheetWrite.MarkCell | SheetUtils.js:560-564 | a non-text cell is kept; a text cell stays text |
| SheetWrite.MarkCellWithoutMarker | SheetUtils.js:560-564 | a text without `__ROW__` is kept |
| SheetWrite.MarkCellOfMarker | SheetUtils.js:560-564 | a cell that is just `__ROW__` becomes the row number |
| SheetWrite.MarkCellAround | SheetUtils.js:560-564 | the text around one marker is kept around the row number |
| SheetWrite.ReplaceAllAround | SheetUtils.js:562 | replacing every marker in text with a single marker leaves the surrounding text |
| SheetWrite.MarkRow | SheetUtils.js:560-564 | each cell of the row is marked with the row's number |
| SheetWrite.MarkRows | SheetUtils.js:558-565 | the row at index i is marked with `lastRow + 1 + i` |
| SheetWrite.AppendRowsToSheet | SheetUtils.js:534-574 | something that is not a sheet raises the sheet error; otherwise the outcome and the new data range are those of the append, and the filter is kept |
| SheetWrite.AppendRowsWrites | SheetUtils.js:534-574 | a successful append had an array of titles and an array of arrays, and overwrote, from the row after the last one, the sheet with titles added by the marked rows |
| SheetWrite.AppendedCells | SheetUtils.js:548-574 | titles then the marked rows written over a sheet keep its old rows, put the titles in row 1 of an empty sheet, each row after the last with `__ROW__` replaced by its own number, and nothing below |
| SheetWrite.AppendRowsPlacement | SheetUtils.js:534-574 | after a successful append: the old rows are kept; the titles are the first row of a sheet that was empty; row i follows with `__ROW__` replaced by `lastRow + 1 + i`; nothing lies below |
| SheetWrite.AppendRowsMarkerExample | SheetUtils.js:558-565 | `["__ROW__", "data"]` appended as row 2 becomes `["2", "data"]` |
| SheetUpdate.Slot | SheetUtils.js:628-630 | a blank key cell contributes nothing; any other contributes its normalised value |
| SheetUpdate.RowMapDomain | SheetUtils.js:627-632 | a key is in the row map exactly when some slot holds it |
| SheetUpdate.RowMapLastWins | SheetUtils.js:627-632 | a key maps to the row of the last slot holding it |
| SheetUpdate.RowMapRows | SheetUtils.js:627-632 | every row in the row map is between 2 and the number of slots plus one |
| SheetUpdate.KeyMapDomain | SheetUtils.js:627-632 | a key is in the map exactly when some non-blank key cell normalises to it |
| SheetUpdate.KeyMapLastWins | SheetUtils.js:627-632 | a key in the map maps to the row of the last key cell that normalises to it: no later non-blank cell has that key |
| SheetUpdate.KeyMapRows | SheetUtils.js:627-632 | every row in the map is a data row, from 2 to the last row |
| SheetUpdate.BuildKeyMap | SheetUtils.js:627-632 | the loop builds the key map |
| SheetUpdate.Lookup | SheetUtils.js:635-636 | a key is found exactly when it is a plain value held by the map, and the lookup gives its row; Dates, arrays and objects are never found |
| SheetUpdate.KeyCells | SheetUtils.js:619-622 | the key column of rows 2 to the last row |
| SheetUpdate.RowLength | SheetUtils.js:616 | a missing record or row raises a TypeError; an array row gives its length |
| SheetUpdate.HasChangesMeaning | SheetUtils.js:642-645 | a record has changes exactly when some defined incoming cell is not `areEqual` to the original |
| SheetUpdate.HasChangesOfEqual | SheetUtils.js:642-647 | when every defined cell equals the original, there are no changes |
| SheetUpdate.FinalRow | SheetUtils.js:656-658 | each cell is the original where the processed cell is undefined, else the processed cell |
| SheetUpdate.RowCells | SheetUtils.js:638-639 | the first n cells of the row |
| SheetUpdate.UpdateEntryBounds | SheetUtils.js:634-663 | a record counts 0 or 1, and only a record that counts 1 changes the sheet |
| SheetUpdate.UpdateEntryWrites | SheetUtils.js:634-663 | a written record changes exactly the first n cells of its target row: each defined incoming cell with `__ROW__` replaced, and the original elsewhere |
| SheetUpdate.UpdateEntryWritesRow | SheetUtils.js:634-660 | a record that counts 1 had its key found, a valid column count and an array row, and the sheet is its target row overwritten by the merged row |
| SheetUpdate.RowWriteCells | SheetUtils.js:650-660 | writing the merged row puts each defined incoming cell, `__ROW__` replaced, in the first n cells of the target row, keeps the original where the incoming cell is undefined, and changes no other cell |
| SheetUpdate.UpdateEntrySameValues | SheetUtils.js:642-647 | a record repeating the row's current values changes nothing and counts 0 |
| SheetUpdate.UpdateAllBounds | SheetUtils.js:665 | the count lies between 0 and the number of records, and the sheet stays well formed |
| SheetUpdate.UpdateAllNothingCounted | SheetUtils.js:634-665 | a count of 0 means nothing was written |
| SheetUpdate.UpdateAllUntargetedRow | SheetUtils.js:634-665 | a row no record targets keeps every cell |
| SheetUpdate.UpdateRowsNothingToDo | SheetUtils.js:609-613 | no records, or no data row, gives 0 with nothing written |
| SheetUpdate.UpdateRowsRejects | SheetUtils.js:592-606 | a rejected argument raises and changes nothing |
| SheetUpdate.UpdateRowsKeepsTitles | SheetUtils.js:591-671 | the title row is never written, the count is at most the number of records, and 0 leaves the sheet as it was |
| SheetUpdate.UpdateEntryInSheet | SheetUtils.js:634-663 | one record on the sheet has the outcome and new data range of its specification; the filter is kept |
| SheetUpdate.WriteChangedRowInSheet | SheetUtils.js:638-662 | reading, comparing and writing back the target row has the outcome and new data range of its specification; the filter is kept |
| SheetUpdate.UpdateEntriesInSheet | SheetUtils.js:634-665 | the records in order, each on the sheet the earlier ones left, have the outcome and new data range of their specification |
| SheetUpdate.UpdateRowsInSheet | SheetUtils.js:591-671 | something that is not a sheet raises the sheet error; otherwise the outcome and the new data range are those of `updateRowsInSheet`, and the filter is kept |
| SheetSort.CriterionError | SheetUtils.js:703-717 | no error exactly when the criterion is an object whose column lies between 1 and the last column and whose `ascending` is a boolean |
| SheetSort.FirstCriterionErrorIsFirst | SheetUtils.js:700-718 | the criteria are accepted exactly when none is bad; otherwise the error is that of the first bad one |
| SheetSort.SortSheetRejectsUnchanged | SheetUtils.js:692-718 | a rejected call leaves the rows and the filter as they were |
| SheetSort.SortSheetRejects | SheetUtils.js:692-718 | a call is rejected exactly when the criteria are not an array or one criterion is bad |
| SheetSort.SortSheetPermutes | SheetUtils.js:720-743 | the header row stays first and the data rows are a permutation of the old ones |
| SheetSort.SortSheetRestoresFilter | SheetUtils.js:727-742 | a sort that goes ahead ends with a filter on the header row exactly when the sheet had one |
| SheetSort.ReorderPermutes | SheetUtils.js:734-735 | rows taken in an order of all their indices are a permutation of them |
| SheetSort.SortSheet | SheetUtils.js:687-743 | something that is not a sheet raises the sheet error; otherwise the outcome, data range and filter are those of `sortSheet` |
| StringUtils.StripMarks | StringUtils.js:48-49 | on ASCII text, only `^` and the backquote are dropped |
| StringUtils.Replacement | StringUtils.js:36-51 | a word character is kept as it is |
| StringUtils.CollapseNonWord | StringUtils.js:53 | the result has only word characters |
| StringUtils.CollapseUnderscores | StringUtils.js:55 | no `__` is left, and the first and last characters are kept |
| StringUtils.ToSlugIsSlug | StringUtils.js:47-56 | every slug uses only `[a-z0-9_]`, has no `_` at either end and no `__` |
| StringUtils.ToSlugOfSlug | StringUtils.js:47-56 | a slug is its own slug |
| StringUtils.ToSlugIdempotent | StringUtils.js:47-56 | `toSlug` applied to its own result changes nothing |
| StringUtils.ToSlugOfNonString | StringUtils.js:34 | anything that is not a string gives `""` |
| StringUtils.ReadCache | StringUtils.js:20 | nothing is found exactly for a key that is neither stored nor an inherited member |
| StringUtils.MemoizedStoresSlug | StringUtils.js:17-24 | apart from inherited names, the cache afterwards holds the slug for the text, and no other entry changes |
| StringUtils.MemoizedKeepsCacheValid | StringUtils.js:17-24 | the cache keeps holding only true slugs |
| StringUtils.MemoizedEntriesOfNewKey | StringUtils.js:20-22 | a new key gets its slug stored |
| StringUtils.MemoizedEntriesOfEmptySlug | StringUtils.js:20-22 | a stored empty slug counts as missing and is stored again |
| StringUtils.MemoizedEntriesOfStoredSlug | StringUtils.js:20-23 | a stored non-empty slug is returned and the cache is left as it is |
| StringUtils.MemoizedIsToSlug | StringUtils.js:17-24 | apart from inherited names, `toSlugMemoized` returns `toSlug` |
| StringUtils.MemoizedInheritedName | StringUtils.js:20-23 | as written, the name of an `Object.prototype` member returns that member and stores nothing |
| StringUtils.MemoizedConstructorDiffers | StringUtils.js:20-23 | as written, `toSlugMemoized("constructor")` is not `toSlug("constructor")` |
| StringUtils.SlugCache.constructor | StringUtils.js:7 | the cache starts empty |
| StringUtils.SlugCache.ToSlugMemoized | StringUtils.js:17-24 | as written: the result and the new cache are those of the cache read |
| StringUtils.OwnSlugCache.constructor | StringUtils.js:7 | the cache starts empty |
| StringUtils.OwnSlugCache.ToSlugMemoized | StringUtils.js:17-24 | corrected: returns `toSlug(text)`; stores it for a new string key; changes nothing else |
| StringUtils.IsISODateStringShape | StringUtils.js:66-69 | accepts exactly the strings of 24 characters (Unicode scalar values) shaped `dddd-dd-ddTdd:dd:dd?dddZ`, where `?` is not a line terminator, and nothing that is not a string |
| SlugExamples.ToSlugOperators | StringUtils.js:33-58 | `"A&B+C=D"` gives `a_and_b_plus_c_eq_d` |
| SlugExamples.ToSlugExclamation | StringUtils.js:33-58 | `"Test!"` gives `test_excl` |
| SlugExamples.ToSlugDoubleQuote | StringUtils.js:40-44 | the double quote is replaced by `_dquote_`, the later table entry |
| DateUtils.MonthsFor | DateUtils.js:80-84 | the month names used always list twelve months |
| DateUtils.MonthsForKey | DateUtils.js:80-84 | the names of the lower-cased key when the map holds it, else those of `es-uy` |
| DateUtils.MonthsForLanguages | DateUtils.js:46-84 | `en-US`, `ES` and `es-UY` find their names; `fr` and a missing `lng` fall back to `es-uy` |
| DateUtils.FirstMatch | DateUtils.js:115 | the first alternative that starts the text, or none when no alternative does |
| DateUtils.MatchAtIsAlternation | DateUtils.js:115 | the scanner finds exactly the first alternative, in the order written, that starts the text |
| DateUtils.MatchAtNone | DateUtils.js:115 | where nothing matches, no alternative starts the text |
| DateUtils.TokenizeRoundTrip | DateUtils.js:114-117 | the scan splits the format without losing or adding a character |
| DateUtils.TokenizeLiterals | DateUtils.js:114-117 | no `M`, `D`, `H`, `h`, `m` or `s` is ever copied as it is |
| DateUtils.GetTimestamp | DateUtils.js:38-118 | throws exactly for a bad `format`, a bad `lng`, or a falsy `lng` that is not a string, null or undefined |
| DateUtils.GetTimestampErrors | DateUtils.js:39-44 | the errors, in order: format first, then `lng`; `false` and `0` as `lng` raise a TypeError |
| DateUtils.GetTimestampDefaultFormat | DateUtils.js:111-114 | a falsy format means `YYYYMMDD HHmmss` |
| DateUtils.PadTwoDigits | DateUtils.js:94-104 | a padded number below 100 has exactly two digits that read back as the number |
| DateUtils.TwoDigitFields | DateUtils.js:94-104 | `MM`, `DD`, `HH`, `hh`, `mm` and `ss` give exactly two digits that read back as their field |
| DateUtils.Hour12Range | DateUtils.js:86-87 | the 12-hour clock runs from 1 to 12 and agrees with the 24-hour clock modulo 12 |
| DateUtils.MeridiemFacts | DateUtils.js:106-107 | `AMPM` and `ampm` are AM exactly before noon |
| DateUtils.YearFields | DateUtils.js:90-91 | `YY` is the last two characters of `YYYY` |
| DateUtils.RenderPlainText | DateUtils.js:114-117 | a format without placeholder letters comes back unchanged |
| DateUtils.GetTimestampExample | DateUtils.js:38-118 | `"DD/MM/YYYY"` on 5 March 2023 gives `05/03/2023` |
| DateUtils.GetTimestampNoRescan | DateUtils.js:114-117 | replaced text is not scanned again: `MMMM` in March, in Spanish, gives `Marzo` |
| OtherUtils.EveryMethod | OtherUtils.js:11 | true exactly when every listed property is a function |
| OtherUtils.Validate | OtherUtils.js:9-12 | true exactly for a non-null object, not a function, whose listed properties are all functions |
| OtherUtils.ValidateRejects | OtherUtils.js:10 | null, undefined, every primitive and every function fail, whatever the list |
| OtherUtils.ValidateEmpty | OtherUtils.js:11 | any object passes the empty list |
| OtherUtils.ValidateSublist | OtherUtils.js:11 | a passing list still passes with names left out, repeated or reordered |
| OtherUtils.ValidateAppend | OtherUtils.js:11 | checking two lists together is checking each of them |
| OtherUtils.IsMapIsValidate | OtherUtils.js:20-29 | `isMap` is `_validate` with `entries`, `get`, `set`, `has` and `delete` |
| OtherUtils.IsMapMeaning | OtherUtils.js:20-29 | `isMap` holds exactly for a non-null object whose five map methods are functions |
| TestingUtils.PlusAssociative | TestingUtils.js:45-47 | adding counters is associative |
| TestingUtils.ItOutsideDescribe | TestingUtils.js:58-60 | `it` outside a `describe` throws and changes nothing |
| TestingUtils.ItCounts | TestingUtils.js:62-71 | inside a block, `it` adds one to the total, then one to passed when the callback returns, one to failed when it throws anything but null or undefined; for null or undefined, reading `e.message` throws a TypeError and neither passed nor failed grows |
| TestingUtils.ItNullishUnbalances | TestingUtils.js:64-70 | after a callback throws null or undefined, the block's total is no longer passed + failed |
| TestingUtils.RunOwnCounts | TestingUtils.js:26-34 | a body in which nothing throws null or undefined adds its own tests to the current block's counters and lets no null or undefined escape |
| TestingUtils.RunNestedCounts | TestingUtils.js:24-49 | such a body adds the tests of its nested blocks, and only those, to the summary |
| TestingUtils.DescribeCounts | TestingUtils.js:21-50 | for such a body, `describe` adds every test its body runs to the summary and restores the previous block; a nested block's tests do not reach the enclosing block's counters |
| TestingUtils.OwnBalanced | TestingUtils.js:62-71 | such a body's own counters have total = passed + failed |
| TestingUtils.AllBalanced | TestingUtils.js:62-71 | such a body's counters with nested blocks included have total = passed + failed |
| TestingUtils.DescribeBalanced | TestingUtils.js:21-50 | total = passed + failed holds of the summary and the current block after a `describe` of such a body |
| TestingUtils.ItBalanced | TestingUtils.js:57-72 | total = passed + failed holds after an `it` whose callback returns or throws anything but null or undefined |
| TestingUtils.RunStopsAtRaise | TestingUtils.js:33-37 | an exception ends a body: what follows does not run, and what came before counts |
| TestingUtils.DescribeCatches | TestingUtils.js:33-47 | a body that throws anything but null or undefined counts exactly as one that stopped at the throw |
| TestingUtils.DescribeEscapes | TestingUtils.js:33-49 | a body that throws null or undefined makes `describe` throw a TypeError from its `catch`: its block stays current and the summary does not get its tests |
| TestingUtils.MessageOf | TestingUtils.js:69 | reading `e.message` throws a TypeError exactly when `e` is null or undefined; an Error gives its message, a primitive undefined |
| TestingUtils.TestRunner.constructor | TestingUtils.js:6-12 | the counters start at zero with no current block |
| TestingUtils.TestRunner.It | TestingUtils.js:57-72 | the new state and outcome are those of `it`; total = passed + failed is kept unless the callback throws null or undefined |
| TestingUtils.TestRunner.Describe | TestingUtils.js:21-50 | the new state and outcome are those of `describe`; total = passed + failed is kept for a body that throws no null or undefined |
| TestingUtils.TestRunner.RunBody | TestingUtils.js:33-37 | the body's calls in order until one throws: the new state and what was thrown, if anything |
| TestingUtils.MessageOr | TestingUtils.js:104 | the message when given and non-empty, else the default |
| TestingUtils.AssertTrue | TestingUtils.js:102-106 | throws exactly when the condition is falsy, with the message or the default |
| TestingUtils.AssertFalse | TestingUtils.js:113-117 | throws exactly when the condition is truthy, with the message or the default |
| TestingUtils.Includes | TestingUtils.js:141 | `includes` on a string is substring search and on an array membership; on anything else it throws a TypeError |
| TestingUtils.MessageAccepted | TestingUtils.js:141 | no message or an empty one accepts anything; a thrown Error is checked by the pattern or by substring; the only failure is a TypeError |
| TestingUtils.AssertFunctionParams | TestingUtils.js:130-154 | passes exactly when the call returns and no throw was expected, or it throws as expected with an accepted message; the call's value, or undefined, on success; the TypeError when the message check throws; the matching error otherwise |
| TestingUtils.AssertFunctionParamsUnreadableMessage | TestingUtils.js:141 | a thrown primitive or object without `message`, checked against a text, gives a TypeError rather than the mismatch error |

## Left out

- `assertEquals` (TestingUtils.js:89-95): it compares `JSON.stringify` texts, and JSON serialisation is not part of this model.
- `endTests` and `_showMasterSummary`, the `describe` and `it` logging, and all `console` output: they only log.
- TestingUtils.TestRunner.Describe: the body of a `describe` is a list of calls (`it` with its outcome, a nested `describe`, or a throw). An `it` body's own calls to `describe` or `it` are not modelled. A `try`/`catch` inside a `describe` body around its own calls is not modelled either. Such a body could catch the TypeError escaping from one of its calls and go on. A thrown value is an Error or any other value; `e.message` on it is read as `MessageOf` says.
- TestingUtils.RunOwnCounts, TestingUtils.RunNestedCounts, TestingUtils.DescribeCounts, TestingUtils.OwnBalanced, TestingUtils.AllBalanced, TestingUtils.DescribeBalanced: stated for bodies in which nothing, at any depth, throws null or undefined. For the other bodies `Run` and `DescribeSpec` model the TypeError that escapes, and only a throw at the body's own level is characterised (`DescribeEscapes`, `ItNullishUnbalances`).
- TestingUtils.AssertTrue, TestingUtils.AssertFalse: the message is a string or absent. Another truthy message value (a number, say) is not modelled.
- TestingUtils.AssertFunctionParams: `fn(...args)` is given as its result or exception. The `RegExp` test is a parameter predicate on the message.
- DriveUtils.js, CryptoUtils.js, and the serialisers of StringUtils.js (`stringifyDate`, `parseDate`, `stringifyMap`, `parseMap`, `stringifyObject`, `parseObject`): Drive and digest calls, and JSON wrappers.
- `getOrCreateSheet` and the `isSpreadsheet`/`isSheet`/`isRange`/`isNamedRange` checks: a value that is not a sheet is `null` for the `Sheet?` parameter of each operation. The checks themselves are `_validate` with fixed name lists.
- StringUtils.StripMarks: `normalize("NFD")` and the removal of `\p{Diacritic}` are modelled only for ASCII text. Non-ASCII text and non-ASCII `toLowerCase`, beyond Latin-1, are not modelled.
- SheetValues.NormalizeFloat: `parseFloat` reads the exact decimal value. Floating-point rounding, NaN, Infinity and `-0` are not modelled.
- SheetValues.NormalizeInteger: `String(n)` is exact for integers below 1e21. Longer and non-integral numbers print through the host oracle.
- SheetValues.NormalizeDate, SheetValues.NormalizeDateSerial: a Date is always valid. The range of a JavaScript Date (8.64e15 ms either side of 1970) and the Invalid Date are not modelled. A serial number more than about 1e8 days from 1970 therefore gives a valid day where JavaScript gives an Invalid Date, which `areEqual` finds unequal even to itself; an Invalid Date given as input cannot be represented.
- SheetValues.NormalizeDate: `isDate` is read as "is a Date value", since every modelled Date is valid. `new Date(isoString)`, `isDDMMYYYY` and `parseDDMMYYYY` are host oracles. Time zones and daylight saving are not modelled. The JavaScript identity of a fresh Date copy is not modelled, since values have no identity.
- SheetValues.AreEqual: the `try`/`catch` that returns null is not modelled, because no normaliser of the model throws.
- SheetColumn.GetUniqueValuesFromColumn: a `Set` keeps distinct Date objects, arrays and objects apart, even when equal; the model's set compares them by value, so equal ones returned by a formatter are merged.
- SheetUpdate.UpdateRowsInSheet: `map` then `reduce` stops at the first record that throws; the sheet keeps the writes of the records before it.
- SheetUpdate.UpdateRowsInSheet: a `keyType` naming a member of `Object.prototype` is not modelled; the model treats it as a name of no type, whose normaliser is the identity. In the source `normalizers[keyType]` finds the inherited member instead. For `constructor` it is `Object`, which wraps every key in a fresh object, so no lookup succeeds and the count is 0. For `toString` it is a function that maps every key to `"[object Undefined]"`. For `valueOf`, `hasOwnProperty` and the like it is a function that throws a TypeError when called. For `__proto__` it is a non-function, and calling it throws.
- SheetSort.SortSheet: the service's sort order is a parameter. The criteria are validated but not applied to the order.
- SheetSort.SortSheet: the filter is recreated over the header row only, as the code does; its old criteria are lost.
- SheetWrite.WriteTableToSheet: `startRow` and `startCol` are integers or absent. Non-integral starts are not modelled.
- DateUtils.GetTimestamp: the clock `new Date()` is the parameter `now`. The source's documentation says `en-US` is the default language; the code uses `es-uy`, and the model follows the code.
- DateUtils.GetTimestamp: `""` and `null` as `format` or `lng` are falsy, so they are let through rather than rejected, as the code does.
- StringUtils.IsISODateStringShape: forms without milliseconds are rejected, as the regular expression does.
- StringUtils.IsISODateStringShape, SheetUpdate.RowLength: text is a sequence of Unicode scalar values, so a character outside the Basic Multilingual Plane counts once, where JavaScript's `length` counts its two UTF-16 code units. `isISODateString` on a 24-character text holding one such character (in the place of `?`) is accepted by the model and rejected by JavaScript, whose text is 25 units long.
- SheetGrid.Sheet.SetValues, SheetGrid.Sheet.AppendRow, SheetWrite.WriteTableRejects: the sheet has no maximum size. A range past `getMaxRows()` or `getMaxColumns()`, which the service rejects (27 columns on a new 1000 by 26 sheet, say), is accepted and the sheet grows. `LastRow` counts trailing rows of blank cells, where `getLastRow()` stops at the last row with content.
- SheetGrid.Sheet.SetValues, SheetGrid.Sheet.AppendRow: a cell holds the value written. Formulas are not evaluated, and text the service would convert (numeric, date or boolean text) is not converted. So a record carrying a row's own formula counts as unchanged, where the service compares the formula text with its computed value, finds a change and rewrites the row. SheetWrite.PaddedBlockCells, SheetWrite.AppendRowsWrites, SheetWrite.AppendedCells and SheetUpdate.UpdateEntryWrites state what `getValues` returns afterwards only for plain values.
- OtherUtils.Validate: `methods` is a list of names. A `methods` that is not an array is not modelled.
- `JsValues`, `JsText`, `JsNumbers` and `JsCoerce` model the built-ins the library calls. Their lemmas are helpers and have no rows.

## Findings

| source | as written | input that shows it | evidently intended | confidence | as-written member | corrected member |
|---|---|---|---|---|---|---|
| SheetUtils.js:267 | `type \|\| typeA !== 'string' ? typeA : null \|\| typeB \|\| 'string'` parses as `(type \|\| typeA !== 'string') ? typeA : (typeB \|\| 'string')`, so a given type only selects `a`'s detected type | `areEqual("yes", true, "boolean")` compares the texts "yes" and "true" and gives false | the given type is the comparison type, so "yes" is `true` under the boolean type | not executed | SheetValues.AreEqualBooleanText | SheetValues.AreEqualCorrectedBooleanText |
| StringUtils.js:20-23 | `slugCache` is a plain object, so `slugCache[text]` finds members of `Object.prototype` | `toSlugMemoized("constructor")` returns the `Object` function, not the slug `"constructor"` | the cache holds only the slugs it stored, so the result is always `toSlug(text)` | not executed | StringUtils.MemoizedConstructorDiffers | StringUtils.OwnSlugCache.ToSlugMemoized |
