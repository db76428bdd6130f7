# Print-area extraction from spreadsheet sheets, modelled in Dafny

The modelled program turns each sheet of a spreadsheet workbook into CSV
text. It first finds a sheet's print area. That is the stored range
reference, with any sheet-name qualifier removed, or the whole sheet when no
print area is set. It then collects the hidden columns and rows inside that
area. Last, it copies every cell of a visible row and a visible column. A
missing value, or a cell outside the value grid, becomes the empty string.
The workbook result maps each sheet name to the CSV text of its table, or to
the empty string when the table has no rows. Its keys keep the order in which
the sheets were first recorded, which is the workbook's sheet order.

Modules, leaf first:

- `Wrappers` (`wrappers.dfy`): `Option` and `Result`. A `Result.Err` stands
  for a Python exception.
- `PyText` (`py_text.dfy`): the Python string operations the parser uses.
  These are `split(...)[-1]`, unpacking `split(":")` into two names,
  `replace("$", "")`, and `int()` on a string. For `int()` the model strips
  white space, accepts one sign, and reads digits with single underscores
  between them. The white space stripped is what CPython strips: the ASCII
  characters `\t \n \v \f \r` and the space, and the non-ASCII characters
  for which `str.isspace` holds. The ASCII separators U+001C..U+001F are not
  stripped, although `str.isspace` holds of them.
- `PrintArea` (`print_area.dfy`): `ResolveBounds`, lines 16-38 of
  `process_sheet`.
- `Extraction` (`extraction.dfy`): the rest of `process_sheet`. The two
  hidden-set loops and the nested copy loop are methods with loop
  invariants. `ExtractVisible` and `ProcessSheet` are proved equal to the
  specification functions `VisibleTable` and `SheetTable`. `HiddenColumns`
  and `HiddenRows` are proved against set-membership postconditions: the
  result holds exactly the hidden indices of the range.
- `Workbook` (`workbook.dfy`): the per-sheet loop of `process_excel_file`.
  The loop is proved equal to `WorkbookResult`. That function is the
  recursive function `Run` applied to the sheet names and to the outcome
  of `process_sheet` on each sheet, in workbook order.

The model follows the code as written:

- A corner's column is its first character only (A to Z, or a to z, because
  `column_index_from_string` upper-cases its argument). The upper case of
  some other characters is one or more Latin letters, which Python would
  also accept (see the list of what is left out). So `$AA$10` leaves
  `A10` for `int()`, which refuses it (`TwoLetterExample`).
- A malformed reference is an error, never a fall back to the full extent.
  The errors are: not exactly one `:`, an empty corner, a bad column letter,
  and a row text `int()` refuses.
- Rows come from `int()`, so they can be zero or negative (`-1` is
  accepted). Every cell of such a row is then outside the grid and renders
  as `""`.
- `get_column_letter` fails for an index outside 1..18278. This can only
  happen with no print area and a sheet wider than column ZZZ
  (`ColumnLetterFailure`).
- A data frame counts as empty when it has no rows or no columns (pandas'
  `empty`). An empty frame gives `[]` before the print area is even read.
- One parameter, `encodeRow`, stands for how `csv.writer` quotes and joins
  the fields of one row. Each row's text is followed by the writer's `\r\n`
  terminator.

## Model

| member | source | states |
|---|---|---|
| PyText.AfterLast | src/excel_processor.py:24 | the result is the suffix of the reference after its last `!` (the whole text when there is none), and holds no `!` |
| PyText.AfterLastOfQualified | src/excel_processor.py:24 | a qualifier and its `!` are discarded: for any `q`, `AfterLast(q + "!" + s) == s` when `s` has no `!` |
| PyText.AfterLastUnqualified | src/excel_processor.py:24 | a reference without `!` is kept whole |
| PyText.SplitInTwo | src/excel_processor.py:25 | when unpacking into two corners succeeds, the corners joined by `:` give back the range, and neither holds a `:` |
| PyText.SplitInTwoSpec | src/excel_processor.py:25 | unpacking into two corners succeeds exactly when `:` occurs once |
| PyText.SplitInTwoOfJoin | src/excel_processor.py:25 | splitting `a + ":" + b` gives back `(a, b)` when neither holds a `:` |
| PyText.RemoveAll | src/excel_processor.py:28-31 | the text with `$` removed holds no `$` and is no longer than the original |
| PyText.RemoveAllSpec | src/excel_processor.py:28-31 | removing `$` keeps every other character with its multiplicity |
| PyText.RemoveAllConcat | src/excel_processor.py:28-31 | removing `$` distributes over concatenation, so the order of the rest is kept |
| PyText.RemoveAllAbsent | src/excel_processor.py:28-31 | text without `$` is unchanged |
| PyText.StripStart | src/excel_processor.py:36 | `int()`'s leading strip: a suffix whose removed prefix is all white space (the characters CPython strips) and whose first character is not |
| PyText.StripEnd | src/excel_processor.py:36 | `int()`'s trailing strip, the mirror image |
| PyText.ParseInt | src/excel_processor.py:36-38 | text `int()` accepts holds at least one digit and no letter |
| PyText.ParseIntOfDigits | src/excel_processor.py:36 | `int()` reads a plain digit run as its value |
| PyText.ParseIntOfSigned | src/excel_processor.py:36 | `int()` reads a minus sign and a digit run of value `v` as `-v` |
| PyText.ParseIntOfDecimal | src/excel_processor.py:36 | round trip: `int(str(n)) == n` for every natural `n` |
| PyText.ParseIntOfNegative | src/excel_processor.py:38 | round trip: `int("-" + str(n)) == -n`, so negative rows are accepted |
| PyText.ParseIntKeepsSeparator | src/excel_processor.py:36 | `int("\x1c5")` raises: U+001C is not stripped, although `str.isspace` holds of it |
| PrintArea.ColumnIndexOfLetter | src/excel_processor.py:35 | a column letter is accepted exactly when it is an ASCII letter; its index is in 1..26 and names that letter in upper case |
| PrintArea.ParseCorner | src/excel_processor.py:28-38 | a corner converts exactly when its first character is an ASCII letter and `int()` accepts the rest; the column then names that letter in upper case and the row is `int()`'s value; otherwise `BadColumnLetter` exactly for a non-letter first character, and `BadRowNumber` of the rest exactly when `int()` refuses it |
| PrintArea.ResolveCorners | src/excel_processor.py:28-38 | `EmptyCorner` exactly when a corner is empty once `$` is removed; a range succeeds exactly when both non-empty corners convert, and then its bounds are their columns and rows, with columns in 1..26; otherwise it fails with the error of the first corner that does not convert, top-left first; the only failures are an empty corner, a bad column letter and a bad row number |
| PrintArea.ResolveBounds | src/excel_processor.py:16-38 | with a print area the resolved columns are in 1..26; resolution never fails with a column-index error |
| PrintArea.JoinedRangeResolves | src/excel_processor.py:24-25 | a range `tl:br` with no `!` or extra `:` resolves as its two corners |
| PrintArea.FullExtentDefault | src/excel_processor.py:18-21 | an absent or empty print area gives exactly `(1, 1, max_column, max_row)` |
| PrintArea.AbsoluteReferenceRoundTrip | src/excel_processor.py:24-38 | resolving the absolute reference `$C$r:$C$r` written from any bounds (columns A..Z, rows >= 0) gives back those bounds |
| PrintArea.QualifierIgnored | src/excel_processor.py:24-38 | `q!s` and `s` resolve identically for any qualifier `q`, when `s` is non-empty and has no `!` (`q!` alone has no `:` and fails, while an empty print area gives the full extent) |
| PrintArea.QualifiedReferenceRoundTrip | src/excel_processor.py:24-38 | a qualified absolute reference resolves to the bounds it was written from |
| PrintArea.ExampleBounds | src/excel_processor.py:24-38 | `$B$2:$D$10` resolves to `(2, 2, 4, 10)` |
| PrintArea.ExampleQualifiedBounds | src/excel_processor.py:24-38 | `Q!$B$2:$D$10` resolves to `(2, 2, 4, 10)` as well |
| PrintArea.ExampleQuotedQualifier | src/excel_processor.py:24-38 | `'Sheet 1'!$A$1:$C$3` resolves to `(1, 1, 3, 3)` |
| PrintArea.MalformedRangeRejected | src/excel_processor.py:25 | a last range without exactly one `:` (a single cell; unqualified ranges joined by commas) is an error, not the full extent |
| PrintArea.MultiLetterColumnRejected | src/excel_processor.py:28-36 | when the bottom-right corner is non-empty once `$` is removed, a top-left corner that starts with two letters once `$` is removed fails on its row text, which is everything after the first letter |
| PrintArea.TwoLetterCorners | src/excel_processor.py:28-36 | the corners `$AA$10` and `$AB$12` fail with row text `A10` |
| PrintArea.TwoLetterExample | src/excel_processor.py:24-36 | the print area `$AA$10:$AB$12` fails with row text `A10` |
| PrintArea.BadTopRowRejected | src/excel_processor.py:24-36 | when the bottom-right corner is non-empty once `$` is removed, a top-left corner led by a letter whose row text `int()` refuses makes the print area fail with that text |
| PrintArea.BadBottomRowRejected | src/excel_processor.py:24-38 | when the top-left corner converts, a bottom-right corner led by a letter whose row text `int()` refuses makes the print area fail with that text |
| PrintArea.ColumnOnlyRangeRejected | src/excel_processor.py:24-36 | the whole-column range `$A:$C` fails with the empty row text |
| PrintArea.UnanchoredRangeResolves | src/excel_processor.py:24-38 | corners without `$` anchors and with lower-case letters convert like anchored upper-case ones: `xm:yn` gives the columns of `x` and `y` and the rows `m` and `n` |
| PrintArea.ExampleLowerCaseBounds | src/excel_processor.py:24-38 | `b2:D10` resolves to `(2, 2, 4, 10)` |
| PrintArea.BadBottomColumnRejected | src/excel_processor.py:24-37 | when the top-left corner converts, a bottom-right corner that does not start with a letter makes the print area fail on that character |
| PrintArea.ExampleBadBottomColumn | src/excel_processor.py:24-37 | `$A$1:$1$x` fails with the column letter `1` |
| Extraction.CellText | src/excel_processor.py:66-71 | inside the grid a present value gives its string form; a missing value or a position outside the grid gives `""` |
| Extraction.SheetTable | src/excel_processor.py:10-75 | only a non-empty frame can fail; every row of a resulting table has the same number of cells |
| Extraction.FirstBadColumn | src/excel_processor.py:42-43 | the first index in `lo..hi` outside `get_column_letter`'s range 1..18278, if any: every index before it is in range |
| Extraction.HiddenColumns | src/excel_processor.py:41-46 | fails with the first index that has no column letter; otherwise the set holds exactly the hidden columns in `[min_col, max_col]` |
| Extraction.HiddenRows | src/excel_processor.py:49-53 | the set holds exactly the hidden rows in `[min_row, max_row]` and nothing outside it |
| Extraction.ExtractVisible | src/excel_processor.py:56-75 | the nested loops build exactly `VisibleTable` over the visible rows and the visible columns of the bounds |
| Extraction.ProcessSheet | src/excel_processor.py:10-75 | the method returns `SheetTable`: an empty frame gives `[]`, resolution and column-letter errors propagate, and otherwise the visible table |
| Extraction.VisibleIndicesMembers | src/excel_processor.py:57-64 | an index is emitted exactly when it is in `[lo, hi]` and not hidden; nothing is emitted when `lo > hi` |
| Extraction.VisibleIndicesIncreasing | src/excel_processor.py:57-64 | emitted indices are strictly increasing, so the order is kept and nothing repeats |
| Extraction.VisibleIndicesCount | src/excel_processor.py:57-64 | visible plus hidden indices of `[lo, hi]` number `hi - lo + 1` (or 0), so there are no placeholder rows or cells |
| Extraction.VisibleIndicesInRange | src/excel_processor.py:41-64 | only hidden flags inside `[lo, hi]` matter, so the collected sets give the same rows and columns as the sheet's flags |
| Extraction.EmptyFrameGivesEmptyTable | src/excel_processor.py:12-13 | an empty data frame gives the empty table whatever the print area |
| Extraction.VisibleTableCells | src/excel_processor.py:56-75 | for any row and column indices, every output row has one cell per column index, and cell `(i, j)` is the grid value at `(rows[i]-1, cols[j]-1)`, or `""` outside the grid or for a missing value |
| Extraction.SheetTableCells | src/excel_processor.py:56-75 | one output row per visible row; every row has one cell per visible column; cell `(i, j)` is the grid value at `(rows[i]-1, cols[j]-1)`, or `""` outside the grid or for a missing value |
| Extraction.ColumnLetterFailure | src/excel_processor.py:42-43 | a column-index error happens exactly for a non-empty frame, no print area and `max_column > 18278`, and it reports index 18279 |
| Extraction.HiddenRowExample | src/excel_processor.py:57-59 | rows 1..5 with row 3 hidden become the sheet rows 1, 2, 4, 5 in that order |
| Workbook.CsvText | src/excel_processor.py:93-96 | each table row contributes at least its two-character line terminator |
| Workbook.CsvTextEmpty | src/excel_processor.py:92-100 | the CSV text is empty exactly when the table has no rows |
| Workbook.SheetText | src/excel_processor.py:92-100 | the text recorded for a sheet is empty exactly when its table has no rows |
| Workbook.RecordEntries | src/excel_processor.py:92-100 | recording a sheet sets its entry to the sheet's text and keeps every other entry; a new key goes to the end of the key order and an existing key keeps its place |
| Workbook.RecordNotices | src/excel_processor.py:98-99 | the notice is added for the recorded sheet exactly when its table has no rows, and no other notice changes |
| Workbook.WorkbookResult | src/excel_processor.py:82-100 | a successful run has at most one notice and one key per sheet |
| Workbook.ProcessWorkbook | src/excel_processor.py:78-102 | the loop over the sheets returns `WorkbookResult`: the entries, their key order and the notices, or the first sheet's error |
| Workbook.RunErrorPersists | src/excel_processor.py:82-89 | an error raised on an earlier sheet is the error of the whole run |
| Workbook.RunFailure | src/excel_processor.py:82-89 | the run fails exactly when some sheet's outcome is an error, and then with the error of the first such sheet |
| Workbook.WorkbookFailure | src/excel_processor.py:82-89 | the run fails exactly when processing some sheet raises, with the exception of the first sheet that does |
| Workbook.WorkbookKeys | src/excel_processor.py:97-100 | every sheet name gets an entry, and no other key appears |
| Workbook.WorkbookNoticesNamed | src/excel_processor.py:98-99 | every notice names a sheet of the workbook |
| Workbook.WorkbookOrderedKeys | src/excel_processor.py:82-100 | the key order lists each key of the result exactly once |
| Workbook.WorkbookOrder | src/excel_processor.py:82-100 | with distinct sheet names, the keys come in workbook sheet order |
| Workbook.WorkbookEntry | src/excel_processor.py:92-100 | with distinct sheet names, a sheet's entry is its table's CSV text; it is `""` exactly when the table has zero rows, and the notice is given exactly for those sheets |

## Left out

- Reading the workbook (`load_workbook`) and its values (`pd.read_excel`) is file I/O through third-party libraries. The sheet metadata and the value grid are inputs instead. So are the failures to open a file.
- CsvText: the field quoting and separators of `csv.writer` are the parameter `encodeRow`. No CSV parser is modelled, so no round trip through CSV is stated.
- `pd.notna` and `str(value)` on arbitrary cell types, NaN included: cell values are `Option<string>`, with `None` for a missing value and `Some` holding the string form.
- How openpyxl stores `column_dimensions` and `row_dimensions`, including dimensions that span several columns: the model takes the set of indices whose lookup reports hidden.
- The diagnostic `print` is modelled as the list `notices` of sheet names, in the order the messages would be printed, for a run that completes. When a later sheet raises, the messages already printed for earlier sheets are not part of the model: a failing run is its exception alone.
- main.py, a fixed file path and console output.
- ParseInt: `int()` also accepts non-ASCII decimal digits and refuses more than 4300 digits; neither is modelled. Only ASCII digits count, and the length is unbounded.
- ColumnIndexOfLetter: upper-casing is modelled for ASCII letters only. Python's `str.upper` turns some other characters into one or more Latin letters, which `column_index_from_string` accepts (`'ß'` becomes `SS`, column 513; `'ﬃ'` becomes `FFI`, column 4221). The model refuses them with `BadColumnLetter`. So its 1..26 bound holds of the model only.
- ResolveBounds, ResolveCorners and ParseCorner: for the same reason, their bound of 1..26 on resolved columns holds of the model only. In Python a corner led by such a character resolves to a wider column.
- WorkbookOrder and WorkbookEntry assume distinct sheet names, which a workbook's sheet list has. With a repeated name the later sheet's text replaces the earlier one and the key keeps its first place, as in a dict; WorkbookKeys and WorkbookOrderedKeys hold either way.
