# Omega OS core, modelled in Dafny

Omega OS is an Electron desktop environment. This project models the parts of it that hold
real logic:

- **The Omega Sheets spreadsheet engine** (`sheets.js`). This is the main part. It covers:
  - the mapping from cell addresses to values, and the `<address>_formula` keys beside it;
  - the grid's per-cell `data-formula` attributes and displayed texts, kept apart from the mapping;
  - the formula evaluator `calculateFormula`: reference substitution, the character-whitelisted
    arithmetic branch with its `'#ERROR'` result, the `SUM(` branch with its range and list forms,
    and the fall-back to the formula text;
  - the cell input handler, the formula-bar Enter handler and the Σ button;
  - the one-pass substring-matching recalculation;
  - clearing, loading from JSON or CSV, and saving;
  - cursor movement, the window title and file-name extraction.
- **The browser window** (`renderer.js`): tabs and the active tab, the address-bar rule that tells
  a URL from a search, the capped newest-first history and downloads lists, bookmarks and the delete
  filters, the zoom clamp, and the checks made by the two wallet forms.
- **The desktop shell** (`desktop.js`): the default icon grid and the saved icon positions, drag
  clamping, the start menu flag and its search filter, the tray clock and date, the VPN retry
  back-off and the VPN badge, and the app name and icon tables.
- **The main process** (`main.js`): the app-type table and window sizes, the `appWindows` registry,
  window-id resolution for the window-control messages, the isolated-path guards, dispatch from
  file extension to app, the document-list order and the proxy console-error filter.

One module per file:

| file | module | what |
|---|---|---|
| `wrappers.dfy` | `Wrappers` | `Option` |
| `text.dfy` | `Text` | the JavaScript string operations the sources use |
| `jsnumber.dfy` | `JsNumber` | JavaScript numbers (exact reals, the infinities, NaN), `String(n)`, `parseFloat` |
| `arith.dfy` | `Arith` | a recursive-descent reading of the whitelisted arithmetic, with an expression-tree reference |
| `formula.dfy` | `Formula` | `calculateFormula` |
| `maps.dfy` | `Maps` | writing a run of keys into a map |
| `workbook.dfy` | `Workbook` | what each spreadsheet handler does to the page, as functions, with their properties |
| `sheets.dfy` | `Sheets` | the spreadsheet page as a class; each handler is a method proved against its `Workbook` function |
| `browser.dfy` | `Browser` | the browser window: functions and the class `Window` |
| `desktop.dfy` | `Desktop` | the desktop shell: functions and the class `Shell` |
| `mainproc.dfy` | `MainProcess` | the main process: functions and the class `Main` |

The global, mutated state of each file is a class, and each event handler that changes it is a
method. Pure computations are functions, and what they promise is stated in lemmas:

- `Sheets.Spreadsheet` holds the mapping, the attributes, the texts, the selection, the file name
  and the unsaved-changes flag.
- `Browser.Window` holds the tabs, the counter, the lists, the zoom and the engine.
- `Desktop.Shell` holds the start menu flag, the icon positions and the retry count.
- `MainProcess.Main` holds the registry.

Loops in the source are `while` loops with invariants: the CSV reader, the redraw of a loaded
sheet, the recalculation pass, the Σ button, the `SUM(` loops, the icon layout, the
`open-file-dialog` check and the window-id search.

Clocks (`Date.now()`, `new Date()`), `localStorage` reads, dialog results, file contents and the
results of `JSON.parse` are parameters.

Some behaviours of the code differ from what a user of the system would expect. The model
follows the code:

- `=SUM(A1:A2)` does not add up `A1` and `A2`. References are replaced by their numbers before the
  `SUM(` branch runs, so the range form never matches and the list form looks up keys such as
  `3:4`, which do not exist. On a sheet whose keys are cell addresses the result is 0
  (`Formula.SumOfReferencesIsZero`).
- Division by zero is not an error: the formula computes an infinity (`Formula.DivisionByZero`).
  Saving a sheet that holds an infinity or NaN and loading it again does not restore it, because
  `JSON.stringify` writes those values as `null` (`Workbook.SaveLoad`).
- Closing the desktop window with app windows open neither closes them nor empties the registry
  (`MainProcess.Main.DesktopClosed`, and "## Findings" below).
- The start-menu search counts the file results an earlier search left listed as app matches, so
  a term such as `doc` can leave an empty apps pane shown (`Desktop.StaleResultKeepsAppsPane`, and
  "## Findings" below).

## Model

| member | source | states |
|---|---|---|
| Text.ContainsIff | sheets.js:496 | `includes` holds exactly when the text occurs at some position |
| Text.TrimSlice | sheets.js:387 | `trim` removes white space at either end and nothing else: the result is a slice of the text, with only white space outside it |
| Text.Trim | sheets.js:521 | the trimmed text is no longer than the input, and does not start or end with white space |
| Text.SplitJoin | sheets.js:515 | splitting at a character and joining again with it restores the text |
| Text.SplitNoSeparator | sheets.js:518 | no piece of `split(',')` contains a comma |
| Text.AfterLastSuffix | sheets.js:465 | `split(sep).pop()` is the longest suffix without a separator, preceded by a separator or by the start of the text |
| Text.IndexOf | sheets.js:417 | `indexOf` is the first position where the needle occurs, or -1 when it occurs nowhere |
| Text.ToLower | sheets.js:510 | lower-casing keeps the length and maps each character separately |
| Text.DigitsValueOfNatToString | sheets.js:100 | the decimal text of a row number reads back as that number |
| Text.NatToStringInjective | sheets.js:100 | different numbers have different decimal texts |
| Text.Pad2Reads | desktop.js:519 | `padStart(2, '0')` of a number below 100 is two digits that read back as the number |
| Text.Utf16Length | renderer.js:861 | a string's `length` counts UTF-16 units, between one and two per character |
| Text.Utf16LengthBmp | main.js:535 | for text inside the Basic Multilingual Plane, `length` is the number of characters |
| JsNumber.Add | sheets.js:428 | `+` is NaN exactly when an operand is NaN or the operands are opposite infinities; finite values add exactly |
| JsNumber.ParseFloat | sheets.js:395 | `parseFloat` gives a number or NaN (None), never a NaN number |
| JsNumber.ParseFloatShowsInteger | sheets.js:395-396 | `parseFloat` of the text of a whole number gives that number back |
| JsNumber.ShowInteger | sheets.js:395-396 | `String(n)` of a whole number is its decimal digits, after a `-` when it is negative |
| JsNumber.FractionDigitsValue | sheets.js:395-396 | the digits written for a fraction with at most `k` decimals read back as that fraction, and are not empty unless it is 0 |
| Arith.TokenizeRender | sheets.js:402-403 | text written from a separated token sequence tokenizes back to that sequence |
| Arith.ParseAllPrinted | sheets.js:403 | the parser reads every expression tree, printed with only the parentheses that precedence and left associativity need, as exactly the tree's value |
| Arith.EvaluateWritten | sheets.js:403 | the written text of an expression tree whose literals are non-negative with at most 20 decimals evaluates to the tree's value |
| Arith.EvaluateParenthesised | sheets.js:403 | wrapped in parentheses, as the evaluator does, the written text of such a tree evaluates to its value |
| Arith.ParseAllGrouped | sheets.js:403 | the printed tokens of any tree, inside the parentheses the evaluator adds, read as exactly the tree's value |
| Arith.TighterRight | sheets.js:403 | a tree whose right operand binds tighter (`*` or `/` under `+` or `-`) prints as its five tokens, with no parentheses |
| Arith.LeftFirst | sheets.js:403 | a tree whose left operand binds at least as tightly as the outer operator prints as its five tokens, with no parentheses |
| Arith.ThreeNumerals | sheets.js:403 | in `x o1 y o2 z`, a `*` or `/` after `+` or `-` applies first, and otherwise the left operator does, so `8-3-2` is 3, `8/4/2` is 1 and `2+3*4` is 14 |
| Arith.TokenizeNumeral | sheets.js:402-403 | `String(v)` of a non-negative number with at most 20 decimals, followed by a boundary, is read as one number token holding `v` |
| Arith.LeadingPoint | sheets.js:402-403 | a numeral that starts with its point, such as `.5`, reads as the fraction its digits give |
| Arith.WrittenChars | sheets.js:402 | the written text of a tree is not empty and holds only digits, operators and parentheses, so it passes the whitelist |
| Formula.ColumnLetterIsColName | sheets.js:10 | the letters of `COL_NAMES` are `A` to `Z` in order |
| Formula.ColumnIndex | sheets.js:417-419 | `COL_NAMES.indexOf(name)` is a column of the grid or -1 |
| Formula.RefTextZero | sheets.js:392-396 | a reference to a missing, null, empty or non-numeric value is replaced by `0` |
| Formula.RefTextOfInteger | sheets.js:395-396 | a reference to a whole number is replaced by text that reads back as that number |
| Formula.RefTextShape | sheets.js:393-396 | what replaces a reference holds no reference, is not empty and does not end in a capital, so replacing creates no new reference |
| Formula.SubstituteReference | sheets.js:390-397 | a leading reference (capitals, then digits) is replaced by its value's text, and substitution goes on after it |
| Formula.SubstituteRefFree | sheets.js:390 | after substitution no reference is left in the expression |
| Formula.SubstituteIdentity | sheets.js:390 | text without a reference is left as it is |
| Formula.UnspacedExpression | sheets.js:387 | without white space or references, the expression is the formula after its `=` |
| Formula.SumAtComplete | sheets.js:409 | the `SUM(` pattern matches at a position exactly when `SumAt` finds it there, and captures what `SumAt` returns |
| Formula.SumArguments | sheets.js:409 | the match found is the first position from which the pattern matches; none means it matches nowhere |
| Formula.RangeUnreachable | sheets.js:390-415 | once references are substituted, the range pattern never matches the `SUM(` arguments |
| Formula.ListTotalOfMissing | sheets.js:433-438 | on a sheet whose every key holds a reference, list pieces without references add up to 0 |
| Formula.SumOfReferencesIsZero | sheets.js:390-441 | on a sheet whose keys are all cell addresses, a formula that reaches the `SUM(` branch evaluates to 0 |
| Formula.AddressHoldsReference | sheets.js:390 | every cell address matches the reference pattern |
| Formula.CalculateFormula | sheets.js:382-449 | the result is text or a number. Text without `=` comes back unchanged. A formula gives `'#ERROR'` exactly when its expression is whitelisted and is a syntax error. Any other text result is the formula itself |
| Formula.SumRow | sheets.js:425-429 | the inner loop of the range form adds the readable cells of one row, left to right, each under the key `COL_NAMES[c] + r` |
| Formula.OutsideColumnReadsNaN | sheets.js:425-427 | a corner column outside A to Z (index -1) reads the key `NaN`, since `undefined + r` is NaN |
| Formula.OutsideColumnSums | sheets.js:417-430 | so a range over such a column adds the value under `NaN` once per row: 10 over rows 1 and 2 when `NaN` holds `5` |
| Formula.SumRange | sheets.js:421-430 | the outer loop adds the rows between the corners over the columns between them, whichever way round the columns are given |
| Formula.SumList | sheets.js:432-438 | the list loop adds the trimmed comma-separated keys in turn, skipping unreadable ones |
| Formula.Calculate | sheets.js:382-449 | the evaluator with the source's loops computes `CalculateFormula` |
| Formula.ArithmeticFormula | sheets.js:402-405 | a written arithmetic expression after `=` evaluates to its value, whatever the sheet holds |
| Formula.WrittenOneOverZero | sheets.js:403 | the tree for `1 / 0` is written `1/0`, so `Formula.DivisionByZero` covers the formula `=1/0` |
| Formula.DivisionByZero | sheets.js:403-404 | a positive value divided by `0` (for example `=1/0`) evaluates to positive infinity, not to `'#ERROR'` |
| Formula.FallbackKeepsFormula | sheets.js:444 | an expression that is neither whitelisted arithmetic nor a `SUM(` gives the formula text back |
| Formula.UnknownFunctionKept | sheets.js:402-444 | a call of an unknown function such as `=FOO(1)` gives the formula text back |
| Workbook.Address | sheets.js:100 | an address is the column's letter followed by the row's decimal text |
| Workbook.AddressInjective | sheets.js:100 | different cells have different addresses |
| Workbook.FormulaKeyNotAddress | sheets.js:115-124 | a formula key is never a cell address |
| Workbook.GridOrder | sheets.js:84-100 | the document order holds 2600 cells, all on the grid |
| Workbook.GridOrderComplete | sheets.js:84-100 | every grid cell appears in document order, row by row and column by column |
| Workbook.GridOrderDistinct | sheets.js:84-100 | no cell appears twice in document order, so the recalculation visits each cell once |
| Workbook.InputRule | sheets.js:109-135 | the input handler drops the old formula from both stores. An accepted formula stores its result at the address, and its text under the formula key and as the attribute. Anything else stores the typed text at the address and leaves no formula |
| Workbook.InputFrame | sheets.js:113-130 | the input handler changes only the edited cell, its address and its formula key |
| Workbook.InputDropsError | sheets.js:119-127 | a formula typed into a cell that evaluates to `'#ERROR'` is stored as its text, with no formula |
| Workbook.InputKeepsUnknownFunction | sheets.js:118-124 | `=FOO(1)` typed into a cell is kept as a formula and shows its own text |
| Workbook.InputEchoed | sheets.js:121-169 | after typing, the formula bar shows what was typed, whether or not it was accepted as a formula |
| Workbook.FormulaBarRule | sheets.js:262-292 | the formula bar stores a formula whatever it evaluates to, and sets the attribute. A literal is stored as text and removes the formula key but keeps the attribute |
| Workbook.FormulaBarFrame | sheets.js:266-284 | the formula bar changes only the selected cell, its address and its formula key |
| Workbook.FormulaBarKeepsError | sheets.js:271-276 | a formula entered in the bar that evaluates to `'#ERROR'` stays, showing `#ERROR` |
| Workbook.FormulaBarLiteralDiverges | sheets.js:281-285 | a literal entered over a formula cell removes the saved formula but keeps the attribute |
| Workbook.ColumnAboveIsRange | sheets.js:249-254 | the Σ button's sum equals the range form's sum over the same column, from row 1 to the row above |
| Workbook.AfterSum | sheets.js:244-260 | the Σ button stores the sum of the cells above at the address and shows its text in the cell. No formula, no other key and no other cell's text changes |
| Workbook.Recalc | sheets.js:489-504 | the recalculation never changes a formula attribute |
| Workbook.RecalcFrame | sheets.js:491-502 | only cells whose attribute contains the changed address change their text, and only their addresses change in the mapping |
| Workbook.RecalcUpdate | sheets.js:496-501 | when no cell occurs twice, a cell whose attribute contains the changed address is evaluated against the mapping as the cells before it left it. A result other than `'#ERROR'` becomes its value and its text; `'#ERROR'` leaves both as they were |
| Workbook.RecalcUpdateLast | sheets.js:496-501 | the same for the last cell of the pass, whose key nothing before it wrote |
| Workbook.RecalcCellElsewhere | sheets.js:497-500 | re-evaluating one cell leaves every other cell's value and shown text alone |
| Workbook.RecalcKeepsFormulaKeys | sheets.js:497-501 | the recalculation never touches a formula key |
| Workbook.FalseMatch | sheets.js:496 | a formula that mentions `A10` to `A19` is re-evaluated when `A1` changes |
| Workbook.LoadCellEffect | sheets.js:367-378 | redrawing one cell never writes the mapping. It throws exactly on a truthy formula entry that is not text. It sets that cell's attribute and text and touches no other cell |
| Workbook.LoadAll | sheets.js:365-379 | loading adopts the mapping and never writes to it |
| Workbook.LoadAllCompletes | sheets.js:367-372 | the redraw completes exactly when no cell has a formula entry that throws |
| Workbook.LoadAllShows | sheets.js:367-378 | after a complete redraw every cell shows its formula's value, or else its value, and carries the attribute its formula key gives it |
| Workbook.LoadAllOutside | sheets.js:367 | cells the redraw does not visit keep their text |
| Workbook.ZeroShowsEmpty | sheets.js:375 | a stored `0` without a formula shows as an empty cell |
| Workbook.NonBlankKeeps | sheets.js:515 | the line filter keeps exactly the lines that are not blank once trimmed |
| Workbook.AddressNotNaN | sheets.js:520 | no cell address is the key `NaN` |
| Workbook.CsvKeyInjective | sheets.js:520 | two CSV fields on the grid get the same key only when they are the same field |
| Workbook.CsvField | sheets.js:515-522 | field `c` (at most Z) of the `r`-th non-blank line, counting from 1, is stored trimmed under `COL_NAMES[c] + r` |
| Workbook.CsvOverflow | sheets.js:520 | a line with more than 26 fields leaves an entry under the key `NaN` |
| Workbook.Encode | sheets.js:452 | `JSON.stringify` writes a value as `null` exactly when it is null, NaN or infinite |
| Workbook.Decode | sheets.js:526 | a number read from a file by `JSON.parse` is always finite |
| Workbook.DecodeEncode | sheets.js:452 | a value written by `JSON.stringify` and read back by `JSON.parse` (line 526) comes back exactly when it is not NaN or infinite |
| Workbook.EncodeDecode | sheets.js:526 | whatever a file holds, read by `JSON.parse`, is written out again unchanged by `JSON.stringify` (line 452) |
| Workbook.SaveLoad | sheets.js:452 | saving and opening the file again (lines 526 and 366) restores the mapping exactly when it holds no NaN or infinity |
| Workbook.LoadSave | sheets.js:526 | opening a file and saving it again (line 452) writes the same object |
| Workbook.FileNameShape | sheets.js:530 | the file name (also taken at line 465) is what follows the last `/` or `\`, or the whole path when there is none |
| Workbook.ExtensionShape | sheets.js:510 | the extension is the text after the last dot, lower-cased, or the whole path lower-cased when there is no dot |
| Workbook.DisplayName | sheets.js:542 | the shown file name is the current file name when there is a non-empty one, and `Untitled` otherwise, so it is never empty |
| Workbook.TitleShape | sheets.js:540-544 | the title starts `Omega Sheets - ` and names the file. Unsaved changes add ` *` and nothing else |
| Workbook.DefaultSavePath | sheets.js:457 | the proposed file name is the current file name when there is a non-empty one, and `spreadsheet.json` otherwise, so it is never empty (also line 479) |
| Workbook.Clamp | sheets.js:213-216 | the clamped value lies in the range; a value in range is kept, and one outside goes to the nearer end |
| Workbook.NavigateTarget | sheets.js:212-218 | `navigateCell` always lands on the grid, at the clamped row and column |
| Workbook.KeyMove | sheets.js:171-209 | Enter and the down arrow go one row down, the up arrow one row up, Tab one column right (left with Shift), and the side arrows one column their way, but only when the cell is empty or wholly selected. Other keys are left to the browser |
| Workbook.KeyMoveNeighbour | sheets.js:171-218 | a move goes to a neighbouring cell in the same row or column, and stays put exactly at the edge of the grid |
| Sheets.ParseCsv | sheets.js:514-523 | the nested CSV loops build exactly the mapping `CsvData` of the text |
| Sheets.ReadLines | sheets.js:515-523 | the loop over the non-blank lines reads the `r`-th of them, from 0, as row `r + 1`, giving `CsvRows` of the lines' fields |
| Sheets.ReadLineAt | sheets.js:517-522 | reading line `r` into what the lines before it gave yields what the first `r + 1` lines give |
| Sheets.ReadLine | sheets.js:518-522 | one line writes each field, trimmed, under its column's letter and the line's row |
| Sheets.Spreadsheet.constructor | sheets.js:2-6 | a fresh page has an empty mapping, no selection, no file and no unsaved changes |
| Sheets.Spreadsheet.Select | sheets.js:149-158 | selecting a cell changes only the selection |
| Sheets.Spreadsheet.Navigate | sheets.js:212-224 | the nearest grid cell is selected, and the sheet is unchanged |
| Sheets.Spreadsheet.KeyDown | sheets.js:171-210 | a key moves the selection as `KeyMove` and `NavigateTarget` say, or leaves it |
| Sheets.Spreadsheet.Input | sheets.js:109-135 | the page becomes `AfterInput` of the edit and is marked unsaved |
| Sheets.Spreadsheet.FormulaBarEnter | sheets.js:262-292 | with a selection, the page becomes `AfterFormulaBar` and is marked unsaved; without one, nothing changes |
| Sheets.Spreadsheet.SumButton | sheets.js:244-260 | with a selection, the loop over the rows above gives the page `AfterSum`; without one, nothing changes |
| Sheets.Spreadsheet.Recalculate | sheets.js:489-504 | the loop over the cells in document order gives the page `Recalc` |
| Sheets.Spreadsheet.RecalculateCell | sheets.js:491-501 | one cell of the pass becomes `RecalcCell`: a cell whose attribute contains the address is re-evaluated, and a result other than `'#ERROR'` is stored and shown |
| Sheets.Spreadsheet.Blur | sheets.js:104-108 | leaving a cell recalculates the formulas that mention its address |
| Sheets.Spreadsheet.Clear | sheets.js:355-363 | the mapping, the texts, the file name and the unsaved flag are cleared, and the formula attributes stay |
| Sheets.Spreadsheet.Load | sheets.js:365-379 | the loop over the cells gives the redraw `LoadAll`, and reports whether it completed |
| Sheets.Spreadsheet.LoadCellAt | sheets.js:368-377 | one cell of the redraw becomes `LoadCell`: a truthy formula entry sets the attribute and shows its value, and otherwise the attribute goes and the cell shows its value or nothing |
| Sheets.Spreadsheet.LoadFile | sheets.js:506-538 | a CSV or parsed JSON file is loaded. A parse error changes nothing. Only a redraw that completes sets the file name and clears the unsaved flag |
| Sheets.Spreadsheet.Save | sheets.js:451-487 | without the desktop bridge, the mapping is downloaded as `SaveJson` and the unsaved flag is cleared. With the bridge, a cancelled dialog or a failed write changes nothing, and a save writes `SaveJson`, names the file and clears the flag. The sheet itself never changes |
| Browser.StoredEngine | renderer.js:403 | the stored engine is used when there is one, and `duckduckgo` otherwise |
| Browser.EnginesSecure | renderer.js:397-401 | every engine's home and search pages are `https://` addresses |
| Browser.EncodeUriSafe | renderer.js:406 | `encodeURIComponent` produces only unreserved characters, `%` and hexadecimal digits |
| Browser.EncodeUriUnreserved | renderer.js:406 | text of unreserved characters is left unchanged |
| Browser.DestinationKeepsUrls | renderer.js:356-358 | input starting with `http://` or `https://` is used as it is |
| Browser.DestinationShape | renderer.js:353-367 | with a known engine, every destination is an `http(s)://` address. Input is searched for exactly when it is not empty, does not start with `http://` or `https://`, and either holds a space or has no dot and does not start with `localhost`. A search goes to the engine's search page, with no space after it |
| Browser.Prepend | renderer.js:423-427 | for the history here and the downloads at lines 548-551, the new item comes first, the old items follow in order, and the list is cut to the cap |
| Browser.WithoutIdKeeps | renderer.js:471 | the delete filter of the history, and of the bookmarks at line 530, removes every entry with that id and no other |
| Browser.WithoutIdAbsent | renderer.js:471 | without an entry with that id, the list stays as it was |
| Browser.WithoutIdAppend | renderer.js:471 | the filter keeps the order |
| Browser.DownloadNameShape | renderer.js:544 | a download's name is never empty. A given name wins; otherwise it is the URL's last segment, or `download` |
| Browser.ZoomClampRange | renderer.js:583-585 | every number but NaN is brought into [0.25, 5.0], and one already there is unchanged. NaN stays NaN. The clamp is idempotent |
| Browser.CreateWalletAccepts | renderer.js:861-869 | the create form goes ahead exactly when the password has at least 8 units and matches the confirmation |
| Browser.ImportWalletAccepts | renderer.js:890-901 | the import form goes ahead exactly when the trimmed key is not empty and the password has at least 8 units |
| Browser.FindTab | renderer.js:185 | `findIndex` is the first tab with that id, or -1 when there is none |
| Browser.ClosedShape | renderer.js:179-209 | closing does nothing to the last tab or an absent id. Otherwise exactly that tab goes and the others stay. The active tab is kept unless it was closed, and then its left neighbour becomes active, or the second tab when the first was closed |
| Browser.RemovedTab | renderer.js:188 | removing the tab at an index of an id-increasing list leaves one tab fewer, drops exactly the tabs with that id, and puts the tab before it (or the second tab, when the first is removed) at the place the next active tab is taken from |
| Browser.ClosedKeepsActive | renderer.js:203-208 | an active tab that exists still exists after a close |
| Browser.RemovedBelow | renderer.js:188 | removing a tab keeps the ids increasing and below the counter |
| Browser.Window.constructor | renderer.js:403-414 | the window starts with no tab, the stored engine and history, and the stored bookmarks, downloads and zoom (`1.0` when none is stored) of lines 479, 538 and 581 |
| Browser.Window.SwitchTab | renderer.js:150-151 | the id becomes active |
| Browser.Window.CreateTab | renderer.js:103-148 | a tab with the next id and title `New Tab` is appended and becomes active. Without a url it opens the current engine's home page (line 410). With neither a url nor a known engine the lookup throws and nothing changes. Ids stay unique and below the counter |
| Browser.Window.CloseTab | renderer.js:179-209 | the tabs and the active tab become `Closed` of the old ones, ids stay unique, and an existing active tab still exists |
| Browser.Window.UpdateTabTitle | renderer.js:211-216 | the first tab with that id gets the title, and nothing else changes |
| Browser.Window.NavigateToAddress | renderer.js:353-372 | the active tab's url becomes the destination. An unknown engine or a missing active tab changes nothing |
| Browser.Window.AddToHistory | renderer.js:416-428 | a visit is put first, the list is capped at 1000, and an empty title becomes the url |
| Browser.Window.DidNavigate | renderer.js:262-276 | the tab's url follows the page, and the page goes into the history unless it is empty, `chrome-extension://` or `about:` |
| Browser.Window.DeleteHistory | renderer.js:471 | the history loses exactly the entries with that id |
| Browser.Window.AddBookmark | renderer.js:481-491 | the bookmark is appended, and an empty title becomes the url |
| Browser.Window.DeleteBookmark | renderer.js:530 | the bookmarks lose exactly the entries with that id |
| Browser.Window.AddDownload | renderer.js:540-554 | the download is put first with its derived name, and the list is capped at 100 |
| Browser.Window.UpdateZoom | renderer.js:583-588 | the zoom becomes the clamped value, in [0.25, 5.0] for any number |
| Browser.Window.ZoomIn | renderer.js:738-740 | the zoom becomes the clamped value one tenth higher |
| Browser.Window.ZoomOut | renderer.js:742-744 | the zoom becomes the clamped value one tenth lower |
| Browser.Window.ZoomReset | renderer.js:746-748 | the zoom becomes 1 |
| Desktop.DefaultPositionGrid | desktop.js:195-214 | an icon without a saved place goes to (20 + (i mod 4)·110, 20 + ⌊i/4⌋·120), and distinct icons get distinct places |
| Desktop.LaidOutEntries | desktop.js:202-220 | the layout saves a grid place only for icons without a saved place, keeps every saved entry, and leaves each icon's entry at the place it is shown |
| Desktop.LaidOutKey | desktop.js:202-220 | an id has an entry after the layout exactly when it was saved or is one of the icons laid out, and a saved entry keeps its place |
| Desktop.LaidOutIcon | desktop.js:202-220 | with distinct ids, each icon laid out has an entry, at the place it is shown |
| Desktop.DragClampRange | desktop.js:123-124 | a clamped coordinate is at least 20, at most `max` when `max` is at least 20, and a value in range is kept |
| Desktop.DragTargetInside | desktop.js:116-124 | a dragged icon, by mouse here or by touch at lines 163-170, stays 20 pixels from the top left, and above the taskbar when the window is large enough |
| Desktop.DisplayHours | desktop.js:521 | the dial hour lies in 1..12 and agrees with the hour modulo 12 |
| Desktop.TimeStringReads | desktop.js:518-522 | the time ends in `PM` exactly from noon on, and its parts read back as the dial hour and the two-digit minutes |
| Desktop.TimeStringInjective | desktop.js:518-522 | two times of day that display alike are the same time |
| Desktop.DateStringReads | desktop.js:524-527 | the date reads back as the two-digit month counted from 1, the two-digit day and the year |
| Desktop.MatchingFilesKeeps | desktop.js:936-939 | the file filter keeps exactly the files, not directories, whose lower-cased name contains the term |
| Desktop.PerformSearchShape | desktop.js:909-956 | over the items the query finds: an empty term shows every item and no file. Otherwise an item shows exactly when it matches, and at most five files are listed: the first matches, in order. The files pane shows exactly when some file matches, and the apps pane hides only when no item matches and some file does |
| Desktop.PerformSearchSeesListed | desktop.js:921-944 | as written, the query also finds the file results still listed (lines 974-989), so the apps pane hides exactly when a file matches and neither an app nor a listed result does |
| Desktop.StaleResultKeepsAppsPane | desktop.js:922-943 | with results still listed and a term inside `document`, a matching file and no matching app leave the apps pane shown, where the intended search hides it |
| Desktop.PerformSearchIntendedApps | desktop.js:942-943 | as meant, the apps pane hides exactly when a file matches and no app does |
| Desktop.AppName | desktop.js:453-459 | an app's name comes from the table, or is the type itself |
| Desktop.AppIcon | desktop.js:461-467 | an app's icon comes from the table, or is the document icon, and is never empty |
| Desktop.RetryDelayBounds | desktop.js:718 | the retry delay lies between 1 and 5 seconds and at most doubles from one retry to the next |
| Desktop.RetryScheduleFromStart | desktop.js:714-722 | a fetch that keeps failing is retried three times, after 1, 2 and 4 seconds, and then abandoned |
| Desktop.BadgeLabelCases | desktop.js:795-814 | the badge asks for a location exactly when the VPN is down and no choice is stored, and says `Disconnected` exactly when it is down and one is. When it is up with a known place, it leads with the country and ends with the IP |
| Desktop.Shell.constructor | desktop.js:572 | the start menu starts closed (line 2), the retry count at 0 and the positions as stored |
| Desktop.Shell.ToggleStartMenu | desktop.js:404-416 | the start menu flag flips |
| Desktop.Shell.CloseStartMenu | desktop.js:418-424 | the start menu flag becomes false |
| Desktop.Shell.SaveIconPosition | desktop.js:223-227 | only that icon's entry changes |
| Desktop.Shell.LoadIconPositions | desktop.js:190-221 | each icon is shown at its saved place or its grid place, and the positions become the layout `LaidOut` |
| Desktop.Shell.DragMove | desktop.js:116-130 | on a mouse move, or a touch move at lines 163-175, the icon goes to the clamped place, which is saved |
| Desktop.Shell.VpnFetchFailed | desktop.js:713-722 | a failed fetch schedules `NextRetry`, and the count goes up exactly when a retry is scheduled |
| Desktop.Shell.VpnResetRetries | desktop.js:702 | after a successful fetch, or a refresh at line 841, the retry count becomes 0 |
| MainProcess.WindowSpecSizes | main.js:82-107 | exactly the five app types open a window, each its own page. A size given and not 0 is used; an absent size or one given as 0 gives the type's default |
| MainProcess.WithoutKeeps | main.js:150 | deleting a key keeps exactly the other keys |
| MainProcess.WithoutDistinct | main.js:150 | deleting keeps the keys distinct |
| MainProcess.PutEntry | main.js:134-135 | registering keeps the registry well formed, files the entry under its id and touches no other entry |
| MainProcess.RemoveEntry | main.js:149-150 | deleting keeps the registry well formed and removes exactly that entry; the others keep their order |
| MainProcess.FirstBySenderFinds | main.js:234-239 | the search, here and in `get-window-id` at lines 221-226, finds the first registered window of the sender, in insertion order, or none when the sender has none |
| MainProcess.InsideAdmitsSuffixes | main.js:488 | the guard, used the same way at lines 372, 412 and 425, admits everything written after the root, `..` steps included, and refuses every other path |
| MainProcess.AllInside | main.js:395-401 | the dialog check passes exactly when every chosen path is inside the root |
| MainProcess.ExtNameShape | main.js:492 | an extension is empty, or a `.` followed by the end of the name with no other `.` or `/` |
| MainProcess.AppForFileCases | main.js:492-506 | `.doc .docx .txt .rtf .html .htm` open the writer, `.xls .xlsx .csv .json` open the spreadsheet, and every other extension is refused. The chosen app is a known type |
| MainProcess.ExtensionsDisjoint | main.js:496-499 | no extension belongs to both apps |
| MainProcess.InOrderDirectoriesFirst | main.js:472-477 | in a sorted list every directory comes before every file, and names are in order within each kind |
| MainProcess.SuppressedCases | main.js:528-539 | the three cache markers suppress a message of any length. `No file for` suppresses only a message shorter than 100 units. A message with none of the four phrases is always printed |
| MainProcess.Main.constructor | main.js:10 | the registry starts empty |
| MainProcess.Main.CreateAppWindow | main.js:82-157 | an unknown type gives none and registers nothing. A known type files the window under `now` and returns `now` |
| MainProcess.Main.WindowClosed | main.js:149-150 | the closed window's entry goes |
| MainProcess.Main.DesktopClosed | main.js:74-79 | as written: with windows registered, the first `win.close()` throws, because each entry is the record filed at line 135, and the registry keeps every entry. An empty registry stays empty |
| MainProcess.Main.DesktopClosedIntended | main.js:76-78 | every registered window is closed, in registration order, and the registry is emptied |
| MainProcess.Main.TargetWindow | main.js:219-278 | a window-control message acts on the id it gives, or on the sender's first window when it gives none. When that id is not registered it acts on nothing |
| MainProcess.Main.OpenFileInApp | main.js:485-511 | a path outside the root is refused with the access message, and an unsupported extension with `Unsupported file type`. Otherwise the chosen app opens a window for the file |

## Left out

- The DOM, webviews, `BrowserWindow` creation, focus, CSS classes and `setInterval`/`setTimeout`
  timing (including the 150 ms search debounce): only the state that the handlers change is
  modelled.
- `localStorage` writes, `fs` reads and writes, dialogs, `fetch` and the VPN APIs, `Blob`
  downloads: their inputs and results are parameters.
- Bold and italic (`execCommand`), and the confirmation prompts before New and Open: they are DOM
  calls and user prompts.
- `wallet.js`, `solana-provider.js`, the provider script embedded in `renderer.js`, `preload.js`
  and `word.js` are not part of this model. They hold crypto, network, cross-frame messaging and
  rich-text editing.
- The browser's `openWindows`, `launchApp`, `updateTaskbar`, `get-open-windows` and `focus-window`,
  the VPN location modal and the background settings: they only forward to the DOM or to IPC.
- Arith.Evaluate: the whitelisted text is read by a small arithmetic grammar, not by JavaScript's
  `Function`. Exponentiation `**`, the comment forms `/* */` and `//`, and regular-expression
  literals, all of which the whitelist admits, are read as syntax errors. So `=1+/2/`, which
  JavaScript evaluates to the text `1/2/`, gives `'#ERROR'` here.
- Arith.EvaluateWritten: stated only for trees whose literals are non-negative numbers with at
  most 20 decimals, written as `String(n)` writes them, without exponent notation. A negative
  value enters a tree through `Negate`. Other spellings of a numeral, such as `007` or `1.50`, are
  not covered; Arith.LeadingPoint covers the form `.5`.
- Arith.EvaluateParenthesised: the same limit on literals as Arith.EvaluateWritten.
- Arith.WrittenChars: the same limit on literals as Arith.EvaluateWritten.
- JsNumber: numbers are exact reals. IEEE 754 rounding (such as `0.1 + 0.2`), signed zeros and
  overflow to infinity are not modelled. `String(n)` of a fraction is exact up to 20 digits.
- JsNumber.Show: `String(n)` is written without exponent notation. JavaScript writes numbers from
  1e21 up, and non-zero numbers below 1e-6, in exponent form (`1e+21`, `5e-7`).
- Formula.CalculateFormula: because of the `JsNumber.Show` gap, a reference to a value below 1e-6
  or from 1e21 up is replaced by plain digits, which pass the whitelist. In JavaScript the `e` fails
  the whitelist and the formula text comes back. So with `A1` holding `0.0000005`, `=A1*2` gives
  `0.000001` here and `=A1*2` in the source. A computed result such as `=10000000*10000000*10000000`
  is shown as `1000000000000000000000` rather than `1e+21`.
  Regular-expression literals, which the whitelist admits, give `'#ERROR'` here (see Arith.Evaluate
  above), where `=1+/2/` gives the text `1/2/` in the source.
- Text.ToLower: only the ASCII letters change case; Unicode case mapping is not modelled.
- Text.ToUpper: only the ASCII letters change case too. The `SUM(` test is therefore modelled only
  for ASCII text; Unicode letters whose upper case is `S`, `U` or `M` are not treated specially.
- Workbook.Decode: only text, finite numbers, booleans and `null` are read from a file. JSON
  objects and arrays as cell values are not modelled.
- Sheets.Spreadsheet.LoadFile: a `readFile` that throws is not modelled. The file's content is a
  parameter. A JSON file whose top level is not an object cannot be represented, because the parsed
  file is a map or nothing. In the source, `5` or `[]` loads as an empty sheet and sets the file
  name, and `null` is adopted as the mapping and makes the redraw throw at its first cell
  (sheets.js lines 365-378 and 526).
- Browser.Destination: the dotted-quad pattern of `navigateToAddress` is not a separate condition,
  because any text it matches contains a dot.
- Browser.MathMin: `Math.min` and `Math.max` ignore signed zeros.
- Desktop.AppName: keys inherited from `Object.prototype` (such as `constructor`) are not
  modelled. They would return a function rather than a string.
- MainProcess.ExtName: `path.extname` is modelled for paths without a trailing separator. A base
  name made only of dots is not treated specially.
- MainProcess.Compare: `localeCompare` is the parameter `compare`. Only the directories-first
  rule is specific to the source.
- MainProcess.Main.CreateAppWindow: two windows created in the same millisecond share an id, so
  the second overwrites the first. That is how `Map.set` behaves, and the model does the same.
  Nothing rules it out.

## Findings

| source | as written | input that shows it | evidently intended | confidence | as-written member | corrected member |
|---|---|---|---|---|---|---|
| main.js:77 | `appWindows.forEach((win) => win.close())` calls `close` on each registry entry, which is the record `{window, type, id}` filed at line 135 and has no `close` method; the TypeError ends the handler before `appWindows.clear()` | closing the desktop window while one app window is registered | close each entry's `window`, then clear the registry | not executed | MainProcess.Main.DesktopClosed | MainProcess.Main.DesktopClosedIntended |
| desktop.js:922 | `document.querySelectorAll('.start-menu-item')` sets `hasAppMatches`, and also finds the file results the earlier search drew with that class, whose subtitle is `Document` (lines 974-989) | search `rep` so that `report.txt` is listed, then `doc` with `report.doc` among the files and no app matching `doc`: the apps pane stays shown, empty | only the apps decide `hasAppMatches`, so the apps pane hides | not executed | Desktop.StaleResultKeepsAppsPane | Desktop.PerformSearchIntendedApps |
