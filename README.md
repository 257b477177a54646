# ExcelColumnsTranslator in Dafny

A model of the sequential core of ExcelColumnsTranslator. The tool reads a workbook,
translates the text of chosen source columns through the DeepL web API, writes each
translation into the paired target column, and keeps a history of every translation. The
model covers:

- **Python string operations** (`Strings`). The `strip`, `split` and `str(int)` behaviour that column parsing and cell addresses depend on, and `upper` for ASCII letters.
- **Column codec** (`Utils`). Column letters map to 1-based numbers as bijective base 26
  (A = 1, Z = 26, AA = 27) and back. It also covers the column range check, the unit choice
  of `format_time`, and the assembly of the progress bar.
- **Column specifications and batch checks** (`Cli`). A spec such as "A,B,C-E" is split on
  ',' and becomes a list of column numbers. `parse_args` runs its checks in order in batch
  mode. Row ranges are accepted as `_get_row_range` accepts them.
- **Default output path** (`Paths`). This is `name_translated.ext` next to the input, built
  with `dirname`, `basename`, `splitext` and `join` as POSIX paths define them.
- **Retry state machine of `translate`** (`DeepL`). The server is a function: `server(i)` is
  the response to the i-th request. Every `sleep` is recorded in a list of wait durations.
  The module also covers key resolution and `test_connection`.
- **History store** (`History`). An append-only list of seven-key records. It has the Python
  `[-limit:]` slice of `get_recent_entries` and the fallback to an empty list when the file
  is missing or is not valid JSON.
- **Cell store** (`Excel`). The active sheet is a map from (row, column) to text. It has the
  cell addresses ("A1") and the output-path default. The sheet title is a constant field, so
  no write can change what `get_sheet_name` returns.
- **Translation loop of `main`** (`Runner`). The loop runs over the zipped column pairs, and
  for each pair over the rows in ascending order. For each cell it counts, reads and
  translates. When a translation comes back, it writes the target cell and appends one
  history entry.

`Runner.RunTranslation` and its inner loop `Runner.TranslatePair` are methods over an
`ExcelHandler` and a `TranslationHistory`. Each is proved equal to `Runner.RunVisits`, a fold
of one-cell steps over the visit sequence `Runner.Visits`. The lemmas about `RunVisits` state
what a run does:
- visit order;
- the final value of `processed`;
- which cells can change;
- where history entries come from, and in what order.

In the runner, the translator is a function from a text to `Translated(t)`, `NoTranslation`
(`None`) or `Raised(e)`. Its retry behaviour is modelled separately in `DeepL`.

In a few places the code does not do what its docstrings and help text suggest. The
model follows the code:
- `excel_column_to_number` never validates. "" is 0, and ASCII characters other than letters
  give `ord` arithmetic.
- `number_to_excel_column(0)` is "" rather than an error.
- A reversed range such as "E-C" gives no columns.
- The only `ValueError` in column parsing is the two-way unpack of a token with more than
  one '-'.

## Model

| member | source | states |
|---|---|---|
| Strings.Upper | cli_interface.py:47 | ASCII case mapping only: the length is kept, each of 'a'..'z' becomes its capital in place, and every other character stays as it is |
| Strings.Strip | cli_interface.py:55-59 | `strip()` drops the leading and the trailing white space and nothing else (definition, with `LeadingSpaces` and `TrailingSpaces` counting the white space at each end) |
| Strings.Decimal | excel_handler.py:49 | `str(row)`: a '-' before the digits of a negative number, the digits alone otherwise (definition) |
| Strings.StripNoSpace | cli_interface.py:55-59 | `strip()` leaves a string without white space unchanged |
| Strings.CountPositive | cli_interface.py:53 | `'-' in part` holds exactly when '-' occurs at least once |
| Strings.Split | cli_interface.py:52 | `split(',')` gives one more piece than there are commas, and no piece holds a comma |
| Strings.SplitJoin | cli_interface.py:52 | joining the pieces of `split(',')` with ',' gives back the input: nothing is lost |
| Strings.SplitNoSep | cli_interface.py:52 | a string without the separator splits into itself alone |
| Strings.SplitAround | cli_interface.py:52 | splitting "a,b" gives the pieces of a followed by those of b |
| Strings.Digits | excel_handler.py:49 | `str(row)` of a natural number is non-empty, all decimal digits, with no leading zero |
| Strings.DigitsRoundTrip | excel_handler.py:49 | the digits of n read back as n |
| Strings.DigitsInjective | excel_handler.py:49 | different natural numbers have different digit strings |
| Excel.DecimalInjective | excel_handler.py:49 | different integers have different `str()` forms |
| Utils.ColumnValue | utils.py:72-75 | Horner evaluation in base 26 with A = 1 .. Z = 26 and `ord(c) - ord('A') + 1` for any other character (definition) |
| Utils.ColumnLetters | utils.py:79-83 | bijective base 26: the last letter is (n - 1) % 26, the rest spells (n - 1) / 26 (definition) |
| Utils.ExcelColumnToNumber | utils.py:70-75 | the result is the Horner value in base 26 (A = 1 .. Z = 26) of the input with 'a'..'z' upper-cased; "" gives 0; nothing is validated |
| Utils.UpperKeepsColumnName | utils.py:73 | `upper()` leaves a name of 'A'..'Z' unchanged |
| Utils.NumberToExcelColumn | utils.py:77-83 | for every n >= 0 the `divmod` loop spells the bijective base-26 letters `ColumnLetters(n)` |
| Utils.ColumnLettersShape | utils.py:77-83 | the spelling of n has only 'A'..'Z' and is empty exactly for n = 0 |
| Utils.NumberRoundTrip | utils.py:70-83 | `excel_column_to_number(number_to_excel_column(n)) == n` for any n >= 0, through `upper()` |
| Utils.LettersRoundTrip | utils.py:70-83 | `number_to_excel_column(excel_column_to_number(s)) == s` for a string of 'A'..'Z', through `upper()`; the number is >= 1 unless the string is empty |
| Utils.ColumnValueInjective | utils.py:70-75 | different upper-case column names have different numbers |
| Utils.ColumnNumberIgnoresCase | utils.py:73 | a string and its upper-cased form have the same column number |
| Utils.ColumnExamples | utils.py:70-83 | "A" is 1, "Z" is 26, "AA" is 27, "" is 0, and the other way round; 0 spells "" |
| Utils.UncheckedExamples | utils.py:72-75 | "@" gives 0, "#" gives -29 and "a1" gives 11: no error for non-letters |
| Utils.ValidateColumnRange | utils.py:7-11 | passes iff every column is in 1..max_col; otherwise fails with the first column outside it |
| Utils.FormatTime | utils.py:61-68 | the unit is seconds iff s < 60, minutes iff 60 <= s < 3600, hours otherwise; amount times unit length is s |
| Utils.FormatTimeMonotone | utils.py:61-68 | a longer duration never gets a smaller unit |
| Utils.Repeat | utils.py:34 | `c * n` is n copies of c, empty for n <= 0 |
| Utils.FilledCells | utils.py:33 | `int(width * progress // 100)` over exact reals (definition) |
| Utils.ProgressBar | utils.py:34 | `'=' * filled + '>' + '-' * (width - filled - 1)` (definition) |
| Utils.FilledCellsBounds | utils.py:33 | for progress in 0..100, `filled` lies in 0..width and equals width exactly at 100 |
| Utils.ProgressBarShape | utils.py:34 | for 0 <= filled < width the bar is filled '=', one '>', then '-', width characters in all |
| Utils.FullProgressBar | utils.py:33-34 | at 100 % the bar is width '=' and a '>', one character longer than width |
| Cli.Range | cli_interface.py:57 | `range(lo, hi)` is lo, lo + 1, ... below hi, empty when lo >= hi |
| Cli.RangeColumns | cli_interface.py:54-57 | a token splits on '-' into exactly two pieces or fails with the unpack error; otherwise every column from the stripped start's to the stripped end's, inclusive (definition) |
| Cli.TokenColumns | cli_interface.py:53-59 | a token with '-' is a range, any other the one column of its stripped text (definition) |
| Cli.SpecColumns | cli_interface.py:51-60 | the columns of the ','-pieces of the spec, left to right, the first failing piece giving the error (definition) |
| Cli.TokenFailsIffTwoDashes | cli_interface.py:53-59 | a token fails to unpack exactly when it holds two or more '-'; a token without '-' gives one column |
| Cli.SingleToken | cli_interface.py:58-59 | a token without '-' gives the one column of its stripped letters |
| Cli.RangeToken | cli_interface.py:53-57 | "X-Y" gives index(X)..index(Y) ascending after stripping, and nothing when index(X) > index(Y) |
| Cli.SplitPair | cli_interface.py:54 | "x-y" with no '-' in x or y splits into exactly x and y |
| Cli.TwoDashes | cli_interface.py:54 | "x-y-z" is the unpack error, whatever x, y and z are |
| Cli.TwoDashesExample | cli_interface.py:52-54 | the spec "A-B-C" is rejected with the unpack error |
| Cli.ReversedRangeExample | cli_interface.py:57 | the spec "E-C" gives no column |
| Cli.ParseToken | cli_interface.py:53-59 | the loop body gives the columns of one token, as `TokenColumns` defines them |
| Cli.ParseRange | cli_interface.py:53-57 | the range branch gives the columns of `RangeColumns`, or the unpack error |
| Cli.ParseColumnSpec | cli_interface.py:51-60 | the loop over the comma-separated tokens gives `SpecColumns(spec)`, stopping at the first error |
| Cli.FailureStops | cli_interface.py:51-61 | once a prefix of the tokens fails, the whole spec fails with that error |
| Cli.ColumnsOfAppend | cli_interface.py:51-60 | the columns of two token lists are those of each, concatenated in order |
| Cli.ColumnSpecConcat | cli_interface.py:51-60 | the columns of "s1,s2" are those of s1 followed by those of s2: nothing is sorted or de-duplicated |
| Cli.OneToken | cli_interface.py:52 | a spec without ',' is a single token |
| Cli.LetterColumn | cli_interface.py:59 | one upper-case letter names the column of that letter |
| Cli.OneLetterSpec | cli_interface.py:51-60 | the spec of one upper-case letter is that letter's column |
| Cli.LetterRangeToken | cli_interface.py:53-57 | the token "X-Y" of two letters is the range of their columns |
| Cli.LetterRangeSpec | cli_interface.py:51-60 | the spec "X-Y" of two letters is the range of their columns |
| Cli.LetterThenRange | cli_interface.py:51-60 | "Y,Z-W" is Y's column followed by the range Z..W |
| Cli.ThreeTokens | cli_interface.py:51-60 | "X,Y,Z-W" is X's column, Y's column, then the range Z..W |
| Cli.HelpSourceExample | cli_interface.py:82 | the help text's "A,B,C-E" is columns 1, 2, 3, 4, 5 |
| Cli.HelpTargetExample | cli_interface.py:83 | the help text's "F,G,H-J" is columns 6, 7, 8, 9, 10, as many as the source example |
| Cli.ConcatEmpty | cli_interface.py:57 | extending by no columns changes nothing |
| Cli.ConcatAssociative | cli_interface.py:57 | extending the column list is associative, errors included |
| Cli.ParseColumnInput | cli_interface.py:42-60 | no prompt gives []; otherwise the typed text, stripped and upper-cased, is parsed |
| Cli.AcceptRowRange | cli_interface.py:64-74 | a start and an end are accepted iff start <= end, and returned as the pair |
| Cli.ParseArgs | cli_interface.py:90-145 | outside batch mode the empty parameters; in batch mode each error iff the earlier checks pass and its own fails, in the source's order; on success equal-length column lists, ordered rows, and the given or the default output path |
| Paths.RFind | cli_interface.py:37-38 | the last position of the character, or -1 when there is none |
| Paths.RFindAppend | cli_interface.py:37-39 | the last occurrence in a + b is in b when b has one, else in a |
| Paths.Dirname | cli_interface.py:37 | `dirname` is empty, all slashes, or does not end in '/' |
| Paths.Basename | cli_interface.py:38 | `basename` is the part of the path after its last '/', holding no '/' |
| Paths.NoSlashAfterSuffix | cli_interface.py:39-40 | the new file name is non-empty and has no '/' |
| Paths.Join | cli_interface.py:40 | `os.path.join(a, b)` for a `b` without a leading '/': a '/' between them unless `a` is empty or ends in '/' (definition) |
| Paths.DefaultOutputPath | cli_interface.py:35-40 | the input's directory joined with its file name's root, "_translated" and its extension (definition; `DefaultOutputPathShape` states what it gives) |
| Paths.Splitext | cli_interface.py:39 | `splitext` gives back the name when its parts are joined, and the extension is empty or one leading dot with no other dot or '/' |
| Paths.JoinDirname | cli_interface.py:40 | joining a directory as `dirname` gives it with a file name gives back that directory and that name |
| Paths.SplitextAfterSuffix | cli_interface.py:39-40 | inserting "_translated" before the extension keeps `splitext` splitting at the same place |
| Paths.DefaultOutputPathShape | cli_interface.py:35-40 | the default path has the input's directory, and its file name is the input's name with "_translated" before the extension, which stays the extension |
| Paths.SplitextAt | cli_interface.py:39 | a name with a character other than a dot before a proper extension splits at that extension |
| Paths.DefaultOutputPathOf | cli_interface.py:35-40 | "dir/root.ext" becomes "dir/root_translated.ext" for a directory without '/', a root with a character other than a dot and a proper extension |
| Paths.DefaultOutputPathExample | cli_interface.py:35-40 | "data/report.xlsx" becomes "data/report_translated.xlsx" |
| DeepL.ResolveApiKey | deepl_client.py:11-13 | an explicit non-empty key wins, then a non-empty environment key; the error iff neither is usable |
| DeepL.Headers | deepl_client.py:16-19 | exactly the two headers, "DeepL-Auth-Key " + key and "application/json" |
| DeepL.Classify | deepl_client.py:47-62 | a network error or a 4xx/5xx other than 403/456 is retryable, 429 waits, 403 and 456 are fatal, anything else is the answer (definition) |
| DeepL.Attempts | deepl_client.py:36-67 | the attempts from `attempt` on: an answer or a fatal status ends the call, a 429 waits and goes on, a retryable failure waits and goes on unless it is the last attempt, where it raises; past the last attempt `None` (definition; `AttemptsShape` states what it gives) |
| DeepL.TranslateTrace | deepl_client.py:31-67 | `""` is returned without a request, any other text goes through the attempts from 0 (definition) |
| DeepL.DeepLTranslator.constructor | deepl_client.py:15-19 | the key, the endpoint and the headers of `__init__` |
| DeepL.DeepLTranslator.Create | deepl_client.py:10-19 | construction fails iff no key is usable, before any request; otherwise the resolved key and its headers |
| DeepL.DeepLTranslator.Translate | deepl_client.py:31-67 | the loop's result, number of requests and waits are those of `TranslateTrace` |
| DeepL.DeepLTranslator.Attempt | deepl_client.py:38-65 | one pass of the loop makes one request; it ends the call iff the response is not a 429 and not a retryable failure before the last attempt, with the outcome `Attempts` gives; otherwise it adds a wait of 2 ** attempt and the invariant carries over to the next attempt |
| DeepL.DeepLTranslator.TestConnection | deepl_client.py:21-29 | never raises; true iff translating "Hello" yields a non-empty text |
| DeepL.Backoff | deepl_client.py:48 | n waits starting at attempt k are 2 ** k, 2 ** (k + 1), ... |
| DeepL.RetriedStep | deepl_client.py:47-65 | an attempt that waits and goes on adds one request and one wait of 2 ** attempt in front of the rest |
| DeepL.AfterRetry | deepl_client.py:47-65 | the loop's invariant holds again after an attempt that waits and goes on |
| DeepL.AfterFinal | deepl_client.py:52-62 | an attempt that does not go on ends the call with its answer or its exception, and no wait |
| DeepL.AttemptsShape | deepl_client.py:36-67 | at most max_retries requests; the i-th wait is 2 ** i; one wait per request except after the last, unless the result is None; None iff every attempt waited and went on |
| DeepL.RetriedPrefix | deepl_client.py:36-65 | k attempts that waited make k requests with waits 1, 2, 4, ... and go on from attempt k |
| DeepL.AllRateLimited | deepl_client.py:47-67 | all 429 gives None after max_retries requests and one wait 2 ** i per attempt |
| DeepL.RateLimitedThenAnswer | deepl_client.py:47-58 | [429, 429, OK(t)] gives t after 3 requests and waits [1, 2] |
| DeepL.FatalStops | deepl_client.py:52-55 | 403 or 456 raises at once: no wait, no further request |
| DeepL.LastAttemptRaises | deepl_client.py:60-62 | a network error or another 4xx/5xx on the last attempt raises the wrapped error without waiting |
| DeepL.NoRequest | deepl_client.py:33-67 | "" gives "" without a request; max_retries <= 0 gives None without one |
| DeepL.ConnectionExamples | deepl_client.py:21-29 | the connection test is true after an answer with text, false on 403, false when all three attempts get 429 |
| History.Record | translation_history.py:52-60 | a record has exactly the seven keys |
| History.FromRecord | translation_history.py:52-60 | a record reads back iff it has all seven keys |
| History.RecordRoundTrip | translation_history.py:52-60 | every field is kept under its own key |
| History.LoadHistory | translation_history.py:20-29 | the saved list, or [] when the file is missing or its text is not valid JSON |
| History.SliceFrom | translation_history.py:84 | Python's `h[start:]` is a suffix of h |
| History.RecentEntries | translation_history.py:72-84 | always a suffix in order; all for None, for 0 and for a limit past the length; the last `limit` entries for 0 < limit <= length; all but the first -limit for a negative limit |
| History.TranslationHistory.constructor | translation_history.py:10-18 | the list is whatever `_load_history` finds |
| History.TranslationHistory.AddEntry | translation_history.py:31-62 | one record more at the end, carrying the given fields; earlier records unchanged |
| History.TranslationHistory.GetRecentEntries | translation_history.py:72-84 | the recent entries, and the history is not modified |
| History.TranslationHistory.ClearHistory | translation_history.py:86-88 | the history is empty afterwards |
| History.AppendKeepsEarlier | translation_history.py:61 | appending grows the list by one, keeps every earlier record in place, and the last entry is the new one |
| Excel.ReadCell | excel_handler.py:28-34 | the cell's text, "" for an unset cell, an error iff the row or column is below 1 |
| Excel.WriteCell | excel_handler.py:36-41 | the cell is set, an error iff the row or column is below 1 |
| Excel.ReadAfterWrite | excel_handler.py:28-41 | after a write the cell reads back the value and every other cell reads as before |
| Excel.UnsetCellIsEmpty | excel_handler.py:32 | a cell never set reads as "" |
| Excel.CellAddressExamples | excel_handler.py:47-49 | (1, 1) is "A1", (1, 6) is "F1", (10, 27) is "AA10" |
| Excel.CellAddressInjective | excel_handler.py:47-49 | different cells have different addresses |
| Excel.ExcelHandler.constructor | excel_handler.py:10-19 | the given output path unless it is missing or empty, else the generated one; the sheet's cells and title |
| Excel.ExcelHandler.Open | excel_handler.py:10-19 | `FileNotFoundError` iff nothing is at the input path, the loader's error iff the file there is not a workbook, otherwise a handler as the constructor builds it |
| Excel.ExcelHandler.GenerateOutputPath | excel_handler.py:21-26 | the input's directory, with "_translated" inserted before the extension of the input's name |
| Excel.ExcelHandler.GetCellValue | excel_handler.py:28-34 | the handler's current cells read as `ReadCell` reads them (definition; `ReadAfterWrite` and `UnsetCellIsEmpty` state what it gives) |
| Excel.ExcelHandler.GetSheetName | excel_handler.py:43-45 | the active sheet's title, a constant field that no write can change (definition) |
| Excel.ExcelHandler.SetCellValue | excel_handler.py:36-41 | writes the one cell, or refuses an invalid cell and changes nothing |
| Excel.ExcelHandler.GetCellAddress | excel_handler.py:47-49 | the column's letters followed by the row's decimal digits |
| Runner.Zip | translate_excel.py:43 | pairs are formed by position, as many as the shorter list |
| Runner.RowVisits | translate_excel.py:44 | the rows row_start, row_start + 1, ... below the bound, in that order |
| Runner.Visits | translate_excel.py:43-44 | the pairs in order, each over all the rows; non-negative source columns stay so |
| Runner.Step | translate_excel.py:46-80 | one cell: nothing after an exception; otherwise count it, read the source cell, and for a non-empty text translate it: an exception stops the run, `None` skips the cell, a translation is written to the target cell and one entry is appended (definition; `SkippedCell`, `TranslatedCell` and `StepHistory` state what it gives) |
| Runner.RunVisits | translate_excel.py:43-80 | the steps of the visits one after the other, in order (definition) |
| Runner.VisitCell | translate_excel.py:46-80 | one pass of the loop body changes the cells, the history, the counter and the exception as `Step` says |
| Runner.TranslatePair | translate_excel.py:44-80 | the inner loop's effect is that of all the row visits of the pair |
| Runner.RunTranslation | translate_excel.py:36-80 | the nested loops leave the cells, the history, `processed` and the exception as `RunVisits` over all the visits does |
| Runner.NextRow | translate_excel.py:44 | one more row of the inner loop is one more step |
| Runner.RestOfRows | translate_excel.py:44-80 | after an exception the remaining rows change nothing |
| Runner.NextPair | translate_excel.py:43-44 | one more pair runs its rows from where the earlier pairs left off |
| Runner.RestOfPairs | translate_excel.py:43-80 | after an exception the remaining pairs change nothing |
| Runner.FailureSticks | translate_excel.py:100-102 | once an exception is raised, no further visit changes anything |
| Runner.RunVisitsAppend | translate_excel.py:43-44 | running two visit lists one after the other is running their concatenation |
| Runner.VisitsPrefix | translate_excel.py:43-44 | the visits of fewer pairs come first among those of more |
| Runner.VisitsLength | translate_excel.py:36-44 | there are len(pairs) * rows visits |
| Runner.VisitOrder | translate_excel.py:43-44 | row row_start + i of pair p is visited at position p * rows + i |
| Runner.ProcessedCount | translate_excel.py:46 | `processed` never exceeds the number of visits and counts all of them when nothing is raised |
| Runner.CompletedRunCount | translate_excel.py:36-46 | a run that raises nothing ends with processed == (row_end - row_start + 1) * len(source_cols) |
| Runner.OnlyTargetsWritten | translate_excel.py:70 | a cell that is no visit's target keeps its value |
| Runner.StepHistory | translate_excel.py:65-80 | one visit appends nothing or one entry naming its own cells |
| Runner.HistoryGrows | translate_excel.py:73-80 | earlier entries stay, and at most one entry is added per visit |
| Runner.EntriesFromVisits | translate_excel.py:65-80 | every added entry comes from a visit: a non-empty text, its translation, the addresses of the visit's cells, the input's file name and the sheet |
| Runner.HistoryOrder | translate_excel.py:43-80 | the entries of earlier visits come before those of later ones |
| Runner.SkippedCell | translate_excel.py:65-68 | an empty cell or a None translation is counted and changes nothing else |
| Runner.TranslatedCell | translate_excel.py:69-80 | a text with translation t writes t into (row, dest_col) and appends exactly one entry for source and target address |
| Runner.HelloExample | translate_excel.py:43-80 | A1 = "Hello" and a translator to "こんにちは" leave F1 = "こんにちは" and one entry A1 -> F1 |

## Left out

- Workbook loading and saving (`load_workbook`, `save`), and file-existence checks: a foreign library and file I/O. What the input path holds (nothing, a file that is not a workbook, or a workbook) is a parameter of `Excel.ExcelHandler.Open`, and whether the input exists is a parameter of `Cli.ParseArgs`. The different exceptions `load_workbook` can raise are one `LoadFailed` case.
- Reading, writing and removing the history file as JSON: file I/O. What `_load_history` finds is a parameter. Saving and removing change nothing the model keeps.
- `requests.post`, the request body (including `target_lang`) and JSON decoding of the reply: network I/O. `server(i)` is the i-th response, and `sleep` is a recorded list of waits.
- The `datetime.now(JST)` timestamp: the clock. In the runner, the n-th history entry gets `clock(n)`.
- `time.time()`, the float arithmetic of the progress percentage, speed and ETA, and the `:.1f`/`:.0f` formatting in `format_progress_bar` and `format_time`: the clock and floating point. `Utils.FormatTime` models only the unit choice, over exact reals.
- The `input()` prompt loops of `_get_input_path`, `_get_output_path`, `_parse_column_input` and `_get_row_range`, and the interactive half of `get_parameters`: user interaction. One round of `_parse_column_input` and the acceptance rule of `_get_row_range` are modelled.
- argparse plumbing, `print`, `sys.exit` and `KeyboardInterrupt`: UI and process control. Each `parser.error` is a distinct `Cli.CliError`.
- Python's `str()` of arbitrary cell values: cells hold strings.
- `Runner.RunTranslation`: the translator passed in is a deterministic function of the text. Its retries and waits are modelled in `DeepL`, not re-run per cell.
- `Runner.RunTranslation` requires every source column to be >= 0, because `number_to_excel_column` never returns for a negative column.
- `Utils.NumberToExcelColumn` requires n >= 0, because the loop never terminates for a negative n.
- `Excel.ExcelHandler.GetCellAddress` requires col >= 0, for the same reason.
- `Strings.Upper`: only ASCII case mapping is modelled. Python's `str.upper()` also maps other letters ('ä' to 'Ä') and can make a string longer ('ß' to 'SS'), so a column spec with non-ASCII letters gets a different number from `Utils.ExcelColumnToNumber` and the `Cli` parsers than from the source: "ä" gives 164 in the model and 132 in Python.
- `Paths.DefaultOutputPath`: only POSIX path rules are modelled. On Windows, `os.path` is `ntpath`, which also splits at a backslash and keeps drive letters. There `C:\dir.v2\file` becomes `C:\dir.v2\file_translated`, while this model gives `C:\dir_translated.v2\file`. The same holds for `Excel.ExcelHandler.GenerateOutputPath`.
- `History.LoadHistory`: only the missing file and the `json.JSONDecodeError` fallback are modelled. A file that is not valid UTF-8 (`UnicodeDecodeError`) or cannot be opened (`OSError`) makes `__init__` raise in the source. Valid JSON that is not a list of records is kept as it is there. The model's saved history is always a list of entries.
- `Excel.WriteCell`: openpyxl's `IllegalCharacterError`, raised for a value with control characters, is not modelled. Every value is accepted at a valid cell, and so every translation the runner writes.
- `Excel.ReadCell`: openpyxl's out-of-range error (row or column below 1) is modelled; its upper limits on rows and columns are not.
- `History.TranslationHistory.GetRecentEntries`: the returned list is a value, so the aliasing of `self.history` for `limit=None` is not modelled.
- `test_translation.py` and `create_test_excel.py`: manual scripts that only do network and file I/O.
