# Open-order report: a verified model

`open_orders.py` is a daily report job. Twice a day, at 09:00:30 and at 13:05:00, it does the
following for each sales organisation (segment) of that slot:

- reads an order extract;
- converts the configured date columns to dates;
- before the 26th of the month, keeps only the orders whose `Requested` date is missing or
  earlier than today;
- writes the rows to a workbook, with date cells rewritten as `=DATE(y, m, d)` formulas;
- colours cells and sizes columns;
- mails the workbook through a database mail procedure.

This project models the decision logic of that job in Dafny and proves what it does. Files,
the database, the clock and the logger are replaced by plain data: each is a parameter or part
of the result.

The modules follow the program's pieces:

- `Cells`: spreadsheet cell values and column letters.
- `Dates`: the date forms the job reads and writes. These are `YYYY-MM-DD 00:00:00` in the
  extract, `DD.MM.YYYY` in the report, and the `=DATE(y, m, d)` formula. The module also has the
  parsers for these forms.
- `Recipients`: `check_recipients_file` (which list file is probed, and in what order) and
  `get_users` (the `"; "`-separated address string).
- `OrderFilter`: the date-column block of `main`. It selects the date columns, coerces their
  values, filters by `Requested` and formats dates for display.
- `Workbook`: `set_excel_data` and `adjust_color_width_in_excel`. A `Sheet` class keeps cell
  values, fills and widths in arrays and updates them in place. It covers the formula rewrite,
  the header scan into five column categories, the yellow/red fill rule and the column widths.
- `Notifier`: the attachment rule of `send_mail` and its three outcomes. Every outcome commits.
- `Pipeline`: one run of `main`. One `try` wraps the whole segment loop, so the first exception
  ends the run with a mail to support. `exit()` is not caught, so it ends the process.
- `Scheduler`: the once-a-second polling loop of `run_at_specific_times`.

The imperative parts of the source are methods with loop invariants:

- the accumulator loop of `get_users`;
- the formula loop;
- the header scan;
- the fill and width loops;
- the segment loop;
- the polling loop.

Each method is proved equal to a function, and lemmas state what that function guarantees.

Three points of the code's behaviour are easy to misread, so they are spelled out here:

- **Fill rule.** The red tests are independent `if`s that all assign the same red fill, so a
  cell is red when *any* category flags it. Which test fires first makes no difference.
- **Errors end the run.** The `try` encloses the whole segment loop. An exception in one
  segment therefore ends the run, and the later segments of that slot are not processed.
- **Heartbeat.** The heartbeat is logged when minute and second are both 0, which is once an
  hour.

## Model

| member | source | states |
|---|---|---|
| Recipients.CheckRecipientsFile | open_orders.py:55-74 | The primary file is probed first. When it is missing, the copy file is never probed and the primary is reported missing. The lists are read exactly when both files exist. Otherwise the last probed file is the missing one. |
| Recipients.GetUsers | open_orders.py:77-108 | The result is the text entries of the first column, in row order, joined by `"; "` with no trailing separator. It is `""` when there are none. |
| Recipients.FirstColumnTextsMembers | open_orders.py:94-105 | A text is among the entries exactly when some row's first cell is that text. Non-text first cells contribute nothing. |
| Recipients.TerminatedIsJoinPlusSeparator | open_orders.py:101-108 | The loop's accumulator is the joined string plus one trailing `"; "`, which is exactly what `[:-2]` removes. |
| Recipients.SplitJoin | open_orders.py:101-108 | Splitting the address string at `"; "` gives back the entries, for at least one entry and entries without `;`. |
| Cells.ColumnLetter | open_orders.py:125 | Column letters are upper-case. A letter is a single character exactly for columns 1 to 26. |
| Cells.ColumnLetterInjective | open_orders.py:125 | Different columns get different letters. |
| Dates.ParseIso | open_orders.py:457-460 | A coerced value is a valid calendar date within the pandas timestamp range. Any other text becomes missing. |
| Dates.ParseIsoOfFormat | open_orders.py:36 | Parsing the `YYYY-MM-DD 00:00:00` spelling of a date gives that date back. |
| Dates.ParseIsoCanonical | open_orders.py:457-460 | Every accepted text is the canonical spelling of the date it yields. |
| Dates.FormatDmy | open_orders.py:474-477 | The display text is ten characters, two digits, `.`, two digits, `.`, four digits. For any date with a four-digit year the three digit fields denote day, month and year. |
| Dates.ParseDmy | open_orders.py:159-161 | An accepted text yields a valid calendar date. |
| Dates.ParseDmyCanonical | open_orders.py:159-161 | Every accepted text is the `strftime("%d.%m.%Y")` spelling of the date it yields, so with `ParseDmyOfFormat` the two forms are inverse. |
| Dates.DateFormula | open_orders.py:165-169 | The written formula starts with `=DATE(` and ends with `)`. `FormulaRoundTrip` reads it back. |
| Dates.ParseDmyOfFormat | open_orders.py:159-161 | `strptime` with `%d.%m.%Y` gives back any date written by `strftime("%d.%m.%Y")`. |
| Dates.FormulaRoundTrip | open_orders.py:161-169 | For a date from year 1900 on, the written `=DATE(y, m, d)` formula denotes that same date. |
| Dates.FormulaShiftsEarlyYears | open_orders.py:166-169 | A formula for a year below 1900 is read by the spreadsheet as the same day and month 1900 years later. |
| OrderFilter.CoerceCell | open_orders.py:457-460 | A cell becomes missing exactly when it is empty or is an unparsable date-column text. Outside the date columns a text stays the same text. A date is a valid in-range date, and the cell was its canonical `YYYY-MM-DD 00:00:00` spelling. Nothing raises. |
| OrderFilter.KeepTextAgreesWithDate | open_orders.py:467-470 | The mask `Keep` on a `Requested` column left as text compares with `formatted_date` as text. For the extract's spelling of a date it keeps the row exactly when the date comparison would, that is when the date is strictly before today. |
| OrderFilter.DateColumnsSelection | open_orders.py:437-443 | A name is a date column exactly when it is configured and present in the frame. The date columns keep the configured order. |
| OrderFilter.DateColumnsDistinct | open_orders.py:437-443 | A configuration without repeats gives date columns without repeats. |
| OrderFilter.FilterRows | open_orders.py:467-470 | Every kept row is a row of the input whose `Requested` value passes the mask. |
| OrderFilter.FilterRowsSelection | open_orders.py:467-470 | A row is kept exactly when it is an input row whose `Requested` is missing or earlier than today. Kept rows stay in input order. Every copy of a passing row is kept, and no copy of a failing one. |
| OrderFilter.FilterRowsCount | open_orders.py:467-470 | The kept rows hold a row as many times as the input does when it passes the mask, and not at all when it fails. |
| OrderFilter.PrepareFrame | open_orders.py:432-477 | The block fails only with the KeyError for `Requested`, and only on a filtering day, or with the AttributeError of `.dt`. On success the columns are those of the extract and no rows are added. From the 26th on no row is dropped. |
| OrderFilter.PrepareFrameOutcome | open_orders.py:432-477 | The block raises exactly when it filters and `Requested` is absent (KeyError), or when a date column is listed twice (AttributeError). With a repeat-free configuration, only the KeyError is possible. On success the columns are kept and the date columns are reported. |
| OrderFilter.PrepareKeepsAllRowsFromThe26th | open_orders.py:457-477 | From the 26th on, every row is kept, in order. Each date-column cell is re-spelled as `DD.MM.YYYY`, or becomes missing when it does not parse. Every other cell is unchanged. |
| OrderFilter.PrepareFiltersBeforeThe26th | open_orders.py:462-477 | Before the 26th, `Requested` is present. The rows are exactly the coerced rows whose `Requested` is missing or before today, each with all its copies, in order and with their values as coerced, then formatted. |
| OrderFilter.DisplayedCoercedCell | open_orders.py:457-477 | A coerced cell, once formatted, never holds a raw date. In a date column it is missing or the canonical `DD.MM.YYYY` spelling of a real date. |
| OrderFilter.PreparedCellsAreDisplayed | open_orders.py:474-477 | After formatting, no cell holds a raw date. Every date-column cell is missing or a canonical `DD.MM.YYYY` text. |
| Workbook.PreparedFramesWriteCleanly | open_orders.py:153-161 | On a frame that went through the filter block, `strptime` in `set_excel_data` never raises. |
| Workbook.FormulaKeepsDate | open_orders.py:153-169 | A formula written at sheet row r+1 replaces a date-column text at data index r. It denotes the date that text spells, from year 1900 on. |
| Workbook.Sheet.constructor | open_orders.py:133 | `to_excel` gives a sheet with a header row and one row per frame row. Every cell holds the rendered frame value and has no fill. |
| Workbook.Sheet.WriteDateFormulas | open_orders.py:143-169 | Succeeds exactly when every date-column cell is missing or a parsable `DD.MM.YYYY` text. The parsable cells become their `=DATE(y, m, d)` formula at row index + 2. Every other cell is unchanged. |
| Workbook.Sheet.WriteColumnFormulas | open_orders.py:152-169 | For one date column: succeeds exactly when every cell of the column is missing or a parsable `DD.MM.YYYY` text. The parsable cells become their formula. Every other cell of the sheet is unchanged. |
| Workbook.HeaderLettersSound | open_orders.py:229-253 | Every letter in a category list is the letter of a column whose header is one of that category's names. |
| Workbook.HeaderLettersMembers | open_orders.py:229-253 | A column's letter is in a category list exactly when its header is one of that category's names. Every listed letter belongs to such a column. |
| Workbook.ScanHeader | open_orders.py:229-253 | The single header scan builds all five category lists. The tests are independent, so a column may join several lists. |
| Workbook.CellFill | open_orders.py:268-295 | A highlight value is yellow. Any other cell is red when some red test fires or it was already red. Otherwise its fill is unchanged. |
| Workbook.FillByHeader | open_orders.py:268-295 | The same fill rule in terms of the column's header. A highlight value is yellow, never red. Another cell is red exactly when it is non-empty under a not-blank header or holds a trigger value of a category its header is in. Otherwise its fill is unchanged. |
| Workbook.NotBlankHeaderIsRed | open_orders.py:260-272 | The header cell of a not-blank column is itself filled red, unless its name is a highlight value. |
| Workbook.MaxTextLengthIsLongest | open_orders.py:297-305 | The width base is at least every text length in the column and is attained by some text. It is 0 when the column has no non-empty text. Empty and non-text cells never count. |
| Workbook.Sheet.StyleColumn | open_orders.py:260-305 | Sets the fill of every cell of one column by the fill rule and leaves the other columns alone. Returns the column's longest text length. |
| Workbook.Sheet.ApplyStyles | open_orders.py:229-309 | Every cell's fill follows the fill rule, using the categories read from the header row. Each column's width is its longest text plus 6. |
| Notifier.Attachment | open_orders.py:328-331 | The attachment is dropped exactly when the recipient is the support address. |
| Notifier.ComposeMail | open_orders.py:315-334 | The mail carries the given recipients, copy recipients and body. It has a file exactly when it is not for support and the path is not empty. |
| Notifier.SendMail | open_orders.py:336-352 | Every database answer ends in a commit. The success notice is logged first, even when the send fails. An error line is added only for errors other than `ResourceClosedError`. |
| Pipeline.ProcessSegment | open_orders.py:401-503 | A segment that does not send a mail had its extract. A mail to anyone other than support is the report mail. It needs the extract and both list files, goes to the joined addresses of the two lists, carries the data body and attaches the report. |
| Pipeline.SegmentCases | open_orders.py:412-503 | Which outcome each input gets. A missing extract sends support the not-found mail without a file. A failing filter block raises its error. An empty prepared frame sends support the "no data" mail without a file. A non-empty one goes as the report mail to the joined addresses when both list files exist. Otherwise it exits on the first missing list file, the primary before the copy. |
| Pipeline.SegmentOutcomes | open_orders.py:401-503 | A missing extract gets a file-less mail to support, and the loop continues. A segment raises only the two filter-block errors. It exits only for a missing recipient list file. A mail carries a file only when it is the report mail, and then the file is the segment's report. |
| Pipeline.RunSegment | open_orders.py:401-503 | The segment body as written (build sheet, rewrite dates, style, test emptiness, probe lists, build addresses) ends as the segment specification says. |
| Pipeline.StripQuotes | open_orders.py:508 | The handler's message has no `'` left and is no longer than the error text. |
| Pipeline.HandlerMail | open_orders.py:506-510 | The error mail goes to support with no copy recipients and no file. |
| Pipeline.StripQuotesOfQuoted | open_orders.py:508 | Removing quotes from a quoted name between quote-free texts leaves exactly the name between those texts. |
| Pipeline.HandlerStripsKeyQuotes | open_orders.py:506-510 | For a KeyError, whose text is the key in quotes, support reads "Error: " followed by the bare key and ".". |
| Pipeline.MissingRequestedMessage | open_orders.py:470 | A frame without `Requested` makes support receive "Error: Requested." |
| Pipeline.StoppedRunIgnoresLaterSegments | open_orders.py:390-510 | After an exception or `exit()`, no later segment of the slot is processed. A run whose first k segments left the loop ends exactly as those k segments left it. |
| Pipeline.RunningRunMailsPerSegment | open_orders.py:401-503 | For any per-segment outcomes, the loop completes exactly when every segment sends its mail. It then has sent one mail per segment, in segment order. |
| Pipeline.FirstFailureEndsRun | open_orders.py:390-510 | The first segment that does not send decides the end of the run. The run keeps the mails of the earlier segments, plus the handler's mail when that segment raised. |
| Pipeline.Loop | open_orders.py:400-503 | The loop sends at most one mail per segment. A run ended by `exit()` has sent fewer mails than there are segments. |
| Pipeline.SlotRun | open_orders.py:386-510 | A failed connection exits with no mail. A run never sends more mails than its slot has segments. A completed run sent exactly one per segment. |
| Pipeline.RunSlot | open_orders.py:388-510 | `main(slot)` as written ends as `SlotRun` says: the loop over the slot's segments with each segment's outcome, so the lemmas above apply to it. A failed connection exits before any segment. |
| Scheduler.Trigger | open_orders.py:527-532 | The morning slot starts exactly at 09:00:30 and the afternoon slot exactly at 13:05:00. |
| Scheduler.RunUsesStartDate | open_orders.py:36 | Two worlds at a reading that differ only in their date start the same run: the filter date is the one fixed at process start. The day of the month, the files and the connection come from the reading's own world. |
| Scheduler.Tick | open_orders.py:516-536 | One pass, given how the run it starts ends, ends the process exactly after the afternoon run or after a morning run that exited. It logs a heartbeat exactly at minute 0, second 0 of a pass that continues. It logs the start notice exactly on the first pass. Its run entries are exactly the slot the reading triggers, with that run's outcome. |
| Scheduler.Fold | open_orders.py:514-539 | The loop over the passes has ended the process exactly when some pass ended it. |
| Scheduler.Schedule | open_orders.py:514-539 | The process ends exactly when some reading is 13:05:00, or is 09:00:30 and its morning run exits. |
| Scheduler.HaltedFoldIsFinal | open_orders.py:516-536 | Once a pass has ended the process, later passes change nothing. |
| Scheduler.FoldEndsAt | open_orders.py:531-533 | A pass that ends the process ends the loop there: the log is the log up to that pass. |
| Scheduler.HaltedScheduleIsFinal | open_orders.py:531-533 | Once the process has ended, later clock readings change nothing. |
| Scheduler.AfternoonEndsSchedule | open_orders.py:531-533 | A 13:05:00 reading ends the process, and nothing after it is processed. |
| Scheduler.TickLogShape | open_orders.py:516-536 | One pass logs the start notice only at its head, and an afternoon run only as its last entry of a pass that ends the process. |
| Scheduler.FoldStartsOnce | open_orders.py:518-525 | Passes whose first one opens with the start notice and whose later ones never log it give a log that starts with it and never repeats it. |
| Scheduler.FoldAfternoonRunLast | open_orders.py:531-533 | When every pass logs an afternoon run only as its ending entry, so does the whole log. |
| Scheduler.StartNoticeOnlyFirst | open_orders.py:512-525 | The start notice is the first log entry and never appears again. |
| Scheduler.AfternoonRunIsLast | open_orders.py:512-533 | An afternoon run is always the last log entry, and only in an ended process. |
| Scheduler.Poll | open_orders.py:516-536 | The loop body, as written, logs and halts as the one-pass specification says. |
| Scheduler.RunAtSpecificTimes | open_orders.py:512-539 | The polling loop over the clock readings produces the log and the ended flag of `Schedule`, with the runs the readings start, so the schedule lemmas apply to it. Each reading runs against what the process finds at that reading, so equal times of day on different days may see different days of the month and files. |

## Left out

- Reading and writing files is not modelled (`pd.read_excel`, `pd.ExcelWriter`, `openpyxl.load_workbook`, `wb.save`, `os.path.exists`). Extracts, recipient lists and path existence are functions in the run's environment, and the sheet is an in-memory grid.
- Read and write failures are not modelled (a damaged extract, a report that cannot be saved), because they come from the file system.
- Library styling assignments are left out: `freeze_panes`, `auto_filter.ref`, the `dd.mm.yyyy` column number format and the `PatternFill` colour objects. Fills are an enumeration.
- The database connection and the SQL text are left out. A connection is a boolean in the environment, and the mail procedure's answer is a `SinkResponse`. The segment loop records the composed mails only, because the mail procedure's answer never changes the flow.
- Logging is left out except the lines of `send_mail` and the scheduler's start, run and heartbeat entries, because the other lines do not affect behaviour.
- `time.sleep` and the wall clock are left out. The scheduler takes its clock readings as input, each with the world the process finds at that reading, so the endless polling loop stops when the readings run out.
- The `existing_colored_column_names` list that `main` builds and never uses is not modelled (open_orders.py:445-453).
- `main` with a label other than `"9am"` or `"1pm"` is not modelled; the only callers pass those two.
- `Notifier.SendMail`: a failing `connection.commit()` is not modelled. The commits inside the two `except` handlers (open_orders.py:346, 352) are unguarded, so such a failure would leave `send_mail` with an exception. The model has every answer commit and return.
- `Workbook.Sheet.constructor`: xlsxwriter writes a text that starts with `=` as a formula and an empty text as a blank cell. The model writes every text as a text.
- `Dates.ParseIso` accepts only zero-padded month and day, while pandas may also accept unpadded ones. The pandas timestamp range is enforced at day granularity.
- `Dates.ParseDmy` accepts only zero-padded day and month, while `strptime` also accepts unpadded ones. Every text it meets in the pipeline is produced by `strftime` and is padded.
- `Pipeline.UnparsableDateError`: Python's message includes the offending text, and the model uses a fixed text. `Workbook.PreparedFramesWriteCleanly` shows this error cannot occur.
- `Pipeline.RunSegment` does not return the styled sheet, because the saved report file is not part of the run's outcome.
- Spreadsheet normalisation of out-of-range `DATE` arguments is not modelled, because every written date is a valid calendar date.
