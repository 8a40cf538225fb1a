# azubi-timesheet in Dafny

azubi-timesheet keeps an apprentice's work hours. Each day is one record holding:
- the date, written `DD.MM.YYYY`;
- the start and end of the work day and of the break, each written `HH:MM`;
- a comment;
- a `special` flag, for days off that count as eight hours.

The records of one month live in one JSON file. The command line can add, update and delete a record, export the month into a spreadsheet template, and set three configuration options. The export:
- picks the template by the month's number of working days;
- carries over the hours balance from the previous month's export;
- fills one row per record, in date order.

Before the store is touched, the date and time arguments are validated. A missing argument is asked for at a prompt, up to three times.

An earlier generation of the tool (`azubi-timesheet.py` and `timesheet.py`) kept every record in a single file. It validated with regular expressions and could replace a record. `setup.py` reads the pip requirements from `requirements.txt`.

The model has these modules:

- `Wrappers`, `Text`, `Calendar`, `Formats`: the shared values.
  - Options and results.
  - Digit strings, `str.split`, `str.strip`.
  - Proleptic Gregorian dates with Python's `toordinal` and `weekday`.
  - `strftime`/`strptime` for `%d.%m.%Y` and `%H:%M`.
- `Records`: the record datatype, `create_record` and the lookups by date.
- `Workdays`: `netto_workdays`, as the method it is in the source. It is proved against a day-by-day count.
- `ExportLayout`: the pure parts of `export`.
  - Sorting by date.
  - The writes each record's row gets.
  - The previous month's file name.
  - Reading the carryover cell.
  - The effect of a sequence of cell writes on a sheet.
- `Store`: the `Timesheet` class of `azubi_timesheet/timesheet.py`.
  - The record files, the export files and the templates are maps held in fields, keyed by directory and month.
  - Every operation reloads the month's records from that map, as the source reloads the file.
- `Prompting`: the bounded retry loop shared by both command lines.
  - The terminal is a class holding the lines the user will type and how many have been read.
  - The loop is specified by the function `Retry`.
- `Cli`: `check_date`, `check_time_interval`, `check_args` and `execute` of `azubi_timesheet/azubi_timesheet.py`.
- `LegacyCli` and `LegacyStore`: `azubi-timesheet.py` and `timesheet.py`.
- `Setup`: the `requires` generator of `setup.py`.

The configuration file, the JSON files, the workbooks and the terminal are state or parameters of the model. Nothing reads or writes a real file.

## Model

| member | source | states |
|---|---|---|
| Records.CreateRecord | azubi_timesheet/timesheet.py:157-175 | Reading back the fields of a created record with `%d.%m.%Y` and `%H:%M` gives back the date and the four times it was made from. The comment is unchanged. `special` is the text "True" exactly when the flag was set. |
| Formats.ParseFormatDate | azubi_timesheet/timesheet.py:223-224 | `strptime(%d.%m.%Y)` of the text `strftime` wrote for a valid date is that date again. |
| Formats.ParseFormatTime | azubi_timesheet/timesheet.py:275-281 | `strptime(%H:%M)` of a time written `HH:MM` is that time again. |
| Formats.FormatDateInjective | azubi_timesheet/timesheet.py:128-129 | Two valid dates are written the same way exactly when they are equal, so comparing formatted dates compares days. |
| Formats.ParseDateFields | azubi_timesheet/azubi_timesheet.py:66-67 | A text made of a `%d` field, a dot, a `%m` field, a dot and four year digits parses to that date when the day exists. Otherwise strptime raises ValueError. |
| Formats.ParseDate | azubi_timesheet/timesheet.py:223-224 | Whatever strptime accepts is a valid calendar date. |
| Formats.ParseTime | azubi_timesheet/timesheet.py:275 | Whatever strptime accepts is a valid time of day. |
| Records.HasDate | azubi_timesheet/timesheet.py:204-207 | True exactly when some record carries the date text. |
| Records.FirstWithDate | azubi_timesheet/timesheet.py:128-129 | The index where a left-to-right scan first meets the date. None exactly when no record has it. |
| Records.UniqueDateIsFirst | azubi_timesheet/timesheet.py:128-130 | When dates are unique, the record found is the only one with its date. |
| Records.RemoveFirst | azubi_timesheet/timesheet.py:130 | `list.remove` takes out exactly one occurrence. The multiset of the rest plus the removed record is the original. |
| Records.RemoveFirstAt | azubi_timesheet/timesheet.py:130 | When the first occurrence is at `i`, `list.remove` leaves the elements before and after `i`, in order. |
| Store.Timesheet.constructor | azubi_timesheet/timesheet.py:13-43 | A `user_defined` option is kept exactly when it is one of name, records_dir and exports_dir, it is present, and its value is not one of the DEFAULT values. No records are loaded yet. |
| Store.Timesheet.FixedOptionsKeepDefaults | azubi_timesheet/timesheet.py:35-39 | While only name, records_dir and exports_dir can be set, every other option, the templates directory included, reads as its default. |
| Store.DefaultOfAnyOptionIsDropped | azubi_timesheet/timesheet.py:63-64 | A user-definable option present in the file is dropped exactly when its value equals the DEFAULT value of some option, not necessarily its own. |
| Store.NameDefaultsDropped | azubi_timesheet/timesheet.py:63-64 | A `name` left empty, or set to the default exports directory, is dropped. |
| Store.Timesheet.Get | azubi_timesheet/timesheet.py:24-39 | `config.get("user_defined", key)`: the user's value when set, the default otherwise, as stored, without interpolation. |
| Store.Timesheet.SetConfig | azubi_timesheet/timesheet.py:55-61 | Answers False exactly for a key that is not user-definable. Raises, as the ValueError of `ConfigParser.set`, exactly for a user-definable key whose value has a stray `%`. Otherwise the option reads back as the new value, the rest of the section is as before and the configuration file holds the new section. Nothing changes on False or on the error. |
| Store.DropEscapedPercents | azubi_timesheet/timesheet.py:57 | Removing every `%%` never lengthens the value or adds a character, and leaves a value without `%` as it is. |
| Store.CloseParen | azubi_timesheet/timesheet.py:57 | The position of the first `)`, with no `)` before it, or the end of the text. |
| Store.ReferenceLength | azubi_timesheet/timesheet.py:57 | A reference found at the start of the text is `%(`, a non-empty name without `)`, then `)s`. Nothing is found in a text shorter than four characters or not starting with `%`. |
| Store.DropReferences | azubi_timesheet/timesheet.py:57 | Removing every `%(name)s` reference never lengthens the value or adds a character, and leaves a value without `%` as it is. |
| Store.InterpolationSyntaxOk | azubi_timesheet/timesheet.py:57 | A value without `%` may always be set. |
| Store.LonePercentRefused | azubi_timesheet/timesheet.py:57 | A value such as `50%`, a text without `%` followed by one `%`, is refused. |
| Store.LonePercentKept | azubi_timesheet/timesheet.py:57 | Neither removal changes a text without `%` followed by one `%`. |
| Store.EscapedPercentAccepted | azubi_timesheet/timesheet.py:57 | The same value with its `%` doubled, such as `50%%`, may be set. |
| Store.EscapedPercentDropped | azubi_timesheet/timesheet.py:57 | Removing the escapes from a text without `%` followed by `%%` leaves the text. |
| Store.Timesheet.LoadRecords | azubi_timesheet/timesheet.py:66-76 | Selects the file of the date's month in the records directory. The records are its contents, or none when the file is missing. |
| Store.Timesheet.RecordExists | azubi_timesheet/timesheet.py:198-207 | True exactly when a loaded record has the date written `DD.MM.YYYY`. |
| Store.Timesheet.AddRecord | azubi_timesheet/timesheet.py:103-119 | Appends the new record and saves the file exactly when no record of the month has its date. Otherwise it answers False and writes nothing. Configuration and exports are unchanged. |
| Store.WithAdded | azubi_timesheet/timesheet.py:103-119 | Adding is refused iff a record already has the date. Otherwise the new list holds the old records plus the new one, and has the date. |
| Store.WithDeleted | azubi_timesheet/timesheet.py:121-136 | Deleting is refused iff no record has the date. Otherwise the list loses exactly one record, the first with the date. |
| Store.WithUpdated | azubi_timesheet/timesheet.py:138-155 | Updating is refused iff every record with the date already equals the new one. Otherwise the list keeps its length, holds the new record and differs from the old one. |
| Store.AddAppends | azubi_timesheet/timesheet.py:113-119 | Adding is refused iff the date is taken. Otherwise exactly one record is appended, the earlier ones keep their places, and unique dates stay unique. |
| Store.Timesheet.DeleteRecord | azubi_timesheet/timesheet.py:121-136 | Removes the first record with the date. The file is rewritten, or removed when the list becomes empty. Answers False, changing nothing, when no record has the date. |
| Store.DeleteRemovesFirst | azubi_timesheet/timesheet.py:128-135 | Deleting fails iff no record has the date. Otherwise it leaves the list with exactly the first such record cut out. |
| Store.DeleteKeepsOtherDates | azubi_timesheet/timesheet.py:128-135 | With unique dates, after a delete the date is gone, dates stay unique, and every other date is present exactly when it was before. |
| Store.Timesheet.UpdateRecord | azubi_timesheet/timesheet.py:138-155 | Overwrites, in place, the first record that has the date and differs from the new one, and saves. Answers False, writing nothing, when there is none. |
| Store.FirstToUpdate | azubi_timesheet/timesheet.py:150-151 | The first index whose record has the date but different contents. None exactly when every record with the date already equals the new one. |
| Store.UpdateInPlace | azubi_timesheet/timesheet.py:150-154 | With unique dates, update fails iff the date is absent or its record is unchanged. Otherwise only that position changes, the length stays, and dates stay unique. |
| Store.ScanForDate | azubi_timesheet/timesheet.py:128-129 | The loop over the records stops at the index `FirstWithDate` names. |
| Store.ScanForUpdate | azubi_timesheet/timesheet.py:150-151 | The update loop stops at the index `FirstToUpdate` names. |
| Workdays.NettoWorkdays | azubi_timesheet/timesheet.py:78-101 | Fails (OverflowError) exactly when the shortened-week loop steps past 31 December 9999. Otherwise, for a weekend list of distinct weekdays and a range that is not reversed, the result is the number of non-weekend days in the range minus the listed holidays on working days inside it. When no holiday is listed twice, that is the day-by-day count of days that are neither weekend nor holiday. |
| Workdays.ShortenedWeek | azubi_timesheet/timesheet.py:92-94 | The shortened-week loop counts the working days among the days after the range that the rounded-up week count included. It fails exactly when one of those days is past 31 December 9999. |
| Workdays.CountHolidays | azubi_timesheet/timesheet.py:98-100 | The holiday loop counts the kept holidays that lie inside the range. |
| Workdays.RoundedUpWeeks | azubi_timesheet/timesheet.py:87-94 | The rounded-up week count, less the working days of the shortened week after the range, is the number of working days in the range. |
| Workdays.MonthHasWorkdays | azubi_timesheet/timesheet.py:237-240 | A month of 28 to 31 days holds 20 to 23 days from Monday to Friday, whatever day it starts on. |
| Calendar.MonthEndRoom | azubi_timesheet/timesheet.py:92-94 | Every month except December 9999 ends at least a week before 31 December 9999, so the shortened-week loop stays in range. |
| Workdays.HolidayParity | azubi_timesheet/timesheet.py:95-100 | Subtracting the holidays that fall on working days inside the range gives the day-by-day count, when no holiday repeats. |
| Workdays.WholeWeeks | azubi_timesheet/timesheet.py:88-90 | Any run of whole weeks holds `7 - len(weekend_days)` working days per week, whatever day it starts on. |
| Workdays.SevenDays | azubi_timesheet/timesheet.py:90 | Any seven consecutive days hold `7 - len(weekend_days)` working days. |
| Workdays.WeekShift | azubi_timesheet/timesheet.py:90 | The working days of a seven-day window do not depend on where the window starts. |
| Workdays.AddHoliday | azubi_timesheet/timesheet.py:98-100 | One more holiday lowers the day-by-day count by one exactly when it is a new working day inside the range. |
| Workdays.DropWeekendDays | azubi_timesheet/timesheet.py:96 | The holidays kept are listed holidays that do not fall on a weekend day. |
| Calendar.PrevDayOrdinal | azubi_timesheet/timesheet.py:237 | Stepping back one day (`- timedelta(days=1)`) fails only on 1 January of year 1. Otherwise it gives a valid date whose ordinal is one less. |
| Calendar.DaysInMonth | azubi_timesheet/timesheet.py:237 | A month has 28 to 31 days. |
| ExportLayout.MonthYearText | azubi_timesheet/timesheet.py:260 | The text for D8: the month's name in the locale, a space, then the year's digits without padding, which read back as the year. |
| ExportLayout.MonthLength | azubi_timesheet/timesheet.py:237 | `total_days` is the length of the date's month. It overflows only for December of year 1, where the following "first of month" is January of the same year. |
| ExportLayout.PrevExportKey | azubi_timesheet/timesheet.py:248-252 | The carryover is read from the export of the previous month number, but with the date's own year: January reads December of the same year. Overflows only in January of year 1. |
| ExportLayout.ExtractCarryoverHours | azubi_timesheet/timesheet.py:209-221 | A missing previous export gives 0. Otherwise a missing Logging or Timesheet sheet is reported first, as the sheet lookups come before `cell` checks its arguments. It succeeds iff both sheets exist and the Logging cells B2 and B3 hold positive integers. The result is the Timesheet cell they point to. |
| ExportLayout.ParseDates | azubi_timesheet/timesheet.py:223-235 | Every record paired with the date strptime reads from it, in order. None exactly when some record's date does not parse, which aborts the sort. |
| ExportLayout.SortByDay | azubi_timesheet/timesheet.py:235 | Sorting keeps exactly the records it was given: same length and same multiset. |
| ExportLayout.SortByDaySorted | azubi_timesheet/timesheet.py:235 | The sorted records are in non-decreasing date order. |
| ExportLayout.ParseTimeListSpec | azubi_timesheet/timesheet.py:275-281 | A list of times parses iff every element parses, and each result is its own element's parse. |
| ExportLayout.ParseTimesFields | azubi_timesheet/timesheet.py:275-281 | The four stored times of a record parse iff each does. The results are start of day, end of day, start and end of break. |
| ExportLayout.RecordWrites | azubi_timesheet/timesheet.py:264-284 | A record's row fails exactly when it is not special and one of its times does not parse; the error is MalformedRecord. |
| ExportLayout.LayoutRow | azubi_timesheet/timesheet.py:265-283 | The column-counter code of one row produces the writes `RecordWrites` specifies. |
| ExportLayout.LayoutRows | azubi_timesheet/timesheet.py:263-284 | The row loop, from row 12 on, produces the writes `RowsLayout` specifies, or its error. |
| ExportLayout.RowsLayout | azubi_timesheet/timesheet.py:263-284 | Laying out the rows fails exactly when some record cannot be rendered. |
| ExportLayout.RowsLayoutFailsOnPrefix | azubi_timesheet/timesheet.py:263-285 | Once a record fails, the whole export fails with that error, whatever follows, before anything is saved. |
| ExportLayout.ApplyWritesCell | azubi_timesheet/timesheet.py:259-283 | After a sequence of `ws.cell(...).value = v` writes, a cell holds the last value written to it, or the template's value if nothing wrote it. |
| ExportLayout.RowsLayoutCell | azubi_timesheet/timesheet.py:263-284 | In row 12 + k, only the k-th record's writes decide a cell's value. |
| ExportLayout.RecordWritesCell | azubi_timesheet/timesheet.py:265-283 | A record's writes touch only its own row. There each cell of `RowCells` gets its value and no other column is written. |
| ExportLayout.RowLayoutRule | azubi_timesheet/timesheet.py:265-283 | Column B gets the weekday name and C the date. A special record gets 8.00 in I and its comment in L. Any other record gets its four parsed times in D to G and its comment in K. |
| ExportLayout.ExportedRow | azubi_timesheet/timesheet.py:258-284 | With the header above row 12, the k-th record fills row 12 + k with its `RowCells`. Every other cell of that row keeps the template's value. |
| Store.ExportSetup | azubi_timesheet/timesheet.py:237-253 | It fails with a date out of range exactly for December and January of year 1 and for December 9999, where `datetime` overflows. On success, the template is the one for the month's working days, with a Timesheet sheet. The carryover is what `extract_carryover_hours` reads from the previous export. It never reports an empty export. |
| Store.MonthWorkdays | azubi_timesheet/timesheet.py:237-240 | The month's working days, 20 to 23; none exactly for December 9999, where `netto_workdays` overflows. |
| Store.ExportBook | azubi_timesheet/timesheet.py:226-286 | What `export` saves. It reports no records exactly when the month has none, and a date out of range exactly when the records parse and the month is one where `datetime` overflows. A saved workbook has a Timesheet sheet. |
| Store.FillTemplate | azubi_timesheet/timesheet.py:257-284 | Filling succeeds iff every row can be laid out. The result is the template with the header writes and then the row writes applied to its Timesheet sheet. |
| Store.FillIn | azubi_timesheet/timesheet.py:258-284 | The header writes and the row loop produce the workbook `FillTemplate` specifies. |
| Store.ExportEmpty | azubi_timesheet/timesheet.py:231-234 | The export stops with "no records" exactly when the month has no records. |
| Store.ExportBookOk | azubi_timesheet/timesheet.py:231-285 | A successful export had records, dates that all parse, and a template and carryover. Its workbook is the template filled with the records sorted by date. |
| Store.ExportHeader | azubi_timesheet/timesheet.py:253-262 | An exported workbook has the template's sheets. D7 holds the name, D8 the localised month and year, and J8 the carryover. The carryover is 0 when there is no previous export. |
| Store.ExportRows | azubi_timesheet/timesheet.py:235-284 | The exported rows follow the date-sorted permutation of the records. Row 12 + k holds the k-th record's cells over the template's row. |
| Store.FillTemplateHeader | azubi_timesheet/timesheet.py:259-262 | Filling changes only the Timesheet sheet. Its D7, D8 and J8 hold the name, the month text and the carryover. |
| Store.FillTemplateRow | azubi_timesheet/timesheet.py:263-284 | After filling, row 12 + k holds the k-th record's cells. Its other cells are the template's. |
| Store.HeaderWritesCells | azubi_timesheet/timesheet.py:259-262 | The header writes put the name in D7, the month text in D8 and the carryover in J8. |
| Store.Timesheet.PrepareTemplate | azubi_timesheet/timesheet.py:237-253 | Picks the template and reads the carryover as `ExportSetup` specifies, including the overflow of December 9999 in `netto_workdays`. |
| Store.Timesheet.SaveExport | azubi_timesheet/timesheet.py:237-285 | The export file of the month is written with the filled template exactly when setup and filling both succeed. On an error, including a date out of range for December 9999, no export file changes. |
| Store.Timesheet.SaveFilled | azubi_timesheet/timesheet.py:257-285 | After the template is filled in, the month's export is saved exactly when every record could be laid out. Otherwise no export file changes. |
| Store.Timesheet.Export | azubi_timesheet/timesheet.py:226-286 | Reloads the month and sorts its records by date. It saves the month's export exactly when `ExportBook` succeeds on those records, and reports its error otherwise, so December 9999 fails with a date out of range. Records, templates and configuration are unchanged. |
| Prompting.Retry | azubi_timesheet/azubi_timesheet.py:61-76 | The retry loop reads no more lines than there are tries or lines, and none at all when not interactive. |
| Prompting.Tries | azubi_timesheet/azubi_timesheet.py:61-62 | Non-interactive mode gets exactly one try. Otherwise it gets the given number of attempts. |
| Prompting.NonInteractiveSingleTry | azubi_timesheet/azubi_timesheet.py:61-76 | Non-interactively, the argument is tried once and no line is read. |
| Prompting.AcceptedIsLastTry | azubi_timesheet/azubi_timesheet.py:63-68 | An accepted value comes from the last text tried. Every line read before it was rejected. |
| Prompting.GaveUpUsesEveryTry | azubi_timesheet/azubi_timesheet.py:63-76 | Giving up means every try was rejected. The number of lines read is the tries, minus one when the argument itself was tried. |
| Prompting.EndOfInputReadsAll | azubi_timesheet/azubi_timesheet.py:64-65 | `input()` at end of input raises EOFError only after every remaining line was read and rejected, with tries still left. |
| Prompting.AcceptedKeeps | azubi_timesheet/azubi_timesheet.py:66-68 | A property every accepted parse has (a valid date, a valid interval) holds of the value the loop returns. |
| Prompting.IntervalsReady | azubi_timesheet/azubi_timesheet.py:120-124 | When both interval checks return, both fields hold valid times. |
| Prompting.IntervalsRun | azubi_timesheet/azubi_timesheet.py:120-124 | The work-hours and break checks read forward only. They leave the date and the comment alone. |
| Prompting.BreakRun | azubi_timesheet/azubi_timesheet.py:123-124 | The break check changes only the break field. |
| Prompting.Terminal.ReadLine | azubi_timesheet/azubi_timesheet.py:65 | `input()` returns the next unread line, or nothing at end of input, and advances by one. |
| Prompting.Ask | azubi_timesheet/azubi_timesheet.py:61-76 | The `while attempts` loop returns what `Retry` computes and consumes exactly the lines it reads. |
| Cli.DateInput | azubi_timesheet/azubi_timesheet.py:66-69 | A date accepted by strptime is a valid calendar date. |
| Cli.ImpossibleDateIsRetried | azubi_timesheet/azubi_timesheet.py:66-73 | A well-formed text naming a day that does not exist is a caught ValueError. The loop moves on to the next try with an empty value. |
| Cli.FebruaryThirtyFirstIsRetried | azubi_timesheet/azubi_timesheet.py:66-73 | "31.02.2019" costs one try and is then asked for again. |
| Cli.NonInteractiveMissingDate | azubi_timesheet/azubi_timesheet.py:61-76 | Non-interactively, an empty date is rejected once and the program gives up without reading. |
| Cli.CheckDate | azubi_timesheet/azubi_timesheet.py:51-76 | `check_date` returns the outcome of `Retry` over strptime and reads exactly its lines. |
| Cli.ParseInterval | azubi_timesheet/azubi_timesheet.py:93-97 | An accepted interval holds two valid times. |
| Cli.IntervalInput | azubi_timesheet/azubi_timesheet.py:93-98 | Every accepted interval is valid. All errors are caught ValueErrors. |
| Cli.IntervalAt | azubi_timesheet/azubi_timesheet.py:94-97 | Around the only dash of a text, two parsable times give the interval from the first to the second. |
| Cli.IntervalHasOneDash | azubi_timesheet/azubi_timesheet.py:94 | An accepted interval text has exactly one dash, with a time on either side. |
| Cli.ParseIntervalFormat | azubi_timesheet/azubi_timesheet.py:93-97 | `HH:MM-HH:MM` written from two times reads back as those times. |
| Cli.CheckTimeInterval | azubi_timesheet/azubi_timesheet.py:78-105 | `check_time_interval` returns the outcome of `Retry` over the split-and-strptime try and reads exactly its lines. |
| Cli.CheckArgsRun | azubi_timesheet/azubi_timesheet.py:107-127 | `check_args` never reads more lines than the terminal holds. |
| Cli.RecordArgsRun | azubi_timesheet/azubi_timesheet.py:116-127 | The comment and interval steps read forward only and keep the checked date. |
| Cli.CheckedArgsReady | azubi_timesheet/azubi_timesheet.py:107-127 | When `check_args` returns, `config` needs nothing. Every other subcommand has a valid date, and `add`/`update` also have two valid intervals. |
| Cli.ConfigSkipsChecks | azubi_timesheet/azubi_timesheet.py:113 | `config` validates nothing and reads nothing. |
| Cli.MissingSubcommandCrashes | azubi_timesheet/azubi_timesheet.py:113-114 | Without a subcommand, the `config` test passes and reading `args.date` ends the program with an uncaught error before any prompt, so `execute` is never reached. |
| Cli.DeleteExportCheckDateOnly | azubi_timesheet/azubi_timesheet.py:115-116 | `delete` and `export` check only the date. The intervals and the comment stay as given. |
| Cli.SpecialIgnoresIntervals | azubi_timesheet/azubi_timesheet.py:120-127 | For a special record the interval arguments are ignored and both become 00:00-00:00. |
| Cli.CheckArgs | azubi_timesheet/azubi_timesheet.py:107-127 | The imperative `check_args` updates the arguments and the terminal exactly as `CheckArgsRun` says. |
| Cli.CheckRecordArgs | azubi_timesheet/azubi_timesheet.py:116-127 | The comment prompt and then the interval checks, as `RecordArgsRun` says. |
| Cli.CheckIntervals | azubi_timesheet/azubi_timesheet.py:121-124 | The two interval checks, as `IntervalsRun` says. |
| Cli.CheckBreak | azubi_timesheet/azubi_timesheet.py:123-124 | The break check, as `BreakRun` says. |
| Cli.SplitSetting | azubi_timesheet/azubi_timesheet.py:46 | A setting that unpacks into key and value gives both stripped of surrounding whitespace. |
| Cli.SettingApplied | azubi_timesheet/azubi_timesheet.py:43-49 | `config` changes an option exactly when `--list` is absent, the setting is non-empty and splits in two, its key is user-definable and its value passes the `%` check. Then the change is that split. |
| Cli.Configure | azubi_timesheet/azubi_timesheet.py:43-49 | `--list` or nothing to set exits with 0. A setting that does not split exits with 1. A key that cannot be configured exits with 1 and its message. A stray `%` exits with 1 and no message. The section becomes the old one with the applied setting, saved, or stays as it was. Records and exports are unchanged. |
| Cli.StrayPercentIsNotSet | azubi_timesheet/azubi_timesheet.py:45-49 | `config --set name=50%` (any user-definable key, any text without `%` before the one `%`) changes nothing and exits with 1 and no message. |
| Cli.EscapedPercentIsSet | azubi_timesheet/azubi_timesheet.py:45-49 | `config --set name=50%%` sets the option to `50%%` and exits with 0. |
| Cli.Execute | azubi_timesheet/azubi_timesheet.py:20-49 | `add`, `update` and `delete` exit with 1 and their message exactly when the store refuses. They store the list `WithAdded`, `WithUpdated` or `WithDeleted` gives, removing the file when a delete empties it, and leave the exports alone. `export` exits with 1 exactly when `ExportBook` fails, saves the workbook when it succeeds, and leaves the records alone. `config` exits and changes the section as `Configure` says. `--set` exits with 1 when the text does not split into two parts, with the "cannot be configured" message for a key that is not user-definable, and without a message for a value with a stray `%`. Otherwise the section is the old one with that key set, it is saved, and the key reads back as the value. Every other subcommand leaves the configuration and the saved section alone. Status is 0 otherwise. |
| Text.JoinSplit | azubi_timesheet/azubi_timesheet.py:94 | Joining the pieces of `split` with the separator gives the text back. |
| Text.StripIdempotent | setup.py:19 | Stripping twice is stripping once. |
| LegacyCli.DateMatchUnique | azubi-timesheet.py:47 | At most one choice of day and month length fits a text, so backtracking order cannot change the groups. |
| LegacyCli.MatchDateSound | azubi-timesheet.py:47-53 | Whenever a way of matching fits, `re.match` returns its groups. |
| LegacyCli.MatchDateIgnoresTail | azubi-timesheet.py:53 | `re.match` anchors only at the start: text after a match changes nothing. |
| LegacyCli.MatchDateFields | azubi-timesheet.py:47-57 | One or two day digits, one or two month digits and four year digits, with any of `.`, `,` and `-` between them, match with those numbers as groups. |
| LegacyCli.MixedSeparators | azubi-timesheet.py:47 | "3,10-2019" is read as 3 October 2019. |
| LegacyCli.LegacyDateInput | azubi-timesheet.py:53-62 | Every accepted date is a valid calendar date. |
| LegacyCli.ImpossibleDateCrashes | azubi-timesheet.py:53-59 | A match naming a day that does not exist raises from `datetime.date`, uncaught, on the first try. |
| LegacyCli.FebruaryThirtyFirstCrashes | azubi-timesheet.py:53-59 | "31.02.2019" ends the program at once. |
| LegacyCli.MatchFormattedDate | azubi-timesheet.py:47-59 | A date written `DD.MM.YYYY` is accepted as that date. |
| LegacyCli.IntervalMatchUnique | azubi-timesheet.py:82-85 | At most one alternative of the interval pattern fits a text. |
| LegacyCli.MatchIntervalSound | azubi-timesheet.py:82-91 | Whenever an alternative fits, `re.match` returns its groups. |
| LegacyCli.MatchIntervalBounds | azubi-timesheet.py:79-85 | A match has a start hour up to 23, an end hour from 10 to 23 and minutes up to 59. |
| LegacyCli.MatchIntervalIgnoresTail | azubi-timesheet.py:91 | Text after an interval match changes nothing. |
| LegacyCli.LegacyIntervalInput | azubi-timesheet.py:88-103 | Every accepted interval holds two valid times. |
| LegacyCli.MissingStartMinuteCrashes | azubi-timesheet.py:83-94 | "9:-17:00" gets past the pattern, then `int(None)` ends the program on the first try. |
| LegacyCli.FormattedInterval | azubi-timesheet.py:79-99 | `HH:MM-HH:MM` is accepted, with its own times, exactly when the end hour is at least 10. The start may be later than the end. |
| LegacyCli.LegacyCheckDate | azubi-timesheet.py:36-65 | The legacy `check_date` returns what `Retry` over the date pattern computes and reads exactly its lines. |
| LegacyCli.LegacyCheckTimeInterval | azubi-timesheet.py:67-105 | The legacy `check_time_interval` returns what `Retry` over the interval pattern computes and reads exactly its lines. |
| LegacyCli.LegacyArgsRun | azubi-timesheet.py:107-122 | The legacy `check_args` never reads more lines than the terminal holds. |
| LegacyCli.LegacyRecordArgsRun | azubi-timesheet.py:115-122 | The interval and comment steps read forward only and keep the checked date. |
| LegacyCli.LegacyDeleteChecksDateOnly | azubi-timesheet.py:114-115 | `delete` checks only the date. |
| LegacyCli.LegacyCheckedArgsReady | azubi-timesheet.py:107-122 | After the legacy `check_args`, the date is valid. For anything but `delete`, both intervals are valid too. |
| LegacyCli.LegacyCheckArgs | azubi-timesheet.py:107-122 | The imperative legacy `check_args` does what `LegacyArgsRun` says: the date, then the intervals, then the comment. |
| LegacyCli.LegacyCheckRecordArgs | azubi-timesheet.py:115-122 | The intervals and then the comment prompt, as `LegacyRecordArgsRun` says. |
| LegacyCli.LegacyCheckIntervals | azubi-timesheet.py:116-119 | The two legacy interval checks, as `IntervalsRun` says. |
| LegacyCli.LegacyCheckBreak | azubi-timesheet.py:118-119 | The legacy break check, as `BreakRun` says. |
| LegacyStore.LegacyCreateRecord | timesheet.py:62-76 | A legacy record reads back as its date and four times. It has the same comment and no `special` key. |
| LegacyStore.LegacyReplaced | timesheet.py:50-60 | Replacing fails iff no record has the date. Otherwise the list keeps or loses one record, and still has the date. |
| LegacyStore.ReplaceIdentical | timesheet.py:50-59 | Replacing a record with an identical one leaves the list unchanged. |
| LegacyStore.ReplaceMovesToEnd | timesheet.py:50-59 | With unique dates, a changed record is removed from its place and the new one is appended at the end. The length stays the same and dates stay unique. |
| LegacyStore.ReplaceDropsOnDuplicate | timesheet.py:50-59 | When the date appears twice, replace deletes the first record. The add that follows is refused, so the list shrinks by one. |
| LegacyStore.LegacyTimesheet.constructor | timesheet.py:86-97 | An existing file is loaded. A missing one is created holding the empty list. |
| LegacyStore.LegacyTimesheet.RecordExists | timesheet.py:99-109 | True exactly when a record has the date written `DD.MM.YYYY`. |
| LegacyStore.LegacyTimesheet.AddRecord | timesheet.py:29-37 | Appends and saves exactly when the date is free. |
| LegacyStore.LegacyTimesheet.DeleteRecord | timesheet.py:39-48 | Removes the first record with the date and saves, even when the list is left empty. |
| LegacyStore.LegacyTimesheet.ReplaceRecord | timesheet.py:50-60 | Answers True exactly when some record has the date. Then the list is `LegacyReplaced`; otherwise it is unchanged. |
| Setup.Requires | setup.py:10-22 | At most one requirement per line. |
| Setup.RequiresInOrder | setup.py:17-22 | The requirements are exactly the stripped lines that are not skipped, in file order. |
| Setup.RequiresAreClean | setup.py:19-22 | Every requirement is non-empty, has no surrounding whitespace and is not a skipped line. |
| Setup.SkippedExactly | setup.py:20 | Skipped are a lone `#`, `#` followed by `#` or whitespace, and anything starting `-r`. Nothing else is skipped. |
| Setup.HashWithoutSpaceIsKept | setup.py:20 | `#foo` is yielded as a requirement, since its first two characters are not a skipped prefix. |
| Setup.StrippedHead | setup.py:20 | The first two characters of a stripped line, stripped again, drop only a trailing whitespace. |
| Setup.Head2 | setup.py:20 | `line[0:2]` is a prefix of at most two characters, exactly two when the line is that long. |

## Left out

- File and console I/O: JSON encoding, `configparser` reading and writing, `openpyxl` loading and saving, `os.makedirs`/`os.mkdir`, and the printed messages other than the status and message `Execute` returns. The files are maps in the model's state.
- `list_config` and `parse_cli` (argparse), and `main`: output and argument parsing only. The model starts from the already-split argument strings.
- The export of the earlier `timesheet.py` (its `export` with xlsxwriter) is not part of this model.
- The legacy `execute` and `main` are not modelled. `execute` builds `Timesheet` with two arguments (azubi-timesheet.py:22), but the class's constructor takes three (timesheet.py:9). So every legacy run that gets past `check_args` stops with a TypeError before any record operation. The legacy `Timesheet` operations are modelled as the class defines them, though the script as written never reaches them.
- `locale.setlocale`: weekday and month names are a parameter (`Locale`).
- `templates_dir` cannot be set by the user. The code's `user_defined` keys are name, records_dir and exports_dir only, and the model follows the code.
- A JSON file of size zero is treated as missing by `load_json_file`. The model has no such file: a file is either absent or holds a list.
- `%Y` is modelled as four zero-padded digits. Years below 1000 are written unpadded by some C libraries.
- Only ASCII digits are modelled; Python's `int()` and `strptime` also accept other Unicode digits.
- DaysBeforeYear sums the years one at a time rather than using CPython's closed formula. The values are the same.
- Workdays.NettoWorkdays: apart from when it overflows, its ensures hold only when the weekend list holds distinct weekdays 0 to 6 and the range is not reversed. For other inputs the method runs the same code, but nothing is stated about the result.
- ExportLayout.ExtractCarryoverHours: B2 and B3 are used as row and column only when they hold integers. openpyxl also accepts a bool or a whole-number float there, reads an empty cell for other floats, and limits the row number, depending on its version. The model reports every non-integer as a bad carryover cell and has no upper limit.
- ExportLayout.SortByDay: stability is not stated. Only the date order and the permutation are.
- Cli.Execute: the text of the export failure message is not stated, only exit status 1.
- Cli.Execute: `config --list` is stated to exit with 0. Listing reads each value through the interpolation, so a stored reference to an option that does not exist raises there.
- Store.Timesheet.Get: returns the stored text as it is. `config.get` also interpolates it: `%%` becomes `%`, and `%(name)s` is replaced by that option's value. An unknown name, bad syntax or references nested more than ten deep raise. Values containing `%` are outside the model when read.
- Store.Timesheet.constructor: reading the `user_defined` values from the file interpolates them as `Get` would. The result is then set into the new configuration, which checks it again. So a saved `50%%` reads as `50%` and then raises ValueError at the next start. A program directory whose path contains a stray `%` raises when the DEFAULT section is filled. Values containing `%` are outside the model when read.
- Cli.CheckArgs: stated for a terminal from which nothing has been read yet, as at program start.
- LegacyCli.LegacyCheckArgs: stated for a terminal from which nothing has been read yet, as at program start.
- Cli.CheckIntervals: stated over any per-try validator. `CheckRecordArgs` passes it `IntervalInput`.
- LegacyCli.LegacyCheckIntervals: stated over any per-try validator. `LegacyCheckRecordArgs` passes it `LegacyIntervalInput`.
- Prompting.Retry: `attempts` is a natural number. A negative `attempts`, which the source would loop on until input runs out, is not modelled.
- The empty subcommand of the earlier script is modelled as `NoSubcommand`. It checks the intervals like `add` does.
