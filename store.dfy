/**
 * `Timesheet` of `azubi_timesheet/timesheet.py`: the configuration, the
 * monthly record files and the monthly exports. Every record operation loads
 * the month's file into `records`, looks for the date, changes the list and
 * writes the whole list back.
 *
 * The disk is part of the state: `recordFiles` maps a file to the list of
 * records it holds (no entry: no file, or an empty one), `exportFiles` and
 * `templates` hold workbooks, and `savedSection` is the `user_defined`
 * section last written to the configuration file.
 */
module Store {
  import opened Wrappers
  import opened Calendar
  import opened Formats
  import opened Records
  import opened Workdays
  import opened ExportLayout

  /** The options a user may set; every other option keeps its default. */
  const UserDefinedKeys: seq<string> := ["name", "records_dir", "exports_dir"]

  /** The DEFAULT section, with the program's directory as `programPath`. */
  function Defaults(programPath: string): map<string, string> {
    map[
      "name" := "",
      "records_name" := "timesheet_{}_{}.json",
      "records_dir" := programPath + "/data/records",
      "exports_name" := "timesheet_{}_{}.xlsx",
      "exports_dir" := programPath + "/data/exports",
      "templates_name" := "template_timesheet_{}_days.xlsx",
      "templates_dir" := programPath + "/data/templates"]
  }

  /** `default_value`: the value is one of the DEFAULT section's values. */
  predicate IsDefaultValue(programPath: string, value: string) {
    value in Defaults(programPath).Values
  }

  /**
   * `default_value` compares with the defaults of every option, not only the
   * option's own: an option whose value is the default of any option is
   * dropped, and one whose value is no option's default is kept.
   */
  lemma DefaultOfAnyOptionIsDropped(programPath: string, section: map<string, string>, key: string)
    requires key in UserDefinedKeys && key in section
    ensures (exists other :: other in Defaults(programPath) && Defaults(programPath)[other] == section[key])
      <==> !Kept(programPath, section, key)
  {
  }

  /** A name left empty, or set to the default exports directory, is not kept. */
  lemma NameDefaultsDropped(programPath: string, section: map<string, string>)
    requires "name" in section && (section["name"] == "" || section["name"] == programPath + "/data/exports")
    ensures !Kept(programPath, section, "name")
  {
    DefaultOfAnyOptionIsDropped(programPath, section, "name");
    if section["name"] != "" {
      assert Defaults(programPath)["exports_dir"] == section["name"];
    } else {
      assert Defaults(programPath)["name"] == section["name"];
    }
  }

  /** An option the constructor copies from the configuration file's `user_defined` section. */
  predicate Kept(programPath: string, section: map<string, string>, key: string) {
    key in UserDefinedKeys && key in section && !IsDefaultValue(programPath, section[key])
  }

  /*
   * `self.config` is a `ConfigParser` with its default `BasicInterpolation`.
   * Setting an option checks the value's `%` signs first: after dropping every
   * `%%` and then every `%(name)s` reference, no `%` may be left, or the set
   * raises ValueError.
   */

  /** `value.replace("%%", "")`: the escaped percent signs dropped, left to right without overlaps. */
  function DropEscapedPercents(s: string): (r: string)
    ensures |r| <= |s|
    ensures forall c :: c in r ==> c in s
    ensures '%' !in s ==> r == s
  {
    if |s| >= 2 && s[0] == '%' && s[1] == '%' then DropEscapedPercents(s[2..])
    else if s == [] then []
    else [s[0]] + DropEscapedPercents(s[1..])
  }

  /** The index of the first `)` in `s`, or `|s|` when there is none. */
  function CloseParen(s: string): (k: nat)
    ensures k <= |s| && (k < |s| ==> s[k] == ')')
    ensures forall i :: 0 <= i < k ==> s[i] != ')'
  {
    if s == [] || s[0] == ')' then 0 else 1 + CloseParen(s[1..])
  }

  /**
   * The length of the match of `%\(([^)]+)\)s` at the start of `s`, or 0:
   * `%(`, a non-empty name up to the first `)`, then `)s`.
   */
  function ReferenceLength(s: string): (n: nat)
    ensures n == 0 || (4 <= n <= |s| && s[..2] == "%(" && s[n - 2..n] == ")s")
    ensures n > 0 ==> forall i :: 2 <= i < n - 2 ==> s[i] != ')'
    ensures |s| < 4 || s[0] != '%' ==> n == 0
  {
    if |s| >= 2 && s[0] == '%' && s[1] == '(' then
      var k := CloseParen(s[2..]);
      if 0 < k && k + 4 <= |s| && s[k + 3] == 's' then k + 4 else 0
    else 0
  }

  /** `_KEYCRE.sub("", value)`: every `%(name)s` reference dropped, left to right. */
  function DropReferences(s: string): (r: string)
    ensures |r| <= |s|
    ensures forall c :: c in r ==> c in s
    ensures '%' !in s ==> r == s
    decreases |s|
  {
    if s == [] then []
    else
      var n := ReferenceLength(s);
      if n > 0 then DropReferences(s[n..]) else [s[0]] + DropReferences(s[1..])
  }

  /** `BasicInterpolation.before_set` lets the value through: every `%` is part of `%%` or of a reference. */
  predicate InterpolationSyntaxOk(value: string): (ok: bool)
    ensures '%' !in value ==> ok
  {
    '%' !in DropReferences(DropEscapedPercents(value))
  }

  /** A text without `%` followed by one `%`, such as `50%`, is refused. */
  lemma {:induction false} LonePercentRefused(text: string)
    requires '%' !in text
    ensures !InterpolationSyntaxOk(text + "%")
  {
    LonePercentKept(text);
  }

  /** Neither drop touches a text without `%` followed by one `%`. */
  lemma {:induction false} LonePercentKept(text: string)
    requires '%' !in text
    ensures DropEscapedPercents(text + "%") == text + "%"
    ensures DropReferences(text + "%") == text + "%"
  {
    if text != [] {
      assert (text + "%")[1..] == text[1..] + "%";
      LonePercentKept(text[1..]);
      assert text + "%" == [text[0]] + (text[1..] + "%");
    }
  }

  /** The same text with the percent sign escaped, such as `50%%`, is accepted. */
  lemma {:induction false} EscapedPercentAccepted(text: string)
    requires '%' !in text
    ensures InterpolationSyntaxOk(text + "%%")
  {
    EscapedPercentDropped(text);
  }

  /** Dropping the escapes from a text without `%` followed by `%%` leaves the text. */
  lemma {:induction false} EscapedPercentDropped(text: string)
    requires '%' !in text
    ensures DropEscapedPercents(text + "%%") == text
  {
    if text == [] {
      assert DropEscapedPercents("%%") == DropEscapedPercents("");
    } else {
      assert (text + "%%")[1..] == text[1..] + "%%";
      EscapedPercentDropped(text[1..]);
      assert text == [text[0]] + text[1..];
    }
  }

  /**
   * A record or export file: the directory it lives in and the month it
   * covers. The name inside the directory follows from the month alone,
   * since `records_name` and `exports_name` cannot be changed.
   */
  datatype FileKey = FileKey(dir: string, month: MonthKey)

  /** `load_json_file(file, [])`: the records of a file, none when it is missing. */
  function Stored(files: map<FileKey, seq<Record>>, file: FileKey): seq<Record> {
    if file in files then files[file] else []
  }

  /** The list `add_record` leaves: `rec` appended, or None when its date is already taken. */
  function WithAdded(records: seq<Record>, rec: Record): (r: Option<seq<Record>>)
    ensures r.None? <==> HasDate(records, rec.date)
    ensures r.Some? ==> multiset(r.value) == multiset(records) + multiset{rec} && HasDate(r.value, rec.date)
  {
    if HasDate(records, rec.date) then None
    else
      assert (records + [rec])[|records|] == rec;
      Some(records + [rec])
  }

  /** The list `delete_record` leaves: the first record with the date removed, or None when there is none. */
  function WithDeleted(records: seq<Record>, key: string): (r: Option<seq<Record>>)
    ensures r.None? <==> !HasDate(records, key)
    ensures r.Some? ==>
      && |r.value| == |records| - 1
      && multiset(r.value) + multiset{records[FirstWithDate(records, key).value]} == multiset(records)
  {
    match FirstWithDate(records, key)
    case None => None
    case Some(i) => Some(RemoveFirst(records, records[i]))
  }

  /** Position of the first record `update_record` changes: same date, different contents. */
  function FirstToUpdate(records: seq<Record>, rec: Record): (r: Option<nat>)
    ensures r.Some? ==> r.value < |records| && records[r.value].date == rec.date && records[r.value] != rec
    ensures r.Some? ==> forall j :: 0 <= j < r.value ==> records[j].date != rec.date || records[j] == rec
    ensures r.None? <==> forall j :: 0 <= j < |records| ==> records[j].date != rec.date || records[j] == rec
  {
    if records == [] then None
    else if records[0].date == rec.date && records[0] != rec then Some(0)
    else match FirstToUpdate(records[1..], rec)
      case None =>
        assert forall j :: 1 <= j < |records| ==> records[j] == records[1..][j - 1];
        None
      case Some(i) => Some(i + 1)
  }

  /** The list `update_record` leaves: that record's fields overwritten by `rec`, or None. */
  function WithUpdated(records: seq<Record>, rec: Record): (r: Option<seq<Record>>)
    ensures r.None? <==> forall j :: 0 <= j < |records| ==> records[j].date != rec.date || records[j] == rec
    ensures r.Some? ==> |r.value| == |records| && rec in r.value && r.value != records
  {
    match FirstToUpdate(records, rec)
    case None => None
    case Some(i) =>
      assert records[i := rec][i] != records[i];
      Some(records[i := rec])
  }

  /**
   * `add_record` refuses a taken date; otherwise it appends exactly one
   * record, keeps every earlier record where it was, and keeps dates unique.
   */
  lemma AddAppends(records: seq<Record>, rec: Record)
    ensures WithAdded(records, rec).None? <==> exists i :: 0 <= i < |records| && records[i].date == rec.date
    ensures WithAdded(records, rec).Some? ==>
      var after := WithAdded(records, rec).value;
      && |after| == |records| + 1 && after[..|records|] == records && after[|records|] == rec
      && HasDate(after, rec.date)
      && (UniqueDates(records) ==> UniqueDates(after))
  {
    if WithAdded(records, rec).Some? {
      var after := WithAdded(records, rec).value;
      assert after[|records|].date == rec.date;
    }
  }

  /**
   * `delete_record` finds nothing when no record has the date; otherwise it
   * removes the first record with the date and keeps the others in order.
   */
  lemma DeleteRemovesFirst(records: seq<Record>, key: string)
    ensures WithDeleted(records, key).None? <==> !HasDate(records, key)
    ensures WithDeleted(records, key).Some? ==>
      var i := FirstWithDate(records, key).value;
      WithDeleted(records, key).value == records[..i] + records[i + 1..]
  {
    if FirstWithDate(records, key).Some? {
      var i := FirstWithDate(records, key).value;
      forall j | 0 <= j < i
        ensures records[j] != records[i]
      {
        assert records[j].date != key;
      }
      RemoveFirstAt(records, records[i], i);
    }
  }

  /**
   * On a list with unique dates, deleting a date leaves unique dates, no
   * record with that date, and every other date as it was.
   */
  lemma DeleteKeepsOtherDates(records: seq<Record>, key: string)
    requires UniqueDates(records) && HasDate(records, key)
    ensures WithDeleted(records, key).Some?
    ensures var after := WithDeleted(records, key).value;
      && UniqueDates(after)
      && !HasDate(after, key)
      && forall other :: other != key ==> (HasDate(after, other) <==> HasDate(records, other))
  {
    DeleteRemovesFirst(records, key);
    var i := FirstWithDate(records, key).value;
    CutUnique(records, i);
    forall other | other != key
      ensures HasDate(records[..i] + records[i + 1..], other) <==> HasDate(records, other)
    {
      CutKeepsDate(records, i, other);
    }
  }

  /** Cutting one record out of a list with unique dates keeps them unique and drops its date. */
  lemma CutUnique(records: seq<Record>, i: nat)
    requires UniqueDates(records) && i < |records|
    ensures UniqueDates(records[..i] + records[i + 1..])
    ensures !HasDate(records[..i] + records[i + 1..], records[i].date)
  {
    var after := records[..i] + records[i + 1..];
    forall j | 0 <= j < |after|
      ensures after[j] == records[if j < i then j else j + 1]
    {
    }
  }

  /** Cutting one record out keeps every other date. */
  lemma CutKeepsDate(records: seq<Record>, i: nat, other: string)
    requires i < |records| && records[i].date != other
    ensures HasDate(records[..i] + records[i + 1..], other) <==> HasDate(records, other)
  {
    var after := records[..i] + records[i + 1..];
    if HasDate(records, other) {
      var j :| 0 <= j < |records| && records[j].date == other;
      assert after[if j < i then j else j - 1] == records[j];
    }
    if HasDate(after, other) {
      var j :| 0 <= j < |after| && after[j].date == other;
      assert after[j] == records[if j < i then j else j + 1];
    }
  }

  /**
   * `update_record`, on a list with unique dates, changes nothing both when
   * the date is absent and when the stored record already equals `rec`;
   * otherwise it overwrites the record with the date in place: same
   * position, same length, every other record untouched.
   */
  lemma UpdateInPlace(records: seq<Record>, rec: Record)
    requires UniqueDates(records)
    ensures WithUpdated(records, rec).None? <==>
      (!HasDate(records, rec.date) || records[FirstWithDate(records, rec.date).value] == rec)
    ensures WithUpdated(records, rec).Some? ==>
      var i := FirstWithDate(records, rec.date).value;
      var after := WithUpdated(records, rec).value;
      && |after| == |records| && after[i] == rec
      && (forall j :: 0 <= j < |records| && j != i ==> after[j] == records[j])
      && UniqueDates(after)
  {
    match FirstToUpdate(records, rec)
    case None =>
      if HasDate(records, rec.date) {
        var i := FirstWithDate(records, rec.date).value;
        assert records[i].date == rec.date;
      }
    case Some(i) =>
      UniqueDateIsFirst(records, rec.date, i);
  }

  /**
   * The month's number of working days, Saturday and Sunday off, as `export`
   * counts it to pick a template; None for December 9999, where netto_workdays
   * steps past the last day `datetime` can hold.
   */
  function MonthWorkdays(date: Date, total: int): (r: Option<int>)
    requires ValidDate(date) && total == DaysInMonth(date.year, date.month)
    ensures r.None? <==> date.year == MaxYear && date.month == 12
    ensures r.Some? ==> 20 <= r.value <= 23
    ensures r.Some? ==> r.value == WorkdaysIn(Ordinal(Date(date.year, date.month, 1)), Ordinal(Date(date.year, date.month, total)), [5, 6])
  {
    var first := Ordinal(Date(date.year, date.month, 1));
    var last := Ordinal(Date(date.year, date.month, total));
    assert last == first + total - 1;
    MonthHasWorkdays(first, total);
    if date.year == MaxYear && date.month == 12 then None
    else Some(WorkdaysIn(first, last, [5, 6]))
  }

  /** The carryover `export` reads: from the previous month's export in the exports directory, if there is one. */
  function Carryover(exports: map<FileKey, Workbook>, exportsDir: string, prev: MonthKey): Result<Option<CellValue>, ExportError> {
    var previous := FileKey(exportsDir, prev);
    ExtractCarryoverHours(if previous in exports then Some(exports[previous]) else None)
  }

  /**
   * The months whose export stops with OverflowError in `datetime`:
   * December of year 1 (the month length steps back from 1 January of the
   * same year), January of year 1 (the previous month steps back from its
   * first day) and December 9999 (netto_workdays steps past its last day).
   */
  predicate OverflowMonth(date: Date) {
    || (date.year == MinYear && (date.month == 1 || date.month == 12))
    || (date.year == MaxYear && date.month == 12)
  }

  /**
   * The steps of `export` between sorting and filling in the template: the
   * template for the month's number of working days, and the carryover.
   */
  function ExportSetup(exports: map<FileKey, Workbook>, exportsDir: string, templates: map<int, Workbook>, date: Date)
    : (r: Result<(Workbook, Option<CellValue>), ExportError>)
    requires ValidDate(date)
    ensures r.Err? ==> r.error != EmptyExport
    ensures r == Err(DateOutOfRange) <==> OverflowMonth(date)
    ensures r.Ok? ==>
      && MonthLength(date).Some? && PrevExportKey(date).Some?
      && MonthWorkdays(date, MonthLength(date).value).Some?
      && MonthWorkdays(date, MonthLength(date).value).value in templates
      && r.value.0 == templates[MonthWorkdays(date, MonthLength(date).value).value] && "Timesheet" in r.value.0
      && Carryover(exports, exportsDir, PrevExportKey(date).value) == Ok(r.value.1)
  {
    match MonthLength(date)
    case None => Err(DateOutOfRange)
    case Some(total) =>
      match MonthWorkdays(date, total)
      case None => Err(DateOutOfRange)
      case Some(workdays) =>
        match PrevExportKey(date)
        case None => Err(DateOutOfRange)
        case Some(prev) =>
          match Carryover(exports, exportsDir, prev)
          case Err(e) => Err(e)
          case Ok(carryover) =>
            if workdays !in templates then Err(MissingTemplate)
            else if "Timesheet" !in templates[workdays] then Err(MissingSheet)
            else Ok((templates[workdays], carryover))
  }

  /** The template with the header and the record rows written into its Timesheet sheet. */
  function FillTemplate(book: Workbook, name: string, monthYear: string, carryover: Option<CellValue>,
                        sorted: seq<Dated>, locale: Locale): (r: Result<Workbook, ExportError>)
    requires "Timesheet" in book && ValidLocale(locale) && AllValid(sorted)
    ensures r.Err? ==> r.error == MalformedRecord
    ensures r.Ok? ==> RowsLayout(sorted, FirstRecordRow, locale).Ok? && "Timesheet" in r.value
    ensures r.Ok? ==> r.value == book["Timesheet" := ApplyWrites(book["Timesheet"],
      HeaderWrites(name, monthYear, carryover) + RowsLayout(sorted, FirstRecordRow, locale).value)]
  {
    match RowsLayout(sorted, FirstRecordRow, locale)
    case Err(e) => Err(e)
    case Ok(rows) => Ok(book["Timesheet" := ApplyWrites(book["Timesheet"], HeaderWrites(name, monthYear, carryover) + rows)])
  }

  /**
   * What `export` saves, from the month's stored records, the configured
   * name, the exports made so far, the exports directory and the templates
   * by number of working days; or the error that stops it.
   */
  function ExportBook(records: seq<Record>, name: string, exports: map<FileKey, Workbook>, exportsDir: string,
                      templates: map<int, Workbook>, date: Date, locale: Locale): (r: Result<Workbook, ExportError>)
    requires ValidDate(date) && ValidLocale(locale)
    ensures r == Err(EmptyExport) <==> records == []
    ensures r == Err(DateOutOfRange) <==> records != [] && ParseDates(records).Some? && OverflowMonth(date)
    ensures r.Ok? ==> "Timesheet" in r.value
  {
    if records == [] then Err(EmptyExport)
    else
      match ParseDates(records)
      case None => Err(MalformedRecord)
      case Some(es) =>
        match ExportSetup(exports, exportsDir, templates, date)
        case Err(e) => Err(e)
        case Ok(setup) => FillTemplate(setup.0, name, MonthYearText(locale, date), setup.1, SortByDay(es), locale)
  }

  /** The records of a sorted list, without their parsed days. */
  function RecordsOf(es: seq<Dated>): (r: seq<Record>)
    ensures |r| == |es| && forall k :: 0 <= k < |es| ==> r[k] == es[k].record
  {
    if es == [] then [] else [es[0].record] + RecordsOf(es[1..])
  }

  /** An export with no records for the month stops before anything else, and only then. */
  lemma ExportEmpty(records: seq<Record>, name: string, exports: map<FileKey, Workbook>, exportsDir: string,
                    templates: map<int, Workbook>, date: Date, locale: Locale)
    requires ValidDate(date) && ValidLocale(locale)
    ensures ExportBook(records, name, exports, exportsDir, templates, date, locale) == Err(EmptyExport) <==> records == []
  {
  }

  /** An export that succeeds went through every stage. */
  lemma ExportBookOk(records: seq<Record>, name: string, exports: map<FileKey, Workbook>, exportsDir: string,
                     templates: map<int, Workbook>, date: Date, locale: Locale)
    requires ValidDate(date) && ValidLocale(locale)
    requires ExportBook(records, name, exports, exportsDir, templates, date, locale).Ok?
    ensures records != [] && ParseDates(records).Some? && ExportSetup(exports, exportsDir, templates, date).Ok?
    ensures var setup := ExportSetup(exports, exportsDir, templates, date).value;
      var fill := FillTemplate(setup.0, name, MonthYearText(locale, date), setup.1, SortByDay(ParseDates(records).value), locale);
      fill.Ok? && ExportBook(records, name, exports, exportsDir, templates, date, locale) == fill
  {
  }

  /** The last header write to D7, D8 and J8 is the name, the month and year, and the carryover. */
  lemma HeaderWritesCells(name: string, monthYear: string, carryover: Option<CellValue>)
    ensures LastWrite(HeaderWrites(name, monthYear, carryover), 7, 4) == Some(Some(TextValue(name)))
    ensures LastWrite(HeaderWrites(name, monthYear, carryover), 8, 4) == Some(Some(TextValue(monthYear)))
    ensures LastWrite(HeaderWrites(name, monthYear, carryover), 8, 10) == Some(carryover)
  {
    var h := HeaderWrites(name, monthYear, carryover);
    assert h[..2][..1] == [h[0]];
    assert LastWrite(h[..2], 7, 4) == LastWrite([h[0]], 7, 4);
    assert LastWrite(h, 7, 4) == LastWrite(h[..2], 7, 4);
  }

  /** Filling in the template leaves the name, the month and year and the carryover in the header. */
  lemma FillTemplateHeader(book: Workbook, name: string, monthYear: string, carryover: Option<CellValue>,
                           sorted: seq<Dated>, locale: Locale)
    requires "Timesheet" in book && ValidLocale(locale) && AllValid(sorted)
    requires FillTemplate(book, name, monthYear, carryover, sorted, locale).Ok?
    ensures var filled := FillTemplate(book, name, monthYear, carryover, sorted, locale).value;
      && filled.Keys == book.Keys
      && (forall sheet :: sheet in book && sheet != "Timesheet" ==> filled[sheet] == book[sheet])
      && Cell(filled["Timesheet"], 7, 4) == Some(TextValue(name))
      && Cell(filled["Timesheet"], 8, 4) == Some(TextValue(monthYear))
      && Cell(filled["Timesheet"], 8, 10) == carryover
  {
    var header := HeaderWrites(name, monthYear, carryover);
    var rows := RowsLayout(sorted, FirstRecordRow, locale).value;
    HeaderWritesCells(name, monthYear, carryover);
    RowsLayoutRows(sorted, FirstRecordRow, locale, 7, 4);
    RowsLayoutRows(sorted, FirstRecordRow, locale, 8, 4);
    RowsLayoutRows(sorted, FirstRecordRow, locale, 8, 10);
    HeaderCell(book["Timesheet"], header, rows, 7, 4);
    HeaderCell(book["Timesheet"], header, rows, 8, 4);
    HeaderCell(book["Timesheet"], header, rows, 8, 10);
  }

  /**
   * The saved workbook is the template for the month's number of working
   * days, with the name in D7, the month and year in D8 and the carryover of
   * the previous month's export in J8 (0 when that export does not exist);
   * its other sheets are the template's.
   */
  lemma ExportHeader(records: seq<Record>, name: string, exports: map<FileKey, Workbook>, exportsDir: string,
                     templates: map<int, Workbook>, date: Date, locale: Locale)
    requires ValidDate(date) && ValidLocale(locale)
    requires ExportBook(records, name, exports, exportsDir, templates, date, locale).Ok?
    ensures && MonthLength(date).Some? && PrevExportKey(date).Some? && MonthWorkdays(date, MonthLength(date).value).Some?
      && MonthWorkdays(date, MonthLength(date).value).value in templates
      && var book := ExportBook(records, name, exports, exportsDir, templates, date, locale).value;
      var template := templates[MonthWorkdays(date, MonthLength(date).value).value];
      var carryover := Carryover(exports, exportsDir, PrevExportKey(date).value);
      && "Timesheet" in book && carryover.Ok?
      && book.Keys == template.Keys
      && (forall sheet :: sheet in book && sheet != "Timesheet" ==> book[sheet] == template[sheet])
      && Cell(book["Timesheet"], 7, 4) == Some(TextValue(name))
      && Cell(book["Timesheet"], 8, 4) == Some(TextValue(MonthYearText(locale, date)))
      && Cell(book["Timesheet"], 8, 10) == carryover.value
      && (FileKey(exportsDir, PrevExportKey(date).value) !in exports ==> carryover.value == Some(IntValue(0)))
  {
    ExportBookOk(records, name, exports, exportsDir, templates, date, locale);
    var setup := ExportSetup(exports, exportsDir, templates, date).value;
    FillTemplateHeader(setup.0, name, MonthYearText(locale, date), setup.1, SortByDay(ParseDates(records).value), locale);
  }

  /** A header cell keeps the header's value when no record row writes to it. */
  lemma HeaderCell(sheet: Sheet, header: seq<Write>, rows: seq<Write>, r: int, c: int)
    requires LastWrite(rows, r, c) == None
    ensures Cell(ApplyWrites(sheet, header + rows), r, c)
      == match LastWrite(header, r, c)
         case Some(v) => v
         case None => Cell(sheet, r, c)
  {
    LastWriteAppend(header, rows, r, c);
    ApplyWritesCell(sheet, header + rows, r, c);
  }

  /** Filling in the template puts the k-th record's cells in row 12 + k. */
  lemma FillTemplateRow(book: Workbook, name: string, monthYear: string, carryover: Option<CellValue>,
                        sorted: seq<Dated>, locale: Locale, k: int, c: int)
    requires "Timesheet" in book && ValidLocale(locale) && AllValid(sorted)
    requires FillTemplate(book, name, monthYear, carryover, sorted, locale).Ok?
    requires 0 <= k < |sorted|
    ensures && Renderable(sorted[k])
      && var filled := FillTemplate(book, name, monthYear, carryover, sorted, locale).value;
      Cell(filled["Timesheet"], FirstRecordRow + k, c)
        == if c in RowCells(sorted[k], locale) then Some(RowCells(sorted[k], locale)[c])
           else Cell(book["Timesheet"], FirstRecordRow + k, c)
  {
    ExportedRow(book["Timesheet"], HeaderWrites(name, monthYear, carryover), sorted, locale, k, c);
  }

  /**
   * The records of the saved workbook, in date order: the k-th record fills
   * row 12 + k with the cells RowCells gives it (weekday, date, then the
   * times and the comment in column 11, or 8.00 and the comment in column
   * 12 for a special record); the template's other cells in that row stay.
   */
  lemma ExportRows(records: seq<Record>, name: string, exports: map<FileKey, Workbook>, exportsDir: string,
                   templates: map<int, Workbook>, date: Date, locale: Locale, k: int, c: int)
    requires ValidDate(date) && ValidLocale(locale)
    requires ExportBook(records, name, exports, exportsDir, templates, date, locale).Ok?
    ensures && ParseDates(records).Some? && MonthLength(date).Some? && MonthWorkdays(date, MonthLength(date).value).Some?
      && MonthWorkdays(date, MonthLength(date).value).value in templates
      && var sorted := SortByDay(ParseDates(records).value);
      && SortedByDay(sorted) && multiset(sorted) == multiset(ParseDates(records).value)
      && (0 <= k < |sorted| ==>
            var book := ExportBook(records, name, exports, exportsDir, templates, date, locale).value;
            var template := templates[MonthWorkdays(date, MonthLength(date).value).value];
            && Renderable(sorted[k]) && "Timesheet" in book && "Timesheet" in template
            && Cell(book["Timesheet"], FirstRecordRow + k, c)
               == if c in RowCells(sorted[k], locale) then Some(RowCells(sorted[k], locale)[c])
                  else Cell(template["Timesheet"], FirstRecordRow + k, c))
  {
    ExportBookOk(records, name, exports, exportsDir, templates, date, locale);
    var es := ParseDates(records).value;
    SortByDaySorted(es);
    if 0 <= k < |es| {
      var setup := ExportSetup(exports, exportsDir, templates, date).value;
      FillTemplateRow(setup.0, name, MonthYearText(locale, date), setup.1, SortByDay(es), locale, k, c);
    }
  }

  class Timesheet {
    /** The directory the program lives in; the defaults are relative to it. */
    const programPath: string
    /** The `user_defined` section in memory: only the options set to something other than a default. */
    var userDefined: map<string, string>
    /** The `user_defined` section as last written to the configuration file, if ever. */
    ghost var savedSection: Option<map<string, string>>
    var recordFiles: map<FileKey, seq<Record>>
    var exportFiles: map<FileKey, Workbook>
    /** Templates in the templates directory, by number of working days. */
    var templates: map<int, Workbook>
    /** The records of the month last loaded, and the file they came from. */
    var records: seq<Record>
    var recordsFile: FileKey

    /** Only user-definable options are ever set. */
    predicate Valid()
      reads this`userDefined
    {
      forall key :: key in userDefined ==> key in UserDefinedKeys
    }

    /**
     * Reads the configuration file's `user_defined` section, if it has one,
     * and keeps each user-definable option whose value is not one of the
     * defaults.
     */
    constructor (programPath: string, section: Option<map<string, string>>,
                 recordFiles: map<FileKey, seq<Record>>, exportFiles: map<FileKey, Workbook>, templates: map<int, Workbook>)
      ensures Valid()
      ensures this.programPath == programPath
      ensures forall key :: key in userDefined <==> section.Some? && Kept(programPath, section.value, key)
      ensures forall key :: key in userDefined ==> section.Some? && key in section.value && userDefined[key] == section.value[key]
      ensures savedSection == None && records == []
      ensures this.recordFiles == recordFiles && this.exportFiles == exportFiles && this.templates == templates
    {
      var merged: map<string, string> := map[];
      if section.Some? {
        for k := 0 to |UserDefinedKeys|
          invariant forall key :: key in merged <==> key in UserDefinedKeys[..k] && Kept(programPath, section.value, key)
          invariant forall key :: key in merged ==> merged[key] == section.value[key]
        {
          var key := UserDefinedKeys[k];
          if key in section.value && !IsDefaultValue(programPath, section.value[key]) {
            merged := merged[key := section.value[key]];
          }
        }
        assert UserDefinedKeys[..|UserDefinedKeys|] == UserDefinedKeys;
      }
      this.programPath := programPath;
      userDefined := merged;
      savedSection := None;
      this.recordFiles := recordFiles;
      this.exportFiles := exportFiles;
      this.templates := templates;
      records := [];
      recordsFile := FileKey("", MonthKey(0, 0));
    }

    /**
     * The options that are not user-definable (the templates directory and
     * the three file name patterns) always read as their defaults.
     */
    lemma FixedOptionsKeepDefaults(key: string)
      requires Valid() && key in Defaults(programPath) && key !in UserDefinedKeys
      ensures Get(key) == Defaults(programPath)[key]
    {
    }

    /** `config.get("user_defined", key)`: the user's value, or the default. */
    function Get(key: string): (v: string)
      reads this`userDefined
      requires key in Defaults(programPath)
      ensures key in userDefined ==> v == userDefined[key]
      ensures key !in userDefined ==> v == Defaults(programPath)[key]
    {
      if key in userDefined then userDefined[key] else Defaults(programPath)[key]
    }

    /**
     * `set_config`: only a user-definable option is accepted; it is set and
     * the configuration saved. None is the ValueError the set raises, before
     * anything changes, for a value with a stray `%`.
     */
    method SetConfig(key: string, value: string) returns (r: Option<bool>)
      requires Valid()
      modifies this
      ensures Valid()
      ensures r == Some(true) <==> key in UserDefinedKeys && InterpolationSyntaxOk(value)
      ensures r == Some(false) <==> key !in UserDefinedKeys
      ensures r == None <==> key in UserDefinedKeys && !InterpolationSyntaxOk(value)
      ensures r == Some(true) ==> userDefined == old(userDefined)[key := value] && Get(key) == value && savedSection == Some(userDefined)
      ensures r != Some(true) ==> userDefined == old(userDefined) && savedSection == old(savedSection)
      ensures recordFiles == old(recordFiles) && exportFiles == old(exportFiles) && templates == old(templates)
      ensures records == old(records) && recordsFile == old(recordsFile)
    {
      if key !in UserDefinedKeys {
        return Some(false);
      }
      if !InterpolationSyntaxOk(value) {
        return None;
      }
      userDefined := userDefined[key := value];
      savedSection := Some(userDefined);
      return Some(true);
    }

    /** `load_records`: the month's file in the records directory, and its records. */
    method LoadRecords(date: Date)
      modifies this
      ensures recordsFile == FileKey(Get("records_dir"), MonthOf(date))
      ensures records == Stored(recordFiles, recordsFile)
      ensures userDefined == old(userDefined) && savedSection == old(savedSection)
      ensures recordFiles == old(recordFiles) && exportFiles == old(exportFiles) && templates == old(templates)
    {
      recordsFile := FileKey(Get("records_dir"), MonthOf(date));
      records := Stored(recordFiles, recordsFile);
    }

    /** `record_exists`: some loaded record has the date written DD.MM.YYYY. */
    function RecordExists(date: Date): (b: bool)
      reads this`records
      requires ValidDate(date)
      ensures b <==> exists i :: 0 <= i < |records| && records[i].date == FormatDate(date)
    {
      HasDate(records, FormatDate(date))
    }

    /** `add_record`: load the month, and append and save a new record unless the date is taken. */
    method AddRecord(date: Date, workHours: (Time, Time), breakTime: (Time, Time), comment: string, special: bool)
      returns (added: bool)
      requires Valid() && ValidDate(date)
      requires ValidTime(workHours.0) && ValidTime(workHours.1) && ValidTime(breakTime.0) && ValidTime(breakTime.1)
      modifies this
      ensures Valid()
      ensures userDefined == old(userDefined) && savedSection == old(savedSection)
      ensures exportFiles == old(exportFiles) && templates == old(templates)
      ensures recordsFile == FileKey(Get("records_dir"), MonthOf(date))
      ensures var before := Stored(old(recordFiles), recordsFile);
        match WithAdded(before, CreateRecord(date, workHours, breakTime, comment, special))
        case None => !added && records == before && recordFiles == old(recordFiles)
        case Some(after) => added && records == after && recordFiles == old(recordFiles)[recordsFile := after]
    {
      LoadRecords(date);
      if !RecordExists(date) {
        var record := CreateRecord(date, workHours, breakTime, comment, special);
        records := records + [record];
        recordFiles := recordFiles[recordsFile := records];
        return true;
      }
      return false;
    }

    /**
     * `delete_record`: load the month and remove the first record with the
     * date; the file is rewritten, or removed when no record is left.
     */
    method DeleteRecord(date: Date) returns (deleted: bool)
      requires Valid() && ValidDate(date)
      modifies this
      ensures Valid()
      ensures userDefined == old(userDefined) && savedSection == old(savedSection)
      ensures exportFiles == old(exportFiles) && templates == old(templates)
      ensures recordsFile == FileKey(Get("records_dir"), MonthOf(date))
      ensures var before := Stored(old(recordFiles), recordsFile);
        match WithDeleted(before, FormatDate(date))
        case None => !deleted && records == before && recordFiles == old(recordFiles)
        case Some(after) =>
          && deleted && records == after
          && recordFiles == if after == [] then old(recordFiles) - {recordsFile} else old(recordFiles)[recordsFile := after]
    {
      LoadRecords(date);
      var found := ScanForDate(records, FormatDate(date));
      if found.Some? {
        records := RemoveFirst(records, records[found.value]);
        if |records| > 0 {
          recordFiles := recordFiles[recordsFile := records];
        } else {
          recordFiles := recordFiles - {recordsFile};
        }
        return true;
      }
      return false;
    }

    /**
     * `update_record`: load the month and overwrite the first record that has
     * the date but differs from the new one, then save.
     */
    method UpdateRecord(date: Date, workHours: (Time, Time), breakTime: (Time, Time), comment: string, special: bool)
      returns (updated: bool)
      requires Valid() && ValidDate(date)
      requires ValidTime(workHours.0) && ValidTime(workHours.1) && ValidTime(breakTime.0) && ValidTime(breakTime.1)
      modifies this
      ensures Valid()
      ensures userDefined == old(userDefined) && savedSection == old(savedSection)
      ensures exportFiles == old(exportFiles) && templates == old(templates)
      ensures recordsFile == FileKey(Get("records_dir"), MonthOf(date))
      ensures var before := Stored(old(recordFiles), recordsFile);
        match WithUpdated(before, CreateRecord(date, workHours, breakTime, comment, special))
        case None => !updated && records == before && recordFiles == old(recordFiles)
        case Some(after) => updated && records == after && recordFiles == old(recordFiles)[recordsFile := after]
    {
      LoadRecords(date);
      var newRecord := CreateRecord(date, workHours, breakTime, comment, special);
      var found := ScanForUpdate(records, newRecord);
      if found.Some? {
        records := records[found.value := newRecord];
        recordFiles := recordFiles[recordsFile := records];
        return true;
      }
      return false;
    }

    /**
     * The part of `export` between sorting and filling in: count the month's
     * working days to choose the template, and read the carryover from the
     * previous month's export.
     */
    method PrepareTemplate(date: Date) returns (r: Result<(Workbook, Option<CellValue>), ExportError>)
      requires ValidDate(date)
      ensures r == ExportSetup(exportFiles, Get("exports_dir"), templates, date)
    {
      var total := MonthLength(date);
      if total.None? {
        return Err(DateOutOfRange);
      }
      var startMonth := Date(date.year, date.month, 1);
      var endMonth := Date(date.year, date.month, total.value);
      var workdays := NettoWorkdays(Ordinal(startMonth), Ordinal(endMonth), [], [5, 6]);
      if date.year != MaxYear || date.month != 12 {
        MonthEndRoom(date.year, date.month);
      }
      assert workdays == MonthWorkdays(date, total.value);
      if workdays.None? {
        return Err(DateOutOfRange);
      }
      var prevMonth := PrevExportKey(date);
      if prevMonth.None? {
        return Err(DateOutOfRange);
      }
      var carryover := Carryover(exportFiles, Get("exports_dir"), prevMonth.value);
      if carryover.Err? {
        return Err(carryover.error);
      }
      if workdays.value !in templates {
        return Err(MissingTemplate);
      }
      if "Timesheet" !in templates[workdays.value] {
        return Err(MissingSheet);
      }
      return Ok((templates[workdays.value], carryover.value));
    }

    /**
     * The rest of `export` once the records are sorted: prepare the template,
     * fill it in and save it as the month's export.
     */
    method SaveExport(date: Date, locale: Locale, sorted: seq<Dated>) returns (r: Result<(), ExportError>)
      requires ValidDate(date) && ValidLocale(locale) && AllValid(sorted)
      modifies this
      ensures userDefined == old(userDefined) && savedSection == old(savedSection)
      ensures recordFiles == old(recordFiles) && templates == old(templates)
      ensures records == old(records) && recordsFile == old(recordsFile)
      ensures match ExportSetup(old(exportFiles), Get("exports_dir"), templates, date)
        case Err(e) => r == Err(e) && exportFiles == old(exportFiles)
        case Ok(setup) =>
          var fill := FillTemplate(setup.0, Get("name"), MonthYearText(locale, date), setup.1, sorted, locale);
          && (fill.Err? ==> r == Err(fill.error) && exportFiles == old(exportFiles))
          && (fill.Ok? ==> r == Ok(()) && exportFiles == old(exportFiles)[FileKey(Get("exports_dir"), MonthOf(date)) := fill.value])
    {
      var setup := PrepareTemplate(date);
      if setup.Err? {
        return Err(setup.error);
      }
      r := SaveFilled(MonthOf(date), MonthYearText(locale, date), locale, setup.value.0, setup.value.1, sorted);
    }

    /** `wb.save(export_file)` after filling in the template: the month's export is written, or nothing is. */
    method SaveFilled(month: MonthKey, monthYear: string, locale: Locale, book: Workbook, carryover: Option<CellValue>,
                      sorted: seq<Dated>) returns (r: Result<(), ExportError>)
      requires ValidLocale(locale) && AllValid(sorted) && "Timesheet" in book
      modifies this
      ensures userDefined == old(userDefined) && savedSection == old(savedSection)
      ensures recordFiles == old(recordFiles) && templates == old(templates)
      ensures records == old(records) && recordsFile == old(recordsFile)
      ensures var fill := FillTemplate(book, Get("name"), monthYear, carryover, sorted, locale);
        && (fill.Err? ==> r == Err(fill.error) && exportFiles == old(exportFiles))
        && (fill.Ok? ==> r == Ok(()) && exportFiles == old(exportFiles)[FileKey(Get("exports_dir"), month) := fill.value])
    {
      var fill := FillIn(book, Get("name"), monthYear, carryover, sorted, locale);
      if fill.Ok? {
        exportFiles := exportFiles[FileKey(Get("exports_dir"), month) := fill.value];
        r := Ok(());
      } else {
        r := Err(fill.error);
      }
    }

    /**
     * `export`: load the month, sort its records by date in memory, and save
     * the filled-in template as the month's export.
     */
    method Export(date: Date, locale: Locale) returns (r: Result<(), ExportError>)
      requires Valid() && ValidDate(date) && ValidLocale(locale)
      modifies this
      ensures Valid()
      ensures userDefined == old(userDefined) && savedSection == old(savedSection)
      ensures recordFiles == old(recordFiles) && templates == old(templates)
      ensures recordsFile == FileKey(Get("records_dir"), MonthOf(date))
      ensures var book := ExportBook(Stored(recordFiles, recordsFile), Get("name"), old(exportFiles), Get("exports_dir"),
                                     templates, date, locale);
        && (book.Err? ==> r == Err(book.error) && exportFiles == old(exportFiles))
        && (book.Ok? ==> r == Ok(()) && exportFiles == old(exportFiles)[FileKey(Get("exports_dir"), MonthOf(date)) := book.value])
      ensures var stored := Stored(recordFiles, recordsFile);
        records == if stored != [] && ParseDates(stored).Some? then RecordsOf(SortByDay(ParseDates(stored).value)) else stored
    {
      LoadRecords(date);
      ghost var stored := records;
      if |records| == 0 {
        return Err(EmptyExport);
      }
      var parsed := ParseDates(records);
      if parsed.None? {
        return Err(MalformedRecord);
      }
      var sorted := SortByDay(parsed.value);
      records := RecordsOf(sorted);

      r := SaveExport(date, locale, sorted);
    }
  }

  /**
   * The loop of `export` that fills in the template: the header cells, then
   * one row per record in the given order, written to the Timesheet sheet.
   */
  method FillIn(book: Workbook, name: string, monthYear: string, carryover: Option<CellValue>,
                sorted: seq<Dated>, locale: Locale) returns (r: Result<Workbook, ExportError>)
    requires "Timesheet" in book && ValidLocale(locale) && AllValid(sorted)
    ensures r == FillTemplate(book, name, monthYear, carryover, sorted, locale)
  {
    var header := HeaderWrites(name, monthYear, carryover);
    var rows := LayoutRows(sorted, locale);
    if rows.Err? {
      return Err(rows.error);
    }
    return Ok(book["Timesheet" := ApplyWrites(book["Timesheet"], header + rows.value)]);
  }

  /** The loop of `delete_record`: the position of the first record with the date, if any. */
  method ScanForDate(records: seq<Record>, key: string) returns (found: Option<nat>)
    ensures found == FirstWithDate(records, key)
  {
    var i := 0;
    while i < |records|
      invariant 0 <= i <= |records|
      invariant forall j :: 0 <= j < i ==> records[j].date != key
    {
      if records[i].date == key {
        FirstWithDateAt(records, key, i);
        return Some(i);
      }
      i := i + 1;
    }
    return None;
  }

  /** The loop of `update_record`: the position of the first record with the date that differs from `rec`. */
  method ScanForUpdate(records: seq<Record>, rec: Record) returns (found: Option<nat>)
    ensures found == FirstToUpdate(records, rec)
  {
    var i := 0;
    while i < |records|
      invariant 0 <= i <= |records|
      invariant forall j :: 0 <= j < i ==> records[j].date != rec.date || records[j] == rec
    {
      if records[i].date == rec.date && records[i] != rec {
        FirstToUpdateAt(records, rec, i);
        return Some(i);
      }
      i := i + 1;
    }
    return None;
  }

  /** The index the scan of `update_record` stops at is the one FirstToUpdate names. */
  lemma {:induction false} FirstToUpdateAt(records: seq<Record>, rec: Record, i: nat)
    requires i < |records| && records[i].date == rec.date && records[i] != rec
    requires forall j :: 0 <= j < i ==> records[j].date != rec.date || records[j] == rec
    ensures FirstToUpdate(records, rec) == Some(i)
  {
    if i > 0 {
      FirstToUpdateAt(records[1..], rec, i - 1);
    }
  }
}
