/**
 * The value-level part of `Timesheet.export` and `extract_carryover_hours`:
 * a workbook is a map from sheet names to cells, a cell is addressed by
 * (row, column), and filling the template is a list of cell writes applied
 * in order. Sorting by date, the row-by-row cell layout, the carryover lookup
 * and the name of the previous month's export are stated here; the class
 * method that loads, writes and saves lives in Store.
 */
module ExportLayout {
  import opened Wrappers
  import opened Text
  import opened Calendar
  import opened Formats
  import opened Records

  datatype CellValue =
    | IntValue(i: int)
    | Hundredths(h: int)          // a float with two decimals, such as 8.00
    | TextValue(s: string)
    | DateValue(d: Date)
    | TimeValue(t: Time)

  type Sheet = map<(int, int), CellValue>

  type Workbook = map<string, Sheet>

  /** `ws.cell(row=r, column=c).value = v`; `None` empties the cell. */
  datatype Write = Write(row: int, col: int, value: Option<CellValue>)

  datatype ExportError =
    | EmptyExport          // no records for the month: the program exits with a message
    | MalformedRecord      // strptime raised on a stored date or time
    | DateOutOfRange       // a date step passes 1 January of year 1 or 31 December 9999
    | MissingTemplate      // no template for this number of working days
    | MissingSheet         // a workbook lacks a sheet the code indexes
    | BadCarryoverCell     // Logging!B2 or B3 is not a usable row or column number

  /** The injected `strftime("%A")` and `strftime("%B")` tables, Monday and January first. */
  datatype Locale = Locale(weekdayNames: seq<string>, monthNames: seq<string>)

  predicate ValidLocale(locale: Locale) {
    |locale.weekdayNames| == 7 && |locale.monthNames| == 12
  }

  function Cell(sheet: Sheet, row: int, col: int): Option<CellValue> {
    if (row, col) in sheet then Some(sheet[(row, col)]) else None
  }

  function ApplyWrite(sheet: Sheet, w: Write): Sheet {
    match w.value
    case Some(v) => sheet[(w.row, w.col) := v]
    case None => sheet - {(w.row, w.col)}
  }

  function ApplyWrites(sheet: Sheet, writes: seq<Write>): Sheet {
    if writes == [] then sheet
    else ApplyWrite(ApplyWrites(sheet, writes[..|writes| - 1]), writes[|writes| - 1])
  }

  /** The value of the last write to (row, col), if any write touches it. */
  function LastWrite(writes: seq<Write>, row: int, col: int): Option<Option<CellValue>> {
    if writes == [] then None
    else if writes[|writes| - 1].row == row && writes[|writes| - 1].col == col then Some(writes[|writes| - 1].value)
    else LastWrite(writes[..|writes| - 1], row, col)
  }

  /** A cell holds what the last write to it put there, or the template's value if nothing wrote it. */
  lemma {:induction false} ApplyWritesCell(sheet: Sheet, writes: seq<Write>, row: int, col: int)
    ensures Cell(ApplyWrites(sheet, writes), row, col)
      == match LastWrite(writes, row, col)
         case Some(v) => v
         case None => Cell(sheet, row, col)
  {
    if writes != [] {
      ApplyWritesCell(sheet, writes[..|writes| - 1], row, col);
    }
  }

  lemma {:induction false} LastWriteAppend(a: seq<Write>, b: seq<Write>, row: int, col: int)
    ensures LastWrite(a + b, row, col)
      == if LastWrite(b, row, col).Some? then LastWrite(b, row, col) else LastWrite(a, row, col)
    decreases |b|
  {
    if b != [] {
      assert (a + b)[..|a + b| - 1] == a + b[..|b| - 1];
      LastWriteAppend(a, b[..|b| - 1], row, col);
    } else {
      assert a + b == a;
    }
  }

  /** A stored record together with the day its date string names. */
  datatype Dated = Dated(record: Record, day: Date)

  /** `extract_date` applied to every record; None if strptime raises on any of them. */
  function ParseDates(records: seq<Record>): (r: Option<seq<Dated>>)
    ensures r.Some? ==> |r.value| == |records|
    ensures r.Some? ==> forall k :: 0 <= k < |records| ==>
      r.value[k].record == records[k] && ParseDate(records[k].date) == Some(r.value[k].day)
    ensures r.None? ==> exists k :: 0 <= k < |records| && ParseDate(records[k].date).None?
    ensures r.Some? ==> AllValid(r.value)
  {
    if records == [] then Some([])
    else
      match ParseDate(records[0].date)
      case None => None
      case Some(d) =>
        match ParseDates(records[1..])
        case None => None
        case Some(rest) => Some([Dated(records[0], d)] + rest)
  }

  function Key(e: Dated): int
    requires ValidDate(e.day)
  {
    Ordinal(e.day)
  }

  predicate AllValid(es: seq<Dated>) {
    forall k :: 0 <= k < |es| ==> ValidDate(es[k].day)
  }

  predicate SortedByDay(es: seq<Dated>)
    requires AllValid(es)
  {
    forall i, j :: 0 <= i < j < |es| ==> Key(es[i]) <= Key(es[j])
  }

  /** Insert after every entry that is not later, as a stable sort does. */
  function Insert(sorted: seq<Dated>, e: Dated): (r: seq<Dated>)
    requires AllValid(sorted) && ValidDate(e.day)
    ensures AllValid(r) && multiset(r) == multiset(sorted) + multiset{e}
    ensures |r| == |sorted| + 1
  {
    if sorted == [] then [e]
    else if Key(sorted[|sorted| - 1]) <= Key(e) then sorted + [e]
    else
      var init := sorted[..|sorted| - 1];
      assert sorted == init + [sorted[|sorted| - 1]];
      Insert(init, e) + [sorted[|sorted| - 1]]
  }

  lemma {:induction false} InsertBounded(sorted: seq<Dated>, e: Dated, bound: int)
    requires AllValid(sorted) && ValidDate(e.day)
    requires forall k :: 0 <= k < |sorted| ==> Key(sorted[k]) <= bound
    requires Key(e) <= bound
    ensures forall k :: 0 <= k < |sorted| + 1 ==> Key(Insert(sorted, e)[k]) <= bound
  {
    if sorted != [] && Key(sorted[|sorted| - 1]) > Key(e) {
      InsertBounded(sorted[..|sorted| - 1], e, bound);
    }
  }

  lemma {:induction false} InsertSorted(sorted: seq<Dated>, e: Dated)
    requires AllValid(sorted) && ValidDate(e.day) && SortedByDay(sorted)
    ensures SortedByDay(Insert(sorted, e))
    decreases |sorted|
  {
    if sorted != [] && Key(sorted[|sorted| - 1]) > Key(e) {
      var init := sorted[..|sorted| - 1];
      var last := sorted[|sorted| - 1];
      InsertSorted(init, e);
      InsertBounded(init, e, Key(last));
      var r := Insert(sorted, e);
      assert r == Insert(init, e) + [last];
    }
  }

  /** `list.sort(key=extract_date)`: the records in date order, the same records as before. */
  function SortByDay(es: seq<Dated>): (r: seq<Dated>)
    requires AllValid(es)
    ensures AllValid(r) && |r| == |es|
    ensures multiset(r) == multiset(es)
  {
    if es == [] then []
    else
      var init := es[..|es| - 1];
      assert es == init + [es[|es| - 1]];
      Insert(SortByDay(init), es[|es| - 1])
  }

  lemma {:induction false} SortByDaySorted(es: seq<Dated>)
    requires AllValid(es)
    ensures SortedByDay(SortByDay(es))
  {
    if es != [] {
      SortByDaySorted(es[..|es| - 1]);
      InsertSorted(SortByDay(es[..|es| - 1]), es[|es| - 1]);
    }
  }

  /** The four stored times of a record, in the order `export` writes them. */
  function StoredTimes(rec: Record): seq<string> {
    [rec.startDay, rec.endDay, rec.startBreak, rec.endBreak]
  }

  /** Each text read by strptime("%H:%M"); None as soon as one of them is refused. */
  function ParseTimeList(ss: seq<string>): (r: Option<seq<Time>>)
    ensures r.Some? ==> |r.value| == |ss|
  {
    if ss == [] then Some([])
    else
      match (ParseTime(ss[0]), ParseTimeList(ss[1..]))
      case (Some(t), Some(ts)) => Some([t] + ts)
      case _ => None
  }

  /** A list parses exactly when each of its texts does, and into their times. */
  lemma {:induction false} ParseTimeListSpec(ss: seq<string>)
    ensures ParseTimeList(ss).Some? <==> forall i :: 0 <= i < |ss| ==> ParseTime(ss[i]).Some?
    ensures ParseTimeList(ss).Some? ==> forall i :: 0 <= i < |ss| ==> ParseTime(ss[i]) == Some(ParseTimeList(ss).value[i])
  {
    if ss != [] {
      ParseTimeListSpec(ss[1..]);
      assert forall i :: 1 <= i < |ss| ==> ss[1..][i - 1] == ss[i];
    }
  }

  /** The four stored times of a normal record, as strptime("%H:%M") reads them. */
  function ParseTimes(rec: Record): (r: Option<seq<Time>>)
    ensures r.Some? ==> |r.value| == 4
  {
    ParseTimeList(StoredTimes(rec))
  }

  /** The four times parse exactly when each stored text does, and into those times. */
  lemma ParseTimesFields(rec: Record)
    ensures var r := ParseTimes(rec);
      && (r.Some? ==>
            && ParseTime(rec.startDay) == Some(r.value[0]) && ParseTime(rec.endDay) == Some(r.value[1])
            && ParseTime(rec.startBreak) == Some(r.value[2]) && ParseTime(rec.endBreak) == Some(r.value[3]))
      && (r.None? <==>
            (ParseTime(rec.startDay).None? || ParseTime(rec.endDay).None? || ParseTime(rec.startBreak).None? || ParseTime(rec.endBreak).None?))
  {
    var ss := StoredTimes(rec);
    ParseTimeListSpec(ss);
    assert ss[0] == rec.startDay && ss[1] == rec.endDay && ss[2] == rec.startBreak && ss[3] == rec.endBreak;
  }

  /** `"special" in record.keys() and record["special"] == "True"`. */
  predicate IsSpecial(rec: Record) {
    rec.special == Some("True")
  }

  function WeekdayName(locale: Locale, d: Date): string
    requires ValidLocale(locale) && ValidDate(d)
  {
    locale.weekdayNames[Weekday(Ordinal(d))]
  }

  /** The writes `export` issues for the record placed on `row`. */
  function RecordWrites(e: Dated, row: int, locale: Locale): (r: Result<seq<Write>, ExportError>)
    requires ValidLocale(locale) && ValidDate(e.day)
    ensures r.Err? <==> !Renderable(e)
    ensures r.Err? ==> r.error == MalformedRecord
  {
    var head := [Write(row, 2, Some(TextValue(WeekdayName(locale, e.day)))), Write(row, 3, Some(DateValue(e.day)))];
    if IsSpecial(e.record) then
      Ok(head + [Write(row, 9, Some(Hundredths(800))), Write(row, 12, Some(TextValue(e.record.comment)))])
    else
      match ParseTimes(e.record)
      case None => Err(MalformedRecord)
      case Some(t) =>
        Ok(head + [Write(row, 4, Some(TimeValue(t[0]))), Write(row, 5, Some(TimeValue(t[1]))),
                   Write(row, 6, Some(TimeValue(t[2]))), Write(row, 7, Some(TimeValue(t[3]))),
                   Write(row, 11, Some(TextValue(e.record.comment)))])
  }

  /** The writes for the entries placed on consecutive rows from `firstRow`; the first failure wins. */
  function RowsLayout(es: seq<Dated>, firstRow: int, locale: Locale): (r: Result<seq<Write>, ExportError>)
    requires ValidLocale(locale) && AllValid(es)
    ensures r.Err? <==> exists k :: 0 <= k < |es| && !Renderable(es[k])
    ensures r.Err? ==> r.error == MalformedRecord
  {
    if es == [] then Ok([])
    else
      match RowsLayout(es[..|es| - 1], firstRow, locale)
      case Err(e) => Err(e)
      case Ok(before) =>
        match RecordWrites(es[|es| - 1], firstRow + |es| - 1, locale)
        case Err(e) => Err(e)
        case Ok(w) => Ok(before + w)
  }

  /** The first row of the record table in the template. */
  const FirstRecordRow := 12

  /**
   * One pass of the record loop of `Timesheet.export`: the `col` counter
   * starts at 2 and steps through weekday, date, the four times or the 8.00
   * credit, and the comment.
   */
  method LayoutRow(e: Dated, row: int, locale: Locale) returns (r: Result<seq<Write>, ExportError>)
    requires ValidLocale(locale) && ValidDate(e.day)
    ensures r == RecordWrites(e, row, locale)
  {
    var rec := e.record;
    var col := 2;
    var writes := [Write(row, col, Some(TextValue(WeekdayName(locale, e.day))))];
    col := col + 1;
    writes := writes + [Write(row, col, Some(DateValue(e.day)))];
    col := col + 1;
    if IsSpecial(rec) {
      writes := writes + [Write(row, 9, Some(Hundredths(800)))];
      col := col + 4;
    } else {
      var times := ParseTimes(rec);
      if times.None? {
        return Err(MalformedRecord);
      }
      writes := writes + [Write(row, col, Some(TimeValue(times.value[0])))];
      col := col + 1;
      writes := writes + [Write(row, col, Some(TimeValue(times.value[1])))];
      col := col + 1;
      writes := writes + [Write(row, col, Some(TimeValue(times.value[2])))];
      col := col + 1;
      writes := writes + [Write(row, col, Some(TimeValue(times.value[3])))];
    }
    col := col + 4;
    writes := writes + [Write(row, col, Some(TextValue(rec.comment)))];
    assert writes == writes[..2] + writes[2..];
    if IsSpecial(rec) {
      assert writes[2..] == [Write(row, 9, Some(Hundredths(800))), Write(row, 12, Some(TextValue(rec.comment)))];
    } else {
      var t := ParseTimes(rec).value;
      assert writes[2..] == [Write(row, 4, Some(TimeValue(t[0]))), Write(row, 5, Some(TimeValue(t[1]))),
                             Write(row, 6, Some(TimeValue(t[2]))), Write(row, 7, Some(TimeValue(t[3]))),
                             Write(row, 11, Some(TextValue(rec.comment)))];
    }
    var head := [Write(row, 2, Some(TextValue(WeekdayName(locale, e.day)))), Write(row, 3, Some(DateValue(e.day)))];
    assert writes[..2] == head;
    r := Ok(writes);
  }

  /**
   * The record loop of `Timesheet.export`: a `row` counter starting at
   * 12, one row per record in the given order.
   */
  method LayoutRows(es: seq<Dated>, locale: Locale) returns (r: Result<seq<Write>, ExportError>)
    requires ValidLocale(locale) && AllValid(es)
    ensures r == RowsLayout(es, FirstRecordRow, locale)
  {
    var writes: seq<Write> := [];
    var row := FirstRecordRow;
    for k := 0 to |es|
      invariant row == FirstRecordRow + k
      invariant RowsLayout(es[..k], FirstRecordRow, locale) == Ok(writes)
    {
      assert es[..k + 1][..k] == es[..k];
      var rowWrites := LayoutRow(es[k], row, locale);
      if rowWrites.Err? {
        RowsLayoutFailsOnPrefix(es, k + 1, locale);
        return rowWrites;
      }
      writes := writes + rowWrites.value;
      row := row + 1;
    }
    assert es[..|es|] == es;
    r := Ok(writes);
  }

  /** Once a prefix of the entries fails, the whole layout fails the same way. */
  lemma {:induction false} RowsLayoutFailsOnPrefix(es: seq<Dated>, k: nat, locale: Locale)
    requires ValidLocale(locale) && AllValid(es) && k <= |es|
    requires RowsLayout(es[..k], FirstRecordRow, locale).Err?
    ensures RowsLayout(es, FirstRecordRow, locale) == RowsLayout(es[..k], FirstRecordRow, locale)
    decreases |es| - k
  {
    if k < |es| {
      var init := es[..|es| - 1];
      assert init[..k] == es[..k];
      RowsLayoutFailsOnPrefix(init, k, locale);
    } else {
      assert es[..k] == es;
    }
  }

  /** A record `export` can lay out: special, or with four times strptime accepts. */
  predicate Renderable(e: Dated) {
    IsSpecial(e.record) || ParseTimes(e.record).Some?
  }

  /** The cells of one record's row, by column, as the template receives them. */
  function RowCells(e: Dated, locale: Locale): map<int, CellValue>
    requires ValidLocale(locale) && ValidDate(e.day) && Renderable(e)
  {
    var common := map[2 := TextValue(WeekdayName(locale, e.day)), 3 := DateValue(e.day)];
    if IsSpecial(e.record) then
      common[9 := Hundredths(800)][12 := TextValue(e.record.comment)]
    else
      var t := ParseTimes(e.record).value;
      common[4 := TimeValue(t[0])][5 := TimeValue(t[1])][6 := TimeValue(t[2])][7 := TimeValue(t[3])]
            [11 := TextValue(e.record.comment)]
  }

  /** The columns a sequence of writes touches. */
  function Columns(writes: seq<Write>): set<int> {
    set i | 0 <= i < |writes| :: writes[i].col
  }

  /**
   * Writes that all go to one row, each putting there the value `cells`
   * assigns to its column: the last write to any cell is the one `cells` gives.
   */
  lemma {:induction false} LastWriteOnRow(writes: seq<Write>, row: int, cells: map<int, CellValue>, r: int, c: int)
    requires forall i :: 0 <= i < |writes| ==>
      writes[i].row == row && writes[i].col in cells && writes[i].value == Some(cells[writes[i].col])
    ensures LastWrite(writes, r, c) == if r == row && c in Columns(writes) then Some(Some(cells[c])) else None
  {
    if writes != [] {
      var init := writes[..|writes| - 1];
      assert Columns(writes) == Columns(init) + {writes[|writes| - 1].col} by {
        forall x | x in Columns(writes) ensures x in Columns(init) + {writes[|writes| - 1].col} {
          var i :| 0 <= i < |writes| && writes[i].col == x;
          if i < |writes| - 1 {
            assert init[i].col == x;
          }
        }
        forall x | x in Columns(init) ensures x in Columns(writes) {
          var i :| 0 <= i < |init| && init[i].col == x;
          assert writes[i].col == x;
        }
      }
      LastWriteOnRow(init, row, cells, r, c);
    }
  }

  /** The writes of one record land on its own row, in exactly the columns RowCells lists. */
  lemma RecordWritesCell(e: Dated, row: int, locale: Locale, r: int, c: int)
    requires ValidLocale(locale) && ValidDate(e.day)
    requires RecordWrites(e, row, locale).Ok?
    ensures Renderable(e)
    ensures LastWrite(RecordWrites(e, row, locale).value, r, c)
      == if r == row && c in RowCells(e, locale) then Some(Some(RowCells(e, locale)[c])) else None
  {
    RecordWritesOnRow(e, row, locale);
    LastWriteOnRow(RecordWrites(e, row, locale).value, row, RowCells(e, locale), r, c);
  }

  lemma RecordWritesOnRow(e: Dated, row: int, locale: Locale)
    requires ValidLocale(locale) && ValidDate(e.day)
    requires RecordWrites(e, row, locale).Ok?
    ensures Renderable(e)
    ensures var w := RecordWrites(e, row, locale).value;
      && (forall i :: 0 <= i < |w| ==>
            w[i].row == row && w[i].col in RowCells(e, locale) && w[i].value == Some(RowCells(e, locale)[w[i].col]))
      && Columns(w) == RowCells(e, locale).Keys
  {
    if IsSpecial(e.record) {
      SpecialWritesOnRow(e, row, locale);
    } else {
      NormalWritesOnRow(e, row, locale);
    }
  }

  lemma SpecialWritesOnRow(e: Dated, row: int, locale: Locale)
    requires ValidLocale(locale) && ValidDate(e.day) && IsSpecial(e.record)
    ensures RecordWrites(e, row, locale).Ok?
    ensures var w := RecordWrites(e, row, locale).value;
      && (forall i :: 0 <= i < |w| ==>
            w[i].row == row && w[i].col in RowCells(e, locale) && w[i].value == Some(RowCells(e, locale)[w[i].col]))
      && Columns(w) == RowCells(e, locale).Keys
  {
    var w := RecordWrites(e, row, locale).value;
    assert |w| == 4 && w[0].col == 2 && w[1].col == 3 && w[2].col == 9 && w[3].col == 12;
    assert Columns(w) == {2, 3, 9, 12} by {
      assert forall x :: x in Columns(w) ==> x in {2, 3, 9, 12};
    }
  }

  lemma NormalWritesOnRow(e: Dated, row: int, locale: Locale)
    requires ValidLocale(locale) && ValidDate(e.day) && !IsSpecial(e.record) && ParseTimes(e.record).Some?
    ensures RecordWrites(e, row, locale).Ok?
    ensures var w := RecordWrites(e, row, locale).value;
      && (forall i :: 0 <= i < |w| ==>
            w[i].row == row && w[i].col in RowCells(e, locale) && w[i].value == Some(RowCells(e, locale)[w[i].col]))
      && Columns(w) == RowCells(e, locale).Keys
  {
    var w := RecordWrites(e, row, locale).value;
    assert |w| == 7 && w[0].col == 2 && w[1].col == 3 && w[2].col == 4 && w[3].col == 5;
    assert w[4].col == 6 && w[5].col == 7 && w[6].col == 11;
    assert Columns(w) == {2, 3, 4, 5, 6, 7, 11} by {
      assert forall x :: x in Columns(w) ==> x in {2, 3, 4, 5, 6, 7, 11};
    }
  }

  /** One step of RowsLayout: the last entry's writes follow the writes of the others. */
  lemma RowsLayoutStep(es: seq<Dated>, firstRow: int, locale: Locale)
    requires ValidLocale(locale) && AllValid(es) && RowsLayout(es, firstRow, locale).Ok? && es != []
    ensures AllValid(es[..|es| - 1]) && RowsLayout(es[..|es| - 1], firstRow, locale).Ok?
    ensures RecordWrites(es[|es| - 1], firstRow + |es| - 1, locale).Ok?
    ensures RowsLayout(es, firstRow, locale).value
      == RowsLayout(es[..|es| - 1], firstRow, locale).value + RecordWrites(es[|es| - 1], firstRow + |es| - 1, locale).value
  {
    assert AllValid(es[..|es| - 1]) by {
      assert forall i :: 0 <= i < |es| - 1 ==> es[..|es| - 1][i] == es[i];
    }
  }

  /** A record's writes leave every other row alone. */
  lemma RecordWritesOtherRow(e: Dated, row: int, locale: Locale, r: int, c: int)
    requires ValidLocale(locale) && ValidDate(e.day)
    requires RecordWrites(e, row, locale).Ok? && r != row
    ensures LastWrite(RecordWrites(e, row, locale).value, r, c) == None
  {
    RecordWritesCell(e, row, locale, r, c);
  }

  /** Every write of the layout goes to a row from `firstRow` to `firstRow + |es| - 1`. */
  lemma {:induction false} RowsLayoutRows(es: seq<Dated>, firstRow: int, locale: Locale, r: int, c: int)
    requires ValidLocale(locale) && AllValid(es) && RowsLayout(es, firstRow, locale).Ok?
    requires r < firstRow || r >= firstRow + |es|
    ensures LastWrite(RowsLayout(es, firstRow, locale).value, r, c) == None
  {
    if es != [] {
      var init := es[..|es| - 1];
      var row := firstRow + |es| - 1;
      RowsLayoutStep(es, firstRow, locale);
      var before := RowsLayout(init, firstRow, locale).value;
      var w := RecordWrites(es[|es| - 1], row, locale).value;
      RowsLayoutRows(init, firstRow, locale, r, c);
      RecordWritesOtherRow(es[|es| - 1], row, locale, r, c);
      LastWriteAppend(before, w, r, c);
    }
  }

  /** The row of the last entry holds what that entry's own writes put there. */
  lemma RowsLayoutLastRow(es: seq<Dated>, firstRow: int, locale: Locale, c: int)
    requires ValidLocale(locale) && AllValid(es) && RowsLayout(es, firstRow, locale).Ok? && es != []
    ensures RecordWrites(es[|es| - 1], firstRow + |es| - 1, locale).Ok?
    ensures LastWrite(RowsLayout(es, firstRow, locale).value, firstRow + |es| - 1, c)
      == LastWrite(RecordWrites(es[|es| - 1], firstRow + |es| - 1, locale).value, firstRow + |es| - 1, c)
  {
    var init := es[..|es| - 1];
    var row := firstRow + |es| - 1;
    RowsLayoutStep(es, firstRow, locale);
    var before := RowsLayout(init, firstRow, locale).value;
    var w := RecordWrites(es[|es| - 1], row, locale).value;
    LastWriteAppend(before, w, row, c);
    RowsLayoutRows(init, firstRow, locale, row, c);
  }

  /** The last entry's writes leave the rows of the entries before it alone. */
  lemma RowsLayoutEarlierRow(es: seq<Dated>, firstRow: int, locale: Locale, k: int, c: int)
    requires ValidLocale(locale) && AllValid(es) && RowsLayout(es, firstRow, locale).Ok?
    requires 0 <= k < |es| - 1
    ensures AllValid(es[..|es| - 1]) && RowsLayout(es[..|es| - 1], firstRow, locale).Ok?
    ensures LastWrite(RowsLayout(es, firstRow, locale).value, firstRow + k, c)
      == LastWrite(RowsLayout(es[..|es| - 1], firstRow, locale).value, firstRow + k, c)
  {
    var init := es[..|es| - 1];
    var row := firstRow + |es| - 1;
    RowsLayoutStep(es, firstRow, locale);
    var before := RowsLayout(init, firstRow, locale).value;
    var w := RecordWrites(es[|es| - 1], row, locale).value;
    RecordWritesOtherRow(es[|es| - 1], row, locale, firstRow + k, c);
    LastWriteAppend(before, w, firstRow + k, c);
  }

  /** The k-th entry owns row firstRow + k: the last write to each of its cells is its own. */
  lemma {:induction false} RowsLayoutCell(es: seq<Dated>, firstRow: int, locale: Locale, k: int, c: int)
    requires ValidLocale(locale) && AllValid(es) && RowsLayout(es, firstRow, locale).Ok?
    requires 0 <= k < |es|
    ensures RecordWrites(es[k], firstRow + k, locale).Ok?
    ensures LastWrite(RowsLayout(es, firstRow, locale).value, firstRow + k, c)
      == LastWrite(RecordWrites(es[k], firstRow + k, locale).value, firstRow + k, c)
  {
    if k == |es| - 1 {
      RowsLayoutLastRow(es, firstRow, locale, c);
    } else {
      var init := es[..|es| - 1];
      RowsLayoutEarlierRow(es, firstRow, locale, k, c);
      RowsLayoutCell(init, firstRow, locale, k, c);
      assert init[k] == es[k];
    }
  }

  /** The header of the Timesheet sheet: name in D7, "Month Year" in D8, carryover in J8. */
  function HeaderWrites(name: string, monthYear: string, carryover: Option<CellValue>): seq<Write> {
    [Write(7, 4, Some(TextValue(name))), Write(8, 4, Some(TextValue(monthYear))), Write(8, 10, carryover)]
  }

  /**
   * The exported Timesheet sheet, row by row: the k-th record in date order
   * fills row 12 + k with the cells RowCells gives it, and every other cell
   * of that row keeps the template's value.
   */
  lemma ExportedRow(template: Sheet, header: seq<Write>, es: seq<Dated>, locale: Locale, k: int, c: int)
    requires ValidLocale(locale) && AllValid(es) && RowsLayout(es, FirstRecordRow, locale).Ok?
    requires forall i :: 0 <= i < |header| ==> header[i].row < FirstRecordRow
    requires 0 <= k < |es|
    ensures Renderable(es[k])
    ensures Cell(ApplyWrites(template, header + RowsLayout(es, FirstRecordRow, locale).value), FirstRecordRow + k, c)
      == if c in RowCells(es[k], locale) then Some(RowCells(es[k], locale)[c]) else Cell(template, FirstRecordRow + k, c)
  {
    var rows := RowsLayout(es, FirstRecordRow, locale).value;
    var row := FirstRecordRow + k;
    RowsLayoutCell(es, FirstRecordRow, locale, k, c);
    RecordWritesCell(es[k], row, locale, row, c);
    LastWriteAppend(header, rows, row, c);
    HeaderUntouched(header, row, c);
    ApplyWritesCell(template, header + rows, row, c);
  }

  lemma {:induction false} HeaderUntouched(header: seq<Write>, row: int, c: int)
    requires forall i :: 0 <= i < |header| ==> header[i].row < row
    ensures LastWrite(header, row, c) == None
  {
    if header != [] {
      HeaderUntouched(header[..|header| - 1], row, c);
    }
  }

  /**
   * The layout rule for one record row: weekday name in column 2 and the
   * date in column 3; a special record gets 8.00 in column 9, its comment in
   * column 12 and nothing written in columns 4 to 7; any other record gets
   * its four times in columns 4 to 7 and its comment in column 11.
   */
  lemma RowLayoutRule(e: Dated, locale: Locale)
    requires ValidLocale(locale) && ValidDate(e.day) && Renderable(e)
    ensures var cells := RowCells(e, locale);
      && cells[2] == TextValue(locale.weekdayNames[Weekday(Ordinal(e.day))])
      && cells[3] == DateValue(e.day)
      && (IsSpecial(e.record) ==>
            && cells.Keys == {2, 3, 9, 12}
            && cells[9] == Hundredths(800) && cells[12] == TextValue(e.record.comment))
      && (!IsSpecial(e.record) ==>
            && cells.Keys == {2, 3, 4, 5, 6, 7, 11}
            && ParseTime(e.record.startDay) == Some(cells[4].t) && ParseTime(e.record.endDay) == Some(cells[5].t)
            && ParseTime(e.record.startBreak) == Some(cells[6].t) && ParseTime(e.record.endBreak) == Some(cells[7].t)
            && cells[11] == TextValue(e.record.comment))
  {
    ParseTimesFields(e.record);
  }

  /**
   * `extract_carryover_hours`, given the previous export if its file exists:
   * 0 when it does not; otherwise the Timesheet cell whose row and column
   * the Logging sheet holds in B2 and B3 (an empty cell reads as None).
   */
  function ExtractCarryoverHours(previous: Option<Workbook>): (r: Result<Option<CellValue>, ExportError>)
    ensures previous.None? ==> r == Ok(Some(IntValue(0)))
    ensures r.Err? ==> r.error == MissingSheet || r.error == BadCarryoverCell
    ensures previous.Some? ==>
      var wb := previous.value;
      && (r == Err(MissingSheet) <==> "Logging" !in wb || "Timesheet" !in wb)
      && (r.Ok? <==>
         && "Logging" in wb && "Timesheet" in wb
         && Cell(wb["Logging"], 2, 2).Some? && Cell(wb["Logging"], 2, 2).value.IntValue? && Cell(wb["Logging"], 2, 2).value.i >= 1
         && Cell(wb["Logging"], 3, 2).Some? && Cell(wb["Logging"], 3, 2).value.IntValue? && Cell(wb["Logging"], 3, 2).value.i >= 1)
      && (r.Ok? ==> r.value == Cell(wb["Timesheet"], Cell(wb["Logging"], 2, 2).value.i, Cell(wb["Logging"], 3, 2).value.i))
  {
    match previous
    case None => Ok(Some(IntValue(0)))
    case Some(wb) =>
      // both sheets are looked up before `cell` checks the row and column
      if "Logging" !in wb || "Timesheet" !in wb then Err(MissingSheet)
      else
        match (Cell(wb["Logging"], 2, 2), Cell(wb["Logging"], 3, 2))
        case (Some(IntValue(row)), Some(IntValue(col))) =>
          if row < 1 || col < 1 then Err(BadCarryoverCell)
          else Ok(Cell(wb["Timesheet"], row, col))
        case _ => Err(BadCarryoverCell)
  }

  /**
   * The export the carryover is read from: the month before, found by
   * stepping back one day from the first of the month, but with the year of
   * `date` itself, so January looks up December of the same year. None where
   * that step overflows (January of year 1).
   */
  function PrevExportKey(date: Date): (r: Option<MonthKey>)
    requires ValidDate(date)
    ensures r.None? <==> date.year == MinYear && date.month == 1
    ensures r.Some? ==> r.value == MonthKey(date.year, if date.month == 1 then 12 else date.month - 1)
  {
    match PrevDay(Date(date.year, date.month, 1))
    case None => None
    case Some(p) => Some(MonthKey(date.year, p.month))
  }

  /**
   * `total_days`: the day before the first of the following month, where the
   * following month of December is January of the same year. It is the
   * length of the month; None where the step overflows (December of year 1).
   */
  function MonthLength(date: Date): (r: Option<int>)
    requires ValidDate(date)
    ensures r.None? <==> date.year == MinYear && date.month == 12
    ensures r.Some? ==> r.value == DaysInMonth(date.year, date.month)
  {
    match PrevDay(Date(date.year, date.month % 12 + 1, 1))
    case None => None
    case Some(p) => Some(p.day)
  }

  /** `"{} {}".format(date.strftime("%B"), date.year)`. */
  function MonthYearText(locale: Locale, date: Date): (r: string)
    requires ValidLocale(locale) && ValidDate(date)
    ensures var name := locale.monthNames[date.month - 1];
      && |r| > |name| + 1 && r[..|name|] == name && r[|name|] == ' '
      && AllDigits(r[|name| + 1..]) && Value(r[|name| + 1..]) == date.year
  {
    locale.monthNames[date.month - 1] + " " + NatToString(date.year)
  }
}
