/**
 * `Timesheet` of the earlier `timesheet.py`: one JSON file holding every
 * record, loaded once into `records` when the object is made. The command
 * line arguments are fixed at construction; each operation works on the one
 * record they describe and rewrites the whole file after a change.
 *
 * The file is part of the state: `file` is None while it does not exist, and
 * otherwise the list of records it holds.
 */
module LegacyStore {
  import opened Wrappers
  import opened Calendar
  import opened Formats
  import opened Records
  import opened Store

  /** The parsed arguments the earlier tool hands to its timesheet. */
  datatype Entry = Entry(date: Date, workHours: (Time, Time), breakTime: (Time, Time), comment: string)

  predicate ValidEntry(e: Entry) {
    && ValidDate(e.date)
    && ValidTime(e.workHours.0) && ValidTime(e.workHours.1)
    && ValidTime(e.breakTime.0) && ValidTime(e.breakTime.1)
  }

  /**
   * `create_record` of the earlier tool: the date as DD.MM.YYYY, the four
   * times as HH:MM, the comment unchanged, and no `special` field at all.
   * Reading the fields back gives the arguments the record was made from.
   */
  function LegacyCreateRecord(e: Entry): (r: Record)
    requires ValidEntry(e)
    ensures ParseDate(r.date) == Some(e.date)
    ensures ParseTime(r.startDay) == Some(e.workHours.0) && ParseTime(r.endDay) == Some(e.workHours.1)
    ensures ParseTime(r.startBreak) == Some(e.breakTime.0) && ParseTime(r.endBreak) == Some(e.breakTime.1)
    ensures r.comment == e.comment && r.special.None?
  {
    ParseFormatDate(e.date);
    ParseFormatTime(e.workHours.0);
    ParseFormatTime(e.workHours.1);
    ParseFormatTime(e.breakTime.0);
    ParseFormatTime(e.breakTime.1);
    Record(FormatDate(e.date), FormatTime(e.workHours.0), FormatTime(e.workHours.1),
           FormatTime(e.breakTime.0), FormatTime(e.breakTime.1), e.comment, None)
  }

  /**
   * The list `replace_record` leaves, or None when no record has the date.
   * The first record with the date is kept when it equals `rec`; otherwise
   * `delete_record` removes it and `add_record` appends `rec`, which it
   * refuses when a second record with the date is still there.
   */
  function LegacyReplaced(records: seq<Record>, rec: Record): (r: Option<seq<Record>>)
    ensures r.None? <==> !HasDate(records, rec.date)
    ensures r.Some? ==> |records| - 1 <= |r.value| <= |records| && HasDate(r.value, rec.date)
  {
    match FirstWithDate(records, rec.date)
    case None => None
    case Some(i) =>
      if records[i] == rec then Some(records)
      else
        var rest := WithDeleted(records, rec.date).value;
        match WithAdded(rest, rec)
        case None => Some(rest)
        case Some(after) => Some(after)
  }

  /** The first record with the date already equal to the new one: the list is left as it is. */
  lemma ReplaceIdentical(records: seq<Record>, rec: Record, i: nat)
    requires i < |records| && records[i] == rec
    requires forall j :: 0 <= j < i ==> records[j].date != rec.date
    ensures LegacyReplaced(records, rec) == Some(records)
  {
    FirstWithDateAt(records, rec.date, i);
  }

  /**
   * With one record per date, a differing record is taken out of its place
   * and the new one appended at the end: the length stays, the position
   * moves, and dates stay unique.
   */
  lemma ReplaceMovesToEnd(records: seq<Record>, rec: Record, i: nat)
    requires UniqueDates(records)
    requires i < |records| && records[i].date == rec.date && records[i] != rec
    ensures LegacyReplaced(records, rec) == Some(records[..i] + records[i + 1..] + [rec])
    ensures |LegacyReplaced(records, rec).value| == |records|
    ensures UniqueDates(LegacyReplaced(records, rec).value)
  {
    UniqueDateIsFirst(records, rec.date, i);
    DeleteRemovesFirst(records, rec.date);
    var rest := records[..i] + records[i + 1..];
    CutUnique(records, i);
    AddAppends(rest, rec);
  }

  /**
   * With two records for the date, the first differing from the new one,
   * replacing only deletes: the second record still holds the date, so the
   * add that follows is refused and the list gets shorter.
   */
  lemma ReplaceDropsOnDuplicate(records: seq<Record>, rec: Record, i: nat, k: nat)
    requires i < k < |records| && records[i].date == rec.date && records[k].date == rec.date
    requires forall j :: 0 <= j < i ==> records[j].date != rec.date
    requires records[i] != rec
    ensures LegacyReplaced(records, rec) == Some(records[..i] + records[i + 1..])
    ensures |LegacyReplaced(records, rec).value| == |records| - 1
  {
    FirstWithDateAt(records, rec.date, i);
    DeleteRemovesFirst(records, rec.date);
    var rest := records[..i] + records[i + 1..];
    assert rest[k - 1] == records[k];
    AddAppends(rest, rec);
  }

  class LegacyTimesheet {
    const args: Entry
    var records: seq<Record>
    var file: Option<seq<Record>>

    /** After every operation the file holds exactly the list in memory. */
    predicate Valid()
      reads this
    {
      file == Some(records)
    }

    /**
     * `__init__` with `load_json_file`: a present file is read; a missing
     * one is created holding the empty list.
     */
    constructor (args: Entry, file: Option<seq<Record>>)
      requires ValidEntry(args)
      ensures Valid() && this.args == args
      ensures records == if file.Some? then file.value else []
    {
      this.args := args;
      if file.Some? {
        records := file.value;
        this.file := file;
      } else {
        records := [];
        this.file := Some([]);
      }
    }

    /** `record_exists`: some record has the date written DD.MM.YYYY. */
    method RecordExists(date: Date) returns (b: bool)
      requires ValidDate(date)
      ensures b <==> exists i :: 0 <= i < |records| && records[i].date == FormatDate(date)
    {
      var key := FormatDate(date);
      var i := 0;
      while i < |records|
        invariant 0 <= i <= |records|
        invariant forall j :: 0 <= j < i ==> records[j].date != key
      {
        if records[i].date == key {
          return true;
        }
        i := i + 1;
      }
      return false;
    }

    /** `add_record`: append the new record and save, unless its date is taken. */
    method AddRecord() returns (added: bool)
      requires Valid() && ValidEntry(args)
      modifies this
      ensures Valid()
      ensures match WithAdded(old(records), LegacyCreateRecord(args))
        case None => !added && records == old(records)
        case Some(after) => added && records == after
    {
      var taken := RecordExists(args.date);
      if !taken {
        var record := LegacyCreateRecord(args);
        records := records + [record];
        file := Some(records);
        return true;
      }
      return false;
    }

    /** `delete_record`: remove the first record with the date and save, even when the list is left empty. */
    method DeleteRecord() returns (deleted: bool)
      requires Valid() && ValidEntry(args)
      modifies this
      ensures Valid()
      ensures match WithDeleted(old(records), FormatDate(args.date))
        case None => !deleted && records == old(records)
        case Some(after) => deleted && records == after
    {
      var found := ScanForDate(records, FormatDate(args.date));
      if found.Some? {
        records := RemoveFirst(records, records[found.value]);
        file := Some(records);
        return true;
      }
      return false;
    }

    /**
     * `replace_record`: when a record has the date, swap it for the new one
     * unless they are equal, and answer True either way.
     */
    method ReplaceRecord() returns (replaced: bool)
      requires Valid() && ValidEntry(args)
      modifies this
      ensures Valid()
      ensures replaced <==> HasDate(old(records), FormatDate(args.date))
      ensures replaced ==> records == LegacyReplaced(old(records), LegacyCreateRecord(args)).value
      ensures !replaced ==> records == old(records)
    {
      var key := FormatDate(args.date);
      var found := ScanForDate(records, key);
      if found.None? {
        return false;
      }
      var record := LegacyCreateRecord(args);
      if records[found.value] != record {
        var deleted := DeleteRecord();
        var added := AddRecord();
      }
      return true;
    }
  }
}
