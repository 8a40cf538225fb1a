/**
 * The record kept for one day by `azubi_timesheet/timesheet.py`: a JSON
 * object whose fields are all strings. A record written by this version has
 * all seven fields; a record left by the earlier version of the tool lacks
 * `special`, hence the Option.
 */
module Records {
  import opened Wrappers
  import opened Calendar
  import opened Formats

  datatype Record = Record(
    date: string,
    startDay: string,
    endDay: string,
    startBreak: string,
    endBreak: string,
    comment: string,
    special: Option<string>)

  /** A (year, month) pair: one record file and one export per month. */
  datatype MonthKey = MonthKey(year: int, month: int)

  function MonthOf(d: Date): MonthKey {
    MonthKey(d.year, d.month)
  }

  /** Python's `str(b)` for a bool. */
  function BoolText(b: bool): string {
    if b then "True" else "False"
  }

  /**
   * `create_record`: the date as DD.MM.YYYY, the four times as HH:MM, the
   * comment unchanged and the flag as "True" or "False". Reading the fields
   * back with `%d.%m.%Y` and `%H:%M` gives the values the record was made from.
   */
  function CreateRecord(date: Date, workHours: (Time, Time), breakTime: (Time, Time), comment: string, special: bool)
    : (r: Record)
    requires ValidDate(date)
    requires ValidTime(workHours.0) && ValidTime(workHours.1) && ValidTime(breakTime.0) && ValidTime(breakTime.1)
    ensures ParseDate(r.date) == Some(date)
    ensures ParseTime(r.startDay) == Some(workHours.0) && ParseTime(r.endDay) == Some(workHours.1)
    ensures ParseTime(r.startBreak) == Some(breakTime.0) && ParseTime(r.endBreak) == Some(breakTime.1)
    ensures r.comment == comment
    ensures r.special.Some? && (r.special.value == "True" <==> special) && (r.special.value == "False" <==> !special)
  {
    ParseFormatDate(date);
    ParseFormatTime(workHours.0);
    ParseFormatTime(workHours.1);
    ParseFormatTime(breakTime.0);
    ParseFormatTime(breakTime.1);
    Record(FormatDate(date), FormatTime(workHours.0), FormatTime(workHours.1),
           FormatTime(breakTime.0), FormatTime(breakTime.1), comment, Some(BoolText(special)))
  }

  /** The loop of `record_exists`: is there a record whose date string is `key`? */
  function HasDate(records: seq<Record>, key: string): (b: bool)
    ensures b <==> exists i :: 0 <= i < |records| && records[i].date == key
  {
    if records == [] then false
    else records[0].date == key || HasDate(records[1..], key)
  }

  /** Position of the first record whose date string is `key`. */
  function FirstWithDate(records: seq<Record>, key: string): (r: Option<nat>)
    ensures r.None? <==> !HasDate(records, key)
    ensures r.Some? ==> r.value < |records| && records[r.value].date == key
    ensures r.Some? ==> forall j :: 0 <= j < r.value ==> records[j].date != key
  {
    if records == [] then None
    else if records[0].date == key then Some(0)
    else match FirstWithDate(records[1..], key)
      case None => None
      case Some(i) => Some(i + 1)
  }

  /** At most one record per date string. */
  predicate UniqueDates(records: seq<Record>) {
    forall i, j :: 0 <= i < j < |records| ==> records[i].date != records[j].date
  }

  /** The index a left-to-right scan stops at is the one FirstWithDate names. */
  lemma {:induction false} FirstWithDateAt(records: seq<Record>, key: string, i: nat)
    requires i < |records| && records[i].date == key
    requires forall j :: 0 <= j < i ==> records[j].date != key
    ensures FirstWithDate(records, key) == Some(i)
  {
    if i > 0 {
      FirstWithDateAt(records[1..], key, i - 1);
    }
  }

  /** With unique dates, the record having a date is the first one having it. */
  lemma UniqueDateIsFirst(records: seq<Record>, key: string, i: nat)
    requires UniqueDates(records)
    requires i < |records| && records[i].date == key
    ensures FirstWithDate(records, key) == Some(i)
  {
    FirstWithDateAt(records, key, i);
  }

  /** `list.remove(x)`: the list without the first element equal to `x`. */
  function RemoveFirst<T(==)>(s: seq<T>, x: T): (r: seq<T>)
    requires x in s
    ensures |r| == |s| - 1
    ensures multiset(r) + multiset{x} == multiset(s)
  {
    if s[0] == x then
      assert s == [s[0]] + s[1..];
      s[1..]
    else
      assert s == [s[0]] + s[1..];
      [s[0]] + RemoveFirst(s[1..], x)
  }

  /** Removing the first element equal to `x` cuts the list at the first position holding `x`. */
  lemma {:induction false} RemoveFirstAt<T>(s: seq<T>, x: T, i: nat)
    requires i < |s| && s[i] == x
    requires forall j :: 0 <= j < i ==> s[j] != x
    ensures RemoveFirst(s, x) == s[..i] + s[i + 1..]
  {
    if i > 0 {
      var tail := s[1..];
      RemoveFirstAt(tail, x, i - 1);
      assert tail[..i - 1] + tail[i..] == s[1..i] + s[i + 1..];
      assert s[..i] == [s[0]] + s[1..i];
    }
  }
}
