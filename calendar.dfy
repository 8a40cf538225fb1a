/**
 * Proleptic Gregorian calendar dates and clock times as used through Python's
 * `datetime` module: the day numbering of `date.toordinal()` (1 January of
 * year 1 is day 1), `date.weekday()` (Monday is 0) and the day before a date,
 * which is what subtracting `timedelta(days=1)` computes.
 */
module Calendar {
  import opened Wrappers

  const MinYear := 1
  const MaxYear := 9999

  datatype Date = Date(year: int, month: int, day: int)

  datatype Time = Time(hour: int, minute: int)

  predicate IsLeap(y: int) {
    y % 4 == 0 && (y % 100 != 0 || y % 400 == 0)
  }

  function DaysInMonth(y: int, m: int): (n: int)
    requires 1 <= m <= 12
    ensures 28 <= n <= 31
  {
    if m == 2 then (if IsLeap(y) then 29 else 28)
    else if m == 4 || m == 6 || m == 9 || m == 11 then 30
    else 31
  }

  /** What `datetime.date(year, month, day)` accepts without raising ValueError. */
  predicate ValidDate(d: Date) {
    && MinYear <= d.year <= MaxYear
    && 1 <= d.month <= 12
    && 1 <= d.day <= DaysInMonth(d.year, d.month)
  }

  /** What `datetime.time(hour, minute)` accepts. */
  predicate ValidTime(t: Time) {
    0 <= t.hour < 24 && 0 <= t.minute < 60
  }

  function DaysInYear(y: int): int {
    if IsLeap(y) then 366 else 365
  }

  /** The days of the years before `y`, one year at a time. */
  function DaysBeforeYear(y: int): int
    requires y >= 1
  {
    if y == 1 then 0 else DaysBeforeYear(y - 1) + DaysInYear(y - 1)
  }

  function DaysBeforeMonth(y: int, m: int): int
    requires 1 <= m <= 12
  {
    if m == 1 then 0 else DaysBeforeMonth(y, m - 1) + DaysInMonth(y, m - 1)
  }

  /** `date.toordinal()`. */
  function Ordinal(d: Date): int
    requires d.year >= 1 && 1 <= d.month <= 12
  {
    DaysBeforeYear(d.year) + DaysBeforeMonth(d.year, d.month) + d.day
  }

  /** `weekday()` of the date with the given ordinal: Monday is 0, Sunday is 6. */
  function Weekday(ordinal: int): (w: int)
    ensures 0 <= w < 7
  {
    (ordinal + 6) % 7
  }

  /** The date one day earlier; None where `datetime` overflows below 1 January of year 1. */
  function PrevDay(d: Date): (p: Option<Date>)
    requires ValidDate(d)
  {
    if d.day > 1 then Some(Date(d.year, d.month, d.day - 1))
    else if d.month > 1 then Some(Date(d.year, d.month - 1, DaysInMonth(d.year, d.month - 1)))
    else if d.year > MinYear then Some(Date(d.year - 1, 12, 31))
    else None
  }

  lemma MonthsMakeYear(y: int)
    ensures DaysBeforeMonth(y, 12) + DaysInMonth(y, 12) == DaysInYear(y)
  {
    var leap := if IsLeap(y) then 1 else 0;
    assert DaysBeforeMonth(y, 2) == 31;
    assert DaysBeforeMonth(y, 3) == 59 + leap;
    assert DaysBeforeMonth(y, 4) == 90 + leap;
    assert DaysBeforeMonth(y, 5) == 120 + leap;
    assert DaysBeforeMonth(y, 6) == 151 + leap;
    assert DaysBeforeMonth(y, 7) == 181 + leap;
    assert DaysBeforeMonth(y, 8) == 212 + leap;
    assert DaysBeforeMonth(y, 9) == 243 + leap;
    assert DaysBeforeMonth(y, 10) == 273 + leap;
    assert DaysBeforeMonth(y, 11) == 304 + leap;
    assert DaysBeforeMonth(y, 12) == 334 + leap;
  }

  /**
   * Stepping back one day (`d - timedelta(days=1)`) gives a valid date whose
   * ordinal is one less; only 1 January of year 1 has no predecessor.
   */
  lemma {:induction false} PrevDayOrdinal(d: Date)
    requires ValidDate(d)
    ensures PrevDay(d).None? <==> d == Date(MinYear, 1, 1)
    ensures PrevDay(d).Some? ==> ValidDate(PrevDay(d).value) && Ordinal(PrevDay(d).value) == Ordinal(d) - 1
  {
    if d.day > 1 {
      assert Ordinal(PrevDay(d).value) == Ordinal(d) - 1;
    } else if d.month > 1 {
      MonthBefore(d.year, d.month);
    } else if d.year > MinYear {
      NewYearsEve(d.year);
    }
  }

  /** The last day of the month before is the day before the first of the month. */
  lemma MonthBefore(y: int, m: int)
    requires MinYear <= y && 1 < m <= 12
    ensures Ordinal(Date(y, m - 1, DaysInMonth(y, m - 1))) == Ordinal(Date(y, m, 1)) - 1
  {
  }

  /** 31 December of the year before is the day before 1 January. */
  lemma NewYearsEve(y: int)
    requires MinYear < y
    ensures Ordinal(Date(y - 1, 12, 31)) == Ordinal(Date(y, 1, 1)) - 1
  {
    MonthsMakeYear(y - 1);
  }

  /** The ordinal of 31 December 9999, the last day a `datetime.date` can hold. */
  const LastOrdinal := Ordinal(Date(MaxYear, 12, 31))

  lemma {:induction false} DaysBeforeYearGrows(a: int, b: int)
    requires 1 <= a <= b
    ensures DaysBeforeYear(a) <= DaysBeforeYear(b)
    decreases b - a
  {
    if a < b {
      DaysBeforeYearGrows(a, b - 1);
    }
  }

  lemma {:induction false} DaysBeforeMonthGrows(y: int, m: int, n: int)
    requires 1 <= m <= n <= 12
    ensures DaysBeforeMonth(y, m) <= DaysBeforeMonth(y, n)
    decreases n - m
  {
    if m < n {
      DaysBeforeMonthGrows(y, m, n - 1);
    }
  }

  /**
   * Every month but December 9999 ends at least a week before the last day
   * `datetime` can hold.
   */
  lemma MonthEndRoom(y: int, m: int)
    requires MinYear <= y <= MaxYear && 1 <= m <= 12 && !(y == MaxYear && m == 12)
    ensures Ordinal(Date(y, m, DaysInMonth(y, m))) + 7 <= LastOrdinal
  {
    MonthsMakeYear(MaxYear);
    assert DaysBeforeMonth(MaxYear, 12) == 334;
    if y < MaxYear {
      DaysBeforeMonthGrows(y, m, 12);
      MonthsMakeYear(y);
      DaysBeforeYearGrows(y + 1, MaxYear);
    } else {
      DaysBeforeMonthGrows(MaxYear, m + 1, 12);
    }
  }
}
