/**
 * `Timesheet.netto_workdays`: the number of working days in an inclusive
 * range of days, computed from whole weeks plus a correction for the last,
 * shortened week, minus the holidays that fall on working days. Days are
 * ordinals (see Calendar), so `end_date + timedelta(d)` is `endDate + d`.
 */
module Workdays {
  import opened Wrappers
  import opened Calendar

  /** Weekend days netto_workdays counts correctly with: distinct weekday numbers 0 (Monday) to 6 (Sunday). */
  predicate ValidWeekend(weekendDays: seq<int>) {
    && (forall k :: 0 <= k < |weekendDays| ==> 0 <= weekendDays[k] < 7)
    && (forall i, j :: 0 <= i < j < |weekendDays| ==> weekendDays[i] != weekendDays[j])
  }

  predicate NoDuplicates(s: seq<int>) {
    forall i, j :: 0 <= i < j < |s| ==> s[i] != s[j]
  }

  /**
   * The brute-force count: days of [first, last] that are not on a weekend
   * day and are not holidays.
   */
  function CountDays(first: int, last: int, weekendDays: seq<int>, holidays: seq<int>): nat
    decreases last - first
  {
    if last < first then 0
    else
      var here := if Weekday(last) !in weekendDays && last !in holidays then 1 else 0;
      CountDays(first, last - 1, weekendDays, holidays) + here
  }

  /** Days of [first, last] that are not on a weekend day. */
  function WorkdaysIn(first: int, last: int, weekendDays: seq<int>): nat {
    CountDays(first, last, weekendDays, [])
  }

  /** `[x for x in holidays if x.weekday() not in weekend_days]`. */
  function DropWeekendDays(holidays: seq<int>, weekendDays: seq<int>): (r: seq<int>)
    ensures |r| <= |holidays|
    ensures forall k :: 0 <= k < |r| ==> r[k] in holidays && Weekday(r[k]) !in weekendDays
  {
    if holidays == [] then []
    else
      var init := DropWeekendDays(holidays[..|holidays| - 1], weekendDays);
      var h := holidays[|holidays| - 1];
      if Weekday(h) !in weekendDays then init + [h] else init
  }

  /** How many entries of `days` (with repetitions) lie in [first, last]. */
  function CountInRange(days: seq<int>, first: int, last: int): nat {
    if days == [] then 0
    else
      var here := if first <= days[|days| - 1] <= last then 1 else 0;
      CountInRange(days[..|days| - 1], first, last) + here
  }

  /** The holidays netto_workdays subtracts: those on working days inside the range. */
  function HolidaysIn(holidays: seq<int>, first: int, last: int, weekendDays: seq<int>): nat {
    CountInRange(DropWeekendDays(holidays, weekendDays), first, last)
  }

  /**
   * The shortened-week loop of netto_workdays looks at `end_date + timedelta(d)`
   * for d from 1 to 7 - extra_days; it steps past 31 December 9999, where
   * `datetime` raises OverflowError, exactly when this holds.
   */
  predicate StepsPastLastDay(startDate: int, endDate: int) {
    endDate + 7 - (endDate - startDate + 1) % 7 > LastOrdinal
  }

  /** None where netto_workdays raises OverflowError. */
  method NettoWorkdays(startDate: int, endDate: int, holidays: seq<int>, weekendDays: seq<int>)
    returns (numWorkdays: Option<int>)
    ensures numWorkdays.None? <==> StepsPastLastDay(startDate, endDate)
    ensures numWorkdays.Some? && ValidWeekend(weekendDays) && startDate <= endDate + 1 ==>
      numWorkdays.value == WorkdaysIn(startDate, endDate, weekendDays) - HolidaysIn(holidays, startDate, endDate, weekendDays)
    ensures numWorkdays.Some? && ValidWeekend(weekendDays) && startDate <= endDate + 1 && NoDuplicates(holidays) ==>
      numWorkdays.value == CountDays(startDate, endDate, weekendDays, holidays)
  {
    var deltaDays := endDate - startDate + 1;
    var fullWeeks, extraDays := deltaDays / 7, deltaDays % 7;
    var perWeek := 7 - |weekendDays|;
    var tail := ShortenedWeek(endDate, extraDays, weekendDays);
    if tail.None? {
      return None;
    }
    var workdayHolidays := DropWeekendDays(holidays, weekendDays);
    var inRange := CountHolidays(workdayHolidays, startDate, endDate);
    numWorkdays := Some((fullWeeks + 1) * perWeek - tail.value - inRange);
    if ValidWeekend(weekendDays) && startDate <= endDate + 1 {
      RoundedUpWeeks(startDate, endDate, weekendDays);
      if NoDuplicates(holidays) {
        HolidayParity(startDate, endDate, weekendDays, holidays);
      }
    }
  }

  /**
   * The shortened-week loop of netto_workdays: the working days among the
   * 7 - extra_days days after the range, which the rounded-up week count
   * included; None where a step passes 31 December 9999.
   */
  method ShortenedWeek(endDate: int, extraDays: int, weekendDays: seq<int>) returns (r: Option<int>)
    requires 0 <= extraDays < 7
    ensures r.None? <==> endDate + 7 - extraDays > LastOrdinal
    ensures r.Some? ==> r.value == WorkdaysIn(endDate + 1, endDate + 7 - extraDays, weekendDays)
  {
    var count := 0;
    var d := 1;
    while d < 8 - extraDays
      invariant 1 <= d <= 8 - extraDays
      invariant endDate + d - 1 <= LastOrdinal || d == 1
      invariant count == WorkdaysIn(endDate + 1, endDate + d - 1, weekendDays)
    {
      if endDate + d > LastOrdinal {
        return None;
      }
      if Weekday(endDate + d) !in weekendDays {
        count := count + 1;
      }
      d := d + 1;
    }
    return Some(count);
  }

  /** The holiday loop of netto_workdays: how many of the holidays lie in the range. */
  method CountHolidays(workdayHolidays: seq<int>, startDate: int, endDate: int) returns (n: int)
    ensures n == CountInRange(workdayHolidays, startDate, endDate)
  {
    n := 0;
    for i := 0 to |workdayHolidays|
      invariant n == CountInRange(workdayHolidays[..i], startDate, endDate)
    {
      assert workdayHolidays[..i + 1][..i] == workdayHolidays[..i];
      if startDate <= workdayHolidays[i] <= endDate {
        n := n + 1;
      }
    }
    assert workdayHolidays[..|workdayHolidays|] == workdayHolidays;
  }

  /**
   * The week count rounded up, less the working days of the shortened week
   * after the range, is the working-day count of the range.
   */
  lemma RoundedUpWeeks(startDate: int, endDate: int, weekendDays: seq<int>)
    requires ValidWeekend(weekendDays) && startDate <= endDate + 1
    ensures var deltaDays := endDate - startDate + 1;
      (deltaDays / 7 + 1) * (7 - |weekendDays|) - WorkdaysIn(endDate + 1, endDate + 7 - deltaDays % 7, weekendDays)
        == WorkdaysIn(startDate, endDate, weekendDays)
  {
    var deltaDays := endDate - startDate + 1;
    var fullWeeks, extraDays := deltaDays / 7, deltaDays % 7;
    var last := endDate + 7 - extraDays;
    assert last - startDate + 1 == 7 * (fullWeeks + 1);
    WholeWeeks(startDate, fullWeeks + 1, weekendDays);
    SplitRange(startDate, endDate, last, weekendDays, []);
  }

  /** Counting from the left end gives the same as counting from the right end. */
  lemma {:induction false} PeelFirst(first: int, last: int, weekendDays: seq<int>, holidays: seq<int>)
    requires first <= last
    ensures CountDays(first, last, weekendDays, holidays)
      == (if Weekday(first) !in weekendDays && first !in holidays then 1 else 0)
         + CountDays(first + 1, last, weekendDays, holidays)
    decreases last - first
  {
    if first < last {
      PeelFirst(first, last - 1, weekendDays, holidays);
    }
  }

  /** A range splits into two adjacent ranges. */
  lemma {:induction false} SplitRange(first: int, mid: int, last: int, weekendDays: seq<int>, holidays: seq<int>)
    requires first - 1 <= mid <= last
    ensures CountDays(first, last, weekendDays, holidays)
      == CountDays(first, mid, weekendDays, holidays) + CountDays(mid + 1, last, weekendDays, holidays)
    decreases last - mid
  {
    if mid < last {
      SplitRange(first, mid, last - 1, weekendDays, holidays);
    }
  }

  /** Moving a seven-day window one day on swaps a day for one with the same weekday. */
  lemma WeekStep(first: int, weekendDays: seq<int>)
    ensures WorkdaysIn(first + 1, first + 7, weekendDays) == WorkdaysIn(first, first + 6, weekendDays)
  {
    PeelFirst(first, first + 6, weekendDays, []);
    assert Weekday(first + 7) == Weekday(first);
  }

  /** Any seven consecutive days hold as many working days as days 0 to 6. */
  lemma {:induction false} WeekShift(first: int, weekendDays: seq<int>)
    ensures WorkdaysIn(first, first + 6, weekendDays) == WorkdaysIn(0, 6, weekendDays)
    decreases if first < 0 then -first else first
  {
    if first > 0 {
      WeekShift(first - 1, weekendDays);
      WeekStep(first - 1, weekendDays);
    } else if first < 0 {
      WeekShift(first + 1, weekendDays);
      WeekStep(first, weekendDays);
    }
  }

  /** Weekday numbers in [0, upTo) that are not weekend days. */
  function WorkingWeekdays(upTo: int, weekendDays: seq<int>): nat
    decreases upTo
  {
    if upTo <= 0 then 0
    else WorkingWeekdays(upTo - 1, weekendDays) + (if upTo - 1 !in weekendDays then 1 else 0)
  }

  lemma {:induction false} WorkingWeekdaysRemove(upTo: int, weekendDays: seq<int>, x: int)
    ensures WorkingWeekdays(upTo, weekendDays + [x])
      == WorkingWeekdays(upTo, weekendDays) - (if 0 <= x < upTo && x !in weekendDays then 1 else 0)
    decreases upTo
  {
    if upTo > 0 {
      WorkingWeekdaysRemove(upTo - 1, weekendDays, x);
    }
  }

  /** A week has 7 - |weekendDays| working days. */
  lemma {:induction false} WeekHasWorkdays(weekendDays: seq<int>)
    requires ValidWeekend(weekendDays)
    ensures WorkingWeekdays(7, weekendDays) == 7 - |weekendDays|
  {
    if weekendDays != [] {
      var init := weekendDays[..|weekendDays| - 1];
      var x := weekendDays[|weekendDays| - 1];
      assert weekendDays == init + [x];
      assert ValidWeekend(init);
      WeekHasWorkdays(init);
      WorkingWeekdaysRemove(7, init, x);
      assert x !in init;
    }
  }

  /** Any seven consecutive days hold 7 - |weekendDays| working days. */
  lemma SevenDays(first: int, weekendDays: seq<int>)
    requires ValidWeekend(weekendDays)
    ensures WorkdaysIn(first, first + 6, weekendDays) == 7 - |weekendDays|
  {
    WeekShift(first, weekendDays);
    WeekHasWorkdays(weekendDays);
    var W := weekendDays;
    assert WorkingWeekdays(3, W) == (if 0 !in W then 1 else 0) + (if 1 !in W then 1 else 0) + (if 2 !in W then 1 else 0);
    assert WorkingWeekdays(6, W) == WorkingWeekdays(3, W) + (if 3 !in W then 1 else 0) + (if 4 !in W then 1 else 0) + (if 5 !in W then 1 else 0);
    assert CountDays(0, 2, W, []) == (if 6 !in W then 1 else 0) + (if 0 !in W then 1 else 0) + (if 1 !in W then 1 else 0);
    assert CountDays(0, 5, W, []) == CountDays(0, 2, W, []) + (if 2 !in W then 1 else 0) + (if 3 !in W then 1 else 0) + (if 4 !in W then 1 else 0);
    assert CountDays(0, 6, W, []) == CountDays(0, 5, W, []) + (if 5 !in W then 1 else 0);
  }

  /** `weeks` whole weeks starting at any day hold `weeks * (7 - |weekendDays|)` working days. */
  lemma {:induction false} WholeWeeks(first: int, weeks: nat, weekendDays: seq<int>)
    requires ValidWeekend(weekendDays)
    ensures WorkdaysIn(first, first + 7 * weeks - 1, weekendDays) == weeks * (7 - |weekendDays|)
  {
    if weeks > 0 {
      WholeWeeks(first, weeks - 1, weekendDays);
      var mid := first + 7 * (weeks - 1) - 1;
      SplitRange(first, mid, first + 7 * weeks - 1, weekendDays, []);
      SevenDays(mid + 1, weekendDays);
      assert weeks * (7 - |weekendDays|) == (weeks - 1) * (7 - |weekendDays|) + (7 - |weekendDays|);
    }
  }

  /** Adding one holiday removes at most that one day from the brute-force count. */
  lemma {:induction false} AddHoliday(first: int, last: int, weekendDays: seq<int>, holidays: seq<int>, h: int)
    ensures CountDays(first, last, weekendDays, holidays + [h])
      == CountDays(first, last, weekendDays, holidays)
         - (if first <= h <= last && Weekday(h) !in weekendDays && h !in holidays then 1 else 0)
    decreases last - first
  {
    if first <= last {
      AddHoliday(first, last - 1, weekendDays, holidays, h);
    }
  }

  /**
   * Subtracting the holidays that fall on working days inside the range from
   * the working-day count is the brute-force count, when no holiday is listed twice.
   */
  lemma {:induction false} HolidayParity(first: int, last: int, weekendDays: seq<int>, holidays: seq<int>)
    requires NoDuplicates(holidays)
    ensures CountDays(first, last, weekendDays, holidays)
      == WorkdaysIn(first, last, weekendDays) - HolidaysIn(holidays, first, last, weekendDays)
  {
    if holidays != [] {
      var init := holidays[..|holidays| - 1];
      var h := holidays[|holidays| - 1];
      assert holidays == init + [h];
      HolidayParity(first, last, weekendDays, init);
      AddHoliday(first, last, weekendDays, init, h);
      assert h !in init;
    }
  }

  /** A range counts at most one day per day it spans. */
  lemma {:induction false} CountDaysAtMost(first: int, last: int, weekendDays: seq<int>, holidays: seq<int>)
    ensures CountDays(first, last, weekendDays, holidays) <= if last < first then 0 else last - first + 1
    decreases last - first
  {
    if first <= last {
      CountDaysAtMost(first, last - 1, weekendDays, holidays);
    }
  }

  /** A month of 28 to 31 days starting anywhere holds 20 to 23 days from Monday to Friday. */
  lemma MonthHasWorkdays(first: int, total: int)
    requires 28 <= total <= 31
    ensures 20 <= WorkdaysIn(first, first + total - 1, [5, 6]) <= 23
  {
    WholeWeeks(first, 4, [5, 6]);
    SplitRange(first, first + 27, first + total - 1, [5, 6], []);
    CountDaysAtMost(first + 28, first + total - 1, [5, 6], []);
  }
}
