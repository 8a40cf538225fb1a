/**
 * The two text formats of a stored record: dates written and read with
 * `"%d.%m.%Y"` and times with `"%H:%M"`, as `strftime` renders them and as
 * `datetime.strptime` accepts them. `strptime` matches the whole text (left
 * over characters raise ValueError) and then lets `datetime` reject dates that
 * do not exist in the calendar.
 */
module Formats {
  import opened Wrappers
  import opened Text
  import opened Calendar

  /** `date.strftime("%d.%m.%Y")`. */
  function FormatDate(d: Date): (s: string)
    requires ValidDate(d)
    ensures |s| == 10 && s[2] == '.' && s[5] == '.'
  {
    Pad2(d.day) + "." + Pad2(d.month) + "." + Pad4(d.year)
  }

  /** `time.strftime("%H:%M")`. */
  function FormatTime(t: Time): (s: string)
    requires ValidTime(t)
    ensures |s| == 5 && s[2] == ':'
  {
    Pad2(t.hour) + ":" + Pad2(t.minute)
  }

  /** Texts matched by strptime's `%d`: two digits 01 to 31, one digit 1 to 9, or a blank and one digit 1 to 9. */
  predicate DayField(s: string) {
    || (|s| == 1 && IsDigit(s[0]) && s[0] != '0')
    || (|s| == 2 && AllDigits(s) && 1 <= Value(s) <= 31)
    || (|s| == 2 && s[0] == ' ' && IsDigit(s[1]) && s[1] != '0')
  }

  function DayValue(s: string): nat
    requires DayField(s)
  {
    if s[0] == ' ' then DigitValue(s[1]) else Value(s)
  }

  /** Texts matched by `%m`: two digits 01 to 12 or one digit 1 to 9. */
  predicate MonthField(s: string) {
    || (|s| == 1 && IsDigit(s[0]) && s[0] != '0')
    || (|s| == 2 && AllDigits(s) && 1 <= Value(s) <= 12)
  }

  /** Texts matched by `%Y`: exactly four digits. */
  predicate YearField(s: string) {
    |s| == 4 && AllDigits(s)
  }

  /** Texts matched by `%H`: two digits 00 to 23 or one digit. */
  predicate HourField(s: string) {
    (|s| == 1 && IsDigit(s[0])) || (|s| == 2 && AllDigits(s) && Value(s) <= 23)
  }

  /** Texts matched by `%M`: two digits 00 to 59 or one digit. */
  predicate MinuteField(s: string) {
    (|s| == 1 && IsDigit(s[0])) || (|s| == 2 && AllDigits(s) && Value(s) <= 59)
  }

  /**
   * `datetime.strptime(s, "%d.%m.%Y")`: None where it raises ValueError,
   * either because the text is not in the format or because the day does not
   * exist in that month and year.
   */
  function ParseDate(s: string): (r: Option<Date>)
    ensures r.Some? ==> ValidDate(r.value)
  {
    var parts := SplitOn(s, '.');
    if |parts| == 3 && DayField(parts[0]) && MonthField(parts[1]) && YearField(parts[2]) then
      var d := Date(Value(parts[2]), Value(parts[1]), DayValue(parts[0]));
      if ValidDate(d) then Some(d) else None
    else None
  }

  /**
   * `datetime.strptime(s, "%H:%M").time()`: None where it raises ValueError.
   * `%H` takes one or two digits, so the colon is the second or the third
   * character, and `%M` must take everything after it.
   */
  function ParseTime(s: string): (r: Option<Time>)
    ensures r.Some? ==> ValidTime(r.value)
  {
    var i := if |s| > 1 && s[1] == ':' then 1 else 2;
    if i < |s| && s[i] == ':' && HourField(s[..i]) && MinuteField(s[i + 1..]) then
      Some(Time(FieldValue(s[..i]), FieldValue(s[i + 1..])))
    else None
  }

  /** The number an `%H` or `%M` field stands for. */
  function FieldValue(s: string): (n: nat)
    requires (|s| == 1 && IsDigit(s[0])) || (|s| == 2 && AllDigits(s))
    ensures |s| == 1 ==> n < 10
    ensures |s| == 2 ==> n == Value(s)
  {
    if |s| == 1 then DigitValue(s[0]) else Value(s)
  }

  lemma DigitsHaveNoSeparator(s: string, c: char)
    requires AllDigits(s) && !IsDigit(c)
    ensures c !in s
  {
  }

  /** None of the date fields contains the dot that separates them. */
  lemma DateFieldsHaveNoDot(day: string, month: string, year: string)
    requires DayField(day) && MonthField(month) && YearField(year)
    ensures '.' !in day && '.' !in month && '.' !in year
  {
    if day[0] != ' ' {
      DigitsHaveNoSeparator(day, '.');
    } else {
      assert day == [day[0], day[1]];
    }
    DigitsHaveNoSeparator(month, '.');
    DigitsHaveNoSeparator(year, '.');
  }

  /**
   * Three fields joined by dots are read as that year, month and day when
   * the day exists in the calendar, and rejected when it does not.
   */
  lemma ParseDateFields(day: string, month: string, year: string)
    requires DayField(day) && MonthField(month) && YearField(year)
    ensures var d := Date(Value(year), Value(month), DayValue(day));
      ParseDate(day + "." + month + "." + year) == if ValidDate(d) then Some(d) else None
  {
    var parts := [day, month, year];
    DateFieldsHaveNoDot(day, month, year);
    assert Join(parts, '.') == day + "." + month + "." + year by {
      assert Join(parts[2..], '.') == parts[2];
      assert parts[1..][1..] == parts[2..];
    }
    SplitJoin(parts, '.');
  }

  /** A stored date reads back as the same calendar day. */
  lemma ParseFormatDate(d: Date)
    requires ValidDate(d)
    ensures ParseDate(FormatDate(d)) == Some(d)
  {
    var parts := [Pad2(d.day), Pad2(d.month), Pad4(d.year)];
    DigitsHaveNoSeparator(parts[0], '.');
    DigitsHaveNoSeparator(parts[1], '.');
    DigitsHaveNoSeparator(parts[2], '.');
    assert Join(parts, '.') == FormatDate(d) by {
      assert Join(parts[2..], '.') == parts[2];
      assert parts[1..][1..] == parts[2..];
    }
    SplitJoin(parts, '.');
  }

  /** A stored time reads back as the same time of day. */
  lemma ParseFormatTime(t: Time)
    requires ValidTime(t)
    ensures ParseTime(FormatTime(t)) == Some(t)
  {
    var s := FormatTime(t);
    assert s[..2] == Pad2(t.hour) && s[3..] == Pad2(t.minute);
  }

  /** Different valid days are written differently, so a formatted date identifies its day. */
  lemma FormatDateInjective(d1: Date, d2: Date)
    requires ValidDate(d1) && ValidDate(d2)
    ensures FormatDate(d1) == FormatDate(d2) <==> d1 == d2
  {
    if FormatDate(d1) == FormatDate(d2) {
      ParseFormatDate(d1);
      ParseFormatDate(d2);
    }
  }
}
