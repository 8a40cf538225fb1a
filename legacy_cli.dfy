/**
 * The validators of the earlier command-line script `azubi-timesheet.py`.
 * They use `re.match` with explicit patterns instead of strptime: a match
 * only has to start at the beginning of the text (whatever follows it is
 * ignored), a non-match is a failed attempt, and a match that does not make a
 * date or a time raises past the retry loop.
 *
 * Each pattern is modelled by the ways it can match, tried in the order the
 * regular-expression engine backtracks through them; the lemmas show that at
 * most one of them can match a text, so the order does not change the groups.
 */
module LegacyCli {
  import opened Wrappers
  import opened Text
  import opened Calendar
  import opened Formats
  import opened Prompting

  /** `[\.,-]`. */
  predicate IsSeparator(c: char) {
    c == '.' || c == ',' || c == '-'
  }

  /**
   * The date pattern matching the start of `s` with a day of `d` digits and a
   * month of `m` digits: `[0-9]{d}`, a separator, `[0-9]{m}`, a separator and
   * `[0-9]{4}`.
   */
  predicate DateMatchAt(s: string, d: nat, m: nat) {
    && 1 <= d <= 2 && 1 <= m <= 2 && d + m + 6 <= |s|
    && AllDigits(s[..d]) && IsSeparator(s[d])
    && AllDigits(s[d + 1..d + 1 + m]) && IsSeparator(s[d + 1 + m])
    && AllDigits(s[d + m + 2..d + m + 6])
  }

  /** The `day`, `month` and `year` groups of a date match, as `int()` reads them. */
  datatype DateGroups = DateGroups(day: nat, month: nat, year: nat)

  function DateGroupsAt(s: string, d: nat, m: nat): DateGroups
    requires DateMatchAt(s, d, m)
  {
    DateGroups(Value(s[..d]), Value(s[d + 1..d + 1 + m]), Value(s[d + m + 2..d + m + 6]))
  }

  /** `re.match` of the date pattern: the greedy `{1,2}` tries two digits before one. */
  function MatchDate(s: string): Option<DateGroups> {
    if DateMatchAt(s, 2, 2) then Some(DateGroupsAt(s, 2, 2))
    else if DateMatchAt(s, 2, 1) then Some(DateGroupsAt(s, 2, 1))
    else if DateMatchAt(s, 1, 2) then Some(DateGroupsAt(s, 1, 2))
    else if DateMatchAt(s, 1, 1) then Some(DateGroupsAt(s, 1, 1))
    else None
  }

  /** A digit is never a separator, so the day and month lengths of a match are forced. */
  lemma DateMatchUnique(s: string, d1: nat, m1: nat, d2: nat, m2: nat)
    requires DateMatchAt(s, d1, m1) && DateMatchAt(s, d2, m2)
    ensures d1 == d2 && m1 == m2
  {
  }

  /** The text matches exactly when some day and month length fits, and the groups are that fit's. */
  lemma MatchDateSound(s: string, d: nat, m: nat)
    requires DateMatchAt(s, d, m)
    ensures MatchDate(s) == Some(DateGroupsAt(s, d, m))
  {
    if DateMatchAt(s, 2, 2) { DateMatchUnique(s, d, m, 2, 2); }
    else if DateMatchAt(s, 2, 1) { DateMatchUnique(s, d, m, 2, 1); }
    else if DateMatchAt(s, 1, 2) { DateMatchUnique(s, d, m, 1, 2); }
  }

  /** Which of the four ways matched. */
  lemma MatchDateShape(s: string) returns (d: nat, m: nat)
    requires MatchDate(s).Some?
    ensures DateMatchAt(s, d, m) && MatchDate(s) == Some(DateGroupsAt(s, d, m))
  {
    if DateMatchAt(s, 2, 2) { d, m := 2, 2; }
    else if DateMatchAt(s, 2, 1) { d, m := 2, 1; }
    else if DateMatchAt(s, 1, 2) { d, m := 1, 2; }
    else { d, m := 1, 1; }
  }

  /** `re.match` anchors at the start only: text after a match changes nothing. */
  lemma MatchDateIgnoresTail(s: string, tail: string)
    requires MatchDate(s).Some?
    ensures MatchDate(s + tail) == MatchDate(s)
  {
    var d, m := MatchDateShape(s);
    var t := s + tail;
    assert t[..d] == s[..d] && t[d + 1..d + 1 + m] == s[d + 1..d + 1 + m] && t[d + m + 2..d + m + 6] == s[d + m + 2..d + m + 6];
    assert DateMatchAt(t, d, m);
    MatchDateSound(t, d, m);
  }

  /** Where each piece of `a x b y c t` lies. */
  lemma FivePieces<T>(a: seq<T>, x: T, b: seq<T>, y: T, c: seq<T>, t: seq<T>)
    ensures var s := a + [x] + b + [y] + c + t;
      && s[..|a|] == a && s[|a|] == x
      && s[|a| + 1..|a| + 1 + |b|] == b && s[|a| + 1 + |b|] == y
      && s[|a| + |b| + 2..|a| + |b| + 2 + |c|] == c
  {
    var s := a + [x] + b + [y] + c + t;
    var i, j := |a| + 1, |a| + 1 + |b|;
    assert forall k :: 0 <= k < |b| ==> s[i + k] == b[k];
    assert forall k :: 0 <= k < |c| ==> s[j + 1 + k] == c[k];
  }

  /**
   * A day and a month of one or two digits and a year of four, with any
   * separators between them, match with those numbers as groups, whatever
   * follows.
   */
  lemma MatchDateFields(day: string, p: char, month: string, q: char, year: string, tail: string)
    requires 1 <= |day| <= 2 && 1 <= |month| <= 2 && |year| == 4
    requires AllDigits(day) && AllDigits(month) && AllDigits(year) && IsSeparator(p) && IsSeparator(q)
    ensures MatchDate(day + [p] + month + [q] + year + tail) == Some(DateGroups(Value(day), Value(month), Value(year)))
  {
    var s := day + [p] + month + [q] + year + tail;
    var d, m := |day|, |month|;
    FivePieces(day, p, month, q, year, tail);
    assert DateMatchAt(s, d, m);
    MatchDateSound(s, d, m);
  }

  /** Any of the three separators may stand in either place. */
  lemma MixedSeparators()
    ensures MatchDate("3,10-2019") == Some(DateGroups(3, 10, 2019))
  {
    assert Value("3") == 3 by { assert "3"[..0] == ""; }
    assert Value("10") == 10 by { assert "10"[..1] == "1" && "1"[..0] == ""; }
    assert Value("2019") == 2019 by {
      assert "2019"[..3] == "201" && "201"[..2] == "20" && "20"[..1] == "2" && "2"[..0] == "";
    }
    assert "3" + [','] + "10" + ['-'] + "2019" + "" == "3,10-2019";
    MatchDateFields("3", ',', "10", '-', "2019", "");
  }

  /**
   * One try of the legacy `check_date`: no match is a failed attempt; a match
   * is handed to `datetime.date`, which raises, uncaught, on a day that does
   * not exist.
   */
  function LegacyDateInput(s: string): (v: Verdict<Date>)
    ensures v.Valid? ==> ValidDate(v.value)
  {
    match MatchDate(s)
    case None => Invalid
    case Some(g) =>
      var date := Date(g.year, g.month, g.day);
      if ValidDate(date) then Valid(date) else Raises
  }

  /**
   * A text of the right shape naming a day that does not exist ends the
   * program on the first try: the exception is not a failed attempt.
   */
  lemma ImpossibleDateCrashes(s: string, interactive: bool, tries: nat, input: seq<string>)
    requires tries > 0 && MatchDate(s).Some?
    requires var g := MatchDate(s).value; !ValidDate(Date(g.year, g.month, g.day))
    ensures Retry(LegacyDateInput, s, interactive, tries, input) == Run(Crashed, 0)
  {
    var d, m := MatchDateShape(s);
  }

  /** The 31st of February, for one. */
  lemma FebruaryThirtyFirstCrashes(interactive: bool, tries: nat, input: seq<string>)
    requires tries > 0
    ensures Retry(LegacyDateInput, "31.02.2019", interactive, tries, input) == Run(Crashed, 0)
  {
    assert Value("31") == 31 by { assert "31"[..1] == "3" && "3"[..0] == ""; }
    assert Value("02") == 2 by { assert "02"[..1] == "0" && "0"[..0] == ""; }
    assert Value("2019") == 2019 by {
      assert "2019"[..3] == "201" && "201"[..2] == "20" && "20"[..1] == "2" && "2"[..0] == "";
    }
    assert "31" + ['.'] + "02" + ['.'] + "2019" + "" == "31.02.2019";
    MatchDateFields("31", '.', "02", '.', "2019", "");
    ImpossibleDateCrashes("31.02.2019", interactive, tries, input);
  }

  /** A date as the current tool writes it, DD.MM.YYYY, matches with its own day, month and year. */
  lemma MatchFormattedDate(date: Date)
    requires ValidDate(date)
    ensures LegacyDateInput(FormatDate(date)) == Valid(date)
  {
    var s := FormatDate(date);
    assert s[..2] == Pad2(date.day) && s[3..5] == Pad2(date.month) && s[6..10] == Pad4(date.year);
    assert DateMatchAt(s, 2, 2);
    MatchDateSound(s, 2, 2);
  }

  /** `[0-9]|0[0-9]|1[0-9]|2[0-3]`: an hour from 0 to 23, with one or two digits. */
  predicate StartHourText(t: string) {
    || (|t| == 1 && IsDigit(t[0]))
    || (|t| == 2 && '0' <= t[0] <= '1' && IsDigit(t[1]))
    || (|t| == 2 && t[0] == '2' && '0' <= t[1] <= '3')
  }

  /** `1[0-9]|2[0-3]`: an hour from 10 to 23, always two digits. */
  predicate EndHourText(t: string) {
    || (|t| == 2 && t[0] == '1' && IsDigit(t[1]))
    || (|t| == 2 && t[0] == '2' && '0' <= t[1] <= '3')
  }

  /** `[0-5][0-9]`. */
  predicate MinuteText(t: string) {
    |t| == 2 && '0' <= t[0] <= '5' && IsDigit(t[1])
  }

  /** Position of the dash in a match with an `h`-digit start hour, with or without the start minute. */
  function DashAt(h: nat, withMinute: bool): nat {
    if withMinute then h + 3 else h + 1
  }

  /**
   * The interval pattern matching the start of `s` with an `h`-digit start
   * hour and the optional start-minute group present or absent: start hour,
   * `:`, maybe two minute digits, `-`, end hour, `:`, end minute.
   */
  predicate IntervalMatchAt(s: string, h: nat, withMinute: bool) {
    var k := DashAt(h, withMinute);
    && 1 <= h <= 2 && k + 6 <= |s|
    && StartHourText(s[..h]) && s[h] == ':'
    && (withMinute ==> MinuteText(s[h + 1..h + 3]))
    && s[k] == '-' && EndHourText(s[k + 1..k + 3]) && s[k + 3] == ':' && MinuteText(s[k + 4..k + 6])
  }

  /** The groups of an interval match; the start minute is None when its optional group did not take part. */
  datatype IntervalGroups = IntervalGroups(startHour: nat, startMinute: Option<nat>, endHour: nat, endMinute: nat)

  function IntervalGroupsAt(s: string, h: nat, withMinute: bool): IntervalGroups
    requires IntervalMatchAt(s, h, withMinute)
  {
    var k := DashAt(h, withMinute);
    IntervalGroups(Value(s[..h]), if withMinute then Some(Value(s[h + 1..h + 3])) else None,
                   Value(s[k + 1..k + 3]), Value(s[k + 4..k + 6]))
  }

  /**
   * `re.match` of the interval pattern, in backtracking order: the one-digit
   * hour alternative first, and the optional minute group tried before it is
   * skipped.
   */
  function MatchInterval(s: string): Option<IntervalGroups> {
    if IntervalMatchAt(s, 1, true) then Some(IntervalGroupsAt(s, 1, true))
    else if IntervalMatchAt(s, 1, false) then Some(IntervalGroupsAt(s, 1, false))
    else if IntervalMatchAt(s, 2, true) then Some(IntervalGroupsAt(s, 2, true))
    else if IntervalMatchAt(s, 2, false) then Some(IntervalGroupsAt(s, 2, false))
    else None
  }

  /** The character after the start hour is `:` and the one after the colon a digit or `-`, so one match at most fits. */
  lemma IntervalMatchUnique(s: string, h1: nat, w1: bool, h2: nat, w2: bool)
    requires IntervalMatchAt(s, h1, w1) && IntervalMatchAt(s, h2, w2)
    ensures h1 == h2 && w1 == w2
  {
  }

  lemma MatchIntervalSound(s: string, h: nat, withMinute: bool)
    requires IntervalMatchAt(s, h, withMinute)
    ensures MatchInterval(s) == Some(IntervalGroupsAt(s, h, withMinute))
  {
    if IntervalMatchAt(s, 1, true) { IntervalMatchUnique(s, h, withMinute, 1, true); }
    else if IntervalMatchAt(s, 1, false) { IntervalMatchUnique(s, h, withMinute, 1, false); }
    else if IntervalMatchAt(s, 2, true) { IntervalMatchUnique(s, h, withMinute, 2, true); }
  }

  /** Which of the four ways matched. */
  lemma MatchIntervalShape(s: string) returns (h: nat, withMinute: bool)
    requires MatchInterval(s).Some?
    ensures IntervalMatchAt(s, h, withMinute) && MatchInterval(s) == Some(IntervalGroupsAt(s, h, withMinute))
  {
    if IntervalMatchAt(s, 1, true) { h, withMinute := 1, true; }
    else if IntervalMatchAt(s, 1, false) { h, withMinute := 1, false; }
    else if IntervalMatchAt(s, 2, true) { h, withMinute := 2, true; }
    else { h, withMinute := 2, false; }
  }

  /** Whatever matches has a start hour up to 23, an end hour from 10 to 23, and minutes up to 59. */
  lemma MatchIntervalBounds(s: string)
    requires MatchInterval(s).Some?
    ensures var g := MatchInterval(s).value;
      && g.startHour <= 23 && 10 <= g.endHour <= 23 && g.endMinute <= 59
      && (g.startMinute.Some? ==> g.startMinute.value <= 59)
  {
    var h, w := MatchIntervalShape(s);
    GroupsAtBounds(s, h, w);
  }

  /** The bounds of the groups of one way of matching. */
  lemma GroupsAtBounds(s: string, h: nat, withMinute: bool)
    requires IntervalMatchAt(s, h, withMinute)
    ensures var g := IntervalGroupsAt(s, h, withMinute);
      && g.startHour <= 23 && 10 <= g.endHour <= 23 && g.endMinute <= 59
      && (g.startMinute.Some? ==> g.startMinute.value <= 59)
  {
    var k := DashAt(h, withMinute);
    TwoDigitValue(s[..h]);
    TwoDigitValue(s[k + 1..k + 3]);
    TwoDigitValue(s[k + 4..k + 6]);
    if withMinute {
      TwoDigitValue(s[h + 1..h + 3]);
    }
  }

  /** The value of one or two digits, from the digits themselves. */
  lemma TwoDigitValue(t: string)
    requires 1 <= |t| <= 2 && AllDigits(t)
    ensures |t| == 1 ==> Value(t) == DigitValue(t[0])
    ensures |t| == 2 ==> Value(t) == 10 * DigitValue(t[0]) + DigitValue(t[1])
  {
    assert t[..|t| - 1][..0] == [];
    if |t| == 2 {
      assert t[..1] == [t[0]];
    }
  }

  /** `re.match` anchors at the start only: text after a match changes nothing. */
  lemma MatchIntervalIgnoresTail(s: string, tail: string)
    requires MatchInterval(s).Some?
    ensures MatchInterval(s + tail) == MatchInterval(s)
  {
    var h, w := MatchIntervalShape(s);
    MatchAtIgnoresTail(s, tail, h, w);
    MatchIntervalSound(s + tail, h, w);
  }

  /** One way of matching survives text appended after it, with the same groups. */
  lemma MatchAtIgnoresTail(s: string, tail: string, h: nat, withMinute: bool)
    requires IntervalMatchAt(s, h, withMinute)
    ensures IntervalMatchAt(s + tail, h, withMinute)
    ensures IntervalGroupsAt(s + tail, h, withMinute) == IntervalGroupsAt(s, h, withMinute)
  {
    var t := s + tail;
    var k := DashAt(h, withMinute);
    assert t[..h] == s[..h] && t[h + 1..h + 3] == s[h + 1..h + 3];
    assert t[k + 1..k + 3] == s[k + 1..k + 3] && t[k + 4..k + 6] == s[k + 4..k + 6];
  }

  /**
   * One try of the legacy `check_time_interval`: no match is a failed
   * attempt; a match without the start minute raises at `int(None)`; any
   * other match gives the captured hours and minutes.
   */
  function LegacyIntervalInput(s: string): (v: Verdict<Interval>)
    ensures v.Valid? ==> ValidInterval(v.value)
  {
    match MatchInterval(s)
    case None => Invalid
    case Some(g) =>
      MatchIntervalBounds(s);
      if g.startMinute.None? then Raises
      else Valid((Time(g.startHour, g.startMinute.value), Time(g.endHour, g.endMinute)))
  }

  /** A missing start minute gets past the pattern and then ends the program on the first try. */
  lemma MissingStartMinuteCrashes(interactive: bool, tries: nat, input: seq<string>)
    requires tries > 0
    ensures Retry(LegacyIntervalInput, "9:-17:00", interactive, tries, input) == Run(Crashed, 0)
  {
    var s := "9:-17:00";
    assert s[..1] == "9" && s[3..5] == "17" && s[6..8] == "00";
    assert IntervalMatchAt(s, 1, false);
    MatchIntervalSound(s, 1, false);
  }

  /**
   * Two times written HH:MM around a dash are accepted exactly when the end
   * hour is at least 10, and then read back unchanged; the start may be any
   * time, later than the end included.
   */
  lemma FormattedInterval(start: Time, end: Time)
    requires ValidTime(start) && ValidTime(end)
    ensures LegacyIntervalInput(FormatTime(start) + "-" + FormatTime(end))
         == if end.hour >= 10 then Valid((start, end)) else Invalid
  {
    var s := FormatTime(start) + "-" + FormatTime(end);
    var sh, sm, eh, em := Pad2(start.hour), Pad2(start.minute), Pad2(end.hour), Pad2(end.minute);
    assert s[..2] == sh && s[3..5] == sm && s[6..8] == eh && s[9..11] == em;
    TwoDigitValue(sh);
    TwoDigitValue(sm);
    TwoDigitValue(eh);
    TwoDigitValue(em);
    assert !IntervalMatchAt(s, 1, true) && !IntervalMatchAt(s, 1, false) && !IntervalMatchAt(s, 2, false);
    if end.hour >= 10 {
      assert IntervalMatchAt(s, 2, true);
      assert IntervalGroupsAt(s, 2, true) == IntervalGroups(start.hour, Some(start.minute), end.hour, end.minute);
    }
  }

  /** The legacy `check_date`: the bounded-retry loop over `LegacyDateInput`. */
  method LegacyCheckDate(date: string, nonInteractive: bool, attempts: nat, term: Terminal) returns (outcome: Outcome<Date>)
    requires term.read <= |term.lines|
    modifies term
    ensures term.read <= |term.lines|
    ensures var r := Retry(LegacyDateInput, date, !nonInteractive, Tries(nonInteractive, attempts), term.lines[old(term.read)..]);
      outcome == r.outcome && term.read == old(term.read) + r.asked
  {
    outcome := Ask(LegacyDateInput, date, nonInteractive, attempts, term);
  }

  /** The legacy `check_time_interval`: the bounded-retry loop over `LegacyIntervalInput`. */
  method LegacyCheckTimeInterval(interval: string, nonInteractive: bool, attempts: nat, term: Terminal)
    returns (outcome: Outcome<Interval>)
    requires term.read <= |term.lines|
    modifies term
    ensures term.read <= |term.lines|
    ensures var r := Retry(LegacyIntervalInput, interval, !nonInteractive, Tries(nonInteractive, attempts), term.lines[old(term.read)..]);
      outcome == r.outcome && term.read == old(term.read) + r.asked
  {
    outcome := Ask(LegacyIntervalInput, interval, nonInteractive, attempts, term);
  }

  /** The subcommand argument: one of three choices, or none at all. */
  datatype LegacySubcommand = Add | Delete | Replace | NoSubcommand

  /**
   * The legacy `check_args` as a function of the arguments and the script:
   * the date always; for anything but `delete`, then the two intervals and
   * the comment prompt, in that order.
   */
  function LegacyArgsRun(sub: LegacySubcommand, nonInteractive: bool, f: ArgFields, input: seq<string>): (r: ArgsRun)
    requires AllRaw(f)
    ensures r.asked <= |input|
  {
    var d := Retry(LegacyDateInput, f.date.text, !nonInteractive, Tries(nonInteractive, DefaultAttempts), input);
    if !d.outcome.Accepted? then ArgsRun(Some(StopOf(d.outcome)), f, d.asked)
    else
      var f1 := f.(date := Parsed(d.outcome.value));
      if sub.Delete? then ArgsRun(None, f1, d.asked)
      else LegacyRecordArgsRun(nonInteractive, f1, input, d.asked)
  }

  /** The rest of the legacy `check_args` once the date is checked and `n` lines are read: the intervals, then the comment. */
  function LegacyRecordArgsRun(nonInteractive: bool, f: ArgFields, input: seq<string>, n: nat): (r: ArgsRun)
    requires n <= |input| && f.workHours.Raw? && f.breakTime.Raw?
    ensures n <= r.asked <= |input| && r.fields.date == f.date
  {
    var iv := IntervalsRun(LegacyIntervalInput, nonInteractive, f, input, n);
    var ask := f.comment == "" && !nonInteractive;
    if iv.stop.Some? || !ask then iv
    else if iv.asked == |input| then ArgsRun(Some(InputExhausted), iv.fields, iv.asked)
    else ArgsRun(None, iv.fields.(comment := input[iv.asked]), iv.asked + 1)
  }

  /** `delete` validates only the date; the other fields are left as given. */
  lemma LegacyDeleteChecksDateOnly(nonInteractive: bool, f: ArgFields, input: seq<string>)
    requires AllRaw(f)
    ensures var r := LegacyArgsRun(Delete, nonInteractive, f, input);
      var d := Retry(LegacyDateInput, f.date.text, !nonInteractive, Tries(nonInteractive, DefaultAttempts), input);
      && r.asked == d.asked && (r.stop.None? <==> d.outcome.Accepted?)
      && r.fields.workHours == f.workHours && r.fields.breakTime == f.breakTime && r.fields.comment == f.comment
  {
  }

  /**
   * When the legacy `check_args` returns, the date is a valid day and, for
   * anything but `delete`, both intervals are valid times; the comment, when
   * prompted for, is the line typed after the intervals.
   */
  lemma LegacyCheckedArgsReady(sub: LegacySubcommand, nonInteractive: bool, f: ArgFields, input: seq<string>)
    requires AllRaw(f)
    requires LegacyArgsRun(sub, nonInteractive, f, input).stop.None?
    ensures var g := LegacyArgsRun(sub, nonInteractive, f, input).fields;
      && g.date.Parsed? && ValidDate(g.date.value)
      && (!sub.Delete? ==> g.workHours.Parsed? && g.breakTime.Parsed? && ValidInterval(g.workHours.value) && ValidInterval(g.breakTime.value))
  {
    AcceptedKeeps(LegacyDateInput, ValidDate, f.date.text, nonInteractive, input);
    var d := Retry(LegacyDateInput, f.date.text, !nonInteractive, Tries(nonInteractive, DefaultAttempts), input);
    if !sub.Delete? {
      IntervalsReady(LegacyIntervalInput, nonInteractive, f.(date := Parsed(d.outcome.value)), input, d.asked);
    }
  }

  /** The parsed command line of the legacy script. */
  class LegacyArgs {
    const subcommand: LegacySubcommand
    const nonInteractive: bool
    var date: Field<Date>
    var workHours: Field<Interval>
    var breakTime: Field<Interval>
    var comment: string

    constructor (subcommand: LegacySubcommand, nonInteractive: bool, date: string, workHours: string, breakTime: string, comment: string)
      ensures this.subcommand == subcommand && this.nonInteractive == nonInteractive
      ensures Fields() == ArgFields(Raw(date), Raw(workHours), Raw(breakTime), comment)
    {
      this.subcommand := subcommand;
      this.nonInteractive := nonInteractive;
      this.date := Raw(date);
      this.workHours := Raw(workHours);
      this.breakTime := Raw(breakTime);
      this.comment := comment;
    }

    function Fields(): ArgFields
      reads this
    {
      ArgFields(date, workHours, breakTime, comment)
    }
  }

  /** The legacy `check_args`, the program's first reader of the terminal. */
  method LegacyCheckArgs(args: LegacyArgs, term: Terminal) returns (stop: Option<Stop>)
    requires AllRaw(args.Fields()) && term.read == 0
    modifies args, term
    ensures var r := LegacyArgsRun(args.subcommand, args.nonInteractive, old(args.Fields()), term.lines);
      stop == r.stop && args.Fields() == r.fields && term.read == r.asked
  {
    assert term.lines[0..] == term.lines;
    var d := LegacyCheckDate(args.date.text, args.nonInteractive, DefaultAttempts, term);
    if !d.Accepted? {
      return Some(StopOf(d));
    }
    args.date := Parsed(d.value);
    if args.subcommand.Delete? {
      return None;
    }
    stop := LegacyCheckRecordArgs(args, term);
  }

  /** The intervals and the comment prompt of the legacy `check_args`, once the date is checked. */
  method LegacyCheckRecordArgs(args: LegacyArgs, term: Terminal) returns (stop: Option<Stop>)
    requires term.read <= |term.lines|
    requires args.workHours.Raw? && args.breakTime.Raw?
    modifies args, term
    ensures var r := LegacyRecordArgsRun(args.nonInteractive, old(args.Fields()), term.lines, old(term.read));
      stop == r.stop && args.Fields() == r.fields && term.read == r.asked
  {
    stop := LegacyCheckIntervals(LegacyIntervalInput, args, term);
    if stop.Some? {
      return;
    }
    if args.comment == "" && !args.nonInteractive {
      var line := term.ReadLine();
      if line.None? {
        return Some(InputExhausted);
      }
      args.comment := line.value;
    }
  }

  /**
   * The two `check_time_interval` calls of `check_args`, the work hours and
   * then the break: each is the retry loop `Ask` over one try `validate`,
   * which `check_args` fixes to `LegacyIntervalInput`.
   */
  method LegacyCheckIntervals(validate: string -> Verdict<Interval>, args: LegacyArgs, term: Terminal) returns (stop: Option<Stop>)
    requires term.read <= |term.lines|
    requires args.workHours.Raw? && args.breakTime.Raw?
    modifies args, term
    ensures var r := IntervalsRun(validate, args.nonInteractive, old(args.Fields()), term.lines, old(term.read));
      stop == r.stop && args.Fields() == r.fields && term.read == r.asked
  {
    var w := Ask(validate, args.workHours.text, args.nonInteractive, DefaultAttempts, term);
    if !w.Accepted? {
      return Some(StopOf(w));
    }
    args.workHours := Parsed(w.value);
    stop := LegacyCheckBreak(validate, args, term);
  }

  /** The legacy break-time `check_time_interval` call: the retry loop over `validate`. */
  method LegacyCheckBreak(validate: string -> Verdict<Interval>, args: LegacyArgs, term: Terminal) returns (stop: Option<Stop>)
    requires term.read <= |term.lines|
    requires args.breakTime.Raw?
    modifies args, term
    ensures var r := BreakRun(validate, args.nonInteractive, old(args.Fields()), term.lines, old(term.read));
      stop == r.stop && args.Fields() == r.fields && term.read == r.asked
  {
    var b := Ask(validate, args.breakTime.text, args.nonInteractive, DefaultAttempts, term);
    if !b.Accepted? {
      return Some(StopOf(b));
    }
    args.breakTime := Parsed(b.value);
    return None;
  }

}
