/**
 * The command-line front end of `azubi_timesheet/azubi_timesheet.py`: the
 * validators that turn the texts given on the command line (or typed at the
 * prompts) into a date and two time intervals, `check_args`, which decides
 * what a subcommand needs, and `execute`, which turns the store's answer into
 * an exit status.
 */
module Cli {
  import opened Wrappers
  import opened Text
  import opened Calendar
  import opened Formats
  import opened Records
  import opened ExportLayout
  import opened Store
  import opened Prompting

  /**
   * The subcommand argparse stored, or none: the subcommand is optional, so
   * `azubi-timesheet -n` parses with `subcommand` None and none of the
   * subcommands' own options.
   */
  datatype Subcommand = Add | Update | Delete | Export | Config(setConfig: string, listConfig: bool) | NoSubcommand

  /** The intervals a special record gets: 00:00 to 00:00. */
  const Midnight: Interval := (Time(0, 0), Time(0, 0))

  /** One try of `check_date`: strptime with `%d.%m.%Y`; every ValueError, calendar ones included, is caught. */
  function DateInput(s: string): (v: Verdict<Date>)
    ensures v.Valid? ==> ValidDate(v.value)
  {
    match ParseDate(s)
    case Some(d) => Valid(d)
    case None => Invalid
  }

  /**
   * `start, end = s.split("-")` followed by strptime with `%H:%M` on each
   * part: None where the unpacking or a parse raises ValueError. The order of
   * the two times is not checked.
   */
  function ParseInterval(s: string): (r: Option<Interval>)
    ensures r.Some? ==> ValidInterval(r.value)
  {
    var parts := SplitOn(s, '-');
    if |parts| == 2 && ParseTime(parts[0]).Some? && ParseTime(parts[1]).Some? then
      Some((ParseTime(parts[0]).value, ParseTime(parts[1]).value))
    else None
  }

  /** One try of `check_time_interval`. */
  function IntervalInput(s: string): (v: Verdict<Interval>)
    ensures v.Valid? ==> ValidInterval(v.value)
  {
    match ParseInterval(s)
    case Some(i) => Valid(i)
    case None => Invalid
  }

  /** `s` is two times around a dash at `i`, and has no other dash. */
  predicate DashSplit(s: string, i: int) {
    && 0 <= i < |s| && s[i] == '-' && '-' !in s[..i] && '-' !in s[i + 1..]
    && ParseTime(s[..i]).Some? && ParseTime(s[i + 1..]).Some?
  }

  /** Two times around the only dash of a text are read as the interval from the first to the second. */
  lemma IntervalAt(s: string, i: int)
    requires DashSplit(s, i)
    ensures ParseInterval(s) == Some((ParseTime(s[..i]).value, ParseTime(s[i + 1..]).value))
  {
    var parts := [s[..i], s[i + 1..]];
    assert s == Join(parts, '-') by {
      assert Join(parts[1..], '-') == s[i + 1..];
    }
    SplitJoin(parts, '-');
  }

  /** An accepted interval is a text with exactly one dash whose two sides are times. */
  lemma IntervalHasOneDash(s: string)
    requires ParseInterval(s).Some?
    ensures exists i :: DashSplit(s, i)
  {
    var parts := SplitOn(s, '-');
    JoinSplit(s, '-');
    assert Join(parts[1..], '-') == parts[1];
    var i := |parts[0]|;
    assert s == parts[0] + "-" + parts[1];
    assert s[..i] == parts[0] && s[i + 1..] == parts[1];
    assert DashSplit(s, i);
  }

  /** Two times written HH:MM around a dash read back as that interval, whichever comes first. */
  lemma ParseIntervalFormat(start: Time, end: Time)
    requires ValidTime(start) && ValidTime(end)
    ensures ParseInterval(FormatTime(start) + "-" + FormatTime(end)) == Some((start, end))
  {
    var parts := [FormatTime(start), FormatTime(end)];
    DigitsHaveNoSeparator(Pad2(start.hour), '-');
    DigitsHaveNoSeparator(Pad2(start.minute), '-');
    DigitsHaveNoSeparator(Pad2(end.hour), '-');
    DigitsHaveNoSeparator(Pad2(end.minute), '-');
    assert Join(parts, '-') == FormatTime(start) + "-" + FormatTime(end) by {
      assert Join(parts[1..], '-') == parts[1];
    }
    SplitJoin(parts, '-');
    ParseFormatTime(start);
    ParseFormatTime(end);
  }

  /**
   * A text in the format naming a day that does not exist is one failed
   * attempt like any other: it uses up a try and the loop asks again, rather
   * than letting the text through or ending the program.
   */
  lemma ImpossibleDateIsRetried(day: string, month: string, year: string, tries: nat, input: seq<string>)
    requires DayField(day) && MonthField(month) && YearField(year)
    requires !ValidDate(Date(Value(year), Value(month), DayValue(day)))
    requires tries > 0
    ensures DateInput(day + "." + month + "." + year) == Invalid
    ensures Retry(DateInput, day + "." + month + "." + year, true, tries, input)
         == Retry(DateInput, "", true, tries - 1, input)
  {
    ParseDateFields(day, month, year);
  }

  /** The 31st of February, for one. */
  lemma FebruaryThirtyFirstIsRetried(tries: nat, input: seq<string>)
    requires tries > 0
    ensures Retry(DateInput, "31.02.2019", true, tries, input) == Retry(DateInput, "", true, tries - 1, input)
  {
    FebruaryThirtyFirstFields();
    assert "31" + "." + "02" + "." + "2019" == "31.02.2019";
    ImpossibleDateIsRetried("31", "02", "2019", tries, input);
  }

  lemma FebruaryThirtyFirstFields()
    ensures DayField("31") && MonthField("02") && YearField("2019")
    ensures !ValidDate(Date(Value("2019"), Value("02"), DayValue("31")))
  {
    assert DayValue("31") == 31 by {
      assert "31"[..1] == "3" && "3"[..0] == "";
    }
    assert Value("02") == 2 by {
      assert "02"[..1] == "0" && "0"[..0] == "";
    }
    assert Value("2019") == 2019 by {
      assert "2019"[..3] == "201" && "201"[..2] == "20" && "20"[..1] == "2" && "2"[..0] == "";
    }
  }

  /** In non-interactive mode a missing date fails at once, without a prompt. */
  lemma NonInteractiveMissingDate(input: seq<string>)
    ensures Retry(DateInput, "", false, Tries(true, DefaultAttempts), input) == Run(GaveUp, 0)
  {
    assert SplitOn("", '.') == [""];
  }

  /** `check_date`: the bounded-retry loop over `DateInput`. */
  method CheckDate(date: string, nonInteractive: bool, attempts: nat, term: Terminal) returns (outcome: Outcome<Date>)
    requires term.read <= |term.lines|
    modifies term
    ensures term.read <= |term.lines|
    ensures var r := Retry(DateInput, date, !nonInteractive, Tries(nonInteractive, attempts), term.lines[old(term.read)..]);
      outcome == r.outcome && term.read == old(term.read) + r.asked
  {
    outcome := Ask(DateInput, date, nonInteractive, attempts, term);
  }

  /** `check_time_interval`: the bounded-retry loop over `IntervalInput`. */
  method CheckTimeInterval(interval: string, nonInteractive: bool, attempts: nat, term: Terminal)
    returns (outcome: Outcome<Interval>)
    requires term.read <= |term.lines|
    modifies term
    ensures term.read <= |term.lines|
    ensures var r := Retry(IntervalInput, interval, !nonInteractive, Tries(nonInteractive, attempts), term.lines[old(term.read)..]);
      outcome == r.outcome && term.read == old(term.read) + r.asked
  {
    outcome := Ask(IntervalInput, interval, nonInteractive, attempts, term);
  }

  /** The fields `execute` needs for the subcommand hold validated values. */
  predicate Ready(sub: Subcommand, f: ArgFields) {
    || sub.Config?
    || (&& !sub.NoSubcommand? && f.date.Parsed? && ValidDate(f.date.value)
        && (sub.Delete? || sub.Export? ||
            (f.workHours.Parsed? && f.breakTime.Parsed? && ValidInterval(f.workHours.value) && ValidInterval(f.breakTime.value))))
  }

  /**
   * `check_args` as a function of the arguments and the terminal's script:
   * nothing for `config`; without a subcommand, the AttributeError of reading
   * the `date` the namespace does not have; the date for every other
   * subcommand; then, for `add` and `update`, the rest of `RecordArgsRun`.
   */
  function CheckArgsRun(sub: Subcommand, nonInteractive: bool, special: bool, f: ArgFields, input: seq<string>): (r: ArgsRun)
    requires AllRaw(f)
    ensures r.asked <= |input|
  {
    if sub.Config? then ArgsRun(None, f, 0)
    else if sub.NoSubcommand? then ArgsRun(Some(Uncaught), f, 0)
    else
      var d := Retry(DateInput, f.date.text, !nonInteractive, Tries(nonInteractive, DefaultAttempts), input);
      if !d.outcome.Accepted? then ArgsRun(Some(StopOf(d.outcome)), f, d.asked)
      else
        var f1 := f.(date := Parsed(d.outcome.value));
        if sub.Delete? || sub.Export? then ArgsRun(None, f1, d.asked)
        else RecordArgsRun(nonInteractive, special, f1, input, d.asked)
  }

  /**
   * What `check_args` does for `add` and `update` once the date is checked and
   * `n` lines are read: prompt for a missing comment, then check the two
   * intervals or, for a special record, set both to 00:00-00:00.
   */
  function RecordArgsRun(nonInteractive: bool, special: bool, f: ArgFields, input: seq<string>, n: nat): (r: ArgsRun)
    requires n <= |input| && f.workHours.Raw? && f.breakTime.Raw?
    ensures n <= r.asked <= |input| && r.fields.date == f.date
  {
    var ask := f.comment == "" && !nonInteractive;
    if ask && n == |input| then ArgsRun(Some(InputExhausted), f, n)
    else
      var f2 := if ask then f.(comment := input[n]) else f;
      var m := if ask then n + 1 else n;
      if special then ArgsRun(None, f2.(workHours := Parsed(Midnight), breakTime := Parsed(Midnight)), m)
      else IntervalsRun(IntervalInput, nonInteractive, f2, input, m)
  }

  /** When `check_args` returns, every field the subcommand needs holds a validated value. */
  lemma CheckedArgsReady(sub: Subcommand, nonInteractive: bool, special: bool, f: ArgFields, input: seq<string>)
    requires AllRaw(f)
    requires CheckArgsRun(sub, nonInteractive, special, f, input).stop.None?
    ensures Ready(sub, CheckArgsRun(sub, nonInteractive, special, f, input).fields)
  {
    if !sub.Config? {
      AcceptedKeeps(DateInput, ValidDate, f.date.text, nonInteractive, input);
      if !(sub.Delete? || sub.Export? || special) {
        var d := Retry(DateInput, f.date.text, !nonInteractive, Tries(nonInteractive, DefaultAttempts), input);
        var f1 := f.(date := Parsed(d.outcome.value));
        var ask := f.comment == "" && !nonInteractive;
        var f2 := if ask then f1.(comment := input[d.asked]) else f1;
        IntervalsReady(IntervalInput, nonInteractive, f2, input, if ask then d.asked + 1 else d.asked);
      }
    }
  }

  /**
   * A command line without a subcommand gets past the `config` test and
   * ends the program with an uncaught error before any prompt, so `execute`
   * is never reached.
   */
  lemma MissingSubcommandCrashes(nonInteractive: bool, special: bool, f: ArgFields, input: seq<string>)
    requires AllRaw(f)
    ensures CheckArgsRun(NoSubcommand, nonInteractive, special, f, input) == ArgsRun(Some(Uncaught), f, 0)
    ensures !Ready(NoSubcommand, f)
  {
  }

  /** `config` is not validated: nothing changes and nothing is read. */
  lemma ConfigSkipsChecks(setConfig: string, listConfig: bool, nonInteractive: bool, special: bool, f: ArgFields, input: seq<string>)
    requires AllRaw(f)
    ensures CheckArgsRun(Config(setConfig, listConfig), nonInteractive, special, f, input) == ArgsRun(None, f, 0)
  {
  }

  /**
   * `delete` and `export` validate only the date: the outcome and the lines
   * read are those of `check_date`, and the other fields are left as given.
   */
  lemma DeleteExportCheckDateOnly(sub: Subcommand, nonInteractive: bool, special: bool, f: ArgFields, input: seq<string>)
    requires AllRaw(f) && (sub.Delete? || sub.Export?)
    ensures var r := CheckArgsRun(sub, nonInteractive, special, f, input);
      var d := Retry(DateInput, f.date.text, !nonInteractive, Tries(nonInteractive, DefaultAttempts), input);
      && r.asked == d.asked
      && (r.stop.None? <==> d.outcome.Accepted?)
      && r.fields.workHours == f.workHours && r.fields.breakTime == f.breakTime && r.fields.comment == f.comment
  {
  }

  /**
   * A special record's intervals are set to 00:00-00:00 without looking at
   * the interval texts: they change neither how the check ends nor what it reads.
   */
  lemma SpecialIgnoresIntervals(sub: Subcommand, nonInteractive: bool, f: ArgFields, work: string, brk: string, input: seq<string>)
    requires AllRaw(f) && (sub.Add? || sub.Update?)
    ensures var r := CheckArgsRun(sub, nonInteractive, true, f, input);
      var r2 := CheckArgsRun(sub, nonInteractive, true, f.(workHours := Raw(work), breakTime := Raw(brk)), input);
      && r.stop == r2.stop && r.asked == r2.asked
      && (r.stop.None? ==> r.fields == r2.fields && r.fields.workHours == Parsed(Midnight) && r.fields.breakTime == Parsed(Midnight))
  {
  }

  /** The parsed command line, whose fields `check_args` overwrites. */
  class Args {
    const subcommand: Subcommand
    const nonInteractive: bool
    const special: bool
    var date: Field<Date>
    var workHours: Field<Interval>
    var breakTime: Field<Interval>
    var comment: string

    /** The namespace argparse returns: every field still a string. */
    constructor (subcommand: Subcommand, nonInteractive: bool, special: bool,
                 date: string, workHours: string, breakTime: string, comment: string)
      ensures this.subcommand == subcommand && this.nonInteractive == nonInteractive && this.special == special
      ensures Fields() == ArgFields(Raw(date), Raw(workHours), Raw(breakTime), comment)
    {
      this.subcommand := subcommand;
      this.nonInteractive := nonInteractive;
      this.special := special;
      this.date := Raw(date);
      this.workHours := Raw(workHours);
      this.breakTime := Raw(breakTime);
      this.comment := comment;
    }

    function Fields(): ArgFields
      reads this
    {
      ArgFields(date, workHours, breakTime, comment)
    }
  }

  /**
   * `check_args`: validate what the subcommand needs, prompting for what is
   * missing. It is the program's first reader of the terminal.
   */
  method CheckArgs(args: Args, term: Terminal) returns (stop: Option<Stop>)
    requires AllRaw(args.Fields()) && term.read == 0
    modifies args, term
    ensures var r := CheckArgsRun(args.subcommand, args.nonInteractive, args.special, old(args.Fields()), term.lines);
      stop == r.stop && args.Fields() == r.fields && term.read == r.asked
  {
    if args.subcommand.Config? {
      return None;
    }
    if args.subcommand.NoSubcommand? {
      return Some(Uncaught);
    }
    assert term.lines[0..] == term.lines;
    var d := CheckDate(args.date.text, args.nonInteractive, DefaultAttempts, term);
    if !d.Accepted? {
      return Some(StopOf(d));
    }
    args.date := Parsed(d.value);
    if args.subcommand.Delete? || args.subcommand.Export? {
      return None;
    }
    stop := CheckRecordArgs(args, term);
  }

  /** The `add`/`update` part of `check_args`, once the date is checked. */
  method CheckRecordArgs(args: Args, term: Terminal) returns (stop: Option<Stop>)
    requires term.read <= |term.lines|
    requires args.workHours.Raw? && args.breakTime.Raw?
    modifies args, term
    ensures var r := RecordArgsRun(args.nonInteractive, args.special, old(args.Fields()), term.lines, old(term.read));
      stop == r.stop && args.Fields() == r.fields && term.read == r.asked
  {
    if args.comment == "" && !args.nonInteractive {
      var line := term.ReadLine();
      if line.None? {
        return Some(InputExhausted);
      }
      args.comment := line.value;
    }
    if !args.special {
      stop := CheckIntervals(IntervalInput, args, term);
    } else {
      args.workHours := Parsed(Midnight);
      args.breakTime := Parsed(Midnight);
      stop := None;
    }
  }

  /**
   * The two `check_time_interval` calls of `check_args`, the work hours and
   * then the break: each is the retry loop `Ask` over one try `validate`,
   * which `check_args` fixes to `IntervalInput`.
   */
  method CheckIntervals(validate: string -> Verdict<Interval>, args: Args, term: Terminal) returns (stop: Option<Stop>)
    requires term.read <= |term.lines|
    requires args.workHours.Raw? && args.breakTime.Raw?
    modifies args, term
    ensures var r := IntervalsRun(validate, args.nonInteractive, old(args.Fields()), term.lines, old(term.read));
      stop == r.stop && args.Fields() == r.fields && term.read == r.asked
  {
    var w := Ask(validate, args.workHours.text, args.nonInteractive, DefaultAttempts, term);
    if !w.Accepted? {
      return Some(StopOf(w));
    }
    args.workHours := Parsed(w.value);
    stop := CheckBreak(validate, args, term);
  }

  /** The break-time `check_time_interval` call: the retry loop over `validate`. */
  method CheckBreak(validate: string -> Verdict<Interval>, args: Args, term: Terminal) returns (stop: Option<Stop>)
    requires term.read <= |term.lines|
    requires args.breakTime.Raw?
    modifies args, term
    ensures var r := BreakRun(validate, args.nonInteractive, old(args.Fields()), term.lines, old(term.read));
      stop == r.stop && args.Fields() == r.fields && term.read == r.asked
  {
    var b := Ask(validate, args.breakTime.text, args.nonInteractive, DefaultAttempts, term);
    if !b.Accepted? {
      return Some(StopOf(b));
    }
    args.breakTime := Parsed(b.value);
    return None;
  }


  const RecordExistsMessage := "Exiting. Record already exists."
  const RecordNotFoundMessage := "Exiting. Record with given date not found."

  function NotConfigurableMessage(key: string): string {
    "Exiting. Given key '" + key + "' cannot be configured."
  }

  /** `--set key=value`: the two sides of the one `=`, stripped; None where the unpacking raises. */
  function SplitSetting(setting: string): (r: Option<(string, string)>)
    ensures r.Some? ==> Strip(r.value.0) == r.value.0 && Strip(r.value.1) == r.value.1
  {
    var parts := SplitOn(setting, '=');
    StripIdempotent(parts[0]);
    if |parts| == 2 then
      StripIdempotent(parts[1]);
      Some((Strip(parts[0]), Strip(parts[1])))
    else None
  }

  /**
   * The option `config --set` changes and its new value: the setting splits,
   * the key is user-definable and the value passes the `%` check; None when
   * the configuration stays as it was.
   */
  function SettingApplied(sub: Subcommand): (r: Option<(string, string)>)
    requires sub.Config?
    ensures r.Some? <==> !sub.listConfig && sub.setConfig != "" && SplitSetting(sub.setConfig).Some?
                         && SplitSetting(sub.setConfig).value.0 in UserDefinedKeys
                         && InterpolationSyntaxOk(SplitSetting(sub.setConfig).value.1)
    ensures r.Some? ==> r == SplitSetting(sub.setConfig)
  {
    if sub.listConfig || sub.setConfig == "" then None
    else match SplitSetting(sub.setConfig)
      case None => None
      case Some(kv) => if kv.0 in UserDefinedKeys && InterpolationSyntaxOk(kv.1) then Some(kv) else None
  }

  /**
   * The exit of `config`: status 0 for `--list` or nothing to set; status 1
   * when the setting does not split in two, when the key cannot be configured
   * (with its message) or when the value has a stray `%` (an uncaught
   * ValueError, so no message); status 0 once the option is set.
   */
  predicate ConfigReport(sub: Subcommand, status: nat, message: Option<string>)
    requires sub.Config?
  {
    if sub.listConfig || sub.setConfig == "" then status == 0 && message == None
    else match SplitSetting(sub.setConfig)
      case None => status == 1 && message == None
      case Some(kv) =>
        && (status == if kv.0 in UserDefinedKeys && InterpolationSyntaxOk(kv.1) then 0 else 1)
        && message == if kv.0 in UserDefinedKeys then None else Some(NotConfigurableMessage(kv.0))
  }

  /**
   * `config --set name=50%`: the key may be configured, but the lone `%` makes
   * the set raise, so the program exits with 1 and no message and the
   * configuration stays as it was.
   */
  lemma StrayPercentIsNotSet(setting: string, key: string, text: string, status: nat, message: Option<string>)
    requires key in UserDefinedKeys && '%' !in text
    requires SplitSetting(setting) == Some((key, text + "%"))
    ensures SettingApplied(Config(setting, false)) == None
    ensures ConfigReport(Config(setting, false), status, message) <==> status == 1 && message == None
  {
    LonePercentRefused(text);
    assert setting != "" by {
      assert SplitSetting("") == None;
    }
  }

  /** `config --set name=50%%`: the escaped percent sign passes, and the option is set. */
  lemma EscapedPercentIsSet(setting: string, key: string, text: string, status: nat, message: Option<string>)
    requires key in UserDefinedKeys && '%' !in text
    requires SplitSetting(setting) == Some((key, text + "%%"))
    ensures SettingApplied(Config(setting, false)) == Some((key, text + "%%"))
    ensures ConfigReport(Config(setting, false), status, message) <==> status == 0 && message == None
  {
    EscapedPercentAccepted(text);
    assert setting != "" by {
      assert SplitSetting("") == None;
    }
  }

  /**
   * `execute`: run the subcommand on the store and exit with status 1, after
   * the subcommand's message, when the store answers False; `--set` fails the
   * same way on a key that cannot be configured.
   */
  method Execute(args: Args, ts: Timesheet, locale: Locale) returns (status: nat, message: Option<string>)
    requires Ready(args.subcommand, args.Fields())
    requires ts.Valid() && ValidLocale(locale)
    modifies ts
    ensures status == 0 || status == 1
    ensures status == 0 ==> message == None
    ensures !args.subcommand.Config? ==> ts.userDefined == old(ts.userDefined) && ts.savedSection == old(ts.savedSection)
    ensures args.subcommand.Add? ==>
      var before := Stored(old(ts.recordFiles), ts.recordsFile);
      var rec := CreateRecord(args.date.value, args.workHours.value, args.breakTime.value, args.comment, args.special);
      && ts.recordsFile == FileKey(ts.Get("records_dir"), MonthOf(args.date.value))
      && (status == 1 <==> WithAdded(before, rec).None?)
      && (status == 1 ==> message == Some(RecordExistsMessage))
      && ts.exportFiles == old(ts.exportFiles)
      && ts.recordFiles == match WithAdded(before, rec)
                           case None => old(ts.recordFiles)
                           case Some(after) => old(ts.recordFiles)[ts.recordsFile := after]
    ensures args.subcommand.Update? ==>
      var before := Stored(old(ts.recordFiles), ts.recordsFile);
      var rec := CreateRecord(args.date.value, args.workHours.value, args.breakTime.value, args.comment, args.special);
      && ts.recordsFile == FileKey(ts.Get("records_dir"), MonthOf(args.date.value))
      && (status == 1 <==> WithUpdated(before, rec).None?)
      && (status == 1 ==> message == Some(RecordNotFoundMessage))
      && ts.exportFiles == old(ts.exportFiles)
      && ts.recordFiles == match WithUpdated(before, rec)
                           case None => old(ts.recordFiles)
                           case Some(after) => old(ts.recordFiles)[ts.recordsFile := after]
    ensures args.subcommand.Delete? ==>
      var before := Stored(old(ts.recordFiles), ts.recordsFile);
      && ts.recordsFile == FileKey(ts.Get("records_dir"), MonthOf(args.date.value))
      && (status == 1 <==> WithDeleted(before, FormatDate(args.date.value)).None?)
      && (status == 1 ==> message == Some(RecordNotFoundMessage))
      && ts.exportFiles == old(ts.exportFiles)
      && ts.recordFiles == match WithDeleted(before, FormatDate(args.date.value))
                           case None => old(ts.recordFiles)
                           case Some(after) =>
                             if after == [] then old(ts.recordFiles) - {ts.recordsFile}
                             else old(ts.recordFiles)[ts.recordsFile := after]
    ensures args.subcommand.Export? ==>
      var book := ExportBook(Stored(ts.recordFiles, ts.recordsFile), ts.Get("name"), old(ts.exportFiles),
                             ts.Get("exports_dir"), ts.templates, args.date.value, locale);
      && ts.recordsFile == FileKey(ts.Get("records_dir"), MonthOf(args.date.value))
      && ts.recordFiles == old(ts.recordFiles)
      && (status == 1 <==> book.Err?)
      && ts.exportFiles == if book.Ok? then old(ts.exportFiles)[FileKey(ts.Get("exports_dir"), MonthOf(args.date.value)) := book.value]
                           else old(ts.exportFiles)
    ensures args.subcommand.Config? ==> ts.recordFiles == old(ts.recordFiles) && ts.exportFiles == old(ts.exportFiles)
    ensures args.subcommand.Config? ==>
      var applied := SettingApplied(args.subcommand);
      && ts.userDefined == (if applied.Some? then old(ts.userDefined)[applied.value.0 := applied.value.1] else old(ts.userDefined))
      && ts.savedSection == (if applied.Some? then Some(ts.userDefined) else old(ts.savedSection))
    ensures args.subcommand.Config? ==> ConfigReport(args.subcommand, status, message)
    ensures args.subcommand.Config? && SettingApplied(args.subcommand).Some? ==>
      ts.Get(SettingApplied(args.subcommand).value.0) == SettingApplied(args.subcommand).value.1
  {
    status, message := 0, None;
    match args.subcommand
    case Add =>
      var ok := ts.AddRecord(args.date.value, args.workHours.value, args.breakTime.value, args.comment, args.special);
      if !ok {
        status, message := 1, Some(RecordExistsMessage);
      }
    case Update =>
      var ok := ts.UpdateRecord(args.date.value, args.workHours.value, args.breakTime.value, args.comment, args.special);
      if !ok {
        status, message := 1, Some(RecordNotFoundMessage);
      }
    case Delete =>
      var ok := ts.DeleteRecord(args.date.value);
      if !ok {
        status, message := 1, Some(RecordNotFoundMessage);
      }
    case Export =>
      var r := ts.Export(args.date.value, locale);
      if r.Err? {
        status := 1;
      }
    case Config(_, _) =>
      status, message := Configure(args.subcommand, ts);
  }

  /**
   * The `config` branch of `execute`: `--list` wins over `--set`, and `--set`
   * exits with 1 when the text does not split, when the key cannot be
   * configured (with its message) or when the value has a stray `%`.
   */
  method Configure(sub: Subcommand, ts: Timesheet) returns (status: nat, message: Option<string>)
    requires sub.Config? && ts.Valid()
    modifies ts
    ensures ts.Valid()
    ensures status == 0 || status == 1
    ensures status == 0 ==> message == None
    ensures ts.recordFiles == old(ts.recordFiles) && ts.exportFiles == old(ts.exportFiles)
    ensures ts.templates == old(ts.templates) && ts.records == old(ts.records) && ts.recordsFile == old(ts.recordsFile)
    ensures var applied := SettingApplied(sub);
      && ts.userDefined == (if applied.Some? then old(ts.userDefined)[applied.value.0 := applied.value.1] else old(ts.userDefined))
      && ts.savedSection == (if applied.Some? then Some(ts.userDefined) else old(ts.savedSection))
    ensures ConfigReport(sub, status, message)
    ensures SettingApplied(sub).Some? ==> ts.Get(SettingApplied(sub).value.0) == SettingApplied(sub).value.1
  {
    status, message := 0, None;
    if sub.listConfig || sub.setConfig == "" {
      assert SettingApplied(sub) == None;
      return;
    }
    var kv := SplitSetting(sub.setConfig);
    if kv.None? {
      assert SettingApplied(sub) == None;
      status := 1;
      return;
    }
    ghost var applied := SettingApplied(sub);
    assert applied.Some? <==> kv.value.0 in UserDefinedKeys && InterpolationSyntaxOk(kv.value.1);
    var ok := ts.SetConfig(kv.value.0, kv.value.1);
    assert applied.Some? <==> ok == Some(true);
    if ok == Some(false) {
      status, message := 1, Some(NotConfigurableMessage(kv.value.0));
    } else if ok.None? {
      status := 1;
    }
  }
}
