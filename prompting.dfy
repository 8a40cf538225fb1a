/**
 * The bounded-retry prompt shared by every validator of both command-line
 * front ends: try the value given on the command line, and after each failure
 * clear it and ask again, up to a number of attempts; in non-interactive mode
 * there is exactly one attempt and nothing is ever asked.
 *
 * The terminal is a scripted sequence of lines; `input()` takes the next one,
 * and raises EOFError, which nobody catches, once the script is used up.
 */
module Prompting {
  import opened Wrappers
  import opened Calendar

  /** What one parse of a text does: return a value, fail in a way the loop catches, or raise past it. */
  datatype Verdict<T> = Valid(value: T) | Invalid | Raises

  /**
   * How a validator ends: with a value; by exiting with status 1 once the
   * attempts are used up; with the EOFError of `input()`; or with an
   * exception its parse let through.
   */
  datatype Outcome<T> = Accepted(value: T) | GaveUp | EndOfInput | Crashed

  /** A validator's outcome and the number of input lines it read. */
  datatype Run<T> = Run(outcome: Outcome<T>, asked: nat)

  /** The single try of non-interactive mode. */
  function Once<T>(v: Verdict<T>): Outcome<T> {
    match v
    case Valid(x) => Accepted(x)
    case Invalid => GaveUp
    case Raises => Crashed
  }

  /**
   * The retry loop as a function of its inputs: `value` is the text still to
   * be tried (empty once a try failed), `tries` the attempts left, `input` the
   * lines the terminal still holds. An empty value is replaced by a line read
   * from the terminal when the mode is interactive.
   */
  function Retry<T>(parse: string -> Verdict<T>, value: string, interactive: bool, tries: nat, input: seq<string>): (r: Run<T>)
    ensures r.asked <= |input| && r.asked <= tries
    ensures !interactive ==> r.asked == 0
    decreases tries
  {
    if tries == 0 then Run(GaveUp, 0)
    else if interactive && value == "" then
      if input == [] then Run(EndOfInput, 0)
      else match parse(input[0])
        case Valid(x) => Run(Accepted(x), 1)
        case Raises => Run(Crashed, 1)
        case Invalid =>
          var next := Retry(parse, "", interactive, tries - 1, input[1..]);
          Run(next.outcome, next.asked + 1)
    else match parse(value)
      case Valid(x) => Run(Accepted(x), 0)
      case Raises => Run(Crashed, 0)
      case Invalid => Retry(parse, "", interactive, tries - 1, input)
  }

  /** The number of attempts a validator allows: one in non-interactive mode, whatever it was given otherwise. */
  function Tries(nonInteractive: bool, attempts: nat): (n: nat)
    ensures nonInteractive ==> n == 1
    ensures !nonInteractive ==> n == attempts
  {
    if nonInteractive then 1 else attempts
  }

  /**
   * In non-interactive mode the given text is tried exactly once and no line
   * is read, so an empty value fails at once unless the parse accepts it.
   */
  lemma NonInteractiveSingleTry<T>(parse: string -> Verdict<T>, value: string, attempts: nat, input: seq<string>)
    ensures Retry(parse, value, false, Tries(true, attempts), input) == Run(Once(parse(value)), 0)
  {
  }

  /**
   * An accepted value is the parse of the last text tried: the given text when
   * no line was read, the last line read otherwise; every line read before it
   * failed. (Non-interactive mode has a single attempt, as `Tries` makes it.)
   */
  lemma {:induction false} AcceptedIsLastTry<T>(parse: string -> Verdict<T>, value: string, interactive: bool, tries: nat, input: seq<string>)
    requires interactive || tries <= 1
    requires Retry(parse, value, interactive, tries, input).outcome.Accepted?
    ensures var r := Retry(parse, value, interactive, tries, input);
      && (r.asked == 0 ==> parse(value) == Valid(r.outcome.value))
      && (r.asked > 0 ==> parse(input[r.asked - 1]) == Valid(r.outcome.value))
      && (forall i :: 0 <= i < r.asked - 1 ==> parse(input[i]) == Invalid)
    decreases tries
  {
    if interactive && value == "" {
      if parse(input[0]).Invalid? {
        AcceptedIsLastTry(parse, "", interactive, tries - 1, input[1..]);
      }
    } else if parse(value).Invalid? {
      AcceptedIsLastTry(parse, "", interactive, tries - 1, input);
    }
  }

  /**
   * Giving up means every attempt was used on a text that failed: the given
   * text, when it was tried, and each line read, one per remaining attempt.
   */
  lemma {:induction false} GaveUpUsesEveryTry<T>(parse: string -> Verdict<T>, value: string, interactive: bool, tries: nat, input: seq<string>)
    requires tries > 0
    requires Retry(parse, value, interactive, tries, input).outcome.GaveUp?
    ensures var r := Retry(parse, value, interactive, tries, input);
      && ((!interactive || value != "") ==> parse(value) == Invalid)
      && r.asked == (if !interactive then 0 else if value == "" then tries else tries - 1)
      && (forall i :: 0 <= i < r.asked ==> parse(input[i]) == Invalid)
    decreases tries
  {
    if interactive && value == "" {
      if tries > 1 {
        GaveUpUsesEveryTry(parse, "", interactive, tries - 1, input[1..]);
      }
    } else if tries > 1 {
      GaveUpUsesEveryTry(parse, "", interactive, tries - 1, input);
    }
  }

  /**
   * Running out of input happens only in interactive mode, after the whole
   * script was read and every line of it failed.
   */
  lemma {:induction false} EndOfInputReadsAll<T>(parse: string -> Verdict<T>, value: string, interactive: bool, tries: nat, input: seq<string>)
    requires Retry(parse, value, interactive, tries, input).outcome.EndOfInput?
    ensures var r := Retry(parse, value, interactive, tries, input);
      && interactive && r.asked == |input| && r.asked < tries
      && (forall i :: 0 <= i < |input| ==> parse(input[i]) == Invalid)
    decreases tries
  {
    if interactive && value == "" {
      if input != [] {
        EndOfInputReadsAll(parse, "", interactive, tries - 1, input[1..]);
      }
    } else {
      EndOfInputReadsAll(parse, "", interactive, tries - 1, input);
    }
  }

  /** A (start, end) pair of times. */
  type Interval = (Time, Time)

  predicate ValidInterval(i: Interval) {
    ValidTime(i.0) && ValidTime(i.1)
  }

  /** An argument as argparse left it (a string), or after a validator replaced it by its value. */
  datatype Field<T> = Raw(text: string) | Parsed(value: T)

  /** The default of the validators' `attempts` parameter. */
  const DefaultAttempts: nat := 3

  /** How the program stops when a validator does not return: exit status 1, EOFError, or another exception. */
  datatype Stop = ExitFailure | InputExhausted | Uncaught

  function StopOf<T>(o: Outcome<T>): Stop
    requires !o.Accepted?
  {
    match o
    case GaveUp => ExitFailure
    case EndOfInput => InputExhausted
    case Crashed => Uncaught
  }

  /** The argument fields `check_args` may overwrite. */
  datatype ArgFields = ArgFields(date: Field<Date>, workHours: Field<Interval>, breakTime: Field<Interval>, comment: string)

  /** What `check_args` leaves: how it stopped, if it did, the fields, and the number of lines read. */
  datatype ArgsRun = ArgsRun(stop: Option<Stop>, fields: ArgFields, asked: nat)

  predicate AllRaw(f: ArgFields) {
    f.date.Raw? && f.workHours.Raw? && f.breakTime.Raw?
  }

  /**
   * The work-hours check followed by the break-time check of `check_args`,
   * each a retry loop over `parse`, once `n` lines of `input` are read.
   */
  function IntervalsRun(parse: string -> Verdict<Interval>, nonInteractive: bool, f: ArgFields, input: seq<string>, n: nat)
    : (r: ArgsRun)
    requires n <= |input| && f.workHours.Raw? && f.breakTime.Raw?
    ensures n <= r.asked <= |input| && r.fields.date == f.date && r.fields.comment == f.comment
  {
    var w := Retry(parse, f.workHours.text, !nonInteractive, Tries(nonInteractive, DefaultAttempts), input[n..]);
    if !w.outcome.Accepted? then ArgsRun(Some(StopOf(w.outcome)), f, n + w.asked)
    else BreakRun(parse, nonInteractive, f.(workHours := Parsed(w.outcome.value)), input, n + w.asked)
  }

  /** The second interval check, on the break time, once `n` lines of `input` are read. */
  function BreakRun(parse: string -> Verdict<Interval>, nonInteractive: bool, f: ArgFields, input: seq<string>, n: nat)
    : (r: ArgsRun)
    requires n <= |input| && f.breakTime.Raw?
    ensures n <= r.asked <= |input|
    ensures r.fields.date == f.date && r.fields.workHours == f.workHours && r.fields.comment == f.comment
  {
    var b := Retry(parse, f.breakTime.text, !nonInteractive, Tries(nonInteractive, DefaultAttempts), input[n..]);
    if !b.outcome.Accepted? then ArgsRun(Some(StopOf(b.outcome)), f, n + b.asked)
    else ArgsRun(None, f.(breakTime := Parsed(b.outcome.value)), n + b.asked)
  }

  /** A value a validator accepts is one its parse returned, so it has every property all such values have. */
  lemma AcceptedKeeps<T>(parse: string -> Verdict<T>, ok: T -> bool, value: string, nonInteractive: bool, input: seq<string>)
    requires forall s :: parse(s).Valid? ==> ok(parse(s).value)
    requires Retry(parse, value, !nonInteractive, Tries(nonInteractive, DefaultAttempts), input).outcome.Accepted?
    ensures ok(Retry(parse, value, !nonInteractive, Tries(nonInteractive, DefaultAttempts), input).outcome.value)
  {
    var r := Retry(parse, value, !nonInteractive, Tries(nonInteractive, DefaultAttempts), input);
    AcceptedIsLastTry(parse, value, !nonInteractive, Tries(nonInteractive, DefaultAttempts), input);
    if r.asked == 0 {
      assert parse(value).Valid?;
    } else {
      assert parse(input[r.asked - 1]).Valid?;
    }
  }

  /** When both interval checks return, both fields hold intervals of valid times. */
  lemma IntervalsReady(parse: string -> Verdict<Interval>, nonInteractive: bool, f: ArgFields, input: seq<string>, n: nat)
    requires forall s :: parse(s).Valid? ==> ValidInterval(parse(s).value)
    requires n <= |input| && f.workHours.Raw? && f.breakTime.Raw?
    requires IntervalsRun(parse, nonInteractive, f, input, n).stop.None?
    ensures var g := IntervalsRun(parse, nonInteractive, f, input, n).fields;
      g.workHours.Parsed? && g.breakTime.Parsed? && ValidInterval(g.workHours.value) && ValidInterval(g.breakTime.value)
  {
    var tries := Tries(nonInteractive, DefaultAttempts);
    AcceptedKeeps(parse, ValidInterval, f.workHours.text, nonInteractive, input[n..]);
    var w := Retry(parse, f.workHours.text, !nonInteractive, tries, input[n..]);
    AcceptedKeeps(parse, ValidInterval, f.breakTime.text, nonInteractive, input[n + w.asked..]);
  }

  /**
   * The terminal: every line the user will type, in order, and how many of
   * them `input` has returned so far.
   */
  class Terminal {
    const lines: seq<string>
    var read: nat

    constructor (lines: seq<string>)
      ensures this.lines == lines && read == 0
    {
      this.lines := lines;
      read := 0;
    }

    /** `input(message)`: the next line, or None where it raises EOFError. */
    method ReadLine() returns (line: Option<string>)
      requires read <= |lines|
      modifies this
      ensures old(read) == |lines| ==> line == None && read == old(read)
      ensures old(read) < |lines| ==> line == Some(lines[old(read)]) && read == old(read) + 1
    {
      if read == |lines| {
        return None;
      }
      line := Some(lines[read]);
      read := read + 1;
    }
  }

  /**
   * The `while attempts` loop of the validators: `attempts` is forced to 1 in
   * non-interactive mode; each failed try decrements it and clears the text so
   * that the next try reads a line.
   */
  method Ask<T>(parse: string -> Verdict<T>, value: string, nonInteractive: bool, attempts: nat, term: Terminal)
    returns (outcome: Outcome<T>)
    requires term.read <= |term.lines|
    modifies term
    ensures term.read <= |term.lines|
    ensures var r := Retry(parse, value, !nonInteractive, Tries(nonInteractive, attempts), term.lines[old(term.read)..]);
      outcome == r.outcome && term.read == old(term.read) + r.asked
  {
    ghost var start := term.read;
    var left: nat := if nonInteractive then 1 else attempts;
    var text := value;
    while left > 0
      invariant start <= term.read <= |term.lines|
      invariant nonInteractive ==> term.read == start && left <= 1
      invariant var r := Retry(parse, text, !nonInteractive, left, term.lines[term.read..]);
        Retry(parse, value, !nonInteractive, Tries(nonInteractive, attempts), term.lines[start..]) == Run(r.outcome, term.read - start + r.asked)
      decreases left
    {
      if text == "" && !nonInteractive {
        ghost var before := term.read;
        var line := term.ReadLine();
        if line.None? {
          return EndOfInput;
        }
        assert term.lines[before..][1..] == term.lines[term.read..];
        text := line.value;
      }
      match parse(text)
      case Valid(x) =>
        return Accepted(x);
      case Raises =>
        return Crashed;
      case Invalid =>
        left := left - 1;
        text := "";
    }
    return GaveUp;
  }
}
