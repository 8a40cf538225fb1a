/**
 * The `requires` generator of `setup.py`: the pip requirements named by a
 * requirements file, one per line, with blank lines, comments and `-r`
 * includes skipped. The file is given as its lines.
 */
module Setup {
  import opened Text

  /** The prefixes, after stripping, of the lines that name no requirement. */
  const SkipPrefixes: set<string> := {"#", "##", "-r"}

  /** `line[0:2]`: the first two characters, or the whole line when it is shorter. */
  function Head2(line: string): (h: string)
    ensures |h| <= 2 && h <= line
    ensures |line| >= 2 ==> |h| == 2
  {
    if |line| < 2 then line else line[..2]
  }

  /** Whether the generator skips a line it has already stripped. */
  predicate Skipped(line: string) {
    line == "" || Strip(Head2(line)) in SkipPrefixes
  }

  /** What the generator may yield: a non-blank line with no whitespace at either end, which it does not skip. */
  predicate Requirement(x: string) {
    x != [] && !IsSpace(x[0]) && !IsSpace(x[|x| - 1]) && !Skipped(x)
  }

  /** `f` applied to each element, in order. */
  function Map<T, U>(f: T -> U, s: seq<T>): (r: seq<U>)
    ensures |r| == |s|
    ensures forall i :: 0 <= i < |s| ==> r[i] == f(s[i])
  {
    if s == [] then [] else [f(s[0])] + Map(f, s[1..])
  }

  /** The elements `skip` does not reject, in order. */
  function Filter<T>(skip: T -> bool, s: seq<T>): (r: seq<T>)
    ensures |r| <= |s|
    ensures forall k :: 0 <= k < |r| ==> !skip(r[k])
  {
    if s == [] then []
    else
      var rest := Filter(skip, s[1..]);
      if skip(s[0]) then rest
      else
        var r := [s[0]] + rest;
        assert forall k :: 0 < k < |r| ==> r[k] == rest[k - 1];
        r
  }

  /** The requirements `requires` yields, in file order: each line stripped, then the skipped ones dropped. */
  function Requires(lines: seq<string>): (r: seq<string>)
    ensures |r| <= |lines|
  {
    Filter(Skipped, Map(Strip, lines))
  }

  lemma {:induction false} MapAppend<T, U>(f: T -> U, a: seq<T>, b: seq<T>)
    ensures Map(f, a + b) == Map(f, a) + Map(f, b)
  {
  }

  lemma {:induction false} FilterAppend<T>(skip: T -> bool, a: seq<T>, b: seq<T>)
    ensures Filter(skip, a + b) == Filter(skip, a) + Filter(skip, b)
  {
    if a == [] {
      assert a + b == b;
    } else {
      assert (a + b)[0] == a[0];
      assert (a + b)[1..] == a[1..] + b;
      FilterAppend(skip, a[1..], b);
      if !skip(a[0]) {
        assert [a[0]] + (Filter(skip, a[1..]) + Filter(skip, b)) == ([a[0]] + Filter(skip, a[1..])) + Filter(skip, b);
      }
    }
  }

  /** A filter that rejects every element keeps none. */
  lemma {:induction false} FilterNone<T>(skip: T -> bool, s: seq<T>)
    requires forall i :: 0 <= i < |s| ==> skip(s[i])
    ensures Filter(skip, s) == []
  {
    if s != [] {
      FilterNone(skip, s[1..]);
    }
  }

  /** A filter that rejects every mapped element keeps none. */
  lemma FilterMapNone<T, U>(skip: U -> bool, f: T -> U, s: seq<T>)
    requires forall i :: 0 <= i < |s| ==> skip(f(s[i]))
    ensures Filter(skip, Map(f, s)) == []
  {
    FilterNone(skip, Map(f, s));
  }

  /** The generator handles each line on its own: the requirements of two parts of a file, one after the other. */
  lemma RequiresAppend(a: seq<string>, b: seq<string>)
    ensures Requires(a + b) == Requires(a) + Requires(b)
  {
    MapAppend(Strip, a, b);
    FilterAppend(Skipped, Map(Strip, a), Map(Strip, b));
  }

  /** Every position moved one further on. */
  function Shift(p: seq<nat>): (r: seq<nat>)
    ensures |r| == |p| && forall k :: 0 <= k < |p| ==> r[k] == p[k] + 1
  {
    seq(|p|, k requires 0 <= k < |p| => p[k] + 1)
  }

  /** The positions of the elements `skip` does not reject, in order. */
  function Positions<T>(skip: T -> bool, s: seq<T>): (pos: seq<nat>)
    ensures |pos| == |Filter(skip, s)|
    ensures forall k :: 0 <= k < |pos| ==> pos[k] < |s|
  {
    if s == [] then []
    else
      var rest := Shift(Positions(skip, s[1..]));
      if skip(s[0]) then rest else [0] + rest
  }

  /** The k-th element the filter keeps is the element at the k-th position. */
  lemma {:induction false} PositionsPick<T>(skip: T -> bool, s: seq<T>, k: nat)
    requires k < |Filter(skip, s)|
    ensures Filter(skip, s)[k] == s[Positions(skip, s)[k]]
  {
    var rest := Positions(skip, s[1..]);
    if skip(s[0]) {
      PositionsPick(skip, s[1..], k);
    } else if k > 0 {
      PositionsPick(skip, s[1..], k - 1);
    }
  }

  /** The positions strictly increase: the filter keeps the order. */
  lemma {:induction false} PositionsIncrease<T>(skip: T -> bool, s: seq<T>)
    ensures forall k, l :: 0 <= k < l < |Positions(skip, s)| ==> Positions(skip, s)[k] < Positions(skip, s)[l]
  {
    if s != [] {
      PositionsIncrease(skip, s[1..]);
    }
  }

  /** Every element `skip` does not reject has its position in the list: the filter drops nothing else. */
  lemma {:induction false} PositionsComplete<T>(skip: T -> bool, s: seq<T>, i: nat)
    requires i < |s| && !skip(s[i])
    ensures i in Positions(skip, s)
  {
    if i > 0 {
      assert s[1..][i - 1] == s[i];
      PositionsComplete(skip, s[1..], i - 1);
      var rest := Positions(skip, s[1..]);
      var k :| 0 <= k < |rest| && rest[k] == i - 1;
      assert Shift(rest)[k] == i;
    }
  }

  /**
   * `requires` yields the stripped lines that are not skipped, in file order
   * and no others: the k-th requirement is line `pos[k]` stripped, the
   * positions increase, and every line whose stripped text is not skipped
   * has its position in `pos`.
   */
  lemma RequiresInOrder(lines: seq<string>) returns (pos: seq<nat>)
    ensures |pos| == |Requires(lines)|
    ensures forall k :: 0 <= k < |pos| ==> pos[k] < |lines| && Requires(lines)[k] == Strip(lines[pos[k]])
    ensures forall k, l :: 0 <= k < l < |pos| ==> pos[k] < pos[l]
    ensures forall i :: 0 <= i < |lines| && !Skipped(Strip(lines[i])) ==> exists k :: 0 <= k < |pos| && pos[k] == i
  {
    var stripped := Map(Strip, lines);
    pos := Positions(Skipped, stripped);
    forall k | 0 <= k < |pos|
      ensures Requires(lines)[k] == Strip(lines[pos[k]])
    {
      PositionsPick(Skipped, stripped, k);
    }
    PositionsIncrease(Skipped, stripped);
    forall i | 0 <= i < |lines| && !Skipped(Strip(lines[i]))
      ensures exists k :: 0 <= k < |pos| && pos[k] == i
    {
      PositionsComplete(Skipped, stripped, i);
    }
  }

  /** Every requirement yielded is non-blank, has no whitespace at either end, and is not a skipped line. */
  lemma RequiresAreClean(lines: seq<string>)
    ensures forall k :: 0 <= k < |Requires(lines)| ==> Requirement(Requires(lines)[k])
  {
    var pos := RequiresInOrder(lines);
    forall k | 0 <= k < |Requires(lines)|
      ensures Requirement(Requires(lines)[k])
    {
      StripEnds(lines[pos[k]]);
    }
  }

  /** A comment with no space after the hash is still yielded, because `#f` is not a skipped prefix. */
  lemma HashWithoutSpaceIsKept()
    ensures Requires(["#foo"]) == ["#foo"]
  {
    StripClean("#foo");
    assert Head2("#foo") == "#f";
    StripClean("#f");
    assert !Skipped("#foo");
    var stripped := Map(Strip, ["#foo"]);
    assert stripped == ["#foo"];
    assert stripped[1..] == [];
  }

  /** Stripping one or two characters, the first not whitespace, drops only a trailing whitespace character. */
  lemma StripTwo(a: char, b: char)
    requires !IsSpace(a)
    ensures Strip([a, b]) == if IsSpace(b) then [a] else [a, b]
  {
    if IsSpace(b) {
      assert [a, b][..1] == [a];
      StripClean([a]);
    } else {
      StripClean([a, b]);
    }
  }

  /** The first two characters of a line that starts with no whitespace, stripped. */
  lemma StrippedHead(x: string)
    requires x != [] && !IsSpace(x[0])
    ensures Strip(Head2(x)) == if |x| == 1 || IsSpace(x[1]) then [x[0]] else [x[0], x[1]]
  {
    if |x| == 1 {
      StripClean(x);
      assert x == [x[0]];
    } else {
      assert Head2(x) == [x[0], x[1]];
      StripTwo(x[0], x[1]);
    }
  }

  /** Which one- and two-character texts are skipped prefixes. */
  lemma PrefixMembers(a: char, b: char)
    ensures [a] in SkipPrefixes <==> a == '#'
    ensures [a, b] in SkipPrefixes <==> (a == '#' && b == '#') || (a == '-' && b == 'r')
  {
    assert "#" == ['#'] && "##" == ['#', '#'] && "-r" == ['-', 'r'];
  }

  /**
   * Which stripped lines the generator skips: a lone `#`, a `#` followed by
   * another `#` or by whitespace, and anything starting `-r`; every other
   * line, `#foo` among them, is yielded.
   */
  lemma SkippedExactly(x: string)
    requires x != [] && !IsSpace(x[0])
    ensures Skipped(x) <==>
      || (x[0] == '#' && (|x| == 1 || x[1] == '#' || IsSpace(x[1])))
      || (|x| >= 2 && x[0] == '-' && x[1] == 'r')
  {
    StrippedHead(x);
    PrefixMembers(x[0], if |x| == 1 then ' ' else x[1]);
  }
}
