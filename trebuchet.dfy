// Trebuchet calibration (year 2023, day 1): each line's value is ten times
// its first digit plus its last digit; in part two a digit may also be
// spelled out as one of the names "one" to "nine".

module Trebuchet {
  import opened Common

  const Names: seq<string> := ["one", "two", "three", "four", "five", "six", "seven", "eight", "nine"]

  /** `pat` occurs in `line` starting at index `i`. */
  predicate IsAt(line: string, pat: string, i: nat)
  {
    i + |pat| <= |line| && line[i..i + |pat|] == pat
  }

  /** `str::find` for a pattern: the first index where `pat` occurs, scanning from `i`. */
  function FindFrom(line: string, pat: string, i: nat): (r: Option<nat>)
    ensures r.Some? ==> i <= r.value && IsAt(line, pat, r.value) && forall j: nat :: i <= j < r.value ==> !IsAt(line, pat, j)
    ensures r.None? ==> forall j: nat :: i <= j ==> !IsAt(line, pat, j)
    decreases |line| - i
  {
    if i + |pat| > |line| then None
    else if line[i..i + |pat|] == pat then Some(i)
    else FindFrom(line, pat, i + 1)
  }

  /** `str::rfind` for a pattern: the last index below `i` where `pat` occurs. */
  function RFindBelow(line: string, pat: string, i: nat): (r: Option<nat>)
    ensures r.Some? ==> r.value < i && IsAt(line, pat, r.value) && forall j: nat :: r.value < j < i ==> !IsAt(line, pat, j)
    ensures r.None? ==> forall j: nat :: j < i ==> !IsAt(line, pat, j)
  {
    if i == 0 then None
    else if IsAt(line, pat, i - 1) then Some(i - 1)
    else RFindBelow(line, pat, i - 1)
  }

  /** The name of the value `v` starts at index `i`. */
  predicate NameAt(line: string, i: nat, v: nat)
  {
    1 <= v <= 9 && IsAt(line, Names[v - 1], i)
  }

  /** A digit character with value `v` stands at index `i`. */
  predicate DigitAt(line: string, i: nat, v: nat)
  {
    i < |line| && IsDigit(line[i]) && v == DigitValue(line[i])
  }

  /** A digit, written or spelled, with value `v` starts at index `i`. */
  predicate Occurs(line: string, i: nat, v: nat)
  {
    DigitAt(line, i, v) || NameAt(line, i, v)
  }

  /** The first digit character at or after `i`: its index and value. */
  function FirstDigit(line: string, i: nat): (r: Option<(nat, nat)>)
    ensures r.Some? ==> i <= r.value.0 && DigitAt(line, r.value.0, r.value.1)
    ensures forall j: nat, v: nat :: i <= j && DigitAt(line, j, v) ==> r.Some? && r.value.0 <= j
    decreases |line| - i
  {
    if i >= |line| then None
    else if IsDigit(line[i]) then Some((i, DigitValue(line[i])))
    else FirstDigit(line, i + 1)
  }

  /** The last digit character below index `i`: its index and value. */
  function LastDigit(line: string, i: nat): (r: Option<(nat, nat)>)
    requires i <= |line|
    ensures r.Some? ==> r.value.0 < i && DigitAt(line, r.value.0, r.value.1)
    ensures forall j: nat, v: nat :: j < i && DigitAt(line, j, v) ==> r.Some? && j <= r.value.0
  {
    if i == 0 then None
    else if IsDigit(line[i - 1]) then Some((i - 1, DigitValue(line[i - 1])))
    else LastDigit(line, i - 1)
  }

  /**
   * The earliest first occurrence among the names of `k + 1..9`, as
   * `min_by_key` over the enumerated names keeps it: its index and value.
   */
  function FirstName(line: string, k: nat): (r: Option<(nat, nat)>)
    requires k <= 9
    ensures r.Some? ==> k < r.value.1 && NameAt(line, r.value.0, r.value.1)
    ensures forall j: nat, v: nat :: k < v && NameAt(line, j, v) ==> r.Some? && r.value.0 <= j
    decreases 9 - k
  {
    if k == 9 then None
    else
      var here := FindFrom(line, Names[k], 0);
      var rest := FirstName(line, k + 1);
      match (here, rest)
      case (None, _) => rest
      case (Some(i), None) => Some((i, k + 1))
      case (Some(i), Some(p)) => if p.0 < i then rest else Some((i, k + 1))
  }

  /** The latest last occurrence among the names of `k + 1..9`, as `max_by_key` keeps it. */
  function LastName(line: string, k: nat): (r: Option<(nat, nat)>)
    requires k <= 9
    ensures r.Some? ==> k < r.value.1 && NameAt(line, r.value.0, r.value.1)
    ensures forall j: nat, v: nat :: k < v && NameAt(line, j, v) ==> r.Some? && j <= r.value.0
    decreases 9 - k
  {
    if k == 9 then None
    else
      var here := RFindBelow(line, Names[k], |line| + 1);
      var rest := LastName(line, k + 1);
      match (here, rest)
      case (None, _) => rest
      case (Some(i), None) => Some((i, k + 1))
      case (Some(i), Some(p)) => if p.0 >= i then rest else Some((i, k + 1))
  }

  /** A name lies inside the line. */
  lemma NameInside(line: string, i: nat, v: nat)
    requires NameAt(line, i, v)
    ensures i < |line|
  {
    assert |Names[v - 1]| >= 3;
  }

  // ------------------------------------------------------------ part one

  predicate FirstDigitIs(line: string, i: nat)
  {
    i < |line| && IsDigit(line[i]) && forall k :: 0 <= k < i ==> !IsDigit(line[k])
  }

  predicate LastDigitIs(line: string, j: nat)
  {
    j < |line| && IsDigit(line[j]) && forall k :: j < k < |line| ==> !IsDigit(line[k])
  }

  /** Some digit character occurs in the line. */
  predicate HasDigit(line: string)
  {
    exists i :: 0 <= i < |line| && IsDigit(line[i])
  }

  /** Part one's value of a line: 10 times the first digit plus the last; `None` (a panic) without digits. */
  function LineValue1(line: string): (r: Option<nat>)
    ensures r.Some? <==> HasDigit(line)
  {
    var first, last := FirstDigit(line, 0), LastDigit(line, |line|);
    if first.Some? && last.Some? then Some(10 * first.value.1 + last.value.1)
    else
      assert !HasDigit(line) by {
        forall i | 0 <= i < |line| ensures !IsDigit(line[i]) {
          if IsDigit(line[i]) { assert DigitAt(line, i, DigitValue(line[i])); }
        }
      }
      None
  }

  /** `v` is ten times the value of the first digit, at `i`, plus that of the last, at `j`. */
  predicate DigitsMake(line: string, i: nat, j: nat, v: nat)
  {
    FirstDigitIs(line, i) && LastDigitIs(line, j) && v == 10 * DigitValue(line[i]) + DigitValue(line[j])
  }

  /** A line's value is built from its first digit and its last digit. */
  lemma LineValue1Meaning(line: string)
    requires HasDigit(line)
    ensures LineValue1(line).Some? && exists i: nat, j: nat :: DigitsMake(line, i, j, LineValue1(line).value)
  {
    var w :| 0 <= w < |line| && IsDigit(line[w]);
    assert DigitAt(line, w, DigitValue(line[w]));
    var first, last := FirstDigit(line, 0), LastDigit(line, |line|);
    assert FirstDigitIs(line, first.value.0) by {
      forall k | 0 <= k < first.value.0 ensures !IsDigit(line[k]) {
        if IsDigit(line[k]) { assert DigitAt(line, k, DigitValue(line[k])); }
      }
    }
    assert LastDigitIs(line, last.value.0) by {
      forall k | last.value.0 < k < |line| ensures !IsDigit(line[k]) {
        if IsDigit(line[k]) { assert DigitAt(line, k, DigitValue(line[k])); }
      }
    }
    assert DigitsMake(line, first.value.0, last.value.0, LineValue1(line).value);
  }

  /** The sum of part one's line values, or `None` when some line has no digit. */
  function Total1(lines: seq<string>): (r: Option<nat>)
    ensures r.Some? <==> forall k :: 0 <= k < |lines| ==> HasDigit(lines[k])
  {
    if lines == [] then Some(0)
    else
      var init := lines[..|lines| - 1];
      assert forall k :: 0 <= k < |init| ==> init[k] == lines[k];
      match (Total1(init), LineValue1(lines[|lines| - 1]))
      case (Some(t), Some(v)) => Some(t + v)
      case _ => None
  }

  /** `part1`: the running sum of the line values; panics on a line without a digit. */
  method Part1(lines: seq<string>) returns (r: Result<nat>)
    ensures r.Ok? <==> forall k :: 0 <= k < |lines| ==> HasDigit(lines[k])
    ensures r.Ok? ==> Total1(lines) == Some(r.value)
  {
    var sum := 0;
    for k := 0 to |lines|
      invariant Total1(lines[..k]) == Some(sum)
    {
      var v := LineValue1(lines[k]);
      if v.None? {
        return Panic;
      }
      assert lines[..k + 1][..k] == lines[..k];
      sum := sum + v.value;
    }
    assert lines[..|lines|] == lines;
    return Ok(sum);
  }

  // ------------------------------------------------------------ part two

  /** Some digit, written or spelled, occurs in the line. */
  ghost predicate AnyOccurs(line: string)
  {
    exists i: nat, v: nat :: Occurs(line, i, v)
  }

  /** A digit starts at `i` and none starts before. */
  ghost predicate FirstOccurrence(line: string, i: nat)
  {
    (exists v: nat :: Occurs(line, i, v)) && forall j: nat, v: nat :: j < i ==> !Occurs(line, j, v)
  }

  /** A digit starts at `i` and none starts after. */
  ghost predicate LastOccurrence(line: string, i: nat)
  {
    (exists v: nat :: Occurs(line, i, v)) && forall j: nat, v: nat :: j > i ==> !Occurs(line, j, v)
  }

  /** Every occurrence lies at or after the first name or digit and at or before the last one of its kind. */
  lemma OccursBounds(line: string, j: nat, v: nat)
    requires Occurs(line, j, v)
    ensures DigitAt(line, j, v) ==> FirstDigit(line, 0).Some? && FirstDigit(line, 0).value.0 <= j
    ensures DigitAt(line, j, v) ==> LastDigit(line, |line|).Some? && j <= LastDigit(line, |line|).value.0
    ensures !DigitAt(line, j, v) ==> FirstName(line, 0).Some? && FirstName(line, 0).value.0 <= j
    ensures !DigitAt(line, j, v) ==> LastName(line, 0).Some? && j <= LastName(line, 0).value.0
  {
    if !DigitAt(line, j, v) {
      assert NameAt(line, j, v);
      NameInside(line, j, v);
    }
  }

  /**
   * The first value: the name if it starts before the first digit, where a
   * missing name or digit stands at index `len` with value 0.
   */
  function FirstValue(line: string): nat
  {
    var name := FirstName(line, 0);
    var digit := FirstDigit(line, 0);
    var (ni, nv) := if name.Some? then name.value else (|line|, 0);
    var (di, dv) := if digit.Some? then digit.value else (|line|, 0);
    if ni < di then nv else dv
  }

  /** The first value is the value of the earliest digit, written or spelled, and 0 when there is none. */
  lemma FirstValueSpec(line: string)
    ensures AnyOccurs(line) ==> exists i: nat :: FirstOccurrence(line, i) && Occurs(line, i, FirstValue(line))
    ensures !AnyOccurs(line) ==> FirstValue(line) == 0
  {
    var name, digit := FirstName(line, 0), FirstDigit(line, 0);
    var ni := if name.Some? then name.value.0 else |line|;
    var di := if digit.Some? then digit.value.0 else |line|;
    if name.Some? {
      NameInside(line, name.value.0, name.value.1);
    }
    var m := if ni < di then ni else di;
    forall j: nat, v: nat | Occurs(line, j, v) ensures m <= j {
      OccursBounds(line, j, v);
    }
    if name.Some? || digit.Some? {
      var r := FirstValue(line);
      if ni < di {
        assert NameAt(line, m, r);
      } else {
        assert DigitAt(line, m, r);
      }
      assert Occurs(line, m, r);
      assert FirstOccurrence(line, m);
    } else {
      forall j: nat, v: nat ensures !Occurs(line, j, v) {
        if Occurs(line, j, v) {
          OccursBounds(line, j, v);
        }
      }
    }
  }

  /**
   * The last value as written: the name if it starts after the last digit,
   * where a missing name or digit stands at index 0 with value 0.
   */
  function LastValueAsWritten(line: string): (r: nat)
    ensures OnlyNameAtStart(line) ==> r == 0
    ensures !OnlyNameAtStart(line) ==> r == LastValue(line)
  {
    var name := LastName(line, 0);
    var digit := LastDigit(line, |line|);
    var (ni, nv) := if name.Some? then name.value else (0, 0);
    var (di, dv) := if digit.Some? then digit.value else (0, 0);
    if ni > di then nv else dv
  }

  /** The line has no digit character, and its last spelled digit starts at index 0. */
  predicate OnlyNameAtStart(line: string)
  {
    LastDigit(line, |line|).None? && LastName(line, 0).Some? && LastName(line, 0).value.0 == 0
  }

  /** The last value as intended: whichever of the last name and the last digit that exist starts later. */
  function LastValue(line: string): nat
  {
    var name := LastName(line, 0);
    var digit := LastDigit(line, |line|);
    match (name, digit)
    case (Some(n), Some(d)) => if n.0 > d.0 then n.1 else d.1
    case (Some(n), None) => n.1
    case (None, Some(d)) => d.1
    case (None, None) => 0
  }

  /** The last value is the value of the latest digit, written or spelled, and 0 when there is none. */
  lemma LastValueSpec(line: string)
    ensures AnyOccurs(line) ==> exists i: nat :: LastOccurrence(line, i) && Occurs(line, i, LastValue(line))
    ensures !AnyOccurs(line) ==> LastValue(line) == 0
  {
    var name, digit := LastName(line, 0), LastDigit(line, |line|);
    if name.Some? || digit.Some? {
      var m := if name.None? then digit.value.0
        else if digit.None? then name.value.0
        else Max(name.value.0, digit.value.0);
      forall j: nat, v: nat | Occurs(line, j, v) ensures j <= m {
        OccursBounds(line, j, v);
      }
      var r := LastValue(line);
      if name.Some? && (digit.None? || name.value.0 > digit.value.0) {
        assert NameAt(line, m, r);
      } else {
        assert DigitAt(line, m, r);
      }
      assert Occurs(line, m, r);
      assert LastOccurrence(line, m);
    } else {
      forall j: nat, v: nat ensures !Occurs(line, j, v) {
        if Occurs(line, j, v) {
          OccursBounds(line, j, v);
        }
      }
    }
  }

  /** Part two's value of a line as written. */
  function LineValue2AsWritten(line: string): (r: nat)
    ensures OnlyNameAtStart(line) ==> r == LineValue2(line) - LastValue(line)
    ensures !OnlyNameAtStart(line) ==> r == LineValue2(line)
  {
    10 * FirstValue(line) + LastValueAsWritten(line)
  }

  /** Part two's value of a line: ten times the first digit plus the last, written or spelled. */
  function LineValue2(line: string): nat
  {
    10 * FirstValue(line) + LastValue(line)
  }

  /** `v` has the value of the first occurrence, at `i`, as its tens and that of the last, at `j`, as its units. */
  ghost predicate OccurrencesMake(line: string, i: nat, j: nat, v: nat)
  {
    FirstOccurrence(line, i) && LastOccurrence(line, j) && Occurs(line, i, v / 10) && Occurs(line, j, v % 10)
  }

  /**
   * Part two's value has the value of the first occurrence as its tens and
   * that of the last occurrence as its units, and is 0 without occurrences.
   */
  lemma LineValue2Meaning(line: string)
    ensures AnyOccurs(line) ==> exists i: nat, j: nat :: OccurrencesMake(line, i, j, LineValue2(line))
    ensures !AnyOccurs(line) ==> LineValue2(line) == 0
  {
    var f, l := FirstValue(line), LastValue(line);
    FirstValueSpec(line);
    LastValueSpec(line);
    if AnyOccurs(line) {
      var i: nat :| FirstOccurrence(line, i) && Occurs(line, i, f);
      var j: nat :| LastOccurrence(line, j) && Occurs(line, j, l);
      OccursValue(line, j, l);
      var n := LineValue2(line);
      assert n == 10 * f + l;
      TensAndUnits(f, l);
      assert n / 10 == f && n % 10 == l;
      assert Occurs(line, i, n / 10) && Occurs(line, j, n % 10);
      assert OccurrencesMake(line, i, j, n);
    }
  }

  lemma TensAndUnits(f: nat, l: nat)
    requires l <= 9
    ensures (10 * f + l) / 10 == f && (10 * f + l) % 10 == l
  {
  }

  lemma OccursValue(line: string, j: nat, v: nat)
    requires Occurs(line, j, v)
    ensures v <= 9
  {
  }

  /**
   * The line "one": its only occurrence is the name at index 0, so the
   * intended value is 11, but as written the last value falls back to the
   * missing digit's value 0 because the missing digit's index 0 is not
   * smaller than the name's.
   */
  lemma NameAtStartOnly()
    ensures LineValue2AsWritten("one") == 10
    ensures LineValue2("one") == 11
  {
    OneFacts();
  }

  /** In "one" there is no digit character, and the only name is "one" at index 0. */
  lemma OneFacts()
    ensures FirstDigit("one", 0) == None && LastDigit("one", 3) == None
    ensures FirstName("one", 0) == Some((0, 1)) && LastName("one", 0) == Some((0, 1))
  {
    var line := "one";
    assert NameAt(line, 0, 1);
    forall i: nat, v: nat | NameAt(line, i, v) ensures i == 0 && v == 1 {
      NameInside(line, i, v);
      assert |Names[v - 1]| >= 3;
    }
    assert !IsDigit(line[0]);
    assert LastDigit(line, 3) == None;
  }

  /** The sum of part two's line values. */
  function Total2(lines: seq<string>): nat
  {
    if lines == [] then 0 else Total2(lines[..|lines| - 1]) + LineValue2(lines[|lines| - 1])
  }

  /** The sum of part two's line values as the code computes them. */
  function Total2AsWritten(lines: seq<string>): nat
  {
    if lines == [] then 0 else Total2AsWritten(lines[..|lines| - 1]) + LineValue2AsWritten(lines[|lines| - 1])
  }

  /** A line's value as written is at most the intended one, and equal to it exactly off `OnlyNameAtStart`. */
  lemma LineValue2AsWrittenBelow(line: string)
    ensures LineValue2AsWritten(line) <= LineValue2(line)
    ensures LineValue2AsWritten(line) == LineValue2(line) <==> !OnlyNameAtStart(line)
  {
    if OnlyNameAtStart(line) {
      assert LastValue(line) == LastName(line, 0).value.1 >= 1;
    }
  }

  /**
   * The total as written never exceeds the intended total, and equals it
   * exactly when no line is a line without digit characters whose last
   * spelled digit starts at index 0.
   */
  lemma {:induction false} Total2AsWrittenMeaning(lines: seq<string>)
    ensures Total2AsWritten(lines) <= Total2(lines)
    ensures Total2AsWritten(lines) == Total2(lines) <==> forall i :: 0 <= i < |lines| ==> !OnlyNameAtStart(lines[i])
  {
    if lines != [] {
      var init, last := lines[..|lines| - 1], lines[|lines| - 1];
      Total2AsWrittenMeaning(init);
      LineValue2AsWrittenBelow(last);
      assert Total2AsWritten(lines) == Total2AsWritten(init) + LineValue2AsWritten(last);
      assert Total2(lines) == Total2(init) + LineValue2(last);
      EverySnoc(lines, init, line => !OnlyNameAtStart(line));
    }
  }

  /** A property holds of every element exactly when it holds of every element but the last and of the last. */
  lemma EverySnoc<T>(s: seq<T>, init: seq<T>, ok: T -> bool)
    requires s != [] && init == s[..|s| - 1]
    ensures (forall i :: 0 <= i < |s| ==> ok(s[i])) <==> (forall i :: 0 <= i < |init| ==> ok(init[i])) && ok(s[|s| - 1])
  {
    if (forall i :: 0 <= i < |init| ==> ok(init[i])) && ok(s[|s| - 1]) {
      forall i | 0 <= i < |s| ensures ok(s[i]) {
        if i < |init| { assert s[i] == init[i]; }
      }
    }
  }

  /** `part2`: the running sum of the line values, as the code computes them. */
  method Part2(lines: seq<string>) returns (sum: nat)
    ensures sum == Total2AsWritten(lines)
  {
    sum := 0;
    for k := 0 to |lines|
      invariant sum == Total2AsWritten(lines[..k])
    {
      assert lines[..k + 1][..k] == lines[..k];
      sum := sum + LineValue2AsWritten(lines[k]);
    }
    assert lines[..|lines|] == lines;
  }
}
