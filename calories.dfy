// Calorie counting (year 2022, day 1): the input lists the calories each elf
// carries, one item per line, with a blank line between elves.

module Calories {
  import opened Common

  /** Every non-blank line is a number (the program unwraps the parse). */
  predicate WellFormed(lines: seq<string>)
  {
    forall i :: 0 <= i < |lines| ==> lines[i] == "" || ParseNat(lines[i]).Some?
  }

  /** The total of each elf in input order: a blank line closes the current elf and opens a new one at 0. */
  function Totals(lines: seq<string>): (r: seq<int>)
    requires WellFormed(lines)
    ensures |r| == Blanks(lines) + 1
    ensures forall i :: 0 <= i < |r| ==> r[i] >= 0
  {
    if lines == [] then [0]
    else
      var init, line := lines[..|lines| - 1], lines[|lines| - 1];
      assert WellFormed(init);
      var t := Totals(init);
      if line == "" then t + [0]
      else t[..|t| - 1] + [t[|t| - 1] + ParseNat(line).value]
  }

  /** The number of blank lines. */
  function Blanks(lines: seq<string>): nat
  {
    if lines == [] then 0 else Blanks(lines[..|lines| - 1]) + (if lines[|lines| - 1] == "" then 1 else 0)
  }

  /** Each total is the sum of one run of non-blank lines: appending a number only adds to the last total. */
  lemma {:induction false} TotalsOfGroup(lines: seq<string>, group: seq<string>)
    requires WellFormed(lines) && WellFormed(lines + group) && forall i :: 0 <= i < |group| ==> group[i] != "" && ParseNat(group[i]).Some?
    ensures var t, u := Totals(lines), Totals(lines + group);
      |u| == |t| && u[..|t| - 1] == t[..|t| - 1] && u[|t| - 1] == t[|t| - 1] + Sum(Values(group))
  {
    if group != [] {
      var init := group[..|group| - 1];
      assert (lines + group)[..|lines + group| - 1] == lines + init;
      TotalsOfGroup(lines, init);
      assert Values(group)[..|group| - 1] == Values(init);
    } else {
      assert lines + group == lines;
    }
  }

  function Values(group: seq<string>): (r: seq<int>)
    requires forall i :: 0 <= i < |group| ==> ParseNat(group[i]).Some?
    ensures |r| == |group| && forall i :: 0 <= i < |group| ==> r[i] == ParseNat(group[i]).value
  {
    seq(|group|, i requires 0 <= i < |group| => ParseNat(group[i]).value as int)
  }

  /**
   * `preprocess`: accumulates the current elf, pushes it on every blank line
   * and once more at the end, then sorts ascending. Panics on a line that is
   * not a number.
   */
  method Preprocess(lines: seq<string>) returns (r: Result<seq<int>>)
    ensures r.Ok? <==> WellFormed(lines)
    ensures r.Ok? ==> r.value == Sort(Totals(lines))
  {
    var current := 0;
    var elves: seq<int> := [];
    for i := 0 to |lines|
      invariant WellFormed(lines[..i])
      invariant elves + [current] == Totals(lines[..i])
    {
      TotalsStep(lines, i);
      if lines[i] == "" {
        elves := elves + [current];
        current := 0;
      } else {
        var v := ParseNat(lines[i]);
        if v.None? {
          assert !WellFormed(lines) by {
            assert lines[i] != "" && ParseNat(lines[i]).None?;
          }
          return Panic;
        }
        current := current + v.value;
      }
    }
    assert lines[..|lines|] == lines;
    elves := elves + [current];
    return Ok(Sort(elves));
  }

  lemma TotalsStep(lines: seq<string>, i: nat)
    requires i < |lines| && WellFormed(lines[..i])
    ensures lines[i] == "" || ParseNat(lines[i]).Some? ==> WellFormed(lines[..i + 1])
    ensures lines[i] == "" ==> Totals(lines[..i + 1]) == Totals(lines[..i]) + [0]
    ensures lines[i] != "" && ParseNat(lines[i]).Some? ==>
      var t := Totals(lines[..i]);
      Totals(lines[..i + 1]) == t[..|t| - 1] + [t[|t| - 1] + ParseNat(lines[i]).value]
  {
    assert lines[..i + 1][..i] == lines[..i];
  }

  /** `part1`: the last of the sorted totals, which is the largest total. */
  method Part1(lines: seq<string>) returns (r: Result<int>)
    ensures r.Ok? <==> WellFormed(lines)
    ensures r.Ok? ==> r.value in Totals(lines) && forall t :: t in Totals(lines) ==> t <= r.value
  {
    var elves := Preprocess(lines);
    if elves.Panic? {
      return Panic;
    }
    var s := elves.value;
    SortedLastIsMax(Totals(lines), s);
    assert s[|s| - 1] in multiset(s);
    return Ok(s[|s| - 1]);
  }

  /**
   * `part2`: the sum of the last three sorted totals, which are the three
   * largest; slicing panics when there are fewer than three elves.
   */
  method Part2(lines: seq<string>) returns (r: Result<int>)
    ensures r.Ok? <==> WellFormed(lines) && Blanks(lines) >= 2
    ensures r.Ok? ==> TopThree(Totals(lines), r.value)
  {
    var elves := Preprocess(lines);
    if elves.Panic? || |elves.value| < 3 {
      return Panic;
    }
    var s := elves.value;
    var n := |s|;
    TopThreeOfSorted(Totals(lines), s);
    return Ok(s[n - 3] + s[n - 2] + s[n - 1]);
  }

  /**
   * `v` is the sum of three of the totals, and every total left over is at
   * most each of the three.
   */
  ghost predicate TopThree(t: seq<int>, v: int)
  {
    exists x, y, z :: ThreeLargest(t, x, y, z) && v == x + y + z
  }

  /** `x`, `y` and `z` occur in `t` (as three entries), and every other entry is at most each of them. */
  ghost predicate ThreeLargest(t: seq<int>, x: int, y: int, z: int)
  {
    var rest := multiset(t) - multiset{x, y, z};
    multiset{x, y, z} <= multiset(t) && forall w :: w in rest ==> w <= x && w <= y && w <= z
  }

  /** The three last elements of an ascending permutation are the three largest. */
  lemma TopThreeOfSorted(t: seq<int>, s: seq<int>)
    requires SortedAsc(s) && multiset(s) == multiset(t) && |s| >= 3
    ensures TopThree(t, s[|s| - 3] + s[|s| - 2] + s[|s| - 1])
  {
    var n := |s|;
    var x, y, z := s[n - 3], s[n - 2], s[n - 1];
    var init := s[..n - 3];
    assert multiset(t) - multiset{x, y, z} == multiset(init) by {
      assert s == init + [x, y, z];
      assert multiset(s) == multiset(init) + multiset{x, y, z};
    }
    PrefixBelow(s, init);
    assert ThreeLargest(t, x, y, z);
  }

  /** In an ascending sequence, every entry before the last three is at most each of them. */
  lemma PrefixBelow(s: seq<int>, init: seq<int>)
    requires SortedAsc(s) && |s| >= 3 && init == s[..|s| - 3]
    ensures forall w :: w in multiset(init) ==> w <= s[|s| - 3] && w <= s[|s| - 2] && w <= s[|s| - 1]
  {
    forall w | w in multiset(init) ensures w <= s[|s| - 3] && w <= s[|s| - 2] && w <= s[|s| - 1] {
      assert w in init;
    }
  }
}
