// Rucksack reorganisation (year 2022, day 3): each line is a rucksack whose
// two halves share one item type; groups of three lines share a badge.

module Rucksack {
  import opened Common

  predicate IsLower(c: char) { 'a' <= c <= 'z' }
  predicate IsUpper(c: char) { 'A' <= c <= 'Z' }

  /** `letter_score`: a..z are 1..26, A..Z are 27..52, anything else 0. */
  function LetterScore(c: char): (r: nat)
    ensures IsLower(c) ==> r == 1 + (c as int - 'a' as int) && 1 <= r <= 26
    ensures IsUpper(c) ==> r == 27 + (c as int - 'A' as int) && 27 <= r <= 52
    ensures r == 0 <==> !IsLower(c) && !IsUpper(c)
  {
    if IsLower(c) then 1 + (c as int - 'a' as int)
    else if IsUpper(c) then 27 + (c as int - 'A' as int)
    else 0
  }

  /** Different letters score differently. */
  lemma ScoreInjective(c: char, d: char)
    requires IsLower(c) || IsUpper(c)
    requires LetterScore(c) == LetterScore(d)
    ensures c == d
  {
    if IsLower(c) {
      assert IsLower(d);
    } else {
      assert IsUpper(d);
    }
  }

  /**
   * An item of `a` that also occurs in `b`, or `None` when they share
   * nothing (the program then panics on `unwrap`). The program takes
   * whichever common item the hash set yields first; this takes the first
   * in `a`, which is the same item whenever only one item is shared.
   */
  function CommonItem(a: string, b: string): (r: Option<char>)
    ensures r.Some? <==> exists c :: c in a && c in b
    ensures r.Some? ==> r.value in a && r.value in b
  {
    if a == [] then None
    else if a[0] in b then Some(a[0])
    else
      var r := CommonItem(a[1..], b);
      assert forall c :: c in a && c in b ==> c in a[1..] by {
        assert a == [a[0]] + a[1..];
      }
      r
  }

  /** The items shared by all of `a`, `b` and `c`: the first in `a`, if any. */
  function CommonItem3(a: string, b: string, c: string): (r: Option<char>)
    ensures r.Some? <==> exists x :: x in a && x in b && x in c
    ensures r.Some? ==> r.value in a && r.value in b && r.value in c
  {
    if a == [] then None
    else if a[0] in b && a[0] in c then Some(a[0])
    else
      var r := CommonItem3(a[1..], b, c);
      assert forall x :: x in a && x in b && x in c ==> x in a[1..] by {
        assert a == [a[0]] + a[1..];
      }
      r
  }

  /** When exactly one item is shared, that is the item found. */
  lemma UniqueCommon(a: string, b: string, x: char)
    requires x in a && x in b
    requires forall c :: c in a && c in b ==> c == x
    ensures CommonItem(a, b) == Some(x)
  {
  }

  /** A rucksack's shared item: the halves split at `len / 2`. */
  function Misplaced(line: string): (r: Option<char>)
    ensures r.Some? ==> r.value in line[..|line| / 2] && r.value in line[|line| / 2..]
  {
    CommonItem(line[..|line| / 2], line[|line| / 2..])
  }

  /** `part1`: the sum of the misplaced items' scores; panics on a line with none. */
  function Part1(lines: seq<string>): (r: Result<nat>)
    ensures r.Ok? <==> forall i :: 0 <= i < |lines| ==> Misplaced(lines[i]).Some?
    ensures r.Ok? ==> r.value <= 52 * |lines|
  {
    if lines == [] then Ok(0)
    else
      match (Part1(lines[..|lines| - 1]), Misplaced(lines[|lines| - 1]))
      case (Ok(total), Some(c)) => Ok(total + LetterScore(c))
      case _ => Panic
  }

  /** Taking the lines three at a time, every group is complete and its three rucksacks share an item. */
  predicate Badged(lines: seq<string>)
    decreases |lines|
  {
    lines == [] || (|lines| >= 3 && CommonItem3(lines[0], lines[1], lines[2]).Some? && Badged(lines[3..]))
  }

  lemma {:induction false} BadgedGroupsComplete(lines: seq<string>)
    requires Badged(lines)
    ensures |lines| % 3 == 0
    decreases |lines|
  {
    if lines != [] {
      BadgedGroupsComplete(lines[3..]);
    }
  }

  /**
   * `part2`: the sum of the badges' scores, taking the lines three at a
   * time; panics on a group without a common item and on a last group of
   * fewer than three lines.
   */
  function Part2(lines: seq<string>): (r: Result<nat>)
    ensures r.Ok? <==> Badged(lines)
    ensures r.Ok? ==> r.value <= 52 * (|lines| / 3)
    decreases |lines|
  {
    if lines == [] then Ok(0)
    else if |lines| < 3 then Panic
    else
      match (CommonItem3(lines[0], lines[1], lines[2]), Part2(lines[3..]))
      case (Some(c), Ok(total)) => Ok(LetterScore(c) + total)
      case _ => Panic
  }
}
