// Camp cleanup (year 2022, day 4): pairs of inclusive section ranges `a-b,c-d`.

module Cleanup {
  import opened Common

  /** An inclusive range of section numbers (start, end). */
  type Range = (nat, nat)

  predicate InRange(r: Range, x: int) { r.0 <= x <= r.1 }

  /** One range contains the other (the test of `part1`). */
  predicate EitherContains(a: Range, b: Range)
  {
    (a.0 >= b.0 && a.1 <= b.1) || (b.0 >= a.0 && b.1 <= a.1)
  }

  /** The ranges overlap (the test of `part2`). */
  predicate Overlaps(a: Range, b: Range)
  {
    a.0 <= b.1 && a.1 >= b.0
  }

  /** For non-empty ranges the overlap test holds exactly when some section lies in both. */
  lemma OverlapMeansShared(a: Range, b: Range)
    requires a.0 <= a.1 && b.0 <= b.1
    ensures Overlaps(a, b) <==> exists x :: InRange(a, x) && InRange(b, x)
  {
    if Overlaps(a, b) {
      assert InRange(a, Max(a.0, b.0)) && InRange(b, Max(a.0, b.0));
    }
  }

  /** For non-empty ranges the containment test holds exactly when all sections of one lie in the other. */
  lemma ContainsMeansSubset(a: Range, b: Range)
    requires a.0 <= a.1 && b.0 <= b.1
    ensures EitherContains(a, b) <==>
      (forall x :: InRange(a, x) ==> InRange(b, x)) || (forall x :: InRange(b, x) ==> InRange(a, x))
  {
    if (forall x :: InRange(a, x) ==> InRange(b, x)) {
      assert InRange(a, a.0) && InRange(a, a.1);
    }
    if (forall x :: InRange(b, x) ==> InRange(a, x)) {
      assert InRange(b, b.0) && InRange(b, b.1);
    }
  }

  /** `part1`: the number of pairs where one range contains the other. */
  function CountContained(pairs: seq<(Range, Range)>): (n: nat)
    ensures n <= |pairs|
  {
    if pairs == [] then 0
    else CountContained(pairs[..|pairs| - 1]) + (if EitherContains(pairs[|pairs| - 1].0, pairs[|pairs| - 1].1) then 1 else 0)
  }

  /** `part2`: the number of overlapping pairs. */
  function CountOverlapping(pairs: seq<(Range, Range)>): (n: nat)
    ensures n <= |pairs|
  {
    if pairs == [] then 0
    else CountOverlapping(pairs[..|pairs| - 1]) + (if Overlaps(pairs[|pairs| - 1].0, pairs[|pairs| - 1].1) then 1 else 0)
  }

  /** Both tests are symmetric: swapping the two ranges of every pair changes neither count. */
  lemma {:induction false} CountsSymmetric(pairs: seq<(Range, Range)>)
    ensures CountContained(Swapped(pairs)) == CountContained(pairs)
    ensures CountOverlapping(Swapped(pairs)) == CountOverlapping(pairs)
  {
    if pairs != [] {
      CountsSymmetric(pairs[..|pairs| - 1]);
      assert Swapped(pairs)[..|pairs| - 1] == Swapped(pairs[..|pairs| - 1]);
    }
  }

  /** With non-empty ranges every contained pair also overlaps, so part two's count is at least part one's. */
  lemma {:induction false} ContainedAreOverlapping(pairs: seq<(Range, Range)>)
    requires forall i :: 0 <= i < |pairs| ==> pairs[i].0.0 <= pairs[i].0.1 && pairs[i].1.0 <= pairs[i].1.1
    ensures CountContained(pairs) <= CountOverlapping(pairs)
  {
    if pairs != [] {
      ContainedAreOverlapping(pairs[..|pairs| - 1]);
    }
  }
}
