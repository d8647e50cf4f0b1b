// Sonar sweep (year 2021, day 1): how often a depth measurement is larger
// than an earlier one.

module Sonar {
  import opened Common

  /** The number of places `i >= lag` with `depths[i] > depths[i - lag]`. */
  function Increases(depths: seq<int>, lag: nat): (r: nat)
    ensures r <= if |depths| > lag then |depths| - lag else 0
  {
    if |depths| <= lag then 0
    else Increases(depths[..|depths| - 1], lag) + (if depths[|depths| - 1] > depths[|depths| - 1 - lag] then 1 else 0)
  }

  /** The loops of `part1` (lag 1) and `part2` (lag 3): one pass over `lag..len` counting increases. */
  method CountHigher(depths: seq<int>, lag: nat) returns (higher: nat)
    ensures higher == Increases(depths, lag)
  {
    higher := 0;
    if |depths| <= lag {
      return;
    }
    for i := lag to |depths|
      invariant higher == Increases(depths[..i], lag)
    {
      assert depths[..i + 1][..i] == depths[..i];
      if depths[i] > depths[i - lag] {
        higher := higher + 1;
      }
    }
    assert depths[..|depths|] == depths;
  }

  /** `part1`: increases over the previous measurement. */
  method Part1(depths: seq<int>) returns (higher: nat)
    ensures higher == Increases(depths, 1)
    ensures higher <= if |depths| > 1 then |depths| - 1 else 0
  {
    higher := CountHigher(depths, 1);
  }

  /** `part2`: increases over the measurement three places earlier. */
  method Part2(depths: seq<int>) returns (higher: nat)
    ensures higher == WindowIncreases(depths)
    ensures higher <= if |depths| > 3 then |depths| - 3 else 0
  {
    higher := CountHigher(depths, 3);
    LagThreeIsWindows(depths);
  }

  /** The sum of the three-measurement window ending at `i`. */
  function Window(depths: seq<int>, i: nat): int
    requires 2 <= i < |depths|
  {
    depths[i - 2] + depths[i - 1] + depths[i]
  }

  /** The number of three-measurement windows whose sum is larger than the previous window's. */
  function WindowIncreases(depths: seq<int>): nat
  {
    if |depths| <= 3 then 0
    else WindowIncreases(depths[..|depths| - 1]) + (if Window(depths, |depths| - 1) > Window(depths, |depths| - 2) then 1 else 0)
  }

  /** Comparing `depths[i]` with `depths[i - 3]` compares consecutive window sums: the middle terms cancel. */
  lemma {:induction false} LagThreeIsWindows(depths: seq<int>)
    ensures Increases(depths, 3) == WindowIncreases(depths)
  {
    if |depths| > 3 {
      var init := depths[..|depths| - 1];
      LagThreeIsWindows(init);
      assert init[|init| - 2] == depths[|depths| - 3];
    }
  }
}
