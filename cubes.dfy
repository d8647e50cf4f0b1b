// Cube conundrum (year 2023, day 2): each game is a list of handfuls of
// red, green and blue cubes drawn from a bag.

module Cubes {
  import opened Common

  /** The numbers of red, green and blue cubes of one handful (or one bag), at indices 0, 1 and 2. */
  type Draw = s: seq<nat> | |s| == 3 witness [0, 0, 0]

  /** `red`, `green` and `blue` are the colours 0, 1 and 2; any other name panics. */
  function ColourIndex(name: string): (r: Option<nat>)
    ensures r.Some? <==> name == "red" || name == "green" || name == "blue"
    ensures r == Some(0) <==> name == "red"
    ensures r == Some(1) <==> name == "green"
    ensures r.Some? ==> r.value < 3
  {
    if name == "red" then Some(0)
    else if name == "green" then Some(1)
    else if name == "blue" then Some(2)
    else None
  }

  /** An entry "count colour" reads: the count is a number and the colour is known. */
  predicate Readable(cube: (string, string))
  {
    ParseNat(cube.0).Some? && ColourIndex(cube.1).Some?
  }

  /** The count of the last readable entry naming colour `c`, and 0 when no entry names it. */
  function LastCount(cubes: seq<(string, string)>, c: nat): nat
  {
    if cubes == [] then 0
    else
      var last := cubes[|cubes| - 1];
      if Readable(last) && ColourIndex(last.1) == Some(c) then ParseNat(last.0).value
      else LastCount(cubes[..|cubes| - 1], c)
  }

  /** A colour no entry names counts 0. */
  lemma {:induction false} LastCountAbsent(cubes: seq<(string, string)>, c: nat)
    requires forall i :: 0 <= i < |cubes| ==> ColourIndex(cubes[i].1) != Some(c)
    ensures LastCount(cubes, c) == 0
  {
    if cubes != [] {
      LastCountAbsent(cubes[..|cubes| - 1], c);
    }
  }

  /** When the entries read, a colour's count is the one its last entry gives. */
  lemma {:induction false} LastCountIsLastEntry(cubes: seq<(string, string)>, c: nat, i: nat)
    requires forall k :: 0 <= k < |cubes| ==> Readable(cubes[k])
    requires i < |cubes| && ColourIndex(cubes[i].1) == Some(c) && ParseNat(cubes[i].0).Some?
    requires forall k :: i < k < |cubes| ==> ColourIndex(cubes[k].1) != Some(c)
    ensures LastCount(cubes, c) == ParseNat(cubes[i].0).value
  {
    if i < |cubes| - 1 {
      LastCountIsLastEntry(cubes[..|cubes| - 1], c, i);
    }
  }

  /**
   * One handful, from its entries: every colour starts at 0 and each entry
   * overwrites its colour's count. Panics on a count that is not a number
   * and on an unknown colour.
   */
  method ParseRecord(cubes: seq<(string, string)>) returns (r: Result<Draw>)
    ensures r.Ok? <==> forall i :: 0 <= i < |cubes| ==> Readable(cubes[i])
    ensures r.Ok? ==> forall c :: 0 <= c < 3 ==> r.value[c] == LastCount(cubes, c)
  {
    var gameCubes: Draw := [0, 0, 0];
    for k := 0 to |cubes|
      invariant forall i :: 0 <= i < k ==> Readable(cubes[i])
      invariant forall c :: 0 <= c < 3 ==> gameCubes[c] == LastCount(cubes[..k], c)
    {
      var count := ParseNat(cubes[k].0);
      if count.None? {
        return Panic;
      }
      var colour := ColourIndex(cubes[k].1);
      if colour.None? {
        return Panic;
      }
      assert cubes[..k + 1][..k] == cubes[..k];
      gameCubes := gameCubes[colour.value := count.value];
    }
    assert cubes[..|cubes|] == cubes;
    return Ok(gameCubes);
  }

  /** Every entry of every handful of a game reads. */
  predicate GameReadable(records: seq<seq<(string, string)>>)
  {
    forall j, i :: 0 <= j < |records| && 0 <= i < |records[j]| ==> Readable(records[j][i])
  }

  /** `parse_input` for one game: its handfuls, in order. */
  method ParseGame(records: seq<seq<(string, string)>>) returns (r: Result<seq<Draw>>)
    ensures r.Ok? <==> GameReadable(records)
    ensures r.Ok? ==> |r.value| == |records|
    ensures r.Ok? ==> forall j, c :: 0 <= j < |records| && 0 <= c < 3 ==> r.value[j][c] == LastCount(records[j], c)
  {
    var game: seq<Draw> := [];
    for j := 0 to |records|
      invariant |game| == j
      invariant forall j', i :: 0 <= j' < j && 0 <= i < |records[j']| ==> Readable(records[j'][i])
      invariant forall j', c :: 0 <= j' < j && 0 <= c < 3 ==> game[j'][c] == LastCount(records[j'], c)
    {
      var draw := ParseRecord(records[j]);
      if draw.Panic? {
        return Panic;
      }
      game := game + [draw.value];
    }
    return Ok(game);
  }

  // ------------------------------------------------------------ part one

  /** The bag of part one: 12 red, 13 green and 14 blue cubes. */
  const Bag: Draw := [12, 13, 14]

  /** A handful fits in a bag: no colour exceeds the bag's count. */
  predicate Within(d: Draw, bag: Draw)
  {
    d[0] <= bag[0] && d[1] <= bag[1] && d[2] <= bag[2]
  }

  /** Every handful of the game fits in the bag. */
  predicate Bounds(game: seq<Draw>, bag: Draw)
  {
    forall i :: 0 <= i < |game| ==> Within(game[i], bag)
  }

  /**
   * `part1`: the sum of the 1-based ids of the games possible with part
   * one's bag; between 0 (no game possible) and 1 + ... + n (all possible).
   */
  function Part1(games: seq<seq<Draw>>): (r: nat)
    ensures r <= IndexSum(|games|)
    ensures (forall g :: 0 <= g < |games| ==> Bounds(games[g], Bag)) ==> r == IndexSum(|games|)
    ensures (forall g :: 0 <= g < |games| ==> !Bounds(games[g], Bag)) ==> r == 0
  {
    if games == [] then 0
    else Part1(games[..|games| - 1]) + (if Bounds(games[|games| - 1], Bag) then |games| else 0)
  }

  // ------------------------------------------------------------ part two

  function MaxNat(a: nat, b: nat): nat { if a >= b then a else b }

  /** The componentwise maximum over the handfuls, starting from an empty bag. */
  function LeastBag(game: seq<Draw>): Draw
  {
    if game == [] then [0, 0, 0]
    else
      var b, d := LeastBag(game[..|game| - 1]), game[|game| - 1];
      [MaxNat(b[0], d[0]), MaxNat(b[1], d[1]), MaxNat(b[2], d[2])]
  }

  /** The componentwise maximum holds every handful, and every bag that holds every handful holds it. */
  lemma {:induction false} LeastBagIsLeast(game: seq<Draw>)
    ensures Bounds(game, LeastBag(game))
    ensures forall other: Draw :: Bounds(game, other) ==> Within(LeastBag(game), other)
  {
    if game != [] {
      var init := game[..|game| - 1];
      LeastBagIsLeast(init);
      forall other: Draw | Bounds(game, other) ensures Within(LeastBag(game), other) {
        assert Bounds(init, other) by {
          forall i | 0 <= i < |init| ensures Within(init[i], other) {
            assert init[i] == game[i];
          }
        }
        assert Within(game[|game| - 1], other);
      }
    }
  }

  /** `part2`'s bag for one game: the maximum of each colour over the handfuls. */
  method MinimalBag(game: seq<Draw>) returns (bag: Draw)
    ensures bag == LeastBag(game)
  {
    bag := [0, 0, 0];
    for k := 0 to |game|
      invariant bag == LeastBag(game[..k])
    {
      assert game[..k + 1][..k] == game[..k];
      bag := [MaxNat(bag[0], game[k][0]), MaxNat(bag[1], game[k][1]), MaxNat(bag[2], game[k][2])];
    }
    assert game[..|game|] == game;
  }

  /** The power of a bag: the product of its three counts. */
  function Power(bag: Draw): nat
  {
    bag[0] * bag[1] * bag[2]
  }

  /** The sum of the powers of the games' least bags. */
  function TotalPower(games: seq<seq<Draw>>): nat
  {
    if games == [] then 0 else TotalPower(games[..|games| - 1]) + Power(LeastBag(games[|games| - 1]))
  }

  /** `part2`: the sum over the games of the power of the least bag that makes the game possible. */
  method Part2(games: seq<seq<Draw>>) returns (sum: nat)
    ensures sum == TotalPower(games)
  {
    sum := 0;
    for g := 0 to |games|
      invariant sum == TotalPower(games[..g])
    {
      var bag := MinimalBag(games[g]);
      assert games[..g + 1][..g] == games[..g];
      sum := sum + Power(bag);
    }
    assert games[..|games|] == games;
  }

  /** A game is possible with a bag exactly when the bag holds its least bag. */
  lemma PossibleIffLeastBagFits(game: seq<Draw>, bag: Draw)
    ensures Bounds(game, bag) <==> Within(LeastBag(game), bag)
  {
    LeastBagIsLeast(game);
    if Within(LeastBag(game), bag) {
      forall i | 0 <= i < |game| ensures Within(game[i], bag) {
        assert Within(game[i], LeastBag(game));
      }
    }
  }
}
