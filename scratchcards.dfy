// Scratchcards (year 2023, day 4): each card has a set of winning numbers
// and a set of numbers it holds; its matches are the numbers in both.

module Scratchcards {
  import opened Common

  /** A card: the winning numbers (before `|`) and the numbers held (after it). */
  datatype Card = Card(winning: set<nat>, numbers: set<nat>)

  /** The numbers of a list of tokens, as a set; `None` (a panic) when a token is not a number. */
  function ParseNumbers(tokens: seq<string>): (r: Option<set<nat>>)
    ensures r.Some? <==> forall i :: 0 <= i < |tokens| ==> ParseNat(tokens[i]).Some?
    ensures r.Some? ==> forall n :: n in r.value <==> exists i :: 0 <= i < |tokens| && ParseNat(tokens[i]) == Some(n)
  {
    if tokens == [] then Some({})
    else
      var init, last := tokens[..|tokens| - 1], tokens[|tokens| - 1];
      assert forall i :: 0 <= i < |init| ==> init[i] == tokens[i];
      match (ParseNumbers(init), ParseNat(last))
      case (Some(s), Some(n)) => Some(s + {n})
      case _ => None
  }

  /** The number of matches: numbers held that are also winning numbers. */
  function Matches(card: Card): nat
  {
    |card.numbers * card.winning|
  }

  function Pow2(k: nat): (r: nat)
    ensures r >= 1
  {
    if k == 0 then 1 else 2 * Pow2(k - 1)
  }

  /** A card's points: 0 without matches, otherwise 1 doubled for every match after the first. */
  function Points(k: nat): (r: nat)
    ensures r == 0 <==> k == 0
  {
    if k > 0 then Pow2(k - 1) else 0
  }

  /** Every match after the first doubles the points. */
  lemma PointsDouble(k: nat)
    requires k >= 1
    ensures Points(k + 1) == 2 * Points(k)
  {
  }

  /** Points are at least the number of matches. */
  lemma {:induction false} PointsAtLeastMatches(k: nat)
    ensures Points(k) >= k
  {
    if k > 1 {
      PointsAtLeastMatches(k - 1);
      PointsDouble(k - 1);
    }
  }

  /** `part1`: the total of the cards' points. */
  function Part1(cards: seq<Card>): (r: nat)
    ensures r >= |cards| - CountNoMatch(cards)
  {
    if cards == [] then 0
    else
      var last := cards[|cards| - 1];
      PointsAtLeastMatches(Matches(last));
      Part1(cards[..|cards| - 1]) + Points(Matches(last))
  }

  /** The number of cards without a match. */
  function CountNoMatch(cards: seq<Card>): (r: nat)
    ensures r <= |cards|
  {
    if cards == [] then 0 else CountNoMatch(cards[..|cards| - 1]) + (if Matches(cards[|cards| - 1]) == 0 then 1 else 0)
  }

  // ------------------------------------------------------------ part two

  /**
   * The copies of card `key` won by the copies of the cards `1..k`: card
   * `j` wins one copy of each of the `Matches` cards after it for each of
   * its own copies.
   */
  function Won(cards: seq<Card>, k: nat, key: nat): nat
    requires k <= |cards|
    decreases 2 * k + 1
  {
    if k == 0 then 0
    else Won(cards, k - 1, key) + (if k < key <= k + Matches(cards[k - 1]) then Copies(cards, k) else 0)
  }

  /** The copies of card `j` (1-based) once the cards before it are processed: the original plus those won. */
  function Copies(cards: seq<Card>, j: nat): nat
    requires 1 <= j <= |cards|
    decreases 2 * j
  {
    1 + Won(cards, j - 1, j)
  }

  /** The entry of card `key` in the map after the cards `1..k`; 0 stands for a missing entry. */
  function Count(cards: seq<Card>, k: nat, key: nat): nat
    requires k <= |cards|
  {
    (if 1 <= key <= k then 1 else 0) + Won(cards, k, key)
  }

  /** Processing card `k + 1` completes its count: later cards add only to cards after them. */
  lemma {:induction false} WonLater(cards: seq<Card>, k: nat, k': nat, key: nat)
    requires k <= k' <= |cards| && key <= k + 1
    ensures Won(cards, k', key) == Won(cards, k, key)
    decreases k' - k
  {
    if k' > k {
      WonLater(cards, k, k' - 1, key);
    }
  }

  /** After all cards, each card's entry is its number of copies. */
  lemma CountIsCopies(cards: seq<Card>, j: nat)
    requires 1 <= j <= |cards|
    ensures Count(cards, |cards|, j) == Copies(cards, j)
  {
    WonLater(cards, j - 1, |cards|, j);
  }

  /** When no card wins copies past the end of the table, no entry exists past it. */
  lemma {:induction false} NothingPastTable(cards: seq<Card>, k: nat, key: nat)
    requires k <= |cards| && key > |cards|
    requires forall j :: 0 <= j < |cards| ==> j + 1 + Matches(cards[j]) <= |cards|
    ensures Count(cards, k, key) == 0
  {
    if k > 0 {
      NothingPastTable(cards, k - 1, key);
    }
  }

  /** The map's entry for `key` is `expected`, a missing entry standing for 0. */
  predicate Tally(m: map<nat, nat>, key: nat, expected: nat)
  {
    (key in m ==> m[key] == expected) && (key !in m ==> expected == 0)
  }

  /** `*cards.entry(key).or_default() += x`. */
  function Bump(m: map<nat, nat>, key: nat, x: nat): map<nat, nat>
  {
    m[key := (if key in m then m[key] else 0) + x]
  }

  /** The entry of `key` partway through card `k + 1`: its own copy counted and the first `c` cards after it won. */
  function Partial(cards: seq<Card>, k: nat, c: nat, key: nat): nat
    requires k < |cards|
  {
    Count(cards, k, key) + (if key == k + 1 then 1 else 0) + (if k + 1 < key <= k + 1 + c then Copies(cards, k + 1) else 0)
  }

  /** Winning all of card `k + 1`'s matches completes the count after `k + 1` cards. */
  lemma PartialComplete(cards: seq<Card>, k: nat, key: nat)
    requires k < |cards|
    ensures Partial(cards, k, Matches(cards[k]), key) == Count(cards, k + 1, key)
  {
  }

  /** The map of `part2` after all cards: the count of every card, including any won past the table. */
  method CollectCopies(cards: seq<Card>) returns (m: map<nat, nat>)
    ensures forall key: nat :: Tally(m, key, Count(cards, |cards|, key))
  {
    m := map[];
    for k := 0 to |cards|
      invariant forall key: nat :: Tally(m, key, Count(cards, k, key))
    {
      assert Tally(m, k + 1, Count(cards, k, k + 1));
      m := Bump(m, k + 1, 1);
      var count := Matches(cards[k]);
      for card := 0 to count
        invariant forall key: nat :: Tally(m, key, Partial(cards, k, card, key))
        invariant k + 1 in m && m[k + 1] == Copies(cards, k + 1)
      {
        ghost var before, won := m, card + 1;
        m := Bump(m, k + 1 + card + 1, m[k + 1]);
        forall key: nat ensures Tally(m, key, Partial(cards, k, won, key)) {
          assert Tally(before, key, Partial(cards, k, card, key));
        }
      }
      ghost var next := k + 1;
      forall key: nat ensures Tally(m, key, Count(cards, next, key)) {
        PartialComplete(cards, k, key);
      }
    }
  }

  function ValueOf(m: map<nat, nat>): nat -> int
  {
    key => if key in m then m[key] else 0
  }

  function CountOf(cards: seq<Card>): nat -> int
  {
    (key: nat) => Count(cards, |cards|, key)
  }

  /** The sum of the map's values, over its entries in whatever order the map yields them. */
  method SumValues(m: map<nat, nat>) returns (sum: int)
    ensures sum == SetSum(m.Keys, ValueOf(m))
  {
    var keys := m.Keys;
    sum := 0;
    while keys != {}
      invariant keys <= m.Keys
      invariant sum + SetSum(keys, ValueOf(m)) == SetSum(m.Keys, ValueOf(m))
      decreases |keys|
    {
      var key :| key in keys;
      SetSumRemove(keys, ValueOf(m), key);
      sum := sum + m[key];
      keys := keys - {key};
    }
  }

  /**
   * `part2`: the total number of cards held in the end, summed over a set
   * of cards outside which every count is 0.
   */
  method Part2(cards: seq<Card>) returns (sum: int)
    ensures exists keys: set<nat> ::
              && (forall key: nat :: key !in keys ==> Count(cards, |cards|, key) == 0)
              && sum == SetSum(keys, CountOf(cards))
  {
    var m := CollectCopies(cards);
    sum := SumValues(m);
    forall key: nat | key !in m.Keys ensures Count(cards, |cards|, key) == 0 {
      assert Tally(m, key, Count(cards, |cards|, key));
    }
    forall key | key in m.Keys ensures ValueOf(m)(key) == CountOf(cards)(key) {
      assert Tally(m, key, Count(cards, |cards|, key));
    }
    SetSumAgree(m.Keys, ValueOf(m), CountOf(cards));
  }
}
