// Day 23 of 2022: elves spread out over an unbounded grid. In each round
// every elf with a neighbour proposes a step in the first of four
// directions (rotating from round to round) whose three cells ahead are
// free; an elf moves when no other elf proposed the same cell. The first
// part measures the empty ground in the bounding box after ten rounds;
// the second counts the rounds until nobody moves.

module Diffusion {
  import opened Common

  /** The eight compass points around a cell. */
  datatype Compass = North | NorthWest | West | SouthWest | South | SouthEast | East | NorthEast

  /** A cell as (row, column), rows growing southwards. */
  type Position = (int, int)

  /** The cell next to `p` in direction `d`. */
  function Neighbor(p: Position, d: Compass): Position
  {
    match d
    case North => (p.0 - 1, p.1)
    case NorthWest => (p.0 - 1, p.1 - 1)
    case West => (p.0, p.1 - 1)
    case SouthWest => (p.0 + 1, p.1 - 1)
    case South => (p.0 + 1, p.1)
    case SouthEast => (p.0 + 1, p.1 + 1)
    case East => (p.0, p.1 + 1)
    case NorthEast => (p.0 - 1, p.1 + 1)
  }

  /** Two distinct cells that touch, sideways or diagonally. */
  predicate Adjacent(p: Position, q: Position)
  {
    p != q && -1 <= q.0 - p.0 <= 1 && -1 <= q.1 - p.1 <= 1
  }

  /** The direction from `p` towards an adjacent cell `q`. */
  function Toward(p: Position, q: Position): (d: Compass)
    requires Adjacent(p, q)
    ensures Neighbor(p, d) == q
  {
    if q.0 < p.0 then (if q.1 < p.1 then NorthWest else if q.1 == p.1 then North else NorthEast)
    else if q.0 == p.0 then (if q.1 < p.1 then West else East)
    else (if q.1 < p.1 then SouthWest else if q.1 == p.1 then South else SouthEast)
  }

  /** The eight neighbours are exactly the adjacent cells, one per direction. */
  lemma NeighborsAreAdjacent(p: Position, d: Compass, e: Compass)
    ensures Adjacent(p, Neighbor(p, d))
    ensures Toward(p, Neighbor(p, d)) == d
    ensures Neighbor(p, d) == Neighbor(p, e) ==> d == e
  {
  }

  /** `has_neighbor`: one of the eight cells around `elf` holds an elf. */
  function HasNeighbor(elves: set<Position>, elf: Position): (r: bool)
    ensures r <==> exists q :: q in elves && Adjacent(elf, q)
  {
    var r := Neighbor(elf, North) in elves || Neighbor(elf, NorthWest) in elves
      || Neighbor(elf, West) in elves || Neighbor(elf, SouthWest) in elves
      || Neighbor(elf, South) in elves || Neighbor(elf, SouthEast) in elves
      || Neighbor(elf, East) in elves || Neighbor(elf, NorthEast) in elves;
    assert r <== exists q :: q in elves && Adjacent(elf, q) by {
      if q :| q in elves && Adjacent(elf, q) {
        assert Neighbor(elf, Toward(elf, q)) == q;
      }
    }
    r
  }

  /** The cells on the side of `elf` that a step in `d` goes to: the row above, the row below, the column left or right. */
  predicate OnSide(elf: Position, d: Compass, q: Position)
  {
    match d
    case North => q.0 == elf.0 - 1
    case South => q.0 == elf.0 + 1
    case West => q.1 == elf.1 - 1
    case East => q.1 == elf.1 + 1
    case _ => false
  }

  predicate Cardinal(d: Compass)
  {
    d == North || d == South || d == West || d == East
  }

  /**
   * `can_move`: the three cells on the side of direction `d` are free.
   * Only the four cardinal directions are asked; a diagonal one panics.
   */
  function CanMove(elves: set<Position>, elf: Position, d: Compass): (r: Result<bool>)
    ensures r.Ok? <==> Cardinal(d)
    ensures r == Ok(true) ==> Neighbor(elf, d) !in elves
  {
    match d
    case North => Ok(Neighbor(elf, North) !in elves && Neighbor(elf, NorthWest) !in elves && Neighbor(elf, NorthEast) !in elves)
    case West => Ok(Neighbor(elf, West) !in elves && Neighbor(elf, SouthWest) !in elves && Neighbor(elf, NorthWest) !in elves)
    case South => Ok(Neighbor(elf, South) !in elves && Neighbor(elf, SouthWest) !in elves && Neighbor(elf, SouthEast) !in elves)
    case East => Ok(Neighbor(elf, East) !in elves && Neighbor(elf, SouthEast) !in elves && Neighbor(elf, NorthEast) !in elves)
    case _ => Panic
  }

  /** A cardinal step is possible exactly when no elf is adjacent on that side. */
  lemma CanMoveMeaning(elves: set<Position>, elf: Position, d: Compass)
    requires Cardinal(d)
    ensures CanMove(elves, elf, d) == Ok(true) <==> forall q :: Adjacent(elf, q) && OnSide(elf, d, q) ==> q !in elves
  {
    if CanMove(elves, elf, d) == Ok(true) {
      forall q | Adjacent(elf, q) && OnSide(elf, d, q)
        ensures q !in elves
      {
        assert Neighbor(elf, Toward(elf, q)) == q;
      }
    }
  }

  /** The order the directions are tried in: north, south, west, east. */
  const Order: seq<Compass> := [North, South, West, East]

  /** The direction tried `k`-th in round `round`. */
  function Tried(round: nat, k: nat): (d: Compass)
    ensures Cardinal(d)
  {
    Order[(round + k) % 4]
  }

  /**
   * The inner loop of `simulate_round` from the `k`-th direction on: the
   * cell in the first direction that can be moved to, if any.
   */
  function FirstMove(elves: set<Position>, elf: Position, round: nat, k: nat): (r: Option<Position>)
    ensures r.Some? ==> exists j :: (k <= j < 4 && r.value == Neighbor(elf, Tried(round, j))
      && CanMove(elves, elf, Tried(round, j)) == Ok(true)
      && forall i :: k <= i < j ==> CanMove(elves, elf, Tried(round, i)) == Ok(false))
    ensures r.None? ==> forall i :: k <= i < 4 ==> CanMove(elves, elf, Tried(round, i)) == Ok(false)
    decreases 4 - k
  {
    if k >= 4 then None
    else if CanMove(elves, elf, Tried(round, k)) == Ok(true) then Some(Neighbor(elf, Tried(round, k)))
    else FirstMove(elves, elf, round, k + 1)
  }

  /** The cell `elf` proposes in round `round`: its own when it has no neighbour or cannot move. */
  function Target(elves: set<Position>, elf: Position, round: nat): Position
  {
    if !HasNeighbor(elves, elf) then elf
    else match FirstMove(elves, elf, round, 0)
      case Some(q) => q
      case None => elf
  }

  /** A proposed cell is the elf's own or one free of elves. */
  lemma TargetIsFree(elves: set<Position>, elf: Position, round: nat)
    ensures Target(elves, elf, round) == elf || Target(elves, elf, round) !in elves
  {
  }

  /** The elves proposing cell `t`. */
  function ProposedBy(elves: set<Position>, round: nat, t: Position): set<Position>
  {
    set e | e in elves && Target(elves, e, round) == t
  }

  /** Where an elf ends the round: its proposal if nobody else proposed it, else where it was. */
  function Moved(elves: set<Position>, round: nat, e: Position): Position
  {
    var t := Target(elves, e, round);
    if |ProposedBy(elves, round, t)| == 1 then t else e
  }

  /** The elves after round `round`. */
  function Round(elves: set<Position>, round: nat): set<Position>
  {
    set e | e in elves :: Moved(elves, round, e)
  }

  /** An elf with no neighbour stays where it is. */
  lemma IsolatedStays(elves: set<Position>, round: nat, e: Position)
    requires e in elves && !HasNeighbor(elves, e)
    ensures Moved(elves, round, e) == e
  {
    assert Target(elves, e, round) == e;
  }

  /** No two elves end a round on the same cell. */
  lemma MovedInjective(elves: set<Position>, round: nat, a: Position, b: Position)
    requires a in elves && b in elves && Moved(elves, round, a) == Moved(elves, round, b)
    ensures a == b
  {
    var ta, tb := Target(elves, a, round), Target(elves, b, round);
    TargetIsFree(elves, a, round);
    TargetIsFree(elves, b, round);
    var movesA := |ProposedBy(elves, round, ta)| == 1;
    var movesB := |ProposedBy(elves, round, tb)| == 1;
    if movesA && movesB {
      assert a in ProposedBy(elves, round, ta) && b in ProposedBy(elves, round, ta);
      OnlyMember(ProposedBy(elves, round, ta), a, b);
    } else if movesA && !movesB {
      assert ta == b;
    } else if !movesA && movesB {
      assert tb == a;
    }
  }

  /** A set of one element holds nothing else. */
  lemma OnlyMember<T>(s: set<T>, a: T, b: T)
    requires |s| == 1 && a in s && b in s
    ensures a == b
  {
    if a != b {
      assert {a, b} <= s;
      assert |{a, b}| == 2;
      SubsetCard({a, b}, s);
    }
  }

  lemma {:induction false} SubsetCard<T>(a: set<T>, b: set<T>)
    requires a <= b
    ensures |a| <= |b|
    decreases a
  {
    if a != {} {
      var x :| x in a;
      SubsetCard(a - {x}, b - {x});
    }
  }

  /** The elves of `s` end the round on as many cells as there are elves in `s`. */
  lemma {:induction false} MovedCount(elves: set<Position>, round: nat, s: set<Position>)
    requires s <= elves
    ensures |set e | e in s :: Moved(elves, round, e)| == |s|
    decreases s
  {
    if s != {} {
      var x :| x in s;
      var rest := s - {x};
      MovedCount(elves, round, rest);
      var image := set e | e in rest :: Moved(elves, round, e);
      assert (set e | e in s :: Moved(elves, round, e)) == image + {Moved(elves, round, x)};
      if Moved(elves, round, x) in image {
        var y :| y in rest && Moved(elves, round, y) == Moved(elves, round, x);
        MovedInjective(elves, round, x, y);
      }
    }
  }

  /** A round keeps the number of elves. */
  lemma RoundKeepsCount(elves: set<Position>, round: nat)
    ensures |Round(elves, round)| == |elves|
  {
    MovedCount(elves, round, elves);
  }

  /** The elves after rounds 0 to `n - 1`. */
  function Rounds(elves: set<Position>, n: nat): set<Position>
  {
    if n == 0 then elves else Round(Rounds(elves, n - 1), n - 1)
  }

  lemma {:induction false} RoundsKeepCount(elves: set<Position>, n: nat)
    ensures |Rounds(elves, n)| == |elves|
  {
    if n > 0 {
      var before := Rounds(elves, n - 1);
      RoundsKeepCount(elves, n - 1);
      RoundKeepsCount(before, n - 1);
      assert Rounds(elves, n) == Round(before, n - 1);
    }
  }

  // ------------------------------------------------------------- one round

  /** Every elf's proposal in round `round`. */
  function Proposal(elves: set<Position>, round: nat): Position -> Position
  {
    e => Target(elves, e, round)
  }

  /** The proposals of the elves in `done`, grouped by the cell proposed. */
  function Grouped(elves: set<Position>, round: nat, done: set<Position>): map<Position, set<Position>>
  {
    GroupBy(Proposal(elves, round), done)
  }

  /** The cells proposed by the elves in `done`. */
  function Targets(elves: set<Position>, round: nat, done: set<Position>): set<Position>
  {
    Image(Proposal(elves, round), done)
  }

  function GroupBy(f: Position -> Position, done: set<Position>): map<Position, set<Position>>
  {
    map t | t in Image(f, done) :: set e | e in done && f(e) == t
  }

  function Image(f: Position -> Position, done: set<Position>): set<Position>
  {
    set e | e in done :: f(e)
  }

  /** Adding one elf's proposal to its group. */
  lemma GroupedAdd(elves: set<Position>, round: nat, done: set<Position>, elf: Position)
    requires elf !in done
    ensures var g, t := Grouped(elves, round, done), Target(elves, elf, round);
      Grouped(elves, round, done + {elf}) == g[t := (if t in g then g[t] else {}) + {elf}]
  {
    GroupByAdd(Proposal(elves, round), done, elf);
  }

  lemma GroupByAdd(f: Position -> Position, done: set<Position>, elf: Position)
    requires elf !in done
    ensures var g, t := GroupBy(f, done), f(elf);
      GroupBy(f, done + {elf}) == g[t := (if t in g then g[t] else {}) + {elf}]
  {
    var g, t := GroupBy(f, done), f(elf);
    var g' := GroupBy(f, done + {elf});
    var h := g[t := (if t in g then g[t] else {}) + {elf}];
    assert Image(f, done + {elf}) == Image(f, done) + {t};
    assert g'.Keys == h.Keys;
    forall u | u in h
      ensures g'[u] == h[u]
    {
    }
  }

  /** Where the elves whose proposals are in `ts` end the round. */
  function Settled(elves: set<Position>, round: nat, ts: set<Position>): set<Position>
  {
    set e | e in elves && Target(elves, e, round) in ts :: Moved(elves, round, e)
  }

  /**
   * One proposal settled: a cell proposed by one elf is taken, and the
   * elves of a cell proposed by several stay where they are.
   */
  lemma SettledAdd(elves: set<Position>, round: nat, ts: set<Position>, t: Position)
    requires ProposedBy(elves, round, t) != {}
    ensures var group := ProposedBy(elves, round, t);
      Settled(elves, round, ts + {t}) == Settled(elves, round, ts) + (if |group| == 1 then {t} else group)
  {
    var group := ProposedBy(elves, round, t);
    var added := if |group| == 1 then {t} else group;
    assert (set e | e in group :: Moved(elves, round, e)) == added by {
      if |group| == 1 {
        var e :| e in group;
        assert Moved(elves, round, e) == t;
        forall e' | e' in group
          ensures e' == e
        {
          OnlyMember(group, e, e');
        }
      }
    }
    assert Settled(elves, round, ts + {t}) == Settled(elves, round, ts) + set e | e in group :: Moved(elves, round, e);
  }

  /** The inner loop of `simulate_round`: the cell the elf proposes. */
  method Propose(elves: set<Position>, elf: Position, round: nat) returns (target: Position)
    ensures target == Target(elves, elf, round)
  {
    if !HasNeighbor(elves, elf) {
      return elf;
    }
    target := elf;
    var couldMove := false;
    for k := 0 to 4
      invariant !couldMove ==> FirstMove(elves, elf, round, 0) == FirstMove(elves, elf, round, k)
    {
      var dir := Order[(round + k) % 4];
      if CanMove(elves, elf, dir) == Ok(true) {
        couldMove := true;
        target := Neighbor(elf, dir);
        break;
      }
    }
  }

  /**
   * `simulate_round`: the proposals grouped by cell, then each cell
   * taken by its only proposer or left to the elves that proposed it.
   */
  method SimulateRound(elves: set<Position>, round: nat) returns (newElves: set<Position>)
    ensures newElves == Round(elves, round)
  {
    var proposals := CollectProposals(elves, round);
    newElves := ResolveProposals(elves, round, proposals);
  }

  /** The first loop of `simulate_round`: every elf's proposal, grouped by the cell proposed. */
  method CollectProposals(elves: set<Position>, round: nat) returns (proposals: map<Position, set<Position>>)
    ensures proposals.Keys == Targets(elves, round, elves)
    ensures forall t :: t in proposals ==> proposals[t] == ProposedBy(elves, round, t)
  {
    proposals := map[];
    var remaining := elves;
    assert Grouped(elves, round, elves - remaining) == proposals;
    while remaining != {}
      invariant remaining <= elves
      invariant proposals == Grouped(elves, round, elves - remaining)
      decreases |remaining|
    {
      var elf :| elf in remaining;
      var target := Propose(elves, elf, round);
      GroupedAdd(elves, round, elves - remaining, elf);
      TakeOne(elves, remaining, elf);
      proposals := proposals[target := (if target in proposals then proposals[target] else {}) + {elf}];
      remaining := remaining - {elf};
    }
    assert elves - remaining == elves;
  }

  /** The second loop of `simulate_round`: a cell proposed once is taken, otherwise its proposers stay. */
  method ResolveProposals(elves: set<Position>, round: nat, proposals: map<Position, set<Position>>) returns (newElves: set<Position>)
    requires proposals.Keys == Targets(elves, round, elves)
    requires forall t :: t in proposals ==> proposals[t] == ProposedBy(elves, round, t)
    ensures newElves == Round(elves, round)
  {
    newElves := {};
    var todo := proposals.Keys;
    while todo != {}
      invariant todo <= proposals.Keys
      invariant newElves == Settled(elves, round, proposals.Keys - todo)
      decreases |todo|
    {
      var next :| next in todo;
      var original := proposals[next];
      assert original != {} by {
        var e :| e in elves && Target(elves, e, round) == next;
        assert e in ProposedBy(elves, round, next);
      }
      SettledAdd(elves, round, proposals.Keys - todo, next);
      if |original| == 1 {
        newElves := newElves + {next};
      } else {
        newElves := newElves + original;
      }
      TakeOne(proposals.Keys, todo, next);
      todo := todo - {next};
    }
    assert Settled(elves, round, proposals.Keys) == Round(elves, round);
  }

  /** Taking `x` out of the part still to do adds it to the part done. */
  lemma TakeOne<T>(all: set<T>, todo: set<T>, x: T)
    requires todo <= all && x in todo
    ensures all - todo + {x} == all - (todo - {x})
  {
  }

  // ---------------------------------------------------------------- parts

  /** The elves of the scan: a cell for every `#`. */
  function Scan(lines: seq<string>): (elves: set<Position>)
    ensures forall i, j :: 0 <= i < |lines| && 0 <= j < |lines[i]| ==> ((i, j) in elves <==> lines[i][j] == '#')
    ensures forall p :: p in elves ==> 0 <= p.0 < |lines| && 0 <= p.1 < |lines[p.0]|
  {
    set i, j | 0 <= i < |lines| && 0 <= j < |lines[i]| && lines[i][j] == '#' :: (i, j)
  }

  /** The smallest and largest row and column of a set of elves. */
  datatype Box = Box(minRow: int, maxRow: int, minCol: int, maxCol: int)

  /** Every elf is inside the box and each side of the box touches an elf. */
  predicate Tight(b: Box, elves: set<Position>)
  {
    && (forall e :: e in elves ==> b.minRow <= e.0 <= b.maxRow && b.minCol <= e.1 <= b.maxCol)
    && (exists e :: e in elves && e.0 == b.minRow) && (exists e :: e in elves && e.0 == b.maxRow)
    && (exists e :: e in elves && e.1 == b.minCol) && (exists e :: e in elves && e.1 == b.maxCol)
  }

  /** The minima and maxima of `part1`; with no elves, `unwrap` panics. */
  method Bounds(elves: set<Position>) returns (r: Result<Box>)
    ensures r.Panic? <==> elves == {}
    ensures r.Ok? ==> Tight(r.value, elves)
  {
    if elves == {} {
      return Panic;
    }
    var first :| first in elves;
    var b := Box(first.0, first.0, first.1, first.1);
    var remaining := elves - {first};
    while remaining != {}
      invariant remaining <= elves
      invariant Tight(b, elves - remaining)
      decreases |remaining|
    {
      var e :| e in remaining;
      b := Box(Min(b.minRow, e.0), Max(b.maxRow, e.0), Min(b.minCol, e.1), Max(b.maxCol, e.1));
      assert elves - (remaining - {e}) == elves - remaining + {e};
      remaining := remaining - {e};
    }
    assert elves - remaining == elves;
    return Ok(b);
  }

  /** The area of a box, in cells. */
  function Area(b: Box): int
  {
    (b.maxRow - b.minRow + 1) * (b.maxCol - b.minCol + 1)
  }

  /**
   * `part1`: ten rounds, then the cells of the bounding box that hold
   * no elf. The count subtracts the initial number of elves, which the
   * rounds keep.
   */
  method Part1(lines: seq<string>) returns (r: Result<int>)
    ensures r.Panic? <==> Scan(lines) == {}
    ensures r.Ok? ==> exists b :: Tight(b, Rounds(Scan(lines), 10)) && r.value == Area(b) - |Scan(lines)|
  {
    var elves := Scan(lines);
    for round := 0 to 10
      invariant elves == Rounds(Scan(lines), round)
    {
      elves := SimulateRound(elves, round);
    }
    var box := Bounds(elves);
    RoundsKeepCount(Scan(lines), 10);
    if box.Panic? {
      return Panic;
    }
    r := Ok(Area(box.value) - |elves|);
  }

  /** The elves after each number of rounds. */
  ghost function History(start: set<Position>): (states: imap<nat, set<Position>>)
    ensures forall n: nat :: n in states
  {
    imap n: nat | true :: Rounds(start, n)
  }

  /**
   * The fixpoint loop of `part2` from round `round`, over the elves after
   * each number of rounds: one more than the first round that leaves the
   * elves where they are. The source loops until then; here at most
   * `fuel` rounds are run.
   */
  ghost function Settle(states: imap<nat, set<Position>>, round: nat, fuel: nat): Option<nat>
    requires forall n: nat :: n in states
    decreases fuel
  {
    if fuel == 0 then None
    else if states[round + 1] == states[round] then Some(round + 1)
    else Settle(states, round + 1, fuel - 1)
  }

  /** The answer of `part2` is one more than the first round in which no elf moves. */
  lemma {:induction false} SettleMeaning(states: imap<nat, set<Position>>, round: nat, fuel: nat)
    requires forall n: nat :: n in states
    requires Settle(states, round, fuel).Some?
    ensures var n := Settle(states, round, fuel).value;
      && round < n && states[n] == states[n - 1]
      && forall m: nat :: round <= m < n - 1 ==> states[m + 1] != states[m]
    decreases fuel
  {
    if states[round + 1] != states[round] {
      SettleMeaning(states, round + 1, fuel - 1);
    }
  }

  lemma SettleGoesOn(states: imap<nat, set<Position>>, round: nat, fuel: nat)
    requires forall n: nat :: n in states
    requires fuel > 0 && states[round + 1] != states[round]
    ensures Settle(states, round, fuel) == Settle(states, round + 1, fuel - 1)
  {
  }

  /** `part2`, running at most `fuel` rounds. */
  method Part2(lines: seq<string>, fuel: nat) returns (r: Option<nat>)
    ensures r == Settle(History(Scan(lines)), 0, fuel)
  {
    var elves := Scan(lines);
    ghost var states := History(elves);
    var round: nat, left := 0, fuel;
    while left > 0
      invariant elves == states[round]
      invariant Settle(states, round, left) == Settle(states, 0, fuel)
    {
      var newElves := SimulateRound(elves, round);
      assert newElves == states[round + 1];
      if newElves == elves {
        return Some(round + 1);
      }
      SettleGoesOn(states, round, left);
      round, left := round + 1, left - 1;
      elves := newElves;
    }
    return None;
  }
}
