// Robot factory (year 2022, day 19): a depth-first search over mining
// states that, each minute, mines with every robot and then builds at most
// one robot, memoising explored states and pruning with an optimistic
// geode count.

module Robots {
  import opened Common

  // Resource and robot kinds, in the order of the four-entry vectors.
  const ORE := 0
  const CLAY := 1
  const OBSIDIAN := 2
  const GEODE := 3

  /** Four counts, one per kind. */
  predicate Quad(v: seq<nat>) { |v| == 4 }

  /** `robot_costs[r][k]`: how much of resource `k` a robot of kind `r` costs. */
  datatype Blueprint = Blueprint(costs: seq<seq<nat>>)

  /**
   * The cost table a parsed blueprint line builds: ore robots and clay robots
   * cost ore, obsidian robots cost ore and clay, geode robots ore and obsidian.
   */
  function FromCosts(oreOre: nat, clayOre: nat, obsidianOre: nat, obsidianClay: nat, geodeOre: nat, geodeObsidian: nat): (b: Blueprint)
    ensures Shaped(b)
    ensures b.costs[CLAY][ORE] == clayOre && b.costs[OBSIDIAN][CLAY] == obsidianClay && b.costs[GEODE][OBSIDIAN] == geodeObsidian
  {
    Blueprint([[oreOre, 0, 0, 0], [clayOre, 0, 0, 0], [obsidianOre, obsidianClay, 0, 0], [geodeOre, 0, geodeObsidian, 0]])
  }

  /** The shape every parsed blueprint has: a 4 by 4 table in which nothing costs geodes. */
  predicate Shaped(b: Blueprint)
  {
    |b.costs| == 4 && (forall r :: 0 <= r < 4 ==> Quad(b.costs[r]) && b.costs[r][GEODE] == 0)
  }

  datatype State = State(robots: seq<nat>, resources: seq<nat>, timeLeft: nat)

  predicate WellFormed(s: State) { Quad(s.robots) && Quad(s.resources) }

  /** One minute of mining: every robot adds one unit of its kind. */
  function Mined(s: State): (m: State)
    requires WellFormed(s) && s.timeLeft > 0
    ensures WellFormed(m) && m.robots == s.robots && m.timeLeft == s.timeLeft - 1
    ensures forall k :: 0 <= k < 4 ==> m.resources[k] == s.resources[k] + s.robots[k]
  {
    State(s.robots, seq(4, k requires 0 <= k < 4 => s.resources[k] + s.robots[k]), s.timeLeft - 1)
  }

  /** Every resource is at least the robot's cost (the check is on the resources before mining). */
  predicate Affordable(b: Blueprint, s: State, r: nat)
    requires Shaped(b) && WellFormed(s) && r < 4
  {
    forall k :: 0 <= k < 4 ==> b.costs[r][k] <= s.resources[k]
  }

  /** Pay for a robot of kind `r` out of the mined resources and add it. */
  function Built(b: Blueprint, m: State, r: nat): (c: State)
    requires Shaped(b) && WellFormed(m) && r < 4
    requires forall k :: 0 <= k < 4 ==> b.costs[r][k] <= m.resources[k]
    ensures WellFormed(c) && c.timeLeft == m.timeLeft
    ensures forall k :: 0 <= k < 4 ==> c.resources[k] + b.costs[r][k] == m.resources[k]
    ensures forall k :: 0 <= k < 4 ==> c.robots[k] == m.robots[k] + (if k == r then 1 else 0)
  {
    State(m.robots[r := m.robots[r] + 1], seq(4, k requires 0 <= k < 4 => m.resources[k] - b.costs[r][k]), m.timeLeft)
  }

  /** Mining never lowers a resource, so a robot affordable before mining is affordable after it. */
  lemma AffordableAfterMining(b: Blueprint, s: State, r: nat)
    requires Shaped(b) && WellFormed(s) && s.timeLeft > 0 && r < 4 && Affordable(b, s, r)
    ensures forall k :: 0 <= k < 4 ==> b.costs[r][k] <= Mined(s).resources[k]
  {
  }

  // ------------------------------------------------------------------ bound

  /** `n * (n - 1) / 2`, the extra units `n` robots built one per minute can collect. */
  function Triangle(n: nat): nat
    requires n >= 1
  {
    n * (n - 1) / 2
  }

  /** Units held plus what `robots` mine in `t` minutes plus what `extra` robots built one per minute add. */
  function Collectable(held: nat, robots: nat, t: nat, extra: nat): (total: nat)
    requires extra >= 1
    ensures total >= held
  {
    held + t * robots + Triangle(extra)
  }

  /** How many robots of a kind the collected input pays for, plus one, capped by the minutes left. */
  function Buildable(collected: nat, cost: nat, t: nat): (n: nat)
    requires cost > 0 && t >= 1
    ensures 1 <= n <= t
  {
    Min(collected / cost + 1, t)
  }

  /**
   * The pruning bound as the search computes it: ore (read from the clay
   * entries, as the code does), then clay, obsidian and geodes, each assuming
   * one new robot per remaining minute, capped by the minutes left.
   */
  function PruneBound(b: Blueprint, s: State, m: State): (bound: nat)
    requires Shaped(b) && WellFormed(s) && WellFormed(m) && s.timeLeft >= 1
    requires b.costs[CLAY][ORE] > 0 && b.costs[OBSIDIAN][CLAY] > 0 && b.costs[GEODE][OBSIDIAN] > 0
    ensures bound >= m.resources[GEODE]
  {
    var t := s.timeLeft;
    var ore := Collectable(s.resources[1], s.robots[1], t, t);
    var clay := Collectable(s.resources[1], s.robots[1], t, Buildable(ore, b.costs[CLAY][ORE], t));
    var obsidian := Collectable(s.resources[2], s.robots[2], t, Buildable(clay, b.costs[OBSIDIAN][CLAY], t));
    Collectable(m.resources[GEODE], s.robots[GEODE], t, Buildable(obsidian, b.costs[GEODE][OBSIDIAN], t))
  }

  /**
   * Most geodes a state can still end with: those held, those its geode
   * robots mine, and at most one more geode robot built each minute.
   */
  function Ceiling(s: State): nat
    requires WellFormed(s)
  {
    s.resources[GEODE] + s.robots[GEODE] * s.timeLeft + (if s.timeLeft == 0 then 0 else Triangle(s.timeLeft))
  }

  /** One minute passed with at most one new geode robot keeps within the parent's ceiling. */
  lemma CeilingStep(s: State, c: State)
    requires WellFormed(s) && WellFormed(c) && s.timeLeft >= 1 && c.timeLeft == s.timeLeft - 1
    requires c.resources[GEODE] == s.resources[GEODE] + s.robots[GEODE]
    requires c.robots[GEODE] <= s.robots[GEODE] + 1
    ensures Ceiling(c) <= Ceiling(s)
    ensures c.resources[GEODE] <= Ceiling(s)
  {
    CeilingBound(s.resources[GEODE], s.robots[GEODE], s.timeLeft, c.robots[GEODE]);
  }

  /** `CeilingStep` on the geode counts alone. */
  lemma CeilingBound(g: nat, r: nat, t: nat, r': nat)
    requires t >= 1 && r' <= r + 1
    ensures (g + r) + r' * (t - 1) + (if t - 1 == 0 then 0 else Triangle(t - 1)) <= g + r * t + Triangle(t)
    ensures g + r <= g + r * t + Triangle(t)
  {
    MulLe(r', r + 1, t - 1);
    TriangleStep(t);
    assert r * t == r + r * (t - 1);
  }

  lemma MulLe(a: nat, b: nat, c: nat)
    requires a <= b
    ensures a * c <= b * c
  {
    assert b * c - a * c == (b - a) * c;
  }

  lemma TriangleStep(t: nat)
    requires t >= 1
    ensures Triangle(t) == (t - 1) + (if t == 1 then 0 else Triangle(t - 1))
  {
    if t > 1 {
      assert t * (t - 1) == (t - 1) * (t - 2) + 2 * (t - 1);
    }
  }

  // ------------------------------------------------------------- search tree

  predicate AllAffordable(b: Blueprint, s: State)
    requires Shaped(b) && WellFormed(s)
  {
    forall r :: 0 <= r < 4 ==> Affordable(b, s, r)
  }

  /**
   * The most geodes the search meets below `s` when nothing is pruned or
   * cached: the geodes after this minute's mining, the best of every
   * affordable robot built, and the best of building nothing unless all
   * four robots are affordable.
   */
  ghost function Explore(b: Blueprint, s: State): nat
    requires Shaped(b) && WellFormed(s)
    decreases s.timeLeft, 5
  {
    if s.timeLeft == 0 then 0
    else Max(Mined(s).resources[GEODE], Max(BuildUpTo(b, s, 4), if AllAffordable(b, s) then 0 else Explore(b, Mined(s))))
  }

  /** The best of the robots of kinds below `r` that `s` can afford. */
  ghost function BuildUpTo(b: Blueprint, s: State, r: nat): nat
    requires Shaped(b) && WellFormed(s) && s.timeLeft > 0 && r <= 4
    decreases s.timeLeft, r
  {
    if r == 0 then 0
    else if Affordable(b, s, r - 1) then
      AffordableAfterMining(b, s, r - 1);
      Max(BuildUpTo(b, s, r - 1), Explore(b, Built(b, Mined(s), r - 1)))
    else BuildUpTo(b, s, r - 1)
  }

  /** Nothing below a state beats its ceiling: the ceiling is an admissible bound. */
  lemma {:induction false} ExploreCeiling(b: Blueprint, s: State)
    requires Shaped(b) && WellFormed(s)
    ensures Explore(b, s) <= Ceiling(s)
    decreases s.timeLeft, 5
  {
    if s.timeLeft > 0 {
      var m := Mined(s);
      CeilingStep(s, m);
      BuildUpToCeiling(b, s, 4);
      if !AllAffordable(b, s) {
        ExploreCeiling(b, m);
      }
    }
  }

  lemma {:induction false} BuildUpToCeiling(b: Blueprint, s: State, r: nat)
    requires Shaped(b) && WellFormed(s) && s.timeLeft > 0 && r <= 4
    ensures BuildUpTo(b, s, r) <= Ceiling(s)
    decreases s.timeLeft, r
  {
    if r > 0 {
      BuildUpToCeiling(b, s, r - 1);
      if Affordable(b, s, r - 1) {
        AffordableAfterMining(b, s, r - 1);
        var c := Built(b, Mined(s), r - 1);
        ExploreCeiling(b, c);
        CeilingStep(s, c);
      }
    }
  }

  /** How many of the robot kinds below `r` the state affords. */
  function Affordables(b: Blueprint, s: State, r: nat): (n: nat)
    requires Shaped(b) && WellFormed(s) && r <= 4
    ensures n <= r
  {
    if r == 0 then 0 else Affordables(b, s, r - 1) + (if Affordable(b, s, r - 1) then 1 else 0)
  }

  /** The count reaches `r` exactly when every kind below `r` is affordable. */
  lemma {:induction false} AffordablesAll(b: Blueprint, s: State, r: nat)
    requires Shaped(b) && WellFormed(s) && r <= 4
    ensures Affordables(b, s, r) == r <==> forall j :: 0 <= j < r ==> Affordable(b, s, j)
  {
    if r > 0 {
      AffordablesAll(b, s, r - 1);
    }
  }

  // ----------------------------------------------------------------- search

  /** Which bound prunes: the one the code computes, or the ceiling. */
  datatype Pruning = Written | Admissible

  function PruneAt(b: Blueprint, s: State, pruning: Pruning): (bound: nat)
    requires Shaped(b) && WellFormed(s) && s.timeLeft >= 1
    requires b.costs[CLAY][ORE] > 0 && b.costs[OBSIDIAN][CLAY] > 0 && b.costs[GEODE][OBSIDIAN] > 0
    ensures bound >= Mined(s).resources[GEODE]
  {
    CeilingStep(s, Mined(s));
    match pruning
    case Written => PruneBound(b, s, Mined(s))
    case Admissible => Ceiling(s)
  }

  /**
   * Every cached state at most `t` minutes from the end has been explored:
   * nothing below it beats `best`.
   */
  ghost predicate Explored(b: Blueprint, cache: set<State>, t: nat, best: nat)
    requires Shaped(b)
  {
    forall s :: s in cache && WellFormed(s) && s.timeLeft <= t ==> Explore(b, s) <= best
  }

  /**
   * `evaluate`: stops at time 0 or on a state already explored; otherwise
   * records the state, mines, raises `best` to the geodes held, prunes when
   * the bound does not beat `best`, then tries each affordable robot and,
   * unless all four are affordable, building nothing. Whatever it records
   * is met in the search tree; pruning at the ceiling loses nothing.
   */
  method Evaluate(b: Blueprint, state: State, cache: set<State>, best: nat, pruning: Pruning)
    returns (cache': set<State>, best': nat)
    requires Shaped(b) && WellFormed(state)
    requires b.costs[CLAY][ORE] > 0 && b.costs[OBSIDIAN][CLAY] > 0 && b.costs[GEODE][OBSIDIAN] > 0
    ensures cache <= cache' && forall s :: s in cache' && s !in cache ==> s.timeLeft <= state.timeLeft
    ensures state.timeLeft == 0 || state in cache ==> cache' == cache && best' == best
    ensures state.timeLeft > 0 && state !in cache ==> state in cache' && best' >= Mined(state).resources[GEODE]
    ensures state.timeLeft > 0 && state !in cache && PruneAt(b, state, pruning) <= Max(best, Mined(state).resources[GEODE]) ==>
      cache' == cache + {state} && best' == Max(best, Mined(state).resources[GEODE])
    ensures best <= best' <= Max(best, Explore(b, state))
    ensures pruning == Admissible && Explored(b, cache, state.timeLeft, best) ==>
      best' == Max(best, Explore(b, state)) && Explored(b, cache', state.timeLeft, best')
    decreases state.timeLeft, 3
  {
    if state.timeLeft == 0 || state in cache {
      return cache, best;
    }
    cache' := cache + {state};
    var mined := Mine(state);
    best' := Max(best, mined.resources[GEODE]);
    ghost var exact := pruning == Admissible && Explored(b, cache, state.timeLeft, best);
    if exact {
      ExploredEntry(b, cache, state, best, best');
    }

    var bound := PruneAt(b, state, pruning);
    if bound <= best' {
      if exact {
        ExploreCeiling(b, state);
        ExploredStep(b, cache, cache', state, best, best');
      }
      return;
    }

    cache', best' := Expand(b, state, mined, cache', best, best', pruning, exact);
    if exact {
      ExploredStep(b, cache, cache', state, best, best');
    }
  }

  /**
   * The part of `Evaluate` below an unpruned state: every affordable robot,
   * then waiting unless all four were affordable. When `exact`, the cached
   * states below `state` are explored on entry and the whole subtree under
   * `state` is explored on exit.
   */
  method Expand(b: Blueprint, state: State, mined: State, cache: set<State>, ghost best0: nat, best: nat, pruning: Pruning, ghost exact: bool)
    returns (cache': set<State>, best': nat)
    requires Shaped(b) && WellFormed(state) && state.timeLeft > 0 && mined == Mined(state)
    requires b.costs[CLAY][ORE] > 0 && b.costs[OBSIDIAN][CLAY] > 0 && b.costs[GEODE][OBSIDIAN] > 0
    requires best0 <= best && mined.resources[GEODE] <= best && best <= Max(best0, mined.resources[GEODE])
    requires exact ==> pruning == Admissible && Explored(b, cache, state.timeLeft - 1, best)
    ensures cache <= cache' && forall s :: s in cache' && s !in cache ==> s.timeLeft < state.timeLeft
    ensures best <= best' <= Max(best0, Explore(b, state))
    ensures exact ==> Explore(b, state) <= best' && Explored(b, cache', state.timeLeft - 1, best')
    decreases state.timeLeft, 2
  {
    var enough;
    enough, cache', best' := TryEach(b, state, mined, cache, best0, best, pruning, exact);
    AffordablesAll(b, state, 4);
    if enough < 4 {
      cache', best' := Evaluate(b, mined, cache', best', pruning);
    }
  }

  /**
   * The loop over the four robot kinds, counting the affordable ones. When
   * `exact`, every cached state below `state` is explored on entry, and the
   * loop keeps it so while it explores each affordable robot.
   */
  method TryEach(b: Blueprint, state: State, mined: State, cache: set<State>, ghost best0: nat, best: nat, pruning: Pruning, ghost exact: bool)
    returns (enough: nat, cache': set<State>, best': nat)
    requires Shaped(b) && WellFormed(state) && state.timeLeft > 0 && mined == Mined(state)
    requires b.costs[CLAY][ORE] > 0 && b.costs[OBSIDIAN][CLAY] > 0 && b.costs[GEODE][OBSIDIAN] > 0
    requires best0 <= best && mined.resources[GEODE] <= best && best <= Max(best0, mined.resources[GEODE])
    requires exact ==> pruning == Admissible && Explored(b, cache, state.timeLeft - 1, best)
    ensures cache <= cache' && forall s :: s in cache' && s !in cache ==> s.timeLeft < state.timeLeft
    ensures best <= best' <= Max(best0, Max(mined.resources[GEODE], BuildUpTo(b, state, 4)))
    ensures exact ==> BuildUpTo(b, state, 4) <= best' && Explored(b, cache', state.timeLeft - 1, best')
    ensures enough == Affordables(b, state, 4)
    decreases state.timeLeft, 1
  {
    enough, cache', best' := 0, cache, best;
    for r := 0 to 4
      invariant cache <= cache' && forall s :: s in cache' && s !in cache ==> s.timeLeft < state.timeLeft
      invariant best <= best' <= Max(best0, Max(mined.resources[GEODE], BuildUpTo(b, state, r)))
      invariant exact ==> BuildUpTo(b, state, r) <= best' && Explored(b, cache', state.timeLeft - 1, best')
      invariant enough == Affordables(b, state, r)
    {
      var affordable;
      affordable, cache', best' := TryRobot(b, state, mined, r, cache', best', pruning, exact);
      assert BuildUpTo(b, state, r) <= BuildUpTo(b, state, r + 1);
      if affordable {
        enough := enough + 1;
      }
    }
  }

  /** One round of the robot loop: when robot `r` is affordable, search on from the state that builds it. */
  method TryRobot(b: Blueprint, state: State, mined: State, r: nat, cache: set<State>, best: nat, pruning: Pruning, ghost exact: bool)
    returns (affordable: bool, cache': set<State>, best': nat)
    requires Shaped(b) && WellFormed(state) && state.timeLeft > 0 && mined == Mined(state) && r < 4
    requires b.costs[CLAY][ORE] > 0 && b.costs[OBSIDIAN][CLAY] > 0 && b.costs[GEODE][OBSIDIAN] > 0
    requires exact ==> pruning == Admissible && Explored(b, cache, state.timeLeft - 1, best) && BuildUpTo(b, state, r) <= best
    ensures affordable <==> Affordable(b, state, r)
    ensures cache <= cache' && forall s :: s in cache' && s !in cache ==> s.timeLeft < state.timeLeft
    ensures best <= best' <= Max(best, BuildUpTo(b, state, r + 1))
    ensures exact ==> BuildUpTo(b, state, r + 1) <= best' && Explored(b, cache', state.timeLeft - 1, best')
    decreases state.timeLeft, 0
  {
    affordable := CanAfford(b, state, r);
    if !affordable {
      return affordable, cache, best;
    }
    var child := Build(b, state, mined, r);
    cache', best' := Evaluate(b, child, cache, best, pruning);
    assert BuildUpTo(b, state, r + 1) == Max(BuildUpTo(b, state, r), Explore(b, child));
  }

  /** The mining loop: every robot adds one unit of its kind. */
  method Mine(state: State) returns (mined: State)
    requires WellFormed(state) && state.timeLeft > 0
    ensures mined == Mined(state)
  {
    var robots, resources := state.robots, state.resources;
    for index := 0 to 4
      invariant |resources| == 4
      invariant forall k :: 0 <= k < 4 ==> resources[k] == state.resources[k] + (if k < index then robots[k] else 0)
    {
      resources := resources[index := resources[index] + robots[index]];
    }
    mined := State(robots, resources, state.timeLeft - 1);
  }

  /** Caching a state keeps everything cached below it explored, for any larger best. */
  lemma ExploredEntry(b: Blueprint, cache: set<State>, state: State, best: nat, best': nat)
    requires Shaped(b) && WellFormed(state) && state.timeLeft > 0
    requires Explored(b, cache, state.timeLeft, best) && best <= best'
    ensures Explored(b, cache + {state}, state.timeLeft - 1, best')
  {
  }

  /** Once nothing below a state beats `best'`, the state joins the explored ones at its level. */
  lemma ExploredStep(b: Blueprint, cache: set<State>, cache': set<State>, state: State, best: nat, best': nat)
    requires Shaped(b) && WellFormed(state) && state.timeLeft > 0
    requires Explored(b, cache, state.timeLeft, best) && best <= best' && Explore(b, state) <= best'
    requires Explored(b, cache', state.timeLeft - 1, best')
    requires forall s :: s in cache' && s !in cache ==> s == state || s.timeLeft < state.timeLeft
    ensures Explored(b, cache', state.timeLeft, best')
  {
    forall s | s in cache' && WellFormed(s) && s.timeLeft <= state.timeLeft
      ensures Explore(b, s) <= best'
    {
      if s.timeLeft == state.timeLeft && s != state {
        assert s in cache;
      }
    }
  }

  /** The `all(|(r1, r2)| r2 <= r1)` test over the four resources held before mining. */
  method CanAfford(b: Blueprint, state: State, r: nat) returns (affordable: bool)
    requires Shaped(b) && WellFormed(state) && r < 4
    ensures affordable <==> Affordable(b, state, r)
  {
    affordable := true;
    for k := 0 to 4
      invariant affordable <==> forall j :: 0 <= j < k ==> b.costs[r][j] <= state.resources[j]
    {
      affordable := affordable && b.costs[r][k] <= state.resources[k];
    }
  }

  /** The copy of the mined state with robot `r` paid for and added. */
  method Build(b: Blueprint, state: State, mined: State, r: nat) returns (child: State)
    requires Shaped(b) && WellFormed(state) && state.timeLeft > 0 && mined == Mined(state) && r < 4
    requires Affordable(b, state, r)
    ensures forall k :: 0 <= k < 4 ==> b.costs[r][k] <= mined.resources[k]
    ensures child == Built(b, mined, r)
  {
    AffordableAfterMining(b, state, r);
    var built := mined.resources;
    for k := 0 to 4
      invariant |built| == 4
      invariant forall j :: 0 <= j < 4 ==> built[j] == mined.resources[j] - (if j < k then b.costs[r][j] else 0)
    {
      built := built[k := built[k] - b.costs[r][k]];
    }
    child := State(mined.robots[r := mined.robots[r] + 1], built, mined.timeLeft);
  }

  /** `evaluate_blueprint`: the search from `state` with no best yet and an empty cache. */
  method EvaluateBlueprint(b: Blueprint, state: State, pruning: Pruning) returns (geodes: nat)
    requires Shaped(b) && WellFormed(state)
    requires b.costs[CLAY][ORE] > 0 && b.costs[OBSIDIAN][CLAY] > 0 && b.costs[GEODE][OBSIDIAN] > 0
    ensures geodes <= Explore(b, state) && geodes <= Ceiling(state)
    ensures pruning == Admissible ==> geodes == Explore(b, state)
    ensures state.timeLeft > 0 ==> geodes >= state.resources[GEODE] + state.robots[GEODE]
  {
    var cache;
    cache, geodes := Evaluate(b, state, {}, 0, pruning);
    ExploreCeiling(b, state);
  }

  /**
   * The code's bound is not admissible: with `n` robots affordable it adds
   * `n * (n - 1) / 2` units, while building them in the first minutes adds
   * more. Here a geode robot built now mines two geodes in the last two
   * minutes, yet the bound is 1, so a search that already holds one geode
   * prunes this state.
   */
  lemma PruneMissesGeodes(b: Blueprint, s: State)
    requires b == FromCosts(4, 4, 4, 14, 2, 7) && s == State([1, 1, 1, 0], [2, 0, 7, 0], 3)
    ensures PruneAt(b, s, Written) == 1 && Explore(b, s) >= 2
  {
    WrittenBoundExample(b, s);
    assert Affordable(b, s, GEODE);
    ExploreBuilt(b, s, GEODE);
    var c1 := Built(b, Mined(s), GEODE);
    assert c1.robots[GEODE] == 1 && c1.resources[ORE] == 1 && c1.resources[GEODE] == 0 && c1.timeLeft == 2;
    assert !Affordable(b, c1, ORE);
    ExploreWaits(b, c1);
    var c2 := Mined(c1);
    assert c2.robots[GEODE] == 1 && c2.resources[GEODE] == 1;
    ExploreMined(b, c2);
  }

  /** The written bound at the state of `PruneMissesGeodes`, from just the entries it reads. */
  lemma WrittenBoundExample(b: Blueprint, s: State)
    requires Shaped(b) && WellFormed(s) && s.timeLeft == 3
    requires b.costs[CLAY][ORE] == 4 && b.costs[OBSIDIAN][CLAY] == 14 && b.costs[GEODE][OBSIDIAN] == 7
    requires s.robots[1] == 1 && s.robots[2] == 1 && s.robots[GEODE] == 0
    requires s.resources[1] == 0 && s.resources[2] == 7 && s.resources[GEODE] == 0
    ensures PruneAt(b, s, Written) == 1
  {
    var m := Mined(s);
    assert m.resources[GEODE] == 0;
    assert s.resources[1] + s.timeLeft * s.robots[1] == 3;
    assert s.resources[2] + s.timeLeft * s.robots[2] == 10;
    assert m.resources[GEODE] + s.timeLeft * s.robots[GEODE] == 0;
    assert Triangle(3) == 3 && Triangle(2) == 1 && Triangle(1) == 0;
    assert Buildable(6, 4, 3) == 2 && Buildable(4, 14, 3) == 1 && Buildable(10, 7, 3) == 2;
  }

  /** Building an affordable robot is one of the moves `Explore` takes the best of. */
  lemma ExploreBuilt(b: Blueprint, s: State, r: nat)
    requires Shaped(b) && WellFormed(s) && s.timeLeft > 0 && r < 4 && Affordable(b, s, r)
    ensures forall k :: 0 <= k < 4 ==> b.costs[r][k] <= Mined(s).resources[k]
    ensures Explore(b, s) >= Explore(b, Built(b, Mined(s), r))
  {
    AffordableAfterMining(b, s, r);
    BuildUpToGrows(b, s, r + 1);
  }

  /** `BuildUpTo` only grows with the number of kinds considered. */
  lemma {:induction false} BuildUpToGrows(b: Blueprint, s: State, r: nat)
    requires Shaped(b) && WellFormed(s) && s.timeLeft > 0 && r <= 4
    ensures BuildUpTo(b, s, r) <= BuildUpTo(b, s, 4)
    decreases 4 - r
  {
    if r < 4 {
      BuildUpToGrows(b, s, r + 1);
    }
  }

  /** When some robot is unaffordable, waiting a minute is one of the moves `Explore` takes the best of. */
  lemma ExploreWaits(b: Blueprint, s: State)
    requires Shaped(b) && WellFormed(s) && s.timeLeft > 0 && !Affordable(b, s, ORE)
    ensures Explore(b, s) >= Explore(b, Mined(s))
  {
  }

  /** The geodes held after this minute's mining are reachable. */
  lemma ExploreMined(b: Blueprint, s: State)
    requires Shaped(b) && WellFormed(s) && s.timeLeft > 0
    ensures Explore(b, s) >= Mined(s).resources[GEODE]
  {
  }

  /** The state every blueprint starts from: one ore robot, nothing mined. */
  function Start(minutes: nat): (s: State)
    ensures WellFormed(s) && Ceiling(s) == (if minutes == 0 then 0 else Triangle(minutes))
  {
    State([1, 0, 0, 0], [0, 0, 0, 0], minutes)
  }

  /** The most geodes a blueprint's search tree meets in `minutes` from the start, at most the starting ceiling. */
  ghost function Most(b: Blueprint, minutes: nat): (n: nat)
    requires Shaped(b)
    ensures n <= (if minutes == 0 then 0 else Triangle(minutes))
  {
    ExploreCeiling(b, Start(minutes));
    Explore(b, Start(minutes))
  }

  /** `Most` for each blueprint in turn. */
  ghost function Bests(blueprints: seq<Blueprint>, minutes: nat): (r: seq<nat>)
    requires forall i :: 0 <= i < |blueprints| ==> Shaped(blueprints[i])
    ensures |r| == |blueprints|
  {
    seq(|blueprints|, i requires 0 <= i < |blueprints| => Most(blueprints[i], minutes))
  }

  /** The three costs the pruning bound divides by are non-zero. */
  predicate Usable(b: Blueprint)
    requires Shaped(b)
  {
    b.costs[CLAY][ORE] > 0 && b.costs[OBSIDIAN][CLAY] > 0 && b.costs[GEODE][OBSIDIAN] > 0
  }

  /** `sum((index + 1) * geodes[index])`, the quality levels added up. */
  function QualitySum(geodes: seq<nat>): nat
  {
    if geodes == [] then 0 else QualitySum(geodes[..|geodes| - 1]) + |geodes| * geodes[|geodes| - 1]
  }

  function Product(s: seq<nat>): nat
  {
    if s == [] then 1 else Product(s[..|s| - 1]) * s[|s| - 1]
  }

  /**
   * Each blueprint evaluated from the start with `minutes` to go, in order,
   * pruning at the ceiling. With minutes to go, the first evaluation of a
   * blueprint divides by its three costs, so a zero there panics; with none,
   * `evaluate` returns before dividing.
   */
  method EvaluateAll(blueprints: seq<Blueprint>, minutes: nat) returns (r: Result<seq<nat>>)
    requires forall i :: 0 <= i < |blueprints| ==> Shaped(blueprints[i])
    ensures r.Panic? <==> minutes > 0 && exists i :: 0 <= i < |blueprints| && !Usable(blueprints[i])
    ensures r.Ok? ==> r.value == Bests(blueprints, minutes)
  {
    var geodes := [];
    for i := 0 to |blueprints|
      invariant |geodes| == i
      invariant forall j :: 0 <= j < i ==> (minutes > 0 ==> Usable(blueprints[j])) && geodes[j] == Most(blueprints[j], minutes)
    {
      var g := 0;
      if minutes > 0 {
        if !Usable(blueprints[i]) {
          return Panic;
        }
        g := EvaluateBlueprint(blueprints[i], Start(minutes), Admissible);
      }
      geodes := geodes + [g];
    }
    assert geodes == Bests(blueprints, minutes);
    r := Ok(geodes);
  }

  /** `part1`: the sum of each blueprint's 1-based index times its geodes in 24 minutes. */
  method Part1(blueprints: seq<Blueprint>) returns (score: Result<nat>, geodes: seq<nat>)
    requires forall i :: 0 <= i < |blueprints| ==> Shaped(blueprints[i])
    ensures score.Panic? <==> exists i :: 0 <= i < |blueprints| && !Usable(blueprints[i])
    ensures score.Ok? ==> geodes == Bests(blueprints, 24) && score.value == QualitySum(geodes)
  {
    var all := EvaluateAll(blueprints, 24);
    if all.Panic? {
      return Panic, [];
    }
    geodes := all.value;
    var total := AddQualities(geodes);
    score := Ok(total);
  }

  /** The `sum` of `(index + 1) * geodes` over the evaluated blueprints. */
  method AddQualities(geodes: seq<nat>) returns (total: nat)
    ensures total == QualitySum(geodes)
  {
    total := 0;
    for i := 0 to |geodes|
      invariant total == QualitySum(geodes[..i])
    {
      assert geodes[..i + 1][..i] == geodes[..i];
      total := total + (i + 1) * geodes[i];
    }
    assert geodes[..|geodes|] == geodes;
  }

  /** `part2`: the product of the geodes of (at most) the first three blueprints in 32 minutes; only those are evaluated. */
  method Part2(blueprints: seq<Blueprint>) returns (score: Result<nat>, geodes: seq<nat>)
    requires forall i :: 0 <= i < |blueprints| ==> Shaped(blueprints[i])
    ensures score.Panic? <==> exists i :: 0 <= i < Min(3, |blueprints|) && !Usable(blueprints[i])
    ensures score.Ok? ==> geodes == Bests(blueprints[..Min(3, |blueprints|)], 32) && score.value == Product(geodes)
  {
    var firsts := blueprints[..Min(3, |blueprints|)];
    assert forall i :: 0 <= i < |firsts| ==> firsts[i] == blueprints[i];
    var all := EvaluateAll(firsts, 32);
    if all.Panic? {
      return Panic, [];
    }
    geodes := all.value;
    var total := Multiply(geodes);
    score := Ok(total);
  }

  /** The `product` of the evaluated blueprints' geodes. */
  method Multiply(geodes: seq<nat>) returns (total: nat)
    ensures total == Product(geodes)
  {
    total := 1;
    for i := 0 to |geodes|
      invariant total == Product(geodes[..i])
    {
      assert geodes[..i + 1][..i] == geodes[..i];
      total := total * geodes[i];
    }
    assert geodes[..|geodes|] == geodes;
  }
}
