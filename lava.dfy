// Boiling boulders (year 2022, day 18): lava droplets are unit cubes on an
// integer grid. The first part counts the faces of the droplets that do
// not touch another droplet; the second part floods the air around them in
// a box of 20 by 20 by 20 cells and counts the faces the flood reaches.

module Droplets {
  import opened Common

  /** A droplet or an air cell, by its three coordinates. */
  type Cube = (int, int, int)

  /** Two cubes share a face: their Manhattan distance is 1. */
  predicate Adjacent(a: Cube, b: Cube)
  {
    Abs(b.0 - a.0) + Abs(b.1 - a.1) + Abs(b.2 - a.2) == 1
  }

  /** How many cubes of `d` share a face with `x`, counted with repetition. */
  function Neighbours(x: Cube, d: seq<Cube>): (r: nat)
    ensures r <= |d|
  {
    if d == [] then 0
    else Neighbours(x, d[..|d| - 1]) + (if Adjacent(x, d[|d| - 1]) then 1 else 0)
  }

  /** The ordered pairs of the cartesian product of `a` and `d` that share a face. */
  function Touching(a: seq<Cube>, d: seq<Cube>): nat
  {
    if a == [] then 0
    else Touching(a[..|a| - 1], d) + Neighbours(a[|a| - 1], d)
  }

  /**
   * `part1`: six faces per droplet less the touching ordered pairs; the
   * `u32` subtraction panics when there are more touching pairs than faces.
   */
  function Part1(droplets: seq<Cube>): (r: Result<nat>)
    ensures r.Ok? <==> 2 * Pairs(droplets) <= 6 * |droplets|
    ensures r.Ok? ==> r.value == 6 * |droplets| - 2 * Pairs(droplets) && r.value % 2 == 0
  {
    TouchingIsTwicePairs(droplets);
    var touching := Touching(droplets, droplets);
    if touching > 6 * |droplets| then Panic else Ok(6 * |droplets| - touching)
  }

  /** The unordered pairs of droplets that share a face: each droplet with those before it. */
  function Pairs(d: seq<Cube>): nat
  {
    if d == [] then 0
    else Pairs(d[..|d| - 1]) + Neighbours(d[|d| - 1], d[..|d| - 1])
  }

  /** One more cube `y` on the right adds the cubes of `a` that share a face with it. */
  lemma {:induction false} TouchingGrows(a: seq<Cube>, d: seq<Cube>, y: Cube)
    ensures Touching(a, d + [y]) == Touching(a, d) + Neighbours(y, a)
  {
    if a != [] {
      var front := a[..|a| - 1];
      TouchingGrows(front, d, y);
      assert (d + [y])[..|d|] == d;
    }
  }

  /** Sharing a face is symmetric, so every touching pair is counted twice: once from each side. */
  lemma {:induction false} TouchingIsTwicePairs(d: seq<Cube>)
    ensures Touching(d, d) == 2 * Pairs(d)
  {
    if d != [] {
      var front := d[..|d| - 1];
      var y := d[|d| - 1];
      assert d == front + [y];
      TouchingIsTwicePairs(front);
      TouchingGrows(front, front, y);
      assert Neighbours(y, front + [y]) == Neighbours(y, front);
    }
  }

  // ------------------------------------------------------------ the flood

  /** The side of the box the flood stays in. */
  const Size := 20

  predicate InBox(c: Cube)
  {
    0 <= c.0 < Size && 0 <= c.1 < Size && 0 <= c.2 < Size
  }

  /** The six cubes sharing a face with `c`, in the order `part2` visits them. */
  function Around(c: Cube): (r: seq<Cube>)
    ensures |r| == 6 && forall i :: 0 <= i < 6 ==> Adjacent(c, r[i])
  {
    [(c.0 - 1, c.1, c.2), (c.0 + 1, c.1, c.2),
     (c.0, c.1 - 1, c.2), (c.0, c.1 + 1, c.2),
     (c.0, c.1, c.2 - 1), (c.0, c.1, c.2 + 1)]
  }

  /** The cubes of `s` inside the box that are droplets. */
  function CountDroplets(s: seq<Cube>, all: set<Cube>): (r: nat)
    ensures r <= |s|
  {
    if s == [] then 0
    else CountDroplets(s[..|s| - 1], all) + (if InBox(s[|s| - 1]) && s[|s| - 1] in all then 1 else 0)
  }

  /** The faces of the air cell `c` that touch a droplet inside the box. */
  function Faces(all: set<Cube>): Cube -> int
  {
    c => CountDroplets(Around(c), all)
  }

  /** A walk from the corner `(0, 0, 0)` through air cells of the box, one face at a time. */
  ghost predicate IsWalk(p: seq<Cube>, all: set<Cube>)
  {
    && |p| > 0 && p[0] == (0, 0, 0)
    && (forall i :: 0 <= i < |p| ==> InBox(p[i]) && p[i] !in all)
    && (forall i :: 0 <= i < |p| - 1 ==> p[i + 1] in Around(p[i]))
  }

  /** The air cell `c` can be reached from the corner. */
  ghost predicate Reached(c: Cube, all: set<Cube>)
  {
    exists p :: IsWalk(p, all) && p[|p| - 1] == c
  }

  /** The cells of the box. */
  ghost function Box(): set<Cube>
  {
    set x: int, y: int, z: int | 0 <= x < Size && 0 <= y < Size && 0 <= z < Size :: (x, y, z)
  }

  /** The air the flood can reach from the corner. */
  ghost function Outside(all: set<Cube>): set<Cube>
  {
    set c | c in Box() && Reached(c, all)
  }

  /** The droplets with a coordinate on the first or last layer of the box. */
  function Sides(droplets: seq<Cube>): (r: nat)
    ensures r <= |droplets|
  {
    if droplets == [] then 0
    else
      var d := droplets[|droplets| - 1];
      Sides(droplets[..|droplets| - 1])
      + (if d.0 == 0 || d.1 == 0 || d.2 == 0 || d.0 == Size - 1 || d.1 == Size - 1 || d.2 == Size - 1 then 1 else 0)
  }

  /** The corner is reached when it is air. */
  lemma ReachCorner(all: set<Cube>)
    requires (0, 0, 0) !in all
    ensures Reached((0, 0, 0), all)
  {
    assert IsWalk([(0, 0, 0)], all);
  }

  /** An air cell of the box next to a reached cell is reached. */
  lemma ReachStep(c: Cube, n: Cube, all: set<Cube>)
    requires Reached(c, all) && n in Around(c) && InBox(n) && n !in all
    ensures Reached(n, all)
  {
    var p :| IsWalk(p, all) && p[|p| - 1] == c;
    var q := p + [n];
    assert q[|q| - 1] == n;
    assert IsWalk(q, all);
  }

  /** Every cell on the stack is in the box, and those that are air are reached. */
  ghost predicate Sound(marked: set<Cube>, stack: seq<Cube>, all: set<Cube>)
  {
    && (forall c :: c in stack ==> InBox(c) && (c !in all ==> Reached(c, all)))
    && (forall c :: c in marked ==> c in Box() && (c !in all ==> Reached(c, all)))
  }

  /** Each expanded air cell has its air neighbours in the box marked or waiting on the stack. */
  ghost predicate Closed(marked: set<Cube>, stack: seq<Cube>, all: set<Cube>)
  {
    forall c, i :: c in marked && c !in all && 0 <= i < 6 && InBox(Around(c)[i]) && Around(c)[i] !in all ==>
      Around(c)[i] in marked || Around(c)[i] in stack
  }

  /** With nothing left on the stack, every walk from a marked corner stays among marked cells. */
  lemma {:induction false} WalkMarked(p: seq<Cube>, marked: set<Cube>, all: set<Cube>, k: nat)
    requires IsWalk(p, all) && Closed(marked, [], all) && (0, 0, 0) in marked && k < |p|
    ensures p[k] in marked
  {
    if k > 0 {
      WalkMarked(p, marked, all, k - 1);
      var c := p[k - 1];
      var i :| 0 <= i < 6 && Around(c)[i] == p[k];
    }
  }

  /** Once the stack is empty, the marked air cells are exactly the air the flood can reach. */
  lemma FloodDone(marked: set<Cube>, all: set<Cube>)
    requires Sound(marked, [], all) && Closed(marked, [], all) && (0, 0, 0) in marked
    ensures marked - all == Outside(all)
  {
    forall c | c in Outside(all)
      ensures c in marked && c !in all
    {
      var p :| IsWalk(p, all) && p[|p| - 1] == c;
      WalkMarked(p, marked, all, |p| - 1);
    }
  }

  /** `visit`: outside the box nothing happens; a droplet adds a face; air is pushed on the stack. */
  method Visit(pos: Cube, all: set<Cube>, stack: seq<Cube>, total: int) returns (stack': seq<Cube>, total': int)
    ensures !InBox(pos) ==> stack' == stack && total' == total
    ensures InBox(pos) && pos in all ==> stack' == stack && total' == total + 1
    ensures InBox(pos) && pos !in all ==> stack' == stack + [pos] && total' == total
  {
    stack', total' := stack, total;
    if pos.0 < 0 || pos.0 >= Size || pos.1 < 0 || pos.1 >= Size || pos.2 < 0 || pos.2 >= Size {
      return;
    }
    if pos in all {
      total' := total + 1;
    } else {
      stack' := stack + [pos];
    }
  }

  /**
   * The six visits around the air cell `current`: its faces on droplets
   * of the box are added to `total`, its air neighbours in the box pushed.
   */
  method Expand(current: Cube, all: set<Cube>, stack: seq<Cube>, total: int) returns (stack': seq<Cube>, total': int)
    ensures total' == total + Faces(all)(current)
    ensures stack' == stack + AirIn(Around(current), all)
  {
    var around := Around(current);
    stack', total' := stack, total;
    for i := 0 to 6
      invariant total' == total + CountDroplets(around[..i], all)
      invariant stack' == stack + AirIn(around[..i], all)
    {
      assert around[..i + 1][..i] == around[..i];
      stack', total' := Visit(around[i], all, stack', total');
    }
    assert around[..6] == around;
  }


  /** The air cells of `s` inside the box, in order. */
  function AirIn(s: seq<Cube>, all: set<Cube>): seq<Cube>
  {
    if s == [] then []
    else AirIn(s[..|s| - 1], all) + (if InBox(s[|s| - 1]) && s[|s| - 1] !in all then [s[|s| - 1]] else [])
  }

  /** `AirIn` keeps exactly the cells of `s` that are air inside the box. */
  lemma {:induction false} AirInMembers(s: seq<Cube>, all: set<Cube>, x: Cube)
    ensures x in AirIn(s, all) <==> x in s && InBox(x) && x !in all
  {
    if s != [] {
      AirInMembers(s[..|s| - 1], all, x);
      assert s == s[..|s| - 1] + [s[|s| - 1]];
    }
  }

  /**
   * One turn of the flood on the ghost state: the last cell of the stack
   * is popped; a marked cell is dropped, a droplet is marked, and an air
   * cell is marked, its air neighbours pushed and its droplet faces counted.
   */
  function Step(marked: set<Cube>, stack: seq<Cube>, all: set<Cube>, total: int): (set<Cube>, seq<Cube>, int)
    requires stack != []
  {
    var c := stack[|stack| - 1];
    var front := stack[..|stack| - 1];
    if c in marked then (marked, front, total)
    else if c in all then (marked + {c}, front, total)
    else (marked + {c}, front + AirIn(Around(c), all), total + Faces(all)(c))
  }

  /** What the flood keeps: the stack and the marks are sound and closed, and the corner is marked or waiting. */
  ghost predicate Flooding(marked: set<Cube>, stack: seq<Cube>, all: set<Cube>)
  {
    Sound(marked, stack, all) && Closed(marked, stack, all) && ((0, 0, 0) in marked || (0, 0, 0) in stack)
  }

  /** What the flood keeps, with the count of faces it has reached so far. */
  ghost predicate Counted(marked: set<Cube>, stack: seq<Cube>, all: set<Cube>, total: int)
  {
    Flooding(marked, stack, all) && total == SetSum(marked - all, Faces(all))
  }

  /** One turn of the flood marks one more cell of the box or leaves the stack shorter. */
  ghost predicate Progress(marked: set<Cube>, stack: seq<Cube>, marked': set<Cube>, stack': seq<Cube>)
  {
    |Box() - marked'| < |Box() - marked| || (marked' == marked && |stack'| < |stack|)
  }

  /** Every turn keeps the flood's invariant and makes progress. */
  lemma StepKeeps(marked: set<Cube>, stack: seq<Cube>, all: set<Cube>, total: int)
    requires stack != [] && Counted(marked, stack, all, total)
    ensures var (marked', stack', total') := Step(marked, stack, all, total);
      Counted(marked', stack', all, total') && Progress(marked, stack, marked', stack')
  {
    var c := stack[|stack| - 1];
    if c in marked {
      PopMarked(marked, stack, all);
    } else if c in all {
      StepDroplet(marked, stack, all, total);
    } else {
      StepAir(marked, stack, all, total);
    }
  }

  /** A droplet is marked: the marks grow and the count stays. */
  lemma StepDroplet(marked: set<Cube>, stack: seq<Cube>, all: set<Cube>, total: int)
    requires stack != [] && Counted(marked, stack, all, total)
    requires stack[|stack| - 1] !in marked && stack[|stack| - 1] in all
    ensures var c := stack[|stack| - 1];
      Counted(marked + {c}, stack[..|stack| - 1], all, total) && |Box() - (marked + {c})| < |Box() - marked|
  {
    var c := stack[|stack| - 1];
    assert c in stack;
    MarkShrinks(marked, c);
    MarkDroplet(marked, stack, all);
    FacesKept(marked, all, c);
  }

  /** An air cell is marked and expanded: the marks grow and its faces are counted. */
  lemma StepAir(marked: set<Cube>, stack: seq<Cube>, all: set<Cube>, total: int)
    requires stack != [] && Counted(marked, stack, all, total)
    requires stack[|stack| - 1] !in marked && stack[|stack| - 1] !in all
    ensures var c := stack[|stack| - 1];
      && Counted(marked + {c}, stack[..|stack| - 1] + AirIn(Around(c), all), all, total + Faces(all)(c))
      && |Box() - (marked + {c})| < |Box() - marked|
  {
    var c := stack[|stack| - 1];
    assert c in stack;
    MarkShrinks(marked, c);
    MarkAir(marked, stack, all);
    FacesAdded(marked, all, c);
  }

  /** Popping a cell that is already marked changes nothing else. */
  lemma PopMarked(marked: set<Cube>, stack: seq<Cube>, all: set<Cube>)
    requires stack != [] && Flooding(marked, stack, all) && stack[|stack| - 1] in marked
    ensures Flooding(marked, stack[..|stack| - 1], all)
  {
    var front := stack[..|stack| - 1];
    assert forall c :: c in stack ==> c in front || c == stack[|stack| - 1];
    assert forall c :: c in front ==> c in stack;
  }

  /** Popping and marking a droplet: it is marked but not expanded. */
  lemma MarkDroplet(marked: set<Cube>, stack: seq<Cube>, all: set<Cube>)
    requires stack != [] && Flooding(marked, stack, all)
    requires stack[|stack| - 1] !in marked && stack[|stack| - 1] in all
    ensures Flooding(marked + {stack[|stack| - 1]}, stack[..|stack| - 1], all)
  {
    var front := stack[..|stack| - 1];
    var c := stack[|stack| - 1];
    assert forall x :: x in stack ==> x in front || x == c;
    assert forall x :: x in front ==> x in stack;
    assert c == (c.0, c.1, c.2);
  }

  /** Popping, marking and expanding an air cell: its air neighbours in the box are now on the stack. */
  lemma MarkAir(marked: set<Cube>, stack: seq<Cube>, all: set<Cube>)
    requires stack != [] && Flooding(marked, stack, all)
    requires stack[|stack| - 1] !in marked && stack[|stack| - 1] !in all
    ensures var c := stack[|stack| - 1];
      Flooding(marked + {c}, stack[..|stack| - 1] + AirIn(Around(c), all), all)
  {
    var front := stack[..|stack| - 1];
    var c := stack[|stack| - 1];
    var air := AirIn(Around(c), all);
    assert forall x :: x in stack ==> x in front || x == c;
    assert forall x :: x in front ==> x in stack;
    assert Reached(c, all);
    MarkAirSound(marked, front, c, air, all);
    MarkAirClosed(marked, front, c, air, all);
  }

  /** The pushed neighbours are air of the box next to a reached cell, so they are reached too. */
  lemma MarkAirSound(marked: set<Cube>, front: seq<Cube>, c: Cube, air: seq<Cube>, all: set<Cube>)
    requires Sound(marked, front, all) && InBox(c) && c !in all && Reached(c, all)
    requires air == AirIn(Around(c), all)
    ensures Sound(marked + {c}, front + air, all)
  {
    assert c == (c.0, c.1, c.2);
    forall n | n in air
      ensures InBox(n) && Reached(n, all)
    {
      AirInMembers(Around(c), all, n);
      ReachStep(c, n, all);
    }
  }

  /** Every air neighbour of the newly marked cell is pushed, and the cell itself is now marked. */
  lemma MarkAirClosed(marked: set<Cube>, front: seq<Cube>, c: Cube, air: seq<Cube>, all: set<Cube>)
    requires Closed(marked, front + [c], all) && air == AirIn(Around(c), all)
    ensures Closed(marked + {c}, front + air, all)
  {
    forall x | x in front + [c]
      ensures x in marked + {c} || x in front + air
    {
    }
    forall i | 0 <= i < 6 && InBox(Around(c)[i]) && Around(c)[i] !in all
      ensures Around(c)[i] in air
    {
      AirInMembers(Around(c), all, Around(c)[i]);
    }
  }

  /** Expanding the air cell `c` adds its faces on droplets to the count. */
  lemma FacesAdded(marked: set<Cube>, all: set<Cube>, c: Cube)
    requires c !in marked && c !in all
    ensures SetSum((marked + {c}) - all, Faces(all)) == SetSum(marked - all, Faces(all)) + Faces(all)(c)
  {
    assert (marked + {c}) - all == (marked - all) + {c};
    SetSumAdd(marked - all, Faces(all), c);
  }

  /** Marking a droplet adds nothing to the count. */
  lemma FacesKept(marked: set<Cube>, all: set<Cube>, c: Cube)
    requires c in all
    ensures SetSum((marked + {c}) - all, Faces(all)) == SetSum(marked - all, Faces(all))
  {
    assert (marked + {c}) - all == marked - all;
  }

  /** Marking one more cell of the box leaves one fewer unmarked. */
  lemma MarkShrinks(marked: set<Cube>, c: Cube)
    requires InBox(c) && c !in marked
    ensures |Box() - (marked + {c})| < |Box() - marked|
  {
    assert c == (c.0, c.1, c.2);
    assert c in Box();
    assert Box() - (marked + {c}) == (Box() - marked) - {c};
  }

  /** The marks of `space` are the cells of `marked`. */
  ghost predicate Marks(space: array3<bool>, marked: set<Cube>)
    reads space
  {
    && space.Length0 == Size && space.Length1 == Size && space.Length2 == Size
    && forall i, j, k :: 0 <= i < Size && 0 <= j < Size && 0 <= k < Size ==> (space[i, j, k] <==> (i, j, k) in marked)
  }

  /** The box with nothing marked: `vec![vec![vec![0; n]; n]; n]`. */
  method NewSpace() returns (space: array3<bool>)
    ensures fresh(space) && Marks(space, {})
  {
    space := new bool[Size, Size, Size]((i, j, k) => false);
  }

  /** The flood starts with nothing marked and the corner on the stack. */
  lemma FloodStart(all: set<Cube>)
    ensures Counted({}, [(0, 0, 0)], all, 0)
  {
    if (0, 0, 0) !in all {
      ReachCorner(all);
    }
  }

  /** Marks the cell `c` of `space`: `space[c] = 1`. */
  method Mark(space: array3<bool>, c: Cube, ghost marked: set<Cube>)
    requires Marks(space, marked) && InBox(c)
    modifies space
    ensures Marks(space, marked + {c})
  {
    space[c.0, c.1, c.2] := true;
  }

  /**
   * One turn of the loop of `part2`: pops a cell; a marked one is skipped,
   * an unmarked one is marked, and when it is air its neighbours are visited.
   */
  method FloodStep(space: array3<bool>, all: set<Cube>, stack: seq<Cube>, total: int, ghost marked: set<Cube>)
    returns (stack': seq<Cube>, total': int, ghost marked': set<Cube>)
    requires stack != [] && Marks(space, marked) && InBox(stack[|stack| - 1])
    modifies space
    ensures Marks(space, marked') && (marked', stack', total') == Step(marked, stack, all, total)
  {
    var current := stack[|stack| - 1];
    stack' := stack[..|stack| - 1];
    if space[current.0, current.1, current.2] {
      return stack', total, marked;
    }
    Mark(space, current, marked);
    marked' := marked + {current};
    if current in all {
      return stack', total, marked';
    }
    stack', total' := Expand(current, all, stack', total);
  }

  /**
   * `part2`: the flood fill from the corner over the box, marking each
   * cell it pops once and expanding only air, then the droplets on the
   * sides of the box. The result is the faces of droplets in the box
   * touched by air reachable from the corner, plus those side droplets.
   */
  method Part2(droplets: seq<Cube>) returns (r: int)
    ensures r == SetSum(Outside(set d | d in droplets), Faces(set d | d in droplets)) + Sides(droplets)
  {
    var all := set d | d in droplets;
    var space := NewSpace();
    var stack := [(0, 0, 0)];
    var total := 0;
    ghost var marked: set<Cube> := {};
    FloodStart(all);
    while stack != []
      invariant Marks(space, marked) && Counted(marked, stack, all, total)
      decreases |Box() - marked|, |stack|
    {
      assert stack[|stack| - 1] in stack;
      StepKeeps(marked, stack, all, total);
      stack, total, marked := FloodStep(space, all, stack, total, marked);
    }
    FloodDone(marked, all);
    r := total + Sides(droplets);
  }
}
