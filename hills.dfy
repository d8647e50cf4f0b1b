// Hill climbing (year 2022, day 12): a grid of elevations 'a'..'z' with a
// start 'S' and an end 'E', searched with a cheapest-first heap.

module Hills {
  import opened Common

  /** (row, column), as signed integers. */
  type Position = (int, int)

  /** The elevations, row by row. */
  type Grid = seq<seq<nat>>

  // -------------------------------------------------------------- parsing

  /**
   * The elevation of one square: `S` is 0, `E` is 25 and any other
   * character is its low byte minus `b'a'`, a subtraction that overflows
   * (and panics) below `'a'`.
   */
  function Elevation(c: char): (r: Result<nat>)
    ensures c == 'S' ==> r == Ok(0)
    ensures c == 'E' ==> r == Ok(25)
    ensures 'a' <= c <= 'z' ==> r == Ok(c as int - 'a' as int)
    ensures c < 'a' && c != 'S' && c != 'E' ==> r == Panic
  {
    if c == 'S' then Ok(0)
    else if c == 'E' then Ok(25)
    else
      var b := c as int % 256;
      if b < 'a' as int then Panic else Ok(b - 'a' as int)
  }

  /** Every character of the input has an elevation. */
  predicate Readable(lines: seq<string>)
  {
    forall x, y :: 0 <= x < |lines| && 0 <= y < |lines[x]| ==> Elevation(lines[x][y]).Ok?
  }

  function ParseRow(line: string): (r: Result<seq<nat>>)
    ensures r.Ok? <==> forall y :: 0 <= y < |line| ==> Elevation(line[y]).Ok?
    ensures r.Ok? ==> |r.value| == |line| && forall y :: 0 <= y < |line| ==> r.value[y] == Elevation(line[y]).value
  {
    if line == [] then Ok([])
    else
      match ParseRow(line[..|line| - 1])
      case Panic => Panic
      case Ok(row) =>
        match Elevation(line[|line| - 1])
        case Panic => Panic
        case Ok(e) => Ok(row + [e])
  }

  function ParseGrid(lines: seq<string>): (r: Result<Grid>)
    ensures r.Ok? <==> Readable(lines)
    ensures r.Ok? ==> |r.value| == |lines|
    ensures r.Ok? ==> forall x :: 0 <= x < |lines| ==> ParseRow(lines[x]) == Ok(r.value[x])
  {
    if lines == [] then Ok([])
    else
      var init := lines[..|lines| - 1];
      match ParseGrid(init)
      case Panic =>
        assert !Readable(init);
        Panic
      case Ok(g) =>
        match ParseRow(lines[|lines| - 1])
        case Panic => Panic
        case Ok(row) => Ok(g + [row])
  }

  /** `a` comes after `b` in reading order (row by row, column by column). */
  predicate Later(a: Position, b: Position)
  {
    a.0 > b.0 || (a.0 == b.0 && a.1 > b.1)
  }

  /** The last column of `line` holding `m`, if any. */
  function LastIn(line: string, m: char): (r: Option<nat>)
    ensures r.Some? <==> m in line
    ensures r.Some? ==> r.value < |line| && line[r.value] == m
    ensures r.Some? ==> forall y :: r.value < y < |line| ==> line[y] != m
  {
    if line == [] then None
    else if line[|line| - 1] == m then Some(|line| - 1)
    else
      assert forall y :: 0 <= y < |line| - 1 ==> line[..|line| - 1][y] == line[y];
      LastIn(line[..|line| - 1], m)
  }

  /**
   * Where the marker `m` is: each occurrence overwrites the previous one,
   * so the last in reading order wins, and (0, 0) when there is none.
   */
  function Marker(lines: seq<string>, m: char): (r: Position)
    ensures (forall x :: 0 <= x < |lines| ==> m !in lines[x]) ==> r == (0, 0)
    ensures (exists x :: 0 <= x < |lines| && m in lines[x]) ==>
      0 <= r.0 < |lines| && 0 <= r.1 < |lines[r.0]| && lines[r.0][r.1] == m
    ensures forall x, y :: 0 <= x < |lines| && 0 <= y < |lines[x]| && lines[x][y] == m ==> !Later((x, y), r)
  {
    if lines == [] then (0, 0)
    else
      match LastIn(lines[|lines| - 1], m)
      case Some(y) => (|lines| - 1, y)
      case None =>
        var r := Marker(lines[..|lines| - 1], m);
        assert forall x :: 0 <= x < |lines| - 1 ==> lines[..|lines| - 1][x] == lines[x];
        r
  }

  /** `Map::parse`: the elevations, the start and the end. */
  function Parse(lines: seq<string>): (r: Result<(Grid, Position, Position)>)
    ensures r.Ok? <==> Readable(lines)
    ensures r.Ok? ==> r.value.1 == Marker(lines, 'S') && r.value.2 == Marker(lines, 'E')
  {
    match ParseGrid(lines)
    case Panic => Panic
    case Ok(g) => Ok((g, Marker(lines, 'S'), Marker(lines, 'E')))
  }

  /** The parsed grid has the input's shape, and each square the elevation of its character. */
  lemma ParseShape(lines: seq<string>)
    requires Readable(lines)
    ensures var g := Parse(lines).value.0;
      |g| == |lines| &&
      forall x, y :: 0 <= x < |lines| && 0 <= y < |lines[x]| ==>
        |g[x]| == |lines[x]| && g[x][y] == Elevation(lines[x][y]).value
  {
    var g := Parse(lines).value.0;
    forall x, y | 0 <= x < |lines| && 0 <= y < |lines[x]|
      ensures |g[x]| == |lines[x]| && g[x][y] == Elevation(lines[x][y]).value
    {
      assert ParseRow(lines[x]) == Ok(g[x]);
    }
  }

  /** The start square is at elevation 0 and the end square at 25 whenever they are marked. */
  lemma MarkersElevation(lines: seq<string>)
    requires Readable(lines)
    ensures var (g, s, e) := Parse(lines).value;
      ((exists x :: 0 <= x < |lines| && 'S' in lines[x]) ==> Get(g, s) == Some(0)) &&
      ((exists x :: 0 <= x < |lines| && 'E' in lines[x]) ==> Get(g, e) == Some(25))
  {
    ParseShape(lines);
  }

  /** `Map::get`: the elevation at a position, `None` exactly outside the grid. */
  function Get(g: Grid, p: Position): (r: Option<nat>)
    ensures r.None? <==> p.0 < 0 || p.0 >= |g| || p.1 < 0 || p.1 >= |g[p.0]|
    ensures r.Some? ==> r.value == g[p.0][p.1]
  {
    if p.0 < 0 || p.0 >= |g| || p.1 < 0 || p.1 >= |g[p.0]| then None
    else Some(g[p.0][p.1])
  }

  /** The squares of the grid. */
  function Squares(g: Grid): (r: set<Position>)
    ensures forall p :: p in r <==> Get(g, p).Some?
  {
    set x, y | 0 <= x < |g| && 0 <= y < |g[x]| :: (x, y)
  }

  // -------------------------------------------------------------- the heap

  /** An entry of the search heap. */
  datatype State = State(cost: nat, position: Position)

  /**
   * `Ord for State`: the cost comparison is reversed, so the max-heap pops
   * the cheapest entry first; ties go to the larger position.
   */
  function CompareState(a: State, b: State): (r: Ordering)
    ensures a.cost < b.cost ==> r == Greater
    ensures a.cost > b.cost ==> r == Less
    ensures r == Equal <==> a == b
  {
    Then(CompareInt(b.cost, a.cost), ComparePair(a.position, b.position))
  }

  /** Swapping the entries swaps `Greater` and `Less`. */
  lemma CompareAntisymmetric(a: State, b: State)
    ensures CompareState(a, b) == Greater <==> CompareState(b, a) == Less
  {
  }

  /** The order on entries is transitive. */
  lemma CompareTransitive(a: State, b: State, c: State)
    requires CompareState(a, b) == Greater && CompareState(b, c) == Greater
    ensures CompareState(a, c) == Greater
  {
  }

  /** `BinaryHeap::pop`: the index of the greatest entry, which has the lowest cost. */
  function Top(heap: seq<State>): (i: nat)
    requires |heap| > 0
    ensures i < |heap|
    ensures forall j :: 0 <= j < |heap| ==> CompareState(heap[j], heap[i]) != Greater
    ensures forall j :: 0 <= j < |heap| ==> heap[i].cost <= heap[j].cost
  {
    if |heap| == 1 then 0
    else
      var k := Top(heap[..|heap| - 1]);
      assert forall j :: 0 <= j < |heap| - 1 ==> heap[..|heap| - 1][j] == heap[j];
      if CompareState(heap[|heap| - 1], heap[k]) == Greater then
        forall j | 0 <= j < |heap| - 1 && CompareState(heap[j], heap[|heap| - 1]) == Greater
          ensures false
        {
          CompareTransitive(heap[j], heap[|heap| - 1], heap[k]);
        }
        |heap| - 1
      else k
  }

  /** Entry `i` costs no more than any other entry. */
  predicate Cheapest(heap: seq<State>, i: nat)
  {
    i < |heap| && forall j :: 0 <= j < |heap| ==> heap[i].cost <= heap[j].cost
  }

  // ------------------------------------------------------------ the search

  /** The four squares `find_steps` looks at around `p`. */
  predicate Adjacent(p: Position, q: Position)
  {
    q == (p.0 - 1, p.1) || q == (p.0 + 1, p.1) || q == (p.0, p.1 - 1) || q == (p.0, p.1 + 1)
  }

  /** One move of the search: to an adjacent square the visit condition accepts. */
  predicate Step(visit: (Position, Position) -> bool, p: Position, q: Position)
  {
    Adjacent(p, q) && visit(p, q)
  }

  /** A walk of |w| - 1 moves from `start`. */
  predicate Walk(visit: (Position, Position) -> bool, start: Position, w: seq<Position>)
  {
    |w| > 0 && w[0] == start && forall i :: 0 <= i < |w| - 1 ==> Step(visit, w[i], w[i + 1])
  }

  function Last(w: seq<Position>): Position
    requires |w| > 0
  {
    w[|w| - 1]
  }

  /** Some walk of `n` moves leads from `start` to `p`. */
  ghost predicate Reachable(visit: (Position, Position) -> bool, start: Position, p: Position, n: nat)
  {
    exists w :: Walk(visit, start, w) && Last(w) == p && |w| == n + 1
  }

  /**
   * What `find_steps` computes: the fewest moves from `start` to a square
   * meeting the stop condition, or a panic exactly when none is reachable.
   */
  ghost predicate Fewest(r: Result<nat>, start: Position, stop: Position -> bool, visit: (Position, Position) -> bool)
  {
    (r.Ok? ==> exists w :: Walk(visit, start, w) && stop(Last(w)) && |w| == r.value + 1) &&
    (r.Ok? ==> forall w :: Walk(visit, start, w) && stop(Last(w)) ==> r.value < |w|) &&
    (r.Panic? <==> forall w :: Walk(visit, start, w) ==> !stop(Last(w)))
  }

  /** Every entry of the heap is the end of a walk as long as its cost. */
  ghost predicate HeapSound(visit: (Position, Position) -> bool, start: Position, heap: seq<State>)
  {
    forall k :: 0 <= k < |heap| ==> Reachable(visit, start, heap[k].position, heap[k].cost)
  }

  /** Every recorded cost is at most the length of every walk to its square. */
  ghost predicate CostOptimal(visit: (Position, Position) -> bool, start: Position, cost: map<Position, nat>)
  {
    forall p, w :: p in cost && Walk(visit, start, w) && Last(w) == p ==> cost[p] < |w|
  }

  /**
   * The frontier: the start is recorded or waiting at cost 0, and every move
   * out of a recorded square leads to a recorded square or to an entry one
   * step dearer.
   */
  ghost predicate Frontier(visit: (Position, Position) -> bool, start: Position, heap: seq<State>, cost: map<Position, nat>)
  {
    (start in cost || State(0, start) in heap) &&
    forall p, q :: p in cost && Step(visit, p, q) ==> q in cost || State(cost[p] + 1, q) in heap
  }

  /** A walk to an unrecorded square passes the frontier: some entry is no dearer than the walk. */
  lemma {:induction false} CrossFrontier(visit: (Position, Position) -> bool, start: Position, heap: seq<State>,
                                         cost: map<Position, nat>, w: seq<Position>) returns (k: nat)
    requires Frontier(visit, start, heap, cost) && CostOptimal(visit, start, cost)
    requires Walk(visit, start, w) && Last(w) !in cost
    ensures k < |heap| && heap[k].cost < |w|
  {
    if |w| == 1 {
      k :| 0 <= k < |heap| && heap[k] == State(0, start);
    } else {
      var prefix := w[..|w| - 1];
      assert Walk(visit, start, prefix) by {
        forall i | 0 <= i < |prefix| - 1 ensures Step(visit, prefix[i], prefix[i + 1]) {
          assert Step(visit, w[i], w[i + 1]);
        }
      }
      var p := Last(prefix);
      if p in cost {
        assert Step(visit, w[|w| - 2], w[|w| - 1]);
        assert cost[p] < |prefix|;
        k :| 0 <= k < |heap| && heap[k] == State(cost[p] + 1, Last(w));
      } else {
        k := CrossFrontier(visit, start, heap, cost, prefix);
      }
    }
  }

  /** A walk to `p` extended by one move to `q`. */
  lemma Extend(visit: (Position, Position) -> bool, start: Position, p: Position, n: nat, q: Position)
    requires Reachable(visit, start, p, n) && Step(visit, p, q)
    ensures Reachable(visit, start, q, n + 1)
  {
    var w :| Walk(visit, start, w) && Last(w) == p && |w| == n + 1;
    var w' := w + [q];
    assert Walk(visit, start, w') by {
      forall i | 0 <= i < |w'| - 1 ensures Step(visit, w'[i], w'[i + 1]) {
        if i < |w| - 1 {
          assert Step(visit, w[i], w[i + 1]);
        }
      }
    }
    assert Last(w') == q;
  }

  /** The loop invariant of `find_steps`, over the squares the search can reach. */
  ghost predicate Searching(visit: (Position, Position) -> bool, start: Position, stop: Position -> bool,
                            squares: set<Position>, heap: seq<State>, cost: map<Position, nat>)
  {
    HeapSound(visit, start, heap) &&
    CostOptimal(visit, start, cost) &&
    Frontier(visit, start, heap, cost) &&
    (forall p :: p in cost ==> !stop(p)) &&
    cost.Keys <= squares &&
    (forall k :: 0 <= k < |heap| ==> heap[k].position in squares)
  }

  /** Popping an entry whose square already has a cost keeps the invariant. */
  lemma PopSkip(visit: (Position, Position) -> bool, start: Position, stop: Position -> bool,
                squares: set<Position>, heap: seq<State>, cost: map<Position, nat>, i: nat)
    requires Searching(visit, start, stop, squares, heap, cost)
    requires i < |heap| && heap[i].position in cost
    ensures Searching(visit, start, stop, squares, heap[..i] + heap[i + 1..], cost)
  {
    RemoveKeeps(heap, i);
    RemoveSound(visit, start, squares, heap, i);
  }

  /** Pushing the neighbours of a reachable entry keeps every entry reachable. */
  lemma PushSound(visit: (Position, Position) -> bool, start: Position, current: State, heap: seq<State>)
    requires HeapSound(visit, start, heap)
    requires Reachable(visit, start, current.position, current.cost)
    ensures HeapSound(visit, start, PushNeighbours(visit, current, heap))
  {
    var h := PushNeighbours(visit, current, heap);
    forall k | 0 <= k < |h| ensures Reachable(visit, start, h[k].position, h[k].cost) {
      if k < |heap| {
        assert h[k] == heap[k];
      } else {
        Extend(visit, start, current.position, current.cost, h[k].position);
      }
    }
  }

  /** Pushing the neighbours of `current` after recording its cost keeps the frontier. */
  lemma PushFrontier(visit: (Position, Position) -> bool, start: Position, heap: seq<State>, cost: map<Position, nat>,
                     current: State, rest: seq<State>)
    requires Frontier(visit, start, heap, cost)
    requires current in heap && forall x :: x in heap && x != current ==> x in rest
    ensures Frontier(visit, start, PushNeighbours(visit, current, rest), cost[current.position := current.cost])
  {
  }

  /** The cost of the top entry is at most the length of every walk to its square. */
  lemma TopOptimal(visit: (Position, Position) -> bool, start: Position, heap: seq<State>, cost: map<Position, nat>, i: nat)
    requires Frontier(visit, start, heap, cost) && CostOptimal(visit, start, cost)
    requires Cheapest(heap, i) && heap[i].position !in cost
    ensures CostOptimal(visit, start, cost[heap[i].position := heap[i].cost])
  {
    forall w | Walk(visit, start, w) && Last(w) == heap[i].position ensures heap[i].cost < |w| {
      var k := CrossFrontier(visit, start, heap, cost, w);
    }
  }

  /** Pushed entries stay within the squares the visit condition can accept. */
  lemma PushRegion(visit: (Position, Position) -> bool, squares: set<Position>, current: State, heap: seq<State>)
    requires forall p, q :: visit(p, q) ==> q in squares
    requires forall k :: 0 <= k < |heap| ==> heap[k].position in squares
    ensures var h := PushNeighbours(visit, current, heap);
      forall k :: 0 <= k < |h| ==> h[k].position in squares
  {
  }

  /** Removing an entry keeps every entry reachable and within the squares. */
  lemma RemoveSound(visit: (Position, Position) -> bool, start: Position, squares: set<Position>, heap: seq<State>, i: nat)
    requires HeapSound(visit, start, heap) && forall k :: 0 <= k < |heap| ==> heap[k].position in squares
    requires i < |heap|
    ensures var rest := heap[..i] + heap[i + 1..];
      HeapSound(visit, start, rest) && forall k :: 0 <= k < |rest| ==> rest[k].position in squares
  {
    var rest := heap[..i] + heap[i + 1..];
    assert forall k :: 0 <= k < |rest| ==> rest[k] == heap[if k < i then k else k + 1];
  }

  /**
   * Popping the top entry for a square without a cost, recording that cost
   * and pushing the neighbours keeps the invariant.
   */
  lemma PopExpand(visit: (Position, Position) -> bool, start: Position, stop: Position -> bool,
                  squares: set<Position>, heap: seq<State>, cost: map<Position, nat>, i: nat)
    requires Searching(visit, start, stop, squares, heap, cost)
    requires forall p, q :: visit(p, q) ==> q in squares
    requires Cheapest(heap, i) && heap[i].position !in cost && !stop(heap[i].position)
    ensures var current := heap[i];
      Searching(visit, start, stop, squares,
                PushNeighbours(visit, current, heap[..i] + heap[i + 1..]), cost[current.position := current.cost])
  {
    var current := heap[i];
    var rest := heap[..i] + heap[i + 1..];
    RemoveKeeps(heap, i);
    RemoveSound(visit, start, squares, heap, i);
    TopOptimal(visit, start, heap, cost, i);
    PushSound(visit, start, current, rest);
    PushFrontier(visit, start, heap, cost, current, rest);
    PushRegion(visit, squares, current, rest);
  }

  /** Recording a cost for a new square of the region leaves fewer squares to record. */
  lemma RecordShrinks(squares: set<Position>, cost: map<Position, nat>, p: Position, c: nat)
    requires p in squares && p !in cost
    ensures |squares - cost[p := c].Keys| < |squares - cost.Keys|
  {
    var after := squares - cost[p := c].Keys;
    assert squares - cost.Keys == after + {p} && p !in after;
  }

  /** The top entry meets the stop condition: its cost is the fewest moves to any stopping square. */
  lemma StopFound(visit: (Position, Position) -> bool, start: Position, stop: Position -> bool,
                  squares: set<Position>, heap: seq<State>, cost: map<Position, nat>, i: nat)
    requires Searching(visit, start, stop, squares, heap, cost)
    requires Cheapest(heap, i) && stop(heap[i].position)
    ensures Fewest(Ok(heap[i].cost), start, stop, visit)
  {
    forall w | Walk(visit, start, w) && stop(Last(w)) ensures heap[i].cost < |w| {
      var k := CrossFrontier(visit, start, heap, cost, w);
    }
    assert Reachable(visit, start, heap[i].position, heap[i].cost);
  }

  /** The heap ran empty: no walk reaches a stopping square. */
  lemma Exhausted(visit: (Position, Position) -> bool, start: Position, stop: Position -> bool,
                  squares: set<Position>, cost: map<Position, nat>)
    requires Searching(visit, start, stop, squares, [], cost)
    ensures Fewest(Panic, start, stop, visit)
  {
    forall w | Walk(visit, start, w) ensures !stop(Last(w)) {
      if stop(Last(w)) {
        var k := CrossFrontier(visit, start, [], cost, w);
      }
    }
  }

  /**
   * `find_steps`: pops the cheapest entry; stops when it meets the stop
   * condition, skips it when its square already has a cost, and otherwise
   * records the cost and pushes each accepted neighbour one step dearer.
   * Every visit condition only accepts squares of a finite `region`, which
   * bounds the search. Squares that were expanded never meet the stop
   * condition, since it is tested before expansion.
   */
  method FindSteps(start: Position, stop: Position -> bool, visit: (Position, Position) -> bool, ghost region: set<Position>)
    returns (r: Result<nat>, ghost expanded: set<Position>)
    requires forall p, q :: visit(p, q) ==> q in region
    ensures Fewest(r, start, stop, visit)
    ensures forall p :: p in expanded ==> !stop(p)
  {
    var cost: map<Position, nat> := map[];
    var heap := [State(0, start)];
    ghost var squares := region + {start};
    assert Reachable(visit, start, start, 0) by {
      assert Walk(visit, start, [start]);
    }
    while heap != []
      invariant Searching(visit, start, stop, squares, heap, cost)
      decreases |squares - cost.Keys|, |heap|
    {
      var i := Top(heap);
      var current := heap[i];
      if stop(current.position) {
        StopFound(visit, start, stop, squares, heap, cost, i);
        return Ok(current.cost), cost.Keys;
      }
      if current.position in cost {
        PopSkip(visit, start, stop, squares, heap, cost, i);
        heap := heap[..i] + heap[i + 1..];
      } else {
        PopExpand(visit, start, stop, squares, heap, cost, i);
        RecordShrinks(squares, cost, current.position, current.cost);
        heap := PushNeighbours(visit, current, heap[..i] + heap[i + 1..]);
        cost := cost[current.position := current.cost];
      }
    }
    Exhausted(visit, start, stop, squares, cost);
    return Panic, cost.Keys;
  }

  /** The entries pushed for `current`: one step dearer, for each neighbour the visit condition accepts. */
  function PushNeighbours(visit: (Position, Position) -> bool, current: State, heap: seq<State>): (r: seq<State>)
    ensures forall x :: x in heap ==> x in r
    ensures forall q :: Step(visit, current.position, q) ==> State(current.cost + 1, q) in r
    ensures |heap| <= |r| && r[..|heap|] == heap
    ensures forall k :: |heap| <= k < |r| ==> Step(visit, current.position, r[k].position) && r[k].cost == current.cost + 1
  {
    var p, c := current.position, current.cost + 1;
    var f := Filter(visit, p, Candidates(p, c));
    FilterSteps(visit, p, c);
    var r := heap + f;
    assert forall k :: |heap| <= k < |r| ==> r[k] == f[k - |heap|];
    r
  }

  /** The four neighbours of `p` in the program's order (up, down, left, right), each at cost `c`. */
  function Candidates(p: Position, c: nat): seq<State>
  {
    [State(c, (p.0 - 1, p.1)), State(c, (p.0 + 1, p.1)), State(c, (p.0, p.1 - 1)), State(c, (p.0, p.1 + 1))]
  }

  /** The accepted candidates are exactly the steps from `p`, at cost `c`. */
  lemma FilterSteps(visit: (Position, Position) -> bool, p: Position, c: nat)
    ensures var f := Filter(visit, p, Candidates(p, c));
      (forall x :: x in f ==> Step(visit, p, x.position) && x.cost == c) &&
      (forall q :: Step(visit, p, q) ==> State(c, q) in f)
  {
    var s := Candidates(p, c);
    forall q | Step(visit, p, q) ensures State(c, q) in s {
      assert q == s[0].position || q == s[1].position || q == s[2].position || q == s[3].position;
    }
  }

  /** The entries whose position the visit condition accepts from `p`, in order. */
  function Filter(visit: (Position, Position) -> bool, p: Position, s: seq<State>): (r: seq<State>)
    ensures forall x :: x in r <==> x in s && visit(p, x.position)
  {
    if s == [] then []
    else
      var rest := Filter(visit, p, s[1..]);
      if visit(p, s[0].position) then [s[0]] + rest else rest
  }

  // ------------------------------------------------------------ the parts

  /**
   * `part1`'s visit condition: onto a square of the grid at most one higher
   * than the current one. (The program unwraps the current elevation; every
   * square it expands is the start or a square it pushed, and a start
   * outside the grid panics there where this condition refuses every move,
   * which ends in the same panic.)
   */
  function ClimbUp(g: Grid): (Position, Position) -> bool
  {
    (p: Position, q: Position) => Get(g, p).Some? && Get(g, q).Some? && Get(g, q).value <= Get(g, p).value + 1
  }

  /**
   * `part2`'s visit condition: onto a square of the grid at most one lower
   * than the current one. The program computes `current - 1` on bytes,
   * which would overflow at elevation 0; such a square meets the stop
   * condition and is never expanded.
   */
  function ClimbDown(g: Grid): (Position, Position) -> bool
  {
    (p: Position, q: Position) => Get(g, p).Some? && Get(g, q).Some? && Get(g, q).value + 1 >= Get(g, p).value
  }

  /** `part1`'s stop condition: the end square. */
  function AtEnd(e: Position): Position -> bool
  {
    (p: Position) => p == e
  }

  /** `part2`'s stop condition: a square at elevation 0. */
  function Lowest(g: Grid): Position -> bool
  {
    (p: Position) => Get(g, p) == Some(0)
  }

  /** Both visit conditions only accept squares of the grid. */
  lemma ClimbsStayOnGrid(g: Grid)
    ensures forall p, q :: ClimbUp(g)(p, q) ==> q in Squares(g)
    ensures forall p, q :: ClimbDown(g)(p, q) ==> q in Squares(g)
  {
  }

  /** `part1`: the fewest steps from `S` to `E`, climbing at most one level per step. */
  method Part1(lines: seq<string>) returns (r: Result<nat>)
    ensures Parse(lines).Panic? ==> r.Panic?
    ensures Parse(lines).Ok? ==>
      var (g, s, e) := Parse(lines).value;
      Fewest(r, s, AtEnd(e), ClimbUp(g))
  {
    var parsed := Parse(lines);
    if parsed.Panic? {
      return Panic;
    }
    var (g, s, e) := parsed.value;
    ClimbsStayOnGrid(g);
    ghost var expanded;
    r, expanded := FindSteps(s, AtEnd(e), ClimbUp(g), Squares(g));
  }

  /**
   * `part2`: searching down from `E`, the fewest steps to a square at
   * elevation 0; no square at elevation 0 is ever expanded.
   */
  method Part2(lines: seq<string>) returns (r: Result<nat>, ghost expanded: set<Position>)
    ensures Parse(lines).Panic? ==> r.Panic?
    ensures Parse(lines).Ok? ==>
      var (g, _, e) := Parse(lines).value;
      Fewest(r, e, Lowest(g), ClimbDown(g)) && forall p :: p in expanded ==> Get(g, p) != Some(0)
  {
    var parsed := Parse(lines);
    if parsed.Panic? {
      return Panic, {};
    }
    var (g, _, e) := parsed.value;
    ClimbsStayOnGrid(g);
    r, expanded := FindSteps(e, Lowest(g), ClimbDown(g), Squares(g));
  }

  /** A walk read backwards. */
  function Reverse(w: seq<Position>): (r: seq<Position>)
    ensures |r| == |w| && forall i :: 0 <= i < |w| ==> r[i] == w[|w| - 1 - i]
  {
    seq(|w|, i requires 0 <= i < |w| => w[|w| - 1 - i])
  }

  /**
   * `part2`'s descent from `E` is `part1`'s climb read backwards: a walk down
   * from `E` is exactly a climb, from its last square, that ends at `E`. So
   * `part2` finds the fewest steps from any lowest square up to `E`.
   */
  lemma DescentIsReversedClimb(g: Grid, e: Position, w: seq<Position>)
    requires |w| > 0
    ensures Walk(ClimbDown(g), e, w) <==> Walk(ClimbUp(g), Last(w), Reverse(w)) && Last(Reverse(w)) == e
  {
    var n := |w|;
    var r := Reverse(w);
    forall i | 0 <= i < n - 1
      ensures Step(ClimbDown(g), w[i], w[i + 1]) <==> Step(ClimbUp(g), r[n - 2 - i], r[n - 1 - i])
    {
      assert r[n - 2 - i] == w[i + 1] && r[n - 1 - i] == w[i];
    }
    if Walk(ClimbUp(g), Last(w), r) && Last(r) == e {
      forall i | 0 <= i < n - 1 ensures Step(ClimbDown(g), w[i], w[i + 1]) {
        assert Step(ClimbUp(g), r[n - 2 - i], r[n - 2 - i + 1]);
      }
    }
    if Walk(ClimbDown(g), e, w) {
      forall j | 0 <= j < n - 1 ensures Step(ClimbUp(g), r[j], r[j + 1]) {
        assert Step(ClimbDown(g), w[n - 2 - j], w[n - 2 - j + 1]);
      }
    }
  }
}
