// Blizzard basin (year 2022, day 24): blizzards drift across a walled
// valley, wrapping round at the walls, and a heap search finds the earliest
// minute at which the expedition, stepping or waiting once per minute,
// reaches the gap in the far wall.

module Basin {
  import opened Common

  /** (row, column) inside the walls: row -1 holds the entry gap, row `height` the exit gap. */
  type Position = (int, int)

  datatype Direction = Up | Right | Down | Left

  datatype Blizzard = Blizzard(position: Position, direction: Direction)

  /** The valley: its inner size and, for each minute, which cells hold a blizzard. */
  datatype Valley = Valley(width: int, height: int, maps: seq<seq<seq<bool>>>)

  /** The number of minutes whose maps are computed in advance. */
  const Horizon: nat := 800

  // ------------------------------------------------------ wrapping arithmetic

  lemma ProductSmall(m: int, k: int)
    requires m > 0 && -m < m * k < m
    ensures k == 0
  {
  }

  /** The remainder of `m * q + r` is `r` whenever `r` is in range. */
  lemma ModUnique(y: int, m: int, q: int, r: int)
    requires m > 0 && 0 <= r < m && y == m * q + r
    ensures y % m == r
  {
    assert y == m * (y / m) + y % m;
    assert m * (q - y / m) == y % m - r;
    ProductSmall(m, q - y / m);
  }

  lemma ModPred(y: int, m: int)
    requires m > 0
    ensures (y - 1) % m == if y % m == 0 then m - 1 else y % m - 1
  {
    var q := y / m;
    assert y == m * q + y % m;
    if y % m == 0 {
      assert y - 1 == m * (q - 1) + (m - 1);
      ModUnique(y - 1, m, q - 1, m - 1);
    } else {
      ModUnique(y - 1, m, q, y % m - 1);
    }
  }

  lemma ModSucc(y: int, m: int)
    requires m > 0
    ensures (y + 1) % m == if y % m == m - 1 then 0 else y % m + 1
  {
    var q := y / m;
    assert y == m * q + y % m;
    if y % m == m - 1 {
      assert y + 1 == m * (q + 1) + 0;
      ModUnique(y + 1, m, q + 1, 0);
    } else {
      ModUnique(y + 1, m, q, y % m + 1);
    }
  }

  lemma ModPeriod(y: int, m: int)
    requires m > 0
    ensures (y + m) % m == y % m && (y - m) % m == y % m
  {
    var q := y / m;
    assert y == m * q + y % m;
    assert y + m == m * (q + 1) + y % m;
    ModUnique(y + m, m, q + 1, y % m);
    assert y - m == m * (q - 1) + y % m;
    ModUnique(y - m, m, q - 1, y % m);
  }

  // --------------------------------------------------------------- blizzards

  predicate Vertical(d: Direction)
  {
    d == Up || d == Down
  }

  predicate InRange(p: Position, width: int, height: int)
  {
    0 <= p.0 < height && 0 <= p.1 < width
  }

  /**
   * Where a blizzard is after `time` minutes (`compute_map`): its start
   * shifted along its direction and wrapped with `rem_euclid`, which is
   * Dafny's `%` for a positive modulus; a zero modulus panics. The other
   * coordinate is kept as it is, and is not checked.
   */
  function Drift(b: Blizzard, time: int, width: nat, height: nat): (r: Result<Position>)
    ensures r.Panic? <==> (if Vertical(b.direction) then height == 0 else width == 0)
    ensures r.Ok? && Vertical(b.direction) ==> r.value.1 == b.position.1 && 0 <= r.value.0 < height
    ensures r.Ok? && !Vertical(b.direction) ==> r.value.0 == b.position.0 && 0 <= r.value.1 < width
  {
    var (row, col) := b.position;
    match b.direction
    case Up => if height == 0 then Panic else Ok(((row - time) % height, col))
    case Right => if width == 0 then Panic else Ok((row, (col + time) % width))
    case Down => if height == 0 then Panic else Ok(((row + time) % height, col))
    case Left => if width == 0 then Panic else Ok((row, (col - time) % width))
  }

  /** One cell along `d`, wrapping round to the opposite wall. */
  function Advance(p: Position, d: Direction, width: int, height: int): Position
  {
    match d
    case Up => (if p.0 == 0 then height - 1 else p.0 - 1, p.1)
    case Right => (p.0, if p.1 == width - 1 then 0 else p.1 + 1)
    case Down => (if p.0 == height - 1 then 0 else p.0 + 1, p.1)
    case Left => (p.0, if p.1 == 0 then width - 1 else p.1 - 1)
  }

  /** At minute 0 a blizzard inside the valley is where it started. */
  lemma DriftStart(b: Blizzard, width: nat, height: nat)
    requires InRange(b.position, width, height)
    ensures Drift(b, 0, width, height) == Ok(b.position)
  {
  }

  /** Each minute a blizzard moves one cell along its direction, wrapping round at the walls. */
  lemma DriftStep(b: Blizzard, time: int, width: nat, height: nat)
    requires width > 0 && height > 0
    ensures Drift(b, time + 1, width, height) == Ok(Advance(Drift(b, time, width, height).value, b.direction, width, height))
  {
    var (row, col) := b.position;
    var y := match b.direction
      case Up => row - time
      case Right => col + time
      case Down => row + time
      case Left => col - time;
    var m := if Vertical(b.direction) then height else width;
    ModPred(y, m);
    ModSucc(y, m);
    assert Drift(b, time, width, height).value == if Vertical(b.direction) then (y % m, col) else (row, y % m);
  }

  /** A blizzard is back where it was after `height` minutes (vertical) or `width` minutes (horizontal). */
  lemma DriftRepeats(b: Blizzard, time: int, width: nat, height: nat)
    requires width > 0 && height > 0
    ensures Drift(b, time + (if Vertical(b.direction) then height else width), width, height) == Drift(b, time, width, height)
  {
    var (row, col) := b.position;
    match b.direction
    case Up =>
      assert row - (time + height) == (row - time) - height;
      ModPeriod(row - time, height);
    case Right =>
      assert col + (time + width) == (col + time) + width;
      ModPeriod(col + time, width);
    case Down =>
      assert row + (time + height) == (row + time) + height;
      ModPeriod(row + time, height);
    case Left =>
      assert col - (time + width) == (col - time) - width;
      ModPeriod(col - time, width);
  }

  /** The blizzard's cell exists: its index into the map does not panic. */
  predicate Fits(b: Blizzard, time: int, width: nat, height: nat)
  {
    Drift(b, time, width, height).Ok? && InRange(Drift(b, time, width, height).value, width, height)
  }

  /** Whether a blizzard fits does not depend on the minute. */
  lemma FitsAlways(b: Blizzard, time: int, width: nat, height: nat)
    ensures Fits(b, time, width, height) == Fits(b, 0, width, height)
  {
  }

  /** Some blizzard of `blizzards` is at `p` after `time` minutes. */
  ghost predicate Occupied(blizzards: set<Blizzard>, time: int, width: nat, height: nat, p: Position)
  {
    exists b :: b in blizzards && Drift(b, time, width, height) == Ok(p)
  }

  /** The map of minute `time`: a `height` × `width` grid marking the occupied cells. */
  ghost function MapOf(blizzards: set<Blizzard>, time: int, width: nat, height: nat): seq<seq<bool>>
  {
    seq(height, row => seq(width, col => Occupied(blizzards, time, width, height, (row, col))))
  }

  function Elements<T>(s: seq<T>): set<T>
  {
    set x | x in s
  }

  /** A grid marking the cells of exactly the blizzards of `blizzards` is their map. */
  lemma Marked(grid: seq<seq<bool>>, blizzards: seq<Blizzard>, time: int, width: nat, height: nat)
    requires |grid| == height && forall row :: 0 <= row < height ==> |grid[row]| == width
    requires forall row, col :: 0 <= row < height && 0 <= col < width ==>
      (grid[row][col] <==> exists j :: 0 <= j < |blizzards| && Drift(blizzards[j], time, width, height) == Ok((row, col)))
    ensures grid == MapOf(Elements(blizzards), time, width, height)
  {
    var expected := MapOf(Elements(blizzards), time, width, height);
    forall row | 0 <= row < height ensures grid[row] == expected[row] {
      forall col | 0 <= col < width ensures grid[row][col] == expected[row][col] {
        if grid[row][col] {
          var j :| 0 <= j < |blizzards| && Drift(blizzards[j], time, width, height) == Ok((row, col));
          assert blizzards[j] in Elements(blizzards);
        }
        if expected[row][col] {
          var b :| b in Elements(blizzards) && Drift(b, time, width, height) == Ok((row, col));
          var j :| 0 <= j < |blizzards| && blizzards[j] == b;
        }
      }
    }
  }

  /**
   * `compute_map`: starts from an empty grid and marks the cell of each
   * blizzard in turn; panics when a blizzard's cell is outside the grid.
   */
  method ComputeMap(blizzards: seq<Blizzard>, time: int, width: nat, height: nat) returns (r: Result<seq<seq<bool>>>)
    ensures r.Ok? <==> forall b :: b in blizzards ==> Fits(b, time, width, height)
    ensures r.Ok? ==> r.value == MapOf(Elements(blizzards), time, width, height)
  {
    var grid := seq(height, _ => seq(width, _ => false));
    for k := 0 to |blizzards|
      invariant |grid| == height && forall row :: 0 <= row < height ==> |grid[row]| == width
      invariant forall j :: 0 <= j < k ==> Fits(blizzards[j], time, width, height)
      invariant forall row, col :: 0 <= row < height && 0 <= col < width ==>
        (grid[row][col] <==> exists j :: 0 <= j < k && Drift(blizzards[j], time, width, height) == Ok((row, col)))
    {
      var pos := Drift(blizzards[k], time, width, height);
      if pos.Panic? || !InRange(pos.value, width, height) {
        assert blizzards[k] in blizzards && !Fits(blizzards[k], time, width, height);
        return Panic;
      }
      grid := grid[pos.value.0 := grid[pos.value.0][pos.value.1 := true]];
    }
    Marked(grid, blizzards, time, width, height);
    return Ok(grid);
  }

  // ----------------------------------------------------------------- parsing

  /** The direction an arrow character stands for. */
  function Arrow(c: char): (r: Option<Direction>)
    ensures r.Some? <==> c in ">v<^"
  {
    match c
    case '>' => Some(Right)
    case '<' => Some(Left)
    case 'v' => Some(Down)
    case '^' => Some(Up)
    case _ => None
  }

  /** The blizzards of the input, placed relative to the inner top-left corner. */
  ghost function Sighted(lines: seq<string>): set<Blizzard>
  {
    set i, j | 0 <= i < |lines| && 0 <= j < |lines[i]| && Arrow(lines[i][j]).Some? ::
      Blizzard((i - 1, j - 1), Arrow(lines[i][j]).value)
  }

  /** An arrow at row `i`, column `j` makes blizzard `b`. */
  predicate ArrowAt(lines: seq<string>, i: int, j: int, b: Blizzard)
  {
    0 <= i < |lines| && 0 <= j < |lines[i]| && Arrow(lines[i][j]) == Some(b.direction) && b.position == (i - 1, j - 1)
  }

  /** `b` comes from an arrow before row `row`, column `col` in reading order. */
  ghost predicate SeenBefore(lines: seq<string>, row: int, col: int, b: Blizzard)
  {
    exists i, j :: ArrowAt(lines, i, j, b) && (i < row || (i == row && j < col))
  }

  /** The scanning loops of `preprocess`: one blizzard per arrow, row by row. */
  method Scan(lines: seq<string>) returns (blizzards: seq<Blizzard>)
    ensures Elements(blizzards) == Sighted(lines)
  {
    blizzards := [];
    for row := 0 to |lines|
      invariant forall b :: b in blizzards <==> SeenBefore(lines, row, 0, b)
    {
      var line := lines[row];
      for col := 0 to |line|
        invariant forall b :: b in blizzards <==> SeenBefore(lines, row, col, b)
      {
        var arrow := Arrow(line[col]);
        if arrow.Some? {
          var b := Blizzard((row - 1, col - 1), arrow.value);
          assert ArrowAt(lines, row, col, b);
          blizzards := blizzards + [b];
        }
      }
      forall b | SeenBefore(lines, row, |line|, b) ensures SeenBefore(lines, row + 1, 0, b) {
        var i, j :| ArrowAt(lines, i, j, b) && (i < row || (i == row && j < |line|));
      }
      forall b | SeenBefore(lines, row + 1, 0, b) ensures SeenBefore(lines, row, |line|, b) {
        var i, j :| ArrowAt(lines, i, j, b) && i < row + 1;
      }
    }
    forall b | b in Sighted(lines) ensures b in blizzards {
      var i, j :| 0 <= i < |lines| && 0 <= j < |lines[i]| && Arrow(lines[i][j]).Some? &&
        b == Blizzard((i - 1, j - 1), Arrow(lines[i][j]).value);
      assert ArrowAt(lines, i, j, b);
    }
    forall b | b in blizzards ensures b in Sighted(lines) {
      var i, j :| ArrowAt(lines, i, j, b) && i < |lines|;
    }
  }

  /** The input has the two walls and the two wall columns the sizes subtract. */
  predicate Dims(lines: seq<string>)
  {
    |lines| >= 2 && |lines[0]| >= 2
  }

  /** Every blizzard's cell is inside the grid. */
  ghost predicate Placed(lines: seq<string>)
    requires Dims(lines)
  {
    forall b :: b in Sighted(lines) ==> Fits(b, 0, |lines[0]| - 2, |lines| - 2)
  }

  /** The valley `preprocess` builds: maps for the minutes 0 to 799. */
  ghost function ValleyOf(lines: seq<string>): (v: Valley)
    requires Dims(lines)
    ensures v.width == |lines[0]| - 2 && v.height == |lines| - 2 && |v.maps| == Horizon && Gridded(v)
  {
    var width, height := |lines[0]| - 2, |lines| - 2;
    Valley(width, height, seq(Horizon, time => MapOf(Sighted(lines), time, width, height)))
  }

  /**
   * `preprocess`: the inner width and height (panicking below two lines or
   * two columns), the blizzards, and the map of every minute below 800.
   */
  method Preprocess(lines: seq<string>) returns (r: Result<Valley>)
    ensures r.Ok? <==> Dims(lines) && Placed(lines)
    ensures r.Ok? ==> r.value == ValleyOf(lines)
  {
    if |lines| == 0 || |lines[0]| < 2 || |lines| < 2 {
      return Panic;
    }
    var width, height := |lines[0]| - 2, |lines| - 2;
    var blizzards := Scan(lines);
    var maps := [];
    for time := 0 to Horizon
      invariant |maps| == time
      invariant forall t :: 0 <= t < time ==> maps[t] == MapOf(Sighted(lines), t, width, height)
      invariant time > 0 ==> Placed(lines)
    {
      var grid := ComputeMap(blizzards, time, width, height);
      if grid.Panic? {
        var b :| b in blizzards && !Fits(b, time, width, height);
        FitsAlways(b, time, width, height);
        assert b in Elements(blizzards);
        return Panic;
      }
      forall b | b in Sighted(lines) ensures Fits(b, 0, width, height) {
        assert b in Elements(blizzards);
        FitsAlways(b, time, width, height);
      }
      maps := maps + [grid.value];
    }
    r := Ok(Valley(width, height, maps));
  }

  // ------------------------------------------------------------------ moving

  /** `get_target`: the gap in the bottom wall, above the last column. */
  function Target(v: Valley): Position
  {
    (v.height, v.width - 1)
  }

  /** `get_source`: the gap in the top wall, above the first column. */
  function Source(): Position
  {
    (-1, 0)
  }

  predicate InGrid(v: Valley, p: Position)
  {
    InRange(p, v.width, v.height)
  }

  /** The cells the expedition may ever stand on. */
  predicate Region(v: Valley, p: Position)
  {
    p == Source() || p == Target(v) || InGrid(v, p)
  }

  /**
   * `can_move`: the two gaps are always free, any other cell outside the
   * grid never is, and a grid cell is free when its map holds no blizzard;
   * reading a map that was not computed panics.
   */
  function CanMove(v: Valley, p: Position, time: nat): (r: Result<bool>)
    ensures p == Source() || p == Target(v) ==> r == Ok(true)
    ensures !Region(v, p) ==> r == Ok(false)
    ensures r.Ok? && InGrid(v, p) ==> time < |v.maps|
    ensures r == Ok(true) ==> Region(v, p)
  {
    if p == Target(v) || p == Source() then Ok(true)
    else if p.0 < 0 || p.0 >= v.height || p.1 < 0 || p.1 >= v.width then Ok(false)
    else if time >= |v.maps| || p.0 >= |v.maps[time]| || p.1 >= |v.maps[time][p.0]| then Panic
    else Ok(!v.maps[time][p.0][p.1])
  }

  /** Every computed map is a `height` × `width` grid, as `compute_map` builds it. */
  predicate Gridded(v: Valley)
  {
    forall t :: 0 <= t < |v.maps| ==>
      |v.maps[t]| == v.height && forall row :: 0 <= row < v.height ==> |v.maps[t][row]| == v.width
  }

  /** On gridded maps, `can_move` panics only for a minute past the computed ones. */
  lemma PanicPastMaps(v: Valley, p: Position, time: nat)
    requires Gridded(v) && CanMove(v, p, time).Panic?
    ensures |v.maps| <= time
  {
  }

  /**
   * On the valley the input describes, a grid cell can be entered at
   * minute `time` exactly when no blizzard is there then, and asking beyond
   * the 800 computed minutes panics.
   */
  lemma CanMoveBlizzards(lines: seq<string>, p: Position, time: nat)
    requires Dims(lines)
    ensures var v := ValleyOf(lines);
      InGrid(v, p) ==>
        (CanMove(v, p, time).Panic? <==> time >= Horizon) &&
        (time < Horizon ==> (CanMove(v, p, time) == Ok(true) <==> !Occupied(Sighted(lines), time, v.width, v.height, p)))
  {
    var v := ValleyOf(lines);
    if InGrid(v, p) && time < Horizon {
      assert v.maps[time] == MapOf(Sighted(lines), time, v.width, v.height);
    }
  }

  // ---------------------------------------------------------------- the heap

  /** A search state: where the expedition is, and at which minute. */
  datatype State = State(pos: Position, time: nat)

  /**
   * `Ord for State`: the minute comparison is reversed, so the max-heap
   * pops the earliest state first; ties go to the larger position.
   */
  function CompareState(a: State, b: State): (r: Ordering)
    ensures a.time < b.time ==> r == Greater
    ensures a.time > b.time ==> r == Less
    ensures r == Equal <==> a == b
  {
    Then(CompareInt(b.time, a.time), ComparePair(a.pos, b.pos))
  }

  lemma CompareTransitive(a: State, b: State, c: State)
    requires CompareState(a, b) == Greater && CompareState(b, c) == Greater
    ensures CompareState(a, c) == Greater
  {
  }

  /** `BinaryHeap::pop`: the index of the greatest state, which has the earliest minute. */
  function Top(heap: seq<State>): (i: nat)
    requires |heap| > 0
    ensures i < |heap|
    ensures forall j :: 0 <= j < |heap| ==> CompareState(heap[j], heap[i]) != Greater
    ensures forall j :: 0 <= j < |heap| ==> heap[i].time <= heap[j].time
  {
    if |heap| == 1 then 0
    else
      var k := Top(heap[..|heap| - 1]);
      assert forall j :: 0 <= j < |heap| - 1 ==> heap[..|heap| - 1][j] == heap[j];
      if CompareState(heap[|heap| - 1], heap[k]) == Greater then
        forall j | 0 <= j < |heap| - 1 && CompareState(heap[j], heap[|heap| - 1]) == Greater
          ensures false
        {
          CompareTransitive(heap[j], heap[|heap| - 1], heap[k]);
        }
        |heap| - 1
      else k
  }

  // -------------------------------------------------------------- the search

  /** The five cells `try_move` looks at: down, up, right, left, and staying put. */
  function Candidates(p: Position): seq<Position>
  {
    [(p.0 + 1, p.1), (p.0 - 1, p.1), (p.0, p.1 + 1), (p.0, p.1 - 1), p]
  }

  /** One minute of the search: to a candidate cell that can be entered at the next minute. */
  predicate Step(v: Valley, s: State, t: State)
  {
    t.time == s.time + 1 && t.pos in Candidates(s.pos) && CanMove(v, t.pos, t.time) == Ok(true)
  }

  /** `try_move` over the cells `qs` at minute `time`: the states pushed, or a panic. */
  function TryMoves(v: Valley, qs: seq<Position>, time: nat): (r: Result<seq<State>>)
    ensures r.Panic? <==> exists q :: q in qs && CanMove(v, q, time).Panic?
    ensures r.Ok? ==> forall t :: t in r.value <==> t.pos in qs && t.time == time && CanMove(v, t.pos, time) == Ok(true)
  {
    if qs == [] then Ok([])
    else
      match CanMove(v, qs[0], time)
      case Panic => Panic
      case Ok(free) =>
        match TryMoves(v, qs[1..], time)
        case Panic => Panic
        case Ok(rest) => Ok(if free then [State(qs[0], time)] + rest else rest)
  }

  /** The states pushed after popping `s`: exactly its steps, unless a map read panics. */
  function Successors(v: Valley, s: State): (r: Result<seq<State>>)
    ensures r.Panic? <==> exists q :: q in Candidates(s.pos) && CanMove(v, q, s.time + 1).Panic?
    ensures r.Ok? ==> forall t :: t in r.value <==> Step(v, s, t)
  {
    TryMoves(v, Candidates(s.pos), s.time + 1)
  }

  /** A walk of |w| - 1 minutes from `origin`. */
  predicate Walk(v: Valley, origin: State, w: seq<State>)
  {
    |w| > 0 && w[0] == origin && forall i :: 0 <= i < |w| - 1 ==> Step(v, w[i], w[i + 1])
  }

  function Last(w: seq<State>): State
    requires |w| > 0
  {
    w[|w| - 1]
  }

  ghost predicate Reachable(v: Valley, origin: State, s: State)
  {
    exists w :: Walk(v, origin, w) && Last(w) == s
  }

  /** Every step takes one minute. */
  lemma {:induction false} WalkTimes(v: Valley, origin: State, w: seq<State>)
    requires Walk(v, origin, w)
    ensures Last(w).time == origin.time + |w| - 1
    decreases |w|
  {
    if |w| > 1 {
      var prefix := w[..|w| - 1];
      assert Walk(v, origin, prefix) by {
        forall i | 0 <= i < |prefix| - 1 ensures Step(v, prefix[i], prefix[i + 1]) {
          assert Step(v, w[i], w[i + 1]);
        }
      }
      WalkTimes(v, origin, prefix);
      assert Step(v, w[|w| - 2], w[|w| - 1]);
    }
  }

  /** `t` is the earliest minute at which some walk from `origin` stands on `end`. */
  ghost predicate Earliest(v: Valley, origin: State, end: Position, t: nat)
  {
    Reachable(v, origin, State(end, t)) &&
    forall w :: Walk(v, origin, w) && Last(w).pos == end ==> t <= Last(w).time
  }

  /** There is only one earliest minute. */
  lemma EarliestUnique(v: Valley, origin: State, end: Position, a: nat, b: nat)
    requires Earliest(v, origin, end, a) && Earliest(v, origin, end, b)
    ensures a == b
  {
    var wa :| Walk(v, origin, wa) && Last(wa) == State(end, a);
    var wb :| Walk(v, origin, wb) && Last(wb) == State(end, b);
  }

  /** No arrival comes before the minute the search starts from. */
  lemma EarliestNotBefore(v: Valley, origin: State, end: Position, t: nat)
    requires Earliest(v, origin, end, t)
    ensures origin.time <= t
  {
    var w :| Walk(v, origin, w) && Last(w) == State(end, t);
    WalkTimes(v, origin, w);
  }

  ghost predicate Unreachable(v: Valley, origin: State, end: Position)
  {
    forall w :: Walk(v, origin, w) ==> Last(w).pos != end
  }

  /** What `find_path` returns: the earliest arrival, or 0 when `end` cannot be reached. */
  ghost predicate Arrival(v: Valley, origin: State, end: Position, r: nat)
  {
    Earliest(v, origin, end, r) || (r == 0 && Unreachable(v, origin, end))
  }

  /** Some reachable state has a candidate whose map was never computed. */
  ghost predicate Overrun(v: Valley, origin: State)
  {
    exists s, q :: Reachable(v, origin, s) && q in Candidates(s.pos) && CanMove(v, q, s.time + 1).Panic?
  }

  /** The minutes a state of the search can reach before the maps run out. */
  function Bound(v: Valley, origin: State): nat
  {
    |v.maps| + origin.time + 1
  }

  /** The states the search can push: the origin, or a region cell within the bound. */
  predicate Inside(v: Valley, origin: State, s: State)
  {
    (Region(v, s.pos) || s == origin) && s.time <= Bound(v, origin)
  }

  ghost function Cells(v: Valley, start: Position): set<Position>
  {
    (set row, col | 0 <= row < v.height && 0 <= col < v.width :: (row, col)) + {Source(), Target(v), start}
  }

  /** A finite set holding every state the search can push. */
  ghost function Universe(v: Valley, origin: State): set<State>
  {
    set p, t: nat | p in Cells(v, origin.pos) && t <= Bound(v, origin) :: State(p, t)
  }

  lemma InsideUniverse(v: Valley, origin: State, s: State)
    requires Inside(v, origin, s)
    ensures s in Universe(v, origin)
  {
    assert s.pos in Cells(v, origin.pos);
  }

  /** Expanding a state of the universe for the first time leaves fewer to expand. */
  lemma Shrinks(universe: set<State>, processed: set<State>, s: State)
    requires s in universe && s !in processed
    ensures |universe - (processed + {s})| < |universe - processed|
  {
    var after := universe - (processed + {s});
    assert universe - processed == after + {s} && s !in after;
  }

  /** The frontier: the origin was expanded or waits, and every step out of an expanded state waits or was expanded. */
  ghost predicate Frontier(v: Valley, origin: State, heap: seq<State>, processed: set<State>)
  {
    (origin in processed || origin in heap) &&
    forall s, t :: s in processed && Step(v, s, t) ==> t in processed || t in heap
  }

  /** The loop invariant of `find_path`. */
  ghost predicate Searching(v: Valley, origin: State, end: Position, heap: seq<State>, processed: set<State>)
  {
    (forall k :: 0 <= k < |heap| ==> Reachable(v, origin, heap[k]) && Inside(v, origin, heap[k])) &&
    (forall s :: s in processed ==> s.pos != end) &&
    Frontier(v, origin, heap, processed)
  }

  /** The expansions so far: distinct, in order of their minutes, none later than `floor` and no waiting state earlier. */
  ghost predicate InOrder(heap: seq<State>, processed: set<State>, expanded: seq<State>, floor: nat)
  {
    (forall k :: 0 <= k < |heap| ==> floor <= heap[k].time) &&
    (forall i, j :: 0 <= i < j < |expanded| ==> expanded[i] != expanded[j] && expanded[i].time <= expanded[j].time) &&
    (forall i :: 0 <= i < |expanded| ==> expanded[i].time <= floor) &&
    (forall s :: s in processed <==> s in expanded)
  }

  /** A walk to a state that was not expanded passes the frontier: some waiting state is no later. */
  lemma {:induction false} CrossFrontier(v: Valley, origin: State, heap: seq<State>, processed: set<State>, w: seq<State>)
    returns (k: nat)
    requires Frontier(v, origin, heap, processed)
    requires Walk(v, origin, w) && Last(w) !in processed
    ensures k < |heap| && heap[k].time <= Last(w).time
    decreases |w|
  {
    if |w| == 1 {
      k :| 0 <= k < |heap| && heap[k] == origin;
    } else {
      var prefix := w[..|w| - 1];
      assert Walk(v, origin, prefix) by {
        forall i | 0 <= i < |prefix| - 1 ensures Step(v, prefix[i], prefix[i + 1]) {
          assert Step(v, w[i], w[i + 1]);
        }
      }
      var p := Last(prefix);
      assert Step(v, w[|w| - 2], w[|w| - 1]);
      if p in processed {
        k :| 0 <= k < |heap| && heap[k] == Last(w);
      } else {
        k := CrossFrontier(v, origin, heap, processed, prefix);
      }
    }
  }

  /** A walk to `s` extended by one step. */
  lemma Extend(v: Valley, origin: State, s: State, t: State)
    requires Reachable(v, origin, s) && Step(v, s, t)
    ensures Reachable(v, origin, t)
  {
    var w :| Walk(v, origin, w) && Last(w) == s;
    var w' := w + [t];
    assert Walk(v, origin, w') by {
      forall i | 0 <= i < |w'| - 1 ensures Step(v, w'[i], w'[i + 1]) {
        if i < |w| - 1 {
          assert Step(v, w[i], w[i + 1]);
        }
      }
    }
    assert Last(w') == t;
  }

  /** Every region cell has a grid cell among its candidates. */
  lemma GridCandidate(v: Valley, p: Position) returns (q: Position)
    requires v.width >= 1 && v.height >= 1 && Region(v, p)
    ensures q in Candidates(p) && InGrid(v, q)
  {
    if p == Source() {
      q := Candidates(p)[0];
    } else if p == Target(v) {
      q := Candidates(p)[1];
    } else {
      q := Candidates(p)[4];
    }
  }

  /** The successors of a state the search can push are states it can push. */
  lemma SuccessorsInside(v: Valley, origin: State, s: State, next: seq<State>)
    requires v.width >= 1 && v.height >= 1
    requires Inside(v, origin, s) && Successors(v, s) == Ok(next)
    ensures forall t :: t in next ==> Inside(v, origin, t)
  {
    if Region(v, s.pos) {
      var q := GridCandidate(v, s.pos);
      assert CanMove(v, q, s.time + 1).Ok?;
    }
    forall t | t in next ensures Inside(v, origin, t) {
      assert Step(v, s, t);
    }
  }

  /** Popping a state that was already expanded keeps the invariant. */
  lemma PopSkip(v: Valley, origin: State, end: Position, heap: seq<State>, processed: set<State>, i: nat)
    requires Searching(v, origin, end, heap, processed)
    requires i < |heap| && heap[i] in processed
    ensures Searching(v, origin, end, heap[..i] + heap[i + 1..], processed)
  {
    var rest := heap[..i] + heap[i + 1..];
    RemoveKeeps(heap, i);
    assert forall k :: 0 <= k < |rest| ==> rest[k] == heap[if k < i then k else k + 1];
  }

  /** Expanding the earliest state, which is not at the end, keeps the invariant. */
  lemma PopExpand(v: Valley, origin: State, end: Position, heap: seq<State>, processed: set<State>, i: nat, next: seq<State>)
    requires v.width >= 1 && v.height >= 1
    requires Searching(v, origin, end, heap, processed)
    requires i < |heap| && heap[i] !in processed && heap[i].pos != end
    requires Successors(v, heap[i]) == Ok(next)
    ensures Searching(v, origin, end, heap[..i] + heap[i + 1..] + next, processed + {heap[i]})
  {
    var s := heap[i];
    var rest := heap[..i] + heap[i + 1..];
    var after := rest + next;
    RemoveKeeps(heap, i);
    assert forall k :: 0 <= k < |rest| ==> rest[k] == heap[if k < i then k else k + 1];
    SuccessorsInside(v, origin, s, next);
    forall k | 0 <= k < |after| ensures Reachable(v, origin, after[k]) && Inside(v, origin, after[k]) {
      if k >= |rest| {
        assert after[k] in next;
        Extend(v, origin, s, after[k]);
      }
    }
    PushFrontier(v, origin, heap, processed, i, next);
  }

  /** Pushing the steps of the expanded state keeps the frontier. */
  lemma PushFrontier(v: Valley, origin: State, heap: seq<State>, processed: set<State>, i: nat, next: seq<State>)
    requires Frontier(v, origin, heap, processed)
    requires i < |heap| && forall t :: Step(v, heap[i], t) ==> t in next
    ensures Frontier(v, origin, heap[..i] + heap[i + 1..] + next, processed + {heap[i]})
  {
    var rest := heap[..i] + heap[i + 1..];
    var after := rest + next;
    RemoveKeeps(heap, i);
    assert forall x :: x in rest ==> x in after;
    assert forall x :: x in next ==> x in after;
  }

  /** The earliest waiting state is at the end: its minute is the earliest arrival. */
  lemma EndFound(v: Valley, origin: State, end: Position, heap: seq<State>, processed: set<State>, i: nat)
    requires Searching(v, origin, end, heap, processed)
    requires i < |heap| && heap[i].pos == end
    requires forall j :: 0 <= j < |heap| ==> heap[i].time <= heap[j].time
    ensures Earliest(v, origin, end, heap[i].time) && origin.time <= heap[i].time
  {
    assert Reachable(v, origin, heap[i]);
    var w :| Walk(v, origin, w) && Last(w) == heap[i];
    WalkTimes(v, origin, w);
    forall w | Walk(v, origin, w) && Last(w).pos == end ensures heap[i].time <= Last(w).time {
      var k := CrossFrontier(v, origin, heap, processed, w);
    }
  }

  /** The heap ran empty: no walk reaches the end. */
  lemma Exhausted(v: Valley, origin: State, end: Position, processed: set<State>)
    requires Searching(v, origin, end, [], processed)
    ensures Unreachable(v, origin, end)
  {
    forall w | Walk(v, origin, w) ensures Last(w).pos != end {
      if Last(w) !in processed {
        var k := CrossFrontier(v, origin, [], processed, w);
      }
    }
  }

  /**
   * A panic while expanding the earliest waiting state comes no earlier
   * than the last computed minute before any arrival at `end`.
   */
  lemma PanicLate(v: Valley, origin: State, end: Position, heap: seq<State>, processed: set<State>, i: nat)
    requires Gridded(v) && Searching(v, origin, end, heap, processed)
    requires i < |heap| && forall j :: 0 <= j < |heap| ==> heap[i].time <= heap[j].time
    requires Successors(v, heap[i]).Panic?
    ensures forall t: nat :: Earliest(v, origin, end, t) ==> |v.maps| <= t + 1
  {
    var q :| q in Candidates(heap[i].pos) && CanMove(v, q, heap[i].time + 1).Panic?;
    PanicPastMaps(v, q, heap[i].time + 1);
    forall t: nat | Earliest(v, origin, end, t) ensures |v.maps| <= t + 1 {
      var w :| Walk(v, origin, w) && Last(w) == State(end, t);
      var k := CrossFrontier(v, origin, heap, processed, w);
    }
  }

  /** Expanding the earliest state keeps the expansions in order. */
  lemma OrderKept(heap: seq<State>, processed: set<State>, expanded: seq<State>, floor: nat, i: nat, next: seq<State>)
    requires InOrder(heap, processed, expanded, floor)
    requires i < |heap| && heap[i] !in processed
    requires forall j :: 0 <= j < |heap| ==> heap[i].time <= heap[j].time
    requires forall t :: t in next ==> t.time == heap[i].time + 1
    ensures InOrder(heap[..i] + heap[i + 1..] + next, processed + {heap[i]}, expanded + [heap[i]], heap[i].time)
  {
    var rest := heap[..i] + heap[i + 1..];
    var after := rest + next;
    assert forall k :: 0 <= k < |rest| ==> rest[k] == heap[if k < i then k else k + 1];
    forall k | 0 <= k < |after| ensures heap[i].time <= after[k].time {
      if k >= |rest| {
        assert after[k] in next;
      }
    }
  }

  /** One expansion keeps both invariants and leaves fewer states of the universe to expand. */
  lemma ExpandKeeps(v: Valley, origin: State, end: Position, heap: seq<State>, processed: set<State>,
                    expanded: seq<State>, floor: nat, i: nat, next: seq<State>)
    requires v.width >= 1 && v.height >= 1
    requires Searching(v, origin, end, heap, processed) && InOrder(heap, processed, expanded, floor)
    requires i < |heap| && heap[i] !in processed && heap[i].pos != end
    requires forall j :: 0 <= j < |heap| ==> heap[i].time <= heap[j].time
    requires Successors(v, heap[i]) == Ok(next)
    ensures var after := heap[..i] + heap[i + 1..] + next;
      Searching(v, origin, end, after, processed + {heap[i]}) &&
      InOrder(after, processed + {heap[i]}, expanded + [heap[i]], heap[i].time) &&
      |Universe(v, origin) - (processed + {heap[i]})| < |Universe(v, origin) - processed|
  {
    PopExpand(v, origin, end, heap, processed, i, next);
    assert forall t :: t in next ==> Step(v, heap[i], t);
    OrderKept(heap, processed, expanded, floor, i, next);
    InsideUniverse(v, origin, heap[i]);
    Shrinks(Universe(v, origin), processed, heap[i]);
  }

  /** The expansions listed in `expanded` are distinct and in order of their minutes. */
  predicate Sorted(expanded: seq<State>)
  {
    forall i, j :: 0 <= i < j < |expanded| ==> expanded[i] != expanded[j] && expanded[i].time <= expanded[j].time
  }

  /**
   * One turn of `find_path`'s loop: pops the earliest state; skips it when
   * it was expanded before, finishes with its minute when it is at `end`,
   * and otherwise pushes each candidate cell that can be entered one minute
   * later, or panics reading a map that was not computed.
   */
  method Pop(v: Valley, ghost origin: State, end: Position, heap: seq<State>, processed: set<State>,
             ghost expanded: seq<State>, ghost floor: nat)
    returns (outcome: Option<Result<nat>>, heap': seq<State>, processed': set<State>,
             ghost expanded': seq<State>, ghost floor': nat)
    requires v.width >= 1 && v.height >= 1 && heap != []
    requires Searching(v, origin, end, heap, processed) && InOrder(heap, processed, expanded, floor)
    ensures outcome.None? ==>
      Searching(v, origin, end, heap', processed') && InOrder(heap', processed', expanded', floor') &&
      (|Universe(v, origin) - processed'| < |Universe(v, origin) - processed| || (processed' == processed && |heap'| < |heap|))
    ensures outcome.Some? && outcome.value.Ok? ==> Earliest(v, origin, end, outcome.value.value) && origin.time <= outcome.value.value
    ensures outcome == Some(Panic) ==> Overrun(v, origin)
    ensures outcome == Some(Panic) && Gridded(v) ==> forall t: nat :: Earliest(v, origin, end, t) ==> |v.maps| <= t + 1
    ensures outcome.Some? ==> Sorted(expanded')
  {
    var i := Top(heap);
    var state := heap[i];
    if state in processed {
      PopSkip(v, origin, end, heap, processed, i);
      return None, heap[..i] + heap[i + 1..], processed, expanded, floor;
    }
    OrderKept(heap, processed, expanded, floor, i, []);
    if state.pos == end {
      EndFound(v, origin, end, heap, processed, i);
      return Some(Ok(state.time)), heap, processed + {state}, expanded + [state], state.time;
    }
    var next := Successors(v, state);
    if next.Panic? {
      assert Reachable(v, origin, state);
      if Gridded(v) {
        PanicLate(v, origin, end, heap, processed, i);
      }
      return Some(Panic), heap, processed + {state}, expanded + [state], state.time;
    }
    ExpandKeeps(v, origin, end, heap, processed, expanded, floor, i, next.value);
    return None, heap[..i] + heap[i + 1..] + next.value, processed + {state}, expanded + [state], state.time;
  }

  /**
   * `find_path`: turns of the loop until one finishes; 0 when the heap runs
   * empty. The grid must have a row and a column. Without one, an arrow
   * makes `compute_map` panic on a remainder by zero; without arrows the
   * search still runs, and can end (`#.#` over `#.#` gives 1 and 3) or wait
   * at the entry gap while the minute grows without bound.
   */
  method FindPath(v: Valley, start: Position, end: Position, startTime: nat) returns (r: Result<nat>, ghost expanded: seq<State>)
    requires v.width >= 1 && v.height >= 1
    ensures r.Ok? ==> Arrival(v, State(start, startTime), end, r.value)
    ensures r.Ok? ==> r.value == 0 || startTime <= r.value
    ensures r.Panic? ==> Overrun(v, State(start, startTime))
    ensures Gridded(v) ==>
      forall t: nat :: Earliest(v, State(start, startTime), end, t) && t + 1 < |v.maps| ==> r == Ok(t)
    ensures Sorted(expanded)
  {
    ghost var origin := State(start, startTime);
    ghost var universe := Universe(v, origin);
    ghost var floor: nat := startTime;
    var heap := [State(start, startTime)];
    var processed: set<State> := {};
    expanded := [];
    assert Walk(v, origin, [origin]);
    while heap != []
      invariant Searching(v, origin, end, heap, processed)
      invariant InOrder(heap, processed, expanded, floor)
      decreases |universe - processed|, |heap|
    {
      var outcome;
      outcome, heap, processed, expanded, floor := Pop(v, origin, end, heap, processed, expanded, floor);
      if outcome.Some? {
        forall t | Earliest(v, origin, end, t) && outcome.value.Ok? ensures outcome.value.value == t {
          EarliestUnique(v, origin, end, outcome.value.value, t);
        }
        return outcome.value, expanded;
      }
    }
    Exhausted(v, origin, end, processed);
    assert forall t: nat :: !Earliest(v, origin, end, t);
    return Ok(0), expanded;
  }

  // ---------------------------------------------------------------- the parts

  /**
   * The valley has at least one row and one column inside the walls, or
   * `preprocess` panics before the search.
   */
  predicate Roomy(lines: seq<string>)
  {
    Dims(lines) ==> |lines| > 2 && |lines[0]| > 2
  }

  /** `part1`: the earliest minute at which the exit gap can be reached from the entry gap. */
  method Part1(lines: seq<string>) returns (r: Result<nat>)
    requires Roomy(lines)
    ensures !(Dims(lines) && Placed(lines)) ==> r.Panic?
    ensures r.Ok? ==> (Dims(lines) &&
      var v := ValleyOf(lines);
      Arrival(v, State(Source(), 0), Target(v), r.value))
    ensures r.Panic? && Dims(lines) && Placed(lines) ==> Overrun(ValleyOf(lines), State(Source(), 0))
    ensures Dims(lines) && Placed(lines) ==>
      var v := ValleyOf(lines);
      forall t: nat :: Earliest(v, State(Source(), 0), Target(v), t) && t + 1 < Horizon ==> r == Ok(t)
  {
    var valley := Preprocess(lines);
    if valley.Panic? {
      return Panic;
    }
    var v := valley.value;
    ghost var expanded;
    r, expanded := FindPath(v, Source(), Target(v), 0);
  }

  /**
   * `part2`: three searches in a row, each starting at the minute the
   * previous one returned: to the exit, back to the entry, and to the
   * exit again.
   */
  method Part2(lines: seq<string>) returns (r: Result<nat>)
    requires Roomy(lines)
    ensures !(Dims(lines) && Placed(lines)) ==> r.Panic?
    ensures r.Ok? ==> (Dims(lines) &&
      var v := ValleyOf(lines);
      exists there, back :: Arrival(v, State(Source(), 0), Target(v), there) &&
        Arrival(v, State(Target(v), there), Source(), back) &&
        Arrival(v, State(Source(), back), Target(v), r.value))
    ensures Dims(lines) && Placed(lines) ==>
      var v := ValleyOf(lines);
      forall there: nat, back: nat, t: nat ::
        (Earliest(v, State(Source(), 0), Target(v), there) &&
         Earliest(v, State(Target(v), there), Source(), back) &&
         Earliest(v, State(Source(), back), Target(v), t) && t + 1 < Horizon) ==> r == Ok(t)
  {
    var valley := Preprocess(lines);
    if valley.Panic? {
      return Panic;
    }
    var v := valley.value;
    ghost var expanded;
    forall origin, end, t: nat | Earliest(v, origin, end, t) ensures origin.time <= t {
      EarliestNotBefore(v, origin, end, t);
    }
    var there, back;
    there, expanded := FindPath(v, Source(), Target(v), 0);
    if there.Panic? {
      return Panic;
    }
    back, expanded := FindPath(v, Target(v), Source(), there.value);
    if back.Panic? {
      return Panic;
    }
    r, expanded := FindPath(v, Source(), Target(v), back.value);
  }
}
