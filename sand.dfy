// Day 14 of 2022: sand poured from (500, 0) into a cave scanned as rock
// paths. The cave is a grid of columns that grows sideways whenever a
// grain spills past its edge; with a floor, the row two below the lowest
// rock is rock everywhere, including the columns added later.

module FallingSand {
  import opened Common

  datatype Tile = Air | Rock | Sand

  datatype Position = Position(x: int, y: int)

  const Source: Position := Position(500, 0)

  const UsizeMax: int := 0xFFFF_FFFF_FFFF_FFFF

  // ------------------------------------------------------------- the scan

  /** The cells of a straight path from `a` to `b`, both ends included: a column when `x` agrees, otherwise a row at `a.y`. */
  function Segment(a: Position, b: Position): set<Position>
  {
    if a.x == b.x then set y | Min(a.y, b.y) <= y <= Max(a.y, b.y) :: Position(a.x, y)
    else set x | Min(a.x, b.x) <= x <= Max(a.x, b.x) :: Position(x, a.y)
  }

  lemma SegmentEnds(a: Position, b: Position)
    requires a.x == b.x || a.y == b.y
    ensures a in Segment(a, b) && b in Segment(a, b)
  {
    if a.x == b.x {
      assert Position(a.x, a.y) == a && Position(a.x, b.y) == b;
    } else {
      assert Position(a.x, a.y) == a && Position(b.x, a.y) == b;
    }
  }

  /** The rock of one path: every segment between consecutive corners. */
  function PathCells(rock: seq<Position>): set<Position>
  {
    if |rock| < 2 then {} else PathCells(rock[..|rock| - 1]) + Segment(rock[|rock| - 2], rock[|rock| - 1])
  }

  function RockCells(rocks: seq<seq<Position>>): set<Position>
  {
    if rocks == [] then {} else RockCells(rocks[..|rocks| - 1]) + PathCells(rocks[|rocks| - 1])
  }

  /** All corners of all paths, in input order. */
  function Corners(rocks: seq<seq<Position>>): seq<Position>
  {
    if rocks == [] then [] else Corners(rocks[..|rocks| - 1]) + rocks[|rocks| - 1]
  }

  /** Every coordinate is a `usize`. */
  predicate InRange(rocks: seq<seq<Position>>)
  {
    forall k, l :: 0 <= k < |rocks| && 0 <= l < |rocks[k]| ==>
      0 <= rocks[k][l].x <= UsizeMax && 0 <= rocks[k][l].y <= UsizeMax
  }

  lemma {:induction false} CornersOf(rocks: seq<seq<Position>>)
    ensures forall c :: c in Corners(rocks) <==> exists k, l :: 0 <= k < |rocks| && 0 <= l < |rocks[k]| && rocks[k][l] == c
  {
    if rocks != [] {
      var init := rocks[..|rocks| - 1];
      CornersOf(init);
      forall c | c in Corners(rocks)
        ensures exists k, l :: 0 <= k < |rocks| && 0 <= l < |rocks[k]| && rocks[k][l] == c
      {
        if c in Corners(init) {
          var k, l :| 0 <= k < |init| && 0 <= l < |init[k]| && init[k][l] == c;
          assert rocks[k][l] == c;
        } else {
          var l :| 0 <= l < |rocks[|rocks| - 1]| && rocks[|rocks| - 1][l] == c;
        }
      }
      forall c | exists k, l :: 0 <= k < |rocks| && 0 <= l < |rocks[k]| && rocks[k][l] == c
        ensures c in Corners(rocks)
      {
        var k, l :| 0 <= k < |rocks| && 0 <= l < |rocks[k]| && rocks[k][l] == c;
        if k < |init| {
          assert init[k][l] == c;
        } else {
          assert rocks[|rocks| - 1][l] == c;
        }
      }
    }
  }

  /** The running minimum of the corners' `x`, starting from `usize::MAX`. */
  function LowestX(cs: seq<Position>): int
  {
    if cs == [] then UsizeMax else Min(LowestX(cs[..|cs| - 1]), cs[|cs| - 1].x)
  }

  /** The running maximum of the corners' `x`, starting from 0. */
  function HighestX(cs: seq<Position>): int
  {
    if cs == [] then 0 else Max(HighestX(cs[..|cs| - 1]), cs[|cs| - 1].x)
  }

  /** The running maximum of the corners' `y`, starting from 0. */
  function HighestY(cs: seq<Position>): (r: int)
    ensures r >= 0
  {
    if cs == [] then 0 else Max(HighestY(cs[..|cs| - 1]), cs[|cs| - 1].y)
  }

  /** On `usize` corners the running values are the bounding box: reached by some corner and bounding all of them. */
  lemma {:induction false} BoundingBox(cs: seq<Position>)
    requires forall i :: 0 <= i < |cs| ==> 0 <= cs[i].x <= UsizeMax && 0 <= cs[i].y
    ensures forall i :: 0 <= i < |cs| ==> LowestX(cs) <= cs[i].x <= HighestX(cs) && cs[i].y <= HighestY(cs)
    ensures cs != [] ==> exists i :: 0 <= i < |cs| && cs[i].x == LowestX(cs)
    ensures cs != [] ==> exists i :: 0 <= i < |cs| && cs[i].x == HighestX(cs)
    ensures cs != [] ==> exists i :: 0 <= i < |cs| && cs[i].y == HighestY(cs)
  {
    if cs != [] {
      var init := cs[..|cs| - 1];
      BoundingBox(init);
      var last := |cs| - 1;
      if init == [] {
        assert cs[0].x == LowestX(cs) && cs[0].x == HighestX(cs) && cs[0].y == HighestY(cs);
      } else {
        if LowestX(cs) != cs[last].x {
          var i :| 0 <= i < |init| && init[i].x == LowestX(init);
          assert cs[i].x == LowestX(cs);
        }
        if HighestX(cs) != cs[last].x {
          var i :| 0 <= i < |init| && init[i].x == HighestX(init);
          assert cs[i].x == HighestX(cs);
        }
        if HighestY(cs) != cs[last].y {
          var i :| 0 <= i < |init| && init[i].y == HighestY(init);
          assert cs[i].y == HighestY(cs);
        }
      }
      assert forall i :: 0 <= i < |init| ==> cs[i] == init[i];
    }
  }

  // ------------------------------------------------------ falling, as values

  /**
   * What the cave holds, independently of how much of it the grid covers:
   * rock and sand cells off the floor, the lowest row `yMax` and whether
   * that row is an endless floor of rock.
   */
  datatype Scan = Scan(rock: set<Position>, sand: set<Position>, yMax: int, floor: bool)

  function TileOf(v: Scan, p: Position): Tile
  {
    if p in v.sand then Sand
    else if p in v.rock || (v.floor && p.y == v.yMax) then Rock
    else Air
  }

  predicate Free(v: Scan, p: Position) { TileOf(v, p) == Air }

  /** Where a grain starting in `p` comes to rest, or `None` once it falls below `yMax` into the abyss. */
  function Fall(v: Scan, p: Position): Option<Position>
    requires v.floor ==> p.y < v.yMax
    decreases v.yMax - p.y
  {
    var below := Position(p.x, p.y + 1);
    var belowLeft := Position(p.x - 1, p.y + 1);
    var belowRight := Position(p.x + 1, p.y + 1);
    if !v.floor && below.y > v.yMax then None
    else if Free(v, below) then Fall(v, below)
    else if Free(v, belowLeft) then Fall(v, belowLeft)
    else if Free(v, belowRight) then Fall(v, belowRight)
    else Some(p)
  }

  /** The cells a grain from `src` can reach: one column sideways per row down, at most down to `yMax`. */
  function Cone(src: Position, yMax: int): set<Position>
  {
    set x, y | src.y <= y <= yMax && src.x - (yMax - src.y) <= x <= src.x + (yMax - src.y) :: Position(x, y)
  }

  /**
   * A grain comes to rest in its start cell or in a free cell, with the
   * cells below, below-left and below-right all taken, inside the cone
   * below its start and above `yMax`.
   */
  lemma {:induction false} FallLands(v: Scan, p: Position)
    requires v.floor ==> p.y < v.yMax
    ensures Fall(v, p).Some? ==> var q := Fall(v, p).value;
      (q == p || Free(v, q))
      && !Free(v, Position(q.x, q.y + 1)) && !Free(v, Position(q.x - 1, q.y + 1)) && !Free(v, Position(q.x + 1, q.y + 1))
      && p.y <= q.y < v.yMax && Abs(q.x - p.x) <= q.y - p.y
    decreases v.yMax - p.y
  {
    var below := Position(p.x, p.y + 1);
    var belowLeft := Position(p.x - 1, p.y + 1);
    var belowRight := Position(p.x + 1, p.y + 1);
    if !v.floor && below.y > v.yMax {
    } else if Free(v, below) {
      FallLands(v, below);
    } else if Free(v, belowLeft) {
      FallLands(v, belowLeft);
    } else if Free(v, belowRight) {
      FallLands(v, belowRight);
    } else {
      assert Fall(v, p) == Some(p);
    }
  }

  /** With a floor no grain is lost: every grain comes to rest. */
  lemma {:induction false} FloorCatches(v: Scan, p: Position)
    requires v.floor && p.y < v.yMax
    ensures Fall(v, p).Some?
    decreases v.yMax - p.y
  {
    var below := Position(p.x, p.y + 1);
    var belowLeft := Position(p.x - 1, p.y + 1);
    var belowRight := Position(p.x + 1, p.y + 1);
    if Free(v, below) {
      FloorCatches(v, below);
    } else if Free(v, belowLeft) {
      FloorCatches(v, belowLeft);
    } else if Free(v, belowRight) {
      FloorCatches(v, belowRight);
    }
  }

  /**
   * `drop_sand` on the cave as a value: the fall, except that a grain in
   * column 0 panics, because `position.x - 1` is a `usize` subtraction made
   * before anything else is looked at.
   */
  function Drop(v: Scan, p: Position): (r: Result<Option<Position>>)
    requires v.floor ==> p.y < v.yMax
    ensures r.Ok? ==> r.value == Fall(v, p)
    ensures p.x > 0 && p.x > v.yMax - p.y ==> r.Ok?
    decreases v.yMax - p.y
  {
    var below := Position(p.x, p.y + 1);
    var belowLeft := Position(p.x - 1, p.y + 1);
    var belowRight := Position(p.x + 1, p.y + 1);
    if p.x == 0 then Panic
    else if !v.floor && below.y > v.yMax then Ok(None)
    else if Free(v, below) then Drop(v, below)
    else if Free(v, belowLeft) then Drop(v, belowLeft)
    else if Free(v, belowRight) then Drop(v, belowRight)
    else Ok(Some(p))
  }

  /** A grain far enough from column 0 never reaches it: the code's drop is the fall. */
  lemma ShallowDrop(v: Scan, p: Position)
    requires v.floor ==> p.y < v.yMax
    requires p.x > 0 && p.x > v.yMax - p.y
    ensures Drop(v, p) == Ok(Fall(v, p))
  {
  }

  /** A grain that rests turns its cell to sand. */
  function Settle(v: Scan, r: Option<Position>): Scan
  {
    match r
    case None => v
    case Some(q) => v.(rock := v.rock - {q}, sand := v.sand + {q})
  }

  lemma CellInCone(v: Scan, src: Position, q: Position)
    requires v.floor ==> src.y < v.yMax
    requires Fall(v, src) == Some(q)
    ensures q in Cone(src, v.yMax)
  {
    FallLands(v, src);
    assert src.x - (v.yMax - src.y) <= q.x <= src.x + (v.yMax - src.y);
  }

  lemma ConeShrinks(sand: set<Position>, src: Position, yMax: int, q: Position)
    requires q in Cone(src, yMax) && q !in sand
    ensures |Cone(src, yMax) - (sand + {q})| < |Cone(src, yMax) - sand|
  {
    assert Cone(src, yMax) - sand == (Cone(src, yMax) - (sand + {q})) + {q};
  }

  /**
   * Grains poured from `src` until one falls into the abyss (not counted)
   * or one comes to rest on `src` itself (counted).
   */
  function Pour(v: Scan, src: Position): nat
    requires v.floor ==> src.y < v.yMax
    decreases |Cone(src, v.yMax) - v.sand|
  {
    match Fall(v, src)
    case None => 0
    case Some(q) =>
      if q == src then 1
      else
        FallLands(v, src);
        CellInCone(v, src, q);
        ConeShrinks(v.sand, src, v.yMax, q);
        1 + Pour(Settle(v, Some(q)), src)
  }

  /** A grain that rests below the source counts once and leaves less of the cone to fill. */
  lemma PourStep(v: Scan, src: Position, q: Position)
    requires v.floor ==> src.y < v.yMax
    requires Fall(v, src) == Some(q) && q != src
    ensures Pour(v, src) == 1 + Pour(Settle(v, Some(q)), src)
    ensures |Cone(src, v.yMax) - Settle(v, Some(q)).sand| < |Cone(src, v.yMax) - v.sand|
  {
    FallLands(v, src);
    CellInCone(v, src, q);
    ConeShrinks(v.sand, src, v.yMax, q);
  }

  /** `k` more grains on top of a count, a panic staying a panic. */
  function Shifted(k: nat, r: Result<nat>): Result<nat>
  {
    match r
    case Panic => Panic
    case Ok(n) => Ok(k + n)
  }

  /**
   * `Pour` as the code runs it: the same count, unless some grain reaches
   * column 0 first, which panics.
   */
  function Poured(v: Scan, src: Position): (r: Result<nat>)
    requires v.floor ==> src.y < v.yMax
    ensures src.x > 0 && src.x > v.yMax - src.y ==> r.Ok?
    decreases |Cone(src, v.yMax) - v.sand|
  {
    match Drop(v, src)
    case Panic => Panic
    case Ok(None) => Ok(0)
    case Ok(Some(q)) =>
      if q == src then Ok(1)
      else
        FallLands(v, src);
        CellInCone(v, src, q);
        ConeShrinks(v.sand, src, v.yMax, q);
        Shifted(1, Poured(Settle(v, Some(q)), src))
  }

  /** Unless it panics, the count as the code runs it is `Pour`. */
  lemma {:induction false} PouredIsPour(v: Scan, src: Position)
    requires v.floor ==> src.y < v.yMax
    ensures Poured(v, src).Ok? ==> Poured(v, src).value == Pour(v, src)
    decreases |Cone(src, v.yMax) - v.sand|
  {
    match Drop(v, src)
    case Panic =>
    case Ok(None) =>
    case Ok(Some(q)) =>
      if q != src {
        PourStep(v, src, q);
        PouredIsPour(Settle(v, Some(q)), src);
      }
  }

  /** A grain that rests below the source adds one to the count as the code runs it. */
  lemma PouredStep(v: Scan, src: Position, q: Position, count: nat)
    requires v.floor ==> src.y < v.yMax
    requires Drop(v, src) == Ok(Some(q)) && q != src
    ensures Shifted(count, Poured(v, src)) == Shifted(count + 1, Poured(Settle(v, Some(q)), src))
  {
    var rest := Poured(Settle(v, Some(q)), src);
    assert Poured(v, src) == Shifted(1, rest);
  }

  /** A cave whose lowest row is above 500 never lets a grain from the source reach column 0. */
  lemma ShallowPour(v: Scan)
    requires v.floor ==> Source.y < v.yMax
    requires v.yMax < Source.x
    ensures Poured(v, Source) == Ok(Pour(v, Source))
  {
    PouredIsPour(v, Source);
  }

  /** The cave once the pouring has stopped. */
  function Pile(v: Scan, src: Position): Scan
    requires v.floor ==> src.y < v.yMax
    decreases |Cone(src, v.yMax) - v.sand|
  {
    match Fall(v, src)
    case None => v
    case Some(q) =>
      if q == src then Settle(v, Some(q))
      else
        FallLands(v, src);
        CellInCone(v, src, q);
        ConeShrinks(v.sand, src, v.yMax, q);
        Pile(Settle(v, Some(q)), src)
  }

  /** Every counted grain rests in a cell of its own: the count is the number of new sand cells. */
  lemma {:induction false} PourFills(v: Scan, src: Position)
    requires v.floor ==> src.y < v.yMax
    requires src !in v.sand
    ensures v.sand <= Pile(v, src).sand
    ensures |Pile(v, src).sand| == |v.sand| + Pour(v, src)
    decreases |Cone(src, v.yMax) - v.sand|
  {
    match Fall(v, src)
    case None =>
    case Some(q) =>
      FallLands(v, src);
      if q != src {
        CellInCone(v, src, q);
        ConeShrinks(v.sand, src, v.yMax, q);
        assert q !in v.sand;
        PourFills(Settle(v, Some(q)), src);
      }
  }

  // ------------------------------------------------------------- the grid

  /** `from_rocks` panics when there is no corner at all or a path without corners. */
  predicate Buildable(rocks: seq<seq<Position>>)
  {
    rocks != [] && forall k :: 0 <= k < |rocks| ==> rocks[k] != []
  }

  /** The lowest row: the lowest corner, two rows further with a floor. */
  function Bottom(rocks: seq<seq<Position>>, floor: bool): int
  {
    HighestY(Corners(rocks)) + if floor then 2 else 0
  }

  /** The cave `from_rocks` describes. */
  function Initial(rocks: seq<seq<Position>>, floor: bool): Scan
  {
    Scan(RockCells(rocks), {}, Bottom(rocks, floor), floor)
  }

  /** The running bounds over every corner, in the order the nested loops visit them. */
  method Bounds(rocks: seq<seq<Position>>) returns (xMin: int, xMax: int, yMax: int)
    ensures xMin == LowestX(Corners(rocks)) && xMax == HighestX(Corners(rocks)) && yMax == HighestY(Corners(rocks))
  {
    xMin, xMax, yMax := UsizeMax, 0, 0;
    for i := 0 to |rocks|
      invariant xMin == LowestX(Corners(rocks[..i]))
      invariant xMax == HighestX(Corners(rocks[..i]))
      invariant yMax == HighestY(Corners(rocks[..i]))
    {
      ghost var seen := Corners(rocks[..i]);
      assert seen + rocks[i][..0] == seen;
      for j := 0 to |rocks[i]|
        invariant xMin == LowestX(seen + rocks[i][..j])
        invariant xMax == HighestX(seen + rocks[i][..j])
        invariant yMax == HighestY(seen + rocks[i][..j])
      {
        var corner := rocks[i][j];
        assert (seen + rocks[i][..j + 1])[..|seen| + j] == seen + rocks[i][..j];
        xMin := Min(xMin, corner.x);
        xMax := Max(xMax, corner.x);
        yMax := Max(yMax, corner.y);
      }
      assert rocks[..i + 1][..i] == rocks[..i];
      assert rocks[i][..|rocks[i]|] == rocks[i];
    }
    assert rocks[..|rocks|] == rocks;
  }

  /** The grid of `columns` columns of `height` cells, in which exactly the cells of `cells` are rock. */
  ghost predicate Drawn(grid: seq<seq<Tile>>, xMin: int, cells: set<Position>)
  {
    forall cx, y :: 0 <= cx < |grid| && 0 <= y < |grid[cx]| ==>
      grid[cx][y] == if Position(cx + xMin, y) in cells then Rock else Air
  }

  predicate Shaped(grid: seq<seq<Tile>>, columns: int, height: int)
  {
    |grid| == columns && forall cx :: 0 <= cx < |grid| ==> |grid[cx]| == height
  }

  /** Every corner lies inside the box. */
  predicate Boxed(rocks: seq<seq<Position>>, xMin: int, xMax: int, yMax: int)
  {
    forall k, l :: 0 <= k < |rocks| && 0 <= l < |rocks[k]| ==>
      xMin <= rocks[k][l].x <= xMax && 0 <= rocks[k][l].y <= yMax
  }

  /** Draws every path of rock into an all-air grid spanning the box. */
  method DrawRocks(rocks: seq<seq<Position>>, xMin: int, xMax: int, yMax: int) returns (r: Result<seq<seq<Tile>>>)
    requires Boxed(rocks, xMin, xMax, yMax) && xMin <= xMax && 0 <= yMax
    ensures r.Ok? <==> forall k :: 0 <= k < |rocks| ==> rocks[k] != []
    ensures r.Ok? ==> Shaped(r.value, xMax - xMin + 1, yMax + 1) && Drawn(r.value, xMin, RockCells(rocks))
  {
    var grid := seq(xMax - xMin + 1, _ => seq(yMax + 1, _ => Air));
    for k := 0 to |rocks|
      invariant Shaped(grid, xMax - xMin + 1, yMax + 1)
      invariant Drawn(grid, xMin, RockCells(rocks[..k]))
      invariant forall i :: 0 <= i < k ==> rocks[i] != []
    {
      var rock := rocks[k];
      if |rock| == 0 {
        return Panic;
      }
      assert rocks[..k + 1][..k] == rocks[..k];
      for index := 0 to |rock| - 1
        invariant Shaped(grid, xMax - xMin + 1, yMax + 1)
        invariant Drawn(grid, xMin, RockCells(rocks[..k]) + PathCells(rock[..index + 1]))
      {
        assert rock[..index + 2][..index + 1] == rock[..index + 1];
        grid := DrawSegment(grid, xMin, xMax, yMax, rock[index], rock[index + 1], RockCells(rocks[..k]) + PathCells(rock[..index + 1]));
      }
      assert rock[..|rock|] == rock;
    }
    assert rocks[..|rocks|] == rocks;
    return Ok(grid);
  }

  /** One segment: a column when the corners share `x`, otherwise a row at the first corner's `y`. */
  method DrawSegment(grid0: seq<seq<Tile>>, xMin: int, xMax: int, yMax: int, a: Position, b: Position, ghost before: set<Position>)
    returns (grid: seq<seq<Tile>>)
    requires Shaped(grid0, xMax - xMin + 1, yMax + 1) && Drawn(grid0, xMin, before)
    requires xMin <= a.x <= xMax && 0 <= a.y <= yMax && xMin <= b.x <= xMax && 0 <= b.y <= yMax
    ensures Shaped(grid, xMax - xMin + 1, yMax + 1) && Drawn(grid, xMin, before + Segment(a, b))
  {
    grid := grid0;
    if a.x == b.x {
      var min := Min(a.y, b.y);
      var max := Max(a.y, b.y);
      for r := min to max + 1
        invariant Shaped(grid, xMax - xMin + 1, yMax + 1)
        invariant Drawn(grid, xMin, before + set y | min <= y < r :: Position(a.x, y))
      {
        grid := grid[a.x - xMin := grid[a.x - xMin][r := Rock]];
      }
    } else {
      var min := Min(a.x, b.x);
      var max := Max(a.x, b.x);
      for r := min to max + 1
        invariant Shaped(grid, xMax - xMin + 1, yMax + 1)
        invariant Drawn(grid, xMin, before + set x | min <= x < r :: Position(x, a.y))
      {
        grid := grid[r - xMin := grid[r - xMin][a.y := Rock]];
      }
    }
  }

  /** Lays the floor: the lowest cell of every column becomes rock. */
  method LayFloor(grid0: seq<seq<Tile>>, height: nat) returns (grid: seq<seq<Tile>>)
    requires height > 0 && Shaped(grid0, |grid0|, height)
    ensures Shaped(grid, |grid0|, height)
    ensures forall cx, y :: 0 <= cx < |grid| && 0 <= y < height ==>
      grid[cx][y] == if y == height - 1 then Rock else grid0[cx][y]
  {
    grid := grid0;
    for cx := 0 to |grid|
      invariant Shaped(grid, |grid0|, height)
      invariant forall c, y :: 0 <= c < |grid| && 0 <= y < height ==>
        grid[c][y] == if y == height - 1 && c < cx then Rock else grid0[c][y]
    {
      grid := grid[cx := grid[cx][height - 1 := Rock]];
    }
  }

  ghost predicate Laid(grid: seq<seq<Tile>>, xMin: int, xMax: int, yMax: int, floor: bool)
  {
    0 <= yMax && Shaped(grid, xMax - xMin + 1, yMax + 1)
    && (floor ==> forall cx :: 0 <= cx < |grid| ==> grid[cx][yMax] == Rock)
  }

  /**
   * The grid covering columns `xMin..=xMax` is a window on `v`: every grid
   * cell agrees with `v`, and every rock or sand cell of `v` lies inside it.
   */
  ghost predicate Window(grid: seq<seq<Tile>>, xMin: int, xMax: int, yMax: int, floor: bool, v: Scan)
  {
    Laid(grid, xMin, xMax, yMax, floor)
    && v.yMax == yMax && v.floor == floor && v.rock !! v.sand
    && (forall p :: p in v.rock ==> xMin <= p.x <= xMax && 0 <= p.y <= yMax)
    && (forall p :: p in v.sand ==> xMin <= p.x <= xMax && 0 <= p.y <= yMax)
    && forall cx, y :: 0 <= cx < |grid| && 0 <= y <= yMax ==> grid[cx][y] == TileOf(v, Position(cx + xMin, y))
  }

  lemma WindowAt(grid: seq<seq<Tile>>, xMin: int, xMax: int, yMax: int, floor: bool, v: Scan, p: Position)
    requires Window(grid, xMin, xMax, yMax, floor, v) && xMin <= p.x <= xMax && 0 <= p.y <= yMax
    ensures grid[p.x - xMin][p.y] == TileOf(v, p)
  {
    assert Position(p.x - xMin + xMin, p.y) == p;
  }

  /** A column of air added on the left, with a rock floor cell when there is a floor, widens the window. */
  lemma WindowGrowLeft(grid: seq<seq<Tile>>, xMin: int, xMax: int, yMax: int, floor: bool, v: Scan)
    requires Window(grid, xMin, xMax, yMax, floor, v)
    ensures var g := [seq(yMax + 1, _ => Air)] + grid;
      Shaped(g, xMax - (xMin - 1) + 1, yMax + 1) &&
      Window(if floor then g[0 := g[0][yMax := Rock]] else g, xMin - 1, xMax, yMax, floor, v)
  {
    var g := [seq(yMax + 1, _ => Air)] + grid;
    var g' := if floor then g[0 := g[0][yMax := Rock]] else g;
    assert forall cx :: 1 <= cx < |g'| ==> g'[cx] == grid[cx - 1];
    forall cx, y | 0 <= cx < |g'| && 0 <= y <= yMax ensures g'[cx][y] == TileOf(v, Position(cx + (xMin - 1), y)) {
      if cx > 0 {
        assert Position(cx + (xMin - 1), y) == Position((cx - 1) + xMin, y);
      }
    }
  }

  /** A column of air added on the right, with a rock floor cell when there is a floor, widens the window. */
  lemma WindowGrowRight(grid: seq<seq<Tile>>, xMin: int, xMax: int, yMax: int, floor: bool, v: Scan)
    requires Window(grid, xMin, xMax, yMax, floor, v)
    ensures var g := grid + [seq(yMax + 1, _ => Air)];
      var last := |g| - 1;
      Shaped(g, (xMax + 1) - xMin + 1, yMax + 1) &&
      Window(if floor then g[last := g[last][yMax := Rock]] else g, xMin, xMax + 1, yMax, floor, v)
  {
    var g := grid + [seq(yMax + 1, _ => Air)];
    var last := |g| - 1;
    var g' := if floor then g[last := g[last][yMax := Rock]] else g;
    assert forall cx :: 0 <= cx < last ==> g'[cx] == grid[cx];
  }

  /** Turning a grid cell above the floor to sand shows the scan with that cell settled. */
  lemma WindowSettle(grid: seq<seq<Tile>>, xMin: int, xMax: int, yMax: int, floor: bool, v: Scan, p: Position)
    requires Window(grid, xMin, xMax, yMax, floor, v) && xMin <= p.x <= xMax && 0 <= p.y <= yMax
    requires floor ==> p.y < yMax
    ensures Window(grid[p.x - xMin := grid[p.x - xMin][p.y := Sand]], xMin, xMax, yMax, floor, Settle(v, Some(p)))
  {
    var g := grid[p.x - xMin := grid[p.x - xMin][p.y := Sand]];
    var w := Settle(v, Some(p));
    forall cx, y | 0 <= cx < |g| && 0 <= y <= yMax
      ensures g[cx][y] == TileOf(w, Position(cx + xMin, y))
    {
      if Position(cx + xMin, y) != p {
        assert g[cx][y] == grid[cx][y];
      }
    }
  }

  /**
   * A grain may start in `p` of a grid over columns `xMin..=xMax`: without
   * a floor it may already be above the abyss; otherwise it is inside the
   * grid or one column beside it, and above the floor (two rows above it
   * when beside the grid). Anywhere else `drop_sand` indexes outside the grid.
   */
  predicate Reachable(p: Position, xMin: int, xMax: int, yMax: int, floor: bool)
  {
    0 <= p.y
    && ((!floor && p.y + 1 > yMax)
        || ((floor ==> p.y < yMax)
            && (xMin <= p.x <= xMax
                || ((p.x == xMin - 1 || p.x == xMax + 1) && (floor ==> p.y + 1 < yMax)))))
  }

  class Cave {
    var grid: seq<seq<Tile>>
    var xMin: int
    var xMax: int
    var yMax: int
    var infiniteFloor: bool

    /** One column per `x` in `xMin..=xMax`, each `yMax + 1` cells tall, with rock on the bottom row when there is a floor. */
    ghost predicate Valid()
      reads this
    {
      Laid(grid, xMin, xMax, yMax, infiniteFloor)
    }

    predicate Sized()
      reads this
    {
      0 <= yMax && Shaped(grid, xMax - xMin + 1, yMax + 1)
    }

    predicate InGrid(p: Position)
      reads this
    {
      xMin <= p.x <= xMax && 0 <= p.y <= yMax
    }

    /** The grid is a window on `v`. */
    ghost predicate Shows(v: Scan)
      reads this
    {
      Window(grid, xMin, xMax, yMax, infiniteFloor, v)
    }

    predicate Reach(p: Position)
      reads this
    {
      Reachable(p, xMin, xMax, yMax, infiniteFloor)
    }

    constructor (grid: seq<seq<Tile>>, xMin: int, xMax: int, yMax: int, infiniteFloor: bool)
      ensures this.grid == grid && this.xMin == xMin && this.xMax == xMax && this.yMax == yMax
      ensures this.infiniteFloor == infiniteFloor
    {
      this.grid := grid;
      this.xMin := xMin;
      this.xMax := xMax;
      this.yMax := yMax;
      this.infiniteFloor := infiniteFloor;
    }

    method Get(p: Position) returns (t: Tile)
      requires Sized() && InGrid(p)
      ensures t == grid[p.x - xMin][p.y]
    {
      t := grid[p.x - xMin][p.y];
    }

    method Set(p: Position, t: Tile)
      requires Sized() && InGrid(p)
      modifies this
      ensures grid == old(grid[p.x - xMin := grid[p.x - xMin][p.y := t]])
      ensures xMin == old(xMin) && xMax == old(xMax) && yMax == old(yMax) && infiniteFloor == old(infiniteFloor)
    {
      grid := grid[p.x - xMin := grid[p.x - xMin][p.y := t]];
    }

    /** A new column of air on the left, with its floor cell. */
    method GrowLeft(ghost v: Scan)
      requires Shows(v)
      modifies this
      ensures Shows(v) && xMin == old(xMin) - 1 && xMax == old(xMax)
      ensures yMax == old(yMax) && infiniteFloor == old(infiniteFloor)
    {
      WindowGrowLeft(grid, xMin, xMax, yMax, infiniteFloor, v);
      var g := [seq(yMax + 1, _ => Air)] + grid;
      if infiniteFloor {
        g := g[0 := g[0][yMax := Rock]];
      }
      xMin, grid := xMin - 1, g;
    }

    /** A new column of air on the right, with its floor cell. */
    method GrowRight(ghost v: Scan)
      requires Shows(v)
      modifies this
      ensures Shows(v) && xMin == old(xMin) && xMax == old(xMax) + 1
      ensures yMax == old(yMax) && infiniteFloor == old(infiniteFloor)
    {
      WindowGrowRight(grid, xMin, xMax, yMax, infiniteFloor, v);
      var g := grid + [seq(yMax + 1, _ => Air)];
      if infiniteFloor {
        g := g[|g| - 1 := g[|g| - 1][yMax := Rock]];
      }
      xMax, grid := xMax + 1, g;
    }

    /** `set(position, Sand)`: the grid then shows the scan with that cell settled. */
    method SetSand(p: Position, ghost v: Scan)
      requires Shows(v) && InGrid(p) && (infiniteFloor ==> p.y < yMax)
      modifies this
      ensures Shows(Settle(v, Some(p)))
      ensures xMin == old(xMin) && xMax == old(xMax) && yMax == old(yMax) && infiniteFloor == old(infiniteFloor)
    {
      WindowSettle(grid, xMin, xMax, yMax, infiniteFloor, v, p);
      Set(p, Sand);
    }

    /** Adds a column on each side the grain at `position` would look past. */
    method MakeRoom(position: Position, ghost v: Scan)
      requires Shows(v) && 0 < position.x && 0 <= xMin
      modifies this
      ensures Shows(v) && yMax == old(yMax) && infiniteFloor == old(infiniteFloor) && 0 <= xMin
      ensures xMin == (if position.x - 1 < old(xMin) then old(xMin) - 1 else old(xMin))
      ensures xMax == (if position.x + 1 >= old(xMin) + old(|grid|) then old(xMax) + 1 else old(xMax))
    {
      var belowLeft := Position(position.x - 1, position.y + 1);
      var belowRight := Position(position.x + 1, position.y + 1);
      if belowLeft.x < xMin {
        GrowLeft(v);
      }
      if belowRight.x >= xMin + |grid| {
        GrowRight(v);
      }
    }

    /**
     * The cell the grain at `position` falls to: below, else below-left,
     * else below-right, whichever is air first; `None` when all three are
     * taken and the grain rests where it is.
     */
    method Probe(position: Position, ghost v: Scan) returns (next: Option<Position>)
      requires Shows(v) && (v.floor ==> position.y < v.yMax) && !(!v.floor && position.y + 1 > v.yMax)
      requires xMin <= position.x <= xMax && 0 <= position.y
      requires (position.x - 1 < xMin || xMax < position.x + 1) ==> Free(v, Position(position.x, position.y + 1))
      ensures next == (if Free(v, Position(position.x, position.y + 1)) then Some(Position(position.x, position.y + 1))
        else if Free(v, Position(position.x - 1, position.y + 1)) then Some(Position(position.x - 1, position.y + 1))
        else if Free(v, Position(position.x + 1, position.y + 1)) then Some(Position(position.x + 1, position.y + 1))
        else None)
      ensures next.None? ==> Fall(v, position) == Some(position)
      ensures next.Some? ==> var q := next.value;
        q in {Position(position.x, position.y + 1), Position(position.x - 1, position.y + 1), Position(position.x + 1, position.y + 1)}
        && Free(v, q) && Fall(v, position) == Fall(v, q) && InGrid(q) && (v.floor ==> q.y < v.yMax)
    {
      var below := Position(position.x, position.y + 1);
      var belowLeft := Position(position.x - 1, position.y + 1);
      var belowRight := Position(position.x + 1, position.y + 1);
      var t := Get(below);
      WindowAt(grid, xMin, xMax, yMax, infiniteFloor, v, below);
      if t == Air {
        return Some(below);
      }
      t := Get(belowLeft);
      WindowAt(grid, xMin, xMax, yMax, infiniteFloor, v, belowLeft);
      if t == Air {
        return Some(belowLeft);
      }
      t := Get(belowRight);
      WindowAt(grid, xMin, xMax, yMax, infiniteFloor, v, belowRight);
      if t == Air {
        return Some(belowRight);
      }
      return None;
    }

    /**
     * `drop_sand`: the grain's resting cell, which turns to sand, or `None`
     * once it would fall below `yMax` with no floor; a panic once the grain
     * is in column 0. The grid grows by a column whenever the grain would
     * look past an edge; the cave it shows does not change otherwise. As
     * `x_min` only drops below a grain in column 1 or more, it never
     * underflows.
     */
    method DropSand(start: Position, ghost v: Scan) returns (r: Result<Option<Position>>)
      requires Shows(v) && Reach(start) && 0 <= start.x && 0 <= xMin
      modifies this
      ensures r == Drop(v, start) && Reach(start) && 0 <= xMin
      ensures Shows(if r.Ok? then Settle(v, r.value) else v)
      ensures xMin <= old(xMin) && old(xMax) <= xMax
    {
      var position := start;
      while true
        invariant Shows(v) && Reach(start) && Reach(position) && 0 <= position.x && 0 <= xMin
        invariant v.floor ==> position.y < v.yMax
        invariant Drop(v, start) == Drop(v, position)
        invariant xMin <= old(xMin) && old(xMax) <= xMax
        invariant yMax == old(yMax) && infiniteFloor == old(infiniteFloor)
        decreases yMax - position.y
      {
        if position.x == 0 {
          return Panic;
        }
        var below := Position(position.x, position.y + 1);
        var belowLeft := Position(position.x - 1, position.y + 1);
        var belowRight := Position(position.x + 1, position.y + 1);
        if !(xMin <= position.x <= xMax) && (infiniteFloor || below.y <= yMax) {
          assert Free(v, below);
        }

        MakeRoom(position, v);

        if !infiniteFloor && below.y > yMax {
          assert Drop(v, position) == Ok(None) && Settle(v, None) == v;
          return Ok(None);
        }

        var next := Probe(position, v);
        if next.None? {
          SetSand(position, v);
          return Ok(Some(position));
        }
        position := next.value;
      }
    }
  }

  /** A grid holding exactly the rock of `cells` and the floor is a window on the cave without sand. */
  lemma StartWindow(grid: seq<seq<Tile>>, xMin: int, xMax: int, yMax: int, floor: bool, cells: set<Position>)
    requires 0 <= yMax && Shaped(grid, xMax - xMin + 1, yMax + 1)
    requires forall p :: p in cells ==> xMin <= p.x <= xMax && 0 <= p.y <= yMax
    requires forall cx, y :: 0 <= cx < |grid| && 0 <= y <= yMax ==>
      grid[cx][y] == if (floor && y == yMax) || Position(cx + xMin, y) in cells then Rock else Air
    ensures Window(grid, xMin, xMax, yMax, floor, Scan(cells, {}, yMax, floor))
  {
  }

  /** Every cell of every path lies in a box holding every corner. */
  lemma {:induction false} RockCellsBoxed(rocks: seq<seq<Position>>, xMin: int, xMax: int, yMax: int)
    requires Boxed(rocks, xMin, xMax, yMax)
    ensures forall p :: p in RockCells(rocks) ==> xMin <= p.x <= xMax && 0 <= p.y <= yMax
  {
    if rocks != [] {
      var init := rocks[..|rocks| - 1];
      assert forall k :: 0 <= k < |init| ==> init[k] == rocks[k];
      RockCellsBoxed(init, xMin, xMax, yMax);
      PathCellsBoxed(rocks[|rocks| - 1], xMin, xMax, yMax);
    }
  }

  lemma {:induction false} PathCellsBoxed(rock: seq<Position>, xMin: int, xMax: int, yMax: int)
    requires forall l :: 0 <= l < |rock| ==> xMin <= rock[l].x <= xMax && 0 <= rock[l].y <= yMax
    ensures forall p :: p in PathCells(rock) ==> xMin <= p.x <= xMax && 0 <= p.y <= yMax
  {
    if |rock| >= 2 {
      var init := rock[..|rock| - 1];
      assert forall l :: 0 <= l < |init| ==> init[l] == rock[l];
      PathCellsBoxed(init, xMin, xMax, yMax);
    }
  }

  /** The corners lie in the bounding box of `Corners`. */
  lemma CornersBoxed(rocks: seq<seq<Position>>, floor: bool)
    requires InRange(rocks)
    ensures Boxed(rocks, LowestX(Corners(rocks)), HighestX(Corners(rocks)), Bottom(rocks, floor))
  {
    var cs := Corners(rocks);
    CornersOf(rocks);
    forall i | 0 <= i < |cs| ensures 0 <= cs[i].x <= UsizeMax && 0 <= cs[i].y {
      assert cs[i] in cs;
    }
    BoundingBox(cs);
    forall k, l | 0 <= k < |rocks| && 0 <= l < |rocks[k]|
      ensures LowestX(cs) <= rocks[k][l].x <= HighestX(cs) && 0 <= rocks[k][l].y <= Bottom(rocks, floor)
    {
      assert rocks[k][l] in cs;
      var i :| 0 <= i < |cs| && cs[i] == rocks[k][l];
    }
  }

  /** With no corner at all the running bounds cross; with one they do not. */
  lemma BoundsCross(rocks: seq<seq<Position>>)
    requires InRange(rocks)
    ensures HighestX(Corners(rocks)) < LowestX(Corners(rocks)) <==> Corners(rocks) == []
  {
    var cs := Corners(rocks);
    CornersOf(rocks);
    forall i | 0 <= i < |cs| ensures 0 <= cs[i].x <= UsizeMax && 0 <= cs[i].y {
      assert cs[i] in cs;
    }
    BoundingBox(cs);
    if cs != [] {
      assert LowestX(cs) <= cs[0].x <= HighestX(cs);
    }
  }

  /** There is a corner unless there is no path or some path is empty. */
  lemma {:induction false} CornersEmpty(rocks: seq<seq<Position>>)
    ensures Corners(rocks) == [] <==> forall k :: 0 <= k < |rocks| ==> rocks[k] == []
  {
    if rocks != [] {
      var init := rocks[..|rocks| - 1];
      CornersEmpty(init);
      assert forall k :: 0 <= k < |init| ==> init[k] == rocks[k];
    }
  }

  /** The rock paths drawn on a grid of the box, with the floor laid along row `yMax` when there is one. */
  method DrawCave(rocks: seq<seq<Position>>, xMin: int, xMax: int, yMax: int, floor: bool) returns (r: Result<seq<seq<Tile>>>)
    requires Boxed(rocks, xMin, xMax, yMax) && xMin <= xMax && 0 <= yMax
    ensures r.Ok? <==> forall k :: 0 <= k < |rocks| ==> rocks[k] != []
    ensures r.Ok? ==> Window(r.value, xMin, xMax, yMax, floor, Scan(RockCells(rocks), {}, yMax, floor))
  {
    var drawn := DrawRocks(rocks, xMin, xMax, yMax);
    if drawn.Panic? {
      return Panic;
    }
    var grid := drawn.value;
    if floor {
      grid := LayFloor(grid, yMax + 1);
    }
    assert forall cx, y :: 0 <= cx < |grid| && 0 <= y <= yMax ==>
      grid[cx][y] == if (floor && y == yMax) || Position(cx + xMin, y) in RockCells(rocks) then Rock else Air;
    RockCellsBoxed(rocks, xMin, xMax, yMax);
    StartWindow(grid, xMin, xMax, yMax, floor, RockCells(rocks));
    return Ok(grid);
  }

  /**
   * `from_rocks`: a grid over the corners' bounding box, `yMax` two rows
   * lower with a floor, showing the rock paths and the floor. It panics
   * with no corner at all (the width underflows) or on an empty path.
   */
  method FromRocks(rocks: seq<seq<Position>>, infiniteFloor: bool) returns (r: Result<Cave>)
    requires InRange(rocks)
    ensures r.Panic? <==> !Buildable(rocks)
    ensures r.Ok? ==> fresh(r.value) && r.value.Shows(Initial(rocks, infiniteFloor))
    ensures r.Ok? ==> r.value.xMin == LowestX(Corners(rocks)) && r.value.xMax == HighestX(Corners(rocks))
  {
    var xMin, xMax, yMax := Bounds(rocks);
    if infiniteFloor {
      yMax := yMax + 2;
    }
    BoundsCross(rocks);
    CornersEmpty(rocks);
    if xMax < xMin {
      return Panic;
    }
    CornersBoxed(rocks, infiniteFloor);
    var drawn := DrawCave(rocks, xMin, xMax, yMax, infiniteFloor);
    if drawn.Panic? {
      return Panic;
    }
    var grid := drawn.value;
    var cave := new Cave(grid, xMin, xMax, yMax, infiniteFloor);
    return Ok(cave);
  }

  /** The start `drop_sand` is given in a freshly built cave is within reach. */
  predicate SourceReached(rocks: seq<seq<Position>>, floor: bool)
  {
    Reachable(Source, LowestX(Corners(rocks)), HighestX(Corners(rocks)), Bottom(rocks, floor), floor)
  }

  /**
   * `part1`, stopping also once a grain rests on the source: the grains
   * that come to rest before one falls into the abyss.
   */
  method Part1(rocks: seq<seq<Position>>) returns (r: Result<nat>)
    requires InRange(rocks)
    ensures r == if Buildable(rocks) && SourceReached(rocks, false) then Poured(Initial(rocks, false), Source) else Panic
  {
    var made := FromRocks(rocks, false);
    if made.Panic? {
      return Panic;
    }
    var cave := made.value;
    if !cave.Reach(Source) {
      return Panic;
    }
    LowestCorner(rocks);
    ghost var v0 := Initial(rocks, false);
    ghost var v := v0;
    var count := 0;
    var rest := cave.DropSand(Source, v);
    while rest.Ok? && rest.value.Some? && rest.value.value != Source
      invariant cave.Shows(if rest.Ok? then Settle(v, rest.value) else v) && cave.Reach(Source) && 0 <= cave.xMin
      invariant !v.floor && v.yMax == v0.yMax && rest == Drop(v, Source)
      invariant Poured(v0, Source) == Shifted(count, Poured(v, Source))
      decreases |Cone(Source, v.yMax) - v.sand|
    {
      PourStep(v, Source, rest.value.value);
      PouredStep(v, Source, rest.value.value, count);
      count := count + 1;
      v := Settle(v, rest.value);
      rest := cave.DropSand(Source, v);
    }
    if rest.Panic? {
      return Panic;
    }
    if rest.value.Some? {
      count := count + 1;
    }
    return Ok(count);
  }

  /** `part2`: with the floor, the grains poured until one rests on the source, that one included. */
  method Part2(rocks: seq<seq<Position>>) returns (r: Result<nat>)
    requires InRange(rocks)
    ensures r == if Buildable(rocks) && SourceReached(rocks, true) then Poured(Initial(rocks, true), Source) else Panic
  {
    var made := FromRocks(rocks, true);
    if made.Panic? {
      return Panic;
    }
    var cave := made.value;
    if !cave.Reach(Source) {
      return Panic;
    }
    LowestCorner(rocks);
    ghost var v0 := Initial(rocks, true);
    ghost var v := v0;
    var count := 1;
    var rest := cave.DropSand(Source, v);
    while rest.Ok? && rest.value != Some(Source)
      invariant cave.Shows(if rest.Ok? then Settle(v, rest.value) else v) && cave.Reach(Source) && 0 <= cave.xMin
      invariant v.floor && v.yMax == v0.yMax && Source.y < v.yMax && rest == Drop(v, Source)
      invariant count >= 1 && Poured(v0, Source) == Shifted(count - 1, Poured(v, Source))
      decreases |Cone(Source, v.yMax) - v.sand|
    {
      FloorCatches(v, Source);
      PourStep(v, Source, rest.value.value);
      PouredStep(v, Source, rest.value.value, count - 1);
      count := count + 1;
      v := Settle(v, rest.value);
      rest := cave.DropSand(Source, v);
    }
    if rest.Panic? {
      return Panic;
    }
    return Ok(count);
  }

  /** Every corner lies in a `usize` column, so the cave's first column is at least 0. */
  lemma LowestCorner(rocks: seq<seq<Position>>)
    requires InRange(rocks)
    ensures LowestX(Corners(rocks)) >= 0
  {
    CornersOf(rocks);
    var cs := Corners(rocks);
    forall i | 0 <= i < |cs| ensures 0 <= cs[i].x <= UsizeMax && 0 <= cs[i].y {
      assert cs[i] in cs;
    }
    BoundingBox(cs);
  }

  // ------------------------------------------------- part 1 as written

  /**
   * `part1` as written drops grains while one comes to rest, with `fuel`
   * bounding the drops; `None` when the fuel runs out first. Whenever it
   * does return, it agrees with the corrected count.
   */
  function Part1AsWritten(v: Scan, src: Position, fuel: nat): (r: Option<Result<nat>>)
    requires v.floor ==> src.y < v.yMax
    ensures r.Some? ==> r.value == Poured(v, src)
    decreases fuel, 0
  {
    if fuel == 0 then None
    else
      match Drop(v, src)
      case Panic => Some(Panic)
      case Ok(None) => Some(Ok(0))
      case Ok(Some(q)) =>
        var more := Part1AsWritten(Settle(v, Some(q)), src, fuel - 1);
        if q == src then
          FallLands(v, src);
          StillBlocked(v, src);
          NeverStops(Settle(v, Some(src)), src, fuel - 1);
          more
        else
          match more
          case None => None
          case Some(n) => Some(Shifted(1, n))
  }

  /** The cells below, below-left and below-right of `p` are all taken. */
  predicate Blocked(v: Scan, p: Position)
  {
    !Free(v, Position(p.x, p.y + 1)) && !Free(v, Position(p.x - 1, p.y + 1)) && !Free(v, Position(p.x + 1, p.y + 1))
  }

  /** The cells below a grain stay taken when it settles. */
  lemma StillBlocked(v: Scan, p: Position)
    requires Blocked(v, p)
    ensures Blocked(Settle(v, Some(p)), p)
  {
  }

  /** A grain above `yMax`, off column 0, with the three cells below it taken rests where it is. */
  lemma RestsHere(v: Scan, p: Position)
    requires p.x != 0 && p.y < v.yMax && Blocked(v, p)
    ensures Drop(v, p) == Ok(Some(p))
  {
  }

  /**
   * From a cave where the cells below the source are taken, so that a grain
   * rests on the source, `part1` as written never stops, whatever the fuel.
   */
  lemma {:induction false} NeverStops(v: Scan, src: Position, fuel: nat)
    requires src.x != 0 && src.y < v.yMax && Blocked(v, src)
    ensures Part1AsWritten(v, src, fuel) == None
    decreases fuel, 1
  {
    if fuel > 0 {
      RestsHere(v, src);
      StillBlocked(v, src);
      NeverStops(Settle(v, Some(src)), src, fuel - 1);
    }
  }

  /** A cup of rock around the source: walls at `x` 499 and 501 from row 0 down to a bottom in row 2. */
  const Cup: seq<seq<Position>> := [[Position(499, 0), Position(499, 2), Position(501, 2), Position(501, 0)]]

  /** The cup's rock is its three segments, and its lowest rock lies on row 2. */
  lemma CupCells()
    ensures Bottom(Cup, false) == 2
    ensures RockCells(Cup) == Segment(Cup[0][0], Cup[0][1]) + Segment(Cup[0][1], Cup[0][2]) + Segment(Cup[0][2], Cup[0][3])
  {
    var rock := Cup[0];
    assert Corners(Cup) == rock by {
      assert Cup[..0] == [];
    }
    assert HighestY(rock[..1]) == 0 by {
      assert rock[..1][..0] == [];
    }
    assert HighestY(rock[..2]) == 2 by {
      assert rock[..2][..1] == rock[..1];
    }
    assert HighestY(rock[..3]) == 2 by {
      assert rock[..3][..2] == rock[..2];
    }
    assert HighestY(rock) == 2 by {
      assert rock[..3] == rock[..|rock| - 1];
    }
    assert RockCells(Cup) == PathCells(rock) by {
      assert Cup[..0] == [];
    }
    assert PathCells(rock[..2]) == Segment(rock[0], rock[1]) by {
      assert rock[..2][..1] == rock[..1];
    }
    assert PathCells(rock[..3]) == Segment(rock[0], rock[1]) + Segment(rock[1], rock[2]) by {
      assert rock[..3][..2] == rock[..2];
    }
    assert rock[..3] == rock[..|rock| - 1];
  }

  /** The first grain poured into the cup rests at (500, 1). */
  lemma CupFirstGrain()
    ensures Fall(Initial(Cup, false), Source) == Some(Position(500, 1))
  {
    var v := Initial(Cup, false);
    CupCells();
    var rock := Cup[0];
    assert v.yMax == 2 && !v.floor && v.sand == {};
    var cell := Position(500, 1);
    assert Free(v, cell);
    assert Position(500, 2) in Segment(rock[1], rock[2]);
    assert Position(499, 2) in Segment(rock[1], rock[2]);
    assert Position(501, 2) in Segment(rock[1], rock[2]);
    assert Fall(v, cell) == Some(cell);
  }

  /** The second grain poured into the cup rests on the source. */
  lemma CupSecondGrain()
    ensures Fall(Settle(Initial(Cup, false), Some(Position(500, 1))), Source) == Some(Source)
  {
    var v := Initial(Cup, false);
    CupCells();
    var rock := Cup[0];
    assert v.yMax == 2 && !v.floor && v.sand == {};
    var w := Settle(v, Some(Position(500, 1)));
    assert Position(499, 1) in Segment(rock[0], rock[1]);
    assert Position(501, 1) in Segment(rock[2], rock[3]);
    assert !Free(w, Position(500, 1));
  }

  /**
   * When the first grain rests below the source and the second on it,
   * `part1` as written never stops, while the corrected count is 2.
   */
  lemma SecondOnSource(v: Scan, src: Position, cell: Position, fuel: nat)
    requires !v.floor && cell != src
    requires Drop(v, src) == Ok(Some(cell))
    requires Drop(Settle(v, Some(cell)), src) == Ok(Some(src))
    ensures Part1AsWritten(v, src, fuel) == None
    ensures Poured(v, src) == Ok(2)
  {
    var w := Settle(v, Some(cell));
    if fuel > 0 {
      assert src.x != 0 && src.y < w.yMax && Blocked(w, src) by {
        FallLands(w, src);
      }
      NeverStops(w, src, fuel - 1);
    }
    assert Poured(w, src) == Ok(1);
  }

  /**
   * In the cup the first grain rests at (500, 1) and the second on the
   * source: `part1` as written never returns, and the corrected count is 2.
   */
  lemma CupOverflows(fuel: nat)
    ensures Part1AsWritten(Initial(Cup, false), Source, fuel) == None
    ensures Poured(Initial(Cup, false), Source) == Ok(2)
  {
    var v := Initial(Cup, false);
    CupCells();
    CupFirstGrain();
    CupSecondGrain();
    ShallowDrop(v, Source);
    ShallowDrop(Settle(v, Some(Position(500, 1))), Source);
    SecondOnSource(v, Source, Position(500, 1), fuel);
  }
}
