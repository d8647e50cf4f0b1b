// Day 17 of 2022: rocks of five shapes fall in turn into a chamber seven
// units wide, pushed sideways by a repeating pattern of jets. A position
// is a row, counted upwards from the bottom of the chamber, and a column,
// counted from the left wall.

module FallingRocks {
  import opened Common

  datatype Shape = Horizontal | Cross | Corner | Vertical | Square

  /** A row and a column, or an offset by a number of rows and columns. */
  datatype Point = Point(row: int, col: int)

  /** The chamber, row by row from the bottom; `true` marks rock. */
  type Grid = seq<seq<bool>>

  const Width: nat := 7

  /** The order the rocks fall in, over and over. */
  const Rocks: seq<Shape> := [Horizontal, Cross, Corner, Vertical, Square]

  /**
   * `get_tiles`: the cells a shape covers, relative to the lower-left
   * corner of its bounding box: cells in a four by four box, the first
   * one on the bottom row.
   */
  function Tiles(shape: Shape): (r: seq<Point>)
    ensures Block(r)
  {
    match shape
    case Horizontal => [Point(0, 0), Point(0, 1), Point(0, 2), Point(0, 3)]
    case Cross => [Point(0, 1), Point(1, 0), Point(1, 1), Point(1, 2), Point(2, 1)]
    case Corner => [Point(0, 0), Point(0, 1), Point(0, 2), Point(1, 2), Point(2, 2)]
    case Vertical => [Point(0, 0), Point(1, 0), Point(2, 0), Point(3, 0)]
    case Square => [Point(0, 0), Point(0, 1), Point(1, 0), Point(1, 1)]
  }

  function Shift(p: Point, d: Point): Point
  {
    Point(p.row + d.row, p.col + d.col)
  }

  predicate Inside(grid: Grid, p: Point)
  {
    0 <= p.row < |grid| && 0 <= p.col < |grid[p.row]|
  }

  /** `free_tile`: a cell inside the grid holding no rock; every cell outside the grid counts as taken. */
  predicate Free(grid: Grid, p: Point)
  {
    Inside(grid, p) && !grid[p.row][p.col]
  }

  /** The cells of a shape, as `Tiles` gives them: in a four by four box, the first one on the bottom row. */
  predicate Block(tiles: seq<Point>)
  {
    |tiles| > 0 && tiles[0].row == 0
    && forall i :: 0 <= i < |tiles| ==> 0 <= tiles[i].row <= 3 && 0 <= tiles[i].col <= 3
  }

  /** The block fits at `pos` when every one of its cells there is free. */
  predicate Fits(grid: Grid, tiles: seq<Point>, pos: Point)
  {
    forall i :: 0 <= i < |tiles| ==> Free(grid, Shift(pos, tiles[i]))
  }

  function Below(p: Point): Point
  {
    Point(p.row - 1, p.col)
  }

  /** A block fits only on or above the bottom row. */
  lemma FitsAboveFloor(grid: Grid, tiles: seq<Point>, pos: Point)
    requires Block(tiles) && Fits(grid, tiles, pos)
    ensures pos.row >= 0
  {
    assert Free(grid, Shift(pos, tiles[0]));
  }

  // ------------------------------------------------------------ one block

  /** `Vec::resize`: cut to `n` rows, or extended with empty rows of width seven. */
  function Resize(grid: Grid, n: nat): (r: Grid)
    ensures |r| == n
    ensures forall k :: 0 <= k < n ==> r[k] == if k < |grid| then grid[k] else seq(Width, _ => false)
  {
    if n <= |grid| then grid[..n] else grid + seq(n - |grid|, _ => seq(Width, _ => false))
  }

  /**
   * The block falling from `pos` with jet `j` next: it moves down one row
   * while it fits there, and after each move down the jet pushes it one
   * column, left for `<` and right otherwise, when it fits there. The
   * corner it rests at and the next jet.
   */
  function Drop(grid: Grid, jets: seq<char>, j: nat, tiles: seq<Point>, pos: Point): (Point, nat)
    requires Block(tiles) && j < |jets|
    decreases pos.row
  {
    var fall := Below(pos);
    if !Fits(grid, tiles, fall) then (pos, j)
    else
      FitsAboveFloor(grid, tiles, fall);
      Drop(grid, jets, (j + 1) % |jets|, tiles, Pushed(grid, tiles, jets[j], fall))
  }

  /** The jet `jet` pushes the block at `fall` one column, left for `<` and right otherwise, when it fits there. */
  function Pushed(grid: Grid, tiles: seq<Point>, jet: char, fall: Point): Point
  {
    var shifted := if jet == '<' then Point(fall.row, fall.col - 1) else Point(fall.row, fall.col + 1);
    if Fits(grid, tiles, shifted) then shifted else fall
  }

  /** One step of the fall: a block that fits one row lower rests where it would after moving down and being pushed. */
  lemma DropStep(grid: Grid, jets: seq<char>, j: nat, tiles: seq<Point>, pos: Point)
    requires Block(tiles) && j < |jets| && Fits(grid, tiles, Below(pos))
    ensures Drop(grid, jets, j, tiles, pos) == Drop(grid, jets, (j + 1) % |jets|, tiles, Pushed(grid, tiles, jets[j], Below(pos)))
  {
  }

  /** The block at `pos`, with jet `j` next, comes to rest at `landing`. */
  ghost predicate Lands(grid: Grid, jets: seq<char>, j: nat, tiles: seq<Point>, pos: Point, landing: (Point, nat))
    requires Block(tiles) && j < |jets|
  {
    Drop(grid, jets, j, tiles, pos) == landing
  }

  /** A block that can fall one row rests where it would after falling to `fall` and being pushed. */
  lemma LandsStep(grid: Grid, jets: seq<char>, j: nat, tiles: seq<Point>, fall: Point, next: Point, landing: (Point, nat))
    requires Block(tiles) && j < |jets| && Fits(grid, tiles, fall) && fall.row >= 0
    requires Lands(grid, jets, j, tiles, Point(fall.row + 1, fall.col), landing)
    requires next == Pushed(grid, tiles, jets[j], fall)
    ensures Lands(grid, jets, (j + 1) % |jets|, tiles, next, landing) && next.row == fall.row
  {
    DropStep(grid, jets, j, tiles, Point(fall.row + 1, fall.col));
  }

  /** A block that cannot fall one row rests where it is, with the jet it has. */
  lemma LandsDone(grid: Grid, jets: seq<char>, j: nat, tiles: seq<Point>, pos: Point, landing: (Point, nat))
    requires Block(tiles) && j < |jets| && !Fits(grid, tiles, Below(pos))
    requires Lands(grid, jets, j, tiles, pos, landing)
    ensures landing == (pos, j)
  {
  }

  /**
   * The block rests where it started or lower at a corner where it fits,
   * it no longer fits one row lower, and the next jet is a jet.
   */
  lemma {:induction false} DropRests(grid: Grid, jets: seq<char>, j: nat, tiles: seq<Point>, pos: Point)
    requires Block(tiles) && j < |jets|
    ensures var q := Drop(grid, jets, j, tiles, pos).0;
      (q == pos || (Fits(grid, tiles, q) && q.row < pos.row)) && !Fits(grid, tiles, Below(q))
    ensures Drop(grid, jets, j, tiles, pos).1 < |jets|
    decreases pos.row
  {
    var fall := Below(pos);
    if Fits(grid, tiles, fall) {
      FitsAboveFloor(grid, tiles, fall);
      DropRests(grid, jets, (j + 1) % |jets|, tiles, Pushed(grid, tiles, jets[j], fall));
    }
  }

  /** The cells of `tiles` at `pos` all lie inside the grid. */
  predicate AllInside(grid: Grid, tiles: seq<Point>, pos: Point)
  {
    forall i :: 0 <= i < |tiles| ==> Inside(grid, Shift(pos, tiles[i]))
  }

  /** The grid with the cells of `tiles` at `pos` set to rock, in order; its shape is unchanged. */
  function Stamp(grid: Grid, tiles: seq<Point>, pos: Point): (r: Grid)
    requires AllInside(grid, tiles, pos)
    ensures |r| == |grid| && forall a :: 0 <= a < |grid| ==> |r[a]| == |grid[a]|
  {
    if tiles == [] then grid
    else
      var g := Stamp(grid, tiles[..|tiles| - 1], pos);
      var p := Shift(pos, tiles[|tiles| - 1]);
      assert Inside(grid, p);
      g[p.row := g[p.row][p.col := true]]
  }

  /** After stamping, a cell holds rock when it did before or is one of the cells of `tiles` at `pos`. */
  lemma {:induction false} StampCells(grid: Grid, tiles: seq<Point>, pos: Point, a: int, b: int)
    requires AllInside(grid, tiles, pos)
    requires 0 <= a < |grid| && 0 <= b < |grid[a]|
    ensures Stamp(grid, tiles, pos)[a][b] <==> grid[a][b] || Point(a, b) in Cells(tiles, pos)
  {
    if tiles != [] {
      var front := tiles[..|tiles| - 1];
      StampCells(grid, front, pos, a, b);
      assert Cells(tiles, pos) == Cells(front, pos) + [Shift(pos, tiles[|tiles| - 1])];
    }
  }

  /** The cells of `tiles` at `pos`. */
  function Cells(tiles: seq<Point>, pos: Point): seq<Point>
  {
    seq(|tiles|, i requires 0 <= i < |tiles| => Shift(pos, tiles[i]))
  }

  /** `start_x` raised past the tiles at `pos`: the largest of `start` and five above the row of each tile. */
  function Top(start: int, tiles: seq<Point>, pos: Point): (r: int)
    ensures r >= start && forall i :: 0 <= i < |tiles| ==> r >= pos.row + tiles[i].row + 5
    ensures r == start || exists i :: 0 <= i < |tiles| && r == pos.row + tiles[i].row + 5
  {
    if tiles == [] then start
    else Max(Top(start, tiles[..|tiles| - 1], pos), pos.row + tiles[|tiles| - 1].row + 5)
  }

  // --------------------------------------------------------- the tower

  /** The chamber's state: the grid, the next jet and `start_x`, the row new blocks start from. */
  datatype Tower = Tower(grid: Grid, jetIndex: nat, startX: int)

  /** The rows from `h` up hold no rock, and row `h - 1` holds some: the tower is `h` rows tall. */
  predicate HeightIs(grid: Grid, h: int)
  {
    0 <= h
    && (forall r :: h <= r < |grid| ==> true !in grid[r])
    && (h > 0 ==> h - 1 < |grid| && true in grid[h - 1])
  }

  /** Rows of width seven, no more than `start_x + 3` of them, and `start_x` four above the tower's top. */
  predicate WellFormed(t: Tower)
  {
    4 <= t.startX && |t.grid| <= t.startX + 3
    && (forall r :: 0 <= r < |t.grid| ==> |t.grid[r]| == Width)
    && HeightIs(t.grid, t.startX - 4)
  }

  /** The grid `add_block` drops the block into: `start_x + 3` rows. */
  function Room(t: Tower): Grid
    requires 4 <= t.startX
  {
    Resize(t.grid, t.startX + 3)
  }

  function Start(t: Tower): Point
  {
    Point(t.startX, 2)
  }

  /** The first move down from the start, three rows above the tower, always fits. */
  lemma FirstFallFits(t: Tower, tiles: seq<Point>)
    requires Block(tiles) && WellFormed(t)
    ensures Fits(Room(t), tiles, Below(Start(t)))
  {
    var grid := Room(t);
    forall i | 0 <= i < |tiles|
      ensures Free(grid, Shift(Below(Start(t)), tiles[i]))
    {
      var p := Shift(Below(Start(t)), tiles[i]);
      if p.row < |t.grid| {
        assert true !in t.grid[p.row];
        assert t.grid[p.row][p.col] != true;
      }
    }
  }

  /** Where the block comes to rest, and the next jet. */
  function Landing(t: Tower, jets: seq<char>, tiles: seq<Point>): (Point, nat)
    requires Block(tiles) && WellFormed(t) && t.jetIndex < |jets|
  {
    Drop(Room(t), jets, t.jetIndex, tiles, Start(t))
  }

  /** The block rests at a corner where it fits and from which it cannot fall further. */
  lemma LandingFits(t: Tower, jets: seq<char>, tiles: seq<Point>)
    requires Block(tiles) && WellFormed(t) && t.jetIndex < |jets|
    ensures var q := Landing(t, jets, tiles).0;
      Fits(Room(t), tiles, q) && !Fits(Room(t), tiles, Below(q)) && q.row < t.startX
    ensures Landing(t, jets, tiles).1 < |jets|
  {
    FirstFallFits(t, tiles);
    DropRests(Room(t), jets, t.jetIndex, tiles, Start(t));
  }

  /**
   * `add_block`: the chamber after one more block with cells `tiles`,
   * stamped where it lands, with `start_x` raised past it.
   */
  function Place(t: Tower, jets: seq<char>, tiles: seq<Point>): Tower
    requires Block(tiles) && WellFormed(t) && t.jetIndex < |jets|
  {
    LandingFits(t, jets, tiles);
    var landing := Landing(t, jets, tiles);
    FitsInside(Room(t), tiles, landing.0);
    Tower(Stamp(Room(t), tiles, landing.0), landing.1, Top(t.startX, tiles, landing.0))
  }

  lemma FitsInside(grid: Grid, tiles: seq<Point>, pos: Point)
    requires Fits(grid, tiles, pos)
    ensures AllInside(grid, tiles, pos)
  {
  }

  /**
   * The block's cells are exactly the cells that turn to rock: a cell
   * holds rock after `add_block` when it held rock before or is a cell of
   * the block where it landed.
   */
  lemma PlaceStamps(t: Tower, jets: seq<char>, tiles: seq<Point>, a: int, b: int)
    requires Block(tiles) && WellFormed(t) && t.jetIndex < |jets|
    requires 0 <= a < t.startX + 3 && 0 <= b < Width
    ensures Place(t, jets, tiles).grid[a][b] <==>
      (a < |t.grid| && t.grid[a][b]) || Point(a, b) in Cells(tiles, Landing(t, jets, tiles).0)
  {
    LandingFits(t, jets, tiles);
    var q := Landing(t, jets, tiles).0;
    FitsInside(Room(t), tiles, q);
    StampCells(Room(t), tiles, q, a, b);
  }

  /** Growing the grid to `start_x + 3` rows keeps the chamber well formed. */
  lemma RoomKeeps(t: Tower)
    requires WellFormed(t)
    ensures WellFormed(t.(grid := Room(t))) && |Room(t)| == t.startX + 3
  {
    var grid := Room(t);
    var h := t.startX - 4;
    forall r | h <= r < |grid|
      ensures true !in grid[r]
    {
      if r < |t.grid| {
        assert grid[r] == t.grid[r];
      } else {
        assert grid[r] == seq(Width, _ => false);
      }
    }
    if h > 0 {
      assert grid[h - 1] == t.grid[h - 1];
    }
  }

  /**
   * Stamping a block that fits below `start_x` into a grid of `start_x + 3`
   * rows keeps the chamber well formed, with `start_x` raised past the block.
   */
  lemma StampKeeps(t: Tower, tiles: seq<Point>, q: Point, j: nat)
    requires WellFormed(t) && |t.grid| == t.startX + 3 && Fits(t.grid, tiles, q) && q.row < t.startX
    ensures AllInside(t.grid, tiles, q)
    ensures WellFormed(Tower(Stamp(t.grid, tiles, q), j, Top(t.startX, tiles, q)))
  {
    FitsInside(t.grid, tiles, q);
    StampClearAbove(t, tiles, q);
    StampTopRow(t, tiles, q);
    var g := Stamp(t.grid, tiles, q);
    forall r | 0 <= r < |g|
      ensures |g[r]| == Width
    {
      assert |g[r]| == |t.grid[r]|;
    }
  }

  /** No row from the new `start_x - 4` up holds rock after stamping. */
  lemma StampClearAbove(t: Tower, tiles: seq<Point>, q: Point)
    requires WellFormed(t) && AllInside(t.grid, tiles, q)
    ensures var g := Stamp(t.grid, tiles, q);
      forall r :: Top(t.startX, tiles, q) - 4 <= r < |g| ==> true !in g[r]
  {
    var grid := t.grid;
    var g := Stamp(grid, tiles, q);
    var top := Top(t.startX, tiles, q);
    forall r | top - 4 <= r < |g|
      ensures true !in g[r]
    {
      forall c | 0 <= c < |g[r]|
        ensures !g[r][c]
      {
        StampCells(grid, tiles, q, r, c);
        assert true !in grid[r];
        assert grid[r][c] != true;
        assert Point(r, c) !in Cells(tiles, q);
      }
    }
  }

  /** After stamping, the row just below the new `start_x - 4` holds rock, unless that is row 0. */
  lemma StampTopRow(t: Tower, tiles: seq<Point>, q: Point)
    requires WellFormed(t) && AllInside(t.grid, tiles, q)
    ensures var g := Stamp(t.grid, tiles, q);
      var h' := Top(t.startX, tiles, q) - 4;
      h' > 0 ==> h' - 1 < |g| && true in g[h' - 1]
  {
    var top := Top(t.startX, tiles, q);
    if top - 4 > 0 {
      if top == t.startX {
        StampKeepsTop(t, tiles, q);
      } else {
        var i :| 0 <= i < |tiles| && top == q.row + tiles[i].row + 5;
        StampRaisesTop(t, tiles, q, i);
      }
    }
  }

  /** Rock stays rock: the old top row still holds rock after stamping. */
  lemma StampKeepsTop(t: Tower, tiles: seq<Point>, q: Point)
    requires WellFormed(t) && AllInside(t.grid, tiles, q) && t.startX > 4
    ensures var g := Stamp(t.grid, tiles, q);
      t.startX - 5 < |g| && true in g[t.startX - 5]
  {
    var grid := t.grid;
    var h := t.startX - 4;
    assert true in grid[h - 1];
    var c :| 0 <= c < |grid[h - 1]| && grid[h - 1][c];
    StampCells(grid, tiles, q, h - 1, c);
    assert Stamp(grid, tiles, q)[h - 1][c];
  }

  /** The cell of tile `i` turns to rock, so its row holds rock after stamping. */
  lemma StampRaisesTop(t: Tower, tiles: seq<Point>, q: Point, i: int)
    requires AllInside(t.grid, tiles, q) && 0 <= i < |tiles|
    ensures var g := Stamp(t.grid, tiles, q);
      var p := Shift(q, tiles[i]);
      0 <= p.row < |g| && true in g[p.row]
  {
    var grid := t.grid;
    var p := Shift(q, tiles[i]);
    assert Inside(grid, p);
    assert Cells(tiles, q)[i] == p;
    StampCells(grid, tiles, q, p.row, p.col);
    assert Stamp(grid, tiles, q)[p.row][p.col];
  }

  /**
   * `add_block` keeps the chamber well formed: the grid has grown to the
   * old `start_x + 3` rows, `start_x` has not decreased, stays four rows
   * above the tower, and the next jet is a jet.
   */
  lemma PlaceKeeps(t: Tower, jets: seq<char>, tiles: seq<Point>)
    requires Block(tiles) && WellFormed(t) && t.jetIndex < |jets|
    ensures var u := Place(t, jets, tiles);
      WellFormed(u) && u.jetIndex < |jets| && t.startX <= u.startX && |u.grid| == t.startX + 3
  {
    LandingFits(t, jets, tiles);
    var (q, j) := Landing(t, jets, tiles);
    RoomKeeps(t);
    StampKeeps(t.(grid := Room(t)), tiles, q, j);
  }

  /** The chamber after the first `n` blocks, taken in turn from `Rocks`. */
  function Drops(jets: seq<char>, n: nat): (t: Tower)
    requires |jets| > 0
    ensures WellFormed(t) && t.jetIndex < |jets|
  {
    if n == 0 then Tower([], 0, 4)
    else
      var t := Drops(jets, n - 1);
      var tiles := Tiles(Rocks[(n - 1) % |Rocks|]);
      PlaceKeeps(t, jets, tiles);
      Place(t, jets, tiles)
  }

  /** Block `n` is placed on the tower the first `n` blocks left. */
  lemma NextDrop(jets: seq<char>, n: nat)
    requires |jets| > 0
    ensures Drops(jets, n + 1) == Place(Drops(jets, n), jets, Tiles(Rocks[n % |Rocks|]))
  {
  }

  /** `start_x - 4` after `n` blocks: the height of the tower. */
  function Height(jets: seq<char>, n: nat): (h: nat)
    requires |jets| > 0
    ensures HeightIs(Drops(jets, n).grid, h)
  {
    Drops(jets, n).startX - 4
  }

  /** The tower never shrinks: one more block leaves it at least as tall. */
  lemma HeightGrows(jets: seq<char>, n: nat)
    requires |jets| > 0
    ensures Height(jets, n) <= Height(jets, n + 1)
  {
    PlaceKeeps(Drops(jets, n), jets, Tiles(Rocks[n % |Rocks|]));
  }

  // ----------------------------------------------------------- the cave

  class Cave {
    var cave: Grid
    const jets: seq<char>
    var jetIndex: nat
    var startX: nat

    function State(): Tower
      reads this
    {
      Tower(cave, jetIndex, startX)
    }

    ghost predicate Valid()
      reads this
    {
      WellFormed(State()) && (|jets| > 0 ==> jetIndex < |jets|)
    }

    /** `Cave::new`: no rows yet, the first jet next, blocks starting from row 4. */
    constructor(jets: seq<char>)
      ensures Valid() && this.jets == jets && State() == Tower([], 0, 4)
    {
      cave := [];
      this.jets := jets;
      jetIndex := 0;
      startX := 4;
    }

    /** `valid_block_position`: whether every cell of the shape with cells `tiles` at `position` is free. */
    method ValidBlockPosition(tiles: seq<Point>, position: Point) returns (r: bool)
      ensures r == Fits(cave, tiles, position)
    {
      for i := 0 to |tiles|
        invariant forall k :: 0 <= k < i ==> Free(cave, Shift(position, tiles[k]))
      {
        if !Free(cave, Shift(position, tiles[i])) {
          return false;
        }
      }
      return true;
    }

    /**
     * `add_block`: grows the grid to `start_x + 3` rows, lets the block
     * fall from row `start_x` and column 2 jet by jet, sets its cells to
     * rock and raises `start_x`. Indexing the jets needs at least one.
     */
    method AddBlock(shape: Shape)
      requires Valid() && |jets| > 0
      modifies this
      ensures Valid() && State() == Place(old(State()), jets, Tiles(shape))
    {
      ghost var t := State();
      var tiles := Tiles(shape);
      cave := Resize(cave, startX + 3);
      ghost var room := cave;
      assert room == Room(t);
      var position := Fall(tiles);
      ghost var landing := (position, jetIndex);
      assert landing == Landing(t, jets, tiles);
      LandingFits(t, jets, tiles);
      FitsInside(cave, tiles, position);
      StampBlock(tiles, position);
      assert State() == Tower(Stamp(room, tiles, landing.0), landing.1, Top(t.startX, tiles, landing.0));
      PlaceKeeps(t, jets, tiles);
    }

    /** The falling loop of `add_block`: the block moves down and is pushed until it cannot move down. */
    method Fall(tiles: seq<Point>) returns (position: Point)
      requires Block(tiles) && jetIndex < |jets|
      modifies this`jetIndex
      ensures (position, jetIndex) == Drop(cave, jets, old(jetIndex), tiles, Point(startX, 2))
    {
      position := Point(startX, 2);
      ghost var landing := Drop(cave, jets, jetIndex, tiles, position);
      var resting := false;
      while !resting
        invariant jetIndex < |jets| && position.row >= 0
        invariant Lands(cave, jets, jetIndex, tiles, position, landing)
        invariant resting ==> landing == (position, jetIndex)
        decreases position.row + (if resting then 0 else 1)
      {
        resting, position := FallOnce(tiles, position, landing);
      }
    }

    /**
     * One turn of the falling loop: a block that fits one row lower moves
     * down and is pushed by the next jet; one that does not is resting.
     */
    method FallOnce(tiles: seq<Point>, position: Point, ghost landing: (Point, nat)) returns (resting: bool, next: Point)
      requires Block(tiles) && jetIndex < |jets| && position.row >= 0
      requires Lands(cave, jets, jetIndex, tiles, position, landing)
      modifies this`jetIndex
      ensures jetIndex < |jets| && Lands(cave, jets, jetIndex, tiles, next, landing)
      ensures resting ==> next == position && landing == (position, jetIndex)
      ensures !resting ==> 0 <= next.row < position.row
    {
      var fall := Below(position);
      var fits := ValidBlockPosition(tiles, fall);
      if !fits {
        LandsDone(cave, jets, jetIndex, tiles, position, landing);
        return true, position;
      }
      FitsAboveFloor(cave, tiles, fall);
      next := Push(tiles, jets[jetIndex], fall);
      LandsStep(cave, jets, jetIndex, tiles, fall, next, landing);
      jetIndex := (jetIndex + 1) % |jets|;
      resting := false;
    }

    /** The jet's push in the falling loop: one column left for `<`, right otherwise, when the block fits there. */
    method Push(tiles: seq<Point>, jet: char, fall: Point) returns (position: Point)
      ensures position == Pushed(cave, tiles, jet, fall)
    {
      var shifted := if jet == '<' then Point(fall.row, fall.col - 1) else Point(fall.row, fall.col + 1);
      var pushed := ValidBlockPosition(tiles, shifted);
      position := if pushed then shifted else fall;
    }

    /** The stamping loop of `add_block`: each cell of the block turns to rock and `start_x` is raised past it. */
    method StampBlock(tiles: seq<Point>, position: Point)
      requires AllInside(cave, tiles, position)
      modifies this`cave, this`startX
      ensures cave == Stamp(old(cave), tiles, position) && startX == Top(old(startX), tiles, position)
    {
      ghost var room := cave;
      for i := 0 to |tiles|
        invariant cave == Stamp(room, tiles[..i], position)
        invariant startX == Top(old(startX), tiles[..i], position)
      {
        assert tiles[..i + 1][..i] == tiles[..i];
        var p := Shift(position, tiles[i]);
        assert Inside(room, p);
        cave := cave[p.row := cave[p.row][p.col := true]];
        startX := Max(startX, p.row + 5);
      }
      assert tiles[..|tiles|] == tiles;
    }
  }

  /** Drops the first `count` blocks into a fresh chamber. */
  method Simulate(jets: seq<char>, count: nat) returns (cave: Cave)
    requires |jets| > 0
    ensures fresh(cave) && cave.Valid() && cave.jets == jets && cave.State() == Drops(jets, count)
    ensures cave.startX >= 4 && cave.startX - 4 == Height(jets, count)
  {
    cave := new Cave(jets);
    for index := 0 to count
      invariant fresh(cave) && cave.Valid() && cave.jets == jets && cave.State() == Drops(jets, index)
    {
      cave.AddBlock(Rocks[index % |Rocks|]);
      assert cave.State() == Drops(jets, index + 1) by {
        NextDrop(jets, index);
      }
    }
  }

  /** `part1`: the height of the tower after 2022 blocks; no jet to push with is a panic. */
  method Part1(jets: seq<char>) returns (r: Result<nat>)
    ensures r == if jets == [] then Panic else Ok(Height(jets, 2022))
  {
    if jets == [] {
      return Panic;
    }
    var cave := Simulate(jets, 2022);
    return Ok(cave.startX - 4);
  }
}
