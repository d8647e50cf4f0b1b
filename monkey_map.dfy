// Day 22 of 2022: a walk over a map of open tiles and walls, following a
// path of moves and turns. In the first part leaving the map wraps around
// to the other side of the same row or column; in the second the map is
// folded into a cube of side 50 and leaving a face enters the glued one.
// A position is a row and a column, counted from the top left.

module MonkeyMap {
  import opened Common

  datatype Tile = Void | Open | Wall

  /** `Tile::from_char`: any character other than `.` and `#` is void. */
  function TileOf(c: char): Tile
  {
    match c
    case '.' => Open
    case '#' => Wall
    case _ => Void
  }

  /** The four facings, in the order of their discriminants. */
  datatype Direction = Right | Down | Left | Up

  /** The discriminant of a facing, as the password counts it. */
  function Facing(d: Direction): (r: nat)
    ensures r < 4
  {
    match d
    case Right => 0
    case Down => 1
    case Left => 2
    case Up => 3
  }

  function TurnRight(d: Direction): Direction
  {
    match d
    case Right => Down
    case Down => Left
    case Left => Up
    case Up => Right
  }

  function TurnLeft(d: Direction): Direction
  {
    match d
    case Right => Up
    case Down => Right
    case Left => Down
    case Up => Left
  }

  /**
   * Turning right adds one to the facing and turning left takes one
   * away, around four; each undoes the other and four turns either way
   * face where they started.
   */
  lemma TurnsCycle(d: Direction)
    ensures Facing(TurnRight(d)) == (Facing(d) + 1) % 4
    ensures Facing(TurnLeft(d)) == (Facing(d) + 3) % 4
    ensures TurnLeft(TurnRight(d)) == d && TurnRight(TurnLeft(d)) == d
    ensures TurnRight(TurnRight(TurnRight(TurnRight(d)))) == d
    ensures TurnLeft(TurnLeft(TurnLeft(TurnLeft(d)))) == d
  {
  }

  /** A step of the path: walk forward, or turn to one side. */
  datatype Instruction = Forward(count: int) | Turn(side: Direction)

  /** The turn of `apply_instructions`: only right and left turns exist; any other side is unreachable and panics. */
  function Turned(side: Direction, d: Direction): (r: Result<Direction>)
    ensures r.Ok? <==> side == Right || side == Left
    ensures side == Right ==> r == Ok(TurnRight(d))
    ensures side == Left ==> r == Ok(TurnLeft(d))
  {
    match side
    case Right => Ok(TurnRight(d))
    case Left => Ok(TurnLeft(d))
    case _ => Panic
  }

  /** The map, row by row, and the side of a cube face. */
  datatype Board = Board(tiles: seq<seq<Tile>>, cubeSize: int)

  type Position = (int, int)

  /** The tile at a position; a position off the rows panics. */
  function Cell(b: Board, p: Position): (r: Result<Tile>)
    ensures r.Ok? <==> 0 <= p.0 < |b.tiles| && 0 <= p.1 < |b.tiles[p.0]|
  {
    if 0 <= p.0 < |b.tiles| && 0 <= p.1 < |b.tiles[p.0]| then Ok(b.tiles[p.0][p.1]) else Panic
  }

  /** One tile further in direction `d`. */
  function Stepped(p: Position, d: Direction): Position
  {
    match d
    case Right => (p.0, p.1 + 1)
    case Down => (p.0 + 1, p.1)
    case Left => (p.0, p.1 - 1)
    case Up => (p.0 - 1, p.1)
  }

  /** The row and column offsets of a step. */
  function Delta(d: Direction): (int, int)
  {
    match d
    case Right => (0, 1)
    case Down => (1, 0)
    case Left => (0, -1)
    case Up => (-1, 0)
  }

  // ------------------------------------------------------------ flat wrap

  /** On the map: the row within the rows, the column within the first row's width. */
  predicate OnGrid(b: Board, p: Position)
    requires |b.tiles| > 0
  {
    0 <= p.0 < |b.tiles| && 0 <= p.1 < |b.tiles[0]|
  }

  /**
   * `move_wrap`: one step, and a row or column one past either end
   * comes back at the other end; the facing is kept. The width is that
   * of the first row, so an empty map panics.
   */
  function MoveWrap(b: Board, p: Position, d: Direction): (r: Result<(Position, Direction)>)
    ensures r.Ok? <==> |b.tiles| > 0
    ensures r.Ok? ==> r.value.1 == d
    ensures r.Ok? && |b.tiles[0]| > 0 && OnGrid(b, p) ==> OnGrid(b, r.value.0)
  {
    if |b.tiles| == 0 then Panic
    else
      var rows, cols := |b.tiles|, |b.tiles[0]|;
      var q := Stepped(p, d);
      var row := if q.0 == -1 then rows - 1 else q.0;
      var row := if row == rows then 0 else row;
      var col := if q.1 == -1 then cols - 1 else q.1;
      var col := if col == cols then 0 else col;
      Ok(((row, col), d))
  }

  /** From a tile on the map, the wrap is a step modulo the number of rows and the width. */
  lemma MoveWrapModular(b: Board, p: Position, d: Direction)
    requires |b.tiles| > 0 && |b.tiles[0]| > 0 && OnGrid(b, p)
    ensures MoveWrap(b, p, d) == Ok((((p.0 + Delta(d).0) % |b.tiles|, (p.1 + Delta(d).1) % |b.tiles[0]|), d))
  {
    var rows, cols := |b.tiles|, |b.tiles[0]|;
    WrapIndex(p.0, Delta(d).0, rows);
    WrapIndex(p.1, Delta(d).1, cols);
  }

  /** An index moved by at most one and put back into range is the Euclidean remainder. */
  lemma WrapIndex(x: int, delta: int, n: int)
    requires 0 <= x < n && -1 <= delta <= 1
    ensures var y := x + delta;
      (if y == -1 then n - 1 else if y == n then 0 else y) == y % n
  {
    var y := x + delta;
    if y == -1 {
      assert y == -1 * n + (n - 1);
    } else if y == n {
      assert y == 1 * n + 0;
    } else {
      assert y == 0 * n + y;
    }
  }

  // ------------------------------------------------------------ cube wrap

  type Face = (int, int)

  /** The index on a face's edge that a step in direction `d` leaves the face from. */
  predicate Leaves(d: Direction, rel: Position, size: int)
  {
    match d
    case Right => rel.1 == size - 1
    case Down => rel.0 == size - 1
    case Left => rel.1 == 0
    case Up => rel.0 == 0
  }

  function Opposite(d: Direction): Direction
  {
    TurnRight(TurnRight(d))
  }

  /**
   * `wrap_position_cube`: the fourteen glued edges of the folded map.
   * Leaving face `face` in direction `d` at relative position `rel`
   * enters the returned face, facing the returned direction, at the
   * returned relative position; any other face and direction panics.
   */
  function CubeEdge(face: Face, d: Direction, rel: Position, size: int): Option<(Face, Direction, Position)>
  {
    var c := size - 1;
    match (face, d)
    case ((0, 1), Left) => Some(((2, 0), Right, (c - rel.0, 0)))
    case ((0, 1), Up) => Some(((3, 0), Right, (rel.1, 0)))
    case ((0, 2), Down) => Some(((1, 1), Left, (rel.1, c)))
    case ((0, 2), Right) => Some(((2, 1), Left, (c - rel.0, c)))
    case ((0, 2), Up) => Some(((3, 0), Up, (c, rel.1)))
    case ((1, 1), Left) => Some(((2, 0), Down, (0, rel.0)))
    case ((1, 1), Right) => Some(((0, 2), Up, (c, rel.0)))
    case ((2, 0), Left) => Some(((0, 1), Right, (c - rel.0, 0)))
    case ((2, 0), Up) => Some(((1, 1), Right, (rel.1, 0)))
    case ((2, 1), Down) => Some(((3, 0), Left, (rel.1, c)))
    case ((2, 1), Right) => Some(((0, 2), Left, (c - rel.0, c)))
    case ((3, 0), Down) => Some(((0, 2), Down, (0, rel.1)))
    case ((3, 0), Left) => Some(((0, 1), Down, (0, rel.0)))
    case ((3, 0), Right) => Some(((2, 1), Up, (c, rel.0)))
    case _ => None
  }

  /** Inside a face of side `size`. */
  predicate OnFace(rel: Position, size: int)
  {
    0 <= rel.0 < size && 0 <= rel.1 < size
  }

  /**
   * The table glues edges consistently: a walker leaving a face over a
   * glued edge arrives inside the other face on the matching edge, and
   * turning round there and stepping back over the edge returns it to
   * where it left, facing back.
   */
  lemma CubeEdgeGlued(face: Face, d: Direction, rel: Position, size: int)
    requires CubeEdge(face, d, rel, size).Some? && OnFace(rel, size) && Leaves(d, rel, size)
    ensures var (face', d', rel') := CubeEdge(face, d, rel, size).value;
      && OnFace(rel', size)
      && Leaves(Opposite(d'), rel', size)
      && CubeEdge(face', Opposite(d'), rel', size) == Some((face, Opposite(d), rel))
  {
  }

  /**
   * `move_wrap_cube`: one step; when it leaves the map (rows and columns
   * are both bounded by the number of rows) or lands on a void tile, the
   * walker is carried over the glued edge of the face it was on. Rust's
   * `/` and `%` truncate; a zero face side panics, and so does a step
   * onto a column beyond the end of its row.
   */
  function MoveWrapCube(b: Board, p: Position, d: Direction): Result<(Position, Direction)>
  {
    var size := b.cubeSize;
    if size <= 0 then Panic
    else
      var face := (TruncDiv(p.0, size), TruncDiv(p.1, size));
      var rel := (TruncMod(p.0, size), TruncMod(p.1, size));
      var q := Stepped(p, d);
      var rows := |b.tiles|;
      if q.0 < 0 || q.0 >= rows || q.1 < 0 || q.1 >= rows then Glue(face, d, rel, size)
      else if q.1 >= |b.tiles[q.0]| then Panic
      else if b.tiles[q.0][q.1] == Void then Glue(face, d, rel, size)
      else Ok((q, d))
  }

  /** Carried over the glued edge: the position on the new face, in map coordinates. */
  function Glue(face: Face, d: Direction, rel: Position, size: int): Result<(Position, Direction)>
  {
    match CubeEdge(face, d, rel, size)
    case None => Panic
    case Some((face', d', rel')) => Ok(((face'.0 * size + rel'.0, face'.1 * size + rel'.1), d'))
  }

  /** The map of the puzzle: 200 rows of 200 tiles and faces of side 50. */
  predicate PuzzleShape(b: Board)
  {
    && b.cubeSize == 50 && |b.tiles| == 200
    && forall i :: 0 <= i < 200 ==> |b.tiles[i]| == 200
  }

  /** The void tiles next to the glued edges that the expectations of `part2` step onto. */
  predicate VoidBeyondEdges(b: Board)
    requires PuzzleShape(b)
  {
    && b.tiles[0][49] == Void && b.tiles[50][149] == Void && b.tiles[49][150] == Void
    && b.tiles[50][49] == Void && b.tiles[50][100] == Void && b.tiles[99][0] == Void
    && b.tiles[150][99] == Void && b.tiles[149][100] == Void && b.tiles[199][50] == Void
  }

  /** The fourteen expectations that `part2` asserts before walking. */
  predicate CubeExpectations(b: Board)
  {
    && MoveWrapCube(b, (0, 50), Up) == Ok(((150, 0), Right))
    && MoveWrapCube(b, (0, 50), Left) == Ok(((149, 0), Right))
    && MoveWrapCube(b, (49, 149), Down) == Ok(((99, 99), Left))
    && MoveWrapCube(b, (49, 149), Right) == Ok(((100, 99), Left))
    && MoveWrapCube(b, (0, 100), Up) == Ok(((199, 0), Up))
    && MoveWrapCube(b, (50, 50), Left) == Ok(((100, 0), Down))
    && MoveWrapCube(b, (50, 99), Right) == Ok(((49, 100), Up))
    && MoveWrapCube(b, (100, 0), Left) == Ok(((49, 50), Right))
    && MoveWrapCube(b, (100, 0), Up) == Ok(((50, 50), Right))
    && MoveWrapCube(b, (149, 99), Down) == Ok(((199, 49), Left))
    && MoveWrapCube(b, (149, 99), Right) == Ok(((0, 149), Left))
    && MoveWrapCube(b, (199, 0), Down) == Ok(((0, 100), Down))
    && MoveWrapCube(b, (199, 0), Left) == Ok(((0, 99), Down))
    && MoveWrapCube(b, (199, 49), Right) == Ok(((149, 99), Up))
  }

  /** On a map of the puzzle's shape, every expectation `part2` asserts holds. */
  lemma CubeExpectationsHold(b: Board)
    requires PuzzleShape(b) && VoidBeyondEdges(b)
    ensures CubeExpectations(b)
  {
    LeavingTopFaces(b);
    LeavingMiddleFaces(b);
    LeavingLowerFaces(b);
  }

  lemma LeavingTopFaces(b: Board)
    requires PuzzleShape(b) && VoidBeyondEdges(b)
    ensures MoveWrapCube(b, (0, 50), Up) == Ok(((150, 0), Right))
    ensures MoveWrapCube(b, (0, 50), Left) == Ok(((149, 0), Right))
    ensures MoveWrapCube(b, (49, 149), Down) == Ok(((99, 99), Left))
    ensures MoveWrapCube(b, (49, 149), Right) == Ok(((100, 99), Left))
    ensures MoveWrapCube(b, (0, 100), Up) == Ok(((199, 0), Up))
  {
    assert |b.tiles[0]| == 200 && |b.tiles[50]| == 200 && |b.tiles[49]| == 200;
  }

  lemma LeavingMiddleFaces(b: Board)
    requires PuzzleShape(b) && VoidBeyondEdges(b)
    ensures MoveWrapCube(b, (50, 50), Left) == Ok(((100, 0), Down))
    ensures MoveWrapCube(b, (50, 99), Right) == Ok(((49, 100), Up))
    ensures MoveWrapCube(b, (100, 0), Left) == Ok(((49, 50), Right))
    ensures MoveWrapCube(b, (100, 0), Up) == Ok(((50, 50), Right))
  {
    assert |b.tiles[50]| == 200 && |b.tiles[99]| == 200;
  }

  lemma LeavingLowerFaces(b: Board)
    requires PuzzleShape(b) && VoidBeyondEdges(b)
    ensures MoveWrapCube(b, (149, 99), Down) == Ok(((199, 49), Left))
    ensures MoveWrapCube(b, (149, 99), Right) == Ok(((0, 149), Left))
    ensures MoveWrapCube(b, (199, 0), Down) == Ok(((0, 100), Down))
    ensures MoveWrapCube(b, (199, 0), Left) == Ok(((0, 99), Down))
    ensures MoveWrapCube(b, (199, 49), Right) == Ok(((149, 99), Up))
  {
    assert |b.tiles[150]| == 200 && |b.tiles[149]| == 200 && |b.tiles[199]| == 200;
  }

  /** The six faces of the folded net, as (row, column) of 50-by-50 blocks. */
  predicate NetFace(f: Face)
  {
    f in {(0, 1), (0, 2), (1, 1), (2, 0), (2, 1), (3, 0)}
  }

  /** A position on one of the net's faces. */
  predicate OnNet(p: Position)
  {
    0 <= p.0 < 200 && 0 <= p.1 < 200 && NetFace((p.0 / 50, p.1 / 50))
  }

  /** The puzzle's map: exactly the tiles off the net are void. */
  predicate NetShaped(b: Board)
  {
    && PuzzleShape(b)
    && forall r, c :: 0 <= r < 200 && 0 <= c < 200 ==> (b.tiles[r][c] == Void <==> !OnNet((r, c)))
  }

  /**
   * The table covers every edge of the net that is not shared with a
   * neighbouring face of the net, and carries the walker onto a face of
   * the net.
   */
  lemma EdgesCovered(f: Face, d: Direction, rel: Position)
    requires NetFace(f) && OnFace(rel, 50)
    ensures var g := (f.0 + Delta(d).0, f.1 + Delta(d).1);
      NetFace(g) || (CubeEdge(f, d, rel, 50).Some? && NetFace(CubeEdge(f, d, rel, 50).value.0)
        && OnFace(CubeEdge(f, d, rel, 50).value.2, 50))
  {
  }

  /** A position is its block times 50 plus its place in the block. */
  lemma Blocks(p: Position)
    requires 0 <= p.0 && 0 <= p.1
    ensures p == ((p.0 / 50) * 50 + p.0 % 50, (p.1 / 50) * 50 + p.1 % 50)
    ensures OnFace((p.0 % 50, p.1 % 50), 50)
  {
  }

  /**
   * On the puzzle's map, a step of the cube wrap from a tile of the net
   * never panics and always lands on a tile of the net: the fourteen
   * glued edges close the surface of the cube.
   */
  lemma CubeWrapClosed(b: Board, p: Position, d: Direction)
    requires NetShaped(b) && OnNet(p)
    ensures MoveWrapCube(b, p, d).Ok? && OnNet(MoveWrapCube(b, p, d).value.0)
  {
    var q := Stepped(p, d);
    if 0 <= q.0 < 200 && 0 <= q.1 < 200 && OnNet(q) {
      StepOnNet(b, p, d);
    } else {
      assert 0 <= q.0 < 200 && 0 <= q.1 < 200 ==> |b.tiles[q.0]| == 200 && b.tiles[q.0][q.1] == Void;
      GlueOnNet(b, p, d);
    }
  }

  /** A step onto a tile of the net is a plain step. */
  lemma StepOnNet(b: Board, p: Position, d: Direction)
    requires NetShaped(b) && OnNet(p)
    requires var q := Stepped(p, d); 0 <= q.0 < 200 && 0 <= q.1 < 200 && OnNet(q)
    ensures MoveWrapCube(b, p, d) == Ok((Stepped(p, d), d))
  {
    var q := Stepped(p, d);
    assert |b.tiles[q.0]| == 200 && b.tiles[q.0][q.1] != Void;
    CubeSteps(b, p, d);
  }

  /** On the puzzle's map, a step onto a tile that is not void is a plain step. */
  lemma CubeSteps(b: Board, p: Position, d: Direction)
    requires b.cubeSize == 50 && |b.tiles| == 200
    requires var q := Stepped(p, d);
      0 <= q.0 < 200 && 0 <= q.1 < 200 && |b.tiles[q.0]| == 200 && b.tiles[q.0][q.1] != Void
    ensures MoveWrapCube(b, p, d) == Ok((Stepped(p, d), d))
  {
  }

  /** A step off the net goes over a glued edge onto a tile of the net. */
  lemma GlueOnNet(b: Board, p: Position, d: Direction)
    requires PuzzleShape(b) && OnNet(p)
    requires var q := Stepped(p, d); !(0 <= q.0 < 200 && 0 <= q.1 < 200 && OnNet(q))
    requires var q := Stepped(p, d); 0 <= q.0 < 200 && 0 <= q.1 < 200 ==> |b.tiles[q.0]| == 200 && b.tiles[q.0][q.1] == Void
    ensures MoveWrapCube(b, p, d).Ok? && OnNet(MoveWrapCube(b, p, d).value.0)
  {
    var f := (p.0 / 50, p.1 / 50);
    var rel := (p.0 % 50, p.1 % 50);
    Blocks(p);
    EdgesCovered(f, d, rel);
    assert !NetFace((f.0 + Delta(d).0, f.1 + Delta(d).1)) by {
      StepBlock(p, d);
    }
    CubeGlues(b, p, d);
    var (g, d', rel') := CubeEdge(f, d, rel, 50).value;
    assert Glue(f, d, rel, 50) == Ok(((g.0 * 50 + rel'.0, g.1 * 50 + rel'.1), d'));
    BlockOf(g, rel');
  }

  /** On the puzzle's map, a step off the map or onto a void tile goes over the glued edge. */
  lemma CubeGlues(b: Board, p: Position, d: Direction)
    requires PuzzleShape(b) && 0 <= p.0 && 0 <= p.1
    requires var q := Stepped(p, d); !(0 <= q.0 < 200 && 0 <= q.1 < 200) || b.tiles[q.0][q.1] == Void
    ensures MoveWrapCube(b, p, d) == Glue((p.0 / 50, p.1 / 50), d, (p.0 % 50, p.1 % 50), 50)
  {
  }

  /** A step onto a position off the net, from a tile of the net, leaves its block for the neighbouring block. */
  lemma StepBlock(p: Position, d: Direction)
    requires OnNet(p) && !(0 <= Stepped(p, d).0 < 200 && 0 <= Stepped(p, d).1 < 200 && OnNet(Stepped(p, d)))
    ensures !NetFace((p.0 / 50 + Delta(d).0, p.1 / 50 + Delta(d).1))
  {
    var q := Stepped(p, d);
    if 0 <= q.0 && 0 <= q.1 {
      assert (q.0 / 50, q.1 / 50) == (p.0 / 50 + Delta(d).0, p.1 / 50 + Delta(d).1);
    }
  }

  /** The place `rel` in block `g` lies in block `g`. */
  lemma BlockOf(g: Face, rel: Position)
    requires NetFace(g) && OnFace(rel, 50)
    ensures OnNet((g.0 * 50 + rel.0, g.1 * 50 + rel.1))
  {
    ByFifty(g.0, rel.0);
    ByFifty(g.1, rel.1);
  }

  lemma ByFifty(q: int, x: int)
    requires 0 <= x < 50
    ensures (q * 50 + x) / 50 == q
  {
  }

  // ----------------------------------------------------------------- walk

  /** One step in the chosen geometry. */
  function Next(b: Board, p: Position, d: Direction, cube: bool): Result<(Position, Direction)>
  {
    if cube then MoveWrapCube(b, p, d) else MoveWrap(b, p, d)
  }

  /** Number of tiles of the map. */
  function TileCount(tiles: seq<seq<Tile>>): nat
  {
    if tiles == [] then 0 else |tiles[0]| + TileCount(tiles[1..])
  }

  /**
   * How many void tiles in a row the walk skips before it gives up.
   * A longer run revisits a tile with the same facing, after which the
   * source would loop for ever.
   */
  function Limit(b: Board): nat
  {
    4 * TileCount(b.tiles)
  }

  /**
   * The inner loop of `move_position`: from `p`, keep stepping while the
   * tile is void, and stop at the first tile that is not. `fuel` bounds
   * the number of void tiles skipped; running out panics.
   */
  function SkipVoid(b: Board, cube: bool, p: Position, d: Direction, fuel: nat): Result<(Position, Direction)>
    decreases fuel
  {
    match Cell(b, p)
    case Panic => Panic
    case Ok(t) =>
      if t != Void then Ok((p, d))
      else if fuel == 0 then Panic
      else match Next(b, p, d, cube)
        case Panic => Panic
        case Ok((p', d')) => SkipVoid(b, cube, p', d', fuel - 1)
  }

  /** The skip stops on a tile of the map that is open or a wall. */
  lemma {:induction false} SkipVoidStops(b: Board, cube: bool, p: Position, d: Direction, fuel: nat)
    requires SkipVoid(b, cube, p, d, fuel).Ok?
    ensures var (q, _) := SkipVoid(b, cube, p, d, fuel).value;
      Cell(b, q).Ok? && Cell(b, q).value != Void
    decreases fuel
  {
    var t := Cell(b, p).value;
    if t == Void {
      var (p', d') := Next(b, p, d, cube).value;
      SkipVoidStops(b, cube, p', d', fuel - 1);
    }
  }

  /**
   * `move_position`: `count` times, step (skipping void tiles); if the
   * tile reached is a wall, stop where the walker stands, facing as it
   * does, for the rest of the count.
   */
  function Walk(b: Board, cube: bool, p: Position, d: Direction, count: nat): Result<(Position, Direction)>
    decreases count
  {
    if count == 0 then Ok((p, d))
    else match Ahead(b, cube, p, d)
      case Panic => Panic
      case Ok((q, d')) =>
        if Cell(b, q) == Ok(Wall) then Ok((p, d)) else Walk(b, cube, q, d', count - 1)
  }

  /** The first tile that is not void one step or more ahead. */
  function Ahead(b: Board, cube: bool, p: Position, d: Direction): Result<(Position, Direction)>
  {
    match Next(b, p, d, cube)
    case Panic => Panic
    case Ok((q, d')) => SkipVoid(b, cube, q, d', Limit(b))
  }

  /** A walker facing a wall does not move, however far it is told to go. */
  lemma {:induction false} WalkBlocked(b: Board, cube: bool, p: Position, d: Direction, count: nat)
    requires Ahead(b, cube, p, d).Ok? && Cell(b, Ahead(b, cube, p, d).value.0) == Ok(Wall)
    ensures Walk(b, cube, p, d, count) == Ok((p, d))
  {
  }

  /** A walk that starts on an open tile ends on an open tile. */
  lemma {:induction false} WalkEndsOpen(b: Board, cube: bool, p: Position, d: Direction, count: nat)
    requires Cell(b, p) == Ok(Open) && Walk(b, cube, p, d, count).Ok?
    ensures Cell(b, Walk(b, cube, p, d, count).value.0) == Ok(Open)
    decreases count
  {
    if count > 0 {
      var (q, d') := Ahead(b, cube, p, d).value;
      var (q0, d0) := Next(b, p, d, cube).value;
      SkipVoidStops(b, cube, q0, d0, Limit(b));
      if Cell(b, q) != Ok(Wall) {
        WalkEndsOpen(b, cube, q, d', count - 1);
      }
    }
  }

  /** Walking `m + n` tiles is walking `m` and then `n`: a wall stops both alike. */
  lemma {:induction false} WalkAdds(b: Board, cube: bool, p: Position, d: Direction, m: nat, n: nat)
    ensures Walk(b, cube, p, d, m + n) ==
      match Walk(b, cube, p, d, m)
      case Panic => Panic
      case Ok((q, d')) => Walk(b, cube, q, d', n)
    decreases m
  {
    if m > 0 {
      match Ahead(b, cube, p, d)
      case Panic =>
      case Ok((q, d')) =>
        if Cell(b, q) == Ok(Wall) {
          WalkBlocked(b, cube, p, d, m + n);
          WalkBlocked(b, cube, p, d, n);
        } else {
          WalkAdds(b, cube, q, d', m - 1, n);
          assert m + n - 1 == (m - 1) + n;
        }
    }
  }

  /**
   * On the puzzle's map, a walk on the cube from a tile of the net never
   * panics and ends on a tile of the net: no void tile is ever skipped.
   */
  lemma CubeWalkTotal(b: Board, p: Position, d: Direction, count: nat)
    requires NetShaped(b) && OnNet(p)
    ensures Walk(b, true, p, d, count).Ok? && OnNet(Walk(b, true, p, d, count).value.0)
  {
    forall q, e | OnNet(q) ensures Ahead(b, true, q, e).Ok? && OnNet(Ahead(b, true, q, e).value.0) {
      CubeAhead(b, q, e);
    }
    WalkClosed(b, true, q => OnNet(q), p, d, count);
  }

  /** A walk from a set of tiles that every tile ahead stays in ends in that set. */
  lemma {:induction false} WalkClosed(b: Board, cube: bool, inside: Position -> bool, p: Position, d: Direction, count: nat)
    requires inside(p)
    requires forall q, e :: inside(q) ==> Ahead(b, cube, q, e).Ok? && inside(Ahead(b, cube, q, e).value.0)
    ensures Walk(b, cube, p, d, count).Ok? && inside(Walk(b, cube, p, d, count).value.0)
    decreases count
  {
    if count > 0 {
      var a := Ahead(b, cube, p, d);
      var q, d' := a.value.0, a.value.1;
      assert a == Ok((q, d'));
      if Cell(b, q) != Ok(Wall) {
        WalkClosed(b, cube, inside, q, d', count - 1);
      }
    }
  }

  /** On the puzzle's map, the tile ahead of a tile of the net is the next one on the cube, again on the net. */
  lemma CubeAhead(b: Board, p: Position, d: Direction)
    requires NetShaped(b) && OnNet(p)
    ensures Ahead(b, true, p, d).Ok? && OnNet(Ahead(b, true, p, d).value.0)
  {
    CubeWrapClosed(b, p, d);
    var (q, d') := MoveWrapCube(b, p, d).value;
    assert |b.tiles[q.0]| == 200 && b.tiles[q.0][q.1] != Void;
    assert Ahead(b, true, p, d) == Ok((q, d'));
  }

  // ----------------------------------------------------------- the path

  /** `count as usize`: an `i32` count read as a 64-bit unsigned number. */
  function Steps(count: int): nat
  {
    count % 0x1_0000_0000_0000_0000
  }

  /** `apply_instructions` from a given position: moves walk, turns turn. */
  function Run(b: Board, cube: bool, path: seq<Instruction>, p: Position, d: Direction): Result<(Position, Direction)>
    decreases |path|
  {
    if path == [] then Ok((p, d))
    else match path[0]
      case Forward(count) =>
        (match Walk(b, cube, p, d, Steps(count))
         case Panic => Panic
         case Ok((q, d')) => Run(b, cube, path[1..], q, d'))
      case Turn(side) =>
        (match Turned(side, d)
         case Panic => Panic
         case Ok(d') => Run(b, cube, path[1..], p, d'))
  }

  /** The final password: a thousand times the row, four times the column (both from 1), plus the facing. */
  function Password(p: Position, d: Direction): int
  {
    1000 * (p.0 + 1) + 4 * (p.1 + 1) + Facing(d)
  }

  /** The password gives back the row, the column and the facing, for columns below 249. */
  lemma PasswordDecodes(p: Position, d: Direction)
    requires p.0 >= 0 && 0 <= p.1 < 249
    ensures Password(p, d) / 1000 - 1 == p.0
    ensures (Password(p, d) % 1000) / 4 - 1 == p.1
    ensures Password(p, d) % 4 == Facing(d)
  {
    var x := 4 * (p.1 + 1) + Facing(d);
    ByThousand(p.0 + 1, x);
    ByFour(p.1 + 1, Facing(d));
    ByFour(250 * (p.0 + 1) + p.1 + 1, Facing(d));
  }

  /** Dividing `1000 * q + x` by a thousand, for `x` below a thousand, gives back `q` and leaves `x`. */
  lemma ByThousand(q: int, x: int)
    requires 0 <= x < 1000
    ensures (1000 * q + x) / 1000 == q && (1000 * q + x) % 1000 == x
  {
  }

  /** Dividing `4 * q + x` by four, for `x` below four, gives back `q` and leaves `x`. */
  lemma ByFour(q: int, x: int)
    requires 0 <= x < 4
    ensures (4 * q + x) / 4 == q && (4 * q + x) % 4 == x
  {
  }

  /** The password of a path from row 0, column 50, facing right. */
  function Outcome(b: Board, cube: bool, path: seq<Instruction>): Result<int>
  {
    match Run(b, cube, path, (0, 50), Right)
    case Panic => Panic
    case Ok((p, d)) => Ok(Password(p, d))
  }

  /**
   * On the puzzle's map, following a path whose turns are right and left
   * turns on the cube from row 0, column 50 never panics.
   */
  lemma {:induction false} CubeRunTotal(b: Board, path: seq<Instruction>, p: Position, d: Direction)
    requires NetShaped(b) && OnNet(p)
    requires forall i :: 0 <= i < |path| && path[i].Turn? ==> path[i].side in {Right, Left}
    ensures Run(b, true, path, p, d).Ok?
    decreases |path|
  {
    if path != [] {
      match path[0]
      case Forward(count) =>
        CubeWalkTotal(b, p, d, Steps(count));
        var (q, d') := Walk(b, true, p, d, Steps(count)).value;
        CubeRunTotal(b, path[1..], q, d');
      case Turn(side) =>
        assert path[0].side in {Right, Left};
        CubeRunTotal(b, path[1..], p, Turned(side, d).value);
    }
  }

  /** A path followed from an open tile, on the flat map or the cube, ends on an open tile. */
  lemma {:induction false} RunEndsOpen(b: Board, cube: bool, path: seq<Instruction>, p: Position, d: Direction)
    requires Cell(b, p) == Ok(Open) && Run(b, cube, path, p, d).Ok?
    ensures Cell(b, Run(b, cube, path, p, d).value.0) == Ok(Open)
    decreases |path|
  {
    if path != [] {
      match path[0]
      case Forward(count) =>
        WalkEndsOpen(b, cube, p, d, Steps(count));
        var (q, d') := Walk(b, cube, p, d, Steps(count)).value;
        RunEndsOpen(b, cube, path[1..], q, d');
      case Turn(side) =>
        RunEndsOpen(b, cube, path[1..], p, Turned(side, d).value);
    }
  }

  /** On the puzzle's map, the second part's walk from row 0, column 50 gives a password. */
  lemma CubeOutcome(b: Board, path: seq<Instruction>)
    requires NetShaped(b) && Alternates(path)
    ensures Outcome(b, true, path).Ok?
  {
    assert OnNet((0, 50));
    CubeRunTotal(b, path, (0, 50), Right);
  }

  // ------------------------------------------------------------- parsing

  /** `Vec::resize`: cut to `n` tiles or filled up with void tiles. */
  function Resized(row: seq<Tile>, n: nat): (r: seq<Tile>)
    ensures |r| == n
    ensures forall i :: 0 <= i < n ==> r[i] == (if i < |row| then row[i] else Void)
  {
    if |row| >= n then row[..n] else row + seq(n - |row|, _ => Void)
  }

  /** The map: the first `4 * size` lines, each as tiles resized to `4 * size`. */
  function BoardOf(lines: seq<string>, size: nat): (b: Board)
    ensures |b.tiles| == if |lines| < 4 * size then |lines| else 4 * size
    ensures forall i :: 0 <= i < |b.tiles| ==> |b.tiles[i]| == 4 * size
    ensures forall i, j :: 0 <= i < |b.tiles| && 0 <= j < |lines[i]| && j < 4 * size ==> b.tiles[i][j] == TileOf(lines[i][j])
  {
    var n := if |lines| < 4 * size then |lines| else 4 * size;
    Board(seq(n, i requires 0 <= i < n => Resized(seq(|lines[i]|, j requires 0 <= j < |lines[i]| => TileOf(lines[i][j])), 4 * size)), size)
  }

  /** The index of the first `R` or `L`. */
  function FindTurn(s: string): (r: Option<nat>)
    ensures r.Some? ==> r.value < |s| && (s[r.value] == 'R' || s[r.value] == 'L')
    ensures r.Some? ==> forall i :: 0 <= i < r.value ==> s[i] != 'R' && s[i] != 'L'
    ensures r.None? ==> forall i :: 0 <= i < |s| ==> s[i] != 'R' && s[i] != 'L'
  {
    if s == [] then None
    else if s[0] == 'R' || s[0] == 'L' then Some(0)
    else match FindTurn(s[1..])
      case None => None
      case Some(i) => Some(i + 1)
  }

  /** `parse::<i32>()`: a decimal number in the range of a 32-bit signed integer. */
  function ParseCount(s: string): (r: Option<int>)
    ensures r.Some? ==> -0x8000_0000 <= r.value < 0x8000_0000
  {
    match ParseInt(s)
    case Some(n) => if -0x8000_0000 <= n < 0x8000_0000 then Some(n) else None
    case None => None
  }

  /** The path moves and turns in turn, starting and ending with a move. */
  predicate Alternates(path: seq<Instruction>)
  {
    && |path| % 2 == 1
    && (forall i :: 0 <= i < |path| ==> (path[i].Forward? <==> i % 2 == 0))
    && (forall i :: 0 <= i < |path| && path[i].Turn? ==> path[i].side in {Right, Left})
  }

  /**
   * The tokenising loop of `preprocess`: the number before each `R` or
   * `L`, then the turn, and after the last turn the final number. A
   * piece that is not a number panics.
   */
  function Tokens(s: string): (r: Result<seq<Instruction>>)
    ensures r.Ok? ==> Alternates(r.value)
    decreases |s|
  {
    match FindTurn(s)
    case None =>
      (match ParseCount(s)
       case None => Panic
       case Some(n) => Ok([Forward(n)]))
    case Some(e) =>
      (match ParseCount(s[..e])
       case None => Panic
       case Some(n) =>
         match Tokens(s[e + 1..])
         case Panic => Panic
         case Ok(rest) =>
           var turn := Turn(if s[e] == 'R' then Right else Left);
           AlternatesCons(n, turn, rest);
           Ok([Forward(n), turn] + rest))
  }

  /** A move and a turn in front of an alternating path still alternate. */
  lemma AlternatesCons(n: int, turn: Instruction, rest: seq<Instruction>)
    requires Alternates(rest) && turn.Turn? && turn.side in {Right, Left}
    ensures Alternates([Forward(n), turn] + rest)
  {
    var path := [Forward(n), turn] + rest;
    forall i | 2 <= i < |path|
      ensures path[i] == rest[i - 2] && (i % 2 == 0 <==> (i - 2) % 2 == 0)
    {
    }
  }

  // ------------------------------------------------------------- methods

  /** The inner loop of `move_position`, skipping void tiles. */
  method SkipVoidTiles(b: Board, cube: bool, start: Position, dir: Direction) returns (r: Result<(Position, Direction)>)
    ensures r == SkipVoid(b, cube, start, dir, Limit(b))
  {
    var p, d := start, dir;
    var fuel := Limit(b);
    while true
      invariant SkipVoid(b, cube, p, d, fuel) == SkipVoid(b, cube, start, dir, Limit(b))
      decreases fuel
    {
      var tile := Cell(b, p);
      if tile.Panic? {
        return Panic;
      }
      if tile.value != Void {
        return Ok((p, d));
      }
      if fuel == 0 {
        return Panic;
      }
      var next := Next(b, p, d, cube);
      if next.Panic? {
        return Panic;
      }
      p, d := next.value.0, next.value.1;
      fuel := fuel - 1;
    }
  }

  /** `move_position`: step `count` times, returning early in front of a wall. */
  method MovePosition(b: Board, pos: Position, dir: Direction, count: nat, cube: bool) returns (r: Result<(Position, Direction)>)
    ensures r == Walk(b, cube, pos, dir, count)
  {
    var p, d := pos, dir;
    for i := 0 to count
      invariant Walk(b, cube, p, d, count - i) == Walk(b, cube, pos, dir, count)
    {
      var next := Next(b, p, d, cube);
      if next.Panic? {
        return Panic;
      }
      var found := SkipVoidTiles(b, cube, next.value.0, next.value.1);
      if found.Panic? {
        return Panic;
      }
      if Cell(b, found.value.0) == Ok(Wall) {
        return Ok((p, d));
      }
      p, d := found.value.0, found.value.1;
    }
    r := Ok((p, d));
  }

  /** `apply_instructions`: follow the path from row 0, column 50, facing right, and compute the password. */
  method ApplyInstructions(b: Board, path: seq<Instruction>, cube: bool) returns (r: Result<int>)
    ensures r == Outcome(b, cube, path)
  {
    var p: Position, d := (0, 50), Right;
    for i := 0 to |path|
      invariant Run(b, cube, path[i..], p, d) == Run(b, cube, path, (0, 50), Right)
    {
      assert path[i..][1..] == path[i + 1..];
      match path[i]
      case Forward(count) =>
        var moved := MovePosition(b, p, d, Steps(count), cube);
        if moved.Panic? {
          return Panic;
        }
        p, d := moved.value.0, moved.value.1;
      case Turn(side) =>
        var turned := Turned(side, d);
        if turned.Panic? {
          return Panic;
        }
        d := turned.value;
    }
    assert path[|path|..] == [];
    r := Ok(Password(p, d));
  }

  /**
   * The tokenising loop of `preprocess` over the last line of the input;
   * `rest` is the line from the loop's `start` on.
   */
  method Tokenise(line: string) returns (r: Result<seq<Instruction>>)
    ensures r == Tokens(line)
  {
    var path: seq<Instruction> := [];
    var rest := line;
    PrefixedEmpty(Tokens(line));
    var found := FindTurn(rest);
    while found.Some?
      invariant found == FindTurn(rest)
      invariant Tokens(line) == Prefixed(path, Tokens(rest))
      decreases |rest|
    {
      var end := found.value;
      var count := ParseCount(rest[..end]);
      if count.None? {
        return Panic;
      }
      var turn := Turn(if rest[end] == 'R' then Right else Left);
      TokensStep(rest, end, count.value);
      PrefixedCons(path, [Forward(count.value), turn], Tokens(rest[end + 1..]));
      path := path + [Forward(count.value), turn];
      rest := rest[end + 1..];
      found := FindTurn(rest);
    }
    var count := ParseCount(rest);
    if count.None? {
      return Panic;
    }
    r := Ok(path + [Forward(count.value)]);
  }

  /** One round of the tokenising loop: the number before the first turn, the turn, and the tokens after it. */
  lemma TokensStep(s: string, end: nat, n: int)
    requires FindTurn(s) == Some(end) && ParseCount(s[..end]) == Some(n)
    ensures Tokens(s) == Prefixed([Forward(n), Turn(if s[end] == 'R' then Right else Left)], Tokens(s[end + 1..]))
  {
  }

  lemma PrefixedEmpty(r: Result<seq<Instruction>>)
    ensures Prefixed([], r) == r
  {
    if r.Ok? {
      assert [] + r.value == r.value;
    }
  }

  /** A result with `front` put before its instructions. */
  function Prefixed(front: seq<Instruction>, r: Result<seq<Instruction>>): Result<seq<Instruction>>
  {
    match r
    case Panic => Panic
    case Ok(rest) => Ok(front + rest)
  }

  lemma PrefixedCons(front: seq<Instruction>, more: seq<Instruction>, r: Result<seq<Instruction>>)
    ensures Prefixed(front, Prefixed(more, r)) == Prefixed(front + more, r)
  {
    if r.Ok? {
      assert front + (more + r.value) == front + more + r.value;
    }
  }

  /**
   * `preprocess`: the map from the first 200 lines (faces of side 50)
   * and the path from the last line; an empty input panics.
   */
  method Preprocess(lines: seq<string>) returns (r: Result<(Board, seq<Instruction>)>)
    ensures lines == [] ==> r == Panic
    ensures lines != [] ==> r == match Tokens(lines[|lines| - 1])
      case Panic => Panic
      case Ok(path) => Ok((BoardOf(lines, 50), path))
  {
    if lines == [] {
      return Panic;
    }
    var path := Tokenise(lines[|lines| - 1]);
    if path.Panic? {
      return Panic;
    }
    r := Ok((BoardOf(lines, 50), path.value));
  }

  /** `part1`: the password of the walk on the flat, wrapping map. */
  method Part1(lines: seq<string>) returns (r: Result<int>)
    ensures lines == [] ==> r == Panic
    ensures lines != [] ==> r == match Tokens(lines[|lines| - 1])
      case Panic => Panic
      case Ok(path) => Outcome(BoardOf(lines, 50), false, path)
  {
    var parsed := Preprocess(lines);
    if parsed.Panic? {
      return Panic;
    }
    r := ApplyInstructions(parsed.value.0, parsed.value.1, false);
  }

  /** `part2`: check the fourteen glued-edge expectations, then the password of the walk on the cube. */
  method Part2(lines: seq<string>) returns (r: Result<int>)
    ensures lines == [] ==> r == Panic
    ensures lines != [] ==> r == match Tokens(lines[|lines| - 1])
      case Panic => Panic
      case Ok(path) =>
        if CubeExpectations(BoardOf(lines, 50)) then Outcome(BoardOf(lines, 50), true, path) else Panic
  {
    var parsed := Preprocess(lines);
    if parsed.Panic? {
      return Panic;
    }
    var b := parsed.value.0;
    if !CubeExpectations(b) {
      return Panic;
    }
    r := ApplyInstructions(b, parsed.value.1, true);
  }
}
