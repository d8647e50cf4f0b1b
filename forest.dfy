// Treetop tree house (year 2022, day 8): a square grid of tree heights,
// looked at from each of its four sides.

module Forest {
  import opened Common

  /** A square grid of heights 0..9, as `preprocess` produces from digit lines. */
  predicate Grid(data: seq<seq<int>>)
  {
    forall i :: 0 <= i < |data| ==> |data[i]| == |data| && forall j :: 0 <= j < |data| ==> 0 <= data[i][j] <= 9
  }

  /** `preprocess`: one row per line, one height per character; `None` (a panic) on a character that is not a digit. */
  function Preprocess(lines: seq<string>): (r: Option<seq<seq<int>>>)
    ensures r.Some? <==> forall i :: 0 <= i < |lines| ==> AllDigits(lines[i])
    ensures r.Some? ==> |r.value| == |lines| && forall i :: 0 <= i < |lines| ==>
              |r.value[i]| == |lines[i]| && forall j :: 0 <= j < |lines[i]| ==> r.value[i][j] == DigitValue(lines[i][j])
  {
    if forall i :: 0 <= i < |lines| ==> AllDigits(lines[i]) then
      Some(seq(|lines|, i requires 0 <= i < |lines| =>
        seq(|lines[i]|, j requires 0 <= j < |lines[i]| => DigitValue(lines[i][j]) as int)))
    else None
  }

  /** The side the grid is seen from: each view lists rows of the original grid in a different order. */
  datatype Direction = North | East | South | West

  /** `get_original_coordinate`: the cell of the grid at row `i`, column `j` of the view. */
  function Original(d: Direction, n: nat, i: nat, j: nat): (r: (nat, nat))
    requires i < n && j < n
    ensures r.0 < n && r.1 < n
  {
    match d
    case North => (i, j)
    case East => (j, i)
    case South => (i, n - 1 - j)
    case West => (n - 1 - j, i)
  }

  /** The inverse of `Original`: where a cell of the grid appears in the view. */
  function InView(d: Direction, n: nat, a: nat, b: nat): (r: (nat, nat))
    requires a < n && b < n
    ensures r.0 < n && r.1 < n
  {
    match d
    case North => (a, b)
    case East => (b, a)
    case South => (a, n - 1 - b)
    case West => (b, n - 1 - a)
  }

  /** `get_original_coordinate` is a bijection of the square onto itself, with `InView` as its inverse. */
  lemma OriginalBijective(d: Direction, n: nat, i: nat, j: nat)
    requires i < n && j < n
    ensures var c := Original(d, n, i, j); InView(d, n, c.0, c.1) == (i, j)
    ensures var v := InView(d, n, i, j); Original(d, n, v.0, v.1) == (i, j)
  {
  }

  /** `ForestView::get`: the height at row `i`, column `j` of the view. */
  function Get(data: seq<seq<int>>, d: Direction, i: nat, j: nat): (h: int)
    requires Grid(data) && i < |data| && j < |data|
    ensures 0 <= h <= 9
  {
    var n := |data|;
    match d
    case North => data[i][j]
    case East => data[j][i]
    case South => data[i][n - 1 - j]
    case West => data[n - 1 - j][i]
  }

  /** The view shows the tree of the original grid at `get_original_coordinate`. */
  lemma GetIsOriginal(data: seq<seq<int>>, d: Direction, i: nat, j: nat)
    requires Grid(data) && i < |data| && j < |data|
    ensures var c := Original(d, |data|, i, j); Get(data, d, i, j) == data[c.0][c.1]
  {
  }

  // ------------------------------------------------------------ part one

  /** The tree at row `i`, column `j` of the view is taller than every tree before it in its row. */
  predicate Taller(data: seq<seq<int>>, d: Direction, i: nat, j: nat)
    requires Grid(data) && i < |data| && j < |data|
  {
    forall k :: 0 <= k < j ==> Get(data, d, i, k) < Get(data, d, i, j)
  }

  /** A cell of the grid is visible from the side `d`. */
  predicate SeenFrom(data: seq<seq<int>>, d: Direction, p: (int, int))
    requires Grid(data)
  {
    0 <= p.0 < |data| && 0 <= p.1 < |data| && var v := InView(d, |data|, p.0, p.1); Taller(data, d, v.0, v.1)
  }

  /** The tallest tree among the first `col` of row `i` of the view, -1 when there are none. */
  function TallestBefore(data: seq<seq<int>>, d: Direction, i: nat, col: nat): int
    requires Grid(data) && i < |data| && col <= |data|
  {
    if col == 0 then -1 else Max(TallestBefore(data, d, i, col - 1), Get(data, d, i, col - 1))
  }

  /** A tree is taller than the running maximum exactly when it is taller than every tree before it. */
  lemma {:induction false} TallestBeforeMeaning(data: seq<seq<int>>, d: Direction, i: nat, col: nat)
    requires Grid(data) && i < |data| && col < |data|
    ensures Get(data, d, i, col) > TallestBefore(data, d, i, col) <==> Taller(data, d, i, col)
  {
    TallestIsMax(data, d, i, col, Get(data, d, i, col));
  }

  lemma {:induction false} TallestIsMax(data: seq<seq<int>>, d: Direction, i: nat, col: nat, h: int)
    requires Grid(data) && i < |data| && col <= |data| && h >= 0
    ensures h > TallestBefore(data, d, i, col) <==> forall k :: 0 <= k < col ==> Get(data, d, i, k) < h
  {
    if col > 0 {
      TallestIsMax(data, d, i, col - 1, h);
      if forall k :: 0 <= k < col - 1 ==> Get(data, d, i, k) < h {
        if Get(data, d, i, col - 1) < h {
          assert forall k :: 0 <= k < col ==> Get(data, d, i, k) < h;
        }
      }
    }
  }

  /** Row `i`, column `j` of the view has been scanned once the scan reached row `row`, column `col`. */
  predicate Scanned(i: nat, j: nat, row: nat, col: nat)
  {
    i < row || (i == row && j < col)
  }

  /** The tree is taller than the running maximum of its row. */
  predicate AboveBefore(data: seq<seq<int>>, d: Direction, i: nat, j: nat)
    requires Grid(data) && i < |data| && j < |data|
  {
    Get(data, d, i, j) > TallestBefore(data, d, i, j)
  }

  /** The visible cells among those scanned so far, by the running maximum. */
  predicate SeenSoFar(data: seq<seq<int>>, d: Direction, p: (int, int), row: nat, col: nat)
    requires Grid(data)
  {
    0 <= p.0 < |data| && 0 <= p.1 < |data| &&
    var v := InView(d, |data|, p.0, p.1);
    Scanned(v.0, v.1, row, col) && AboveBefore(data, d, v.0, v.1)
  }

  /**
   * `find_visible_from_side`: each row of the view is scanned with a
   * running height that starts at -1; a tree taller than it is recorded
   * (by its original coordinate) and becomes the new running height.
   */
  method VisibleFromSide(data: seq<seq<int>>, d: Direction) returns (visible: set<(int, int)>)
    requires Grid(data)
    ensures forall p :: p in visible <==> SeenFrom(data, d, p)
  {
    var n := |data|;
    visible := {};
    for row := 0 to n
      invariant forall p :: p in visible <==> SeenSoFar(data, d, p, row, 0)
    {
      var visibleHeight := -1;
      for col := 0 to n
        invariant visibleHeight == TallestBefore(data, d, row, col)
        invariant forall p :: p in visible <==> SeenSoFar(data, d, p, row, col)
      {
        var h := Get(data, d, row, col);
        var c := Original(d, n, row, col);
        SeenStep(data, d, visible, row, col);
        if h > visibleHeight {
          visible := visible + {(c.0 as int, c.1 as int)};
          visibleHeight := h;
        }
      }
      forall p | SeenSoFar(data, d, p, row, n) ensures SeenSoFar(data, d, p, row + 1, 0) {
      }
      forall p | SeenSoFar(data, d, p, row + 1, 0) ensures SeenSoFar(data, d, p, row, n) {
      }
    }
    forall p ensures SeenSoFar(data, d, p, n, 0) <==> SeenFrom(data, d, p) {
      if 0 <= p.0 < n && 0 <= p.1 < n {
        var v := InView(d, n, p.0, p.1);
        TallestBeforeMeaning(data, d, v.0, v.1);
      }
    }
  }

  /** Scanning one more tree adds its original cell exactly when it is taller than the running maximum. */
  lemma SeenStep(data: seq<seq<int>>, d: Direction, visible: set<(int, int)>, row: nat, col: nat)
    requires Grid(data) && row < |data| && col < |data|
    requires forall p :: p in visible <==> SeenSoFar(data, d, p, row, col)
    ensures var c := Original(d, |data|, row, col);
            var next := if AboveBefore(data, d, row, col) then visible + {(c.0 as int, c.1 as int)} else visible;
            forall p :: p in next <==> SeenSoFar(data, d, p, row, col + 1)
  {
    var n := |data|;
    var c := Original(d, n, row, col);
    OriginalBijective(d, n, row, col);
    var next := if AboveBefore(data, d, row, col) then visible + {(c.0 as int, c.1 as int)} else visible;
    forall p ensures p in next <==> SeenSoFar(data, d, p, row, col + 1) {
      if 0 <= p.0 < n && 0 <= p.1 < n {
        OriginalBijective(d, n, p.0, p.1);
        if InView(d, n, p.0, p.1) == (row, col) {
          assert p == (c.0 as int, c.1 as int);
        } else {
          assert SeenSoFar(data, d, p, row, col + 1) == SeenSoFar(data, d, p, row, col);
        }
      }
    }
  }

  /** A cell visible from at least one side. */
  predicate Visible(data: seq<seq<int>>, p: (int, int))
    requires Grid(data)
  {
    SeenFrom(data, North, p) || SeenFrom(data, East, p) || SeenFrom(data, South, p) || SeenFrom(data, West, p)
  }

  /** The visible cells. */
  function VisibleTrees(data: seq<seq<int>>): set<(int, int)>
    requires Grid(data)
  {
    set a, b | 0 <= a < |data| && 0 <= b < |data| && Visible(data, (a, b)) :: (a, b)
  }

  /** Every tree on the border is visible: it is the first of its row in one of the views. */
  lemma BorderVisible(data: seq<seq<int>>, a: nat, b: nat)
    requires Grid(data) && a < |data| && b < |data|
    requires a == 0 || b == 0 || a == |data| - 1 || b == |data| - 1
    ensures (a, b) in VisibleTrees(data)
  {
    var n := |data|;
    if b == 0 {
      assert SeenFrom(data, North, (a, b));
    } else if a == 0 {
      assert SeenFrom(data, East, (a, b));
    } else if b == n - 1 {
      assert SeenFrom(data, South, (a, b));
    } else {
      assert SeenFrom(data, West, (a, b));
    }
  }

  /** `part1`: the number of trees visible from at least one side. */
  method Part1(data: seq<seq<int>>) returns (count: nat)
    requires Grid(data)
    ensures count == |VisibleTrees(data)|
  {
    var north := VisibleFromSide(data, North);
    var east := VisibleFromSide(data, East);
    var south := VisibleFromSide(data, South);
    var west := VisibleFromSide(data, West);
    var visible := north + east + south + west;
    forall p ensures p in visible <==> p in VisibleTrees(data) {
      VisibleTreesMeaning(data, p);
    }
    assert visible == VisibleTrees(data);
    count := |visible|;
  }

  lemma VisibleTreesMeaning(data: seq<seq<int>>, p: (int, int))
    requires Grid(data)
    ensures p in VisibleTrees(data) <==> Visible(data, p)
  {
    if Visible(data, p) {
      assert Visible(data, (p.0, p.1));
    }
  }

  // ------------------------------------------------------------ part two

  /**
   * How far the tree at row `i`, column `j` of the view sees back along
   * its row: the distance to the nearest tree at column `k` in `1..j`
   * scanned down from `k` that is at least as tall, or `j` (the edge) when
   * there is none.
   */
  function Sight(data: seq<seq<int>>, d: Direction, i: nat, j: nat, k: nat): (r: nat)
    requires Grid(data) && i < |data| && j < |data| && k < j
    ensures 1 <= r <= j
  {
    if k == 0 then j
    else if Get(data, d, i, k) >= Get(data, d, i, j) then j - k
    else Sight(data, d, i, j, k - 1)
  }

  /** The view distance: every tree strictly between is shorter, and the tree at that distance (unless it is the edge) is at least as tall. */
  lemma {:induction false} SightMeaning(data: seq<seq<int>>, d: Direction, i: nat, j: nat, k: nat)
    requires Grid(data) && i < |data| && j < |data| && k < j
    requires forall m :: k < m < j ==> Get(data, d, i, m) < Get(data, d, i, j)
    ensures forall m :: j - Sight(data, d, i, j, k) < m < j ==> Get(data, d, i, m) < Get(data, d, i, j)
    ensures Sight(data, d, i, j, k) < j ==> Get(data, d, i, j - Sight(data, d, i, j, k)) >= Get(data, d, i, j)
  {
    if k > 0 && Get(data, d, i, k) < Get(data, d, i, j) {
      SightMeaning(data, d, i, j, k - 1);
    }
  }

  /** The factor a view contributes to a cell's scenic score: 1 on the view's first and last row and column, its view distance inside. */
  function Factor(data: seq<seq<int>>, d: Direction, a: nat, b: nat): nat
    requires Grid(data) && a < |data| && b < |data|
  {
    var n := |data|;
    var v := InView(d, n, a, b);
    if 1 <= v.0 < n - 1 && 1 <= v.1 < n - 1 then Sight(data, d, v.0, v.1, v.1 - 1) else 1
  }

  /** The column of the last tree of height `h` among columns `1..col` of row `i` of the view, or -1. */
  function LastOfHeight(data: seq<seq<int>>, d: Direction, i: nat, col: nat, h: int): (r: int)
    requires Grid(data) && i < |data| && col <= |data|
    ensures -1 <= r < col && r != 0
  {
    if col <= 1 then -1
    else if Get(data, d, i, col - 1) == h then col - 1
    else LastOfHeight(data, d, i, col - 1, h)
  }

  /** The latest of `LastOfHeight` over the heights `lo..hi`. */
  function LatestOf(data: seq<seq<int>>, d: Direction, i: nat, col: nat, lo: int, hi: int): (r: int)
    requires Grid(data) && i < |data| && col <= |data|
    ensures -1 <= r < col
    decreases hi - lo
  {
    if hi <= lo then -1 else Max(LatestOf(data, d, i, col, lo, hi - 1), LastOfHeight(data, d, i, col, hi - 1))
  }

  /** The latest column in `1..col` holding a tree of height at least `h`, or -1. */
  function LastAtLeast(data: seq<seq<int>>, d: Direction, i: nat, col: nat, h: int): (r: int)
    requires Grid(data) && i < |data| && col <= |data|
  {
    if col <= 1 then -1
    else if Get(data, d, i, col - 1) >= h then col - 1
    else LastAtLeast(data, d, i, col - 1, h)
  }

  /** The latest column of any of the heights `lo..9` is the latest column with a tree at least `lo` tall. */
  lemma {:induction false} LatestIsLastAtLeast(data: seq<seq<int>>, d: Direction, i: nat, col: nat, lo: int)
    requires Grid(data) && i < |data| && col <= |data| && 0 <= lo <= 10
    ensures LatestOf(data, d, i, col, lo, 10) == LastAtLeast(data, d, i, col, lo)
    decreases col
  {
    if col > 1 {
      LatestIsLastAtLeast(data, d, i, col - 1, lo);
      LatestStep(data, d, i, col, lo, 10);
    } else {
      LatestNone(data, d, i, col, lo, 10);
    }
  }

  lemma {:induction false} LatestNone(data: seq<seq<int>>, d: Direction, i: nat, col: nat, lo: int, hi: int)
    requires Grid(data) && i < |data| && col <= 1
    ensures LatestOf(data, d, i, col, lo, hi) == -1
    decreases hi - lo
  {
    if hi > lo {
      LatestNone(data, d, i, col, lo, hi - 1);
    }
  }

  /** One more column: the latest over `lo..hi` moves to it exactly when its height is in `lo..hi`. */
  lemma {:induction false} LatestStep(data: seq<seq<int>>, d: Direction, i: nat, col: nat, lo: int, hi: int)
    requires Grid(data) && i < |data| && 1 < col <= |data|
    ensures LatestOf(data, d, i, col, lo, hi) ==
              if lo <= Get(data, d, i, col - 1) < hi then col - 1 else LatestOf(data, d, i, col - 1, lo, hi)
    decreases hi - lo
  {
    if hi > lo {
      LatestStep(data, d, i, col, lo, hi - 1);
    }
  }

  /** The sight computed from the latest column at least as tall. */
  lemma {:induction false} SightFromLast(data: seq<seq<int>>, d: Direction, i: nat, j: nat, k: nat)
    requires Grid(data) && i < |data| && j < |data| && k < j
    ensures var last := LastAtLeast(data, d, i, k + 1, Get(data, d, i, j));
            Sight(data, d, i, j, k) == if last < 0 then j else j - last
  {
    if k > 0 {
      SightFromLast(data, d, i, j, k - 1);
    }
  }

  /** The distance `col - last`, or `col` when `last` is -1. */
  function Distance(col: nat, last: int): int
  {
    if last < 0 then col else col - last
  }

  /**
   * One row of `compute_scenic`'s inner loop: the table `last` of the last
   * column of each height gives the distance to the nearest tree at least
   * as tall.
   */
  method ViewDistance(data: seq<seq<int>>, d: Direction, row: nat, col: nat, last: array<int>) returns (distance: nat)
    requires Grid(data) && row < |data| && 1 <= col < |data| && last.Length == 10
    requires forall h :: 0 <= h < 10 ==> last[h] == LastOfHeight(data, d, row, col, h)
    ensures distance == Sight(data, d, row, col, col - 1)
  {
    var current := Get(data, d, row, col);
    distance := col;
    for height := current to 10
      invariant distance == Distance(col, LatestOf(data, d, row, col, current, height))
    {
      if last[height] < 0 {
        continue;
      }
      distance := Min(distance, col - last[height]);
    }
    LatestIsLastAtLeast(data, d, row, col, current);
    SightFromLast(data, d, row, col, col - 1);
  }

  /** The cells of the view handled once the scan reached row `row`, column `col`: inside the border only. */
  predicate Handled(n: nat, v: (nat, nat), row: nat, col: nat)
  {
    1 <= v.0 < n - 1 && 1 <= v.1 < n - 1 && Scanned(v.0, v.1, row, col)
  }

  /** What the scan has multiplied a cell's score by so far. */
  function Weight(data: seq<seq<int>>, d: Direction, a: nat, b: nat, row: nat, col: nat): nat
    requires Grid(data) && a < |data| && b < |data|
  {
    if Handled(|data|, InView(d, |data|, a, b), row, col) then Factor(data, d, a, b) else 1
  }

  /** A square table of scores of the grid's size. */
  predicate Table(scenic: seq<seq<int>>, n: nat)
  {
    |scenic| == n && forall a :: 0 <= a < n ==> |scenic[a]| == n
  }

  /** Every score is its value before the scan times the weight so far. */
  predicate Progress(data: seq<seq<int>>, d: Direction, before: seq<seq<int>>, scenic: seq<seq<int>>, row: nat, col: nat)
    requires Grid(data) && Table(before, |data|) && Table(scenic, |data|)
  {
    forall a, b :: 0 <= a < |data| && 0 <= b < |data| ==> scenic[a][b] == before[a][b] * Weight(data, d, a, b, row, col)
  }

  /** Multiplying the score of the cell at the scan position by its view distance advances the scan by one column. */
  lemma ProgressStep(data: seq<seq<int>>, d: Direction, before: seq<seq<int>>, scenic: seq<seq<int>>, row: nat, col: nat, distance: nat)
    requires Grid(data) && Table(before, |data|) && Table(scenic, |data|)
    requires 1 <= row < |data| - 1 && 1 <= col < |data| - 1 && distance == Sight(data, d, row, col, col - 1)
    requires Progress(data, d, before, scenic, row, col)
    ensures var next := Scale(scenic, Original(d, |data|, row, col), distance);
            Table(next, |data|) && Progress(data, d, before, next, row, col + 1)
  {
    var n := |data|;
    var c := Original(d, n, row, col);
    OriginalBijective(d, n, row, col);
    var next := Scale(scenic, c, distance);
    forall a, b | 0 <= a < n && 0 <= b < n ensures next[a][b] == before[a][b] * Weight(data, d, a, b, row, col + 1) {
      WeightStep(data, d, a, b, row, col);
      var w := Weight(data, d, a, b, row, col);
      assert scenic[a][b] == before[a][b] * w;
      if a == c.0 && b == c.1 {
        assert Original(d, n, row, col) == (a, b);
        assert w == 1;
        TimesOne(before[a][b], w, scenic[a][b]);
        assert Weight(data, d, a, b, row, col + 1) == distance;
        assert next[a][b] == before[a][b] * distance;
      } else {
        assert Original(d, n, row, col) != (a, b);
        assert Weight(data, d, a, b, row, col + 1) == w;
        if a == c.0 {
          assert next[a] == scenic[a][c.1 := scenic[a][c.1] * distance];
        } else {
          assert next[a] == scenic[a];
        }
        assert next[a][b] == scenic[a][b];
      }
    }
  }

  /** Only the cell at the scan position changes weight when the scan advances by one column, from 1 to its view distance. */
  lemma WeightStep(data: seq<seq<int>>, d: Direction, a: nat, b: nat, row: nat, col: nat)
    requires Grid(data) && a < |data| && b < |data| && 1 <= row < |data| - 1 && 1 <= col < |data| - 1
    ensures Original(d, |data|, row, col) == (a, b) ==>
              Weight(data, d, a, b, row, col) == 1 && Weight(data, d, a, b, row, col + 1) == Sight(data, d, row, col, col - 1)
    ensures Original(d, |data|, row, col) != (a, b) ==> Weight(data, d, a, b, row, col + 1) == Weight(data, d, a, b, row, col)
  {
    var n := |data|;
    var v := InView(d, n, a, b);
    OriginalBijective(d, n, a, b);
    OriginalBijective(d, n, row, col);
    if Original(d, n, row, col) == (a, b) {
      assert v == (row, col);
    } else {
      assert v != (row, col);
      assert Scanned(v.0, v.1, row, col + 1) == Scanned(v.0, v.1, row, col);
    }
  }

  lemma TimesOne(x: int, w: int, y: int)
    requires y == x * w && w == 1
    ensures y == x
  {
  }

  /** Moving from the end of one row of the view to the start of the next changes no weight. */
  lemma ProgressNextRow(data: seq<seq<int>>, d: Direction, before: seq<seq<int>>, scenic: seq<seq<int>>, row: nat)
    requires Grid(data) && Table(before, |data|) && Table(scenic, |data|) && |data| >= 2
    requires Progress(data, d, before, scenic, row, |data| - 1)
    ensures Progress(data, d, before, scenic, row + 1, 1)
  {
    var n, end, next := |data|, |data| - 1, row + 1;
    forall a, b | 0 <= a < n && 0 <= b < n ensures Weight(data, d, a, b, row, end) == Weight(data, d, a, b, next, 1) {
    }
  }

  /**
   * `compute_scenic`: multiplies the score of every cell inside the view's
   * border by its view distance in that view; the border keeps its score.
   */
  method ComputeScenic(scenic: seq<seq<int>>, data: seq<seq<int>>, d: Direction) returns (next: seq<seq<int>>)
    requires Grid(data) && |data| >= 1 && Table(scenic, |data|)
    ensures Table(next, |data|)
    ensures forall a, b :: 0 <= a < |data| && 0 <= b < |data| ==> next[a][b] == scenic[a][b] * Factor(data, d, a, b)
  {
    var n := |data|;
    next := scenic;
    if n == 1 {
      return;
    }
    for row := 1 to n - 1
      invariant Table(next, n) && Progress(data, d, scenic, next, row, 1)
    {
      next := ScenicRow(data, d, scenic, next, row);
      ProgressNextRow(data, d, scenic, next, row);
    }
    ProgressDone(data, d, scenic, next);
  }

  /** One row of `compute_scenic`, with a fresh table of the last column of each height. */
  method ScenicRow(data: seq<seq<int>>, d: Direction, before: seq<seq<int>>, scenic: seq<seq<int>>, row: nat)
    returns (next: seq<seq<int>>)
    requires Grid(data) && Table(before, |data|) && Table(scenic, |data|) && 1 <= row < |data| - 1
    requires Progress(data, d, before, scenic, row, 1)
    ensures Table(next, |data|) && Progress(data, d, before, next, row, |data| - 1)
  {
    var n := |data|;
    next := scenic;
    var last := new int[10](_ => -1);
    for col := 1 to n - 1
      invariant forall h :: 0 <= h < 10 ==> last[h] == LastOfHeight(data, d, row, col, h)
      invariant Table(next, n) && Progress(data, d, before, next, row, col)
    {
      var distance := ViewDistance(data, d, row, col, last);
      Remember(data, d, row, col, last);
      ProgressStep(data, d, before, next, row, col, distance);
      next := Scale(next, Original(d, n, row, col), distance);
    }
  }

  /** The score of cell `c` multiplied by `distance`. */
  function Scale(scenic: seq<seq<int>>, c: (nat, nat), distance: nat): (r: seq<seq<int>>)
    requires c.0 < |scenic| && c.1 < |scenic[c.0]|
    ensures |r| == |scenic| && forall a :: 0 <= a < |r| && a != c.0 ==> r[a] == scenic[a]
    ensures r[c.0] == scenic[c.0][c.1 := scenic[c.0][c.1] * distance]
  {
    scenic[c.0 := scenic[c.0][c.1 := scenic[c.0][c.1] * distance]]
  }

  /** The table of last columns takes in column `col`. */
  method Remember(data: seq<seq<int>>, d: Direction, row: nat, col: nat, last: array<int>)
    requires Grid(data) && row < |data| && 1 <= col < |data| && last.Length == 10
    requires forall h :: 0 <= h < 10 ==> last[h] == LastOfHeight(data, d, row, col, h)
    modifies last
    ensures forall h :: 0 <= h < 10 ==> last[h] == LastOfHeight(data, d, row, col + 1, h)
  {
    last[Get(data, d, row, col)] := col;
  }

  /** After the last row every cell has its view's factor. */
  lemma ProgressDone(data: seq<seq<int>>, d: Direction, before: seq<seq<int>>, scenic: seq<seq<int>>)
    requires Grid(data) && |data| >= 2 && Table(before, |data|) && Table(scenic, |data|)
    requires Progress(data, d, before, scenic, |data| - 1, 1)
    ensures forall a, b :: 0 <= a < |data| && 0 <= b < |data| ==> scenic[a][b] == before[a][b] * Factor(data, d, a, b)
  {
    var n, end := |data|, |data| - 1;
    forall a, b | 0 <= a < n && 0 <= b < n ensures Weight(data, d, a, b, end, 1) == Factor(data, d, a, b) {
    }
  }

  /** A cell's scenic score: the product of the four views' factors. */
  function Score(data: seq<seq<int>>, a: nat, b: nat): int
    requires Grid(data) && a < |data| && b < |data|
  {
    Factor(data, North, a, b) * Factor(data, East, a, b) * Factor(data, South, a, b) * Factor(data, West, a, b)
  }

  /** The four views applied to a table of 1s give every cell its score. */
  method Scores(data: seq<seq<int>>) returns (scenic: seq<seq<int>>)
    requires Grid(data) && |data| >= 1
    ensures Table(scenic, |data|)
    ensures forall a, b :: 0 <= a < |data| && 0 <= b < |data| ==> scenic[a][b] == Score(data, a, b)
  {
    var n := |data|;
    scenic := seq(n, _ => seq(n, _ => 1));
    scenic := ComputeScenic(scenic, data, North);
    scenic := ComputeScenic(scenic, data, East);
    scenic := ComputeScenic(scenic, data, South);
    scenic := ComputeScenic(scenic, data, West);
  }

  /** `part2`: the highest scenic score; `None` (a panic) on an empty grid. */
  method Part2(data: seq<seq<int>>) returns (r: Option<int>)
    requires Grid(data)
    ensures r.Some? <==> |data| >= 1
    ensures r.Some? ==> exists a, b :: 0 <= a < |data| && 0 <= b < |data| && r.value == Score(data, a, b)
    ensures r.Some? ==> forall a, b :: 0 <= a < |data| && 0 <= b < |data| ==> Score(data, a, b) <= r.value
  {
    var n := |data|;
    if n == 0 {
      return None;
    }
    var scenic := Scores(data);
    var best, at := Highest(scenic, n);
    assert best == Score(data, at.0, at.1);
    return Some(best);
  }

  /** The maximum over the flattened table in `part2`: the highest entry of a square table, and where it is. */
  method Highest(scenic: seq<seq<int>>, n: nat) returns (best: int, ghost at: (nat, nat))
    requires Table(scenic, n) && n >= 1
    ensures at.0 < n && at.1 < n && best == scenic[at.0][at.1]
    ensures forall a, b :: 0 <= a < n && 0 <= b < n ==> scenic[a][b] <= best
  {
    best := scenic[0][0];
    at := (0, 0);
    for a := 0 to n
      invariant 0 <= at.0 < n && 0 <= at.1 < n && best == scenic[at.0][at.1]
      invariant forall a', b' :: 0 <= a' < a && 0 <= b' < n ==> scenic[a'][b'] <= best
    {
      for b := 0 to n
        invariant 0 <= at.0 < n && 0 <= at.1 < n && best == scenic[at.0][at.1]
        invariant forall a', b' :: 0 <= a' < a && 0 <= b' < n ==> scenic[a'][b'] <= best
        invariant forall b' :: 0 <= b' < b ==> scenic[a][b'] <= best
      {
        if scenic[a][b] > best {
          best := scenic[a][b];
          at := (a, b);
        }
      }
    }
  }
}
