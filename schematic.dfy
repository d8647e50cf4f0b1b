// Gear ratios (year 2023, day 3): an engine schematic is a grid of
// characters in which runs of digits are part numbers and any other
// character except '.' is a symbol.

module Schematic {
  import opened Common

  /** A recorded number: its row, its half-open column range `start..end` and its decimal value. */
  datatype NumberInfo = NumberInfo(row: int, start: int, end: int, value: nat)

  /** Every character of `line` in `s..e` is a digit. */
  predicate DigitsIn(line: string, s: nat, e: nat)
  {
    s <= e <= |line| && forall i :: s <= i < e ==> IsDigit(line[i])
  }

  /** The decimal value of the digits of `line` in `s..e`, most significant first. */
  function RunValue(line: string, s: nat, e: nat): nat
    requires DigitsIn(line, s, e)
    decreases e - s
  {
    if e == s then 0 else 10 * RunValue(line, s, e - 1) + DigitValue(line[e - 1])
  }

  /** `start..end` is a maximal run of digits of `line`: non-empty, all digits, with no digit on either side. */
  predicate MaximalRun(line: string, start: nat, end: nat)
  {
    start < end && DigitsIn(line, start, end) &&
    (start == 0 || !IsDigit(line[start - 1])) && (end == |line| || !IsDigit(line[end]))
  }

  /** `info` records a maximal run of row `row`, whose characters are `line`, with the run's value. */
  predicate RunOf(line: string, row: int, info: NumberInfo)
  {
    info.row == row && 0 <= info.start <= info.end && MaximalRun(line, info.start, info.end) &&
    info.value == RunValue(line, info.start, info.end)
  }

  /** Some recorded run covers column `p` of row `row`. */
  predicate Covered(infos: seq<NumberInfo>, row: int, p: int)
  {
    exists i :: 0 <= i < |infos| && infos[i].row == row && infos[i].start <= p < infos[i].end
  }

  /** Appending a record keeps every covered column covered and covers the new record's columns. */
  lemma CoveredGrow(infos: seq<NumberInfo>, x: NumberInfo)
    ensures forall row, p :: Covered(infos, row, p) ==> Covered(infos + [x], row, p)
    ensures forall p :: x.start <= p < x.end ==> Covered(infos + [x], x.row, p)
  {
    var t := infos + [x];
    forall row, p | Covered(infos, row, p) ensures Covered(t, row, p) {
      var i :| 0 <= i < |infos| && infos[i].row == row && infos[i].start <= p < infos[i].end;
      assert t[i] == infos[i];
    }
    assert t[|infos|] == x;
  }

  /** Consecutive records of one row are apart and left to right. */
  predicate Apart(infos: seq<NumberInfo>)
  {
    forall i :: 0 <= i < |infos| - 1 ==> infos[i].end < infos[i + 1].start
  }

  lemma ApartSnoc(infos: seq<NumberInfo>, x: NumberInfo)
    requires Apart(infos) && (infos == [] || infos[|infos| - 1].end < x.start)
    ensures Apart(infos + [x])
  {
    var t := infos + [x];
    forall i | 0 <= i < |t| - 1 ensures t[i].end < t[i + 1].start {
      if i < |infos| - 1 {
        assert t[i] == infos[i] && t[i + 1] == infos[i + 1];
      }
    }
  }

  /** A run of digits from `s` to a non-digit (or the end of the row) is maximal. */
  lemma RunEnds(line: string, row: int, s: nat, e: nat, number: nat)
    requires s < e && DigitsIn(line, s, e) && (s == 0 || !IsDigit(line[s - 1]))
    requires e == |line| || !IsDigit(line[e])
    requires number == RunValue(line, s, e)
    ensures RunOf(line, row, NumberInfo(row, s, e, number))
  {
  }

  /** Every record is a maximal run of row `row`. */
  predicate RowRuns(line: string, row: int, infos: seq<NumberInfo>)
  {
    forall i :: 0 <= i < |infos| ==> RunOf(line, row, infos[i])
  }

  /** Every digit of the row left of `upto` lies in a record. */
  predicate RowCovered(line: string, row: int, infos: seq<NumberInfo>, upto: int)
  {
    forall p :: 0 <= p < upto && p < |line| && IsDigit(line[p]) ==> Covered(infos, row, p)
  }

  /** Every record ends at or before `col`. */
  predicate EndsBy(infos: seq<NumberInfo>, col: int)
  {
    forall i :: 0 <= i < |infos| ==> infos[i].end <= col
  }

  /**
   * The state of the scan of a row after the columns before `col`: the
   * records so far are maximal runs, apart, covering every digit before the
   * current run, and `start`, `end` and `number` describe the current run.
   */
  predicate ScanInv(line: string, row: int, col: nat, infos: seq<NumberInfo>, start: Option<nat>, end: Option<nat>, number: nat)
  {
    col <= |line| &&
    (start.None? ==> end.None? && number == 0 && (col == 0 || !IsDigit(line[col - 1]))) &&
    (start.Some? ==> (start.value < col && end == Some(col - 1) && DigitsIn(line, start.value, col) &&
      (start.value == 0 || !IsDigit(line[start.value - 1])) && number == RunValue(line, start.value, col))) &&
    RowRuns(line, row, infos) && EndsBy(infos, col) && Apart(infos) &&
    (start.Some? && infos != [] ==> infos[|infos| - 1].end < start.value) &&
    RowCovered(line, row, infos, if start.None? then col else start.value)
  }

  /** A digit starts or extends the current run. */
  lemma DigitStep(line: string, row: int, col: nat, infos: seq<NumberInfo>, start: Option<nat>, end: Option<nat>, number: nat)
    requires ScanInv(line, row, col, infos, start, end, number) && col < |line| && IsDigit(line[col])
    ensures ScanInv(line, row, col + 1, infos, Some(if start.None? then col else start.value), Some(col), 10 * number + DigitValue(line[col]))
  {
    var s := if start.None? then col else start.value;
    assert DigitsIn(line, s, col + 1);
    assert RunValue(line, s, col + 1) == 10 * RunValue(line, s, col) + DigitValue(line[col]);
  }

  /** Appending a maximal run of the row keeps the records maximal runs, apart and covering. */
  lemma RowSnoc(line: string, row: int, infos: seq<NumberInfo>, x: NumberInfo)
    requires RowRuns(line, row, infos) && Apart(infos) && RowCovered(line, row, infos, x.start)
    requires RunOf(line, row, x) && (infos == [] || infos[|infos| - 1].end < x.start)
    ensures RowRuns(line, row, infos + [x]) && Apart(infos + [x]) && RowCovered(line, row, infos + [x], x.end + 1)
  {
    var t := infos + [x];
    assert t[|infos|] == x;
    forall i | 0 <= i < |t| ensures RunOf(line, row, t[i]) {
      if i < |infos| {
        assert t[i] == infos[i];
      }
    }
    ApartSnoc(infos, x);
    CoveredGrow(infos, x);
  }

  /** A non-digit outside a run leaves the records as they are. */
  lemma SkipStep(line: string, row: int, col: nat, infos: seq<NumberInfo>)
    requires ScanInv(line, row, col, infos, None, None, 0) && col < |line| && !IsDigit(line[col])
    ensures ScanInv(line, row, col + 1, infos, None, None, 0)
  {
  }

  /** A non-digit after a run records the run. */
  lemma PushStep(line: string, row: int, col: nat, infos: seq<NumberInfo>, start: Option<nat>, end: Option<nat>, number: nat)
    requires ScanInv(line, row, col, infos, start, end, number) && start.Some?
    requires col == |line| || !IsDigit(line[col])
    ensures end.Some? && col == end.value + 1
    ensures var t := infos + [NumberInfo(row, start.value, end.value + 1, number)];
      RowRuns(line, row, t) && Apart(t) && RowCovered(line, row, t, col + 1) && EndsBy(t, col)
  {
    var x := NumberInfo(row, start.value, end.value + 1, number);
    RunEnds(line, row, start.value, col, number);
    RowSnoc(line, row, infos, x);
  }

  /**
   * The number scan of `from_str` over one row: every maximal run of
   * digits, left to right, including a run that reaches the end of the row.
   */
  method ScanRow(line: string, row: int) returns (infos: seq<NumberInfo>)
    ensures RowRuns(line, row, infos) && Apart(infos) && RowCovered(line, row, infos, |line|)
  {
    infos := [];
    var start: Option<nat> := None;
    var end: Option<nat> := None;
    var number: nat := 0;
    for col := 0 to |line|
      invariant ScanInv(line, row, col, infos, start, end, number)
    {
      if IsDigit(line[col]) {
        DigitStep(line, row, col, infos, start, end, number);
        start := Some(if start.None? then col else start.value);
        end := Some(col);
        number := 10 * number + DigitValue(line[col]);
      } else if start.Some? {
        PushStep(line, row, col, infos, start, end, number);
        infos := infos + [NumberInfo(row, start.value, end.value + 1, number)];
        start := None;
        end := None;
        number := 0;
      } else {
        SkipStep(line, row, col, infos);
      }
    }
    ScanDone(line, row, infos, start, end, number);
    if start.Some? {
      infos := infos + [NumberInfo(row, start.value, end.value + 1, number)];
    }
  }

  /** At the end of the row, a run still open is recorded and the records cover the whole row. */
  lemma ScanDone(line: string, row: int, infos: seq<NumberInfo>, start: Option<nat>, end: Option<nat>, number: nat)
    requires ScanInv(line, row, |line|, infos, start, end, number)
    ensures start.Some? ==> end.Some?
    ensures var t := if start.Some? && end.Some? then infos + [NumberInfo(row, start.value, end.value + 1, number)] else infos;
      RowRuns(line, row, t) && Apart(t) && RowCovered(line, row, t, |line|)
  {
    if start.Some? {
      PushStep(line, row, |line|, infos, start, end, number);
    }
  }

  /** `a` is recorded before `b`: on an earlier row, or earlier and apart on the same row. */
  predicate Before(a: NumberInfo, b: NumberInfo)
  {
    a.row < b.row || (a.row == b.row && a.end < b.start)
  }

  /** Every record is a maximal run of one of the rows above `r`. */
  predicate GridRuns(grid: seq<string>, infos: seq<NumberInfo>, r: int)
  {
    r <= |grid| && forall i :: 0 <= i < |infos| ==> 0 <= infos[i].row < r && RunOf(grid[infos[i].row], infos[i].row, infos[i])
  }

  /** Consecutive records are in reading order. */
  predicate Ordered(infos: seq<NumberInfo>)
  {
    forall i :: 0 <= i < |infos| - 1 ==> Before(infos[i], infos[i + 1])
  }

  /** Every digit of the rows above `r` lies in a record. */
  predicate GridCovered(grid: seq<string>, infos: seq<NumberInfo>, r: int)
  {
    forall r', p :: 0 <= r' < r && r' < |grid| && 0 <= p < |grid[r']| && IsDigit(grid[r'][p]) ==> Covered(infos, r', p)
  }

  /** `infos` lists every maximal run of every row of the grid, row by row and left to right. */
  predicate Scanned(grid: seq<string>, infos: seq<NumberInfo>)
  {
    GridRuns(grid, infos, |grid|) && Ordered(infos) && GridCovered(grid, infos, |grid|)
  }

  /** Appending the runs of row `r` extends the scan by one row. */
  lemma GridAppend(grid: seq<string>, infos: seq<NumberInfo>, row: seq<NumberInfo>, r: nat)
    requires r < |grid| && GridRuns(grid, infos, r) && Ordered(infos) && GridCovered(grid, infos, r)
    requires RowRuns(grid[r], r, row) && Apart(row) && RowCovered(grid[r], r, row, |grid[r]|)
    ensures GridRuns(grid, infos + row, r + 1) && Ordered(infos + row) && GridCovered(grid, infos + row, r + 1)
  {
    var t := infos + row;
    forall i | 0 <= i < |t| ensures 0 <= t[i].row < r + 1 && RunOf(grid[t[i].row], t[i].row, t[i]) {
      if i >= |infos| {
        assert t[i] == row[i - |infos|];
      }
    }
    forall i | 0 <= i < |t| - 1 ensures Before(t[i], t[i + 1]) {
      if i >= |infos| {
        assert t[i] == row[i - |infos|] && t[i + 1] == row[i + 1 - |infos|];
      } else if i + 1 == |infos| {
        assert t[i + 1] == row[0];
      }
    }
    forall r', p | 0 <= r' < r + 1 && r' < |grid| && 0 <= p < |grid[r']| && IsDigit(grid[r'][p]) ensures Covered(t, r', p) {
      CoveredAppend(infos, row, r', p);
    }
  }

  /** A column covered by either part is covered by their concatenation. */
  lemma CoveredAppend(a: seq<NumberInfo>, b: seq<NumberInfo>, row: int, p: int)
    requires Covered(a, row, p) || Covered(b, row, p)
    ensures Covered(a + b, row, p)
  {
    if Covered(a, row, p) {
      var i :| 0 <= i < |a| && a[i].row == row && a[i].start <= p < a[i].end;
      assert (a + b)[i] == a[i];
    } else {
      var i :| 0 <= i < |b| && b[i].row == row && b[i].start <= p < b[i].end;
      assert (a + b)[|a| + i] == b[i];
    }
  }

  /** `from_str`'s numbers: every maximal run of every row, row by row and left to right. */
  method FromStr(grid: seq<string>) returns (infos: seq<NumberInfo>)
    ensures Scanned(grid, infos)
  {
    infos := [];
    for r := 0 to |grid|
      invariant GridRuns(grid, infos, r) && Ordered(infos) && GridCovered(grid, infos, r)
    {
      var row := ScanRow(grid[r], r);
      GridAppend(grid, infos, row, r);
      infos := infos + row;
    }
  }

  /** `get`: the character at a position, and '.' outside the grid or at negative coordinates. */
  function Get(grid: seq<string>, row: int, col: int): (r: char)
    ensures 0 <= row < |grid| && 0 <= col < |grid[row]| ==> r == grid[row][col]
    ensures !(0 <= row < |grid| && 0 <= col < |grid[row]|) ==> r == '.'
  {
    if row < 0 || col < 0 then '.'
    else if row >= |grid| then '.'
    else if col >= |grid[row]| then '.'
    else grid[row][col]
  }

  /** Neither a digit nor '.'. */
  predicate IsSymbol(c: char)
  {
    !IsDigit(c) && c != '.'
  }

  // ------------------------------------------------------------ the ring

  /** A cell around the number: in the rows above, on and below it and the columns `start - 1 ..= end`, but not the number itself. */
  predicate InRing(info: NumberInfo, cell: (int, int))
  {
    info.row - 1 <= cell.0 <= info.row + 1 && info.start - 1 <= cell.1 <= info.end &&
    !(cell.0 == info.row && info.start <= cell.1 < info.end)
  }

  // ------------------------------------------------------------ part one

  /** A symbol lies in the number's ring left of column `col`. */
  ghost predicate SymbolBefore(grid: seq<string>, info: NumberInfo, col: int)
  {
    exists r, c :: InRing(info, (r, c)) && c < col && IsSymbol(Get(grid, r, c))
  }

  /** Moving the bound past column `col` adds exactly the ring's cells in that column. */
  lemma SymbolBeforeStep(grid: seq<string>, info: NumberInfo, col: int)
    requires info.start <= info.end && info.start - 1 <= col <= info.end
    ensures SymbolBefore(grid, info, col + 1) <==> (SymbolBefore(grid, info, col) ||
      IsSymbol(Get(grid, info.row - 1, col)) || IsSymbol(Get(grid, info.row + 1, col)) ||
      ((col == info.start - 1 || col == info.end) && IsSymbol(Get(grid, info.row, col))))
  {
    if SymbolBefore(grid, info, col + 1) && !SymbolBefore(grid, info, col) {
      var r, c :| InRing(info, (r, c)) && c < col + 1 && IsSymbol(Get(grid, r, c));
      assert c == col;
    }
    if IsSymbol(Get(grid, info.row - 1, col)) {
      assert InRing(info, (info.row - 1, col));
    }
    if IsSymbol(Get(grid, info.row + 1, col)) {
      assert InRing(info, (info.row + 1, col));
    }
    if (col == info.start - 1 || col == info.end) && IsSymbol(Get(grid, info.row, col)) {
      assert InRing(info, (info.row, col));
    }
  }

  /** No ring cell lies left of the left column. */
  lemma NoSymbolBeforeRing(grid: seq<string>, info: NumberInfo)
    ensures !SymbolBefore(grid, info, info.start - 1)
  {
  }

  /** A number is a part number when a symbol lies in its ring. */
  ghost predicate PartNumber(grid: seq<string>, info: NumberInfo)
  {
    exists r, c :: InRing(info, (r, c)) && IsSymbol(Get(grid, r, c))
  }

  /** The test of `part1` for one number: the OR of `is_symbol` over its ring, left column, above and below, right column. */
  method IsPartNumber(grid: seq<string>, info: NumberInfo) returns (valid: bool)
    requires info.start <= info.end
    ensures valid == PartNumber(grid, info)
  {
    NoSymbolBeforeRing(grid, info);
    SymbolBeforeStep(grid, info, info.start - 1);
    valid := false;
    valid := valid || IsSymbol(Get(grid, info.row - 1, info.start - 1));
    valid := valid || IsSymbol(Get(grid, info.row + 0, info.start - 1));
    valid := valid || IsSymbol(Get(grid, info.row + 1, info.start - 1));
    for col := info.start to info.end
      invariant valid <==> SymbolBefore(grid, info, col)
    {
      SymbolBeforeStep(grid, info, col);
      valid := valid || IsSymbol(Get(grid, info.row - 1, col));
      valid := valid || IsSymbol(Get(grid, info.row + 1, col));
    }
    SymbolBeforeStep(grid, info, info.end);
    valid := valid || IsSymbol(Get(grid, info.row - 1, info.end));
    valid := valid || IsSymbol(Get(grid, info.row + 0, info.end));
    valid := valid || IsSymbol(Get(grid, info.row + 1, info.end));
    assert valid <==> SymbolBefore(grid, info, info.end + 1);
  }

  /** The sum of the values of the part numbers among `infos`. */
  ghost function PartSum(grid: seq<string>, infos: seq<NumberInfo>): nat
  {
    if infos == [] then 0
    else
      var last := infos[|infos| - 1];
      PartSum(grid, infos[..|infos| - 1]) + (if PartNumber(grid, last) then last.value else 0)
  }

  /** `part1`: the sum of the numbers with a symbol in their ring. */
  method Part1(grid: seq<string>) returns (sum: nat)
    ensures exists infos :: Scanned(grid, infos) && sum == PartSum(grid, infos)
  {
    var infos := FromStr(grid);
    forall k | 0 <= k < |infos| ensures infos[k].start <= infos[k].end {
      assert RunOf(grid[infos[k].row], infos[k].row, infos[k]);
    }
    sum := SumParts(grid, infos);
  }

  /** The loop of `part1`: the values of the part numbers among `infos` added up. */
  method SumParts(grid: seq<string>, infos: seq<NumberInfo>) returns (sum: nat)
    requires forall k :: 0 <= k < |infos| ==> infos[k].start <= infos[k].end
    ensures sum == PartSum(grid, infos)
  {
    sum := 0;
    for k := 0 to |infos|
      invariant sum == PartSum(grid, infos[..k])
    {
      var valid := IsPartNumber(grid, infos[k]);
      assert infos[..k + 1][..k] == infos[..k];
      if valid {
        sum := sum + infos[k].value;
      }
    }
    assert infos[..|infos|] == infos;
  }

  // ------------------------------------------------------------ part two

  type Cell = (int, int)

  /** The numbers recorded at a cell so far, empty for a cell not in the map. */
  function Base(gears: map<Cell, seq<nat>>, cell: Cell): seq<nat>
  {
    if cell in gears then gears[cell] else []
  }

  /** `check_gear`: a '*' cell gets `value` appended to its list; any other cell is left alone. */
  function CheckGear(grid: seq<string>, gears: map<Cell, seq<nat>>, row: int, col: int, value: nat): map<Cell, seq<nat>>
  {
    if Get(grid, row, col) == '*' then gears[(row, col) := Base(gears, (row, col)) + [value]] else gears
  }

  /** The cell holds '*'. */
  predicate Star(grid: seq<string>, cell: Cell)
  {
    Get(grid, cell.0, cell.1) == '*'
  }

  /**
   * `gears` is `g0` with `v` appended once at every '*' cell of `visited`:
   * such cells are in the map, and no other cell changes.
   */
  ghost predicate Done(grid: seq<string>, g0: map<Cell, seq<nat>>, gears: map<Cell, seq<nat>>, v: nat, visited: set<Cell>)
  {
    forall cell :: DoneAt(grid, g0, gears, v, visited, cell)
  }

  /** `Done` at one cell. */
  predicate DoneAt(grid: seq<string>, g0: map<Cell, seq<nat>>, gears: map<Cell, seq<nat>>, v: nat, visited: set<Cell>, cell: Cell)
  {
    (cell in gears <==> cell in g0 || (Star(grid, cell) && cell in visited)) &&
    (cell in gears ==> gears[cell] == Base(g0, cell) + (if Star(grid, cell) && cell in visited then [v] else []))
  }

  /** Checking a cell not yet visited adds it to the visited cells. */
  lemma CheckStep(grid: seq<string>, g0: map<Cell, seq<nat>>, gears: map<Cell, seq<nat>>, v: nat, visited: set<Cell>, cell: Cell)
    requires Done(grid, g0, gears, v, visited) && cell !in visited
    ensures Done(grid, g0, CheckGear(grid, gears, cell.0, cell.1, v), v, visited + {cell})
  {
    var g := CheckGear(grid, gears, cell.0, cell.1, v);
    forall x ensures DoneAt(grid, g0, g, v, visited + {cell}, x) {
      assert DoneAt(grid, g0, gears, v, visited, x);
    }
  }

  /** The ring cells left of column `col`. */
  ghost function RingUpTo(info: NumberInfo, col: int): set<Cell>
  {
    set r, c | info.row - 1 <= r <= info.row + 1 && info.start - 1 <= c < col && InRing(info, (r, c)) :: (r, c)
  }

  lemma RingUpToMembers(info: NumberInfo, col: int, cell: Cell)
    ensures cell in RingUpTo(info, col) <==> InRing(info, cell) && cell.1 < col
  {
    if InRing(info, cell) && cell.1 < col {
      var (r, c) := cell;
      assert (r, c) in RingUpTo(info, col);
    }
  }

  /** Moving the bound past column `col` adds the ring's cells of that column. */
  lemma RingUpToStep(info: NumberInfo, col: int)
    requires info.start <= info.end && info.start - 1 <= col <= info.end
    ensures col == info.start - 1 || col == info.end ==>
      RingUpTo(info, col + 1) == RingUpTo(info, col) + {(info.row - 1, col), (info.row, col), (info.row + 1, col)}
    ensures info.start <= col < info.end ==>
      RingUpTo(info, col + 1) == RingUpTo(info, col) + {(info.row - 1, col), (info.row + 1, col)}
  {
    forall cell ensures cell in RingUpTo(info, col + 1) <==> InRing(info, cell) && cell.1 < col + 1 {
      RingUpToMembers(info, col + 1, cell);
    }
    forall cell ensures cell in RingUpTo(info, col) <==> InRing(info, cell) && cell.1 < col {
      RingUpToMembers(info, col, cell);
    }
  }

  /** The '*' cells of the number's ring. */
  ghost function StarRing(grid: seq<string>, info: NumberInfo): set<Cell>
  {
    set cell | cell in RingUpTo(info, info.end + 1) && Star(grid, cell)
  }

  /** The effect of one number on the gears map: its value appended at every '*' cell of its ring. */
  ghost function Added(grid: seq<string>, g0: map<Cell, seq<nat>>, info: NumberInfo): map<Cell, seq<nat>>
  {
    map cell | cell in g0.Keys + StarRing(grid, info) :: Base(g0, cell) + (if cell in StarRing(grid, info) then [info.value] else [])
  }

  lemma DoneIsAdded(grid: seq<string>, g0: map<Cell, seq<nat>>, gears: map<Cell, seq<nat>>, info: NumberInfo)
    requires Done(grid, g0, gears, info.value, RingUpTo(info, info.end + 1))
    ensures gears == Added(grid, g0, info)
  {
    var a := Added(grid, g0, info);
    forall cell ensures (cell in gears <==> cell in a) && (cell in gears ==> gears[cell] == a[cell]) {
      assert DoneAt(grid, g0, gears, info.value, RingUpTo(info, info.end + 1), cell);
    }
  }

  /** The calls of `check_gear` for one number: left column, above and below, right column. */
  method AddGears(grid: seq<string>, gears: map<Cell, seq<nat>>, info: NumberInfo) returns (g: map<Cell, seq<nat>>)
    requires info.start <= info.end
    ensures g == Added(grid, gears, info)
  {
    var v := info.value;
    ghost var visited: set<Cell> := {};
    g := gears;
    RingUpToStep(info, info.start - 1);
    ghost var left := info.start - 1;
    assert RingUpTo(info, left) == {} by {
      forall cell ensures cell !in RingUpTo(info, left) {
        RingUpToMembers(info, left, cell);
      }
    }
    assert Done(grid, gears, g, v, visited) by {
      forall cell ensures DoneAt(grid, gears, g, v, visited, cell) {
      }
    }
    CheckStep(grid, gears, g, v, visited, (info.row - 1, info.start - 1));
    g, visited := CheckGear(grid, g, info.row - 1, info.start - 1, v), visited + {(info.row - 1, info.start - 1)};
    CheckStep(grid, gears, g, v, visited, (info.row, info.start - 1));
    g, visited := CheckGear(grid, g, info.row + 0, info.start - 1, v), visited + {(info.row, info.start - 1)};
    CheckStep(grid, gears, g, v, visited, (info.row + 1, info.start - 1));
    g, visited := CheckGear(grid, g, info.row + 1, info.start - 1, v), visited + {(info.row + 1, info.start - 1)};
    for col := info.start to info.end
      invariant Done(grid, gears, g, v, visited) && visited == RingUpTo(info, col)
    {
      RingUpToStep(info, col);
      RingUpToMembers(info, col, (info.row - 1, col));
      RingUpToMembers(info, col, (info.row + 1, col));
      CheckStep(grid, gears, g, v, visited, (info.row - 1, col));
      g, visited := CheckGear(grid, g, info.row - 1, col, v), visited + {(info.row - 1, col)};
      CheckStep(grid, gears, g, v, visited, (info.row + 1, col));
      g, visited := CheckGear(grid, g, info.row + 1, col, v), visited + {(info.row + 1, col)};
    }
    RingUpToStep(info, info.end);
    RingUpToMembers(info, info.end, (info.row - 1, info.end));
    RingUpToMembers(info, info.end, (info.row, info.end));
    RingUpToMembers(info, info.end, (info.row + 1, info.end));
    CheckStep(grid, gears, g, v, visited, (info.row - 1, info.end));
    g, visited := CheckGear(grid, g, info.row - 1, info.end, v), visited + {(info.row - 1, info.end)};
    CheckStep(grid, gears, g, v, visited, (info.row, info.end));
    g, visited := CheckGear(grid, g, info.row + 0, info.end, v), visited + {(info.row, info.end)};
    CheckStep(grid, gears, g, v, visited, (info.row + 1, info.end));
    g, visited := CheckGear(grid, g, info.row + 1, info.end, v), visited + {(info.row + 1, info.end)};
    assert visited == RingUpTo(info, info.end + 1);
    DoneIsAdded(grid, gears, g, info);
  }

  /** The gears map after the numbers `infos`. */
  ghost function GearsOf(grid: seq<string>, infos: seq<NumberInfo>): map<Cell, seq<nat>>
  {
    if infos == [] then map[] else Added(grid, GearsOf(grid, infos[..|infos| - 1]), infos[|infos| - 1])
  }

  /** The values of the numbers whose ring holds the cell, in the order of `infos`. */
  function Touching(infos: seq<NumberInfo>, cell: Cell): seq<nat>
  {
    if infos == [] then []
    else
      var last := infos[|infos| - 1];
      Touching(infos[..|infos| - 1], cell) + (if InRing(last, cell) then [last.value] else [])
  }

  /**
   * The gears map holds exactly the '*' cells next to at least one number,
   * each with the values of the numbers around it, in scan order.
   */
  lemma {:induction false} GearsOfMeaning(grid: seq<string>, infos: seq<NumberInfo>, cell: Cell)
    ensures cell in GearsOf(grid, infos) <==> Star(grid, cell) && Touching(infos, cell) != []
    ensures cell in GearsOf(grid, infos) ==> GearsOf(grid, infos)[cell] == Touching(infos, cell)
  {
    if infos != [] {
      var last := infos[|infos| - 1];
      GearsOfMeaning(grid, infos[..|infos| - 1], cell);
      RingUpToMembers(last, last.end + 1, cell);
    }
  }

  /** A gear's ratio: the product of its two numbers when it has exactly two, and 0 otherwise. */
  function Ratio(numbers: seq<nat>): nat
  {
    if |numbers| == 2 then numbers[0] * numbers[1] else 0
  }

  function RatioOf(gears: map<Cell, seq<nat>>): Cell -> int
  {
    cell => Ratio(Base(gears, cell))
  }

  /** The sum of the ratios over the entries of the map, in no particular order. */
  ghost function GearSum(gears: map<Cell, seq<nat>>): int
  {
    SetSum(gears.Keys, RatioOf(gears))
  }

  /** The final sum of `part2`, over the map's entries in whatever order the map yields them. */
  method SumRatios(gears: map<Cell, seq<nat>>) returns (sum: int)
    ensures sum == GearSum(gears)
  {
    var keys := gears.Keys;
    sum := 0;
    while keys != {}
      invariant keys <= gears.Keys
      invariant sum + SetSum(keys, RatioOf(gears)) == GearSum(gears)
      decreases |keys|
    {
      var cell :| cell in keys;
      SetSumRemove(keys, RatioOf(gears), cell);
      sum := sum + Ratio(gears[cell]);
      keys := keys - {cell};
    }
  }

  /** The records of a scan have non-empty ranges. */
  lemma ScannedRanges(grid: seq<string>, infos: seq<NumberInfo>)
    requires Scanned(grid, infos)
    ensures forall i :: 0 <= i < |infos| ==> infos[i].start <= infos[i].end
  {
    forall i | 0 <= i < |infos| ensures infos[i].start <= infos[i].end {
      assert RunOf(grid[infos[i].row], infos[i].row, infos[i]);
    }
  }

  /** The loop of `part2` over the numbers, building the gears map. */
  method CollectGears(grid: seq<string>, infos: seq<NumberInfo>) returns (gears: map<Cell, seq<nat>>)
    requires forall i :: 0 <= i < |infos| ==> infos[i].start <= infos[i].end
    ensures gears == GearsOf(grid, infos)
  {
    gears := map[];
    for k := 0 to |infos|
      invariant gears == GearsOf(grid, infos[..k])
    {
      assert infos[..k + 1][..k] == infos[..k];
      gears := AddGears(grid, gears, infos[k]);
    }
    assert infos[..|infos|] == infos;
  }

  /** `part2`: the sum of the ratios of the '*' cells next to exactly two numbers. */
  method Part2(grid: seq<string>) returns (sum: int)
    ensures exists infos :: Scanned(grid, infos) && sum == GearSum(GearsOf(grid, infos))
  {
    var infos := FromStr(grid);
    ScannedRanges(grid, infos);
    var gears := CollectGears(grid, infos);
    sum := SumRatios(gears);
  }
}
