// Beacon exclusion zones (year 2022, day 15): each sensor covers the
// Manhattan diamond reaching its closest beacon. Part one merges the
// diamonds' slices on one row into disjoint intervals and counts the covered
// positions; part two searches a square by quadrants for the one position no
// sensor covers.

module Beacons {
  import opened Common

  datatype Pos = Pos(x: int, y: int)

  /** Manhattan distance. */
  function Dist(p: Pos, q: Pos): (d: nat)
  {
    Abs(p.x - q.x) + Abs(p.y - q.y)
  }

  /** A sensor, its closest beacon and the distance between them. */
  datatype Reading = Reading(sensor: Pos, beacon: Pos, radius: nat)

  /** The reading a parsed line builds: the radius is the sensor's distance to its beacon. */
  function MakeReading(sensor: Pos, beacon: Pos): (r: Reading)
    ensures r.sensor == sensor && r.beacon == beacon && r.radius == Dist(sensor, beacon)
    ensures Covers(r, beacon) && Covers(r, sensor)
  {
    Reading(sensor, beacon, Dist(sensor, beacon))
  }

  predicate Covers(r: Reading, p: Pos)
  {
    Dist(r.sensor, p) <= r.radius
  }

  // ------------------------------------------------------- one row's slices

  /** Whether the reading's diamond reaches row `y`. */
  predicate ReachesRow(r: Reading, y: int)
  {
    r.sensor.y - r.radius <= y && r.sensor.y + r.radius >= y
  }

  /** How far the diamond extends left and right of the sensor on row `y`. */
  function HalfWidth(r: Reading, y: int): nat
    requires ReachesRow(r, y)
  {
    r.radius - Abs(r.sensor.y - y)
  }

  /** On a row it reaches, a reading covers exactly the x within the half-width of the sensor's x. */
  lemma CoversOnRow(r: Reading, x: int, y: int)
    requires ReachesRow(r, y)
    ensures Covers(r, Pos(x, y)) <==> r.sensor.x - HalfWidth(r, y) <= x <= r.sensor.x + HalfWidth(r, y)
  {
  }

  predicate Within(iv: (int, int), x: int) { iv.0 <= x <= iv.1 }

  /** `x` lies in one of the intervals. */
  predicate InUnion(s: seq<(int, int)>, x: int)
  {
    exists k :: 0 <= k < |s| && Within(s[k], x)
  }

  /** Some reading covers `(x, y)`. */
  predicate CoveredBy(readings: seq<Reading>, x: int, y: int)
  {
    exists k :: 0 <= k < |readings| && Covers(readings[k], Pos(x, y))
  }

  /** Some reading's diamond reaches row `y`. */
  predicate AnyReaches(readings: seq<Reading>, y: int)
  {
    exists k :: 0 <= k < |readings| && ReachesRow(readings[k], y)
  }

  /**
   * The slices of all diamonds reaching row `y`, in reading order. The ends
   * are found by walking inward from `sensor.x -/+ radius` until covered.
   */
  method RowSlices(readings: seq<Reading>, y: int) returns (intervals: seq<(int, int)>)
    ensures forall k :: 0 <= k < |intervals| ==> intervals[k].0 <= intervals[k].1
    ensures forall x :: InUnion(intervals, x) <==> CoveredBy(readings, x, y)
    ensures intervals == [] <==> !AnyReaches(readings, y)
  {
    intervals := [];
    for i := 0 to |readings|
      invariant forall k :: 0 <= k < |intervals| ==> intervals[k].0 <= intervals[k].1
      invariant forall x :: InUnion(intervals, x) <==> CoveredBy(readings[..i], x, y)
      invariant intervals == [] <==> !AnyReaches(readings[..i], y)
    {
      var r := readings[i];
      assert readings[..i + 1] == readings[..i] + [r];
      if r.sensor.y - r.radius <= y && r.sensor.y + r.radius >= y {
        var left := r.sensor.x - HalfWidth(r, y);
        var x0 := r.sensor.x - r.radius;
        while !Covers(r, Pos(x0, y))
          invariant x0 <= left
          decreases left - x0
        {
          CoversOnRow(r, x0, y);
          x0 := x0 + 1;
        }
        CoversOnRow(r, x0, y);
        var right := r.sensor.x + HalfWidth(r, y);
        var x1 := r.sensor.x + r.radius;
        while !Covers(r, Pos(x1, y))
          invariant x1 >= right
          decreases x1 - right
        {
          CoversOnRow(r, x1, y);
          x1 := x1 - 1;
        }
        CoversOnRow(r, x1, y);
        SliceStep(readings[..i], r, intervals, (x0, x1), y);
        intervals := intervals + [(x0, x1)];
      } else {
        NoSliceStep(readings[..i], r, intervals, y);
      }
    }
    assert readings[..|readings|] == readings;
  }

  lemma SliceStep(readings: seq<Reading>, r: Reading, intervals: seq<(int, int)>, iv: (int, int), y: int)
    requires ReachesRow(r, y)
    requires forall x :: Within(iv, x) <==> Covers(r, Pos(x, y))
    requires forall x :: InUnion(intervals, x) <==> CoveredBy(readings, x, y)
    ensures forall x :: InUnion(intervals + [iv], x) <==> CoveredBy(readings + [r], x, y)
    ensures AnyReaches(readings + [r], y)
  {
    var s, rs := intervals + [iv], readings + [r];
    assert ReachesRow(rs[|readings|], y);
    forall x ensures InUnion(s, x) <==> CoveredBy(rs, x, y) {
      if InUnion(s, x) {
        var k :| 0 <= k < |s| && Within(s[k], x);
        if k == |intervals| {
          assert Covers(rs[|readings|], Pos(x, y));
        } else {
          assert InUnion(intervals, x);
          var j :| 0 <= j < |readings| && Covers(readings[j], Pos(x, y));
          assert rs[j] == readings[j];
        }
      }
      if CoveredBy(rs, x, y) {
        var j :| 0 <= j < |rs| && Covers(rs[j], Pos(x, y));
        if j == |readings| {
          assert s[|intervals|] == iv;
        } else {
          assert CoveredBy(readings, x, y);
          var k :| 0 <= k < |intervals| && Within(intervals[k], x);
          assert s[k] == intervals[k];
        }
      }
    }
  }

  lemma NoSliceStep(readings: seq<Reading>, r: Reading, intervals: seq<(int, int)>, y: int)
    requires !ReachesRow(r, y)
    requires forall x :: InUnion(intervals, x) <==> CoveredBy(readings, x, y)
    requires intervals == [] <==> !AnyReaches(readings, y)
    ensures forall x :: InUnion(intervals, x) <==> CoveredBy(readings + [r], x, y)
    ensures intervals == [] <==> !AnyReaches(readings + [r], y)
  {
    var rs := readings + [r];
    forall x ensures CoveredBy(rs, x, y) <==> CoveredBy(readings, x, y) {
      if CoveredBy(rs, x, y) {
        var j :| 0 <= j < |rs| && Covers(rs[j], Pos(x, y));
        assert rs[j] == readings[j];
      }
      if CoveredBy(readings, x, y) {
        var j :| 0 <= j < |readings| && Covers(readings[j], Pos(x, y));
        assert rs[j] == readings[j];
      }
    }
    if AnyReaches(rs, y) {
      var j :| 0 <= j < |rs| && ReachesRow(rs[j], y);
      assert j < |readings| && rs[j] == readings[j];
    }
    if AnyReaches(readings, y) {
      var j :| 0 <= j < |readings| && ReachesRow(readings[j], y);
      assert rs[j] == readings[j];
    }
  }

  // ------------------------------------------------------------ sorting

  /** The order `Vec::sort` uses on pairs: by start, then by end. */
  predicate PairLe(a: (int, int), b: (int, int))
  {
    a.0 < b.0 || (a.0 == b.0 && a.1 <= b.1)
  }

  predicate SortedPairs(s: seq<(int, int)>)
  {
    forall i, j :: 0 <= i < j < |s| ==> PairLe(s[i], s[j])
  }

  function InsertPair(p: (int, int), s: seq<(int, int)>): (r: seq<(int, int)>)
    requires SortedPairs(s)
    ensures SortedPairs(r) && multiset(r) == multiset(s) + multiset{p}
    ensures |r| == |s| + 1 && r[0] == (if s == [] || PairLe(p, s[0]) then p else s[0])
  {
    if s == [] then [p]
    else if PairLe(p, s[0]) then [p] + s
    else
      assert s == [s[0]] + s[1..];
      [s[0]] + InsertPair(p, s[1..])
  }

  /** `intervals.sort()`: the same intervals in ascending pair order. */
  function SortPairs(s: seq<(int, int)>): (r: seq<(int, int)>)
    ensures SortedPairs(r) && multiset(r) == multiset(s) && |r| == |s|
  {
    if s == [] then []
    else
      var init, last := s[..|s| - 1], s[|s| - 1];
      assert s == init + [last];
      assert multiset(s) == multiset(init) + multiset{last};
      InsertPair(last, SortPairs(init))
  }

  /** A permutation has the same union. */
  lemma PermutedUnion(s: seq<(int, int)>, r: seq<(int, int)>)
    requires multiset(r) == multiset(s)
    ensures forall x :: InUnion(r, x) <==> InUnion(s, x)
    ensures (forall k :: 0 <= k < |s| ==> s[k].0 <= s[k].1) ==> forall k :: 0 <= k < |r| ==> r[k].0 <= r[k].1
  {
    forall x | InUnion(r, x) ensures InUnion(s, x) {
      var k :| 0 <= k < |r| && Within(r[k], x);
      assert r[k] in multiset(r);
      var j :| 0 <= j < |s| && s[j] == r[k];
    }
    forall x | InUnion(s, x) ensures InUnion(r, x) {
      var k :| 0 <= k < |s| && Within(s[k], x);
      assert s[k] in multiset(s);
      var j :| 0 <= j < |r| && r[j] == s[k];
    }
    if forall k :: 0 <= k < |s| ==> s[k].0 <= s[k].1 {
      forall k | 0 <= k < |r| ensures r[k].0 <= r[k].1 {
        assert r[k] in multiset(s);
      }
    }
  }

  // ------------------------------------------------------------ merging

  /** Intervals in increasing order with a gap between each and the next. */
  predicate Disjoint(m: seq<(int, int)>)
  {
    (forall k :: 0 <= k < |m| ==> m[k].0 <= m[k].1) &&
    (forall k, l :: 0 <= k < |m| && l == k + 1 < |m| ==> m[k].1 < m[l].0)
  }

  /**
   * `find_overlap_sensors_line`: the slices sorted, then merged left to
   * right: a slice starting inside the last merged interval extends it,
   * any other starts a new one. Panics (indexing an empty vector) when no
   * diamond reaches the row.
   */
  method OverlapLine(readings: seq<Reading>, y: int) returns (r: Result<seq<(int, int)>>)
    ensures r.Ok? <==> AnyReaches(readings, y)
    ensures r.Ok? ==> Disjoint(r.value) && forall x :: InUnion(r.value, x) <==> CoveredBy(readings, x, y)
  {
    var slices := RowSlices(readings, y);
    var intervals := SortPairs(slices);
    PermutedUnion(slices, intervals);
    if |intervals| == 0 {
      return Panic;
    }
    var merged := MergeSorted(intervals);
    return Ok(merged);
  }

  /** The merging loop of `overlap_line` over the sorted slices. */
  method MergeSorted(intervals: seq<(int, int)>) returns (merged: seq<(int, int)>)
    requires |intervals| >= 1 && SortedPairs(intervals)
    requires forall k :: 0 <= k < |intervals| ==> intervals[k].0 <= intervals[k].1
    ensures Disjoint(merged) && forall x :: InUnion(merged, x) <==> InUnion(intervals, x)
  {
    merged := [intervals[0]];
    assert intervals[..1] == merged;
    forall j | 1 <= j < |intervals| ensures intervals[0].0 <= intervals[j].0 {
      assert PairLe(intervals[0], intervals[j]);
    }
    for i := 1 to |intervals|
      invariant |merged| >= 1 && Disjoint(merged)
      invariant forall x :: InUnion(merged, x) <==> InUnion(intervals[..i], x)
      invariant forall j :: i <= j < |intervals| ==> merged[|merged| - 1].0 <= intervals[j].0
    {
      var iv := intervals[i];
      var last := merged[|merged| - 1];
      assert PairLe(intervals[i - 1], iv);
      MergeStep(intervals[..i], merged, iv);
      assert intervals[..i + 1] == intervals[..i] + [iv];
      if iv.0 <= last.1 {
        merged := merged[|merged| - 1 := (last.0, Max(iv.1, last.1))];
      } else {
        merged := merged + [iv];
        forall j | i + 1 <= j < |intervals| ensures merged[|merged| - 1].0 <= intervals[j].0 {
          assert PairLe(intervals[i], intervals[j]);
        }
      }
    }
    assert intervals[..|intervals|] == intervals;
  }

  /** Extending the last interval or appending a new one keeps the merged intervals disjoint with the same union. */
  lemma MergeStep(done: seq<(int, int)>, merged: seq<(int, int)>, iv: (int, int))
    requires |merged| >= 1 && Disjoint(merged) && iv.0 <= iv.1
    requires forall x :: InUnion(merged, x) <==> InUnion(done, x)
    requires merged[|merged| - 1].0 <= iv.0
    ensures var last := merged[|merged| - 1];
      iv.0 <= last.1 ==> (var m := merged[|merged| - 1 := (last.0, Max(iv.1, last.1))];
        Disjoint(m) && forall x :: InUnion(m, x) <==> InUnion(done + [iv], x))
    ensures var last := merged[|merged| - 1];
      iv.0 > last.1 ==> (var m := merged + [iv];
        Disjoint(m) && forall x :: InUnion(m, x) <==> InUnion(done + [iv], x))
  {
    var last := merged[|merged| - 1];
    var d := done + [iv];
    forall x ensures InUnion(d, x) <==> InUnion(done, x) || Within(iv, x) {
      if InUnion(d, x) {
        var k :| 0 <= k < |d| && Within(d[k], x);
        if k < |done| { assert Within(done[k], x); }
      }
      if InUnion(done, x) {
        var k :| 0 <= k < |done| && Within(done[k], x);
        assert d[k] == done[k];
      }
      if Within(iv, x) { assert d[|done|] == iv; }
    }
    if iv.0 <= last.1 {
      var m := merged[|merged| - 1 := (last.0, Max(iv.1, last.1))];
      forall x ensures InUnion(m, x) <==> InUnion(merged, x) || Within(iv, x) {
        if InUnion(m, x) {
          var k :| 0 <= k < |m| && Within(m[k], x);
          if k < |merged| - 1 {
            assert Within(merged[k], x);
          } else if x > last.1 {
            assert Within(iv, x);
          } else {
            assert Within(merged[k], x);
          }
        }
        if InUnion(merged, x) {
          var k :| 0 <= k < |merged| && Within(merged[k], x);
          assert Within(m[k], x);
        }
        if Within(iv, x) {
          assert Within(m[|m| - 1], x);
        }
      }
    } else {
      var m := merged + [iv];
      forall x ensures InUnion(m, x) <==> InUnion(merged, x) || Within(iv, x) {
        if InUnion(m, x) {
          var k :| 0 <= k < |m| && Within(m[k], x);
          if k < |merged| { assert Within(merged[k], x); }
        }
        if InUnion(merged, x) {
          var k :| 0 <= k < |merged| && Within(merged[k], x);
          assert m[k] == merged[k];
        }
        if Within(iv, x) { assert m[|merged|] == iv; }
      }
    }
  }

  // ------------------------------------------------------------ counting

  /** The positions of an interval. */
  function Span(iv: (int, int)): (r: set<int>)
    ensures forall x :: x in r <==> iv.0 <= x <= iv.1
    decreases iv.1 - iv.0
  {
    if iv.0 > iv.1 then {} else Span((iv.0, iv.1 - 1)) + {iv.1}
  }

  /** The positions of all intervals. */
  function Cover(m: seq<(int, int)>): set<int>
  {
    if m == [] then {} else Cover(m[..|m| - 1]) + Span(m[|m| - 1])
  }

  /** `sum(interval.1 - interval.0 + 1)`. */
  function Lengths(m: seq<(int, int)>): int
  {
    if m == [] then 0 else Lengths(m[..|m| - 1]) + (m[|m| - 1].1 - m[|m| - 1].0 + 1)
  }

  lemma {:induction false} SpanSize(lo: int, hi: int)
    requires lo <= hi + 1
    ensures |Span((lo, hi))| == hi - lo + 1
    decreases hi - lo + 1
  {
    if lo == hi + 1 {
      assert Span((lo, hi)) == {};
    } else {
      SpanSize(lo, hi - 1);
      assert Span((lo, hi)) == Span((lo, hi - 1)) + {hi};
    }
  }

  lemma {:induction false} CoverBelow(m: seq<(int, int)>, x: int)
    requires Disjoint(m) && m != [] && x in Cover(m)
    ensures x <= m[|m| - 1].1
  {
    if x !in Span(m[|m| - 1]) {
      var init := m[..|m| - 1];
      assert Disjoint(init);
      CoverBelow(init, x);
      assert m[|m| - 2].1 < m[|m| - 1].0;
    }
  }

  lemma {:induction false} CoverMeansUnion(m: seq<(int, int)>, x: int)
    ensures x in Cover(m) <==> InUnion(m, x)
  {
    if m != [] {
      var init := m[..|m| - 1];
      CoverMeansUnion(init, x);
      if InUnion(m, x) {
        var k :| 0 <= k < |m| && Within(m[k], x);
        if k < |init| { assert Within(init[k], x); }
      }
      if InUnion(init, x) {
        var k :| 0 <= k < |init| && Within(init[k], x);
        assert m[k] == init[k];
      }
    }
  }

  /** For disjoint intervals the sum of the lengths is the number of covered positions. */
  lemma {:induction false} LengthsCount(m: seq<(int, int)>)
    requires Disjoint(m)
    ensures Lengths(m) == |Cover(m)|
  {
    if m != [] {
      var init, last := m[..|m| - 1], m[|m| - 1];
      assert Disjoint(init);
      LengthsCount(init);
      SpanSize(last.0, last.1);
      if init != [] {
        forall x | x in Cover(init) ensures x !in Span(last) {
          CoverBelow(init, x);
          assert m[|m| - 2].1 < m[|m| - 1].0;
        }
      }
      assert Cover(init) * Span(last) == {};
    }
  }

  /** `find_occupied_tiles_line`: the sensors and beacons lying on row `y`. */
  method OccupiedLine(readings: seq<Reading>, y: int) returns (occupied: set<Pos>)
    ensures forall p :: p in occupied <==> p.y == y && exists k :: 0 <= k < |readings| && (p == readings[k].sensor || p == readings[k].beacon)
  {
    occupied := {};
    for i := 0 to |readings|
      invariant forall p :: p in occupied <==> p.y == y && exists k :: 0 <= k < i && (p == readings[k].sensor || p == readings[k].beacon)
    {
      if readings[i].sensor.y == y {
        occupied := occupied + {readings[i].sensor};
      }
      if readings[i].beacon.y == y {
        occupied := occupied + {readings[i].beacon};
      }
    }
  }

  /** Every sensor and beacon on the row lies in a covered position, so subtracting them is exact. */
  lemma OccupiedCovered(readings: seq<Reading>, y: int, occupied: set<Pos>)
    requires forall k :: 0 <= k < |readings| ==> readings[k].radius == Dist(readings[k].sensor, readings[k].beacon)
    requires forall p :: p in occupied <==> p.y == y && exists k :: 0 <= k < |readings| && (p == readings[k].sensor || p == readings[k].beacon)
    ensures forall p :: p in occupied ==> p.y == y && CoveredBy(readings, p.x, y)
  {
    forall p | p in occupied ensures CoveredBy(readings, p.x, y) {
      var k :| 0 <= k < |readings| && (p == readings[k].sensor || p == readings[k].beacon);
      assert Covers(readings[k], Pos(p.x, y));
    }
  }

  /**
   * `part1` (for the row `y` the caller picks): the number of covered
   * positions of the row minus the sensors and beacons on it.
   */
  method Part1(readings: seq<Reading>, y: int) returns (r: Result<int>)
    ensures r.Ok? <==> AnyReaches(readings, y)
    ensures r.Ok? ==> exists m :: (Disjoint(m) && (forall x :: x in Cover(m) <==> CoveredBy(readings, x, y)) &&
      r.value == |Cover(m)| - |OccupiedSet(readings, y)|)
  {
    var merged := OverlapLine(readings, y);
    if merged.Panic? {
      return Panic;
    }
    var m := merged.value;
    var count := CoveredCount(m);
    var occupied := OccupiedLine(readings, y);
    CountMeaning(readings, y, m, occupied);
    return Ok(count - |occupied|);
  }

  lemma CountMeaning(readings: seq<Reading>, y: int, m: seq<(int, int)>, occupied: set<Pos>)
    requires Disjoint(m) && forall x :: InUnion(m, x) <==> CoveredBy(readings, x, y)
    requires forall p :: p in occupied <==> p.y == y && exists k :: 0 <= k < |readings| && (p == readings[k].sensor || p == readings[k].beacon)
    ensures exists m' :: (Disjoint(m') && (forall x :: x in Cover(m') <==> CoveredBy(readings, x, y)) &&
      |Cover(m)| - |occupied| == |Cover(m')| - |OccupiedSet(readings, y)|)
  {
    forall x ensures x in Cover(m) <==> CoveredBy(readings, x, y) {
      CoverMeansUnion(m, x);
    }
    assert occupied == OccupiedSet(readings, y);
  }

  /** `sum(interval.1 - interval.0 + 1)` over disjoint intervals: the number of positions they cover. */
  method CoveredCount(m: seq<(int, int)>) returns (count: int)
    requires Disjoint(m)
    ensures count == |Cover(m)|
  {
    count := 0;
    for i := 0 to |m|
      invariant count == Lengths(m[..i])
    {
      assert m[..i + 1][..i] == m[..i];
      count := count + (m[i].1 - m[i].0 + 1);
    }
    assert m[..|m|] == m;
    LengthsCount(m);
  }

  /** The sensors and beacons on row `y`. */
  function OccupiedSet(readings: seq<Reading>, y: int): (s: set<Pos>)
    ensures forall p :: p in s <==> p.y == y && exists k :: 0 <= k < |readings| && (p == readings[k].sensor || p == readings[k].beacon)
  {
    set k, p | 0 <= k < |readings| && p in {readings[k].sensor, readings[k].beacon} && p.y == y :: p
  }

  // ------------------------------------------------------- quadrant search

  /** The rectangle `[xMin, xMax] x [yMin, yMax]`. */
  predicate InRect(p: Pos, xMin: int, xMax: int, yMin: int, yMax: int)
  {
    xMin <= p.x <= xMax && yMin <= p.y <= yMax
  }

  /** One reading covers the four corners of the rectangle. */
  predicate CornersCovered(r: Reading, xMin: int, xMax: int, yMin: int, yMax: int)
  {
    Covers(r, Pos(xMin, yMin)) && Covers(r, Pos(xMin, yMax)) && Covers(r, Pos(xMax, yMax)) && Covers(r, Pos(xMax, yMin))
  }

  predicate AnyCornersCovered(readings: seq<Reading>, xMin: int, xMax: int, yMin: int, yMax: int)
  {
    exists k :: 0 <= k < |readings| && CornersCovered(readings[k], xMin, xMax, yMin, yMax)
  }

  /** A diamond covering the four corners of a rectangle covers all of it (the diamond is convex). */
  lemma CornersCoverRect(r: Reading, xMin: int, xMax: int, yMin: int, yMax: int, p: Pos)
    requires CornersCovered(r, xMin, xMax, yMin, yMax) && InRect(p, xMin, xMax, yMin, yMax)
    ensures Covers(r, p)
  {
    var cx := if Abs(r.sensor.x - xMin) >= Abs(r.sensor.x - xMax) then xMin else xMax;
    var cy := if Abs(r.sensor.y - yMin) >= Abs(r.sensor.y - yMax) then yMin else yMax;
    assert Dist(r.sensor, p) <= Dist(r.sensor, Pos(cx, cy));
  }

  /** The outcome of the search as written, with `None` when `fuel` recursive calls do not suffice. */
  datatype Search = Done(found: Option<Pos>) | OutOfFuel

  /**
   * `find_uncovered` exactly as written: the midpoints use Rust's division,
   * which truncates toward zero, and an empty rectangle is split like any
   * other. `fuel` bounds the depth of recursion.
   */
  function FindUncoveredAsWritten(readings: seq<Reading>, xMin: int, xMax: int, yMin: int, yMax: int, fuel: nat): (r: Search)
    ensures r.Done? && r.found.Some? ==> !CoveredBy(readings, r.found.value.x, r.found.value.y)
    ensures r == Done(None) ==> forall p :: InRect(p, xMin, xMax, yMin, yMax) ==> CoveredBy(readings, p.x, p.y)
    decreases fuel
  {
    if AnyCornersCovered(readings, xMin, xMax, yMin, yMax) then Done(None)
    else if xMin == xMax && yMin == yMax then Done(Some(Pos(xMin, yMin)))
    else if fuel == 0 then OutOfFuel
    else
      var xMid, yMid := TruncDiv(xMax + xMin, 2), TruncDiv(yMax + yMin, 2);
      match FindUncoveredAsWritten(readings, xMin, xMid, yMin, yMid, fuel - 1)
      case OutOfFuel => OutOfFuel
      case Done(Some(p)) => Done(Some(p))
      case Done(None) =>
        match FindUncoveredAsWritten(readings, xMid + 1, xMax, yMin, yMid, fuel - 1)
        case OutOfFuel => OutOfFuel
        case Done(Some(p)) => Done(Some(p))
        case Done(None) =>
          match FindUncoveredAsWritten(readings, xMid + 1, xMax, yMid + 1, yMax, fuel - 1)
          case OutOfFuel => OutOfFuel
          case Done(Some(p)) => Done(Some(p))
          case Done(None) => FindUncoveredAsWritten(readings, xMin, xMid, yMid + 1, yMax, fuel - 1)
  }

  /** A single sensor seeing nothing but its own position. */
  function PointSensor(): seq<Reading>
  {
    [MakeReading(Pos(0, 0), Pos(0, 0))]
  }

  /**
   * The empty rectangle `x in [1, 0], y in [0, 0]`, which the search as
   * written reaches from `x in [0, 0], y in [0, 1]`, is its own first
   * quadrant: no amount of recursion finishes it.
   */
  lemma {:induction false} EmptyRectLoops(fuel: nat)
    ensures FindUncoveredAsWritten(PointSensor(), 1, 0, 0, 0, fuel) == OutOfFuel
  {
    var rs := PointSensor();
    assert !Covers(rs[0], Pos(1, 0));
    assert !AnyCornersCovered(rs, 1, 0, 0, 0);
    if fuel > 0 {
      EmptyRectLoops(fuel - 1);
    }
  }

  /** So the search over `x in [0, 0], y in [0, 1]` never returns, although `(0, 1)` is uncovered. */
  lemma ColumnNeverFinishes(fuel: nat)
    ensures FindUncoveredAsWritten(PointSensor(), 0, 0, 0, 1, fuel) == OutOfFuel
    ensures !CoveredBy(PointSensor(), 0, 1)
  {
    var rs := PointSensor();
    assert !Covers(rs[0], Pos(0, 1));
    assert !AnyCornersCovered(rs, 0, 0, 0, 1);
    if fuel > 0 {
      assert Covers(rs[0], Pos(0, 0));
      assert CornersCovered(rs[0], 0, 0, 0, 0);
      EmptyRectLoops(fuel - 1);
    }
  }

  /**
   * With no sensor, the square `[-3, -2] x [-3, -2]` is its own first
   * quadrant, because truncating `-5 / 2` gives `-2`.
   */
  lemma {:induction false} NegativeSquareLoops(fuel: nat)
    ensures FindUncoveredAsWritten([], -3, -2, -3, -2, fuel) == OutOfFuel
  {
    assert TruncDiv(-5, 2) == -2;
    if fuel > 0 {
      NegativeSquareLoops(fuel - 1);
    }
  }

  function Area(xMin: int, xMax: int, yMin: int, yMax: int): nat
  {
    if xMin > xMax || yMin > yMax then 0 else (xMax - xMin + 1) * (yMax - yMin + 1)
  }

  lemma QuadrantSmaller(xMin: int, xMax: int, yMin: int, yMax: int, xLo: int, xHi: int, yLo: int, yHi: int)
    requires xMin <= xLo && xHi <= xMax && yMin <= yLo && yHi <= yMax
    requires xHi - xLo < xMax - xMin || yHi - yLo < yMax - yMin
    requires xMin <= xMax && yMin <= yMax
    ensures Area(xLo, xHi, yLo, yHi) < Area(xMin, xMax, yMin, yMax)
  {
    var w, h := xMax - xMin + 1, yMax - yMin + 1;
    assert Area(xMin, xMax, yMin, yMax) == w * h;
    if xLo <= xHi && yLo <= yHi {
      var w', h' := xHi - xLo + 1, yHi - yLo + 1;
      assert Area(xLo, xHi, yLo, yHi) == w' * h';
      ProductSmaller(w', w, h', h);
    } else {
      ProductSmaller(1, w, 1, h);
    }
  }

  lemma ProductSmaller(w': nat, w: nat, h': nat, h: nat)
    requires 1 <= w' <= w && 1 <= h' <= h
    ensures w' * h' <= w * h && (w' < w || h' < h ==> w' * h' < w * h)
  {
    assert w * h - w' * h' == (w - w') * h + w' * (h - h');
    if w' < w {
      assert (w - w') * h > 0;
    } else if h' < h {
      assert w' * (h - h') > 0;
    }
  }

  /**
   * `find_uncovered` as intended: an empty rectangle holds nothing, and the
   * midpoints round down, so every quadrant is smaller than its rectangle.
   * It finds a position no reading covers inside the rectangle exactly when
   * there is one.
   */
  function FindUncovered(readings: seq<Reading>, xMin: int, xMax: int, yMin: int, yMax: int): (r: Option<Pos>)
    ensures r.Some? ==> InRect(r.value, xMin, xMax, yMin, yMax) && forall k :: 0 <= k < |readings| ==> !Covers(readings[k], r.value)
    ensures r.None? ==> forall p :: InRect(p, xMin, xMax, yMin, yMax) ==> CoveredBy(readings, p.x, p.y)
    decreases Area(xMin, xMax, yMin, yMax), 1
  {
    if xMin > xMax || yMin > yMax then None
    else if AnyCornersCovered(readings, xMin, xMax, yMin, yMax) then
      AllCovered(readings, xMin, xMax, yMin, yMax);
      None
    else if xMin == xMax && yMin == yMax then
      assert forall k :: 0 <= k < |readings| ==> !Covers(readings[k], Pos(xMin, yMin)) by {
        forall k | 0 <= k < |readings| ensures !Covers(readings[k], Pos(xMin, yMin)) {
          assert !CornersCovered(readings[k], xMin, xMax, yMin, yMax);
        }
      }
      Some(Pos(xMin, yMin))
    else
      SearchQuadrants(readings, xMin, xMax, yMin, yMax)
  }

  /** The recursive case of `find_uncovered`: the four quadrants around the floor midpoint, in the program's order. */
  function SearchQuadrants(readings: seq<Reading>, xMin: int, xMax: int, yMin: int, yMax: int): (r: Option<Pos>)
    requires xMin <= xMax && yMin <= yMax && !(xMin == xMax && yMin == yMax)
    ensures r.Some? ==> InRect(r.value, xMin, xMax, yMin, yMax) && forall k :: 0 <= k < |readings| ==> !Covers(readings[k], r.value)
    ensures r.None? ==> forall p :: InRect(p, xMin, xMax, yMin, yMax) ==> CoveredBy(readings, p.x, p.y)
    decreases Area(xMin, xMax, yMin, yMax), 0
  {
    var xMid, yMid := (xMax + xMin) / 2, (yMax + yMin) / 2;
    Quadrants(xMin, xMax, yMin, yMax);
    var q1 := FindUncovered(readings, xMin, xMid, yMin, yMid);
    if q1.Some? then q1
    else
      var q2 := FindUncovered(readings, xMid + 1, xMax, yMin, yMid);
      if q2.Some? then q2
      else
        var q3 := FindUncovered(readings, xMid + 1, xMax, yMid + 1, yMax);
        if q3.Some? then q3
        else
          FindUncovered(readings, xMin, xMid, yMid + 1, yMax)
  }

  /**
   * The four quadrants around the floor midpoint of a rectangle that is
   * neither empty nor a single position are each smaller, and together they
   * hold every position of the rectangle.
   */
  lemma Quadrants(xMin: int, xMax: int, yMin: int, yMax: int)
    requires xMin <= xMax && yMin <= yMax && !(xMin == xMax && yMin == yMax)
    ensures var xMid, yMid := (xMax + xMin) / 2, (yMax + yMin) / 2;
      && Area(xMin, xMid, yMin, yMid) < Area(xMin, xMax, yMin, yMax)
      && Area(xMid + 1, xMax, yMin, yMid) < Area(xMin, xMax, yMin, yMax)
      && Area(xMid + 1, xMax, yMid + 1, yMax) < Area(xMin, xMax, yMin, yMax)
      && Area(xMin, xMid, yMid + 1, yMax) < Area(xMin, xMax, yMin, yMax)
      && (forall p :: InRect(p, xMin, xMax, yMin, yMax) ==>
        InRect(p, xMin, xMid, yMin, yMid) || InRect(p, xMid + 1, xMax, yMin, yMid) ||
        InRect(p, xMid + 1, xMax, yMid + 1, yMax) || InRect(p, xMin, xMid, yMid + 1, yMax))
      && (forall p ::
            (InRect(p, xMin, xMid, yMin, yMid) || InRect(p, xMid + 1, xMax, yMin, yMid) ||
             InRect(p, xMid + 1, xMax, yMid + 1, yMax) || InRect(p, xMin, xMid, yMid + 1, yMax)) ==>
            InRect(p, xMin, xMax, yMin, yMax))
  {
    var xMid, yMid := (xMax + xMin) / 2, (yMax + yMin) / 2;
    QuadrantSmaller(xMin, xMax, yMin, yMax, xMin, xMid, yMin, yMid);
    QuadrantSmaller(xMin, xMax, yMin, yMax, xMid + 1, xMax, yMin, yMid);
    QuadrantSmaller(xMin, xMax, yMin, yMax, xMid + 1, xMax, yMid + 1, yMax);
    QuadrantSmaller(xMin, xMax, yMin, yMax, xMin, xMid, yMid + 1, yMax);
  }

  lemma AllCovered(readings: seq<Reading>, xMin: int, xMax: int, yMin: int, yMax: int)
    requires AnyCornersCovered(readings, xMin, xMax, yMin, yMax)
    ensures forall p :: InRect(p, xMin, xMax, yMin, yMax) ==> CoveredBy(readings, p.x, p.y)
  {
    var k :| 0 <= k < |readings| && CornersCovered(readings[k], xMin, xMax, yMin, yMax);
    forall p | InRect(p, xMin, xMax, yMin, yMax) ensures CoveredBy(readings, p.x, p.y) {
      CornersCoverRect(readings[k], xMin, xMax, yMin, yMax, p);
      assert Pos(p.x, p.y) == p;
    }
  }

  /** `part2` (over the square `[0, size]` the caller picks): the tuning frequency of the uncovered position. */
  function Part2(readings: seq<Reading>, size: nat): (r: Result<int>)
    ensures r.Ok? <==> exists p :: InRect(p, 0, size, 0, size) && !CoveredBy(readings, p.x, p.y)
    ensures r.Ok? ==> exists p :: InRect(p, 0, size, 0, size) && !CoveredBy(readings, p.x, p.y) && r.value == 4000000 * p.x + p.y
  {
    match FindUncovered(readings, 0, size, 0, size)
    case None => Panic
    case Some(p) =>
      assert !CoveredBy(readings, p.x, p.y);
      Ok(4000000 * p.x + p.y)
  }
}
