// Day 17 of 2022, second half: the height after a trillion rocks,
// extrapolated from a repeating run in the height gained per hundred
// rocks.

module RockCycle {
  import opened Common
  import opened FallingRocks

  /** The rocks between two samples of the height. */
  const Step: nat := 100

  /** The number of rocks the second part asks about. */
  const Blocks: nat := 1000000000000

  /** The number of samples a trillion rocks make. */
  const Total: nat := Blocks / Step

  /** The samples the simulation records: one for each hundred of its 40000 rocks but the first. */
  const Recorded: nat := 399

  /** The length of the run of gains that must repeat. */
  const Window: nat := 5

  // ------------------------------------------------------------ patterns

  /** The windows of `size` gains at `a` and at `s` are equal, both inside the range searched. */
  predicate Repeats(data: seq<int>, size: nat, a: nat, s: nat)
  {
    a < s && s + size < |data| && data[s..s + size] == data[a..a + size]
  }

  /** `(x, y)` comes before `(a, s)` in the order the search visits pairs. */
  predicate Before(x: nat, y: nat, a: nat, s: nat)
  {
    x < a || (x == a && y < s)
  }

  /** The nested loops of `find_pattern_start`, from the pair `(a, s)` on. */
  function Search(data: seq<int>, size: nat, a: nat, s: nat): (r: Option<(nat, nat)>)
    requires a < s
    ensures r.Some? ==> r.value.1 > 0 && r.value.0 + r.value.1 + size < |data|
    decreases |data| - a, |data| - s
  {
    if a + size >= |data| then None
    else if s + size >= |data| then Search(data, size, a + 1, a + 2)
    else if data[s..s + size] == data[a..a + size] then Some((a, s - a))
    else Search(data, size, a, s + 1)
  }

  /**
   * `find_pattern_start`: the first start and length of a repeated window;
   * fewer gains than the window (a `usize` underflow) or no repeat at
   * all is a panic.
   */
  function FindPattern(data: seq<int>, size: nat): (r: Result<(nat, nat)>)
    ensures r.Ok? ==> r.value.1 > 0 && r.value.0 + r.value.1 + size < |data|
  {
    if |data| < size then Panic
    else
      match Search(data, size, 0, 1)
      case None => Panic
      case Some(p) => Ok(p)
  }

  /** No pair the search visits before `(a, s)` repeats. */
  ghost predicate NoneBefore(data: seq<int>, size: nat, a: nat, s: nat)
  {
    forall x: nat, y: nat :: Before(x, y, a, s) ==> !Repeats(data, size, x, y)
  }

  /** Once the first window runs past the end, no pair is left to repeat. */
  lemma PastTheEnd(data: seq<int>, size: nat, a: nat, s: nat)
    requires a + size >= |data| && NoneBefore(data, size, a, s)
    ensures forall x: nat, y: nat :: !Repeats(data, size, x, y)
  {
    forall x: nat, y: nat ensures !Repeats(data, size, x, y) {
      assert Before(x, y, a, s) || a <= x;
    }
  }

  /** Once the second window runs past the end, the search moves to the next first window. */
  lemma NextRow(data: seq<int>, size: nat, a: nat, s: nat)
    requires a < s && s + size >= |data| && NoneBefore(data, size, a, s)
    ensures NoneBefore(data, size, a + 1, a + 2)
  {
    forall x: nat, y: nat | Before(x, y, a + 1, a + 2) ensures !Repeats(data, size, x, y) {
      if x == a && y >= s {
        assert y + size >= |data|;
      } else if x < a || (x == a && y < s) {
        assert Before(x, y, a, s);
      }
    }
  }

  /** A pair whose windows differ is passed over. */
  lemma NextPair(data: seq<int>, size: nat, a: nat, s: nat)
    requires a < s && s + size < |data| && data[s..s + size] != data[a..a + size]
    requires NoneBefore(data, size, a, s)
    ensures NoneBefore(data, size, a, s + 1)
  {
    forall x: nat, y: nat | Before(x, y, a, s + 1) ensures !Repeats(data, size, x, y) {
      if x != a || y != s {
        assert Before(x, y, a, s);
      }
    }
  }

  /** `r` is the first pair the search meets whose windows are equal, or there is none. */
  ghost predicate FirstRepeat(data: seq<int>, size: nat, r: Option<(nat, nat)>)
  {
    match r
    case None => forall x: nat, y: nat :: !Repeats(data, size, x, y)
    case Some(p) => Repeats(data, size, p.0, p.0 + p.1) && NoneBefore(data, size, p.0, p.0 + p.1)
  }

  /** The search from `(a, s)` finds the first repeat at or after that pair, or tells there is none. */
  lemma {:induction false} SearchMeaning(data: seq<int>, size: nat, a: nat, s: nat)
    requires a < s && NoneBefore(data, size, a, s)
    ensures FirstRepeat(data, size, Search(data, size, a, s))
    decreases |data| - a, |data| - s
  {
    if a + size >= |data| {
      assert Search(data, size, a, s) == None;
      PastTheEnd(data, size, a, s);
    } else if s + size >= |data| {
      assert Search(data, size, a, s) == Search(data, size, a + 1, a + 2);
      NextRow(data, size, a, s);
      SearchMeaning(data, size, a + 1, a + 2);
    } else if data[s..s + size] == data[a..a + size] {
      assert Search(data, size, a, s) == Some((a, s - a));
      FoundHere(data, size, a, s);
    } else {
      assert Search(data, size, a, s) == Search(data, size, a, s + 1);
      NextPair(data, size, a, s);
      SearchMeaning(data, size, a, s + 1);
    }
  }

  /** A repeat met with none before it is the first one. */
  lemma FoundHere(data: seq<int>, size: nat, a: nat, s: nat)
    requires a < s && s + size < |data| && data[s..s + size] == data[a..a + size]
    requires NoneBefore(data, size, a, s)
    ensures FirstRepeat(data, size, Some((a, s - a)))
  {
    assert a + (s - a) == s;
  }

  /** `FindPattern` finds a repeat exactly when there is one, and then the first one the loops meet. */
  lemma FindPatternMeaning(data: seq<int>, size: nat)
    ensures FindPattern(data, size).Ok? <==> |data| >= size && exists x: nat, y: nat :: Repeats(data, size, x, y)
    ensures FindPattern(data, size).Ok? ==> FirstRepeat(data, size, Some(FindPattern(data, size).value))
  {
    if |data| >= size {
      assert NoneBefore(data, size, 0, 1);
      SearchMeaning(data, size, 0, 1);
      if Search(data, size, 0, 1).Some? {
        var p := Search(data, size, 0, 1).value;
        assert Repeats(data, size, p.0, p.0 + p.1);
      }
    }
  }

  /** `find_pattern_start`, loop for loop. */
  method FindPatternStart(data: seq<int>, size: nat) returns (r: Result<(nat, nat)>)
    ensures r == FindPattern(data, size)
  {
    if |data| < size {
      return Panic;
    }
    var start := 0;
    while start < |data| - size
      invariant start <= |data| - size
      invariant Search(data, size, 0, 1) == Search(data, size, start, start + 1)
    {
      var s := start + 1;
      while s < |data| - size
        invariant start < s <= |data| - size
        invariant Search(data, size, 0, 1) == Search(data, size, start, s)
      {
        if data[s..s + size] == data[start..start + size] {
          return Ok((start, s - start));
        }
        s := s + 1;
      }
      start := start + 1;
    }
    return Panic;
  }

  // -------------------------------------------------------- extrapolation

  /**
   * The sum of `total` gains, taking the first `start` from `increase`
   * and repeating the `length` that follow them for the rest.
   */
  function Extrapolate(increase: seq<int>, start: nat, length: nat, total: nat): int
    requires 0 < length && start + length <= |increase| && start <= total
  {
    var pattern0 := increase[..start];
    var pattern := increase[start..start + length];
    var m := (total - start) / length;
    var left := (total - start) - m * length;
    m * Sum(pattern) + Sum(pattern0) + Sum(pattern[..left])
  }

  /**
   * A run of `m` copies of `p` and then `left` more of its elements, given
   * as a run that starts with `p` and repeats itself every `|p|` on.
   */
  lemma {:induction false} PeriodicSum(h: seq<int>, p: seq<int>, m: nat, left: nat)
    requires |p| > 0 && left <= |p| && |h| == m * |p| + left
    requires forall i :: 0 <= i < |h| && i < |p| ==> h[i] == p[i]
    requires forall i :: |p| <= i < |h| ==> h[i] == h[i - |p|]
    ensures Sum(h) == m * Sum(p) + Sum(p[..left])
    decreases m
  {
    if m == 0 {
      assert h == p[..left];
    } else {
      var rest := h[|p|..];
      assert |rest| == (m - 1) * |p| + left;
      assert h == p + rest;
      forall i | 0 <= i < |rest| && i < |p| ensures rest[i] == p[i] {
        assert rest[i] == h[i + |p|] == h[i];
      }
      forall i | |p| <= i < |rest| ensures rest[i] == rest[i - |p|] {
        assert rest[i] == h[i + |p|] == h[i];
      }
      PeriodicSum(rest, p, m - 1, left);
      SumAppend(p, rest);
    }
  }

  /** What is left of `x` after taking out whole `y`s is less than `y`. */
  lemma Remainder(x: nat, y: nat)
    requires y > 0
    ensures 0 <= x - (x / y) * y < y
  {
  }

  /** The gains from `start` on start with the pattern and repeat every `|pattern|`. */
  lemma TailRepeats(g: seq<int>, start: nat, length: nat, pattern: seq<int>)
    requires start <= |g| && |pattern| == length
    requires forall k :: start <= k < |g| && k < start + length ==> g[k] == pattern[k - start]
    requires forall k :: start + length <= k < |g| ==> g[k] == g[k - length]
    ensures forall i :: 0 <= i < |g[start..]| && i < length ==> g[start..][i] == pattern[i]
    ensures forall i :: length <= i < |g[start..]| ==> g[start..][i] == g[start..][i - length]
  {
  }

  /**
   * The extrapolation is right whenever the gains really do repeat: if
   * `g` holds `total` gains that agree with `increase` as far as its
   * first `start + length`, and repeat every `length` after that, `g`
   * sums to the extrapolation.
   */
  lemma ExtrapolateSound(g: seq<int>, increase: seq<int>, start: nat, length: nat, total: nat)
    requires 0 < length && start + length <= |increase| && start <= total && |g| == total
    requires forall k :: 0 <= k < start + length && k < total ==> g[k] == increase[k]
    requires forall k :: start + length <= k < total ==> g[k] == g[k - length]
    ensures Sum(g) == Extrapolate(increase, start, length, total)
  {
    var m := (total - start) / length;
    Remainder(total - start, length);
    RepeatedSum(g, increase, start, length, m, (total - start) - m * length);
  }

  /** `ExtrapolateSound` with the whole repeats `m` and the rest `left` given. */
  lemma RepeatedSum(g: seq<int>, increase: seq<int>, start: nat, length: nat, m: nat, left: nat)
    requires 0 < length && start + length <= |increase| && left < length
    requires |g| == start + m * length + left
    requires forall k :: 0 <= k < start + length && k < |g| ==> g[k] == increase[k]
    requires forall k :: start + length <= k < |g| ==> g[k] == g[k - length]
    ensures Sum(g) == m * Sum(increase[start..start + length]) + Sum(increase[..start])
                      + Sum(increase[start..start + length][..left])
  {
    var pattern := increase[start..start + length];
    var tail := g[start..];
    assert Sum(tail) == m * Sum(pattern) + Sum(pattern[..left]) by {
      TailRepeats(g, start, length, pattern);
      PeriodicSum(tail, pattern, m, left);
    }
    assert Sum(g) == Sum(increase[..start]) + Sum(tail) by {
      assert g[..start] == increase[..start];
      assert g == g[..start] + tail;
      SumAppend(g[..start], tail);
    }
  }

  // -------------------------------------------------------------- heights

  /** The gain of each sample over the one before, the first over an empty chamber. */
  function Increases(h: seq<int>): (r: seq<int>)
    ensures |r| == |h|
  {
    seq(|h|, k requires 0 <= k < |h| => if k == 0 then h[0] else h[k] - h[k - 1])
  }

  /** The gains add up to the last sample. */
  lemma {:induction false} Telescope(h: seq<int>)
    requires |h| > 0
    ensures Sum(Increases(h)) == h[|h| - 1]
    decreases |h|
  {
    if |h| > 1 {
      var front := h[..|h| - 1];
      assert Increases(h)[..|h| - 1] == Increases(front);
      Telescope(front);
    } else {
      assert Increases(h)[..0] == [];
    }
  }

  /** Recording one more sample adds its gain at the end. */
  lemma IncreasesSnoc(h: seq<int>, x: int)
    ensures Increases(h + [x]) == Increases(h) + [if h == [] then x else x - h[|h| - 1]]
  {
  }

  /** The heights `height` gives after `Step * k + 1` rocks, for `k` from 1 to `count`. */
  function Sampled(height: nat -> int, count: nat): (r: seq<int>)
    ensures |r| == count
  {
    seq(count, k requires 0 <= k => height(Step * (k + 1) + 1))
  }

  /** The height of the tower the jets build, as a function of the number of rocks. */
  function HeightOf(jets: seq<char>): nat -> int
  {
    (n: nat) => if |jets| == 0 then 0 else Height(jets, n)
  }

  /** How many samples the simulation has taken once it has dropped `index` rocks. */
  function Taken(index: nat): nat
  {
    if index == 0 then 0 else (index - 1) / Step
  }

  /** Dropping rock `index` takes a sample exactly when the source records one, the next in line. */
  lemma TakenStep(index: nat)
    ensures Taken(index + 1) == Taken(index) + (if index != 0 && index % Step == 0 then 1 else 0)
    ensures index != 0 && index % Step == 0 ==> index == Step * (Taken(index) + 1)
  {
    var q := index / Step;
    var r := index % Step;
    assert index == Step * q + r;
    if index != 0 {
      if r == 0 {
        assert index - 1 == Step * (q - 1) + (Step - 1);
        assert Taken(index) == q - 1;
      } else {
        assert index - 1 == Step * q + (r - 1);
        assert Taken(index) == q;
      }
    }
  }

  /** What the second part prints for the gains the simulation recorded, or a panic. */
  function Answer(increase: seq<int>): (r: Result<int>)
  {
    match FindPattern(increase, Window)
    case Panic => Panic
    case Ok((start, length)) =>
      if start > Total then Panic
      else
        var height := Extrapolate(increase, start, length, Total);
        if height < 1 then Panic else Ok(height - 1)
  }

  /**
   * The extrapolation is sound whenever the gains repeat: if the gains of
   * all `Total` samples repeat with the period found in the first
   * `Recorded`, from where it was found, the answer is the last sample
   * less one.
   */
  lemma AnswerSound(samples: seq<int>)
    requires |samples| == Total
    requires FindPattern(Increases(samples[..Recorded]), Window).Ok?
    requires var p := FindPattern(Increases(samples[..Recorded]), Window).value;
             forall k :: p.0 + p.1 <= k < Total ==> Increases(samples)[k] == Increases(samples)[k - p.1]
    ensures samples[Total - 1] >= 1 ==> Answer(Increases(samples[..Recorded])) == Ok(samples[Total - 1] - 1)
  {
    var increase := Increases(samples[..Recorded]);
    var p := FindPattern(increase, Window).value;
    var g := Increases(samples);
    ExtrapolateSound(g, increase, p.0, p.1, Total);
    Telescope(samples);
  }

  /**
   * The second part is sound whenever the gains repeat: if the gains of
   * the heights after `Step * k + 1` rocks, for every `k` up to `Total`,
   * repeat with the period found among the first `Recorded`, the answer
   * is the height after `Blocks + 1` rocks less one.
   */
  lemma AnswerMeaning(height: nat -> int)
    requires FindPattern(Increases(Sampled(height, Recorded)), Window).Ok?
    requires var p := FindPattern(Increases(Sampled(height, Recorded)), Window).value;
             forall k :: p.0 + p.1 <= k < Total ==>
               Increases(Sampled(height, Total))[k] == Increases(Sampled(height, Total))[k - p.1]
    ensures height(Blocks + 1) >= 1 ==>
              Answer(Increases(Sampled(height, Recorded))) == Ok(height(Blocks + 1) - 1)
  {
    var all := Sampled(height, Total);
    assert all[..Recorded] == Sampled(height, Recorded);
    AnswerSound(all);
    assert all[Total - 1] == height(Blocks + 1);
  }

  /**
   * What the loop of `part2` keeps about its samples: after `index`
   * rocks, `increase` holds the gains of the samples taken so far and
   * `last` the last of them, and the height `current` of the tower is no
   * lower than that.
   */
  ghost predicate Recording(height: nat -> int, current: int, index: nat, increase: seq<int>, last: int)
  {
    var samples := Sampled(height, Taken(index));
    && increase == Increases(samples)
    && last == (if samples == [] then 0 else samples[|samples| - 1])
    && 0 <= last <= current
  }

  /** A rock that is not the last of a hundred takes no sample; the tower only grows. */
  lemma SkipSample(height: nat -> int, current: int, index: nat, increase: seq<int>, last: int, next: int)
    requires Recording(height, current, index, increase, last) && current <= next
    requires index == 0 || index % Step != 0
    ensures Recording(height, next, index + 1, increase, last)
  {
    TakenStep(index);
  }

  /** The last rock of a hundred takes a sample: its gain over the last one is recorded. */
  lemma TakeSample(height: nat -> int, current: int, index: nat, increase: seq<int>, last: int, next: int)
    requires Recording(height, current, index, increase, last) && current <= next
    requires index != 0 && index % Step == 0 && next == height(index + 1)
    ensures Recording(height, next, index + 1, increase + [next - last], next)
  {
    TakenStep(index);
    var samples := Sampled(height, Taken(index));
    assert Sampled(height, Taken(index + 1)) == samples + [next];
    IncreasesSnoc(samples, next);
  }

  /** Rock `index` lands on the tower of the first `index`: a tower no lower, whose height `HeightOf` gives. */
  lemma NextHeight(jets: seq<char>, index: nat, t: Tower)
    requires |jets| > 0 && t == Drops(jets, index)
    ensures var u := Place(t, jets, Tiles(Rocks[index % |Rocks|]));
            u == Drops(jets, index + 1) && t.startX <= u.startX && HeightOf(jets)(index + 1) == u.startX - 4
  {
    NextDrop(jets, index);
    HeightGrows(jets, index);
  }

  /** The first half of `part2`: drops 40000 rocks and records the gain of every hundred. */
  method RecordGains(jets: seq<char>) returns (increase: seq<int>)
    requires |jets| > 0
    ensures increase == Increases(Sampled(HeightOf(jets), Recorded))
  {
    var cave := new Cave(jets);
    increase := [];
    var last := 0;
    for index := 0 to 40000
      invariant fresh(cave) && cave.Valid() && cave.jets == jets && cave.State() == Drops(jets, index)
      invariant Recording(HeightOf(jets), cave.startX - 4, index, increase, last)
    {
      ghost var before := cave.State();
      cave.AddBlock(Rocks[index % |Rocks|]);
      NextHeight(jets, index, before);
      var height := cave.startX - 4;
      if index != 0 && index % Step == 0 {
        TakeSample(HeightOf(jets), before.startX - 4, index, increase, last, height);
        increase := increase + [height - last];
        last := height;
      } else {
        SkipSample(HeightOf(jets), before.startX - 4, index, increase, last, height);
      }
    }
  }

  /** `part2`: the gains of every hundred rocks, searched for a repeat and extrapolated. */
  method Part2(jets: seq<char>) returns (r: Result<int>)
    ensures r == if jets == [] then Panic else Answer(Increases(Sampled(HeightOf(jets), Recorded)))
  {
    if jets == [] {
      return Panic;
    }
    var increase := RecordGains(jets);
    var found := FindPatternStart(increase, Window);
    match found
    case Panic =>
      return Panic;
    case Ok((start, length)) =>
      var height := Extrapolate(increase, start, length, Total);
      if height < 1 {
        return Panic;
      }
      return Ok(height - 1);
  }
}
