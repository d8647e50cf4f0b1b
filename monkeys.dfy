// Monkey in the middle (year 2022, day 11): monkeys inspect the items they
// hold in turn, change each item's worry level and throw it to one of two
// other monkeys depending on a divisibility test.

module Monkeys {
  import opened Common

  /** How a monkey changes the worry level of an item it inspects. */
  datatype Operation = Add(operand: int) | Multiply(operand: int) | Square

  /** `Operation::execute`. */
  function Execute(op: Operation, worry: int): int
  {
    match op
    case Add(k) => worry + k
    case Multiply(k) => worry * k
    case Square => worry * worry
  }

  datatype Monkey = Monkey(items: seq<int>, operation: Operation, divisibleBy: int, monkeyTrue: nat, monkeyFalse: nat)

  /**
   * The worry modification applied after each inspection: `worry / 3` in
   * part one, `worry % factor` in part two, and (as a reference for what
   * the reduction must preserve) no modification at all.
   */
  datatype Relief = Calm | Reduce(factor: int) | Unbounded

  /** Rust's `/` and `%` truncate toward zero; `%` by zero panics. */
  function Relieve(relief: Relief, worry: int): Result<int>
  {
    match relief
    case Calm => Ok(TruncDiv(worry, 3))
    case Reduce(f) => if f == 0 then Panic else Ok(TruncMod(worry, Abs(f)))
    case Unbounded => Ok(worry)
  }

  /** No monkey throws to itself; a self-throw would grow the thrower's own queue during its turn. */
  predicate NoSelfThrow(ms: seq<Monkey>)
  {
    forall i :: 0 <= i < |ms| ==> ms[i].monkeyTrue != i && ms[i].monkeyFalse != i
  }

  /** The same monkeys, whatever items they hold. */
  predicate SameRules(a: seq<Monkey>, b: seq<Monkey>)
  {
    |a| == |b| && forall i :: 0 <= i < |a| ==> a[i].(items := []) == b[i].(items := [])
  }

  /**
   * One inspection: the item's new worry level and the monkey it goes to.
   * The divisibility test panics on a zero divisor.
   */
  function Inspect(m: Monkey, worry: int, relief: Relief): (r: Result<(int, nat)>)
    ensures r.Ok? <==> Relieve(relief, Execute(m.operation, worry)).Ok? && m.divisibleBy != 0
    ensures r.Ok? ==> r.value.0 == Relieve(relief, Execute(m.operation, worry)).value
    ensures r.Ok? ==> r.value.1 == if r.value.0 % m.divisibleBy == 0 then m.monkeyTrue else m.monkeyFalse
  {
    match Relieve(relief, Execute(m.operation, worry))
    case Panic => Panic
    case Ok(w) =>
      if m.divisibleBy == 0 then Panic
      else if w % m.divisibleBy == 0 then Ok((w, m.monkeyTrue))
      else Ok((w, m.monkeyFalse))
  }

  /**
   * Monkey `i` takes its first item, inspects it and appends it to the
   * target's queue. Panics when the target is not a monkey.
   */
  function ThrowFirst(ms: seq<Monkey>, i: nat, relief: Relief): (r: Result<seq<Monkey>>)
    requires i < |ms| && ms[i].items != [] && NoSelfThrow(ms)
    ensures r.Ok? ==> SameRules(ms, r.value) && NoSelfThrow(r.value)
    ensures r.Ok? ==> r.value[i].items == ms[i].items[1..]
    ensures r.Ok? ==> Inspect(ms[i], ms[i].items[0], relief).Ok?
    ensures r.Ok? ==>
      var (w, t) := Inspect(ms[i], ms[i].items[0], relief).value;
      && t < |ms|
      && r.value[t].items == ms[t].items + [w]
      && forall k :: 0 <= k < |ms| && k != i && k != t ==> r.value[k] == ms[k]
  {
    match Inspect(ms[i], ms[i].items[0], relief)
    case Panic => Panic
    case Ok((w, t)) =>
      if t >= |ms| then Panic
      else
        var taken := ms[i := ms[i].(items := ms[i].items[1..])];
        Ok(taken[t := taken[t].(items := taken[t].items + [w])])
  }

  /** Monkey `i` throws all its items, one after the other, from the front. */
  function ThrowAll(ms: seq<Monkey>, i: nat, relief: Relief): (r: Result<seq<Monkey>>)
    requires i < |ms| && NoSelfThrow(ms)
    ensures r.Ok? ==> SameRules(ms, r.value) && NoSelfThrow(r.value) && r.value[i].items == []
    decreases |ms[i].items|
  {
    if ms[i].items == [] then Ok(ms)
    else
      match ThrowFirst(ms, i, relief)
      case Panic => Panic
      case Ok(next) => ThrowAll(next, i, relief)
  }

  /** The monkeys and how many items each has inspected so far. */
  datatype State = State(monkeys: seq<Monkey>, inspects: seq<nat>)

  predicate Consistent(s: State)
  {
    |s.inspects| == |s.monkeys| && NoSelfThrow(s.monkeys)
  }

  /** Monkey `i`'s turn: it inspects as many items as it holds at the start, then throws them all. */
  function Turn(s: State, i: nat, relief: Relief): (r: Result<State>)
    requires Consistent(s) && i < |s.monkeys|
    ensures r.Ok? ==> Consistent(r.value) && SameRules(s.monkeys, r.value.monkeys)
  {
    var inspects := s.inspects[i := s.inspects[i] + |s.monkeys[i].items|];
    match ThrowAll(s.monkeys, i, relief)
    case Panic => Panic
    case Ok(ms) => Ok(State(ms, inspects))
  }

  /** The turns of monkeys `j .. n - 1`, in order. */
  function TurnsFrom(s: State, j: nat, relief: Relief): (r: Result<State>)
    requires Consistent(s) && j <= |s.monkeys|
    ensures r.Ok? ==> Consistent(r.value) && SameRules(s.monkeys, r.value.monkeys)
    decreases |s.monkeys| - j
  {
    if j == |s.monkeys| then Ok(s)
    else
      match Turn(s, j, relief)
      case Panic => Panic
      case Ok(t) => TurnsFrom(t, j + 1, relief)
  }

  /** One round: the turns of all monkeys, in index order. */
  function Round(s: State, relief: Relief): (r: Result<State>)
    requires Consistent(s)
    ensures r.Ok? ==> Consistent(r.value) && SameRules(s.monkeys, r.value.monkeys)
  {
    TurnsFrom(s, 0, relief)
  }

  /** `n` rounds, each one turn of every monkey. */
  function Rounds(s: State, n: nat, relief: Relief): (r: Result<State>)
    requires Consistent(s)
    ensures r.Ok? ==> Consistent(r.value) && SameRules(s.monkeys, r.value.monkeys)
    decreases n
  {
    if n == 0 then Ok(s)
    else
      match Round(s, relief)
      case Panic => Panic
      case Ok(t) => Rounds(t, n - 1, relief)
  }

  function Start(ms: seq<Monkey>): State
  {
    State(ms, seq(|ms|, _ => 0))
  }

  /**
   * The product of the two largest inspection counts, read from the end of
   * the sorted counts. Fewer than two monkeys underflow the index.
   */
  function Business(inspects: seq<nat>): (r: Result<int>)
    ensures r.Ok? <==> |inspects| >= 2
    ensures r.Ok? ==>
      var sorted := Sort(inspects);
      && r.value == sorted[|sorted| - 1] * sorted[|sorted| - 2]
      && (forall k :: 0 <= k < |inspects| ==> inspects[k] <= sorted[|sorted| - 1])
      && sorted[|sorted| - 2] <= sorted[|sorted| - 1]
  {
    if |inspects| < 2 then Panic
    else
      var sorted := Sort(inspects);
      SortedLastIsMax(inspects, sorted);
      Ok(sorted[|sorted| - 1] * sorted[|sorted| - 2])
  }

  /** Apart from the entries at `i` and `j`, every entry of `s` occurs in it more often than among those two. */
  lemma Without(s: seq<nat>, i: nat, j: nat, k: nat)
    requires i < j < |s| && k < |s| && k != i && k != j
    ensures multiset(s)[s[k]] > multiset{s[i], s[j]}[s[k]]
  {
    var s1 := s[..j] + s[j + 1..];
    RemoveAt(s, j);
    var k1 := if k < j then k else k - 1;
    assert s1[k1] == s[k] && s1[i] == s[i];
    var s2 := s1[..i] + s1[i + 1..];
    RemoveAt(s1, i);
    var k2 := if k1 < i then k1 else k1 - 1;
    assert s2[k2] == s[k];
    assert multiset(s)[s[k]] == multiset(s2)[s[k]] + multiset{s[i], s[j]}[s[k]];
  }

  /** Taking out the entry at `i` leaves one occurrence of it fewer. */
  lemma RemoveAt(s: seq<nat>, i: nat)
    requires i < |s|
    ensures multiset(s) == multiset(s[..i] + s[i + 1..]) + multiset{s[i]}
  {
    assert s == s[..i] + [s[i]] + s[i + 1..];
  }

  /** Entries `i` and `j` of `s` hold the two last values of its sorted copy `t`. */
  lemma TopIndices(s: seq<nat>, t: seq<int>) returns (i: nat, j: nat)
    requires |s| >= 2 && |t| == |s| && multiset(t) == multiset(s)
    ensures i < |s| && j < |s| && i != j && s[i] == t[|t| - 1] && s[j] == t[|t| - 2]
  {
    var n := |t|;
    assert t[n - 1] in multiset(s) by {
      assert t[n - 1] in multiset(t);
    }
    i :| 0 <= i < |s| && s[i] == t[n - 1];
    var rest := s[..i] + s[i + 1..];
    RemoveAt(s, i);
    assert t == t[..n - 1] + [t[n - 1]];
    assert multiset(t) == multiset(t[..n - 1]) + multiset{t[n - 1]};
    assert multiset(t)[t[n - 2]] == multiset(rest)[t[n - 2]] + multiset{t[n - 1]}[t[n - 2]];
    assert t[..n - 1][n - 2] == t[n - 2];
    assert t[n - 2] in multiset(rest);
    var j' :| 0 <= j' < |rest| && rest[j'] == t[n - 2];
    j := if j' < i then j' else j' + 1;
  }

  /** The entries of `s` other than `i` and `j` are at most `t[|t| - 2]`. */
  lemma OthersBelow(s: seq<nat>, t: seq<int>, i: nat, j: nat)
    requires |s| >= 2 && |t| == |s| && multiset(t) == multiset(s) && SortedAsc(t)
    requires i < |s| && j < |s| && i != j && s[i] == t[|t| - 1] && s[j] == t[|t| - 2]
    ensures forall k :: 0 <= k < |s| && k != i && k != j ==> s[k] <= s[j]
  {
    var n := |t|;
    assert t == t[..n - 2] + [t[n - 2], t[n - 1]];
    assert multiset(t) == multiset(t[..n - 2]) + multiset{s[i], s[j]};
    forall k | 0 <= k < |s| && k != i && k != j ensures s[k] <= s[j] {
      if i < j {
        Without(s, i, j, k);
      } else {
        Without(s, j, i, k);
        assert multiset{s[j], s[i]} == multiset{s[i], s[j]};
      }
      assert s[k] in multiset(t[..n - 2]);
      var l :| 0 <= l < n - 2 && t[..n - 2][l] == s[k];
      assert t[l] <= t[n - 2];
    }
  }

  /** `i` and `j` are two different monkeys with the largest and second largest counts. */
  predicate TopTwo(inspects: seq<nat>, i: nat, j: nat)
  {
    && i < |inspects| && j < |inspects| && i != j
    && inspects[j] <= inspects[i]
    && forall k :: 0 <= k < |inspects| && k != i && k != j ==> inspects[k] <= inspects[j]
  }

  /** The monkey business is the product of the counts of the two most active monkeys. */
  lemma BusinessIsTopTwo(inspects: seq<nat>)
    requires |inspects| >= 2
    ensures exists i: nat, j: nat :: TopTwo(inspects, i, j) && Business(inspects).value == inspects[i] * inspects[j]
  {
    var t := Sort(inspects);
    var i, j := TopIndices(inspects, t);
    OthersBelow(inspects, t, i, j);
    assert TopTwo(inspects, i, j);
  }

  /**
   * `run_rounds`: plays `rounds` rounds on a local copy of the monkeys,
   * counting inspections, and returns the monkey business.
   */
  method RunRounds(monkeys: seq<Monkey>, rounds: nat, relief: Relief) returns (r: Result<int>)
    requires NoSelfThrow(monkeys)
    ensures r == match Rounds(Start(monkeys), rounds, relief)
                 case Panic => Panic
                 case Ok(s) => Business(s.inspects)
  {
    var ms := monkeys;
    var inspects: seq<nat> := seq(|ms|, _ => 0);
    ghost var target := Rounds(Start(monkeys), rounds, relief);
    for round := 0 to rounds
      invariant Consistent(State(ms, inspects))
      invariant target == Rounds(State(ms, inspects), rounds - round, relief)
    {
      var next := PlayRound(ms, inspects, relief);
      if next.Panic? {
        return Panic;
      }
      ms, inspects := next.value.monkeys, next.value.inspects;
    }
    r := Business(inspects);
  }

  /** One round of `run_rounds`: the turns of all monkeys, in index order. */
  method PlayRound(ms: seq<Monkey>, inspects: seq<nat>, relief: Relief) returns (r: Result<State>)
    requires Consistent(State(ms, inspects))
    ensures r == Round(State(ms, inspects), relief)
  {
    var cur, counts := ms, inspects;
    ghost var target := Round(State(ms, inspects), relief);
    for index := 0 to |ms|
      invariant Consistent(State(cur, counts)) && |cur| == |ms|
      invariant target == TurnsFrom(State(cur, counts), index, relief)
    {
      var next := PlayTurn(cur, counts, index, relief);
      if next.Panic? {
        return Panic;
      }
      cur, counts := next.value.monkeys, next.value.inspects;
    }
    return Ok(State(cur, counts));
  }


  /**
   * One turn as the program plays it: adds the queue length to the
   * monkey's count, then repeatedly removes the front item, inspects it and
   * pushes it onto its target's queue.
   */
  method PlayTurn(ms: seq<Monkey>, inspects: seq<nat>, index: nat, relief: Relief) returns (r: Result<State>)
    requires Consistent(State(ms, inspects)) && index < |ms|
    ensures r == Turn(State(ms, inspects), index, relief)
  {
    var counts := inspects[index := inspects[index] + |ms[index].items|];
    var cur := ms;
    while cur[index].items != []
      invariant SameRules(ms, cur) && NoSelfThrow(cur)
      invariant ThrowAll(cur, index, relief) == ThrowAll(ms, index, relief)
      decreases |cur[index].items|
    {
      var worry := cur[index].items[0];
      var inspected := Inspect(cur[index], worry, relief);
      if inspected.Panic? {
        return Panic;
      }
      var (w, t) := inspected.value;
      if t >= |cur| {
        return Panic;
      }
      cur := cur[index := cur[index].(items := cur[index].items[1..])];
      cur := cur[t := cur[t].(items := cur[t].items + [w])];
    }
    return Ok(State(cur, counts));
  }

  /** `part1`: 20 rounds, dividing the worry level by 3 after each inspection. */
  method Part1(monkeys: seq<Monkey>) returns (r: Result<int>)
    requires NoSelfThrow(monkeys)
    ensures r == match Rounds(Start(monkeys), 20, Calm)
                 case Panic => Panic
                 case Ok(s) => Business(s.inspects)
  {
    r := RunRounds(monkeys, 20, Calm);
  }

  /** The product of all divisors. */
  function Factor(ms: seq<Monkey>): int
  {
    if ms == [] then 1 else Factor(ms[..|ms| - 1]) * ms[|ms| - 1].divisibleBy
  }

  /** `part2`: 10000 rounds, reducing the worry level modulo the product of all divisors. */
  method Part2(monkeys: seq<Monkey>) returns (r: Result<int>)
    requires NoSelfThrow(monkeys)
    ensures r == match Rounds(Start(monkeys), 10000, Reduce(Factor(monkeys)))
                 case Panic => Panic
                 case Ok(s) => Business(s.inspects)
  {
    var factor := 1;
    for k := 0 to |monkeys|
      invariant factor == Factor(monkeys[..k])
    {
      assert monkeys[..k + 1][..k] == monkeys[..k];
      factor := factor * monkeys[k].divisibleBy;
    }
    assert monkeys[..|monkeys|] == monkeys;
    r := RunRounds(monkeys, 10000, Reduce(factor));
  }

  // ------------------------------------------------------ items are conserved

  /** How many items the monkeys hold, all together. */
  function ItemCount(ms: seq<Monkey>): int
  {
    Sum(seq(|ms|, k requires 0 <= k < |ms| => |ms[k].items|))
  }

  lemma ItemCountUpdate(ms: seq<Monkey>, i: nat, m: Monkey)
    requires i < |ms|
    ensures ItemCount(ms[i := m]) == ItemCount(ms) - |ms[i].items| + |m.items|
  {
    var counts := seq(|ms|, k requires 0 <= k < |ms| => |ms[k].items|);
    SumUpdate(counts, i, |m.items|);
    assert seq(|ms|, k requires 0 <= k < |ms| => |ms[i := m][k].items|) == counts[i := |m.items|];
  }

  /** A throw moves one item from one queue to another. */
  lemma ThrowFirstKeepsItems(ms: seq<Monkey>, i: nat, relief: Relief)
    requires i < |ms| && ms[i].items != [] && NoSelfThrow(ms) && ThrowFirst(ms, i, relief).Ok?
    ensures ItemCount(ThrowFirst(ms, i, relief).value) == ItemCount(ms)
  {
    var (w, t) := Inspect(ms[i], ms[i].items[0], relief).value;
    var taken := ms[i := ms[i].(items := ms[i].items[1..])];
    ItemCountUpdate(ms, i, ms[i].(items := ms[i].items[1..]));
    ItemCountUpdate(taken, t, taken[t].(items := taken[t].items + [w]));
  }

  lemma {:induction false} ThrowAllKeepsItems(ms: seq<Monkey>, i: nat, relief: Relief)
    requires i < |ms| && NoSelfThrow(ms) && ThrowAll(ms, i, relief).Ok?
    ensures ItemCount(ThrowAll(ms, i, relief).value) == ItemCount(ms)
    decreases |ms[i].items|
  {
    if ms[i].items != [] {
      ThrowFirstKeepsItems(ms, i, relief);
      ThrowAllKeepsItems(ThrowFirst(ms, i, relief).value, i, relief);
    }
  }

  lemma {:induction false} TurnsKeepItems(s: State, j: nat, relief: Relief)
    requires Consistent(s) && j <= |s.monkeys| && TurnsFrom(s, j, relief).Ok?
    ensures ItemCount(TurnsFrom(s, j, relief).value.monkeys) == ItemCount(s.monkeys)
    decreases |s.monkeys| - j
  {
    if j < |s.monkeys| {
      assert Turn(s, j, relief).Ok?;
      var t := Turn(s, j, relief).value;
      assert ThrowAll(s.monkeys, j, relief) == Ok(t.monkeys);
      assert TurnsFrom(s, j, relief) == TurnsFrom(t, j + 1, relief);
      ThrowAllKeepsItems(s.monkeys, j, relief);
      TurnsKeepItems(t, j + 1, relief);
    }
  }

  /** No round creates or loses an item. */
  lemma {:induction false} RoundsKeepItems(s: State, n: nat, relief: Relief)
    requires Consistent(s) && Rounds(s, n, relief).Ok?
    ensures ItemCount(Rounds(s, n, relief).value.monkeys) == ItemCount(s.monkeys)
    decreases n
  {
    if n > 0 {
      TurnsKeepItems(s, 0, relief);
      RoundsKeepItems(Round(s, relief).value, n - 1, relief);
    }
  }

  // -------------------------------------------- the reduction in part two

  /** `x == m * a + r` with `0 <= r < m` pins down the remainder. */
  lemma ModUnique(x: int, m: int, a: int, r: int)
    requires m > 0 && 0 <= r < m && x == m * a + r
    ensures x % m == r
  {
    var b, s := x / m, x % m;
    assert m * (a - b) == s - r;
    if a - b >= 1 {
      MulAtLeast(m, a - b);
    } else if a - b <= -1 {
      MulAtLeast(m, b - a);
    }
  }

  lemma MulAtLeast(m: int, k: int)
    requires m > 0 && k >= 1
    ensures m * k >= m
  {
    assert m * k == m * (k - 1) + m;
  }

  /** Adding a multiple of `m` does not change the remainder. */
  lemma ModShift(c: int, z: int, m: int)
    requires m > 0
    ensures (m * c + z) % m == z % m
  {
    assert z == m * (z / m) + z % m;
    assert m * c + z == m * (c + z / m) + z % m;
    ModUnique(m * c + z, m, c + z / m, z % m);
  }

  /** Numbers whose difference is a multiple of `m` have equal remainders. */
  lemma DifferenceMultiple(u: int, v: int, m: int, q: int)
    requires m > 0 && u - v == m * q
    ensures u % m == v % m
  {
    ModShift(q, v, m);
  }

  /** Every operation maps numbers with equal remainders to numbers with equal remainders. */
  lemma ExecuteCongruent(op: Operation, x: int, y: int, m: int)
    requires m > 0 && x % m == y % m
    ensures Execute(op, x) % m == Execute(op, y) % m
  {
    var q := Quotients(x, y, m);
    match op
    case Add(k) =>
      DifferenceMultiple(x + k, y + k, m, q);
    case Multiply(k) =>
      MultiplyCongruent(x, y, k, m, q);
    case Square =>
      SquareCongruent(x, y, m, q);
  }

  /** Numbers with equal remainders differ by a multiple of `m`. */
  lemma Quotients(x: int, y: int, m: int) returns (q: int)
    requires m > 0 && x % m == y % m
    ensures x - y == m * q
  {
    q := x / m - y / m;
    assert x == m * (x / m) + x % m && y == m * (y / m) + y % m;
  }

  lemma SquareCongruent(x: int, y: int, m: int, q: int)
    requires m > 0 && x - y == m * q
    ensures (x * x) % m == (y * y) % m
  {
    MultiplyCongruent(x, y, x + y, m, q);
    assert x * x - y * y == (x - y) * (x + y);
    DifferenceMultiple(x * x, y * y, m, q * (x + y));
  }

  lemma MultiplyCongruent(x: int, y: int, k: int, m: int, q: int)
    requires m > 0 && x - y == m * q
    ensures x * k - y * k == m * (q * k)
    ensures (x * k) % m == (y * k) % m
  {
    assert x * k - y * k == (x - y) * k;
    assert (m * q) * k == m * (q * k);
    DifferenceMultiple(x * k, y * k, m, q * k);
  }

  /** Rust's remainder by `m` has the same Euclidean remainder as the number itself. */
  lemma TruncModCongruent(x: int, m: int)
    requires m > 0
    ensures TruncMod(x, m) % m == x % m
  {
    ModShift(TruncDiv(x, m), TruncMod(x, m), m);
  }

  /** Numbers with equal remainders modulo `m` pass the same divisibility tests by divisors of `m`. */
  lemma DivisorTest(x: int, y: int, m: int, d: int)
    requires m > 0 && d > 0 && m % d == 0 && x % m == y % m
    ensures x % d == 0 <==> y % d == 0
  {
    var t := m / d;
    assert m == d * t;
    var r := x % m;
    assert x == m * (x / m) + r && y == m * (y / m) + r;
    assert x == d * (t * (x / m)) + r;
    assert y == d * (t * (y / m)) + r;
    ModShift(t * (x / m), r, d);
    ModShift(t * (y / m), r, d);
  }

  /** Every divisor is positive and divides `m`. */
  predicate DividesAll(ms: seq<Monkey>, m: int)
  {
    forall i :: 0 <= i < |ms| ==> ms[i].divisibleBy > 0 && m % ms[i].divisibleBy == 0
  }

  /** With positive divisors, their product is positive and a multiple of each. */
  lemma {:induction false} FactorDividesAll(ms: seq<Monkey>)
    requires forall i :: 0 <= i < |ms| ==> ms[i].divisibleBy > 0
    ensures Factor(ms) > 0 && DividesAll(ms, Factor(ms))
  {
    if ms != [] {
      var init, d := ms[..|ms| - 1], ms[|ms| - 1].divisibleBy;
      FactorDividesAll(init);
      var f := Factor(init);
      assert Factor(ms) == f * d;
      assert f * d > 0 by {
        assert f * d >= f * 1;
      }
      forall i | 0 <= i < |ms| ensures f * d % ms[i].divisibleBy == 0 {
        var e := ms[i].divisibleBy;
        if i == |ms| - 1 {
          ModShift(f, 0, d);
        } else {
          assert ms[i] == init[i];
          assert f == e * (f / e);
          assert f * d == e * ((f / e) * d);
          ModShift((f / e) * d, 0, e);
        }
      }
    }
  }

  /** Equal rules and item counts, and item worry levels with equal remainders modulo `m`. */
  predicate Congruent(a: seq<Monkey>, b: seq<Monkey>, m: int)
    requires m > 0
  {
    && SameRules(a, b)
    && (forall i :: 0 <= i < |a| ==> |a[i].items| == |b[i].items|)
    && (forall i, k :: 0 <= i < |a| && 0 <= k < |a[i].items| && k < |b[i].items| ==> a[i].items[k] % m == b[i].items[k] % m)
  }

  /** One throw with the worry reduced modulo `m` goes where the unreduced throw goes. */
  lemma ThrowFirstCongruent(a: seq<Monkey>, b: seq<Monkey>, i: nat, m: int)
    requires m > 0 && DividesAll(a, m) && Congruent(a, b, m)
    requires i < |a| && a[i].items != [] && NoSelfThrow(a) && NoSelfThrow(b)
    ensures ThrowFirst(a, i, Reduce(m)).Ok? <==> ThrowFirst(b, i, Unbounded).Ok?
    ensures ThrowFirst(a, i, Reduce(m)).Ok? ==>
      var a', b' := ThrowFirst(a, i, Reduce(m)).value, ThrowFirst(b, i, Unbounded).value;
      DividesAll(a', m) && Congruent(a', b', m)
  {
    var x, y := a[i].items[0], b[i].items[0];
    assert a[i].(items := []) == b[i].(items := []);
    var op, d := a[i].operation, a[i].divisibleBy;
    assert b[i].operation == op && b[i].divisibleBy == d;
    ExecuteCongruent(op, x, y, m);
    var w := TruncMod(Execute(op, x), m);
    TruncModCongruent(Execute(op, x), m);
    DivisorTest(w, Execute(op, y), m, d);
    var ra, rb := ThrowFirst(a, i, Reduce(m)), ThrowFirst(b, i, Unbounded);
    if ra.Ok? {
      var a', b' := ra.value, rb.value;
      var t := Inspect(a[i], x, Reduce(m)).value.1;
      assert Inspect(b[i], y, Unbounded).value.1 == t;
      forall j, k | 0 <= j < |a'| && 0 <= k < |a'[j].items| && k < |b'[j].items|
        ensures a'[j].items[k] % m == b'[j].items[k] % m
      {
        if j == i {
          assert a'[j].items[k] == a[i].items[k + 1] && b'[j].items[k] == b[i].items[k + 1];
        } else if j == t && k == |a[t].items| {
          assert a'[j].items[k] == w;
        } else if j == t {
          assert a'[j].items[k] == a[t].items[k];
        }
      }
    }
  }

  /** A whole turn's throws agree, and so does the inspection count. */
  lemma {:induction false} ThrowAllCongruent(a: seq<Monkey>, b: seq<Monkey>, i: nat, m: int)
    requires m > 0 && DividesAll(a, m) && Congruent(a, b, m)
    requires i < |a| && NoSelfThrow(a) && NoSelfThrow(b)
    ensures ThrowAll(a, i, Reduce(m)).Ok? <==> ThrowAll(b, i, Unbounded).Ok?
    ensures ThrowAll(a, i, Reduce(m)).Ok? ==>
      var a', b' := ThrowAll(a, i, Reduce(m)).value, ThrowAll(b, i, Unbounded).value;
      DividesAll(a', m) && Congruent(a', b', m)
    decreases |a[i].items|
  {
    if a[i].items != [] {
      ThrowFirstCongruent(a, b, i, m);
      if ThrowFirst(a, i, Reduce(m)).Ok? {
        ThrowAllCongruent(ThrowFirst(a, i, Reduce(m)).value, ThrowFirst(b, i, Unbounded).value, i, m);
      }
    }
  }

  /** The reduced game `s` and the unbounded game `t` are in step. */
  predicate Related(s: State, t: State, m: int)
    requires m > 0
  {
    DividesAll(s.monkeys, m) && Congruent(s.monkeys, t.monkeys, m) && s.inspects == t.inspects
  }

  /** Both outcomes panic, or both succeed in step. */
  predicate Agree(rs: Result<State>, rt: Result<State>, m: int)
    requires m > 0
  {
    (rs.Ok? <==> rt.Ok?) && (rs.Ok? ==> Related(rs.value, rt.value, m))
  }

  lemma {:induction false} TurnsCongruent(s: State, t: State, j: nat, m: int)
    requires m > 0 && Consistent(s) && Consistent(t) && j <= |s.monkeys| && Related(s, t, m)
    ensures Agree(TurnsFrom(s, j, Reduce(m)), TurnsFrom(t, j, Unbounded), m)
    decreases |s.monkeys| - j
  {
    if j == |s.monkeys| {
      assert |t.monkeys| == j;
    } else {
      TurnCongruent(s, t, j, m);
      var rs, rt := Turn(s, j, Reduce(m)), Turn(t, j, Unbounded);
      if rs.Ok? {
        assert TurnsFrom(s, j, Reduce(m)) == TurnsFrom(rs.value, j + 1, Reduce(m));
        assert TurnsFrom(t, j, Unbounded) == TurnsFrom(rt.value, j + 1, Unbounded);
        TurnsCongruent(rs.value, rt.value, j + 1, m);
      }
    }
  }

  lemma TurnCongruent(s: State, t: State, j: nat, m: int)
    requires m > 0 && Consistent(s) && Consistent(t) && j < |s.monkeys| && Related(s, t, m)
    ensures Agree(Turn(s, j, Reduce(m)), Turn(t, j, Unbounded), m)
  {
    ThrowAllCongruent(s.monkeys, t.monkeys, j, m);
    var ra, rb := ThrowAll(s.monkeys, j, Reduce(m)), ThrowAll(t.monkeys, j, Unbounded);
    if ra.Ok? {
      assert |s.monkeys[j].items| == |t.monkeys[j].items|;
      assert Turn(s, j, Reduce(m)).value.inspects == Turn(t, j, Unbounded).value.inspects;
    }
  }

  lemma {:induction false} RoundsCongruent(s: State, t: State, n: nat, m: int)
    requires m > 0 && Consistent(s) && Consistent(t) && Related(s, t, m)
    ensures Agree(Rounds(s, n, Reduce(m)), Rounds(t, n, Unbounded), m)
    decreases n
  {
    if n > 0 {
      TurnsCongruent(s, t, 0, m);
      var rs, rt := Round(s, Reduce(m)), Round(t, Unbounded);
      if rs.Ok? {
        RoundsCongruent(rs.value, rt.value, n - 1, m);
      }
    }
  }

  /**
   * Reducing every worry level modulo the product of the divisors leaves
   * every divisibility test, hence every throw and every inspection count,
   * as it would be with the worry levels left to grow: part two computes
   * the monkey business of the unbounded game.
   */
  lemma Part2Meaning(monkeys: seq<Monkey>, n: nat)
    requires NoSelfThrow(monkeys) && forall i :: 0 <= i < |monkeys| ==> monkeys[i].divisibleBy > 0
    ensures Rounds(Start(monkeys), n, Reduce(Factor(monkeys))).Ok? <==> Rounds(Start(monkeys), n, Unbounded).Ok?
    ensures Rounds(Start(monkeys), n, Reduce(Factor(monkeys))).Ok? ==>
      Rounds(Start(monkeys), n, Reduce(Factor(monkeys))).value.inspects == Rounds(Start(monkeys), n, Unbounded).value.inspects
  {
    FactorDividesAll(monkeys);
    RoundsCongruent(Start(monkeys), Start(monkeys), n, Factor(monkeys));
  }
}
