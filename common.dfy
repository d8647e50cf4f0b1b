// Shared vocabulary of the solvers: optional values, the outcome of a
// computation that may panic, decimal digits, sums and an ascending sort.

module Common {

  datatype Option<T> = None | Some(value: T)

  /** The outcome of a computation the program may abort (a Rust panic). */
  datatype Result<T> = Ok(value: T) | Panic

  // ---------------------------------------------------------------- digits

  predicate IsDigit(c: char) { '0' <= c <= '9' }

  function DigitValue(c: char): (d: nat)
    requires IsDigit(c)
    ensures d <= 9
  {
    (c as int - '0' as int) as nat
  }

  predicate AllDigits(s: string) { forall i :: 0 <= i < |s| ==> IsDigit(s[i]) }

  /** Decimal value of a digit string, most significant digit first. */
  function DigitsValue(s: string): nat
    requires AllDigits(s)
  {
    if s == [] then 0 else 10 * DigitsValue(s[..|s| - 1]) + DigitValue(s[|s| - 1])
  }

  /** The digits after an optional leading sign `sign`. */
  function Unsigned(s: string, sign: char): string
  {
    if s != [] && s[0] == sign then s[1..] else s
  }

  /**
   * Unsigned decimal parse, as `str::parse` on an unsigned integer type:
   * an optional leading '+' and then a non-empty run of digits; anything
   * else fails.
   */
  function ParseNat(s: string): (r: Option<nat>)
    ensures s == [] || s == "+" ==> r.None?
    ensures s != [] && s[0] != '+' ==> (r.Some? <==> AllDigits(s))
    ensures s != [] && s[0] == '+' ==> (r.Some? <==> |s| > 1 && AllDigits(s[1..]))
    ensures r.Some? && s[0] != '+' ==> r.value == DigitsValue(s)
    ensures r.Some? && s[0] == '+' ==> r.value == DigitsValue(s[1..])
  {
    var digits := Unsigned(s, '+');
    if digits != [] && AllDigits(digits) then Some(DigitsValue(digits)) else None
  }

  /**
   * Signed decimal parse, as `str::parse` on a signed integer type: an
   * optional leading '-' or '+' and then a non-empty run of digits.
   */
  function ParseInt(s: string): (r: Option<int>)
    ensures s == [] || s == "-" || s == "+" ==> r.None?
    ensures s != [] && s[0] != '-' ==> r == (match ParseNat(s) case Some(n) => Some(n as int) case None => None)
    ensures s != [] && s[0] == '-' ==> (r.Some? <==> |s| > 1 && AllDigits(s[1..]))
    ensures r.Some? && s[0] == '-' ==> r.value == -(DigitsValue(s[1..]) as int)
  {
    if s != [] && s[0] == '-' then
      var digits := s[1..];
      if digits != [] && AllDigits(digits) then Some(-(DigitsValue(digits) as int)) else None
    else
      match ParseNat(s) case Some(n) => Some(n as int) case None => None
  }

  /** The leading '+' is optional: with or without it a number reads the same, and a second sign is refused. */
  lemma PlusOptional(s: string)
    ensures s == [] || s[0] != '+' ==> ParseNat("+" + s) == ParseNat(s)
    ensures s != [] && s[0] == '+' ==> ParseNat("+" + s).None?
    ensures s == [] || (s[0] != '+' && s[0] != '-') ==> ParseInt("+" + s) == ParseInt(s)
  {
    assert ("+" + s)[0] == '+' && ("+" + s)[1..] == s;
  }

  /** A leading '-' negates the unsigned reading of the rest, which itself may carry no sign. */
  lemma MinusNegates(s: string)
    ensures s == [] || (s[0] != '+' && s[0] != '-') ==>
      ParseInt("-" + s) == (match ParseNat(s) case Some(n) => Some(-(n as int)) case None => None)
    ensures s != [] && (s[0] == '+' || s[0] == '-') ==> ParseInt("-" + s).None?
  {
    assert ("-" + s)[0] == '-' && ("-" + s)[1..] == s;
    if s != [] && (s[0] == '+' || s[0] == '-') {
      assert !IsDigit(s[0]);
    }
  }

  lemma {:induction false} DigitsValueAppend(s: string, c: char)
    requires AllDigits(s) && IsDigit(c)
    ensures AllDigits(s + [c]) && DigitsValue(s + [c]) == 10 * DigitsValue(s) + DigitValue(c)
  {
    assert (s + [c])[..|s + [c]| - 1] == s;
  }

  // ------------------------------------------------------------------ sums

  function Sum(s: seq<int>): int
  {
    if s == [] then 0 else Sum(s[..|s| - 1]) + s[|s| - 1]
  }

  lemma {:induction false} SumAppend(s: seq<int>, t: seq<int>)
    ensures Sum(s + t) == Sum(s) + Sum(t)
  {
    if t == [] {
      assert s + t == s;
    } else {
      assert (s + t)[..|s + t| - 1] == s + t[..|t| - 1];
      SumAppend(s, t[..|t| - 1]);
    }
  }

  /** Replacing one element changes the sum by the difference. */
  lemma SumUpdate(s: seq<int>, i: nat, v: int)
    requires i < |s|
    ensures Sum(s[i := v]) == Sum(s) - s[i] + v
  {
    assert s == s[..i] + [s[i]] + s[i + 1..];
    assert s[i := v] == s[..i] + [v] + s[i + 1..];
    SumAppend(s[..i] + [s[i]], s[i + 1..]);
    SumAppend(s[..i], [s[i]]);
    SumAppend(s[..i] + [v], s[i + 1..]);
    SumAppend(s[..i], [v]);
    assert Sum([s[i]]) == s[i] by { assert [s[i]][..0] == []; }
    assert Sum([v]) == v by { assert [v][..0] == []; }
  }

  lemma {:induction false} SumNonNegative(s: seq<int>)
    requires forall i :: 0 <= i < |s| ==> s[i] >= 0
    ensures Sum(s) >= 0
  {
    if s != [] { SumNonNegative(s[..|s| - 1]); }
  }

  /** `s` begins with `prefix`. */
  predicate StartsWith(s: string, prefix: string)
  {
    |prefix| <= |s| && s[..|prefix|] == prefix
  }

  /** Sum of the values of `f` over a finite set, in no particular order. */
  ghost function SetSum<T>(s: set<T>, f: T -> int): int
  {
    if s == {} then 0 else var x :| x in s; f(x) + SetSum(s - {x}, f)
  }

  /** The sum does not depend on which element is taken out first. */
  lemma {:induction false} SetSumRemove<T>(s: set<T>, f: T -> int, y: T)
    requires y in s
    ensures SetSum(s, f) == f(y) + SetSum(s - {y}, f)
    decreases |s|
  {
    var x :| x in s && SetSum(s, f) == f(x) + SetSum(s - {x}, f);
    if x != y {
      assert y in s - {x};
      SetSumRemove(s - {x}, f, y);
      assert x in s - {y};
      SetSumRemove(s - {y}, f, x);
      assert s - {x} - {y} == s - {y} - {x};
    }
  }

  /** Adding an element adds its value. */
  lemma SetSumAdd<T>(s: set<T>, f: T -> int, y: T)
    requires y !in s
    ensures SetSum(s + {y}, f) == SetSum(s, f) + f(y)
  {
    SetSumRemove(s + {y}, f, y);
    assert s + {y} - {y} == s;
  }

  /** Functions that agree on the set have the same sum over it. */
  lemma {:induction false} SetSumAgree<T>(s: set<T>, f: T -> int, g: T -> int)
    requires forall x :: x in s ==> f(x) == g(x)
    ensures SetSum(s, f) == SetSum(s, g)
    decreases |s|
  {
    if s != {} {
      var x :| x in s;
      SetSumRemove(s, f, x);
      SetSumRemove(s, g, x);
      SetSumAgree(s - {x}, f, g);
    }
  }

  /** A pointwise smaller function has a smaller sum. */
  lemma {:induction false} SetSumMono<T>(s: set<T>, f: T -> int, g: T -> int)
    requires forall x :: x in s ==> f(x) <= g(x)
    ensures SetSum(s, f) <= SetSum(s, g)
    decreases |s|
  {
    if s != {} {
      var x :| x in s;
      SetSumRemove(s, f, x);
      SetSumRemove(s, g, x);
      SetSumMono(s - {x}, f, g);
    }
  }

  /** ... and a strictly smaller sum when it is strictly smaller somewhere. */
  lemma SetSumLess<T>(s: set<T>, f: T -> int, g: T -> int, y: T)
    requires forall x :: x in s ==> f(x) <= g(x)
    requires y in s && f(y) < g(y)
    ensures SetSum(s, f) < SetSum(s, g)
  {
    SetSumRemove(s, f, y);
    SetSumRemove(s, g, y);
    SetSumMono(s - {y}, f, g);
  }

  /** The sum over a disjoint union is the sum of the sums. */
  lemma {:induction false} SetSumUnion<T>(a: set<T>, b: set<T>, f: T -> int)
    requires a !! b
    ensures SetSum(a + b, f) == SetSum(a, f) + SetSum(b, f)
    decreases |a|
  {
    if a != {} {
      var x :| x in a;
      SetSumRemove(a + b, f, x);
      SetSumRemove(a, f, x);
      assert (a + b) - {x} == (a - {x}) + b;
      SetSumUnion(a - {x}, b, f);
    } else {
      assert a + b == b;
    }
  }

  lemma {:induction false} SetSumNonNegative<T>(s: set<T>, f: T -> int)
    requires forall x :: x in s ==> f(x) >= 0
    ensures SetSum(s, f) >= 0
    decreases |s|
  {
    if s != {} {
      var x :| x in s;
      SetSumRemove(s, f, x);
      SetSumNonNegative(s - {x}, f);
    }
  }

  /** A set of naturals below `n` has at most `n` elements. */
  lemma {:induction false} BoundedCard(s: set<nat>, n: nat)
    requires forall x :: x in s ==> x < n
    ensures |s| <= n
  {
    if n > 0 {
      var t := s - {n - 1};
      BoundedCard(t, n - 1);
      assert s <= t + {n - 1};
      assert |s| <= |t + {n - 1}| <= |t| + 1;
    } else {
      assert s == {};
    }
  }

  // --------------------------------------------------------------- sorting

  predicate SortedAsc(s: seq<int>) { forall i, j :: 0 <= i < j < |s| ==> s[i] <= s[j] }

  function Insert(x: int, s: seq<int>): (r: seq<int>)
    requires SortedAsc(s)
    ensures SortedAsc(r) && multiset(r) == multiset(s) + multiset{x}
    ensures |r| == |s| + 1 && r[0] == (if s == [] || x <= s[0] then x else s[0])
  {
    if s == [] then [x]
    else if x <= s[0] then [x] + s
    else
      var rest := Insert(x, s[1..]);
      ConsSorted(s[0], rest);
      assert s == [s[0]] + s[1..];
      [s[0]] + rest
  }

  lemma ConsSorted(h: int, t: seq<int>)
    requires SortedAsc(t) && (t != [] ==> h <= t[0])
    ensures SortedAsc([h] + t)
  {
    var r := [h] + t;
    forall i, j | 0 <= i < j < |r| ensures r[i] <= r[j] {
      if i > 0 {
        assert r[i] == t[i - 1] && r[j] == t[j - 1];
      } else {
        assert t[0] <= t[j - 1];
      }
    }
  }

  /** Ascending sort, the effect of `Vec::sort` on integers. */
  function Sort(s: seq<int>): (r: seq<int>)
    ensures SortedAsc(r) && multiset(r) == multiset(s) && |r| == |s|
  {
    if s == [] then []
    else
      var init, last := s[..|s| - 1], s[|s| - 1];
      assert s == init + [last];
      assert multiset(s) == multiset(init) + multiset{last};
      Insert(last, Sort(init))
  }

  /** In an ascending permutation of `s`, the last element bounds every element of `s`. */
  lemma SortedLastIsMax(s: seq<int>, r: seq<int>)
    requires SortedAsc(r) && multiset(r) == multiset(s) && r != []
    ensures forall i :: 0 <= i < |s| ==> s[i] <= r[|r| - 1]
  {
    forall i | 0 <= i < |s| ensures s[i] <= r[|r| - 1] {
      assert s[i] in multiset(s);
      assert s[i] in multiset(r);
      var k :| 0 <= k < |r| && r[k] == s[i];
    }
  }

  function Max(a: int, b: int): int { if a >= b then a else b }
  function Min(a: int, b: int): int { if a <= b then a else b }
  function Abs(x: int): nat { if x >= 0 then x else -x }
  function Signum(x: int): int { if x > 0 then 1 else if x < 0 then -1 else 0 }

  /** Rust's `/` on signed integers, which truncates toward zero. */
  function TruncDiv(a: int, b: int): (q: int)
    requires b > 0
    ensures a >= 0 ==> q == a / b
    ensures Abs(q) * b <= Abs(a) < (Abs(q) + 1) * b
  {
    if a >= 0 then a / b else -((-a) / b)
  }

  /** Rust's `%` on signed integers: the remainder takes the sign of the dividend. */
  function TruncMod(a: int, b: int): (r: int)
    requires b > 0
    ensures a >= 0 ==> 0 <= r < b
    ensures a < 0 ==> -b < r <= 0
    ensures a == b * TruncDiv(a, b) + r
  {
    if a >= 0 then a % b else -((-a) % b)
  }

  /** 1 + 2 + ... + n, the sum of the 1-based indices of n items. */
  function IndexSum(n: nat): nat
  {
    if n == 0 then 0 else IndexSum(n - 1) + n
  }

  // -------------------------------------------------------------- ordering

  /** Rust's `std::cmp::Ordering`. */
  datatype Ordering = Less | Equal | Greater

  /** `Ord::cmp` on integers. */
  function CompareInt(a: int, b: int): (r: Ordering)
    ensures r == Less <==> a < b
    ensures r == Equal <==> a == b
    ensures r == Greater <==> a > b
  {
    if a < b then Less else if a == b then Equal else Greater
  }

  /** `Ordering::then_with`: the first comparison unless it is `Equal`. */
  function Then(first: Ordering, second: Ordering): Ordering
  {
    if first == Equal then second else first
  }

  /** Tuples of integers compare lexicographically. */
  function ComparePair(a: (int, int), b: (int, int)): Ordering
  {
    Then(CompareInt(a.0, b.0), CompareInt(a.1, b.1))
  }

  /** Removing entry `i` of a sequence (a heap pop) keeps every other entry and adds none. */
  lemma RemoveKeeps<T>(s: seq<T>, i: nat)
    requires i < |s|
    ensures forall x :: x in s && x != s[i] ==> x in s[..i] + s[i + 1..]
    ensures forall x :: x in s[..i] + s[i + 1..] ==> x in s
  {
    var rest := s[..i] + s[i + 1..];
    assert forall k :: 0 <= k < |rest| ==> rest[k] == s[if k < i then k else k + 1];
    forall x | x in s && x != s[i] ensures x in rest {
      var j :| 0 <= j < |s| && s[j] == x;
      if j < i { assert rest[j] == x; } else { assert rest[j - 1] == x; }
    }
  }

  /** Every pair with its two sides exchanged, in order. */
  function Swapped<T>(pairs: seq<(T, T)>): (r: seq<(T, T)>)
    ensures |r| == |pairs| && forall i :: 0 <= i < |pairs| ==> r[i] == (pairs[i].1, pairs[i].0)
  {
    seq(|pairs|, i requires 0 <= i < |pairs| => (pairs[i].1, pairs[i].0))
  }
}
