// Grove positioning system (year 2022, day 20): a list of numbers is
// mixed by moving each number, in its original order, as many places
// forward or backward as its value, in a circular list. The grove
// coordinates are the numbers 1000, 2000 and 3000 places after the 0.

module Mixing {
  import opened Common

  /** A number with the position it had in the input, as `preprocess` enumerates them. */
  type Entry = (nat, int)

  // ------------------------------------------------------ vector moves

  /** `Vec::insert`: `x` at index `i`, the elements from `i` on one place later. */
  function Insert<T>(s: seq<T>, i: nat, x: T): (r: seq<T>)
    requires i <= |s|
    ensures |r| == |s| + 1
  {
    s[..i] + [x] + s[i..]
  }

  /** `Vec::remove`: the element at index `i` taken out. */
  function Remove<T>(s: seq<T>, i: nat): (r: seq<T>)
    requires i < |s|
    ensures |r| == |s| - 1
  {
    s[..i] + s[i + 1..]
  }

  /** After an insert, `x` is at `i`, the elements before stay and the elements from `i` on are one place later. */
  lemma InsertAt<T>(s: seq<T>, i: nat, x: T)
    requires i <= |s|
    ensures Insert(s, i, x)[i] == x
    ensures forall j :: 0 <= j < i ==> Insert(s, i, x)[j] == s[j]
    ensures forall j :: i < j <= |s| ==> Insert(s, i, x)[j] == s[j - 1]
  {
  }

  /** After a remove, the elements before `i` stay and the later ones are one place earlier. */
  lemma RemoveAt<T>(s: seq<T>, i: nat)
    requires i < |s|
    ensures forall j :: 0 <= j < i ==> Remove(s, i)[j] == s[j]
    ensures forall j :: i <= j < |s| - 1 ==> Remove(s, i)[j] == s[j + 1]
  {
  }

  /** The element at `from` taken out and put back so that it ends at `to`. */
  function Moved<T>(s: seq<T>, from: nat, to: nat): (r: seq<T>)
    requires from < |s| && to < |s|
    ensures |r| == |s|
  {
    Insert(Remove(s, from), to, s[from])
  }

  /** Taking out what was just inserted gives the list back. */
  lemma RemoveInsert<T>(s: seq<T>, i: nat, x: T)
    requires i <= |s|
    ensures Remove(Insert(s, i, x), i) == s
  {
    var r := Remove(Insert(s, i, x), i);
    InsertAt(s, i, x);
    RemoveAt(Insert(s, i, x), i);
    forall j | 0 <= j < |s|
      ensures r[j] == s[j]
    {
    }
  }

  /** How many times `x` occurs in `s`. */
  function Count<T(==)>(s: seq<T>, x: T): nat
  {
    if s == [] then 0 else (if s[0] == x then 1 else 0) + Count(s[1..], x)
  }

  /** Counting distributes over concatenation. */
  lemma {:induction false} CountAppend<T>(a: seq<T>, b: seq<T>, x: T)
    ensures Count(a + b, x) == Count(a, x) + Count(b, x)
  {
    if a == [] {
      assert a + b == b;
    } else {
      assert (a + b)[0] == a[0];
      assert (a + b)[1..] == a[1..] + b;
      CountAppend(a[1..], b, x);
    }
  }

  /** `Count` is the multiplicity in the multiset of the sequence. */
  lemma {:induction false} CountIsMultiplicity<T>(s: seq<T>, x: T)
    ensures Count(s, x) == multiset(s)[x]
  {
    if s != [] {
      assert s == [s[0]] + s[1..];
      CountIsMultiplicity(s[1..], x);
    }
  }

  /** An element counted is somewhere in the sequence. */
  lemma {:induction false} CountedAt<T>(s: seq<T>, x: T) returns (i: nat)
    requires Count(s, x) > 0
    ensures i < |s| && s[i] == x
  {
    if s[0] != x {
      i := CountedAt(s[1..], x);
      i := i + 1;
    } else {
      i := 0;
    }
  }

  /** A sequence of one element counts it once and nothing else. */
  lemma CountSingle<T>(y: T, x: T)
    ensures Count([y], x) == if y == x then 1 else 0
  {
    assert [y][1..] == [];
  }

  /** An element at two places is counted at least twice. */
  lemma TwiceCounted<T>(t: seq<T>, i: nat, j: nat, x: T)
    requires i < j < |t| && t[i] == x && t[j] == x
    ensures Count(t, x) >= 2
  {
    var middle := t[i + 1..j] + ([t[j]] + t[j + 1..]);
    assert t == t[..i] + ([t[i]] + middle);
    CountAppend(t[..i], [t[i]] + middle, x);
    CountAppend([t[i]], middle, x);
    CountAppend(t[i + 1..j], [t[j]] + t[j + 1..], x);
    CountAppend([t[j]], t[j + 1..], x);
    CountSingle(t[i], x);
    CountSingle(t[j], x);
  }
  /** Inserting adds one occurrence. */
  lemma InsertMultiset<T>(s: seq<T>, i: nat, x: T)
    requires i <= |s|
    ensures multiset(Insert(s, i, x)) == multiset(s) + multiset{x}
  {
    assert s == s[..i] + s[i..];
  }

  /** Removing takes one occurrence away. */
  lemma RemoveMultiset<T>(s: seq<T>, i: nat)
    requires i < |s|
    ensures multiset(Remove(s, i)) + multiset{s[i]} == multiset(s)
  {
    assert s == s[..i] + [s[i]] + s[i + 1..];
  }

  /** A move counts every element as often as before. */
  lemma MovedCounts<T>(s: seq<T>, from: nat, to: nat, x: T)
    requires from < |s| && to < |s|
    ensures Count(Moved(s, from, to), x) == Count(s, x)
  {
    RemoveMultiset(s, from);
    InsertMultiset(Remove(s, from), to, s[from]);
    CountIsMultiplicity(Moved(s, from, to), x);
    CountIsMultiplicity(s, x);
  }

  /** A move only reorders: every element is counted as often as before. */
  lemma MovedPermutes(s: seq<Entry>, from: nat, to: nat)
    requires from < |s| && to < |s|
    ensures forall x: Entry :: Count(Moved(s, from, to), x) == Count(s, x)
  {
    forall x: Entry
      ensures Count(Moved(s, from, to), x) == Count(s, x)
    {
      MovedCounts(s, from, to, x);
    }
  }
  /**
   * The moved element ends at `to`, and the others keep their relative
   * order: taking it out again gives what taking it out first gave.
   */
  lemma MovedMeaning<T>(s: seq<T>, from: nat, to: nat)
    requires from < |s| && to < |s|
    ensures Moved(s, from, to)[to] == s[from]
    ensures Remove(Moved(s, from, to), to) == Remove(s, from)
  {
    InsertAt(Remove(s, from), to, s[from]);
    RemoveInsert(Remove(s, from), to, s[from]);
  }

  /**
   * The two orders `decrypt` uses, inserting after the target and then
   * removing the old copy, or inserting at the target and removing the
   * old copy one place later, both make the same move.
   */
  lemma InsertThenRemove<T>(s: seq<T>, from: nat, to: nat)
    requires from < |s| && to < |s|
    ensures to > from ==> Remove(Insert(s, to + 1, s[from]), from) == Moved(s, from, to)
    ensures to <= from ==> Remove(Insert(s, to, s[from]), from + 1) == Moved(s, from, to)
  {
    var m := Moved(s, from, to);
    RemoveAt(s, from);
    InsertAt(Remove(s, from), to, s[from]);
    if to > from {
      InsertAt(s, to + 1, s[from]);
      RemoveAt(Insert(s, to + 1, s[from]), from);
      var r := Remove(Insert(s, to + 1, s[from]), from);
      assert |r| == |m|;
      forall j | 0 <= j < |r|
        ensures r[j] == m[j]
      {
      }
    } else {
      InsertAt(s, to, s[from]);
      RemoveAt(Insert(s, to, s[from]), from + 1);
      var r := Remove(Insert(s, to, s[from]), from + 1);
      assert |r| == |m|;
      forall j | 0 <= j < |r|
        ensures r[j] == m[j]
      {
      }
    }
  }

  // ------------------------------------------------ original positions

  /** The original positions of the entries, in their current order. */
  function Labels(s: seq<Entry>): (r: seq<nat>)
    ensures |r| == |s| && forall i :: 0 <= i < |s| ==> r[i] == s[i].0
  {
    seq(|s|, i requires 0 <= i < |s| => s[i].0)
  }

  /** `0, 1, ..., n - 1`. */
  function Range(n: nat): (r: seq<nat>)
    ensures |r| == n && forall i :: 0 <= i < n ==> r[i] == i
  {
    seq(n, i requires 0 <= i < n => i)
  }

  /** Every original position below the length is held by exactly one entry. */
  predicate Labelled(s: seq<Entry>)
  {
    forall k: nat :: k < |s| ==> Count<nat>(Labels(s), k) == 1
  }

  /** Each position below `n` occurs once in `Range(n)`. */
  lemma {:induction false} RangeOnce(n: nat, k: nat)
    requires k < n
    ensures Count<nat>(Range(n), k) == 1
  {
    assert Range(n) == Range(n - 1) + [n - 1];
    CountAppend<nat>(Range(n - 1), [n - 1], k);
    CountSingle<nat>(n - 1, k);
    if k < n - 1 {
      RangeOnce(n - 1, k);
    } else {
      RangeMissing(n - 1, k);
    }
  }

  /** Positions from `n` on do not occur in `Range(n)`. */
  lemma {:induction false} RangeMissing(n: nat, k: nat)
    requires k >= n
    ensures Count<nat>(Range(n), k) == 0
  {
    if n > 0 {
      assert Range(n) == Range(n - 1) + [n - 1];
      CountAppend<nat>(Range(n - 1), [n - 1], k);
      CountSingle<nat>(n - 1, k);
      RangeMissing(n - 1, k);
    }
  }

  /** Original positions stay unique: no two entries share one below the length. */
  lemma LabelsUnique(s: seq<Entry>, i: nat, j: nat)
    requires Labelled(s) && i < |s| && j < |s| && s[i].0 == s[j].0 < |s|
    ensures i == j
  {
    var t := Labels(s);
    var k: nat := s[i].0;
    assert Count<nat>(t, k) == 1;
    if i < j {
      TwiceCounted<nat>(t, i, j, k);
    } else if j < i {
      TwiceCounted<nat>(t, j, i, k);
    }
  }

  /** Labels of a move are the move of the labels. */
  lemma LabelsMoved(s: seq<Entry>, from: nat, to: nat)
    requires from < |s| && to < |s|
    ensures Labels(Moved(s, from, to)) == Moved(Labels(s), from, to)
  {
    var a := Labels(Moved(s, from, to));
    var b := Moved(Labels(s), from, to);
    RemoveAt(s, from);
    InsertAt(Remove(s, from), to, s[from]);
    RemoveAt(Labels(s), from);
    InsertAt(Remove(Labels(s), from), to, s[from].0);
    forall j | 0 <= j < |a|
      ensures a[j] == b[j]
    {
    }
  }

  /** A move keeps every original position exactly once. */
  lemma MovedLabelled(s: seq<Entry>, from: nat, to: nat)
    requires Labelled(s) && from < |s| && to < |s|
    ensures Labelled(Moved(s, from, to))
  {
    LabelsMoved(s, from, to);
    forall k: nat | k < |s|
      ensures Count<nat>(Labels(Moved(s, from, to)), k) == 1
    {
      MovedCounts<nat>(Labels(s), from, to, k);
    }
  }

  /** The first entry whose original position is `k`, as `find_position` searches. */
  function IndexOf(s: seq<Entry>, k: nat): (r: Option<nat>)
    ensures r.Some? ==> r.value < |s| && s[r.value].0 == k && forall i :: 0 <= i < r.value ==> s[i].0 != k
    ensures r.None? ==> forall i :: 0 <= i < |s| ==> s[i].0 != k
  {
    if s == [] then None
    else if s[0].0 == k then Some(0)
    else match IndexOf(s[1..], k)
      case None => None
      case Some(i) => Some(i + 1)
  }

  /** In a labelled list every original position below its length is found, and at exactly one place. */
  lemma FindLabel(s: seq<Entry>, k: nat)
    requires Labelled(s) && k < |s|
    ensures IndexOf(s, k).Some?
    ensures forall i :: 0 <= i < |s| && s[i].0 == k ==> i == IndexOf(s, k).value
  {
    assert Count<nat>(Labels(s), k) == 1;
    var i := CountedAt<nat>(Labels(s), k);
    assert s[i].0 == k;
    forall j | 0 <= j < |s| && s[j].0 == k
      ensures j == IndexOf(s, k).value
    {
      LabelsUnique(s, j, IndexOf(s, k).value);
    }
  }

  // ------------------------------------------------------------ mixing

  /**
   * Moving the number that was `k`-th in the input: its new index is its
   * index plus its value, reduced Euclidean modulo one less than the
   * length. In a labelled list it is always found (`FindLabel`); the
   * `None` case, where the source's `unwrap` would panic, never arises.
   */
  function MoveOriginal(s: seq<Entry>, k: nat): (r: seq<Entry>)
    requires |s| >= 2
    ensures |r| == |s| && forall x :: Count(r, x) == Count(s, x)
  {
    match IndexOf(s, k)
    case None => s
    case Some(current) =>
      var target := (current + s[current].1) % (|s| - 1);
      MovedPermutes(s, current, target);
      Moved(s, current, target)
  }

  /** The first `k` moves of a round. */
  function MixUpTo(s: seq<Entry>, k: nat): (r: seq<Entry>)
    requires |s| >= 2
    ensures |r| == |s| && forall x :: Count(r, x) == Count(s, x)
  {
    if k == 0 then s else MoveOriginal(MixUpTo(s, k - 1), k - 1)
  }

  /** `rounds` full rounds of mixing. */
  function Mixed(s: seq<Entry>, rounds: nat): (r: seq<Entry>)
    requires |s| >= 2
    ensures |r| == |s| && forall x :: Count(r, x) == Count(s, x)
  {
    if rounds == 0 then s else MixUpTo(Mixed(s, rounds - 1), |s|)
  }

  /**
   * In a labelled list, a move takes the entry at `current`, the one
   * whose original position is `k`, puts it at its new index and keeps
   * the others in their order.
   */
  lemma MoveOriginalMeaning(s: seq<Entry>, k: nat, current: nat)
    requires |s| >= 2 && Labelled(s) && current < |s| && s[current].0 == k < |s|
    ensures IndexOf(s, k) == Some(current)
    ensures var target := (current + s[current].1) % (|s| - 1);
      MoveOriginal(s, k)[target] == s[current]
    ensures var target := (current + s[current].1) % (|s| - 1);
      Remove(MoveOriginal(s, k), target) == Remove(s, current)
  {
    FindLabel(s, k);
    var target := (current + s[current].1) % (|s| - 1);
    var m := MoveOriginal(s, k);
    assert m == Moved(s, current, target);
    MovedMeaning(s, current, target);
  }

  /** A move keeps every original position exactly once. */
  lemma MoveOriginalLabelled(s: seq<Entry>, k: nat)
    requires |s| >= 2 && Labelled(s)
    ensures Labelled(MoveOriginal(s, k))
  {
    match IndexOf(s, k)
    case None =>
      assert MoveOriginal(s, k) == s;
    case Some(current) =>
      var target := (current + s[current].1) % (|s| - 1);
      assert MoveOriginal(s, k) == Moved(s, current, target);
      MovedLabelled(s, current, target);
  }

  /** Part of a round keeps the list labelled. */
  lemma {:induction false} MixUpToLabelled(s: seq<Entry>, k: nat)
    requires |s| >= 2 && Labelled(s)
    ensures Labelled(MixUpTo(s, k))
  {
    if k > 0 {
      MixUpToLabelled(s, k - 1);
      MoveOriginalLabelled(MixUpTo(s, k - 1), k - 1);
    }
  }

  /** Whole rounds keep the list labelled. */
  lemma {:induction false} MixedLabelled(s: seq<Entry>, rounds: nat)
    requires |s| >= 2 && Labelled(s)
    ensures Labelled(Mixed(s, rounds))
  {
    if rounds > 0 {
      MixedLabelled(s, rounds - 1);
      MixUpToLabelled(Mixed(s, rounds - 1), |s|);
    }
  }

  /** Mixing only reorders: after any number of rounds the entries are a permutation of the input. */
  lemma MixedPermutes(s: seq<Entry>, rounds: nat)
    requires |s| >= 2
    ensures multiset(Mixed(s, rounds)) == multiset(s)
  {
    var m := Mixed(s, rounds);
    forall x
      ensures multiset(m)[x] == multiset(s)[x]
    {
      CountIsMultiplicity(m, x);
      CountIsMultiplicity(s, x);
    }
  }

  // ----------------------------------------------------------- decrypt

  /** The input numbers with their positions, each multiplied by the key. */
  function Start(values: seq<int>, key: int): (r: seq<Entry>)
    ensures |r| == |values| && forall i :: 0 <= i < |r| ==> r[i] == (i, values[i] * key)
  {
    seq(|values|, i requires 0 <= i < |values| => (i, values[i] * key))
  }

  /** `preprocess` enumerates the input, so every original position is held once. */
  lemma StartLabelled(values: seq<int>, key: int)
    ensures Labelled(Start(values, key))
  {
    assert Labels(Start(values, key)) == Range(|values|);
    forall k: nat | k < |values|
      ensures Count<nat>(Labels(Start(values, key)), k) == 1
    {
      RangeOnce(|values|, k);
    }
  }

  /** The first entry whose value is 0. */
  function IndexOfZero(s: seq<Entry>): (r: Option<nat>)
    ensures r.Some? ==> r.value < |s| && s[r.value].1 == 0 && forall i :: 0 <= i < r.value ==> s[i].1 != 0
    ensures r.None? ==> forall i :: 0 <= i < |s| ==> s[i].1 != 0
  {
    if s == [] then None
    else if s[0].1 == 0 then Some(0)
    else match IndexOfZero(s[1..])
      case None => None
      case Some(i) => Some(i + 1)
  }

  /** The values 1000, 2000 and 3000 places after the first 0, counted around; no 0 panics. */
  function Grove(s: seq<Entry>): Result<int>
  {
    match IndexOfZero(s)
    case None => Panic
    case Some(z) => Ok(After(s, z, 1000) + After(s, z, 2000) + After(s, z, 3000))
  }

  /** The value `d` places after index `z`, counting around the circle. */
  function After(s: seq<Entry>, z: nat, d: nat): int
    requires |s| > 0
  {
    s[(z + d) % |s|].1
  }

  /**
   * `decrypt`: the numbers scaled by the key and mixed `rounds` times,
   * then the grove coordinates. A single number cannot be moved (the
   * modulus `len - 1` is 0) and panics; an empty list has no 0.
   */
  function Decrypted(values: seq<int>, key: int, rounds: nat): Result<int>
  {
    var s := Start(values, key);
    if |values| == 1 && rounds > 0 then Panic
    else if |values| < 2 then Grove(s)
    else Grove(Mixed(s, rounds))
  }

  // ----------------------------------------------------------- methods

  /** `find_position` on the original positions: the index of the entry first in the input as `k`. */
  method FindPosition(s: seq<Entry>, k: nat) returns (index: nat)
    requires Labelled(s) && k < |s|
    ensures IndexOf(s, k) == Some(index)
  {
    FindLabel(s, k);
    index := 0;
    while s[index].0 != k
      invariant index <= IndexOf(s, k).value
      invariant forall i :: 0 <= i < index ==> s[i].0 != k
      decreases IndexOf(s, k).value - index
    {
      index := index + 1;
    }
  }

  /** One move of the inner loop of `decrypt`, by `insert` and `remove` as the source does it. */
  method MoveOne(numbers: seq<Entry>, originalIndex: nat) returns (r: seq<Entry>)
    requires |numbers| >= 2 && Labelled(numbers) && originalIndex < |numbers|
    ensures r == MoveOriginal(numbers, originalIndex)
  {
    var currentIndex := FindPosition(numbers, originalIndex);
    assert IndexOf(numbers, originalIndex) == Some(currentIndex);
    var newIndex := (currentIndex + numbers[currentIndex].1) % (|numbers| - 1);
    InsertThenRemove(numbers, currentIndex, newIndex);
    if newIndex > currentIndex {
      r := Insert(numbers, newIndex + 1, numbers[currentIndex]);
      r := Remove(r, currentIndex);
    } else {
      r := Insert(numbers, newIndex, numbers[currentIndex]);
      r := Remove(r, currentIndex + 1);
    }
  }

  /** The grove coordinates, searching for the 0 with a loop as `find_position` does. */
  method GroveSum(numbers: seq<Entry>) returns (r: Result<int>)
    ensures r == Grove(numbers)
  {
    var index0 := 0;
    while index0 < |numbers| && numbers[index0].1 != 0
      invariant index0 <= |numbers|
      invariant forall i :: 0 <= i < index0 ==> numbers[i].1 != 0
    {
      index0 := index0 + 1;
    }
    if index0 == |numbers| {
      assert IndexOfZero(numbers) == None;
      return Panic;
    }
    assert IndexOfZero(numbers) == Some(index0);
    var n := |numbers|;
    var n1000 := numbers[(index0 + 1000) % n];
    var n2000 := numbers[(index0 + 2000) % n];
    var n3000 := numbers[(index0 + 3000) % n];
    assert n1000.1 == After(numbers, index0, 1000);
    assert n2000.1 == After(numbers, index0, 2000);
    assert n3000.1 == After(numbers, index0, 3000);
    r := Ok(n1000.1 + n2000.1 + n3000.1);
  }

  /** One round of the inner loop of `decrypt`: each number moved once, in input order. */
  method MixRound(numbers: seq<Entry>) returns (r: seq<Entry>)
    requires |numbers| >= 2 && Labelled(numbers)
    ensures r == MixUpTo(numbers, |numbers|)
  {
    r := numbers;
    for originalIndex := 0 to |numbers|
      invariant r == MixUpTo(numbers, originalIndex)
    {
      MixUpToLabelled(numbers, originalIndex);
      r := MoveOne(r, originalIndex);
    }
  }

  /** `decrypt`: scale, mix `rounds` times by moving each number in input order, then read the grove. */
  method Decrypt(values: seq<int>, key: int, rounds: nat) returns (r: Result<int>)
    ensures r == Decrypted(values, key, rounds)
  {
    var start := Start(values, key);
    StartLabelled(values, key);
    var numbers := start;
    for round := 0 to rounds
      invariant |numbers| == |start|
      invariant |numbers| >= 2 ==> numbers == Mixed(start, round)
      invariant |numbers| < 2 ==> numbers == start && (|numbers| == 1 ==> round == 0)
    {
      if |numbers| == 1 {
        // The first move takes `rem_euclid(0)`: the modulus is zero.
        return Panic;
      }
      if |numbers| >= 2 {
        MixedLabelled(start, round);
        numbers := MixRound(numbers);
      }
    }
    r := GroveSum(numbers);
  }

  /** `part1`: key 1, one round. */
  method Part1(values: seq<int>) returns (r: Result<int>)
    ensures r == Decrypted(values, 1, 1)
  {
    r := Decrypt(values, 1, 1);
  }

  /** `part2`: key 811589153, ten rounds. */
  method Part2(values: seq<int>) returns (r: Result<int>)
    ensures r == Decrypted(values, 811589153, 10)
  {
    r := Decrypt(values, 811589153, 10);
  }
}
