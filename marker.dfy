// Tuning trouble (year 2022, day 6): the first position after which the
// last `w` characters of the datastream are all different.

module Marker {
  import opened Common

  /** No character occurs twice. */
  predicate Distinct(t: string)
  {
    forall a, b :: 0 <= a < b < |t| ==> t[a] != t[b]
  }

  /** The set of characters of `t`, as the program collects a window into a hash set. */
  function Chars(t: string): set<char>
  {
    if t == [] then {} else Chars(t[..|t| - 1]) + {t[|t| - 1]}
  }

  lemma {:induction false} CharsMembers(t: string)
    ensures forall c :: c in Chars(t) <==> c in t
  {
    if t != [] {
      CharsMembers(t[..|t| - 1]);
      assert t == t[..|t| - 1] + [t[|t| - 1]];
    }
  }

  /** The set of a window has as many elements as the window exactly when its characters are distinct. */
  lemma {:induction false} CharsCount(t: string)
    ensures |Chars(t)| <= |t|
    ensures |Chars(t)| == |t| <==> Distinct(t)
  {
    if t != [] {
      var init, c := t[..|t| - 1], t[|t| - 1];
      assert t == init + [c];
      CharsCount(init);
      CharsMembers(init);
      if c in Chars(init) {
        assert Chars(t) == Chars(init);
        var k :| 0 <= k < |init| && init[k] == c;
        assert t[k] == t[|t| - 1];
      } else {
        assert |Chars(t)| == |Chars(init)| + 1;
        DistinctSnoc(init, c);
      }
    }
  }

  /** Appending a character keeps a string distinct exactly when the string was distinct and lacks it. */
  lemma DistinctSnoc(t: string, c: char)
    ensures Distinct(t + [c]) <==> Distinct(t) && c !in t
  {
    var u := t + [c];
    if c in t {
      var k :| 0 <= k < |t| && t[k] == c;
      assert u[k] == c && u[|t|] == c;
    }
    if Distinct(u) {
      forall a, b | 0 <= a < b < |t| ensures t[a] != t[b] {
        assert u[a] == t[a] && u[b] == t[b];
      }
    }
  }

  /** The window of width `w` ending at `end` has distinct characters. */
  predicate DistinctWindow(s: string, w: nat, end: nat)
  {
    w <= end <= |s| && Distinct(s[end - w..end])
  }

  /** Whether the window of width `w` ending at `end` has distinct characters, tested as the program does. */
  predicate MarkerAt(s: string, w: nat, end: nat)
    requires w <= end <= |s|
  {
    |Chars(s[end - w..end])| == w
  }

  /** The program's test on a window holds exactly when the window's characters are distinct. */
  lemma MarkerMeansDistinct(s: string, w: nat, end: nat)
    requires w <= end <= |s|
    ensures MarkerAt(s, w, end) <==> DistinctWindow(s, w, end)
  {
    CharsCount(s[end - w..end]);
  }

  /** The first `end >= i + w` whose window passes the program's test, scanning windows from index `i`. */
  function FindFrom(s: string, w: nat, i: nat): (r: Option<nat>)
    requires w > 0
    ensures r.Some? ==> i + w <= r.value <= |s| && DistinctWindow(s, w, r.value)
    ensures r.Some? ==> forall e: nat :: i + w <= e < r.value ==> !DistinctWindow(s, w, e)
    ensures r.None? ==> forall e: nat :: i + w <= e ==> !DistinctWindow(s, w, e)
    decreases |s| - i
  {
    if i + w > |s| then None
    else
      MarkerMeansDistinct(s, w, i + w);
      if MarkerAt(s, w, i + w) then Some(i + w)
      else FindFrom(s, w, i + 1)
  }

  /**
   * `search_start_of_message`: `index + w` for the first window of `w`
   * characters that are all different. Panics when no window qualifies,
   * and (in `windows`) when `w` is 0.
   */
  function StartOfMessage(s: string, w: nat): (r: Result<nat>)
    ensures r.Ok? <==> w > 0 && exists e :: DistinctWindow(s, w, e)
    ensures r.Ok? ==> w <= r.value <= |s| && DistinctWindow(s, w, r.value)
    ensures r.Ok? ==> forall e: nat :: e < r.value ==> !DistinctWindow(s, w, e)
  {
    if w == 0 then Panic
    else
      match FindFrom(s, w, 0)
      case None => Panic
      case Some(e) => Ok(e)
  }

  /** `part1` and `part2` look for windows of 4 and 14 characters. */
  function Part1(s: string): (r: Result<nat>)
    ensures r.Ok? ==> DistinctWindow(s, 4, r.value) && forall e: nat :: e < r.value ==> !DistinctWindow(s, 4, e)
  {
    StartOfMessage(s, 4)
  }

  function Part2(s: string): (r: Result<nat>)
    ensures r.Ok? ==> DistinctWindow(s, 14, r.value) && forall e: nat :: e < r.value ==> !DistinctWindow(s, 14, e)
  {
    StartOfMessage(s, 14)
  }
}
