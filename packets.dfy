// Distress signal (year 2022, day 13): packets are integers or lists of
// packets, compared with an integer promoted to a one-element list when it
// meets a list.

module Packets {
  import opened Common

  datatype Packet = Int(value: nat) | List(items: seq<Packet>)

  /** The largest `u32`. */
  const U32Max: nat := 0xFFFF_FFFF

  /** The number of nodes of a packet, which bounds the recursions below. */
  function Size(p: Packet): (n: nat)
    ensures n >= 1
  {
    match p
    case Int(_) => 1
    case List(items) => 1 + SizeAll(items)
  }

  function SizeAll(ps: seq<Packet>): nat
  {
    if ps == [] then 0 else Size(ps[0]) + SizeAll(ps[1..])
  }

  // ----------------------------------------------------------- comparison

  /**
   * `Ord for PacketElement`: two integers compare as numbers, two lists
   * lexicographically, and an integer against a list as the one-element
   * list holding it.
   */
  function Compare(a: Packet, b: Packet): Ordering
    decreases Size(a) + Size(b), 0
  {
    match (a, b)
    case (Int(l), Int(r)) => CompareInt(l, r)
    case (Int(_), List(r)) =>
      assert SizeAll([a]) == 1;
      CompareLists([a], r)
    case (List(l), Int(_)) =>
      assert SizeAll([b]) == 1;
      CompareLists(l, [b])
    case (List(l), List(r)) => CompareLists(l, r)
  }

  /** `Ord for Vec`: element by element, and a proper prefix is smaller. */
  function CompareLists(l: seq<Packet>, r: seq<Packet>): Ordering
    decreases SizeAll(l) + SizeAll(r), 1
  {
    if l == [] && r == [] then Equal
    else if l == [] then Less
    else if r == [] then Greater
    else Then(Compare(l[0], r[0]), CompareLists(l[1..], r[1..]))
  }

  /** The elements a packet is compared by: an integer stands for the list holding it. */
  function Items(p: Packet): (r: seq<Packet>)
    ensures SizeAll(r) <= Size(p)
    ensures p.List? ==> SizeAll(r) < Size(p)
  {
    match p
    case Int(_) =>
      assert SizeAll([p]) == 1;
      [p]
    case List(items) => items
  }

  /** Every comparison is the comparison of the packets' lists, integers promoted. */
  lemma ComparePromoted(a: Packet, b: Packet)
    ensures Compare(a, b) == CompareLists(Items(a), Items(b))
  {
    if a.Int? && b.Int? {
      assert CompareLists([a], [b]) == Then(Compare(a, b), CompareLists([], []));
    }
  }

  /** An integer compares exactly as the one-element list holding it, on either side. */
  lemma IntAsList(x: nat, b: Packet)
    ensures Compare(Int(x), b) == Compare(List([Int(x)]), b)
    ensures Compare(b, Int(x)) == Compare(b, List([Int(x)]))
  {
    ComparePromoted(Int(x), b);
    ComparePromoted(List([Int(x)]), b);
    ComparePromoted(b, Int(x));
    ComparePromoted(b, List([Int(x)]));
  }

  /** A proper prefix compares smaller. */
  lemma {:induction false} PrefixIsLess(l: seq<Packet>, r: seq<Packet>)
    requires |l| < |r| && l == r[..|l|]
    ensures CompareLists(l, r) == Less
  {
    if l != [] {
      CompareReflexive(l[0]);
      assert l[1..] == r[1..][..|l| - 1];
      PrefixIsLess(l[1..], r[1..]);
    }
  }

  /** Lists compare by their first differing position. */
  lemma {:induction false} FirstDifference(l: seq<Packet>, r: seq<Packet>, k: nat)
    requires k < |l| && k < |r| && forall i :: 0 <= i < k ==> Compare(l[i], r[i]) == Equal
    requires Compare(l[k], r[k]) != Equal
    ensures CompareLists(l, r) == Compare(l[k], r[k])
  {
    if k > 0 {
      FirstDifference(l[1..], r[1..], k - 1);
    }
  }

  function Flip(o: Ordering): Ordering
  {
    match o
    case Less => Greater
    case Equal => Equal
    case Greater => Less
  }

  /** Every packet compares equal to itself. */
  lemma {:induction false} CompareReflexive(a: Packet)
    ensures Compare(a, a) == Equal
    decreases Size(a), 0
  {
    if a.List? {
      ListsReflexive(a.items);
    }
  }

  lemma {:induction false} ListsReflexive(l: seq<Packet>)
    ensures CompareLists(l, l) == Equal
    decreases SizeAll(l), 1
  {
    if l != [] {
      CompareReflexive(l[0]);
      ListsReflexive(l[1..]);
    }
  }

  /** Swapping the operands flips the outcome. */
  lemma {:induction false} CompareFlip(a: Packet, b: Packet)
    ensures Compare(b, a) == Flip(Compare(a, b))
    decreases Size(a) + Size(b), 0
  {
    ComparePromoted(a, b);
    ComparePromoted(b, a);
    if !(a.Int? && b.Int?) {
      ListsFlip(Items(a), Items(b));
    }
  }

  lemma {:induction false} ListsFlip(l: seq<Packet>, r: seq<Packet>)
    ensures CompareLists(r, l) == Flip(CompareLists(l, r))
    decreases SizeAll(l) + SizeAll(r), 1
  {
    if l != [] && r != [] {
      CompareFlip(l[0], r[0]);
      ListsFlip(l[1..], r[1..]);
    }
  }

  /** `a` is at most `b` in the packet order. */
  predicate AtMost(a: Packet, b: Packet)
  {
    Compare(a, b) != Greater
  }

  /** The order is transitive. */
  lemma {:induction false} AtMostTransitive(a: Packet, b: Packet, c: Packet)
    requires AtMost(a, b) && AtMost(b, c)
    ensures AtMost(a, c)
    decreases Size(a) + Size(b) + Size(c), 1
  {
    if !(a.Int? && b.Int? && c.Int?) {
      ComparePromoted(a, b);
      ComparePromoted(b, c);
      ComparePromoted(a, c);
      ListsTransitive(Items(a), Items(b), Items(c));
    }
  }

  lemma {:induction false} AtMostTransitiveIf(a: Packet, b: Packet, c: Packet)
    ensures AtMost(a, b) && AtMost(b, c) ==> AtMost(a, c)
    decreases Size(a) + Size(b) + Size(c), 2
  {
    if AtMost(a, b) && AtMost(b, c) {
      AtMostTransitive(a, b, c);
    }
  }

  lemma {:induction false} ListsTransitive(l1: seq<Packet>, l2: seq<Packet>, l3: seq<Packet>)
    requires CompareLists(l1, l2) != Greater && CompareLists(l2, l3) != Greater
    ensures CompareLists(l1, l3) != Greater
    decreases SizeAll(l1) + SizeAll(l2) + SizeAll(l3), 3
  {
    if l1 != [] {
      var h1, h2, h3 := l1[0], l2[0], l3[0];
      AtMostTransitive(h1, h2, h3);
      if Compare(h1, h3) == Equal {
        CompareFlip(h1, h3);
        CompareFlip(h1, h2);
        CompareFlip(h2, h3);
        AtMostTransitiveIf(h2, h3, h1);
        AtMostTransitiveIf(h3, h1, h2);
        ListsTransitive(l1[1..], l2[1..], l3[1..]);
      }
    }
  }

  /** A smaller packet followed by one no larger is still smaller. */
  lemma LessThenAtMost(a: Packet, b: Packet, c: Packet)
    requires Compare(a, b) == Less && AtMost(b, c)
    ensures Compare(a, c) == Less
  {
    CompareFlip(a, c);
    CompareFlip(a, b);
    AtMostTransitiveIf(b, c, a);
  }

  /**
   * The comparison is a total preorder, as sorting requires: reflexive,
   * total, antisymmetric up to `Equal` and transitive.
   */
  lemma TotalPreorder(a: Packet, b: Packet, c: Packet)
    ensures AtMost(a, a)
    ensures AtMost(a, b) || AtMost(b, a)
    ensures Compare(a, b) == Equal <==> AtMost(a, b) && AtMost(b, a)
    ensures AtMost(a, b) && AtMost(b, c) ==> AtMost(a, c)
  {
    CompareReflexive(a);
    CompareFlip(a, b);
    AtMostTransitiveIf(a, b, c);
  }

  // -------------------------------------------------------------- parsing

  /** The outcome of a parser: a packet and the input left, a recoverable failure, or a `u32` overflow panic. */
  datatype Parsed = Parsed(packet: Packet, rest: string) | Failed | Overflow

  /** The outcome of `separated_list0`: the elements and the input left, or the panic of an element. */
  datatype ParsedItems = ParsedItems(items: seq<Packet>, rest: string) | ItemsOverflow

  /** The length of the run of digits `s` starts with. */
  function DigitRun(s: string): (n: nat)
    ensures n <= |s| && AllDigits(s[..n]) && (n < |s| ==> !IsDigit(s[n]))
  {
    if s == [] || !IsDigit(s[0]) then 0
    else
      var n := 1 + DigitRun(s[1..]);
      assert s[..n] == [s[0]] + s[1..][..n - 1];
      n
  }

  /** `parse_int`: a run of digits read as a `u32`, whose `unwrap` panics when it does not fit. */
  function ParseInt(s: string): (r: Parsed)
    ensures r.Parsed? ==> |r.rest| < |s| && Fits(r.packet)
  {
    var n := DigitRun(s);
    if n == 0 then Failed
    else if DigitsValue(s[..n]) > U32Max then Overflow
    else Parsed(Int(DigitsValue(s[..n])), s[n..])
  }

  /** `parse`: a list when the input starts like one, otherwise an integer. */
  function ParseElement(s: string): (r: Parsed)
    ensures r.Parsed? ==> |r.rest| < |s| && Fits(r.packet)
    decreases |s|, 1
  {
    match ParseList(s)
    case Failed => ParseInt(s)
    case other => other
  }

  /** `parse_list`: `[`, elements separated by `,`, then `]`. */
  function ParseList(s: string): (r: Parsed)
    ensures r.Parsed? ==> |r.rest| < |s|
    ensures r.Parsed? ==> r.packet.List? && Fits(r.packet)
    decreases |s|, 0
  {
    if s == [] || s[0] != '[' then Failed
    else
      match Elements(s[1..])
      case ItemsOverflow => Overflow
      case ParsedItems(items, rest) =>
        if rest != [] && rest[0] == ']' then Parsed(List(items), rest[1..]) else Failed
  }

  /**
   * `separated_list0(char(','), parse)`: no element when the first one
   * fails, and after each element another one as long as a `,` and an
   * element follow; a failed element leaves its `,` unread.
   */
  function Elements(s: string): (r: ParsedItems)
    ensures r.ParsedItems? ==> |r.rest| <= |s| && Fits(List(r.items))
    decreases |s|, 2
  {
    match ParseElement(s)
    case Failed => ParsedItems([], s)
    case Overflow => ItemsOverflow
    case Parsed(p, rest) => MoreElements([p], rest)
  }

  function MoreElements(items: seq<Packet>, s: string): (r: ParsedItems)
    ensures r.ParsedItems? ==> |r.rest| <= |s|
    ensures r.ParsedItems? && Fits(List(items)) ==> Fits(List(r.items))
    decreases |s|, 3
  {
    if s == [] || s[0] != ',' then ParsedItems(items, s)
    else
      match ParseElement(s[1..])
      case Failed => ParsedItems(items, s)
      case Overflow => ItemsOverflow
      case Parsed(p, rest) => MoreElements(items + [p], rest)
  }

  // ---------------------------------------------------- printing, round trip

  function DigitChar(d: nat): (c: char)
    requires d <= 9
    ensures IsDigit(c) && DigitValue(c) == d
  {
    ('0' as int + d) as char
  }

  /** The decimal digits of `n`, most significant first. */
  function Decimal(n: nat): (s: string)
    ensures s != [] && AllDigits(s) && DigitsValue(s) == n
  {
    if n < 10 then
      assert [DigitChar(n)][..0] == [];
      [DigitChar(n)]
    else
      var init := Decimal(n / 10);
      DigitsValueAppend(init, DigitChar(n % 10));
      init + [DigitChar(n % 10)]
  }

  /** The packet's text: digits for an integer, a bracketed comma-separated list otherwise. */
  function Show(p: Packet): string
  {
    match p
    case Int(n) => Decimal(n)
    case List(items) => "[" + ShowItems(items) + "]"
  }

  function ShowItems(items: seq<Packet>): string
  {
    if items == [] then ""
    else Show(items[0]) + ShowMore(items[1..])
  }

  /** The elements after the first, each preceded by a comma. */
  function ShowMore(items: seq<Packet>): string
  {
    if items == [] then ""
    else "," + Show(items[0]) + ShowMore(items[1..])
  }

  /** Every integer of the packet fits in a `u32`. */
  predicate Fits(p: Packet)
  {
    match p
    case Int(n) => n <= U32Max
    case List(items) => forall i :: 0 <= i < |items| ==> Fits(items[i])
  }

  /** Text that does not continue a number. */
  predicate Boundary(rest: string)
  {
    rest == [] || !IsDigit(rest[0])
  }

  /** The text of a packet parses back to the packet, leaving what follows it. */
  lemma {:induction false} ParseShow(p: Packet, rest: string)
    requires Fits(p) && Boundary(rest)
    ensures ParseElement(Show(p) + rest) == Parsed(p, rest)
    decreases Size(p), 0
  {
    var s := Show(p) + rest;
    match p
    case Int(n) =>
      var d := Decimal(n);
      assert s[0] == d[0];
      assert ParseList(s) == Failed;
      DigitRunOf(d, rest);
      assert s[..|d|] == d && s[|d|..] == rest;
    case List(items) =>
      assert s == "[" + (ShowItems(items) + "]" + rest);
      assert s[1..] == ShowItems(items) + ("]" + rest);
      ElementsShow(items, "]" + rest);
  }

  /** A run of digits followed by a boundary is read in full. */
  lemma {:induction false} DigitRunOf(d: string, rest: string)
    requires AllDigits(d) && Boundary(rest)
    ensures DigitRun(d + rest) == |d|
  {
    if d != [] {
      assert (d + rest)[1..] == d[1..] + rest;
      DigitRunOf(d[1..], rest);
    }
  }

  lemma {:induction false} ElementsShow(items: seq<Packet>, tail: string)
    requires forall i :: 0 <= i < |items| ==> Fits(items[i])
    requires tail != [] && tail[0] == ']'
    ensures Elements(ShowItems(items) + tail) == ParsedItems(items, tail)
    decreases SizeAll(items), 2
  {
    if items == [] {
      assert ShowItems(items) + tail == tail;
      assert ParseList(tail) == Failed;
      assert DigitRun(tail) == 0;
    } else {
      var more := ShowMore(items[1..]) + tail;
      assert Boundary(more);
      assert ShowItems(items) + tail == Show(items[0]) + more;
      ParseShow(items[0], more);
      MoreShow([items[0]], items[1..], tail);
    }
  }

  lemma {:induction false} MoreShow(done: seq<Packet>, items: seq<Packet>, tail: string)
    requires forall i :: 0 <= i < |items| ==> Fits(items[i])
    requires tail != [] && tail[0] == ']'
    ensures MoreElements(done, ShowMore(items) + tail) == ParsedItems(done + items, tail)
    decreases SizeAll(items), 1
  {
    if items == [] {
      assert ShowMore(items) + tail == tail;
      assert done + items == done;
    } else {
      var more := ShowMore(items[1..]) + tail;
      assert Boundary(more);
      assert ShowMore(items) + tail == [','] + (Show(items[0]) + more);
      ParseShow(items[0], more);
      MoreShow(done + [items[0]], items[1..], tail);
      assert done + [items[0]] + items[1..] == done + items;
    }
  }

  // ---------------------------------------------------------------- parts

  /**
   * A line's packet; `unwrap` panics unless the line starts with one. Every
   * number of a parsed packet fits in a `u32`.
   */
  function ParsePacket(line: string): (r: Result<Packet>)
    ensures r.Ok? ==> Fits(r.value)
  {
    match ParseElement(line)
    case Parsed(p, _) => Ok(p)
    case _ => Panic
  }

  lemma ParsePacketShow(p: Packet)
    requires Fits(p)
    ensures ParsePacket(Show(p)) == Ok(p)
  {
    ParseShow(p, []);
    assert Show(p) + [] == Show(p);
  }

  /** Whatever follows a packet on its line, short of more digits, is ignored, as only `.1` of the result is kept. */
  lemma ParsePacketIgnoresRest(p: Packet, rest: string)
    requires Fits(p) && Boundary(rest)
    ensures ParsePacket(Show(p) + rest) == Ok(p)
  {
    ParseShow(p, rest);
  }

  /**
   * The pairs of the input, three lines at a time (the third, blank, is
   * ignored); a group with fewer than two lines panics on its index.
   */
  function ParsePairs(lines: seq<string>): (r: Result<seq<(Packet, Packet)>>)
    ensures r.Ok? ==> |r.value| == (|lines| + 2) / 3
    decreases |lines|
  {
    if lines == [] then Ok([])
    else if |lines| < 2 then Panic
    else
      var rest := if |lines| < 3 then [] else lines[3..];
      match (ParsePacket(lines[0]), ParsePacket(lines[1]), ParsePairs(rest))
      case (Ok(a), Ok(b), Ok(pairs)) => Ok([(a, b)] + pairs)
      case _ => Panic
  }

  /** `part1`: the sum of the 1-based indices of the pairs in the right order (left smaller). */
  function Part1(pairs: seq<(Packet, Packet)>): (r: nat)
    ensures r <= IndexSum(|pairs|)
    ensures (forall i :: 0 <= i < |pairs| ==> Compare(pairs[i].0, pairs[i].1) == Less) ==> r == IndexSum(|pairs|)
    ensures (forall i :: 0 <= i < |pairs| ==> Compare(pairs[i].0, pairs[i].1) != Less) ==> r == 0
  {
    if pairs == [] then 0
    else
      var n := |pairs|;
      var init := pairs[..n - 1];
      assert forall i :: 0 <= i < n - 1 ==> init[i] == pairs[i];
      Part1(init) + (if Compare(pairs[n - 1].0, pairs[n - 1].1) == Less then n else 0)
  }

  /** Swapping every pair turns the right-ordered pairs into the pairs whose left is larger. */
  lemma {:induction false} Part1Swapped(pairs: seq<(Packet, Packet)>)
    ensures Part1(Swapped(pairs)) == GreaterIndexSum(pairs)
  {
    if pairs != [] {
      var n := |pairs|;
      assert Swapped(pairs)[..n - 1] == Swapped(pairs[..n - 1]);
      Part1Swapped(pairs[..n - 1]);
      CompareFlip(pairs[n - 1].0, pairs[n - 1].1);
    }
  }

  /** The sum of the 1-based indices of the pairs whose left packet is larger. */
  function GreaterIndexSum(pairs: seq<(Packet, Packet)>): nat
  {
    if pairs == [] then 0
    else
      var n := |pairs|;
      GreaterIndexSum(pairs[..n - 1]) + (if Compare(pairs[n - 1].0, pairs[n - 1].1) == Greater then n else 0)
  }

  // --------------------------------------------------------------- sorting

  /** Stable insertion: before the first element larger than `x`. */
  function Insert(x: Packet, t: seq<Packet>): (r: seq<Packet>)
    ensures |r| == |t| + 1
  {
    if t == [] then [x]
    else if Compare(x, t[0]) == Less then [x] + t
    else
      assert t == [t[0]] + t[1..];
      [t[0]] + Insert(x, t[1..])
  }

  /** Insertion adds `x` and keeps every other element. */
  lemma {:induction false} InsertMultiset(x: Packet, t: seq<Packet>)
    ensures multiset(Insert(x, t)) == multiset(t) + multiset{x}
  {
    if t != [] && Compare(x, t[0]) != Less {
      var rest := Insert(x, t[1..]);
      InsertMultiset(x, t[1..]);
      assert Insert(x, t) == [t[0]] + rest;
      assert t == [t[0]] + t[1..];
      assert multiset(Insert(x, t)) == multiset{t[0]} + multiset(rest);
    }
  }

  predicate Sorted(t: seq<Packet>)
  {
    forall i, j :: 0 <= i < j < |t| ==> AtMost(t[i], t[j])
  }

  /** The elements of `t` at most `d`. */
  function Count(t: seq<Packet>, d: Packet): nat
  {
    if t == [] then 0 else (if AtMost(t[0], d) then 1 else 0) + Count(t[1..], d)
  }

  lemma {:induction false} CountAppend(a: seq<Packet>, b: seq<Packet>, d: Packet)
    ensures Count(a + b, d) == Count(a, d) + Count(b, d)
  {
    if a == [] {
      assert a + b == b;
    } else {
      assert (a + b)[1..] == a[1..] + b;
      CountAppend(a[1..], b, d);
    }
  }

  lemma {:induction false} CountInsert(x: Packet, t: seq<Packet>, d: Packet)
    ensures Count(Insert(x, t), d) == Count(t, d) + (if AtMost(x, d) then 1 else 0)
  {
    if t != [] && Compare(x, t[0]) != Less {
      CountInsert(x, t[1..], d);
    }
  }

  /** `x` goes before the first element it is smaller than. */
  lemma {:induction false} InsertShape(x: Packet, t: seq<Packet>) returns (k: nat)
    ensures k <= |t| && Insert(x, t) == t[..k] + [x] + t[k..]
    ensures forall i :: 0 <= i < k ==> Compare(x, t[i]) != Less
    ensures k < |t| ==> Compare(x, t[k]) == Less
  {
    if t == [] || Compare(x, t[0]) == Less {
      k := 0;
      assert t[..0] == [] && t[0..] == t;
    } else {
      var tail := t[1..];
      var k' := InsertShape(x, tail);
      k := k' + 1;
      calc {
        Insert(x, t);
        [t[0]] + Insert(x, tail);
        [t[0]] + (tail[..k'] + [x] + tail[k'..]);
        ([t[0]] + tail[..k']) + [x] + tail[k'..];
        { assert [t[0]] + tail[..k'] == t[..k] && tail[k'..] == t[k..]; }
        t[..k] + [x] + t[k..];
      }
      assert forall i :: 1 <= i < k ==> t[i] == tail[i - 1];
    }
  }

  /** The elements up to `k` are at most `x` and the others are not: `k` of them count. */
  lemma {:induction false} CountSplit(t: seq<Packet>, x: Packet, k: nat)
    requires k <= |t|
    requires forall i :: 0 <= i < k ==> AtMost(t[i], x)
    requires forall i :: k <= i < |t| ==> !AtMost(t[i], x)
    ensures Count(t, x) == k
  {
    if t != [] {
      assert forall i :: 1 <= i < |t| ==> t[1..][i - 1] == t[i];
      CountSplit(t[1..], x, if k == 0 then 0 else k - 1);
    }
  }

  /** A sorted list with `x` spliced in between the elements at most `x` and those above it stays sorted. */
  lemma SortedSplice(t: seq<Packet>, x: Packet, k: nat)
    requires Sorted(t) && k <= |t|
    requires forall i :: 0 <= i < k ==> AtMost(t[i], x)
    requires forall i :: k <= i < |t| ==> AtMost(x, t[i])
    ensures Sorted(t[..k] + [x] + t[k..])
  {
    var r := t[..k] + [x] + t[k..];
    assert forall i :: 0 <= i < |r| ==> r[i] == (if i < k then t[i] else if i == k then x else t[i - 1]);
  }

  /**
   * Into a sorted list, `x` goes after exactly the elements at most `x`:
   * at index `Count(t, x)`, and the result is sorted.
   */
  lemma InsertSorted(x: Packet, t: seq<Packet>) returns (k: nat)
    requires Sorted(t)
    ensures k <= |t| && Insert(x, t) == t[..k] + [x] + t[k..]
    ensures forall i :: 0 <= i < k ==> AtMost(t[i], x)
    ensures forall i :: k <= i < |t| ==> Compare(x, t[i]) == Less
    ensures k == Count(t, x)
    ensures Sorted(Insert(x, t))
  {
    k := InsertShape(x, t);
    forall i | 0 <= i < k ensures AtMost(t[i], x) {
      CompareFlip(x, t[i]);
    }
    forall i | k <= i < |t| ensures Compare(x, t[i]) == Less && !AtMost(t[i], x) {
      if i > k {
        LessThenAtMost(x, t[k], t[i]);
      }
      CompareFlip(x, t[i]);
    }
    CountSplit(t, x, k);
    SortedSplice(t, x, k);
  }

  lemma InsertKeepsSorted(x: Packet, t: seq<Packet>)
    requires Sorted(t)
    ensures Sorted(Insert(x, t))
  {
    var k := InsertSorted(x, t);
  }

  /** `sort`: a stable sort, inserting the packets in input order. */
  function SortPackets(s: seq<Packet>): (r: seq<Packet>)
    ensures Sorted(r) && |r| == |s| && multiset(r) == multiset(s)
  {
    if s == [] then []
    else
      var init := s[..|s| - 1];
      assert s == init + [s[|s| - 1]];
      var sorted := SortPackets(init);
      InsertKeepsSorted(s[|s| - 1], sorted);
      InsertMultiset(s[|s| - 1], sorted);
      Insert(s[|s| - 1], sorted)
  }

  lemma {:induction false} CountSort(s: seq<Packet>, d: Packet)
    ensures Count(SortPackets(s), d) == Count(s, d)
  {
    if s != [] {
      var init := s[..|s| - 1];
      assert s == init + [s[|s| - 1]];
      CountSort(init, d);
      CountInsert(s[|s| - 1], SortPackets(init), d);
      CountAppend(init, [s[|s| - 1]], d);
    }
  }

  /** The first index holding `x`, compared structurally. */
  function Position(s: seq<Packet>, x: Packet): (r: Option<nat>)
    ensures r.Some? <==> x in s
    ensures r.Some? ==> r.value < |s| && s[r.value] == x && x !in s[..r.value]
  {
    if s == [] then None
    else if s[0] == x then
      assert s[..0] == [];
      Some(0)
    else
      match Position(s[1..], x)
      case None => None
      case Some(i) =>
        assert s[..i + 1] == [s[0]] + s[1..][..i];
        Some(i + 1)
  }

  /** The first index holding `x` is the one before which `x` does not occur. */
  lemma PositionAt(s: seq<Packet>, x: Packet, k: nat)
    requires k < |s| && s[k] == x && x !in s[..k]
    ensures Position(s, x) == Some(k)
  {
    var r := Position(s, x).value;
    assert forall j :: 0 <= j < k ==> s[..k][j] == s[j];
    assert forall j :: 0 <= j < r ==> s[..r][j] == s[j];
  }

  const Divider2: Packet := List([List([Int(2)])])
  const Divider6: Packet := List([List([Int(6)])])

  /** The two packets of every pair, in order. */
  function Flatten(pairs: seq<(Packet, Packet)>): (r: seq<Packet>)
    ensures |r| == 2 * |pairs|
  {
    if pairs == [] then [] else [pairs[0].0, pairs[0].1] + Flatten(pairs[1..])
  }

  /**
   * `part2`: the packets and the dividers `[[2]]` and `[[6]]`, sorted; the
   * product of the dividers' 1-based positions.
   */
  function Part2(pairs: seq<(Packet, Packet)>): (r: Result<nat>)
    ensures r.Ok?
  {
    DecoderKey(Flatten(pairs), Divider2, Divider6)
  }

  /** The packets `f` and the dividers `d2`, `d6` sorted; the product of the dividers' 1-based positions. */
  function DecoderKey(f: seq<Packet>, d2: Packet, d6: Packet): (r: Result<nat>)
    ensures r.Ok?
  {
    var sorted := SortPackets(f + [d2, d6]);
    SortKeeps(f + [d2, d6], |f|);
    SortKeeps(f + [d2, d6], |f| + 1);
    match (Position(sorted, d2), Position(sorted, d6))
    case (Some(i2), Some(i6)) => Ok(Product(i2 + 1, i6 + 1))
    case _ => Panic
  }

  function Product(a: nat, b: nat): nat { a * b }

  lemma SortKeeps(s: seq<Packet>, i: nat)
    requires i < |s|
    ensures s[i] in SortPackets(s)
  {
    assert s[i] in multiset(s);
  }

  lemma DividersOrdered()
    ensures Compare(Divider2, Divider6) == Less
  {
    assert Compare(Int(2), Int(6)) == Less;
    assert CompareLists([Int(2)], [Int(6)]) == Less;
    assert Compare(List([Int(2)]), List([Int(6)])) == Less;
    assert CompareLists([List([Int(2)])], [List([Int(6)])]) == Less;
  }

  /**
   * Inserting `d2` and then a larger `d6` into a sorted list without them
   * puts `d2` after the elements at most `d2`, and `d6` after the elements
   * at most `d6` and `d2`.
   */
  lemma InsertTwo(s0: seq<Packet>, d2: Packet, d6: Packet)
    requires Sorted(s0) && d2 !in s0 && d6 !in s0 && Compare(d2, d6) == Less
    ensures var sorted := Insert(d6, Insert(d2, s0));
      Position(sorted, d2) == Some(Count(s0, d2)) && Position(sorted, d6) == Some(Count(s0, d6) + 1)
  {
    FirstPlaced(s0, d2, d6);
    SecondPlaced(s0, d2, d6);
  }

  lemma FirstPlaced(s0: seq<Packet>, d2: Packet, d6: Packet)
    requires Sorted(s0) && d2 !in s0 && Compare(d2, d6) == Less
    ensures Position(Insert(d6, Insert(d2, s0)), d2) == Some(Count(s0, d2))
  {
    var s1 := Insert(d2, s0);
    var k2 := Count(s0, d2);
    var k6 := Count(s1, d6);
    var sorted := Insert(d6, s1);
    assert k2 <= |s0| && s1 == s0[..k2] + [d2] + s0[k2..] && Sorted(s1) by {
      var k := InsertSorted(d2, s0);
    }
    assert k6 <= |s1| && sorted == s1[..k6] + [d6] + s1[k6..] by {
      var k := InsertSorted(d6, s1);
    }
    assert k2 < k6 by {
      SecondAfterFirst(s0, d2, d6);
    }
    assert sorted[..k2] == s0[..k2];
    assert d2 !in s0[..k2];
    assert sorted[k2] == d2;
    PositionAt(sorted, d2, k2);
  }

  lemma SecondPlaced(s0: seq<Packet>, d2: Packet, d6: Packet)
    requires Sorted(s0) && d6 !in s0 && Compare(d2, d6) == Less
    ensures Position(Insert(d6, Insert(d2, s0)), d6) == Some(Count(s0, d6) + 1)
  {
    var s1 := Insert(d2, s0);
    var k6 := Count(s1, d6);
    var c := Count(s0, d6);
    assert Sorted(s1) && k6 <= |s1| && Insert(d6, s1) == s1[..k6] + [d6] + s1[k6..] by {
      var k := InsertSorted(d2, s0);
      var k' := InsertSorted(d6, s1);
    }
    assert k6 == c + 1 by {
      CountInsert(d2, s0, d6);
      assert AtMost(d2, d6);
    }
    assert d6 !in s1[..k6] by {
      var k2 := InsertSorted(d2, s0);
      SecondAfterFirst(s0, d2, d6);
      CompareReflexive(d2);
      NotInSplice(s0, d2, d6, k2, k6 - 1);
    }
    SplicePosition(s1, d6, k6);
  }

  /** An element spliced in at `k` ahead of any copy of it is found at `k`. */
  lemma SplicePosition(s: seq<Packet>, x: Packet, k: nat)
    requires k <= |s| && x !in s[..k]
    ensures Position(s[..k] + [x] + s[k..], x) == Some(k)
  {
    var t := s[..k] + [x] + s[k..];
    assert t[..k] == s[..k];
    PositionAt(t, x, k);
  }

  /** In the sorted list holding `d2`, the larger `d6` goes after `d2`. */
  lemma SecondAfterFirst(s0: seq<Packet>, d2: Packet, d6: Packet)
    requires Sorted(s0) && Compare(d2, d6) == Less
    ensures Count(s0, d2) < Count(Insert(d2, s0), d6)
  {
    var s1 := Insert(d2, s0);
    var k2 := InsertSorted(d2, s0);
    var k6 := InsertSorted(d6, s1);
    assert s1[k2] == d2;
    if k6 <= k2 {
      CompareFlip(d2, d6);
    }
  }

  lemma NotInSplice(s0: seq<Packet>, d2: Packet, d6: Packet, k2: nat, k: nat)
    requires k2 <= k <= |s0| && d6 !in s0 && d6 != d2
    ensures d6 !in (s0[..k2] + [d2] + s0[k2..])[..k + 1]
  {
    var s1 := s0[..k2] + [d2] + s0[k2..];
    forall i | 0 <= i < k + 1 ensures s1[i] != d6 {
      if i < k2 {
        assert s1[i] == s0[i];
      } else if i > k2 {
        assert s1[i] == s0[i - 1];
      }
    }
  }

  /** Sorting the packets followed by two more inserts those two, in order, into the sorted packets. */
  lemma SortTwo(f: seq<Packet>, d2: Packet, d6: Packet)
    ensures SortPackets(f + [d2, d6]) == Insert(d6, Insert(d2, SortPackets(f)))
  {
    var all := f + [d2, d6];
    assert all[..|all| - 1] == f + [d2] && all[|all| - 1] == d6;
    assert (f + [d2])[..|f|] == f;
  }

  /**
   * When no packet of the input is a divider, `[[2]]` lands after the
   * packets at most `[[2]]` and `[[6]]` after the packets at most `[[6]]`
   * and `[[2]]`, so the answer counts packets.
   */
  lemma Part2Positions(pairs: seq<(Packet, Packet)>)
    requires Divider2 !in Flatten(pairs) && Divider6 !in Flatten(pairs)
    ensures Part2(pairs) == Ok((Count(Flatten(pairs), Divider2) + 1) * (Count(Flatten(pairs), Divider6) + 2))
  {
    DividersOrdered();
    DecoderKeyCounts(Flatten(pairs), Divider2, Divider6);
  }

  /** Sorting the packets and two more, `d2` before `d6`, places both by counting. */
  lemma DecoderKeyCounts(f: seq<Packet>, d2: Packet, d6: Packet)
    requires d2 !in f && d6 !in f && Compare(d2, d6) == Less
    ensures DecoderKey(f, d2, d6) == Ok((Count(f, d2) + 1) * (Count(f, d6) + 2))
  {
    var s0 := SortPackets(f);
    SortTwo(f, d2, d6);
    assert d2 !in multiset(s0) && d6 !in multiset(s0);
    InsertTwo(s0, d2, d6);
    CountSort(f, d2);
    CountSort(f, d6);
  }
}
