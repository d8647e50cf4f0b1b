// Supply stacks (year 2022, day 5): stacks of crates drawn as text, then
// rearranged by a crane one crate at a time (part one) or a block at a time
// (part two).

module Crates {
  import opened Common

  /** Stack `i` holds its crates from bottom to top. */
  type Stacks = seq<seq<char>>

  // ------------------------------------------------------------ drawing

  /** The drawing ends at the line of stack labels, which starts with " 1". */
  predicate IsLabel(line: string)
  {
    |line| >= 2 && line[..2] == " 1"
  }

  /** The lines before the first label line. */
  function Drawing(lines: seq<string>): (r: seq<string>)
    ensures |r| <= |lines| && r == lines[..|r|]
    ensures forall k :: 0 <= k < |r| ==> !IsLabel(r[k])
    ensures |r| < |lines| ==> IsLabel(lines[|r|])
  {
    if lines == [] || IsLabel(lines[0]) then []
    else [lines[0]] + Drawing(lines[1..])
  }

  /** The number of columns `4 * i + 1` inside the line. */
  function Slots(line: string): nat
  {
    (|line| + 2) / 4
  }

  lemma SlotsMeaning(line: string, i: nat)
    ensures i < Slots(line) <==> 4 * i + 1 < |line|
  {
  }

  /** The crate drawn for stack `i` in a line: the letter at column `4 * i + 1` unless it is a space. */
  function Letter(line: string, i: nat): Option<char>
  {
    if 4 * i + 1 < |line| && line[4 * i + 1] != ' ' then Some(line[4 * i + 1]) else None
  }

  /** 1 + the highest `i < n` with a crate in the line, or 0 without one. */
  function WidthUpTo(line: string, n: nat): (r: nat)
    ensures r <= n
    ensures r > 0 ==> Letter(line, r - 1).Some?
    ensures forall i :: r <= i < n ==> Letter(line, i).None?
  {
    if n == 0 then 0
    else if Letter(line, n - 1).Some? then n
    else WidthUpTo(line, n - 1)
  }

  /** The number of stacks the drawing needs: one past the last stack holding a crate in any line. */
  function Width(rows: seq<string>): (r: nat)
    ensures forall k, i :: 0 <= k < |rows| && r <= i ==> Letter(rows[k], i).None?
  {
    if rows == [] then 0
    else
      var line := rows[|rows| - 1];
      LettersEnd(line, WidthUpTo(line, Slots(line)));
      assert forall k :: 0 <= k < |rows| - 1 ==> rows[k] == rows[..|rows| - 1][k];
      Max(Width(rows[..|rows| - 1]), WidthUpTo(line, Slots(line)))
  }

  lemma LettersEnd(line: string, w: nat)
    requires w == WidthUpTo(line, Slots(line))
    ensures forall i :: w <= i ==> Letter(line, i).None?
  {
  }

  /** Stack `i` as drawn, bottom to top: the lower line's crate sits below the upper line's. */
  function Column(rows: seq<string>, i: nat): seq<char>
  {
    if rows == [] then []
    else
      var rest := Column(rows[..|rows| - 1], i);
      match Letter(rows[|rows| - 1], i)
      case Some(c) => [c] + rest
      case None => rest
  }

  /** The top crate of a drawn stack is the one in the first line that has a crate there. */
  lemma {:induction false} ColumnTop(rows: seq<string>, i: nat, k: nat)
    requires k < |rows| && Letter(rows[k], i).Some?
    requires forall j :: 0 <= j < k ==> Letter(rows[j], i).None?
    ensures Column(rows, i) != [] && Column(rows, i)[|Column(rows, i)| - 1] == Letter(rows[k], i).value
  {
    if k < |rows| - 1 {
      ColumnTop(rows[..|rows| - 1], i, k);
    } else {
      ColumnEmpty(rows[..k], i);
    }
  }

  lemma {:induction false} ColumnEmpty(rows: seq<string>, i: nat)
    requires forall j :: 0 <= j < |rows| ==> Letter(rows[j], i).None?
    ensures Column(rows, i) == []
  {
    if rows != [] {
      ColumnEmpty(rows[..|rows| - 1], i);
    }
  }

  /** The stacks drawn by the rows. */
  function Drawn(rows: seq<string>): Stacks
  {
    seq(Width(rows), i requires 0 <= i => Column(rows, i))
  }

  /**
   * `parse_stacks`: for each line before the label line, the letter at
   * column `4 * i + 1` (when not a space) is inserted at the bottom of
   * stack `i`, the vector of stacks growing as needed.
   */
  method ParseStacks(lines: seq<string>) returns (stacks: Stacks)
    ensures stacks == Drawn(Drawing(lines))
  {
    stacks := [];
    var rows := Drawing(lines);
    assert Drawn(rows[..0]) == [];
    for k := 0 to |lines|
      invariant k <= |rows|
      invariant stacks == Drawn(rows[..k])
    {
      if k < |rows| {
        assert lines[k] == rows[k];
      }
      if IsLabel(lines[k]) {
        assert rows[..k] == rows;
        break;
      }
      var line := lines[k];
      stacks := AddLine(stacks, rows[..k], line);
      assert rows[..k + 1] == rows[..k] + [line];
    }
    assert rows[..|rows|] == rows;
  }

  /** The inner loop of `parse_stacks`: one line's crates go to the bottom of their stacks. */
  method AddLine(stacks: Stacks, rows: seq<string>, line: string) returns (next: Stacks)
    requires stacks == Drawn(rows)
    ensures next == Drawn(rows + [line])
  {
    next := stacks;
    var index := 0;
    while 4 * index + 1 < |line|
      invariant PlacedUpTo(next, rows, line, index)
      decreases |line| - index
    {
      next := PlaceLetter(next, rows, line, index);
      index := index + 1;
    }
    PlacedAll(next, rows, line, index);
  }

  /**
   * The stacks while a line is being added: those before `index` already
   * hold the line's crate, the others do not yet.
   */
  ghost predicate PlacedUpTo(next: Stacks, rows: seq<string>, line: string, index: nat)
  {
    && index <= Slots(line)
    && |next| == Max(Width(rows), WidthUpTo(line, index))
    && (forall i :: 0 <= i < |next| && i < index ==> next[i] == Column(rows + [line], i))
    && (forall i :: 0 <= i < |next| && i >= index ==> next[i] == Column(rows, i))
  }

  /** One round of the inner loop: the letter for stack `index`, if any, goes to its bottom, growing the stacks as needed. */
  method PlaceLetter(next: Stacks, rows: seq<string>, line: string, index: nat) returns (r: Stacks)
    requires PlacedUpTo(next, rows, line, index) && 4 * index + 1 < |line|
    ensures PlacedUpTo(r, rows, line, index + 1)
  {
    var rows' := rows + [line];
    assert rows'[..|rows|] == rows;
    r := next;
    var letter := line[4 * index + 1];
    if letter != ' ' {
      if index >= |r| {
        r := r + seq(index + 1 - |r|, _ => []);
        forall i | |next| <= i < |r| ensures Column(rows, i) == [] {
          ColumnEmpty(rows, i);
        }
      }
      r := r[index := [letter] + r[index]];
    }
  }

  lemma PlacedAll(next: Stacks, rows: seq<string>, line: string, index: nat)
    requires PlacedUpTo(next, rows, line, index) && 4 * index + 1 >= |line|
    ensures next == Drawn(rows + [line])
  {
    var rows' := rows + [line];
    assert rows'[..|rows|] == rows;
    assert index == Slots(line);
    assert |next| == Width(rows');
    forall i | 0 <= i < |next| ensures next[i] == Column(rows', i) {
      if i >= index {
        assert Letter(line, i).None?;
      }
    }
  }

  // ------------------------------------------------------------ rearranging

  /** A parsed instruction line: a move (with the captured numbers), a `move` line the pattern rejects, or another line. */
  datatype Line = Move(count: nat, from: nat, to: nat) | Malformed | Other

  /** A move with 0-based stack numbers. */
  datatype Action = Action(count: nat, from: nat, to: nat)

  /**
   * `parse_actions`: the moves in order with 1-based stack numbers made
   * 0-based; other lines are skipped. Panics on a `move` line the pattern
   * rejects and on stack number 0.
   */
  function ParseActions(lines: seq<Line>): (r: Result<seq<Action>>)
    ensures r.Ok? <==> forall k :: 0 <= k < |lines| ==> lines[k] != Malformed && (lines[k].Move? ==> lines[k].from >= 1 && lines[k].to >= 1)
    ensures r.Ok? ==> |r.value| == |Moves(lines)|
    ensures r.Ok? ==> forall k :: 0 <= k < |r.value| ==>
              var m := Moves(lines)[k];
              r.value[k].count == m.count && r.value[k].from + 1 == m.from && r.value[k].to + 1 == m.to
  {
    if lines == [] then Ok([])
    else
      var line := lines[|lines| - 1];
      match ParseActions(lines[..|lines| - 1])
      case Panic => Panic
      case Ok(actions) =>
        match line
        case Malformed => Panic
        case Other => Ok(actions)
        case Move(count, from, to) =>
          if from == 0 || to == 0 then Panic else Ok(actions + [Action(count, from - 1, to - 1)])
  }

  /** The move lines among the lines, in order. */
  function Moves(lines: seq<Line>): (r: seq<Line>)
    ensures forall k :: 0 <= k < |r| ==> r[k].Move?
  {
    if lines == [] then []
    else Moves(lines[..|lines| - 1]) + (if lines[|lines| - 1].Move? then [lines[|lines| - 1]] else [])
  }

  /** Part one's crane lifts one crate: pops the top of `from` and pushes it on `to`; `None` when a stack is missing or `from` is empty. */
  function MoveOne(stacks: Stacks, from: nat, to: nat): Option<Stacks>
  {
    if from < |stacks| && to < |stacks| && stacks[from] != [] then
      var source := stacks[from];
      var lifted := stacks[from := source[..|source| - 1]];
      Some(lifted[to := lifted[to] + [source[|source| - 1]]])
    else None
  }

  /** `count` lifts in a row. */
  function MoveN(stacks: Stacks, count: nat, from: nat, to: nat): Option<Stacks>
  {
    if count == 0 then Some(stacks)
    else
      match MoveN(stacks, count - 1, from, to)
      case None => None
      case Some(s) => MoveOne(s, from, to)
  }

  function Reverse(t: seq<char>): (r: seq<char>)
    ensures |r| == |t|
  {
    if t == [] then [] else Reverse(t[1..]) + [t[0]]
  }

  /**
   * Between two different stacks, `count` lifts succeed exactly when the
   * source holds `count` crates, and the block taken from its top lands on
   * the destination reversed.
   */
  lemma {:induction false} MoveNMeaning(stacks: Stacks, count: nat, from: nat, to: nat)
    requires from < |stacks| && to < |stacks| && from != to
    ensures MoveN(stacks, count, from, to).Some? <==> count <= |stacks[from]|
    ensures count <= |stacks[from]| ==>
              var source := stacks[from];
              MoveN(stacks, count, from, to) ==
                Some(stacks[from := source[..|source| - count]][to := stacks[to] + Reverse(source[|source| - count..])])
  {
    var source := stacks[from];
    if count == 0 {
      assert stacks[from := source] == stacks;
      assert source[|source|..] == [];
      assert Reverse(source[|source|..]) == [];
      assert stacks[to] + [] == stacks[to];
      assert source[..|source| - 0] == source;
      var t := stacks[from := source[..|source| - 0]];
      assert t == stacks;
      assert t[to := stacks[to] + Reverse(source[|source| - 0..])] == stacks;
    } else {
      MoveNMeaning(stacks, count - 1, from, to);
      if count <= |source| {
        var n := |source| - count;
        var p := stacks[from := source[..n + 1]][to := stacks[to] + Reverse(source[n + 1..])];
        assert MoveN(stacks, count - 1, from, to) == Some(p);
        assert p[from] == source[..n + 1] && p[from][n] == source[n];
        assert source[..n + 1][..n] == source[..n];
        var lifted := p[from := source[..n]];
        assert MoveOne(p, from, to) == Some(lifted[to := lifted[to] + [source[n]]]);
        assert source[n..][1..] == source[n + 1..];
        assert Reverse(source[n..]) == Reverse(source[n + 1..]) + [source[n]];
        assert lifted[to] + [source[n]] == stacks[to] + Reverse(source[n..]);
        assert lifted[to := lifted[to] + [source[n]]] == stacks[from := source[..n]][to := stacks[to] + Reverse(source[n..])];
      } else if count - 1 <= |source| {
        assert count - 1 == |source|;
      } else {
        assert MoveN(stacks, count - 1, from, to).None?;
      }
    }
  }

  /** Part two's crane: the top `count` crates of `from` move to the top of `to` as one block; `None` when a stack is missing or `from` is too short. */
  function MoveBlock(stacks: Stacks, count: nat, from: nat, to: nat): (r: Option<Stacks>)
    ensures r.Some? <==> from < |stacks| && to < |stacks| && count <= |stacks[from]|
  {
    if from < |stacks| && to < |stacks| && count <= |stacks[from]| then
      var source := stacks[from];
      var split := |source| - count;
      var kept := stacks[from := source[..split]];
      Some(kept[to := kept[to] + source[split..]])
    else None
  }

  /** The total number of crates. */
  function Total(stacks: Stacks): nat
  {
    if stacks == [] then 0 else Total(stacks[..|stacks| - 1]) + |stacks[|stacks| - 1]|
  }

  lemma {:induction false} TotalUpdate(stacks: Stacks, i: nat, t: seq<char>)
    requires i < |stacks|
    ensures Total(stacks[i := t]) + |stacks[i]| == Total(stacks) + |t|
  {
    var n := |stacks| - 1;
    if i < n {
      TotalUpdate(stacks[..n], i, t);
      assert stacks[i := t][..n] == stacks[..n][i := t];
    } else {
      assert stacks[i := t][..n] == stacks[..n];
    }
  }

  /** Both cranes keep the number of crates and touch no stack but the source and destination. */
  lemma MovesKeepCrates(stacks: Stacks, count: nat, from: nat, to: nat)
    requires from < |stacks| && to < |stacks| && from != to
    ensures MoveBlock(stacks, count, from, to).Some? ==>
              var s := MoveBlock(stacks, count, from, to).value;
              |s| == |stacks| && Total(s) == Total(stacks) && forall i :: 0 <= i < |s| && i != from && i != to ==> s[i] == stacks[i]
    ensures MoveN(stacks, count, from, to).Some? ==>
              var s := MoveN(stacks, count, from, to).value;
              |s| == |stacks| && Total(s) == Total(stacks) && forall i :: 0 <= i < |s| && i != from && i != to ==> s[i] == stacks[i]
  {
    MoveNMeaning(stacks, count, from, to);
    if count <= |stacks[from]| {
      var source := stacks[from];
      var split := |source| - count;
      var kept := stacks[from := source[..split]];
      TotalUpdate(stacks, from, source[..split]);
      TotalUpdate(kept, to, kept[to] + source[split..]);
      TotalUpdate(kept, to, kept[to] + Reverse(source[split..]));
    }
  }

  /** The two cranes agree on a move of at most one crate. */
  lemma CranesAgreeOnOne(stacks: Stacks, count: nat, from: nat, to: nat)
    requires from < |stacks| && to < |stacks| && from != to && count <= 1
    ensures MoveN(stacks, count, from, to) == MoveBlock(stacks, count, from, to)
  {
    MoveNMeaning(stacks, count, from, to);
    if count <= |stacks[from]| {
      var source := stacks[from];
      var block := source[|source| - count..];
      assert Reverse(block) == block by {
        if count == 1 {
          assert block == [block[0]];
          assert block[1..] == [];
        }
      }
    }
  }

  /** Part one's rearrangement: every action in order, crate by crate. */
  function Rearrange9000(stacks: Stacks, actions: seq<Action>): Option<Stacks>
  {
    if actions == [] then Some(stacks)
    else
      var a := actions[|actions| - 1];
      match Rearrange9000(stacks, actions[..|actions| - 1])
      case None => None
      case Some(s) => MoveN(s, a.count, a.from, a.to)
  }

  /** Part two's rearrangement: every action in order, block by block. */
  function Rearrange9001(stacks: Stacks, actions: seq<Action>): Option<Stacks>
  {
    if actions == [] then Some(stacks)
    else
      var a := actions[|actions| - 1];
      match Rearrange9001(stacks, actions[..|actions| - 1])
      case None => None
      case Some(s) => MoveBlock(s, a.count, a.from, a.to)
  }

  /** The top crate of every stack, in stack order; `None` (a panic) when a stack is empty. */
  function Tops(stacks: Stacks): (r: Option<string>)
    ensures r.Some? <==> forall i :: 0 <= i < |stacks| ==> stacks[i] != []
    ensures r.Some? ==> |r.value| == |stacks| && forall i :: 0 <= i < |stacks| ==> r.value[i] == stacks[i][|stacks[i]| - 1]
  {
    if stacks == [] then Some([])
    else
      var last := stacks[|stacks| - 1];
      match Tops(stacks[..|stacks| - 1])
      case None => None
      case Some(t) => if last == [] then None else Some(t + [last[|last| - 1]])
  }

  /** `part1`'s loops: each action pops `count` times from `from` and pushes on `to`; a pop from an empty stack panics. */
  method Part1Moves(stacks: Stacks, actions: seq<Action>) returns (r: Option<Stacks>)
    ensures r == Rearrange9000(stacks, actions)
  {
    var s := stacks;
    for k := 0 to |actions|
      invariant Rearrange9000(stacks, actions[..k]) == Some(s)
    {
      assert actions[..k + 1][..k] == actions[..k];
      var a := actions[k];
      ghost var start := s;
      for n := 0 to a.count
        invariant MoveN(start, n, a.from, a.to) == Some(s)
      {
        if a.from >= |s| || a.to >= |s| || s[a.from] == [] {
          MoveNStuck(start, n + 1, a.count, a.from, a.to);
          RearrangeStuck(stacks, actions, k + 1, true);
          return None;
        }
        var element := s[a.from][|s[a.from]| - 1];
        s := s[a.from := s[a.from][..|s[a.from]| - 1]];
        s := s[a.to := s[a.to] + [element]];
      }
    }
    assert actions[..|actions|] == actions;
    return Some(s);
  }

  /** Once a crane gets stuck, more lifts stay stuck. */
  lemma {:induction false} MoveNStuck(stacks: Stacks, n: nat, m: nat, from: nat, to: nat)
    requires n <= m && MoveN(stacks, n, from, to).None?
    ensures MoveN(stacks, m, from, to).None?
    decreases m - n
  {
    if n < m {
      MoveNStuck(stacks, n + 1, m, from, to);
    }
  }

  /** Once a rearrangement gets stuck, so does every longer one. */
  lemma {:induction false} RearrangeStuck(stacks: Stacks, actions: seq<Action>, k: nat, crane9000: bool)
    requires k <= |actions|
    requires crane9000 ==> Rearrange9000(stacks, actions[..k]).None?
    requires !crane9000 ==> Rearrange9001(stacks, actions[..k]).None?
    ensures crane9000 ==> Rearrange9000(stacks, actions).None?
    ensures !crane9000 ==> Rearrange9001(stacks, actions).None?
    decreases |actions| - k
  {
    if k < |actions| {
      assert actions[..k + 1][..k] == actions[..k];
      RearrangeStuck(stacks, actions, k + 1, crane9000);
    } else {
      assert actions[..k] == actions;
    }
  }

  /** `part2`'s loop: each action splits the top `count` crates off `from` and appends them to `to`. */
  method Part2Moves(stacks: Stacks, actions: seq<Action>) returns (r: Option<Stacks>)
    ensures r == Rearrange9001(stacks, actions)
  {
    var s := stacks;
    for k := 0 to |actions|
      invariant Rearrange9001(stacks, actions[..k]) == Some(s)
    {
      assert actions[..k + 1][..k] == actions[..k];
      var a := actions[k];
      if a.from >= |s| || a.to >= |s| || a.count > |s[a.from]| {
        RearrangeStuck(stacks, actions, k + 1, false);
        return None;
      }
      var split := |s[a.from]| - a.count;
      var moved := s[a.from][split..];
      s := s[a.from := s[a.from][..split]];
      s := s[a.to := s[a.to] + moved];
    }
    assert actions[..|actions|] == actions;
    return Some(s);
  }

  /** The answer of either part: the tops after the rearrangement; `Panic` on a bad action, a failed move or an empty stack at the end. */
  function Answer(lines: seq<string>, moves: seq<Line>, crane9000: bool): Result<string>
  {
    match ParseActions(moves)
    case Panic => Panic
    case Ok(actions) =>
      var stacks := Drawn(Drawing(lines));
      var after := if crane9000 then Rearrange9000(stacks, actions) else Rearrange9001(stacks, actions);
      if after.None? || Tops(after.value).None? then Panic else Ok(Tops(after.value).value)
  }

  /** `part1` and `part2`: parse, rearrange with the part's crane, read the tops. */
  method Solve(lines: seq<string>, moves: seq<Line>, crane9000: bool) returns (r: Result<string>)
    ensures r == Answer(lines, moves, crane9000)
  {
    var stacks := ParseStacks(lines);
    var actions := ParseActions(moves);
    if actions.Panic? {
      return Panic;
    }
    var after;
    if crane9000 {
      after := Part1Moves(stacks, actions.value);
    } else {
      after := Part2Moves(stacks, actions.value);
    }
    if after.None? {
      return Panic;
    }
    var tops := Tops(after.value);
    if tops.None? {
      return Panic;
    }
    return Ok(tops.value);
  }
}
