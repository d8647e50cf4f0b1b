// Rope bridge (year 2022, day 9): a rope of knots whose head follows a list
// of moves; each further knot follows the one before it.

module Rope {
  import opened Common

  datatype Pos = Pos(x: int, y: int)

  /** `is_touching`: the two knots are at most one step apart on each axis. */
  predicate Touching(a: Pos, b: Pos)
  {
    a.x >= b.x - 1 && a.x <= b.x + 1 && a.y >= b.y - 1 && a.y <= b.y + 1
  }

  /** Touching is a Chebyshev distance of at most 1; it is reflexive and symmetric. */
  lemma TouchingMeaning(a: Pos, b: Pos)
    ensures Touching(a, b) <==> Max(Abs(a.x - b.x), Abs(a.y - b.y)) <= 1
    ensures Touching(a, a)
    ensures Touching(a, b) <==> Touching(b, a)
  {
  }

  /** One step of the head: `U`, `D`, `R` and `L` move it one unit; any other letter panics. */
  function MoveHead(head: Pos, direction: char): (r: Option<Pos>)
    ensures r.Some? <==> direction in "UDRL"
    ensures r.Some? ==> Abs(r.value.x - head.x) + Abs(r.value.y - head.y) == 1
  {
    match direction
    case 'U' => Some(head.(y := head.y + 1))
    case 'D' => Some(head.(y := head.y - 1))
    case 'R' => Some(head.(x := head.x + 1))
    case 'L' => Some(head.(x := head.x - 1))
    case _ => None
  }

  /** A knot's move towards the knot before it, by the three cases of the program's match. */
  function Follow(knot: Pos, leader: Pos): Pos
  {
    if Touching(knot, leader) then knot
    else
      var dx, dy := leader.x - knot.x, leader.y - knot.y;
      if dx == 0 then knot.(y := knot.y + Signum(dy))
      else if dy == 0 then knot.(x := knot.x + Signum(dx))
      else Pos(knot.x + Signum(dx), knot.y + Signum(dy))
  }

  /** A touching knot stays; any other knot moves by the sign of the difference on each axis. */
  lemma FollowMeaning(knot: Pos, leader: Pos)
    ensures Touching(knot, leader) ==> Follow(knot, leader) == knot
    ensures !Touching(knot, leader) ==>
              Follow(knot, leader) == Pos(knot.x + Signum(leader.x - knot.x), knot.y + Signum(leader.y - knot.y))
  {
  }

  /** A knot that touched its leader before the leader's step of at most one unit per axis touches it after following. */
  lemma FollowTouches(knot: Pos, before: Pos, after: Pos)
    requires Touching(knot, before) && Touching(after, before)
    ensures Touching(Follow(knot, after), after)
    ensures Touching(Follow(knot, after), knot)
  {
  }

  /** The first `k` knots after the head moved to `head`: each later knot follows the new position of the one before it. */
  function Dragged(rope: seq<Pos>, head: Pos, k: nat): (r: seq<Pos>)
    requires 1 <= k <= |rope|
    ensures |r| == k && r[0] == head
  {
    if k == 1 then [head]
    else
      var front := Dragged(rope, head, k - 1);
      front + [Follow(rope[k - 1], front[k - 2])]
  }

  /** Every knot touches the knot before it. */
  predicate Taut(rope: seq<Pos>)
  {
    forall i :: 1 <= i < |rope| ==> Touching(rope[i], rope[i - 1])
  }

  /** Dragging a taut rope by a head step of at most one unit per axis leaves it taut, each knot moving at most one unit per axis. */
  lemma {:induction false} DraggedTaut(rope: seq<Pos>, head: Pos, k: nat)
    requires 1 <= k <= |rope| && Taut(rope) && Touching(head, rope[0])
    ensures Taut(Dragged(rope, head, k))
    ensures forall i :: 0 <= i < k ==> Touching(Dragged(rope, head, k)[i], rope[i])
  {
    if k > 1 {
      DraggedTaut(rope, head, k - 1);
      var front := Dragged(rope, head, k - 1);
      FollowTouches(rope[k - 1], rope[k - 2], front[k - 2]);
      assert Touching(front[k - 2], rope[k - 2]);
    }
  }

  /** One step of the whole rope, or `None` on an unknown direction. */
  function Step(rope: seq<Pos>, direction: char): Option<seq<Pos>>
    requires |rope| >= 1
  {
    match MoveHead(rope[0], direction)
    case None => None
    case Some(head) => Some(Dragged(rope, head, |rope|))
  }

  /** `n` copies of one step. */
  function Repeat(direction: char, n: nat): (r: seq<char>)
    ensures |r| == n
  {
    if n == 0 then [] else Repeat(direction, n - 1) + [direction]
  }

  lemma {:induction false} RepeatAppend(direction: char, m: nat, n: nat)
    ensures Repeat(direction, m + n) == Repeat(direction, m) + Repeat(direction, n)
  {
    if n > 0 {
      RepeatAppend(direction, m, n - 1);
    } else {
      assert Repeat(direction, m) + [] == Repeat(direction, m);
    }
  }

  /** The single steps of the actions, in order: each direction repeated by its amount. */
  function Moves(actions: seq<(char, nat)>): seq<char>
  {
    if actions == [] then []
    else
      var last := actions[|actions| - 1];
      Moves(actions[..|actions| - 1]) + Repeat(last.0, last.1)
  }

  /** The rope after the steps and the positions its last knot has visited, starting from `rope`; `Panic` on an unknown direction. */
  function Walk(rope: seq<Pos>, steps: seq<char>): (r: Result<(seq<Pos>, set<Pos>)>)
    requires |rope| >= 1
    ensures r.Ok? ==> |r.value.0| == |rope|
  {
    if steps == [] then Ok((rope, {rope[|rope| - 1]}))
    else
      match Walk(rope, steps[..|steps| - 1])
      case Panic => Panic
      case Ok((now, visited)) =>
        match Step(now, steps[|steps| - 1])
        case None => Panic
        case Some(next) => Ok((next, visited + {next[|next| - 1]}))
  }

  /** A walk one step longer: the rope takes the step and its last knot is recorded. */
  lemma WalkSnoc(rope: seq<Pos>, steps: seq<char>, now: seq<Pos>, visited: set<Pos>, direction: char)
    requires |rope| >= 1 && Walk(rope, steps) == Ok((now, visited))
    ensures Step(now, direction).None? ==> Walk(rope, steps + [direction]).Panic?
    ensures Step(now, direction).Some? ==>
              var next := Step(now, direction).value;
              Walk(rope, steps + [direction]) == Ok((next, visited + {next[|next| - 1]}))
  {
    assert (steps + [direction])[..|steps|] == steps;
  }

  /** One more repetition of a step: it extends the walk, or the walk of all `amount` repetitions panics. */
  lemma WalkRepeat(rope: seq<Pos>, done: seq<char>, now: seq<Pos>, visited: set<Pos>, direction: char, j: nat, amount: nat)
    requires |rope| >= 1 && j < amount && Walk(rope, done + Repeat(direction, j)) == Ok((now, visited))
    ensures Step(now, direction).None? ==> Walk(rope, done + Repeat(direction, amount)).Panic?
    ensures Step(now, direction).Some? ==>
              var next := Step(now, direction).value;
              Walk(rope, done + Repeat(direction, j + 1)) == Ok((next, visited + {next[|next| - 1]}))
  {
    var pre := done + Repeat(direction, j);
    assert done + Repeat(direction, j + 1) == pre + [direction] by {
      assert Repeat(direction, j + 1) == Repeat(direction, j) + [direction];
    }
    WalkSnoc(rope, pre, now, visited, direction);
    if Step(now, direction).None? {
      PanicRepeat(rope, done, direction, j + 1, amount);
    }
  }

  lemma PanicRepeat(rope: seq<Pos>, done: seq<char>, direction: char, j: nat, amount: nat)
    requires |rope| >= 1 && j <= amount && Walk(rope, done + Repeat(direction, j)).Panic?
    ensures Walk(rope, done + Repeat(direction, amount)).Panic?
  {
    RepeatSplit(done, direction, j, amount);
    WalkPanicStays(rope, done + Repeat(direction, j), Repeat(direction, amount - j));
  }

  lemma RepeatSplit(done: seq<char>, direction: char, j: nat, amount: nat)
    requires j <= amount
    ensures done + Repeat(direction, amount) == (done + Repeat(direction, j)) + Repeat(direction, amount - j)
  {
    RepeatAppend(direction, j, amount - j);
  }

  /** Once a walk panics, every longer walk panics. */
  lemma {:induction false} WalkPanicStays(rope: seq<Pos>, steps: seq<char>, more: seq<char>)
    requires |rope| >= 1 && Walk(rope, steps).Panic?
    ensures Walk(rope, steps + more).Panic?
    decreases |more|
  {
    if more == [] {
      assert steps + more == steps;
    } else {
      var init := more[..|more| - 1];
      WalkPanicStays(rope, steps, init);
      assert (steps + more)[..|steps + more| - 1] == steps + init;
    }
  }

  lemma {:induction false} MovesAppend(a: seq<(char, nat)>, b: seq<(char, nat)>)
    ensures Moves(a + b) == Moves(a) + Moves(b)
    decreases |b|
  {
    if b == [] {
      assert a + b == a;
    } else {
      var init, last := b[..|b| - 1], b[|b| - 1];
      MovesAppend(a, init);
      assert (a + b)[..|a + b| - 1] == a + init;
      assert Moves(a + b) == Moves(a + init) + Repeat(last.0, last.1);
      assert Moves(b) == Moves(init) + Repeat(last.0, last.1);
    }
  }

  /** A walk from a taut rope keeps it taut; the last knot's position is always among the visited ones, and so is the start. */
  lemma {:induction false} WalkTaut(rope: seq<Pos>, steps: seq<char>)
    requires |rope| >= 1 && Taut(rope)
    requires Walk(rope, steps).Ok?
    ensures Taut(Walk(rope, steps).value.0)
    ensures Walk(rope, steps).value.0[|rope| - 1] in Walk(rope, steps).value.1
    ensures rope[|rope| - 1] in Walk(rope, steps).value.1
  {
    if steps != [] {
      WalkTaut(rope, steps[..|steps| - 1]);
      var now := Walk(rope, steps[..|steps| - 1]).value.0;
      var head := MoveHead(now[0], steps[|steps| - 1]).value;
      assert Touching(head, now[0]);
      DraggedTaut(now, head, |now|);
    }
  }

  /** The rope of `n` knots, all at the origin. */
  function Start(n: nat): seq<Pos>
  {
    seq(n, _ => Pos(0, 0))
  }

  /** With the rope starting at the origin, the origin is visited, so the count is at least 1. */
  lemma OriginVisited(n: nat, steps: seq<char>)
    requires n >= 1 && Walk(Start(n), steps).Ok?
    ensures Pos(0, 0) in Walk(Start(n), steps).value.1
    ensures |Walk(Start(n), steps).value.1| >= 1
  {
    WalkTaut(Start(n), steps);
  }

  /** One step of the rope in place: the head moves, then each knot in turn follows the one before it. */
  method StepRope(rope: array<Pos>, direction: char) returns (ok: bool)
    requires rope.Length >= 1
    modifies rope
    ensures ok <==> Step(old(rope[..]), direction).Some?
    ensures ok ==> rope[..] == Step(old(rope[..]), direction).value
  {
    ghost var before := rope[..];
    var head := MoveHead(rope[0], direction);
    if head.None? {
      return false;
    }
    rope[0] := head.value;
    for index := 1 to rope.Length
      invariant rope[..index] == Dragged(before, head.value, index)
      invariant rope[index..] == before[index..]
    {
      assert rope[index] == before[index];
      rope[index] := Follow(rope[index], rope[index - 1]);
      assert rope[..index + 1] == Dragged(before, head.value, index + 1);
    }
    assert rope[..] == rope[..rope.Length];
    return true;
  }

  /** The inner loop of `simulate_rope`: `amount` steps in one direction, recording the last knot after each. */
  method StepTimes(rope: array<Pos>, visited: set<Pos>, direction: char, amount: nat, ghost first: seq<Pos>, ghost done: seq<char>)
    returns (ok: bool, seen: set<Pos>)
    requires |first| >= 1 && Walk(first, done) == Ok((rope[..], visited))
    modifies rope
    ensures ok <==> Walk(first, done + Repeat(direction, amount)).Ok?
    ensures ok ==> Walk(first, done + Repeat(direction, amount)) == Ok((rope[..], seen))
  {
    seen := visited;
    assert done + Repeat(direction, 0) == done;
    for j := 0 to amount
      invariant Walk(first, done + Repeat(direction, j)) == Ok((rope[..], seen))
    {
      ghost var now := rope[..];
      WalkRepeat(first, done, now, seen, direction, j, amount);
      ok := StepRope(rope, direction);
      if !ok {
        return;
      }
      ghost var next := rope[..];
      assert next == Step(now, direction).value && rope[rope.Length - 1] == next[|next| - 1];
      seen := seen + {rope[rope.Length - 1]};
    }
    ok := true;
  }

  /**
   * `simulate_rope`: the number of positions visited by the last of
   * `ropeLength` knots, all starting at the origin; `Panic` on an unknown
   * direction.
   */
  method SimulateRope(actions: seq<(char, nat)>, ropeLength: nat) returns (r: Result<nat>)
    requires ropeLength >= 1
    ensures r.Ok? <==> Walk(Start(ropeLength), Moves(actions)).Ok?
    ensures r.Ok? ==> r.value == |Walk(Start(ropeLength), Moves(actions)).value.1|
  {
    var rope := new Pos[ropeLength](_ => Pos(0, 0));
    assert rope[..] == Start(ropeLength);
    var visited := {rope[0]};
    for a := 0 to |actions|
      invariant Walk(Start(ropeLength), Moves(actions[..a])) == Ok((rope[..], visited))
    {
      var (direction, amount) := actions[a];
      ghost var done := Moves(actions[..a]);
      assert Moves(actions[..a + 1]) == done + Repeat(direction, amount) by {
        assert actions[..a + 1][..a] == actions[..a];
      }
      var ok;
      ok, visited := StepTimes(rope, visited, direction, amount, Start(ropeLength), done);
      if !ok {
        MovesAppend(actions[..a + 1], actions[a + 1..]);
        assert actions == actions[..a + 1] + actions[a + 1..];
        WalkPanicStays(Start(ropeLength), Moves(actions[..a + 1]), Moves(actions[a + 1..]));
        return Panic;
      }
    }
    assert actions[..|actions|] == actions;
    return Ok(|visited|);
  }
}
