// Cathode-ray tube (year 2022, day 10): a program of `noop` and `addx`
// instructions drives a register `x` through numbered clock cycles.

module Cathode {
  import opened Common

  datatype Operation = Nop | Add(value: int)

  /**
   * `from_string`: `noop…` is `Nop`, `addx…` is `Add` of the number from
   * index 5 on, anything else `None`. `Panic` when an `addx` line has no
   * number there.
   */
  function FromString(line: string): (r: Result<Option<Operation>>)
    ensures StartsWith(line, "noop") ==> r == Ok(Some(Nop))
    ensures !StartsWith(line, "noop") && !StartsWith(line, "addx") ==> r == Ok(None)
    ensures !StartsWith(line, "noop") && StartsWith(line, "addx") ==>
              (r.Ok? <==> |line| >= 5 && ParseInt(line[5..]).Some?)
    ensures r.Ok? && r.value.Some? && r.value.value.Add? ==> ParseInt(line[5..]) == Some(r.value.value.value)
  {
    if StartsWith(line, "noop") then Ok(Some(Nop))
    else if StartsWith(line, "addx") then
      if |line| >= 5 && ParseInt(line[5..]).Some? then Ok(Some(Add(ParseInt(line[5..]).value))) else Panic
    else Ok(None)
  }

  /** `preprocess`: every line is an instruction; `Panic` on any line `from_string` rejects. */
  function Preprocess(lines: seq<string>): (r: Result<seq<Operation>>)
    ensures r.Ok? <==> forall i :: 0 <= i < |lines| ==> FromString(lines[i]).Ok? && FromString(lines[i]).value.Some?
    ensures r.Ok? ==> |r.value| == |lines| && forall i :: 0 <= i < |lines| ==> r.value[i] == FromString(lines[i]).value.value
  {
    if lines == [] then Ok([])
    else
      match (Preprocess(lines[..|lines| - 1]), FromString(lines[|lines| - 1]))
      case (Ok(ops), Ok(Some(op))) => Ok(ops + [op])
      case _ => Panic
  }

  /** `execute`: the instruction's length in cycles and the register after it. */
  function Execute(op: Operation, x: int): (r: (nat, int))
    ensures op.Nop? ==> r == (1, x)
    ensures op.Add? ==> r == (2, x + op.value)
  {
    match op
    case Nop => (1, x)
    case Add(value) => (2, x + value)
  }

  /** The number of cycles the instructions take. */
  function Cycles(ops: seq<Operation>): nat
  {
    if ops == [] then 0 else Execute(ops[0], 0).0 + Cycles(ops[1..])
  }

  /** The register after the instructions, starting from `x`. */
  function After(ops: seq<Operation>, x: int): int
  {
    if ops == [] then x else After(ops[1..], Execute(ops[0], x).1)
  }

  /**
   * The register during cycle `k` (counted from 1) when the instructions
   * start at cycle `start + 1` with register `x`: its value before the
   * instruction whose cycles include `k`; `None` past the last instruction.
   */
  function During(ops: seq<Operation>, x: int, start: int, k: int): Option<int>
  {
    if ops == [] then None
    else
      var (c, next) := Execute(ops[0], x);
      if start < k <= start + c then Some(x) else During(ops[1..], next, start + c, k)
  }

  /** The register during cycle `k` is the value after the instructions that end before `k`, and exists while an instruction spans `k`. */
  lemma {:induction false} DuringMeaning(ops: seq<Operation>, x: int, start: int, k: int, i: nat)
    requires i < |ops| && start + Cycles(ops[..i]) < k <= start + Cycles(ops[..i + 1])
    ensures During(ops, x, start, k) == Some(After(ops[..i], x))
  {
    var (c, next) := Execute(ops[0], x);
    assert Cycles(ops[..1]) == c by {
      assert ops[..1][1..] == [];
    }
    if i > 0 {
      assert ops[..i][1..] == ops[1..][..i - 1];
      assert ops[..i + 1][1..] == ops[1..][..i];
      CyclesFirst(ops[..i], x);
      CyclesFirst(ops[..i + 1], x);
      CyclesMono(ops[..i + 1], 1);
      assert ops[..i + 1][..1] == ops[..1];
      DuringMeaning(ops[1..], next, start + c, k, i - 1);
    } else {
      assert ops[..0] == [];
    }
  }

  lemma CyclesFirst(ops: seq<Operation>, x: int)
    requires ops != []
    ensures Cycles(ops) == Execute(ops[0], x).0 + Cycles(ops[1..])
  {
  }

  lemma {:induction false} CyclesMono(ops: seq<Operation>, i: nat)
    requires i <= |ops|
    ensures Cycles(ops[..i]) <= Cycles(ops)
  {
    if i > 0 {
      assert ops[..i][1..] == ops[1..][..i - 1];
      CyclesMono(ops[1..], i - 1);
    }
  }

  /** No register value exists past the program's last cycle. */
  lemma {:induction false} DuringPastEnd(ops: seq<Operation>, x: int, start: int, k: int)
    requires k > start + Cycles(ops)
    ensures During(ops, x, start, k).None?
  {
    if ops != [] {
      DuringPastEnd(ops[1..], Execute(ops[0], x).1, start + Execute(ops[0], x).0, k);
    }
  }

  /** The signal strength at cycle `k`: `k` times the register during it, 0 past the program's end. */
  function Strength(ops: seq<Operation>, k: int): int
  {
    match During(ops, 1, 0, k)
    case Some(x) => k * x
    case None => 0
  }

  /** The strengths at cycles 20, 60, … for the first `n` of them. */
  function Signal(ops: seq<Operation>, n: nat): int
  {
    if n == 0 then 0 else Signal(ops, n - 1) + Strength(ops, 20 + 40 * (n - 1))
  }

  /** `part1`: the sum of the signal strengths at cycles 20, 60, 100, 140, 180 and 220, from a register starting at 1. */
  method Part1(ops: seq<Operation>) returns (result: int)
    ensures result == Signal(ops, 6)
  {
    var interesting := 20;
    var x := 1;
    var cycles := 0;
    result := 0;
    ghost var m := 0;
    for i := 0 to |ops|
      invariant m < 6 && interesting == 20 + 40 * m && cycles < interesting
      invariant result == Signal(ops, m)
      invariant forall k :: cycles < k ==> During(ops, 1, 0, k) == During(ops[i..], x, cycles, k)
    {
      var (opCycles, newX) := Execute(ops[i], x);
      assert ops[i..][1..] == ops[i + 1..];
      if cycles < interesting && cycles + opCycles >= interesting {
        result := result + interesting * x;
        interesting := interesting + 40;
        m := m + 1;
        if interesting > 220 {
          return;
        }
      }
      cycles := cycles + opCycles;
      x := newX;
    }
    forall j | m <= j < 6 ensures Strength(ops, 20 + 40 * j) == 0 {
      DuringPastEnd(ops[|ops|..], x, cycles, 20 + 40 * j);
    }
    while m < 6
      invariant m <= 6 && result == Signal(ops, m)
      invariant forall j :: m <= j < 6 ==> Strength(ops, 20 + 40 * j) == 0
    {
      m := m + 1;
    }
  }

  /** Pixel `p` is lit when its column `p mod 40` lies on the sprite, which covers columns `s`, `s + 1` and `s + 2`. */
  predicate Lit(p: nat, sprite: int)
  {
    sprite <= p % 40 < sprite + 3
  }

  /** The pixel drawn during cycle `p + 1`, from a sprite starting at column 0; unlit past the program's end. */
  predicate Pixel(ops: seq<Operation>, p: nat)
  {
    match During(ops, 0, 0, p + 1)
    case Some(sprite) => Lit(p, sprite)
    case None => false
  }

  /**
   * `part2`'s screen: 40 × 6 pixels, pixel `p` drawn during cycle `p + 1`;
   * `Panic` when the program runs past pixel 239.
   */
  method Part2(ops: seq<Operation>) returns (r: Result<seq<bool>>)
    ensures r.Ok? <==> Cycles(ops) <= 240
    ensures r.Ok? ==> |r.value| == 240 && forall p :: 0 <= p < 240 ==> r.value[p] == Pixel(ops, p)
  {
    var sprite := 0;
    var crt := new bool[240](_ => false);
    var cycles := 0;
    for i := 0 to |ops|
      invariant cycles + Cycles(ops[i..]) == Cycles(ops)
      invariant forall k :: cycles < k ==> During(ops, 0, 0, k) == During(ops[i..], sprite, cycles, k)
      invariant forall p :: 0 <= p < cycles && p < 240 ==> crt[p] == Pixel(ops, p)
      invariant forall p :: cycles <= p < 240 ==> !crt[p]
      invariant cycles <= 240
    {
      var (opCycles, newSprite) := Execute(ops[i], sprite);
      assert ops[i..][1..] == ops[i + 1..];
      for pixel := cycles to cycles + opCycles
        invariant forall p :: 0 <= p < pixel && p < 240 ==> crt[p] == Pixel(ops, p)
        invariant forall p :: pixel <= p < 240 ==> !crt[p]
        invariant pixel <= 240
      {
        if pixel >= 240 {
          PanicPastScreen(ops, i, cycles);
          return Panic;
        }
        assert During(ops, 0, 0, pixel + 1) == Some(sprite);
        crt[pixel] := Lit(pixel, sprite);
      }
      cycles := cycles + opCycles;
      sprite := newSprite;
    }
    forall p | cycles <= p < 240 ensures !Pixel(ops, p) {
      DuringPastEnd(ops[|ops|..], sprite, cycles, p + 1);
    }
    return Ok(crt[..]);
  }

  lemma PanicPastScreen(ops: seq<Operation>, i: nat, cycles: nat)
    requires i < |ops| && cycles + Cycles(ops[i..]) == Cycles(ops) && cycles + Execute(ops[i], 0).0 > 240
    ensures Cycles(ops) > 240
  {
    CyclesFirst(ops[i..], 0);
  }
}
