// SNAFU numbers (year 2022, day 25): balanced base five written with the
// digits 2, 1, 0, - (minus one) and = (minus two), most significant first.

module Snafu {
  import opened Common

  /** The value of a SNAFU digit; `None` for any other character (the decoder panics). */
  function DigitOf(c: char): (d: Option<int>)
    ensures d.Some? <==> c in "210-="
    ensures d.Some? ==> -2 <= d.value <= 2
  {
    match c
    case '0' => Some(0)
    case '1' => Some(1)
    case '2' => Some(2)
    case '-' => Some(-1)
    case '=' => Some(-2)
    case _ => None
  }

  predicate IsSnafu(s: string)
  {
    forall i :: 0 <= i < |s| ==> DigitOf(s[i]).Some?
  }

  /** Horner evaluation in base five, most significant digit first. */
  function Decode(s: string): int
    requires IsSnafu(s)
  {
    if s == [] then 0 else 5 * Decode(s[..|s| - 1]) + DigitOf(s[|s| - 1]).value
  }

  /** The digit written for a remainder modulo five: 3 and 4 become = and -. */
  function DigitChar(m: int): (c: char)
    requires 0 <= m < 5
    ensures DigitOf(c).Some? && DigitOf(c).value == (if m >= 3 then m - 5 else m)
  {
    if m == 0 then '0' else if m == 1 then '1' else if m == 2 then '2' else if m == 3 then '=' else '-'
  }

  /** The SNAFU numeral of `n`, empty exactly for `n <= 0`. */
  function Encode(n: int): (r: string)
    ensures r == [] <==> n <= 0
    decreases if n > 0 then n else 0
  {
    if n <= 0 then "" else Encode((n + 2) / 5) + [DigitChar(n % 5)]
  }

  function Rev(s: string): (r: string)
    ensures |r| == |s| && forall i :: 0 <= i < |s| ==> r[i] == s[|s| - 1 - i]
  {
    if s == [] then [] else Rev(s[1..]) + [s[0]]
  }

  /** `snafu_to_int`: folds the digits left to right with `n = 5 * n + d`, panicking on a foreign character. */
  method SnafuToInt(s: string) returns (r: Result<int>)
    ensures r.Ok? <==> IsSnafu(s)
    ensures r.Ok? ==> r.value == Decode(s)
  {
    var n := 0;
    for i := 0 to |s|
      invariant IsSnafu(s[..i]) && n == Decode(s[..i])
    {
      var d := DigitOf(s[i]);
      if d.None? {
        return Panic;
      }
      assert s[..i + 1][..i] == s[..i];
      n := 5 * n + d.value;
    }
    assert s[..|s|] == s;
    return Ok(n);
  }

  /**
   * `int_to_snafu`: takes the remainder modulo five, carries one for the
   * remainders 3 and 4, pushes digits least significant first and reverses.
   */
  method IntToSnafu(n: int) returns (s: string)
    ensures s == Encode(n)
  {
    var m := n;
    var digits: string := [];
    while m > 0
      invariant Encode(n) == Encode(m) + Rev(digits)
      decreases m
    {
      CarryStep(m);
      EncodeStep(n, m, digits);
      var d := m % 5;
      m := m / 5;
      var carry := if d >= 3 then 1 else 0;
      m := m + carry;
      digits := digits + [DigitChar(d)];
    }
    s := Rev(digits);
  }

  /** One round of `int_to_snafu`: the digit pushed last moves from the pending number to the reversed digits. */
  lemma EncodeStep(n: int, m: int, digits: string)
    requires m > 0 && Encode(n) == Encode(m) + Rev(digits)
    ensures Encode(n) == Encode((m + 2) / 5) + Rev(digits + [DigitChar(m % 5)])
  {
    var c := DigitChar(m % 5);
    var e := Encode((m + 2) / 5);
    assert Encode(m) == e + [c];
    RevSnoc(digits, c);
    assert (e + [c]) + Rev(digits) == e + ([c] + Rev(digits));
  }

  lemma RevSnoc(s: string, c: char)
    ensures Rev(s + [c]) == [c] + Rev(s)
  {
    var a, b := Rev(s + [c]), [c] + Rev(s);
    forall i | 0 <= i < |a| ensures a[i] == b[i] {
      if i > 0 {
        assert (s + [c])[|s| - i] == s[|s| - 1 - (i - 1)];
      }
    }
  }

  // ------------------------------------------------------------ properties

  /** Dividing with a carry for the remainders 3 and 4 is dividing `n + 2`; the digit makes up the difference. */
  lemma CarryStep(n: int)
    requires n > 0
    ensures n / 5 + (if n % 5 >= 3 then 1 else 0) == (n + 2) / 5
    ensures 5 * ((n + 2) / 5) + (if n % 5 >= 3 then n % 5 - 5 else n % 5) == n
  {
    var q, r := n / 5, n % 5;
    assert n == 5 * q + r && 0 <= r < 5;
    if r >= 3 {
      assert n + 2 == 5 * (q + 1) + (r - 3);
    } else {
      assert n + 2 == 5 * q + (r + 2);
    }
  }

  /** Every character of an encoding is a SNAFU digit. */
  lemma {:induction false} EncodeDigits(n: int)
    ensures IsSnafu(Encode(n))
    decreases if n > 0 then n else 0
  {
    if n > 0 {
      EncodeDigits((n + 2) / 5);
    }
  }

  /** Decoding an encoding gives back every positive number (and 0 for 0). */
  lemma {:induction false} RoundTrip(n: int)
    requires n >= 0
    ensures IsSnafu(Encode(n)) && Decode(Encode(n)) == n
    decreases n
  {
    EncodeDigits(n);
    if n > 0 {
      var q := (n + 2) / 5;
      var s := Encode(n);
      RoundTrip(q);
      assert s[..|s| - 1] == Encode(q);
      CarryStep(n);
    }
  }

  /** A positive number's encoding is non-empty and leads with 1 or 2. */
  lemma {:induction false} LeadingDigit(n: int)
    requires n > 0
    ensures Encode(n) != [] && Encode(n)[0] in "12"
    decreases n
  {
    var q := (n + 2) / 5;
    if q > 0 {
      LeadingDigit(q);
    } else {
      assert n == 1 || n == 2;
    }
  }

  /** `part1`: the SNAFU numeral of the sum of all lines; panics on a foreign character. */
  method Part1(lines: seq<string>) returns (r: Result<string>)
    ensures r.Ok? <==> forall k :: 0 <= k < |lines| ==> IsSnafu(lines[k])
    ensures r.Ok? ==> r.value == Encode(Sum(DecodeAll(lines)))
  {
    var total := 0;
    for k := 0 to |lines|
      invariant forall j :: 0 <= j < k ==> IsSnafu(lines[j])
      invariant total == Sum(DecodeAll(lines[..k]))
    {
      var v := SnafuToInt(lines[k]);
      if v.Panic? {
        return Panic;
      }
      assert lines[..k + 1] == lines[..k] + [lines[k]];
      DecodeAllAppend(lines[..k], lines[k]);
      SumAppend(DecodeAll(lines[..k]), [v.value]);
      total := total + v.value;
    }
    assert lines[..|lines|] == lines;
    var s := IntToSnafu(total);
    return Ok(s);
  }

  function DecodeAll(lines: seq<string>): (r: seq<int>)
    requires forall k :: 0 <= k < |lines| ==> IsSnafu(lines[k])
    ensures |r| == |lines| && forall k :: 0 <= k < |lines| ==> r[k] == Decode(lines[k])
  {
    seq(|lines|, k requires 0 <= k < |lines| => Decode(lines[k]))
  }

  lemma DecodeAllAppend(lines: seq<string>, line: string)
    requires forall k :: 0 <= k < |lines| ==> IsSnafu(lines[k])
    requires IsSnafu(line)
    ensures DecodeAll(lines + [line]) == DecodeAll(lines) + [Decode(line)]
  {
  }
}
