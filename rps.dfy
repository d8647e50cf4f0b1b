// Rock paper scissors (year 2022, day 2): scoring a strategy guide. Each
// round is the opponent's letter A/B/C and a second letter X/Y/Z, read as a
// hand in part one and as the desired outcome in part two.

module RockPaperScissors {
  import opened Common

  datatype HandShape = Rock | Scissor | Paper

  /** The shape this one beats. */
  function WinAgainst(h: HandShape): (r: HandShape)
    ensures r != h
  {
    match h
    case Rock => Scissor
    case Scissor => Paper
    case Paper => Rock
  }

  /** The shape that beats this one. */
  function LoseAgainst(h: HandShape): (r: HandShape)
    ensures r != h && r != WinAgainst(h)
  {
    match h
    case Rock => Paper
    case Scissor => Rock
    case Paper => Scissor
  }

  /** Winning and losing are inverse: each undoes the other. */
  lemma WinLoseInverse(h: HandShape)
    ensures WinAgainst(LoseAgainst(h)) == h && LoseAgainst(WinAgainst(h)) == h
    ensures WinAgainst(WinAgainst(h)) == LoseAgainst(h)
  {
    match h
    case Rock =>
    case Scissor =>
    case Paper =>
  }

  /** A and X are Rock, B and Y Paper, C and Z Scissor; any other letter panics. */
  function FromLetter(c: char): (r: Option<HandShape>)
    ensures r.Some? <==> c in "ABCXYZ"
    ensures r == Some(Rock) <==> c == 'A' || c == 'X'
    ensures r == Some(Paper) <==> c == 'B' || c == 'Y'
  {
    match c
    case 'A' => Some(Rock)
    case 'X' => Some(Rock)
    case 'B' => Some(Paper)
    case 'Y' => Some(Paper)
    case 'C' => Some(Scissor)
    case 'Z' => Some(Scissor)
    case _ => None
  }

  function HandPoints(h: HandShape): nat
  {
    match h
    case Rock => 1
    case Paper => 2
    case Scissor => 3
  }

  /** `get_score`: 0 for a loss, 3 for a draw, 6 for a win, plus the player's hand points. */
  function Score(player: HandShape, opponent: HandShape): (r: nat)
    ensures 1 <= r <= 9
    ensures r - HandPoints(player) == 6 <==> WinAgainst(player) == opponent
    ensures r - HandPoints(player) == 3 <==> player == opponent
    ensures r - HandPoints(player) == 0 <==> WinAgainst(opponent) == player
  {
    var fight := if player == WinAgainst(opponent) then 0 else if player == opponent then 3 else 6;
    fight + HandPoints(player)
  }

  /** The shape part two plays: X loses, Y draws, Z wins; any other letter panics. */
  function Strategy(opponent: HandShape, outcome: char): (r: Option<HandShape>)
    ensures r.Some? <==> outcome in "XYZ"
    ensures r.Some? ==> Score(r.value, opponent) - HandPoints(r.value) == (if outcome == 'X' then 0 else if outcome == 'Y' then 3 else 6)
  {
    match outcome
    case 'X' => Some(WinAgainst(opponent))
    case 'Y' => Some(opponent)
    case 'Z' =>
      WinLoseInverse(opponent);
      Some(LoseAgainst(opponent))
    case _ => None
  }

  /** The score of one round under part one's reading. */
  function RoundScore1(round: (char, char)): (r: Option<nat>)
    ensures r.Some? <==> round.0 in "ABCXYZ" && round.1 in "ABCXYZ"
    ensures r.Some? ==> 1 <= r.value <= 9
  {
    match (FromLetter(round.0), FromLetter(round.1))
    case (Some(opponent), Some(player)) => Some(Score(player, opponent))
    case _ => None
  }

  /** The score of one round under part two's reading. */
  function RoundScore2(round: (char, char)): (r: Option<nat>)
    ensures r.Some? <==> round.0 in "ABCXYZ" && round.1 in "XYZ"
    ensures r.Some? ==> 1 <= r.value <= 9
  {
    match FromLetter(round.0)
    case None => None
    case Some(opponent) =>
      match Strategy(opponent, round.1)
      case None => None
      case Some(player) => Some(Score(player, opponent))
  }

  /** `part1`: the total over all rounds, between one and nine points per round; panics on a foreign letter. */
  function Part1(rounds: seq<(char, char)>): (r: Result<nat>)
    ensures r.Ok? <==> forall i :: 0 <= i < |rounds| ==> RoundScore1(rounds[i]).Some?
    ensures r.Ok? ==> |rounds| <= r.value <= 9 * |rounds|
  {
    if rounds == [] then Ok(0)
    else
      match (Part1(rounds[..|rounds| - 1]), RoundScore1(rounds[|rounds| - 1]))
      case (Ok(total), Some(s)) => Ok(total + s)
      case _ => Panic
  }

  /** `part2`: the total when the second letter names the outcome; panics on a foreign letter. */
  function Part2(rounds: seq<(char, char)>): (r: Result<nat>)
    ensures r.Ok? <==> forall i :: 0 <= i < |rounds| ==> RoundScore2(rounds[i]).Some?
    ensures r.Ok? ==> |rounds| <= r.value <= 9 * |rounds|
  {
    if rounds == [] then Ok(0)
    else
      match (Part2(rounds[..|rounds| - 1]), RoundScore2(rounds[|rounds| - 1]))
      case (Ok(total), Some(s)) => Ok(total + s)
      case _ => Panic
  }
}
