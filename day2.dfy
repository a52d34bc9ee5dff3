/** src/day2.rs: rock-paper-scissors rounds.  In part a both columns are shapes;
    in part b the second column is the outcome to reach and the shape is chosen
    to reach it.  A panic on an unknown letter is `None`. */
module Day2 {
  import opened Wrappers
  import opened Strings

  datatype Shape = Rock | Paper | Scissors

  datatype RoundResult = Win | Draw | Loss

  /** `Shape::from_str`: A/X rock, B/Y paper, C/Z scissors. */
  function ShapeFromStr(s: string): (r: Option<Shape>)
    ensures r.Some? <==> s in {"A", "B", "C", "X", "Y", "Z"}
    ensures r.Some? ==> s == OpponentLetter(r.value) || s == ShapeLetter(r.value)
  {
    if s == "A" || s == "X" then Some(Rock)
    else if s == "B" || s == "Y" then Some(Paper)
    else if s == "C" || s == "Z" then Some(Scissors)
    else None
  }

  /** `RoundResult::from_str`: X loss, Y draw, Z win. */
  function ResultFromStr(s: string): (r: Option<RoundResult>)
    ensures r.Some? <==> s in {"X", "Y", "Z"}
    ensures r.Some? ==> s == ResultLetter(r.value)
  {
    if s == "X" then Some(Loss)
    else if s == "Y" then Some(Draw)
    else if s == "Z" then Some(Win)
    else None
  }

  /** The opponent's letter of a shape. */
  function OpponentLetter(a: Shape): string
  {
    match a
    case Rock => "A"
    case Paper => "B"
    case Scissors => "C"
  }

  /** The second column's letter of a shape, and of an outcome. */
  function ShapeLetter(a: Shape): string
  {
    match a
    case Rock => "X"
    case Paper => "Y"
    case Scissors => "Z"
  }

  function ResultLetter(r: RoundResult): string
  {
    match r
    case Loss => "X"
    case Draw => "Y"
    case Win => "Z"
  }

  /** Each shape is read back from both of its letters, each outcome from its
      letter, and only the six letters are accepted. */
  lemma FromStrInverts(a: Shape, r: RoundResult, s: string)
    ensures ShapeFromStr(OpponentLetter(a)) == Some(a) && ShapeFromStr(ShapeLetter(a)) == Some(a)
    ensures ResultFromStr(ResultLetter(r)) == Some(r)
    ensures ShapeFromStr(s).Some? <==> s in {"A", "B", "C", "X", "Y", "Z"}
    ensures ResultFromStr(s).Some? <==> s in {"X", "Y", "Z"}
  {
  }

  /** `Shape::play_round`: the result for `self` against `other`. */
  function PlayRound(self: Shape, other: Shape): (r: RoundResult)
    ensures r == Draw <==> self == other
    ensures r == Win <==> Beats(self) == other
    ensures r == Loss <==> Beats(other) == self
  {
    match (self, other)
    case (Rock, Paper) => Loss
    case (Rock, Scissors) => Win
    case (Paper, Rock) => Win
    case (Paper, Scissors) => Loss
    case (Scissors, Rock) => Loss
    case (Scissors, Paper) => Win
    case _ => Draw
  }

  /** The shape a shape beats. */
  function Beats(a: Shape): Shape
  {
    match a
    case Rock => Scissors
    case Paper => Rock
    case Scissors => Paper
  }

  /** A shape draws against itself only, and a win for one side is a loss for the other. */
  lemma PlayRoundReverses(a: Shape, b: Shape)
    ensures PlayRound(a, b) == Draw <==> a == b
    ensures PlayRound(a, b) == Win <==> PlayRound(b, a) == Loss
    ensures PlayRound(a, b) == Loss <==> PlayRound(b, a) == Win
  {
  }

  /** Each shape beats exactly one shape, and a different one for each shape. */
  lemma BeatsExactlyOne(a: Shape, b: Shape)
    ensures PlayRound(a, b) == Win <==> b == Beats(a)
    ensures Beats(a) == Beats(b) ==> a == b
  {
  }

  function ShapeScore(a: Shape): nat
  {
    match a
    case Rock => 1
    case Paper => 2
    case Scissors => 3
  }

  function OutcomeScore(r: RoundResult): nat
  {
    match r
    case Win => 6
    case Draw => 3
    case Loss => 0
  }

  /** Part a's score of one round: my shape's score plus my outcome's score. */
  function RoundScoreA(opponent: Shape, mine: Shape): (score: nat)
    ensures 1 <= score <= 9
  {
    ShapeScore(mine) + OutcomeScore(PlayRound(mine, opponent))
  }

  /** Part b's shape choice: the shape reaching `expected` against `opponent`. */
  function ChooseShape(opponent: Shape, expected: RoundResult): (mine: Shape)
    ensures PlayRound(mine, opponent) == expected
  {
    match (opponent, expected)
    case (Rock, Win) => Paper
    case (Rock, Loss) => Scissors
    case (Paper, Win) => Scissors
    case (Paper, Loss) => Rock
    case (Scissors, Win) => Rock
    case (Scissors, Loss) => Paper
    case (a, Draw) => a
  }

  /** The chosen shape is the only one reaching the outcome. */
  lemma ChooseShapeIsUnique(opponent: Shape, expected: RoundResult, mine: Shape)
    requires PlayRound(mine, opponent) == expected
    ensures mine == ChooseShape(opponent, expected)
  {
  }

  /** Part b's score of one round, which is part a's score of the chosen shape. */
  function RoundScoreB(opponent: Shape, expected: RoundResult): (score: nat)
    ensures score == RoundScoreA(opponent, ChooseShape(opponent, expected))
    ensures 1 <= score <= 9
  {
    ShapeScore(ChooseShape(opponent, expected)) + OutcomeScore(expected)
  }

  /** One line `"<opponent> <second>"` of the input, split at its first space. */
  function ParseRoundA(line: string): Option<(Shape, Shape)>
  {
    match SplitOnce(line, ' ')
    case None => None
    case Some((l, r)) =>
      match (ShapeFromStr(l), ShapeFromStr(r))
      case (Some(a), Some(b)) => Some((a, b))
      case _ => None
  }

  function ParseRoundB(line: string): Option<(Shape, RoundResult)>
  {
    match SplitOnce(line, ' ')
    case None => None
    case Some((l, r)) =>
      match (ShapeFromStr(l), ResultFromStr(r))
      case (Some(a), Some(b)) => Some((a, b))
      case _ => None
  }

  /** A line written from two shapes, or from a shape and an outcome, parses back. */
  lemma ParseRoundInverts(opponent: Shape, mine: Shape, expected: RoundResult)
    ensures ParseRoundA(OpponentLetter(opponent) + " " + ShapeLetter(mine)) == Some((opponent, mine))
    ensures ParseRoundB(OpponentLetter(opponent) + " " + ResultLetter(expected)) == Some((opponent, expected))
  {
    var a := OpponentLetter(opponent);
    FromStrInverts(opponent, expected, "");
    FromStrInverts(mine, expected, "");
    assert a + " " + ShapeLetter(mine) == a + [' '] + ShapeLetter(mine);
    SplitOnceJoin(a, ShapeLetter(mine), ' ');
    assert a + " " + ResultLetter(expected) == a + [' '] + ResultLetter(expected);
    SplitOnceJoin(a, ResultLetter(expected), ' ');
  }

  /** `day2a`: the sum of the round scores. */
  function Day2a(rounds: seq<(Shape, Shape)>): (total: nat)
    ensures |rounds| <= total <= 9 * |rounds|
  {
    if |rounds| == 0 then 0
    else Day2a(rounds[..|rounds| - 1]) + RoundScoreA(rounds[|rounds| - 1].0, rounds[|rounds| - 1].1)
  }

  /** `day2b`: the sum of the round scores with chosen shapes. */
  function Day2b(rounds: seq<(Shape, RoundResult)>): (total: nat)
    ensures |rounds| <= total <= 9 * |rounds|
  {
    if |rounds| == 0 then 0
    else Day2b(rounds[..|rounds| - 1]) + RoundScoreB(rounds[|rounds| - 1].0, rounds[|rounds| - 1].1)
  }

  /** Part b's total is part a's total over the rounds with the chosen shapes. */
  lemma {:induction false} Day2bIsDay2aOfChoices(rounds: seq<(Shape, RoundResult)>)
    ensures Day2b(rounds) == Day2a(seq(|rounds|, i requires 0 <= i < |rounds| => (rounds[i].0, ChooseShape(rounds[i].0, rounds[i].1))))
  {
    var chosen := seq(|rounds|, i requires 0 <= i < |rounds| => (rounds[i].0, ChooseShape(rounds[i].0, rounds[i].1)));
    if |rounds| > 0 {
      var init := rounds[..|rounds| - 1];
      Day2bIsDay2aOfChoices(init);
      assert chosen[..|rounds| - 1] == seq(|init|, i requires 0 <= i < |init| => (init[i].0, ChooseShape(init[i].0, init[i].1)));
    }
  }
}
