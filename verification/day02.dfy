/** Day 2 (`src/days/day02/mod.rs`): rock-paper-scissors scoring. A round
    scores the value of the player's shape (1, 2 or 3) plus the value of its
    outcome (0, 3 or 6). In part one the second column is the player's shape;
    in part two it is the outcome the player must reach. */
module Day02 {
  import opened Wrappers
  import opened Utils

  datatype Outcome = Win | Draw | Loss

  datatype Shape = Rock | Paper | Scissors

  /** The enum discriminants of the source: the score of an outcome. */
  function OutcomeValue(o: Outcome): nat
  {
    match o
    case Win => 6
    case Draw => 3
    case Loss => 0
  }

  /** The enum discriminants of the source: the score of a shape. */
  function ShapeValue(s: Shape): nat
  {
    match s
    case Rock => 1
    case Paper => 2
    case Scissors => 3
  }

  /** `Outcome::from_symbol`. */
  function OutcomeFromSymbol(symbol: string): (r: Option<Outcome>)
    ensures r == Some(Loss) <==> symbol == "X"
    ensures r == Some(Draw) <==> symbol == "Y"
    ensures r == Some(Win) <==> symbol == "Z"
    ensures r.None? <==> symbol != "X" && symbol != "Y" && symbol != "Z"
  {
    if symbol == "X" then Some(Loss)
    else if symbol == "Y" then Some(Draw)
    else if symbol == "Z" then Some(Win)
    else None
  }

  /** `Shape::from_symbol`: both the opponent's letters and the player's. */
  function ShapeFromSymbol(symbol: string): (r: Option<Shape>)
    ensures r == Some(Rock) <==> symbol == "A" || symbol == "X"
    ensures r == Some(Paper) <==> symbol == "B" || symbol == "Y"
    ensures r == Some(Scissors) <==> symbol == "C" || symbol == "Z"
  {
    if symbol == "A" || symbol == "X" then Some(Rock)
    else if symbol == "B" || symbol == "Y" then Some(Paper)
    else if symbol == "C" || symbol == "Z" then Some(Scissors)
    else None
  }

  /** `get_outcome`: the outcome for the player who plays `shape`. */
  function GetOutcome(shape: Shape, againstShape: Shape): Outcome
  {
    match shape
    case Rock => (match againstShape
      case Rock => Draw
      case Paper => Loss
      case Scissors => Win)
    case Paper => (match againstShape
      case Rock => Win
      case Paper => Draw
      case Scissors => Loss)
    case Scissors => (match againstShape
      case Rock => Loss
      case Paper => Win
      case Scissors => Draw)
  }

  /** `shape_for_desired_outcome`: the shape that reaches `outcome`. */
  function ShapeForDesiredOutcome(outcome: Outcome, againstShape: Shape): (s: Shape)
    ensures GetOutcome(s, againstShape) == outcome
  {
    match outcome
    case Win => (match againstShape
      case Rock => Paper
      case Paper => Scissors
      case Scissors => Rock)
    case Loss => (match againstShape
      case Rock => Scissors
      case Paper => Rock
      case Scissors => Paper)
    case Draw => againstShape
  }

  /** An independent statement of the rules: each shape beats the one before
      it in the cycle Rock, Paper, Scissors. */
  function CycleIndex(s: Shape): int
  {
    match s
    case Rock => 0
    case Paper => 1
    case Scissors => 2
  }

  predicate Beats(a: Shape, b: Shape)
  {
    (CycleIndex(a) - CycleIndex(b)) % 3 == 1
  }

  /** The outcome table agrees with the cycle: win exactly when the shape
      beats the other, draw exactly on equal shapes, loss otherwise. */
  lemma GetOutcomeFollowsCycle(a: Shape, b: Shape)
    ensures GetOutcome(a, b) == Win <==> Beats(a, b)
    ensures GetOutcome(a, b) == Draw <==> a == b
    ensures GetOutcome(a, b) == Loss <==> Beats(b, a)
  {
  }

  /** The table is antisymmetric: a win for one side is a loss for the other. */
  lemma GetOutcomeAntisymmetric(a: Shape, b: Shape)
    ensures GetOutcome(a, b) == Win <==> GetOutcome(b, a) == Loss
    ensures GetOutcome(a, a) == Draw
  {
  }

  /** The shape for an outcome is the only shape that reaches it. */
  lemma DesiredShapeUnique(o: Outcome, against: Shape, s: Shape)
    requires GetOutcome(s, against) == o
    ensures s == ShapeForDesiredOutcome(o, against)
  {
  }

  /** The score of one round: shape value plus outcome value. */
  function RoundScore(player: Shape, opponent: Shape): (score: nat)
    ensures 1 <= score <= 9
    ensures score % 3 == ShapeValue(player) % 3
  {
    ShapeValue(player) + OutcomeValue(GetOutcome(player, opponent))
  }

  /** `parse_input`: the lines of the input split at the first space. A line
      without a space makes the source panic. */
  function ParseInput(input: string): (rounds: seq<(string, string)>)
    requires forall line :: line in Split(input, "\n") ==> SplitOnce(line, ' ').Some?
    ensures |rounds| == |Split(input, "\n")|
    ensures forall i :: 0 <= i < |rounds| ==>
      Split(input, "\n")[i] == rounds[i].0 + " " + rounds[i].1 && ' ' !in rounds[i].0
  {
    var lines := Split(input, "\n");
    seq(|lines|, i requires 0 <= i < |lines| => SplitOnce(lines[i], ' ').value)
  }

  /** Part one reads both columns as shapes (opponent first). */
  predicate ShapeRound(round: (string, string))
  {
    ShapeFromSymbol(round.0).Some? && ShapeFromSymbol(round.1).Some?
  }

  /** Part two reads the second column as the desired outcome. */
  predicate OutcomeRound(round: (string, string))
  {
    ShapeFromSymbol(round.0).Some? && OutcomeFromSymbol(round.1).Some?
  }

  /** The total score of part one: every round the player plays the second
      column's shape. Each round adds between 1 and 9. */
  function PartOneScore(rounds: seq<(string, string)>): (total: nat)
    requires forall i :: 0 <= i < |rounds| ==> ShapeRound(rounds[i])
    ensures |rounds| <= total <= 9 * |rounds|
  {
    if |rounds| == 0 then 0
    else
      assert ShapeRound(rounds[0]);
      var opponent := ShapeFromSymbol(rounds[0].0).value;
      var player := ShapeFromSymbol(rounds[0].1).value;
      RoundScore(player, opponent) + PartOneScore(rounds[1..])
  }

  /** The total score of part two: every round the player picks the shape that
      reaches the desired outcome. */
  function PartTwoScore(rounds: seq<(string, string)>): (total: nat)
    requires forall i :: 0 <= i < |rounds| ==> OutcomeRound(rounds[i])
    ensures |rounds| <= total <= 9 * |rounds|
  {
    if |rounds| == 0 then 0
    else
      assert OutcomeRound(rounds[0]);
      var opponent := ShapeFromSymbol(rounds[0].0).value;
      var outcome := OutcomeFromSymbol(rounds[0].1).value;
      var player := ShapeForDesiredOutcome(outcome, opponent);
      RoundScore(player, opponent) + PartTwoScore(rounds[1..])
  }

  /** In part two a round scores the desired outcome's value plus the value
      of the shape that reaches it. */
  lemma PartTwoRoundScore(outcome: Outcome, opponent: Shape)
    ensures RoundScore(ShapeForDesiredOutcome(outcome, opponent), opponent)
         == ShapeValue(ShapeForDesiredOutcome(outcome, opponent)) + OutcomeValue(outcome)
  {
  }

  /** The example of the tests: 15 points in part one and 12 in part two. */
  lemma Example()
    ensures PartOneScore([("A", "Y"), ("B", "X"), ("C", "Z")]) == 15
    ensures PartTwoScore([("A", "Y"), ("B", "X"), ("C", "Z")]) == 12
  {
  }

  /** The example input splits into those three rounds. */
  lemma ExampleParse(input: string)
    requires input == "A Y\nB X\nC Z"
    ensures Split(input, "\n") == ["A Y", "B X", "C Z"]
  {
    assert input[0] == 'A' && input[1] == ' ' && input[2] == 'Y' && input[3] == '\n';
    assert input[4] == 'B' && input[5] == ' ' && input[6] == 'X' && input[7] == '\n';
    assert input[8] == 'C' && input[9] == ' ' && input[10] == 'Z' && |input| == 11;
    FindSingle(input, '\n', 3);
    var rest := input[4..];
    FindSingle(rest, '\n', 3);
    var last := rest[4..];
    FindSingleAbsent(last, '\n');
    assert Split(last, "\n") == [last];
    assert Split(rest, "\n") == [rest[..3]] + Split(last, "\n");
    assert Split(input, "\n") == [input[..3]] + Split(rest, "\n");
    assert input[..3] == "A Y";
    assert rest[..3] == "B X";
    assert last == "C Z";
  }
}
