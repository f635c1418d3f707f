/**
 * Rock, paper, scissors scoring of 2022/day2/src/main.rs: the shapes and
 * outcomes with their point values, the rules of play, the shape that
 * achieves a desired outcome, and the per-round totals of `simulate`.
 */
module RockPaperScissors {
  import Text

  datatype Shape = Rock | Paper | Scissors

  datatype Outcome = Loss | Draw | Win

  datatype Fault = InvalidLine(line: string) | InvalidMove(symbol: string) | InvalidOutcome(symbol: string)

  datatype Result<T> = Ok(value: T) | Err(fault: Fault)

  function ShapeValue(s: Shape): (v: int)
    ensures 1 <= v <= 3
  {
    match s
    case Rock => 1
    case Paper => 2
    case Scissors => 3
  }

  function OutcomeValue(o: Outcome): (v: int)
    ensures v in {0, 3, 6}
  {
    match o
    case Loss => 0
    case Draw => 3
    case Win => 6
  }

  /** Distinct shapes score differently, and so do distinct outcomes. */
  lemma ValuesInjective(a: Shape, b: Shape, o: Outcome, p: Outcome)
    ensures ShapeValue(a) == ShapeValue(b) <==> a == b
    ensures OutcomeValue(o) == OutcomeValue(p) <==> o == p
  {
  }

  /** `Shape::parse`: either column's letter for a shape. */
  function ParseShape(symbol: string): (r: Result<Shape>)
    ensures r.Err? <==> symbol !in {"A", "B", "C", "X", "Y", "Z"}
    ensures r.Ok? ==> (r.value == Rock <==> symbol in {"A", "X"})
    ensures r.Ok? ==> (r.value == Paper <==> symbol in {"B", "Y"})
  {
    if symbol == "A" || symbol == "X" then Ok(Rock)
    else if symbol == "B" || symbol == "Y" then Ok(Paper)
    else if symbol == "C" || symbol == "Z" then Ok(Scissors)
    else Err(InvalidMove(symbol))
  }

  /** `Outcome::parse`: X, Y and Z for loss, draw and win. */
  function ParseOutcome(symbol: string): (r: Result<Outcome>)
    ensures r.Err? <==> symbol !in {"X", "Y", "Z"}
  {
    if symbol == "X" then Ok(Loss)
    else if symbol == "Y" then Ok(Draw)
    else if symbol == "Z" then Ok(Win)
    else Err(InvalidOutcome(symbol))
  }

  function Reverse(o: Outcome): Outcome
  {
    match o
    case Loss => Win
    case Draw => Draw
    case Win => Loss
  }

  /** `reverse` is an involution fixing only Draw, and the points of an outcome and its reverse add up to 6. */
  lemma ReverseInvolution(o: Outcome)
    ensures Reverse(Reverse(o)) == o
    ensures Reverse(o) == o <==> o == Draw
    ensures OutcomeValue(o) + OutcomeValue(Reverse(o)) == 6
  {
  }

  /** `play`: the outcome for `self` against `opponent`. */
  function Play(self: Shape, opponent: Shape): (o: Outcome)
    ensures o == Win <==> Beats(self, opponent)
    ensures o == Draw <==> self == opponent
  {
    match self
    case Rock => (match opponent case Rock => Draw case Paper => Loss case Scissors => Win)
    case Paper => (match opponent case Rock => Win case Paper => Draw case Scissors => Loss)
    case Scissors => (match opponent case Rock => Loss case Paper => Win case Scissors => Draw)
  }

  /** The standard rule as a reference: a shape beats the one whose value is one less, cyclically. */
  predicate Beats(a: Shape, b: Shape)
  {
    (ShapeValue(a) - ShapeValue(b)) % 3 == 1
  }

  /** `play` follows the rule, draws exactly on equal shapes, and is antisymmetric. */
  lemma PlayRules(a: Shape, b: Shape)
    ensures Play(a, b) == Win <==> Beats(a, b)
    ensures Play(a, b) == Loss <==> Beats(b, a)
    ensures Play(a, b) == Draw <==> a == b
    ensures Play(a, b) == Reverse(Play(b, a))
  {
  }

  /** `solve`: the shape to play against `self` for the desired result. */
  function Solve(self: Shape, result: Outcome): (s: Shape)
    ensures Play(s, self) == result
  {
    match self
    case Rock => (match result case Loss => Scissors case Draw => Rock case Win => Paper)
    case Paper => (match result case Loss => Rock case Draw => Paper case Win => Scissors)
    case Scissors => (match result case Loss => Paper case Draw => Scissors case Win => Rock)
  }

  /** The solved shape achieves the desired result, and it is the only shape that does. */
  lemma SolveAchieves(opponent: Shape, result: Outcome, s: Shape)
    ensures Play(Solve(opponent, result), opponent) == result
    ensures Play(s, opponent) == result ==> s == Solve(opponent, result)
  {
  }

  /** Part one's points for a round: the player's shape and outcome, the opponent's shape and the reversed outcome. */
  function ScoreOne(opponent: Shape, player: Shape): (int, int)
  {
    var result := Play(player, opponent);
    (ShapeValue(player) + OutcomeValue(result), ShapeValue(opponent) + OutcomeValue(Reverse(result)))
  }

  /** Part two's points for a round, computed from the desired outcome. */
  function ScoreTwo(opponent: Shape, desired: Outcome): (int, int)
  {
    (OutcomeValue(desired) + ShapeValue(Solve(opponent, desired)), ShapeValue(opponent) + OutcomeValue(Reverse(desired)))
  }

  /**
   * Part two scores a round exactly as part one would score the solved
   * shape, and in either part the two players share 6 outcome points.
   */
  lemma ScoresAgree(opponent: Shape, player: Shape, desired: Outcome)
    ensures ScoreTwo(opponent, desired) == ScoreOne(opponent, Solve(opponent, desired))
    ensures ScoreOne(opponent, player).0 + ScoreOne(opponent, player).1 == ShapeValue(player) + ShapeValue(opponent) + 6
  {
    SolveAchieves(opponent, desired, player);
    ReverseInvolution(Play(player, opponent));
  }

  /** The running totals of `simulate`. */
  datatype Totals = Totals(rounds: nat, playerOne: int, opponentOne: int, playerTwo: int, opponentTwo: int)

  /** One line: `split(" ")` must give two pieces; the second is read both as a shape and as an outcome. */
  function Round(line: string, t: Totals): Result<Totals>
  {
    var moves := Text.Split(line, " ");
    if |moves| != 2 then Err(InvalidLine(line))
    else
      match (ParseShape(moves[0]), ParseShape(moves[1]), ParseOutcome(moves[1]))
      case (Err(f), _, _) => Err(f)
      case (_, Err(f), _) => Err(f)
      case (_, _, Err(f)) => Err(f)
      case (Ok(opponent), Ok(player), Ok(desired)) =>
        var one, two := ScoreOne(opponent, player), ScoreTwo(opponent, desired);
        Ok(Totals(t.rounds + 1, t.playerOne + one.0, t.opponentOne + one.1, t.playerTwo + two.0, t.opponentTwo + two.1))
  }

  /** The totals after all lines; the first bad line panics. */
  function Simulated(lines: seq<string>, t: Totals): Result<Totals>
    decreases |lines|
  {
    if lines == [] then Ok(t)
    else
      match Round(lines[0], t)
      case Err(f) => Err(f)
      case Ok(next) => Simulated(lines[1..], next)
  }

  /** After n valid rounds, each part's two totals have grown by between 8n and 12n, and the round count by n. */
  lemma {:induction false} TotalsBound(lines: seq<string>, t: Totals)
    requires Simulated(lines, t).Ok?
    ensures var e := Simulated(lines, t).value;
            && e.rounds == t.rounds + |lines|
            && 8 * |lines| <= (e.playerOne - t.playerOne) + (e.opponentOne - t.opponentOne) <= 12 * |lines|
            && 8 * |lines| <= (e.playerTwo - t.playerTwo) + (e.opponentTwo - t.opponentTwo) <= 12 * |lines|
    decreases |lines|
  {
    if lines != [] {
      var moves := Text.Split(lines[0], " ");
      var opponent, player, desired := ParseShape(moves[0]).value, ParseShape(moves[1]).value, ParseOutcome(moves[1]).value;
      ScoresAgree(opponent, player, desired);
      ScoresAgree(opponent, Solve(opponent, desired), desired);
      TotalsBound(lines[1..], Round(lines[0], t).value);
    }
  }

  /** The run from line i on is line i's round followed by the run from line i + 1 on. */
  lemma SimulatedUnfolds(lines: seq<string>, i: nat, t: Totals)
    requires i < |lines|
    ensures Round(lines[i], t).Err? ==> Simulated(lines[i..], t) == Err(Round(lines[i], t).fault)
    ensures Round(lines[i], t).Ok? ==> Simulated(lines[i..], t) == Simulated(lines[i + 1..], Round(lines[i], t).value)
  {
    assert lines[i..][0] == lines[i] && lines[i..][1..] == lines[i + 1..];
  }

  /** The `for raw in … lines()` loop of `simulate`. */
  method Simulate(lines: seq<string>) returns (r: Result<Totals>)
    ensures r == Simulated(lines, Totals(0, 0, 0, 0, 0))
  {
    var totals := Totals(0, 0, 0, 0, 0);
    var i := 0;
    while i < |lines|
      invariant 0 <= i <= |lines|
      invariant Simulated(lines, Totals(0, 0, 0, 0, 0)) == Simulated(lines[i..], totals)
    {
      SimulatedUnfolds(lines, i, totals);
      var next := PlayRound(lines[i], totals);
      if next.Err? {
        return Err(next.fault);
      }
      totals := next.value;
      i := i + 1;
    }
    return Ok(totals);
  }

  /** The body of that loop: one line's round added to the running totals. */
  method PlayRound(line: string, t: Totals) returns (r: Result<Totals>)
    ensures r == Round(line, t)
  {
    var rounds := t.rounds + 1;
    var moves := Text.Split(line, " ");
    if |moves| != 2 {
      return Err(InvalidLine(line));
    }
    var opponentMove := ParseShape(moves[0]);
    if opponentMove.Err? {
      return Err(opponentMove.fault);
    }
    var playerMoveOne := ParseShape(moves[1]);
    if playerMoveOne.Err? {
      return Err(playerMoveOne.fault);
    }
    var desiredOutcome := ParseOutcome(moves[1]);
    if desiredOutcome.Err? {
      return Err(desiredOutcome.fault);
    }
    var resultOne := Play(playerMoveOne.value, opponentMove.value);
    var playerOne := t.playerOne + ShapeValue(playerMoveOne.value) + OutcomeValue(resultOne);
    var opponentOne := t.opponentOne + ShapeValue(opponentMove.value) + OutcomeValue(Reverse(resultOne));
    var playerMoveTwo := Solve(opponentMove.value, desiredOutcome.value);
    var playerTwo := t.playerTwo + OutcomeValue(desiredOutcome.value) + ShapeValue(playerMoveTwo);
    var opponentTwo := t.opponentTwo + ShapeValue(opponentMove.value) + OutcomeValue(Reverse(desiredOutcome.value));
    return Ok(Totals(rounds, playerOne, opponentOne, playerTwo, opponentTwo));
  }
}
