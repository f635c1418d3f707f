/**
 * The hull-painting robot (2019 day 11): each cycle it reports whether its
 * panel was ever painted white, reads a colour and a turn from the
 * computer's output, paints, turns a quarter and moves one panel.  The
 * computer's runs are a parameter: the outputs each run appends.
 */
module SpacePolice {
  import Numbers

  datatype Direction = Up | Down | Left | Right

  /** `Direction::turn`: 0 turns left, 1 turns right, anything else is a panic. */
  function Turn(d: Direction, turn: int): Numbers.Option<Direction>
  {
    if turn == 0 then
      Numbers.Some(match d
        case Up => Left
        case Down => Right
        case Left => Down
        case Right => Up)
    else if turn == 1 then
      Numbers.Some(match d
        case Up => Right
        case Down => Left
        case Left => Up
        case Right => Down)
    else Numbers.None
  }

  /** The unit step of a heading, y growing upward. */
  function Step(d: Direction): (int, int)
  {
    match d
    case Up => (0, 1)
    case Down => (0, -1)
    case Left => (-1, 0)
    case Right => (1, 0)
  }

  /** Quarter turns counter-clockwise from Up. */
  function Quarter(d: Direction): nat
  {
    match d
    case Up => 0
    case Left => 1
    case Down => 2
    case Right => 3
  }

  /** A turn is accepted exactly when it is 0 or 1. */
  lemma TurnFails(d: Direction, turn: int)
    ensures Turn(d, turn).None? <==> turn != 0 && turn != 1
  {
  }

  /**
   * Turn 0 is a quarter counter-clockwise and turn 1 a quarter clockwise:
   * the heading's angle goes one quarter up or down, and its step rotates.
   */
  lemma TurnRotates(d: Direction)
    ensures Quarter(Turn(d, 0).value) == (Quarter(d) + 1) % 4
    ensures Quarter(Turn(d, 1).value) == (Quarter(d) + 3) % 4
    ensures Step(Turn(d, 0).value) == (-Step(d).1, Step(d).0)
    ensures Step(Turn(d, 1).value) == (Step(d).1, -Step(d).0)
  {
  }

  /** A heading is fixed by its angle. */
  lemma QuarterUnique(a: Direction, b: Direction)
    requires Quarter(a) == Quarter(b)
    ensures a == b
  {
  }

  /** The same turn n times. */
  function Spin(d: Direction, turn: int, n: nat): Numbers.Option<Direction>
    decreases n
  {
    if n == 0 then Numbers.Some(d)
    else
      match Turn(d, turn)
      case None => Numbers.None
      case Some(e) => Spin(e, turn, n - 1)
  }

  /** A left turn then a right turn, or a right then a left, face the same way; four equal turns come back. */
  lemma TurnsUndo(d: Direction)
    ensures Turn(Turn(d, 0).value, 1) == Numbers.Some(d)
    ensures Turn(Turn(d, 1).value, 0) == Numbers.Some(d)
    ensures Spin(d, 0, 4) == Numbers.Some(d) && Spin(d, 1, 4) == Numbers.Some(d)
  {
    TurnRotates(d);
    TurnRotates(Turn(d, 0).value);
    TurnRotates(Turn(d, 1).value);
    QuarterUnique(Turn(Turn(d, 0).value, 1).value, d);
    QuarterUnique(Turn(Turn(d, 1).value, 0).value, d);
    var l := Turn(d, 0).value;
    var ll := Turn(l, 0).value;
    TurnRotates(ll);
    TurnRotates(Turn(ll, 0).value);
    QuarterUnique(Turn(Turn(ll, 0).value, 0).value, d);
    var r := Turn(d, 1).value;
    var rr := Turn(r, 1).value;
    TurnRotates(rr);
    TurnRotates(Turn(rr, 1).value);
    QuarterUnique(Turn(Turn(rr, 1).value, 1).value, d);
  }

  /** The robot: where it is, where it faces, and every panel painted white, repeats included. */
  datatype Robot = Robot(x: int, y: int, dir: Direction, painted: seq<(int, int)>)

  datatype Fault = InsufficientOutput | BadPaint(paint: int) | BadDirection(turn: int)

  datatype Result<T> = Ok(value: T) | Err(fault: Fault)

  const Start := Robot(0, 0, Up, [])

  /** What the robot tells the computer: 1 when its panel was ever painted white. */
  function Feed(r: Robot): int
  {
    if (r.x, r.y) in r.painted then 1 else 0
  }

  /** The `for (x_paint, y_paint) in &painted_blocks` search with its `break`. */
  method Painted(blocks: seq<(int, int)>, x: int, y: int) returns (painted: bool)
    ensures painted <==> (x, y) in blocks
  {
    painted := false;
    var i := 0;
    while i < |blocks|
      invariant 0 <= i <= |blocks|
      invariant (x, y) !in blocks[..i]
    {
      if x == blocks[i].0 && y == blocks[i].1 {
        painted := true;
        break;
      }
      assert blocks[..i + 1] == blocks[..i] + [blocks[i]];
      i := i + 1;
    }
    assert i == |blocks| ==> blocks[..i] == blocks;
  }

  /**
   * One cycle after the computer has run: at least two outputs, a colour
   * 0 or 1 (1 appends the panel, even again), a turn of 0 or 1, then a
   * move; the outputs after the first two stay queued.
   */
  function Cycle(r: Robot, queue: seq<int>): Result<(Robot, seq<int>)>
  {
    if |queue| < 2 then Err(InsufficientOutput)
    else if queue[0] != 0 && queue[0] != 1 then Err(BadPaint(queue[0]))
    else
      var painted := if queue[0] == 1 then r.painted + [(r.x, r.y)] else r.painted;
      match Turn(r.dir, queue[1])
      case None => Err(BadDirection(queue[1]))
      case Some(d) => Ok((Robot(r.x + Step(d).0, r.y + Step(d).1, d, painted), queue[2..]))
  }

  /** Two panels side by side. */
  predicate Adjacent(x: int, y: int, x': int, y': int)
  {
    (x' == x && (y' == y + 1 || y' == y - 1)) || (y' == y && (x' == x + 1 || x' == x - 1))
  }

  /** A cycle paints the robot's panel exactly when the colour is 1, turns as told and moves to a panel next to it. */
  lemma CycleMeans(r: Robot, queue: seq<int>)
    ensures Cycle(r, queue).Ok? <==> |queue| >= 2 && queue[0] in {0, 1} && queue[1] in {0, 1}
    ensures Cycle(r, queue).Ok? ==> var (r', rest) := Cycle(r, queue).value;
      rest == queue[2..]
      && r'.painted == r.painted + (if queue[0] == 1 then [(r.x, r.y)] else [])
      && Numbers.Some(r'.dir) == Turn(r.dir, queue[1])
      && Adjacent(r.x, r.y, r'.x, r'.y)
      && (r'.x - r.x, r'.y - r.y) == Step(r'.dir)
  {
    if Cycle(r, queue).Ok? && queue[0] == 0 {
      assert r.painted + [] == r.painted;
    }
  }

  /**
   * The robot loop over the computer's runs, each appending its outputs to
   * the queue: the inputs fed before every run and the robot at the end.
   */
  function Driven(r: Robot, queue: seq<int>, runs: seq<seq<int>>): Result<(Robot, seq<int>)>
    decreases |runs|
  {
    if runs == [] then Ok((r, []))
    else
      match Cycle(r, queue + runs[0])
      case Err(f) => Err(f)
      case Ok(next) =>
        match Driven(next.0, next.1, runs[1..])
        case Err(f) => Err(f)
        case Ok(rest) => Ok((rest.0, [Feed(r)] + rest.1))
  }

  /** The `while cpu.halt == false` loop, one iteration per run of the computer. */
  method Drive(runs: seq<seq<int>>) returns (r: Result<(Robot, seq<int>)>)
    ensures r == Driven(Start, [], runs)
  {
    var x, y := 0, 0;
    var dir := Up;
    var blocks: seq<(int, int)> := [];
    var queue: seq<int> := [];
    var inputs: seq<int> := [];
    assert runs[0..] == runs;
    match Driven(Start, [], runs) {
      case Err(_) =>
      case Ok(v) => assert [] + v.1 == v.1;
    }
    for k := 0 to |runs|
      invariant Driven(Start, [], runs) == Before(inputs, Driven(Robot(x, y, dir, blocks), queue, runs[k..]))
    {
      assert runs[k..][0] == runs[k] && runs[k..][1..] == runs[k + 1..];
      ghost var robot := Robot(x, y, dir, blocks);
      ghost var before := queue;
      var painted := Painted(blocks, x, y);
      var input := if painted then 1 else 0;
      queue := queue + runs[k];
      ghost var fed := queue;
      if |queue| < 2 {
        return Err(InsufficientOutput);
      }
      var paint := queue[0];
      var turn := queue[1];
      queue := queue[2..];
      if paint == 1 {
        blocks := blocks + [(x, y)];
      } else if paint != 0 {
        return Err(BadPaint(paint));
      }
      var next := Turn(dir, turn);
      if next.None? {
        return Err(BadDirection(turn));
      }
      dir := next.value;
      match dir {
        case Up => y := y + 1;
        case Down => y := y - 1;
        case Left => x := x - 1;
        case Right => x := x + 1;
      }
      assert Cycle(robot, fed) == Ok((Robot(x, y, dir, blocks), queue));
      Unroll(robot, before, runs[k..]);
      BeforeBefore(inputs, [input], Driven(Robot(x, y, dir, blocks), queue, runs[k + 1..]));
      inputs := inputs + [input];
    }
    r := Ok((Robot(x, y, dir, blocks), inputs));
    assert inputs + [] == inputs;
  }

  /** One run of the loop: its input, then the runs after it. */
  lemma Unroll(r: Robot, queue: seq<int>, runs: seq<seq<int>>)
    requires runs != [] && Cycle(r, queue + runs[0]).Ok?
    ensures Driven(r, queue, runs)
      == Before([Feed(r)], Driven(Cycle(r, queue + runs[0]).value.0, Cycle(r, queue + runs[0]).value.1, runs[1..]))
  {
  }

  /** A failed result, or the inputs so far ahead of the rest. */
  function Before(inputs: seq<int>, r: Result<(Robot, seq<int>)>): Result<(Robot, seq<int>)>
  {
    match r
    case Err(f) => Err(f)
    case Ok(v) => Ok((v.0, inputs + v.1))
  }

  lemma BeforeBefore(a: seq<int>, b: seq<int>, r: Result<(Robot, seq<int>)>)
    ensures Before(a, Before(b, r)) == Before(a + b, r)
  {
    if r.Ok? {
      assert a + (b + r.value.1) == a + b + r.value.1;
    }
  }

  /**
   * After the runs, the robot has made one move per run, so it is at most
   * that many panels from where it began and the parity of x + y has
   * changed with every one; at most one panel was painted per run, and
   * every input was 0 or 1.
   */
  lemma {:induction false} DrivenBounds(r: Robot, queue: seq<int>, runs: seq<seq<int>>)
    ensures Driven(r, queue, runs).Ok? ==> var (e, inputs) := Driven(r, queue, runs).value;
      Distance(r, e) <= |runs| && (Distance(r, e) - |runs|) % 2 == 0
      && |r.painted| <= |e.painted| <= |r.painted| + |runs|
      && |inputs| == |runs| && forall k :: 0 <= k < |inputs| ==> inputs[k] in {0, 1}
    decreases |runs|
  {
    if runs != [] && Driven(r, queue, runs).Ok? {
      var next := Cycle(r, queue + runs[0]).value;
      CycleMeans(r, queue + runs[0]);
      DrivenBounds(next.0, next.1, runs[1..]);
      var (e, inputs) := Driven(r, queue, runs).value;
      Triangle(r, next.0, e);
    }
  }

  function Abs(n: int): nat
  {
    if n < 0 then -n else n
  }

  /** The Manhattan distance between the panels of two robots. */
  function Distance(a: Robot, b: Robot): nat
  {
    Abs(b.x - a.x) + Abs(b.y - a.y)
  }

  /** One panel further on, the distance changes by exactly one. */
  lemma Triangle(a: Robot, b: Robot, c: Robot)
    requires Adjacent(a.x, a.y, b.x, b.y)
    ensures Distance(a, c) == Distance(b, c) + 1 || Distance(a, c) + 1 == Distance(b, c)
  {
  }
}
