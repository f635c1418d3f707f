/**
 * Dive of 2021/day2/src/main.rs: the submarine's commands and the two
 * ways of reading them, the "bad" one that moves depth directly and the
 * "good" one that steers an aim.
 */
module Dive {
  import Text
  import Numbers

  const I32Min := -0x8000_0000
  const I32Max := 0x7fff_ffff

  /** A command line as both algorithms read it; Skip is a line they pass over. */
  datatype Command = Forward(n: int) | Up(n: int) | Down(n: int) | Skip

  /** The magnitude token as an `i32`; one that does not parse counts as 0. */
  function Magnitude(token: string): (m: int)
    ensures I32Min <= m <= I32Max
    ensures Numbers.ParseInteger(token, I32Min, I32Max).None? ==> m == 0
  {
    match Numbers.ParseInteger(token, I32Min, I32Max)
    case Some(v) => v
    case None => 0
  }

  /**
   * A line split on single spaces: anything but two tokens is skipped, and
   * so is a first token other than the three commands.
   */
  function ParseCommand(line: string): (c: Command)
    ensures |Text.Split(line, " ")| != 2 ==> c == Skip
    ensures c.Forward? ==> Text.Split(line, " ")[0] == "forward"
    ensures c.Up? ==> Text.Split(line, " ")[0] == "up"
    ensures c.Down? ==> Text.Split(line, " ")[0] == "down"
    ensures !c.Skip? ==> c.n == Magnitude(Text.Split(line, " ")[1])
  {
    var tokens := Text.Split(line, " ");
    if |tokens| != 2 then Skip
    else
      var magnitude := Magnitude(tokens[1]);
      if tokens[0] == "forward" then Forward(magnitude)
      else if tokens[0] == "up" then Up(magnitude)
      else if tokens[0] == "down" then Down(magnitude)
      else Skip
  }

  /** The text of a command, as the puzzle writes it. */
  function ShowCommand(c: Command): string
    requires !c.Skip?
  {
    (match c
     case Forward(_) => "forward"
     case Up(_) => "up"
     case Down(_) => "down") + " " + Numbers.Show(c.n)
  }

  /** Reading back the text of a command with an `i32` magnitude gives the command. */
  lemma ParseShowCommand(c: Command)
    requires !c.Skip? && I32Min <= c.n <= I32Max
    ensures ParseCommand(ShowCommand(c)) == c
  {
    var name := match c case Forward(_) => "forward" case Up(_) => "up" case Down(_) => "down";
    assert ShowCommand(c) == name + " " + Numbers.Show(c.n);
    ShownTokens(name, c.n);
  }

  /** A command word without spaces, a space and a shown `i32` split into the word and the number, which reads back. */
  lemma ShownTokens(name: string, n: int)
    requires ' ' !in name && I32Min <= n <= I32Max
    ensures Text.Split(name + " " + Numbers.Show(n), " ") == [name, Numbers.Show(n)]
    ensures Magnitude(Numbers.Show(n)) == n
  {
    var number := Numbers.Show(n);
    Numbers.ParseShow(n, I32Min, I32Max);
    Numbers.ShowAlphabet(n);
    Text.SplitFirst(name, number, " ");
    Text.SplitWhole(number, " ");
  }

  datatype Place = Place(x: int, depth: int)
  datatype Course = Course(x: int, depth: int, aim: int)

  /** One command read the "bad" way: forward moves on, up and down change depth. */
  function Move(p: Place, c: Command): Place
  {
    match c
    case Forward(n) => p.(x := p.x + n)
    case Up(n) => p.(depth := p.depth - n)
    case Down(n) => p.(depth := p.depth + n)
    case Skip => p
  }

  /** One command read the "good" way: up and down turn the aim, forward also dives by aim times the distance. */
  function Steer(s: Course, c: Command): Course
  {
    match c
    case Forward(n) => s.(x := s.x + n, depth := s.depth + s.aim * n)
    case Up(n) => s.(aim := s.aim - n)
    case Down(n) => s.(aim := s.aim + n)
    case Skip => s
  }

  /** Where the "bad" reading of the commands ends, from the surface. */
  function BadPosition(commands: seq<Command>): Place
  {
    if commands == [] then Place(0, 0)
    else Move(BadPosition(commands[..|commands| - 1]), commands[|commands| - 1])
  }

  /** Where the "good" reading of the commands ends, from the surface with aim 0. */
  function Position(commands: seq<Command>): Course
  {
    if commands == [] then Course(0, 0, 0)
    else Steer(Position(commands[..|commands| - 1]), commands[|commands| - 1])
  }

  function Commands(lines: seq<string>): (r: seq<Command>)
    ensures |r| == |lines| && forall i :: 0 <= i < |lines| ==> r[i] == ParseCommand(lines[i])
  {
    if lines == [] then [] else Commands(lines[..|lines| - 1]) + [ParseCommand(lines[|lines| - 1])]
  }

  /** `calculate_bad_position`: each line read as ParseCommand reads it, then applied. */
  method CalculateBadPosition(lines: seq<string>) returns (x: int, y: int)
    ensures Place(x, y) == BadPosition(Commands(lines))
  {
    x, y := 0, 0;
    for i := 0 to |lines|
      invariant Place(x, y) == BadPosition(Commands(lines[..i]))
    {
      CommandsSnoc(lines, i);
      match ParseCommand(lines[i]) {
        case Forward(magnitude) => x := x + magnitude;
        case Up(magnitude) => y := y - magnitude;
        case Down(magnitude) => y := y + magnitude;
        case Skip =>
      }
    }
    assert lines[..|lines|] == lines;
  }

  /** `calculate_position`: the same reading of each line, steering the aim. */
  method CalculatePosition(lines: seq<string>) returns (x: int, y: int)
    ensures x == Position(Commands(lines)).x && y == Position(Commands(lines)).depth
  {
    x, y := 0, 0;
    var aim := 0;
    for i := 0 to |lines|
      invariant Course(x, y, aim) == Position(Commands(lines[..i]))
    {
      CommandsSnoc(lines, i);
      match ParseCommand(lines[i]) {
        case Forward(magnitude) =>
          x := x + magnitude;
          y := y + aim * magnitude;
        case Up(magnitude) => aim := aim - magnitude;
        case Down(magnitude) => aim := aim + magnitude;
        case Skip =>
      }
    }
    assert lines[..|lines|] == lines;
  }

  lemma CommandsSnoc(lines: seq<string>, i: nat)
    requires i < |lines|
    ensures Commands(lines[..i + 1])[..i] == Commands(lines[..i])
    ensures Commands(lines[..i + 1])[i] == ParseCommand(lines[i])
  {
    assert lines[..i + 1][..i] == lines[..i];
  }

  /** Both readings move forward alike, and the "bad" depth is the "good" aim. */
  lemma {:induction false} BadIsAim(commands: seq<Command>)
    ensures BadPosition(commands).x == Position(commands).x
    ensures BadPosition(commands).depth == Position(commands).aim
    decreases |commands|
  {
    if commands != [] {
      BadIsAim(commands[..|commands| - 1]);
    }
  }

  /** Skipped lines change neither reading. */
  lemma {:induction false} SkipsIgnored(commands: seq<Command>, k: nat)
    requires k <= |commands|
    ensures BadPosition(commands[..k] + [Skip] + commands[k..]) == BadPosition(commands)
    ensures Position(commands[..k] + [Skip] + commands[k..]) == Position(commands)
    decreases |commands|
  {
    var longer := commands[..k] + [Skip] + commands[k..];
    if k < |commands| {
      var front := commands[..|commands| - 1];
      SkipsIgnored(front, k);
      assert longer[..|longer| - 1] == front[..k] + [Skip] + front[k..];
    } else {
      assert longer[..|longer| - 1] == commands;
    }
  }
}
