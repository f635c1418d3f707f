/**
 * The probe launcher of 2021/day17/src/lib.rs: the target area read from
 * its one-line description, the step rule of the probe, the test that the
 * probe can no longer reach the target, and the brute-force search for
 * the highest point reached by any launch it tries.
 */
module TrickShot {
  import Text
  import opened Numbers

  const I64Min := -0x8000_0000_0000_0000
  const I64Max := 0x7fff_ffff_ffff_ffff

  datatype Target = Target(xMin: int, xMax: int, yMin: int, yMax: int)

  datatype Fault =
    | WordCount    // not four words
    | UnknownLine  // the heading check
    | MissingPart  // an absent `=` or `..` piece, indexed with `[1]`
    | BadNumber    // a bound that does not parse as i64

  datatype Result<T> = Ok(value: T) | Err(fault: Fault)

  // Parsing.

  /** The `[1]` piece of a split, which panics when there is none. */
  function Second(pieces: seq<string>): Result<string>
  {
    if |pieces| < 2 then Err(MissingPart) else Ok(pieces[1])
  }

  function Bound(s: string): Result<int>
  {
    match ParseInteger(s, I64Min, I64Max)
    case None => Err(BadNumber)
    case Some(v) => Ok(v)
  }

  /** The bounds after the heading: `x=a..b,` and `y=c..d`, with the comma dropped from b as `next_back` does. */
  function Bounds(xWord: string, yWord: string): Result<Target>
  {
    match (Second(Text.Split(xWord, "=")), Second(Text.Split(yWord, "=")))
    case (Err(f), _) => Err(f)
    case (_, Err(f)) => Err(f)
    case (Ok(xText), Ok(yText)) =>
      var xVals, yVals := Text.Split(xText, ".."), Text.Split(yText, "..");
      if |xVals| < 2 then Err(MissingPart)
      else
        var xMax := if xVals[1] == [] then [] else xVals[1][..|xVals[1]| - 1];
        match (Bound(xVals[0]), Bound(xMax), Bound(yVals[0]))
        case (Err(f), _, _) => Err(f)
        case (_, Err(f), _) => Err(f)
        case (_, _, Err(f)) => Err(f)
        case (Ok(a), Ok(b), Ok(c)) =>
          if |yVals| < 2 then Err(MissingPart)
          else
            match Bound(yVals[1])
            case Err(f) => Err(f)
            case Ok(d) => Ok(Target(a, b, c, d))
  }

  /** `parse` as written: the heading is rejected only when both of its words are wrong. */
  function ParseAsWritten(data: string): Result<Target>
  {
    var words := Text.Split(data, " ");
    if |words| != 4 then Err(WordCount)
    else if words[0] != "target" && words[1] != "area:" then Err(UnknownLine)
    else Bounds(words[2], words[3])
  }

  /** `parse` with the heading check as plainly intended: both words must be right. */
  function Parse(data: string): (r: Result<Target>)
    ensures r.Ok? ==> |Text.Split(data, " ")| == 4 && Text.Split(data, " ")[0] == "target" && Text.Split(data, " ")[1] == "area:"
  {
    var words := Text.Split(data, " ");
    if |words| != 4 then Err(WordCount)
    else if words[0] != "target" || words[1] != "area:" then Err(UnknownLine)
    else Bounds(words[2], words[3])
  }

  /** The description of a target area, as the puzzle input writes it. */
  function Describe(heading: string, a: int, b: int, c: int, d: int): string
  {
    Text.Join([heading, "area:", "x=" + Show(a) + ".." + Show(b) + ",", "y=" + Show(c) + ".." + Show(d)], " ")
  }

  lemma ShowFree(n: int, c: char)
    requires c == ' ' || c == '=' || c == '.' || c == ','
    ensures c !in Show(n)
  {
    var s := Digits(if n < 0 then 0 - n else n);
    assert forall i :: 0 <= i < |s| ==> IsDigit(s[i]);
  }

  lemma SplitTwo(u: string, v: string, sep: string)
    requires sep != [] && sep[0] !in u && sep[0] !in v
    ensures Text.Split(u + sep + v, sep) == [u, v]
  {
    Text.JoinSplit([u, v], sep);
    assert [u, v][1..] == [v];
  }

  /** The x word `x=a..b,` splits into a and `b,`. */
  lemma XPieces(a: int, b: int)
    ensures Text.Split("x=" + Show(a) + ".." + Show(b) + ",", "=") == ["x", Show(a) + ".." + Show(b) + ","]
    ensures Text.Split(Show(a) + ".." + Show(b) + ",", "..") == [Show(a), Show(b) + ","]
  {
    ShowFree(a, '='); ShowFree(b, '='); ShowFree(a, '.'); ShowFree(b, '.');
    SplitTwo("x", Show(a) + ".." + Show(b) + ",", "=");
    assert "x" + "=" + (Show(a) + ".." + Show(b) + ",") == "x=" + Show(a) + ".." + Show(b) + ",";
    SplitTwo(Show(a), Show(b) + ",", "..");
    assert Show(a) + ".." + (Show(b) + ",") == Show(a) + ".." + Show(b) + ",";
  }

  /** The y word `y=c..d` splits into c and d. */
  lemma YPieces(c: int, d: int)
    ensures Text.Split("y=" + Show(c) + ".." + Show(d), "=") == ["y", Show(c) + ".." + Show(d)]
    ensures Text.Split(Show(c) + ".." + Show(d), "..") == [Show(c), Show(d)]
  {
    ShowFree(c, '='); ShowFree(d, '='); ShowFree(c, '.'); ShowFree(d, '.');
    SplitTwo("y", Show(c) + ".." + Show(d), "=");
    assert "y" + "=" + (Show(c) + ".." + Show(d)) == "y=" + Show(c) + ".." + Show(d);
    SplitTwo(Show(c), Show(d), "..");
  }

  /** The four words of a description. */
  lemma DescribeWords(heading: string, a: int, b: int, c: int, d: int)
    requires ' ' !in heading
    ensures Text.Split(Describe(heading, a, b, c, d), " ") == [heading, "area:", "x=" + Show(a) + ".." + Show(b) + ",", "y=" + Show(c) + ".." + Show(d)]
  {
    ShowFree(a, ' '); ShowFree(b, ' '); ShowFree(c, ' '); ShowFree(d, ' ');
    Text.JoinSplit([heading, "area:", "x=" + Show(a) + ".." + Show(b) + ",", "y=" + Show(c) + ".." + Show(d)], " ");
  }

  /** The bounds of a description, read back. */
  lemma DescribeBounds(a: int, b: int, c: int, d: int)
    requires I64Min <= a <= I64Max && I64Min <= b <= I64Max && I64Min <= c <= I64Max && I64Min <= d <= I64Max
    ensures Bounds("x=" + Show(a) + ".." + Show(b) + ",", "y=" + Show(c) + ".." + Show(d)) == Ok(Target(a, b, c, d))
  {
    XPieces(a, b);
    YPieces(c, d);
    var bc := Show(b) + ",";
    assert bc[..|bc| - 1] == Show(b);
    ParseShow(a, I64Min, I64Max);
    ParseShow(b, I64Min, I64Max);
    ParseShow(c, I64Min, I64Max);
    ParseShow(d, I64Min, I64Max);
  }

  /** `parse` reads back every description with i64 bounds. */
  lemma ParseDescribe(a: int, b: int, c: int, d: int)
    requires I64Min <= a <= I64Max && I64Min <= b <= I64Max && I64Min <= c <= I64Max && I64Min <= d <= I64Max
    ensures Parse(Describe("target", a, b, c, d)) == Ok(Target(a, b, c, d))
  {
    DescribeWords("target", a, b, c, d);
    DescribeBounds(a, b, c, d);
  }

  /** The example of the tests is such a description. */
  lemma ParseExample()
    ensures Parse("target area: x=1..14, y=15..29") == Ok(Target(1, 14, 15, 29))
  {
    ExampleDescribed();
    ParseDescribe(1, 14, 15, 29);
  }

  lemma ExampleDescribed()
    ensures Describe("target", 1, 14, 15, 29) == "target area: x=1..14, y=15..29"
  {
    var words := ["target", "area:", "x=1..14,", "y=15..29"];
    ExampleWords();
    ExampleJoined(words);
  }

  lemma ExampleWords()
    ensures "x=" + Show(1) + ".." + Show(14) + "," == "x=1..14,"
    ensures "y=" + Show(15) + ".." + Show(29) == "y=15..29"
  {
    assert Show(1) == "1" && Show(14) == "14" && Show(15) == "15" && Show(29) == "29";
  }

  lemma ExampleJoined(words: seq<string>)
    requires words == ["target", "area:", "x=1..14,", "y=15..29"]
    ensures Text.Join(words, " ") == "target area: x=1..14, y=15..29"
  {
    ExampleJoinedX();
    ExampleJoinedArea();
    Text.JoinCons("target", ["area:", "x=1..14,", "y=15..29"], " ");
    assert ["target"] + ["area:", "x=1..14,", "y=15..29"] == words;
    ExampleLine();
  }

  lemma ExampleLine()
    ensures "target" + " " + "area: x=1..14, y=15..29" == "target area: x=1..14, y=15..29"
  {
  }

  lemma ExampleJoinedX()
    ensures Text.Join(["x=1..14,", "y=15..29"], " ") == "x=1..14, y=15..29"
  {
    Text.JoinCons("x=1..14,", ["y=15..29"], " ");
    assert ["x=1..14,"] + ["y=15..29"] == ["x=1..14,", "y=15..29"];
    assert "x=1..14," + " " + "y=15..29" == "x=1..14, y=15..29";
  }

  lemma ExampleJoinedArea()
    requires Text.Join(["x=1..14,", "y=15..29"], " ") == "x=1..14, y=15..29"
    ensures Text.Join(["area:", "x=1..14,", "y=15..29"], " ") == "area: x=1..14, y=15..29"
  {
    Text.JoinCons("area:", ["x=1..14,", "y=15..29"], " ");
    assert ["area:"] + ["x=1..14,", "y=15..29"] == ["area:", "x=1..14,", "y=15..29"];
    assert "area:" + " " + "x=1..14, y=15..29" == "area: x=1..14, y=15..29";
  }

  /** As written, a heading whose first word is wrong is still accepted. */
  lemma AsWrittenAcceptsBadHeading()
    ensures ParseAsWritten(Describe("targit", 1, 14, 15, 29)) == Ok(Target(1, 14, 15, 29))
    ensures Parse(Describe("targit", 1, 14, 15, 29)) == Err(UnknownLine)
  {
    DescribeWords("targit", 1, 14, 15, 29);
    DescribeBounds(1, 14, 15, 29);
  }

  // The probe.

  datatype State = State(xPos: int, yPos: int, xVel: int, yVel: int)

  /** `in_target`: inside the area, every bound included. */
  predicate InTarget(p: State, t: Target)
  {
    t.xMin <= p.xPos <= t.xMax && t.yMin <= p.yPos <= t.yMax
  }

  /** `missed`: past the far side while not moving back, before the near side while not moving on, or below while not rising. */
  predicate Missed(p: State, t: Target)
  {
    || (p.xVel >= 0 && p.xPos > t.xMax)
    || (p.xVel <= 0 && p.xPos < t.xMin)
    || (p.yVel <= 0 && p.yPos < t.yMin)
  }

  /** `update`: move by the velocity, drag x one step toward 0, and let gravity lower y's velocity. */
  function Step(p: State): (r: State)
    ensures r.xPos == p.xPos + p.xVel && r.yPos == p.yPos + p.yVel && r.yVel == p.yVel - 1
    ensures 0 <= r.xVel * p.xVel && (p.xVel != 0 ==> r.xVel * r.xVel < p.xVel * p.xVel) && (p.xVel == 0 ==> r.xVel == 0)
  {
    State(p.xPos + p.xVel, p.yPos + p.yVel, if p.xVel > 0 then p.xVel - 1 else if p.xVel < 0 then p.xVel + 1 else 0, p.yVel - 1)
  }

  function Steps(p: State, n: nat): State
    decreases n
  {
    if n == 0 then p else Steps(Step(p), n - 1)
  }

  /** A probe in the target has not missed it. */
  lemma InTargetNotMissed(p: State, t: Target)
    requires InTarget(p, t)
    ensures !Missed(p, t)
  {
  }

  /** `missed` is sound: once it holds it holds after every later step, so the probe never reaches the target again. */
  lemma {:induction false} MissedForever(p: State, t: Target, n: nat)
    requires Missed(p, t)
    ensures Missed(Steps(p, n), t) && !InTarget(Steps(p, n), t)
    decreases n
  {
    if n > 0 {
      MissedForever(Step(p), t, n - 1);
    }
  }

  /** The measure that makes the flight loop end: y's velocity runs down, then the height falls to the floor of the target. */
  function Rising(p: State): nat
  {
    if p.yVel > 0 then p.yVel else 0
  }

  function Above(p: State, t: Target): nat
  {
    if p.yPos >= t.yMin then p.yPos - t.yMin + 1 else 0
  }

  function Level(p: State): nat
  {
    if p.yVel == 0 then 1 else 0
  }

  /** The flight loop's running maximum: the highest `y_pos` seen before the probe misses, starting from `best`. */
  function Peak(p: State, t: Target, best: int): int
    decreases Rising(p), Above(p, t), Level(p)
  {
    if Missed(p, t) then best else Peak(Step(p), t, if p.yPos > best then p.yPos else best)
  }

  predicate Flying(p: State, t: Target, n: nat)
  {
    forall k :: 0 <= k <= n ==> !Missed(Steps(p, k), t)
  }

  lemma FlyingNext(p: State, t: Target, n: nat)
    requires n > 0 && Flying(p, t, n)
    ensures !Missed(p, t) && Flying(Step(p), t, n - 1)
  {
    assert Steps(p, 0) == p;
    forall k | 0 <= k <= n - 1
      ensures !Missed(Steps(Step(p), k), t)
    {
      assert Steps(p, k + 1) == Steps(Step(p), k);
    }
  }

  /**
   * The peak is at least the starting best and at least the height of
   * every state before the probe misses; and it is the starting best or
   * one of those heights.
   */
  lemma {:induction false} PeakBounds(p: State, t: Target, best: int, n: nat)
    ensures Peak(p, t, best) >= best
    ensures Flying(p, t, n) ==> Peak(p, t, best) >= Steps(p, n).yPos
    decreases Rising(p), Above(p, t), Level(p)
  {
    assert Steps(p, 0) == p;
    if !Missed(p, t) {
      var next := if p.yPos > best then p.yPos else best;
      if n > 0 && Flying(p, t, n) {
        FlyingNext(p, t, n);
        PeakBounds(Step(p), t, next, n - 1);
      } else {
        PeakBounds(Step(p), t, next, 0);
      }
    }
  }

  lemma {:induction false} PeakAttained(p: State, t: Target, best: int) returns (n: nat)
    ensures Peak(p, t, best) == best || (Flying(p, t, n) && Peak(p, t, best) == Steps(p, n).yPos)
    decreases Rising(p), Above(p, t), Level(p)
  {
    if Missed(p, t) {
      return 0;
    }
    var next := if p.yPos > best then p.yPos else best;
    var m := PeakAttained(Step(p), t, next);
    if Peak(p, t, best) == best {
      return 0;
    }
    assert Steps(p, 0) == p;
    if Peak(Step(p), t, next) == next {
      assert Flying(p, t, 0);
      return 0;
    }
    n := m + 1;
    assert Steps(p, n) == Steps(Step(p), m);
    forall k | 0 <= k <= n
      ensures !Missed(Steps(p, k), t)
    {
      if k > 0 {
        assert Steps(p, k) == Steps(Step(p), k - 1);
      }
    }
  }

  function Launch(x: int, y: int): State
  {
    State(0, 0, x, y)
  }

  /** The inner `for y` loop from y on. */
  function SweepY(t: Target, x: int, y: int, best: int): int
    decreases t.yMax - y
  {
    if y >= t.yMax then best else SweepY(t, x, y + 1, Peak(Launch(x, y), t, best))
  }

  /** The outer `for x` loop from x on. */
  function SweepX(t: Target, x: int, best: int): int
    decreases t.xMax - x
  {
    if x >= t.xMax then best else SweepX(t, x + 1, SweepY(t, x, t.yMin, best))
  }

  /** `find_highest_launch`: launches from every velocity in [x_min, x_max) × [y_min, y_max), starting from 0. */
  function HighestLaunch(t: Target): int
  {
    SweepX(t, t.xMin, 0)
  }

  lemma {:induction false} SweepYBounds(t: Target, x: int, y: int, best: int)
    ensures SweepY(t, x, y, best) >= best
    ensures forall v, n: nat :: y <= v < t.yMax && Flying(Launch(x, v), t, n) ==> SweepY(t, x, y, best) >= Steps(Launch(x, v), n).yPos
    decreases t.yMax - y
  {
    if y < t.yMax {
      var next := Peak(Launch(x, y), t, best);
      SweepYBounds(t, x, y + 1, next);
      forall n: nat | Flying(Launch(x, y), t, n)
        ensures next >= Steps(Launch(x, y), n).yPos
      {
        PeakBounds(Launch(x, y), t, best, n);
      }
      PeakBounds(Launch(x, y), t, best, 0);
    }
  }

  lemma {:induction false} SweepXBounds(t: Target, x: int, best: int)
    ensures SweepX(t, x, best) >= best
    ensures forall u, v, n: nat :: x <= u < t.xMax && t.yMin <= v < t.yMax && Flying(Launch(u, v), t, n) ==> SweepX(t, x, best) >= Steps(Launch(u, v), n).yPos
    decreases t.xMax - x
  {
    if x < t.xMax {
      SweepYBounds(t, x, t.yMin, best);
      SweepXBounds(t, x + 1, SweepY(t, x, t.yMin, best));
    }
  }

  /** The highest launch is at least 0 and at least every height that any tried launch reaches before it misses. */
  lemma HighestLaunchBounds(t: Target)
    ensures HighestLaunch(t) >= 0
    ensures forall u, v, n: nat :: t.xMin <= u < t.xMax && t.yMin <= v < t.yMax && Flying(Launch(u, v), t, n) ==> HighestLaunch(t) >= Steps(Launch(u, v), n).yPos
  {
    SweepXBounds(t, t.xMin, 0);
  }

  /** The probe of `find_highest_launch`, which `update` moves in place. */
  class Probe {
    var xPos: int
    var yPos: int
    var xVel: int
    var yVel: int

    function Value(): State
      reads this
    {
      State(xPos, yPos, xVel, yVel)
    }

    constructor (x: int, y: int)
      ensures Value() == Launch(x, y)
    {
      xPos, yPos, xVel, yVel := 0, 0, x, y;
    }

    /** `update`. */
    method Update()
      modifies this
      ensures Value() == Step(old(Value()))
    {
      xPos := xPos + xVel;
      yPos := yPos + yVel;
      if xVel > 0 {
        xVel := xVel - 1;
      }
      if xVel < 0 {
        xVel := xVel + 1;
      }
      yVel := yVel - 1;
    }
  }

  /** `find_highest_launch`, with the running maximum of its nested loops. */
  method FindHighestLaunch(t: Target) returns (highest: int)
    ensures highest == HighestLaunch(t)
  {
    highest := 0;
    var x := t.xMin;
    while x < t.xMax
      invariant HighestLaunch(t) == SweepX(t, x, highest)
      decreases t.xMax - x
    {
      var y := t.yMin;
      ghost var before := highest;
      while y < t.yMax
        invariant SweepY(t, x, t.yMin, before) == SweepY(t, x, y, highest)
        decreases t.yMax - y
      {
        var probe := new Probe(x, y);
        while !Missed(probe.Value(), t)
          invariant SweepY(t, x, t.yMin, before) == SweepY(t, x, y + 1, Peak(probe.Value(), t, highest))
          decreases Rising(probe.Value()), Above(probe.Value(), t), Level(probe.Value())
        {
          if probe.yPos > highest {
            highest := probe.yPos;
          }
          probe.Update();
        }
        y := y + 1;
      }
      x := x + 1;
    }
  }
}
