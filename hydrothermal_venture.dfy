/**
 * Hydrothermal vents of archive/2021/day5/src/main.rs: line segments read
 * from text, walked point by point into a map of counts, and the number
 * of points that more than one walk passes.
 */
module HydrothermalVenture {
  import Text
  import Numbers
  import Tallies

  const I32Min := -0x8000_0000
  const I32Max := 0x7fff_ffff

  datatype Point = Point(x: int, y: int)

  datatype Segment = Segment(x1: int, y1: int, x2: int, y2: int)

  datatype Fault =
    | PointCount(line: string)   // not exactly two points around " -> "
    | Coordinates(line: string)  // a point without two comma-separated parts
    | BadNumber(line: string)    // a coordinate that is not an `i32`
    | NoSegments                 // an empty file

  datatype Result<T> = Ok(value: T) | Err(fault: Fault)

  function Coordinate(token: string): Numbers.Option<int>
  {
    Numbers.ParseInteger(token, I32Min, I32Max)
  }

  /**
   * One line `x1,y1 -> x2,y2`: exactly two points around " -> ", then the
   * fields in the order the struct literal reads them, x1, y1, x2, y2,
   * each an `i32`; the first field that is missing (a point without a
   * comma) or does not parse is the error, and parts after the second of
   * a point are not read.
   */
  function ParseSegment(line: string): (r: Result<Segment>)
    ensures |Text.Split(line, " -> ")| != 2 ==> r == Err(PointCount(line))
    ensures |Text.Split(line, " -> ")| == 2 ==>
      var a, b := Text.Split(Text.Split(line, " -> ")[0], ","), Text.Split(Text.Split(line, " -> ")[1], ",");
      && (r == Err(Coordinates(line)) <==> Coordinate(a[0]).Some? && (|a| < 2 || (Coordinate(a[1]).Some? && Coordinate(b[0]).Some? && |b| < 2)))
      && (r.Ok? <==> |a| >= 2 && |b| >= 2 && Coordinate(a[0]).Some? && Coordinate(a[1]).Some? && Coordinate(b[0]).Some? && Coordinate(b[1]).Some?)
      && (r.Ok? ==> r.value == Segment(Coordinate(a[0]).value, Coordinate(a[1]).value, Coordinate(b[0]).value, Coordinate(b[1]).value))
    ensures r.Ok? ==> I32Min <= r.value.x1 <= I32Max && I32Min <= r.value.y1 <= I32Max
                      && I32Min <= r.value.x2 <= I32Max && I32Min <= r.value.y2 <= I32Max
  {
    var points := Text.Split(line, " -> ");
    if |points| != 2 then Err(PointCount(line))
    else
      var a, b := Text.Split(points[0], ","), Text.Split(points[1], ",");
      var x1 := Coordinate(a[0]);
      if x1.None? then Err(BadNumber(line))
      else if |a| < 2 then Err(Coordinates(line))
      else
        var y1 := Coordinate(a[1]);
        if y1.None? then Err(BadNumber(line))
        else
          var x2 := Coordinate(b[0]);
          if x2.None? then Err(BadNumber(line))
          else if |b| < 2 then Err(Coordinates(line))
          else
            var y2 := Coordinate(b[1]);
            if y2.None? then Err(BadNumber(line))
            else Ok(Segment(x1.value, y1.value, x2.value, y2.value))
  }

  /** The text of a segment, as the puzzle writes it. */
  function ShowSegment(s: Segment): string
  {
    ShowPoint(s.x1, s.y1) + " -> " + ShowPoint(s.x2, s.y2)
  }

  function ShowPoint(x: int, y: int): string
  {
    Numbers.Show(x) + "," + Numbers.Show(y)
  }

  /** Reading back the text of a segment with `i32` coordinates gives the segment. */
  lemma ParseShowSegment(s: Segment)
    requires I32Min <= s.x1 <= I32Max && I32Min <= s.y1 <= I32Max && I32Min <= s.x2 <= I32Max && I32Min <= s.y2 <= I32Max
    ensures ParseSegment(ShowSegment(s)) == Ok(s)
  {
    var a, b := ShowPoint(s.x1, s.y1), ShowPoint(s.x2, s.y2);
    SplitPoint(s.x1, s.y1);
    SplitPoint(s.x2, s.y2);
    Text.SplitFirst(a, b, " -> ");
    Text.SplitWhole(b, " -> ");
    assert Text.Split(ShowSegment(s), " -> ") == [a, b];
    Numbers.ParseShow(s.x1, I32Min, I32Max);
    Numbers.ParseShow(s.y1, I32Min, I32Max);
    Numbers.ParseShow(s.x2, I32Min, I32Max);
    Numbers.ParseShow(s.y2, I32Min, I32Max);
  }

  /** A point's text has no space and splits on its comma into its two numbers. */
  lemma SplitPoint(x: int, y: int)
    ensures ' ' !in ShowPoint(x, y)
    ensures Text.Split(ShowPoint(x, y), ",") == [Numbers.Show(x), Numbers.Show(y)]
  {
    Numbers.ShowAlphabet(x);
    Numbers.ShowAlphabet(y);
    Text.SplitFirst(Numbers.Show(x), Numbers.Show(y), ",");
    Text.SplitWhole(Numbers.Show(y), ",");
  }

  /** `parse_input`: every line a segment, and at least one. */
  function ParseInput(lines: seq<string>): (r: Result<seq<Segment>>)
    ensures r.Ok? ==> |r.value| == |lines| > 0 && forall i :: 0 <= i < |lines| ==> ParseSegment(lines[i]) == Ok(r.value[i])
    ensures r.Err? && r.fault != NoSegments ==> exists i :: 0 <= i < |lines| && ParseSegment(lines[i]) == Err(r.fault)
    ensures r == Err(NoSegments) <==> lines == []
  {
    if lines == [] then Err(NoSegments)
    else
      var r := Segments(lines, ParseSegment);
      assert r.Err? ==> r.fault != NoSegments by {
        if r.Err? {
          var i :| 0 <= i < |lines| && ParseSegment(lines[i]) == Err(r.fault);
          NeverEmpty(lines[i]);
        }
      }
      r
  }

  /** A line never reads as an empty file. */
  lemma NeverEmpty(line: string)
    ensures ParseSegment(line) != Err(NoSegments)
  {
  }

  /** Each line read by parse, stopping at the first failure. */
  function Segments(lines: seq<string>, parse: string -> Result<Segment>): (r: Result<seq<Segment>>)
    ensures r.Ok? ==> |r.value| == |lines| && forall i :: 0 <= i < |lines| ==> parse(lines[i]) == Ok(r.value[i])
    ensures r.Err? ==> exists i :: 0 <= i < |lines| && parse(lines[i]) == Err(r.fault)
  {
    if lines == [] then Ok([])
    else
      var init := lines[..|lines| - 1];
      var front := Segments(init, parse);
      assert forall i :: 0 <= i < |init| ==> init[i] == lines[i];
      if front.Err? then front
      else
        match parse(lines[|lines| - 1])
        case Err(f) => Err(f)
        case Ok(s) =>
          var all := front.value + [s];
          assert forall i :: 0 <= i < |init| ==> all[i] == front.value[i];
          Ok(all)
  }

  // The walk along a segment.

  /** Neither horizontal nor vertical. */
  predicate Diagonal(s: Segment)
  {
    s.x1 != s.x2 && s.y1 != s.y2
  }

  /** The endpoint the walk starts from: the one with the smaller x, the first on a tie. */
  function Start(s: Segment): Point
  {
    if s.x1 > s.x2 then Point(s.x2, s.y2) else Point(s.x1, s.y1)
  }

  /** The endpoint the walk stops at. */
  function Finish(s: Segment): Point
  {
    if s.x1 > s.x2 then Point(s.x1, s.y1) else Point(s.x2, s.y2)
  }

  /** The fixed y step: up when the far end is higher, otherwise down. */
  function Increment(s: Segment): int
  {
    if Finish(s).y > Start(s).y then 1 else -1
  }

  /** The walk from p can still reach goal: x and y are each at or before the far end in the walk's direction. */
  predicate Heading(p: Point, goal: Point, inc: int)
  {
    p.x <= goal.x && ((inc == 1 && p.y <= goal.y) || (inc == -1 && p.y >= goal.y))
  }

  /** One step: x moves on until it reaches the far end, and so does y. */
  function Next(p: Point, goal: Point, inc: int): Point
  {
    Point(if p.x < goal.x then p.x + 1 else p.x, if p.y != goal.y then p.y + inc else p.y)
  }

  function Distance(p: Point, goal: Point, inc: int): nat
    requires Heading(p, goal, inc)
  {
    (goal.x - p.x) + (if inc == 1 then goal.y - p.y else p.y - goal.y)
  }

  /** The points the walk marks from p, p included, until and including goal. */
  function Trail(p: Point, goal: Point, inc: int): (t: seq<Point>)
    requires Heading(p, goal, inc)
    ensures |t| >= 1 && t[0] == p && t[|t| - 1] == goal
    decreases Distance(p, goal, inc)
  {
    if p == goal then [p] else [p] + Trail(Next(p, goal, inc), goal, inc)
  }

  lemma Heads(s: Segment)
    ensures Heading(Start(s), Finish(s), Increment(s))
  {
  }

  /** The walk of a segment, from its smaller-x end to the other. */
  function SegmentTrail(s: Segment): (t: seq<Point>)
    ensures |t| >= 1 && t[0] == Start(s) && t[|t| - 1] == Finish(s)
  {
    Heads(s);
    Trail(Start(s), Finish(s), Increment(s))
  }

  /** The counts after one segment: skipped when diagonal and diagonals are skipped, else every point of its walk bumped once. */
  function Lay(points: map<Point, nat>, s: Segment, skipDiagonal: bool): map<Point, nat>
  {
    if skipDiagonal && Diagonal(s) then points else Cover(points, SegmentTrail(s))
  }

  function Cover(points: map<Point, nat>, t: seq<Point>): map<Point, nat>
    decreases |t|
  {
    if t == [] then points else Cover(Bump(points, t[0]), t[1..])
  }

  /** `*points.entry(p).or_insert(0) += 1`. */
  function Bump(points: map<Point, nat>, p: Point): map<Point, nat>
  {
    points[p := Tallies.Get(points, p) + 1]
  }

  /** The counts after the segments in order. */
  function Tally(segments: seq<Segment>, skipDiagonal: bool): map<Point, nat>
  {
    if segments == [] then map[]
    else Lay(Tally(segments[..|segments| - 1], skipDiagonal), segments[|segments| - 1], skipDiagonal)
  }

  /** Points counted more than once. */
  function Overlapping(points: map<Point, nat>): set<Point>
  {
    set p | p in points && points[p] > 1
  }

  /**
   * `calculate_segment_overlaps`: each segment walked into the counts
   * (diagonals left out when asked), then the points counted twice or more.
   */
  method CalculateSegmentOverlaps(segments: seq<Segment>, skipDiagonal: bool) returns (overlaps: nat)
    ensures overlaps == |Overlapping(Tally(segments, skipDiagonal))|
  {
    var points: map<Point, nat> := map[];
    for i := 0 to |segments|
      invariant points == Tally(segments[..i], skipDiagonal)
    {
      var segment := segments[i];
      assert segments[..i + 1][..i] == segments[..i];
      if skipDiagonal && segment.x1 != segment.x2 && segment.y1 != segment.y2 {
        continue;
      }
      points := Walk(points, segment);
    }
    assert segments[..|segments|] == segments;
    overlaps := CountOverlaps(points);
  }

  /** The loop of one segment: normalise the ends, then mark and step until both coordinates are at the far end. */
  method Walk(points0: map<Point, nat>, segment: Segment) returns (points: map<Point, nat>)
    ensures points == Cover(points0, SegmentTrail(segment))
  {
    var xMin, xMax, yMin, yMax;
    if segment.x1 > segment.x2 {
      xMin, yMin, xMax, yMax := segment.x2, segment.y2, segment.x1, segment.y1;
    } else {
      xMin, yMin, xMax, yMax := segment.x1, segment.y1, segment.x2, segment.y2;
    }
    var yIncrement := if yMax > yMin then 1 else -1;
    var xVal, yVal := xMin, yMin;
    ghost var goal := Point(xMax, yMax);
    assert Point(xMin, yMin) == Start(segment) && goal == Finish(segment) && yIncrement == Increment(segment);
    assert Trail(Point(xVal, yVal), goal, yIncrement) == SegmentTrail(segment);
    points := points0;
    while true
      invariant Heading(Point(xVal, yVal), goal, yIncrement)
      invariant Cover(points, Trail(Point(xVal, yVal), goal, yIncrement)) == Cover(points0, SegmentTrail(segment))
      decreases Distance(Point(xVal, yVal), goal, yIncrement)
    {
      ghost var here := Point(xVal, yVal);
      ghost var next := Next(here, goal, yIncrement);
      if xVal == xMax && yVal == yMax {
        CoverLast(points, goal, yIncrement);
        points := Bump(points, Point(xVal, yVal));
        break;
      }
      CoverStep(points, here, goal, yIncrement);
      points := Bump(points, Point(xVal, yVal));
      if xVal < xMax {
        xVal := xVal + 1;
      }
      if yVal != yMax {
        yVal := yVal + yIncrement;
      }
      assert xVal == next.x && yVal == next.y;
    }
  }

  /** Marking the first point of a walk, then the rest. */
  lemma CoverStep(points: map<Point, nat>, p: Point, goal: Point, inc: int)
    requires Heading(p, goal, inc) && p != goal
    ensures Cover(points, Trail(p, goal, inc)) == Cover(Bump(points, p), Trail(Next(p, goal, inc), goal, inc))
  {
    var t := Trail(p, goal, inc);
    assert t[1..] == Trail(Next(p, goal, inc), goal, inc);
  }

  /** The walk's last point. */
  lemma CoverLast(points: map<Point, nat>, goal: Point, inc: int)
    requires Heading(goal, goal, inc)
    ensures Cover(points, Trail(goal, goal, inc)) == Bump(points, goal)
  {
    assert Trail(goal, goal, inc) == [goal];
  }

  /** The closing loop over the map's entries, in whatever order they come. */
  method CountOverlaps(points: map<Point, nat>) returns (overlaps: nat)
    ensures overlaps == |Overlapping(points)|
  {
    overlaps := 0;
    var keys := points.Keys;
    ghost var seen: set<Point> := {};
    while keys != {}
      invariant keys !! seen && keys + seen == points.Keys
      invariant overlaps == |OverlappingIn(points, seen)|
      decreases |keys|
    {
      var p :| p in keys;
      OverlappingStep(points, seen, p);
      if points[p] > 1 {
        overlaps := overlaps + 1;
      }
      keys := keys - {p};
      seen := seen + {p};
    }
    assert OverlappingIn(points, seen) == Overlapping(points);
  }

  /** The points among keys counted more than once. */
  function OverlappingIn(points: map<Point, nat>, keys: set<Point>): set<Point>
  {
    set p | p in keys && p in points && points[p] > 1
  }

  lemma OverlappingStep(points: map<Point, nat>, keys: set<Point>, p: Point)
    requires p in points && p !in keys
    ensures |OverlappingIn(points, keys + {p})| == |OverlappingIn(points, keys)| + (if points[p] > 1 then 1 else 0)
  {
    if points[p] > 1 {
      assert OverlappingIn(points, keys + {p}) == OverlappingIn(points, keys) + {p};
    } else {
      assert OverlappingIn(points, keys + {p}) == OverlappingIn(points, keys);
    }
  }

  // What the counts mean.

  /** Walking a trail bumps each point by the number of times the trail passes it. */
  lemma {:induction false} CoverCount(points: map<Point, nat>, t: seq<Point>)
    ensures forall q :: Tallies.Get(Cover(points, t), q) == Tallies.Get(points, q) + multiset(t)[q]
    ensures Cover(points, t).Keys == points.Keys + set q | q in t
    decreases |t|
  {
    if t != [] {
      CoverCount(Bump(points, t[0]), t[1..]);
      assert t == [t[0]] + t[1..];
      assert multiset(t) == multiset{t[0]} + multiset(t[1..]);
    }
  }

  /** How many of the segments, diagonals left out when asked, pass q (once per pass). */
  function Passes(segments: seq<Segment>, skipDiagonal: bool, q: Point): nat
  {
    if segments == [] then 0
    else
      var s := segments[|segments| - 1];
      Passes(segments[..|segments| - 1], skipDiagonal, q) + (if skipDiagonal && Diagonal(s) then 0 else multiset(SegmentTrail(s))[q])
  }

  /** The final count at a point is the number of walks passing it: the overlaps are the points passed more than once. */
  lemma {:induction false} TallyCount(segments: seq<Segment>, skipDiagonal: bool, q: Point)
    ensures Tallies.Get(Tally(segments, skipDiagonal), q) == Passes(segments, skipDiagonal, q)
    ensures q in Overlapping(Tally(segments, skipDiagonal)) <==> Passes(segments, skipDiagonal, q) > 1
    decreases |segments|
  {
    if segments != [] {
      var front, s := segments[..|segments| - 1], segments[|segments| - 1];
      TallyCount(front, skipDiagonal, q);
      if !(skipDiagonal && Diagonal(s)) {
        CoverCount(Tally(front, skipDiagonal), SegmentTrail(s));
      }
    }
  }

  /** x between a and b, in either order. */
  predicate Between(v: int, a: int, b: int)
  {
    (a <= v <= b) || (b <= v <= a)
  }

  /**
   * The lattice points of a horizontal, vertical or 45-degree segment: in
   * its bounding box and, for a diagonal, as far from the first end
   * across as up or down.
   */
  predicate OnSegment(s: Segment, q: Point)
  {
    Between(q.x, s.x1, s.x2) && Between(q.y, s.y1, s.y2)
    && (Diagonal(s) ==> Abs(q.x - s.x1) == Abs(q.y - s.y1))
  }

  function Abs(v: int): nat
  {
    if v < 0 then -v else v
  }

  /** Horizontal, vertical, or at 45 degrees. */
  predicate Straight(s: Segment)
  {
    s.x1 == s.x2 || s.y1 == s.y2 || Abs(s.x2 - s.x1) == Abs(s.y2 - s.y1)
  }

  /** A horizontal walk marks each point of its row between the ends once. */
  lemma {:induction false} HorizontalTrail(p: Point, goal: Point, inc: int, q: Point)
    requires Heading(p, goal, inc) && p.y == goal.y
    ensures multiset(Trail(p, goal, inc))[q] == if q.y == p.y && p.x <= q.x <= goal.x then 1 else 0
    decreases Distance(p, goal, inc)
  {
    if p != goal {
      var n := Next(p, goal, inc);
      HorizontalTrail(n, goal, inc, q);
      assert multiset(Trail(p, goal, inc)) == multiset{p} + multiset(Trail(n, goal, inc));
    }
  }

  /** A vertical walk marks each point of its column between the ends once. */
  lemma {:induction false} VerticalTrail(p: Point, goal: Point, inc: int, q: Point)
    requires Heading(p, goal, inc) && p.x == goal.x
    ensures multiset(Trail(p, goal, inc))[q] == if q.x == p.x && Between(q.y, p.y, goal.y) then 1 else 0
    decreases Distance(p, goal, inc)
  {
    if p != goal {
      var n := Next(p, goal, inc);
      VerticalTrail(n, goal, inc, q);
      assert multiset(Trail(p, goal, inc)) == multiset{p} + multiset(Trail(n, goal, inc));
    }
  }

  /** A 45-degree walk marks each point of its diagonal between the ends once. */
  lemma {:induction false} DiagonalTrail(p: Point, goal: Point, inc: int, q: Point)
    requires Heading(p, goal, inc) && goal.x - p.x == Abs(goal.y - p.y)
    ensures multiset(Trail(p, goal, inc))[q] == if p.x <= q.x <= goal.x && q.y - p.y == (if inc == 1 then q.x - p.x else p.x - q.x) then 1 else 0
    decreases Distance(p, goal, inc)
  {
    if p != goal {
      var n := Next(p, goal, inc);
      DiagonalTrail(n, goal, inc, q);
      assert multiset(Trail(p, goal, inc)) == multiset{p} + multiset(Trail(n, goal, inc));
    }
  }

  /**
   * The walk of a horizontal, vertical or 45-degree segment visits exactly
   * the segment's lattice points, once each.
   */
  lemma SegmentPoints(s: Segment, q: Point)
    requires Straight(s)
    ensures multiset(SegmentTrail(s))[q] == if OnSegment(s, q) then 1 else 0
  {
    var p, goal, inc := Start(s), Finish(s), Increment(s);
    if s.x1 > s.x2 {
      assert p == Point(s.x2, s.y2) && goal == Point(s.x1, s.y1);
      WalkPoints(p, goal, inc, q);
    } else {
      assert p == Point(s.x1, s.y1) && goal == Point(s.x2, s.y2);
      WalkPoints(p, goal, inc, q);
    }
  }

  /** The three straight walks together: the points of the segment between p and goal. */
  lemma WalkPoints(p: Point, goal: Point, inc: int, q: Point)
    requires Heading(p, goal, inc) && (inc == 1 <==> goal.y > p.y)
    requires p.x == goal.x || p.y == goal.y || goal.x - p.x == Abs(goal.y - p.y)
    ensures multiset(Trail(p, goal, inc))[q] == if OnSegment(Segment(p.x, p.y, goal.x, goal.y), q) then 1 else 0
  {
    var s := Segment(p.x, p.y, goal.x, goal.y);
    if p.y == goal.y {
      HorizontalTrail(p, goal, inc, q);
      assert OnSegment(s, q) <==> q.y == p.y && p.x <= q.x <= goal.x;
    } else if p.x == goal.x {
      VerticalTrail(p, goal, inc, q);
      assert OnSegment(s, q) <==> q.x == p.x && Between(q.y, p.y, goal.y);
    } else {
      DiagonalTrail(p, goal, inc, q);
      if inc == 1 {
        assert OnSegment(s, q) <==> p.x <= q.x <= goal.x && q.y - p.y == q.x - p.x;
      } else {
        assert OnSegment(s, q) <==> p.x <= q.x <= goal.x && q.y - p.y == p.x - q.x;
      }
    }
  }

  /** Skipping diagonals leaves only horizontal and vertical segments counted. */
  lemma SkippedDiagonals(segments: seq<Segment>, q: Point)
    requires forall i :: 0 <= i < |segments| ==> Diagonal(segments[i])
    ensures Passes(segments, true, q) == 0
  {
    if segments != [] {
      SkippedDiagonals(segments[..|segments| - 1], q);
    }
  }
}
