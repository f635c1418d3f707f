/**
 * Transparent origami of 2021/day13/src/main.rs: dots on a sheet are
 * folded along a horizontal or a vertical line; a folded dot lands at its
 * mirror image, and dots that meet become one.
 */
module Origami {
  import Text
  import Numbers

  /** The greatest `usize` of a 64-bit target. */
  const USIZE_MAX: nat := 0xFFFF_FFFF_FFFF_FFFF

  /** A dot; the derived ordering compares x first, then y. */
  datatype Point = Point(x: nat, y: nat)

  /** `fold along y=N` is horizontal (it moves y); any other axis moves x. */
  datatype Fold = Fold(horiz: bool, point: nat)

  datatype Fault =
    | BadPoint(line: string)   // a line with "," that does not split into two tokens
    | BadNumber(token: string) // `parse::<usize>().unwrap()`
    | ShortFold(line: string)  // `line[11..]` on a line shorter than 11
    | BadFold(line: string)    // the rest does not split at "=" into two tokens
    | NoFolds                  // `folds[0]` with no fold lines

  datatype Result<T> = Ok(value: T) | Err(fault: Fault)

  // Parsing.

  function Number(token: string): (r: Result<nat>)
    ensures r.Ok? ==> r.value <= USIZE_MAX
  {
    match Numbers.ParseUnsigned(token, USIZE_MAX)
    case None => Err(BadNumber(token))
    case Some(n) => Ok(n)
  }

  /** A point line `x,y`. */
  function ParsePoint(line: string): Result<Point>
  {
    var tokens := Text.Split(line, ",");
    if |tokens| != 2 then Err(BadPoint(line))
    else
      match Number(tokens[0])
      case Err(f) => Err(f)
      case Ok(x) =>
        match Number(tokens[1])
        case Err(f) => Err(f)
        case Ok(y) => Ok(Point(x, y))
  }

  /** A fold line: what follows its first 11 characters, split at "=", is the axis and the line's coordinate. */
  function ParseFold(line: string): Result<Fold>
  {
    if |line| < 11 then Err(ShortFold(line))
    else
      var tokens := Text.Split(line[11..], "=");
      if |tokens| != 2 then Err(BadFold(line))
      else
        match Number(tokens[1])
        case Err(f) => Err(f)
        case Ok(n) => Ok(Fold(tokens[0] == "y", n))
  }

  /** The points of every line holding ",", in order; the first bad one is the panic. */
  function Points(lines: seq<string>): (r: Result<seq<Point>>)
    ensures r.Ok? ==> |r.value| <= |lines|
  {
    if lines == [] then Ok([])
    else
      match Points(lines[..|lines| - 1])
      case Err(f) => Err(f)
      case Ok(ps) =>
        var line := lines[|lines| - 1];
        if !Text.Contains(line, ",") then Ok(ps)
        else
          match ParsePoint(line)
          case Err(f) => Err(f)
          case Ok(p) => Ok(ps + [p])
  }

  /** The folds of every line holding "fold along", in order. */
  function Folds(lines: seq<string>): (r: Result<seq<Fold>>)
    ensures r.Ok? ==> |r.value| <= |lines|
  {
    if lines == [] then Ok([])
    else
      match Folds(lines[..|lines| - 1])
      case Err(f) => Err(f)
      case Ok(fs) =>
        var line := lines[|lines| - 1];
        if !Text.Contains(line, "fold along") then Ok(fs)
        else
          match ParseFold(line)
          case Err(f) => Err(f)
          case Ok(fold) => Ok(fs + [fold])
  }

  /** `parse_input` on the lines of the file: the points are collected first, then the folds. */
  function ParseInput(lines: seq<string>): (r: Result<(seq<Point>, seq<Fold>)>)
    ensures r.Ok? <==> Points(lines).Ok? && Folds(lines).Ok?
    ensures r.Ok? ==> r.value == (Points(lines).value, Folds(lines).value)
    ensures Points(lines).Err? ==> r == Err(Points(lines).fault)
  {
    match Points(lines)
    case Err(f) => Err(f)
    case Ok(points) =>
      match Folds(lines)
      case Err(f) => Err(f)
      case Ok(folds) => Ok((points, folds))
  }

  /** The line the puzzle writes for a dot. */
  function ShowPoint(p: Point): string
  {
    Numbers.Digits(p.x) + "," + Numbers.Digits(p.y)
  }

  /** The line the puzzle writes for a fold. */
  function ShowFold(f: Fold): string
  {
    "fold along " + (if f.horiz then "y" else "x") + "=" + Numbers.Digits(f.point)
  }

  lemma DigitsFree(n: nat, c: char)
    requires !Numbers.IsDigit(c)
    ensures c !in Numbers.Digits(n)
  {
  }

  /** Every dot within `usize` reads back from its line. */
  lemma ParseShowPoint(p: Point)
    requires p.x <= USIZE_MAX && p.y <= USIZE_MAX
    ensures ParsePoint(ShowPoint(p)) == Ok(p)
  {
    var a, b := Numbers.Digits(p.x), Numbers.Digits(p.y);
    DigitsFree(p.x, ',');
    DigitsFree(p.y, ',');
    Text.JoinSplit([a, b], ",");
    assert Text.Join([a, b], ",") == ShowPoint(p);
    Numbers.ParseDigits(p.x, USIZE_MAX);
    Numbers.ParseDigits(p.y, USIZE_MAX);
  }

  /** Every fold within `usize` reads back from its line: "fold along y=N" is horizontal at N, "fold along x=N" vertical. */
  lemma ParseShowFold(f: Fold)
    requires f.point <= USIZE_MAX
    ensures ParseFold(ShowFold(f)) == Ok(f)
  {
    var axis := if f.horiz then "y" else "x";
    var d := Numbers.Digits(f.point);
    var line := ShowFold(f);
    assert line[11..] == axis + "=" + d;
    DigitsFree(f.point, '=');
    Text.JoinSplit([axis, d], "=");
    assert Text.Join([axis, d], "=") == axis + "=" + d;
    Numbers.ParseDigits(f.point, USIZE_MAX);
  }

  // Folding.

  /**
   * One coordinate through a fold at f: beyond the line it is replaced by
   * its distance from 2f (the `abs` of the source), otherwise it stays.
   */
  function FoldCoord(c: nat, f: nat): (r: nat)
    ensures c <= f ==> r == c
    ensures c > f ==> r + 2 * f == c || r + c == 2 * f
  {
    if c > f then (if c >= 2 * f then c - 2 * f else 2 * f - c) else c
  }

  /** A coordinate folded from no further than the mirror of the origin lands strictly before the line. */
  lemma FoldBelow(c: nat, f: nat)
    requires f < c <= 2 * f
    ensures FoldCoord(c, f) < f && FoldCoord(c, f) == 2 * f - c
  {
  }

  /** Folding a coordinate twice at the same line changes nothing more when it was within twice the line. */
  lemma FoldIdempotent(c: nat, f: nat)
    requires c <= 2 * f
    ensures FoldCoord(FoldCoord(c, f), f) == FoldCoord(c, f)
  {
  }

  /** A dot through a fold: only the coordinate the fold is across changes. */
  function FoldPoint(p: Point, fold: Fold): (r: Point)
    ensures fold.horiz ==> r.x == p.x && r.y == FoldCoord(p.y, fold.point)
    ensures !fold.horiz ==> r.y == p.y && r.x == FoldCoord(p.x, fold.point)
  {
    if fold.horiz then p.(y := FoldCoord(p.y, fold.point)) else p.(x := FoldCoord(p.x, fold.point))
  }

  /** Every dot through the fold, in place. */
  function FoldAll(ps: seq<Point>, fold: Fold): (r: seq<Point>)
    ensures |r| == |ps| && forall i :: 0 <= i < |ps| ==> r[i] == FoldPoint(ps[i], fold)
  {
    if ps == [] then [] else FoldAll(ps[..|ps| - 1], fold) + [FoldPoint(ps[|ps| - 1], fold)]
  }

  // Sorting and removing duplicates.

  /** The derived ordering of points. */
  predicate Less(a: Point, b: Point)
  {
    a.x < b.x || (a.x == b.x && a.y < b.y)
  }

  predicate LessEq(a: Point, b: Point)
  {
    Less(a, b) || a == b
  }

  predicate Ascending(s: seq<Point>)
  {
    forall i, j :: 0 <= i < j < |s| ==> LessEq(s[i], s[j])
  }

  predicate Strict(s: seq<Point>)
  {
    forall i, j :: 0 <= i < j < |s| ==> Less(s[i], s[j])
  }

  /** p put into an ascending sequence before the first point not below it. */
  function Insert(s: seq<Point>, p: Point): (r: seq<Point>)
    requires Ascending(s)
    ensures multiset(r) == multiset(s) + multiset{p}
    ensures Ascending(r)
  {
    if s == [] then [p]
    else if LessEq(p, s[0]) then
      AscendingCons(p, s);
      [p] + s
    else
      var rest := Insert(s[1..], p);
      assert s == [s[0]] + s[1..];
      InsertBound(s, p, rest);
      AscendingCons(s[0], rest);
      [s[0]] + rest
  }

  lemma InsertBound(s: seq<Point>, p: Point, rest: seq<Point>)
    requires Ascending(s) && s != [] && Less(s[0], p)
    requires multiset(rest) == multiset(s[1..]) + multiset{p}
    ensures forall q :: q in rest ==> LessEq(s[0], q)
  {
    forall q | q in rest
      ensures LessEq(s[0], q)
    {
      assert q in multiset(rest);
      if q != p {
        assert q in multiset(s[1..]);
        var j :| 0 <= j < |s[1..]| && s[1..][j] == q;
        assert s[j + 1] == q;
      }
    }
  }

  lemma AscendingCons(a: Point, t: seq<Point>)
    requires Ascending(t)
    requires t != [] ==> LessEq(a, t[0])
    requires forall q :: q in t ==> LessEq(a, q) || LessEq(a, t[0])
    ensures Ascending([a] + t)
  {
    var r := [a] + t;
    forall i, j | 0 <= i < j < |r|
      ensures LessEq(r[i], r[j])
    {
      if i == 0 {
        assert r[j] == t[j - 1];
        assert LessEq(t[0], t[j - 1]);
      } else {
        assert r[i] == t[i - 1] && r[j] == t[j - 1];
      }
    }
  }

  /** `sort`: the same points, ascending. */
  function Sort(s: seq<Point>): (r: seq<Point>)
    ensures multiset(r) == multiset(s)
    ensures Ascending(r)
  {
    if s == [] then []
    else
      assert s == s[..|s| - 1] + [s[|s| - 1]];
      Insert(Sort(s[..|s| - 1]), s[|s| - 1])
  }

  /** `dedup`: every run of equal neighbours kept once; on an ascending sequence this leaves it strictly ascending. */
  function Dedup(s: seq<Point>): (r: seq<Point>)
    ensures |r| <= |s|
    ensures forall p :: p in r <==> p in s
    ensures forall i :: 0 <= i < |r| - 1 ==> r[i] != r[i + 1]
    ensures Ascending(s) ==> Strict(r)
    ensures |s| > 0 ==> |r| > 0 && r[0] == s[0]
  {
    if |s| <= 1 then s
    else
      var rest := Dedup(s[1..]);
      assert s == [s[0]] + s[1..];
      if s[0] == s[1] then rest
      else
        assert forall p :: p in rest ==> p in s[1..];
        [s[0]] + rest
  }

  /** A strictly ascending sequence holds each of its points once. */
  lemma {:induction false} StrictCard(s: seq<Point>)
    requires Strict(s)
    ensures |set p | p in s| == |s|
    decreases |s|
  {
    if s != [] {
      StrictCard(s[1..]);
      assert (set p | p in s) == {s[0]} + (set p | p in s[1..]) by {
        assert s == [s[0]] + s[1..];
      }
      assert s[0] !in s[1..];
    }
  }

  /** The sheet of dots `main` keeps and folds in place. */
  class Sheet {
    var points: seq<Point>

    constructor (points: seq<Point>)
      ensures this.points == points
    {
      this.points := points;
    }

    /**
     * `fold_points`: every dot through the fold, then sorted and with
     * duplicates removed, so the sheet holds each folded dot exactly once,
     * in order, and never more dots than before.
     */
    method FoldPoints(fold: Fold)
      modifies this
      ensures points == Dedup(Sort(FoldAll(old(points), fold)))
      ensures Strict(points)
      ensures forall p :: p in points <==> p in FoldAll(old(points), fold)
      ensures |points| == |set p | p in FoldAll(old(points), fold)| <= |old(points)|
    {
      ghost var start := points;
      for index := 0 to |points|
        invariant |points| == |start|
        invariant points[..index] == FoldAll(start, fold)[..index]
        invariant points[index..] == start[index..]
      {
        points := points[index := FoldPoint(points[index], fold)];
      }
      assert points == FoldAll(start, fold) by {
        assert points == points[..|points|];
      }
      var sorted := Sort(points);
      points := Dedup(sorted);
      SortDedup(FoldAll(start, fold));
    }

    /**
     * The loops of `main`: the first fold, whose dot count is the first
     * answer, then the others in order; no folds at all is the panic of
     * `folds[0]`.
     */
    method Follow(folds: seq<Fold>) returns (r: Result<nat>)
      modifies this
      ensures folds == [] <==> r.Err?
      ensures r.Err? ==> r.fault == NoFolds && points == old(points)
      ensures r.Ok? ==> r.value == |set p | p in FoldAll(old(points), folds[0])|
      ensures r.Ok? ==> points == Folded(old(points), folds)
    {
      if folds == [] {
        return Err(NoFolds);
      }
      ghost var start := points;
      FoldPoints(folds[0]);
      r := Ok(|points|);
      for i := 1 to |folds|
        invariant points == Folded(start, folds[..i])
      {
        FoldedPrefix(start, folds, i);
        FoldPoints(folds[i]);
      }
      assert folds[..|folds|] == folds;
    }
  }

  /** The sheet after each fold in turn. */
  function Folded(ps: seq<Point>, folds: seq<Fold>): seq<Point>
    decreases |folds|
  {
    if folds == [] then ps else Folded(Dedup(Sort(FoldAll(ps, folds[0]))), folds[1..])
  }

  /** Sorting and then removing duplicates leaves each point of t once, strictly ascending. */
  lemma SortDedup(t: seq<Point>)
    ensures Strict(Dedup(Sort(t)))
    ensures forall p :: p in Dedup(Sort(t)) <==> p in t
    ensures |Dedup(Sort(t))| == |set p | p in t| <= |t|
  {
    var sorted := Sort(t);
    var r := Dedup(sorted);
    assert forall p :: p in sorted <==> p in t by {
      assert forall p :: p in sorted <==> p in multiset(sorted);
      assert forall p :: p in t <==> p in multiset(t);
    }
    StrictCard(r);
    assert (set p | p in r) == (set p | p in t);
    SetBound(t);
  }

  /** There is one strictly ascending arrangement of a set of points: the sheet after a fold depends only on which dots it has. */
  lemma {:induction false} StrictUnique(a: seq<Point>, b: seq<Point>)
    requires Strict(a) && Strict(b)
    requires forall p :: p in a <==> p in b
    ensures a == b
    decreases |a|
  {
    assert a != [] ==> a[0] in b;
    assert b != [] ==> b[0] in a;
    if a != [] && b != [] {
      assert a[0] == b[0] by {
        var i :| 0 <= i < |b| && b[i] == a[0];
        var j :| 0 <= j < |a| && a[j] == b[0];
        if i != 0 {
          assert Less(b[0], b[i]);
          assert j != 0 ==> Less(a[0], a[j]);
        }
      }
      forall p
        ensures p in a[1..] <==> p in b[1..]
      {
        if p in a[1..] {
          var k :| 0 <= k < |a[1..]| && a[1..][k] == p;
          assert Less(a[0], a[k + 1]);
          assert p in b;
        }
        if p in b[1..] {
          var k :| 0 <= k < |b[1..]| && b[1..][k] == p;
          assert Less(b[0], b[k + 1]);
          assert p in a;
        }
      }
      StrictUnique(a[1..], b[1..]);
      assert a == [a[0]] + a[1..] && b == [b[0]] + b[1..];
    }
  }

  /** Folding once more after a run of folds folds the sheet they leave. */
  lemma {:induction false} FoldedSnoc(ps: seq<Point>, folds: seq<Fold>, fold: Fold)
    ensures Folded(ps, folds + [fold]) == Dedup(Sort(FoldAll(Folded(ps, folds), fold)))
    decreases |folds|
  {
    if folds != [] {
      assert (folds + [fold])[1..] == folds[1..] + [fold];
      FoldedSnoc(Dedup(Sort(FoldAll(ps, folds[0]))), folds[1..], fold);
    }
  }

  lemma FoldedPrefix(ps: seq<Point>, folds: seq<Fold>, i: nat)
    requires i < |folds|
    ensures Folded(ps, folds[..i + 1]) == Dedup(Sort(FoldAll(Folded(ps, folds[..i]), folds[i])))
  {
    assert folds[..i + 1] == folds[..i] + [folds[i]];
    FoldedSnoc(ps, folds[..i], folds[i]);
  }

  /** What `fold_points` leaves depends only on which dots were folded, not on their order or repeats. */
  lemma SameDots(t: seq<Point>, u: seq<Point>)
    requires forall p :: p in t <==> p in u
    ensures Dedup(Sort(t)) == Dedup(Sort(u))
  {
    SortDedup(t);
    SortDedup(u);
    StrictUnique(Dedup(Sort(t)), Dedup(Sort(u)));
  }

  /** A sequence holds at most as many different points as it is long. */
  lemma {:induction false} SetBound(s: seq<Point>)
    ensures |set p | p in s| <= |s|
    decreases |s|
  {
    if s != [] {
      SetBound(s[1..]);
      assert (set p | p in s) == {s[0]} + (set p | p in s[1..]) by {
        assert s == [s[0]] + s[1..];
      }
    }
  }
}
