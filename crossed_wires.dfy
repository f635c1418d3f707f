/**
 * Crossed wires of archive/2019/day3/src/main.rs: each line of the input
 * is a wire, a list of moves such as "U7" or "L12" from a common origin.
 * The first wire records the number of steps to its first visit of every
 * point; every step of a later wire onto such a point is a collision; the
 * answers are the collision nearest the origin and the one with the
 * fewest steps.
 */
module CrossedWires {
  import Numbers
  import Text

  const I64Min := -0x8000_0000_0000_0000
  const I64Max := 0x7fff_ffff_ffff_ffff

  datatype Point = Point(x: int, y: int)

  datatype Collision = Collision(x: int, y: int, steps: int)

  /** `len_str.parse::<i64>().unwrap()` panics on a length that does not read. */
  datatype Fault = NotALength(piece: string)

  datatype Result<T> = Ok(value: T) | Err(fault: Fault)

  const Origin := Point(0, 0)

  /** The unit step of a direction letter; any other letter is a strange instruction, ignored. */
  function Delta(dir: char): Numbers.Option<(int, int)>
  {
    match dir
    case 'U' => Numbers.Some((0, 1))
    case 'D' => Numbers.Some((0, -1))
    case 'R' => Numbers.Some((1, 0))
    case 'L' => Numbers.Some((-1, 0))
    case _ => Numbers.None
  }

  function Shift(p: Point, d: (int, int)): Point
  {
    Point(p.x + d.0, p.y + d.1)
  }

  /** Two points one unit apart, horizontally or vertically. */
  predicate Adjacent(a: Point, b: Point)
  {
    (a.x == b.x && (b.y == a.y + 1 || b.y == a.y - 1)) || (a.y == b.y && (b.x == a.x + 1 || b.x == a.x - 1))
  }

  /** The `while len > 0` loop of one move: the points of `len` steps from p, p itself not included. */
  function Walk(p: Point, d: (int, int), len: int): (r: seq<Point>)
    ensures |r| == if len > 0 then len else 0
    decreases len
  {
    if len <= 0 then [] else [Shift(p, d)] + Walk(Shift(p, d), d, len - 1)
  }

  /** One instruction: nothing when it is empty, else its first character and the rest read as an `i64`. */
  function Instruction(instr: string): Result<Numbers.Option<(char, int)>>
  {
    if instr == [] then Ok(Numbers.None)
    else
      match Numbers.ParseInteger(instr[1..], I64Min, I64Max)
      case None => Err(NotALength(instr[1..]))
      case Some(len) => Ok(Numbers.Some((instr[0], len)))
  }

  /** Where a walk from p ends. */
  function End(p: Point, pts: seq<Point>): Point
  {
    if pts == [] then p else pts[|pts| - 1]
  }

  /** The points of one instruction from p: none for an empty one or a strange direction. */
  function Moves(p: Point, instr: Numbers.Option<(char, int)>): seq<Point>
  {
    if instr.None? then []
    else
      match Delta(instr.value.0)
      case None => []
      case Some(d) => Walk(p, d, instr.value.1)
  }

  /** A failed result, or the points `done` ahead of a path. */
  function Then(done: seq<Point>, r: Result<seq<Point>>): Result<seq<Point>>
  {
    match r
    case Err(f) => Err(f)
    case Ok(rest) => Ok(done + rest)
  }

  lemma ThenThen(a: seq<Point>, b: seq<Point>, r: Result<seq<Point>>)
    ensures Then(a, Then(b, r)) == Then(a + b, r)
  {
    if r.Ok? {
      assert a + (b + r.value) == a + b + r.value;
    }
  }

  /** Every point a wire visits from p, in order, or the fault of the first length that does not read. */
  function Path(wire: seq<string>, p: Point): Result<seq<Point>>
    decreases |wire|
  {
    if wire == [] then Ok([])
    else
      match Instruction(wire[0])
      case Err(f) => Err(f)
      case Ok(instr) =>
        var w := Moves(p, instr);
        Then(w, Path(wire[1..], End(p, w)))
  }

  /** The point before step i: the one before it, or `from` for the first. */
  function Prev(from: Point, pts: seq<Point>, i: nat): Point
    requires i <= |pts|
  {
    if i == 0 then from else pts[i - 1]
  }

  /** Every point is one unit from the one before, the first from `from`. */
  predicate Steps(from: Point, pts: seq<Point>)
  {
    forall i :: 0 <= i < |pts| ==> Adjacent(Prev(from, pts, i), pts[i])
  }

  /** Unit steps, then unit steps from where they end, are unit steps. */
  lemma StepsJoin(from: Point, w: seq<Point>, rest: seq<Point>)
    requires Steps(from, w) && Steps(End(from, w), rest)
    ensures Steps(from, w + rest)
  {
    var pts := w + rest;
    forall i | 0 <= i < |pts|
      ensures Adjacent(Prev(from, pts, i), pts[i])
    {
      if i < |w| {
        assert pts[i] == w[i] && Prev(from, pts, i) == Prev(from, w, i);
      } else {
        assert pts[i] == rest[i - |w|] && Prev(from, pts, i) == Prev(End(from, w), rest, i - |w|);
      }
    }
  }

  /** Each step of a walk moves one unit. */
  lemma {:induction false} WalkSteps(p: Point, d: (int, int), len: int)
    requires d == (0, 1) || d == (0, -1) || d == (1, 0) || d == (-1, 0)
    ensures Steps(p, Walk(p, d, len))
    decreases len
  {
    if len > 0 {
      var next := Shift(p, d);
      WalkSteps(next, d, len - 1);
      assert Adjacent(p, next);
      assert [next][0] == next;
      assert Steps(p, [next]);
      StepsJoin(p, [next], Walk(next, d, len - 1));
    }
  }

  /** Every step of a wire moves one unit, the first from the start of the wire, which is not a visit of its own. */
  lemma {:induction false} PathSteps(wire: seq<string>, p: Point)
    ensures Path(wire, p).Ok? ==> Steps(p, Path(wire, p).value)
    decreases |wire|
  {
    if wire != [] && Path(wire, p).Ok? {
      var instr := Instruction(wire[0]).value;
      var w := Moves(p, instr);
      if instr.Some? && Delta(instr.value.0).Some? {
        WalkSteps(p, Delta(instr.value.0).value, instr.value.1);
      }
      var e := End(p, w);
      PathSteps(wire[1..], e);
      StepsJoin(p, w, Path(wire[1..], e).value);
    }
  }

  /** The map of first visits and the collisions so far. */
  datatype Wiring = Wiring(positions: map<Point, int>, collisions: seq<Collision>)

  /**
   * The step numbered `count` onto p: a point already in the map is a
   * collision, unless the wire is the first; a new point is recorded only
   * by the first wire.
   */
  function Visit(s: Wiring, first: bool, p: Point, count: int): Wiring
  {
    if p in s.positions then
      if first then s else Wiring(s.positions, s.collisions + [Collision(p.x, p.y, count + s.positions[p])])
    else if first then Wiring(s.positions[p := count], s.collisions)
    else s
  }

  /** The steps of one wire, numbered from 1. */
  function Follow(s: Wiring, first: bool, pts: seq<Point>): Wiring
  {
    if pts == [] then s else Visit(Follow(s, first, pts[..|pts| - 1]), first, pts[|pts| - 1], |pts|)
  }

  /** Step i, numbered i + 1, is the first visit of its point. */
  predicate FirstVisit(pts: seq<Point>, i: nat)
  {
    i < |pts| && forall j :: 0 <= j < i ==> pts[j] != pts[i]
  }

  /** The first wire: no collisions, and the map records the points it visits, keeping those it already held. */
  lemma {:induction false} FirstWire(s: Wiring, pts: seq<Point>)
    ensures var w := Follow(s, true, pts);
      w.collisions == s.collisions
      && (forall p :: p in w.positions <==> p in s.positions || p in pts)
      && forall p :: p in s.positions ==> w.positions[p] == s.positions[p]
  {
    if pts != [] {
      var n := |pts| - 1;
      FirstWire(s, pts[..n]);
      assert pts == pts[..n] + [pts[n]];
    }
  }

  /** The first wire records every point it visits with the number of the step of its first visit. */
  lemma {:induction false} FirstSteps(s: Wiring, pts: seq<Point>)
    ensures forall i: nat :: FirstVisit(pts, i) && pts[i] !in s.positions ==>
      pts[i] in Follow(s, true, pts).positions && Follow(s, true, pts).positions[pts[i]] == i + 1
  {
    if pts != [] {
      var n := |pts| - 1;
      var front := pts[..n];
      FirstSteps(s, front);
      FirstWire(s, front);
      var v := Follow(s, true, front);
      var w := Follow(s, true, pts);
      assert w == Visit(v, true, pts[n], |pts|);
      forall i: nat | FirstVisit(pts, i) && pts[i] !in s.positions
        ensures pts[i] in w.positions && w.positions[pts[i]] == i + 1
      {
        if i < n {
          assert front[i] == pts[i];
          assert FirstVisit(front, i);
          assert pts[i] in v.positions && v.positions[pts[i]] == i + 1;
        } else {
          assert pts[n] !in front by {
            forall j | 0 <= j < n ensures front[j] != pts[n] {
              assert front[j] == pts[j];
            }
          }
          assert pts[n] !in v.positions;
        }
      }
    }
  }

  /** The collisions before are still the first ones. */
  predicate Grown(before: seq<Collision>, after: seq<Collision>)
  {
    |after| >= |before| && after[..|before|] == before
  }

  /** A collision of step i on a point the map records. */
  predicate HitAt(m: map<Point, int>, pts: seq<Point>, i: nat, c: Collision)
  {
    i < |pts| && pts[i] in m && c == Collision(pts[i].x, pts[i].y, i + 1 + m[pts[i]])
  }

  /** c is the collision of some step on a point the map records. */
  ghost predicate Hit(m: map<Point, int>, pts: seq<Point>, c: Collision)
  {
    exists i: nat :: HitAt(m, pts, i, c)
  }

  /** A later wire leaves the map alone and only appends collisions. */
  lemma {:induction false} LaterGrown(s: Wiring, pts: seq<Point>)
    ensures Follow(s, false, pts).positions == s.positions
    ensures Grown(s.collisions, Follow(s, false, pts).collisions)
  {
    if pts != [] {
      var n := |pts| - 1;
      LaterGrown(s, pts[..n]);
      var v := Follow(s, false, pts[..n]);
      var w := Follow(s, false, pts);
      assert w.collisions[..|v.collisions|] == v.collisions;
      assert w.collisions[..|s.collisions|] == v.collisions[..|s.collisions|];
    }
  }

  /** Every collision a later wire adds is a step onto a recorded point. */
  lemma {:induction false} LaterHits(s: Wiring, pts: seq<Point>)
    ensures forall k :: |s.collisions| <= k < |Follow(s, false, pts).collisions| ==>
      Hit(s.positions, pts, Follow(s, false, pts).collisions[k])
  {
    if pts != [] {
      var n := |pts| - 1;
      var front := pts[..n];
      LaterHits(s, front);
      LaterGrown(s, front);
      var v := Follow(s, false, front);
      var w := Follow(s, false, pts);
      assert w.collisions[..|v.collisions|] == v.collisions;
      forall k | |s.collisions| <= k < |w.collisions|
        ensures Hit(s.positions, pts, w.collisions[k])
      {
        if k < |v.collisions| {
          var i: nat :| HitAt(s.positions, front, i, v.collisions[k]);
          assert front[i] == pts[i];
          assert HitAt(s.positions, pts, i, w.collisions[k]);
        } else {
          assert HitAt(s.positions, pts, n, w.collisions[k]);
        }
      }
    }
  }

  /** Every step of a later wire onto a recorded point is a collision. */
  lemma {:induction false} LaterFinds(s: Wiring, pts: seq<Point>)
    ensures forall i: nat :: i < |pts| && pts[i] in s.positions ==>
      Collision(pts[i].x, pts[i].y, i + 1 + s.positions[pts[i]]) in Follow(s, false, pts).collisions
  {
    if pts != [] {
      var n := |pts| - 1;
      var front := pts[..n];
      LaterFinds(s, front);
      LaterGrown(s, front);
      var v := Follow(s, false, front);
      var w := Follow(s, false, pts);
      assert w.collisions[..|v.collisions|] == v.collisions;
      forall i: nat | i < |pts| && pts[i] in s.positions
        ensures Collision(pts[i].x, pts[i].y, i + 1 + s.positions[pts[i]]) in w.collisions
      {
        if i < n {
          assert front[i] == pts[i];
          var c := Collision(pts[i].x, pts[i].y, i + 1 + s.positions[pts[i]]);
          assert c in v.collisions;
          var k :| 0 <= k < |v.collisions| && v.collisions[k] == c;
          assert w.collisions[k] == c;
        }
      }
    }
  }

  /**
   * A later wire: the map is unchanged, the earlier collisions stay first,
   * and every new collision is a step onto a recorded point, with the
   * steps of both wires, and every such step is a collision.
   */
  lemma LaterWire(s: Wiring, pts: seq<Point>)
    ensures Follow(s, false, pts).positions == s.positions
    ensures Grown(s.collisions, Follow(s, false, pts).collisions)
    ensures forall k :: |s.collisions| <= k < |Follow(s, false, pts).collisions| ==>
      Hit(s.positions, pts, Follow(s, false, pts).collisions[k])
    ensures forall i: nat :: i < |pts| && pts[i] in s.positions ==>
      Collision(pts[i].x, pts[i].y, i + 1 + s.positions[pts[i]]) in Follow(s, false, pts).collisions
  {
    LaterGrown(s, pts);
    LaterHits(s, pts);
    LaterFinds(s, pts);
  }

  /** The wires of the input: its lines, each split at ','. */
  function Wires(input: string): seq<seq<string>>
  {
    var lines := Text.Split(input, "\n");
    seq(|lines|, k requires 0 <= k < |lines| => Keep(Text.Split(lines[k], ",")))
  }

  /** The pieces other than "\n". */
  function Keep(pieces: seq<string>): (r: seq<string>)
    ensures forall k :: 0 <= k < |r| ==> r[k] != "\n" && r[k] in pieces
  {
    if pieces == [] then []
    else if pieces[0] == "\n" then Keep(pieces[1..])
    else [pieces[0]] + Keep(pieces[1..])
  }

  /** One wire on the map and collisions, from the origin. */
  function Traced(s: Wiring, first: bool, wire: seq<string>): Result<Wiring>
  {
    match Path(wire, Origin)
    case Err(f) => Err(f)
    case Ok(pts) => Ok(Follow(s, first, pts))
  }

  /** The wires in order, the first of them recording. */
  function Crossing(wires: seq<seq<string>>, s: Wiring, first: bool): Result<Wiring>
    decreases |wires|
  {
    if wires == [] then Ok(s)
    else
      match Traced(s, first, wires[0])
      case Err(f) => Err(f)
      case Ok(next) => Crossing(wires[1..], next, false)
  }

  /** The wires after the first leave the map of first visits as it is, and only add collisions. */
  lemma {:induction false} LaterWires(wires: seq<seq<string>>, s: Wiring)
    ensures Crossing(wires, s, false).Ok? ==> var w := Crossing(wires, s, false).value;
      w.positions == s.positions && Grown(s.collisions, w.collisions)
    decreases |wires|
  {
    if wires != [] && Traced(s, false, wires[0]).Ok? {
      var pts := Path(wires[0], Origin).value;
      LaterWire(s, pts);
      var next := Follow(s, false, pts);
      LaterWires(wires[1..], next);
      if Crossing(wires, s, false).Ok? {
        var w := Crossing(wires, s, false).value;
        assert w.collisions[..|s.collisions|] == w.collisions[..|next.collisions|][..|s.collisions|];
      }
    }
  }

  /** The walk of one move: `count += 1`, one unit step and the point's visit, `len` times. */
  method Stride(s: Wiring, first: bool, p: Point, d: (int, int), len: int, count: int, ghost s0: Wiring, ghost done: seq<Point>)
    returns (s': Wiring, p': Point, count': int)
    requires s == Follow(s0, first, done) && count == |done|
    ensures s' == Follow(s0, first, done + Walk(p, d, len))
    ensures p' == End(p, Walk(p, d, len)) && count' == count + |Walk(p, d, len)|
  {
    s', p', count' := s, p, count;
    var left := len;
    ghost var walked: seq<Point> := [];
    assert done + walked == done;
    while left > 0
      invariant walked + Walk(p', d, left) == Walk(p, d, len) && p' == End(p, walked)
      invariant s' == Follow(s0, first, done + walked) && count' == |done| + |walked|
    {
      count' := count' + 1;
      p' := Shift(p', d);
      s' := Visit(s', first, p', count');
      assert (done + walked + [p'])[..|done + walked|] == done + walked;
      assert done + (walked + [p']) == done + walked + [p'];
      walked := walked + [p'];
      left := left - 1;
    }
    assert walked == Walk(p, d, len);
  }

  /** One instruction of the loop over a wire: its points join those so far. */
  lemma Advance(wire: seq<string>, i: nat, done: seq<Point>, p: Point, w: seq<Point>)
    requires i < |wire| && Instruction(wire[i]).Ok? && w == Moves(p, Instruction(wire[i]).value)
    requires Path(wire, Origin) == Then(done, Path(wire[i..], p)) && p == End(Origin, done)
    ensures Path(wire, Origin) == Then(done + w, Path(wire[i + 1..], End(Origin, done + w)))
  {
    assert wire[i..][0] == wire[i] && wire[i..][1..] == wire[i + 1..];
    assert End(Origin, done + w) == End(p, w);
    ThenThen(done, w, Path(wire[i + 1..], End(p, w)));
  }

  /** A length that does not read fails the whole wire. */
  lemma Fails(wire: seq<string>, i: nat, done: seq<Point>, p: Point)
    requires i < |wire| && Instruction(wire[i]).Err?
    requires Path(wire, Origin) == Then(done, Path(wire[i..], p))
    ensures Path(wire, Origin) == Err(Instruction(wire[i]).fault)
  {
    assert wire[i..][0] == wire[i];
  }

  /** One pass of the instruction loop: instruction i moves the wire on from p, or its length does not read. */
  method Instruct(s: Wiring, first: bool, wire: seq<string>, i: nat, state: Wiring, p: Point, count: int, ghost done: seq<Point>)
    returns (r: Result<(Wiring, Point, int)>, ghost done': seq<Point>)
    requires i < |wire|
    requires Path(wire, Origin) == Then(done, Path(wire[i..], p)) && p == End(Origin, done)
    requires state == Follow(s, first, done) && count == |done|
    ensures r.Err? ==> Path(wire, Origin) == Err(r.fault)
    ensures r.Ok? ==> Path(wire, Origin) == Then(done', Path(wire[i + 1..], r.value.1)) && r.value.1 == End(Origin, done')
    ensures r.Ok? ==> r.value.0 == Follow(s, first, done') && r.value.2 == |done'|
  {
    var instr := wire[i];
    var state', p', count' := state, p, count;
    ghost var w: seq<Point> := [];
    if |instr| > 0 {
      var len := Numbers.ParseInteger(instr[1..], I64Min, I64Max);
      if len.None? {
        Fails(wire, i, done, p);
        return Err(NotALength(instr[1..])), done;
      }
      var delta := Delta(instr[0]);
      if delta.Some? {
        w := Walk(p, delta.value, len.value);
        state', p', count' := Stride(state, first, p, delta.value, len.value, count, s, done);
      }
    }
    Advance(wire, i, done, p, w);
    if w == [] {
      assert done + w == done;
    }
    return Ok((state', p', count')), done + w;
  }

  /** The loop over the instructions of one wire, from the origin with `count` at 0. */
  method TraceWire(s: Wiring, first: bool, wire: seq<string>) returns (r: Result<Wiring>)
    ensures r == Traced(s, first, wire)
  {
    var state := s;
    var p := Origin;
    var count := 0;
    ghost var done: seq<Point> := [];
    assert wire[0..] == wire;
    match Path(wire, Origin) {
      case Err(_) =>
      case Ok(pts) => assert [] + pts == pts;
    }
    for i := 0 to |wire|
      invariant Path(wire, Origin) == Then(done, Path(wire[i..], p)) && p == End(Origin, done)
      invariant state == Follow(s, first, done) && count == |done|
    {
      var next;
      next, done := Instruct(s, first, wire, i, state, p, count, done);
      if next.Err? {
        return Err(next.fault);
      }
      state, p, count := next.value.0, next.value.1, next.value.2;
    }
    assert Path(wire, Origin) == Then(done, Ok([]));
    assert done + [] == done;
    return Ok(state);
  }

  /** The loop over the wires: the first records, the later ones collide. */
  method Cross(wires: seq<seq<string>>) returns (r: Result<Wiring>)
    ensures r == Crossing(wires, Wiring(map[], []), true)
  {
    var s := Wiring(map[], []);
    var first := true;
    for k := 0 to |wires|
      invariant Crossing(wires, Wiring(map[], []), true) == Crossing(wires[k..], s, first)
      invariant first == (k == 0)
    {
      assert wires[k..][0] == wires[k] && wires[k..][1..] == wires[k + 1..];
      var next := TraceWire(s, first, wires[k]);
      if next.Err? {
        return Err(next.fault);
      }
      s := next.value;
      first := false;
    }
    return Ok(s);
  }

  function Abs(n: int): nat
  {
    if n < 0 then -n else n
  }

  /** The Manhattan distance of a collision from the origin. */
  function Distance(c: Collision): nat
  {
    Abs(c.x) + Abs(c.y)
  }

  /** Collision k is nearest the origin and the earliest among the nearest. */
  predicate Nearest(cs: seq<Collision>, k: nat)
  {
    k < |cs| && (forall j :: 0 <= j < |cs| ==> Distance(cs[k]) <= Distance(cs[j]))
    && forall j :: 0 <= j < k ==> Distance(cs[j]) > Distance(cs[k])
  }

  /** Collision k has the fewest steps and is the earliest among those. */
  predicate Quickest(cs: seq<Collision>, k: nat)
  {
    k < |cs| && (forall j :: 0 <= j < |cs| ==> cs[k].steps <= cs[j].steps)
    && forall j :: 0 <= j < k ==> cs[j].steps > cs[k].steps
  }

  /** The loop for `closest_intersect`: a later collision replaces the kept one only when strictly nearer. */
  method Closest(cs: seq<Collision>) returns (k: nat)
    requires |cs| > 0
    ensures Nearest(cs, k)
  {
    k := 0;
    for i := 1 to |cs|
      invariant k < i && (forall j :: 0 <= j < i ==> Distance(cs[k]) <= Distance(cs[j]))
      invariant forall j :: 0 <= j < k ==> Distance(cs[j]) > Distance(cs[k])
    {
      if Distance(cs[i]) < Distance(cs[k]) {
        k := i;
      }
    }
  }

  /** The loop for `min_intersect`: a later collision replaces the kept one only when it has strictly fewer steps. */
  method Fewest(cs: seq<Collision>) returns (k: nat)
    requires |cs| > 0
    ensures Quickest(cs, k)
  {
    k := 0;
    for i := 1 to |cs|
      invariant k < i && (forall j :: 0 <= j < i ==> cs[k].steps <= cs[j].steps)
      invariant forall j :: 0 <= j < k ==> cs[j].steps > cs[k].steps
    {
      if cs[i].steps < cs[k].steps {
        k := i;
      }
    }
  }

  /**
   * `main` on the input text: the collisions, and the positions among them
   * of the nearest and of the quickest, or none when there are no
   * collisions (the early return).
   */
  method Run(input: string) returns (r: Result<(seq<Collision>, Numbers.Option<(nat, nat)>)>)
    ensures r.Ok? <==> Crossing(Wires(input), Wiring(map[], []), true).Ok?
    ensures r.Ok? ==> var cs := r.value.0;
      cs == Crossing(Wires(input), Wiring(map[], []), true).value.collisions
      && (r.value.1.None? <==> cs == [])
      && (r.value.1.Some? ==> Nearest(cs, r.value.1.value.0) && Quickest(cs, r.value.1.value.1))
  {
    var crossed := Cross(Wires(input));
    if crossed.Err? {
      return Err(crossed.fault);
    }
    var cs := crossed.value.collisions;
    if |cs| == 0 {
      return Ok((cs, Numbers.None));
    }
    var closest := Closest(cs);
    var fewest := Fewest(cs);
    return Ok((cs, Numbers.Some((closest, fewest))));
  }
}
