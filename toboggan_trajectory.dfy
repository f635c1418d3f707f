/**
 * Tree counting of 2020/day3/src/main.rs: the terrain repeats to the
 * right, and a slope (dx, dy) visits rows 0, dy, 2dy, ... at columns 0, dx,
 * 2dx, ..., counting the trees it meets.
 */
module TobogganTrajectory {

  datatype Fault =
    | EmptyRow(y: nat)   // `x % self.terrain[y].len()` divides by zero
    | NeverEnds          // `check_slope` with `y_slope` 0 loops forever

  datatype Result<T> = Ok(value: T) | Err(fault: Fault)

  /** `Some` result plus `t` trees, an error passing through. */
  function Plus(r: Result<nat>, t: nat): Result<nat>
  {
    if r.Ok? then Ok(r.value + t) else r
  }

  /** One row of the input: '.' is open, '#' a tree, any other character is reported and dropped. */
  function ParseRow(line: string): (row: seq<bool>)
    ensures |row| <= |line|
  {
    if line == [] then []
    else
      var rest := ParseRow(line[..|line| - 1]);
      var c := line[|line| - 1];
      if c == '.' then rest + [false] else if c == '#' then rest + [true] else rest
  }

  /** The text of a row. */
  function Render(row: seq<bool>): (line: string)
    ensures |line| == |row|
  {
    if row == [] then [] else Render(row[..|row| - 1]) + [if row[|row| - 1] then '#' else '.']
  }

  /** Reading a rendered row gives the row back. */
  lemma {:induction false} ParseRender(row: seq<bool>)
    ensures ParseRow(Render(row)) == row
  {
    if row != [] {
      var front := row[..|row| - 1];
      ParseRender(front);
      assert Render(row)[..|Render(row)| - 1] == Render(front);
      assert row == front + [row[|row| - 1]];
    }
  }

  /** The number of rows a slope with step dy visits when n rows remain. */
  function Visits(n: int, dy: nat): nat
    requires dy >= 1
    decreases n
  {
    if n <= 0 then 0 else 1 + Visits(n - dy, dy)
  }

  /** So the visits are the ceiling of n / dy. */
  lemma {:induction false} VisitsCeiling(n: int, dy: nat)
    requires dy >= 1 && n >= 1
    ensures (Visits(n, dy) - 1) * dy < n <= Visits(n, dy) * dy
    decreases n
  {
    if n - dy >= 1 {
      VisitsCeiling(n - dy, dy);
      var v := Visits(n - dy, dy);
      assert Visits(n, dy) * dy == v * dy + dy;
      assert (Visits(n, dy) - 1) * dy == (v - 1) * dy + dy;
    }
  }

  datatype Map = Map(terrain: seq<seq<bool>>)
  {
    /** `hit_tree`: false below the map; otherwise the square, the row repeating to the right. */
    function HitTree(x: nat, y: nat): (r: Result<bool>)
      ensures y >= |terrain| ==> r == Ok(false)
      ensures y < |terrain| ==> (r.Err? <==> |terrain[y]| == 0) && (r.Err? ==> r.fault == EmptyRow(y))
    {
      if y >= |terrain| then Ok(false)
      else if |terrain[y]| == 0 then Err(EmptyRow(y))
      else Ok(terrain[y][x % |terrain[y]|])
    }

    /** One step of a row's width to the right meets the same square. */
    lemma Wraps(x: nat, y: nat)
      requires y < |terrain| && |terrain[y]| > 0
      ensures HitTree(x + |terrain[y]|, y) == HitTree(x, y)
      ensures x < |terrain[y]| ==> HitTree(x, y) == Ok(terrain[y][x])
    {
      var w := |terrain[y]|;
      var q := x / w;
      assert x == q * w + x % w;
      assert (q + 1) * w == q * w + w;
      ModUnique(x + w, w, q + 1, x % w);
      if x < w {
        ModUnique(x, w, 0, x);
      }
    }

    /** The trees from square (x, y) on, following the slope down to the bottom. */
    function Walk(dx: nat, dy: nat, x: nat, y: nat): Result<nat>
      requires dy >= 1
      decreases |terrain| - y
    {
      if y >= |terrain| then Ok(0)
      else
        match HitTree(x, y)
        case Err(f) => Err(f)
        case Ok(hit) => Plus(Walk(dx, dy, x + dx, y + dy), if hit then 1 else 0)
    }

    /** A count is at most the number of rows visited. */
    lemma {:induction false} WalkBound(dx: nat, dy: nat, x: nat, y: nat)
      requires dy >= 1
      ensures Walk(dx, dy, x, y).Ok? ==> Walk(dx, dy, x, y).value <= Visits(|terrain| - y, dy)
      decreases |terrain| - y
    {
      if y < |terrain| {
        WalkBound(dx, dy, x + dx, y + dy);
      }
    }

    /** A failing walk names an empty row it reached; a walk on a map without empty rows never fails. */
    lemma {:induction false} WalkFails(dx: nat, dy: nat, x: nat, y: nat)
      requires dy >= 1
      ensures Walk(dx, dy, x, y).Err? ==> Walk(dx, dy, x, y).fault.EmptyRow?
      ensures Walk(dx, dy, x, y).Err? && Walk(dx, dy, x, y).fault.EmptyRow? ==>
        var k := Walk(dx, dy, x, y).fault.y; y <= k < |terrain| && |terrain[k]| == 0
      ensures (forall k :: y <= k < |terrain| ==> |terrain[k]| > 0) ==> Walk(dx, dy, x, y).Ok?
      decreases |terrain| - y
    {
      if y < |terrain| {
        WalkFails(dx, dy, x + dx, y + dy);
      }
    }

    /** `check_slope`. */
    method CheckSlope(xSlope: nat, ySlope: nat) returns (r: Result<nat>)
      ensures ySlope >= 1 ==> r == Walk(xSlope, ySlope, 0, 0)
      ensures ySlope == 0 && |terrain| == 0 ==> r == Ok(0)
      ensures ySlope == 0 && |terrain| > 0 ==> r == Err(if |terrain[0]| == 0 then EmptyRow(0) else NeverEnds)
    {
      if ySlope == 0 && |terrain| > 0 {
        var first := HitTree(0, 0);
        if first.Err? {
          return Err(first.fault);
        }
        return Err(NeverEnds);
      }
      var trees: nat := 0;
      var x: nat := 0;
      var y: nat := 0;
      while y < |terrain|
        invariant ySlope >= 1 ==> Walk(xSlope, ySlope, 0, 0) == Plus(Walk(xSlope, ySlope, x, y), trees)
        invariant ySlope == 0 ==> |terrain| == 0 && trees == 0
        decreases |terrain| - y
      {
        var hit := HitTree(x, y);
        if hit.Err? {
          return Err(hit.fault);
        }
        if hit.value {
          trees := trees + 1;
        }
        x := x + xSlope;
        y := y + ySlope;
      }
      return Ok(trees);
    }

    /** `part_one`: the slope right 3, down 1. */
    method PartOne() returns (r: Result<nat>)
      ensures r == Walk(3, 1, 0, 0)
    {
      r := CheckSlope(3, 1);
    }

    /** `part_two`: the product over five slopes, the leftmost panic winning. */
    method PartTwo() returns (r: Result<nat>)
      ensures r == Product([Walk(1, 1, 0, 0), Walk(3, 1, 0, 0), Walk(5, 1, 0, 0), Walk(7, 1, 0, 0), Walk(1, 2, 0, 0)])
    {
      var a := CheckSlope(1, 1);
      var b := CheckSlope(3, 1);
      var c := CheckSlope(5, 1);
      var d := CheckSlope(7, 1);
      var e := CheckSlope(1, 2);
      r := Product([a, b, c, d, e]);
    }
  }

  /** The remainder is the one r with a == q * w + r and 0 <= r < w. */
  lemma ModUnique(a: int, w: int, q: int, r: int)
    requires w > 0 && a == q * w + r && 0 <= r < w
    ensures a % w == r
  {
    var q', r' := a / w, a % w;
    assert (q - q') * w == r' - r;
    if q > q' {
      MulAtLeast(q - q', w);
    } else if q < q' {
      MulAtLeast(q' - q, w);
    }
  }

  lemma MulAtLeast(k: int, w: int)
    requires k >= 1 && w > 0
    ensures k * w >= w
  {
  }

  /** The product of counts, or the first error among them. */
  function Product(rs: seq<Result<nat>>): (r: Result<nat>)
    ensures r.Ok? <==> forall i :: 0 <= i < |rs| ==> rs[i].Ok?
  {
    if rs == [] then Ok(1)
    else if rs[0].Err? then rs[0]
    else Times(rs[0].value, Product(rs[1..]))
  }

  function Times(a: nat, r: Result<nat>): Result<nat>
  {
    if r.Ok? then Ok(a * r.value) else r
  }

  /** An error of the product is the leftmost error, the first panic in evaluation order. */
  lemma {:induction false} ProductError(rs: seq<Result<nat>>)
    ensures Product(rs).Err? ==> exists i :: 0 <= i < |rs| && rs[i] == Product(rs) && forall j :: 0 <= j < i ==> rs[j].Ok?
  {
    if rs != [] && rs[0].Ok? {
      ProductError(rs[1..]);
      if Product(rs[1..]).Err? {
        var i :| 0 <= i < |rs[1..]| && rs[1..][i] == Product(rs[1..]) && forall j :: 0 <= j < i ==> rs[1..][j].Ok?;
        assert rs[i + 1] == Product(rs);
        assert forall j :: 0 <= j < i + 1 ==> rs[j].Ok? by {
          assert forall j :: 1 <= j < i + 1 ==> rs[j] == rs[1..][j - 1];
        }
      }
    }
  }

  /** On a map without empty rows every slope has a count, and a slope down-by-one visits every row. */
  lemma NoEmptyRows(m: Map, dx: nat, dy: nat)
    requires dy >= 1 && forall k :: 0 <= k < |m.terrain| ==> |m.terrain[k]| > 0
    ensures m.Walk(dx, dy, 0, 0).Ok?
    ensures m.Walk(dx, dy, 0, 0).value <= Visits(|m.terrain|, dy)
    ensures Visits(|m.terrain|, 1) == |m.terrain|
  {
    m.WalkFails(dx, dy, 0, 0);
    m.WalkBound(dx, dy, 0, 0);
    AllRows(|m.terrain|);
  }

  lemma {:induction false} AllRows(n: int)
    requires n >= 0
    ensures Visits(n, 1) == n
  {
    if n > 0 {
      AllRows(n - 1);
    }
  }
}
