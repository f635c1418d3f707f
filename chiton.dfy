/**
 * Chiton risk map of 2021/day15/src/map.rs: positions ordered reversed on
 * cost for a max-heap used as a min-heap, the five-fold expansion of the
 * map, a cell's neighbours and the down-then-right cost estimate.
 */
module ChitonMap {
  import Numbers

  /** A cell of the map with a cost; equality and hashing look only at (x, y). */
  datatype Position = Position(cost: int, x: nat, y: nat)

  datatype Ordering = Less | Equal | Greater

  /** `PartialEq::eq`: the same cell, whatever the costs. */
  predicate Same(a: Position, b: Position)
  {
    a.x == b.x && a.y == b.y
  }

  /** What `Hash::hash` feeds the hasher. */
  function HashKey(p: Position): (nat, nat)
  {
    (p.x, p.y)
  }

  /** Equal positions hash alike, and so do positions with the same key: hashing agrees with equality. */
  lemma HashAgrees(a: Position, b: Position)
    ensures Same(a, b) <==> HashKey(a) == HashKey(b)
  {
  }

  /** `Ord::cmp`: reversed on cost, so that the costlier position is the lesser. */
  function Cmp(a: Position, b: Position): (o: Ordering)
    ensures o == Less <==> a.cost > b.cost
    ensures o == Greater <==> a.cost < b.cost
    ensures o == Equal <==> a.cost == b.cost
  {
    if a.cost > b.cost then Less
    else if a.cost < b.cost then Greater
    else Equal
  }

  function Flip(o: Ordering): Ordering
  {
    match o
    case Less => Greater
    case Equal => Equal
    case Greater => Less
  }

  /** The ordering is antisymmetric and transitive, a total preorder on cost. */
  lemma CmpOrder(a: Position, b: Position, c: Position)
    ensures Cmp(b, a) == Flip(Cmp(a, b))
    ensures Cmp(a, b) != Greater && Cmp(b, c) != Greater ==> Cmp(a, c) != Greater
  {
  }

  /** A max-heap on this ordering yields a cheapest position first: the greatest has the least cost. */
  lemma GreatestIsCheapest(heap: seq<Position>, k: nat)
    requires k < |heap| && forall i :: 0 <= i < |heap| ==> Cmp(heap[i], heap[k]) != Greater
    ensures forall i :: 0 <= i < |heap| ==> heap[k].cost <= heap[i].cost
  {
  }

  datatype Result<T> = Ok(value: T) | Err(bad: char)

  /** `parse` on the lines: each character parsed as an `i32`, and one that is not a digit panics. */
  function Parse(lines: seq<string>): (r: Result<seq<seq<int>>>)
    ensures r.Ok? <==> forall y, x :: 0 <= y < |lines| && 0 <= x < |lines[y]| ==> Numbers.IsDigit(lines[y][x])
    ensures r.Ok? ==> |r.value| == |lines| && forall y :: 0 <= y < |lines| ==> r.value[y] == Risks(lines[y])
  {
    if lines == [] then Ok([])
    else
      var front := Parse(lines[..|lines| - 1]);
      var last := lines[|lines| - 1];
      if front.Err? then front
      else if !Numbers.AllDigits(last) then Err(FirstBad(last))
      else Ok(front.value + [Risks(last)])
  }

  function FirstBad(line: string): char
    requires !Numbers.AllDigits(line)
  {
    if !Numbers.IsDigit(line[0]) then line[0] else FirstBad(line[1..])
  }

  /** The digit values of a line. */
  function Risks(line: string): (r: seq<int>)
    ensures |r| == |line|
    ensures forall i :: 0 <= i < |line| ==> r[i] == line[i] as int - '0' as int
  {
    if line == [] then [] else Risks(line[..|line| - 1]) + [line[|line| - 1] as int - '0' as int]
  }

  // Expansion.

  /**
   * What indexing a map cell by cell can meet: the values read, or an
   * index past the end of a row or of the map (or a `len() - 1` of an
   * empty vector), where the source panics.
   */
  datatype Indexed<T> = InRange(value: T) | OutOfRange

  /**
   * The first n rows are at least as long as the first row. `expand`
   * reads columns below the first row's width, so on such rows it finds
   * every cell it reads; cells past that width are never read.
   */
  predicate WideTo(m: seq<seq<int>>, n: nat)
  {
    n <= |m| && forall y :: 0 <= y < n ==> |m[0]| <= |m[y]|
  }

  /** Every row is at least as long as the first. */
  predicate Wide(m: seq<seq<int>>)
  {
    WideTo(m, |m|)
  }

  /** A raised risk above 9 is taken modulo 9. */
  function Wrap(v: int): int
  {
    if v > 9 then v % 9 else v
  }

  /** Risks 1 to 9 raised by at most 8 stay between 1 and 9. */
  lemma WrapRange(v: int, add: int)
    requires 1 <= v <= 9 && 0 <= add <= 8
    ensures 1 <= Wrap(v + add) <= 9
  {
  }

  /** The first n risks of a row, each raised by add. */
  function Shift(row: seq<int>, add: int, n: nat): (r: seq<int>)
    requires n <= |row|
    ensures |r| == n && forall i :: 0 <= i < n ==> r[i] == Wrap(row[i] + add)
  {
    if n == 0 then [] else Shift(row, add, n - 1) + [Wrap(row[n - 1] + add)]
  }

  /** k copies of the first w risks of a row side by side, copy j raised by add + j. */
  function TileRow(row: seq<int>, add: int, k: nat, w: nat): seq<int>
    requires k == 0 || w <= |row|
  {
    if k == 0 then [] else TileRow(row, add, k - 1, w) + Shift(row, add + k - 1, w)
  }

  /** The first n rows of block a: each row, cut to the first row's width, tiled five times and raised by a. */
  function Block(m: seq<seq<int>>, a: int, n: nat): (r: seq<seq<int>>)
    requires WideTo(m, n)
    ensures |r| == n
  {
    if n == 0 then [] else Block(m, a, n - 1) + [TileRow(m[n - 1], a, 5, |m[0]|)]
  }

  /** k blocks of the map one below the other, block j raised by j. */
  function Tiled(m: seq<seq<int>>, k: nat): seq<seq<int>>
    requires k == 0 || Wide(m)
  {
    if k == 0 then [] else Tiled(m, k - 1) + Block(m, k - 1, |m|)
  }

  /**
   * `expand`: five times the rows and five times the first row's width.
   * A row shorter than the first makes the first pass index past its end.
   */
  method Expand(m: seq<seq<int>>) returns (r: Indexed<seq<seq<int>>>)
    ensures r.OutOfRange? <==> !Wide(m)
    ensures r.InRange? ==> Wide(m) && r.value == Tiled(m, 5)
  {
    var expanded := [];
    for yAdd := 0 to 5
      invariant (yAdd == 0 || Wide(m)) && expanded == Tiled(m, yAdd)
    {
      var block := ExpandBlock(m, yAdd);
      if block.OutOfRange? {
        return OutOfRange;
      }
      expanded := expanded + block.value;
    }
    return InRange(expanded);
  }

  /** The rows `expand` pushes for one value of yAdd: every row of the map, tiled and raised by yAdd. */
  method ExpandBlock(m: seq<seq<int>>, yAdd: int) returns (r: Indexed<seq<seq<int>>>)
    ensures r.OutOfRange? <==> !Wide(m)
    ensures r.InRange? ==> Wide(m) && r.value == Block(m, yAdd, |m|)
  {
    var block := [];
    for y := 0 to |m|
      invariant WideTo(m, y) && block == Block(m, yAdd, y)
    {
      var row := ExpandRow(m[y], |m[0]|, yAdd);
      if row.OutOfRange? {
        return OutOfRange;
      }
      block := block + [row.value];
    }
    return InRange(block);
  }

  /**
   * The five copies of the first width risks of one row, raised by yAdd
   * and by the copy's place; a row shorter than width is indexed past its
   * end in the first copy.
   */
  method ExpandRow(line: seq<int>, width: nat, yAdd: int) returns (r: Indexed<seq<int>>)
    ensures r.OutOfRange? <==> |line| < width
    ensures r.InRange? ==> width <= |line| && r.value == TileRow(line, yAdd, 5, width)
  {
    var row := [];
    for xAdd := 0 to 5
      invariant (xAdd == 0 || width <= |line|) && row == TileRow(line, yAdd, xAdd, width)
    {
      for x := 0 to width
        invariant x <= |line| && row == TileRow(line, yAdd, xAdd, width) + Shift(line, yAdd + xAdd, x)
      {
        if x >= |line| {
          return OutOfRange;
        }
        var value := line[x] + yAdd + xAdd;
        if value > 9 {
          value := value % 9;
        }
        row := row + [value];
      }
    }
    return InRange(row);
  }

  lemma {:induction false} TileRowLength(row: seq<int>, add: int, k: nat, w: nat)
    requires k == 0 || w <= |row|
    ensures |TileRow(row, add, k, w)| == k * w
  {
    if k > 0 {
      TileRowLength(row, add, k - 1, w);
      MulSucc(k - 1, w);
    }
  }

  lemma {:induction false} TiledLength(m: seq<seq<int>>, k: nat)
    requires k == 0 || Wide(m)
    ensures |Tiled(m, k)| == k * |m|
  {
    if k > 0 {
      TiledLength(m, k - 1);
      MulSucc(k - 1, |m|);
    }
  }

  lemma MulSucc(k: nat, w: nat)
    ensures (k + 1) * w == k * w + w
  {
  }

  lemma MulStep(j: nat, k: nat, w: nat, i: nat)
    requires j < k && i < w
    ensures j * w + i < k * w
  {
    var d := k - j - 1;
    assert k * w == j * w + w + d * w;
  }

  /** Copy j of a tiled row holds the row raised by add + j. */
  lemma {:induction false} TileRowAt(row: seq<int>, add: int, k: nat, w: nat, j: nat, i: nat)
    requires j < k && i < w <= |row|
    ensures j * w + i < |TileRow(row, add, k, w)|
    ensures TileRow(row, add, k, w)[j * w + i] == Wrap(row[i] + add + j)
    decreases k
  {
    MulStep(j, k, w, i);
    TileRowLength(row, add, k, w);
    TileRowLength(row, add, k - 1, w);
    if j < k - 1 {
      TileRowAt(row, add, k - 1, w, j, i);
    }
  }

  lemma {:induction false} TiledAt(m: seq<seq<int>>, k: nat, j: nat, y: nat)
    requires Wide(m) && j < k && y < |m|
    ensures j * |m| + y < |Tiled(m, k)|
    ensures Tiled(m, k)[j * |m| + y] == TileRow(m[y], j, 5, |m[0]|)
    decreases k
  {
    MulStep(j, k, |m|, y);
    TiledLength(m, k);
    TiledLength(m, k - 1);
    if j < k - 1 {
      TiledAt(m, k - 1, j, y);
    } else {
      BlockAt(m, j, |m|, y);
    }
  }

  lemma {:induction false} BlockAt(m: seq<seq<int>>, a: int, n: nat, y: nat)
    requires WideTo(m, n) && y < n
    ensures Block(m, a, n)[y] == TileRow(m[y], a, 5, |m[0]|)
    decreases n
  {
    if y < n - 1 {
      BlockAt(m, a, n - 1, y);
    }
  }

  /**
   * The expanded map is five maps by five, each as wide as the first row:
   * the copy yAdd down and xAdd across holds each risk raised by
   * yAdd + xAdd, wrapped past 9.
   */
  lemma ExpandAt(m: seq<seq<int>>, yAdd: nat, xAdd: nat, y: nat, x: nat)
    requires Wide(m) && yAdd < 5 && xAdd < 5 && y < |m| && x < |m[0]|
    ensures |Tiled(m, 5)| == 5 * |m|
    ensures yAdd * |m| + y < |Tiled(m, 5)|
    ensures |Tiled(m, 5)[yAdd * |m| + y]| == 5 * |m[0]|
    ensures xAdd * |m[0]| + x < |Tiled(m, 5)[yAdd * |m| + y]|
    ensures Tiled(m, 5)[yAdd * |m| + y][xAdd * |m[0]| + x] == Wrap(m[y][x] + yAdd + xAdd)
  {
    TiledLength(m, 5);
    TiledAt(m, 5, yAdd, y);
    TileRowLength(m[y], yAdd, 5, |m[0]|);
    TileRowAt(m[y], yAdd, 5, |m[0]|, xAdd, x);
  }

  /** Risks from 1 to 9 in a row. */
  ghost predicate Risky(row: seq<int>)
  {
    forall i :: 0 <= i < |row| ==> 1 <= row[i] <= 9
  }

  lemma {:induction false} TileRowRange(row: seq<int>, add: nat, k: nat, w: nat)
    requires Risky(row) && add + k <= 9 && w <= |row|
    ensures Risky(TileRow(row, add, k, w))
  {
    if k > 0 {
      TileRowRange(row, add, k - 1, w);
      var front, copy := TileRow(row, add, k - 1, w), Shift(row, add + k - 1, w);
      forall i | 0 <= i < w
        ensures 1 <= copy[i] <= 9
      {
        WrapRange(row[i], add + k - 1);
      }
      assert TileRow(row, add, k, w) == front + copy;
    }
  }

  lemma {:induction false} BlockRange(m: seq<seq<int>>, a: nat, n: nat)
    requires WideTo(m, n) && a <= 4 && forall y :: 0 <= y < |m| ==> Risky(m[y])
    ensures forall y :: 0 <= y < n ==> Risky(Block(m, a, n)[y])
  {
    if n > 0 {
      BlockRange(m, a, n - 1);
      TileRowRange(m[n - 1], a, 5, |m[0]|);
    }
  }

  lemma {:induction false} TiledRange(m: seq<seq<int>>, k: nat)
    requires Wide(m) && k <= 5 && forall y :: 0 <= y < |m| ==> Risky(m[y])
    ensures forall i :: 0 <= i < |Tiled(m, k)| ==> Risky(Tiled(m, k)[i])
  {
    if k > 0 {
      TiledRange(m, k - 1);
      BlockRange(m, k - 1, |m|);
      var front, block := Tiled(m, k - 1), Block(m, k - 1, |m|);
      assert Tiled(m, k) == front + block;
      forall i | 0 <= i < |front + block|
        ensures Risky((front + block)[i])
      {
        if i >= |front| {
          assert (front + block)[i] == block[i - |front|];
        }
      }
    }
  }

  /** Expansion keeps risks from 1 to 9 between 1 and 9. */
  lemma ExpandRange(m: seq<seq<int>>)
    requires Wide(m) && forall y :: 0 <= y < |m| ==> Risky(m[y])
    ensures forall i, j :: 0 <= i < |Tiled(m, 5)| && 0 <= j < |Tiled(m, 5)[i]| ==> 1 <= Tiled(m, 5)[i][j] <= 9
  {
    TiledRange(m, 5);
  }

  // Neighbours and the estimate.

  /** Row y exists and has a column x. */
  predicate Has(m: seq<seq<int>>, x: int, y: int)
  {
    0 <= y < |m| && 0 <= x < |m[y]|
  }

  /** p's cell exists on the map. */
  predicate OnMap(m: seq<seq<int>>, p: Position)
  {
    Has(m, p.x, p.y)
  }

  /** One of the four cells beside p. */
  predicate Beside(p: Position, q: Position)
  {
    (p.y == q.y && (q.x == p.x + 1 || p.x == q.x + 1)) || (p.x == q.x && (q.y == p.y + 1 || p.y == q.y + 1))
  }

  /**
   * The cells `neighbors` reads around p: left and up when p is not on
   * the first column or row; right while left of the first row's last
   * column; down while above the last row.
   */
  predicate Probed(m: seq<seq<int>>, p: Position, x: int, y: int)
    requires |m| > 0
  {
    0 <= x && 0 <= y &&
    ((y == p.y && x + 1 == p.x) || (x == p.x && y + 1 == p.y)
     || (y == p.y && x == p.x + 1 && x < |m[0]|) || (x == p.x && y == p.y + 1 && y < |m|))
  }

  /**
   * `neighbors`: left, up, right and down, those on the map, each with
   * its risk as cost. It reads `map[0].len() - 1`, so a map without rows
   * or with an empty first row panics, and so does a probed cell past the
   * end of its row or below the last row.
   */
  function Neighbors(p: Position, m: seq<seq<int>>): (r: Indexed<seq<Position>>)
    ensures r.OutOfRange? <==> |m| == 0 || |m[0]| == 0 || exists x: int, y: int :: Probed(m, p, x, y) && !Has(m, x, y)
    ensures r.InRange? ==> |r.value| <= 4
    ensures r.InRange? ==> forall i :: 0 <= i < |r.value| ==> OnMap(m, r.value[i]) && Beside(p, r.value[i]) && r.value[i].cost == m[r.value[i].y][r.value[i].x]
  {
    if |m| == 0 || |m[0]| == 0 then OutOfRange
    else if Missing(m, p) then
      MissingMeans(m, p);
      OutOfRange
    else
      MissingMeans(m, p);
      var left := if p.x > 0 then [Position(m[p.y][p.x - 1], p.x - 1, p.y)] else [];
      var up := if p.y > 0 then [Position(m[p.y - 1][p.x], p.x, p.y - 1)] else [];
      var right := if p.x < |m[0]| - 1 then [Position(m[p.y][p.x + 1], p.x + 1, p.y)] else [];
      var down := if p.y < |m| - 1 then [Position(m[p.y + 1][p.x], p.x, p.y + 1)] else [];
      assert forall q: Position :: q in left + up + right + down ==> Found(m, p, q);
      InRange(left + up + right + down)
  }

  /** One of the cells `neighbors` reads around p is not on the map. */
  predicate Missing(m: seq<seq<int>>, p: Position)
    requires |m| > 0
  {
    (p.x > 0 && !Has(m, p.x - 1, p.y)) || (p.y > 0 && !Has(m, p.x, p.y - 1))
    || (p.x < |m[0]| - 1 && !Has(m, p.x + 1, p.y)) || (p.y < |m| - 1 && !Has(m, p.x, p.y + 1))
  }

  /** A cell is missing exactly when some probed cell is not on the map. */
  lemma MissingMeans(m: seq<seq<int>>, p: Position)
    requires |m| > 0
    ensures Missing(m, p) <==> exists x: int, y: int :: Probed(m, p, x, y) && !Has(m, x, y)
  {
    if Missing(m, p) {
      assert p.x > 0 ==> Probed(m, p, p.x - 1, p.y);
      assert p.y > 0 ==> Probed(m, p, p.x, p.y - 1);
      assert p.x < |m[0]| - 1 ==> Probed(m, p, p.x + 1, p.y);
      assert p.y < |m| - 1 ==> Probed(m, p, p.x, p.y + 1);
    }
  }

  /** q is on the map, beside p and costs its risk. */
  predicate Found(m: seq<seq<int>>, p: Position, q: Position)
  {
    OnMap(m, q) && Beside(p, q) && q.cost == m[q.y][q.x]
  }

  /** Every cell beside the start, within the first row's width and the map's rows, is among its neighbours. */
  lemma NeighborsComplete(p: Position, m: seq<seq<int>>, q: Position)
    requires Neighbors(p, m).InRange? && Beside(p, q) && q.y < |m| && q.x < |m[0]|
    ensures exists i :: 0 <= i < |Neighbors(p, m).value| && Same(Neighbors(p, m).value[i], q)
  {
    var r := Neighbors(p, m).value;
    var left := if p.x > 0 then 1 else 0;
    var up := left + if p.y > 0 then 1 else 0;
    var right := up + if p.x < |m[0]| - 1 then 1 else 0;
    if q.y == p.y && p.x == q.x + 1 {
      assert Same(r[0], q);
    } else if q.x == p.x && p.y == q.y + 1 {
      assert Same(r[left], q);
    } else if q.y == p.y && q.x == p.x + 1 {
      assert Same(r[up], q);
    } else {
      assert Same(r[right], q);
    }
  }

  /** On a map whose rows are at least as long as the first, every cell within the first row's width has its neighbours read in range. */
  lemma NeighborsWithin(p: Position, m: seq<seq<int>>)
    requires Wide(m) && p.y < |m| && p.x < |m[0]|
    ensures Neighbors(p, m).InRange?
  {
    forall x: int, y: int | Probed(m, p, x, y)
      ensures Has(m, x, y)
    {
      assert |m[0]| <= |m[y]|;
    }
  }

  /** The risks of column x in the rows from lo up to hi, leaving hi out. */
  function ColumnSum(m: seq<seq<int>>, x: nat, lo: nat, hi: nat): int
    requires hi <= |m| && forall y :: lo <= y < hi ==> x < |m[y]|
  {
    if hi <= lo then 0 else ColumnSum(m, x, lo, hi - 1) + m[hi - 1][x]
  }

  /** The risks of a row from column x to its end. */
  function RowSum(row: seq<int>, x: nat): int
    decreases |row| - x
  {
    if x >= |row| then 0 else row[x] + RowSum(row, x + 1)
  }

  /**
   * `cost_estimate`: the start's cost, then down the start's column to
   * the last row, then along the last row from the start's column; the
   * corner cell is counted by both walks. A map without rows or with an
   * empty last row underflows a `len() - 1`, and a row of the column walk
   * too short for the start's column is indexed past its end.
   */
  method CostEstimate(start: Position, m: seq<seq<int>>) returns (r: Indexed<int>)
    ensures r.OutOfRange? <==> |m| == 0 || |m[|m| - 1]| == 0 || exists y :: start.y <= y < |m| && start.x >= |m[y]|
    ensures r.InRange? ==> |m| > 0 && (forall y :: start.y <= y < |m| ==> start.x < |m[y]|)
                           && r.value == start.cost + ColumnSum(m, start.x, start.y, |m|) + RowSum(m[|m| - 1], start.x)
  {
    if |m| == 0 {
      return OutOfRange;
    }
    var yMax := |m| - 1;
    if |m[yMax]| == 0 {
      return OutOfRange;
    }
    var xMax := |m[yMax]| - 1;
    var cost := start.cost;
    var y := start.y;
    while y <= yMax
      invariant start.y <= y && (y > start.y ==> y <= |m|)
      invariant forall j :: start.y <= j < y && j < |m| ==> start.x < |m[j]|
      invariant y <= |m| ==> cost == start.cost + ColumnSum(m, start.x, start.y, y)
      invariant y > |m| ==> cost == start.cost
      decreases |m| - y
    {
      if start.x >= |m[y]| {
        return OutOfRange;
      }
      cost := cost + m[y][start.x];
      y := y + 1;
    }
    var x := start.x;
    ghost var before := cost;
    while x <= xMax
      invariant start.x <= x && (start.x <= |m[yMax]| ==> x <= |m[yMax]|)
      invariant cost + RowSum(m[yMax], x) == before + RowSum(m[yMax], start.x)
      decreases |m[yMax]| - x
    {
      cost := cost + m[yMax][x];
      x := x + 1;
    }
    return InRange(cost);
  }

  /** With risks from 1 to 9, the column walk adds between one and nine per row it passes. */
  lemma {:induction false} ColumnBounds(m: seq<seq<int>>, x: nat, lo: nat, hi: nat)
    requires lo <= hi <= |m| && forall y :: lo <= y < hi ==> x < |m[y]| && 1 <= m[y][x] <= 9
    ensures hi - lo <= ColumnSum(m, x, lo, hi) <= 9 * (hi - lo)
    decreases hi
  {
    if lo < hi {
      ColumnBounds(m, x, lo, hi - 1);
    }
  }

  lemma {:induction false} RowBounds(row: seq<int>, x: nat)
    requires x <= |row| && forall i :: x <= i < |row| ==> 1 <= row[i] <= 9
    ensures |row| - x <= RowSum(row, x) <= 9 * (|row| - x)
    decreases |row| - x
  {
    if x < |row| {
      RowBounds(row, x + 1);
    }
  }
}

/**
 * Path helpers of 2021/day15/src/path.rs: heap membership by cell, the
 * cost of a path, rebuilding a path from the parent map, and the
 * relaxation step of the search.
 */
module ChitonPath {
  import opened ChitonMap

  const I32Max := 0x7fff_ffff

  /** `in_heap`: a scan of the heap's elements, stopping at the first on the target's cell. */
  method InHeap(heap: seq<Position>, target: Position) returns (found: bool)
    ensures found <==> exists i :: 0 <= i < |heap| && Same(target, heap[i])
  {
    found := false;
    var i := 0;
    while i < |heap|
      invariant 0 <= i <= |heap|
      invariant !found && forall j :: 0 <= j < i ==> !Same(target, heap[j])
    {
      if Same(target, heap[i]) {
        found := true;
        break;
      }
      i := i + 1;
    }
  }

  /** The costs of the first n positions of a path, leaving out those at (0, 0). */
  function PathCost(path: seq<Position>, n: nat): int
    requires n <= |path|
  {
    if n == 0 then 0
    else PathCost(path, n - 1) + (if path[n - 1].x == 0 && path[n - 1].y == 0 then 0 else path[n - 1].cost)
  }

  /** `cost`. */
  method Cost(path: seq<Position>) returns (cost: int)
    ensures cost == PathCost(path, |path|)
  {
    cost := 0;
    for index := 0 to |path|
      invariant cost == PathCost(path, index)
    {
      var pos := path[index];
      if pos.x == 0 && pos.y == 0 {
        continue;
      }
      cost := cost + pos.cost;
    }
  }

  /** The start's cost is not counted, and a path without (0, 0) costs the sum of its costs. */
  lemma {:induction false} CostSplit(path: seq<Position>, n: nat)
    requires n <= |path|
    ensures path != [] && path[0].x == 0 && path[0].y == 0 && n >= 1 ==> PathCost(path, n) == PathCost(path[1..], n - 1)
    ensures (forall i :: 0 <= i < n ==> path[i].x != 0 || path[i].y != 0) ==> PathCost(path, n) == Sum(path, n)
    decreases n
  {
    if n > 0 {
      CostSplit(path, n - 1);
      if path != [] && path[0].x == 0 && path[0].y == 0 && n >= 2 {
        assert path[1..][n - 2] == path[n - 1];
      }
    }
  }

  function Sum(path: seq<Position>, n: nat): int
    requires n <= |path|
  {
    if n == 0 then 0 else Sum(path, n - 1) + path[n - 1].cost
  }

  /**
   * The parent map: as a `HashMap` keyed by positions that hash and
   * compare by cell, it maps a cell to the position the search came from.
   */
  type Parents = map<(nat, nat), Position>

  /** The cell reached after n steps back from p through the parent map, if the walk goes that far. */
  ghost function Back(reverse: Parents, p: Position, n: nat): Position
  {
    if n == 0 then p
    else
      var q := Back(reverse, p, n - 1);
      if HashKey(q) in reverse then reverse[HashKey(q)] else q
  }

  /** The walk back from p leaves the parent map after exactly n steps. */
  ghost predicate EndsAfter(reverse: Parents, p: Position, n: nat)
  {
    (forall k :: 0 <= k < n ==> HashKey(Back(reverse, p, k)) in reverse) && HashKey(Back(reverse, p, n)) !in reverse
  }

  /**
   * `reconstruct_path`: from parent, follow the parent map until a cell
   * has no entry, taking each cost from the map. The loop ends only when
   * the walk leaves the map, so the walk's length is a precondition.
   */
  method ReconstructPath(parent: Position, reverse: Parents, m: seq<seq<int>>, ghost steps: nat) returns (path: seq<Position>)
    requires OnMap(m, parent) && forall k :: k in reverse ==> OnMap(m, reverse[k])
    requires EndsAfter(reverse, parent, steps)
    ensures |path| == steps + 1
    ensures Walked(reverse, parent, m, path)
    ensures Same(path[0], parent) && HashKey(path[|path| - 1]) !in reverse
    ensures forall i :: 0 <= i < |path| - 1 ==> HashKey(path[i]) in reverse && Same(path[i + 1], reverse[HashKey(path[i])])
  {
    var current := Position(m[parent.y][parent.x], parent.x, parent.y);
    path := [current];
    while true
      invariant 1 <= |path| <= steps + 1 && current == path[|path| - 1]
      invariant Walked(reverse, parent, m, path)
      decreases steps + 1 - |path|
    {
      if HashKey(current) !in reverse {
        break;
      }
      ghost var before := path;
      current := reverse[HashKey(current)];
      current := current.(cost := m[current.y][current.x]);
      path := path + [current];
      WalkedStep(reverse, parent, m, before, steps);
    }
    WalkedLinks(reverse, parent, m, path, steps);
  }

  /** The first |path| cells of the walk back from parent, on the map, each with its risk as cost. */
  ghost predicate Walked(reverse: Parents, parent: Position, m: seq<seq<int>>, path: seq<Position>)
  {
    forall i :: 0 <= i < |path| ==> Same(path[i], Back(reverse, parent, i)) && OnMap(m, path[i]) && path[i].cost == m[path[i].y][path[i].x]
  }

  lemma WalkedStep(reverse: Parents, parent: Position, m: seq<seq<int>>, path: seq<Position>, steps: nat)
    requires forall k :: k in reverse ==> OnMap(m, reverse[k])
    requires EndsAfter(reverse, parent, steps)
    requires 1 <= |path| <= steps + 1 && Walked(reverse, parent, m, path) && HashKey(path[|path| - 1]) in reverse
    ensures |path| < steps + 1
    ensures OnMap(m, reverse[HashKey(path[|path| - 1])])
    ensures
      var next := reverse[HashKey(path[|path| - 1])];
      Walked(reverse, parent, m, path + [next.(cost := m[next.y][next.x])])
  {
    var n := |path|;
    assert HashKey(path[n - 1]) == HashKey(Back(reverse, parent, n - 1));
    var next := reverse[HashKey(path[n - 1])];
    var longer := path + [next.(cost := m[next.y][next.x])];
    assert Same(longer[n], Back(reverse, parent, n));
    forall i | 0 <= i < n
      ensures longer[i] == path[i]
    {
    }
  }

  lemma WalkedLinks(reverse: Parents, parent: Position, m: seq<seq<int>>, path: seq<Position>, steps: nat)
    requires EndsAfter(reverse, parent, steps) && |path| <= steps + 1
    requires Walked(reverse, parent, m, path)
    ensures forall i :: 0 <= i < |path| - 1 ==> HashKey(path[i]) in reverse && Same(path[i + 1], reverse[HashKey(path[i])])
  {
    forall i | 0 <= i < |path| - 1
      ensures HashKey(path[i]) in reverse && Same(path[i + 1], reverse[HashKey(path[i])])
    {
      assert HashKey(path[i]) == HashKey(Back(reverse, parent, i));
      assert Same(path[i + 1], Back(reverse, parent, i + 1));
    }
  }

  /** The search state: the open heap, the parent map and the best costs found, all keyed by cell. */
  datatype Search = Search(heap: seq<Position>, cameFrom: Parents, cost: map<(nat, nat), int>)

  /**
   * One neighbour's turn in `shortest`: the cost through current replaces
   * the neighbour's only when strictly lower (a missing cost counts as
   * `i32::MAX`); then current becomes its parent and the neighbour, its
   * cost raised by the estimate, joins the heap unless its cell is there.
   */
  function Relax(s: Search, current: Position, neighbor: Position, estimate: int): (r: Search)
    ensures r == s || (r.cameFrom == s.cameFrom[HashKey(neighbor) := current] && HashKey(neighbor) in r.cost
                       && r.cost == s.cost[HashKey(neighbor) := r.cost[HashKey(neighbor)]]
                       && (HashKey(neighbor) in s.cost ==> r.cost[HashKey(neighbor)] < s.cost[HashKey(neighbor)])
                       && exists i :: 0 <= i < |r.heap| && Same(neighbor, r.heap[i]))
    ensures r != s ==> HashKey(current) in s.cost || HashKey(neighbor) in s.cost
  {
    var tempCost := if HashKey(current) in s.cost then s.cost[HashKey(current)] + neighbor.cost else I32Max;
    var neighborCost := if HashKey(neighbor) in s.cost then s.cost[HashKey(neighbor)] else I32Max;
    if tempCost < neighborCost then
      var queued := neighbor.(cost := tempCost + estimate);
      var heap := if exists i :: 0 <= i < |s.heap| && Same(queued, s.heap[i]) then s.heap else s.heap + [queued];
      assert exists i :: 0 <= i < |heap| && Same(neighbor, heap[i]) by {
        if heap != s.heap {
          assert Same(neighbor, heap[|s.heap|]);
        }
      }
      Search(heap, s.cameFrom[HashKey(neighbor) := current], s.cost[HashKey(neighbor) := tempCost])
    else s
  }

  /** Relaxing the same neighbour from the same cell again changes nothing. */
  lemma RelaxIdempotent(s: Search, current: Position, neighbor: Position, estimate: int)
    requires !Same(current, neighbor)
    ensures Relax(Relax(s, current, neighbor, estimate), current, neighbor, estimate) == Relax(s, current, neighbor, estimate)
  {
    var r := Relax(s, current, neighbor, estimate);
    if r != s {
      assert HashKey(current) != HashKey(neighbor);
    }
  }
}
