/**
 * Smoke basin of 2021/day9/src/main.rs: a height map of digits, its low
 * points (lower than every neighbour, diagonals included) and the basin
 * that a depth-first search grows from a low point by climbing to
 * orthogonal neighbours that are not 9.
 */
module SmokeBasin {
  import Numbers
  import Sorting

  datatype Cell = Cell(x: nat, y: nat)

  datatype Fault =
    | EmptyMap       // no lines, or a first line without digits
    | OutOfRange     // `heights[0]` of no rows, or a row shorter than the first indexed past its end
    | FewBasins      // `basin_sizes[len - 3]` with fewer than three basins

  datatype Result<T> = Ok(value: T) | Err(fault: Fault)

  // The height map.

  /**
   * Rows indexed by x, columns by y, and every row at least as long as
   * the first: the source bounds the columns by the first row's length,
   * so every cell it reads exists and the cells past that width are never
   * read.
   */
  predicate Wide(h: seq<seq<int>>)
  {
    |h| > 0 && forall x :: 0 <= x < |h| ==> |h[0]| <= |h[x]|
  }

  /** A wide map with a non-empty first row: the maps the searches run on. */
  predicate Grid(h: seq<seq<int>>)
  {
    Wide(h) && |h[0]| > 0
  }

  /** The rows next to row x and row x itself are at least as long as the first: what one row's pass of `low_points` reads. */
  predicate Near(h: seq<seq<int>>, x: nat)
    requires |h| > 0
  {
    forall i :: 0 <= i < |h| && i <= x + 1 && x <= i + 1 ==> |h[0]| <= |h[i]|
  }

  predicate InBounds(h: seq<seq<int>>, c: Cell)
    requires |h| > 0
  {
    c.x < |h| && c.y < |h[0]|
  }

  function Height(h: seq<seq<int>>, c: Cell): int
    requires Grid(h) && InBounds(h, c)
  {
    h[c.x][c.y]
  }

  /**
   * One line of the map: `split("")` yields every character on its own,
   * and those that parse as an `i32` (the digits) are kept.
   */
  function Row(line: string): (r: seq<int>)
    ensures |r| <= |line|
    ensures forall i :: 0 <= i < |r| ==> 0 <= r[i] <= 9
  {
    if line == [] then []
    else (if Numbers.IsDigit(line[0]) then [line[0] as int - '0' as int] else []) + Row(line[1..])
  }

  /** A line of digits gives one height per character, its digit value. */
  lemma {:induction false} RowDigits(line: string)
    requires Numbers.AllDigits(line)
    ensures |Row(line)| == |line|
    ensures forall i :: 0 <= i < |line| ==> Row(line)[i] == line[i] as int - '0' as int
    decreases |line|
  {
    if line != [] {
      RowDigits(line[1..]);
      assert forall i :: 1 <= i < |line| ==> line[1..][i - 1] == line[i];
    }
  }

  function Rows(lines: seq<string>): (r: seq<seq<int>>)
    ensures |r| == |lines| && forall i :: 0 <= i < |lines| ==> r[i] == Row(lines[i])
  {
    if lines == [] then [] else Rows(lines[..|lines| - 1]) + [Row(lines[|lines| - 1])]
  }

  /** `parse_input` on the lines of the file: an empty map is the panic. */
  function ParseInput(lines: seq<string>): (r: Result<seq<seq<int>>>)
    ensures r.Err? <==> lines == [] || Row(lines[0]) == []
    ensures r.Ok? ==> r.value == Rows(lines) && |r.value| > 0 && |r.value[0]| > 0
  {
    var heights := Rows(lines);
    if |heights| == 0 || |heights[0]| == 0 then Err(EmptyMap) else Ok(heights)
  }

  // Low points.

  /** d is one of the eight cells around c. */
  predicate Around(c: Cell, d: Cell)
  {
    d != c && c.x <= d.x + 1 && d.x <= c.x + 1 && c.y <= d.y + 1 && d.y <= c.y + 1
  }

  /** c is lower than every cell around it that is on the map. */
  ghost predicate IsLow(h: seq<seq<int>>, c: Cell)
    requires Grid(h) && InBounds(h, c)
  {
    forall d :: InBounds(h, d) && Around(c, d) ==> Height(h, c) < Height(h, d)
  }

  /** The checks of the loop body of `low_points`, each failed one being a `continue`. */
  function LowAt(h: seq<seq<int>>, x: nat, y: nat): bool
    requires |h| > 0 && x < |h| && y < |h[0]| && Near(h, x)
  {
    var v, xMax, yMax := h[x][y], |h|, |h[0]|;
    && (x < xMax - 1 ==>
          && v < h[x + 1][y]
          && (y < yMax - 1 ==> v < h[x + 1][y + 1])
          && (y > 0 ==> v < h[x + 1][y - 1]))
    && (x > 0 ==>
          && v < h[x - 1][y]
          && (y > 0 ==> v < h[x - 1][y - 1])
          && (y < yMax - 1 ==> v < h[x - 1][y + 1]))
    && (y < yMax - 1 ==> v < h[x][y + 1])
    && (y > 0 ==> v < h[x][y - 1])
  }

  /** The checks of `low_points` pass exactly at the low points. */
  lemma LowAtIsLow(h: seq<seq<int>>, x: nat, y: nat)
    requires Grid(h) && x < |h| && y < |h[0]|
    ensures LowAt(h, x, y) <==> IsLow(h, Cell(x, y))
  {
    var c := Cell(x, y);
    if LowAt(h, x, y) {
      forall d | InBounds(h, d) && Around(c, d)
        ensures Height(h, c) < Height(h, d)
      {
        assert |h[0]| <= |h[d.x]|;
      }
    } else {
      var xMax, yMax := |h|, |h[0]|;
      if x < xMax - 1 {
        Witness(h, c, Cell(x + 1, y));
        if y < yMax - 1 { Witness(h, c, Cell(x + 1, y + 1)); }
        if y > 0 { Witness(h, c, Cell(x + 1, y - 1)); }
      }
      if x > 0 {
        Witness(h, c, Cell(x - 1, y));
        if y > 0 { Witness(h, c, Cell(x - 1, y - 1)); }
        if y < yMax - 1 { Witness(h, c, Cell(x - 1, y + 1)); }
      }
      if y < yMax - 1 { Witness(h, c, Cell(x, y + 1)); }
      if y > 0 { Witness(h, c, Cell(x, y - 1)); }
    }
  }

  lemma Witness(h: seq<seq<int>>, c: Cell, d: Cell)
    requires Grid(h) && InBounds(h, c) && InBounds(h, d) && Around(c, d)
    ensures IsLow(h, c) ==> Height(h, c) < Height(h, d)
  {
  }

  /** The cells (x, y) of a rows-by-cols rectangle that pass ok, in the order rows then columns. */
  function Scan(rows: nat, cols: nat, ok: (nat, nat) -> bool): seq<Cell>
  {
    if rows == 0 then [] else Scan(rows - 1, cols, ok) + ScanRow(rows - 1, cols, ok)
  }

  /** The cells of row x among its first y columns that pass ok, left to right. */
  function ScanRow(x: nat, y: nat, ok: (nat, nat) -> bool): seq<Cell>
  {
    if y == 0 then [] else ScanRow(x, y - 1, ok) + (if ok(x, y - 1) then [Cell(x, y - 1)] else [])
  }

  lemma {:induction false} ScanRowMember(x: nat, y: nat, ok: (nat, nat) -> bool, c: Cell)
    ensures c in ScanRow(x, y, ok) <==> c.x == x && c.y < y && ok(c.x, c.y)
    decreases y
  {
    if y > 0 {
      var prev := ScanRow(x, y - 1, ok);
      ScanRowMember(x, y - 1, ok, c);
      assert ScanRow(x, y, ok) == prev + (if ok(x, y - 1) then [Cell(x, y - 1)] else []);
    }
  }

  /** A cell is scanned exactly when it lies in the rectangle and passes ok. */
  lemma {:induction false} ScanMember(rows: nat, cols: nat, ok: (nat, nat) -> bool, c: Cell)
    ensures c in Scan(rows, cols, ok) <==> c.x < rows && c.y < cols && ok(c.x, c.y)
    decreases rows
  {
    if rows > 0 {
      var prev, row := Scan(rows - 1, cols, ok), ScanRow(rows - 1, cols, ok);
      ScanMember(rows - 1, cols, ok, c);
      ScanRowMember(rows - 1, cols, ok, c);
      assert Scan(rows, cols, ok) == prev + row;
      assert c in prev <==> c.x < rows - 1 && c.y < cols && ok(c.x, c.y);
      assert c in row <==> c.x == rows - 1 && c.y < cols && ok(c.x, c.y);
    }
  }

  /** The checks of `low_points` as a test on a cell of the map. */
  function Checks(h: seq<seq<int>>): (nat, nat) -> bool
  {
    (x: nat, y: nat) => |h| > 0 && x < |h| && y < |h[0]| && Near(h, x) && LowAt(h, x, y)
  }

  /**
   * `low_points`: the cells that pass every check, row by row and column
   * by column, within the first row's width. A map without rows panics on
   * `heights[0]`; a row shorter than the first is indexed past its end
   * while the row above it is checked (the pass of row x - 1 reads row x
   * in every column), which the model reports at the start of that pass.
   */
  method LowPoints(h: seq<seq<int>>) returns (r: Result<seq<Cell>>)
    ensures r.Err? <==> !Wide(h)
    ensures r.Err? ==> r.fault == OutOfRange
    ensures r.Ok? ==> r.value == Scan(|h|, |h[0]|, Checks(h))
    ensures r.Ok? ==> Wide(h) && forall i :: 0 <= i < |r.value| ==> InBounds(h, r.value[i])
  {
    if |h| == 0 {
      return Err(OutOfRange);
    }
    var lows := [];
    var xMax, yMax := |h|, |h[0]|;
    for x := 0 to xMax
      invariant lows == Scan(x, yMax, Checks(h))
      invariant forall i :: 0 <= i <= x && i < xMax ==> yMax <= |h[i]|
    {
      if x + 1 < xMax && |h[x + 1]| < yMax {
        return Err(OutOfRange);
      }
      for y := 0 to yMax
        invariant lows == Scan(x, yMax, Checks(h)) + ScanRow(x, y, Checks(h))
      {
        if LowAt(h, x, y) {
          lows := lows + [Cell(x, y)];
        }
      }
    }
    forall i | 0 <= i < |lows|
      ensures InBounds(h, lows[i])
    {
      ScanMember(xMax, yMax, Checks(h), lows[i]);
    }
    return Ok(lows);
  }

  /** The cells `low_points` returns are exactly the low points of the map. */
  lemma LowPointsExact(h: seq<seq<int>>)
    requires Grid(h)
    ensures forall c :: c in Scan(|h|, |h[0]|, Checks(h)) <==> InBounds(h, c) && IsLow(h, c)
  {
    forall c
      ensures c in Scan(|h|, |h[0]|, Checks(h)) <==> InBounds(h, c) && IsLow(h, c)
    {
      ScanMember(|h|, |h[0]|, Checks(h), c);
      if InBounds(h, c) {
        LowAtIsLow(h, c.x, c.y);
      }
    }
  }

  /** Two cells around each other are never both low points. */
  lemma LowStrict(h: seq<seq<int>>, c: Cell, d: Cell)
    requires Grid(h) && InBounds(h, c) && InBounds(h, d) && Around(c, d) && IsLow(h, c)
    ensures !IsLow(h, d)
  {
    assert Around(d, c);
  }

  // Basins.

  /** d is one of the four cells beside c. */
  predicate Beside(c: Cell, d: Cell)
  {
    (c.y == d.y && (d.x == c.x + 1 || c.x == d.x + 1)) || (c.x == d.x && (d.y == c.y + 1 || c.y == d.y + 1))
  }

  /** The search climbs from p to q: q is beside p on the map, at least as high, and not 9. */
  predicate Flows(h: seq<seq<int>>, p: Cell, q: Cell)
    requires Grid(h)
  {
    InBounds(h, p) && InBounds(h, q) && Beside(p, q) && Height(h, p) <= Height(h, q) && Height(h, q) != 9
  }

  /** s holds every cell the search climbs to from o or from a cell of s. */
  ghost predicate Closed(h: seq<seq<int>>, o: Cell, s: set<Cell>)
    requires Grid(h)
  {
    (forall q :: Flows(h, o, q) ==> q in s) && (forall p, q :: p in s && Flows(h, p, q) ==> q in s)
  }

  /** Each cell of order is climbed to from o (src -1) or from an earlier cell of order. */
  ghost predicate Supported(h: seq<seq<int>>, o: Cell, order: seq<Cell>, src: seq<int>)
    requires Grid(h)
  {
    && |src| == |order|
    && forall k :: 0 <= k < |order| ==>
         -1 <= src[k] < k && (if src[k] == -1 then Flows(h, o, order[k]) else Flows(h, order[src[k]], order[k]))
  }

  /** idx finds every cell of the basin in order, and order holds nothing else. */
  ghost predicate Indexed(order: seq<Cell>, idx: map<Cell, nat>, basin: set<Cell>)
  {
    && (forall c :: c in basin <==> c in idx)
    && (forall c :: c in idx ==> idx[c] < |order| && order[idx[c]] == c)
    && (forall k :: 0 <= k < |order| ==> order[k] in basin)
  }

  /** Every cell climbed to from a cell of order lies in any closed set. */
  lemma {:induction false} SupportedIn(h: seq<seq<int>>, o: Cell, order: seq<Cell>, src: seq<int>, s: set<Cell>, k: nat)
    requires Grid(h) && Supported(h, o, order, src) && Closed(h, o, s) && k < |order|
    ensures order[k] in s
    decreases k
  {
    if src[k] != -1 {
      SupportedIn(h, o, order, src, s, src[k]);
    }
  }

  /** Cells that are finished: o and the basin's cells no longer on the stack have all they climb to in the basin. */
  ghost predicate Done(h: seq<seq<int>>, o: Cell, stack: seq<Cell>, basin: set<Cell>, except: set<Cell>)
    requires Grid(h)
  {
    forall p, q :: (p == o || p in basin) && p !in stack && p !in except && Flows(h, p, q) ==> q in basin
  }

  /** All cells above a low point's height. */
  ghost predicate Above(h: seq<seq<int>>, o: Cell, basin: set<Cell>)
    requires Grid(h) && InBounds(h, o)
  {
    forall q :: q in basin ==> InBounds(h, q) && Height(h, o) < Height(h, q)
  }

  /**
   * What holds of the search state while the neighbours of p, popped from
   * stack0 with basin basin0, are considered: the stack holds cells of
   * the map that are o or in the basin, the basin has only grown and each
   * new cell is on the stack, and the ghost record of how each cell was
   * reached is kept.
   */
  ghost predicate Progress(h: seq<seq<int>>, o: Cell, p: Cell, stack0: seq<Cell>, basin0: set<Cell>,
                           stack: seq<Cell>, basin: set<Cell>, order: seq<Cell>, src: seq<int>, idx: map<Cell, nat>)
    requires Grid(h)
  {
    && InBounds(h, o) && InBounds(h, p) && (p == o || p in basin0)
    && (forall c :: c in stack ==> InBounds(h, c) && (c == o || c in basin))
    && basin <= Cells(h)
    && Supported(h, o, order, src) && Indexed(order, idx, basin)
    && (IsLow(h, o) ==> Above(h, o, basin))
    && basin0 <= basin
    && (forall c :: c in stack0 ==> c in stack)
    && (forall c :: c in basin && c !in basin0 ==> c in stack)
    && (basin == basin0 ==> stack == stack0)
  }

  /**
   * One guarded push of `basin_points`: when the search climbs from p to q
   * and q is new, q goes on the stack and into the basin.
   */
  method Consider(h: seq<seq<int>>, o: Cell, p: Cell, q: Cell, stack: seq<Cell>, basin: set<Cell>,
                  ghost stack0: seq<Cell>, ghost basin0: set<Cell>,
                  ghost order: seq<Cell>, ghost src: seq<int>, ghost idx: map<Cell, nat>)
    returns (stack': seq<Cell>, basin': set<Cell>, ghost order': seq<Cell>, ghost src': seq<int>, ghost idx': map<Cell, nat>)
    requires Grid(h) && InBounds(h, q) && Beside(p, q)
    requires Progress(h, o, p, stack0, basin0, stack, basin, order, src, idx)
    ensures Flows(h, p, q) && q !in basin ==> stack' == stack + [q] && basin' == basin + {q}
    ensures !(Flows(h, p, q) && q !in basin) ==> stack' == stack && basin' == basin
    ensures Flows(h, p, q) ==> q in basin'
    ensures basin <= basin'
    ensures Progress(h, o, p, stack0, basin0, stack', basin', order', src', idx')
  {
    stack', basin', order', src', idx' := stack, basin, order, src, idx;
    if Height(h, p) <= Height(h, q) {
      if Height(h, q) != 9 && q !in basin {
        stack' := stack + [q];
        basin' := basin + {q};
        src' := src + [if p in basin then idx[p] as int else -1];
        order' := order + [q];
        idx' := idx[q := |order|];
        if IsLow(h, o) && p == o {
          assert Around(o, q);
        }
        assert q in Cells(h) by {
          assert q == Cell(q.x, q.y);
        }
      }
    }
  }

  /** The cells of the map. */
  function Cells(h: seq<seq<int>>): set<Cell>
    requires Grid(h)
  {
    set x, y | 0 <= x < |h| && 0 <= y < |h[0]| :: Cell(x, y)
  }

  /** The first two guarded pushes of `basin_points`: the cells below and above p. */
  method AcrossRows(h: seq<seq<int>>, o: Cell, p: Cell, stack: seq<Cell>, basin: set<Cell>,
                    ghost stack0: seq<Cell>, ghost basin0: set<Cell>,
                    ghost order: seq<Cell>, ghost src: seq<int>, ghost idx: map<Cell, nat>)
    returns (stack': seq<Cell>, basin': set<Cell>, ghost order': seq<Cell>, ghost src': seq<int>, ghost idx': map<Cell, nat>)
    requires Grid(h) && Progress(h, o, p, stack0, basin0, stack, basin, order, src, idx)
    ensures Progress(h, o, p, stack0, basin0, stack', basin', order', src', idx')
    ensures basin <= basin'
    ensures p.x < |h| - 1 ==> (Flows(h, p, Cell(p.x + 1, p.y)) ==> Cell(p.x + 1, p.y) in basin')
    ensures p.x > 0 ==> (Flows(h, p, Cell(p.x - 1, p.y)) ==> Cell(p.x - 1, p.y) in basin')
  {
    stack', basin', order', src', idx' := stack, basin, order, src, idx;
    var x, y := p.x, p.y;
    if x < |h| - 1 {
      stack', basin', order', src', idx' := Consider(h, o, p, Cell(x + 1, y), stack', basin', stack0, basin0, order', src', idx');
    }
    ghost var basin1 := basin';
    if x > 0 {
      stack', basin', order', src', idx' := Consider(h, o, p, Cell(x - 1, y), stack', basin', stack0, basin0, order', src', idx');
    }
    assert basin1 <= basin';
  }

  /** The last two guarded pushes of `basin_points`: the cells right and left of p. */
  method AlongRow(h: seq<seq<int>>, o: Cell, p: Cell, stack: seq<Cell>, basin: set<Cell>,
                    ghost stack0: seq<Cell>, ghost basin0: set<Cell>,
                    ghost order: seq<Cell>, ghost src: seq<int>, ghost idx: map<Cell, nat>)
    returns (stack': seq<Cell>, basin': set<Cell>, ghost order': seq<Cell>, ghost src': seq<int>, ghost idx': map<Cell, nat>)
    requires Grid(h) && Progress(h, o, p, stack0, basin0, stack, basin, order, src, idx)
    ensures Progress(h, o, p, stack0, basin0, stack', basin', order', src', idx')
    ensures basin <= basin'
    ensures p.y < |h[0]| - 1 ==> (Flows(h, p, Cell(p.x, p.y + 1)) ==> Cell(p.x, p.y + 1) in basin')
    ensures p.y > 0 ==> (Flows(h, p, Cell(p.x, p.y - 1)) ==> Cell(p.x, p.y - 1) in basin')
  {
    stack', basin', order', src', idx' := stack, basin, order, src, idx;
    var x, y := p.x, p.y;
    if y < |h[0]| - 1 {
      stack', basin', order', src', idx' := Consider(h, o, p, Cell(x, y + 1), stack', basin', stack0, basin0, order', src', idx');
    }
    ghost var basin1 := basin';
    if y > 0 {
      stack', basin', order', src', idx' := Consider(h, o, p, Cell(x, y - 1), stack', basin', stack0, basin0, order', src', idx');
    }
    assert basin1 <= basin';
  }

  /** The state of the search between two pops. */
  ghost predicate Search(h: seq<seq<int>>, o: Cell, stack: seq<Cell>, basin: set<Cell>,
                         order: seq<Cell>, src: seq<int>, idx: map<Cell, nat>)
    requires Grid(h)
  {
    && InBounds(h, o)
    && (forall c :: c in stack ==> InBounds(h, c) && (c == o || c in basin))
    && basin <= Cells(h)
    && Supported(h, o, order, src) && Indexed(order, idx, basin)
    && Done(h, o, stack, basin, {})
    && (IsLow(h, o) ==> Above(h, o, basin))
  }

  /**
   * One turn of the loop of `basin_points`: pop a cell and consider its
   * four neighbours. Either the basin grows or the stack shrinks.
   */
  method Visit(h: seq<seq<int>>, o: Cell, stack: seq<Cell>, basin: set<Cell>,
               ghost order: seq<Cell>, ghost src: seq<int>, ghost idx: map<Cell, nat>)
    returns (stack': seq<Cell>, basin': set<Cell>, ghost order': seq<Cell>, ghost src': seq<int>, ghost idx': map<Cell, nat>)
    requires Grid(h) && |stack| > 0 && Search(h, o, stack, basin, order, src, idx)
    ensures Search(h, o, stack', basin', order', src', idx')
    ensures basin <= basin'
    ensures basin' == basin ==> |stack'| < |stack|
    ensures basin' != basin ==> Cells(h) - basin' < Cells(h) - basin
  {
    stack', basin', order', src', idx' := stack, basin, order, src, idx;
    var p := stack[|stack| - 1];
    stack' := stack[..|stack| - 1];
    ghost var stack0, basin0 := stack', basin';
    DonePop(h, o, stack, stack', basin, p);
    assert Progress(h, o, p, stack0, basin0, stack', basin', order', src', idx');
    stack', basin', order', src', idx' := AcrossRows(h, o, p, stack', basin', stack0, basin0, order', src', idx');
    ghost var basin1 := basin';
    stack', basin', order', src', idx' := AlongRow(h, o, p, stack', basin', stack0, basin0, order', src', idx');
    if basin' != basin0 {
      var q :| q in basin' && q !in basin0;
      assert q in Cells(h) - basin0;
    }
    DoneGrow(h, o, stack0, basin0, stack', basin', p);
  }

  /**
   * `basin_points`: a depth-first search from o that climbs to every
   * neighbour it can reach. The basin is the least set closed under
   * climbing from o; its cells are on the map and not 9; from a low point
   * every basin cell is higher than the low point, so the low point itself
   * is never in its basin (hence the `+ 1` of `main`).
   */
  method BasinPoints(h: seq<seq<int>>, o: Cell) returns (basin: set<Cell>)
    requires Grid(h) && InBounds(h, o)
    ensures forall q :: q in basin ==> InBounds(h, q) && Height(h, q) != 9
    ensures Closed(h, o, basin)
    ensures forall s :: Closed(h, o, s) ==> basin <= s
    ensures IsLow(h, o) ==> Above(h, o, basin) && o !in basin
    ensures basin == Basin(h, o)
  {
    var stack := [o];
    basin := {};
    ghost var order: seq<Cell> := [];
    ghost var src: seq<int> := [];
    ghost var idx: map<Cell, nat> := map[];
    while |stack| > 0
      invariant Search(h, o, stack, basin, order, src, idx)
      decreases Cells(h) - basin, |stack|
    {
      stack, basin, order, src, idx := Visit(h, o, stack, basin, order, src, idx);
    }
    forall c | c in basin
      ensures InBounds(h, c) && Height(h, c) != 9
    {
      var k := idx[c];
      assert order[k] == c;
      if src[k] == -1 {
        assert Flows(h, o, order[k]);
      } else {
        assert Flows(h, order[src[k]], order[k]);
      }
    }
    forall s | Closed(h, o, s)
      ensures basin <= s
    {
      forall c | c in basin
        ensures c in s
      {
        SupportedIn(h, o, order, src, s, idx[c]);
      }
    }
    if IsLow(h, o) {
      assert o !in basin;
    }
    BasinLeast(h, o, basin);
  }

  /** The least set closed under climbing from o: what the search should find. */
  ghost function Basin(h: seq<seq<int>>, o: Cell): set<Cell>
    requires Grid(h)
  {
    set q | q in Cells(h) && forall s :: Closed(h, o, s) ==> q in s
  }

  lemma BasinLeast(h: seq<seq<int>>, o: Cell, basin: set<Cell>)
    requires Grid(h) && basin <= Cells(h) && Closed(h, o, basin)
    requires forall s :: Closed(h, o, s) ==> basin <= s
    ensures basin == Basin(h, o)
  {
  }

  /** Popping p leaves every other cell as finished as before. */
  lemma DonePop(h: seq<seq<int>>, o: Cell, stack0: seq<Cell>, stack: seq<Cell>, basin: set<Cell>, p: Cell)
    requires Grid(h) && stack0 == stack + [p]
    requires Done(h, o, stack0, basin, {})
    ensures Done(h, o, stack, basin, {p})
  {
    forall c | c in stack0 && c != p
      ensures c in stack
    {
      var i :| 0 <= i < |stack0| && stack0[i] == c;
      assert i < |stack|;
    }
  }

  /** The search climbs only to the cells beside p, which the four guards of `basin_points` enumerate. */
  lemma FlowsBeside(h: seq<seq<int>>, p: Cell)
    requires Grid(h) && InBounds(h, p)
    ensures forall q :: Flows(h, p, q) ==>
      || (p.x < |h| - 1 && q == Cell(p.x + 1, p.y))
      || (p.x > 0 && q == Cell(p.x - 1, p.y))
      || (p.y < |h[0]| - 1 && q == Cell(p.x, p.y + 1))
      || (p.y > 0 && q == Cell(p.x, p.y - 1))
  {
  }

  /** Once p's four neighbours are considered, p is finished too. */
  lemma DoneGrow(h: seq<seq<int>>, o: Cell, stack0: seq<Cell>, basin0: set<Cell>, stack: seq<Cell>, basin: set<Cell>, p: Cell)
    requires Grid(h) && InBounds(h, p)
    requires Done(h, o, stack0, basin0, {p})
    requires basin0 <= basin
    requires forall c :: c in stack0 ==> c in stack
    requires p.x < |h| - 1 ==> (Flows(h, p, Cell(p.x + 1, p.y)) ==> Cell(p.x + 1, p.y) in basin)
    requires p.x > 0 ==> (Flows(h, p, Cell(p.x - 1, p.y)) ==> Cell(p.x - 1, p.y) in basin)
    requires p.y < |h[0]| - 1 ==> (Flows(h, p, Cell(p.x, p.y + 1)) ==> Cell(p.x, p.y + 1) in basin)
    requires p.y > 0 ==> (Flows(h, p, Cell(p.x, p.y - 1)) ==> Cell(p.x, p.y - 1) in basin)
    requires forall c :: c in basin && c !in basin0 ==> c in stack
    ensures Done(h, o, stack, basin, {})
  {
    FlowsBeside(h, p);
  }

  // The answers of `main`.

  /** Part one: the risk level, each low point's height plus one. */
  function Risk(h: seq<seq<int>>, lows: seq<Cell>): int
    requires Grid(h) && forall c :: c in lows ==> InBounds(h, c)
  {
    if lows == [] then 0 else Risk(h, lows[..|lows| - 1]) + Height(h, lows[|lows| - 1]) + 1
  }

  /** Heights are digits, so a low point's risk is between 1 and 10. */
  lemma {:induction false} RiskBounds(h: seq<seq<int>>, lows: seq<Cell>)
    requires Grid(h) && forall c :: c in lows ==> InBounds(h, c) && 0 <= Height(h, c) <= 9
    ensures |lows| <= Risk(h, lows) <= 10 * |lows|
    decreases |lows|
  {
    if lows != [] {
      RiskBounds(h, lows[..|lows| - 1]);
      assert lows[|lows| - 1] in lows;
    }
  }

  /** The basin sizes of `main`, each counting its low point. */
  ghost function Sizes(h: seq<seq<int>>, lows: seq<Cell>): seq<int>
    requires Grid(h)
  {
    seq(|lows|, k requires 0 <= k < |lows| => |Basin(h, lows[k])| + 1)
  }

  /** `basin_points(..).len() + 1`: the basin's cells and the low point. */
  method BasinSize(h: seq<seq<int>>, o: Cell) returns (size: int)
    requires Grid(h) && InBounds(h, o)
    ensures size == |Basin(h, o)| + 1
  {
    var basin := BasinPoints(h, o);
    size := |basin| + 1;
  }

  /** The product of the last three entries. */
  function TopThree(t: seq<int>): int
    requires |t| >= 3
  {
    t[|t| - 1] * t[|t| - 2] * t[|t| - 3]
  }

  /**
   * Part two: the basin sizes in ascending order and the product of the
   * last three; with fewer than three low points the `len - 3` panics.
   */
  method LargestBasins(h: seq<seq<int>>) returns (r: Result<int>)
    ensures !Wide(h) ==> r == Err(OutOfRange)
    ensures Wide(h) ==> (r.Err? <==> |Scan(|h|, |h[0]|, Checks(h))| < 3)
    ensures r.Ok? ==> Grid(h) && r.value == TopThree(Sorting.Sort(Sizes(h, Scan(|h|, |h[0]|, Checks(h)))))
  {
    var found := LowPoints(h);
    if found.Err? {
      return Err(found.fault);
    }
    var lows := found.value;
    var sizes := [];
    for i := 0 to |lows|
      invariant |sizes| == i && forall k :: 0 <= k < i ==> sizes[k] == |Basin(h, lows[k])| + 1
    {
      var size := BasinSize(h, lows[i]);
      sizes := sizes + [size];
    }
    var sorted := Sorting.Sort(sizes);
    var len := |sorted|;
    if len < 3 {
      return Err(FewBasins);
    }
    assert Grid(h) && InBounds(h, lows[0]);
    assert sizes == Sizes(h, lows);
    r := Ok(sorted[len - 1] * sorted[len - 2] * sorted[len - 3]);
  }

  /** TopThree of an ascending sequence of non-negative entries is the largest product of three of its entries. */
  lemma TopThreeLargest(t: seq<int>, i: nat, j: nat, k: nat)
    requires Sorting.Ascending(t) && forall v :: v in t ==> v >= 0
    requires i < j < k < |t|
    ensures t[k] * t[j] * t[i] <= TopThree(t)
  {
    var n := |t|;
    assert t[i] in t;
    assert 0 <= t[i] <= t[n - 3] && 0 <= t[j] <= t[n - 2] && 0 <= t[k] <= t[n - 1];
    MulMono(t[k], t[n - 1], t[j], t[n - 2]);
    MulMono(t[k] * t[j], t[n - 1] * t[n - 2], t[i], t[n - 3]);
  }

  lemma MulMono(a: int, b: int, c: int, d: int)
    requires 0 <= a <= b && 0 <= c <= d
    ensures 0 <= a * c <= b * d
  {
    assert a * c <= b * c;
    assert b * c <= b * d;
  }

  /** Basin sizes are positive, so TopThree of the sorted sizes is the largest product of three of them. */
  lemma SizesPositive(h: seq<seq<int>>, lows: seq<Cell>)
    requires Grid(h)
    ensures forall v :: v in Sorting.Sort(Sizes(h, lows)) ==> v >= 1
  {
    var s := Sizes(h, lows);
    forall v | v in Sorting.Sort(s)
      ensures v >= 1
    {
      assert v in multiset(Sorting.Sort(s));
      assert v in multiset(s);
    }
  }
}
