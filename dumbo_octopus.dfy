/**
 * Dumbo octopuses of archive/2021/day11/src/main.rs: a grid of energy
 * levels.  A step raises every level by one, a level reaching exactly 10
 * flashes and raises its in-bounds neighbours in turn, and afterwards every
 * level above 9 drops to 0.  The grid is a rectangular `array2<int>`, which
 * the source's `&mut Vec<Vec<i32>>` becomes; the functions below describe
 * the same computation on a snapshot of its levels.
 */
module DumboOctopus {

  type Cell = (int, int)

  /** The cells of a rows × cols grid. */
  function Cells(rows: nat, cols: nat): set<Cell>
  {
    set i, j | 0 <= i < rows && 0 <= j < cols :: (i, j)
  }

  /** Distinct cells at most one row and one column apart. */
  predicate Adjacent(a: Cell, b: Cell)
  {
    a != b && -1 <= a.0 - b.0 <= 1 && -1 <= a.1 - b.1 <= 1
  }

  /** The in-bounds neighbours of a cell. */
  function Neighbours(rows: nat, cols: nat, c: Cell): set<Cell>
  {
    set p | p in Cells(rows, cols) && Adjacent(c, p)
  }

  /** The cells whose level is below 10, the ones that may still flash. */
  function Low(m: map<Cell, int>): set<Cell>
  {
    set k | k in m && m[k] < 10
  }

  /** No level went down and the cells are the same. */
  predicate Grew(m: map<Cell, int>, r: map<Cell, int>)
  {
    r.Keys == m.Keys && forall k :: k in m ==> r[k] >= m[k]
  }

  lemma GrewLow(m: map<Cell, int>, r: map<Cell, int>)
    requires Grew(m, r)
    ensures Low(r) <= Low(m)
  {
  }

  lemma Chain(a: set<Cell>, b: set<Cell>, c: set<Cell>)
    requires c <= b <= a
    ensures |a - c| == |a - b| + |b - c|
  {
    assert a - c == (a - b) + (b - c);
  }

  /**
   * The in-bounds neighbours in the order `flash_dumbos` raises them: the row
   * above (middle, left, right), the row below (middle, right, left), then
   * left and right.
   */
  function Around(rows: nat, cols: nat, c: Cell): seq<Cell>
  {
    Above(rows, cols, c) + Below(rows, cols, c) + Beside(rows, cols, c)
  }

  /** The list around a cell of the grid stays inside the grid. */
  lemma AroundInside(rows: nat, cols: nat, c: Cell)
    requires c in Cells(rows, cols)
    ensures |Around(rows, cols, c)| <= 8
    ensures forall k :: k in Around(rows, cols, c) ==> k in Cells(rows, cols)
  {
  }

  /** The first block of `flash_dumbos`: the row above, if any. */
  function Above(rows: nat, cols: nat, c: Cell): seq<Cell>
  {
    var (x, y) := c;
    if x > 0 then
      [(x - 1, y)] + (if y > 0 then [(x - 1, y - 1)] else []) + (if y < cols - 1 then [(x - 1, y + 1)] else [])
    else []
  }

  /** The second block: the row below, if any. */
  function Below(rows: nat, cols: nat, c: Cell): seq<Cell>
  {
    var (x, y) := c;
    if x < rows - 1 then
      [(x + 1, y)] + (if y < cols - 1 then [(x + 1, y + 1)] else []) + (if y > 0 then [(x + 1, y - 1)] else [])
    else []
  }

  /** The last two blocks: left and right in the same row. */
  function Beside(rows: nat, cols: nat, c: Cell): seq<Cell>
  {
    var (x, y) := c;
    (if y > 0 then [(x, y - 1)] else []) + (if y < cols - 1 then [(x, y + 1)] else [])
  }

  /** The neighbour lists of a rows × cols grid, as a function of the cell. */
  function Nbrs(rows: nat, cols: nat): Cell -> seq<Cell>
  {
    c => Around(rows, cols, c)
  }

  /** Every neighbour of a cell of m is a cell of m. */
  ghost predicate Closed(m: map<Cell, int>, nb: Cell -> seq<Cell>)
  {
    forall c, k :: c in m && k in nb(c) ==> k in m
  }

  lemma NbrsClosed(m: map<Cell, int>, rows: nat, cols: nat)
    requires m.Keys == Cells(rows, cols)
    ensures Closed(m, Nbrs(rows, cols))
  {
    forall c, k | c in m && k in Nbrs(rows, cols)(c)
      ensures k in m
    {
      AroundInside(rows, cols, c);
    }
  }

  /**
   * The cells still to be touched, first one first: touching a cell raises
   * its level, and when the level reaches exactly 10 the cell flashes and its
   * neighbours nb(c) are touched before the rest.  With nb = Nbrs(rows, cols)
   * this is the depth-first order of the recursion in `flash_dumbos`, kept on
   * a list.  A cell outside the grid is passed over; none is ever listed.
   */
  function Cascade(m: map<Cell, int>, nb: Cell -> seq<Cell>, pending: seq<Cell>): (r: (map<Cell, int>, nat))
    ensures r.0.Keys == m.Keys
    decreases Low(m), |pending|
  {
    if |pending| == 0 then (m, 0)
    else if pending[0] !in m then Cascade(m, nb, pending[1..])
    else
      var c := pending[0];
      var raised := m[c := m[c] + 1];
      LowBump(m, c);
      if raised[c] == 10 then
        var t := Cascade(raised, nb, nb(c) + pending[1..]);
        (t.0, 1 + t.1)
      else
        Cascade(raised, nb, pending[1..])
  }

  /** What touching the first pending cell leaves pending. */
  function Next(m: map<Cell, int>, nb: Cell -> seq<Cell>, pending: seq<Cell>): seq<Cell>
    requires pending != [] && pending[0] in m
  {
    var c := pending[0];
    if m[c] == 9 then nb(c) + pending[1..] else pending[1..]
  }

  /** One unfolding of Cascade, with one flash counted when the first cell reaches 10. */
  lemma CascadeFirst(m: map<Cell, int>, nb: Cell -> seq<Cell>, pending: seq<Cell>)
    requires pending != [] && pending[0] in m
    ensures var c := pending[0];
            var t := Cascade(m[c := m[c] + 1], nb, Next(m, nb, pending));
            Cascade(m, nb, pending) == (t.0, (if m[c] == 9 then 1 else 0) + t.1)
  {
  }

  /** A cell touched on its own: it flashes, and its neighbours follow, exactly when it was at 9. */
  lemma CascadeOne(m: map<Cell, int>, nb: Cell -> seq<Cell>, c: Cell)
    requires c in m
    ensures m[c] == 9 ==> Cascade(m, nb, [c]).0 == Cascade(m[c := 10], nb, nb(c)).0
    ensures m[c] == 9 ==> Cascade(m, nb, [c]).1 == 1 + Cascade(m[c := 10], nb, nb(c)).1
    ensures m[c] != 9 ==> Cascade(m, nb, [c]) == (m[c := m[c] + 1], 0)
  {
    CascadeFirst(m, nb, [c]);
    assert [c][1..] == [];
    assert nb(c) + [] == nb(c);
  }

  /**
   * Levels only rise, the cells below 10 only leave Low, and the flashes
   * counted are exactly the cells that left Low: each cell flashes at most once.
   */
  lemma {:induction false} CascadeGrows(m: map<Cell, int>, nb: Cell -> seq<Cell>, pending: seq<Cell>)
    ensures var r := Cascade(m, nb, pending);
            Grew(m, r.0) && Low(r.0) <= Low(m) && r.1 == |Low(m) - Low(r.0)|
    decreases Low(m), |pending|
  {
    if pending != [] && pending[0] !in m {
      CascadeGrows(m, nb, pending[1..]);
    } else if pending != [] {
      var c := pending[0];
      var raised := m[c := m[c] + 1];
      LowBump(m, c);
      BumpGrew(m, c);
      var rest := Next(m, nb, pending);
      CascadeFirst(m, nb, pending);
      CascadeGrows(raised, nb, rest);
      var t := Cascade(raised, nb, rest);
      GrewTrans(m, raised, t.0);
      Chain(Low(m), Low(raised), Low(t.0));
    }
  }

  /** Touching the cells of a, then those of b, is touching the cells of a + b. */
  lemma {:induction false} CascadeAppend(m: map<Cell, int>, nb: Cell -> seq<Cell>, a: seq<Cell>, b: seq<Cell>)
    ensures Appends(m, nb, a, b)
    decreases Low(m), |a|
  {
    if a == [] {
      assert a + b == b;
    } else if a[0] !in m {
      CascadeAppend(m, nb, a[1..], b);
      AppendSkip(m, nb, a, b);
    } else {
      var c := a[0];
      LowBump(m, c);
      CascadeAppend(m[c := m[c] + 1], nb, Next(m, nb, a), b);
      AppendStep(m, nb, a, b);
    }
  }

  ghost predicate Appends(m: map<Cell, int>, nb: Cell -> seq<Cell>, a: seq<Cell>, b: seq<Cell>)
  {
    var t := Cascade(m, nb, a);
    var u := Cascade(t.0, nb, b);
    Cascade(m, nb, a + b) == (u.0, t.1 + u.1)
  }

  lemma AppendSkip(m: map<Cell, int>, nb: Cell -> seq<Cell>, a: seq<Cell>, b: seq<Cell>)
    requires a != [] && a[0] !in m && Appends(m, nb, a[1..], b)
    ensures Appends(m, nb, a, b)
  {
    assert (a + b)[0] == a[0] && (a + b)[1..] == a[1..] + b;
  }

  lemma AppendStep(m: map<Cell, int>, nb: Cell -> seq<Cell>, a: seq<Cell>, b: seq<Cell>)
    requires a != [] && a[0] in m && Appends(m[a[0] := m[a[0]] + 1], nb, Next(m, nb, a), b)
    ensures Appends(m, nb, a, b)
  {
    NextAppend(m, nb, a, b);
    CascadeFirst(m, nb, a);
    CascadeFirst(m, nb, a + b);
  }

  /** Work appended after the pending cells stays at the end of what is left pending. */
  lemma NextAppend(m: map<Cell, int>, nb: Cell -> seq<Cell>, a: seq<Cell>, b: seq<Cell>)
    requires a != [] && a[0] in m
    ensures (a + b)[0] == a[0] && Next(m, nb, a + b) == Next(m, nb, a) + b
  {
    assert (a + b)[1..] == a[1..] + b;
    assert nb(a[0]) + (a[1..] + b) == nb(a[0]) + a[1..] + b;
  }

  /** Every pending cell of m ends at least one level higher. */
  lemma {:induction false} CascadeRaises(m: map<Cell, int>, nb: Cell -> seq<Cell>, pending: seq<Cell>)
    ensures forall k :: k in pending && k in m ==> Cascade(m, nb, pending).0[k] >= m[k] + 1
    decreases Low(m), |pending|
  {
    if pending != [] && pending[0] !in m {
      CascadeRaises(m, nb, pending[1..]);
      forall k | k in pending && k in m
        ensures Cascade(m, nb, pending).0[k] >= m[k] + 1
      {
        assert k in pending[1..];
      }
    } else if pending != [] {
      var c := pending[0];
      var raised := m[c := m[c] + 1];
      LowBump(m, c);
      var rest := Next(m, nb, pending);
      CascadeFirst(m, nb, pending);
      CascadeRaises(raised, nb, rest);
      CascadeGrows(raised, nb, rest);
      var r := Cascade(m, nb, pending).0;
      assert r == Cascade(raised, nb, rest).0;
      forall k | k in pending && k in m
        ensures r[k] >= m[k] + 1
      {
        if k != c {
          assert k in pending[1..];
          assert k in rest;
        }
      }
    }
  }

  /** Raising one level moves its cell out of Low exactly when it goes from 9 to 10. */
  lemma LowBump(m: map<Cell, int>, c: Cell)
    requires c in m
    ensures Low(m[c := m[c] + 1]) == if m[c] == 9 then Low(m) - {c} else Low(m)
  {
  }

  lemma BumpGrew(m: map<Cell, int>, c: Cell)
    requires c in m
    ensures Grew(m, m[c := m[c] + 1])
  {
  }

  lemma GrewTrans(a: map<Cell, int>, b: map<Cell, int>, c: map<Cell, int>)
    requires Grew(a, b) && Grew(b, c)
    ensures Grew(a, c) && Low(c) <= Low(b) <= Low(a)
  {
  }

  /** The list around a cell holds exactly its in-bounds neighbours. */
  lemma AroundNeighbours(rows: nat, cols: nat, c: Cell)
    requires c in Cells(rows, cols)
    ensures forall k :: k in Around(rows, cols, c) <==> k in Neighbours(rows, cols, c)
  {
    forall k | k in Around(rows, cols, c)
      ensures k in Neighbours(rows, cols, c)
    {
      assert k in Cells(rows, cols);
    }
    forall k | k in Neighbours(rows, cols, c)
      ensures k in Around(rows, cols, c)
    {
      AroundHolds(rows, cols, c, k);
    }
  }

  lemma AroundHolds(rows: nat, cols: nat, c: Cell, k: Cell)
    requires c in Cells(rows, cols) && k in Neighbours(rows, cols, c)
    ensures k in Around(rows, cols, c)
  {
    var (x, y) := c;
    var above, below, beside := Above(rows, cols, c), Below(rows, cols, c), Beside(rows, cols, c);
    if k.0 == x - 1 {
      assert k in above;
    } else if k.0 == x + 1 {
      assert k in below;
    } else {
      assert k in beside;
    }
  }

  /** No neighbour is listed twice. */
  /** No cell occurs twice in s. */
  predicate NoRepeats(s: seq<Cell>)
  {
    forall i, j :: 0 <= i < j < |s| ==> s[i] != s[j]
  }

  /** Two lists without repeats and without a common cell make one without repeats. */
  lemma NoRepeatsAppend(a: seq<Cell>, b: seq<Cell>)
    requires NoRepeats(a) && NoRepeats(b)
    requires forall k :: k in a ==> k !in b
    ensures NoRepeats(a + b)
  {
    forall i, j | 0 <= i < j < |a + b|
      ensures (a + b)[i] != (a + b)[j]
    {
      if j < |a| {
        assert (a + b)[i] == a[i] && (a + b)[j] == a[j];
      } else if i >= |a| {
        assert (a + b)[i] == b[i - |a|] && (a + b)[j] == b[j - |a|];
      } else {
        assert (a + b)[i] == a[i] && a[i] in a && (a + b)[j] == b[j - |a|];
      }
    }
  }

  /** The cells of one block of `flash_dumbos` lie in row `x` and have no repeats. */
  predicate InRow(s: seq<Cell>, x: int)
  {
    NoRepeats(s) && forall k :: k in s ==> k.0 == x
  }

  lemma AboveInRow(rows: nat, cols: nat, c: Cell)
    ensures InRow(Above(rows, cols, c), c.0 - 1)
  {
    var (x, y) := c;
    if x > 0 {
      var left: seq<Cell> := if y > 0 then [(x - 1, y - 1)] else [];
      var right: seq<Cell> := if y < cols - 1 then [(x - 1, y + 1)] else [];
      assert Above(rows, cols, c) == [(x - 1, y)] + left + right;
      NoRepeatsAppend([(x - 1, y)], left);
      NoRepeatsAppend([(x - 1, y)] + left, right);
    }
  }

  lemma BelowInRow(rows: nat, cols: nat, c: Cell)
    ensures InRow(Below(rows, cols, c), c.0 + 1)
  {
    var (x, y) := c;
    if x < rows - 1 {
      var right: seq<Cell> := if y < cols - 1 then [(x + 1, y + 1)] else [];
      var left: seq<Cell> := if y > 0 then [(x + 1, y - 1)] else [];
      assert Below(rows, cols, c) == [(x + 1, y)] + right + left;
      NoRepeatsAppend([(x + 1, y)], right);
      NoRepeatsAppend([(x + 1, y)] + right, left);
    }
  }

  lemma BesideInRow(rows: nat, cols: nat, c: Cell)
    ensures InRow(Beside(rows, cols, c), c.0)
  {
    var (x, y) := c;
    var left: seq<Cell> := if y > 0 then [(x, y - 1)] else [];
    var right: seq<Cell> := if y < cols - 1 then [(x, y + 1)] else [];
    assert Beside(rows, cols, c) == left + right;
    NoRepeatsAppend(left, right);
  }

  /** Each neighbour is touched once per flash: the three blocks lie in different rows. */
  lemma AroundDistinct(rows: nat, cols: nat, c: Cell)
    ensures NoRepeats(Around(rows, cols, c))
  {
    var above, below, beside := Above(rows, cols, c), Below(rows, cols, c), Beside(rows, cols, c);
    AboveInRow(rows, cols, c);
    BelowInRow(rows, cols, c);
    BesideInRow(rows, cols, c);
    NoRepeatsAppend(above, below);
    NoRepeatsAppend(above + below, beside);
  }

  // ---------------------------------------------------------------------
  // A whole step

  /** The cells of the first `rows` rows, row by row, as `simulate_flashes` visits them. */
  function Order(rows: nat, cols: nat): (r: seq<Cell>)
    ensures forall i :: 0 <= i < |r| ==> 0 <= r[i].0 < rows && 0 <= r[i].1 < cols
  {
    if rows == 0 then [] else Order(rows - 1, cols) + Row(rows - 1, cols)
  }

  /** The first n cells of row x. */
  function Row(x: nat, n: nat): (r: seq<Cell>)
    ensures forall i :: 0 <= i < |r| ==> r[i].0 == x && 0 <= r[i].1 < n
  {
    if n == 0 then [] else Row(x, n - 1) + [(x, n - 1)]
  }

  lemma {:induction false} RowHolds(x: nat, n: nat, k: Cell)
    requires k.0 == x && 0 <= k.1 < n
    ensures k in Row(x, n)
    decreases n
  {
    if k.1 < n - 1 {
      RowHolds(x, n - 1, k);
    }
  }

  /** Every cell of the grid is visited. */
  lemma {:induction false} OrderHolds(rows: nat, cols: nat, k: Cell)
    requires k in Cells(rows, cols)
    ensures k in Order(rows, cols)
    decreases rows
  {
    if k.0 < rows - 1 {
      OrderHolds(rows - 1, cols, k);
    } else {
      RowHolds(rows - 1, cols, k);
    }
  }

  /** The levels above 9 drop to 0. */
  function Reset(m: map<Cell, int>): (r: map<Cell, int>)
    ensures r.Keys == m.Keys
  {
    map k | k in m :: if m[k] > 9 then 0 else m[k]
  }

  /** Every level raised and flashed in row order: the grid before the reset, and the flashes. */
  function Raised(m: map<Cell, int>, rows: nat, cols: nat): (r: (map<Cell, int>, nat))
  {
    Cascade(m, Nbrs(rows, cols), Order(rows, cols))
  }

  /** In the first loop every level rises at least once, and the flashes counted are the cells that left Low. */
  lemma RaisedGrows(m: map<Cell, int>, rows: nat, cols: nat)
    requires m.Keys == Cells(rows, cols)
    ensures Grew(m, Raised(m, rows, cols).0)
    ensures Raised(m, rows, cols).1 == |Low(m) - Low(Raised(m, rows, cols).0)|
    ensures forall k :: k in m ==> Raised(m, rows, cols).0[k] >= m[k] + 1
  {
    EveryRaised(m, rows, cols);
    CascadeGrows(m, Nbrs(rows, cols), Order(rows, cols));
  }

  lemma EveryRaised(m: map<Cell, int>, rows: nat, cols: nat)
    requires m.Keys == Cells(rows, cols)
    ensures forall k :: k in m ==> Cascade(m, Nbrs(rows, cols), Order(rows, cols)).0[k] >= m[k] + 1
  {
    forall k | k in m
      ensures k in Order(rows, cols)
    {
      OrderHolds(rows, cols, k);
    }
    CascadeRaises(m, Nbrs(rows, cols), Order(rows, cols));
  }

  /** `simulate_flashes`: the grid after one step, and the number of flashes. */
  function Stepped(m: map<Cell, int>, rows: nat, cols: nat): (r: (map<Cell, int>, nat))
    ensures r.0.Keys == m.Keys
  {
    var t := Raised(m, rows, cols);
    (Reset(t.0), t.1)
  }

  /** After a step every level is at most 9, and no level is negative that was not before. */
  lemma StepBounded(m: map<Cell, int>, rows: nat, cols: nat)
    requires m.Keys == Cells(rows, cols)
    ensures forall k :: k in m ==> Stepped(m, rows, cols).0[k] <= 9
    ensures (forall k :: k in m ==> m[k] >= 0) ==> forall k :: k in m ==> Stepped(m, rows, cols).0[k] >= 0
  {
    var raised := Raised(m, rows, cols).0;
    RaisedGrows(m, rows, cols);
    assert Stepped(m, rows, cols).0 == Reset(raised);
  }

  /** The cells of row x. */
  function Line(x: nat, cols: nat): set<Cell>
  {
    set k | k in Cells(x + 1, cols) && k.0 == x
  }

  lemma {:induction false} LineSize(x: nat, cols: nat)
    ensures |Line(x, cols)| == cols
    decreases cols
  {
    if cols > 0 {
      LineSize(x, cols - 1);
      assert Line(x, cols) == Line(x, cols - 1) + {(x, cols - 1)};
    }
  }

  /** A grid of rows > 0 is the grid one row shorter plus its last row, which it does not meet. */
  lemma CellsLastRow(rows: nat, cols: nat)
    requires rows > 0
    ensures Cells(rows, cols) == Cells(rows - 1, cols) + Line(rows - 1, cols)
    ensures Cells(rows - 1, cols) * Line(rows - 1, cols) == {}
  {
    forall k | k in Cells(rows, cols)
      ensures k in Cells(rows - 1, cols) + Line(rows - 1, cols)
    {
      if k.0 < rows - 1 {
        assert k in Cells(rows - 1, cols);
      }
    }
  }

  lemma {:induction false} CellsSize(rows: nat, cols: nat)
    ensures |Cells(rows, cols)| == rows * cols
    decreases rows
  {
    if rows > 0 {
      var above, line := Cells(rows - 1, cols), Line(rows - 1, cols);
      CellsSize(rows - 1, cols);
      LineSize(rows - 1, cols);
      CellsLastRow(rows, cols);
      assert |above + line| == |above| + |line|;
      assert (rows - 1) * cols + cols == rows * cols;
    }
  }

  /** A subset is no larger. */
  lemma Smaller(a: set<Cell>, b: set<Cell>)
    requires a <= b
    ensures |a| <= |b|
    ensures |a| == |b| ==> a == b
  {
    assert b == a + (b - a);
    if a != b {
      var x :| x in b && x !in a;
      assert x in b - a;
    }
  }

  /** Each cell flashes at most once in a step: the flashes are the cells that left Low, at most rows × cols. */
  lemma StepFlashesOnce(m: map<Cell, int>, rows: nat, cols: nat)
    requires m.Keys == Cells(rows, cols)
    ensures Stepped(m, rows, cols).1 == |Low(m) - Low(Raised(m, rows, cols).0)|
    ensures Stepped(m, rows, cols).1 <= rows * cols
  {
    var raised := Raised(m, rows, cols).0;
    RaisedGrows(m, rows, cols);
    CellsSize(rows, cols);
    Smaller(Low(m) - Low(raised), Cells(rows, cols));
  }

  /** The cells at level 0. */
  function Zeros(m: map<Cell, int>): set<Cell>
  {
    set k | k in m && m[k] == 0
  }

  /** Levels all in 0..9, as the puzzle input gives them. */
  predicate Calm(m: map<Cell, int>)
  {
    forall k :: k in m ==> 0 <= m[k] <= 9
  }

  /** Raised at least once from levels in 0..9, the cells that left Low are those the reset sets to 0. */
  lemma ResetZeros(m: map<Cell, int>, raised: map<Cell, int>)
    requires Calm(m) && raised.Keys == m.Keys && forall k :: k in m ==> raised[k] >= m[k] + 1
    ensures Low(m) - Low(raised) == Zeros(Reset(raised))
    ensures Calm(Reset(raised))
  {
    assert Low(m) == m.Keys;
  }

  /** From levels in 0..9, the flashes of a step are exactly the cells left at 0, and the levels stay in 0..9. */
  lemma StepZeros(m: map<Cell, int>, rows: nat, cols: nat)
    requires m.Keys == Cells(rows, cols) && Calm(m)
    ensures Stepped(m, rows, cols).1 == |Zeros(Stepped(m, rows, cols).0)|
    ensures Calm(Stepped(m, rows, cols).0)
  {
    var t := Raised(m, rows, cols);
    RaisedGrows(m, rows, cols);
    ResetZeros(m, t.0);
    assert Stepped(m, rows, cols) == (Reset(t.0), t.1);
  }

  /** Every level is 0: the dumbos flash in unison. */
  predicate AllZero(m: map<Cell, int>)
  {
    forall k :: k in m ==> m[k] == 0
  }

  /** From levels in 0..9, every cell flashes in a step exactly when every cell is left at 0. */
  lemma StepSynchronized(m: map<Cell, int>, rows: nat, cols: nat)
    requires m.Keys == Cells(rows, cols) && Calm(m)
    ensures Stepped(m, rows, cols).1 == rows * cols <==> AllZero(Stepped(m, rows, cols).0)
  {
    var after := Stepped(m, rows, cols).0;
    StepZeros(m, rows, cols);
    CellsSize(rows, cols);
    if |Zeros(after)| == rows * cols {
      Smaller(Zeros(after), Cells(rows, cols));
    }
    if AllZero(after) {
      assert Zeros(after) == Cells(rows, cols);
    }
  }

  /** `flashes_in_steps`: the grid after n steps and the flashes they add up to. */
  function Run(m: map<Cell, int>, rows: nat, cols: nat, n: nat): (r: (map<Cell, int>, nat))
    ensures r.0.Keys == m.Keys
  {
    if n == 0 then (m, 0)
    else
      var t := Run(m, rows, cols, n - 1);
      var s := Stepped(t.0, rows, cols);
      (s.0, t.1 + s.1)
  }

  /** The flashes of each of the first n steps. */
  ghost function Counts(m: map<Cell, int>, rows: nat, cols: nat, n: nat): (r: seq<nat>)
    ensures |r| == n
  {
    if n == 0 then [] else Counts(m, rows, cols, n - 1) + [Stepped(Run(m, rows, cols, n - 1).0, rows, cols).1]
  }

  /** Entry j of `Counts` is the flashes of step j + 1, however many steps are listed. */
  lemma {:induction false} CountsAt(m: map<Cell, int>, rows: nat, cols: nat, n: nat, j: nat)
    requires j < n
    ensures Counts(m, rows, cols, n)[j] == Stepped(Run(m, rows, cols, j).0, rows, cols).1
  {
    if j < n - 1 {
      CountsAt(m, rows, cols, n - 1, j);
    }
  }

  /** Levels in 0..9 stay in 0..9 however many steps run. */
  lemma {:induction false} RunCalm(m: map<Cell, int>, rows: nat, cols: nat, n: nat)
    requires m.Keys == Cells(rows, cols) && Calm(m)
    ensures Calm(Run(m, rows, cols, n).0)
  {
    if n > 0 {
      RunCalm(m, rows, cols, n - 1);
      StepZeros(Run(m, rows, cols, n - 1).0, rows, cols);
    }
  }

  /**
   * Every cell flashes in step k (counting from 1), the test of
   * `steps_to_sync`, exactly when step k leaves every cell at 0, provided the
   * levels before it are in 0..9 (which `RunCalm` gives from a calm start).
   */
  lemma SyncsAtZeros(m: map<Cell, int>, rows: nat, cols: nat, k: nat)
    requires m.Keys == Cells(rows, cols) && k >= 1 && Calm(Run(m, rows, cols, k - 1).0)
    ensures Counts(m, rows, cols, k)[k - 1] == rows * cols <==> AllZero(Run(m, rows, cols, k).0)
  {
    CountsAt(m, rows, cols, k, k - 1);
    StepSynchronized(Run(m, rows, cols, k - 1).0, rows, cols);
  }

  // ---------------------------------------------------------------------
  // The grid in place

  /** The levels of a grid, cell by cell. */
  ghost function Levels(g: array2<int>): (r: map<Cell, int>)
    reads g
    ensures r.Keys == Cells(g.Length0, g.Length1)
  {
    map k | k in Cells(g.Length0, g.Length1) :: g[k.0, k.1]
  }

  /**
   * The grid `g` and the count `flashes` are what the cascade over `todo`
   * makes of the levels `m`.
   */
  ghost predicate Carries(g: array2<int>, m: map<Cell, int>, todo: seq<Cell>, flashes: nat)
    reads g
  {
    var t := Cascade(m, Nbrs(g.Length0, g.Length1), todo);
    Levels(g) == t.0 && flashes == t.1
  }

  /** One neighbour block of `flash_dumbos`, and the body of the first loop of `simulate_flashes`. */
  method Touch(g: array2<int>, x: nat, y: nat) returns (flashes: nat)
    requires x < g.Length0 && y < g.Length1
    modifies g
    ensures Carries(g, old(Levels(g)), [(x, y)], flashes)
    ensures Low(Levels(g)) <= Low(old(Levels(g)))
    decreases Low(Levels(g)), 0
  {
    ghost var m := Levels(g);
    ghost var c: Cell := (x, y);
    g[x, y] := g[x, y] + 1;
    assert Levels(g) == m[c := m[c] + 1];
    LowBump(m, c);
    CascadeOne(m, Nbrs(g.Length0, g.Length1), c);
    if g[x, y] == 10 {
      flashes := FlashDumbos(g, x, y);
    } else {
      flashes := 0;
    }
  }

  /** One touch after the cascade over `done` has been carried out: the cascade continues with `(x, y)`. */
  method TouchAfter(g: array2<int>, x: nat, y: nat, ghost m: map<Cell, int>, ghost done: seq<Cell>, before: nat)
    returns (flashes: nat)
    requires x < g.Length0 && y < g.Length1
    requires Carries(g, m, done, before)
    modifies g
    ensures Carries(g, m, done + [(x, y)], flashes)
    ensures Low(Levels(g)) <= Low(old(Levels(g)))
    decreases Low(Levels(g)), 1
  {
    ghost var nb := Nbrs(g.Length0, g.Length1);
    CascadeAppend(m, nb, done, [(x, y)]);
    ghost var t := Cascade(m, nb, done);
    ghost var u := Cascade(t.0, nb, [(x, y)]);
    assert Cascade(m, nb, done + [(x, y)]).0 == u.0;
    assert Cascade(m, nb, done + [(x, y)]).1 == t.1 + u.1;
    var f := Touch(g, x, y);
    flashes := before + f;
  }

  /**
   * One guarded touch inside a block of `flash_dumbos`: the cascade over the
   * first `k` cells of the block, already carried out, continues with its
   * next cell `(x, y)`.
   */
  method TouchNext(g: array2<int>, x: nat, y: nat, ghost m: map<Cell, int>, ghost cells: seq<Cell>, ghost k: nat, before: nat)
    returns (flashes: nat)
    requires x < g.Length0 && y < g.Length1
    requires k < |cells| && cells[k] == (x, y)
    requires Carries(g, m, cells[..k], before)
    requires Low(Levels(g)) <= Low(m)
    modifies g
    ensures Carries(g, m, cells[..k + 1], flashes)
    ensures Low(Levels(g)) <= Low(m)
    decreases Low(Levels(g)), 2
  {
    assert cells[..k + 1] == cells[..k] + [(x, y)];
    flashes := TouchAfter(g, x, y, m, cells[..k], before);
  }

  /** The first block of `flash_dumbos`: the row above, middle, left, right. */
  method FlashAbove(g: array2<int>, x: nat, y: nat) returns (flashes: nat)
    requires x < g.Length0 && y < g.Length1
    modifies g
    ensures Carries(g, old(Levels(g)), Above(g.Length0, g.Length1, (x, y)), flashes)
    ensures Low(Levels(g)) <= Low(old(Levels(g)))
    decreases Low(Levels(g)), 7
  {
    ghost var m := Levels(g);
    ghost var cells := Above(g.Length0, g.Length1, (x, y));
    ghost var k := 0;
    assert cells[..k] == [];
    flashes := 0;
    if x > 0 {
      flashes := TouchNext(g, x - 1, y, m, cells, k, flashes);
      k := k + 1;
      if y > 0 {
        flashes := TouchNext(g, x - 1, y - 1, m, cells, k, flashes);
        k := k + 1;
      }
      if y < g.Length1 - 1 {
        flashes := TouchNext(g, x - 1, y + 1, m, cells, k, flashes);
        k := k + 1;
      }
    }
    assert cells[..k] == cells;
  }

  /** The second block of `flash_dumbos`: the row below, middle, right, left. */
  method FlashBelow(g: array2<int>, x: nat, y: nat) returns (flashes: nat)
    requires x < g.Length0 && y < g.Length1
    modifies g
    ensures Carries(g, old(Levels(g)), Below(g.Length0, g.Length1, (x, y)), flashes)
    ensures Low(Levels(g)) <= Low(old(Levels(g)))
    decreases Low(Levels(g)), 7
  {
    ghost var m := Levels(g);
    ghost var cells := Below(g.Length0, g.Length1, (x, y));
    ghost var k := 0;
    assert cells[..k] == [];
    flashes := 0;
    if x < g.Length0 - 1 {
      flashes := TouchNext(g, x + 1, y, m, cells, k, flashes);
      k := k + 1;
      if y < g.Length1 - 1 {
        flashes := TouchNext(g, x + 1, y + 1, m, cells, k, flashes);
        k := k + 1;
      }
      if y > 0 {
        flashes := TouchNext(g, x + 1, y - 1, m, cells, k, flashes);
        k := k + 1;
      }
    }
    assert cells[..k] == cells;
  }

  /** The last two blocks of `flash_dumbos`: left, then right. */
  method FlashBeside(g: array2<int>, x: nat, y: nat) returns (flashes: nat)
    requires x < g.Length0 && y < g.Length1
    modifies g
    ensures Carries(g, old(Levels(g)), Beside(g.Length0, g.Length1, (x, y)), flashes)
    ensures Low(Levels(g)) <= Low(old(Levels(g)))
    decreases Low(Levels(g)), 7
  {
    ghost var m := Levels(g);
    ghost var cells := Beside(g.Length0, g.Length1, (x, y));
    ghost var k := 0;
    assert cells[..k] == [];
    flashes := 0;
    if y > 0 {
      flashes := TouchNext(g, x, y - 1, m, cells, k, flashes);
      k := k + 1;
    }
    if y < g.Length1 - 1 {
      flashes := TouchNext(g, x, y + 1, m, cells, k, flashes);
      k := k + 1;
    }
    assert cells[..k] == cells;
  }

  /** `flash_dumbos`: one flash, then the in-bounds neighbours touched in the source's order. */
  method FlashDumbos(g: array2<int>, x: nat, y: nat) returns (flashes: nat)
    requires x < g.Length0 && y < g.Length1
    modifies g
    ensures var t := Cascade(old(Levels(g)), Nbrs(g.Length0, g.Length1), Around(g.Length0, g.Length1, (x, y)));
            Levels(g) == t.0 && flashes == 1 + t.1
    ensures Low(Levels(g)) <= Low(old(Levels(g)))
    decreases Low(Levels(g)), 10
  {
    ghost var m := Levels(g);
    ghost var nb := Nbrs(g.Length0, g.Length1);
    ghost var above, below, beside := Above(g.Length0, g.Length1, (x, y)), Below(g.Length0, g.Length1, (x, y)), Beside(g.Length0, g.Length1, (x, y));
    var a := FlashAbove(g, x, y);
    var b := FlashBelow(g, x, y);
    var c := FlashBeside(g, x, y);
    flashes := 1 + a + b + c;
    CascadeAppend(m, nb, above, below);
    CascadeAppend(m, nb, above + below, beside);
  }

  /** One row of the first double loop of `simulate_flashes`: its dumbos touched left to right. */
  method RaiseRow(g: array2<int>, x: nat, ghost m: map<Cell, int>, before: nat) returns (flashes: nat)
    requires x < g.Length0
    requires Carries(g, m, Order(x, g.Length1), before)
    modifies g
    ensures Carries(g, m, Order(x + 1, g.Length1), flashes)
  {
    flashes := RaiseCols(g, x, m, Order(x, g.Length1), before);
  }

  /** The inner loop of the first double loop: the cells of row x touched left to right after `done`. */
  method RaiseCols(g: array2<int>, x: nat, ghost m: map<Cell, int>, ghost done: seq<Cell>, before: nat)
    returns (flashes: nat)
    requires x < g.Length0
    requires Carries(g, m, done, before)
    modifies g
    ensures Carries(g, m, done + Row(x, g.Length1), flashes)
  {
    flashes := before;
    assert done + Row(x, 0) == done;
    for y := 0 to g.Length1
      invariant Carries(g, m, done + Row(x, y), flashes)
    {
      assert done + Row(x, y) + [(x, y)] == done + Row(x, y + 1);
      flashes := TouchAfter(g, x, y, m, done + Row(x, y), flashes);
    }
  }

  /** The first double loop of `simulate_flashes`: every dumbo touched once, row by row. */
  method RaiseAll(g: array2<int>) returns (flashes: nat)
    modifies g
    ensures Carries(g, old(Levels(g)), Order(g.Length0, g.Length1), flashes)
  {
    ghost var m := Levels(g);
    flashes := 0;
    for x := 0 to g.Length0
      invariant Carries(g, m, Order(x, g.Length1), flashes)
    {
      flashes := RaiseRow(g, x, m, flashes);
    }
  }

  /** A level over 9 is reset to 0. */
  function Calmed(v: int): (r: int)
    ensures r == (if v > 9 then 0 else v)
  {
    if v > 9 then 0 else v
  }

  /** The second double loop of `simulate_flashes`: every level over 9 set back to 0. */
  method ResetAll(g: array2<int>)
    modifies g
    ensures Levels(g) == Reset(old(Levels(g)))
  {
    for x := 0 to g.Length0
      invariant forall i, j :: 0 <= i < x && 0 <= j < g.Length1 ==> g[i, j] == Calmed(old(g[i, j]))
      invariant forall i, j :: x <= i < g.Length0 && 0 <= j < g.Length1 ==> g[i, j] == old(g[i, j])
    {
      for y := 0 to g.Length1
        invariant forall i, j :: 0 <= i < x && 0 <= j < g.Length1 ==> g[i, j] == Calmed(old(g[i, j]))
        invariant forall j :: 0 <= j < y ==> g[x, j] == Calmed(old(g[x, j]))
        invariant forall j :: y <= j < g.Length1 ==> g[x, j] == old(g[x, j])
        invariant forall i, j :: x < i < g.Length0 && 0 <= j < g.Length1 ==> g[i, j] == old(g[i, j])
      {
        if g[x, y] > 9 {
          g[x, y] := 0;
        }
      }
    }
    forall k | k in Cells(g.Length0, g.Length1)
      ensures Levels(g)[k] == Reset(old(Levels(g)))[k]
    {
      assert g[k.0, k.1] == Calmed(old(g[k.0, k.1]));
    }
  }

  /** `simulate_flashes`: one step on the grid in place, and the flashes it counted. */
  method SimulateFlashes(g: array2<int>) returns (flashes: nat)
    modifies g
    ensures Levels(g) == Stepped(old(Levels(g)), g.Length0, g.Length1).0
    ensures flashes == Stepped(old(Levels(g)), g.Length0, g.Length1).1
  {
    flashes := RaiseAll(g);
    ResetAll(g);
  }

  /** `flashes_in_steps`: the grid after the given number of steps, and the flashes of all of them. */
  method FlashesInSteps(g: array2<int>, steps: nat) returns (flashes: nat)
    modifies g
    ensures Levels(g) == Run(old(Levels(g)), g.Length0, g.Length1, steps).0
    ensures flashes == Run(old(Levels(g)), g.Length0, g.Length1, steps).1
  {
    ghost var m := Levels(g);
    flashes := 0;
    for i := 0 to steps
      invariant Levels(g) == Run(m, g.Length0, g.Length1, i).0
      invariant flashes == Run(m, g.Length0, g.Length1, i).1
    {
      var f := SimulateFlashes(g);
      flashes := flashes + f;
    }
  }

  /** One more step of a run from m: the grid after it and its flashes. */
  method NextStep(g: array2<int>, ghost m: map<Cell, int>, ghost done: nat) returns (f: nat)
    requires Levels(g) == Run(m, g.Length0, g.Length1, done).0
    modifies g
    ensures Levels(g) == Run(m, g.Length0, g.Length1, done + 1).0
    ensures Counts(m, g.Length0, g.Length1, done + 1) == Counts(m, g.Length0, g.Length1, done) + [f]
  {
    f := SimulateFlashes(g);
  }

  /** The answer of `steps_to_sync`. */
  datatype Sync =
    | Synced(steps: nat)  // the first step in which every dumbo flashed
    | EmptyGrid           // `dumbos[0]` panics on a grid without rows
    | NotWithin           // no such step among the first `fuel`

  /**
   * The answer of `steps_to_sync` read off the flashes of the steps tried,
   * in order: the first step that flashes `total` dumbos.
   */
  function FirstFull(counts: seq<nat>, total: int): (r: Sync)
    ensures r != EmptyGrid
    ensures r.Synced? ==> 1 <= r.steps <= |counts|
  {
    if |counts| == 0 then NotWithin
    else
      var before := FirstFull(counts[..|counts| - 1], total);
      if before.Synced? then before
      else if counts[|counts| - 1] == total then Synced(|counts|)
      else NotWithin
  }

  /**
   * What the answer means: no step flashes `total` dumbos exactly when the
   * answer is `NotWithin`, and otherwise the answer is a step that does with
   * none before it that does.
   */
  lemma {:induction false} FirstFullMeans(counts: seq<nat>, total: int)
    ensures FirstFull(counts, total) == NotWithin <==> total !in counts
    ensures FirstFull(counts, total).Synced? ==>
      var s := FirstFull(counts, total).steps;
      counts[s - 1] == total && total !in counts[..s - 1]
  {
    if |counts| > 0 {
      var front := counts[..|counts| - 1];
      FirstFullMeans(front, total);
      assert counts == front + [counts[|counts| - 1]];
      if FirstFull(front, total).Synced? {
        var s := FirstFull(front, total).steps;
        assert front[..s - 1] == counts[..s - 1];
      }
    }
  }

  /** Trying more steps after one that syncs the run does not change the answer. */
  lemma {:induction false} FirstFullStays(counts: seq<nat>, more: seq<nat>, total: int)
    requires FirstFull(counts, total).Synced?
    ensures FirstFull(counts + more, total) == FirstFull(counts, total)
    decreases |more|
  {
    if |more| == 0 {
      assert counts + more == counts;
    } else {
      var longer := counts + more[..|more| - 1];
      FirstFullStays(counts, more[..|more| - 1], total);
      assert (counts + more)[..|counts + more| - 1] == longer;
    }
  }

  /**
   * A step k no later than n does not flash `total` dumbos when none of the
   * first n steps listed does; so the step `steps_to_sync` answers is the
   * only one that flashes them all with none before it.
   */
  lemma NoneFullWithin(m: map<Cell, int>, rows: nat, cols: nat, total: nat, n: nat, k: nat)
    requires total !in Counts(m, rows, cols, n) && 1 <= k <= n
    ensures Counts(m, rows, cols, k)[k - 1] != total
  {
    CountsAt(m, rows, cols, k, k - 1);
    CountsAt(m, rows, cols, n, k - 1);
  }

  /**
   * `steps_to_sync`: the first step in which every dumbo flashes, and the
   * grid after it.  The source loops until that happens; `fuel` bounds the
   * number of steps tried.
   */
  method StepsToSync(g: array2<int>, fuel: nat) returns (r: Sync)
    modifies g
    ensures g.Length0 == 0 <==> r == EmptyGrid
    ensures r == EmptyGrid ==> Levels(g) == old(Levels(g))
    ensures r.Synced? ==> r.steps <= fuel
    ensures r.Synced? ==> FirstFull(Counts(old(Levels(g)), g.Length0, g.Length1, r.steps), g.Length0 * g.Length1) == r
    ensures r.Synced? ==> Levels(g) == Run(old(Levels(g)), g.Length0, g.Length1, r.steps).0
    ensures r == NotWithin ==> FirstFull(Counts(old(Levels(g)), g.Length0, g.Length1, fuel), g.Length0 * g.Length1) == NotWithin
    ensures r == NotWithin ==> Levels(g) == Run(old(Levels(g)), g.Length0, g.Length1, fuel).0
  {
    if g.Length0 == 0 {
      return EmptyGrid;
    }
    ghost var m := Levels(g);
    ghost var seen: seq<nat> := [];
    var total := g.Length0 * g.Length1;
    var steps := 0;
    while steps < fuel
      invariant 0 <= steps <= fuel
      invariant Levels(g) == Run(m, g.Length0, g.Length1, steps).0
      invariant seen == Counts(m, g.Length0, g.Length1, steps) && FirstFull(seen, total) == NotWithin
    {
      var f := NextStep(g, m, steps);
      assert (seen + [f])[..steps] == seen;
      seen := seen + [f];
      steps := steps + 1;
      if f == total {
        return Synced(steps);
      }
    }
    return NotWithin;
  }
}
