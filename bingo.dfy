/**
 * Giant-squid bingo of 2021/day4/src/main.rs: boards of squares that are
 * marked in place as numbers are called, the win test over rows and the
 * five columns, and the scores of the first and the last board to win.
 */
module Bingo {

  datatype Status = Empty | Filled

  datatype Square = Square(value: int, status: Status)

  /** Rows of squares; `parse_input` reads five numbers per row, but nothing later relies on it. */
  type Board = seq<seq<Square>>

  datatype Fault =
    | ColumnOverflow   // `columns[col]` past the five column flags
    | NoBoards         // `boards[lowest_index]` on an empty slice
    | NoTurns          // `turns[count - 1]` with a count of 0

  datatype Result<T> = Ok(value: T) | Err(fault: Fault)

  // Marking a called number.

  /** The first column whose square holds v, or the row length. */
  function FirstIndex(row: seq<Square>, v: int): (c: nat)
    ensures c <= |row|
    ensures c < |row| ==> row[c].value == v
    ensures forall d :: 0 <= d < c ==> row[d].value != v
  {
    if row == [] then 0
    else
      var c := FirstIndex(row[..|row| - 1], v);
      if c < |row| - 1 then c else if row[|row| - 1].value == v then |row| - 1 else |row|
  }

  predicate InRow(row: seq<Square>, v: int)
  {
    exists c :: 0 <= c < |row| && row[c].value == v
  }

  /** The first row holding v, or the number of rows. */
  function FirstRow(b: Board, v: int): (r: nat)
    ensures r <= |b|
    ensures r < |b| ==> InRow(b[r], v)
    ensures forall q :: 0 <= q < r ==> !InRow(b[q], v)
  {
    if b == [] then 0
    else
      var r := FirstRow(b[..|b| - 1], v);
      if r < |b| - 1 then r else if InRow(b[|b| - 1], v) then |b| - 1 else |b|
  }

  /** One turn of `process_board`: the first square holding v, in row-major order, becomes Filled. */
  function Mark(b: Board, v: int): Board
  {
    var r := FirstRow(b, v);
    if r == |b| then b
    else
      var c := FirstIndex(b[r], v);
      b[r := b[r][c := b[r][c].(status := Filled)]]
  }

  predicate Earlier(q: int, d: int, r: int, c: int)
  {
    q < r || (q == r && d < c)
  }

  /** Square (r, c) is the first, in row-major order, that holds v. */
  predicate FirstOf(b: Board, v: int, r: nat, c: nat)
    requires r < |b| && c < |b[r]|
  {
    && b[r][c].value == v
    && forall q, d :: 0 <= q < |b| && 0 <= d < |b[q]| && Earlier(q, d, r, c) ==> b[q][d].value != v
  }

  /**
   * A turn changes the status of at most one square, the first holding the
   * called number, and only from Empty or Filled to Filled: the board keeps
   * its shape and every value.
   */
  lemma MarkFirst(b: Board, v: int)
    ensures |Mark(b, v)| == |b|
    ensures forall r :: 0 <= r < |b| ==> |Mark(b, v)[r]| == |b[r]|
    ensures forall r, c :: 0 <= r < |b| && 0 <= c < |b[r]| ==>
              Mark(b, v)[r][c] == if FirstOf(b, v, r, c) then b[r][c].(status := Filled) else b[r][c]
  {
    var f := FirstRow(b, v);
    forall r, c | 0 <= r < |b| && 0 <= c < |b[r]|
      ensures Mark(b, v)[r][c] == if FirstOf(b, v, r, c) then b[r][c].(status := Filled) else b[r][c]
    {
      if f < |b| {
        var g := FirstIndex(b[f], v);
        if r == f && c == g {
          assert FirstOf(b, v, r, c);
        } else {
          assert !FirstOf(b, v, r, c) by {
            if r < f {
              assert !InRow(b[r], v);
            } else if r == f && c < g {
              assert b[r][c].value != v;
            } else {
              assert Earlier(f, g, r, c) && b[f][g].value == v;
            }
          }
        }
      } else {
        assert !FirstOf(b, v, r, c) by {
          assert !InRow(b[r], v);
        }
      }
    }
  }

  /** The board after the given turns, the first turn marked first. */
  function MarkAll(b: Board, turns: seq<int>): Board
  {
    if turns == [] then b else Mark(MarkAll(b, turns[..|turns| - 1]), turns[|turns| - 1])
  }

  // The win test.

  predicate RowWins(row: seq<Square>)
  {
    forall c :: 0 <= c < |row| ==> row[c].status == Filled
  }

  /** Column c is Filled in every row long enough to have it. */
  predicate ColumnWins(b: Board, c: nat)
  {
    forall r :: 0 <= r < |b| && c < |b[r]| ==> b[r][c].status == Filled
  }

  /** An Empty square beyond the five column flags. */
  predicate Overflows(row: seq<Square>)
  {
    exists c :: 5 <= c < |row| && row[c].status == Empty
  }

  /**
   * `win_state`: a row entirely Filled, or one of the columns 0 to 4 Filled
   * in every row; an Empty square beyond column 4 in a row reached before
   * any winning row panics.
   */
  function WinState(b: Board): Result<bool>
  {
    if exists r :: 0 <= r < |b| && Overflows(b[r]) && forall q :: 0 <= q < r ==> !RowWins(b[q]) then Err(ColumnOverflow)
    else Ok((exists r :: 0 <= r < |b| && RowWins(b[r])) || (exists c :: 0 <= c < 5 && ColumnWins(b, c)))
  }

  /** `win_state`, with its five column flags. */
  method CheckWin(board: Board) returns (r: Result<bool>)
    ensures r == WinState(board)
  {
    var columns := [true, true, true, true, true];
    var i := 0;
    while i < |board|
      invariant 0 <= i <= |board| && |columns| == 5
      invariant forall d :: 0 <= d < 5 ==> (columns[d] <==> forall q :: 0 <= q < i && d < |board[q]| ==> board[q][d].status == Filled)
      invariant forall q :: 0 <= q < i ==> !RowWins(board[q]) && !Overflows(board[q])
    {
      var row := board[i];
      var win := true;
      var c := 0;
      while c < |row|
        invariant 0 <= c <= |row| && |columns| == 5
        invariant win <==> forall e :: 0 <= e < c ==> row[e].status == Filled
        invariant forall e :: 5 <= e < c ==> row[e].status == Filled
        invariant forall d :: 0 <= d < 5 ==>
                    (columns[d] <==> (forall q :: 0 <= q < i && d < |board[q]| ==> board[q][d].status == Filled) && (d < c ==> row[d].status == Filled))
      {
        if row[c].status == Empty {
          if c >= 5 {
            return Err(ColumnOverflow);
          }
          columns := columns[c := false];
          win := false;
        }
        c := c + 1;
      }
      if win {
        assert RowWins(board[i]) && !Overflows(board[i]);
        return Ok(true);
      }
      assert forall d :: 0 <= d < 5 ==> (columns[d] <==> forall q :: 0 <= q < i + 1 && d < |board[q]| ==> board[q][d].status == Filled);
      i := i + 1;
    }
    var d := 0;
    while d < 5
      invariant 0 <= d <= 5
      invariant forall e :: 0 <= e < d ==> !ColumnWins(board, e)
    {
      if columns[d] {
        assert ColumnWins(board, d);
        return Ok(true);
      }
      d := d + 1;
    }
    return Ok(false);
  }

  // Playing one board.

  /** The count `process_board` returns, from turn k on: the first turn after which the board wins, or the number of turns. */
  function Stop(b: Board, turns: seq<int>, k: nat): (r: Result<nat>)
    requires k <= |turns|
    ensures r.Ok? ==> k <= r.value <= |turns|
    decreases |turns| - k
  {
    if k == |turns| then Ok(k)
    else
      match WinState(MarkAll(b, turns[..k + 1]))
      case Err(f) => Err(f)
      case Ok(true) => Ok(k + 1)
      case Ok(false) => Stop(b, turns, k + 1)
  }

  /**
   * `process_board` stops at the first winning turn: the count n is at most
   * the number of turns, the board has not won after any earlier turn, and
   * it has won after turn n unless all turns were used.
   */
  lemma {:induction false} StopIsFirstWin(b: Board, turns: seq<int>, k: nat)
    requires k <= |turns| && Stop(b, turns, k).Ok?
    ensures k <= Stop(b, turns, k).value <= |turns|
    ensures Stop(b, turns, k).value < |turns| ==> WinState(MarkAll(b, turns[..Stop(b, turns, k).value])) == Ok(true)
    ensures forall j :: k < j < Stop(b, turns, k).value ==> WinState(MarkAll(b, turns[..j])) == Ok(false)
    ensures k < Stop(b, turns, k).value == |turns| ==> WinState(MarkAll(b, turns[..|turns|])).Ok?
    decreases |turns| - k
  {
    if k < |turns| && WinState(MarkAll(b, turns[..k + 1])) == Ok(false) {
      assert Stop(b, turns, k) == Stop(b, turns, k + 1);
      StopIsFirstWin(b, turns, k + 1);
    }
  }

  /** The marking loop of `process_board`, up to `break 'check`. */
  method MarkTurn(boards: array<Board>, k: nat, v: int)
    requires k < boards.Length
    modifies boards
    ensures boards[k] == Mark(old(boards[k]), v)
    ensures forall j :: 0 <= j < boards.Length && j != k ==> boards[j] == old(boards[j])
  {
    var b := boards[k];
    var r := 0;
    while r < |b|
      invariant 0 <= r <= |b| && boards[k] == b
      invariant forall q :: 0 <= q < r ==> !InRow(b[q], v)
    {
      var c := 0;
      while c < |b[r]|
        invariant 0 <= c <= |b[r]|
        invariant forall d :: 0 <= d < c ==> b[r][d].value != v
      {
        if b[r][c].value == v {
          assert FirstRow(b, v) == r by {
            assert InRow(b[r], v);
          }
          boards[k] := b[r := b[r][c := b[r][c].(status := Filled)]];
          return;
        }
        c := c + 1;
      }
      r := r + 1;
    }
  }

  /** `process_board` on `boards[k]`: marks it turn by turn and returns the turn count. */
  method ProcessBoard(boards: array<Board>, k: nat, turns: seq<int>) returns (r: Result<nat>)
    requires k < boards.Length
    modifies boards
    ensures r == Stop(old(boards[k]), turns, 0)
    ensures r.Ok? ==> boards[k] == MarkAll(old(boards[k]), turns[..r.value])
    ensures forall j :: 0 <= j < boards.Length && j != k ==> boards[j] == old(boards[j])
  {
    ghost var b := boards[k];
    var count := 0;
    assert turns[..0] == [];
    while count < |turns|
      invariant 0 <= count <= |turns|
      invariant boards[k] == MarkAll(b, turns[..count])
      invariant Stop(b, turns, 0) == Stop(b, turns, count)
      invariant forall j :: 0 <= j < boards.Length && j != k ==> boards[j] == old(boards[j])
    {
      var turn := turns[count];
      MarkTurn(boards, k, turn);
      assert turns[..count + 1][..count] == turns[..count];
      count := count + 1;
      var win := CheckWin(boards[k]);
      if win.Err? {
        return Err(win.fault);
      }
      if win.value {
        return Ok(count);
      }
    }
    assert turns[..count] == turns;
    return Ok(count);
  }

  // Choosing a board and scoring it.

  /** The counts of every board, or the first panic. */
  function Counts(bs: seq<Board>, turns: seq<int>): (r: Result<seq<nat>>)
    ensures r.Ok? ==> |r.value| == |bs|
    ensures r.Ok? ==> forall j :: 0 <= j < |bs| ==> r.value[j] <= |turns|
  {
    if bs == [] then Ok([])
    else
      match Counts(bs[..|bs| - 1], turns)
      case Err(f) => Err(f)
      case Ok(cs) =>
        match Stop(bs[|bs| - 1], turns, 0)
        case Err(f) => Err(f)
        case Ok(n) => Ok(cs + [n])
  }

  /** Every board's count, when they all have one. */
  lemma {:induction false} CountsAre(bs: seq<Board>, turns: seq<int>)
    requires Counts(bs, turns).Ok?
    ensures forall j :: 0 <= j < |bs| ==> Stop(bs[j], turns, 0) == Ok(Counts(bs, turns).value[j])
    decreases |bs|
  {
    if bs != [] {
      CountsAre(bs[..|bs| - 1], turns);
    }
  }

  /** `find_winning_score`'s selection: a strictly smaller count replaces the best, starting from (bound, 0). */
  function Lowest(cs: seq<nat>, bound: nat): (nat, nat)
  {
    if cs == [] then (bound, 0)
    else
      var (c, i) := Lowest(cs[..|cs| - 1], bound);
      if cs[|cs| - 1] < c then (cs[|cs| - 1], |cs| - 1) else (c, i)
  }

  /** The lowest count is the least of the counts below the bound, at its earliest position; with none below, index 0 is chosen. */
  lemma {:induction false} LowestIsEarliestLeast(cs: seq<nat>, bound: nat)
    ensures var (c, i) := Lowest(cs, bound);
            && c <= bound
            && (cs != [] ==> i < |cs|)
            && (forall j :: 0 <= j < |cs| ==> c <= cs[j])
            && (forall j :: 0 <= j < i ==> c < cs[j])
            && (c < bound ==> cs[i] == c)
            && (c == bound ==> i == 0)
    decreases |cs|
  {
    if cs != [] {
      LowestIsEarliestLeast(cs[..|cs| - 1], bound);
    }
  }

  /** `find_losing_score`'s selection: a strictly larger count replaces the best, starting from (0, 0). */
  function Highest(cs: seq<nat>): (nat, nat)
  {
    if cs == [] then (0, 0)
    else
      var (c, i) := Highest(cs[..|cs| - 1]);
      if cs[|cs| - 1] > c then (cs[|cs| - 1], |cs| - 1) else (c, i)
  }

  /** The highest count is the greatest count, at its earliest position; when every count is 0, index 0 is chosen. */
  lemma {:induction false} HighestIsEarliestGreatest(cs: seq<nat>)
    ensures var (c, i) := Highest(cs);
            && (cs != [] ==> i < |cs|)
            && (forall j :: 0 <= j < |cs| ==> cs[j] <= c)
            && (forall j :: 0 <= j < i ==> cs[j] < c)
            && (c > 0 ==> cs[i] == c)
            && (c == 0 ==> i == 0)
    decreases |cs|
  {
    if cs != [] {
      HighestIsEarliestGreatest(cs[..|cs| - 1]);
    }
  }

  function RowUnmarked(row: seq<Square>): int
  {
    if row == [] then 0 else RowUnmarked(row[..|row| - 1]) + (if row[|row| - 1].status == Empty then row[|row| - 1].value else 0)
  }

  /** The sum of the values of the Empty squares. */
  function Unmarked(b: Board): int
  {
    if b == [] then 0 else Unmarked(b[..|b| - 1]) + RowUnmarked(b[|b| - 1])
  }

  /** A score: the number called on the chosen board's last turn times the board's unmarked sum. */
  function Score(bs: seq<Board>, turns: seq<int>, cs: seq<nat>, count: nat, index: nat): (r: Result<int>)
    requires |cs| == |bs|
    requires forall j :: 0 <= j < |cs| ==> cs[j] <= |turns|
    ensures r.Ok? <==> index < |bs| && 0 < count <= |turns|
  {
    if index >= |bs| then Err(NoBoards)
    else if count == 0 || count > |turns| then Err(NoTurns)
    else Ok(turns[count - 1] * Unmarked(MarkAll(bs[index], turns[..cs[index]])))
  }

  /** `find_winning_score`. */
  function WinningScore(bs: seq<Board>, turns: seq<int>): Result<int>
  {
    match Counts(bs, turns)
    case Err(f) => Err(f)
    case Ok(cs) => var (count, index) := Lowest(cs, |turns|); Score(bs, turns, cs, count, index)
  }

  /** `find_losing_score`. */
  function LosingScore(bs: seq<Board>, turns: seq<int>): Result<int>
  {
    match Counts(bs, turns)
    case Err(f) => Err(f)
    case Ok(cs) => var (count, index) := Highest(cs); Score(bs, turns, cs, count, index)
  }

  /** With turns and boards to play, neither score faults except through a column overflow. */
  lemma ScoresDefined(bs: seq<Board>, turns: seq<int>)
    requires bs != [] && turns != [] && Counts(bs, turns).Ok?
    ensures WinningScore(bs, turns).Ok? && LosingScore(bs, turns).Ok?
  {
    var cs := Counts(bs, turns).value;
    CountsAre(bs, turns);
    forall j | 0 <= j < |cs|
      ensures 1 <= cs[j]
    {
      StopPositive(bs[j], turns);
    }
    WinningDefined(bs, turns, cs);
    LosingDefined(bs, turns, cs);
  }

  /** With a turn to play, a board's count is at least one. */
  lemma StopPositive(b: Board, turns: seq<int>)
    requires turns != [] && Stop(b, turns, 0).Ok?
    ensures Stop(b, turns, 0).value >= 1
  {
  }

  lemma WinningDefined(bs: seq<Board>, turns: seq<int>, cs: seq<nat>)
    requires Counts(bs, turns) == Ok(cs) && cs != []
    requires forall j :: 0 <= j < |cs| ==> 1 <= cs[j] <= |turns|
    ensures WinningScore(bs, turns).Ok?
  {
    LowestIsEarliestLeast(cs, |turns|);
    var (low, i) := Lowest(cs, |turns|);
    assert 0 < low <= |turns| && i < |bs|;
  }

  lemma LosingDefined(bs: seq<Board>, turns: seq<int>, cs: seq<nat>)
    requires Counts(bs, turns) == Ok(cs) && cs != []
    requires forall j :: 0 <= j < |cs| ==> 1 <= cs[j] <= |turns|
    ensures LosingScore(bs, turns).Ok?
  {
    HighestIsEarliestGreatest(cs);
    var (high, j) := Highest(cs);
    assert 0 < high <= |turns| && j < |bs|;
  }

  /** The values of the Empty squares of every row, summed as the nested `for` loops of the scoring do. */
  method SumUnmarked(b: Board) returns (sum: int)
    ensures sum == Unmarked(b)
  {
    sum := 0;
    var r := 0;
    while r < |b|
      invariant 0 <= r <= |b|
      invariant sum == Unmarked(b[..r])
    {
      var c := 0;
      while c < |b[r]|
        invariant 0 <= c <= |b[r]|
        invariant sum == Unmarked(b[..r]) + RowUnmarked(b[r][..c])
      {
        assert b[r][..c + 1][..c] == b[r][..c];
        if b[r][c].status == Empty {
          sum := sum + b[r][c].value;
        }
        c := c + 1;
      }
      assert b[r][..c] == b[r];
      assert b[..r + 1][..r] == b[..r];
      r := r + 1;
    }
    assert b[..r] == b;
  }

  /** Processes every board in place and returns their counts. */
  method ProcessAll(boards: array<Board>, turns: seq<int>) returns (r: Result<seq<nat>>)
    modifies boards
    ensures r == Counts(old(boards[..]), turns)
    ensures r.Ok? ==> forall j :: 0 <= j < boards.Length ==> boards[j] == MarkAll(old(boards[j]), turns[..r.value[j]])
  {
    ghost var bs := boards[..];
    var cs: seq<nat> := [];
    var index := 0;
    while index < boards.Length
      invariant 0 <= index <= boards.Length && |cs| == index
      invariant Counts(bs[..index], turns) == Ok(cs)
      invariant forall j :: 0 <= j < index ==> boards[j] == MarkAll(bs[j], turns[..cs[j]])
      invariant forall j :: index <= j < boards.Length ==> boards[j] == bs[j]
    {
      var count := ProcessBoard(boards, index, turns);
      assert bs[..index + 1][..index] == bs[..index];
      if count.Err? {
        assert Counts(bs[..index + 1], turns).Err?;
        CountsPrefix(bs, turns, index + 1);
        return Err(count.fault);
      }
      cs := cs + [count.value];
      index := index + 1;
    }
    assert bs[..index] == bs;
    r := Ok(cs);
  }

  /** A panic on some board is a panic of the whole selection. */
  lemma {:induction false} CountsPrefix(bs: seq<Board>, turns: seq<int>, n: nat)
    requires n <= |bs| && Counts(bs[..n], turns).Err?
    ensures Counts(bs, turns) == Err(Counts(bs[..n], turns).fault)
    decreases |bs| - n
  {
    if n < |bs| {
      assert bs[..n + 1][..n] == bs[..n];
      CountsPrefix(bs, turns, n + 1);
    } else {
      assert bs[..n] == bs;
    }
  }

  /** `find_winning_score` on the boards, which it leaves marked. */
  method FindWinningScore(boards: array<Board>, turns: seq<int>) returns (r: Result<int>)
    modifies boards
    ensures r == WinningScore(old(boards[..]), turns)
  {
    ghost var bs := boards[..];
    var counts := ProcessAll(boards, turns);
    if counts.Err? {
      return Err(counts.fault);
    }
    var lowestCount, lowestIndex := SelectLowest(counts.value, |turns|);
    if lowestIndex < boards.Length {
      assert boards[lowestIndex] == MarkAll(bs[lowestIndex], turns[..counts.value[lowestIndex]]);
    }
    r := ScoreBoard(boards, turns, lowestCount, lowestIndex);
    assert r == Score(bs, turns, counts.value, lowestCount, lowestIndex);
  }

  /** `find_losing_score` on the boards, which it leaves marked. */
  method FindLosingScore(boards: array<Board>, turns: seq<int>) returns (r: Result<int>)
    modifies boards
    ensures r == LosingScore(old(boards[..]), turns)
  {
    ghost var bs := boards[..];
    var counts := ProcessAll(boards, turns);
    if counts.Err? {
      return Err(counts.fault);
    }
    var highestCount, highestIndex := SelectHighest(counts.value);
    if highestIndex < boards.Length {
      assert boards[highestIndex] == MarkAll(bs[highestIndex], turns[..counts.value[highestIndex]]);
    }
    r := ScoreBoard(boards, turns, highestCount, highestIndex);
    assert r == Score(bs, turns, counts.value, highestCount, highestIndex);
  }

  /** The selection loop of `find_winning_score`: a strictly smaller count replaces the best. */
  method SelectLowest(cs: seq<nat>, bound: nat) returns (count: nat, index: nat)
    ensures (count, index) == Lowest(cs, bound)
  {
    count, index := bound, 0;
    var i := 0;
    while i < |cs|
      invariant 0 <= i <= |cs|
      invariant (count, index) == Lowest(cs[..i], bound)
    {
      assert cs[..i + 1][..i] == cs[..i];
      if cs[i] < count {
        count, index := cs[i], i;
      }
      i := i + 1;
    }
    assert cs[..i] == cs;
  }

  /** The selection loop of `find_losing_score`: a strictly larger count replaces the best. */
  method SelectHighest(cs: seq<nat>) returns (count: nat, index: nat)
    ensures (count, index) == Highest(cs)
  {
    count, index := 0, 0;
    var i := 0;
    while i < |cs|
      invariant 0 <= i <= |cs|
      invariant (count, index) == Highest(cs[..i])
    {
      assert cs[..i + 1][..i] == cs[..i];
      if cs[i] > count {
        count, index := cs[i], i;
      }
      i := i + 1;
    }
    assert cs[..i] == cs;
  }

  /** The scoring tail shared by both searches: the unmarked sum of the chosen board, then the called number. */
  method ScoreBoard(boards: array<Board>, turns: seq<int>, count: nat, index: nat) returns (r: Result<int>)
    ensures index >= boards.Length ==> r == Err(NoBoards)
    ensures index < boards.Length && (count == 0 || count > |turns|) ==> r == Err(NoTurns)
    ensures index < boards.Length && 0 < count <= |turns| ==> r == Ok(turns[count - 1] * Unmarked(boards[index]))
  {
    if index >= boards.Length {
      return Err(NoBoards);
    }
    var sum := SumUnmarked(boards[index]);
    if count == 0 || count > |turns| {
      return Err(NoTurns);
    }
    return Ok(turns[count - 1] * sum);
  }
}
