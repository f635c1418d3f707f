/**
 * Seat ids of 2020/day5/src/main.rs: each F or B of a ticket halves the
 * row interval 0..127, each L or R halves the column interval 0..7, and a
 * ticket whose intervals both end as single values has id row * 8 + column.
 * `find_seat` lists the ids missing between consecutive ids.
 */
module BinaryBoarding {

  /** A closed interval of `i32` values, lo..hi; a halving past one value makes it empty (hi < lo). */
  datatype Span = Span(lo: int, hi: int)

  datatype Bounds = Bounds(row: Span, col: Span)

  const Start := Bounds(Span(0, 127), Span(0, 7))

  /** `i32` division by two, which truncates toward zero. */
  function Half(d: int): int
  {
    if d >= 0 then d / 2 else -((-d) / 2)
  }

  /** One halving: the lower half (F, L) lowers hi, the upper half (B, R) raises lo. */
  function Halving(s: Span, upper: bool): Span
  {
    if upper then Span(s.lo + (Half(s.hi - s.lo) + 1), s.hi)
    else Span(s.lo, s.hi - (Half(s.hi - s.lo) + 1))
  }

  /** The effect of one ticket token; any other character only prints a message. */
  function Apply(b: Bounds, token: char): Bounds
  {
    match token
    case 'F' => b.(row := Halving(b.row, false))
    case 'B' => b.(row := Halving(b.row, true))
    case 'L' => b.(col := Halving(b.col, false))
    case 'R' => b.(col := Halving(b.col, true))
    case _ => b
  }

  /** The intervals after the tokens, applied left to right from `Start`. */
  function Narrow(tokens: seq<char>): Bounds
  {
    if tokens == [] then Start else Apply(Narrow(tokens[..|tokens| - 1]), tokens[|tokens| - 1])
  }

  /** The answer of `ticket_to_seat_id`, -1 standing for each rejected ticket. */
  function SeatId(ticket: string): int
  {
    if |ticket| != 10 then -1
    else
      var b := Narrow(ticket);
      if b.row.lo != b.row.hi then -1
      else if b.col.lo != b.col.hi then -1
      else b.row.lo * 8 + b.col.lo
  }

  /** `ticket_to_seat_id`. */
  method TicketToSeatId(ticket: string) returns (id: int)
    ensures id == SeatId(ticket)
  {
    if |ticket| != 10 {
      return -1;
    }
    var loRow, hiRow, loCol, hiCol := 0, 127, 0, 7;
    for i := 0 to |ticket|
      invariant Narrow(ticket[..i]) == Bounds(Span(loRow, hiRow), Span(loCol, hiCol))
    {
      assert ticket[..i + 1][..i] == ticket[..i];
      match ticket[i]
      case 'F' => hiRow := hiRow - (Half(hiRow - loRow) + 1);
      case 'B' => loRow := loRow + (Half(hiRow - loRow) + 1);
      case 'L' => hiCol := hiCol - (Half(hiCol - loCol) + 1);
      case 'R' => loCol := loCol + (Half(hiCol - loCol) + 1);
      case _ =>
    }
    assert ticket[..|ticket|] == ticket;
    if loRow != hiRow {
      return -1;
    }
    if loCol != hiCol {
      return -1;
    }
    return (loRow * 8) + loCol;
  }

  /** The row halving of one token, B as true; nothing for other tokens. */
  function RowBit(token: char): (r: seq<bool>)
    ensures |r| <= 1
  {
    if token == 'F' then [false] else if token == 'B' then [true] else []
  }

  /** The column halving of one token, R as true; nothing for other tokens. */
  function ColBit(token: char): (r: seq<bool>)
    ensures |r| <= 1
  {
    if token == 'L' then [false] else if token == 'R' then [true] else []
  }

  /** The row halvings of a ticket, in ticket order. */
  function RowBits(tokens: seq<char>): seq<bool>
  {
    if tokens == [] then [] else RowBits(tokens[..|tokens| - 1]) + RowBit(tokens[|tokens| - 1])
  }

  /** The column halvings of a ticket, in ticket order. */
  function ColBits(tokens: seq<char>): seq<bool>
  {
    if tokens == [] then [] else ColBits(tokens[..|tokens| - 1]) + ColBit(tokens[|tokens| - 1])
  }

  /** Several halvings, left to right. */
  function Halvings(s: Span, bits: seq<bool>): Span
  {
    if bits == [] then s else Halving(Halvings(s, bits[..|bits| - 1]), bits[|bits| - 1])
  }

  /** Halving by no bits or by one bit. */
  lemma HalvingsBit(s: Span, bits: seq<bool>, more: seq<bool>)
    requires |more| <= 1
    ensures Halvings(s, bits + more) == if more == [] then Halvings(s, bits) else Halving(Halvings(s, bits), more[0])
  {
    if more == [] {
      assert bits + more == bits;
    } else {
      assert (bits + more)[..|bits + more| - 1] == bits;
    }
  }

  /** Rows and columns do not interfere: each interval sees only its own tokens. */
  lemma {:induction false} Separate(tokens: seq<char>)
    ensures Narrow(tokens) == Bounds(Halvings(Start.row, RowBits(tokens)), Halvings(Start.col, ColBits(tokens)))
  {
    if tokens != [] {
      var front := tokens[..|tokens| - 1];
      var last := tokens[|tokens| - 1];
      Separate(front);
      var b := Narrow(front);
      assert Narrow(tokens) == Apply(b, last);
      assert RowBits(tokens) == RowBits(front) + RowBit(last);
      assert ColBits(tokens) == ColBits(front) + ColBit(last);
      HalvingsBit(Start.row, RowBits(front), RowBit(last));
      HalvingsBit(Start.col, ColBits(front), ColBit(last));
      ApplyBits(b, last);
    }
  }

  /** One token halves the row by its row bit and the column by its column bit. */
  lemma ApplyBits(b: Bounds, token: char)
    ensures Apply(b, token).row == if RowBit(token) == [] then b.row else Halving(b.row, RowBit(token)[0])
    ensures Apply(b, token).col == if ColBit(token) == [] then b.col else Halving(b.col, ColBit(token)[0])
  {
  }

  /** One of the four tokens a ticket is made of. */
  predicate Halves(token: char)
  {
    token == 'F' || token == 'B' || token == 'L' || token == 'R'
  }

  /** Each token gives at most one halving, and a ticket with one halving per token holds only F, B, L and R. */
  lemma {:induction false} BitsCount(tokens: seq<char>)
    ensures |RowBits(tokens)| + |ColBits(tokens)| <= |tokens|
    ensures |RowBits(tokens)| + |ColBits(tokens)| == |tokens| ==> forall k :: 0 <= k < |tokens| ==> Halves(tokens[k])
  {
    if tokens != [] {
      var front := tokens[..|tokens| - 1];
      var last := tokens[|tokens| - 1];
      BitsCount(front);
      assert |RowBits(tokens)| + |ColBits(tokens)| == |RowBits(front)| + |ColBits(front)| + |RowBit(last) + ColBit(last)|;
      assert |RowBit(last) + ColBit(last)| == if Halves(last) then 1 else 0;
      if |RowBits(tokens)| + |ColBits(tokens)| == |tokens| {
        assert forall k :: 0 <= k < |front| ==> tokens[k] == front[k];
      }
    }
  }

  function Pow2(k: nat): (p: nat)
    ensures p >= 1
  {
    if k == 0 then 1 else 2 * Pow2(k - 1)
  }

  /** The binary number spelled by bits, most significant first. */
  function Bin(bits: seq<bool>): (v: nat)
    ensures v < Pow2(|bits|)
  {
    if bits == [] then 0 else 2 * Bin(bits[..|bits| - 1]) + (if bits[|bits| - 1] then 1 else 0)
  }

  /**
   * Up to m halvings of 0..2^m - 1 leave the block of 2^(m - k) values
   * whose leading k bits are the halvings, lower half as 0.
   */
  lemma {:induction false} Exact(m: nat, bits: seq<bool>)
    requires |bits| <= m
    ensures var w := Pow2(m - |bits|);
      Halvings(Span(0, Pow2(m) - 1), bits) == Span(Bin(bits) * w, Bin(bits) * w + w - 1)
  {
    if bits != [] {
      var front := bits[..|bits| - 1];
      Exact(m, front);
      var w := Pow2(m - |bits|);
      assert Pow2(m - |front|) == 2 * w;
      var v := Bin(front);
      var lo := v * (2 * w);
      assert Halvings(Span(0, Pow2(m) - 1), front) == Span(lo, lo + 2 * w - 1);
      assert Half(2 * w - 1) == w - 1;
      Doubling(v, w);
    }
  }

  lemma Doubling(v: int, w: int)
    ensures v * (2 * w) == (2 * v) * w && (2 * v) * w + w == (2 * v + 1) * w
  {
  }

  /** Each further halving leaves the interval one or two below empty, never a single value. */
  lemma {:induction false} Beyond(m: nat, bits: seq<bool>)
    requires |bits| > m
    ensures var s := Halvings(Span(0, Pow2(m) - 1), bits); s.hi - s.lo == -1 || s.hi - s.lo == -2
  {
    var front := bits[..|bits| - 1];
    if |front| == m {
      Exact(m, front);
    } else {
      Beyond(m, front);
    }
  }

  /** With fewer than m halvings at least two values remain. */
  lemma Wide(m: nat, bits: seq<bool>)
    requires |bits| < m
    ensures var s := Halvings(Span(0, Pow2(m) - 1), bits); s.hi - s.lo >= 1
  {
    Exact(m, bits);
    assert Pow2(m - |bits|) == 2 * Pow2(m - |bits| - 1);
  }

  /** An interval of 2^m values ends as a single value exactly after m halvings, and that value is their binary number. */
  lemma Collapses(m: nat, bits: seq<bool>)
    ensures var s := Halvings(Span(0, Pow2(m) - 1), bits); s.lo == s.hi <==> |bits| == m
    ensures |bits| == m ==> Halvings(Span(0, Pow2(m) - 1), bits).lo == Bin(bits)
  {
    if |bits| < m {
      Wide(m, bits);
    } else if |bits| > m {
      Beyond(m, bits);
    } else {
      Exact(m, bits);
    }
  }

  /**
   * What the id means: a ticket gets an id exactly when it has ten tokens,
   * seven of them F or B and three L or R (so no other character); the id
   * is then the binary row number times 8 plus the binary column number,
   * between 0 and 1023.
   */
  lemma SeatIdMeans(ticket: string)
    ensures SeatId(ticket) != -1 <==> |ticket| == 10 && |RowBits(ticket)| == 7 && |ColBits(ticket)| == 3
    ensures SeatId(ticket) != -1 ==> forall k :: 0 <= k < |ticket| ==> Halves(ticket[k])
    ensures SeatId(ticket) != -1 ==> SeatId(ticket) == Bin(RowBits(ticket)) * 8 + Bin(ColBits(ticket))
    ensures SeatId(ticket) != -1 ==> 0 <= SeatId(ticket) <= 1023
  {
    Separate(ticket);
    BitsCount(ticket);
    Sizes();
    var rows, cols := RowBits(ticket), ColBits(ticket);
    Collapses(7, rows);
    Collapses(3, cols);
    if SeatId(ticket) != -1 {
      IdRange(Bin(rows), Bin(cols));
    }
  }

  lemma Sizes()
    ensures Pow2(7) - 1 == 127 && Pow2(3) - 1 == 7 && Pow2(7) == 128 && Pow2(3) == 8
  {
  }

  lemma IdRange(row: int, col: int)
    requires 0 <= row < 128 && 0 <= col < 8
    ensures 0 <= row * 8 + col <= 1023
  {
  }

  /** The ticket of row 44, column 5. */
  lemma Example()
    ensures SeatId("FBFBBFFRLR") == 357
  {
    var t := "FBFBBFFRLR";
    assert Narrow(t[..0]) == Bounds(Span(0, 127), Span(0, 7));
    assert t[..1][..0] == t[..0];
    assert Narrow(t[..1]) == Bounds(Span(0, 63), Span(0, 7));
    assert t[..2][..1] == t[..1];
    assert Narrow(t[..2]) == Bounds(Span(32, 63), Span(0, 7));
    assert t[..3][..2] == t[..2];
    assert Narrow(t[..3]) == Bounds(Span(32, 47), Span(0, 7));
    assert t[..4][..3] == t[..3];
    assert Narrow(t[..4]) == Bounds(Span(40, 47), Span(0, 7));
    assert t[..5][..4] == t[..4];
    assert Narrow(t[..5]) == Bounds(Span(44, 47), Span(0, 7));
    assert t[..6][..5] == t[..5];
    assert Narrow(t[..6]) == Bounds(Span(44, 45), Span(0, 7));
    assert t[..7][..6] == t[..6];
    assert Narrow(t[..7]) == Bounds(Span(44, 44), Span(0, 7));
    assert t[..8][..7] == t[..7];
    assert Narrow(t[..8]) == Bounds(Span(44, 44), Span(4, 7));
    assert t[..9][..8] == t[..8];
    assert Narrow(t[..9]) == Bounds(Span(44, 44), Span(4, 5));
    assert t[..10][..9] == t[..9];
    assert Narrow(t[..10]) == Bounds(Span(44, 44), Span(5, 5));
    assert t[..10] == t;
  }

  /** The integers strictly between a and b, in increasing order. */
  function Between(a: int, b: int): (r: seq<int>)
    ensures |r| == if b - 1 > a then b - 1 - a else 0
    ensures forall k :: 0 <= k < |r| ==> r[k] == a + 1 + k
    decreases b - a
  {
    if b - 1 > a then [a + 1] + Between(a + 1, b) else []
  }

  /** The id held in `prev_id` when id i is read: 16 for the first two. */
  function Prev(ids: seq<int>, i: nat): int
    requires i < |ids|
  {
    if i <= 1 then 16 else ids[i - 2]
  }

  /** The id held in `next_id` when id i is read: 16 for the first. */
  function Next(ids: seq<int>, i: nat): int
    requires i < |ids|
  {
    if i == 0 then 16 else ids[i - 1]
  }

  /** The gaps found while reading the first n ids. */
  function Gaps(ids: seq<int>, n: nat): seq<int>
    requires n <= |ids|
  {
    if n == 0 then [] else Gaps(ids, n - 1) + Between(Prev(ids, n - 1), Next(ids, n - 1))
  }

  /** `find_seat`. */
  method FindSeat(ids: seq<int>) returns (possible: seq<int>)
    ensures possible == Gaps(ids, |ids|)
  {
    var prev := 16;
    var next := 16;
    possible := [];
    for i := 0 to |ids|
      invariant possible == Gaps(ids, i)
      invariant prev == (if i <= 1 then 16 else ids[i - 2]) && next == (if i == 0 then 16 else ids[i - 1])
    {
      possible := Fill(possible, prev, next);
      prev := next;
      next := ids[i];
    }
  }

  /** The inner `while`: push every id strictly between prev and next. */
  method Fill(possible: seq<int>, prev: int, next: int) returns (more: seq<int>)
    ensures more == possible + Between(prev, next)
  {
    more := possible;
    var p := prev;
    if next - 1 > prev {
      while p < next - 1
        invariant prev <= p <= next - 1
        invariant more == possible + Between(prev, next)[..p - prev]
      {
        p := p + 1;
        more := more + [p];
      }
      assert Between(prev, next)[..p - prev] == Between(prev, next);
    }
  }

  /** An id lands in the result exactly when it lies strictly between a compared pair. */
  lemma {:induction false} GapsMeans(ids: seq<int>, n: nat, x: int)
    requires n <= |ids|
    ensures x in Gaps(ids, n) <==> exists i :: 0 <= i < n && Prev(ids, i) < x < Next(ids, i)
  {
    if n > 0 {
      GapsMeans(ids, n - 1, x);
      var b := Between(Prev(ids, n - 1), Next(ids, n - 1));
      if Prev(ids, n - 1) < x < Next(ids, n - 1) {
        assert b[x - Prev(ids, n - 1) - 1] == x;
      }
    }
  }

  /** The gap between the last two ids is never examined: the last id does not matter. */
  lemma {:induction false} LastIgnored(ids: seq<int>, n: nat, z: int)
    requires 1 <= n <= |ids|
    ensures Gaps(ids[..n - 1] + [z], n) == Gaps(ids, n)
  {
    var other := ids[..n - 1] + [z];
    forall i | 0 <= i < n
      ensures Prev(other, i) == Prev(ids, i) && Next(other, i) == Next(ids, i)
    {
    }
    SameGaps(other, ids, n);
  }

  lemma {:induction false} SameGaps(a: seq<int>, b: seq<int>, n: nat)
    requires n <= |a| && n <= |b|
    requires forall i :: 0 <= i < n ==> Prev(a, i) == Prev(b, i) && Next(a, i) == Next(b, i)
    ensures Gaps(a, n) == Gaps(b, n)
  {
    if n > 0 {
      SameGaps(a, b, n - 1);
    }
  }

  predicate Sorted(ids: seq<int>)
  {
    forall i, j :: 0 <= i <= j < |ids| ==> ids[i] <= ids[j]
  }

  /**
   * With the ids sorted as `main` leaves them, and none below 16, the
   * result holds exactly the ids above 16 and below the second-to-last id
   * that are not taken.
   */
  lemma SortedGaps(ids: seq<int>, x: int)
    requires |ids| >= 2 && Sorted(ids) && 16 <= ids[0]
    ensures x in Gaps(ids, |ids|) <==> 16 < x < ids[|ids| - 2] && x !in ids
  {
    GapsMeans(ids, |ids|, x);
    if x in Gaps(ids, |ids|) {
      var i :| 0 <= i < |ids| && Prev(ids, i) < x < Next(ids, i);
      GapIsFree(ids, i, x);
    }
    if 16 < x < ids[|ids| - 2] && x !in ids {
      var j := FirstAbove(ids, x, |ids| - 2);
      var i := if j == 0 then 1 else j + 1;
      assert Prev(ids, i) < x < Next(ids, i);
    }
  }

  /** An id strictly between a compared pair of sorted ids is above 16, below the second-to-last id and not taken. */
  lemma GapIsFree(ids: seq<int>, i: nat, x: int)
    requires |ids| >= 2 && Sorted(ids) && 16 <= ids[0]
    requires i < |ids| && Prev(ids, i) < x < Next(ids, i)
    ensures 16 < x < ids[|ids| - 2] && x !in ids
  {
    assert i >= 1;
    assert Next(ids, i) <= ids[|ids| - 2];
    forall j | 0 <= j < |ids|
      ensures ids[j] != x
    {
      if j <= i - 2 {
        assert ids[j] <= Prev(ids, i);
      } else {
        assert Next(ids, i) <= ids[j];
      }
    }
  }

  /** The first position at or before k whose id exceeds x. */
  lemma {:induction false} FirstAbove(ids: seq<int>, x: int, k: nat) returns (j: nat)
    requires k < |ids| && ids[k] > x && Sorted(ids)
    ensures j <= k && ids[j] > x && forall i :: 0 <= i < j ==> ids[i] <= x
  {
    if k == 0 {
      j := 0;
    } else if ids[k - 1] > x {
      j := FirstAbove(ids, x, k - 1);
    } else {
      j := k;
      assert forall i :: 0 <= i < k ==> ids[i] <= ids[k - 1];
    }
  }
}
