/**
 * Crab alignment of archive/2021/day7/src/main.rs: a histogram of crab
 * positions, the fuel to bring every crab to a reference position, and
 * the search for the cheapest reference.
 */
module CrabAlignment {
  import Text
  import Numbers
  import Tallies

  const I64Min := -0x8000_0000_0000_0000
  const I64Max := 0x7fff_ffff_ffff_ffff

  datatype Option<T> = None | Some(value: T)

  /** The positions of the input line: comma-separated, trimmed, those that are not an `i64` dropped. */
  function Positions(pieces: seq<string>): (r: seq<int>)
    ensures |r| <= |pieces| && forall i :: 0 <= i < |r| ==> I64Min <= r[i] <= I64Max
  {
    if pieces == [] then []
    else
      var front := Positions(pieces[..|pieces| - 1]);
      match Numbers.ParseInteger(Text.Trim(pieces[|pieces| - 1]), I64Min, I64Max)
      case Some(v) => front + [v]
      case None => front
  }

  function Occurrences(s: seq<int>, v: int): nat
  {
    if s == [] then 0 else Occurrences(s[..|s| - 1], v) + (if s[|s| - 1] == v then 1 else 0)
  }

  /** Every key of the histogram has at least one crab. */
  ghost predicate Occupied(positions: map<int, nat>)
  {
    forall k :: k in positions ==> positions[k] >= 1
  }

  /** `parse_input` after reading the line: the number of crabs at each position. */
  method ParseInput(line: string) returns (positions: map<int, nat>)
    ensures forall k :: Tallies.Get(positions, k) == Occurrences(Positions(Text.Split(line, ",")), k)
    ensures Occupied(positions)
  {
    positions := Histogram(Positions(Text.Split(line, ",")));
  }

  /** The counting loop of `parse_input`. */
  method Histogram(initial: seq<int>) returns (positions: map<int, nat>)
    ensures forall k :: Tallies.Get(positions, k) == Occurrences(initial, k)
    ensures Occupied(positions)
  {
    positions := map[];
    for i := 0 to |initial|
      invariant forall k :: Tallies.Get(positions, k) == Occurrences(initial[..i], k)
      invariant Occupied(positions)
    {
      assert initial[..i + 1][..i] == initial[..i];
      positions := Tallies.Add(positions, initial[i], 1);
    }
    assert initial[..|initial|] == initial;
  }

  /** The two ways of burning fuel: one unit a step, or one unit more for each step than the last. */
  datatype Fuel = Linear | Triangular

  function Burn(fuel: Fuel, n: nat): nat
  {
    match fuel
    case Linear => n
    case Triangular => Triangle(n)
  }

  /** 1 + 2 + ... + n. */
  function Triangle(n: nat): nat
  {
    if n == 0 then 0 else Triangle(n - 1) + n
  }

  /** The closed form `n * (n + 1) / 2` the program computes. */
  lemma {:induction false} TriangleClosed(n: nat)
    ensures Triangle(n) == n * (n + 1) / 2
    decreases n
  {
    if n > 0 {
      TriangleClosed(n - 1);
      assert n * (n + 1) == (n - 1) * n + 2 * n;
    }
  }

  function Abs(v: int): nat
  {
    if v < 0 then -v else v
  }

  /** The fuel for all crabs to reach the reference, entry by entry. */
  ghost function Cost(positions: map<int, nat>, reference: int, fuel: Fuel): nat
    decreases |positions|
  {
    if positions == map[] then 0
    else
      var e :| e in positions.Items;
      assert e.0 in positions && |positions - {e.0}| < |positions|;
      e.1 * Burn(fuel, Abs(e.0 - reference)) + Cost(positions - {e.0}, reference, fuel)
  }

  /** Any entry can be taken out first: the cost does not depend on the order of the entries. */
  lemma {:induction false} CostRemove(positions: map<int, nat>, reference: int, fuel: Fuel, k: int)
    requires k in positions
    ensures Cost(positions, reference, fuel)
         == positions[k] * Burn(fuel, Abs(k - reference)) + Cost(positions - {k}, reference, fuel)
    decreases |positions|
  {
    var e :| e in positions.Items && Cost(positions, reference, fuel)
         == e.1 * Burn(fuel, Abs(e.0 - reference)) + Cost(positions - {e.0}, reference, fuel);
    var j := e.0;
    if j != k {
      var mj, mk := positions - {j}, positions - {k};
      assert |mj| < |positions| && k in mj;
      CostRemove(mj, reference, fuel, k);
      assert |mk| < |positions| && j in mk;
      CostRemove(mk, reference, fuel, j);
      assert mj - {k} == mk - {j};
    }
  }

  /** The inner loop: the fuel of every entry of the histogram, in whatever order the entries come. */
  method Moves(positions: map<int, nat>, reference: int, fuel: Fuel) returns (moves: nat)
    ensures moves == Cost(positions, reference, fuel)
  {
    moves := 0;
    var rest := positions;
    while rest != map[]
      invariant moves + Cost(rest, reference, fuel) == Cost(positions, reference, fuel)
      decreases |rest|
    {
      var entry :| entry in rest.Items;
      assert entry.0 in rest && rest[entry.0] == entry.1;
      CostRemove(rest, reference, fuel, entry.0);
      moves := moves + EntryFuel(fuel, reference, entry);
      rest := rest - {entry.0};
    }
  }

  /** The fuel for n steps as the program computes it. */
  function Spent(fuel: Fuel, n: nat): (b: nat)
    ensures b == Burn(fuel, n)
  {
    TriangleClosed(n);
    match fuel
    case Linear => n
    case Triangular => n * (n + 1) / 2
  }

  /** The fuel of the crabs of one entry of the histogram. */
  function EntryFuel(fuel: Fuel, reference: int, entry: (int, nat)): (f: nat)
    ensures f == entry.1 * Burn(fuel, Abs(entry.0 - reference))
  {
    var (key, val) := entry;
    Spent(fuel, Abs(key - reference)) * val
  }

  /** Some position of a histogram that is not empty. */
  lemma SomePosition(positions: map<int, nat>) returns (k: int)
    requires positions != map[]
    ensures k in positions
  {
    var e :| e in positions.Items;
    k := e.0;
  }

  /** The largest position of a histogram. */
  ghost function Top(positions: map<int, nat>): (t: int)
    requires positions != map[]
    ensures t in positions && forall k :: k in positions ==> k <= t
    decreases |positions|
  {
    var e :| e in positions.Items;
    var rest := positions - {e.0};
    assert e.0 in positions && forall k :: k in positions ==> k == e.0 || k in rest;
    if rest == map[] then e.0
    else
      var t := Top(rest);
      if e.0 > t then e.0 else t
  }

  /** Only the largest position is at least every position. */
  lemma TopUnique(positions: map<int, nat>, t: int)
    requires t in positions && forall k :: k in positions ==> k <= t
    ensures t == Top(positions)
  {
    var top := Top(positions);
    assert top <= t && t <= top;
  }

  /** `positions.keys().max()`, which panics on an empty map. */
  method MaxKey(positions: map<int, nat>) returns (top: Option<int>)
    ensures top.None? <==> positions == map[]
    ensures top.Some? ==> top.value in positions && forall k :: k in positions ==> k <= top.value
  {
    if positions == map[] {
      return None;
    }
    var entries := positions.Items;
    var first :| first in entries;
    var best := first.0;
    entries := entries - {first};
    while entries != {}
      invariant best in positions && entries <= positions.Items
      invariant forall k :: k in positions && (k, positions[k]) !in entries ==> k <= best
      decreases |entries|
    {
      var entry :| entry in entries;
      if entry.0 > best {
        best := entry.0;
      }
      entries := entries - {entry};
    }
    return Some(best);
  }

  /** The running choice: a reference with a strictly lower cost wins, and so does any when the best so far costs 0. */
  function Choose(best: (int, nat), reference: int, moves: nat): (int, nat)
  {
    if best.1 == 0 || moves < best.1 then (reference, moves) else best
  }

  /** The choice after trying the references 0, 1, ... in order, starting from (0, 0); costs[r] is the cost of reference r. */
  function Pick(costs: seq<nat>): (int, nat)
  {
    if costs == [] then (0, 0)
    else Choose(Pick(costs[..|costs| - 1]), |costs| - 1, costs[|costs| - 1])
  }

  /** The costs of the references 0 to n - 1. */
  ghost function Costs(positions: map<int, nat>, fuel: Fuel, n: nat): (c: seq<nat>)
    ensures |c| == n
  {
    if n == 0 then [] else Costs(positions, fuel, n - 1) + [Cost(positions, n - 1, fuel)]
  }

  lemma {:induction false} CostsAt(positions: map<int, nat>, fuel: Fuel, n: nat, r: nat)
    requires r < n
    ensures Costs(positions, fuel, n)[r] == Cost(positions, r, fuel)
    decreases n
  {
    if r < n - 1 {
      CostsAt(positions, fuel, n - 1, r);
    }
  }

  /** Trying one more reference chooses between the choice so far and that reference. */
  lemma PickStep(positions: map<int, nat>, fuel: Fuel, n: nat)
    ensures Pick(Costs(positions, fuel, n + 1)) == Choose(Pick(Costs(positions, fuel, n)), n, Cost(positions, n, fuel))
  {
    var c := Costs(positions, fuel, n + 1);
    assert c == Costs(positions, fuel, n) + [Cost(positions, n, fuel)];
    assert c[..n] == Costs(positions, fuel, n);
  }

  /** How many references `0..max_value` tries. */
  function Exclusive(top: int): nat
  {
    if top > 0 then top else 0
  }

  /** How many references `0..=max_value` tries. */
  function Inclusive(top: int): nat
  {
    if top >= 0 then top + 1 else 0
  }

  /**
   * `calculate_minimal_position` (Linear) and
   * `calculate_real_minimal_position` (Triangular): every reference from 0
   * up to but not including the largest position is tried.
   */
  method MinimalPosition(positions: map<int, nat>, fuel: Fuel) returns (r: Option<(int, nat)>)
    ensures r.None? <==> positions == map[]
    ensures r.Some? ==> r.value == Pick(Costs(positions, fuel, Exclusive(Top(positions))))
  {
    var top := MaxKey(positions);
    if top.None? {
      return None;
    }
    TopUnique(positions, top.value);
    var best := TryReferences(positions, fuel, Exclusive(top.value));
    return Some(best);
  }

  /** The outer loop over the references 0 to n - 1, keeping the running choice. */
  method TryReferences(positions: map<int, nat>, fuel: Fuel, n: nat) returns (best: (int, nat))
    ensures best == Pick(Costs(positions, fuel, n))
  {
    var minMoves: nat, minPosition := 0, 0;
    for reference := 0 to n
      invariant (minPosition, minMoves) == Pick(Costs(positions, fuel, reference))
    {
      var moves := Moves(positions, reference, fuel);
      PickStep(positions, fuel, reference);
      if minMoves == 0 || moves < minMoves {
        minPosition := reference;
        minMoves := moves;
      }
    }
    return (minPosition, minMoves);
  }

  method CalculateMinimalPosition(positions: map<int, nat>) returns (r: Option<(int, nat)>)
    ensures r.None? <==> positions == map[]
    ensures r.Some? ==> r.value == Pick(Costs(positions, Linear, Exclusive(Top(positions))))
  {
    r := MinimalPosition(positions, Linear);
  }

  method CalculateRealMinimalPosition(positions: map<int, nat>) returns (r: Option<(int, nat)>)
    ensures r.None? <==> positions == map[]
    ensures r.Some? ==> r.value == Pick(Costs(positions, Triangular, Exclusive(Top(positions))))
  {
    r := MinimalPosition(positions, Triangular);
  }

  // What the choice means.

  lemma MulPositive(a: nat, b: nat)
    requires a >= 1 && b >= 1
    ensures a * b >= 1
  {
  }

  lemma TrianglePositive(n: nat)
    requires n >= 1
    ensures Triangle(n) >= 1
  {
  }

  /** Away from an occupied position, the crabs there burn fuel. */
  lemma CostPositive(positions: map<int, nat>, reference: int, fuel: Fuel, k: int)
    requires Occupied(positions) && k in positions && k != reference
    ensures Cost(positions, reference, fuel) >= 1
  {
    var n := Abs(k - reference);
    CostRemove(positions, reference, fuel, k);
    if fuel == Triangular {
      TrianglePositive(n);
    }
    MulPositive(positions[k], Burn(fuel, n));
  }

  /**
   * When every tried reference costs something, the choice is the first of
   * the cheapest among them: a cost of 0 never stands for "unset" by
   * mistake.
   */
  lemma {:induction false} PickIsFirstCheapest(costs: seq<nat>)
    requires costs != [] && forall r :: 0 <= r < |costs| ==> costs[r] >= 1
    ensures 0 <= Pick(costs).0 < |costs|
    ensures Pick(costs).1 == costs[Pick(costs).0]
    ensures forall r :: 0 <= r < |costs| ==> Pick(costs).1 <= costs[r]
    ensures forall r :: 0 <= r < Pick(costs).0 ==> Pick(costs).1 < costs[r]
    decreases |costs|
  {
    var front := costs[..|costs| - 1];
    assert forall r :: 0 <= r < |front| ==> front[r] == costs[r];
    if front != [] {
      PickIsFirstCheapest(front);
    }
  }

  /** A reference that costs 0 is chosen when it is tried last. */
  lemma PickFree(costs: seq<nat>)
    requires costs != [] && costs[|costs| - 1] == 0
    ensures Pick(costs) == (|costs| - 1, 0)
  {
  }

  /**
   * For any histogram `parse_input` builds whose largest position is
   * positive, the result is the first cheapest of the references tried.
   */
  lemma ParsedPick(positions: map<int, nat>, fuel: Fuel)
    requires Occupied(positions) && positions != map[] && Top(positions) >= 1
    ensures 0 <= Pick(Costs(positions, fuel, Exclusive(Top(positions)))).0 < Top(positions)
    ensures forall r :: 0 <= r < Top(positions) ==> Pick(Costs(positions, fuel, Exclusive(Top(positions)))).1 <= Cost(positions, r, fuel)
    ensures forall r :: 0 <= r < Pick(Costs(positions, fuel, Exclusive(Top(positions)))).0 ==> Pick(Costs(positions, fuel, Exclusive(Top(positions)))).1 < Cost(positions, r, fuel)
  {
    var top := Top(positions);
    assert Exclusive(top) == top;
    var costs := Costs(positions, fuel, top);
    forall r | 0 <= r < top
      ensures costs[r] >= 1 && costs[r] == Cost(positions, r, fuel)
    {
      CostsAt(positions, fuel, top, r);
      CostPositive(positions, r, fuel, top);
    }
    PickIsFirstCheapest(costs);
  }

  // The largest position is never tried.

  /** Three crabs at 5 and one at 0. */
  const Example: map<int, nat> := map[5 := 3, 0 := 1]

  /** The linear cost of the example. */
  lemma ExampleCost(r: int)
    requires 0 <= r <= 5
    ensures Cost(Example, r, Linear) == 3 * (5 - r) + r
  {
    var m := Example;
    var one: map<int, nat> := map[0 := 1];
    CostRemove(m, r, Linear, 5);
    assert m - {5} == one;
    CostRemove(one, r, Linear, 0);
    assert one - {0} == map[];
    assert m[5] == 3 && one[0] == 1;
    assert Burn(Linear, Abs(5 - r)) == 5 - r && Burn(Linear, Abs(0 - r)) == r;
  }

  /**
   * Three crabs at 5 and one at 0: references 0 to 4 are tried and 4 wins
   * at 7, though all crabs reach 5 for 5.
   */
  lemma LargestNeverTried()
    ensures Example != map[] && Top(Example) == 5
    ensures Pick(Costs(Example, Linear, Exclusive(Top(Example)))) == (4, 7)
    ensures Cost(Example, 5, Linear) == 5
  {
    var m := Example;
    assert 5 in m;
    TopUnique(m, 5);
    ExampleCost(0);
    ExampleCost(1);
    ExampleCost(2);
    ExampleCost(3);
    ExampleCost(4);
    ExampleCost(5);
    PickStep(m, Linear, 0);
    PickStep(m, Linear, 1);
    PickStep(m, Linear, 2);
    PickStep(m, Linear, 3);
    PickStep(m, Linear, 4);
    assert Pick(Costs(m, Linear, 0)) == (0, 0);
  }

  /** The search with the largest position included: references 0 to the largest. */
  method MinimalPositionInclusive(positions: map<int, nat>, fuel: Fuel) returns (r: Option<(int, nat)>)
    ensures r.None? <==> positions == map[]
    ensures r.Some? ==> r.value == Pick(Costs(positions, fuel, Inclusive(Top(positions))))
  {
    var top := MaxKey(positions);
    if top.None? {
      return None;
    }
    TopUnique(positions, top.value);
    var best := TryReferences(positions, fuel, Inclusive(top.value));
    return Some(best);
  }

  lemma BurnMono(fuel: Fuel, n: nat, f: nat)
    requires n <= f
    ensures Burn(fuel, n) <= Burn(fuel, f)
    decreases f
  {
    if fuel == Triangular && n < f {
      BurnMono(fuel, n, f - 1);
    }
  }

  lemma MulMono(c: nat, a: nat, b: nat)
    requires a <= b
    ensures c * a <= c * b
  {
  }

  /** Moving the reference further from every crab costs at least as much. */
  lemma {:induction false} CostMono(positions: map<int, nat>, fuel: Fuel, near: int, far: int)
    requires (forall k :: k in positions ==> k <= near <= far) || (forall k :: k in positions ==> far <= near <= k)
    ensures Cost(positions, near, fuel) <= Cost(positions, far, fuel)
    decreases |positions|
  {
    if positions != map[] {
      var e :| e in positions.Items;
      var k := e.0;
      assert k in positions;
      var rest := positions - {k};
      assert |rest| < |positions|;
      CostMono(rest, fuel, near, far);
      CostRemove(positions, near, fuel, k);
      CostRemove(positions, far, fuel, k);
      BurnMono(fuel, Abs(k - near), Abs(k - far));
      MulMono(positions[k], Burn(fuel, Abs(k - near)), Burn(fuel, Abs(k - far)));
    }
  }

  /** At the only occupied position nothing is burnt. */
  lemma ZeroAtOnly(positions: map<int, nat>, fuel: Fuel, top: int)
    requires top in positions && positions - {top} == map[]
    ensures Cost(positions, top, fuel) == 0
  {
    CostRemove(positions, top, fuel, top);
  }

  /**
   * With crabs only at non-negative positions, the references 0 to the
   * largest position top include one no integer beats, and the search through
   * them finds it.
   */
  lemma {:induction false} TriedIsOptimal(positions: map<int, nat>, fuel: Fuel, top: int, r: int)
    requires Occupied(positions) && top in positions && forall k :: k in positions ==> 0 <= k <= top
    ensures 0 <= Pick(Costs(positions, fuel, top + 1)).0 <= top
    ensures Pick(Costs(positions, fuel, top + 1)).1 <= Cost(positions, r, fuel)
  {
    var costs := Costs(positions, fuel, top + 1);
    var rest := positions - {top};
    if rest == map[] {
      // Every crab is at the top: it costs 0, and it is tried last.
      ZeroAtOnly(positions, fuel, top);
      CostsAt(positions, fuel, top + 1, top);
      PickFree(costs);
    } else {
      var other := SomePosition(rest);
      SpreadCosts(positions, fuel, top, other, costs);
      PickIsFirstCheapest(costs);
      var p := Pick(costs);
      if r > top {
        CostMono(positions, fuel, top, r);
        CostsAt(positions, fuel, top + 1, top);
        assert p.1 <= costs[top];
      } else if r < 0 {
        CostMono(positions, fuel, 0, r);
        CostsAt(positions, fuel, top + 1, 0);
        assert p.1 <= costs[0];
      } else {
        CostsAt(positions, fuel, top + 1, r);
        assert p.1 <= costs[r];
      }
    }
  }

  /** With crabs at two positions, every reference up to the top costs something. */
  lemma SpreadCosts(positions: map<int, nat>, fuel: Fuel, top: int, other: int, costs: seq<nat>)
    requires Occupied(positions) && top in positions && other in positions && other != top
    requires top >= 0 && costs == Costs(positions, fuel, top + 1)
    ensures forall q :: 0 <= q < |costs| ==> costs[q] >= 1
  {
    forall q | 0 <= q < |costs|
      ensures costs[q] >= 1
    {
      CostsAt(positions, fuel, top + 1, q);
      if q == top {
        CostPositive(positions, q, fuel, other);
      } else {
        CostPositive(positions, q, fuel, top);
      }
    }
  }

  /** What MinimalPositionInclusive returns for such a histogram is a cheapest reference. */
  lemma InclusiveIsOptimal(positions: map<int, nat>, fuel: Fuel, r: int)
    requires Occupied(positions) && positions != map[] && forall k :: k in positions ==> 0 <= k
    ensures 0 <= Pick(Costs(positions, fuel, Inclusive(Top(positions)))).0 <= Top(positions)
    ensures Pick(Costs(positions, fuel, Inclusive(Top(positions)))).1 <= Cost(positions, r, fuel)
  {
    var top := Top(positions);
    assert Inclusive(top) == top + 1;
    TriedIsOptimal(positions, fuel, top, r);
  }
}
