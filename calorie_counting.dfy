/**
 * Calorie counting of day1/src/main.rs: blank lines separate the elves'
 * inventories, and after every calorie line the running total of the
 * current inventory competes for the three highest places.
 */
module CalorieCounting {
  import Numbers
  import SonarSweep

  datatype Inventory = Inventory(total: int, calories: seq<int>)

  /** The three highest totals seen, `first`, `second` and `third`. */
  datatype Podium = Podium(first: int, second: int, third: int)

  datatype State = State(inventories: seq<Inventory>, podium: Podium)

  /** `line.parse()?` returns the error of a line that is not an `i32`. */
  datatype Result<T> = Ok(value: T) | BadCalories(line: string)

  predicate Ordered(p: Podium)
  {
    p.first >= p.second >= p.third
  }

  function Values(p: Podium): multiset<int>
  {
    multiset{p.first, p.second, p.third}
  }

  /**
   * The nested comparisons: a total above `third` takes its place among
   * the three and the lowest of them drops out; any other total drops out
   * itself.
   */
  function Rank(p: Podium, total: int): (r: Podium)
    ensures Ordered(p) ==> Ordered(r)
    ensures Ordered(p) ==> r.first == if total > p.first then total else p.first
  {
    if total > p.third then
      if total > p.second then
        if total > p.first then Podium(total, p.first, p.second)
        else Podium(p.first, total, p.second)
      else Podium(p.first, p.second, total)
    else p
  }

  /** The podium keeps the three highest of its places and the new total: the one dropped is the lowest of the four. */
  lemma RankKeeps(p: Podium, total: int)
    requires Ordered(p)
    ensures var dropped := if total > p.third then p.third else total;
      Values(Rank(p, total)) + multiset{dropped} == Values(p) + multiset{total}
      && dropped <= Rank(p, total).third
  {
    if total > p.third {
      Shift(p.first, p.second, p.third, total);
    }
  }

  lemma Shift(a: int, b: int, c: int, total: int)
    requires a >= b >= c && c < total
    ensures Values(Rank(Podium(a, b, c), total)) + multiset{c} == multiset{a, b, c} + multiset{total}
  {
    var r := Rank(Podium(a, b, c), total);
    if total > a {
      assert r == Podium(total, a, b);
    } else if total > b {
      assert r == Podium(a, total, b);
    } else {
      assert r == Podium(a, b, total);
    }
  }

  /** One line of input: a blank line, or the first line, opens an inventory; a calorie line adds to the last one. */
  function Step(s: State, line: string): Result<State>
  {
    var inventories := if line == "" || s.inventories == [] then s.inventories + [Inventory(0, [])] else s.inventories;
    if line == "" then Ok(State(inventories, s.podium))
    else
      match Numbers.ParseInteger(line, SonarSweep.I32Min, SonarSweep.I32Max)
      case None => BadCalories(line)
      case Some(calories) =>
        var last := inventories[|inventories| - 1];
        var grown := Inventory(last.total + calories, last.calories + [calories]);
        Ok(State(inventories[..|inventories| - 1] + [grown], Rank(s.podium, grown.total)))
  }

  /** The state after the given lines, or the first unparsable calorie line. */
  function Tally(lines: seq<string>): Result<State>
  {
    if lines == [] then Ok(State([], Podium(0, 0, 0)))
    else
      match Tally(lines[..|lines| - 1])
      case BadCalories(line) => BadCalories(line)
      case Ok(s) => Step(s, lines[|lines| - 1])
  }

  /** The loop of `main` over the lines of the input. */
  method CountCalories(lines: seq<string>) returns (r: Result<State>)
    ensures r == Tally(lines)
  {
    var inventory: seq<Inventory> := [];
    var first, second, third := 0, 0, 0;
    for i := 0 to |lines|
      invariant Tally(lines[..i]) == Ok(State(inventory, Podium(first, second, third)))
    {
      TallyNext(lines, i);
      var next := Feed(inventory, first, second, third, lines[i]);
      if next.BadCalories? {
        TallyStops(lines, i + 1);
        return next;
      }
      inventory := next.value.inventories;
      first, second, third := next.value.podium.first, next.value.podium.second, next.value.podium.third;
    }
    assert lines[..|lines|] == lines;
    return Ok(State(inventory, Podium(first, second, third)));
  }

  /** The body of the loop for one line. */
  method Feed(inventory: seq<Inventory>, first: int, second: int, third: int, line: string) returns (r: Result<State>)
    ensures r == Step(State(inventory, Podium(first, second, third)), line)
  {
    var inventory' := inventory;
    if line == "" || |inventory'| == 0 {
      inventory' := inventory' + [Inventory(0, [])];
      if line == "" {
        return Ok(State(inventory', Podium(first, second, third)));
      }
    }
    var parsed := Numbers.ParseInteger(line, SonarSweep.I32Min, SonarSweep.I32Max);
    if parsed.None? {
      return BadCalories(line);
    }
    var total;
    inventory', total := AddCalories(inventory', parsed.value);
    var first', second', third' := Place(first, second, third, total);
    return Ok(State(inventory', Podium(first', second', third')));
  }

  /** `last.total += calories; last.calories.push(calories)` on the last inventory. */
  method AddCalories(inventory: seq<Inventory>, calories: int) returns (next: seq<Inventory>, total: int)
    requires |inventory| > 0
    ensures next == inventory[..|inventory| - 1] + [Inventory(inventory[|inventory| - 1].total + calories, inventory[|inventory| - 1].calories + [calories])]
    ensures total == inventory[|inventory| - 1].total + calories
  {
    var last := inventory[|inventory| - 1];
    last := Inventory(last.total + calories, last.calories + [calories]);
    next := inventory[..|inventory| - 1] + [last];
    total := last.total;
  }

  /** The nested comparisons of the loop body on the three places. */
  method Place(first: int, second: int, third: int, total: int) returns (first': int, second': int, third': int)
    ensures Podium(first', second', third') == Rank(Podium(first, second, third), total)
  {
    first', second', third' := first, second, third;
    if total > third {
      if total > second {
        if total > first {
          third' := second;
          second' := first;
          first' := total;
        } else {
          third' := second;
          second' := total;
        }
      } else {
        third' := total;
      }
    }
  }

  lemma TallyNext(lines: seq<string>, i: nat)
    requires i < |lines|
    ensures Tally(lines[..i + 1]) == match Tally(lines[..i]) case BadCalories(line) => BadCalories(line) case Ok(s) => Step(s, lines[i])
  {
    assert lines[..i + 1][..i] == lines[..i];
  }

  /** An error at some prefix is the error of the whole input. */
  lemma {:induction false} TallyStops(lines: seq<string>, n: nat)
    requires 1 <= n <= |lines| && Tally(lines[..n]).BadCalories?
    ensures Tally(lines) == Tally(lines[..n])
    decreases |lines| - n
  {
    if n < |lines| {
      assert lines[..n + 1][..n] == lines[..n];
      TallyStops(lines, n + 1);
      assert lines[..|lines|] == lines;
    } else {
      assert lines[..n] == lines;
    }
  }

  function Sum(s: seq<int>): int
  {
    if s == [] then 0 else Sum(s[..|s| - 1]) + s[|s| - 1]
  }

  /** The number of blank lines. */
  function Blanks(lines: seq<string>): nat
  {
    if lines == [] then 0 else Blanks(lines[..|lines| - 1]) + (if lines[|lines| - 1] == "" then 1 else 0)
  }

  /** The inventories' shape: one per blank line, plus one when the first line holds calories; each total is the sum of its calories. */
  predicate WellKept(lines: seq<string>, s: State)
  {
    |s.inventories| == Blanks(lines) + (if lines != [] && lines[0] != "" then 1 else 0)
    && forall k :: 0 <= k < |s.inventories| ==> s.inventories[k].total == Sum(s.inventories[k].calories)
  }

  /**
   * What the loop keeps: the blank lines split the inventories, the
   * podium is ordered, its first place is never negative, and no
   * inventory's total exceeds it.
   */
  lemma {:induction false} TallyMeans(lines: seq<string>)
    ensures Tally(lines).Ok? ==> Kept(lines, Tally(lines).value)
  {
    if lines != [] {
      var front := lines[..|lines| - 1];
      TallyMeans(front);
      if Tally(front).Ok? {
        assert front != [] ==> front[0] == lines[0];
        StepKeeps(front, Tally(front).value, lines[|lines| - 1]);
        assert front + [lines[|lines| - 1]] == lines;
      }
    }
  }

  lemma StepKeeps(front: seq<string>, s: State, line: string)
    requires Kept(front, s)
    ensures Step(s, line).Ok? ==> Kept(front + [line], Step(s, line).value)
  {
    var lines := front + [line];
    assert lines[..|lines| - 1] == front;
    assert Blanks(lines) == Blanks(front) + (if line == "" then 1 else 0);
    assert lines[0] == if front == [] then line else front[0];
    if s.inventories == [] && front != [] {
      FirstBlank(front);
    }
    if line == "" {
      BlankKeeps(front, s);
    } else if Step(s, line).Ok? {
      var calories := Numbers.ParseInteger(line, SonarSweep.I32Min, SonarSweep.I32Max).value;
      CaloriesKeep(front, s, line, calories);
    }
  }

  /** What every reachable state satisfies after the given lines. */
  predicate Kept(lines: seq<string>, s: State)
  {
    WellKept(lines, s) && Ordered(s.podium) && s.podium.first >= 0
    && forall k :: 0 <= k < |s.inventories| ==> s.inventories[k].total <= s.podium.first
  }

  /** A first line that is blank is counted among the blanks. */
  lemma {:induction false} FirstBlank(lines: seq<string>)
    requires lines != [] && lines[0] == ""
    ensures Blanks(lines) >= 1
  {
    if |lines| > 1 {
      FirstBlank(lines[..|lines| - 1]);
    }
  }

  lemma BlankKeeps(front: seq<string>, s: State)
    requires Kept(front, s)
    ensures Kept(front + [""], Step(s, "").value)
  {
    var lines := front + [""];
    assert lines[..|lines| - 1] == front;
    assert lines[0] == if front == [] then "" else front[0];
    var t := Step(s, "").value;
    assert t.inventories == s.inventories + [Inventory(0, [])];
  }

  lemma CaloriesKeep(front: seq<string>, s: State, line: string, calories: int)
    requires Kept(front, s) && line != ""
    requires Numbers.ParseInteger(line, SonarSweep.I32Min, SonarSweep.I32Max) == Numbers.Some(calories)
    requires s.inventories == [] ==> front == []
    ensures Kept(front + [line], Step(s, line).value)
  {
    var lines := front + [line];
    assert lines[..|lines| - 1] == front;
    assert lines[0] == if front == [] then line else front[0];
    var current := if s.inventories == [] then [Inventory(0, [])] else s.inventories;
    var last := current[|current| - 1];
    var grown := Inventory(last.total + calories, last.calories + [calories]);
    var t := Step(s, line).value;
    assert t.inventories == current[..|current| - 1] + [grown];
    assert (last.calories + [calories])[..|last.calories|] == last.calories;
    assert grown.total == Sum(grown.calories);
    assert forall k :: 0 <= k < |current| - 1 ==> t.inventories[k] == current[k];
  }

  /** An error names the first calorie line that is not an `i32`. */
  lemma {:induction false} TallyFails(lines: seq<string>)
    ensures Tally(lines).BadCalories? <==> exists k :: 0 <= k < |lines| && Unparsable(lines[k])
    ensures Tally(lines).BadCalories? ==>
      exists k :: 0 <= k < |lines| && Unparsable(lines[k]) && lines[k] == Tally(lines).line && FineBefore(lines, k)
  {
    if lines != [] {
      var front := lines[..|lines| - 1];
      TallyFails(front);
      assert forall k :: 0 <= k < |front| ==> front[k] == lines[k];
      if Tally(front).BadCalories? {
        var k :| 0 <= k < |front| && Unparsable(front[k]) && front[k] == Tally(front).line && FineBefore(front, k);
        assert Unparsable(lines[k]) && FineBefore(lines, k);
      } else {
        assert Unparsable(lines[|lines| - 1]) ==> Tally(lines).BadCalories?;
      }
    }
  }

  /** The intended ranking, once per inventory from its final total. */
  function Ranked(totals: seq<int>): (r: Podium)
    ensures Ordered(r)
  {
    if totals == [] then Podium(0, 0, 0) else Rank(Ranked(totals[..|totals| - 1]), totals[|totals| - 1])
  }

  /** The totals the intended ranking drops, one per total ranked. */
  function Dropped(totals: seq<int>): multiset<int>
  {
    if totals == [] then multiset{}
    else
      var p, t := Ranked(totals[..|totals| - 1]), totals[|totals| - 1];
      Dropped(totals[..|totals| - 1]) + multiset{if t > p.third then p.third else t}
  }

  /**
   * The intended podium holds the three highest of the totals and three
   * starting zeros: with the values it dropped it makes up all of them, and
   * nothing dropped beats third place.
   */
  lemma {:induction false} RankedKeeps(totals: seq<int>)
    ensures Values(Ranked(totals)) + Dropped(totals) == multiset{0, 0, 0} + multiset(totals)
    ensures forall d :: d in Dropped(totals) ==> d <= Ranked(totals).third
  {
    if totals != [] {
      var front, t := totals[..|totals| - 1], totals[|totals| - 1];
      assert totals == front + [t];
      RankedKeeps(front);
      RankedStepValues(front, t);
      RankedStepDropped(front, t);
    }
  }

  /** One more total ranked keeps the podium and the dropped totals making up all of them. */
  lemma RankedStepValues(front: seq<int>, t: int)
    requires Values(Ranked(front)) + Dropped(front) == multiset{0, 0, 0} + multiset(front)
    ensures Values(Ranked(front + [t])) + Dropped(front + [t]) == multiset{0, 0, 0} + multiset(front + [t])
  {
    var totals := front + [t];
    assert totals[..|totals| - 1] == front;
    var p, rest := Ranked(front), Dropped(front);
    var d := if t > p.third then p.third else t;
    RankKeeps(p, t);
    assert Ranked(totals) == Rank(p, t) && Dropped(totals) == rest + multiset{d};
    Regroup(Values(Rank(p, t)), rest, multiset{d}, Values(p), multiset{t}, multiset{0, 0, 0} + multiset(front));
  }

  /** One more total ranked keeps every dropped total at most third place. */
  lemma RankedStepDropped(front: seq<int>, t: int)
    requires forall d :: d in Dropped(front) ==> d <= Ranked(front).third
    ensures forall d :: d in Dropped(front + [t]) ==> d <= Ranked(front + [t]).third
  {
    var totals := front + [t];
    assert totals[..|totals| - 1] == front;
    var p := Ranked(front);
    RankKeeps(p, t);
    assert Ranked(totals) == Rank(p, t);
    assert p.third <= Rank(p, t).third;
  }

  lemma Regroup(a: multiset<int>, rest: multiset<int>, x: multiset<int>, b: multiset<int>, y: multiset<int>, c: multiset<int>)
    requires a + x == b + y && b + rest == c
    ensures a + (rest + x) == c + y
  {
    forall e
      ensures (a + (rest + x))[e] == (c + y)[e]
    {
      assert (a + x)[e] == (b + y)[e];
      assert (b + rest)[e] == c[e];
    }
  }

  /** The final totals of the inventories, in order. */
  function Totals(inventories: seq<Inventory>): (r: seq<int>)
    ensures |r| == |inventories| && forall i :: 0 <= i < |r| ==> r[i] == inventories[i].total
  {
    if inventories == [] then [] else Totals(inventories[..|inventories| - 1]) + [inventories[|inventories| - 1].total]
  }

  /** On the two lines of `TwoPlaces` the intended ranking gives the inventory first place only. */
  lemma OnePlace(a: int, b: int)
    requires 0 < a <= SonarSweep.I32Max && 0 < b <= SonarSweep.I32Max
    ensures Tally([Numbers.Show(a), Numbers.Show(b)]).Ok?
    ensures Ranked(Totals(Tally([Numbers.Show(a), Numbers.Show(b)]).value.inventories)) == Podium(a + b, 0, 0)
  {
    TwoPlaces(a, b);
    var inventories := Tally([Numbers.Show(a), Numbers.Show(b)]).value.inventories;
    assert Totals(inventories) == [a + b];
  }

  /** No line before position k is rejected. */
  predicate FineBefore(lines: seq<string>, k: nat)
    requires k <= |lines|
  {
    forall e :: 0 <= e < k ==> !Unparsable(lines[e])
  }

  /** A calorie line `line.parse()` rejects. */
  predicate Unparsable(line: string)
  {
    line != "" && Numbers.ParseInteger(line, SonarSweep.I32Min, SonarSweep.I32Max).None?
  }

  /**
   * The podium is updated after every line rather than after every
   * inventory, so one inventory of two positive lines a and b holds both
   * first place (a + b) and second place (its earlier total a).
   */
  lemma TwoPlaces(a: int, b: int)
    requires 0 < a <= SonarSweep.I32Max && 0 < b <= SonarSweep.I32Max
    ensures Tally([Numbers.Show(a), Numbers.Show(b)]).Ok?
    ensures Tally([Numbers.Show(a), Numbers.Show(b)]).value.podium == Podium(a + b, a, 0)
    ensures Tally([Numbers.Show(a), Numbers.Show(b)]).value.inventories == [Inventory(a + b, [a, b])]
  {
    Numbers.ParseShow(a, SonarSweep.I32Min, SonarSweep.I32Max);
    Numbers.ParseShow(b, SonarSweep.I32Min, SonarSweep.I32Max);
    var lines := [Numbers.Show(a), Numbers.Show(b)];
    assert Numbers.Show(a) != "" && Numbers.Show(b) != "";
    assert lines[..1] == [Numbers.Show(a)] && lines[..1][..0] == [];
    assert Tally([]) == Ok(State([], Podium(0, 0, 0)));
    var empty: seq<int> := [];
    assert empty + [a] == [a] && [a] + [b] == [a, b];
    assert [Inventory(0, empty)][..0] + [Inventory(a, [a])] == [Inventory(a, [a])];
    assert [Inventory(a, [a])][..0] + [Inventory(a + b, [a, b])] == [Inventory(a + b, [a, b])];
    assert Step(State([], Podium(0, 0, 0)), Numbers.Show(a)) == Ok(State([Inventory(a, [a])], Podium(a, 0, 0)));
    assert Tally(lines[..1]) == Ok(State([Inventory(a, [a])], Podium(a, 0, 0)));
    assert Step(State([Inventory(a, [a])], Podium(a, 0, 0)), Numbers.Show(b)) == Ok(State([Inventory(a + b, [a, b])], Podium(a + b, a, 0)));
  }
}
