/**
 * Rucksack checks of day3/src/main.rs: each line is a rucksack of two
 * halves, its bad item is the first item of the second half also found in
 * the first, and every three consecutive rucksacks share a badge item.
 */
module Rucksack {

  datatype Option<T> = None | Some(value: T)

  /** The three panics of the program. */
  datatype Fault =
    | NoBadItem(rucksack: seq<char>)   // `bad_item` finds no shared item
    | NotAnItem(item: char)            // `item_value` of a character outside a-z and A-Z
    | NoBadge                          // `group_badge` finds no common item

  datatype Result<T> = Ok(value: T) | Err(fault: Fault)

  predicate Lower(c: char) { 'a' <= c <= 'z' }

  predicate Upper(c: char) { 'A' <= c <= 'Z' }

  /** `item_value`: a-z are worth 1 to 26, A-Z 27 to 52. */
  function ItemValue(item: char): (r: Result<int>)
    ensures r.Ok? <==> Lower(item) || Upper(item)
    ensures r.Err? ==> r.fault == NotAnItem(item)
    ensures r.Ok? ==> 1 <= r.value <= 52 && (r.value <= 26 <==> Lower(item))
  {
    var value := item as int;
    if 97 <= value <= 122 then Ok(value - 96)
    else if 65 <= value <= 90 then Ok(value - 38)
    else Err(NotAnItem(item))
  }

  /** The item worth v. */
  function ItemOf(v: int): char
    requires 1 <= v <= 52
  {
    if v <= 26 then (v + 96) as char else (v + 38) as char
  }

  /** Every value belongs to exactly one item: `ItemOf` inverts `item_value`. */
  lemma ItemValueInverse(item: char, v: int)
    ensures 1 <= v <= 52 ==> ItemValue(ItemOf(v)) == Ok(v)
    ensures ItemValue(item) == Ok(v) ==> ItemOf(v) == item
  {
  }

  /** The first position from i on, in the second half, whose item also lies in the first half. */
  function FirstShared(rucksack: seq<char>, i: nat): (r: Option<nat>)
    requires |rucksack| / 2 <= i <= |rucksack|
    ensures r.Some? ==> i <= r.value < |rucksack| && rucksack[r.value] in rucksack[..|rucksack| / 2]
    ensures forall j :: i <= j < |rucksack| && (r.None? || j < r.value) ==> rucksack[j] !in rucksack[..|rucksack| / 2]
    decreases |rucksack| - i
  {
    if i == |rucksack| then None
    else if rucksack[i] in rucksack[..|rucksack| / 2] then Some(i)
    else FirstShared(rucksack, i + 1)
  }

  /** The bad item: the first item of the second half that the first half also holds. */
  function BadItem(rucksack: seq<char>): Result<char>
  {
    match FirstShared(rucksack, |rucksack| / 2)
    case Some(i) => Ok(rucksack[i])
    case None => Err(NoBadItem(rucksack))
  }

  /** What the bad item means: an item in both halves, the earliest such in the second half; the panic when the halves share nothing. */
  lemma BadItemMeans(rucksack: seq<char>)
    ensures var middle := |rucksack| / 2;
      BadItem(rucksack).Err? <==> forall j :: middle <= j < |rucksack| ==> rucksack[j] !in rucksack[..middle]
    ensures var middle := |rucksack| / 2;
      BadItem(rucksack).Ok? ==>
        exists i :: middle <= i < |rucksack| && rucksack[i] == BadItem(rucksack).value && rucksack[i] in rucksack[..middle] && NoneShared(rucksack, i)
  {
    var middle := |rucksack| / 2;
    var r := FirstShared(rucksack, middle);
    if r.Some? {
      var i := r.value;
      assert middle <= i < |rucksack| && rucksack[i] == BadItem(rucksack).value;
    }
  }

  /** No position of the second half before i holds an item of the first half. */
  predicate NoneShared(rucksack: seq<char>, i: nat)
    requires i <= |rucksack|
  {
    forall j :: |rucksack| / 2 <= j < i ==> rucksack[j] !in rucksack[..|rucksack| / 2]
  }

  /** `bad_item`: the first half goes into a map, the second half is looked up in it. */
  method FindBadItem(rucksack: seq<char>) returns (r: Result<char>)
    ensures r == BadItem(rucksack)
  {
    var middle := |rucksack| / 2;
    var letters: map<char, bool> := map[];
    for i := 0 to |rucksack|
      invariant forall c :: c in letters <==> c in rucksack[..if i < middle then i else middle]
      invariant i >= middle ==> FirstShared(rucksack, middle) == FirstShared(rucksack, i)
    {
      if i < middle {
        assert rucksack[..i + 1] == rucksack[..i] + [rucksack[i]];
        letters := letters[rucksack[i] := true];
      } else {
        if rucksack[i] in letters {
          return Ok(rucksack[i]);
        }
      }
    }
    return Err(NoBadItem(rucksack));
  }

  /** The items all three rucksacks hold. */
  function Common(a: seq<char>, b: seq<char>, c: seq<char>): set<char>
  {
    set x | x in a && x in b && x in c
  }

  /** The badge of a group: one of its common items, the panic when there is none. */
  ghost function Badge(a: seq<char>, b: seq<char>, c: seq<char>): Result<char>
  {
    if Common(a, b, c) == {} then Err(NoBadge)
    else var x :| x in Common(a, b, c); Ok(x)
  }

  /** The count `group_badge` keeps for an item: 1 in the first rucksack, 2 also in the second, 3 also in the third, 0 otherwise. */
  function Level(x: char, a: seq<char>, b: seq<char>, c: seq<char>): int
  {
    if x !in a then 0 else if x !in b then 1 else if x !in c then 2 else 3
  }

  /**
   * `group_badge`: the three loops raise an item's count one rucksack at a
   * time, then the map is searched for a count of 3 in its own order, so
   * which common item comes back is left open.
   */
  method GroupBadge(a: seq<char>, b: seq<char>, c: seq<char>) returns (r: Result<char>)
    ensures r.Err? <==> Common(a, b, c) == {}
    ensures r.Err? ==> r.fault == NoBadge
    ensures r.Ok? ==> r.value in Common(a, b, c)
    ensures |Common(a, b, c)| <= 1 ==> r == Badge(a, b, c)
  {
    var seen := Seen(a, b, c);
    var remaining := seen.Keys;
    while remaining != {}
      invariant remaining <= seen.Keys
      invariant forall x :: x in seen && x !in remaining ==> seen[x] != 3
      decreases remaining
    {
      var key :| key in remaining;
      if seen[key] == 3 {
        r := Ok(key);
        OnlyOne(a, b, c, key);
        return;
      }
      remaining := remaining - {key};
    }
    assert forall x :: x in Common(a, b, c) ==> x in seen && Level(x, a, b, c) == 3;
    return Err(NoBadge);
  }

  /** A common item is the badge when it is the only one. */
  lemma OnlyOne(a: seq<char>, b: seq<char>, c: seq<char>, x: char)
    requires x in Common(a, b, c)
    ensures |Common(a, b, c)| <= 1 ==> Badge(a, b, c) == Ok(x)
  {
    var s := Common(a, b, c);
    if |s| <= 1 {
      var y :| y in s && Badge(a, b, c) == Ok(y);
      assert |s - {x}| == 0;
      assert y in s - {x} || y == x;
    }
  }

  /** The map after the three counting loops: exactly the items of the three rucksacks, each at its level. */
  method Seen(a: seq<char>, b: seq<char>, c: seq<char>) returns (seen: map<char, int>)
    ensures forall x :: x in seen <==> x in a || x in b || x in c
    ensures forall x :: x in seen ==> seen[x] == Level(x, a, b, c)
  {
    seen := map[];
    for i := 0 to |a|
      invariant forall x :: x in seen <==> x in a[..i]
      invariant forall x :: x in seen ==> seen[x] == 1
    {
      assert a[..i + 1] == a[..i] + [a[i]];
      seen := seen[a[i] := 1];
    }
    assert a[..|a|] == a;
    for i := 0 to |b|
      invariant forall x :: x in seen <==> x in a || x in b[..i]
      invariant forall x :: x in seen ==> seen[x] == if x !in a then 0 else if x in b[..i] then 2 else 1
    {
      assert b[..i + 1] == b[..i] + [b[i]];
      var entry := if b[i] in seen then seen[b[i]] else 0;
      seen := seen[b[i] := entry];
      if entry == 1 {
        seen := seen[b[i] := 2];
      }
    }
    assert b[..|b|] == b;
    for i := 0 to |c|
      invariant forall x :: x in seen <==> x in a || x in b || x in c[..i]
      invariant forall x :: x in seen ==> seen[x] == if x !in a then 0 else if x !in b then 1 else if x in c[..i] then 3 else 2
    {
      assert c[..i + 1] == c[..i] + [c[i]];
      var entry := if c[i] in seen then seen[c[i]] else 0;
      seen := seen[c[i] := entry];
      if entry == 2 {
        seen := seen[c[i] := 3];
      }
    }
    assert c[..|c|] == c;
  }

  /** The loop state of `ruck_check`: rucksacks seen, the two value sums, and the group being filled. */
  datatype Check = Check(rucks: nat, bad: int, badge: int, group: seq<seq<char>>)

  /** One rucksack: its bad item is valued, and it joins the group, whose badge is valued once there are three. */
  ghost function Step(t: Check, line: seq<char>): Result<Check>
  {
    match BadItem(line)
    case Err(f) => Err(f)
    case Ok(item) =>
      match ItemValue(item)
      case Err(f) => Err(f)
      case Ok(v) =>
        if |t.group| < 3 then
          var group := t.group + [line];
          if |group| == 3 then
            match Badge(group[0], group[1], group[2])
            case Err(f) => Err(f)
            case Ok(b) =>
              match ItemValue(b)
              case Err(f) => Err(f)
              case Ok(w) => Ok(Check(t.rucks + 1, t.bad + v, t.badge + w, []))
          else Ok(Check(t.rucks + 1, t.bad + v, t.badge, group))
        else Ok(Check(t.rucks + 1, t.bad + v, t.badge, t.group))
  }

  /** The state after the given lines, or the first panic. */
  ghost function Checked(lines: seq<seq<char>>): Result<Check>
  {
    if lines == [] then Ok(Check(0, 0, 0, []))
    else
      match Checked(lines[..|lines| - 1])
      case Err(f) => Err(f)
      case Ok(t) => Step(t, lines[|lines| - 1])
  }

  /** Every completed group has at most one common item, so its badge does not depend on map order. */
  ghost predicate UniqueBadges(lines: seq<seq<char>>)
  {
    lines == [] ||
    (UniqueBadges(lines[..|lines| - 1])
     && (|lines| % 3 == 0 ==> |Common(lines[|lines| - 3], lines[|lines| - 2], lines[|lines| - 1])| <= 1))
  }

  /** `ruck_check` over the lines of the input; the sums are what it prints. */
  method RuckCheck(lines: seq<seq<char>>) returns (r: Result<Check>)
    ensures UniqueBadges(lines) ==> r == Checked(lines)
    ensures r.Ok? ==> r.value.rucks == |lines|
  {
    var rucks, badValue, badgeValue := 0, 0, 0;
    var group: seq<seq<char>> := [];
    for i := 0 to |lines|
      invariant rucks == i && group == lines[i - i % 3..i]
      invariant UniqueBadges(lines[..i]) ==> Checked(lines[..i]) == Ok(Check(rucks, badValue, badgeValue, group))
    {
      CheckedNext(lines, i);
      GroupMoves(lines, i);
      var next := Pack(Check(rucks, badValue, badgeValue, group), lines[i]);
      if next.Err? {
        CheckedStops(lines, i + 1);
        return next;
      }
      rucks, badValue, badgeValue, group := next.value.rucks, next.value.bad, next.value.badge, next.value.group;
    }
    assert lines[..|lines|] == lines;
    return Ok(Check(rucks, badValue, badgeValue, group));
  }

  /** The loop body for one rucksack. */
  method Pack(t: Check, line: seq<char>) returns (r: Result<Check>)
    requires |t.group| < 3
    ensures (|t.group| == 2 ==> |Common(t.group[0], t.group[1], line)| <= 1) ==> r == Step(t, line)
    ensures r.Ok? ==> r.value.rucks == t.rucks + 1 && r.value.group == if |t.group| == 2 then [] else t.group + [line]
  {
    var bad := FindBadItem(line);
    if bad.Err? {
      return Err(bad.fault);
    }
    var value := ItemValue(bad.value);
    if value.Err? {
      return Err(value.fault);
    }
    var group := t.group + [line];
    if |group| == 3 {
      var badge := GroupBadge(group[0], group[1], group[2]);
      if badge.Err? {
        return Err(badge.fault);
      }
      var worth := ItemValue(badge.value);
      if worth.Err? {
        return Err(worth.fault);
      }
      return Ok(Check(t.rucks + 1, t.bad + value.value, t.badge + worth.value, []));
    }
    return Ok(Check(t.rucks + 1, t.bad + value.value, t.badge, group));
  }

  lemma CheckedNext(lines: seq<seq<char>>, i: nat)
    requires i < |lines|
    ensures Checked(lines[..i + 1]) == match Checked(lines[..i]) case Err(f) => Err(f) case Ok(t) => Step(t, lines[i])
    ensures UniqueBadges(lines[..i + 1]) <==>
      (UniqueBadges(lines[..i]) && ((i + 1) % 3 == 0 ==> |Common(lines[i - 2], lines[i - 1], lines[i])| <= 1))
  {
    assert lines[..i + 1][..i] == lines[..i];
  }

  /** A panic at some prefix is the panic of the whole input. */
  lemma {:induction false} CheckedStops(lines: seq<seq<char>>, n: nat)
    requires 1 <= n <= |lines| && (UniqueBadges(lines[..n]) ==> Checked(lines[..n]).Err?)
    ensures UniqueBadges(lines) ==> UniqueBadges(lines[..n]) && Checked(lines) == Checked(lines[..n])
    decreases |lines| - n
  {
    if n < |lines| {
      CheckedNext(lines, n);
      CheckedStops(lines, n + 1);
      assert lines[..|lines|] == lines;
    } else {
      assert lines[..n] == lines;
    }
  }

  /** The sum of the bad items' values, an independent account of the first total. */
  function BadTotal(lines: seq<seq<char>>): Result<int>
  {
    if lines == [] then Ok(0)
    else
      match BadTotal(lines[..|lines| - 1])
      case Err(f) => Err(f)
      case Ok(sum) =>
        match BadItem(lines[|lines| - 1])
        case Err(f) => Err(f)
        case Ok(item) =>
          match ItemValue(item)
          case Err(f) => Err(f)
          case Ok(v) => Ok(sum + v)
  }

  /**
   * What the totals mean: every line is counted, the bad-item total is the
   * sum over all lines, and the lines are grouped in consecutive threes,
   * the group in progress being the last |lines| % 3 lines.
   */
  lemma {:induction false} CheckedMeans(lines: seq<seq<char>>)
    ensures Checked(lines).Ok? ==> var t := Checked(lines).value;
      t.rucks == |lines| && BadTotal(lines) == Ok(t.bad) && t.group == lines[|lines| - |lines| % 3..]
  {
    if lines != [] {
      var n := |lines| - 1;
      CheckedMeans(lines[..n]);
      if Checked(lines[..n]).Ok? && Checked(lines).Ok? {
        var t := Checked(lines[..n]).value;
        assert Checked(lines) == Step(t, lines[n]);
        StepMeans(t, lines[n]);
        GroupMoves(lines, n);
        assert lines[n - n % 3..n] == lines[..n][n - n % 3..];
        assert lines[..n + 1] == lines;
      }
    }
  }

  /** The group in progress before line i, and after it. */
  lemma GroupMoves(lines: seq<seq<char>>, i: nat)
    requires i < |lines|
    ensures var g := lines[i - i % 3..i];
      |g| < 3 && (|g| == 2 <==> (i + 1) % 3 == 0)
      && (|g| == 2 ==> g[0] == lines[i - 2] && g[1] == lines[i - 1])
      && lines[i + 1 - (i + 1) % 3..i + 1] == if |g| == 2 then [] else g + [lines[i]]
  {
    NextMod(i);
    if i % 3 != 2 {
      assert lines[i - i % 3..i] + [lines[i]] == lines[i - i % 3..i + 1];
    }
  }

  /** The position within a group of three moves on by one, wrapping after the third. */
  lemma NextMod(i: nat)
    ensures (i + 1) % 3 == if i % 3 == 2 then 0 else i % 3 + 1
  {
    var q := i / 3;
    assert i == 3 * q + i % 3;
    if i % 3 == 2 {
      ModUnique3(i + 1, q + 1, 0);
    } else {
      ModUnique3(i + 1, q, i % 3 + 1);
    }
  }

  lemma ModUnique3(a: nat, q: int, r: int)
    requires a == 3 * q + r && 0 <= r < 3
    ensures a % 3 == r
  {
  }

  /** One step counts the rucksack, adds its bad item's value and moves the group on. */
  lemma StepMeans(t: Check, line: seq<char>)
    requires |t.group| < 3
    ensures Step(t, line).Ok? ==> BadItem(line).Ok? && ItemValue(BadItem(line).value).Ok?
    ensures Step(t, line).Ok? ==> var n := Step(t, line).value;
      n.rucks == t.rucks + 1 && n.bad == t.bad + ItemValue(BadItem(line).value).value
      && n.group == if |t.group| == 2 then [] else t.group + [line]
  {
  }
}
