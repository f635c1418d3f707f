/**
 * Lanternfish of archive/2021/day6/src/main.rs: the school kept as counts
 * of fish per spawn timer, one day a shift of the counts, and the same
 * days told fish by fish.
 */
module Lanternfish {
  import Text
  import Numbers

  const U64Max := 0xffff_ffff_ffff_ffff

  /** The timers of the input line: comma-separated, trimmed, those that are not a `u64` dropped. */
  function Timers(line: string): (ts: seq<nat>)
  {
    Parsed(Text.Split(line, ","))
  }

  function Parsed(pieces: seq<string>): (ts: seq<nat>)
    ensures |ts| <= |pieces|
  {
    if pieces == [] then []
    else
      var front := Parsed(pieces[..|pieces| - 1]);
      match Numbers.ParseUnsigned(Text.Trim(pieces[|pieces| - 1]), U64Max)
      case Some(v) => front + [v]
      case None => front
  }

  /** How many timers equal v. */
  function Occurrences(ts: seq<nat>, v: nat): nat
  {
    if ts == [] then 0 else Occurrences(ts[..|ts| - 1], v) + (if ts[|ts| - 1] == v then 1 else 0)
  }

  /** The counts of timers 0 to n - 1. */
  function Counts(ts: seq<nat>, n: nat): (b: seq<nat>)
    ensures |b| == n && forall i :: 0 <= i < n ==> b[i] == Occurrences(ts, i)
  {
    if n == 0 then [] else Counts(ts, n - 1) + [Occurrences(ts, n - 1)]
  }

  /** Counts of the timers from 0 to 8; larger timers are not counted. */
  function Buckets(ts: seq<nat>): (b: seq<nat>)
    ensures |b| == 9 && forall i :: 0 <= i < 9 ==> b[i] == Occurrences(ts, i)
  {
    Counts(ts, 9)
  }

  /** One day on the counts: every count moves one timer down, the old count at 0 joins 6 and becomes 8. */
  function Step(s: seq<nat>): (r: seq<nat>)
    requires |s| >= 9
    ensures |r| == |s|
  {
    s[1..7] + [s[7] + s[0], s[8], s[0]] + (if |s| > 9 then s[10..] + [s[|s| - 1]] else [])
  }

  /** A count moves down one place, but 6 also gains the old 0, 8 becomes the old 0, and the last stays. */
  lemma StepAt(s: seq<nat>, i: nat)
    requires |s| >= 9 && i < |s|
    ensures Step(s)[i] == if i == 8 then s[0] else if i == 6 then s[7] + s[0] else if i < |s| - 1 then s[i + 1] else s[i]
  {
  }

  /** `Fish::simulate` on any vector: fewer than two counts stay, and otherwise the vector needs nine. */
  predicate Simulable(s: seq<nat>)
  {
    |s| < 2 || |s| >= 9
  }

  function Tick(s: seq<nat>): (r: seq<nat>)
    requires Simulable(s)
    ensures Simulable(r) && |r| == |s|
  {
    if |s| < 2 then s else Step(s)
  }

  /** The counts after the given number of days. */
  function Days(s: seq<nat>, days: nat): (r: seq<nat>)
    requires Simulable(s)
    ensures Simulable(r) && |r| == |s|
  {
    if days == 0 then s else Tick(Days(s, days - 1))
  }

  function Sum(s: seq<nat>): nat
  {
    if s == [] then 0 else Sum(s[..|s| - 1]) + s[|s| - 1]
  }

  /** `Fish`: the school's counts, which `simulate` changes in place. */
  class Fish {
    var spawns: array<nat>

    constructor (counts: seq<nat>)
      ensures fresh(spawns) && spawns[..] == counts
    {
      spawns := new nat[|counts|](i requires 0 <= i < |counts| => counts[i]);
    }

    /** `simulate`: shift every count one place down, then add the old first count to 6 and set 8 to it. */
    method Simulate()
      requires Simulable(spawns[..])
      modifies spawns
      ensures spawns[..] == Tick(old(spawns[..]))
    {
      if spawns.Length < 2 {
        return;
      }
      var newSpawn := spawns[0];
      var len := spawns.Length;
      for index := 0 to len - 1
        invariant forall k :: 0 <= k < index ==> spawns[k] == old(spawns[k + 1])
        invariant forall k :: index <= k < len ==> spawns[k] == old(spawns[k])
      {
        spawns[index] := spawns[index + 1];
      }
      spawns[6] := spawns[6] + newSpawn;
      spawns[8] := newSpawn;
      forall i | 0 <= i < len
        ensures spawns[i] == Step(old(spawns[..]))[i]
      {
        StepAt(old(spawns[..]), i);
      }
    }
  }

  /** `parse_input` after reading the line: nine zero counts, then each timer up to 8 counted. */
  method ParseInput(line: string) returns (fish: Fish)
    ensures fresh(fish) && fresh(fish.spawns)
    ensures fish.spawns[..] == Buckets(Timers(line))
  {
    var initial := Timers(line);
    fish := Census(initial);
  }

  /** The counting loop of `parse_input`. */
  method Census(initial: seq<nat>) returns (fish: Fish)
    ensures fresh(fish) && fresh(fish.spawns)
    ensures fish.spawns[..] == Buckets(initial)
  {
    fish := new Fish(seq(9, i => 0));
    assert fish.spawns[..] == Buckets([]);
    for k := 0 to |initial|
      invariant fresh(fish.spawns)
      invariant fish.spawns[..] == Buckets(initial[..k])
    {
      var elem := initial[k];
      BucketsSnoc(initial[..k], elem);
      assert initial[..k + 1] == initial[..k] + [elem];
      if elem > 8 {
        continue;
      }
      fish.spawns[elem] := fish.spawns[elem] + 1;
    }
    assert initial[..|initial|] == initial;
  }

  /** One more timer raises its own count, if it is one of the nine. */
  lemma BucketsSnoc(ts: seq<nat>, t: nat)
    ensures Buckets(ts + [t]) == if t > 8 then Buckets(ts) else Buckets(ts)[t := Buckets(ts)[t] + 1]
  {
    assert (ts + [t])[..|ts|] == ts;
  }

  /** `simulate(school, days)`: the school after the days, and its total. */
  method SimulateDays(school: Fish, days: nat) returns (total: nat)
    requires Simulable(school.spawns[..])
    modifies school.spawns
    ensures school.spawns[..] == Days(old(school.spawns[..]), days)
    ensures total == Sum(school.spawns[..])
  {
    for day := 1 to days + 1
      invariant school.spawns[..] == Days(old(school.spawns[..]), day - 1)
    {
      school.Simulate();
    }
    total := SumOf(school.spawns);
  }

  /** `iter().sum()`. */
  method SumOf(a: array<nat>) returns (sum: nat)
    ensures sum == Sum(a[..])
  {
    sum := 0;
    for i := 0 to a.Length
      invariant sum == Sum(a[..i])
    {
      assert a[..i + 1][..i] == a[..i];
      sum := sum + a[i];
    }
    assert a[..a.Length] == a[..];
  }

  // The counts against the fish.

  /** With nine counts, one day adds exactly the fish that were at timer 0. */
  lemma StepTotal(s: seq<nat>)
    requires |s| == 9
    ensures Sum(Step(s)) == Sum(s) + s[0]
  {
    var r := Step(s);
    SumNine(s);
    SumNine(r);
  }

  lemma SumNine(s: seq<nat>)
    requires |s| == 9
    ensures Sum(s) == s[0] + s[1] + s[2] + s[3] + s[4] + s[5] + s[6] + s[7] + s[8]
  {
    assert Sum(s[..1]) == s[0] by {
      assert s[..1][..0] == [];
    }
    assert Sum(s[..2]) == Sum(s[..1]) + s[1] by {
      assert s[..2][..1] == s[..1];
    }
    assert Sum(s[..3]) == Sum(s[..2]) + s[2] by {
      assert s[..3][..2] == s[..2];
    }
    assert Sum(s[..4]) == Sum(s[..3]) + s[3] by {
      assert s[..4][..3] == s[..3];
    }
    assert Sum(s[..5]) == Sum(s[..4]) + s[4] by {
      assert s[..5][..4] == s[..4];
    }
    assert Sum(s[..6]) == Sum(s[..5]) + s[5] by {
      assert s[..6][..5] == s[..5];
    }
    assert Sum(s[..7]) == Sum(s[..6]) + s[6] by {
      assert s[..7][..6] == s[..6];
    }
    assert Sum(s[..8]) == Sum(s[..7]) + s[7] by {
      assert s[..8][..7] == s[..7];
    }
  }

  /** One fish's day: a fish at 0 restarts at 6 and spawns one at 8, any other counts down. */
  function Day(t: nat): seq<nat>
  {
    if t == 0 then [6, 8] else [t - 1]
  }

  /** The school told fish by fish after one day. */
  function FishStep(ts: seq<nat>): seq<nat>
  {
    if ts == [] then [] else FishStep(ts[..|ts| - 1]) + Day(ts[|ts| - 1])
  }

  function FishDays(ts: seq<nat>, days: nat): seq<nat>
  {
    if days == 0 then ts else FishStep(FishDays(ts, days - 1))
  }

  predicate Young(ts: seq<nat>)
  {
    forall k :: 0 <= k < |ts| ==> ts[k] <= 8
  }

  lemma {:induction false} FishStepYoung(ts: seq<nat>)
    requires Young(ts)
    ensures Young(FishStep(ts))
    decreases |ts|
  {
    if ts != [] {
      FishStepYoung(ts[..|ts| - 1]);
    }
  }

  /** Occurrences add up over a concatenation. */
  lemma {:induction false} OccurrencesAppend(a: seq<nat>, b: seq<nat>, v: nat)
    ensures Occurrences(a + b, v) == Occurrences(a, v) + Occurrences(b, v)
    decreases |b|
  {
    if b != [] {
      var init := b[..|b| - 1];
      OccurrencesAppend(a, init, v);
      assert (a + b)[..|a + b| - 1] == a + init;
    } else {
      assert a + b == a;
    }
  }

  /** How many fish a single fish's day leaves at timer v, against the counts' formula for v. */
  lemma DayOccurrences(t: nat, v: nat)
    requires t <= 8 && v <= 8
    ensures Occurrences(Day(t), v) == (if v == 8 then (if t == 0 then 1 else 0)
                                       else if v == 6 then (if t == 7 then 1 else 0) + (if t == 0 then 1 else 0)
                                       else (if t == v + 1 then 1 else 0))
  {
    if t == 0 {
      assert Day(t)[..1] == [6] && Day(t)[..1][..0] == [];
      assert Occurrences([6], v) == (if v == 6 then 1 else 0);
      assert Occurrences(Day(t), v) == Occurrences([6], v) + (if v == 8 then 1 else 0);
    } else {
      assert Day(t)[..0] == [];
    }
  }

  /** Shifting the counts is the same as moving every fish on one day. */
  lemma {:induction false} StepMatchesFish(ts: seq<nat>)
    requires Young(ts)
    ensures Step(Buckets(ts)) == Buckets(FishStep(ts))
    decreases |ts|
  {
    if ts != [] {
      var front, t := ts[..|ts| - 1], ts[|ts| - 1];
      StepMatchesFish(front);
      var b, b0 := Buckets(ts), Buckets(front);
      BucketsSnoc(front, t);
      assert front + [t] == ts;
      assert FishStep(ts) == FishStep(front) + Day(t);
      forall i | 0 <= i < 9
        ensures Step(b)[i] == Buckets(FishStep(front) + Day(t))[i]
      {
        StepMatchesAt(front, t, i);
      }
    } else {
      forall i | 0 <= i < 9
        ensures Step(Buckets([]))[i] == Buckets([])[i]
      {
        StepAt(Buckets([]), i);
      }
    }
  }

  /** One count of the step over one more fish, given the step over the others. */
  lemma StepMatchesAt(front: seq<nat>, t: nat, i: nat)
    requires Young(front + [t]) && i < 9
    requires Step(Buckets(front)) == Buckets(FishStep(front))
    ensures Step(Buckets(front + [t]))[i] == Buckets(FishStep(front) + Day(t))[i]
  {
    BucketsSnoc(front, t);
    OccurrencesAppend(FishStep(front), Day(t), i);
    DayOccurrences(t, i);
    StepAt(Buckets(front + [t]), i);
    StepAt(Buckets(front), i);
  }

  /** Over any number of days the counts follow the fish, and the total is the number of fish. */
  lemma {:induction false} DaysMatchFish(ts: seq<nat>, days: nat)
    requires Young(ts)
    ensures Young(FishDays(ts, days))
    ensures Days(Buckets(ts), days) == Buckets(FishDays(ts, days))
    ensures Sum(Days(Buckets(ts), days)) == |FishDays(ts, days)|
    decreases days
  {
    if days > 0 {
      DaysMatchFish(ts, days - 1);
      var before := FishDays(ts, days - 1);
      FishStepYoung(before);
      StepMatchesFish(before);
    }
    CountsTotal(FishDays(ts, days));
  }

  /** The counts of timers from 0 to 8 add up to the number of fish. */
  lemma {:induction false} CountsTotal(ts: seq<nat>)
    requires Young(ts)
    ensures Sum(Buckets(ts)) == |ts|
    decreases |ts|
  {
    if ts != [] {
      var front, t := ts[..|ts| - 1], ts[|ts| - 1];
      CountsTotal(front);
      BucketsSnoc(front, t);
      assert front + [t] == ts;
      SumNine(Buckets(ts));
      SumNine(Buckets(front));
    } else {
      SumNine(Buckets(ts));
    }
  }
}
