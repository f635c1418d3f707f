/**
 * Expense report search of archive/2020/day1/src/main.rs: for each entry
 * in order (skipping entries above 2020) the program reports the first
 * later entry that sums with it to 2020, then stops at the first pair of
 * later entries that completes a triple summing to 2020.
 */
module ReportRepair {
  import SonarSweep

  const Target := 2020

  datatype Option<T> = None | Some(value: T)

  /** What `main` prints, as positions into the entries. */
  datatype Report =
    | Pair(first: nat, second: nat)
    | Triple(first: nat, second: nat, third: nat)

  datatype Outcome = Reports(reports: seq<Report>) | BadLine(line: string)

  predicate PairSum(nums: seq<int>, i: nat, j: nat)
    requires i < |nums| && j < |nums|
  {
    nums[i] + nums[j] == Target
  }

  predicate TripleSum(nums: seq<int>, i: nat, j: nat, k: nat)
    requires i < |nums| && j < |nums| && k < |nums|
  {
    nums[i] + nums[j] + nums[k] == Target
  }

  /** The first position from j on that pairs with entry i. */
  function PairAfter(nums: seq<int>, i: nat, j: nat): (r: Option<nat>)
    requires i < |nums| && j <= |nums|
    ensures r.Some? ==> j <= r.value < |nums| && PairSum(nums, i, r.value)
    ensures forall t :: j <= t < |nums| && (r.None? || t < r.value) ==> !PairSum(nums, i, t)
    decreases |nums| - j
  {
    if j == |nums| then None
    else if PairSum(nums, i, j) then Some(j)
    else PairAfter(nums, i, j + 1)
  }

  /** The first position from k on that completes a triple with entries i and j. */
  function ThirdAfter(nums: seq<int>, i: nat, j: nat, k: nat): (r: Option<nat>)
    requires i < |nums| && j < |nums| && k <= |nums|
    ensures r.Some? ==> k <= r.value < |nums| && TripleSum(nums, i, j, r.value)
    ensures forall t :: k <= t < |nums| && (r.None? || t < r.value) ==> !TripleSum(nums, i, j, t)
    decreases |nums| - k
  {
    if k == |nums| then None
    else if TripleSum(nums, i, j, k) then Some(k)
    else ThirdAfter(nums, i, j, k + 1)
  }

  /** The first pair (j', k') with j <= j' < k', in the order of the two nested loops, completing a triple with entry i. */
  function SecondAfter(nums: seq<int>, i: nat, j: nat): (r: Option<(nat, nat)>)
    requires i < |nums| && j <= |nums|
    ensures r.Some? ==> j <= r.value.0 < r.value.1 < |nums| && TripleSum(nums, i, r.value.0, r.value.1)
    ensures r.Some? ==> forall t :: r.value.0 < t < r.value.1 ==> !TripleSum(nums, i, r.value.0, t)
    ensures forall s, t :: j <= s < t < |nums| && (r.None? || s < r.value.0) ==> !TripleSum(nums, i, s, t)
    decreases |nums| - j
  {
    if j == |nums| then None
    else
      match ThirdAfter(nums, i, j, j + 1)
      case Some(k) => Some((j, k))
      case None => SecondAfter(nums, i, j + 1)
  }

  /** The reports of the outer loop from entry i on. */
  function ReportsFrom(nums: seq<int>, i: nat): seq<Report>
    requires i <= |nums|
    decreases |nums| - i
  {
    if i == |nums| then []
    else if nums[i] > Target then ReportsFrom(nums, i + 1)
    else
      match SecondAfter(nums, i, i + 1)
      case Some((j, k)) => PairOf(nums, i) + [Triple(i, j, k)]
      case None => PairOf(nums, i) + ReportsFrom(nums, i + 1)
  }

  /** The pair report of entry i, if it has a partner. */
  function PairOf(nums: seq<int>, i: nat): (r: seq<Report>)
    requires i < |nums|
    ensures |r| <= 1 && forall n :: 0 <= n < |r| ==> r[n].Pair? && r[n].first == i
  {
    match PairAfter(nums, i, i + 1) case Some(j) => [Pair(i, j)] case None => []
  }

  /** The `second_index` loop: the first later entry summing with entry i to 2020. */
  method FirstPair(nums: seq<int>, i: nat) returns (r: Option<nat>)
    requires i < |nums|
    ensures r == PairAfter(nums, i, i + 1)
  {
    for j := i + 1 to |nums|
      invariant PairAfter(nums, i, i + 1) == PairAfter(nums, i, j)
    {
      if nums[i] + nums[j] == Target {
        return Some(j);
      }
    }
    return None;
  }

  /** The `third_index` loop for one second entry. */
  method FirstThird(nums: seq<int>, i: nat, j: nat) returns (r: Option<nat>)
    requires i < j < |nums|
    ensures r == ThirdAfter(nums, i, j, j + 1)
  {
    for k := j + 1 to |nums|
      invariant ThirdAfter(nums, i, j, j + 1) == ThirdAfter(nums, i, j, k)
    {
      if nums[i] + nums[j] + nums[k] == Target {
        return Some(k);
      }
    }
    return None;
  }

  /** The two nested loops of the triple search for first entry i. */
  method FirstTriple(nums: seq<int>, i: nat) returns (r: Option<(nat, nat)>)
    requires i < |nums|
    ensures r == SecondAfter(nums, i, i + 1)
  {
    for j := i + 1 to |nums|
      invariant SecondAfter(nums, i, i + 1) == SecondAfter(nums, i, j)
    {
      var k := FirstThird(nums, i, j);
      if k.Some? {
        return Some((j, k.value));
      }
    }
    return None;
  }

  /** The search loop of `main` over the parsed entries. */
  method Search(nums: seq<int>) returns (out: seq<Report>)
    ensures out == ReportsFrom(nums, 0)
  {
    out := [];
    for i := 0 to |nums|
      invariant ReportsFrom(nums, 0) == out + ReportsFrom(nums, i)
    {
      if nums[i] > Target {
        continue;
      }
      var p := FirstPair(nums, i);
      var pair := if p.Some? then [Pair(i, p.value)] else [];
      var t := FirstTriple(nums, i);
      if t.Some? {
        out := out + pair + [Triple(i, t.value.0, t.value.1)];
        return;
      }
      assert ReportsFrom(nums, i) == pair + ReportsFrom(nums, i + 1);
      out := out + pair;
    }
  }

  /** `main` after reading the file: every line must be an `i32`, otherwise the `expect` panics. */
  method Expenses(lines: seq<string>) returns (r: Outcome)
    ensures r.BadLine? <==> SonarSweep.Readings(lines).Unparsable?
    ensures r.Reports? ==> r.reports == ReportsFrom(SonarSweep.Readings(lines).nums, 0)
  {
    var parsed := SonarSweep.Readings(lines);
    if parsed.Unparsable? {
      return BadLine(parsed.line);
    }
    var reports := Search(parsed.nums);
    return Reports(reports);
  }

  /** Every report is a genuine sum, between ordered positions, whose first entry is at most 2020. */
  predicate Genuine(nums: seq<int>, r: Report)
  {
    match r
    case Pair(i, j) => i < j < |nums| && nums[i] <= Target && PairSum(nums, i, j)
    case Triple(i, j, k) => i < j < k < |nums| && nums[i] <= Target && TripleSum(nums, i, j, k)
  }

  /** Entry j is the nearest partner of entry i. */
  predicate Nearest(nums: seq<int>, i: nat, j: nat)
    requires i < j < |nums|
  {
    forall t :: i < t < j ==> !PairSum(nums, i, t)
  }

  /**
   * The reports from first entry i on mean what `main` prints: each is a
   * genuine sum; each pair has the nearest partner; only the last report
   * can be a triple, the others come in increasing order of first entry;
   * a triple is the first one in the loops' order.
   */
  predicate Means(nums: seq<int>, i: nat, out: seq<Report>)
  {
    AllGenuine(nums, i, out) && AllNearest(nums, out) && Ordered(out) && TriplesFirst(nums, i, out)
  }

  predicate AllGenuine(nums: seq<int>, i: nat, out: seq<Report>)
  {
    forall n :: 0 <= n < |out| ==> Genuine(nums, out[n]) && i <= out[n].first
  }

  predicate AllNearest(nums: seq<int>, out: seq<Report>)
  {
    forall n :: 0 <= n < |out| && out[n].Pair? ==> Genuine(nums, out[n]) && Nearest(nums, out[n].first, out[n].second)
  }

  predicate Ordered(out: seq<Report>)
  {
    forall n, m :: 0 <= n < m < |out| ==> Before(out[n], out[m])
  }

  /** A report followed by another: the first is a pair whose first entry comes no later. */
  predicate Before(r: Report, s: Report)
  {
    r.Pair? && r.first <= s.first
  }

  predicate TriplesFirst(nums: seq<int>, i: nat, out: seq<Report>)
  {
    forall n :: 0 <= n < |out| && out[n].Triple? ==> Genuine(nums, out[n]) && NoEarlierTriple(nums, i, out[n])
  }

  lemma {:induction false} ReportsMeans(nums: seq<int>, i: nat)
    requires i <= |nums|
    ensures Means(nums, i, ReportsFrom(nums, i))
    decreases |nums| - i
  {
    if i < |nums| {
      ReportsMeans(nums, i + 1);
      var rest := ReportsFrom(nums, i + 1);
      if nums[i] > Target {
        Skip(nums, i, rest);
      } else if SecondAfter(nums, i, i + 1).Some? {
        TripleMeans(nums, i);
      } else {
        PairMeans(nums, i);
        Skip(nums, i, rest);
        Join(nums, i, PairOf(nums, i), rest);
      }
    }
  }

  lemma PairMeans(nums: seq<int>, i: nat)
    requires i < |nums| && nums[i] <= Target
    ensures Means(nums, i, PairOf(nums, i))
  {
    var p := PairAfter(nums, i, i + 1);
    if p.Some? {
      assert PairOf(nums, i) == [Pair(i, p.value)];
      assert Nearest(nums, i, p.value);
    }
  }

  /** The reports of an entry that completes a triple end there. */
  lemma TripleMeans(nums: seq<int>, i: nat)
    requires i < |nums| && nums[i] <= Target && SecondAfter(nums, i, i + 1).Some?
    ensures Means(nums, i, ReportsFrom(nums, i))
  {
    var (j, k) := SecondAfter(nums, i, i + 1).value;
    assert Means(nums, i, [Triple(i, j, k)]);
    PairMeans(nums, i);
    Join(nums, i, PairOf(nums, i), [Triple(i, j, k)]);
  }

  /** Reports from i + 1 on keep their meaning from i on when entry i reports no triple. */
  lemma Skip(nums: seq<int>, i: nat, rest: seq<Report>)
    requires i < |nums| && Means(nums, i + 1, rest)
    requires nums[i] <= Target ==> forall b, c :: i < b < c < |nums| ==> !TripleSum(nums, i, b, c)
    ensures Means(nums, i, rest)
  {
    assert forall n :: 0 <= n < |rest| ==> Genuine(nums, rest[n]) && i <= rest[n].first;
    forall n | 0 <= n < |rest| && rest[n].Triple?
      ensures Genuine(nums, rest[n]) && NoEarlierTriple(nums, i, rest[n])
    {
      assert Genuine(nums, rest[n]) && NoEarlierTriple(nums, i + 1, rest[n]);
    }
  }

  /** The pair of entry i, then what follows it. */
  lemma Join(nums: seq<int>, i: nat, pair: seq<Report>, rest: seq<Report>)
    requires |pair| <= 1 && (forall n :: 0 <= n < |pair| ==> pair[n].Pair? && pair[n].first == i)
    requires Means(nums, i, pair) && Means(nums, i, rest)
    ensures Means(nums, i, pair + rest)
  {
    var out := pair + rest;
    assert forall n :: |pair| <= n < |out| ==> out[n] == rest[n - |pair|];
    assert forall n :: 0 <= n < |pair| ==> out[n] == pair[n];
    assert AllGenuine(nums, i, out);
    assert AllNearest(nums, out);
    assert TriplesFirst(nums, i, out);
    JoinOrdered(pair, rest, i);
  }

  lemma JoinOrdered(pair: seq<Report>, rest: seq<Report>, i: nat)
    requires |pair| <= 1 && (forall n :: 0 <= n < |pair| ==> pair[n].Pair? && pair[n].first == i)
    requires Ordered(rest) && forall n :: 0 <= n < |rest| ==> i <= rest[n].first
    ensures Ordered(pair + rest)
  {
    if pair != [] {
      var out := pair + rest;
      assert out == [pair[0]] + rest;
      assert forall m :: 1 <= m < |out| ==> out[m] == rest[m - 1];
      forall n, m | 0 <= n < m < |out|
        ensures Before(out[n], out[m])
      {
        assert out[m] == rest[m - 1];
        if n == 0 {
          assert out[n] == pair[0];
        } else {
          assert out[n] == rest[n - 1];
          assert Before(rest[n - 1], rest[m - 1]);
        }
      }
    } else {
      assert pair + rest == rest;
    }
  }

  /** No triple comes before r in the order of the three nested loops from first entry i on (first entries above 2020 being skipped). */
  predicate NoEarlierTriple(nums: seq<int>, i: nat, r: Report)
    requires r.Triple? && Genuine(nums, r)
  {
    (forall a, b, c :: i <= a < r.first && a < b < c < |nums| && nums[a] <= Target ==> !TripleSum(nums, a, b, c))
    && (forall b, c :: r.first < b < r.second && b < c < |nums| ==> !TripleSum(nums, r.first, b, c))
    && (forall c :: r.second < c < r.third && c < |nums| ==> !TripleSum(nums, r.first, r.second, c))
  }

  /** Conversely, every entry up to 2020 with a later partner is reported, unless an earlier entry completed a triple. */
  lemma {:induction false} ReportsComplete(nums: seq<int>, i: nat, a: nat)
    requires i <= a < |nums| && nums[a] <= Target && PairAfter(nums, a, a + 1).Some?
    requires forall e :: i <= e < a && nums[e] <= Target ==> SecondAfter(nums, e, e + 1).None?
    ensures Pair(a, PairAfter(nums, a, a + 1).value) in ReportsFrom(nums, i)
    decreases a - i
  {
    if i == a {
      assert PairOf(nums, a) == [Pair(a, PairAfter(nums, a, a + 1).value)];
    } else {
      ReportsComplete(nums, i + 1, a);
    }
  }

  /** The example report: 1721 + 299 is the pair, 979 + 366 + 675 the triple. */
  lemma Example()
    ensures ReportsFrom([1721, 979, 366, 299, 675, 1456], 0) == [Pair(0, 3), Triple(1, 2, 4)]
  {
    var nums := [1721, 979, 366, 299, 675, 1456];
    assert PairAfter(nums, 0, 1) == Some(3);
    assert SecondAfter(nums, 0, 1) == None;
    assert PairAfter(nums, 1, 2) == None;
    assert ThirdAfter(nums, 1, 2, 3) == Some(4);
    assert SecondAfter(nums, 1, 2) == Some((2, 4));
  }
}
