/**
 * Extended polymerization of 2021/day14/src/main.rs: the polymer is kept
 * as counts of its adjacent pairs; a step replaces every pair by the two
 * pairs its rule produces; and the answer is read from element counts.
 * Hash-map iteration order is unspecified, so the loops over a map visit
 * its keys in an arbitrary order and every contract is independent of it.
 */
module Polymerization {
  import Text
  import opened Tallies

  datatype Fault =
    | NoPolymer           // `lines[0]` of an empty file, or `lines[2..]` of a one-line file
    | ArrowInPolymer      // the first line holds "->"
    | BadRule(line: string)
    | MissingRule(pair: Pair)  // `subs[&pair]`
    | NoElements          // `elements[&max]` on an empty map

  datatype Result<T> = Ok(value: T) | Err(fault: Fault)

  /** A two-element key of the pair counts and of the rules. */
  datatype Pair = Pair(first: char, second: char)

  // Rules.

  /** One `AB -> C` line: the key AB and its substitution ACB, built by inserting C's last character at index 1. */
  function Rule(line: string): (r: Result<(Pair, string)>)
    ensures r.Ok? ==> var (pair, sub) := r.value; |sub| == 3 && sub[0] == pair.first && sub[2] == pair.second
  {
    var tokens := Text.Split(line, " -> ");
    if |tokens| != 2 || |tokens[0]| != 2 || tokens[1] == [] then Err(BadRule(line))
    else Ok((Pair(tokens[0][0], tokens[0][1]), [tokens[0][0], tokens[1][|tokens[1]| - 1], tokens[0][1]]))
  }

  /** Every rule maps a pair to the pair with one element inserted between its two, as `Rule` builds them. */
  predicate WellFormed(subs: map<Pair, string>)
  {
    forall pair :: pair in subs ==> |subs[pair]| == 3 && subs[pair][0] == pair.first && subs[pair][2] == pair.second
  }

  /** `collect` into a map: a later rule for the same pair replaces an earlier one. */
  function Rules(lines: seq<string>): (r: Result<map<Pair, string>>)
    ensures r.Ok? ==> WellFormed(r.value)
  {
    if lines == [] then Ok(map[])
    else
      match Rules(lines[..|lines| - 1])
      case Err(f) => Err(f)
      case Ok(m) =>
        match Rule(lines[|lines| - 1])
        case Err(f) => Err(f)
        case Ok((pair, sub)) => Ok(m[pair := sub])
  }

  /** The rule a pair ends up with is the last line's for it. */
  lemma {:induction false} RulesLastWins(lines: seq<string>, i: nat)
    requires Rules(lines).Ok? && i < |lines|
    ensures Rule(lines[i]).Ok? && Rule(lines[i]).value.0 in Rules(lines).value
    ensures (forall j :: i < j < |lines| && Rule(lines[j]).Ok? ==> Rule(lines[j]).value.0 != Rule(lines[i]).value.0) ==>
              Rules(lines).value[Rule(lines[i]).value.0] == Rule(lines[i]).value.1
    decreases |lines|
  {
    var prefix := lines[..|lines| - 1];
    if i < |lines| - 1 {
      assert prefix[i] == lines[i];
      RulesLastWins(prefix, i);
      assert forall j :: i < j < |prefix| ==> prefix[j] == lines[j];
      var last := Rule(lines[|lines| - 1]);
      assert last.Ok?;
    }
  }

  /** `parse_input` on the lines of the file: the polymer template and the rules from the third line on. */
  function ParseInput(lines: seq<string>): (r: Result<(string, map<Pair, string>)>)
    ensures |lines| < 2 ==> r == Err(NoPolymer)
    ensures r.Ok? ==> r.value.0 == lines[0] && !Text.Contains(lines[0], "->") && Rules(lines[2..]) == Ok(r.value.1)
    ensures r.Ok? ==> WellFormed(r.value.1)
  {
    if |lines| < 2 then Err(NoPolymer)
    else if Text.Contains(lines[0], "->") then Err(ArrowInPolymer)
    else
      match Rules(lines[2..])
      case Err(f) => Err(f)
      case Ok(subs) => Ok((lines[0], subs))
  }

  // Pair counts.

  /** The number of adjacent windows of s equal to q. */
  function Occ(s: string, q: Pair): nat
  {
    if |s| < 2 then 0 else Occ(s[..|s| - 1], q) + (if Window(s, |s| - 2) == q then 1 else 0)
  }

  function Windows(s: string): nat
  {
    if |s| < 2 then 0 else |s| - 1
  }

  /** The window of s at i, as `windows(2)` yields it. */
  function Window(s: string, i: nat): Pair
    requires i + 2 <= |s|
  {
    Pair(s[i], s[i + 1])
  }

  /** The windows of s as a set. */
  function WindowSet(s: string): set<Pair>
  {
    set i | 0 <= i < |s| - 1 :: Window(s, i)
  }

  /** The pair counts of the polymer, kept in place as `update_pairs` and `substitute` change them. */
  class PairCounts {
    var counts: map<Pair, nat>

    constructor ()
      ensures counts == map[]
    {
      counts := map[];
    }
  }

  /** `update_pairs`: adds `count` for each adjacent window of the polymer. */
  method UpdatePairs(polymer: string, pairs: PairCounts, count: nat)
    modifies pairs
    ensures forall q :: Get(pairs.counts, q) == Get(old(pairs.counts), q) + count * Occ(polymer, q)
    ensures Total(pairs.counts) == Total(old(pairs.counts)) + count * Windows(polymer)
    ensures forall q :: q in pairs.counts <==> q in old(pairs.counts) || q in WindowSet(polymer)
  {
    if |polymer| < 2 {
      assert WindowSet(polymer) == {};
      return;
    }
    var i := 1;
    assert WindowSet(polymer[..1]) == {};
    while i < |polymer|
      invariant 1 <= i <= |polymer|
      invariant forall q :: Get(pairs.counts, q) == Get(old(pairs.counts), q) + count * Occ(polymer[..i], q)
      invariant Total(pairs.counts) == Total(old(pairs.counts)) + count * (i - 1)
      invariant pairs.counts.Keys == old(pairs.counts.Keys) + WindowSet(polymer[..i])
    {
      AddWindow(old(pairs.counts), pairs.counts, polymer, i, count);
      pairs.counts := Add(pairs.counts, Window(polymer, i - 1), count);
      i := i + 1;
    }
    assert polymer[..i] == polymer;
  }

  /** One pass of the window loop of `update_pairs`. */
  lemma AddWindow(m0: map<Pair, nat>, m: map<Pair, nat>, polymer: string, i: nat, count: nat)
    requires 1 <= i < |polymer|
    requires forall q :: Get(m, q) == Get(m0, q) + count * Occ(polymer[..i], q)
    requires Total(m) == Total(m0) + count * (i - 1)
    requires m.Keys == m0.Keys + WindowSet(polymer[..i])
    ensures var n := Add(m, Window(polymer, i - 1), count);
            && (forall q :: Get(n, q) == Get(m0, q) + count * Occ(polymer[..i + 1], q))
            && Total(n) == Total(m0) + count * i
            && n.Keys == m0.Keys + WindowSet(polymer[..i + 1])
  {
    var pair := Window(polymer, i - 1);
    var n := Add(m, pair, count);
    TotalAdd(m, pair, count);
    OccNext(polymer, i + 1);
    WindowSetNext(polymer, i + 1);
    forall q
      ensures Get(n, q) == Get(m0, q) + count * Occ(polymer[..i + 1], q)
    {
      var k := if pair == q then 1 else 0;
      assert Occ(polymer[..i + 1], q) == Occ(polymer[..i], q) + k;
      Distribute(count, Occ(polymer[..i], q), k);
    }
    Distribute(count, i - 1, 1);
  }

  lemma OccNext(s: string, n: nat)
    requires 2 <= n <= |s|
    ensures forall q :: Occ(s[..n], q) == Occ(s[..n - 1], q) + (if Window(s, n - 2) == q then 1 else 0)
  {
    assert s[..n][..n - 1] == s[..n - 1];
    assert Window(s[..n], n - 2) == Window(s, n - 2);
  }

  lemma WindowSetNext(s: string, n: nat)
    requires 2 <= n <= |s|
    ensures WindowSet(s[..n]) == WindowSet(s[..n - 1]) + {Window(s, n - 2)}
  {
    var p, r := s[..n], s[..n - 1];
    assert Window(p, n - 2) == Window(s, n - 2);
    forall w | w in WindowSet(p)
      ensures w in WindowSet(r) + {Window(s, n - 2)}
    {
      var i :| 0 <= i < |p| - 1 && w == Window(p, i);
      if i < n - 2 {
        assert Window(r, i) == w;
      }
    }
    forall w | w in WindowSet(r)
      ensures w in WindowSet(p)
    {
      var i :| 0 <= i < |r| - 1 && w == Window(r, i);
      assert Window(p, i) == w;
    }
  }

  /** The weight of a pair in the counts of q after a step: the windows of its substitution equal to q. */
  function RuleOcc(subs: map<Pair, string>, q: Pair): Pair -> nat
  {
    p => if p in subs then Occ(subs[p], q) else 0
  }

  /** The weight of a pair in the total after a step: the windows of its substitution. */
  function RuleWindows(subs: map<Pair, string>): Pair -> nat
  {
    p => if p in subs then Windows(subs[p]) else 0
  }

  /** The count of q that one step produces from m: each pair's count, once per window of its substitution equal to q. */
  ghost function Produced(m: map<Pair, nat>, subs: map<Pair, string>, q: Pair): nat
  {
    Total(Weighted(m, RuleOcc(subs, q)))
  }

  /** The counts taken from the old pairs in `visited` after the first loop of `substitute` has visited them. */
  ghost predicate Expanded(t: map<Pair, nat>, m: map<Pair, nat>, subs: map<Pair, string>, visited: set<Pair>)
  {
    && visited <= subs.Keys
    && (forall q :: Get(t, q) == Total(Restrict(Weighted(m, RuleOcc(subs, q)), visited)))
    && Total(t) == Total(Restrict(Weighted(m, RuleWindows(subs)), visited))
  }

  /**
   * `substitute`: every pair of the old counts is taken out and its count is
   * added, through `update_pairs`, to each window of its substitution.
   */
  method Substitute(pairs: PairCounts, subs: map<Pair, string>) returns (r: Result<()>)
    modifies pairs
    ensures r.Ok? <==> old(pairs.counts).Keys <= subs.Keys
    ensures r.Err? ==> r.fault.MissingRule? && r.fault.pair in old(pairs.counts) && r.fault.pair !in subs
    ensures r.Ok? ==> forall q :: Get(pairs.counts, q) == Produced(old(pairs.counts), subs, q)
    ensures r.Ok? && WellFormed(subs) ==> Total(pairs.counts) == 2 * Total(old(pairs.counts))
    ensures r.Ok? && Positive(old(pairs.counts)) ==> Positive(pairs.counts)
  {
    var clone := pairs.counts;
    var temp := new PairCounts();
    var remaining := clone.Keys;
    ExpandedNone(clone, subs);
    while remaining != {}
      invariant remaining <= clone.Keys
      invariant forall p :: p in pairs.counts <==> p in remaining
      invariant forall p :: p in pairs.counts ==> pairs.counts[p] == clone[p]
      invariant Expanded(temp.counts, clone, subs, clone.Keys - remaining)
      invariant Positive(clone) ==> Positive(temp.counts)
      invariant temp != pairs
      decreases remaining
    {
      var pair :| pair in remaining;
      var count := clone[pair];
      pairs.counts := pairs.counts[pair := pairs.counts[pair] - count];
      if pairs.counts[pair] == 0 {
        pairs.counts := pairs.counts - {pair};
      }
      if pair !in subs {
        return Err(MissingRule(pair));
      }
      ghost var before := temp.counts;
      UpdatePairs(subs[pair], temp, count);
      Visit(clone.Keys, remaining, pair);
      ExpandedStep(before, temp.counts, clone, subs, clone.Keys - remaining, pair, count);
      if Positive(clone) {
        PositiveStep(before, temp.counts, subs[pair], count);
      }
      remaining := remaining - {pair};
    }
    assert pairs.counts == map[];
    assert clone.Keys - remaining == clone.Keys;
    Merge(pairs, temp.counts);
    SameCounts(pairs.counts, temp.counts);
    ExpandedAll(temp.counts, clone, subs);
    return Ok(());
  }

  /** The second loop of `substitute`: each count of t is added to the pair's entry. */
  method Merge(pairs: PairCounts, t: map<Pair, nat>)
    modifies pairs
    ensures forall q :: q in pairs.counts <==> q in old(pairs.counts) || q in t
    ensures forall q :: Get(pairs.counts, q) == Get(old(pairs.counts), q) + Get(t, q)
  {
    var rest := t.Keys;
    while rest != {}
      invariant rest <= t.Keys
      invariant forall q :: q in pairs.counts <==> q in old(pairs.counts) || (q in t && q !in rest)
      invariant forall q :: Get(pairs.counts, q) == Get(old(pairs.counts), q) + (if q in rest then 0 else Get(t, q))
      decreases rest
    {
      var key :| key in rest;
      pairs.counts := Add(pairs.counts, key, t[key]);
      rest := rest - {key};
    }
  }

  /** Visiting one more of the remaining keys. */
  lemma Visit(keys: set<Pair>, remaining: set<Pair>, k: Pair)
    requires k in remaining && remaining <= keys
    ensures keys - (remaining - {k}) == (keys - remaining) + {k}
    ensures k !in keys - remaining
  {
  }

  /** No entry holds a zero count. */
  predicate Positive(m: map<Pair, nat>)
  {
    forall p {:trigger m[p]} :: p in m ==> m[p] > 0
  }

  lemma ExpandedNone(m: map<Pair, nat>, subs: map<Pair, string>)
    ensures Expanded(map[], m, subs, {})
  {
    forall q
      ensures Get(map[], q) == Total(Restrict(Weighted(m, RuleOcc(subs, q)), {}))
    {
      TotalRestrictAll(Weighted(m, RuleOcc(subs, q)));
    }
    TotalRestrictAll(Weighted(m, RuleWindows(subs)));
  }

  /** Visiting one more old pair adds its count for each window of its substitution. */
  lemma ExpandedStep(t0: map<Pair, nat>, t: map<Pair, nat>, m: map<Pair, nat>, subs: map<Pair, string>, visited: set<Pair>, pair: Pair, count: nat)
    requires Expanded(t0, m, subs, visited)
    requires pair in m && pair !in visited && pair in subs && count == m[pair]
    requires forall q :: Get(t, q) == Get(t0, q) + count * Occ(subs[pair], q)
    requires Total(t) == Total(t0) + count * Windows(subs[pair])
    ensures Expanded(t, m, subs, visited + {pair})
  {
    forall q
      ensures Get(t, q) == Total(Restrict(Weighted(m, RuleOcc(subs, q)), visited + {pair}))
    {
      TotalRestrict(Weighted(m, RuleOcc(subs, q)), visited, pair);
    }
    TotalRestrict(Weighted(m, RuleWindows(subs)), visited, pair);
  }

  /** Adding a positive count for each window of a substitution keeps every count positive. */
  lemma PositiveStep(t0: map<Pair, nat>, t: map<Pair, nat>, sub: string, count: nat)
    requires Positive(t0) && count > 0
    requires forall q :: Get(t, q) == Get(t0, q) + count * Occ(sub, q)
    requires forall q :: q in t <==> q in t0 || q in WindowSet(sub)
    ensures Positive(t)
  {
    forall q | q in t
      ensures t[q] > 0
    {
      assert Get(t, q) == Get(t0, q) + count * Occ(sub, q);
      if q !in t0 {
        WindowOcc(sub, q);
      }
    }
  }

  /** After every old pair is visited, the counts are the ones a step produces, and their total doubles when every substitution is three elements long. */
  lemma ExpandedAll(t: map<Pair, nat>, m: map<Pair, nat>, subs: map<Pair, string>)
    requires Expanded(t, m, subs, m.Keys)
    ensures forall q :: Get(t, q) == Produced(m, subs, q)
    ensures WellFormed(subs) ==> Total(t) == 2 * Total(m)
  {
    forall q
      ensures Get(t, q) == Produced(m, subs, q)
    {
      TotalRestrictAll(Weighted(m, RuleOcc(subs, q)));
    }
    TotalRestrictAll(Weighted(m, RuleWindows(subs)));
    if WellFormed(subs) {
      Doubled(m, subs);
    }
  }

  /** With three-element substitutions, each pair's count is produced twice over. */
  lemma Doubled(m: map<Pair, nat>, subs: map<Pair, string>)
    requires WellFormed(subs) && m.Keys <= subs.Keys
    ensures Total(Weighted(m, RuleWindows(subs))) == 2 * Total(m)
  {
    var w := Weighted(m, RuleWindows(subs));
    forall p | p in w
      ensures w[p] == 2 * m[p]
    {
      assert Windows(subs[p]) == 2;
    }
    assert w == Scaled(m, 2);
    TotalScale(m, 2);
  }

  /** Every window of s occurs in it. */
  lemma {:induction false} WindowOcc(s: string, q: Pair)
    requires q in WindowSet(s)
    ensures Occ(s, q) >= 1
    decreases |s|
  {
    var i :| 0 <= i < |s| - 1 && q == Window(s, i);
    OccNext(s, |s|);
    if i < |s| - 2 {
      assert Window(s[..|s| - 1], i) == q;
      WindowOcc(s[..|s| - 1], q);
    }
    assert s[..|s|] == s;
  }

  /** A pair that is not a window of s never occurs in it. */
  lemma {:induction false} OccOutside(s: string, q: Pair)
    requires q !in WindowSet(s)
    ensures Occ(s, q) == 0
    decreases |s|
  {
    if |s| >= 2 {
      WindowSetNext(s, |s|);
      assert s[..|s|] == s;
      OccOutside(s[..|s| - 1], q);
    }
  }

  // The polymer the pair counts stand for.

  /** The element a rule inserts between the two of a pair, if the pair has a rule. */
  function Middle(p: Pair, subs: map<Pair, string>): string
  {
    if p in subs && |subs[p]| == 3 then [subs[p][1]] else []
  }

  /** One step of the puzzle on the polymer itself: every adjacent pair gets its rule's element inserted between its two. */
  function Insert(s: string, subs: map<Pair, string>): (r: string)
    ensures |s| >= 1 ==> |r| >= 1 && r[0] == s[0] && r[|r| - 1] == s[|s| - 1]
  {
    if |s| < 2 then s
    else Insert(s[..|s| - 1], subs) + Middle(Window(s, |s| - 2), subs) + [s[|s| - 1]]
  }

  /** With a rule for every pair, a step makes a polymer of n elements 2n - 1 long. */
  lemma {:induction false} InsertLength(s: string, subs: map<Pair, string>)
    requires WellFormed(subs) && WindowSet(s) <= subs.Keys && |s| >= 1
    ensures |Insert(s, subs)| == 2 * |s| - 1
    decreases |s|
  {
    if |s| >= 2 {
      WindowSetNext(s, |s|);
      assert s[..|s|] == s;
      InsertLength(s[..|s| - 1], subs);
    }
  }

  /** The pair counts stand for the polymer s. */
  ghost predicate Represents(m: map<Pair, nat>, s: string)
  {
    forall q :: Get(m, q) == Occ(s, q)
  }

  /** The windows of s, each weighted by its occurrences and by g, summed left to right. */
  function WindowSum(s: string, g: Pair -> nat): nat
  {
    if |s| < 2 then 0 else WindowSum(s[..|s| - 1], g) + g(Window(s, |s| - 2))
  }

  /** Each pair of ks weighted by its occurrences in s and by g. */
  function OccWeights(ks: set<Pair>, s: string, g: Pair -> nat): (r: map<Pair, nat>)
    ensures r.Keys == ks
  {
    map p | p in ks :: Occ(s, p) * g(p)
  }

  /** Summing over any keys that hold the windows of s is summing over the windows. */
  lemma {:induction false} OccWeightsTotal(ks: set<Pair>, s: string, g: Pair -> nat)
    requires WindowSet(s) <= ks
    ensures Total(OccWeights(ks, s, g)) == WindowSum(s, g)
    decreases |s|
  {
    var r := OccWeights(ks, s, g);
    if |s| < 2 {
      ZeroTotal(r);
    } else {
      var n := |s|;
      var w := Window(s, n - 2);
      WindowSetNext(s, n);
      assert s[..n] == s;
      OccNext(s, n);
      var r0 := OccWeights(ks, s[..n - 1], g);
      OccWeightsTotal(ks, s[..n - 1], g);
      forall p | p in ks
        ensures r[p] == Get(Add(r0, w, g(w)), p)
      {
        var k := if w == p then 1 else 0;
        assert Occ(s, p) == Occ(s[..n - 1], p) + k;
        Distribute(g(p), Occ(s[..n - 1], p), k);
        assert r[p] == Occ(s, p) * g(p);
        assert Occ(s, p) * g(p) == g(p) * Occ(s, p);
        assert Occ(s[..n - 1], p) * g(p) == g(p) * Occ(s[..n - 1], p);
      }
      SameCounts(r, Add(r0, w, g(w)));
      TotalAdd(r0, w, g(w));
    }
  }

  /** Every count zero: the total is zero. */
  lemma {:induction false} ZeroTotal(m: map<Pair, nat>)
    requires forall p :: p in m ==> m[p] == 0
    ensures Total(m) == 0
    decreases m.Keys
  {
    if m.Keys != {} {
      var k :| k in m;
      TotalRemove(m, k);
      ZeroTotal(m - {k});
    }
  }

  /** Counts that stand for s weigh each window of s once per occurrence. */
  lemma RepresentsTotal(m: map<Pair, nat>, s: string, g: Pair -> nat)
    requires Represents(m, s)
    ensures Total(Weighted(m, g)) == WindowSum(s, g)
  {
    forall p | p in WindowSet(s)
      ensures p in m
    {
      WindowOcc(s, p);
      assert Get(m, p) == Occ(s, p);
    }
    var w := Weighted(m, g);
    forall p | p in w
      ensures w[p] == OccWeights(m.Keys, s, g)[p]
    {
      assert Get(m, p) == Occ(s, p);
    }
    assert w == OccWeights(m.Keys, s, g);
    OccWeightsTotal(m.Keys, s, g);
  }

  lemma OccTwo(x: string, a: char, b: char, q: Pair)
    requires |x| >= 1
    ensures Occ(x + [a] + [b], q) == Occ(x, q) + (if Pair(x[|x| - 1], a) == q then 1 else 0) + (if Pair(a, b) == q then 1 else 0)
  {
    var y := x + [a] + [b];
    assert y[..|y| - 1] == x + [a];
    assert (x + [a])[..|x|] == x;
  }

  lemma OccThree(t: string, q: Pair)
    requires |t| == 3
    ensures Occ(t, q) == (if Pair(t[0], t[1]) == q then 1 else 0) + (if Pair(t[1], t[2]) == q then 1 else 0)
  {
    assert Occ(t, q) == Occ(t[..2], q) + (if Pair(t[1], t[2]) == q then 1 else 0);
    assert t[..2][..1] == t[..1];
    assert Occ(t[..2], q) == Occ(t[..1], q) + (if Pair(t[0], t[1]) == q then 1 else 0);
  }

  /** Weighing each window by the occurrences of q in its substitution counts q in the next polymer. */
  lemma {:induction false} InsertOcc(s: string, subs: map<Pair, string>, q: Pair)
    requires WellFormed(subs) && WindowSet(s) <= subs.Keys
    ensures WindowSum(s, RuleOcc(subs, q)) == Occ(Insert(s, subs), q)
    decreases |s|
  {
    if |s| >= 2 {
      var n := |s|;
      var p, w, g := s[..n - 1], Window(s, n - 2), RuleOcc(subs, q);
      WindowSetNext(s, n);
      assert s[..n] == s;
      InsertOcc(p, subs, q);
      assert WindowSum(s, g) == WindowSum(p, g) + g(w);
      assert Insert(s, subs) == Insert(p, subs) + Middle(w, subs) + [s[n - 1]];
      assert Middle(w, subs) == [subs[w][1]];
      assert p[|p| - 1] == s[n - 2];
      InsertOccLast(Insert(p, subs), subs[w], s[n - 1], q);
    }
  }

  /** Inserting the middle of a rule after x adds the occurrences in the rule itself. */
  lemma InsertOccLast(x: string, sub: string, b: char, q: Pair)
    requires |x| >= 1 && |sub| == 3 && sub[0] == x[|x| - 1] && sub[2] == b
    ensures Occ(x + [sub[1]] + [b], q) == Occ(x, q) + Occ(sub, q)
  {
    OccTwo(x, sub[1], b, q);
    OccThree(sub, q);
  }

  /**
   * A step on the counts is a step on the polymer: when the counts stand for
   * s and every pair of s has a rule, the counts `substitute` produces stand
   * for s with every rule's element inserted.
   */
  lemma StepRepresents(m: map<Pair, nat>, s: string, subs: map<Pair, string>)
    requires Represents(m, s) && WellFormed(subs) && WindowSet(s) <= subs.Keys
    ensures forall q :: Produced(m, subs, q) == Occ(Insert(s, subs), q)
  {
    forall q
      ensures Produced(m, subs, q) == Occ(Insert(s, subs), q)
    {
      RepresentsTotal(m, s, RuleOcc(subs, q));
      InsertOcc(s, subs, q);
    }
  }

  /** The polymer after n steps. */
  function Grown(s: string, subs: map<Pair, string>, n: nat): string
  {
    if n == 0 then s else Insert(Grown(s, subs, n - 1), subs)
  }

  /** A step never moves the two ends, so the grown polymer starts and ends as the template does. */
  lemma {:induction false} GrownEnds(s: string, subs: map<Pair, string>, n: nat)
    requires |s| >= 1
    ensures var g := Grown(s, subs, n); |g| >= 1 && g[0] == s[0] && g[|g| - 1] == s[|s| - 1]
    decreases n
  {
    if n > 0 {
      GrownEnds(s, subs, n - 1);
    }
  }

  /** Every pair of the polymer after k steps has a rule. */
  predicate Covered(s: string, subs: map<Pair, string>, k: nat)
  {
    WindowSet(Grown(s, subs, k)) <= subs.Keys
  }

  /**
   * The loops of `main`: the counts of the template, then n calls of
   * `substitute`. They succeed exactly when every polymer met before the
   * last step has a rule for each of its pairs, and the counts then stand
   * for the polymer grown n steps.
   */
  method Grow(polymer: string, subs: map<Pair, string>, n: nat) returns (pairs: PairCounts, r: Result<()>)
    requires WellFormed(subs)
    ensures fresh(pairs)
    ensures r.Ok? <==> forall k :: 0 <= k < n ==> Covered(polymer, subs, k)
    ensures r.Ok? ==> Represents(pairs.counts, Grown(polymer, subs, n)) && Positive(pairs.counts)
  {
    pairs := new PairCounts();
    UpdatePairs(polymer, pairs, 1);
    PositiveStep(map[], pairs.counts, polymer, 1);
    r := Ok(());
    var i := 0;
    while i < n
      invariant 0 <= i <= n
      invariant Represents(pairs.counts, Grown(polymer, subs, i)) && Positive(pairs.counts)
      invariant forall k :: 0 <= k < i ==> Covered(polymer, subs, k)
      invariant r.Ok?
    {
      ghost var s := Grown(polymer, subs, i);
      ghost var before := pairs.counts;
      RepresentsKeys(before, s);
      r := Substitute(pairs, subs);
      if r.Err? {
        assert !Covered(polymer, subs, i);
        return;
      }
      StepRepresents(before, s, subs);
      i := i + 1;
    }
  }

  /** Positive counts that stand for s have exactly the windows of s as keys. */
  lemma RepresentsKeys(m: map<Pair, nat>, s: string)
    requires Represents(m, s) && Positive(m)
    ensures m.Keys == WindowSet(s)
  {
    forall p | p in WindowSet(s)
      ensures p in m
    {
      WindowOcc(s, p);
      assert Get(m, p) == Occ(s, p);
    }
    forall p | p in m
      ensures p in WindowSet(s)
    {
      assert Get(m, p) == Occ(s, p);
      if p !in WindowSet(s) {
        OccOutside(s, p);
      }
    }
  }

  // Element counts.

  /** The elements the keys hold. */
  function CharsOf(ks: set<Pair>): set<char>
  {
    (set p | p in ks :: p.first) + (set p | p in ks :: p.second)
  }

  /** The elements of a polymer. */
  function Elements(s: string): set<char>
  {
    set i | 0 <= i < |s| :: s[i]
  }

  /** How often c is one of the pair's two elements, as `pair.chars()` visits them. */
  function Has(c: char): Pair -> nat
  {
    (p: Pair) => (if p.first == c then 1 else 0) + (if p.second == c then 1 else 0)
  }

  /** The count of element c that `polymer_number` collects from the pair counts. */
  ghost function ElementTotal(m: map<Pair, nat>, c: char): nat
  {
    Total(Weighted(m, Has(c)))
  }

  /** The counts collected from the old pairs in `visited`. */
  ghost predicate Collected(e: map<char, nat>, m: map<Pair, nat>, visited: set<Pair>)
  {
    && (forall c :: c in e <==> c in CharsOf(visited))
    && (forall c :: Get(e, c) == Total(Restrict(Weighted(m, Has(c)), visited)))
  }

  /** The first loop of `polymer_number`: every pair adds its count to each of its two elements. */
  method ElementCounts(pairs: map<Pair, nat>) returns (e: map<char, nat>)
    ensures forall c :: c in e <==> c in CharsOf(pairs.Keys)
    ensures forall c :: Get(e, c) == ElementTotal(pairs, c)
  {
    e := map[];
    var rest := pairs.Keys;
    CollectedNone(pairs);
    while rest != {}
      invariant rest <= pairs.Keys
      invariant Collected(e, pairs, pairs.Keys - rest)
      decreases rest
    {
      var pair :| pair in rest;
      var count := pairs[pair];
      ghost var before := e;
      e := Add(e, pair.first, count);
      e := Add(e, pair.second, count);
      Visit(pairs.Keys, rest, pair);
      CollectedStep(before, e, pairs, pairs.Keys - rest, pair);
      rest := rest - {pair};
    }
    assert pairs.Keys - rest == pairs.Keys;
    forall c
      ensures Get(e, c) == ElementTotal(pairs, c)
    {
      TotalRestrictAll(Weighted(pairs, Has(c)));
    }
  }

  lemma CollectedNone(m: map<Pair, nat>)
    ensures Collected(map[], m, {})
  {
    forall c
      ensures Get(map[], c) == Total(Restrict(Weighted(m, Has(c)), {}))
    {
      TotalRestrictAll(Weighted(m, Has(c)));
    }
  }

  /** Visiting one more pair adds its count to each of its two elements. */
  lemma CollectedStep(e0: map<char, nat>, e: map<char, nat>, m: map<Pair, nat>, visited: set<Pair>, pair: Pair)
    requires Collected(e0, m, visited) && pair in m && pair !in visited
    requires e == Add(Add(e0, pair.first, m[pair]), pair.second, m[pair])
    ensures Collected(e, m, visited + {pair})
  {
    CharsOfAdd(visited, pair);
    forall c
      ensures Get(e, c) == Total(Restrict(Weighted(m, Has(c)), visited + {pair}))
    {
      CollectedAt(e0, e, m, visited, pair, c);
    }
  }

  /** The count of one element after visiting one more pair. */
  lemma CollectedAt(e0: map<char, nat>, e: map<char, nat>, m: map<Pair, nat>, visited: set<Pair>, pair: Pair, c: char)
    requires Get(e0, c) == Total(Restrict(Weighted(m, Has(c)), visited)) && pair in m && pair !in visited
    requires e == Add(Add(e0, pair.first, m[pair]), pair.second, m[pair])
    ensures Get(e, c) == Total(Restrict(Weighted(m, Has(c)), visited + {pair}))
  {
    TotalRestrict(Weighted(m, Has(c)), visited, pair);
    var a := if pair.first == c then 1 else 0;
    var b := if pair.second == c then 1 else 0;
    Distribute(m[pair], a, b);
    assert Weighted(m, Has(c))[pair] == m[pair] * (a + b);
  }

  lemma CharsOfAdd(ks: set<Pair>, p: Pair)
    ensures forall c :: c in CharsOf(ks + {p}) <==> c in CharsOf(ks) || c == p.first || c == p.second
  {
  }

  /** The second loop of `polymer_number`: the least and the most common element, starting from 'a'. */
  method Extremes(e: map<char, nat>) returns (min: char, max: char)
    ensures e.Keys != {} ==> Extreme(e, max, min)
    ensures e.Keys == {} ==> min == 'a' && max == 'a'
  {
    min, max := 'a', 'a';
    var keys := e.Keys;
    while keys != {}
      invariant keys <= e.Keys
      invariant keys == e.Keys ==> min == 'a' && max == 'a'
      invariant keys != e.Keys ==> min in e && max in e
      invariant min in e ==> forall c :: c in e && c !in keys ==> e[min] <= e[c]
      invariant max in e ==> forall c :: c in e && c !in keys ==> e[c] <= e[max]
      decreases keys
    {
      var key :| key in keys;
      var count := e[key];
      if min !in e {
        min := key;
      } else if count < e[min] {
        min := key;
      }
      if max !in e {
        max := key;
      } else if count > e[max] {
        max := key;
      }
      keys := keys - {key};
    }
  }

  /** hi holds a greatest count of e and lo a least one. */
  ghost predicate Extreme(e: map<char, nat>, hi: char, lo: char)
  {
    hi in e && lo in e && forall c :: c in e ==> e[lo] <= e[c] <= e[hi]
  }

  /** v is the greatest count of e minus the least. */
  ghost predicate Spread(e: map<char, nat>, v: int)
  {
    exists hi, lo :: Extreme(e, hi, lo) && v == e[hi] - e[lo]
  }

  /** Half of n, rounded up. */
  function Half(n: nat): (h: nat)
    ensures 2 * h == n || 2 * h == n + 1
  {
    n / 2 + n % 2
  }

  /** Each element's count, halved and rounded up as `polymer_number` does. */
  ghost function Halves(m: map<Pair, nat>): (h: map<char, nat>)
    ensures forall c :: c in h <==> c in CharsOf(m.Keys)
  {
    map c | c in CharsOf(m.Keys) :: Half(ElementTotal(m, c))
  }

  /**
   * `polymer_number`: the rounded-up half of the count of the most common
   * element minus that of the least common one; no elements at all is the
   * panic of `elements[&max]`.
   */
  method PolymerNumber(pairs: PairCounts) returns (r: Result<nat>)
    ensures r.Err? <==> CharsOf(pairs.counts.Keys) == {}
    ensures r.Err? ==> r.fault == NoElements
    ensures r.Ok? ==> Spread(Halves(pairs.counts), r.value)
  {
    var elements := ElementCounts(pairs.counts);
    var min, max := Extremes(elements);
    if max !in elements {
      assert forall c :: c !in CharsOf(pairs.counts.Keys);
      return Err(NoElements);
    }
    var countMax := elements[max] / 2;
    if elements[max] % 2 == 1 {
      countMax := countMax + 1;
    }
    var countMin := elements[min] / 2;
    if elements[min] % 2 == 1 {
      countMin := countMin + 1;
    }
    assert countMax == Half(elements[max]) && countMin == Half(elements[min]);
    HalfMonotone(elements[min], elements[max]);
    var number: nat := countMax - countMin;
    HalvesSpread(pairs.counts, elements, min, max, number);
    r := Ok(number);
  }

  /** The extremes of the collected counts are the extremes of their halves. */
  lemma HalvesSpread(m: map<Pair, nat>, e: map<char, nat>, min: char, max: char, v: int)
    requires forall c :: c in e <==> c in CharsOf(m.Keys)
    requires forall c :: Get(e, c) == ElementTotal(m, c)
    requires Extreme(e, max, min)
    requires v == Half(e[max]) - Half(e[min])
    ensures Spread(Halves(m), v)
  {
    HalvesExtreme(m, e, min, max);
    SpreadOf(Halves(m), max, min, v);
  }

  lemma HalvesExtreme(m: map<Pair, nat>, e: map<char, nat>, min: char, max: char)
    requires forall c :: c in e <==> c in CharsOf(m.Keys)
    requires forall c :: Get(e, c) == ElementTotal(m, c)
    requires Extreme(e, max, min)
    ensures Extreme(Halves(m), max, min)
    ensures Halves(m)[max] == Half(e[max]) && Halves(m)[min] == Half(e[min])
  {
    var h := Halves(m);
    assert Get(e, min) == ElementTotal(m, min);
    assert Get(e, max) == ElementTotal(m, max);
    forall c | c in h
      ensures h[min] <= h[c] <= h[max]
    {
      assert Get(e, c) == ElementTotal(m, c);
      HalfMonotone(e[min], e[c]);
      HalfMonotone(e[c], e[max]);
    }
  }

  lemma SpreadOf(e: map<char, nat>, hi: char, lo: char, v: int)
    requires Extreme(e, hi, lo) && v == e[hi] - e[lo]
    ensures Spread(e, v)
  {
  }

  lemma HalfMonotone(a: nat, b: nat)
    requires a <= b
    ensures Half(a) <= Half(b)
  {
  }

  // What the halved element counts are.

  function End(s: string, c: char): nat
    requires |s| >= 1
  {
    (if s[0] == c then 1 else 0) + (if s[|s| - 1] == c then 1 else 0)
  }

  /** Every element of s but the two ends sits in two windows: the windows count c twice over, less its ends. */
  lemma {:induction false} HasSum(s: string, c: char)
    requires |s| >= 1
    ensures WindowSum(s, Has(c)) + End(s, c) == 2 * Text.Count(s, c)
    decreases |s|
  {
    var n := |s|;
    if n == 1 {
      assert s[1..] == [];
    } else {
      var p := s[..n - 1];
      var w := Window(s, n - 2);
      assert WindowSum(s, Has(c)) == WindowSum(p, Has(c)) + Has(c)(w);
      assert w.first == s[n - 2] && w.second == s[n - 1];
      HasSum(p, c);
      assert p[0] == s[0] && p[n - 2] == s[n - 2];
      assert p + [s[n - 1]] == s;
      Text.CountSnoc(p, s[n - 1], c);
    }
  }

  /** The count `polymer_number` collects for c from counts that stand for s. */
  lemma ElementsOfPolymer(m: map<Pair, nat>, s: string, c: char)
    requires Represents(m, s) && |s| >= 1
    ensures ElementTotal(m, c) + End(s, c) == 2 * Text.Count(s, c)
  {
    RepresentsTotal(m, s, Has(c));
    HasSum(s, c);
  }

  /**
   * Rounding the collected count up recovers the count of c in s, except
   * when c is both the first and the last element, which it undercounts by
   * one (the off-by-one the source's FIXME mentions).
   */
  lemma HalfOfPolymer(m: map<Pair, nat>, s: string, c: char)
    requires Represents(m, s) && |s| >= 1
    ensures Half(ElementTotal(m, c)) == Text.Count(s, c) - (if s[0] == c && s[|s| - 1] == c then 1 else 0)
  {
    ElementsOfPolymer(m, s, c);
  }

  /**
   * The count `polymer_number` evidently means: the first and the last
   * element of the template sit in one window each, so adding them back
   * before halving makes the halves exact.
   */
  ghost function ExactCount(m: map<Pair, nat>, first: char, last: char, c: char): nat
  {
    (ElementTotal(m, c) + (if first == c then 1 else 0) + (if last == c then 1 else 0)) / 2
  }

  /** With the template's two ends added back, the count of c is the number of times c occurs in the polymer. */
  lemma ExactCountIsCount(m: map<Pair, nat>, s: string, c: char)
    requires Represents(m, s) && |s| >= 1
    ensures ExactCount(m, s[0], s[|s| - 1], c) == Text.Count(s, c)
  {
    ElementsOfPolymer(m, s, c);
  }

  /** The elements the pair counts hold are those of the polymer they stand for. */
  lemma CharsOfPolymer(m: map<Pair, nat>, s: string)
    requires Represents(m, s) && Positive(m) && |s| >= 2
    ensures CharsOf(m.Keys) == Elements(s)
  {
    RepresentsKeys(m, s);
    forall c | c in Elements(s)
      ensures c in CharsOf(m.Keys)
    {
      var i :| 0 <= i < |s| && s[i] == c;
      if i < |s| - 1 {
        assert Window(s, i) in WindowSet(s);
      } else {
        assert Window(s, i - 1) in WindowSet(s);
      }
    }
    forall c | c in CharsOf(m.Keys)
      ensures c in Elements(s)
    {
      var i :| 0 <= i < |s| - 1 && (Window(s, i).first == c || Window(s, i).second == c);
      assert s[i] in Elements(s) && s[i + 1] in Elements(s);
    }
  }

  /** "BAAB": both elements occur twice, yet the halves are 1 for B and 2 for A, a spread of 1 and not 0. */
  lemma OffByOneExample(m: map<Pair, nat>, v: int)
    requires Represents(m, "BAAB") && Positive(m)
    requires Spread(Halves(m), v)
    ensures v == 1
    ensures Text.Count("BAAB", 'A') == Text.Count("BAAB", 'B') == 2
  {
    BaabCounts();
    BaabHalves(m);
    SpreadOfTwo(Halves(m), v);
  }

  lemma BaabHalves(m: map<Pair, nat>)
    requires Represents(m, "BAAB") && Positive(m)
    ensures forall c :: c in Halves(m) <==> c == 'A' || c == 'B'
    ensures Halves(m)['A'] == 2 && Halves(m)['B'] == 1
  {
    var s := "BAAB";
    BaabCounts();
    CharsOfPolymer(m, s);
    BaabElements();
    HalfOfPolymer(m, s, 'A');
    HalfOfPolymer(m, s, 'B');
  }

  /** Over two elements whose counts are 2 and 1, the only spread is 1. */
  lemma SpreadOfTwo(e: map<char, nat>, v: int)
    requires forall c :: c in e <==> c == 'A' || c == 'B'
    requires e['A'] == 2 && e['B'] == 1
    requires Spread(e, v)
    ensures v == 1
  {
    var hi, lo :| Extreme(e, hi, lo) && v == e[hi] - e[lo];
    assert e[lo] <= e['B'] && e['A'] <= e[hi];
  }

  lemma BaabCounts()
    ensures Text.Count("BAAB", 'A') == 2 && Text.Count("BAAB", 'B') == 2
  {
    var s := "BAAB";
    assert s[1..] == "AAB" && s[1..][1..] == "AB" && s[1..][1..][1..] == "B" && s[1..][1..][1..][1..] == "";
  }

  lemma BaabElements()
    ensures Elements("BAAB") == {'A', 'B'}
  {
    var s := "BAAB";
    assert s[0] == 'B' && s[1] == 'A' && s[2] == 'A' && s[3] == 'B';
    assert s[0] in Elements(s) && s[1] in Elements(s);
  }

}
