/**
 * Universal orbit map (2019 day 6): every line `A)B` says that B orbits A.
 * The total of direct and indirect orbits counts, for every planet, the
 * hops inward to a planet that orbits nothing; the transfers between YOU
 * and SAN count the planets on exactly one of their two paths inward.
 */
module UniversalOrbits {
  import Numbers
  import Text
  import Tallies

  /** Each planet named on the right of a line, mapped to the one it orbits. */
  type Orbits = map<string, string>

  datatype Result<T> = Ok(value: T) | BadOrbit(line: string)

  /** `line.split(")")` gives exactly two tokens. */
  predicate Pair(line: string)
  {
    |Text.Split(line, ")")| == 2
  }

  function Inner(line: string): string
    requires Pair(line)
  {
    Text.Split(line, ")")[0]
  }

  function Outer(line: string): string
    requires Pair(line)
  {
    Text.Split(line, ")")[1]
  }

  /** `orbits.insert(outer, inner)` for every line in order, from m; the first malformed line is a panic. */
  function Recorded(m: Orbits, lines: seq<string>): Result<Orbits>
    decreases |lines|
  {
    if lines == [] then Ok(m)
    else if Pair(lines[0]) then Recorded(m[Outer(lines[0]) := Inner(lines[0])], lines[1..])
    else BadOrbit(lines[0])
  }

  /** The planets named on the right of the well-formed lines. */
  function Outers(lines: seq<string>): set<string>
  {
    set i | 0 <= i < |lines| && Pair(lines[i]) :: Outer(lines[i])
  }

  /** Line i is the last that names its planet on the right. */
  predicate Last(lines: seq<string>, i: nat)
  {
    i < |lines| && Pair(lines[i])
    && forall j :: i < j < |lines| && Pair(lines[j]) ==> Outer(lines[j]) != Outer(lines[i])
  }

  /** Line i is malformed and every line before it is well formed. */
  predicate FirstBad(lines: seq<string>, i: nat)
  {
    i < |lines| && !Pair(lines[i]) && forall j :: 0 <= j < i ==> Pair(lines[j])
  }

  /** The map is built exactly when every line is `A)B`, and a bad line is the first of them. */
  lemma {:induction false} RecordedParses(m: Orbits, lines: seq<string>)
    ensures Recorded(m, lines).Ok? <==> forall i :: 0 <= i < |lines| ==> Pair(lines[i])
    ensures Recorded(m, lines).BadOrbit? ==> exists i: nat :: FirstBad(lines, i) && lines[i] == Recorded(m, lines).line
    decreases |lines|
  {
    if lines != [] {
      assert forall i :: 1 <= i < |lines| ==> lines[1..][i - 1] == lines[i];
      if !Pair(lines[0]) {
        assert FirstBad(lines, 0);
      } else {
        var next := m[Outer(lines[0]) := Inner(lines[0])];
        RecordedParses(next, lines[1..]);
        if Recorded(next, lines[1..]).BadOrbit? {
          var i: nat :| FirstBad(lines[1..], i) && lines[1..][i] == Recorded(next, lines[1..]).line;
          assert FirstBad(lines, i + 1);
        }
      }
    }
  }

  /** The planets in the map are those it held and those named on the right. */
  lemma {:induction false} RecordedKeys(m: Orbits, lines: seq<string>)
    ensures Recorded(m, lines).Ok? ==> Recorded(m, lines).value.Keys == m.Keys + Outers(lines)
    decreases |lines|
  {
    if lines != [] && Pair(lines[0]) {
      var next := m[Outer(lines[0]) := Inner(lines[0])];
      RecordedKeys(next, lines[1..]);
      assert forall i :: 1 <= i < |lines| ==> lines[1..][i - 1] == lines[i];
      assert Outers(lines) == {Outer(lines[0])} + Outers(lines[1..]) by {
        forall x | x in Outers(lines) ensures x in {Outer(lines[0])} + Outers(lines[1..]) {
          var i :| 0 <= i < |lines| && Pair(lines[i]) && Outer(lines[i]) == x;
          if i > 0 {
            assert lines[1..][i - 1] == lines[i];
          }
        }
      }
    }
  }

  /** A planet named on the right orbits what the last line naming it says. */
  lemma {:induction false} RecordedLast(m: Orbits, lines: seq<string>)
    ensures Recorded(m, lines).Ok? ==>
      forall i: nat :: Last(lines, i) ==>
        Outer(lines[i]) in Recorded(m, lines).value && Recorded(m, lines).value[Outer(lines[i])] == Inner(lines[i])
    decreases |lines|
  {
    RecordedKeys(m, lines);
    if lines != [] && Pair(lines[0]) && Recorded(m, lines).Ok? {
      var next := m[Outer(lines[0]) := Inner(lines[0])];
      var rest := lines[1..];
      RecordedLast(next, rest);
      RecordedKeys(next, rest);
      assert forall i :: 1 <= i < |lines| ==> rest[i - 1] == lines[i];
      forall i: nat | Last(lines, i)
        ensures Outer(lines[i]) in Recorded(m, lines).value && Recorded(m, lines).value[Outer(lines[i])] == Inner(lines[i])
      {
        assert Outer(lines[i]) in Outers(lines);
        if i > 0 {
          assert Last(rest, i - 1);
        } else {
          Untouched(next, rest, Outer(lines[0]));
        }
      }
    }
  }

  /** A planet no later line names on the right keeps its centre. */
  lemma {:induction false} Untouched(m: Orbits, lines: seq<string>, k: string)
    requires k in m && forall j :: 0 <= j < |lines| && Pair(lines[j]) ==> Outer(lines[j]) != k
    ensures Recorded(m, lines).Ok? ==> k in Recorded(m, lines).value && Recorded(m, lines).value[k] == m[k]
    decreases |lines|
  {
    if lines != [] && Pair(lines[0]) {
      assert forall i :: 1 <= i < |lines| ==> lines[1..][i - 1] == lines[i];
      Untouched(m[Outer(lines[0]) := Inner(lines[0])], lines[1..], k);
    }
  }

  /** The `for line in input.lines()` loop that fills `orbits`. */
  method Record(lines: seq<string>) returns (r: Result<Orbits>)
    ensures r == Recorded(map[], lines)
  {
    var orbits: Orbits := map[];
    for i := 0 to |lines|
      invariant Recorded(map[], lines) == Recorded(orbits, lines[i..])
    {
      assert lines[i..][0] == lines[i] && lines[i..][1..] == lines[i + 1..];
      var line := lines[i];
      var tokens := Text.Split(line, ")");
      if |tokens| != 2 {
        return BadOrbit(line);
      }
      orbits := orbits[tokens[1] := tokens[0]];
    }
    return Ok(orbits);
  }

  /**
   * The planets passed walking inward from k for at most `fuel` hops,
   * or None when `fuel` hops have not reached a planet that orbits nothing.
   */
  function Chain(m: Orbits, k: string, fuel: nat): (r: Numbers.Option<seq<string>>)
    ensures r.Some? ==> |r.value| <= fuel
    decreases fuel
  {
    if k !in m then Numbers.Some([])
    else if fuel == 0 then Numbers.None
    else
      match Chain(m, m[k], fuel - 1)
      case None => Numbers.None
      case Some(rest) => Numbers.Some([m[k]] + rest)
  }

  /** The walk `pos = planet` from k: the planets to the centre, or None when it goes round forever. */
  function Ancestors(m: Orbits, k: string): Numbers.Option<seq<string>>
  {
    Chain(m, k, |m|)
  }

  /** The planet before hop i of a walk from k. */
  function From(k: string, p: seq<string>, i: nat): string
    requires i <= |p|
  {
    if i == 0 then k else p[i - 1]
  }

  /** p is the walk inward from k: each hop to the planet orbited, stopping at one that orbits nothing. */
  predicate Inward(m: Orbits, k: string, p: seq<string>)
  {
    (forall i :: 0 <= i < |p| ==> From(k, p, i) in m && p[i] == m[From(k, p, i)])
    && From(k, p, |p|) !in m
  }

  predicate Distinct(s: seq<string>)
  {
    forall i, j :: 0 <= i < j < |s| ==> s[i] != s[j]
  }

  /** A walk found within the fuel is the walk inward, of at most `fuel` hops. */
  lemma {:induction false} ChainInward(m: Orbits, k: string, fuel: nat)
    ensures Chain(m, k, fuel).Some? ==> Inward(m, k, Chain(m, k, fuel).value) && |Chain(m, k, fuel).value| <= fuel
    decreases fuel
  {
    if k in m && fuel > 0 && Chain(m, k, fuel).Some? {
      var rest := Chain(m, m[k], fuel - 1).value;
      ChainInward(m, m[k], fuel - 1);
      var p := [m[k]] + rest;
      forall i | 0 <= i < |p|
        ensures From(k, p, i) in m && p[i] == m[From(k, p, i)]
      {
        if i > 0 {
          assert From(k, p, i) == From(m[k], rest, i - 1) && p[i] == rest[i - 1];
        }
      }
      assert From(k, p, |p|) == From(m[k], rest, |rest|);
    }
  }

  /** The walk from a planet is the walk from its centre, one hop ahead. */
  lemma InwardTail(m: Orbits, k: string, p: seq<string>)
    requires Inward(m, k, p) && p != []
    ensures Inward(m, p[0], p[1..])
  {
    var q := p[1..];
    forall i | 0 <= i < |q|
      ensures From(p[0], q, i) in m && q[i] == m[From(p[0], q, i)]
    {
      assert From(p[0], q, i) == From(k, p, i + 1) && q[i] == p[i + 1];
    }
    assert From(p[0], q, |q|) == From(k, p, |p|);
  }

  /** Hops from the same planet go the same way: there is one walk inward. */
  lemma {:induction false} InwardUnique(m: Orbits, k: string, p: seq<string>, q: seq<string>)
    requires Inward(m, k, p) && Inward(m, k, q)
    ensures p == q
    decreases |p|
  {
    InwardStart(m, k, p);
    InwardStart(m, k, q);
    if k in m {
      assert p[0] == m[k] == q[0];
      InwardTail(m, k, p);
      InwardTail(m, k, q);
      InwardUnique(m, p[0], p[1..], q[1..]);
      assert p == [p[0]] + p[1..] && q == [q[0]] + q[1..];
    }
  }

  /** A walk has a first hop exactly when its start orbits something. */
  lemma InwardStart(m: Orbits, k: string, p: seq<string>)
    requires Inward(m, k, p)
    ensures p != [] <==> k in m
  {
    if p != [] {
      assert From(k, p, 0) in m;
    }
  }

  /** The walk from the planet after t hops is the rest of the walk. */
  lemma {:induction false} InwardSuffix(m: Orbits, k: string, p: seq<string>, t: nat)
    requires Inward(m, k, p) && t <= |p|
    ensures Inward(m, From(k, p, t), p[t..])
    decreases t
  {
    if t > 0 {
      InwardSuffix(m, k, p, t - 1);
      var q := p[t - 1..];
      InwardTail(m, From(k, p, t - 1), q);
      assert q[0] == From(k, p, t) && q[1..] == p[t..];
    }
  }

  /** A walk that ends never passes a planet twice, the start included. */
  lemma InwardDistinct(m: Orbits, k: string, p: seq<string>)
    requires Inward(m, k, p)
    ensures Distinct([k] + p)
  {
    var w := [k] + p;
    forall i, j | 0 <= i < j < |w|
      ensures w[i] != w[j]
    {
      if w[i] == w[j] {
        assert w[i] == From(k, p, i) && w[j] == From(k, p, j);
        InwardSuffix(m, k, p, i);
        InwardSuffix(m, k, p, j);
        InwardUnique(m, w[i], p[i..], p[j..]);
        assert false;
      }
    }
  }

  lemma {:induction false} DistinctCard(s: seq<string>)
    requires Distinct(s)
    ensures |set x | x in s| == |s|
  {
    if s != [] {
      var n := |s| - 1;
      assert Distinct(s[..n]);
      DistinctCard(s[..n]);
      assert (set x | x in s) == (set x | x in s[..n]) + {s[n]};
      assert s[n] !in s[..n];
    }
  }

  /** A walk inward passes at most as many planets as the map holds. */
  lemma InwardShort(m: Orbits, k: string, p: seq<string>)
    requires Inward(m, k, p)
    ensures |p| <= |m|
  {
    InwardDistinct(m, k, p);
    var w := ([k] + p)[..|p|];
    assert Distinct(w);
    DistinctCard(w);
    forall x | x in w
      ensures x in m.Keys
    {
      var i :| 0 <= i < |w| && w[i] == x;
      assert x == From(k, p, i);
    }
    SubsetCard((set x | x in w), m.Keys);
  }

  lemma {:induction false} SubsetCard(a: set<string>, b: set<string>)
    requires a <= b
    ensures |a| <= |b|
    decreases a
  {
    if a != {} {
      var x :| x in a;
      SubsetCard(a - {x}, b - {x});
    }
  }

  /** Any fuel covering the walk finds it. */
  lemma {:induction false} ChainFuel(m: Orbits, k: string, p: seq<string>, fuel: nat)
    requires Inward(m, k, p) && |p| <= fuel
    ensures Chain(m, k, fuel) == Numbers.Some(p)
    decreases |p|
  {
    if p == [] {
      assert From(k, p, 0) !in m;
    } else {
      assert From(k, p, 0) in m;
      InwardTail(m, k, p);
      ChainFuel(m, p[0], p[1..], fuel - 1);
      assert p == [p[0]] + p[1..];
    }
  }

  /** The walk found is exactly the walk inward, which exists whenever it ends. */
  lemma AncestorsMeans(m: Orbits, k: string, p: seq<string>)
    ensures Ancestors(m, k) == Numbers.Some(p) <==> Inward(m, k, p)
  {
    ChainInward(m, k, |m|);
    if Inward(m, k, p) {
      InwardShort(m, k, p);
      ChainFuel(m, k, p, |m|);
    }
  }

  /** No walk found means none ends: however many hops, `orbits.get(pos)` always finds a planet. */
  lemma Endless(m: Orbits, k: string)
    requires Ancestors(m, k).None?
    ensures forall fuel: nat :: Chain(m, k, fuel).None?
  {
    forall fuel: nat | Chain(m, k, fuel).Some?
      ensures false
    {
      ChainInward(m, k, fuel);
      AncestorsMeans(m, k, Chain(m, k, fuel).value);
      assert false;
    }
  }

  /** A planet's walk is one hop to its centre, then its centre's walk. */
  lemma AncestorsStep(m: Orbits, k: string)
    requires k in m && Ancestors(m, k).Some?
    ensures Ancestors(m, m[k]).Some? && Ancestors(m, k).value == [m[k]] + Ancestors(m, m[k]).value
  {
    var p := Ancestors(m, k).value;
    AncestorsMeans(m, k, p);
    assert From(k, p, 0) in m;
    InwardTail(m, k, p);
    AncestorsMeans(m, m[k], p[1..]);
    assert p == [p[0]] + p[1..];
  }

  /** Every planet's walk inward ends. */
  predicate Acyclic(m: Orbits)
  {
    forall k :: k in m ==> Ancestors(m, k).Some?
  }

  /** In a map without cycles every walk ends, from planets outside the map too, and never repeats a planet. */
  lemma Apart(m: Orbits, k: string)
    requires Acyclic(m)
    ensures Ancestors(m, k).Some? && Distinct(Ancestors(m, k).value)
  {
    var p := Ancestors(m, k).value;
    AncestorsMeans(m, k, p);
    InwardDistinct(m, k, p);
    forall i, j | 0 <= i < j < |p|
      ensures p[i] != p[j]
    {
      assert p[i] == ([k] + p)[i + 1] && p[j] == ([k] + p)[j + 1];
    }
  }

  /** Ahead of a walk result, the planets already passed. */
  function Ahead(done: seq<string>, r: Numbers.Option<seq<string>>): Numbers.Option<seq<string>>
  {
    match r
    case None => Numbers.None
    case Some(p) => Numbers.Some(done + p)
  }

  /** The number of hops inward from each planet whose walk ends. */
  function Depths(m: Orbits): (d: map<string, nat>)
    ensures forall k :: k in d <==> k in m && Ancestors(m, k).Some?
    ensures forall k :: k in d ==> d[k] == |Ancestors(m, k).value|
  {
    map k | k in m && Ancestors(m, k).Some? :: |Ancestors(m, k).value|
  }

  /** The total of direct and indirect orbits, or None when the count never finishes. */
  ghost function TotalOrbits(m: Orbits): Numbers.Option<nat>
  {
    if Acyclic(m) then Numbers.Some(Tallies.Total(Depths(m))) else Numbers.None
  }

  /** A planet orbits its centre directly and everything its centre orbits indirectly. */
  lemma DepthStep(m: Orbits, k: string)
    requires Acyclic(m) && k in m
    ensures Depths(m)[k] == 1 + Tallies.Get(Depths(m), m[k])
  {
    AncestorsStep(m, k);
    if m[k] !in m {
      assert Ancestors(m, m[k]).value == [];
    }
  }

  /** One step of the walk loop from pos: the next result is the old one, a hop further on. */
  lemma Hop(m: Orbits, done: seq<string>, pos: string, fuel: nat)
    requires pos in m && fuel > 0
    ensures Ahead(done, Chain(m, pos, fuel)) == Ahead(done + [m[pos]], Chain(m, m[pos], fuel - 1))
  {
    if Chain(m, m[pos], fuel - 1).Some? {
      assert done + ([m[pos]] + Chain(m, m[pos], fuel - 1).value) == done + [m[pos]] + Chain(m, m[pos], fuel - 1).value;
    }
  }

  /** The `loop` that counts the hops inward from one key; a walk of more hops than planets never ends. */
  method Hops(m: Orbits, k: string) returns (r: Numbers.Option<nat>)
    ensures r.Some? <==> Ancestors(m, k).Some?
    ensures r.Some? ==> r.value == |Ancestors(m, k).value|
  {
    var pos := k;
    var count: nat := 0;
    ghost var walked: seq<string> := [];
    assert Ancestors(m, k) == Ahead([], Chain(m, pos, |m|)) by {
      if Chain(m, pos, |m|).Some? {
        assert [] + Chain(m, pos, |m|).value == Chain(m, pos, |m|).value;
      }
    }
    while pos in m
      invariant count == |walked| <= |m|
      invariant Ancestors(m, k) == Ahead(walked, Chain(m, pos, |m| - count))
      decreases |m| - count
    {
      if count == |m| {
        return Numbers.None;
      }
      Hop(m, walked, pos, |m| - count);
      walked := walked + [m[pos]];
      pos := m[pos];
      count := count + 1;
    }
    assert walked + [] == walked;
    return Numbers.Some(count);
  }

  /** The `loop` that pushes every planet passed from `start` on to a path. */
  method Climb(m: Orbits, start: string) returns (path: Numbers.Option<seq<string>>)
    ensures path == Ancestors(m, start)
  {
    var pos := start;
    var walked: seq<string> := [];
    assert Ancestors(m, start) == Ahead([], Chain(m, pos, |m|)) by {
      if Chain(m, pos, |m|).Some? {
        assert [] + Chain(m, pos, |m|).value == Chain(m, pos, |m|).value;
      }
    }
    while pos in m
      invariant |walked| <= |m|
      invariant Ancestors(m, start) == Ahead(walked, Chain(m, pos, |m| - |walked|))
      decreases |m| - |walked|
    {
      if |walked| == |m| {
        return Numbers.None;
      }
      Hop(m, walked, pos, |m| - |walked|);
      walked := walked + [m[pos]];
      pos := m[pos];
    }
    assert walked + [] == walked;
    return Numbers.Some(walked);
  }

  /** The `for key in orbits.keys()` loop: visited in any order, summing the hops of every key. */
  method Total(m: Orbits) returns (r: Numbers.Option<nat>)
    ensures r == TotalOrbits(m)
  {
    var keys := m.Keys;
    var total: nat := 0;
    Begun(m);
    while keys != {}
      invariant Progress(m, keys, total)
      decreases |keys|
    {
      var k :| k in keys;
      var h := Hops(m, k);
      if h.None? {
        Cyclic(m, k);
        return Numbers.None;
      }
      Counts(m, keys, total, k);
      total := total + h.value;
      keys := keys - {k};
    }
    Counted(m, total);
    return Numbers.Some(total);
  }

  /** The hops of the planets visited, those not in keys, add up to total. */
  ghost predicate Progress(m: Orbits, keys: set<string>, total: nat)
  {
    keys <= m.Keys && m.Keys - keys <= Depths(m).Keys
    && total == Tallies.Total(Tallies.Restrict(Depths(m), m.Keys - keys))
  }

  lemma Begun(m: Orbits)
    ensures Progress(m, m.Keys, 0)
  {
    assert m.Keys - m.Keys == {};
    Tallies.TotalRestrictAll(Depths(m));
  }

  /** Visiting one more planet adds its hops. */
  lemma Counts(m: Orbits, keys: set<string>, total: nat, k: string)
    requires Progress(m, keys, total) && k in keys && Ancestors(m, k).Some?
    ensures Progress(m, keys - {k}, total + |Ancestors(m, k).value|)
  {
    assert (m.Keys - keys) + {k} == m.Keys - (keys - {k});
    Tallies.TotalRestrict(Depths(m), m.Keys - keys, k);
  }

  /** A planet whose walk never ends makes the count go on forever. */
  lemma Cyclic(m: Orbits, k: string)
    requires k in m && Ancestors(m, k).None?
    ensures TotalOrbits(m) == Numbers.None
  {
  }

  /** Once every planet is visited, the sum is the total of orbits. */
  lemma Counted(m: Orbits, total: nat)
    requires Progress(m, {}, total)
    ensures TotalOrbits(m) == Numbers.Some(total)
  {
    assert m.Keys - {} == m.Keys == Depths(m).Keys;
    Tallies.TotalRestrictAll(Depths(m));
  }

  /** `path_map`: one more for each appearance of a planet. */
  function Tally(t: map<string, nat>, xs: seq<string>): map<string, nat>
  {
    if xs == [] then t else Tallies.Add(Tally(t, xs[..|xs| - 1]), xs[|xs| - 1], 1)
  }

  /** Each planet is counted as often as it appears. */
  lemma {:induction false} TallyCounts(t: map<string, nat>, xs: seq<string>)
    ensures Tally(t, xs).Keys == t.Keys + set x | x in xs
    ensures forall k :: Tallies.Get(Tally(t, xs), k) == Tallies.Get(t, k) + multiset(xs)[k]
  {
    if xs != [] {
      var n := |xs| - 1;
      TallyCounts(t, xs[..n]);
      assert xs == xs[..n] + [xs[n]];
      assert (set x | x in xs) == (set x | x in xs[..n]) + {xs[n]};
    }
  }

  /** The `for elem in &path` loop over one path. */
  method Tabulate(t: map<string, nat>, xs: seq<string>) returns (r: map<string, nat>)
    ensures r == Tally(t, xs)
  {
    r := t;
    for i := 0 to |xs|
      invariant r == Tally(t, xs[..i])
    {
      assert xs[..i + 1][..i] == xs[..i];
      r := Tallies.Add(r, xs[i], 1);
    }
    assert xs[..|xs|] == xs;
  }

  /** The planets counted exactly once. */
  function Ones(t: map<string, nat>): nat
  {
    |Once(t, t.Keys)|
  }

  /** The `for (_, seen) in path_map.iter()` loop, in any order. */
  method Singles(t: map<string, nat>) returns (n: nat)
    ensures n == Ones(t)
  {
    var keys := t.Keys;
    n := 0;
    assert t.Keys - keys == {};
    while keys != {}
      invariant keys <= t.Keys
      invariant n == |Once(t, t.Keys - keys)|
      decreases |keys|
    {
      var k :| k in keys;
      ghost var before := Once(t, t.Keys - keys);
      assert (t.Keys - keys) + {k} == t.Keys - (keys - {k});
      if t[k] == 1 {
        assert Once(t, (t.Keys - keys) + {k}) == before + {k};
        n := n + 1;
      } else {
        assert Once(t, (t.Keys - keys) + {k}) == before;
      }
      keys := keys - {k};
    }
    assert t.Keys - {} == t.Keys;
  }

  /** The keys of ks counted exactly once. */
  function Once(t: map<string, nat>, ks: set<string>): set<string>
  {
    set k | k in ks && k in t && t[k] == 1
  }

  /** The planets on exactly one of the two paths. */
  function Symmetric(p: seq<string>, q: seq<string>): set<string>
  {
    (set x | x in p && x !in q) + (set x | x in q && x !in p)
  }

  lemma DistinctOnce(s: seq<string>, x: string)
    requires Distinct(s)
    ensures multiset(s)[x] == if x in s then 1 else 0
  {
    if x in s {
      var i :| 0 <= i < |s| && s[i] == x;
      assert s == s[..i] + [x] + s[i + 1..];
      assert x !in s[..i] && x !in s[i + 1..] by {
        forall j | 0 <= j < |s| && j != i ensures s[j] != x { }
      }
      assert multiset(s) == multiset(s[..i]) + multiset{x} + multiset(s[i + 1..]);
    }
  }

  /** The transfer count: the planets seen once over both paths, counted with `path_map`. */
  function Transfers(p: seq<string>, q: seq<string>): nat
  {
    Ones(Tally(Tally(map[], p), q))
  }

  /** Over two paths that never repeat a planet, the planets seen once are those on exactly one path. */
  lemma TransfersMeans(p: seq<string>, q: seq<string>)
    requires Distinct(p) && Distinct(q)
    ensures Transfers(p, q) == |Symmetric(p, q)|
  {
    var t := Tally(Tally(map[], p), q);
    TallyCounts(map[], p);
    TallyCounts(Tally(map[], p), q);
    forall k | k in t
      ensures t[k] == (if k in p then 1 else 0) + (if k in q then 1 else 0)
    {
      DistinctOnce(p, k);
      DistinctOnce(q, k);
      assert t[k] == Tallies.Get(t, k);
    }
    assert Once(t, t.Keys) == Symmetric(p, q);
  }

  /** How the run ends: the total never finishes, or both answers. */
  datatype Outcome = Forever | Answers(total: nat, transfers: nat)

  /** `main` on the lines of the input. */
  method Run(lines: seq<string>) returns (r: Result<Outcome>)
    ensures r.Ok? <==> Recorded(map[], lines).Ok?
    ensures r.BadOrbit? ==> r.line == Recorded(map[], lines).line
    ensures r.Ok? ==> (r.value.Forever? <==> !Acyclic(Recorded(map[], lines).value))
    ensures r.Ok? && r.value.Answers? ==>
      TotalOrbits(Recorded(map[], lines).value) == Numbers.Some(r.value.total)
      && Ancestors(Recorded(map[], lines).value, "YOU").Some? && Ancestors(Recorded(map[], lines).value, "SAN").Some?
      && r.value.transfers == |Symmetric(Ancestors(Recorded(map[], lines).value, "YOU").value, Ancestors(Recorded(map[], lines).value, "SAN").value)|
  {
    var recorded := Record(lines);
    if recorded.BadOrbit? {
      return BadOrbit(recorded.line);
    }
    var m := recorded.value;
    var total := Total(m);
    if total.None? {
      return Ok(Forever);
    }
    Apart(m, "YOU");
    Apart(m, "SAN");
    var first := Climb(m, "YOU");
    var second := Climb(m, "SAN");
    var pathMap := Tabulate(map[], first.value);
    pathMap := Tabulate(pathMap, second.value);
    var shortest := Singles(pathMap);
    TransfersMeans(first.value, second.value);
    return Ok(Answers(total.value, shortest));
  }
}
