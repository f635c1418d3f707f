/**
 * Counter maps, as the hash maps of counts in several of the puzzles:
 * a missing key reads as 0, an entry is bumped by a count, and the total
 * of all counts is independent of the order in which keys are visited.
 */
module Tallies {

  /** `*map.entry(k).or_insert(0)` read as a value. */
  function Get<K>(m: map<K, nat>, k: K): nat
  {
    if k in m then m[k] else 0
  }

  /** `*map.entry(k).or_insert(0) += c`. */
  function Add<K(!new)>(m: map<K, nat>, k: K, c: nat): (r: map<K, nat>)
    ensures r.Keys == m.Keys + {k}
    ensures forall j :: Get(r, j) == Get(m, j) + (if j == k then c else 0)
  {
    m[k := Get(m, k) + c]
  }

  /** The sum of all counts. */
  ghost function Total<K>(m: map<K, nat>): nat
    decreases |m.Keys|
  {
    if m.Keys == {} then 0
    else
      var k :| k in m;
      assert (m - {k}).Keys == m.Keys - {k};
      m[k] + Total(m - {k})
  }

  /** Any key can be taken out first: the total does not depend on the order of the keys. */
  lemma {:induction false} TotalRemove<K>(m: map<K, nat>, k: K)
    requires k in m
    ensures Total(m) == m[k] + Total(m - {k})
    decreases m.Keys
  {
    assert (m - {k}).Keys == m.Keys - {k};
    var j :| j in m && Total(m) == m[j] + Total(m - {j});
    if j != k {
      assert (m - {j}).Keys == m.Keys - {j};
      TotalRemove(m - {j}, k);
      TotalRemove(m - {k}, j);
      assert (m - {j}) - {k} == (m - {k}) - {j};
    }
  }

  /** Bumping one key by c raises the total by c. */
  lemma TotalAdd<K(!new)>(m: map<K, nat>, k: K, c: nat)
    ensures Total(Add(m, k, c)) == Total(m) + c
  {
    var r := Add(m, k, c);
    TotalRemove(r, k);
    if k in m {
      TotalRemove(m, k);
      assert r - {k} == m - {k};
    } else {
      assert r - {k} == m;
    }
  }

  /** The entries whose keys are in ks. */
  function Restrict<K>(m: map<K, nat>, ks: set<K>): (r: map<K, nat>)
    ensures r.Keys == m.Keys * ks
  {
    map k | k in m.Keys && k in ks :: m[k]
  }

  /** Extending the visited keys by one key adds that key's count. */
  lemma TotalRestrict<K>(m: map<K, nat>, ks: set<K>, k: K)
    requires k in m && k !in ks
    ensures Total(Restrict(m, ks + {k})) == Total(Restrict(m, ks)) + m[k]
  {
    TotalRemove(Restrict(m, ks + {k}), k);
    assert Restrict(m, ks + {k}) - {k} == Restrict(m, ks);
  }

  lemma TotalRestrictAll<K>(m: map<K, nat>)
    ensures Restrict(m, m.Keys) == m
    ensures Restrict(m, {}) == map[] && Total(Restrict(m, {})) == 0
  {
  }

  /** Adding the next visited key's entry to a restriction extends it by that key. */
  lemma RestrictAdd<K(!new)>(m: map<K, nat>, ks: set<K>, k: K)
    requires k in m && k !in ks
    ensures Add(Restrict(m, ks), k, m[k]) == Restrict(m, ks + {k})
  {
    var r := Add(Restrict(m, ks), k, m[k]);
    assert forall j :: j in r ==> r[j] == Get(r, j);
  }

  /** Each count multiplied by a weight of its key. */
  function Weighted<K>(m: map<K, nat>, w: K -> nat): (r: map<K, nat>)
    ensures r.Keys == m.Keys
    ensures forall k :: k in r ==> r[k] == m[k] * w(k)
  {
    map k | k in m :: m[k] * w(k)
  }

  /** Every count multiplied by c. */
  function Scaled<K>(m: map<K, nat>, c: nat): (r: map<K, nat>)
    ensures r.Keys == m.Keys
    ensures forall k :: k in r ==> r[k] == c * m[k]
  {
    map k | k in m :: c * m[k]
  }

  /** Multiplying every count by the same factor multiplies the total by it. */
  lemma {:induction false} TotalScale<K>(m: map<K, nat>, c: nat)
    ensures Total(Scaled(m, c)) == c * Total(m)
    decreases m.Keys
  {
    if m.Keys != {} {
      var k :| k in m;
      TotalRemove(m, k);
      TotalRemove(Scaled(m, c), k);
      ScaledRemove(m, c, k);
      TotalScale(m - {k}, c);
      var a, b := m[k], Total(m - {k});
      assert Scaled(m, c)[k] == c * a;
      Distribute(c, a, b);
    } else {
      assert Scaled(m, c).Keys == {};
    }
  }

  lemma Distribute(c: nat, a: nat, b: nat)
    ensures c * (a + b) == c * a + c * b
  {
  }

  lemma ScaledRemove<K>(m: map<K, nat>, c: nat, k: K)
    ensures Scaled(m, c) - {k} == Scaled(m - {k}, c)
  {
  }

  /** Two count maps with the same keys that read the same everywhere are equal. */
  lemma SameCounts<K>(m: map<K, nat>, n: map<K, nat>)
    requires forall k :: k in m <==> k in n
    requires forall k :: Get(m, k) == Get(n, k)
    ensures m == n
  {
    assert forall k :: k in m ==> m[k] == Get(m, k);
    assert forall k :: k in n ==> n[k] == Get(n, k);
  }
}
