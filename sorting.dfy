/**
 * `sort` on vectors of integers, as several of the puzzles call it before
 * reading off their largest entries.
 */
module Sorting {

  predicate Ascending(s: seq<int>)
  {
    forall i, j :: 0 <= i < j < |s| ==> s[i] <= s[j]
  }

  /** x put into an ascending sequence before the first entry not below it. */
  function Insert(s: seq<int>, x: int): (r: seq<int>)
    requires Ascending(s)
    ensures multiset(r) == multiset(s) + multiset{x}
    ensures Ascending(r)
  {
    if s == [] then [x]
    else if x <= s[0] then
      AscendingCons(x, s);
      [x] + s
    else
      var rest := Insert(s[1..], x);
      assert s == [s[0]] + s[1..];
      InsertBound(s, x, rest);
      AscendingCons(s[0], rest);
      [s[0]] + rest
  }

  lemma AscendingCons(x: int, t: seq<int>)
    requires Ascending(t)
    requires forall v :: v in t ==> x <= v
    ensures Ascending([x] + t)
  {
    var r := [x] + t;
    forall i, j | 0 <= i < j < |r|
      ensures r[i] <= r[j]
    {
      assert r[j] == t[j - 1] && t[j - 1] in t;
      if i > 0 {
        assert r[i] == t[i - 1];
      }
    }
  }

  lemma InsertBound(s: seq<int>, x: int, rest: seq<int>)
    requires Ascending(s) && s != [] && s[0] < x
    requires multiset(rest) == multiset(s[1..]) + multiset{x}
    ensures forall v :: v in rest ==> s[0] <= v
  {
    forall v | v in rest
      ensures s[0] <= v
    {
      assert v in multiset(rest);
      if v != x {
        assert v in multiset(s[1..]);
        var j :| 0 <= j < |s[1..]| && s[1..][j] == v;
        assert s[j + 1] == v;
      }
    }
  }

  /** `sort`: the same entries, ascending. */
  function Sort(s: seq<int>): (r: seq<int>)
    ensures multiset(r) == multiset(s)
    ensures |r| == |s|
    ensures Ascending(r)
  {
    if s == [] then []
    else
      assert s == s[..|s| - 1] + [s[|s| - 1]];
      var r := Insert(Sort(s[..|s| - 1]), s[|s| - 1]);
      assert |r| == |multiset(r)| == |multiset(s)| == |s|;
      r
  }

  /** An ascending sequence with the same entries as s is Sort(s): sorting has one answer. */
  lemma {:induction false} SortUnique(s: seq<int>, t: seq<int>)
    requires Ascending(t) && multiset(t) == multiset(s)
    ensures t == Sort(s)
    decreases |t|
  {
    var r := Sort(s);
    AscendingUnique(r, t);
  }

  lemma {:induction false} AscendingUnique(a: seq<int>, b: seq<int>)
    requires Ascending(a) && Ascending(b) && multiset(a) == multiset(b)
    ensures a == b
    decreases |a|
  {
    assert |a| == |multiset(a)| && |b| == |multiset(b)|;
    if a != [] {
      LeastFirst(a, b);
      LeastFirst(b, a);
      Tails(a, b);
      AscendingUnique(a[1..], b[1..]);
      assert a == [a[0]] + a[1..] && b == [b[0]] + b[1..];
    }
  }

  /** The first entry of an ascending sequence is at most every entry of one with the same entries. */
  lemma LeastFirst(a: seq<int>, b: seq<int>)
    requires Ascending(a) && a != [] && b != [] && multiset(a) == multiset(b)
    ensures a[0] <= b[0]
  {
    assert b[0] in multiset(a);
    var j :| 0 <= j < |a| && a[j] == b[0];
  }

  lemma Tails(a: seq<int>, b: seq<int>)
    requires a != [] && b != [] && a[0] == b[0] && multiset(a) == multiset(b)
    ensures multiset(a[1..]) == multiset(b[1..])
  {
    assert a == [a[0]] + a[1..] && b == [b[0]] + b[1..];
    assert multiset(a[1..]) == multiset(a) - multiset{a[0]};
    assert multiset(b[1..]) == multiset(b) - multiset{b[0]};
  }
}
