/**
 * Start-of-packet search of day6/src/main.rs: a window of `length` tokens
 * slides over the signal, a map counts the tokens inside it, and the
 * search stops at the first window whose tokens are all different.
 */
module TuningTrouble {

  /** The tokens of s are pairwise different. */
  predicate Distinct(s: seq<char>)
  {
    forall i, j :: 0 <= i < j < |s| ==> s[i] != s[j]
  }

  /** The window of `length` tokens at position s lies inside the signal and its tokens all differ. */
  predicate UniqueAt(tokens: seq<char>, length: nat, s: nat)
  {
    s + length <= |tokens| && Distinct(tokens[s..s + length])
  }

  /** The windows tested start at 1, 2, ... up to |tokens| - length; the last one is also the fallback. */
  function Search(tokens: seq<char>, length: nat, s: nat): (r: nat)
    requires 1 <= s && s + length <= |tokens|
    ensures s <= r && r + length <= |tokens|
    decreases |tokens| - s
  {
    if s + length >= |tokens| then |tokens| - length
    else if Distinct(tokens[s..s + length]) then s
    else Search(tokens, length, s + 1)
  }

  /** The answer of `find_unique_packet`: 0 while the signal is no longer than the window. */
  function FirstUnique(tokens: seq<char>, length: nat): (r: nat)
    ensures |tokens| <= length ==> r == 0
    ensures |tokens| > length ==> 1 <= r <= |tokens| - length
  {
    if |tokens| <= length then 0 else Search(tokens, length, 1)
  }

  /**
   * What the answer means: for a signal longer than the window it is the
   * first window from position 1 on whose tokens all differ, or the last
   * window when there is none; position 0 is never tested.
   */
  lemma {:induction false} FirstUniqueMeans(tokens: seq<char>, length: nat)
    requires |tokens| > length
    ensures var r := FirstUnique(tokens, length);
      1 <= r <= |tokens| - length
      && (UniqueAt(tokens, length, r) || r == |tokens| - length)
      && forall s :: 1 <= s < r ==> !UniqueAt(tokens, length, s)
  {
    SearchMeans(tokens, length, 1);
  }

  lemma {:induction false} SearchMeans(tokens: seq<char>, length: nat, s: nat)
    requires 1 <= s && s + length <= |tokens|
    ensures var r := Search(tokens, length, s);
      (UniqueAt(tokens, length, r) || r == |tokens| - length)
      && forall t :: s <= t < r ==> !UniqueAt(tokens, length, t)
    decreases |tokens| - s
  {
    if s + length < |tokens| && !Distinct(tokens[s..s + length]) {
      SearchMeans(tokens, length, s + 1);
    }
  }

  /** The first unique window from s on, or the last window, is what the search from s finds. */
  lemma {:induction false} SearchFinds(tokens: seq<char>, length: nat, s: nat, r: nat)
    requires 1 <= s <= r && r + length <= |tokens|
    requires UniqueAt(tokens, length, r) || r + length == |tokens|
    requires forall t :: s <= t < r ==> !UniqueAt(tokens, length, t)
    ensures Search(tokens, length, s) == r
    decreases r - s
  {
    if s < r {
      assert !UniqueAt(tokens, length, s);
      SearchFinds(tokens, length, s + 1, r);
    }
  }

  /** A unique window at position 0 is not enough: "abcdd" with windows of four answers 1. */
  lemma ZeroWindowSkipped()
    ensures Distinct("abcdd"[0..4]) && FirstUnique("abcdd", 4) == 1
  {
    assert !Distinct("abcdd"[1..5]) by {
      assert "abcdd"[1..5][2] == "abcdd"[1..5][3];
    }
  }

  /** The intended search, which tests the window at position 0 as well. */
  function FirstUniqueFrom0(tokens: seq<char>, length: nat): (r: nat)
    ensures |tokens| >= length ==> r + length <= |tokens|
  {
    if |tokens| < length || UniqueAt(tokens, length, 0) then 0 else FirstUnique(tokens, length)
  }

  /** The intended answer is the first unique window from position 0 on, or the last window when there is none. */
  lemma FirstUniqueFrom0Means(tokens: seq<char>, length: nat)
    requires |tokens| >= length
    ensures var r := FirstUniqueFrom0(tokens, length);
      (UniqueAt(tokens, length, r) || r == |tokens| - length)
      && forall s :: 0 <= s < r ==> !UniqueAt(tokens, length, s)
  {
    if |tokens| > length && !UniqueAt(tokens, length, 0) {
      FirstUniqueMeans(tokens, length);
    }
  }

  /** On "abcdd" with windows of four the intended search answers 0. */
  lemma ZeroWindowFound()
    ensures FirstUniqueFrom0("abcdd", 4) == 0
  {
  }

  /** The map holds exactly the multiplicities of w, each at least one. */
  predicate Holds(frame: map<char, int>, w: multiset<char>)
  {
    (forall c :: c in frame <==> c in w) && forall c :: c in frame ==> frame[c] == w[c]
  }

  /** A window's tokens all differ exactly when no token occurs in it twice. */
  lemma DistinctCounts(s: seq<char>)
    ensures Distinct(s) <==> forall c :: multiset(s)[c] <= 1
  {
    if Distinct(s) {
      DistinctOnce(s);
    } else {
      var i, j :| 0 <= i < j < |s| && s[i] == s[j];
      assert s == s[..j] + s[j..];
      assert multiset(s) == multiset(s[..j]) + multiset(s[j..]);
      assert s[i] in multiset(s[..j]) && s[j] in multiset(s[j..]);
      assert multiset(s)[s[i]] >= 2;
    }
  }

  lemma {:induction false} DistinctOnce(s: seq<char>)
    requires Distinct(s)
    ensures forall c :: multiset(s)[c] <= 1
  {
    if s != [] {
      var rest := s[1..];
      assert s == [s[0]] + rest;
      assert Distinct(rest) by {
        assert forall j :: 0 <= j < |rest| ==> rest[j] == s[j + 1];
      }
      DistinctOnce(rest);
      assert s[0] !in rest by {
        assert forall j :: 0 <= j < |rest| ==> rest[j] == s[j + 1];
      }
      assert multiset(s) == multiset{s[0]} + multiset(rest);
    }
  }

  /** The inner `for count in frame.values()` loop: whether every count is exactly one. */
  method AllSingle(frame: map<char, int>) returns (single: bool)
    ensures single <==> forall c :: c in frame ==> frame[c] == 1
  {
    var remaining := frame.Keys;
    while remaining != {}
      invariant remaining <= frame.Keys
      invariant forall c :: c in frame && c !in remaining ==> frame[c] == 1
      decreases remaining
    {
      var c :| c in remaining;
      if frame[c] != 1 {
        return false;
      }
      remaining := remaining - {c};
    }
    return true;
  }

  /** The first half of a window move: the count of c drops by one and a count at or below zero is removed. */
  method Evict(frame: map<char, int>, c: char, ghost w: multiset<char>) returns (next: map<char, int>)
    requires Holds(frame, w)
    ensures Holds(next, w - multiset{c})
  {
    var entry := if c in frame then frame[c] else 0;
    entry := entry - 1;
    if entry <= 0 {
      next := frame - {c};
    } else {
      next := frame[c := entry];
    }
  }

  /** The second half: the count of d rises by one, starting from zero. */
  method Admit(frame: map<char, int>, d: char, ghost w: multiset<char>) returns (next: map<char, int>)
    requires Holds(frame, w)
    ensures Holds(next, w + multiset{d})
  {
    var entry := if d in frame then frame[d] else 0;
    entry := entry + 1;
    next := frame[d := entry];
  }

  /**
   * One turn of the loop before the test: once the window is full its
   * oldest token leaves and `start` moves on, then token `index` enters.
   * With `length` 0 the leaving token is the one about to enter, so the
   * map ends up holding only that token.
   */
  method Slide(tokens: seq<char>, length: nat, frame: map<char, int>, start: nat, index: nat)
    returns (next: map<char, int>, moved: nat)
    requires index < |tokens| && start == if index <= length then 0 else index - length
    requires Holds(frame, multiset(tokens[start..index]))
    ensures moved == if index >= length then start + 1 else start
    ensures length >= 1 ==> Holds(next, multiset(tokens[moved..index + 1]))
    ensures length == 0 ==> Holds(next, multiset{tokens[index]})
  {
    if index >= length {
      next := Evict(frame, tokens[start], multiset(tokens[start..index]));
      moved := start + 1;
      if length >= 1 {
        DropFirst(tokens, start, index);
      }
    } else {
      next := frame;
      moved := start;
    }
    ghost var w := if length >= 1 then multiset(tokens[moved..index]) else multiset{};
    next := Admit(next, tokens[index], w);
    if length >= 1 {
      AddLast(tokens, moved, index);
    }
  }

  lemma DropFirst(s: seq<char>, lo: nat, hi: nat)
    requires lo < hi <= |s|
    ensures multiset(s[lo..hi]) - multiset{s[lo]} == multiset(s[lo + 1..hi])
  {
    assert s[lo..hi] == [s[lo]] + s[lo + 1..hi];
  }

  lemma AddLast(s: seq<char>, lo: nat, hi: nat)
    requires lo <= hi < |s|
    ensures multiset(s[lo..hi]) + multiset{s[hi]} == multiset(s[lo..hi + 1])
  {
    assert s[lo..hi + 1] == s[lo..hi] + [s[hi]];
  }

  /** The test after a move: every count is one exactly when the window at `start` is unique. */
  method Test(tokens: seq<char>, length: nat, frame: map<char, int>, start: nat, index: nat) returns (single: bool)
    requires index < |tokens| && start + length == index + 1
    requires length >= 1 ==> Holds(frame, multiset(tokens[start..index + 1]))
    requires length == 0 ==> Holds(frame, multiset{tokens[index]})
    ensures single <==> UniqueAt(tokens, length, start)
  {
    single := AllSingle(frame);
    if length >= 1 {
      DistinctCounts(tokens[start..index + 1]);
    } else {
      assert frame == map[tokens[index] := 1];
    }
  }

  /** `find_unique_packet`. */
  method FindUniquePacket(tokens: seq<char>, length: nat) returns (start: nat)
    ensures start == FirstUnique(tokens, length)
  {
    var frame: map<char, int> := map[];
    start := 0;
    var index := 0;
    while index < |tokens|
      invariant 0 <= index <= |tokens|
      invariant length == 0 ==> index == 0
      invariant start == if index <= length then 0 else index - length
      invariant index - start <= length
      invariant Holds(frame, multiset(tokens[start..index]))
      invariant forall t :: 1 <= t <= start ==> !UniqueAt(tokens, length, t)
    {
      frame, start := Slide(tokens, length, frame, start, index);
      if index >= length {
        var single := Test(tokens, length, frame, start, index);
        if single {
          SearchFinds(tokens, length, 1, start);
          return;
        }
      }
      index := index + 1;
    }
    if |tokens| > length {
      SearchFinds(tokens, length, 1, start);
    }
  }
}
