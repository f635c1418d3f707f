/**
 * Inventory management (2018 day 2, in Go).  The checksum multiplies the
 * number of box IDs with some letter exactly twice by the number with some
 * letter exactly three times.  The common letters are those of an ID that
 * differs from another in at most one position, with that position removed.
 */
module InventoryManagement {
  const Modulus := 0x1_0000_0000_0000_0000

  /** Some letter of the ID occurs exactly k times in it. */
  predicate HasCount(id: string, k: nat)
  {
    exists i :: 0 <= i < |id| && multiset(id)[id[i]] == k
  }

  /** The number of IDs that have some letter exactly k times, each ID counted once. */
  function Tally(ids: seq<string>, k: nat): (r: nat)
    ensures r <= |ids|
  {
    if ids == [] then 0
    else Tally(ids[..|ids| - 1], k) + (if HasCount(ids[|ids| - 1], k) then 1 else 0)
  }

  /** The IDs of a longer list are tallied list by list. */
  lemma {:induction false} TallyAppend(a: seq<string>, b: seq<string>, k: nat)
    ensures Tally(a + b, k) == Tally(a, k) + Tally(b, k)
    decreases |b|
  {
    if b == [] {
      assert a + b == a;
    } else {
      var b' := b[..|b| - 1];
      assert (a + b)[..|a + b| - 1] == a + b';
      assert (a + b)[|a + b| - 1] == b[|b| - 1];
      TallyAppend(a, b', k);
    }
  }

  /** The tally counts exactly the IDs that have such a letter. */
  lemma {:induction false} TallyAll(ids: seq<string>, k: nat)
    ensures Tally(ids, k) == |ids| <==> forall i :: 0 <= i < |ids| ==> HasCount(ids[i], k)
    ensures Tally(ids, k) == 0 <==> forall i :: 0 <= i < |ids| ==> !HasCount(ids[i], k)
  {
    if ids != [] {
      var front := ids[..|ids| - 1];
      TallyAll(front, k);
      assert forall i :: 0 <= i < |front| ==> front[i] == ids[i];
    }
  }

  /** The `range boxID` loop: letterMap[c] is the number of times c occurs in the ID. */
  method Letters(id: string) returns (m: map<char, nat>)
    ensures forall ch :: ch in m <==> ch in id
    ensures forall ch :: ch in m ==> m[ch] == multiset(id)[ch]
  {
    m := map[];
    for i := 0 to |id|
      invariant forall ch :: ch in m <==> ch in id[..i]
      invariant forall ch :: ch in m ==> m[ch] == multiset(id[..i])[ch]
    {
      assert id[..i + 1] == id[..i] + [id[i]];
      var count := if id[i] in m then m[id[i]] else 0;
      m := m[id[i] := count + 1];
    }
    assert id[..|id|] == id;
  }

  /**
   * The `range letterMap` loop, in whatever order the map is visited: the
   * `switch` sets each flag once, for a count of two and for a count of three.
   */
  method Flags(m: map<char, nat>) returns (twiceBool: bool, thriceBool: bool)
    ensures twiceBool <==> exists ch :: ch in m && m[ch] == 2
    ensures thriceBool <==> exists ch :: ch in m && m[ch] == 3
  {
    twiceBool, thriceBool := false, false;
    var keys := m.Keys;
    while keys != {}
      invariant keys <= m.Keys
      invariant twiceBool <==> exists ch :: ch in m.Keys - keys && m[ch] == 2
      invariant thriceBool <==> exists ch :: ch in m.Keys - keys && m[ch] == 3
      decreases |keys|
    {
      var ch :| ch in keys;
      if m[ch] == 2 && !twiceBool {
        twiceBool := true;
      } else if m[ch] == 3 && !thriceBool {
        thriceBool := true;
      }
      keys := keys - {ch};
    }
  }

  /** The counts of an ID's letters have some letter k times exactly when the ID has. */
  lemma Counted(id: string, m: map<char, nat>, k: nat)
    requires forall ch :: ch in m <==> ch in id
    requires forall ch :: ch in m ==> m[ch] == multiset(id)[ch]
    ensures (exists ch :: ch in m && m[ch] == k) <==> HasCount(id, k)
  {
    if exists ch :: ch in m && m[ch] == k {
      var ch :| ch in m && m[ch] == k;
      var i :| 0 <= i < |id| && id[i] == ch;
      assert multiset(id)[id[i]] == k;
    }
    if HasCount(id, k) {
      var i :| 0 <= i < |id| && multiset(id)[id[i]] == k;
      assert id[i] in m;
    }
  }

  /** `checksum`: the two tallies multiplied as a 64-bit `uint`. */
  method Checksum(ids: seq<string>) returns (r: nat)
    ensures r == Tally(ids, 2) * Tally(ids, 3) % Modulus
  {
    var twice, thrice := 0, 0;
    for n := 0 to |ids|
      invariant twice == Tally(ids[..n], 2) && thrice == Tally(ids[..n], 3)
    {
      assert ids[..n + 1][..n] == ids[..n] && ids[..n + 1][n] == ids[n];
      var letterMap := Letters(ids[n]);
      var twiceBool, thriceBool := Flags(letterMap);
      Counted(ids[n], letterMap, 2);
      Counted(ids[n], letterMap, 3);
      if twiceBool {
        twice := twice + 1;
      }
      if thriceBool {
        thrice := thrice + 1;
      }
    }
    assert ids[..|ids|] == ids;
    r := twice * thrice % Modulus;
  }

  /** The letter loop's outcome: the mismatches counted (it stops at two) and the last one's position. */
  datatype Diff = Differ(bad: nat, at: nat) | OutOfRange

  /**
   * `for letterIndex := range boxID` from position i on, with bad
   * mismatches so far and the last at `at`; indexing the other ID past
   * its end panics.
   */
  function Walk(x: string, y: string, i: nat, bad: nat, at: nat): (d: Diff)
    ensures d.Differ? ==> d.bad >= bad
    decreases |x| - i
  {
    if i >= |x| then Differ(bad, at)
    else if i >= |y| then OutOfRange
    else if x[i] != y[i] then
      if bad + 1 > 1 then Differ(bad + 1, i) else Walk(x, y, i + 1, bad + 1, i)
    else Walk(x, y, i + 1, bad, at)
  }

  /** The letter loop of `commonBoxIDLetters`, comparing one ID with another. */
  method Compare(x: string, y: string) returns (d: Diff)
    ensures d == Walk(x, y, 0, 0, 0)
  {
    var badCount, badIndex := 0, 0;
    for i := 0 to |x|
      invariant badCount <= 1 && Walk(x, y, 0, 0, 0) == Walk(x, y, i, badCount, badIndex)
    {
      if i >= |y| {
        return OutOfRange;
      }
      if x[i] != y[i] {
        badCount := badCount + 1;
        badIndex := i;
        if badCount > 1 {
          return Differ(badCount, badIndex);
        }
      }
    }
    return Differ(badCount, badIndex);
  }

  /** The number of positions below n where the two IDs differ. */
  function Mismatches(x: string, y: string, n: nat): nat
    requires n <= |x| && n <= |y|
  {
    if n == 0 then 0 else Mismatches(x, y, n - 1) + (if x[n - 1] != y[n - 1] then 1 else 0)
  }

  lemma {:induction false} MismatchesGrow(x: string, y: string, m: nat, n: nat)
    requires m <= n <= |x| && n <= |y|
    ensures Mismatches(x, y, m) <= Mismatches(x, y, n)
    decreases n - m
  {
    if m < n {
      MismatchesGrow(x, y, m, n - 1);
    }
  }

  lemma {:induction false} NoMismatches(x: string, y: string, n: nat)
    requires n <= |x| && n <= |y| && Mismatches(x, y, n) == 0
    ensures forall p :: 0 <= p < n ==> x[p] == y[p]
  {
    if n > 0 {
      NoMismatches(x, y, n - 1);
    }
  }

  /** x fits in y and the two differ in at most one of x's positions. */
  predicate Close(x: string, y: string)
  {
    |x| <= |y| && Mismatches(x, y, |x|) <= 1
  }

  /** The letter loop ends with at most one mismatch exactly when the IDs are close. */
  lemma {:induction false} WalkFrom(x: string, y: string, i: nat, bad: nat, at: nat)
    requires i <= |x| && i <= |y| && bad == Mismatches(x, y, i) && bad <= 1
    requires forall p :: 0 <= p < i && p != at ==> x[p] == y[p]
    requires bad == 0 ==> at == 0 && forall p :: 0 <= p < i ==> x[p] == y[p]
    requires bad == 1 ==> at < i
    ensures var d := Walk(x, y, i, bad, at); d.Differ? && d.bad <= 1 <==> Close(x, y)
    ensures var d := Walk(x, y, i, bad, at); d.Differ? && d.bad <= 1 ==>
      d.bad == Mismatches(x, y, |x|) && (d.bad == 0 ==> d.at == 0) && (d.bad == 1 ==> d.at < |x|) &&
      forall p :: 0 <= p < |x| && p != d.at ==> x[p] == y[p]
    decreases |x| - i
  {
    if i < |x| && i < |y| {
      if x[i] != y[i] {
        if bad == 1 {
          if |x| <= |y| {
            MismatchesGrow(x, y, i + 1, |x|);
          }
        } else {
          WalkFrom(x, y, i + 1, bad + 1, i);
        }
      } else {
        WalkFrom(x, y, i + 1, bad, at);
      }
    }
  }

  /** Comparing IDs ends with at most one mismatch exactly when they are close, and then all other positions agree. */
  lemma WalkClose(x: string, y: string)
    ensures var d := Walk(x, y, 0, 0, 0); d.Differ? && d.bad <= 1 <==> Close(x, y)
    ensures var d := Walk(x, y, 0, 0, 0); d.Differ? && d.bad <= 1 ==>
      (d.bad == 0 ==> d.at == 0 && x == y[..|x|]) && (d.bad == 1 ==> d.at < |x|) && forall p :: 0 <= p < |x| && p != d.at ==> x[p] == y[p]
  {
    WalkFrom(x, y, 0, 0, 0);
    var d := Walk(x, y, 0, 0, 0);
    if d.Differ? && d.bad == 0 {
      NoMismatches(x, y, |x|);
      assert x == y[..|x|];
    }
  }

  /** The ID without its letter at position `at`. */
  function Drop(x: string, at: nat): (r: string)
    requires at < |x|
    ensures |r| == |x| - 1
    ensures forall p :: 0 <= p < |r| ==> r[p] == if p < at then x[p] else x[p + 1]
  {
    x[..at] + x[at + 1..]
  }

  /** What `commonBoxIDLetters` returns: the common letters, "" when no pair qualifies, or a panic. */
  datatype Outcome = Found(letters: string) | NotFound | Panic

  /**
   * Comparing boxID x with compBoxID y: a panic indexing y, no answer for
   * two or more mismatches, and otherwise x without the last mismatched
   * position (position 0 when there is none), which panics when x is empty.
   */
  function Verdict(x: string, y: string): Outcome
  {
    match Walk(x, y, 0, 0, 0)
    case OutOfRange => Panic
    case Differ(bad, at) =>
      if bad > 1 then NotFound
      else if at + 1 > |x| then Panic
      else Found(Drop(x, at))
  }

  /** A pair gives an answer exactly when the IDs are close and x is not empty; the answer is x less one letter, where the two may differ. */
  lemma VerdictMeans(x: string, y: string)
    ensures Verdict(x, y).Found? <==> Close(x, y) && x != []
    ensures Verdict(x, y).NotFound? ==> !Close(x, y)
    ensures Verdict(x, y).Found? ==>
      exists at :: 0 <= at < |x| && Verdict(x, y).letters == Drop(x, at) && (forall p :: 0 <= p < |x| && p != at ==> x[p] == y[p])
  {
    WalkClose(x, y);
    var d := Walk(x, y, 0, 0, 0);
    if d.Differ? && d.bad <= 1 && d.at < |x| {
      assert Verdict(x, y).letters == Drop(x, d.at);
    }
  }

  /** Identical IDs agree everywhere, so the answer drops their first letter. */
  lemma SameVerdict(x: string)
    requires x != []
    ensures Verdict(x, x) == Found(x[1..])
  {
    WalkClose(x, x);
    WalkFrom(x, x, 0, 0, 0);
    assert Mismatches(x, x, |x|) == 0 by {
      SameMismatches(x, |x|);
    }
  }

  lemma {:induction false} SameMismatches(x: string, n: nat)
    requires n <= |x|
    ensures Mismatches(x, x, n) == 0
  {
    if n > 0 {
      SameMismatches(x, n - 1);
    }
  }

  /** Lines 70-86 of `commonBoxIDLetters` for one boxID and one compBoxID. */
  method Judge(x: string, y: string) returns (v: Outcome)
    ensures v == Verdict(x, y)
  {
    var d := Compare(x, y);
    if d.OutOfRange? {
      return Panic;
    }
    if d.bad <= 1 {
      if d.at + 1 > |x| {
        return Panic;
      }
      return Found(x[..d.at] + x[d.at + 1..]);
    }
    return NotFound;
  }

  /**
   * The `range boxIDs` loop for compBoxID: the first verdict other than
   * "no answer" over positions k.. of the first len entries of the backing
   * array, skipping the position of boxID itself.
   */
  function Match(x: string, arr: seq<string>, len: nat, index: nat, k: nat): Outcome
    requires len <= |arr|
    decreases len - k
  {
    if k >= len then NotFound
    else if k == index then Match(x, arr, len, index, k + 1)
    else
      var v := Verdict(x, arr[k]);
      if v.NotFound? then Match(x, arr, len, index, k + 1) else v
  }

  /**
   * `boxIDs = append(boxIDs[:index], boxIDs[index+1:]...)`: the entries
   * after position `index` of the first len move down by one in the
   * shared backing array, whose other entries keep their values.
   */
  function Removed(arr: seq<string>, index: nat, len: nat): (r: seq<string>)
    requires index < len <= |arr|
    ensures |r| == |arr|
    ensures forall k :: 0 <= k < |arr| ==> r[k] == if index <= k < len - 1 then arr[k + 1] else arr[k]
  {
    arr[..index] + arr[index + 1..len] + arr[len - 1..]
  }

  /**
   * `commonBoxIDLetters` as written.  The outer `range` reads position
   * `index` of the backing array, which the removals have shifted; the
   * inner one ranges over the first len entries; the removal panics once
   * `index + 1` passes the current length.
   */
  function Scan(arr: seq<string>, len: nat, index: nat): Outcome
    requires len <= |arr|
    decreases |arr| - index
  {
    if index >= |arr| then NotFound
    else
      var v := Match(arr[index], arr, len, index, 0);
      if !v.NotFound? then v
      else if index + 1 > len then Panic
      else Scan(Removed(arr, index, len), len - 1, index + 1)
  }

  /** The `append` at line 89, moving the entries of the backing array in place. */
  method Remove(a: array<string>, index: nat, len: nat)
    requires index < len <= a.Length
    modifies a
    ensures a[..] == Removed(old(a[..]), index, len)
  {
    for j := index to len - 1
      invariant forall k :: 0 <= k < index || j <= k < a.Length ==> a[k] == old(a[k])
      invariant forall k :: index <= k < j ==> a[k] == old(a[k + 1])
    {
      a[j] := a[j + 1];
    }
  }

  /** `commonBoxIDLetters`, with the slice's backing array as an array. */
  method CommonBoxIDLetters(ids: seq<string>) returns (r: Outcome)
    ensures r == Scan(ids, |ids|, 0)
  {
    var a := new string[|ids|](k requires 0 <= k < |ids| => ids[k]);
    assert a[..] == ids;
    var len: nat := |ids|;
    for index := 0 to |ids|
      invariant len <= a.Length == |ids|
      invariant Scan(ids, |ids|, 0) == Scan(a[..], len, index)
    {
      var boxID := a[index];
      ghost var arr := a[..];
      for compIndex := 0 to len
        invariant a[..] == arr
        invariant Match(boxID, arr, len, index, 0) == Match(boxID, arr, len, index, compIndex)
      {
        if index != compIndex {
          var v := Judge(boxID, a[compIndex]);
          if !v.NotFound? {
            return v;
          }
        }
      }
      if index + 1 > len {
        return Panic;
      }
      Remove(a, index, len);
      len := len - 1;
    }
    return NotFound;
  }

  /** Every answer the scan gives is the verdict on two entries of the list; they need not be at different positions. */
  lemma {:induction false} ScanSound(ids: seq<string>, arr: seq<string>, len: nat, index: nat)
    requires len <= |arr| && forall k :: 0 <= k < |arr| ==> arr[k] in ids
    ensures var o := Scan(arr, len, index); o.Found? ==> exists x, y :: x in ids && y in ids && Verdict(x, y) == o
    decreases |arr| - index
  {
    if index < |arr| {
      var v := Match(arr[index], arr, len, index, 0);
      MatchSound(arr[index], arr, len, index, 0);
      if !v.NotFound? {
        var j :| 0 <= j < len && j != index && Verdict(arr[index], arr[j]) == v;
        assert arr[index] in ids && arr[j] in ids;
      } else if index + 1 <= len {
        var next := Removed(arr, index, len);
        assert forall k :: 0 <= k < |next| ==> next[k] in ids;
        ScanSound(ids, next, len - 1, index + 1);
      }
    }
  }

  /** A verdict of the inner loop is that of boxID and an entry at another position. */
  lemma {:induction false} MatchSound(x: string, arr: seq<string>, len: nat, index: nat, k: nat)
    requires len <= |arr|
    ensures var o := Match(x, arr, len, index, k); !o.NotFound? ==> exists j :: k <= j < len && j != index && Verdict(x, arr[j]) == o
    decreases len - k
  {
    if k < len && (k == index || Verdict(x, arr[k]).NotFound?) {
      MatchSound(x, arr, len, index, k + 1);
    }
  }

  /**
   * As written, two IDs that differ everywhere still give an answer: the
   * removal leaves the second ID at both positions of the backing array,
   * and the outer loop then compares it with its own copy.
   */
  lemma SelfMatch()
    ensures Scan(["ab", "cd"], 2, 0) == Found("d")
    ensures !Close("ab", "cd") && !Close("cd", "ab")
  {
    assert Walk("ab", "cd", 0, 0, 0) == Differ(2, 1);
    assert Walk("cd", "ab", 0, 0, 0) == Differ(2, 1);
    WalkClose("ab", "cd");
    WalkClose("cd", "ab");
    assert Match("ab", ["ab", "cd"], 2, 0, 0) == NotFound;
    assert Removed(["ab", "cd"], 0, 2) == ["cd", "cd"];
    assert Walk("cd", "cd", 0, 0, 0) == Differ(0, 0);
    assert Verdict("cd", "cd") == Found("d");
    assert Match("cd", ["cd", "cd"], 1, 1, 0) == Found("d");
  }

  /**
   * As written, three IDs of which no two are close panic instead of
   * giving "": the third removal slices past the shortened list.
   */
  lemma SliceOverrun()
    ensures Scan(["ab", "cd", "ef"], 3, 0) == Panic
    ensures forall i, j :: 0 <= i < 3 && 0 <= j < 3 && i != j ==> Verdict(["ab", "cd", "ef"][i], ["ab", "cd", "ef"][j]) == NotFound
  {
    var ids := ["ab", "cd", "ef"];
    forall i, j | 0 <= i < 3 && 0 <= j < 3 && i != j
      ensures Verdict(ids[i], ids[j]) == NotFound
    {
      assert Walk(ids[i], ids[j], 0, 0, 0) == Differ(2, 1);
    }
    assert Match("ab", ids, 3, 0, 0) == NotFound;
    var a1 := Removed(ids, 0, 3);
    assert a1 == ["cd", "ef", "ef"];
    assert Match("ef", a1, 2, 1, 0) == NotFound;
    var a2 := Removed(a1, 1, 2);
    assert a2 == ["cd", "ef", "ef"];
    assert Match("ef", a2, 1, 2, 0) == NotFound;
  }

  /**
   * `commonBoxIDLetters` without the removal at line 89: every boxID is
   * compared with the compBoxID at every other position of the list.
   */
  method CommonBoxIDLettersFixed(ids: seq<string>) returns (r: Outcome)
    ensures r.Found? || r.Panic? ==> exists i, j :: 0 <= i < |ids| && 0 <= j < |ids| && i != j && Verdict(ids[i], ids[j]) == r
    ensures r.NotFound? <==> forall i, j :: 0 <= i < |ids| && 0 <= j < |ids| && i != j ==> Verdict(ids[i], ids[j]) == NotFound
  {
    for index := 0 to |ids|
      invariant forall i, j :: 0 <= i < index && 0 <= j < |ids| && i != j ==> Verdict(ids[i], ids[j]) == NotFound
    {
      for compIndex := 0 to |ids|
        invariant forall j :: 0 <= j < compIndex && j != index ==> Verdict(ids[index], ids[j]) == NotFound
      {
        if index != compIndex {
          var v := Judge(ids[index], ids[compIndex]);
          if !v.NotFound? {
            return v;
          }
        }
      }
    }
    return NotFound;
  }

  /** With the fix, an answer comes from two IDs at different positions that are close; "" means no two distinct positions hold close IDs of which the first is non-empty. */
  lemma FixedMeans(ids: seq<string>, r: Outcome)
    requires r.Found? ==> exists i, j :: 0 <= i < |ids| && 0 <= j < |ids| && i != j && Verdict(ids[i], ids[j]) == r
    requires r.NotFound? <==> forall i, j :: 0 <= i < |ids| && 0 <= j < |ids| && i != j ==> Verdict(ids[i], ids[j]) == NotFound
    ensures r.Found? ==> exists i, j :: 0 <= i < |ids| && 0 <= j < |ids| && i != j && Close(ids[i], ids[j]) && ids[i] != []
    ensures r.NotFound? ==> forall i, j :: 0 <= i < |ids| && 0 <= j < |ids| && i != j ==> !Close(ids[i], ids[j])
  {
    if r.Found? {
      var i, j :| 0 <= i < |ids| && 0 <= j < |ids| && i != j && Verdict(ids[i], ids[j]) == r;
      VerdictMeans(ids[i], ids[j]);
    }
    if r.NotFound? {
      forall i, j | 0 <= i < |ids| && 0 <= j < |ids| && i != j
        ensures !Close(ids[i], ids[j])
      {
        VerdictMeans(ids[i], ids[j]);
      }
    }
  }
}
